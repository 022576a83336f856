/** The stored-timestamp normaliser of the profile repository: a chain of
    rewrites that turns a timestamp as the store emits it
    (`2026-02-13 07:40:11.123456+00`) into an offset-qualified one
    (`2026-02-13T07:40:11.123456+00:00`). */
module DbTimestamp {
  import opened Wrappers
  import opened Text

  predicate IsDigit(c: char) { '0' <= c <= '9' }

  predicate IsSign(c: char) { c == '+' || c == '-' }

  /** The pattern `/([+-]\d{2})(\d{2})$/`: a sign and four digits at the end. */
  predicate EndsWithCompactOffset(s: string) {
    |s| >= 5 && IsSign(s[|s| - 5]) && IsDigit(s[|s| - 4]) && IsDigit(s[|s| - 3])
    && IsDigit(s[|s| - 2]) && IsDigit(s[|s| - 1])
  }

  /** The pattern `/([+-]\d{2})$/`: a sign and two digits at the end. */
  predicate EndsWithHourOffset(s: string) {
    |s| >= 3 && IsSign(s[|s| - 3]) && IsDigit(s[|s| - 2]) && IsDigit(s[|s| - 1])
  }

  /** The pattern `/[+-]\d{2}:\d{2}$/`: a full `±HH:MM` offset at the end. */
  predicate EndsWithOffset(s: string) {
    |s| >= 6 && IsSign(s[|s| - 6]) && IsDigit(s[|s| - 5]) && IsDigit(s[|s| - 4])
    && s[|s| - 3] == ':' && IsDigit(s[|s| - 2]) && IsDigit(s[|s| - 1])
  }

  /** The pattern `/[zZ]|[+-]\d{2}:\d{2}$/`: a zone letter anywhere, or a full
      offset at the end. */
  predicate HasZone(s: string) {
    'z' in s || 'Z' in s || EndsWithOffset(s)
  }

  /** `s.replace(from, to)` with a one-character string pattern: only the
      first occurrence is replaced. */
  function ReplaceFirst(s: string, from: char, to: char): (r: string)
    ensures |r| == |s|
    ensures from !in s ==> r == s
    ensures from in s ==> r == s[FirstIndex(s, from) := to]
    decreases |s|
  {
    if s == [] then []
    else if s[0] == from then [to] + s[1..]
    else [s[0]] + ReplaceFirst(s[1..], from, to)
  }

  /** The separator step: `if (!s.includes('T')) s = s.replace(' ', 'T')`. */
  function InsertSeparator(s: string): (r: string)
    ensures |r| == |s|
    ensures 'T' in s || ' ' in s ==> 'T' in r
    ensures 'T' !in s && ' ' in s ==> r == s[FirstIndex(s, ' ') := 'T']
    ensures 'T' in s || ' ' !in s ==> r == s
    ensures ' ' in r ==> ' ' in s
    ensures Trimmed(s) ==> Trimmed(r)
  {
    if 'T' in s || ' ' !in s then s
    else
      var k := FirstIndex(s, ' ');
      var r := ReplaceFirst(s, ' ', 'T');
      assert r[k] == 'T';
      assert ' ' in r ==> ' ' in s by {
        if ' ' in r { var j :| 0 <= j < |r| && r[j] == ' '; assert s[j] == ' '; }
      }
      r
  }

  /** The offset-colon step: `s.replace(/([+-]\d{2})(\d{2})$/, '$1:$2')`. */
  function InsertOffsetColon(s: string): (r: string)
    ensures EndsWithCompactOffset(s) ==> EndsWithOffset(r) && |r| == |s| + 1
    ensures EndsWithCompactOffset(s) ==> r[|s| - 2] == ':' && r[|s| - 1..] == s[|s| - 2..]
    ensures !EndsWithCompactOffset(s) ==> r == s
    ensures forall k | 0 <= k < |s| - 2 :: r[k] == s[k]
    ensures ' ' in r ==> ' ' in s
    ensures 'T' in s ==> 'T' in r
    ensures Trimmed(s) ==> Trimmed(r)
  {
    if EndsWithCompactOffset(s) then
      var r := s[..|s| - 2] + ":" + s[|s| - 2..];
      assert ' ' in r ==> ' ' in s by {
        if ' ' in r {
          var j :| 0 <= j < |r| && r[j] == ' ';
          assert j < |s| - 2;
          assert s[j] == ' ';
        }
      }
      assert 'T' in s ==> 'T' in r by {
        if 'T' in s {
          var j :| 0 <= j < |s| && s[j] == 'T';
          assert j < |s| - 4;
          assert r[j] == 'T';
        }
      }
      r
    else s
  }

  /** The offset-minutes step: `if (/([+-]\d{2})$/.test(s)) s = s + ':00'`. */
  function PadHourOffset(s: string): (r: string)
    ensures EndsWithHourOffset(s) ==> EndsWithOffset(r) && |r| == |s| + 3 && r[..|s|] == s
    ensures EndsWithHourOffset(s) ==> r[|s|..] == ":00"
    ensures !EndsWithHourOffset(s) ==> r == s
    ensures ' ' in r ==> ' ' in s
    ensures 'T' in s ==> 'T' in r
    ensures Trimmed(s) ==> Trimmed(r)
  {
    if EndsWithHourOffset(s) then
      var r := s + ":00";
      assert ' ' in r ==> ' ' in s by {
        if ' ' in r {
          var j :| 0 <= j < |r| && r[j] == ' ';
          assert j < |s| && s[j] == ' ';
        }
      }
      assert 'T' in s ==> 'T' in r by {
        if 'T' in s {
          var j :| 0 <= j < |s| && s[j] == 'T';
          assert r[j] == 'T';
        }
      }
      r
    else s
  }

  /** The zone step: `if (!/[zZ]|[+-]\d{2}:\d{2}$/.test(s)) s = s + 'Z'`. */
  function AppendZone(s: string): (r: string)
    ensures HasZone(r)
    ensures HasZone(s) ==> r == s
    ensures !HasZone(s) ==> r == s + "Z"
    ensures ' ' in r ==> ' ' in s
    ensures 'T' in s ==> 'T' in r
    ensures Trimmed(s) ==> Trimmed(r)
  {
    if HasZone(s) then s
    else
      var r := s + "Z";
      assert r[|s|] == 'Z';
      assert ' ' in r ==> ' ' in s by {
        if ' ' in r {
          var j :| 0 <= j < |r| && r[j] == ' ';
          assert j < |s| && s[j] == ' ';
        }
      }
      assert 'T' in s ==> 'T' in r by {
        if 'T' in s {
          var j :| 0 <= j < |s| && s[j] == 'T';
          assert r[j] == 'T';
        }
      }
      r
  }

  /** A timestamp that already has a time separator and ends in a zone
      letter or a full `±HH:MM` offset. */
  predicate AlreadyQualified(t: string) {
    'T' in t && t != [] && (t[|t| - 1] == 'Z' || t[|t| - 1] == 'z' || EndsWithOffset(t))
  }

  /** The four rewrites after trimming, in the source's order. */
  function Rewrite(n0: string): string {
    AppendZone(PadHourOffset(InsertOffsetColon(InsertSeparator(n0))))
  }

  /** `normalizeDbTimestamp`: `undefined` for a missing or empty value;
      otherwise the trimmed value with the date/time separator, the offset
      colon, the offset minutes or the zone added where missing, in that
      order. */
  function NormalizeDbTimestamp(value: Option<string>): (r: Option<string>)
    ensures r.None? <==> value.None? || value.value == ""
    ensures r.Some? ==> HasZone(r.value) && Trimmed(r.value)
    ensures r.Some? && ('T' in Trim(value.value) || ' ' in Trim(value.value)) ==> 'T' in r.value
    ensures r.Some? && AlreadyQualified(Trim(value.value)) ==> r.value == Trim(value.value)
  {
    match value
    case None => None
    case Some(v) =>
      if v == "" then None
      else
        var n0 := Trim(v);
        QualifiedUnchanged(n0);
        Some(Rewrite(n0))
  }

  /** The normaliser as the repository writes it: one variable rewritten
      step by step. */
  method NormalizeDbTimestampSteps(value: Option<string>) returns (r: Option<string>)
    ensures r == NormalizeDbTimestamp(value)
  {
    if value.None? || value.value == "" {
      return None;
    }
    var normalized := Trim(value.value);
    ghost var n0 := normalized;
    SeparatorStep(normalized);
    if 'T' !in normalized {
      normalized := ReplaceFirst(normalized, ' ', 'T');
    }
    ghost var n1 := normalized;
    ColonStep(normalized);
    if EndsWithCompactOffset(normalized) {
      normalized := normalized[..|normalized| - 2] + ":" + normalized[|normalized| - 2..];
    }
    ghost var n2 := normalized;
    PadStep(normalized);
    if EndsWithHourOffset(normalized) {
      normalized := normalized + ":00";
    }
    ghost var n3 := normalized;
    ZoneStep(normalized);
    if !HasZone(normalized) {
      normalized := normalized + "Z";
    }
    AllSteps(value, n0, n1, n2, n3, normalized);
    return Some(normalized);
  }

  lemma SeparatorStep(s: string)
    ensures InsertSeparator(s) == if 'T' !in s then ReplaceFirst(s, ' ', 'T') else s
  {
  }

  lemma ColonStep(s: string)
    ensures InsertOffsetColon(s) == if EndsWithCompactOffset(s) then s[..|s| - 2] + ":" + s[|s| - 2..] else s
  {
  }

  lemma PadStep(s: string)
    ensures PadHourOffset(s) == if EndsWithHourOffset(s) then s + ":00" else s
  {
  }

  lemma ZoneStep(s: string)
    ensures AppendZone(s) == if !HasZone(s) then s + "Z" else s
  {
  }

  lemma AllSteps(value: Option<string>, n0: string, n1: string, n2: string, n3: string, n4: string)
    requires value.Some? && value.value != "" && n0 == Trim(value.value)
    requires n1 == InsertSeparator(n0) && n2 == InsertOffsetColon(n1)
    requires n3 == PadHourOffset(n2) && n4 == AppendZone(n3)
    ensures NormalizeDbTimestamp(value) == Some(n4)
  {
  }

  lemma QualifiedUnchanged(n0: string)
    ensures AlreadyQualified(n0) ==> Rewrite(n0) == n0
  {
    if AlreadyQualified(n0) {
      assert InsertSeparator(n0) == n0;
      assert !EndsWithCompactOffset(n0) && !EndsWithHourOffset(n0);
      if n0[|n0| - 1] == 'Z' || n0[|n0| - 1] == 'z' {
        assert n0[|n0| - 1] in n0;
      }
    }
  }

  // ---------------------------------------------------------------------
  // Properties

  /** The three offset rewrites never leave a bare `±HHMM` or `±HH` behind,
      so a second pass has nothing left to do. */
  lemma OffsetStepsSettle(n1: string)
    ensures var u := Rewrite'(n1);
      !EndsWithCompactOffset(u) && !EndsWithHourOffset(u) && HasZone(u)
  {
    var n2 := InsertOffsetColon(n1);
    var n3 := PadHourOffset(n2);
    var u := AppendZone(n3);
    if u != n3 {
      assert u[|u| - 1] == 'Z';
    } else if n3 != n2 {
      assert n3[|n3| - 3] == ':';
    } else if n2 != n1 {
      assert n2[|n2| - 3] == ':';
    }
  }

  function Rewrite'(n1: string): string {
    AppendZone(PadHourOffset(InsertOffsetColon(n1)))
  }

  /** Normalising a normalised timestamp changes nothing. */
  lemma NormalizeDbTimestampIdempotent(value: Option<string>)
    ensures NormalizeDbTimestamp(NormalizeDbTimestamp(value)) == NormalizeDbTimestamp(value)
  {
    var r := NormalizeDbTimestamp(value);
    if r.Some? {
      var u := r.value;
      var n0 := Trim(value.value);
      var n1 := InsertSeparator(n0);
      assert u == Rewrite'(n1);
      assert Trim(u) == u;
      assert u != "";
      assert InsertSeparator(u) == u;
      OffsetStepsSettle(n1);
      assert Rewrite(u) == u;
    }
  }

  lemma FirstIndexIs<T>(s: seq<T>, x: T, k: nat)
    requires k < |s| && s[k] == x && x !in s[..k]
    ensures FirstIndex(s, x) == k
  {
    var j := FirstIndex(s, x);
    assert j <= k;
  }

  /** The store's format, a space separator and an hour-only offset,
      gains the `T` separator and the offset minutes. */
  lemma SpaceAndHourOffset(v: string, k: nat)
    requires Trimmed(v) && 'T' !in v
    requires k + 5 < |v| && v[k] == ' ' && ' ' !in v[..k]
    requires EndsWithHourOffset(v) && !EndsWithCompactOffset(v)
    ensures NormalizeDbTimestamp(Some(v)) == Some(v[k := 'T'] + ":00")
  {
    FirstIndexIs(v, ' ', k);
    var n1 := v[k := 'T'];
    assert InsertSeparator(v) == n1;
    assert EndsWithHourOffset(n1) && !EndsWithCompactOffset(n1);
    assert InsertOffsetColon(n1) == n1;
    assert PadHourOffset(n1) == n1 + ":00";
    assert AppendZone(n1 + ":00") == n1 + ":00";
  }

  /** `2026-02-13 07:40:11.123456+00` becomes `2026-02-13T07:40:11.123456+00:00`. */
  lemma PostgresTimestampExample(v: string)
    requires v == "2026-02-13 07:40:11.123456+00"
    ensures NormalizeDbTimestamp(Some(v)) == Some("2026-02-13T07:40:11.123456+00:00")
  {
    ExampleCharacters(v);
    ExampleShape(v);
    SpaceAndHourOffset(v, 10);
    ExampleSwap(v);
  }

  lemma ExampleCharacters(v: string)
    requires v == "2026-02-13 07:40:11.123456+00"
    ensures 'T' !in v && v[10] == ' ' && ' ' !in v[..10]
  {
  }

  lemma ExampleShape(v: string)
    requires v == "2026-02-13 07:40:11.123456+00"
    ensures Trimmed(v) && |v| == 29 && EndsWithHourOffset(v) && !EndsWithCompactOffset(v)
  {
  }

  lemma ExampleSwap(v: string)
    requires v == "2026-02-13 07:40:11.123456+00"
    ensures v[10 := 'T'] + ":00" == "2026-02-13T07:40:11.123456+00:00"
  {
  }

  /** A value without a separator whose end reads as an hour offset only
      gains `:00`. */
  lemma NoSeparatorHourOffset(v: string)
    requires Trimmed(v) && 'T' !in v && ' ' !in v
    requires EndsWithHourOffset(v) && !EndsWithCompactOffset(v)
    ensures NormalizeDbTimestamp(Some(v)) == Some(v + ":00")
  {
    assert InsertSeparator(v) == v;
    assert InsertOffsetColon(v) == v;
    assert PadHourOffset(v) == v + ":00";
    assert AppendZone(v + ":00") == v + ":00";
  }

  /** A date without a time, `2026-02-13`, has its day read as the offset
      `-13`: it becomes `2026-02-13:00` and gets no `T`. */
  lemma DateOnlyExample(v: string)
    requires v == "2026-02-13"
    ensures NormalizeDbTimestamp(Some(v)) == Some("2026-02-13:00")
    ensures 'T' !in NormalizeDbTimestamp(Some(v)).value
  {
    DateOnlyShape(v);
    NoSeparatorHourOffset(v);
  }

  lemma DateOnlyShape(v: string)
    requires v == "2026-02-13"
    ensures Trimmed(v) && 'T' !in v && ' ' !in v
    ensures EndsWithHourOffset(v) && !EndsWithCompactOffset(v)
    ensures v + ":00" == "2026-02-13:00" && 'T' !in v + ":00"
  {
  }

  /** An already offset-qualified value is returned as it is. */
  lemma QualifiedTimestampExample(v: string)
    requires v == "2026-02-13T07:40:11.123Z"
    ensures NormalizeDbTimestamp(Some(v)) == Some(v)
  {
    assert Trimmed(v);
    assert v[10] == 'T';
    assert AlreadyQualified(v);
  }
}
