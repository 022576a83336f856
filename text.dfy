/** ASCII versions of the JavaScript string operations the intake pipeline is
    built from: `\s`, `toLowerCase`, `trim`, `replace(/\s+/g, ' ')`,
    `includes`, `split` and `join`, plus the list helpers behind `filter` and
    `[...new Set(xs)]`. */
module Text {
  import opened Wrappers

  /** An optional text that JavaScript treats as set: present and
      non-empty. */
  predicate IsSet(o: Option<string>) { o.Some? && o.value != "" }

  /** JavaScript's `\s` on ASCII: space, tab, line feed, vertical tab, form
      feed and carriage return. */
  predicate IsSpace(c: char) {
    c == ' ' || c == '\t' || c == '\n' || c == '\r' || c == '\U{0B}' || c == '\U{0C}'
  }

  predicate IsUpper(c: char) { 'A' <= c <= 'Z' }

  /** The character class `[a-z0-9]`. */
  predicate IsLowerAlnum(c: char) { 'a' <= c <= 'z' || '0' <= c <= '9' }

  function Lower(c: char): char {
    if IsUpper(c) then (c as int + 32) as char else c
  }

  /** `String.prototype.toLowerCase` on ASCII. */
  function ToLower(s: string): string {
    seq(|s|, i requires 0 <= i < |s| => Lower(s[i]))
  }

  lemma ToLowerAppend(a: string, b: string)
    ensures ToLower(a + b) == ToLower(a) + ToLower(b)
  {
  }

  /** Lowercasing a capitalised word changes only its first letter. */
  lemma LowerCapitalised(c: char, rest: string)
    requires forall i | 0 <= i < |rest| :: !IsUpper(rest[i])
    ensures ToLower([c] + rest) == [Lower(c)] + rest
  {
    assert ToLower([c] + rest)[1..] == rest;
  }

  lemma ToLowerIdempotent(s: string)
    ensures ToLower(ToLower(s)) == ToLower(s)
  {
  }

  /** Lowercasing never creates or removes whitespace. */
  lemma LowerKeepsSpace(c: char)
    ensures IsSpace(Lower(c)) <==> IsSpace(c)
  {
  }

  // ---------------------------------------------------------------------
  // Substring search (`includes`)

  predicate IsPrefix(p: string, s: string) {
    |p| <= |s| && s[..|p|] == p
  }

  /** `s.includes(p)`. */
  predicate Contains(s: string, p: string)
    decreases |s|
  {
    IsPrefix(p, s) || (s != [] && Contains(s[1..], p))
  }

  lemma {:induction false} ContainsAt(s: string, p: string, i: nat)
    requires i + |p| <= |s| && s[i..i + |p|] == p
    ensures Contains(s, p)
    decreases i
  {
    if i == 0 {
      assert s[..|p|] == p;
    } else {
      assert s[1..][i - 1..i - 1 + |p|] == s[i..i + |p|];
      ContainsAt(s[1..], p, i - 1);
    }
  }

  lemma {:induction false} ContainsWitness(s: string, p: string) returns (i: nat)
    requires Contains(s, p)
    ensures i + |p| <= |s| && s[i..i + |p|] == p
    decreases |s|
  {
    if IsPrefix(p, s) {
      i := 0;
    } else {
      var j := ContainsWitness(s[1..], p);
      assert s[1..][j..j + |p|] == s[j + 1..j + 1 + |p|];
      i := j + 1;
    }
  }

  /** A pattern found in a part is found in any text that embeds the part. */
  lemma ContainsInfix(a: string, b: string, c: string, p: string)
    requires Contains(b, p)
    ensures Contains(a + b + c, p)
  {
    var i := ContainsWitness(b, p);
    assert (a + b + c)[|a| + i..|a| + i + |p|] == b[i..i + |p|];
    ContainsAt(a + b + c, p, |a| + i);
  }

  /** Case-insensitive search is implied by exact search. */
  lemma ContainsLower(s: string, p: string)
    requires Contains(s, p)
    ensures Contains(ToLower(s), ToLower(p))
  {
    var i := ContainsWitness(s, p);
    assert ToLower(s)[i..i + |p|] == ToLower(p);
    ContainsAt(ToLower(s), ToLower(p), i);
  }

  /** A pattern found in one part is found in the joined text. */
  lemma {:induction false} ContainsJoinPart(parts: seq<string>, sep: string, k: nat, p: string)
    requires k < |parts| && Contains(parts[k], p)
    ensures Contains(Join(parts, sep), p)
    decreases |parts|
  {
    JoinHead(parts, sep);
    if |parts| == 1 {
    } else if k == 0 {
      ContainsInfix([], parts[0], sep + Join(parts[1..], sep), p);
      assert [] + parts[0] + (sep + Join(parts[1..], sep)) == Join(parts, sep);
    } else {
      assert parts[1..][k - 1] == parts[k];
      ContainsJoinPart(parts[1..], sep, k - 1, p);
      ContainsInfix(parts[0] + sep, Join(parts[1..], sep), [], p);
      assert parts[0] + sep + Join(parts[1..], sep) + [] == Join(parts, sep);
    }
  }

  // ---------------------------------------------------------------------
  // Trimming

  /** No whitespace at either end. */
  predicate Trimmed(s: string) {
    s == [] || (!IsSpace(s[0]) && !IsSpace(s[|s| - 1]))
  }

  /** `trimStart`: drops the maximal whitespace prefix. */
  function TrimStart(s: string): (r: string)
    ensures |r| <= |s| && r == s[|s| - |r|..]
    ensures forall i | 0 <= i < |s| - |r| :: IsSpace(s[i])
    ensures r == [] || !IsSpace(r[0])
  {
    if s != [] && IsSpace(s[0]) then TrimStart(s[1..]) else s
  }

  /** `trimEnd`: drops the maximal whitespace suffix. */
  function TrimEnd(s: string): (r: string)
    ensures |r| <= |s| && r == s[..|r|]
    ensures forall i | |r| <= i < |s| :: IsSpace(s[i])
    ensures r == [] || !IsSpace(r[|r| - 1])
  {
    if s != [] && IsSpace(s[|s| - 1]) then TrimEnd(s[..|s| - 1]) else s
  }

  /** `String.prototype.trim`. */
  function Trim(s: string): (r: string)
    ensures Trimmed(r)
    ensures |r| <= |s|
    ensures r == [] <==> forall i | 0 <= i < |s| :: IsSpace(s[i])
    ensures Trimmed(s) ==> r == s
  {
    var t := TrimStart(s);
    var r := TrimEnd(t);
    assert r != [] ==> !IsSpace(r[0]) by {
      if r != [] { assert r[0] == t[0]; }
    }
    assert r == [] ==> t == [];
    r
  }

  lemma TrimLower(s: string)
    requires Trimmed(s)
    ensures Trimmed(ToLower(s))
  {
    if s != [] {
      LowerKeepsSpace(s[0]);
      LowerKeepsSpace(s[|s| - 1]);
    }
  }

  lemma {:induction false} TrimStartLower(s: string)
    ensures ToLower(TrimStart(s)) == TrimStart(ToLower(s))
    decreases |s|
  {
    if s != [] {
      LowerKeepsSpace(s[0]);
      if IsSpace(s[0]) {
        assert ToLower(s)[1..] == ToLower(s[1..]);
        TrimStartLower(s[1..]);
      }
    }
  }

  lemma {:induction false} TrimEndLower(s: string)
    ensures ToLower(TrimEnd(s)) == TrimEnd(ToLower(s))
    decreases |s|
  {
    if s != [] {
      LowerKeepsSpace(s[|s| - 1]);
      if IsSpace(s[|s| - 1]) {
        assert ToLower(s)[..|s| - 1] == ToLower(s[..|s| - 1]);
        TrimEndLower(s[..|s| - 1]);
      }
    }
  }

  /** Trimming and lowercasing commute. */
  lemma TrimLowerCommute(s: string)
    ensures ToLower(Trim(s)) == Trim(ToLower(s))
  {
    TrimStartLower(s);
    TrimEndLower(TrimStart(s));
  }

  /** `r` sits in `s` at `i`, has no whitespace at its ends, and `s` holds
      nothing but whitespace before and after it. */
  predicate IsTrimSlice(s: string, i: nat, r: string) {
    && i + |r| <= |s| && r == s[i..i + |r|] && Trimmed(r)
    && (forall k | 0 <= k < i :: IsSpace(s[k]))
    && (forall k | i + |r| <= k < |s| :: IsSpace(s[k]))
  }

  /** What trimming keeps: the text between the leading and the trailing
      whitespace, unchanged. */
  lemma TrimIsSlice(s: string)
    ensures IsTrimSlice(s, |s| - |TrimStart(s)|, Trim(s))
  {
    var t := TrimStart(s);
    var lead := TrimStartSplit(s);
    var u := TrimEnd(t);
    var tail := TrimEndSplit(t);
    assert u == Trim(s);
    SliceOfThree(s, lead, u, tail);
  }

  lemma SliceOfThree(s: string, lead: string, r: string, tail: string)
    requires s == lead + (r + tail)
    requires forall k | 0 <= k < |lead| :: IsSpace(lead[k])
    requires forall k | 0 <= k < |tail| :: IsSpace(tail[k])
    requires Trimmed(r)
    ensures IsTrimSlice(s, |lead|, r)
  {
    assert s[|lead|..|lead| + |r|] == r;
    assert forall k | 0 <= k < |lead| :: s[k] == lead[k];
    assert forall k | |lead| + |r| <= k < |s| :: s[k] == tail[k - |lead| - |r|];
  }

  /** ... and it is the only text with that description. */
  lemma TrimUnique(s: string, i: nat, r: string)
    requires IsTrimSlice(s, i, r)
    ensures r == Trim(s)
  {
    if r == [] {
      assert forall k | 0 <= k < |s| :: IsSpace(s[k]) by {
        forall k | 0 <= k < |s| ensures IsSpace(s[k]) {
          if k < i { } else { }
        }
      }
    } else {
      var t := TrimStart(s);
      var j := |s| - |t|;
      assert !IsSpace(s[i]) by { assert s[i] == r[0]; }
      assert j <= i;
      assert j < |s| ==> t[0] == s[j];
      assert j == i;
      var u := TrimEnd(t);
      assert !IsSpace(t[|r| - 1]) by { assert t[|r| - 1] == r[|r| - 1]; }
      assert |r| <= |u|;
      assert |u| > 0 ==> u[|u| - 1] == s[i + |u| - 1];
      assert |u| == |r|;
      assert u == t[..|r|] == s[i..i + |r|];
    }
  }

  // ---------------------------------------------------------------------
  // Whitespace collapsing (`replace(/\s+/g, ' ')`)

  /** Every whitespace character is a plain space and none is followed by
      more whitespace. */
  predicate NoRuns(s: string) {
    forall i | 0 <= i < |s| && IsSpace(s[i]) :: s[i] == ' ' && (i + 1 < |s| ==> !IsSpace(s[i + 1]))
  }

  /** The shape the display-field normaliser produces. */
  predicate SingleSpaced(s: string) {
    Trimmed(s) && NoRuns(s)
  }

  /** Replaces every maximal run of whitespace by one space. */
  function CollapseSpaces(s: string): (r: string)
    ensures |r| <= |s|
    ensures r == [] <==> s == []
    ensures NoRuns(r)
    ensures r != [] ==> (IsSpace(r[0]) <==> IsSpace(s[0]))
    ensures r != [] ==> (IsSpace(r[|r| - 1]) <==> IsSpace(s[|s| - 1]))
    decreases |s|
  {
    if s == [] then []
    else if IsSpace(s[0]) then
      var t := TrimStart(s);
      var rest := CollapseSpaces(t);
      assert t != [] ==> t[|t| - 1] == s[|s| - 1];
      NoRunsCons(' ', rest);
      [' '] + rest
    else
      var rest := CollapseSpaces(s[1..]);
      assert s[1..] != [] ==> s[1..][|s[1..]| - 1] == s[|s| - 1];
      NoRunsCons(s[0], rest);
      [s[0]] + rest
  }

  lemma NoRunsCons(c: char, rest: string)
    requires NoRuns(rest)
    requires IsSpace(c) ==> c == ' ' && (rest != [] ==> !IsSpace(rest[0]))
    ensures NoRuns([c] + rest)
  {
    var r := [c] + rest;
    forall i | 0 <= i < |r| && IsSpace(r[i])
      ensures r[i] == ' ' && (i + 1 < |r| ==> !IsSpace(r[i + 1]))
    {
      if i > 0 {
        assert r[i] == rest[i - 1];
        if i + 1 < |r| { assert r[i + 1] == rest[i]; }
      }
    }
  }

  /** Collapsing changes nothing once there are no runs. */
  lemma {:induction false} CollapseFixesNoRuns(s: string)
    requires NoRuns(s)
    ensures CollapseSpaces(s) == s
    decreases |s|
  {
    if s != [] {
      var tail := s[1..];
      NoRunsTail(s);
      CollapseFixesNoRuns(tail);
      NoRunsHead(s);
      CollapseStep(s);
      assert s == [s[0]] + tail;
    }
  }

  lemma NoRunsHead(s: string)
    requires s != [] && NoRuns(s)
    ensures IsSpace(s[0]) ==> s[0] == ' ' && (|s| > 1 ==> !IsSpace(s[1]))
  {
  }

  lemma CollapseStep(s: string)
    requires s != [] && (IsSpace(s[0]) ==> s[0] == ' ' && (|s| > 1 ==> !IsSpace(s[1])))
    ensures CollapseSpaces(s) == [s[0]] + CollapseSpaces(s[1..])
  {
    if IsSpace(s[0]) {
      TrimStartAfterSingleSpace(s);
    }
  }

  lemma NoRunsTail(s: string)
    requires s != [] && NoRuns(s)
    ensures NoRuns(s[1..])
  {
    forall i | 0 <= i < |s| - 1 && IsSpace(s[1..][i])
      ensures s[1..][i] == ' ' && (i + 1 < |s| - 1 ==> !IsSpace(s[1..][i + 1]))
    {
      assert s[1..][i] == s[i + 1];
      assert i + 1 < |s| - 1 ==> s[1..][i + 1] == s[i + 2];
    }
  }

  lemma TrimStartAfterSingleSpace(s: string)
    requires s != [] && IsSpace(s[0]) && (|s| > 1 ==> !IsSpace(s[1]))
    ensures TrimStart(s) == s[1..]
  {
  }

  /** The display-field normaliser: `value.trim().replace(/\s+/g, ' ')`. */
  function NormalizeText(s: string): (r: string)
    ensures SingleSpaced(r)
    ensures |r| <= |s|
    ensures r == [] <==> Trim(s) == []
    ensures SingleSpaced(s) ==> r == s
  {
    var t := Trim(s);
    if SingleSpaced(s) then CollapseFixesNoRuns(s); CollapseSpaces(t) else CollapseSpaces(t)
  }

  lemma NormalizeTextIdempotent(s: string)
    ensures NormalizeText(NormalizeText(s)) == NormalizeText(s)
  {
  }

  // ---------------------------------------------------------------------
  // Words (`split(/\s+/)`)

  /** The length of the run of non-whitespace characters `s` starts with. */
  function WordEnd(s: string): (n: nat)
    ensures n <= |s|
    ensures forall i | 0 <= i < n :: !IsSpace(s[i])
    ensures n < |s| ==> IsSpace(s[n])
  {
    if s == [] || IsSpace(s[0]) then 0 else 1 + WordEnd(s[1..])
  }

  /** `split(/\s+/)` without the empty pieces a leading or trailing run
      leaves; those are dropped by the length filter that follows anyway. */
  function Words(s: string): (r: seq<string>)
    ensures forall k | 0 <= k < |r| :: r[k] != []
    ensures forall k, c | 0 <= k < |r| && c in r[k] :: c in s && !IsSpace(c)
    decreases |s|
  {
    if s == [] then []
    else if IsSpace(s[0]) then
      assert forall c | c in s[1..] :: c in s;
      Words(s[1..])
    else
      var n := WordEnd(s);
      var word, rest := s[..n], Words(s[n..]);
      assert word != [] && forall c | c in word :: c in s && !IsSpace(c);
      assert forall c | c in s[n..] :: c in s;
      var r := [word] + rest;
      assert forall k | 1 <= k < |r| :: r[k] == rest[k - 1];
      r
  }

  /** A non-empty run of non-whitespace characters. */
  predicate IsWord(w: string) {
    w != [] && forall i | 0 <= i < |w| :: !IsSpace(w[i])
  }

  lemma {:induction false} WordEndAppend(a: string, b: string)
    requires WordEnd(a) < |a| || b == [] || IsSpace(b[0])
    ensures WordEnd(a + b) == WordEnd(a)
    decreases |a|
  {
    if a != [] && !IsSpace(a[0]) {
      assert (a + b)[1..] == a[1..] + b;
      WordEndAppend(a[1..], b);
    }
  }

  /** Splitting a space-joined list of words gives the list back. */
  lemma {:induction false} WordsOfJoin(ws: seq<string>)
    requires forall k | 0 <= k < |ws| :: IsWord(ws[k])
    ensures Words(Join(ws, " ")) == ws
    decreases |ws|
  {
    if |ws| == 1 {
      WordsOfWord(ws[0], []);
      assert ws[0] + [] == ws[0];
    } else if |ws| > 1 {
      var rest := Join(ws[1..], " ");
      WordsOfJoin(ws[1..]);
      JoinTail(ws, " ");
      WordsOfWord(ws[0], " " + rest);
      WordsOfSpaced(rest);
      assert ws == [ws[0]] + ws[1..];
    }
  }

  lemma JoinTail(parts: seq<string>, sep: string)
    requires |parts| > 1
    ensures Join(parts, sep) == parts[0] + (sep + Join(parts[1..], sep))
  {
    var j := Join(parts[1..], sep);
    assert parts[0] + sep + j == parts[0] + (sep + j);
  }

  lemma WordsOfSpaced(rest: string)
    ensures Words(" " + rest) == Words(rest)
  {
    assert (" " + rest)[1..] == rest;
  }

  /** A word followed by a space or the end of the text is its first
      word. */
  lemma WordsOfWord(w: string, rest: string)
    requires IsWord(w)
    requires rest == [] || IsSpace(rest[0])
    ensures Words(w + rest) == [w] + Words(rest)
  {
    var s := w + rest;
    WordEndAppend(w, rest);
    assert WordEnd(s) == |w|;
    assert s[..|w|] == w && s[|w|..] == rest;
    WordsLetterHead(s);
  }

  /** Leading whitespace yields no word. */
  lemma {:induction false} WordsOfTrimStart(s: string)
    ensures Words(TrimStart(s)) == Words(s)
    decreases |s|
  {
    if s != [] && IsSpace(s[0]) {
      WordsOfTrimStart(s[1..]);
    }
  }

  /** Trailing whitespace yields no word. */
  lemma {:induction false} WordsIgnoreTrailingSpace(a: string, b: string)
    requires forall i | 0 <= i < |b| :: IsSpace(b[i])
    ensures Words(a + b) == Words(a)
    decreases |a| + |b|
  {
    if a == [] {
      assert a + b == b;
      if b != [] {
        WordsIgnoreTrailingSpace([], b[1..]);
        assert [] + b[1..] == b[1..];
      }
    } else if IsSpace(a[0]) {
      WordsIgnoreTrailingSpace(a[1..], b);
      assert (a + b)[1..] == a[1..] + b;
    } else {
      var n := WordEnd(a);
      WordEndAppend(a, b);
      assert (a + b)[..n] == a[..n];
      assert (a + b)[n..] == a[n..] + b;
      WordsIgnoreTrailingSpace(a[n..], b);
    }
  }

  /** Joining two texts with a space joins their word lists. */
  lemma {:induction false} WordsOfSpacedPair(a: string, b: string)
    ensures Words(a + (" " + b)) == Words(a) + Words(b)
    decreases |a|
  {
    var x := " " + b;
    if a == [] {
      assert a + x == x;
      WordsOfSpaced(b);
    } else if IsSpace(a[0]) {
      assert (a + x)[1..] == a[1..] + x;
      WordsOfSpacedPair(a[1..], b);
    } else {
      var n := WordEnd(a);
      WordEndAppend(a, x);
      assert (a + x)[..n] == a[..n];
      assert (a + x)[n..] == a[n..] + x;
      WordsOfSpacedPair(a[n..], b);
    }
  }

  /** A leading word passes through collapsing untouched. */
  lemma {:induction false} CollapseWordPrefix(w: string, rest: string)
    requires forall i | 0 <= i < |w| :: !IsSpace(w[i])
    ensures CollapseSpaces(w + rest) == w + CollapseSpaces(rest)
    decreases |w|
  {
    if w == [] {
      assert w + rest == rest;
    } else {
      CollapseLetterHead(w, rest);
      CollapseWordPrefix(w[1..], rest);
      ConsOnto(w, CollapseSpaces(rest), CollapseSpaces(w + rest));
    }
  }

  lemma ConsOnto(w: string, c: string, x: string)
    requires w != [] && x == [w[0]] + (w[1..] + c)
    ensures x == w + c
  {
    assert w == [w[0]] + w[1..];
  }

  lemma CollapseLetterHead(w: string, rest: string)
    requires w != [] && !IsSpace(w[0])
    ensures CollapseSpaces(w + rest) == [w[0]] + CollapseSpaces(w[1..] + rest)
  {
    var s := w + rest;
    CollapseStep(s);
    assert s[1..] == w[1..] + rest;
  }

  /** On a trimmed text, collapsing whitespace joins its words with single
      spaces. */
  lemma {:induction false} CollapseIsJoinedWords(t: string)
    requires Trimmed(t)
    ensures CollapseSpaces(t) == Join(Words(t), " ")
    decreases |t|
  {
    if t != [] {
      var n := WordEnd(t);
      var w, rest := t[..n], t[n..];
      assert t == w + rest;
      CollapseWordPrefix(w, rest);
      WordsLetterHead(t);
      if rest == [] {
        assert w + [] == w;
      } else {
        var u := TrimStart(rest);
        TrimmedRest(t, n);
        CollapseIsJoinedWords(u);
        WordsOfTrimStart(rest);
        CollapseSpaceHead(rest);
        WordsLetterHead(u);
        var ws := Words(u);
        JoinCons(w, ws);
        var j := Join(ws, " ");
        calc {
          CollapseSpaces(t);
          w + CollapseSpaces(rest);
          w + (" " + j);
          Join([w] + ws, " ");
          { assert Words(rest) == ws; }
          Join(Words(t), " ");
        }
      }
    }
  }

  /** What follows the first word of a trimmed text, if anything, is
      whitespace and then a trimmed text. */
  lemma TrimmedRest(t: string, n: nat)
    requires Trimmed(t) && n == WordEnd(t) && n < |t|
    ensures IsSpace(t[n..][0])
    ensures TrimStart(t[n..]) != [] && Trimmed(TrimStart(t[n..]))
  {
    var rest := t[n..];
    assert rest[0] == t[n];
    assert rest[|rest| - 1] == t[|t| - 1];
    assert !IsSpace(rest[|rest| - 1]);
    var u := TrimStart(rest);
    assert |u| > 0;
    assert u == rest[|rest| - |u|..];
    assert u[|u| - 1] == rest[|rest| - 1];
  }

  lemma WordsLetterHead(s: string)
    requires s != [] && !IsSpace(s[0])
    ensures Words(s) == [s[..WordEnd(s)]] + Words(s[WordEnd(s)..])
  {
  }

  lemma JoinCons(w: string, ws: seq<string>)
    requires ws != []
    ensures Join([w] + ws, " ") == w + (" " + Join(ws, " "))
  {
    assert ([w] + ws)[1..] == ws;
  }

  lemma CollapseSpaceHead(s: string)
    requires s != [] && IsSpace(s[0])
    ensures CollapseSpaces(s) == " " + CollapseSpaces(TrimStart(s))
  {
  }

  /** The display-field normaliser is the input's words joined by single
      spaces. */
  lemma NormalizeIsJoinedWords(s: string)
    ensures NormalizeText(s) == Join(Words(s), " ")
  {
    var t := TrimStart(s);
    var u := TrimEnd(t);
    assert u == Trim(s);
    assert NormalizeText(s) == CollapseSpaces(u);
    WordsOfTrimStart(s);
    var tail := TrimEndSplit(t);
    WordsIgnoreTrailingSpace(u, tail);
    CollapseIsJoinedWords(u);
  }

  /** A text is its `trimEnd` followed by whitespace. */
  lemma TrimEndSplit(t: string) returns (tail: string)
    ensures t == TrimEnd(t) + tail
    ensures forall i | 0 <= i < |tail| :: IsSpace(tail[i])
  {
    var u := TrimEnd(t);
    tail := t[|u|..];
    forall i | 0 <= i < |tail| ensures IsSpace(tail[i]) {
      assert tail[i] == t[|u| + i];
    }
  }

  /** Trimming, collapsing and normalising touch only whitespace: any class
      `p` of non-whitespace characters survives them in order. */
  lemma TrimKeepsVisible(s: string, p: char -> bool)
    requires forall c :: p(c) ==> !IsSpace(c)
    ensures Filter(Trim(s), p) == Filter(s, p)
  {
    var t := TrimStart(s);
    var lead := TrimStartSplit(s);
    var tail := TrimEndSplit(t);
    var u := TrimEnd(t);
    assert u == Trim(s);
    FilterSpaceHead(lead, t, p);
    FilterSpaceTail(u, tail, p);
  }

  lemma FilterSpaceHead(lead: string, m: string, p: char -> bool)
    requires forall c :: p(c) ==> !IsSpace(c)
    requires forall i | 0 <= i < |lead| :: IsSpace(lead[i])
    ensures Filter(lead + m, p) == Filter(m, p)
  {
    FilterAppend(lead, m, p);
    FilterSpaces(lead, p);
  }

  lemma FilterSpaceTail(m: string, tail: string, p: char -> bool)
    requires forall c :: p(c) ==> !IsSpace(c)
    requires forall i | 0 <= i < |tail| :: IsSpace(tail[i])
    ensures Filter(m + tail, p) == Filter(m, p)
  {
    FilterAppend(m, tail, p);
    FilterSpaces(tail, p);
    assert Filter(m, p) + [] == Filter(m, p);
  }

  lemma {:induction false} CollapseKeepsVisible(s: string, p: char -> bool)
    requires forall c :: p(c) ==> !IsSpace(c)
    ensures Filter(CollapseSpaces(s), p) == Filter(s, p)
    decreases |s|
  {
    if s != [] {
      if IsSpace(s[0]) {
        CollapseKeepsVisible(TrimStart(s), p);
        SpaceHeadVisible(s, p);
      } else {
        CollapseKeepsVisible(s[1..], p);
        LetterHeadVisible(s, p);
      }
    }
  }

  lemma SpaceHeadVisible(s: string, p: char -> bool)
    requires forall c :: p(c) ==> !IsSpace(c)
    requires s != [] && IsSpace(s[0])
    ensures Filter(CollapseSpaces(s), p) == Filter(CollapseSpaces(TrimStart(s)), p)
    ensures Filter(s, p) == Filter(TrimStart(s), p)
  {
    var t := TrimStart(s);
    CollapseSpaceHead(s);
    FilterCons(' ', CollapseSpaces(t), p);
    var lead := TrimStartSplit(s);
    FilterAppend(lead, t, p);
    FilterSpaces(lead, p);
  }

  lemma LetterHeadVisible(s: string, p: char -> bool)
    requires s != [] && !IsSpace(s[0])
    ensures Filter(CollapseSpaces(s), p) == (if p(s[0]) then [s[0]] else []) + Filter(CollapseSpaces(s[1..]), p)
    ensures Filter(s, p) == (if p(s[0]) then [s[0]] else []) + Filter(s[1..], p)
  {
    CollapseStep(s);
    FilterCons(s[0], CollapseSpaces(s[1..]), p);
    FilterCons(s[0], s[1..], p);
    assert s == [s[0]] + s[1..];
  }

  /** A text is whitespace followed by its `trimStart`. */
  lemma TrimStartSplit(s: string) returns (lead: string)
    ensures s == lead + TrimStart(s)
    ensures forall i | 0 <= i < |lead| :: IsSpace(lead[i])
  {
    var t := TrimStart(s);
    lead := s[..|s| - |t|];
  }

  /** Whitespace holds no character of a non-whitespace class. */
  lemma FilterSpaces(s: string, p: char -> bool)
    requires forall c :: p(c) ==> !IsSpace(c)
    requires forall i | 0 <= i < |s| :: IsSpace(s[i])
    ensures Filter(s, p) == []
  {
    FilterNone(s, p);
  }

  lemma NormalizeKeepsVisible(s: string, p: char -> bool)
    requires forall c :: p(c) ==> !IsSpace(c)
    ensures Filter(NormalizeText(s), p) == Filter(s, p)
  {
    assert NormalizeText(s) == CollapseSpaces(Trim(s));
    CollapseKeepsVisible(Trim(s), p);
    TrimKeepsVisible(s, p);
  }

  /** Normalising keeps the words. */
  lemma NormalizeKeepsWords(s: string)
    ensures Words(NormalizeText(s)) == Words(s)
  {
    NormalizeIsJoinedWords(s);
    WordsOfJoin(Words(s));
  }

  // ---------------------------------------------------------------------
  // split / join

  /** `parts.join(sep)`. */
  function Join(parts: seq<string>, sep: string): string
    decreases |parts|
  {
    if parts == [] then ""
    else if |parts| == 1 then parts[0]
    else parts[0] + sep + Join(parts[1..], sep)
  }

  /** A join of parts made of characters of one class, with a separator of
      that class, is made of that class. */
  lemma {:induction false} JoinKeeps(parts: seq<string>, sep: string, q: char -> bool)
    requires forall k, c | 0 <= k < |parts| && c in parts[k] :: q(c)
    requires forall c | c in sep :: q(c)
    ensures forall c | c in Join(parts, sep) :: q(c)
    decreases |parts|
  {
    if |parts| > 1 {
      forall k, c | 0 <= k < |parts[1..]| && c in parts[1..][k] ensures q(c) {
        assert parts[1..][k] == parts[k + 1];
      }
      JoinKeeps(parts[1..], sep, q);
    }
  }

  /** `s.split(c)` for a one-character separator: the pieces between the
      separators, empty ones included. */
  function Split(s: string, c: char): (r: seq<string>)
    ensures |r| >= 1
    ensures forall k | 0 <= k < |r| :: c !in r[k]
    ensures Join(r, [c]) == s
    decreases |s|
  {
    if s == [] then [""]
    else
      var rest := Split(s[1..], c);
      if s[0] == c then
        assert Join([""] + rest, [c]) == [c] + Join(rest, [c]) by {
          assert ([""] + rest)[1..] == rest;
        }
        [""] + rest
      else
        var r := [[s[0]] + rest[0]] + rest[1..];
        assert Join(r, [c]) == [s[0]] + Join(rest, [c]) by {
          if |rest| > 1 {
            assert r[1..] == rest[1..];
          }
        }
        r
  }

  /** The pieces are determined by the text: any c-free decomposition of
      `s` around `c` is `Split(s, c)`. */
  lemma {:induction false} SplitUnique(parts: seq<string>, c: char)
    requires |parts| >= 1
    requires forall k | 0 <= k < |parts| :: c !in parts[k]
    ensures Split(Join(parts, [c]), c) == parts
    decreases |parts|, |parts[0]|
  {
    var s := Join(parts, [c]);
    if parts[0] == "" {
      if |parts| > 1 {
        var tail := parts[1..];
        JoinEmptyHead(parts, c);
        SplitUnique(tail, c);
        SplitSeparatorHead(s, c);
        assert parts == [""] + tail;
      }
    } else {
      var p' := [parts[0][1..]] + parts[1..];
      JoinLetterHead(parts, c, p');
      CFreeTail(parts, c, p');
      SplitUnique(p', c);
      SplitLetterHead(s, c);
      assert [parts[0][0]] + parts[0][1..] == parts[0];
      assert [[parts[0][0]] + p'[0]] + p'[1..] == parts;
    }
  }

  lemma JoinEmptyHead(parts: seq<string>, c: char)
    requires |parts| > 1 && parts[0] == ""
    ensures Join(parts, [c]) == [c] + Join(parts[1..], [c])
  {
  }

  lemma JoinLetterHead(parts: seq<string>, c: char, p': seq<string>)
    requires |parts| >= 1 && parts[0] != ""
    requires p' == [parts[0][1..]] + parts[1..]
    ensures Join(parts, [c]) != [] && Join(parts, [c])[0] == parts[0][0]
    ensures Join(parts, [c])[1..] == Join(p', [c])
  {
    if |parts| > 1 { assert p'[1..] == parts[1..]; }
  }

  lemma CFreeTail(parts: seq<string>, c: char, p': seq<string>)
    requires |parts| >= 1 && parts[0] != ""
    requires forall k | 0 <= k < |parts| :: c !in parts[k]
    requires p' == [parts[0][1..]] + parts[1..]
    ensures parts[0][0] != c
    ensures forall k | 0 <= k < |p'| :: c !in p'[k]
  {
    assert parts[0][0] in parts[0];
    forall k | 0 <= k < |p'| ensures c !in p'[k] {
      if k == 0 {
        assert forall x :: x in parts[0][1..] ==> x in parts[0];
      } else {
        assert p'[k] == parts[k];
      }
    }
  }

  lemma SplitSeparatorHead(s: string, c: char)
    requires s != [] && s[0] == c
    ensures Split(s, c) == [""] + Split(s[1..], c)
  {
  }

  lemma SplitLetterHead(s: string, c: char)
    requires s != [] && s[0] != c
    ensures Split(s, c) == [[s[0]] + Split(s[1..], c)[0]] + Split(s[1..], c)[1..]
  {
  }

  /** `s.split(c)[0]`: the text before the first `c`. */
  function BeforeFirst(s: string, c: char): (r: string)
    ensures c !in r
    ensures IsPrefix(r, s)
    ensures c in s ==> |r| < |s| && s[|r|] == c
    ensures c !in s ==> r == s
  {
    var parts := Split(s, c);
    JoinHead(parts, [c]);
    parts[0]
  }

  lemma {:induction false} JoinHead(parts: seq<string>, sep: string)
    requires |parts| >= 1
    ensures IsPrefix(parts[0], Join(parts, sep))
    ensures |parts| == 1 ==> Join(parts, sep) == parts[0]
    ensures |parts| > 1 ==> Join(parts, sep) == parts[0] + sep + Join(parts[1..], sep)
  {
    if |parts| > 1 {
      assert (parts[0] + sep + Join(parts[1..], sep))[..|parts[0]|] == parts[0];
    }
  }

  // ---------------------------------------------------------------------
  // List helpers

  predicate NoDuplicates<T(==)>(s: seq<T>) {
    forall i, j | 0 <= i < j < |s| :: s[i] != s[j]
  }

  /** `[...new Set(s)]`: the distinct elements in first-occurrence order. */
  function Distinct<T(==,!new)>(s: seq<T>): (r: seq<T>)
    ensures forall x :: x in r <==> x in s
    ensures NoDuplicates(r)
    ensures |r| <= |s|
    decreases |s|
  {
    if s == [] then []
    else
      var d := Distinct(s[..|s| - 1]);
      assert forall x :: x in s <==> x in s[..|s| - 1] || x == s[|s| - 1] by {
        assert s == s[..|s| - 1] + [s[|s| - 1]];
      }
      if s[|s| - 1] in d then d else d + [s[|s| - 1]]
  }

  /** Taking distinct elements a second time changes nothing. */
  lemma {:induction false} DistinctOfDistinct<T(!new)>(s: seq<T>)
    requires NoDuplicates(s)
    ensures Distinct(s) == s
    decreases |s|
  {
    if s != [] {
      DistinctOfDistinct(s[..|s| - 1]);
      assert s[|s| - 1] !in s[..|s| - 1];
      assert s[..|s| - 1] + [s[|s| - 1]] == s;
    }
  }

  /** The order of `Distinct(s)` is the order of first appearance in `s`:
      every element occurs for the first time in `s` before the elements
      that follow it in `Distinct(s)`. */
  lemma {:induction false} DistinctFirstAppearance<T(!new)>(s: seq<T>, i: nat, j: nat)
    requires i < j < |Distinct(s)|
    ensures Distinct(s)[i] in s[..FirstIndex(s, Distinct(s)[j])]
    decreases |s|
  {
    var d := Distinct(s[..|s| - 1]);
    var last := s[|s| - 1];
    var init := s[..|s| - 1];
    assert s == init + [last];
    if last in d || j < |d| {
      assert Distinct(s)[i] == d[i] && Distinct(s)[j] == d[j];
      FirstIndexOfPrefix(init, last, d[j]);
      DistinctFirstAppearance(init, i, j);
      assert init[..FirstIndex(init, d[j])] == s[..FirstIndex(s, d[j])];
    } else {
      assert Distinct(s)[i] == d[i] && Distinct(s)[j] == last;
      assert d[i] in init;
      assert last !in init;
      assert FirstIndex(s, last) == |init|;
      assert s[..|init|] == init;
    }
  }

  /** Every element of `r` occurs in `s`, and for the first time before
      every element that follows it in `r` does. */
  predicate InFirstAppearanceOrder<T(==)>(r: seq<T>, s: seq<T>) {
    forall i, j | 0 <= i < j < |r| :: r[j] in s && r[i] in s[..FirstIndex(s, r[j])]
  }

  lemma DistinctInFirstAppearanceOrder<T(!new)>(s: seq<T>)
    ensures InFirstAppearanceOrder(Distinct(s), s)
  {
    var d := Distinct(s);
    forall i: nat, j: nat | i < j < |d| ensures d[j] in s && d[i] in s[..FirstIndex(s, d[j])] {
      assert d[j] in d;
      DistinctFirstAppearance(s, i, j);
    }
  }

  /** Index of the first occurrence of `x` in `s`. */
  function FirstIndex<T(==)>(s: seq<T>, x: T): (k: nat)
    requires x in s
    ensures k < |s| && s[k] == x && x !in s[..k]
    ensures forall i | 0 <= i < k :: s[i] != x
  {
    if s[0] == x then 0
    else
      var k := FirstIndex(s[1..], x);
      assert s[..k + 1] == [s[0]] + s[1..][..k];
      k + 1
  }

  lemma {:induction false} FirstIndexOfPrefix<T>(s: seq<T>, y: T, x: T)
    requires x in s
    ensures x in s + [y] && FirstIndex(s + [y], x) == FirstIndex(s, x)
    decreases |s|
  {
    if s[0] != x {
      assert (s + [y])[1..] == s[1..] + [y];
      FirstIndexOfPrefix(s[1..], y, x);
    }
  }

  /** `s.filter(p)`. */
  function Filter<T(!new)>(s: seq<T>, p: T -> bool): (r: seq<T>)
    ensures |r| <= |s|
    ensures forall x :: x in r <==> x in s && p(x)
    decreases |s|
  {
    if s == [] then []
    else if p(s[0]) then [s[0]] + Filter(s[1..], p)
    else Filter(s[1..], p)
  }

  lemma {:induction false} FilterAppend<T(!new)>(a: seq<T>, b: seq<T>, p: T -> bool)
    ensures Filter(a + b, p) == Filter(a, p) + Filter(b, p)
    decreases |a|
  {
    if a == [] {
      assert a + b == b;
    } else {
      var ab := a + b;
      assert ab != [] && ab[0] == a[0];
      assert ab[1..] == a[1..] + b;
      FilterAppend(a[1..], b, p);
    }
  }

  lemma FilterCons<T(!new)>(x: T, s: seq<T>, p: T -> bool)
    ensures Filter([x] + s, p) == (if p(x) then [x] else []) + Filter(s, p)
  {
    assert ([x] + s)[1..] == s;
  }

  /** Nothing is kept when no element qualifies. */
  lemma FilterNone<T(!new)>(s: seq<T>, p: T -> bool)
    requires forall i | 0 <= i < |s| :: !p(s[i])
    ensures Filter(s, p) == []
  {
  }

  /** Filtering keeps every occurrence of a kept element. */
  lemma {:induction false} FilterCounts<T(!new)>(s: seq<T>, p: T -> bool)
    ensures forall x :: multiset(Filter(s, p))[x] == if p(x) then multiset(s)[x] else 0
    decreases |s|
  {
    if s != [] {
      FilterCounts(s[1..], p);
      assert s == [s[0]] + s[1..];
    }
  }

  /** Filtering with a predicate every element meets changes nothing. */
  lemma {:induction false} FilterKeepsAll<T(!new)>(s: seq<T>, p: T -> bool)
    requires forall i | 0 <= i < |s| :: p(s[i])
    ensures Filter(s, p) == s
    decreases |s|
  {
    if s != [] {
      FilterKeepsAll(s[1..], p);
    }
  }

  /** Filtering a list without repeats leaves none. */
  lemma {:induction false} FilterNoDuplicates<T(!new)>(s: seq<T>, p: T -> bool)
    requires NoDuplicates(s)
    ensures NoDuplicates(Filter(s, p))
    decreases |s|
  {
    if s != [] {
      assert NoDuplicates(s[1..]) by {
        forall i, j | 0 <= i < j < |s[1..]| ensures s[1..][i] != s[1..][j] {
          assert s[1..][i] == s[i + 1] && s[1..][j] == s[j + 1];
        }
      }
      FilterNoDuplicates(s[1..], p);
      if p(s[0]) {
        assert forall k | 0 <= k < |s[1..]| :: s[1..][k] == s[k + 1];
        ConsNoDuplicates(s[0], Filter(s[1..], p));
      }
    }
  }

  lemma ConsNoDuplicates<T>(x: T, t: seq<T>)
    requires x !in t && NoDuplicates(t)
    ensures NoDuplicates([x] + t)
  {
    var r := [x] + t;
    forall i, j | 0 <= i < j < |r| ensures r[i] != r[j] {
      assert r[j] == t[j - 1];
      if i > 0 {
        assert r[i] == t[i - 1];
      }
    }
  }

  /** `r` is `s` with some elements left out, order kept. */
  predicate IsSubsequence<T(==)>(r: seq<T>, s: seq<T>)
    decreases |s|
  {
    r == [] || (s != [] && (if r[0] == s[0] then IsSubsequence(r[1..], s[1..]) else IsSubsequence(r, s[1..])))
  }

  lemma {:induction false} FilterIsSubsequence<T(!new)>(s: seq<T>, p: T -> bool)
    ensures IsSubsequence(Filter(s, p), s)
    decreases |s|
  {
    if s != [] {
      FilterIsSubsequence(s[1..], p);
      if p(s[0]) {
        assert Filter(s, p)[1..] == Filter(s[1..], p);
      } else {
        var r := Filter(s, p);
        if r != [] {
          assert r[0] in r;
          assert r[0] != s[0];
        }
      }
    }
  }
}
