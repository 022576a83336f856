/** URL slugs for profiles: a role title lowercased, stripped to
    `[a-z0-9-]`, with whitespace runs and dash runs each turned into one
    dash and no dash at either end; a time-based fallback when too little
    is left; and a random suffix for uniqueness. The clock and the random
    suffix are parameters. */
module Slug {
  import opened Text
  import opened JobSchema

  /** No dash is followed by another. */
  predicate NoDoubleDash(s: string) {
    forall i, j | 0 <= i < |s| && 0 <= j < |s| && j == i + 1 :: !(s[i] == '-' && s[j] == '-')
  }

  /** The shape every slug this module builds has: `[a-z0-9-]` only, no
      `--`, and no dash at either end. */
  predicate CleanSlug(s: string) {
    && (forall i | 0 <= i < |s| :: IsSlugChar(s[i]))
    && NoDoubleDash(s)
    && (s != [] ==> s[0] != '-' && s[|s| - 1] != '-')
  }

  /** The characters `/[^a-z0-9\s-]/g` spares. */
  predicate Kept(c: char) { IsLowerAlnum(c) || IsSpace(c) || c == '-' }

  /** `.replace(/\s+/g, '-')`: each whitespace run becomes one dash. */
  function DashSpaceRuns(s: string): (r: string)
    ensures |r| <= |s|
    ensures forall i | 0 <= i < |r| :: !IsSpace(r[i])
    ensures forall c | c in r :: c in s || c == '-'
    ensures (forall i | 0 <= i < |s| :: !IsSpace(s[i])) ==> r == s
    decreases |s|
  {
    if s == [] then []
    else if |s| >= 2 && IsSpace(s[0]) && IsSpace(s[1]) then DashSpaceRuns(s[1..])
    else if IsSpace(s[0]) then "-" + DashSpaceRuns(s[1..])
    else [s[0]] + DashSpaceRuns(s[1..])
  }

  /** `.replace(/-+/g, '-')`: each dash run becomes one dash. */
  function CollapseDashes(s: string): (r: string)
    ensures |r| <= |s|
    ensures NoDoubleDash(r)
    ensures forall c | c in r :: c in s
    ensures s != [] ==> r != [] && r[0] == s[0] && r[|r| - 1] == s[|s| - 1]
    ensures NoDoubleDash(s) ==> r == s
    decreases |s|
  {
    if s == [] then []
    else if |s| >= 2 && s[0] == '-' && s[1] == '-' then CollapseDashes(s[1..])
    else [s[0]] + CollapseDashes(s[1..])
  }

  /** `.replace(/^-|-$/g, '')`: one dash off each end. */
  function StripDashes(s: string): (r: string)
    ensures |r| <= |s|
    ensures forall c | c in r :: c in s
    ensures var lead := if s != [] && s[0] == '-' then "-" else "";
      var trail := if |s| > |lead| && s[|s| - 1] == '-' then "-" else "";
      s == lead + r + trail
    ensures NoDoubleDash(s) ==> NoDoubleDash(r) && (r != [] ==> r[0] != '-' && r[|r| - 1] != '-')
    ensures |s| > 0 && s[0] != '-' && s[|s| - 1] != '-' ==> r == s
  {
    var lead := if s != [] && s[0] == '-' then "-" else "";
    var trail := if |s| > |lead| && s[|s| - 1] == '-' then "-" else "";
    var r := s[|lead|..|s| - |trail|];
    StripParts(s, lead, trail, r);
    r
  }

  lemma StripParts(s: string, lead: string, trail: string, r: string)
    requires lead == if s != [] && s[0] == '-' then "-" else ""
    requires trail == if |s| > |lead| && s[|s| - 1] == '-' then "-" else ""
    requires r == s[|lead|..|s| - |trail|]
    ensures s == lead + r + trail
    ensures NoDoubleDash(s) ==> NoDoubleDash(r) && (r != [] ==> r[0] != '-' && r[|r| - 1] != '-')
  {
    assert s == lead + (r + trail);
    assert lead + (r + trail) == lead + r + trail;
    if NoDoubleDash(s) {
      StripEnds(s, lead, r, trail);
    }
  }

  lemma StripEnds(s: string, lead: string, r: string, trail: string)
    requires s == lead + (r + trail)
    requires lead == "" || lead == "-"
    requires trail == "" || trail == "-"
    requires lead == "" ==> s == [] || s[0] != '-'
    requires trail == "" ==> r == [] || r[|r| - 1] != '-'
    requires NoDoubleDash(s)
    ensures NoDoubleDash(r) && (r != [] ==> r[0] != '-' && r[|r| - 1] != '-')
  {
    InnerNoDoubleDash(s, |lead|, r);
    if r != [] {
      assert r[0] == s[|lead|] && r[|r| - 1] == s[|lead| + |r| - 1];
      if lead == "-" { DashPair(s, 0); }
      if trail == "-" {
        assert s[|lead| + |r|] == '-';
        DashPair(s, |lead| + |r| - 1);
      }
    }
  }

  lemma DashPair(s: string, i: nat)
    requires NoDoubleDash(s) && i + 1 < |s|
    ensures s[i] == '-' ==> s[i + 1] != '-'
  {
  }

  /** A slice of a text without `--` has none either. */
  lemma InnerNoDoubleDash(s: string, k: nat, r: string)
    requires k + |r| <= |s| && r == s[k..k + |r|]
    requires NoDoubleDash(s)
    ensures NoDoubleDash(r)
  {
    forall i, j | 0 <= i < |r| && 0 <= j < |r| && j == i + 1 ensures !(r[i] == '-' && r[j] == '-') {
      assert r[i] == s[k + i] && r[j] == s[k + j];
    }
  }

  /** `.toLowerCase().trim().replace(/[^a-z0-9\s-]/g, '')`. */
  function KeepSlugChars(input: string): (r: string)
    ensures |r| <= |input|
    ensures forall i | 0 <= i < |r| :: Kept(r[i])
    ensures IsSubsequence(r, Trim(ToLower(input)))
    ensures forall c | Kept(c) :: multiset(r)[c] == multiset(Trim(ToLower(input)))[c]
  {
    var t := Trim(ToLower(input));
    KeptChars(t);
    Filter(t, Kept)
  }

  lemma KeptChars(t: string)
    ensures forall i | 0 <= i < |Filter(t, Kept)| :: Kept(Filter(t, Kept)[i])
    ensures IsSubsequence(Filter(t, Kept), t)
    ensures forall c | Kept(c) :: multiset(Filter(t, Kept))[c] == multiset(t)[c]
  {
    var r := Filter(t, Kept);
    assert forall i | 0 <= i < |r| :: r[i] in r;
    FilterIsSubsequence(t, Kept);
    FilterCounts(t, Kept);
  }

  /** The cleaned title before the fallback is considered. */
  function BaseSlug(input: string): (r: string)
    ensures CleanSlug(r)
    ensures |r| <= |input|
  {
    var kept := KeepSlugChars(input);
    DashStepsClean(kept);
    StripDashes(CollapseDashes(DashSpaceRuns(kept)))
  }

  lemma DashStepsClean(kept: string)
    requires forall i | 0 <= i < |kept| :: Kept(kept[i])
    ensures CleanSlug(StripDashes(CollapseDashes(DashSpaceRuns(kept))))
  {
    DashedSlugChars(kept);
    var collapsed := CollapseDashes(DashSpaceRuns(kept));
    assert forall c | c in collapsed :: IsSlugChar(c);
    StripClean(collapsed);
  }

  /** Once whitespace is dashed, only slug characters are left. */
  lemma DashedSlugChars(kept: string)
    requires forall i | 0 <= i < |kept| :: Kept(kept[i])
    ensures forall c | c in DashSpaceRuns(kept) :: IsSlugChar(c)
  {
    var dashed := DashSpaceRuns(kept);
    assert forall c | c in kept :: Kept(c);
    forall c | c in dashed ensures IsSlugChar(c) {
      var i :| 0 <= i < |dashed| && dashed[i] == c;
      assert !IsSpace(dashed[i]);
    }
  }

  lemma StripClean(s: string)
    requires forall c | c in s :: IsSlugChar(c)
    requires NoDoubleDash(s)
    ensures CleanSlug(StripDashes(s))
  {
    var r := StripDashes(s);
    assert forall i | 0 <= i < |r| :: r[i] in r;
  }

  // ---------------------------------------------------------------------
  // What each step keeps

  /** Every whitespace character written as a dash. */
  function SpacesToDashes(s: string): string {
    seq(|s|, i requires 0 <= i < |s| => if IsSpace(s[i]) then '-' else s[i])
  }

  lemma SpacesToDashesCons(c: char, s: string)
    ensures SpacesToDashes([c] + s) == [if IsSpace(c) then '-' else c] + SpacesToDashes(s)
  {
  }

  lemma SpacesToDashesAppend(a: string, b: string)
    ensures SpacesToDashes(a + b) == SpacesToDashes(a) + SpacesToDashes(b)
  {
  }

  /** Each whitespace run becomes one dash: collapsing the runs to one space
      and writing those spaces as dashes gives the same text. */
  lemma {:induction false} DashSpaceRunsIsCollapse(s: string)
    ensures DashSpaceRuns(s) == SpacesToDashes(CollapseSpaces(s))
    decreases |s|
  {
    if s != [] {
      DashSpaceRunsIsCollapse(s[1..]);
      if IsSpace(s[0]) {
        CollapseSpaceHead(s);
        if |s| >= 2 && IsSpace(s[1]) {
          CollapseSpaceHead(s[1..]);
          assert TrimStart(s) == TrimStart(s[1..]);
        } else {
          TrimStartAfterSingleSpace(s);
          SpacesToDashesCons(' ', CollapseSpaces(s[1..]));
        }
      } else {
        CollapseStep(s);
        SpacesToDashesCons(s[0], CollapseSpaces(s[1..]));
      }
    }
  }

  /** Writing word separators as dashes. */
  lemma {:induction false} SpacesToDashesOfJoin(ws: seq<string>)
    requires forall k | 0 <= k < |ws| :: IsWord(ws[k])
    ensures SpacesToDashes(Join(ws, " ")) == Join(ws, "-")
    decreases |ws|
  {
    if ws != [] {
      var w := ws[0];
      assert SpacesToDashes(w) == w;
      if |ws| > 1 {
        SpacesToDashesOfJoin(ws[1..]);
        SpacesToDashesAppend(w + " ", Join(ws[1..], " "));
        SpacesToDashesAppend(w, " ");
      }
    }
  }

  /** On a trimmed text the step is its words joined by dashes. */
  lemma DashSpaceRunsOfTrimmed(t: string)
    requires Trimmed(t)
    ensures DashSpaceRuns(t) == Join(Words(t), "-")
  {
    DashSpaceRunsIsCollapse(t);
    CollapseIsJoinedWords(t);
    var ws := Words(t);
    forall k | 0 <= k < |ws| ensures IsWord(ws[k]) {
      forall i | 0 <= i < |ws[k]| ensures !IsSpace(ws[k][i]) {
        assert ws[k][i] in ws[k];
      }
    }
    SpacesToDashesOfJoin(ws);
  }

  /** The non-empty dash-separated groups of a text. */
  function DashGroups(s: string): seq<string> {
    Filter(Split(s, '-'), NonEmpty)
  }

  lemma GroupsCons(p: string, ps: seq<string>)
    ensures Filter([p] + ps, NonEmpty) == (if p != "" then [p] else []) + Filter(ps, NonEmpty)
  {
    FilterCons(p, ps, NonEmpty);
  }

  /** Collapsing dash runs keeps the groups between them, and the text before
      the first dash. */
  lemma {:induction false} CollapseDashesKeepsGroups(s: string)
    ensures Split(CollapseDashes(s), '-')[0] == Split(s, '-')[0]
    ensures DashGroups(CollapseDashes(s)) == DashGroups(s)
    decreases |s|
  {
    if s != [] {
      var t := s[1..];
      CollapseDashesKeepsGroups(t);
      if s[0] == '-' {
        SplitSeparatorHead(s, '-');
        GroupsCons("", Split(t, '-'));
        if |s| >= 2 && s[1] == '-' {
          SplitSeparatorHead(t, '-');
        } else {
          var c := CollapseDashes(s);
          assert c == "-" + CollapseDashes(t);
          SplitSeparatorHead(c, '-');
          assert c[1..] == CollapseDashes(t);
          GroupsCons("", Split(CollapseDashes(t), '-'));
        }
      } else {
        var c := CollapseDashes(s);
        assert c == [s[0]] + CollapseDashes(t);
        LetterGroups(s);
        LetterGroups(c);
        assert c[1..] == CollapseDashes(t);
        var p, q := Split(t, '-'), Split(CollapseDashes(t), '-');
        GroupsCons(p[0], p[1..]);
        GroupsCons(q[0], q[1..]);
        assert p == [p[0]] + p[1..] && q == [q[0]] + q[1..];
        var head := if p[0] != "" then [p[0]] else [];
        assert Filter(q[1..], NonEmpty) == (head + Filter(q[1..], NonEmpty))[|head|..];
      }
    }
  }

  /** The groups of a text that starts with a letter. */
  lemma LetterGroups(s: string)
    requires s != [] && s[0] != '-'
    ensures Split(s, '-')[0] == [s[0]] + Split(s[1..], '-')[0]
    ensures DashGroups(s) == [[s[0]] + Split(s[1..], '-')[0]] + Filter(Split(s[1..], '-')[1..], NonEmpty)
  {
    SplitLetterHead(s, '-');
    var p := Split(s[1..], '-');
    GroupsCons([s[0]] + p[0], p[1..]);
  }

  /** The letters and digits of the lowercased title reach the base slug,
      all of them and in order: the steps only drop other characters and
      add, merge or drop dashes. */
  lemma BaseSlugKeepsAlnum(input: string)
    ensures Filter(BaseSlug(input), IsLowerAlnum) == Filter(ToLower(input), IsLowerAlnum)
  {
    KeepSlugCharsKeepsAlnum(input);
    DashStepsKeepAlnum(KeepSlugChars(input));
  }

  lemma KeepSlugCharsKeepsAlnum(input: string)
    ensures Filter(KeepSlugChars(input), IsLowerAlnum) == Filter(ToLower(input), IsLowerAlnum)
  {
    TrimKeepsVisible(ToLower(input), IsLowerAlnum);
    FilterOfFilter(Trim(ToLower(input)), Kept, IsLowerAlnum);
  }

  lemma DashStepsKeepAlnum(kept: string)
    ensures Filter(StripDashes(CollapseDashes(DashSpaceRuns(kept))), IsLowerAlnum) == Filter(kept, IsLowerAlnum)
  {
    var dashed := DashSpaceRuns(kept);
    DashSpaceRunsKeepsAlnum(kept);
    CollapseDashesKeepsAlnum(dashed);
    StripDashesKeepsAlnum(CollapseDashes(dashed));
  }

  lemma {:induction false} FilterOfFilter(s: string, p: char -> bool, q: char -> bool)
    requires forall c :: q(c) ==> p(c)
    ensures Filter(Filter(s, p), q) == Filter(s, q)
    decreases |s|
  {
    if s != [] {
      FilterOfFilter(s[1..], p, q);
      if p(s[0]) {
        FilterCons(s[0], Filter(s[1..], p), q);
      }
    }
  }

  lemma DashSpaceRunsKeepsAlnum(s: string)
    ensures Filter(DashSpaceRuns(s), IsLowerAlnum) == Filter(s, IsLowerAlnum)
  {
    DashSpaceRunsIsCollapse(s);
    SpacesToDashesKeepsAlnum(CollapseSpaces(s));
    CollapseKeepsVisible(s, IsLowerAlnum);
  }

  lemma {:induction false} SpacesToDashesKeepsAlnum(s: string)
    ensures Filter(SpacesToDashes(s), IsLowerAlnum) == Filter(s, IsLowerAlnum)
    decreases |s|
  {
    if s != [] {
      var c, t := s[0], s[1..];
      SpacesToDashesKeepsAlnum(t);
      assert s == [c] + t;
      SpacesToDashesCons(c, t);
      var d := if IsSpace(c) then '-' else c;
      FilterCons(d, SpacesToDashes(t), IsLowerAlnum);
      FilterCons(c, t, IsLowerAlnum);
      assert IsLowerAlnum(d) == IsLowerAlnum(c);
    }
  }

  lemma {:induction false} CollapseDashesKeepsAlnum(s: string)
    ensures Filter(CollapseDashes(s), IsLowerAlnum) == Filter(s, IsLowerAlnum)
    decreases |s|
  {
    if s != [] {
      CollapseDashesKeepsAlnum(s[1..]);
      if !(|s| >= 2 && s[0] == '-' && s[1] == '-') {
        FilterCons(s[0], CollapseDashes(s[1..]), IsLowerAlnum);
      }
    }
  }

  lemma StripDashesKeepsAlnum(s: string)
    ensures Filter(StripDashes(s), IsLowerAlnum) == Filter(s, IsLowerAlnum)
  {
    var r := StripDashes(s);
    var lead := if s != [] && s[0] == '-' then "-" else "";
    var trail := if |s| > |lead| && s[|s| - 1] == '-' then "-" else "";
    assert s == lead + r + trail;
    FilterAppend(lead + r, trail, IsLowerAlnum);
    FilterAppend(lead, r, IsLowerAlnum);
  }

  // ---------------------------------------------------------------------
  // Base 36

  function Base36Digit(d: nat): (c: char)
    requires d < 36
    ensures IsLowerAlnum(c)
  {
    if d < 10 then ('0' as int + d) as char else ('a' as int + d - 10) as char
  }

  function Base36Value(c: char): nat
    requires IsLowerAlnum(c)
  {
    if '0' <= c <= '9' then c as int - '0' as int else c as int - 'a' as int + 10
  }

  /** `n.toString(36)`. */
  function Base36(n: nat): (r: string)
    ensures |r| >= 1 && forall i | 0 <= i < |r| :: IsLowerAlnum(r[i])
  {
    if n < 36 then [Base36Digit(n)] else Base36(n / 36) + [Base36Digit(n % 36)]
  }

  /** Reading base-36 digits back. */
  function ParseBase36(s: string): nat
    requires forall i | 0 <= i < |s| :: IsLowerAlnum(s[i])
  {
    if s == [] then 0 else ParseBase36(s[..|s| - 1]) * 36 + Base36Value(s[|s| - 1])
  }

  /** The timestamp text of the fallback is the timestamp, in base 36. */
  lemma {:induction false} Base36RoundTrip(n: nat)
    ensures ParseBase36(Base36(n)) == n
  {
    var r := Base36(n);
    if n < 36 {
      assert r[..0] == [];
    } else {
      Base36RoundTrip(n / 36);
      assert r[..|r| - 1] == Base36(n / 36);
    }
  }

  // ---------------------------------------------------------------------
  // Slugs

  /** `createSlug`: the cleaned title when it is longer than two
      characters, otherwise `job-` and the clock in base 36. */
  function CreateSlug(input: string, nowMs: nat): (r: string)
    ensures CleanSlug(r) && |r| > 2
    ensures |BaseSlug(input)| > 2 ==> r == BaseSlug(input)
    ensures |BaseSlug(input)| <= 2 ==> r == "job-" + Base36(nowMs)
  {
    var base := BaseSlug(input);
    if |base| > 2 then base
    else
      FallbackClean("job-", Base36(nowMs));
      "job-" + Base36(nowMs)
  }

  lemma FallbackClean(prefix: string, digits: string)
    requires prefix == "job-"
    requires |digits| >= 1 && forall i | 0 <= i < |digits| :: IsLowerAlnum(digits[i])
    ensures CleanSlug(prefix + digits) && |prefix + digits| > 2
  {
    var r := prefix + digits;
    assert forall i | 0 <= i < 4 :: IsSlugChar(prefix[i]) && (i < 3 ==> prefix[i] != '-');
    assert forall i | 0 <= i < |r| :: r[i] == if i < 4 then prefix[i] else digits[i - 4];
  }

  /** The random part: at most six base-36 digits (`toString(36).slice(2, 8)`). */
  predicate IsRandomSuffix(suffix: string) {
    |suffix| <= 6 && forall i | 0 <= i < |suffix| :: IsLowerAlnum(suffix[i])
  }

  /** `createUniqueRoleSlug`: the slug, a dash and the random suffix; always
      a well-formed profile slug. */
  function CreateUniqueRoleSlug(roleTitle: string, suffix: string, nowMs: nat): (r: string)
    requires IsRandomSuffix(suffix)
    ensures MatchesSlugPattern(r)
    ensures |r| == |CreateSlug(roleTitle, nowMs)| + 1 + |suffix|
    ensures r[..|r| - |suffix|] == CreateSlug(roleTitle, nowMs) + "-"
    ensures r[|r| - |suffix|..] == suffix
  {
    var slug := CreateSlug(roleTitle, nowMs);
    var r := slug + "-" + suffix;
    SuffixedSlugChars(slug, suffix);
    assert r[..|r| - |suffix|] == slug + "-";
    r
  }

  lemma SuffixedSlugChars(slug: string, suffix: string)
    requires forall i | 0 <= i < |slug| :: IsSlugChar(slug[i])
    requires forall i | 0 <= i < |suffix| :: IsLowerAlnum(suffix[i])
    ensures MatchesSlugPattern(slug + "-" + suffix)
  {
    var r := slug + "-" + suffix;
    forall i | 0 <= i < |r| ensures IsSlugChar(r[i]) {
      if i < |slug| { assert r[i] == slug[i]; }
      else if i > |slug| { assert r[i] == suffix[i - |slug| - 1]; }
    }
  }

  // ---------------------------------------------------------------------
  // Properties

  /** Dash-separated groups of `[a-z0-9]` pass through every step. */
  lemma CleanSlugUnchanged(s: string, nowMs: nat)
    requires CleanSlug(s) && |s| > 2
    ensures CreateSlug(s, nowMs) == s
  {
    CleanBaseUnchanged(s);
  }

  lemma CleanBaseUnchanged(s: string)
    requires CleanSlug(s) && |s| > 2
    ensures BaseSlug(s) == s
  {
    CleanKeptUnchanged(s);
    CleanHasNoSpace(s);
    CleanHasNoDashRun(s);
    CleanHasNoEndDash(s);
  }

  lemma CleanHasNoSpace(s: string)
    requires CleanSlug(s)
    ensures DashSpaceRuns(s) == s
  {
    assert forall i | 0 <= i < |s| :: !IsSpace(s[i]);
  }

  lemma CleanHasNoDashRun(s: string)
    requires CleanSlug(s)
    ensures CollapseDashes(s) == s
  {
  }

  lemma CleanHasNoEndDash(s: string)
    requires CleanSlug(s) && |s| > 2
    ensures StripDashes(s) == s
  {
  }

  lemma CleanKeptUnchanged(s: string)
    requires CleanSlug(s)
    ensures KeepSlugChars(s) == s
  {
    assert ToLower(s) == s by {
      forall i | 0 <= i < |s| ensures ToLower(s)[i] == s[i] { }
    }
    assert Trimmed(s);
    FilterKeepsAll(s, Kept);
  }

  /** The slug's text is the base exactly when the base is long enough. */
  lemma CreateSlugIsBase(input: string, nowMs: nat)
    ensures CreateSlug(input, nowMs) == BaseSlug(input) <==> |BaseSlug(input)| > 2
  {
    if |BaseSlug(input)| <= 2 {
      assert |CreateSlug(input, nowMs)| > 2;
    }
  }

  /** Cleaning a slug a second time changes nothing. */
  lemma CreateSlugIdempotent(input: string, nowMs: nat, laterMs: nat)
    ensures CreateSlug(CreateSlug(input, nowMs), laterMs) == CreateSlug(input, nowMs)
  {
    CleanSlugUnchanged(CreateSlug(input, nowMs), laterMs);
  }
}
