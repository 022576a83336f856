/** Duplicate detection for share submissions: texts are compared by the
    Jaccard index of their word sets, a candidate with the same role title
    scores at least 0.8, and the best-scoring candidate is reported when it
    reaches 0.72. The store query for candidates is an outcome passed in. */
module Duplicates {
  import opened Wrappers
  import opened Text
  import opened JobSchema
  import opened Jobs

  /** The score a candidate with the same role title is raised to. */
  const TITLE_FLOOR: real := 0.8

  /** The score from which a candidate is reported as a duplicate. */
  const DUPLICATE_THRESHOLD: real := 0.72

  // ---------------------------------------------------------------------
  // Tokens

  /** `.replace(/[^a-z0-9\s]/g, ' ')`. */
  function Scrub(s: string): (r: string)
    ensures |r| == |s|
    ensures forall c | c in r :: IsLowerAlnum(c) || IsSpace(c)
    ensures forall i | 0 <= i < |s| :: r[i] == if IsLowerAlnum(s[i]) || IsSpace(s[i]) then s[i] else ' '
  {
    seq(|s|, i requires 0 <= i < |s| => if IsLowerAlnum(s[i]) || IsSpace(s[i]) then s[i] else ' ')
  }

  predicate LongEnough(token: string) { |token| >= 3 }

  /** `normalizeForComparison`: the lowercase `[a-z0-9]` words of at least
      three characters, in order. */
  function Tokens(value: string): (r: seq<string>)
    ensures forall t | t in r :: |t| >= 3 && forall c | c in t :: IsLowerAlnum(c)
    ensures forall t :: t in r <==> t in Words(Scrub(ToLower(value))) && |t| >= 3
    ensures IsSubsequence(r, Words(Scrub(ToLower(value))))
  {
    var words := Words(Scrub(ToLower(value)));
    assert forall t | t in words :: forall c | c in t :: IsLowerAlnum(c);
    FilterIsSubsequence(words, LongEnough);
    Filter(words, LongEnough)
  }

  /** An alphabet word of at least three characters. */
  predicate IsToken(t: string) {
    |t| >= 3 && forall c | c in t :: IsLowerAlnum(c)
  }

  /** Tokenising words already in token form, joined by spaces, gives them
      back. */
  lemma TokensOfJoin(ws: seq<string>)
    requires forall k | 0 <= k < |ws| :: IsToken(ws[k])
    ensures Tokens(Join(ws, " ")) == ws
  {
    CleanTokenText(ws);
    TokensAreWords(ws);
    WordsOfJoin(ws);
    FilterKeepsAll(ws, LongEnough);
  }

  lemma CleanTokenText(ws: seq<string>)
    requires forall k | 0 <= k < |ws| :: IsToken(ws[k])
    ensures Scrub(ToLower(Join(ws, " "))) == Join(ws, " ")
  {
    var text := Join(ws, " ");
    JoinKeeps(ws, " ", IsTokenChar);
    ToLowerKeepsLower(text);
    ScrubKeepsClean(text);
  }

  lemma TokensAreWords(ws: seq<string>)
    requires forall k | 0 <= k < |ws| :: IsToken(ws[k])
    ensures forall k | 0 <= k < |ws| :: IsWord(ws[k])
  {
    forall k | 0 <= k < |ws| ensures IsWord(ws[k]) {
      forall i | 0 <= i < |ws[k]| ensures !IsSpace(ws[k][i]) {
        assert ws[k][i] in ws[k];
      }
    }
  }

  /** The characters a joined token list is made of. */
  predicate IsTokenChar(c: char) { IsLowerAlnum(c) || c == ' ' }

  lemma ToLowerKeepsLower(s: string)
    requires forall c | c in s :: IsTokenChar(c)
    ensures ToLower(s) == s
  {
    forall i | 0 <= i < |s| ensures ToLower(s)[i] == s[i] {
      assert s[i] in s;
    }
  }

  lemma ScrubKeepsClean(s: string)
    requires forall c | c in s :: IsTokenChar(c)
    ensures Scrub(s) == s
  {
    forall i | 0 <= i < |s| ensures Scrub(s)[i] == s[i] {
      assert s[i] in s;
    }
  }

  /** `new Set(normalizeForComparison(value))`. */
  function TokenSet(value: string): set<string> {
    set t | t in Tokens(value)
  }

  // ---------------------------------------------------------------------
  // Jaccard index

  /** `|a ∩ b| / |a ∪ b|`, and 0 when either set is empty. */
  function Jaccard(a: set<string>, b: set<string>): (r: real)
    ensures 0.0 <= r <= 1.0
    ensures a == {} || b == {} ==> r == 0.0
    ensures r == 0.0 <==> a * b == {}
  {
    if |a| == 0 || |b| == 0 then 0.0
    else
      SubsetCard(a * b, a + b);
      var union := |a + b|;
      if union == 0 then 0.0
      else
        RatioAtMostOne(|a * b|, union);
        assert |a * b| == 0 <==> a * b == {};
        |a * b| as real / union as real
  }

  /** A subset is no larger, and one as large is the whole set. */
  lemma {:induction false} SubsetCard<T>(x: set<T>, y: set<T>)
    requires x <= y
    ensures |x| <= |y|
    ensures |x| == |y| ==> x == y
    decreases |x|
  {
    if x != {} {
      var e :| e in x;
      SubsetCard(x - {e}, y - {e});
      if |x| == |y| {
        assert x - {e} == y - {e};
        assert x == (x - {e}) + {e} && y == (y - {e}) + {e};
      }
    } else if |y| == 0 {
      assert y == {};
    }
  }

  lemma RatioAtMostOne(x: nat, y: nat)
    requires 0 < y && x <= y
    ensures 0.0 <= x as real / y as real <= 1.0
  {
  }

  lemma JaccardSymmetric(a: set<string>, b: set<string>)
    ensures Jaccard(a, b) == Jaccard(b, a)
  {
    assert a * b == b * a && a + b == b + a;
  }

  /** The index is 1 exactly for two equal non-empty sets. */
  lemma JaccardOne(a: set<string>, b: set<string>)
    ensures Jaccard(a, b) == 1.0 <==> a == b && a != {}
  {
    if a != {} && b != {} {
      SubsetCard(a * b, a + b);
      assert |a + b| > 0 by { SubsetCard(a, a + b); }
      var x, y := |a * b| as real, |a + b| as real;
      assert Jaccard(a, b) == x / y;
      if Jaccard(a, b) == 1.0 {
        assert x == y;
        assert |a * b| == |a + b|;
        assert a * b == a + b;
        assert forall x | x in a :: x in a * b;
        assert forall x | x in b :: x in a * b;
      }
      if a == b {
        assert a * b == a + b;
      }
    }
  }

  /** The similarity of two texts. */
  function Similarity(left: string, right: string): real {
    Jaccard(TokenSet(left), TokenSet(right))
  }

  /** The similarity lies in [0, 1], is symmetric, is 0 when either text
      has no token and is 1 exactly when both have the same non-empty token
      set. */
  lemma SimilarityProperties(left: string, right: string)
    ensures 0.0 <= Similarity(left, right) <= 1.0
    ensures Similarity(left, right) == Similarity(right, left)
    ensures TokenSet(left) == {} || TokenSet(right) == {} ==> Similarity(left, right) == 0.0
    ensures Similarity(left, right) == 1.0 <==> TokenSet(left) == TokenSet(right) && TokenSet(left) != {}
    ensures Similarity(left, right) == 0.0 <==> TokenSet(left) * TokenSet(right) == {}
  {
    JaccardSymmetric(TokenSet(left), TokenSet(right));
    JaccardOne(TokenSet(left), TokenSet(right));
  }

  /** `jaccardSimilarity`: counts the shared tokens one by one and divides
      by the size of the union. */
  method JaccardSimilarity(left: string, right: string) returns (r: real)
    ensures r == Similarity(left, right)
  {
    var leftSet := TokenSet(left);
    var rightSet := TokenSet(right);
    if |leftSet| == 0 || |rightSet| == 0 {
      return 0.0;
    }
    var intersectionCount := CountShared(leftSet, rightSet);
    var unionCount := |leftSet + rightSet|;
    r := if unionCount == 0 then 0.0 else intersectionCount as real / unionCount as real;
    JaccardOfCounts(leftSet, rightSet, intersectionCount, unionCount, r);
  }

  /** The ratio of the counted intersection to the union is the index. */
  lemma JaccardOfCounts(a: set<string>, b: set<string>, shared: int, union: int, r: real)
    requires |a| != 0 && |b| != 0
    requires shared == |a * b| && union == |a + b|
    requires r == if union == 0 then 0.0 else shared as real / union as real
    ensures r == Jaccard(a, b)
  {
  }

  /** The loop of `jaccardSimilarity` that counts the tokens of one set
      found in the other. */
  method CountShared(leftSet: set<string>, rightSet: set<string>) returns (count: nat)
    ensures count == |leftSet * rightSet|
  {
    count := 0;
    var rest := leftSet;
    while rest != {}
      invariant rest <= leftSet
      invariant count == |(leftSet - rest) * rightSet|
      decreases |rest|
    {
      var token :| token in rest;
      CountStep(leftSet, rest, rightSet, token);
      if token in rightSet {
        count := count + 1;
      }
      rest := rest - {token};
    }
    assert leftSet - rest == leftSet;
  }

  lemma CountStep(all: set<string>, rest: set<string>, other: set<string>, t: string)
    requires rest <= all && t in rest
    ensures |(all - (rest - {t})) * other| == |(all - rest) * other| + if t in other then 1 else 0
  {
    var before := (all - rest) * other;
    var after := (all - (rest - {t})) * other;
    if t in other {
      assert after == before + {t};
    } else {
      assert after == before;
    }
  }

  // ---------------------------------------------------------------------
  // Candidates

  /** A profile a submission is compared with. */
  datatype DuplicateCandidate = DuplicateCandidate(
    slug: string,
    roleTitle: string,
    status: string,
    dayToDay: string,
    bestParts: string,
    hardestParts: string,
    recommendationToStudents: string)

  datatype DuplicateMatch = DuplicateMatch(slug: string, roleTitle: string, status: string, similarity: real)

  /** The four narratives joined by single spaces. */
  function NarrativeText(dayToDay: string, bestParts: string, hardestParts: string, recommendation: string): (r: string)
    ensures Contains(r, dayToDay) && Contains(r, bestParts)
    ensures Contains(r, hardestParts) && Contains(r, recommendation)
    ensures Words(r) == Words(dayToDay) + Words(bestParts) + Words(hardestParts) + Words(recommendation)
  {
    var parts := [dayToDay, bestParts, hardestParts, recommendation];
    ContainsSelf(dayToDay);
    ContainsSelf(bestParts);
    ContainsSelf(hardestParts);
    ContainsSelf(recommendation);
    ContainsJoinPart(parts, " ", 0, dayToDay);
    ContainsJoinPart(parts, " ", 1, bestParts);
    ContainsJoinPart(parts, " ", 2, hardestParts);
    ContainsJoinPart(parts, " ", 3, recommendation);
    WordsOfFour(dayToDay, bestParts, hardestParts, recommendation);
    Join(parts, " ")
  }

  /** The words of four texts joined by spaces are their words in turn. */
  lemma WordsOfFour(a: string, b: string, c: string, d: string)
    ensures Words(Join([a, b, c, d], " ")) == Words(a) + Words(b) + Words(c) + Words(d)
  {
    var parts := [a, b, c, d];
    JoinTail(parts, " ");
    JoinTail(parts[1..], " ");
    JoinTail(parts[2..], " ");
    assert parts[1..][1..] == parts[2..] && parts[2..][1..] == [d];
    var j2 := Join(parts[2..], " ");
    var j1 := Join(parts[1..], " ");
    assert j2 == c + (" " + d);
    assert j1 == b + (" " + j2);
    WordsOfSpacedPair(c, d);
    WordsOfSpacedPair(b, j2);
    WordsOfSpacedPair(a, j1);
  }

  lemma ContainsSelf(s: string)
    ensures Contains(s, s)
  {
    assert IsPrefix(s, s);
  }

  /** `buildSubmissionText`. */
  function BuildSubmissionText(s: ShareSubmission): (r: string)
    ensures Contains(r, s.dayToDay) && Contains(r, s.bestParts)
    ensures Contains(r, s.hardestParts) && Contains(r, s.recommendationToStudents)
    ensures Words(r) == Words(s.dayToDay) + Words(s.bestParts) + Words(s.hardestParts) + Words(s.recommendationToStudents)
  {
    NarrativeText(s.dayToDay, s.bestParts, s.hardestParts, s.recommendationToStudents)
  }

  function CandidateText(c: DuplicateCandidate): string {
    NarrativeText(c.dayToDay, c.bestParts, c.hardestParts, c.recommendationToStudents)
  }

  /** The role title as compared: trimmed, then lowercased. */
  function TitleKey(title: string): string {
    ToLower(Trim(title))
  }

  /** `mapCandidateToDuplicateMatch`: the candidate's slug, title and status
      with the text similarity, raised to 0.8 when the titles agree. */
  function MapCandidateToDuplicateMatch(s: ShareSubmission, c: DuplicateCandidate): (m: DuplicateMatch)
    ensures m.slug == c.slug && m.roleTitle == c.roleTitle && m.status == c.status
    ensures 0.0 <= m.similarity <= 1.0
    ensures m.similarity >= Similarity(BuildSubmissionText(s), CandidateText(c))
    ensures TitleKey(c.roleTitle) == TitleKey(s.roleTitle) ==>
      m.similarity >= TITLE_FLOOR && (m.similarity == TITLE_FLOOR || m.similarity == Similarity(BuildSubmissionText(s), CandidateText(c)))
    ensures TitleKey(c.roleTitle) != TitleKey(s.roleTitle) ==>
      m.similarity == Similarity(BuildSubmissionText(s), CandidateText(c))
  {
    var similarity := Similarity(BuildSubmissionText(s), CandidateText(c));
    var exact := TitleKey(c.roleTitle) == TitleKey(s.roleTitle);
    DuplicateMatch(c.slug, c.roleTitle, c.status,
      if exact then (if similarity > TITLE_FLOOR then similarity else TITLE_FLOOR) else similarity)
  }

  // ---------------------------------------------------------------------
  // Selection

  /** The position of the first highest score, which a stable descending
      sort puts first. */
  function TopIndex(ms: seq<DuplicateMatch>): (i: nat)
    requires ms != []
    ensures i < |ms|
    ensures forall k | 0 <= k < |ms| :: ms[k].similarity <= ms[i].similarity
    ensures forall k | 0 <= k < i :: ms[k].similarity < ms[i].similarity
    decreases |ms|
  {
    if |ms| == 1 then 0
    else
      var j := TopIndex(ms[1..]) + 1;
      assert forall k | 1 <= k < |ms| :: ms[k] == ms[1..][k - 1];
      if ms[0].similarity >= ms[j].similarity then 0 else j
  }

  /** The best-match step: the candidate listed first among those with the
      highest score, unless there is none or that score is below 0.72. */
  function SelectBestMatch(ms: seq<DuplicateMatch>): (r: Option<DuplicateMatch>)
    ensures r.None? <==> forall k | 0 <= k < |ms| :: ms[k].similarity < DUPLICATE_THRESHOLD
    ensures r.Some? ==> r.value in ms && r.value.similarity >= DUPLICATE_THRESHOLD
    ensures r.Some? ==> forall k | 0 <= k < |ms| :: ms[k].similarity <= r.value.similarity
    ensures r.Some? ==> exists i | 0 <= i < |ms| :: r.value == ms[i] && forall k | 0 <= k < i :: ms[k].similarity < ms[i].similarity
  {
    if ms == [] then None
    else
      var best := ms[TopIndex(ms)];
      if best.similarity < DUPLICATE_THRESHOLD then None else Some(best)
  }

  /** Every candidate scored against the submission, in order. */
  function ScoreAll(s: ShareSubmission, cs: seq<DuplicateCandidate>): (r: seq<DuplicateMatch>)
    ensures |r| == |cs| && forall k | 0 <= k < |cs| :: r[k] == MapCandidateToDuplicateMatch(s, cs[k])
  {
    seq(|cs|, k requires 0 <= k < |cs| => MapCandidateToDuplicateMatch(s, cs[k]))
  }

  /** What the candidate query against the store gave. */
  datatype CandidateQuery = StoreNotConfigured | QueryFailed | Rows(rows: seq<DuplicateCandidate>)

  function DbCandidates(q: CandidateQuery): seq<DuplicateCandidate> {
    if q.Rows? then q.rows else []
  }

  /** The filter on local profiles: the same title once lowercased. */
  function SameLowerTitle(title: string): JobProfile -> bool {
    (job: JobProfile) => ToLower(job.roleTitle) == ToLower(title)
  }

  function ToCandidate(job: JobProfile): DuplicateCandidate {
    DuplicateCandidate(job.slug, job.roleTitle, job.status, job.dayToDay, job.bestParts,
                       job.hardestParts, job.recommendationToStudents)
  }

  /** The approved seed profiles with the submission's title, up to letter
      case. */
  function LocalJobs(s: ShareSubmission, seed: seq<JobProfile>): (r: seq<JobProfile>)
    ensures forall job :: job in r <==> job in seed && IsApproved(job) && ToLower(job.roleTitle) == ToLower(s.roleTitle)
    ensures IsSubsequence(r, GetApprovedJobs(seed))
    ensures forall job :: multiset(r)[job] == if IsApproved(job) && SameLowerTitle(s.roleTitle)(job) then multiset(seed)[job] else 0
  {
    var approved := GetApprovedJobs(seed);
    FilterIsSubsequence(approved, SameLowerTitle(s.roleTitle));
    FilterCounts(approved, SameLowerTitle(s.roleTitle));
    Filter(approved, SameLowerTitle(s.roleTitle))
  }

  /** The local profiles as candidates. */
  function LocalCandidates(s: ShareSubmission, seed: seq<JobProfile>): (r: seq<DuplicateCandidate>)
    ensures |r| == |LocalJobs(s, seed)|
    ensures forall k | 0 <= k < |r| :: r[k] == ToCandidate(LocalJobs(s, seed)[k])
  {
    var jobs := LocalJobs(s, seed);
    seq(|jobs|, k requires 0 <= k < |jobs| => ToCandidate(jobs[k]))
  }

  /** `findPotentialDuplicateSubmission`: the local candidates followed by the
      stored ones (none when the query failed or there is no store), scored,
      and the best one if it reaches 0.72. */
  function FindPotentialDuplicate(s: ShareSubmission, seed: seq<JobProfile>, query: CandidateQuery): (r: Option<DuplicateMatch>)
    ensures r.None? <==> forall c | c in LocalCandidates(s, seed) + DbCandidates(query) ::
      MapCandidateToDuplicateMatch(s, c).similarity < DUPLICATE_THRESHOLD
    ensures r.Some? ==> r.value.similarity >= DUPLICATE_THRESHOLD
    ensures r.Some? ==> exists c | c in LocalCandidates(s, seed) + DbCandidates(query) ::
      r.value == MapCandidateToDuplicateMatch(s, c)
    ensures r.Some? ==> forall c | c in LocalCandidates(s, seed) + DbCandidates(query) ::
      MapCandidateToDuplicateMatch(s, c).similarity <= r.value.similarity
    ensures r.Some? ==> FirstOfTies(s, LocalCandidates(s, seed) + DbCandidates(query), r.value)
  {
    var cs := LocalCandidates(s, seed) + DbCandidates(query);
    ScoreAllBest(s, cs);
    ScoreAllFirstBest(s, cs);
    SelectBestMatch(ScoreAll(s, cs))
  }

  /** The best match among scored candidates is one of them, reaching 0.72
      and scoring at least as much as any other; there is none exactly when
      every candidate scores below 0.72. */
  lemma {:induction false} ScoreAllBest(s: ShareSubmission, cs: seq<DuplicateCandidate>)
    ensures SelectBestMatch(ScoreAll(s, cs)).None? <==>
      forall c | c in cs :: MapCandidateToDuplicateMatch(s, c).similarity < DUPLICATE_THRESHOLD
    ensures SelectBestMatch(ScoreAll(s, cs)).Some? ==>
      exists c | c in cs :: SelectBestMatch(ScoreAll(s, cs)).value == MapCandidateToDuplicateMatch(s, c)
    ensures SelectBestMatch(ScoreAll(s, cs)).Some? ==>
      forall c | c in cs :: MapCandidateToDuplicateMatch(s, c).similarity <= SelectBestMatch(ScoreAll(s, cs)).value.similarity
  {
    var ms := ScoreAll(s, cs);
    forall c | c in cs ensures MapCandidateToDuplicateMatch(s, c) in ms {
      var k :| 0 <= k < |cs| && cs[k] == c;
      assert ms[k] == MapCandidateToDuplicateMatch(s, c);
    }
    var r := SelectBestMatch(ms);
    if r.Some? {
      var k :| 0 <= k < |ms| && ms[k] == r.value;
      assert cs[k] in cs && r.value == MapCandidateToDuplicateMatch(s, cs[k]);
    } else {
      forall c | c in cs ensures MapCandidateToDuplicateMatch(s, c).similarity < DUPLICATE_THRESHOLD {
        var k :| 0 <= k < |ms| && ms[k] == MapCandidateToDuplicateMatch(s, c);
      }
    }
  }

  /** `m` is the match of a candidate that every earlier candidate scores
      below. */
  predicate FirstOfTies(s: ShareSubmission, cs: seq<DuplicateCandidate>, m: DuplicateMatch) {
    exists i | 0 <= i < |cs| :: m == MapCandidateToDuplicateMatch(s, cs[i])
      && forall k | 0 <= k < i :: MapCandidateToDuplicateMatch(s, cs[k]).similarity < m.similarity
  }

  /** Among equal top scores, the candidate listed first is reported, as
      the stable descending sort puts it first. */
  lemma ScoreAllFirstBest(s: ShareSubmission, cs: seq<DuplicateCandidate>)
    ensures SelectBestMatch(ScoreAll(s, cs)).Some? ==> FirstOfTies(s, cs, SelectBestMatch(ScoreAll(s, cs)).value)
  {
    var ms := ScoreAll(s, cs);
    var r := SelectBestMatch(ms);
    if r.Some? {
      var i :| 0 <= i < |ms| && r.value == ms[i] && forall k | 0 <= k < i :: ms[k].similarity < ms[i].similarity;
      assert r.value == MapCandidateToDuplicateMatch(s, cs[i]);
      forall k | 0 <= k < i ensures MapCandidateToDuplicateMatch(s, cs[k]).similarity < r.value.similarity {
        assert ms[k] == MapCandidateToDuplicateMatch(s, cs[k]);
      }
    }
  }

  /** An approved seed profile with the same title, up to letter case,
      always yields a match scoring at least 0.8. */
  lemma LocalTitleMatchIsReported(s: ShareSubmission, seed: seq<JobProfile>, query: CandidateQuery, job: JobProfile)
    requires job in seed && IsApproved(job)
    requires ToLower(job.roleTitle) == ToLower(s.roleTitle)
    ensures FindPotentialDuplicate(s, seed, query).Some?
    ensures FindPotentialDuplicate(s, seed, query).value.similarity >= TITLE_FLOOR
  {
    var jobs := LocalJobs(s, seed);
    var k :| 0 <= k < |jobs| && jobs[k] == job;
    var cs := LocalCandidates(s, seed) + DbCandidates(query);
    assert cs[k] == ToCandidate(job);
    TitlesAgree(job.roleTitle, s.roleTitle);
    var ms := ScoreAll(s, cs);
    assert cs[k].roleTitle == job.roleTitle;
    assert ms[k] == MapCandidateToDuplicateMatch(s, cs[k]);
    assert ms[k].similarity >= TITLE_FLOOR;
  }

  /** Titles equal up to letter case are equal after trimming too. */
  lemma TitlesAgree(a: string, b: string)
    requires ToLower(a) == ToLower(b)
    ensures TitleKey(a) == TitleKey(b)
  {
    TrimLowerCommute(a);
    TrimLowerCommute(b);
  }
}
