/** The record shapes of the job directory and the constraints the schema
    validator enforces on them: the stored profile, and the share-form
    submission with its `toolsUsed` transform. */
module JobSchema {
  import opened Wrappers
  import opened Text

  const INDUSTRIES: seq<string> := [
    "Healthcare", "Software", "Education", "Finance", "Manufacturing",
    "Media", "Government", "Retail", "Logistics", "Energy"
  ]
  const SENIORITY_LEVELS: seq<string> := ["Entry", "Mid", "Senior", "Lead"]
  const WORK_MODES: seq<string> := ["onsite", "hybrid", "remote"]
  const SUBMITTER_TYPES: seq<string> := ["anonymous", "public"]
  const PROFILE_STATUS: seq<string> := ["pending", "approved", "rejected"]

  /** At most this many tools, on a profile and on a submission. */
  const MAX_TOOLS := 20
  /** Upper bound on the comma-separated form of a submission's tools. */
  const MAX_TOOLS_TEXT := 300

  /** A profile as the directory stores and shows it. Creation and approval
      times are integer milliseconds. */
  datatype JobProfile = JobProfile(
    id: string,
    slug: string,
    locale: string,
    roleTitle: string,
    industry: string,
    seniority: string,
    location: string,
    workMode: string,
    salaryRange: Option<string>,
    educationPath: Option<string>,
    dayToDay: string,
    toolsUsed: seq<string>,
    bestParts: string,
    hardestParts: string,
    recommendationToStudents: string,
    yearsExperience: int,
    submitterType: string,
    createdAt: int,
    approvedAt: Option<int>,
    status: string)

  predicate LengthIn(s: string, lo: nat, hi: nat) { lo <= |s| <= hi }

  predicate OptionalAtMost(s: Option<string>, hi: nat) { s.None? || |s.value| <= hi }

  /** The character class `[a-z0-9-]`. */
  predicate IsSlugChar(c: char) { IsLowerAlnum(c) || c == '-' }

  /** The pattern `^[a-z0-9-]+$`. */
  predicate MatchesSlugPattern(s: string) {
    |s| > 0 && forall i | 0 <= i < |s| :: IsSlugChar(s[i])
  }

  /** Each tool is 1 to 64 characters and there are at most 20. */
  predicate ValidToolList(tools: seq<string>) {
    |tools| <= MAX_TOOLS && forall i | 0 <= i < |tools| :: LengthIn(tools[i], 1, 64)
  }

  /** The content fields a profile shares with a submission (everything but
      identity, timestamps and status). */
  predicate ValidContent(
    roleTitle: string, industry: string, seniority: string, location: string, workMode: string,
    salaryRange: Option<string>, educationPath: Option<string>,
    dayToDay: string, bestParts: string, hardestParts: string, recommendationToStudents: string,
    yearsExperience: int, submitterType: string)
  {
    && LengthIn(roleTitle, 3, 120)
    && industry in INDUSTRIES
    && seniority in SENIORITY_LEVELS
    && LengthIn(location, 2, 120)
    && workMode in WORK_MODES
    && OptionalAtMost(salaryRange, 80)
    && OptionalAtMost(educationPath, 240)
    && LengthIn(dayToDay, 30, 1400)
    && LengthIn(bestParts, 20, 900)
    && LengthIn(hardestParts, 20, 900)
    && LengthIn(recommendationToStudents, 20, 900)
    && 0 <= yearsExperience <= 50
    && submitterType in SUBMITTER_TYPES
  }

  /** `jobProfileSchema`: every constraint of the stored profile. */
  predicate ValidJobProfile(p: JobProfile) {
    && LengthIn(p.id, 3, 64)
    && LengthIn(p.slug, 3, 120) && MatchesSlugPattern(p.slug)
    && ValidContent(p.roleTitle, p.industry, p.seniority, p.location, p.workMode,
                    p.salaryRange, p.educationPath, p.dayToDay, p.bestParts, p.hardestParts,
                    p.recommendationToStudents, p.yearsExperience, p.submitterType)
    && ValidToolList(p.toolsUsed)
    && p.status in PROFILE_STATUS
  }

  /** One named check per schema field, in declaration order. */
  function ProfileChecks(p: JobProfile): seq<(string, bool)> {
    [ ("id", LengthIn(p.id, 3, 64)),
      ("slug", LengthIn(p.slug, 3, 120) && MatchesSlugPattern(p.slug)),
      ("roleTitle", LengthIn(p.roleTitle, 3, 120)),
      ("industry", p.industry in INDUSTRIES),
      ("seniority", p.seniority in SENIORITY_LEVELS),
      ("location", LengthIn(p.location, 2, 120)),
      ("workMode", p.workMode in WORK_MODES),
      ("salaryRange", OptionalAtMost(p.salaryRange, 80)),
      ("educationPath", OptionalAtMost(p.educationPath, 240)),
      ("dayToDay", LengthIn(p.dayToDay, 30, 1400)),
      ("toolsUsed", ValidToolList(p.toolsUsed)),
      ("bestParts", LengthIn(p.bestParts, 20, 900)),
      ("hardestParts", LengthIn(p.hardestParts, 20, 900)),
      ("recommendationToStudents", LengthIn(p.recommendationToStudents, 20, 900)),
      ("yearsExperience", 0 <= p.yearsExperience <= 50),
      ("submitterType", p.submitterType in SUBMITTER_TYPES),
      ("status", p.status in PROFILE_STATUS) ]
  }

  /** The names of the failing checks, in order. */
  function FailedFields(checks: seq<(string, bool)>): (r: seq<string>)
    ensures |r| <= |checks|
    ensures r == [] <==> forall k | 0 <= k < |checks| :: checks[k].1
    ensures forall n :: n in r <==> exists k | 0 <= k < |checks| :: checks[k].0 == n && !checks[k].1
    decreases |checks|
  {
    if checks == [] then []
    else
      var rest := FailedFields(checks[1..]);
      assert forall k | 1 <= k < |checks| :: checks[1..][k - 1] == checks[k];
      if checks[0].1 then rest else [checks[0].0] + rest
  }

  /** `jobProfileSchema.safeParse`: the profile itself, or the field-level
      error list naming every failing field. */
  function ParseJobProfile(p: JobProfile): (r: Result<JobProfile, seq<string>>)
    ensures r.Ok? <==> ValidJobProfile(p)
    ensures r.Ok? ==> r.value == p
    ensures r.Err? ==> |r.error| > 0 && forall n | n in r.error :: exists k | 0 <= k < 17 :: ProfileChecks(p)[k].0 == n && !ProfileChecks(p)[k].1
  {
    var errs := FailedFields(ProfileChecks(p));
    ProfileChecksMeanValid(p);
    if errs == [] then Ok(p) else Err(errs)
  }

  lemma ProfileChecksMeanValid(p: JobProfile)
    ensures (forall k | 0 <= k < |ProfileChecks(p)| :: ProfileChecks(p)[k].1) <==> ValidJobProfile(p)
  {
    var c := ProfileChecks(p);
    if forall k | 0 <= k < |c| :: c[k].1 {
      assert c[0].1 && c[1].1 && c[2].1 && c[3].1 && c[4].1 && c[5].1;
      assert c[6].1 && c[7].1 && c[8].1 && c[9].1 && c[10].1 && c[11].1;
      assert c[12].1 && c[13].1 && c[14].1 && c[15].1 && c[16].1;
    }
  }

  /** A work mode outside the listed values is refused, whatever else the
      record holds; `office` is one such value. */
  lemma UnlistedWorkModeRejected(p: JobProfile)
    requires p.workMode !in WORK_MODES
    ensures ParseJobProfile(p).Err? && "workMode" in ParseJobProfile(p).error
  {
    assert ProfileChecks(p)[6] == ("workMode", false);
  }

  lemma OfficeIsNotAWorkMode()
    ensures "office" !in WORK_MODES
  {
  }

  /** A day-to-day narrative under 30 characters, or any other narrative
      under 20, is refused. */
  lemma ShortNarrativeRejected(p: JobProfile)
    requires |p.dayToDay| < 30 || |p.bestParts| < 20 || |p.hardestParts| < 20 || |p.recommendationToStudents| < 20
    ensures ParseJobProfile(p).Err?
  {
  }

  // ---------------------------------------------------------------------
  // Share submissions

  /** `toolsUsed` as the form sends it: a list, or one comma-separated text. */
  datatype ToolsInput = ToolList(items: seq<string>) | ToolText(text: string)

  /** The raw share payload, after the schema has picked its fields. */
  datatype ShareInput = ShareInput(
    roleTitle: string,
    industry: string,
    seniority: string,
    location: string,
    workMode: string,
    salaryRange: Option<string>,
    educationPath: Option<string>,
    dayToDay: string,
    bestParts: string,
    hardestParts: string,
    recommendationToStudents: string,
    yearsExperience: int,
    submitterType: string,
    toolsUsed: ToolsInput,
    contactEmail: Option<string>)

  /** A validated submission: the picked content fields of a profile, the
      transformed tool list and the optional contact e-mail. */
  datatype ShareSubmission = ShareSubmission(
    roleTitle: string,
    industry: string,
    seniority: string,
    location: string,
    workMode: string,
    salaryRange: Option<string>,
    educationPath: Option<string>,
    dayToDay: string,
    bestParts: string,
    hardestParts: string,
    recommendationToStudents: string,
    yearsExperience: int,
    submitterType: string,
    toolsUsed: seq<string>,
    contactEmail: Option<string>)

  /** The union's two arms: a list of at most 20 tools of 1 to 64
      characters, or a text of at most 300 characters. */
  predicate ValidToolsInput(t: ToolsInput) {
    match t
    case ToolList(items) => ValidToolList(items)
    case ToolText(text) => |text| <= MAX_TOOLS_TEXT
  }

  /** `z.string().email().max(200).optional().or(z.literal(''))`, with the
      e-mail format check given as a predicate. */
  predicate ValidContactEmail(e: Option<string>, isEmail: string -> bool) {
    e.None? || e.value == "" || (isEmail(e.value) && |e.value| <= 200)
  }

  /** `items.map((tool) => tool.trim())`. */
  function TrimEach(items: seq<string>): (r: seq<string>)
    ensures |r| == |items| && forall k | 0 <= k < |r| :: r[k] == Trim(items[k])
  {
    seq(|items|, k requires 0 <= k < |items| => Trim(items[k]))
  }

  /** `Boolean` on a string. */
  predicate NonEmpty(x: string) { x != "" }

  /** `.map((tool) => tool.trim()).filter(Boolean)`: the trimmed pieces,
      the empty ones dropped. */
  function TrimAll(items: seq<string>): (r: seq<string>)
    ensures |r| <= |items|
    ensures forall x :: x in r <==> x in TrimEach(items) && x != ""
    ensures forall k | 0 <= k < |r| :: r[k] != "" && Trimmed(r[k])
    ensures IsSubsequence(r, TrimEach(items))
    ensures forall x | x != "" :: multiset(r)[x] == multiset(TrimEach(items))[x]
  {
    var each := TrimEach(items);
    NonBlankTrimmed(each);
    Filter(each, NonEmpty)
  }

  /** Dropping the blanks from trimmed entries keeps the others in order,
      each as often as it occurs. */
  lemma NonBlankTrimmed(each: seq<string>)
    requires forall k | 0 <= k < |each| :: Trimmed(each[k])
    ensures var r := Filter(each, NonEmpty);
      && (forall k | 0 <= k < |r| :: r[k] != "" && Trimmed(r[k]))
      && IsSubsequence(r, each)
      && forall x | x != "" :: multiset(r)[x] == multiset(each)[x]
  {
    var r := Filter(each, NonEmpty);
    forall k | 0 <= k < |r| ensures r[k] != "" && Trimmed(r[k]) {
      assert r[k] in r && r[k] in each;
      var j :| 0 <= j < |each| && each[j] == r[k];
    }
    FilterIsSubsequence(each, NonEmpty);
    FilterCounts(each, NonEmpty);
  }

  /** The `toolsUsed` transform: a list is trimmed and its empty entries
      dropped; a text is split on commas, trimmed, emptied of blanks and cut
      to 20 entries. */
  function TransformTools(t: ToolsInput): (r: seq<string>)
    ensures forall k | 0 <= k < |r| :: r[k] != "" && Trimmed(r[k])
    ensures t.ToolList? ==> r == TrimAll(t.items)
    ensures t.ToolText? ==>
      var pieces := TrimAll(Split(t.text, ','));
      && |r| == (if |pieces| <= MAX_TOOLS then |pieces| else MAX_TOOLS)
      && r == pieces[..|r|]
    ensures t.ToolText? ==> |r| <= MAX_TOOLS && forall k | 0 <= k < |r| :: ',' !in r[k]
  {
    match t
    case ToolList(items) => TrimAll(items)
    case ToolText(text) =>
      var trimmed := TrimAll(Split(text, ','));
      TrimAllKeepsAbsent(Split(text, ','), ',');
      if |trimmed| <= MAX_TOOLS then trimmed else trimmed[..MAX_TOOLS]
  }

  /** Comma-joining up to 20 trimmed, non-blank tools without commas and
      parsing the text gives the tools back. */
  lemma ToolTextRoundTrip(tools: seq<string>)
    requires 1 <= |tools| <= MAX_TOOLS
    requires forall k | 0 <= k < |tools| :: tools[k] != "" && Trimmed(tools[k]) && ',' !in tools[k]
    ensures TransformTools(ToolText(Join(tools, [',']))) == tools
  {
    var text := Join(tools, [',']);
    SplitUnique(tools, ',');
    TrimmedToolsKept(tools);
    ToolTextOfPieces(text, tools);
  }

  /** Trimmed, non-blank entries pass the trim-and-drop step unchanged. */
  lemma TrimmedToolsKept(tools: seq<string>)
    requires forall k | 0 <= k < |tools| :: tools[k] != "" && Trimmed(tools[k])
    ensures TrimAll(tools) == tools
  {
    var each := TrimEach(tools);
    assert each == tools;
    TrimAllOfTrimmed(tools, each);
  }

  /** A text whose comma pieces need no trimming or dropping parses to
      those pieces. */
  lemma ToolTextOfPieces(text: string, pieces: seq<string>)
    requires Split(text, ',') == pieces && TrimAll(pieces) == pieces && |pieces| <= MAX_TOOLS
    ensures TransformTools(ToolText(text)) == pieces
  {
    assert pieces[..|pieces|] == pieces;
  }

  lemma TrimAllKeepsAbsent(items: seq<string>, c: char)
    requires forall k | 0 <= k < |items| :: c !in items[k]
    ensures forall k | 0 <= k < |TrimAll(items)| :: c !in TrimAll(items)[k]
  {
    var r := TrimAll(items);
    forall k | 0 <= k < |r| ensures c !in r[k] {
      assert r[k] in r;
      var j :| 0 <= j < |items| && r[k] == TrimEach(items)[j];
      TrimKeepsAbsent(items[j], c);
    }
  }

  lemma TrimKeepsAbsent(s: string, c: char)
    requires c !in s
    ensures c !in Trim(s)
  {
    var t := Trim(s);
    assert forall x :: x in TrimStart(s) ==> x in s;
    assert forall x :: x in TrimEnd(TrimStart(s)) ==> x in TrimStart(s);
  }

  /** `shareSubmissionSchema.safeParse`: the transformed submission, or the
      names of the failing fields. */
  function ParseShareSubmission(input: ShareInput, isEmail: string -> bool): (r: Result<ShareSubmission, seq<string>>)
    ensures r.Ok? <==>
      ValidContent(input.roleTitle, input.industry, input.seniority, input.location, input.workMode,
                   input.salaryRange, input.educationPath, input.dayToDay, input.bestParts,
                   input.hardestParts, input.recommendationToStudents, input.yearsExperience,
                   input.submitterType)
      && ValidToolsInput(input.toolsUsed) && ValidContactEmail(input.contactEmail, isEmail)
    ensures r.Ok? ==> r.value.toolsUsed == TransformTools(input.toolsUsed)
    ensures r.Ok? ==> SameContent(input, r.value) && r.value.contactEmail == input.contactEmail
    ensures r.Err? ==> |r.error| > 0
  {
    var checks := ShareChecks(input, isEmail);
    var errs := FailedFields(checks);
    ShareChecksMeanValid(input, isEmail);
    if errs == [] then
      Ok(ShareSubmission(
        input.roleTitle, input.industry, input.seniority, input.location, input.workMode,
        input.salaryRange, input.educationPath, input.dayToDay, input.bestParts,
        input.hardestParts, input.recommendationToStudents, input.yearsExperience,
        input.submitterType, TransformTools(input.toolsUsed), input.contactEmail))
    else Err(errs)
  }

  /** The picked content fields are carried over unchanged. */
  predicate SameContent(input: ShareInput, s: ShareSubmission) {
    && s.roleTitle == input.roleTitle && s.industry == input.industry
    && s.seniority == input.seniority && s.location == input.location
    && s.workMode == input.workMode && s.salaryRange == input.salaryRange
    && s.educationPath == input.educationPath && s.dayToDay == input.dayToDay
    && s.bestParts == input.bestParts && s.hardestParts == input.hardestParts
    && s.recommendationToStudents == input.recommendationToStudents
    && s.yearsExperience == input.yearsExperience && s.submitterType == input.submitterType
  }

  lemma ShareChecksMeanValid(input: ShareInput, isEmail: string -> bool)
    ensures (forall k | 0 <= k < |ShareChecks(input, isEmail)| :: ShareChecks(input, isEmail)[k].1) <==>
      ValidContent(input.roleTitle, input.industry, input.seniority, input.location, input.workMode,
                   input.salaryRange, input.educationPath, input.dayToDay, input.bestParts,
                   input.hardestParts, input.recommendationToStudents, input.yearsExperience,
                   input.submitterType)
      && ValidToolsInput(input.toolsUsed) && ValidContactEmail(input.contactEmail, isEmail)
  {
    var c := ShareChecks(input, isEmail);
    if forall k | 0 <= k < |c| :: c[k].1 {
      assert c[0].1 && c[1].1 && c[2].1 && c[3].1 && c[4].1 && c[5].1 && c[6].1 && c[7].1;
      assert c[8].1 && c[9].1 && c[10].1 && c[11].1 && c[12].1 && c[13].1 && c[14].1;
    }
  }

  function ShareChecks(input: ShareInput, isEmail: string -> bool): seq<(string, bool)> {
    [ ("roleTitle", LengthIn(input.roleTitle, 3, 120)),
      ("industry", input.industry in INDUSTRIES),
      ("seniority", input.seniority in SENIORITY_LEVELS),
      ("location", LengthIn(input.location, 2, 120)),
      ("workMode", input.workMode in WORK_MODES),
      ("salaryRange", OptionalAtMost(input.salaryRange, 80)),
      ("educationPath", OptionalAtMost(input.educationPath, 240)),
      ("dayToDay", LengthIn(input.dayToDay, 30, 1400)),
      ("bestParts", LengthIn(input.bestParts, 20, 900)),
      ("hardestParts", LengthIn(input.hardestParts, 20, 900)),
      ("recommendationToStudents", LengthIn(input.recommendationToStudents, 20, 900)),
      ("yearsExperience", 0 <= input.yearsExperience <= 50),
      ("submitterType", input.submitterType in SUBMITTER_TYPES),
      ("toolsUsed", ValidToolsInput(input.toolsUsed)),
      ("contactEmail", ValidContactEmail(input.contactEmail, isEmail)) ]
  }

  /** Three comma-free, non-blank pieces joined by commas become the three
      trimmed pieces. */
  lemma TextOfThreeTools(a: string, b: string, c: string)
    requires ',' !in a && ',' !in b && ',' !in c
    requires Trim(a) != "" && Trim(b) != "" && Trim(c) != ""
    ensures TransformTools(ToolText(a + [','] + (b + [','] + c))) == [Trim(a), Trim(b), Trim(c)]
  {
    var text := a + [','] + (b + [','] + c);
    SplitThree(a, b, c);
    var pieces := Split(text, ',');
    TrimAllThree(pieces, a, b, c);
  }

  lemma SplitThree(a: string, b: string, c: string)
    requires ',' !in a && ',' !in b && ',' !in c
    ensures Split(a + [','] + (b + [','] + c), ',') == [a, b, c]
  {
    JoinThree(a, b, c);
    SplitUnique([a, b, c], ',');
  }

  lemma TrimAllThree(items: seq<string>, a: string, b: string, c: string)
    requires |items| == 3 && items[0] == a && items[1] == b && items[2] == c
    requires Trim(a) != "" && Trim(b) != "" && Trim(c) != ""
    ensures TrimAll(items) == [Trim(a), Trim(b), Trim(c)]
  {
    var t := TrimEach(items);
    ThreeItems(t, Trim(a), Trim(b), Trim(c));
    NoBlankOfThree(t);
    TrimAllOfTrimmed(items, t);
  }

  lemma NoBlankOfThree(t: seq<string>)
    requires |t| == 3 && t[0] != "" && t[1] != "" && t[2] != ""
    ensures forall k | 0 <= k < |t| :: t[k] != ""
  {
  }

  lemma TrimAllOfTrimmed(items: seq<string>, t: seq<string>)
    requires TrimEach(items) == t && forall k | 0 <= k < |t| :: t[k] != ""
    ensures TrimAll(items) == t
  {
    assert forall k | 0 <= k < |t| :: NonEmpty(t[k]);
    FilterKeepsAll(t, NonEmpty);
  }

  lemma JoinThree(a: string, b: string, c: string)
    ensures Join([a, b, c], [',']) == a + [','] + (b + [','] + c)
  {
    var pieces := [a, b, c];
    assert pieces[1..] == [b, c] && pieces[1..][1..] == [c];
    assert Join([c], [',']) == c;
    assert Join([b, c], [',']) == b + [','] + c;
  }

  lemma ThreeItems(t: seq<string>, x: string, y: string, z: string)
    requires |t| == 3 && t[0] == x && t[1] == y && t[2] == z
    ensures t == [x, y, z]
  {
  }

  /** With no blank tool, dropping the empty entries drops nothing. */
  lemma TrimAllOfNonBlank(items: seq<string>)
    requires forall k | 0 <= k < |items| :: Trim(items[k]) != ""
    ensures TrimAll(items) == TrimEach(items)
  {
    var t := TrimEach(items);
    assert forall k | 0 <= k < |t| :: NonEmpty(t[k]);
    FilterKeepsAll(t, NonEmpty);
  }

  /** The form's comma-separated tools become a three-item list. */
  lemma ToolTextExample(text: string)
    requires text == "TypeScript, Astro, Vitest"
    ensures TransformTools(ToolText(text)) == ["TypeScript", "Astro", "Vitest"]
  {
    var a, b, c := "TypeScript", " Astro", " Vitest";
    ExampleConcat(a, b, c, text);
    NoCommas(a, b, c);
    TrimsFirst(a);
    var w2, w3 := "Astro", "Vitest";
    SpacedWords(b, c, w2, w3);
    TrimsLeadingSpace(b, w2);
    TrimsLeadingSpace(c, w3);
    TextOfThreeTools(a, b, c);
  }

  lemma ExampleConcat(a: string, b: string, c: string, text: string)
    requires a == "TypeScript" && b == " Astro" && c == " Vitest"
    requires text == "TypeScript, Astro, Vitest"
    ensures a + [','] + (b + [','] + c) == text
  {
  }

  lemma NoCommas(a: string, b: string, c: string)
    requires a == "TypeScript" && b == " Astro" && c == " Vitest"
    ensures ',' !in a && ',' !in b && ',' !in c
  {
  }

  lemma TrimsFirst(s: string)
    requires s == "TypeScript"
    ensures Trim(s) == "TypeScript"
  {
    assert Trimmed(s);
  }

  lemma SpacedWords(b: string, c: string, w2: string, w3: string)
    requires b == " Astro" && c == " Vitest" && w2 == "Astro" && w3 == "Vitest"
    ensures b == [' '] + w2 && Trimmed(w2) && w2 != []
    ensures c == [' '] + w3 && Trimmed(w3) && w3 != []
  {
  }

  /** One leading space in front of a trimmed word is all `trim` removes. */
  lemma TrimsLeadingSpace(s: string, w: string)
    requires s == [' '] + w && Trimmed(w) && w != []
    ensures Trim(s) == w
  {
    assert s[1..] == w;
    assert TrimStart(s) == TrimStart(w);
  }
}
