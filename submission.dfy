/** Screening and clean-up of a validated share submission: phrase flags and
    link detection for the moderators, and whitespace, e-mail and tool-list
    normalisation before storage. */
module Submission {
  import opened Wrappers
  import opened Text
  import opened JobSchema

  /** The lowercase phrases a moderator is warned about. */
  const FLAGGED_TERMS: seq<string> := ["guaranteed income", "easy money", "casino", "crypto pump"]

  /** The result of screening: always `pending`, with the matched phrases
      and whether the text carries a link. */
  datatype ModerationAssessment = ModerationAssessment(status: string, flags: seq<string>, containsLink: bool)

  /** The fields screened, in order, joined by single spaces; a missing
      education path counts as empty and the tools are joined by spaces. */
  function AggregateText(s: ShareSubmission): string {
    Join([s.roleTitle, s.dayToDay, s.bestParts, s.hardestParts, s.recommendationToStudents,
          if s.educationPath.Some? then s.educationPath.value else "",
          Join(s.toolsUsed, " ")], " ")
  }

  /** `/(https?:\/\/|www\.)/i`: case-insensitively, `http://`, `https://` or
      `www.` somewhere in the text. */
  predicate HasLink(text: string) {
    var lowered := ToLower(text);
    Contains(lowered, "http://") || Contains(lowered, "https://") || Contains(lowered, "www.")
  }

  lemma FlaggedTermsDistinct()
    ensures NoDuplicates(FLAGGED_TERMS)
  {
  }

  /** `assessSubmissionForModeration`: the flagged phrases that occur in the
      lowercased aggregate text, in list order, and whether it has a link.
      Screening never rejects. */
  function AssessSubmissionForModeration(s: ShareSubmission): (r: ModerationAssessment)
    ensures r.status == "pending"
    ensures forall t :: t in r.flags <==> t in FLAGGED_TERMS && Contains(ToLower(AggregateText(s)), t)
    ensures IsSubsequence(r.flags, FLAGGED_TERMS) && NoDuplicates(r.flags)
    ensures r.containsLink <==> HasLink(AggregateText(s))
  {
    var lowered := ToLower(AggregateText(s));
    var found := (t: string) => Contains(lowered, t);
    FilterIsSubsequence(FLAGGED_TERMS, found);
    FlaggedTermsDistinct();
    FilterNoDuplicates(FLAGGED_TERMS, found);
    ModerationAssessment("pending", Filter(FLAGGED_TERMS, found), HasLink(AggregateText(s)))
  }

  /** A flagged phrase written in any letter case in the day-to-day
      narrative is reported. */
  lemma FlaggedPhraseInDayToDay(s: ShareSubmission, written: string)
    requires Contains(s.dayToDay, written)
    requires ToLower(written) in FLAGGED_TERMS
    ensures ToLower(written) in AssessSubmissionForModeration(s).flags
  {
    var parts := [s.roleTitle, s.dayToDay, s.bestParts, s.hardestParts, s.recommendationToStudents,
                  if s.educationPath.Some? then s.educationPath.value else "",
                  Join(s.toolsUsed, " ")];
    ContainsJoinPart(parts, " ", 1, written);
    ContainsLower(AggregateText(s), written);
  }

  /** A link in the education path is detected, whatever its case. */
  lemma LinkInEducationPath(s: ShareSubmission, link: string)
    requires s.educationPath.Some? && Contains(s.educationPath.value, link)
    requires ToLower(link) == "https://"
    ensures AssessSubmissionForModeration(s).containsLink
  {
    var parts := [s.roleTitle, s.dayToDay, s.bestParts, s.hardestParts, s.recommendationToStudents,
                  s.educationPath.value, Join(s.toolsUsed, " ")];
    ContainsJoinPart(parts, " ", 5, link);
    ContainsLower(AggregateText(s), link);
  }

  // ---------------------------------------------------------------------
  // Normalisation

  /** `normalizeText` on an optional field, with `|| undefined`: a value
      that is empty after normalisation is dropped. */
  function NormalizeOptional(v: Option<string>): (r: Option<string>)
    ensures r.None? <==> v.None? || Trim(v.value) == ""
    ensures r.Some? ==> SingleSpaced(r.value) && r.value != "" && r.value == NormalizeText(v.value)
  {
    match v
    case None => None
    case Some(x) =>
      var n := NormalizeText(x);
      if n == "" then None else Some(n)
  }

  /** `contactEmail?.trim().toLowerCase() || undefined`. */
  function NormalizeEmail(e: Option<string>): (r: Option<string>)
    ensures r.None? <==> e.None? || Trim(e.value) == ""
    ensures r.Some? ==> r.value == ToLower(Trim(e.value)) && Trimmed(r.value) && r.value != ""
  {
    match e
    case None => None
    case Some(x) =>
      var t := Trim(x);
      TrimLower(t);
      var l := ToLower(t);
      if l == "" then None else Some(l)
  }

  /** Every tool, normalised. */
  function NormalizeEach(tools: seq<string>): (r: seq<string>)
    ensures |r| == |tools| && forall k | 0 <= k < |r| :: r[k] == NormalizeText(tools[k])
  {
    seq(|tools|, k requires 0 <= k < |tools| => NormalizeText(tools[k]))
  }

  /** `[...new Set(tools.map(normalizeText))].filter(Boolean)`. */
  function NormalizeTools(tools: seq<string>): (r: seq<string>)
    ensures |r| <= |tools|
    ensures NoDuplicates(r)
    ensures forall x :: x in r <==> x in NormalizeEach(tools) && x != ""
    ensures forall k | 0 <= k < |r| :: r[k] != "" && SingleSpaced(r[k])
    ensures IsSubsequence(r, Distinct(NormalizeEach(tools)))
  {
    var each := NormalizeEach(tools);
    KeptTools(each);
    Filter(Distinct(each), NonEmpty)
  }

  /** De-duplicating and dropping blanks keeps single-spaced entries, in
      order, each once. */
  lemma KeptTools(each: seq<string>)
    requires forall k | 0 <= k < |each| :: SingleSpaced(each[k])
    ensures var r := Filter(Distinct(each), NonEmpty);
      && NoDuplicates(r) && IsSubsequence(r, Distinct(each))
      && forall k | 0 <= k < |r| :: r[k] != "" && SingleSpaced(r[k])
  {
    var distinct := Distinct(each);
    FilterNoDuplicates(distinct, NonEmpty);
    FilterIsSubsequence(distinct, NonEmpty);
    var r := Filter(distinct, NonEmpty);
    forall k | 0 <= k < |r| ensures r[k] != "" && SingleSpaced(r[k]) {
      assert r[k] in r && r[k] in each;
      var j :| 0 <= j < |each| && each[j] == r[k];
    }
  }

  /** `normalizeSubmission`: the narrative fields trimmed with their
      whitespace runs collapsed, the optional fields dropped when blank, the
      e-mail trimmed and lowercased, and the tools normalised, de-duplicated
      and emptied of blanks; the rest is copied. */
  function NormalizeSubmission(p: ShareSubmission): (r: ShareSubmission)
    ensures r.roleTitle == NormalizeText(p.roleTitle) && r.location == NormalizeText(p.location)
    ensures r.dayToDay == NormalizeText(p.dayToDay) && r.bestParts == NormalizeText(p.bestParts)
    ensures r.hardestParts == NormalizeText(p.hardestParts)
    ensures r.recommendationToStudents == NormalizeText(p.recommendationToStudents)
    ensures SingleSpaced(r.roleTitle) && SingleSpaced(r.location) && SingleSpaced(r.dayToDay)
    ensures SingleSpaced(r.bestParts) && SingleSpaced(r.hardestParts) && SingleSpaced(r.recommendationToStudents)
    ensures r.industry == p.industry && r.seniority == p.seniority && r.workMode == p.workMode
    ensures r.yearsExperience == p.yearsExperience && r.submitterType == p.submitterType
    ensures r.contactEmail == NormalizeEmail(p.contactEmail)
    ensures r.educationPath == NormalizeOptional(p.educationPath)
    ensures r.salaryRange == NormalizeOptional(p.salaryRange)
    ensures r.toolsUsed == NormalizeTools(p.toolsUsed) && |r.toolsUsed| <= |p.toolsUsed|
  {
    p.(roleTitle := NormalizeText(p.roleTitle),
       location := NormalizeText(p.location),
       dayToDay := NormalizeText(p.dayToDay),
       bestParts := NormalizeText(p.bestParts),
       hardestParts := NormalizeText(p.hardestParts),
       recommendationToStudents := NormalizeText(p.recommendationToStudents),
       contactEmail := NormalizeEmail(p.contactEmail),
       educationPath := NormalizeOptional(p.educationPath),
       salaryRange := NormalizeOptional(p.salaryRange),
       toolsUsed := NormalizeTools(p.toolsUsed))
  }

  lemma NormalizeOptionalIdempotent(v: Option<string>)
    ensures NormalizeOptional(NormalizeOptional(v)) == NormalizeOptional(v)
  {
    if NormalizeOptional(v).Some? {
      NormalizeTextIdempotent(v.value);
    }
  }

  lemma NormalizeEmailIdempotent(e: Option<string>)
    ensures NormalizeEmail(NormalizeEmail(e)) == NormalizeEmail(e)
  {
    var r := NormalizeEmail(e);
    if r.Some? {
      ToLowerIdempotent(Trim(e.value));
    }
  }

  lemma NormalizeToolsIdempotent(tools: seq<string>)
    ensures NormalizeTools(NormalizeTools(tools)) == NormalizeTools(tools)
  {
    var r := NormalizeTools(tools);
    var each := NormalizeEach(r);
    assert each == r by {
      forall k | 0 <= k < |r| ensures each[k] == r[k] {
        NormalizeTextIdempotentOn(r[k]);
      }
    }
    DistinctOfDistinct(r);
    assert forall k | 0 <= k < |r| :: NonEmpty(r[k]);
    FilterKeepsAll(r, NonEmpty);
  }

  lemma NormalizeTextIdempotentOn(s: string)
    requires SingleSpaced(s)
    ensures NormalizeText(s) == s
  {
  }

  /** Normalising a normalised submission changes nothing. */
  lemma NormalizeSubmissionIdempotent(p: ShareSubmission)
    ensures NormalizeSubmission(NormalizeSubmission(p)) == NormalizeSubmission(p)
  {
    NormalizeOptionalIdempotent(p.educationPath);
    NormalizeOptionalIdempotent(p.salaryRange);
    NormalizeEmailIdempotent(p.contactEmail);
    NormalizeToolsIdempotent(p.toolsUsed);
  }

  /** A blank education path and an empty e-mail are both dropped. */
  lemma BlankOptionalFieldsDropped(p: ShareSubmission)
    requires p.educationPath == Some(" ") && p.contactEmail == Some("")
    ensures NormalizeSubmission(p).educationPath.None? && NormalizeSubmission(p).contactEmail.None?
  {
    assert IsSpace(p.educationPath.value[0]);
  }
}
