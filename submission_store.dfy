/** Writing to the profile store: the review notes a new submission carries,
    the decision between the local fallback, an insert with the public key
    and a retry with the service key, and the moderation update with its
    audit event. Each store call is an outcome passed in; the clock, the
    random slug suffix and the environment switches are parameters. */
module SubmissionStore {
  import opened Wrappers
  import opened Text
  import opened JobSchema
  import opened Slug
  import opened Submission
  import opened ModerationQueue

  // ---------------------------------------------------------------------
  // Review notes

  const LINK_NOTE := "Contains external link"
  const FLAG_NOTE_PREFIX := "Flagged phrase: "
  const NOTE_SEPARATOR := " | "

  /** `Flagged phrase: ${flag}` for each flag, in order. */
  function FlagNotes(flags: seq<string>): (r: seq<string>)
    ensures |r| == |flags| && forall k | 0 <= k < |r| :: r[k] == FLAG_NOTE_PREFIX + flags[k]
  {
    seq(|flags|, k requires 0 <= k < |flags| => FLAG_NOTE_PREFIX + flags[k])
  }

  /** The notes that survive `.filter(Boolean)`: the link note when there is
      a link, then the flag notes. */
  function NoteParts(m: ModerationAssessment): seq<string> {
    (if m.containsLink then [LINK_NOTE] else []) + FlagNotes(m.flags)
  }

  /** The review-notes builder of `createPendingSubmission`, with
      `reviewNotes || null`: the parts joined by ` | `, nothing when there is
      neither a link nor a flag. */
  function BuildReviewNotes(m: ModerationAssessment): (r: Option<string>)
    ensures r.None? <==> !m.containsLink && m.flags == []
    ensures r.Some? ==> r.value == Join(NoteParts(m), NOTE_SEPARATOR)
    ensures r.Some? && m.containsLink ==> IsPrefix(LINK_NOTE, r.value)
    ensures r.Some? && !m.containsLink ==> IsPrefix(FLAG_NOTE_PREFIX + m.flags[0], r.value)
  {
    var parts := NoteParts(m);
    if parts == [] then None
    else
      JoinStartsWithHead(parts, NOTE_SEPARATOR);
      Some(Join(parts, NOTE_SEPARATOR))
  }

  /** A joined list starts with its first part. */
  lemma JoinStartsWithHead(parts: seq<string>, sep: string)
    requires parts != []
    ensures IsPrefix(parts[0], Join(parts, sep))
  {
    JoinHead(parts, sep);
    if |parts| > 1 {
      assert Join(parts, sep)[..|parts[0]|] == parts[0];
    }
  }

  /** Notes built for a submission always raise the moderators' risk flag. */
  lemma BuiltNotesRaiseRisk(m: ModerationAssessment)
    requires BuildReviewNotes(m).Some?
    ensures HasRiskFlag(BuildReviewNotes(m))
  {
    var notes := BuildReviewNotes(m).value;
    var lowered := ToLower(notes);
    if m.containsLink {
      PrefixLower(LINK_NOTE, notes);
      LinkNoteLower(LINK_NOTE);
      assert IsPrefix("contains external link", lowered);
    } else {
      var first := FLAG_NOTE_PREFIX + m.flags[0];
      PrefixLower(first, notes);
      FlagNoteLower(FLAG_NOTE_PREFIX, m.flags[0]);
      assert IsPrefix(ToLower(first), lowered);
      assert lowered[..|"flagged phrase"|] == ToLower(first)[..|"flagged phrase"|];
      assert IsPrefix("flagged phrase", lowered);
    }
  }

  lemma PrefixLower(p: string, s: string)
    requires IsPrefix(p, s)
    ensures IsPrefix(ToLower(p), ToLower(s))
  {
    assert ToLower(s)[..|p|] == ToLower(p);
  }

  lemma LinkNoteLower(note: string)
    requires note == LINK_NOTE
    ensures ToLower(note) == "contains external link"
  {
    var rest := "ontains external link";
    LinkNoteSplit(note, rest);
    LinkNoteRest(rest);
    LowerCapitalised('C', rest);
    LinkNoteJoin(rest);
  }

  lemma LinkNoteSplit(note: string, rest: string)
    requires note == LINK_NOTE && rest == "ontains external link"
    ensures note == ['C'] + rest
  {
  }

  lemma LinkNoteRest(rest: string)
    requires rest == "ontains external link"
    ensures forall i | 0 <= i < |rest| :: !IsUpper(rest[i])
  {
  }

  lemma LinkNoteJoin(rest: string)
    requires rest == "ontains external link"
    ensures [Lower('C')] + rest == "contains external link"
  {
    assert "contains external link" == ['c'] + rest;
  }

  lemma FlagNoteLower(prefix: string, flag: string)
    requires prefix == FLAG_NOTE_PREFIX
    ensures IsPrefix("flagged phrase", ToLower(prefix + flag))
  {
    assert prefix[0] == 'F';
    assert forall i | 1 <= i < |prefix| :: !IsUpper(prefix[i]);
    assert ToLower(prefix + flag)[..14] == ToLower(prefix)[..14];
  }

  // ---------------------------------------------------------------------
  // Creating a pending submission

  /** The row `createPendingSubmission` inserts. */
  datatype InsertPayload = InsertPayload(
    slug: string,
    submission: ShareSubmission,
    status: string,
    reviewNotes: Option<string>)

  function BuildInsertPayload(s: ShareSubmission, m: ModerationAssessment, slug: string): (p: InsertPayload)
    ensures p.slug == slug && p.submission == s && p.status == "pending"
    ensures p.reviewNotes == BuildReviewNotes(m)
    ensures p.reviewNotes.Some? ==> HasRiskFlag(p.reviewNotes)
    ensures p.reviewNotes.None? <==> !m.containsLink && m.flags == []
  {
    var notes := BuildReviewNotes(m);
    assert notes.Some? ==> HasRiskFlag(notes) by {
      if notes.Some? { BuiltNotesRaiseRisk(m); }
    }
    InsertPayload(slug, s, "pending", notes)
  }

  /** What one insert gave: the stored id and slug, or an error with its
      code and message (both absent when there was no row and no error). */
  datatype InsertOutcome = Inserted(id: string, slug: string) | InsertFailed(code: Option<string>, message: Option<string>)

  /** An error the row-level security policy raised. */
  predicate IsRlsViolation(code: Option<string>, message: Option<string>) {
    code == Some("42501") || Contains(ToLower(if message.Some? then message.value else ""), "row-level security")
  }

  /** `insertWithClient`: the stored row; nothing when a security-policy
      refusal can be retried with the service key; otherwise the error. */
  function InsertWithClient(outcome: InsertOutcome, adminConfigured: bool): (r: Result<Option<(string, string)>, string>)
    ensures r == Ok(None) <==> outcome.InsertFailed? && IsRlsViolation(outcome.code, outcome.message) && adminConfigured
    ensures r.Ok? && r.value.Some? <==> outcome.Inserted?
    ensures outcome.Inserted? ==> r == Ok(Some((outcome.id, outcome.slug)))
    ensures outcome.InsertFailed? && !(IsRlsViolation(outcome.code, outcome.message) && adminConfigured) ==>
      r == Err(if outcome.message.Some? then outcome.message.value else INSERT_FAILED)
  {
    match outcome
    case Inserted(id, slug) => Ok(Some((id, slug)))
    case InsertFailed(code, message) =>
      if IsRlsViolation(code, message) && adminConfigured then Ok(None)
      else Err(if message.Some? then message.value else INSERT_FAILED)
  }

  datatype Storage = SupabaseStorage | LocalFallback

  datatype CreateSubmissionResult = CreateSubmissionResult(id: string, slug: string, storage: Storage)

  const STORAGE_REQUIRED := "Supabase submission storage is required in production. Set PUBLIC_SUPABASE_URL and PUBLIC_SUPABASE_ANON_KEY."
  const INSERT_FAILED := "Failed to insert pending submission into Supabase."
  const RLS_BLOCKED := "Supabase blocked the submission due to row-level security. Configure insert policy or set SUPABASE_SERVICE_ROLE_KEY."

  /** The environment switches `createPendingSubmission` reads. */
  datatype StoreConfig = StoreConfig(configured: bool, localFallbackAllowed: bool, adminConfigured: bool)

  /** `createPendingSubmission` after the insert calls: without a store,
      either the production error or a local id built from the clock (read
      separately from the one the slug fallback reads); with
      one, the insert with the public key and, when that is refused by the
      security policy and the service key is set, one retry with it. */
  function CreatePendingSubmission(config: StoreConfig, roleTitle: string, suffix: string, nowMs: nat, idMs: nat,
                                   anon: InsertOutcome, admin: InsertOutcome): (r: Result<CreateSubmissionResult, string>)
    requires IsRandomSuffix(suffix)
  {
    var slug := CreateUniqueRoleSlug(roleTitle, suffix, nowMs);
    if !config.configured then
      if !config.localFallbackAllowed then Err(STORAGE_REQUIRED)
      else Ok(CreateSubmissionResult("local-" + Base36(idMs), slug, LocalFallback))
    else
      var first := InsertWithClient(anon, config.adminConfigured);
      if first.Err? then Err(first.error)
      else
        var inserted :=
          if first.value.None? && config.adminConfigured then InsertWithClient(admin, config.adminConfigured)
          else first;
        if inserted.Err? then Err(inserted.error)
        else if inserted.value.None? then Err(RLS_BLOCKED)
        else Ok(CreateSubmissionResult(inserted.value.value.0, inserted.value.value.1, SupabaseStorage))
  }

  /** Without a store the submission is kept locally only where that is
      allowed, under a `local-` id and a well-formed slug. */
  lemma NoStoreMeansLocalFallback(config: StoreConfig, roleTitle: string, suffix: string, nowMs: nat, idMs: nat,
                                  anon: InsertOutcome, admin: InsertOutcome)
    requires IsRandomSuffix(suffix) && !config.configured
    ensures var r := CreatePendingSubmission(config, roleTitle, suffix, nowMs, idMs, anon, admin);
      && (r.Ok? <==> config.localFallbackAllowed)
      && (r.Err? ==> r.error == STORAGE_REQUIRED)
      && (r.Ok? ==> r.value.storage == LocalFallback && IsPrefix("local-", r.value.id)
                    && r.value.id == "local-" + Base36(idMs)
                    && MatchesSlugPattern(r.value.slug)
                    && r.value.slug == CreateUniqueRoleSlug(roleTitle, suffix, nowMs))
  {
    var id := "local-" + Base36(idMs);
    assert id[..6] == "local-";
  }

  /** A stored submission was accepted by the public-key insert, or that
      insert was refused by the security policy, the service key is set and
      the retry stored it; the id and slug are the store's. */
  lemma StoredMeansInserted(config: StoreConfig, roleTitle: string, suffix: string, nowMs: nat, idMs: nat,
                            anon: InsertOutcome, admin: InsertOutcome)
    requires IsRandomSuffix(suffix) && config.configured
    ensures var r := CreatePendingSubmission(config, roleTitle, suffix, nowMs, idMs, anon, admin);
      && (r.Ok? <==> anon.Inserted? || (anon.InsertFailed? && IsRlsViolation(anon.code, anon.message)
                                        && config.adminConfigured && admin.Inserted?))
      && (r.Ok? && anon.Inserted? ==> r.value == CreateSubmissionResult(anon.id, anon.slug, SupabaseStorage))
      && (r.Ok? && !anon.Inserted? ==> r.value == CreateSubmissionResult(admin.id, admin.slug, SupabaseStorage))
  {
  }

  /** A refusal by the security policy on both inserts, or on the first one
      without a service key, ends in an error: the specific message when
      the service key is set, and the store's own message otherwise. */
  lemma RefusedTwiceIsBlocked(config: StoreConfig, roleTitle: string, suffix: string, nowMs: nat, idMs: nat,
                              anon: InsertOutcome, admin: InsertOutcome)
    requires IsRandomSuffix(suffix) && config.configured
    requires anon.InsertFailed? && IsRlsViolation(anon.code, anon.message)
    ensures var r := CreatePendingSubmission(config, roleTitle, suffix, nowMs, idMs, anon, admin);
      && (config.adminConfigured && admin.InsertFailed? && IsRlsViolation(admin.code, admin.message) ==> r == Err(RLS_BLOCKED))
      && (!config.adminConfigured ==> r == Err(if anon.message.Some? then anon.message.value else INSERT_FAILED))
  {
  }

  /** The security-policy code, or the phrase in any letter case, marks a
      refusal. */
  lemma RlsCodeOrPhrase(message: string)
    requires Contains(message, "row-level security")
    ensures IsRlsViolation(None, Some(message))
    ensures IsRlsViolation(Some("42501"), None)
  {
    ContainsLower(message, "row-level security");
    LowerPhrase("row-level security");
  }

  lemma LowerPhrase(p: string)
    requires p == "row-level security"
    ensures ToLower(p) == p
  {
    assert forall i | 0 <= i < |p| :: !IsUpper(p[i]);
  }

  // ---------------------------------------------------------------------
  // Moderation update

  datatype ModerationStatus = Approved | Rejected

  function StatusName(s: ModerationStatus): string {
    if s == Approved then "approved" else "rejected"
  }

  /** `reviewNotes?.trim() || null`. */
  function TrimmedNote(notes: Option<string>): (r: Option<string>)
    ensures r.None? <==> notes.None? || Trim(notes.value) == ""
    ensures r.Some? ==> r.value == Trim(notes.value) && Trimmed(r.value)
  {
    if notes.Some? && Trim(notes.value) != "" then Some(Trim(notes.value)) else None
  }

  datatype UpdatePayload = UpdatePayload(
    status: ModerationStatus,
    reviewNotes: Option<string>,
    approvedAt: Option<string>,
    approvedBy: Option<string>)

  /** The update of `updateSubmissionModeration`: the approval time and the
      approving moderator are set exactly for an approval. */
  function BuildUpdatePayload(status: ModerationStatus, notes: Option<string>, moderatorUserId: string, nowIso: string): (p: UpdatePayload)
    ensures p.status == status && p.reviewNotes == TrimmedNote(notes)
    ensures status == Approved <==> p.approvedAt.Some?
    ensures status == Approved <==> p.approvedBy.Some?
    ensures status == Approved ==> p.approvedAt == Some(nowIso) && p.approvedBy == Some(moderatorUserId)
  {
    var approved := status == Approved;
    UpdatePayload(status, TrimmedNote(notes),
      if approved then Some(nowIso) else None,
      if approved then Some(moderatorUserId) else None)
  }

  /** The audit event of a moderation decision. */
  datatype ModerationEvent = ModerationEvent(
    jobProfileId: string,
    actorUserId: string,
    action: string,
    oldStatus: string,
    newStatus: ModerationStatus,
    note: Option<string>,
    createdAt: string)

  function BuildModerationEvent(id: string, moderatorUserId: string, oldStatus: string, status: ModerationStatus,
                                notes: Option<string>, nowIso: string): (e: ModerationEvent)
    ensures e.action == (if status == Approved then "approve" else "reject")
    ensures e.jobProfileId == id && e.actorUserId == moderatorUserId
    ensures e.oldStatus == oldStatus && e.newStatus == status
    ensures e.note == TrimmedNote(notes) && e.createdAt == nowIso
  {
    ModerationEvent(id, moderatorUserId, if status == Approved then "approve" else "reject",
                    oldStatus, status, TrimmedNote(notes), nowIso)
  }

  /** What reading the current status gave. */
  datatype ReadOutcome = ReadFailed(message: Option<string>) | ReadStatus(status: string)

  /** What the update gave: the stored id and status, or an error. */
  datatype UpdateOutcome = UpdateFailed(message: Option<string>) | Updated(id: string, status: ModerationStatus)

  /** What writing the audit event gave. */
  datatype AuditOutcome = AuditWritten | AuditFailed(code: string, message: string)

  datatype ModerationUpdateResult = ModerationUpdateResult(id: string, status: ModerationStatus, auditLogged: bool)

  const MODERATE_ADMIN_MISSING := "Supabase admin key is missing. Set SUPABASE_SERVICE_ROLE_KEY to moderate submissions."
  const READ_FAILED := "Failed to load submission before moderation update."
  const UPDATE_FAILED := "Failed to update submission moderation status."

  /** `updateSubmissionModeration` over the outcomes of its three store
      calls: the read and the update must succeed; a failed audit write is
      only reported as not logged. */
  function UpdateSubmissionModeration(adminConfigured: bool, read: ReadOutcome, update: UpdateOutcome,
                                      audit: AuditOutcome): (r: Result<ModerationUpdateResult, string>)
    ensures !adminConfigured ==> r == Err(MODERATE_ADMIN_MISSING)
    ensures adminConfigured && read.ReadFailed? ==>
      r == Err(if read.message.Some? then read.message.value else READ_FAILED)
    ensures adminConfigured && read.ReadStatus? && update.UpdateFailed? ==>
      r == Err(if update.message.Some? then update.message.value else UPDATE_FAILED)
    ensures r.Ok? <==> adminConfigured && read.ReadStatus? && update.Updated?
    ensures r.Ok? ==> r.value.id == update.id && r.value.status == update.status
    ensures r.Ok? ==> (r.value.auditLogged <==> audit.AuditWritten?)
  {
    if !adminConfigured then Err(MODERATE_ADMIN_MISSING)
    else
      match read
      case ReadFailed(message) => Err(if message.Some? then message.value else READ_FAILED)
      case ReadStatus(_) =>
        match update
        case UpdateFailed(message) => Err(if message.Some? then message.value else UPDATE_FAILED)
        case Updated(id, status) => Ok(ModerationUpdateResult(id, status, audit.AuditWritten?))
  }
}
