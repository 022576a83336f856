/** The moderators' queue of pending submissions: each stored row becomes a
    preview carrying whether its review notes raise a risk, the previews are
    filtered, sorted and paged, and the whole filtered queue is counted by
    total, flagged and age. Times are milliseconds since the epoch; the row's
    timestamp text is kept for display and its instant is given alongside. */
module ModerationQueue {
  import opened Wrappers
  import opened Text
  import opened Sorting
  import opened DbTimestamp

  const DEFAULT_LIMIT := 50
  const MAX_LIMIT := 200
  const DAY_MS := 24 * 60 * 60 * 1000
  const THREE_DAYS_MS := 72 * 60 * 60 * 1000

  /** `/(flagged phrase|contains external link|possible duplicate)/i` on
      non-empty notes. */
  predicate HasRiskFlag(reviewNotes: Option<string>) {
    && reviewNotes.Some?
    && reviewNotes.value != ""
    && var lowered := ToLower(reviewNotes.value);
       Contains(lowered, "flagged phrase") || Contains(lowered, "contains external link")
       || Contains(lowered, "possible duplicate")
  }

  /** Notes holding one of the three phrases, written in any letter case,
      raise the flag. */
  lemma PhraseIsFlagged(notes: string, q: string)
    requires Contains(notes, q)
    requires ToLower(q) == "flagged phrase" || ToLower(q) == "contains external link"
      || ToLower(q) == "possible duplicate"
    ensures HasRiskFlag(Some(notes))
  {
    var i := ContainsWitness(notes, q);
    assert |q| == |ToLower(q)| > 0;
    ContainsLower(notes, q);
  }

  /** The flag depends on the notes only up to letter case. */
  lemma RiskFlagIgnoresCase(notes: string)
    ensures HasRiskFlag(Some(ToLower(notes))) <==> HasRiskFlag(Some(notes))
  {
    ToLowerIdempotent(notes);
    assert |ToLower(notes)| == |notes|;
  }

  /** A stored pending submission. */
  datatype PendingRow = PendingRow(
    id: string,
    slug: string,
    roleTitle: string,
    industry: string,
    seniority: string,
    location: string,
    workMode: string,
    salaryRange: Option<string>,
    educationPath: Option<string>,
    dayToDay: string,
    toolsUsed: Option<seq<string>>,
    bestParts: string,
    hardestParts: string,
    recommendationToStudents: string,
    yearsExperience: int,
    submitterType: string,
    contactEmail: Option<string>,
    createdAt: string,
    createdAtMs: int,
    reviewNotes: Option<string>)

  /** `PendingSubmissionPreview`. */
  datatype PendingPreview = PendingPreview(
    id: string,
    slug: string,
    roleTitle: string,
    industry: string,
    seniority: string,
    location: string,
    workMode: string,
    salaryRange: Option<string>,
    educationPath: Option<string>,
    dayToDay: string,
    toolsUsed: seq<string>,
    bestParts: string,
    hardestParts: string,
    recommendationToStudents: string,
    yearsExperience: int,
    submitterType: string,
    contactEmail: Option<string>,
    createdAt: string,
    createdAtMs: int,
    reviewNotes: Option<string>,
    hasFlags: bool)

  /** `mapPendingRow`: the row's fields, no tools for a missing list, the
      timestamp normalised when it is not empty, and the risk flag of the
      notes. */
  function MapPendingRow(row: PendingRow): (p: PendingPreview)
    ensures p.id == row.id && p.slug == row.slug && p.roleTitle == row.roleTitle
    ensures p.industry == row.industry && p.submitterType == row.submitterType
    ensures p.reviewNotes == row.reviewNotes && p.createdAtMs == row.createdAtMs
    ensures p.seniority == row.seniority && p.location == row.location && p.workMode == row.workMode
    ensures p.salaryRange == row.salaryRange && p.educationPath == row.educationPath
    ensures p.dayToDay == row.dayToDay && p.bestParts == row.bestParts && p.hardestParts == row.hardestParts
    ensures p.recommendationToStudents == row.recommendationToStudents
    ensures p.yearsExperience == row.yearsExperience && p.contactEmail == row.contactEmail
    ensures p.toolsUsed == if row.toolsUsed.Some? then row.toolsUsed.value else []
    ensures NormalizeDbTimestamp(Some(row.createdAt)).Some? ==> Some(p.createdAt) == NormalizeDbTimestamp(Some(row.createdAt))
    ensures NormalizeDbTimestamp(Some(row.createdAt)).None? ==> p.createdAt == row.createdAt
    ensures row.createdAt == "" ==> p.createdAt == ""
    ensures row.createdAt != "" ==> HasZone(p.createdAt) && Trimmed(p.createdAt)
    ensures p.hasFlags <==> HasRiskFlag(row.reviewNotes)
  {
    var normalized := NormalizeDbTimestamp(Some(row.createdAt));
    PendingPreview(row.id, row.slug, row.roleTitle, row.industry, row.seniority, row.location,
      row.workMode, row.salaryRange, row.educationPath, row.dayToDay,
      if row.toolsUsed.Some? then row.toolsUsed.value else [],
      row.bestParts, row.hardestParts, row.recommendationToStudents, row.yearsExperience,
      row.submitterType, row.contactEmail,
      if normalized.Some? then normalized.value else row.createdAt,
      row.createdAtMs, row.reviewNotes, HasRiskFlag(row.reviewNotes))
  }

  // ---------------------------------------------------------------------
  // Sorting

  datatype PendingSort = Newest | Oldest | Flagged

  /** The comparators of `sortPending`, as "comes no later than". */
  function PendingOrder(sort: PendingSort): (PendingPreview, PendingPreview) -> bool {
    match sort
    case Oldest => (a: PendingPreview, b: PendingPreview) => a.createdAtMs <= b.createdAtMs
    case Flagged => (a: PendingPreview, b: PendingPreview) =>
      if a.hasFlags != b.hasFlags then a.hasFlags else a.createdAtMs <= b.createdAtMs
    case Newest => (a: PendingPreview, b: PendingPreview) => b.createdAtMs <= a.createdAtMs
  }

  lemma PendingOrderTotal(sort: PendingSort)
    ensures TotalPreorder(PendingOrder(sort))
  {
  }

  /** `sortPending`: a sorted copy; `newest` first, `oldest` first, or the
      flagged ones first and each group oldest first. */
  function SortPending(items: seq<PendingPreview>, sort: PendingSort): (r: seq<PendingPreview>)
    ensures multiset(r) == multiset(items)
    ensures sort == Newest ==> forall i, j | 0 <= i < j < |r| :: r[i].createdAtMs >= r[j].createdAtMs
    ensures sort == Oldest ==> forall i, j | 0 <= i < j < |r| :: r[i].createdAtMs <= r[j].createdAtMs
    ensures sort == Flagged ==> forall i, j | 0 <= i < j < |r| ::
      (r[j].hasFlags ==> r[i].hasFlags) && (r[i].hasFlags == r[j].hasFlags ==> r[i].createdAtMs <= r[j].createdAtMs)
  {
    PendingOrderTotal(sort);
    SortBySorted(items, PendingOrder(sort));
    SortBy(items, PendingOrder(sort))
  }

  // ---------------------------------------------------------------------
  // Options

  datatype PendingOptions = PendingOptions(
    sort: Option<PendingSort>,
    industry: Option<string>,
    submitterType: Option<string>,
    limit: Option<int>,
    offset: Option<int>)

  /** `Math.min(Math.max(limit ?? 50, 1), 200)`. */
  function ClampLimit(limit: Option<int>): (r: nat)
    ensures 1 <= r <= MAX_LIMIT
    ensures limit.None? ==> r == DEFAULT_LIMIT
    ensures limit.Some? && 1 <= limit.value <= MAX_LIMIT ==> r == limit.value
    ensures limit.Some? && limit.value < 1 ==> r == 1
    ensures limit.Some? && limit.value > MAX_LIMIT ==> r == MAX_LIMIT
  {
    var l := if limit.Some? then limit.value else DEFAULT_LIMIT;
    var atLeastOne := if l > 1 then l else 1;
    if atLeastOne < MAX_LIMIT then atLeastOne else MAX_LIMIT
  }

  /** `Math.max(offset ?? 0, 0)`. */
  function ClampOffset(offset: Option<int>): (r: nat)
    ensures offset.None? ==> r == 0
    ensures offset.Some? ==> r == if offset.value > 0 then offset.value else 0
  {
    if offset.Some? && offset.value > 0 then offset.value else 0
  }

  /** The test `listPendingSubmissions` applies to each preview. */
  function MatchesOptions(industry: Option<string>, submitterType: Option<string>): PendingPreview -> bool {
    (item: PendingPreview) =>
      (!IsSet(industry) || item.industry == industry.value)
      && (!IsSet(submitterType) || item.submitterType == submitterType.value)
  }

  /** The previews the industry and submitter-type options keep, in order. */
  function FilterPending(items: seq<PendingPreview>, industry: Option<string>, submitterType: Option<string>): (r: seq<PendingPreview>)
    ensures IsSubsequence(r, items)
    ensures forall x :: x in r <==> x in items && (!IsSet(industry) || x.industry == industry.value)
                                                && (!IsSet(submitterType) || x.submitterType == submitterType.value)
    ensures forall x :: multiset(r)[x] == if MatchesOptions(industry, submitterType)(x) then multiset(items)[x] else 0
  {
    FilterIsSubsequence(items, MatchesOptions(industry, submitterType));
    FilterCounts(items, MatchesOptions(industry, submitterType));
    Filter(items, MatchesOptions(industry, submitterType))
  }

  /** `slice(offset, offset + limit)`: the consecutive items from `offset`,
      at most `limit` of them. */
  function Page<T>(s: seq<T>, offset: nat, limit: nat): (r: seq<T>)
    ensures |r| <= limit
    ensures |r| == if offset >= |s| then 0 else if |s| - offset < limit then |s| - offset else limit
    ensures forall k | 0 <= k < |r| :: r[k] == s[offset + k]
  {
    var start := if offset < |s| then offset else |s|;
    var end := if offset + limit < |s| then offset + limit else |s|;
    s[start..end]
  }

  // ---------------------------------------------------------------------
  // Metrics

  datatype PendingMetrics = PendingMetrics(total: nat, flagged: nat, olderThan24h: nat, olderThan72h: nat)

  function IsFlaggedPreview(item: PendingPreview): bool { item.hasFlags }

  /** The test for items at least `ageMs` old at `now`. */
  function OlderThan(now: int, ageMs: int): PendingPreview -> bool {
    (item: PendingPreview) => now - item.createdAtMs >= ageMs
  }

  /** How many items pass `p`. */
  function Count(s: seq<PendingPreview>, p: PendingPreview -> bool): (n: nat)
    ensures n <= |s|
  {
    if s == [] then 0 else Count(s[..|s| - 1], p) + if p(s[|s| - 1]) then 1 else 0
  }

  /** The counts over a list of previews. */
  function MetricsOf(items: seq<PendingPreview>, now: int): PendingMetrics {
    PendingMetrics(|items|, Count(items, IsFlaggedPreview), Count(items, OlderThan(now, DAY_MS)),
                   Count(items, OlderThan(now, THREE_DAYS_MS)))
  }

  /** A weaker test passes at least as many items. */
  lemma {:induction false} CountMonotone(s: seq<PendingPreview>, p: PendingPreview -> bool, q: PendingPreview -> bool)
    requires forall x :: p(x) ==> q(x)
    ensures Count(s, p) <= Count(s, q)
  {
    if s != [] {
      CountMonotone(s[..|s| - 1], p, q);
    }
  }

  /** Flagged items are among all items, and those three days old are among
      those a day old. */
  lemma MetricsBounds(items: seq<PendingPreview>, now: int)
    ensures var m := MetricsOf(items, now);
      m.total == |items| && m.flagged <= m.total && m.olderThan72h <= m.olderThan24h <= m.total
  {
    CountMonotone(items, OlderThan(now, THREE_DAYS_MS), OlderThan(now, DAY_MS));
  }

  /** The accumulation of `listPendingSubmissions`, one item at a time. */
  method ComputeMetrics(items: seq<PendingPreview>, now: int) returns (m: PendingMetrics)
    ensures m == MetricsOf(items, now)
  {
    m := PendingMetrics(0, 0, 0, 0);
    var i := 0;
    while i < |items|
      invariant 0 <= i <= |items|
      invariant m == MetricsOf(items[..i], now)
    {
      var item := items[i];
      var ageMs := now - item.createdAtMs;
      assert items[..i + 1][..i] == items[..i];
      var total, flagged, older24, older72 := m.total + 1, m.flagged, m.olderThan24h, m.olderThan72h;
      if item.hasFlags {
        flagged := flagged + 1;
      }
      if ageMs >= DAY_MS {
        older24 := older24 + 1;
      }
      if ageMs >= THREE_DAYS_MS {
        older72 := older72 + 1;
      }
      m := PendingMetrics(total, flagged, older24, older72);
      i := i + 1;
    }
    assert items[..i] == items;
  }

  // ---------------------------------------------------------------------
  // Listing

  /** What the read of pending rows from the store gave. */
  datatype FetchOutcome = FetchFailed(message: Option<string>) | NoData | Fetched(rows: seq<PendingRow>)

  datatype PendingResult = PendingResult(items: seq<PendingPreview>, total: nat, metrics: PendingMetrics)

  const ADMIN_MISSING := "Supabase admin key is missing. Set SUPABASE_SERVICE_ROLE_KEY to list pending submissions."
  const FETCH_FAILED := "Failed to fetch pending submissions."

  function MapRows(rows: seq<PendingRow>): (r: seq<PendingPreview>)
    ensures |r| == |rows| && forall k | 0 <= k < |r| :: r[k] == MapPendingRow(rows[k])
  {
    seq(|rows|, k requires 0 <= k < |rows| => MapPendingRow(rows[k]))
  }

  /** The filtered queue before sorting and paging. */
  function FilteredQueue(rows: seq<PendingRow>, options: PendingOptions): seq<PendingPreview> {
    FilterPending(MapRows(rows), options.industry, options.submitterType)
  }

  /** `listPendingSubmissions` after the store read: an error without the
      admin key or without data; otherwise the requested page of the sorted,
      filtered queue, the filtered count and the metrics of the filtered
      queue. */
  function ListPendingSubmissions(adminConfigured: bool, fetch: FetchOutcome, options: PendingOptions, now: int): (r: Result<PendingResult, string>)
    ensures !adminConfigured ==> r == Err(ADMIN_MISSING)
    ensures adminConfigured && fetch.FetchFailed? ==>
      r == Err(if fetch.message.Some? then fetch.message.value else FETCH_FAILED)
    ensures adminConfigured && fetch.NoData? ==> r == Err(FETCH_FAILED)
    ensures r.Ok? <==> adminConfigured && fetch.Fetched?
    ensures r.Ok? ==>
      var filtered := FilteredQueue(fetch.rows, options);
      var sorted := SortPending(filtered, if options.sort.Some? then options.sort.value else Newest);
      var offset := ClampOffset(options.offset);
      && r.value.total == |filtered|
      && r.value.items == Page(sorted, offset, ClampLimit(options.limit))
      && r.value.metrics == MetricsOf(filtered, now)
  {
    if !adminConfigured then Err(ADMIN_MISSING)
    else
      match fetch
      case FetchFailed(message) => Err(if message.Some? then message.value else FETCH_FAILED)
      case NoData => Err(FETCH_FAILED)
      case Fetched(rows) =>
        var filtered := FilteredQueue(rows, options);
        var sorted := SortPending(filtered, if options.sort.Some? then options.sort.value else Newest);
        var items := Page(sorted, ClampOffset(options.offset), ClampLimit(options.limit));
        Ok(PendingResult(items, |filtered|, MetricsOf(filtered, now)))
  }

  /** Every listed item is a preview of a fetched row that passes the
      filters, and the counts are consistent. */
  lemma ListedItemsPassFilters(fetch: FetchOutcome, options: PendingOptions, now: int)
    requires fetch.Fetched?
    ensures var r := ListPendingSubmissions(true, fetch, options, now);
      && r.Ok?
      && (forall x | x in r.value.items :: x in MapRows(fetch.rows)
            && (!IsSet(options.industry) || x.industry == options.industry.value)
            && (!IsSet(options.submitterType) || x.submitterType == options.submitterType.value))
      && r.value.metrics.flagged <= r.value.total
      && r.value.metrics.olderThan72h <= r.value.metrics.olderThan24h <= r.value.total
  {
    var filtered := FilteredQueue(fetch.rows, options);
    var sort := if options.sort.Some? then options.sort.value else Newest;
    var sorted := SortPending(filtered, sort);
    SameElements(sorted, filtered);
    MetricsBounds(filtered, now);
    var r := ListPendingSubmissions(true, fetch, options, now);
    forall x | x in r.value.items ensures x in filtered {
      var k :| 0 <= k < |r.value.items| && r.value.items[k] == x;
      assert sorted[ClampOffset(options.offset) + k] in sorted;
    }
  }

  /** The listed page has the slice's exact length and holds the sorted,
      filtered previews from the offset on. */
  lemma ListedPageIsSlice(fetch: FetchOutcome, options: PendingOptions, now: int)
    requires fetch.Fetched?
    ensures var r := ListPendingSubmissions(true, fetch, options, now);
      var sorted := SortPending(FilteredQueue(fetch.rows, options), if options.sort.Some? then options.sort.value else Newest);
      var offset := ClampOffset(options.offset);
      var limit := ClampLimit(options.limit);
      && r.Ok?
      && |r.value.items| == (if offset >= |sorted| then 0 else if |sorted| - offset < limit then |sorted| - offset else limit)
      && |r.value.items| <= limit
      && forall k | 0 <= k < |r.value.items| :: r.value.items[k] == sorted[offset + k]
  {
    var filtered := FilteredQueue(fetch.rows, options);
    var sorted := SortPending(filtered, if options.sort.Some? then options.sort.value else Newest);
    var r := ListPendingSubmissions(true, fetch, options, now);
    assert r.value.items == Page(sorted, ClampOffset(options.offset), ClampLimit(options.limit));
  }
}
