# jobscope intake core in Dafny

jobscope is a student-facing directory of job profiles. People share how their
job works through a form. The submission is then:

- validated against a schema and normalised;
- screened for flagged phrases and links;
- checked against existing profiles for near-duplicates;
- stored as a pending row that moderators list, page through and approve or reject.

Around this sit a sliding-window rate limiter keyed by a client fingerprint
built from proxy headers, the slug generator, and the public directory's
lookup, facet, filter and sort logic.

This project models that core in Dafny and proves what it promises:

| module (file) | models |
|---|---|
| `Wrappers` (wrappers.dfy) | `Option` / `Result` |
| `Text` (text.dfy) | the string operations the core relies on: ASCII `toLowerCase`, `trim`, whitespace-run collapsing, the whitespace-separated words of a text, `split`/`join`, `includes`, `new Set` order, `filter` |
| `Sorting` (sorting.dfy) | a stable sort by a comparator, proved sorted and a permutation |
| `DbTimestamp` (db_timestamp.dfy) | `normalizeDbTimestamp` |
| `JobSchema` (job_schema.dfy) | the profile and share-submission schemas, with the `toolsUsed` transform |
| `Jobs` (jobs.dfy) | the directory helpers of `jobs.ts` |
| `Submission` (submission.dfy) | moderation screening and submission normalisation |
| `Slug` (slug.dfy) | slug generation, base-36 rendering |
| `RateLimit` (rate_limit.dfy) | the rate limiter, as a class whose `bucket` map is updated in place |
| `RequestMetadata` (request_metadata.dfy) | client IP, user agent and fingerprint from a header map |
| `Duplicates` (duplicates.dfy) | token normalisation, Jaccard similarity, candidate scoring and best-match selection |
| `ModerationQueue` (moderation_queue.dfy) | risk flags, pending-row mapping, queue sort, filter, paging and metrics |
| `SubmissionStore` (submission_store.dfy) | review notes, insert payload, the anonymous-then-service-key retry, and the moderation update |

Conventions:

- Calls into the database are modelled as datatypes of their possible outcomes. The operations are functions of those outcomes.
- Clocks (`Date.now`, `toISOString`) and randomness (`Math.random`) are parameters.
- `localeCompare` is a parameter `collate` that must be a total preorder.
- The seed profile list is a parameter.
- Strings are sequences of ASCII characters.

## Model

| member | source | states |
|---|---|---|
| Text.Trim | src/lib/request-metadata.ts:4 | the result has no leading or trailing whitespace, is empty exactly for an all-whitespace input, and is the input when that is already trimmed |
| Text.TrimIsSlice | src/lib/request-metadata.ts:4 | the trimmed text is the input with its leading and trailing whitespace cut off: an unchanged slice, with only whitespace before and after it |
| Text.TrimUnique | src/lib/request-metadata.ts:4 | any trimmed slice with only whitespace around it is the trimmed text |
| Text.NormalizeText | src/lib/submission.ts:38-41 | trimming and collapsing whitespace runs to one space gives a single-spaced string |
| Text.Words | src/lib/job-profiles-repository.ts:115-116 | the words are non-empty and consist of the input's non-space characters |
| Text.WordsOfJoin | src/lib/job-profiles-repository.ts:115-116 | splitting space-joined words on whitespace gives the words back |
| Text.WordsOfSpacedPair | src/lib/job-profiles-repository.ts:139-149 | the words of two texts joined by a space are the first's words then the second's |
| Text.CollapseIsJoinedWords | src/lib/submission.ts:38-41 | collapsing the whitespace runs of a trimmed text gives its words joined by single spaces |
| Text.NormalizeIsJoinedWords | src/lib/submission.ts:38-41 | a normalised text is the input's words, in order, joined by single spaces |
| Text.NormalizeKeepsWords | src/lib/submission.ts:38-41 | normalising keeps the words, in order |
| Text.TrimKeepsVisible | src/lib/request-metadata.ts:4 | trimming keeps every non-whitespace character, in order |
| Text.CollapseKeepsVisible | src/lib/submission.ts:38-41 | collapsing whitespace runs keeps every non-whitespace character, in order |
| Text.NormalizeKeepsVisible | src/lib/submission.ts:38-41 | normalising keeps every non-whitespace character, in order |
| Text.NormalizeTextIdempotent | src/lib/submission.ts:38-41 | normalising twice equals normalising once |
| Text.TrimLowerCommute | src/lib/job-profiles-repository.ts:187 | lowercasing and trimming commute |
| Text.Split | src/lib/job-schema.ts:71 | the pieces hold no separator and join back to the input |
| Text.SplitUnique | src/lib/job-schema.ts:71 | splitting a join of separator-free pieces gives the pieces back |
| Text.BeforeFirst | src/lib/request-metadata.ts:19 | `split(',')[0]` is a comma-free prefix that ends at the first comma, or the whole string |
| Text.Distinct | src/lib/jobs.ts:34 | `[...new Set(xs)]` has the same members and no duplicates |
| Text.DistinctInFirstAppearanceOrder | src/lib/jobs.ts:34 | `[...new Set(xs)]` lists the members in order of first appearance |
| Text.Filter | src/lib/jobs.ts:21 | `filter` keeps exactly the passing elements |
| Text.FilterCounts | src/lib/jobs.ts:21 | each passing element is kept as often as it occurs, and no other |
| Text.FilterIsSubsequence | src/lib/jobs.ts:21 | the kept elements stay in input order |
| Sorting.SortBySorted | src/lib/jobs.ts:64-80 | sorting by a total preorder gives a sorted permutation of the input |
| DbTimestamp.ReplaceFirst | src/lib/job-profiles-repository.ts:70 | a one-character `replace` changes only the first occurrence |
| DbTimestamp.InsertSeparator | src/lib/job-profiles-repository.ts:69-71 | a space becomes the `T` separator only when no `T` is present |
| DbTimestamp.InsertOffsetColon | src/lib/job-profiles-repository.ts:73 | a trailing `±HHMM` becomes `±HH:MM`, every other character kept in place; anything else is unchanged |
| DbTimestamp.PadHourOffset | src/lib/job-profiles-repository.ts:75-77 | a trailing `±HH` gains exactly `:00`; anything else is unchanged |
| DbTimestamp.AppendZone | src/lib/job-profiles-repository.ts:79-81 | `Z` is appended exactly when there is no zone letter and no trailing offset, and the result always carries a zone |
| DbTimestamp.NormalizeDbTimestamp | src/lib/job-profiles-repository.ts:63-84 | nothing exactly for a missing or empty value; otherwise a trimmed value with a zone, which contains a `T` when the trimmed input has a `T` or a space, left unchanged when already qualified |
| DbTimestamp.DateOnlyExample | src/lib/job-profiles-repository.ts:69-81 | a date-only `2026-02-13` has its day read as the offset `-13` and becomes `2026-02-13:00`, with no `T` |
| DbTimestamp.NormalizeDbTimestampSteps | src/lib/job-profiles-repository.ts:63-84 | the step-by-step reassignment of `normalized` computes the normalised timestamp |
| DbTimestamp.QualifiedUnchanged | src/lib/job-profiles-repository.ts:68-81 | a value that has `T` and ends in a zone passes all four rewrites unchanged |
| DbTimestamp.OffsetStepsSettle | src/lib/job-profiles-repository.ts:73-81 | after the rewrites, no compact or hour-only offset is left and a zone is present |
| DbTimestamp.NormalizeDbTimestampIdempotent | src/lib/job-profiles-repository.ts:63-84 | normalising a normalised timestamp changes nothing |
| DbTimestamp.PostgresTimestampExample | src/lib/job-profiles-repository.ts:63-84 | a Postgres `timestamptz` string `… 07:40:11.123456+00` becomes ISO `…T07:40:11.123456+00:00` |
| DbTimestamp.QualifiedTimestampExample | src/lib/job-profiles-repository.ts:63-84 | an ISO string ending in `Z` is returned as is |
| JobSchema.FailedFields | src/lib/job-schema.ts:21-46 | the failing checks' names, empty exactly when every check passes |
| JobSchema.ParseJobProfile | src/lib/job-schema.ts:21-46 | success exactly for a valid profile, returning it unchanged; otherwise a non-empty list of failing field names |
| JobSchema.ProfileChecksMeanValid | src/lib/job-schema.ts:21-46 | passing every per-field check is the same as being a valid profile |
| JobSchema.UnlistedWorkModeRejected | src/lib/job-schema.ts:33 | a work mode outside the enum is reported under `workMode` |
| JobSchema.OfficeIsNotAWorkMode | src/lib/job-schema.ts:17 | `office` is not an accepted work mode |
| JobSchema.ShortNarrativeRejected | src/lib/job-schema.ts:36-40 | any narrative field shorter than its minimum is rejected |
| JobSchema.TrimEach | src/lib/job-schema.ts:67 | each tool is trimmed, position by position |
| JobSchema.TrimAll | src/lib/job-schema.ts:67 | the trimmed tools with the empty ones dropped: each non-empty and trimmed, in input order, each non-empty trimmed tool as often as it occurs |
| JobSchema.TransformTools | src/lib/job-schema.ts:65-75 | a list becomes `TrimAll` of it; a text becomes `TrimAll` of its comma pieces, cut to the first 20; the tools are non-empty and trimmed, and from text comma-free |
| JobSchema.TrimAllKeepsAbsent | src/lib/job-schema.ts:70-73 | trimming and dropping empties adds no character |
| JobSchema.ToolTextRoundTrip | src/lib/job-schema.ts:70-74 | comma-joining 1 to 20 trimmed, non-blank, comma-free tools and transforming the text gives the tools back |
| JobSchema.ParseShareSubmission | src/lib/job-schema.ts:48-77 | success exactly when content, tools and email are valid; the fields are kept and the tools transformed; otherwise a non-empty error list |
| JobSchema.ShareChecksMeanValid | src/lib/job-schema.ts:48-77 | passing every share check is the same as the schema accepting the input |
| JobSchema.ToolTextExample | src/lib/job-schema.ts:70-74 | `"TypeScript, Astro, Vitest"` becomes the three trimmed tools |
| Jobs.SortName | src/lib/jobs.ts:4-9 | each sort option's name is one of `SORT_OPTIONS` |
| Jobs.ParseSortOption | src/lib/jobs.ts:84-86 | a name parses exactly when it is in `SORT_OPTIONS`, and back to that name |
| Jobs.SortNameRoundTrip | src/lib/jobs.ts:4-9 | parsing an option's name gives the option back |
| Jobs.GetApprovedJobs | src/lib/jobs.ts:20-22 | exactly the approved profiles, in seed order, each as often as it occurs |
| Jobs.FindSlug | src/lib/jobs.ts:25 | `find` gives the first index with the slug, and nothing exactly when none has it |
| Jobs.GetJobBySlug | src/lib/jobs.ts:24-26 | the first approved profile with the slug; nothing exactly when no approved profile has it |
| Jobs.IndustryFacet | src/lib/jobs.ts:33 | the distinct industries, sorted by `collate` |
| Jobs.WorkModeFacet | src/lib/jobs.ts:34 | the distinct work modes in first-appearance order |
| Jobs.GetDirectoryFacets | src/lib/jobs.ts:28-36 | both facets, each exactly the values present, without duplicates |
| Jobs.NormalizedQuery | src/lib/jobs.ts:42 | a query is trimmed then lowercased; no query stays absent |
| Jobs.ApplyJobFilters | src/lib/jobs.ts:38-62 | exactly the profiles matching every set filter, in order and each as often as it occurs; set industry and work-mode filters hold for every result |
| Jobs.UnsetFiltersKeepAll | src/lib/jobs.ts:45-58 | with no filter set and a blank query, every profile is kept |
| Jobs.QueryKeepsMatches | src/lib/jobs.ts:47-57 | a profile is kept by a query exactly when its joined lowercased text contains the normalised query |
| Jobs.SortOrderTotal | src/lib/jobs.ts:67-79 | every sort comparator is a total preorder |
| Jobs.SortJobs | src/lib/jobs.ts:64-80 | a permutation ordered by experience ascending or descending, by title, or newest first (also the default) |
| Jobs.ParseDirectoryFilters | src/lib/jobs.ts:82-94 | `q`, `industry`, `workMode` are copied when present; an unknown or missing sort becomes `newest` |
| Jobs.ParseDirectoryFiltersExample | src/lib/jobs.ts:82-94 | a full parameter set parses to the filters it names |
| Submission.FlaggedTermsDistinct | src/lib/submission.ts:3 | the flagged terms are distinct |
| Submission.AssessSubmissionForModeration | src/lib/submission.ts:15-35 | status pending; flags are exactly the terms in the lowercased aggregate text, in list order; link exactly when `http://`, `https://` or `www.` occurs ignoring case |
| Submission.FlaggedPhraseInDayToDay | src/lib/submission.ts:16-27 | a flagged phrase written in any case inside the day-to-day text is flagged |
| Submission.LinkInEducationPath | src/lib/submission.ts:22-28 | an `https://` link in the education path is detected |
| Submission.NormalizeOptional | src/lib/submission.ts:53-54 | an optional text is normalised, and a blank one is dropped |
| Submission.NormalizeEmail | src/lib/submission.ts:52 | the email is trimmed and lowercased, and a blank one is dropped |
| Submission.NormalizeEach | src/lib/submission.ts:55 | each tool is normalised, position by position |
| Submission.NormalizeTools | src/lib/submission.ts:55-57 | the distinct non-empty normalised tools, each single-spaced, in order of first appearance |
| Submission.NormalizeSubmission | src/lib/submission.ts:37-59 | each text field normalised, the enums and numbers kept, email and optionals normalised or dropped, tools deduplicated |
| Submission.NormalizeOptionalIdempotent | src/lib/submission.ts:53-54 | normalising an optional field twice equals once |
| Submission.NormalizeEmailIdempotent | src/lib/submission.ts:52 | normalising an email twice equals once |
| Submission.NormalizeToolsIdempotent | src/lib/submission.ts:55-57 | normalising tools twice equals once |
| Submission.NormalizeTextIdempotentOn | src/lib/submission.ts:38-41 | a single-spaced text is a fixed point of normalisation |
| Submission.NormalizeSubmissionIdempotent | src/lib/submission.ts:37-59 | normalising a normalised submission changes nothing |
| Submission.BlankOptionalFieldsDropped | src/lib/submission.ts:52-53 | a blank education path and empty email become absent |
| Slug.DashSpaceRuns | src/lib/slug.ts:6 | whitespace runs become dashes; no whitespace remains |
| Slug.DashSpaceRunsIsCollapse | src/lib/slug.ts:6 | the step is collapsing every whitespace run to one space and writing that space as a dash |
| Slug.DashSpaceRunsOfTrimmed | src/lib/slug.ts:6 | on a trimmed text, the step gives its words joined by dashes |
| Slug.CollapseDashes | src/lib/slug.ts:7 | dash runs become one dash, keeping the ends |
| Slug.CollapseDashesKeepsGroups | src/lib/slug.ts:7 | the text before the first dash, and every non-empty group between dashes, in order, are kept |
| Slug.StripDashes | src/lib/slug.ts:8 | the input is the result with at most one leading and one trailing dash around it, each present exactly when the input has it; with no dash run, no dash at either end |
| Slug.KeepSlugChars | src/lib/slug.ts:5 | exactly the lowercase letters, digits, whitespace and dashes of the input: in order, each as often as it occurs, and no other character |
| Slug.BaseSlug | src/lib/slug.ts:2-8 | the base is a clean slug (`[a-z0-9-]`, no `--`, no dash at either end) no longer than the input |
| Slug.BaseSlugKeepsAlnum | src/lib/slug.ts:2-8 | the letters and digits of the base are exactly those of the lowercased input, in order |
| Slug.DashStepsClean | src/lib/slug.ts:6-8 | the three dash rewrites produce a clean slug from kept characters |
| Slug.Base36 | src/lib/slug.ts:10 | `toString(36)` writes at least one lowercase base-36 digit |
| Slug.Base36RoundTrip | src/lib/slug.ts:10 | reading the base-36 digits back gives the number |
| Slug.CreateSlug | src/lib/slug.ts:1-11 | a clean slug longer than two characters: the base when it is long enough, else `job-` plus the time in base 36 |
| Slug.CreateSlugIsBase | src/lib/slug.ts:10 | the base is used exactly when it is longer than two characters |
| Slug.CreateSlugIdempotent | src/lib/slug.ts:1-11 | slugging a slug, at any time, gives it back |
| Slug.CleanSlugUnchanged | src/lib/slug.ts:2-10 | a clean slug longer than two characters is its own slug |
| Slug.CreateUniqueRoleSlug | src/lib/slug.ts:13-16 | slug, dash and suffix, matching the profile slug pattern |
| RateLimit.PruneExpired | src/lib/rate-limit.ts:20-23 | exactly the hits inside the window, in order and with their multiplicities |
| RateLimit.Min | src/lib/rate-limit.ts:35 | the least hit time |
| RateLimit.CeilSeconds | src/lib/rate-limit.ts:36 | milliseconds rounded up to whole seconds |
| RateLimit.Decide | src/lib/rate-limit.ts:25-54 | allowed exactly when fewer than `limit` hits remain after pruning; allowed records `now` and reports the slots left; refused records nothing and asks for at least one second |
| RateLimit.RetryAfterIsWaitForOldest | src/lib/rate-limit.ts:34-44 | the retry-after is the wait until the oldest hit leaves the window, rounded up |
| RateLimit.RateLimiter.constructor | src/lib/rate-limit.ts:18 | the bucket starts empty |
| RateLimit.RateLimiter.CheckRateLimit | src/lib/rate-limit.ts:25-54 | the result and the key's new hits are the decision on its old hits; no other key changes |
| RateLimit.RateLimiter.Clear | src/lib/rate-limit.ts:56-58 | every key forgets its hits |
| RateLimit.BurstThenRecover | src/lib/rate-limit.ts:25-54 | three hits use the slots, a fourth is told to wait a second, a hit after the window passes |
| RateLimit.PruneKeepsRecent | src/lib/rate-limit.ts:20-23 | pruning keeps hits that are all in the window |
| RateLimit.PruneDropsOld | src/lib/rate-limit.ts:20-23 | pruning drops hits that are all outside the window |
| RequestMetadata.SanitizeToken | src/lib/request-metadata.ts:3-10 | nothing exactly for a missing or blank value; otherwise the trimmed value cut to 160 characters |
| RequestMetadata.IpFrom | src/lib/request-metadata.ts:14-22 | an address a header yields is the header's trimmed text before its first comma, cut to 160 characters |
| RequestMetadata.FirstIp | src/lib/request-metadata.ts:12-27 | nothing exactly when no candidate header yields an address |
| RequestMetadata.IpFromMeaning | src/lib/request-metadata.ts:14-22 | a header yields nothing exactly when it is absent or blank before its first comma; a yielded address has no comma |
| RequestMetadata.FirstSomeIsFirst | src/lib/request-metadata.ts:13-26 | the first item that yields something decides; none yields anything exactly when the result is nothing |
| RequestMetadata.FirstIpIsFirstQualifying | src/lib/request-metadata.ts:12-27 | the first candidate header with a non-blank first hop decides; the address is 1 to 160 characters without a comma |
| RequestMetadata.GetRequestIp | src/lib/request-metadata.ts:12-27 | the loop over the candidate headers returns the first qualifying address |
| RequestMetadata.GetRequestUserAgent | src/lib/request-metadata.ts:29-31 | nothing exactly for a missing or blank user agent; otherwise the trimmed agent cut to 160 characters: its prefix of length min(160, trimmed length) |
| RequestMetadata.ShortUserAgentKept | src/lib/request-metadata.ts:29-31 | a non-blank agent of at most 160 characters after trimming is returned whole, trimmed |
| RequestMetadata.BuildClientFingerprint | src/lib/request-metadata.ts:33-37 | address or `unknown-ip`, `|`, user agent or `unknown-ua`; at most 321 characters |
| RequestMetadata.AnonymousFingerprint | src/lib/request-metadata.ts:33-37 | no headers give `unknown-ip|unknown-ua` |
| RequestMetadata.ForwardedForFirstHop | src/lib/request-metadata.ts:12-27 | without earlier candidates, a forwarded-for chain yields its trimmed first hop |
| Duplicates.Scrub | src/lib/job-profiles-repository.ts:114 | position by position, a lowercase letter, digit or whitespace character stays, and every other character becomes a space |
| Duplicates.Tokens | src/lib/job-profiles-repository.ts:111-118 | the tokens are a subsequence of the words of the lowercased, scrubbed text and include exactly those words of at least 3 characters; each is lowercase letters or digits |
| Duplicates.TokensOfJoin | src/lib/job-profiles-repository.ts:111-118 | tokenising space-joined tokens of at least 3 lowercase letters or digits gives them back |
| Duplicates.Jaccard | src/lib/job-profiles-repository.ts:124-136 | the index lies in [0, 1], is 0 when either set is empty, and is 0 exactly when the sets share nothing |
| Duplicates.JaccardSymmetric | src/lib/job-profiles-repository.ts:120-137 | the index is symmetric |
| Duplicates.JaccardOne | src/lib/job-profiles-repository.ts:120-137 | the index is 1 exactly for two equal non-empty sets |
| Duplicates.SimilarityProperties | src/lib/job-profiles-repository.ts:120-137 | text similarity is bounded and symmetric, 0 without tokens, 0 exactly for disjoint token sets, and 1 exactly for equal non-empty token sets |
| Duplicates.JaccardSimilarity | src/lib/job-profiles-repository.ts:120-137 | the counting loop over the left set computes the Jaccard index of the token sets |
| Duplicates.CountShared | src/lib/job-profiles-repository.ts:128-133 | the loop's count is the number of tokens the two sets share |
| Duplicates.NarrativeText | src/lib/job-profiles-repository.ts:139-149 | the joined text contains each of the four narrative fields, and its words are the fields' words in turn |
| Duplicates.BuildSubmissionText | src/lib/job-profiles-repository.ts:139-149 | the submission's text contains each of its four narrative fields, and its words are the fields' words in turn |
| Duplicates.MapCandidateToDuplicateMatch | src/lib/job-profiles-repository.ts:174-196 | slug, title and status copied; similarity in [0, 1], at least the text similarity, raised to at least 0.8 exactly by an agreeing title |
| Duplicates.TopIndex | src/lib/job-profiles-repository.ts:244-246 | the first candidate with the highest similarity, as a stable descending sort puts first |
| Duplicates.SelectBestMatch | src/lib/job-profiles-repository.ts:244-252 | nothing exactly when every score is below 0.72; otherwise the match with the highest score, the first among equal top scores |
| Duplicates.ScoreAll | src/lib/job-profiles-repository.ts:245 | each candidate scored, in order |
| Duplicates.LocalJobs | src/lib/job-profiles-repository.ts:201-202 | exactly the approved seed profiles with the submission's title ignoring case, in seed order, each as often as it occurs |
| Duplicates.LocalCandidates | src/lib/job-profiles-repository.ts:201-213 | each local profile as a candidate row |
| Duplicates.ScoreAllBest | src/lib/job-profiles-repository.ts:244-252 | the reported duplicate is a candidate's match scoring highest, and there is none exactly when every candidate scores below 0.72 |
| Duplicates.ScoreAllFirstBest | src/lib/job-profiles-repository.ts:244-246 | among candidates with equal top scores, the one listed first is reported |
| Duplicates.FindPotentialDuplicate | src/lib/job-profiles-repository.ts:198-253 | over the local then the stored candidates: nothing exactly when every one scores below 0.72; otherwise the match of the first candidate with the highest score, at least 0.72 |
| Duplicates.LocalTitleMatchIsReported | src/lib/job-profiles-repository.ts:198-253 | an approved seed profile with the same title always produces a reported duplicate scoring at least 0.8 |
| Duplicates.TitlesAgree | src/lib/job-profiles-repository.ts:186-187 | titles equal ignoring case also agree after trimming |
| ModerationQueue.MapPendingRow | src/lib/job-profiles-repository.ts:473-496 | every field copied, no tools becomes `[]`, a timestamp that normalises is replaced by its normal form and any other kept, and the flag is the risk test of the notes |
| ModerationQueue.PhraseIsFlagged | src/lib/job-profiles-repository.ts:465-471 | notes that contain one of the three phrases, in any letter case, raise the flag |
| ModerationQueue.RiskFlagIgnoresCase | src/lib/job-profiles-repository.ts:465-471 | the flag depends on the notes only up to letter case |
| ModerationQueue.PendingOrderTotal | src/lib/job-profiles-repository.ts:504-522 | each queue comparator is a total preorder |
| ModerationQueue.SortPending | src/lib/job-profiles-repository.ts:498-523 | a permutation ordered newest first, oldest first, or flagged first then oldest |
| ModerationQueue.ClampLimit | src/lib/job-profiles-repository.ts:535 | the limit defaults to 50 and clamps to [1, 200] |
| ModerationQueue.ClampOffset | src/lib/job-profiles-repository.ts:536 | the offset defaults to 0 and is never negative |
| ModerationQueue.FilterPending | src/lib/job-profiles-repository.ts:573-577 | exactly the items matching the set industry and submitter-type options, in order, each as often as it occurs |
| ModerationQueue.Page | src/lib/job-profiles-repository.ts:579 | `slice(offset, offset + limit)`: min(limit, what remains after `offset`) items, starting at `offset` |
| ModerationQueue.Count | src/lib/job-profiles-repository.ts:581-602 | a count never exceeds the list length |
| ModerationQueue.CountMonotone | src/lib/job-profiles-repository.ts:588-593 | a weaker test counts at least as many items |
| ModerationQueue.MetricsBounds | src/lib/job-profiles-repository.ts:581-602 | flagged ≤ total and older-than-72h ≤ older-than-24h ≤ total |
| ModerationQueue.ComputeMetrics | src/lib/job-profiles-repository.ts:581-602 | the accumulating loop computes the metrics of the filtered items |
| ModerationQueue.MapRows | src/lib/job-profiles-repository.ts:572 | each row mapped, in order |
| ModerationQueue.ListPendingSubmissions | src/lib/job-profiles-repository.ts:525-609 | error without the admin key or without data; otherwise the `Page` of the sorted filtered queue at the clamped offset and limit, its count and its metrics |
| ModerationQueue.ListedPageIsSlice | src/lib/job-profiles-repository.ts:579 | the listed items are the sorted queue from the offset on: exactly min(limit, remaining) of them |
| ModerationQueue.ListedItemsPassFilters | src/lib/job-profiles-repository.ts:572-608 | every listed item is a mapped row passing the set options, and the metrics are ordered |
| SubmissionStore.FlagNotes | src/lib/job-profiles-repository.ts:277 | each flag becomes `Flagged phrase: <flag>` |
| SubmissionStore.BuildReviewNotes | src/lib/job-profiles-repository.ts:275-300 | nothing exactly without link or flag; otherwise the link note and flag notes joined by ` \| ` |
| SubmissionStore.JoinStartsWithHead | src/lib/job-profiles-repository.ts:280 | a join starts with its first part |
| SubmissionStore.BuiltNotesRaiseRisk | src/lib/job-profiles-repository.ts:465-471 | every review note the intake writes is recognised by the queue's risk flag |
| SubmissionStore.BuildInsertPayload | src/lib/job-profiles-repository.ts:282-301 | the payload carries the slug, the submission, `pending`, and the built review notes, which raise the risk flag |
| SubmissionStore.InsertWithClient | src/lib/job-profiles-repository.ts:303-325 | the stored row on success; a retry signal exactly for a row-level-security refusal with the service key configured; otherwise the error's message, or the default insert-failure message |
| SubmissionStore.NoStoreMeansLocalFallback | src/lib/job-profiles-repository.ts:258-273 | without a store: success exactly when the local fallback is allowed, with a `local-` id and a unique role slug |
| SubmissionStore.StoredMeansInserted | src/lib/job-profiles-repository.ts:303-345 | with a store: success exactly when the anonymous insert succeeds, or when it is refused by row-level security and the service-key insert succeeds; the id and slug are the stored row's |
| SubmissionStore.RefusedTwiceIsBlocked | src/lib/job-profiles-repository.ts:327-339 | two row-level-security refusals give the blocked error; without the service key, the anonymous error is returned |
| SubmissionStore.RlsCodeOrPhrase | src/lib/job-profiles-repository.ts:313-315 | code `42501` or a message mentioning row-level security counts as a refusal |
| SubmissionStore.TrimmedNote | src/lib/job-profiles-repository.ts:637 | the note trimmed, with a blank note absent |
| SubmissionStore.BuildUpdatePayload | src/lib/job-profiles-repository.ts:634-640 | the status and trimmed note; approval time and moderator are set exactly on approval |
| SubmissionStore.BuildModerationEvent | src/lib/job-profiles-repository.ts:654-662 | action `approve` or `reject`, with the ids, old and new status, trimmed note and time |
| SubmissionStore.UpdateSubmissionModeration | src/lib/job-profiles-repository.ts:611-684 | an error without the admin key or on a failed read or update; otherwise the updated id and status, audit-logged exactly when the event was written |

## Left out

- Database access (Supabase clients, the `select`/`eq`/`in`/`ilike`/`limit` queries, and the scan limits of 80 and 500 rows) is not modelled. Each call is a datatype of its outcomes (`CandidateQuery`, `InsertOutcome`, `FetchOutcome`, `ReadOutcome`, `UpdateOutcome`, `AuditOutcome`), and the operations are functions of them.
- `mapDbRowToJobProfile`, `listApprovedJobProfiles` and `getApprovedJobProfileBySlug` are store plumbing around the schema parse and the seed fallback. They are not modelled separately.
- The HTTP routes (`src/pages/api/share.ts`, `moderate.ts`, `events.ts`), `moderation-auth.ts`, `middleware.ts`, the sitemap and robots pages, `supabase.ts` configuration and `telemetry.ts` logging are not part of this model.
- The audit-failure classification (code `42P01` or "does not exist") only chooses a log message. It is not modelled; any audit error gives `auditLogged = false`.
- The seed data module `src/data/job-profiles` is not part of this model. The seed list is a parameter.
- Clocks and randomness are parameters:
  - `Date.now()` is `nowMs`/`now` (and `idMs` for the local submission id);
  - `new Date().toISOString()` is `nowIso`;
  - the random suffix `Math.random().toString(36).slice(2, 8)` is `suffix`, required to be at most six base-36 digits.
- Timestamps as `Date` values: stored rows carry `createdAtMs` alongside the text `createdAt`, and sorting and metrics use it. Unparseable dates (`NaN` comparisons) are not modelled.
- `JobProfile.createdAt` and `approvedAt` are integer milliseconds. zod's `.datetime()` format check is not modelled.
- zod's `.email()` check is the parameter `isEmail`.
- Similarity scores and the 0.72 and 0.8 thresholds are exact `real` numbers; the source computes IEEE double-precision ratios, whose rounding is not modelled.
- Text is ASCII. JavaScript's Unicode-aware `toLowerCase`, `trim` and `\s` are modelled on ASCII only.
- `localeCompare` is an abstract total preorder `collate`. The locale is not modelled.
- `sortJobs` and `sortPending` sort a fresh copy in place with the built-in `Array.prototype.sort`. That copy is never shared, so the sort is modelled on values: a stable insertion sort proved sorted and a permutation. The input is a value and so stays unchanged. Stability is not proved.
- Jobs.SortJobs: does not state stability of equal elements, because stability is not proved.
- ModerationQueue.SortPending: does not state stability of equal elements, for the same reason.
- Text.Words: drops the empty pieces that `split(/\s+/)` produces at the ends. The length-3 filter removes them anyway, so the tokens are the same.
- SubmissionStore.BuildInsertPayload: carries the normalised submission as one field rather than the column-by-column copy, with absent optionals as `None` for `null`.
- SubmissionStore.CreatePendingSubmission: has no contract of its own. Its two clock reads are two parameters: `nowMs` for the slug fallback and `idMs` for the local id. What it does is stated by NoStoreMeansLocalFallback, StoredMeansInserted and RefusedTwiceIsBlocked.
- RateLimit.RateLimiter.CheckRateLimit: requires `limit >= 1`. With a limit of 0 or less and no hits, the source takes `Math.min()` of an empty list (`Infinity`), which integers cannot represent.
- Text.Trim: its own contract states the result's shape; that it is the input with the end whitespace cut off is TrimIsSlice and TrimUnique.
- Text.NormalizeText: its own contract states the result's shape; its content is NormalizeIsJoinedWords, NormalizeKeepsWords and NormalizeKeepsVisible.
- Slug.DashSpaceRuns: its own contract states the result's shape; its content is DashSpaceRunsIsCollapse and DashSpaceRunsOfTrimmed.
- Slug.CollapseDashes: its own contract states the result's shape; its content is CollapseDashesKeepsGroups.
- Slug.BaseSlug: its own contract states the result's shape; its content is BaseSlugKeepsAlnum and DashStepsClean.
- Exceptions are modelled as `Err` results carrying the message that would be thrown.
