/** The public directory: the approved profiles of a seed list, slug
    lookup, facet lists, the filter and sort behind the listing page, and
    the parsing of its query parameters. The seed list itself is a
    parameter. */
module Jobs {
  import opened Wrappers
  import opened Text
  import opened Sorting
  import opened JobSchema

  datatype SortOption = Newest | ExperienceAsc | ExperienceDesc | TitleAsc

  /** `SORT_OPTIONS`, in declaration order. */
  const SORT_OPTIONS: seq<string> := ["newest", "experience-asc", "experience-desc", "title-asc"]

  function SortName(o: SortOption): (n: string)
    ensures n in SORT_OPTIONS
  {
    match o
    case Newest => "newest"
    case ExperienceAsc => "experience-asc"
    case ExperienceDesc => "experience-desc"
    case TitleAsc => "title-asc"
  }

  /** The option a parameter value names, if it names one. */
  function ParseSortOption(s: string): (r: Option<SortOption>)
    ensures r.Some? <==> s in SORT_OPTIONS
    ensures r.Some? ==> SortName(r.value) == s
  {
    if s == "newest" then Some(Newest)
    else if s == "experience-asc" then Some(ExperienceAsc)
    else if s == "experience-desc" then Some(ExperienceDesc)
    else if s == "title-asc" then Some(TitleAsc)
    else None
  }

  /** Every option is recognised by its own name. */
  lemma SortNameRoundTrip(o: SortOption)
    ensures ParseSortOption(SortName(o)) == Some(o)
  {
  }

  /** `JobDirectoryFilters`. */
  datatype DirectoryFilters = DirectoryFilters(
    query: Option<string>,
    industry: Option<string>,
    workMode: Option<string>,
    sort: Option<SortOption>)

  predicate IsApproved(job: JobProfile) { job.status == "approved" }

  /** `getApprovedJobs`: the approved profiles of the seed list, in order. */
  function GetApprovedJobs(seed: seq<JobProfile>): (r: seq<JobProfile>)
    ensures forall job :: job in r <==> job in seed && IsApproved(job)
    ensures IsSubsequence(r, seed)
    ensures forall job :: multiset(r)[job] == if IsApproved(job) then multiset(seed)[job] else 0
  {
    FilterIsSubsequence(seed, IsApproved);
    FilterCounts(seed, IsApproved);
    Filter(seed, IsApproved)
  }

  /** The position of the first profile with this slug. */
  function FindSlug(jobs: seq<JobProfile>, slug: string): (r: Option<nat>)
    ensures r.None? <==> forall i | 0 <= i < |jobs| :: jobs[i].slug != slug
    ensures r.Some? ==> r.value < |jobs| && jobs[r.value].slug == slug
    ensures r.Some? ==> forall i | 0 <= i < r.value :: jobs[i].slug != slug
    decreases |jobs|
  {
    if jobs == [] then None
    else if jobs[0].slug == slug then Some(0)
    else
      match FindSlug(jobs[1..], slug)
      case None =>
        assert forall i | 1 <= i < |jobs| :: jobs[i] == jobs[1..][i - 1];
        None
      case Some(k) =>
        assert forall i | 1 <= i < k + 1 :: jobs[i] == jobs[1..][i - 1];
        Some(k + 1)
  }

  /** `getJobBySlug`: the first approved profile with the slug, or none
      when no approved profile has it. */
  function GetJobBySlug(seed: seq<JobProfile>, slug: string): (r: Option<JobProfile>)
    ensures r.None? <==> forall job | job in seed && IsApproved(job) :: job.slug != slug
    ensures r.Some? ==> r.value in seed && IsApproved(r.value) && r.value.slug == slug
    ensures r.Some? ==> exists i | 0 <= i < |GetApprovedJobs(seed)| ::
      GetApprovedJobs(seed)[i] == r.value && forall j | 0 <= j < i :: GetApprovedJobs(seed)[j].slug != slug
  {
    var approved := GetApprovedJobs(seed);
    match FindSlug(approved, slug)
    case None => None
    case Some(k) =>
      assert approved[k] in approved;
      Some(approved[k])
  }

  // ---------------------------------------------------------------------
  // Facets

  datatype Facets = Facets(industries: seq<string>, workModes: seq<string>)

  function Industries(jobs: seq<JobProfile>): (r: seq<string>)
    ensures |r| == |jobs| && forall i | 0 <= i < |r| :: r[i] == jobs[i].industry
  {
    seq(|jobs|, i requires 0 <= i < |jobs| => jobs[i].industry)
  }

  function WorkModes(jobs: seq<JobProfile>): (r: seq<string>)
    ensures |r| == |jobs| && forall i | 0 <= i < |r| :: r[i] == jobs[i].workMode
  {
    seq(|jobs|, i requires 0 <= i < |jobs| => jobs[i].workMode)
  }

  /** `[...new Set(jobs.map((job) => job.industry))].sort(...)`. */
  function IndustryFacet(jobs: seq<JobProfile>, collate: (string, string) -> bool): (r: seq<string>)
    requires TotalPreorder(collate)
    ensures forall x :: x in r <==> exists job | job in jobs :: job.industry == x
    ensures NoDuplicates(r) && Sorted(r, collate)
  {
    var distinct := Distinct(Industries(jobs));
    var industries := SortBy(distinct, collate);
    SortBySorted(distinct, collate);
    SameElements(industries, distinct);
    PermutationNoDuplicates(distinct, industries);
    IndustriesOf(jobs);
    industries
  }

  /** `[...new Set(jobs.map((job) => job.workMode))]`. */
  function WorkModeFacet(jobs: seq<JobProfile>): (r: seq<string>)
    ensures forall x :: x in r <==> exists job | job in jobs :: job.workMode == x
    ensures NoDuplicates(r)
    ensures InFirstAppearanceOrder(r, WorkModes(jobs))
  {
    WorkModesOf(jobs);
    DistinctInFirstAppearanceOrder(WorkModes(jobs));
    Distinct(WorkModes(jobs))
  }

  /** `getDirectoryFacets`: the distinct industries in collation order
      (`collate` stands for `localeCompare`), and the distinct work modes in
      order of first appearance. */
  function GetDirectoryFacets(jobs: seq<JobProfile>, collate: (string, string) -> bool): (r: Facets)
    requires TotalPreorder(collate)
    ensures forall x :: x in r.industries <==> exists job | job in jobs :: job.industry == x
    ensures NoDuplicates(r.industries) && Sorted(r.industries, collate)
    ensures forall x :: x in r.workModes <==> exists job | job in jobs :: job.workMode == x
    ensures NoDuplicates(r.workModes)
    ensures InFirstAppearanceOrder(r.workModes, WorkModes(jobs))
  {
    Facets(IndustryFacet(jobs, collate), WorkModeFacet(jobs))
  }

  lemma IndustriesOf(jobs: seq<JobProfile>)
    ensures forall x :: x in Industries(jobs) <==> exists job | job in jobs :: job.industry == x
  {
    forall x | x in Industries(jobs) ensures exists job | job in jobs :: job.industry == x {
      var i :| 0 <= i < |jobs| && Industries(jobs)[i] == x;
      assert jobs[i] in jobs;
    }
    forall job | job in jobs ensures job.industry in Industries(jobs) {
      var i :| 0 <= i < |jobs| && jobs[i] == job;
      assert Industries(jobs)[i] == job.industry;
    }
  }

  lemma WorkModesOf(jobs: seq<JobProfile>)
    ensures forall x :: x in WorkModes(jobs) <==> exists job | job in jobs :: job.workMode == x
  {
    forall x | x in WorkModes(jobs) ensures exists job | job in jobs :: job.workMode == x {
      var i :| 0 <= i < |jobs| && WorkModes(jobs)[i] == x;
      assert jobs[i] in jobs;
    }
    forall job | job in jobs ensures job.workMode in WorkModes(jobs) {
      var i :| 0 <= i < |jobs| && jobs[i] == job;
      assert WorkModes(jobs)[i] == job.workMode;
    }
  }

  // ---------------------------------------------------------------------
  // Filtering

  /** `query?.trim().toLowerCase()`. */
  function NormalizedQuery(query: Option<string>): (r: Option<string>)
    ensures r.None? <==> query.None?
    ensures r.Some? ==> r.value == ToLower(Trim(query.value))
  {
    match query
    case None => None
    case Some(q) => Some(ToLower(Trim(q)))
  }

  /** The text a query is matched against: title, industry, location,
      day-to-day and recommendation joined by spaces, lowercased. */
  function SearchText(job: JobProfile): string {
    ToLower(Join([job.roleTitle, job.industry, job.location, job.dayToDay, job.recommendationToStudents], " "))
  }

  function MatchesIndustry(filters: DirectoryFilters, job: JobProfile): bool {
    IsSet(filters.industry) ==> job.industry == filters.industry.value
  }

  function MatchesWorkMode(filters: DirectoryFilters, job: JobProfile): bool {
    IsSet(filters.workMode) ==> job.workMode == filters.workMode.value
  }

  function MatchesQuery(filters: DirectoryFilters, job: JobProfile): bool {
    var q := NormalizedQuery(filters.query);
    IsSet(q) ==> Contains(SearchText(job), q.value)
  }

  function MatchesFilters(filters: DirectoryFilters, job: JobProfile): bool {
    MatchesIndustry(filters, job) && MatchesWorkMode(filters, job) && MatchesQuery(filters, job)
  }

  /** `applyJobFilters`: the profiles, in order, that pass every set filter. */
  function ApplyJobFilters(jobs: seq<JobProfile>, filters: DirectoryFilters): (r: seq<JobProfile>)
    ensures IsSubsequence(r, jobs)
    ensures forall job :: job in r <==> job in jobs && MatchesFilters(filters, job)
    ensures IsSet(filters.industry) ==> forall job | job in r :: job.industry == filters.industry.value
    ensures IsSet(filters.workMode) ==> forall job | job in r :: job.workMode == filters.workMode.value
    ensures forall job :: multiset(r)[job] == if MatchesFilters(filters, job) then multiset(jobs)[job] else 0
  {
    var keep := (job: JobProfile) => MatchesFilters(filters, job);
    FilterIsSubsequence(jobs, keep);
    FilterCounts(jobs, keep);
    Filter(jobs, keep)
  }

  /** With no set filter and a blank (or absent) query nothing is dropped. */
  lemma UnsetFiltersKeepAll(jobs: seq<JobProfile>, filters: DirectoryFilters)
    requires !IsSet(filters.industry) && !IsSet(filters.workMode)
    requires filters.query.None? || Trim(filters.query.value) == ""
    ensures ApplyJobFilters(jobs, filters) == jobs
  {
    FilterKeepsAll(jobs, (job: JobProfile) => MatchesFilters(filters, job));
  }

  /** A non-blank query keeps exactly the profiles whose search text
      contains it, trimmed and lowercased. */
  lemma QueryKeepsMatches(jobs: seq<JobProfile>, filters: DirectoryFilters, job: JobProfile)
    requires !IsSet(filters.industry) && !IsSet(filters.workMode)
    requires filters.query.Some? && Trim(filters.query.value) != ""
    requires job in jobs
    ensures job in ApplyJobFilters(jobs, filters) <==>
      Contains(SearchText(job), ToLower(Trim(filters.query.value)))
  {
  }

  // ---------------------------------------------------------------------
  // Sorting

  /** The comparator each option sorts by, as "comes no later than"; the
      title order is the collation `collate`. */
  function SortOrder(sort: SortOption, collate: (string, string) -> bool): (JobProfile, JobProfile) -> bool {
    match sort
    case ExperienceAsc => (a: JobProfile, b: JobProfile) => a.yearsExperience <= b.yearsExperience
    case ExperienceDesc => (a: JobProfile, b: JobProfile) => b.yearsExperience <= a.yearsExperience
    case TitleAsc => (a: JobProfile, b: JobProfile) => collate(a.roleTitle, b.roleTitle)
    case Newest => (a: JobProfile, b: JobProfile) => b.createdAt <= a.createdAt
  }

  lemma SortOrderTotal(sort: SortOption, collate: (string, string) -> bool)
    requires TotalPreorder(collate)
    ensures TotalPreorder(SortOrder(sort, collate))
  {
    if sort == TitleAsc {
      var le := SortOrder(sort, collate);
      forall a: JobProfile, b: JobProfile, c: JobProfile | le(a, b) && le(b, c) ensures le(a, c) {
        assert collate(a.roleTitle, b.roleTitle) && collate(b.roleTitle, c.roleTitle);
      }
      forall a: JobProfile, b: JobProfile ensures le(a, b) || le(b, a) {
        assert collate(a.roleTitle, b.roleTitle) || collate(b.roleTitle, a.roleTitle);
      }
    }
  }

  /** `sortJobs`: a sorted copy, `newest` when no option is given. */
  function SortJobs(jobs: seq<JobProfile>, sort: Option<SortOption>, collate: (string, string) -> bool): (r: seq<JobProfile>)
    requires TotalPreorder(collate)
    ensures multiset(r) == multiset(jobs)
    ensures sort == Some(ExperienceAsc) ==>
      forall i, j | 0 <= i < j < |r| :: r[i].yearsExperience <= r[j].yearsExperience
    ensures sort == Some(ExperienceDesc) ==>
      forall i, j | 0 <= i < j < |r| :: r[i].yearsExperience >= r[j].yearsExperience
    ensures sort == Some(TitleAsc) ==>
      forall i, j | 0 <= i < j < |r| :: collate(r[i].roleTitle, r[j].roleTitle)
    ensures sort.None? || sort == Some(Newest) ==>
      forall i, j | 0 <= i < j < |r| :: r[i].createdAt >= r[j].createdAt
  {
    var option := if sort.Some? then sort.value else Newest;
    var le := SortOrder(option, collate);
    SortOrderTotal(option, collate);
    SortBySorted(jobs, le);
    SortBy(jobs, le)
  }

  // ---------------------------------------------------------------------
  // Query parameters

  /** `parseDirectoryFilters` over the parameters as a map from name to
      (first) value: `q`, `industry` and `workMode` are copied when present,
      and `sort` is kept only when it names an option, `newest` otherwise. */
  function ParseDirectoryFilters(params: map<string, string>): (r: DirectoryFilters)
    ensures r.query == (if "q" in params then Some(params["q"]) else None)
    ensures r.industry == (if "industry" in params then Some(params["industry"]) else None)
    ensures r.workMode == (if "workMode" in params then Some(params["workMode"]) else None)
    ensures r.sort.Some?
    ensures "sort" in params && params["sort"] in SORT_OPTIONS ==> SortName(r.sort.value) == params["sort"]
    ensures !("sort" in params && params["sort"] in SORT_OPTIONS) ==> r.sort == Some(Newest)
  {
    var sort := if "sort" in params then ParseSortOption(params["sort"]) else None;
    DirectoryFilters(
      Lookup(params, "q"),
      Lookup(params, "industry"),
      Lookup(params, "workMode"),
      Some(if sort.Some? then sort.value else Newest))
  }

  /** `URLSearchParams.get`, `null` as `None`. */
  function Lookup(params: map<string, string>, name: string): Option<string> {
    if name in params then Some(params[name]) else None
  }

  /** The parameter set of the directory page's own links parses back to
      the filters it encodes. */
  lemma ParseDirectoryFiltersExample(q: string, industry: string, workMode: string)
    ensures var r := ParseDirectoryFilters(map["q" := q, "industry" := industry, "workMode" := workMode, "sort" := "title-asc"]);
      r == DirectoryFilters(Some(q), Some(industry), Some(workMode), Some(TitleAsc))
  {
    var params := map["q" := q, "industry" := industry, "workMode" := workMode, "sort" := "title-asc"];
    assert params["sort"] == "title-asc";
  }
}
