/** The quick filter chain of src/filters/job_filters.py: an ordered list of
    stateless predicates over a posting, tried in order until one excludes
    it.  Being functions, the filters cannot modify the posting. */
module Filters {
  import opened Wrappers
  import opened Budgets
  import opened Extractor
  import opened Profiles

  /** `(should_filter, reason)`. */
  datatype FilterResult = FilterResult(exclude: bool, reason: string)

  /** What a posting that no filter excludes gets. */
  const Pass: FilterResult := FilterResult(false, "")
  const NotFixedPriceReason: string := "固定報酬制でない案件です"

  type Filter = JobItem -> FilterResult

  /** `filter_fixed_price`: only fixed-price postings pass. */
  function FilterFixedPrice(job: JobItem): (r: FilterResult)
    ensures r.exclude <==> job.budget.kind != FixedPrice
    ensures r.exclude ==> r.reason == NotFixedPriceReason
    ensures !r.exclude ==> r == Pass
  {
    if job.budget.kind != FixedPrice then FilterResult(true, NotFixedPriceReason)
    else Pass
  }

  /** The list `apply_filters` runs. */
  const DefaultFilters: seq<Filter> := [FilterFixedPrice]

  /** Filter `k` is the first one in list order that excludes `job`. */
  predicate FirstExcluder(filters: seq<Filter>, job: JobItem, k: int) {
    && 0 <= k < |filters| && filters[k](job).exclude
    && forall j :: 0 <= j < k ==> !filters[j](job).exclude
  }

  /** The loop of `apply_filters`: the verdict of the first excluding
      filter, or a pass when none excludes. */
  function RunFilters(filters: seq<Filter>, job: JobItem): (r: FilterResult)
    ensures r.exclude <==> exists k :: 0 <= k < |filters| && filters[k](job).exclude
    ensures forall k :: FirstExcluder(filters, job, k) ==> r == filters[k](job)
    ensures !r.exclude ==> r == Pass
  {
    if |filters| == 0 then Pass
    else
      var v := filters[0](job);
      if v.exclude then v
      else
        var r := RunFilters(filters[1..], job);
        assert forall k :: FirstExcluder(filters, job, k) ==> FirstExcluder(filters[1..], job, k - 1);
        assert forall k :: 0 <= k < |filters[1..]| ==> filters[1..][k] == filters[k + 1];
        r
  }

  /** Once a filter has excluded the posting, the filters after it are not
      consulted: appending filters to a chain that already excludes changes
      nothing. */
  lemma {:induction false} LaterFiltersNotConsulted(front: seq<Filter>, back: seq<Filter>, job: JobItem)
    requires exists k :: 0 <= k < |front| && front[k](job).exclude
    ensures RunFilters(front + back, job) == RunFilters(front, job)
  {
    assert (front + back)[0] == front[0];
    if !front[0](job).exclude {
      var k :| 0 <= k < |front| && front[k](job).exclude;
      assert front[1..][k - 1] == front[k];
      assert (front + back)[1..] == front[1..] + back;
      LaterFiltersNotConsulted(front[1..], back, job);
    }
  }

  /** `apply_filters`.  The profile is accepted for future filters but no
      filter is given it. */
  function ApplyFilters(job: JobItem, profile: UserProfile): (r: FilterResult)
    ensures r.exclude <==> job.budget.kind != FixedPrice
    ensures r.exclude ==> r.reason == NotFixedPriceReason
    ensures !r.exclude ==> r == Pass
  {
    RunFilters(DefaultFilters, job)
  }

  /** The verdict depends on the posting alone. */
  lemma ProfileIsIgnored(job: JobItem, p: UserProfile, q: UserProfile)
    ensures ApplyFilters(job, p) == ApplyFilters(job, q)
  {
  }

  /** The verdict depends on nothing but the posting's budget type. */
  lemma OnlyBudgetTypeMatters(a: JobItem, b: JobItem, p: UserProfile)
    requires a.budget.kind == b.budget.kind
    ensures ApplyFilters(a, p) == ApplyFilters(b, p)
  {
  }
}
