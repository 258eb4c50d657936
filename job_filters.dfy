/** The filter bar: per-status tallies, the six filter buttons with their
    counts, which button is highlighted, and the sort selector. */
module JobFilters {
  import opened Rows
  import opened JobStore

  /** The `statusCounts` record: the total and one tally per state. */
  datatype StatusCounts = StatusCounts(all: nat, applied: nat, interview: nat, offer: nat, rejected: nat, accepted: nat)

  function StatusCountsOf(jobs: seq<Row>): (c: StatusCounts)
    ensures c.all == |jobs|
    ensures c.applied == CountStatus(jobs, Applied) && c.interview == CountStatus(jobs, Interview)
    ensures c.offer == CountStatus(jobs, Offer) && c.rejected == CountStatus(jobs, Rejected)
    ensures c.accepted == CountStatus(jobs, Accepted)
    ensures c.applied + c.interview + c.offer + c.rejected + c.accepted == c.all
    ensures c.applied <= c.all && c.interview <= c.all && c.offer <= c.all
    ensures c.rejected <= c.all && c.accepted <= c.all
  {
    CountsPartition(jobs);
    StatusCounts(|jobs|, CountStatus(jobs, Applied), CountStatus(jobs, Interview),
                 CountStatus(jobs, Offer), CountStatus(jobs, Rejected), CountStatus(jobs, Accepted))
  }

  /** One filter button: the filter value it sets, its caption and its tally. */
  datatype FilterOption = FilterOption(value: string, caption: string, count: nat)

  /** The buttons: "all" first, then the five states in their usual order,
      each labelled with its own name and carrying its own tally. */
  function FilterOptions(jobs: seq<Row>): (r: seq<FilterOption>)
    ensures |r| == 6
    ensures r[0] == FilterOption(AllFilter, "All Applications", |jobs|)
    ensures forall i :: 1 <= i < 6 ==>
      r[i].value == StatusName(AllStatuses[i - 1]) && r[i].caption == r[i].value
      && r[i].count == CountStatus(jobs, AllStatuses[i - 1])
    ensures r[1].count + r[2].count + r[3].count + r[4].count + r[5].count == r[0].count
  {
    var c := StatusCountsOf(jobs);
    [ FilterOption(AllFilter, "All Applications", c.all),
      FilterOption("Applied", "Applied", c.applied),
      FilterOption("Interview", "Interview", c.interview),
      FilterOption("Offer", "Offer", c.offer),
      FilterOption("Rejected", "Rejected", c.rejected),
      FilterOption("Accepted", "Accepted", c.accepted) ]
  }

  /** A button is highlighted when the store's filter is its value. */
  predicate IsActive(filter: string, option: FilterOption)
  {
    filter == option.value
  }

  /** A button shows its tally in parentheses only when the tally is positive. */
  predicate ShowsCount(option: FilterOption)
  {
    option.count > 0
  }

  /** The six values are pairwise distinct, so whatever the filter, at most
      one button is highlighted. */
  lemma AtMostOneActive(jobs: seq<Row>, filter: string, i: nat, k: nat)
    requires i < 6 && k < 6
    requires IsActive(filter, FilterOptions(jobs)[i]) && IsActive(filter, FilterOptions(jobs)[k])
    ensures i == k
  {
  }

  /** Pressing button `i` sets the filter to its value: afterwards button `i`
      and no other is highlighted. */
  method SelectFilterOption(store: Store, i: nat)
    requires i < 6
    modifies store`filter
    ensures store.filter == FilterOptions(store.jobs)[i].value
    ensures forall k :: 0 <= k < 6 ==> (IsActive(store.filter, FilterOptions(store.jobs)[k]) <==> k == i)
    ensures store.jobs == old(store.jobs) && store.sortBy == old(store.sortBy)
  {
    var options := FilterOptions(store.jobs);
    store.SetFilter(options[i].value);
    forall k | 0 <= k < 6
      ensures IsActive(store.filter, options[k]) <==> k == i
    {
      if IsActive(store.filter, options[k]) {
        AtMostOneActive(store.jobs, store.filter, i, k);
      }
    }
  }

  /** The sort selector's entries: the value it emits and the caption shown. */
  datatype SortOption = SortOption(value: string, caption: string)

  const SortOptions: seq<SortOption> := [SortOption("desc", "Newest First"), SortOption("asc", "Oldest First")]

  /** The order a sort value denotes, if any. */
  function ParseSortOrder(value: string): (r: Option<SortOrder>)
    ensures r.Some? ==> SortName(r.value) == value
    ensures r.None? ==> forall o: SortOrder :: SortName(o) != value
  {
    if value == "asc" then Some(Asc) else if value == "desc" then Some(Desc) else None
  }

  /** Each entry of the selector denotes an order, either order has an
      entry, and the entry shown for the current order is its own. */
  lemma SortOptionsCoverOrders(o: SortOrder)
    ensures forall i :: 0 <= i < |SortOptions| ==> ParseSortOrder(SortOptions[i].value).Some?
    ensures exists i :: 0 <= i < |SortOptions| && SortOptions[i].value == SortName(o)
  {
    if o == Desc {
      assert SortOptions[0].value == SortName(o);
    } else {
      assert SortOptions[1].value == SortName(o);
    }
  }

  /** Choosing entry `i` of the selector sets `sortBy` to the order it names. */
  method SelectSortOption(store: Store, i: nat)
    requires i < |SortOptions|
    modifies store`sortBy
    ensures SortName(store.sortBy) == SortOptions[i].value
    ensures store.jobs == old(store.jobs) && store.filter == old(store.filter)
  {
    var order := ParseSortOrder(SortOptions[i].value);
    store.SetSortBy(order.value);
  }
}
