/** The paginated list (components/ConsentsListWithPagination.tsx): the
    rules by which it chooses what to show from the store's state, the ref
    that remembers the last rows it could show, and its two effects. Page
    changes go through the store's `FetchPage`, which the context exposes
    as `setPage`. Rendering itself is not modelled. */
module ConsentsPagination {
  import opened Common
  import opened ConsentTypes
  import opened ConsentService
  import opened ConsentsContext

  /** `Math.ceil(total / pageSize)`, the number of pages offered. */
  function PageCount(total: int, pageSize: int): (r: int)
    requires pageSize > 0
    ensures total == 0 ==> r == 0
    ensures total > 0 ==> r >= 1 && (r - 1) * pageSize < total <= r * pageSize
  {
    CeilDiv(total, pageSize)
  }

  /** The page counts of the empty collection, of five records and of six,
      two to a page. */
  lemma PageCountExamples()
    ensures PageCount(0, 2) == 0 && PageCount(5, 2) == 3 && PageCount(6, 2) == 3
  {
    CeilDivUnique(5, 2, 3);
    CeilDivUnique(6, 2, 3);
  }

  /** `consentsCache[page] || remembered`: the cached rows of the current
      page when it is cached (an empty array counts as cached), the
      remembered rows otherwise. */
  function DisplayRows(s: Snapshot, remembered: seq<Consent>): (rows: seq<Consent>)
    ensures s.page in s.cache ==> rows == s.cache[s.page]
    ensures s.page !in s.cache ==> rows == remembered
  {
    if s.page in s.cache then s.cache[s.page] else remembered
  }

  /** The full-size spinner replaces the table only while the first page is
      shown, loading, and not yet cached. */
  function ShowInitialLoading(s: Snapshot): (r: bool)
    ensures r ==> s.page !in s.cache && s.loading
  {
    s.page == 1 && s.loading && 1 !in s.cache
  }

  class ConsentsListWithPagination {
    const store: ConsentsProvider
    /** `lastDataRef.current`. */
    var lastData: seq<Consent>

    /** Mounting: the ref starts as the current page's cached rows, or
        empty. */
    constructor (store: ConsentsProvider)
      ensures this.store == store
      ensures lastData == DisplayRows(store.View(), [])
    {
      this.store := store;
      lastData := DisplayRows(store.View(), []);
    }

    /** The rows handed to the table. */
    function Data(): seq<Consent>
      reads this, store
    {
      DisplayRows(store.View(), lastData)
    }

    /** The first effect: the ref takes the current page's rows when that
        page is cached and is left alone otherwise, so the rows shown do
        not change. */
    method RememberShownRows()
      modifies this
      ensures store.page in store.cache ==> lastData == store.cache[store.page]
      ensures store.page !in store.cache ==> lastData == old(lastData)
      ensures Data() == old(Data())
    {
      if store.page in store.cache {
        lastData := store.cache[store.page];
      }
    }

    /** The second effect: a fetch of the current page is requested
        exactly when the cache lacks it. While it is pending the rows shown
        stay as they were, and the spinner shows iff that page is page 1. */
    method FetchIfMissing(service: Service) returns (requests: seq<Request>, ghost awaiting: seq<Snapshot>)
      modifies store
      ensures old(store.page in store.cache) ==> requests == [] && store.View() == old(store.View())
      ensures old(store.page !in store.cache) ==> requests == [Request(old(store.page), store.pageSize)]
      ensures old(store.page !in store.cache) && service(old(store.page), store.pageSize).Ok? ==>
                var body := service(old(store.page), store.pageSize).value;
                store.View() == old(store.View()).(cache := old(store.cache)[old(store.page) := body.data],
                                                   total := body.total, loading := false, error := None)
      ensures old(store.page !in store.cache) && service(old(store.page), store.pageSize).Failed? ==>
                store.View() == old(store.View()).(loading := false,
                                                   error := Some(ErrorText(service(old(store.page), store.pageSize).message, FetchFallback)))
      ensures forall w :: w in awaiting ==>
                && DisplayRows(w, lastData) == old(Data())
                && (ShowInitialLoading(w) <==> old(store.page) == 1)
    {
      if store.page !in store.cache {
        requests, awaiting := store.FetchPage(store.page, service);
      } else {
        requests, awaiting := [], [];
      }
    }

    /** A click on the pagination control calls `setPage`, which is the
        store's `FetchPage`: a cached page is shown at once and with no
        request; an uncached one keeps the previous rows on screen while it
        is pending, then shows the fetched rows, or, on failure, still the
        previous rows next to the error. */
    method OnPageChange(value: int, service: Service) returns (requests: seq<Request>, ghost awaiting: seq<Snapshot>)
      modifies store
      ensures old(value in store.cache) ==> requests == [] && Data() == old(store.cache[value])
      ensures old(value in store.cache) ==> store.View() == old(store.View()).(page := value)
      ensures old(value !in store.cache) ==> requests == [Request(value, store.pageSize)]
      ensures forall w :: w in awaiting ==> DisplayRows(w, lastData) == old(Data())
      ensures old(value !in store.cache) && service(value, store.pageSize).Ok? ==>
                var body := service(value, store.pageSize).value;
                && Data() == body.data
                && store.View() == old(store.View()).(page := value, cache := old(store.cache)[value := body.data],
                                                      total := body.total, loading := false, error := None)
      ensures old(value !in store.cache) && service(value, store.pageSize).Failed? ==>
                && Data() == old(Data())
                && store.View() == old(store.View()).(loading := false,
                                                      error := Some(ErrorText(service(value, store.pageSize).message, FetchFallback)))
    {
      requests, awaiting := store.FetchPage(value, service);
    }
  }
}
