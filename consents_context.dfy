/** The paginated page-cache store (contexts/ConsentsContext.tsx).

    The provider's five state cells are the fields of one
    `ConsentsProvider` object; the page size is a constant 2. Its two
    operations are methods that change those fields. The service they await
    is a parameter: a function from the request `(page, pageSize)` to the
    reply. An operation that calls the service twice takes one such
    function per call, so that the second reply may differ from the first
    even when the two requests are equal. Each method returns the requests it issued, in order, and (as a
    ghost) the state that is rendered while each of them is pending, which
    is where the loading bracket can be seen. Each operation runs to
    completion before the next starts. */
module ConsentsContext {
  import opened Common
  import opened ConsentTypes
  import opened ConsentService

  const FetchFallback := "Failed to fetch consents"
  const RefreshFallback := "Failed to refresh consents"

  /** `err.message || fallback`: the rejection's message unless it is empty.
      With a non-empty fallback the recorded error is never empty. */
  function ErrorText(message: string, fallback: string): (r: string)
    ensures message != "" ==> r == message
    ensures r == "" ==> fallback == ""
    ensures r == message || r == fallback
  {
    if message != "" then message else fallback
  }

  /** The page cache: page number to the rows fetched for it. */
  type PageCache = map<int, seq<Consent>>

  /** `m` and `m'` hold the same pages with the same rows, except possibly
      page `key`. */
  ghost predicate AgreeExcept(m: PageCache, m': PageCache, key: int) {
    forall k :: k != key ==> (k in m <==> k in m') && (k in m ==> m[k] == m'[k])
  }

  /** Everything a consumer of the context can observe. */
  datatype Snapshot = Snapshot(
    page: int,
    cache: PageCache,
    total: int,
    loading: bool,
    error: Option<string>)

  class ConsentsProvider {
    var page: int
    const pageSize: int := 2
    var cache: PageCache
    var total: int
    var loading: bool
    var error: Option<string>
    /** The page the provider was created on. */
    ghost const initialPage: int

    /** The provider's props, with their defaults. */
    constructor (initialPage: int := 1, initialData: PageCache := map[], initialTotal: int := 0)
      ensures page == initialPage && cache == initialData && total == initialTotal
      ensures !loading && error == None
      ensures this.initialPage == initialPage
      ensures Backed()
    {
      page := initialPage;
      cache := initialData;
      total := initialTotal;
      loading := false;
      error := None;
      this.initialPage := initialPage;
    }

    function View(): Snapshot
      reads this
    {
      Snapshot(page, cache, total, loading, error)
    }

    /** The current page has rows in the cache, unless it is still the page
        the provider was created on. Every operation keeps this. */
    ghost predicate Backed()
      reads this
    {
      page == initialPage || page in cache
    }

    /** `fetchPage(target)`, cache first. A cached target (even one cached
        as an empty page) only switches the page, without a request. A miss
        raises `loading` and clears `error`, asks the service for
        `(target, 2)`, and then either stores the rows under `target`, takes
        the reply's total and switches to `target`, or records the error
        and leaves cache, total and page alone; `loading` ends false either
        way. */
    method FetchPage(target: int, service: Service) returns (requests: seq<Request>, ghost awaiting: seq<Snapshot>)
      modifies this
      ensures old(Backed()) ==> Backed()
      ensures old(cache).Keys <= cache.Keys
      ensures AgreeExcept(old(cache), cache, target)
      ensures old(target in cache) ==>
                && requests == [] && awaiting == []
                && View() == old(View()).(page := target)
      ensures old(target !in cache) ==>
                && requests == [Request(target, pageSize)]
                && awaiting == [old(View()).(loading := true, error := None)]
                && !loading
      ensures old(target !in cache) && service(target, pageSize).Ok? ==>
                var body := service(target, pageSize).value;
                View() == old(View()).(page := target, cache := old(cache)[target := body.data],
                                       total := body.total, loading := false, error := None)
      ensures old(target !in cache) && service(target, pageSize).Failed? ==>
                && View() == old(View()).(loading := false,
                                          error := Some(ErrorText(service(target, pageSize).message, FetchFallback)))
                && target !in cache
    {
      if target in cache {
        page := target;
        return [], [];
      }
      loading := true;
      error := None;
      requests := [Request(target, pageSize)];
      awaiting := [View()];
      var reply := service(target, pageSize);
      match reply {
        case Ok(body) =>
          cache := cache[target := body.data];
          total := body.total;
          page := target;
        case Failed(message) =>
          error := Some(ErrorText(message, FetchFallback));
      }
      loading := false;
    }

    /** `refreshAndGoToLastPage()`. Raises `loading`, clears `error`, asks
        for page 1 only to learn the fresh total, stores that total, asks
        for page `ceil(total / 2)` (not clamped: a total of 0 gives page 0),
        then overwrites that page's cache slot with the rows and switches
        to it. A failure of either request records the error; a failure of
        the second leaves the new total in place. `loading` ends false.
        `firstCall` answers the first request and `secondCall` the second. */
    method RefreshAndGoToLastPage(firstCall: Service, secondCall: Service) returns (requests: seq<Request>, ghost awaiting: seq<Snapshot>)
      modifies this
      ensures old(Backed()) ==> Backed()
      ensures old(cache).Keys <= cache.Keys
      ensures !loading
      ensures |requests| == |awaiting| >= 1
      ensures requests[0] == Request(1, pageSize)
      ensures awaiting[0] == old(View()).(loading := true, error := None)
      ensures firstCall(1, pageSize).Failed? ==>
                && requests == [Request(1, pageSize)]
                && View() == old(View()).(loading := false,
                                          error := Some(ErrorText(firstCall(1, pageSize).message, RefreshFallback)))
      ensures firstCall(1, pageSize).Ok? ==>
                var newTotal := firstCall(1, pageSize).value.total;
                var lastPage := CeilDiv(newTotal, pageSize);
                var second := secondCall(lastPage, pageSize);
                && requests == [Request(1, pageSize), Request(lastPage, pageSize)]
                && awaiting == [old(View()).(loading := true, error := None),
                                old(View()).(loading := true, error := None, total := newTotal)]
                && AgreeExcept(old(cache), cache, lastPage)
                && (second.Ok? ==>
                      View() == old(View()).(page := lastPage, cache := old(cache)[lastPage := second.value.data],
                                             total := newTotal, loading := false, error := None))
                && (second.Failed? ==>
                      View() == old(View()).(total := newTotal, loading := false,
                                             error := Some(ErrorText(second.message, RefreshFallback))))
    {
      loading := true;
      error := None;
      requests := [Request(1, pageSize)];
      awaiting := [View()];
      var first := firstCall(1, pageSize);
      if first.Failed? {
        error := Some(ErrorText(first.message, RefreshFallback));
        loading := false;
        return;
      }
      var newTotal := first.value.total;
      total := newTotal;
      var lastPage := CeilDiv(newTotal, pageSize);
      requests := requests + [Request(lastPage, pageSize)];
      awaiting := awaiting + [View()];
      var second := secondCall(lastPage, pageSize);
      if second.Failed? {
        error := Some(ErrorText(second.message, RefreshFallback));
        loading := false;
        return;
      }
      cache := cache[lastPage := second.value.data];
      page := lastPage;
      loading := false;
    }
  }
}
