/** Client code for the page store, one method per situation that the
    repository's tests of the context describe
    (__tests__/contexts/ConsentsContext.test.tsx), with the mocked service
    written as a function. Each method's postcondition is what that test
    observes; it follows from the store's contracts alone. */
module ContextScenarios {
  import opened Common
  import opened ConsentTypes
  import opened ConsentService
  import opened ConsentsContext
  import opened ConsentsPagination

  const John := Consent("John Doe", "john@example.com", ["Receive newsletter"])
  const Jane := Consent("Jane Smith", "jane@example.com", ["Receive newsletter"])
  const NewUser := Consent("New User", "new@example.com", ["Receive newsletter"])

  /** The rows the test component counts: `consentsCache[page] || []`. */
  function CurrentRows(s: Snapshot): (rows: seq<Consent>)
    ensures s.page !in s.cache ==> rows == []
  {
    DisplayRows(s, [])
  }

  /** A provider created on page 2 with that page cached and a total of 5
      shows page 2, its one row, the total, no loading and no error. */
  method InitializesWithProvidedData() returns (s: Snapshot)
    ensures s.page == 2 && s.total == 5 && |CurrentRows(s)| == 1
    ensures !s.loading && s.error == None
  {
    var store := new ConsentsProvider(2, map[2 := [John]], 5);
    s := store.View();
  }

  /** Moving to an uncached page 2 asks for `(2, 2)` and then shows it. */
  method FetchesNewPage() returns (requests: seq<Request>, s: Snapshot)
    ensures requests == [Request(2, 2)]
    ensures s.page == 2 && |CurrentRows(s)| == 1 && !s.loading
  {
    var store := new ConsentsProvider();
    var service := (p: int, ps: int) => Ok(PageResponse([John], 5, 2, 2));
    ghost var awaiting;
    requests, awaiting := store.FetchPage(2, service);
    s := store.View();
  }

  /** Moving to a cached page 2 asks for nothing and shows the cached rows. */
  method UsesCachedData() returns (requests: seq<Request>, s: Snapshot)
    ensures requests == []
    ensures s.page == 2 && |CurrentRows(s)| == 2
  {
    var store := new ConsentsProvider(initialData := map[2 := [John, Jane]], initialTotal := 5);
    var service := (p: int, ps: int) => Failed("unused");
    ghost var awaiting;
    requests, awaiting := store.FetchPage(2, service);
    s := store.View();
  }

  /** A rejected fetch records the message and ends loading; the page is
      not cached, so trying again is a miss that asks again. */
  method HandlesApiErrors() returns (s: Snapshot, retry: seq<Request>)
    ensures s.error == Some("API Error") && !s.loading && s.page == 1
    ensures retry == [Request(2, 2)]
  {
    var store := new ConsentsProvider();
    var service := (p: int, ps: int) => Failed("API Error");
    var requests, awaiting := store.FetchPage(2, service);
    s := store.View();
    retry, awaiting := store.FetchPage(2, service);
  }

  /** A rejection without a message falls back to the fixed text. */
  method EmptyMessageFallsBack() returns (s: Snapshot)
    ensures s.error == Some("Failed to fetch consents")
  {
    var store := new ConsentsProvider();
    var service := (p: int, ps: int) => Failed("");
    var requests, awaiting := store.FetchPage(2, service);
    s := store.View();
  }

  /** Refreshing when the service reports 6 records asks for `(1, 2)`, then
      `(3, 2)`, and lands on page 3 with its one row and the new total. */
  method RefreshesToLastPage() returns (requests: seq<Request>, s: Snapshot)
    ensures requests == [Request(1, 2), Request(3, 2)]
    ensures s.page == 3 && s.total == 6 && |CurrentRows(s)| == 1
  {
    var store := new ConsentsProvider(initialTotal := 5);
    var service := (p: int, ps: int) =>
      if p == 1 then Ok(PageResponse([], 6, 1, 2)) else Ok(PageResponse([NewUser], 6, 3, 2));
    CeilDivUnique(6, 2, 3);
    ghost var awaiting;
    requests, awaiting := store.RefreshAndGoToLastPage(service, service);
    s := store.View();
  }

  /** A refresh whose first request is rejected records the message, ends
      loading and asks for nothing more. */
  method HandlesRefreshErrors() returns (requests: seq<Request>, s: Snapshot)
    ensures requests == [Request(1, 2)]
    ensures s.error == Some("Refresh failed") && !s.loading
  {
    var store := new ConsentsProvider();
    var service := (p: int, ps: int) => Failed("Refresh failed");
    ghost var awaiting;
    requests, awaiting := store.RefreshAndGoToLastPage(service, service);
    s := store.View();
  }

  /** While the fetch is pending `loading` is true; once it settles it is
      false. */
  method MaintainsLoadingState() returns (ghost pending: Snapshot, s: Snapshot)
    ensures pending.loading && pending.error == None
    ensures !s.loading
  {
    var store := new ConsentsProvider();
    var service := (p: int, ps: int) => Ok(PageResponse([John], 5, 2, 2));
    var requests, awaiting := store.FetchPage(2, service);
    pending := awaiting[0];
    s := store.View();
  }

  /** With an empty collection the refresh's last page is `ceil(0 / 2)`,
      that is page 0: it is not clamped to 1. */
  method RefreshOnEmptyCollectionLandsOnPageZero() returns (requests: seq<Request>, s: Snapshot)
    ensures requests == [Request(1, 2), Request(0, 2)]
    ensures s.page == 0 && s.total == 0 && 0 in s.cache && s.cache[0] == []
  {
    var store := new ConsentsProvider();
    var service := (p: int, ps: int) => Ok(PageResponse([], 0, p, ps));
    ghost var awaiting;
    requests, awaiting := store.RefreshAndGoToLastPage(service, service);
    s := store.View();
  }

  /** A refresh whose second request is rejected, with a fresh total of 2:
      the last page is page 1 again, asked for a second time. The new total
      stays, the message is recorded, and the page and cache are left as
      they were. */
  method SecondRefreshCallFails() returns (requests: seq<Request>, s: Snapshot)
    ensures requests == [Request(1, 2), Request(1, 2)]
    ensures s.page == 2 && s.total == 2 && s.cache == map[2 := [John]]
    ensures s.error == Some("Network down") && !s.loading
  {
    var store := new ConsentsProvider(2, map[2 := [John]], 5);
    var first := (p: int, ps: int) => Ok(PageResponse([John, Jane], 2, 1, 2));
    var second := (p: int, ps: int) => Failed("Network down");
    CeilDivUnique(2, 2, 1);
    ghost var awaiting;
    requests, awaiting := store.RefreshAndGoToLastPage(first, second);
    s := store.View();
  }
}
