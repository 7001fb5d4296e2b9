/** How the page store and the collection endpoint fit together when the
    store's service is the endpoint's GET: a page cache filled from the
    endpoint stays a faithful copy of the collection's pages, an append
    makes exactly one cached page stale (the landing page), and
    `RefreshAndGoToLastPage` asks for exactly that page and overwrites it. */
module Landing {
  import opened Common
  import opened ConsentTypes
  import opened ConsentService
  import opened ConsentsRoute
  import opened ConsentsContext

  /** The service as the endpoint answers it: `GET` always has an ok
      status, and its body is the reply. */
  function EndpointService(consents: seq<Consent>): Service {
    (page: int, pageSize: int) => Ok(HandleGet(consents, Query(Some(page), Some(pageSize))))
  }

  /** That service is what `getConsents` makes of the endpoint's answer:
      GET's status is always ok, so the reply is its body. */
  lemma EndpointServiceIsHttpReply(consents: seq<Consent>, page: int, pageSize: int)
    ensures EndpointService(consents)(page, pageSize)
            == FromHttp(true, HandleGet(consents, Query(Some(page), Some(pageSize))))
  {
  }

  /** Every cached page holds what the endpoint would now serve for it.
      Cached page numbers are never negative (a negative page would count
      from the end of the collection). */
  ghost predicate Coherent(cache: PageCache, consents: seq<Consent>, pageSize: int) {
    forall p :: p in cache ==> p >= 0 && cache[p] == PageRows(consents, p, pageSize)
  }

  /** After an append onto `n` records, a refresh against the endpoint
      learns the total `n + 1`, asks for page `ceil((n + 1) / pageSize)`,
      and receives that page's old rows followed by the new record. */
  lemma RefreshFindsAppendedRecord(consents: seq<Consent>, x: Consent, pageSize: int)
    requires pageSize >= 1
    ensures var service := EndpointService(consents + [x]);
            var first := service(1, pageSize);
            && first.Ok? && first.value.total == |consents| + 1
            && var lastPage := CeilDiv(first.value.total, pageSize);
               && lastPage >= 1
               && service(lastPage, pageSize).Ok?
               && service(lastPage, pageSize).value.data == PageRows(consents, lastPage, pageSize) + [x]
  {
    AppendLandsOnLastPage(consents, x, pageSize);
  }

  /** Page 0 and every page past the landing page are empty, both before
      and after an append. */
  lemma PagePastLandingEmpty(consents: seq<Consent>, x: Consent, pageSize: int, page: int)
    requires pageSize >= 1
    requires page == 0 || page > CeilDiv(|consents| + 1, pageSize)
    ensures PageRows(consents, page, pageSize) == []
    ensures PageRows(consents + [x], page, pageSize) == []
  {
    if page > 0 {
      var landing := CeilDiv(|consents| + 1, pageSize);
      assert PageStart(page, pageSize) >= |consents| + 1 by {
        MulMonotone(landing, page - 1, pageSize);
      }
      PageIsContiguousSlice(consents, page, pageSize);
      PageIsContiguousSlice(consents + [x], page, pageSize);
    }
  }

  /** An append followed by overwriting the landing page's slot with its
      fresh rows turns a cache coherent with the old collection into one
      coherent with the new collection: only the landing page needed it. */
  lemma RefreshRestoresCoherence(cache: PageCache, consents: seq<Consent>, x: Consent, pageSize: int)
    requires pageSize >= 1
    requires Coherent(cache, consents, pageSize)
    ensures var landing := CeilDiv(|consents| + 1, pageSize);
            Coherent(cache[landing := PageRows(consents + [x], landing, pageSize)], consents + [x], pageSize)
  {
    var landing := CeilDiv(|consents| + 1, pageSize);
    var cache' := cache[landing := PageRows(consents + [x], landing, pageSize)];
    forall p | p in cache'
      ensures p >= 0 && cache'[p] == PageRows(consents + [x], p, pageSize)
    {
      if p != landing {
        if 1 <= p < landing {
          AppendKeepsEarlierPages(consents, x, pageSize, p);
        } else {
          PagePastLandingEmpty(consents, x, pageSize, p);
        }
      }
    }
  }

  /** Without the overwrite the cache goes stale: whenever the landing
      page is cached, a cache coherent with the collection is no longer
      coherent once a record has been appended, and a cache hit would keep
      serving the landing page without the new record. */
  lemma AppendLeavesCachedLandingPageStale(cache: PageCache, consents: seq<Consent>, x: Consent, pageSize: int)
    requires pageSize >= 1
    requires Coherent(cache, consents, pageSize)
    requires CeilDiv(|consents| + 1, pageSize) in cache
    ensures !Coherent(cache, consents + [x], pageSize)
  {
    var landing := CeilDiv(|consents| + 1, pageSize);
    AppendLandsOnLastPage(consents, x, pageSize);
    assert |PageRows(consents + [x], landing, pageSize)| == |cache[landing]| + 1;
  }

  /** Filling a slot from the endpoint keeps a coherent cache coherent. */
  lemma FetchKeepsCoherence(cache: PageCache, consents: seq<Consent>, pageSize: int, page: int)
    requires Coherent(cache, consents, pageSize)
    requires page >= 0
    ensures Coherent(cache[page := PageRows(consents, page, pageSize)], consents, pageSize)
  {
  }

  /** Submitting a valid record and then refreshing, with the endpoint as
      the service: the store lands on the page `ceil((n + 1) / 2)`, shows
      that page with the new record last, knows the new total, and its cache
      stays coherent with the collection. An invalid record is refused and
      nothing changes. */
  method SubmitAndRefresh(api: ConsentsEndpoint, store: ConsentsProvider, body: Consent)
    returns (response: PostResponse)
    requires Coherent(store.cache, api.consents, store.pageSize)
    modifies api, store
    ensures Coherent(store.cache, api.consents, store.pageSize)
    ensures response.Created? <==> ValidConsent(body, api.isEmail)
    ensures response.Invalid? ==> api.consents == old(api.consents) && store.View() == old(store.View())
    ensures response.Created? ==>
              && api.consents == old(api.consents) + [body]
              && store.page == CeilDiv(|old(api.consents)| + 1, store.pageSize)
              && store.total == |api.consents|
              && store.page in store.cache
              && store.cache[store.page] == PageRows(old(api.consents), store.page, store.pageSize) + [body]
              && !store.loading && store.error == None
              && old(store.cache).Keys <= store.cache.Keys
              && AgreeExcept(old(store.cache), store.cache, store.page)
  {
    response := api.Post(body);
    if response.Invalid? {
      return;
    }
    ghost var before := old(api.consents);
    RefreshFindsAppendedRecord(before, body, store.pageSize);
    RefreshRestoresCoherence(store.cache, before, body, store.pageSize);
    var service := EndpointService(api.consents);
    var requests, awaiting := store.RefreshAndGoToLastPage(service, service);
  }
}
