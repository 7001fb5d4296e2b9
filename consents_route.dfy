/** The in-memory collection endpoint (app/api/consents/route.ts).

    The module-level `consents` array becomes the field of one
    `ConsentsEndpoint` object. `GET` only reads it and is modelled by the
    function `HandleGet`; `POST` validates the body against the schema and
    appends it. JavaScript's `Array.prototype.slice` is written out with its
    negative-index rule, so `HandleGet` is total over every integer query. */
module ConsentsRoute {
  import opened Common
  import opened ConsentTypes
  import opened ConsentService

  const DefaultPage := 1
  const DefaultPageSize := 2

  /** The six records the server starts with. */
  const Seed: seq<Consent> := [
    Consent("Bojack Horseman", "bojack@horseman.com", ["Receive newsletter", "Be shown targeted ads"]),
    Consent("Princess Carolyn", "princess@manager.com", ["Receive newsletter"]),
    Consent("Diane Nguyen", "diane@writer.com", ["Receive newsletter", "Contribute to anonymous visit statistics"]),
    Consent("Mr. Peanutbutter", "mrpb@dog.com", ["Be shown targeted ads"]),
    Consent("Todd Chavez", "todd@chavez.com", ["Receive newsletter", "Be shown targeted ads"]),
    Consent("Sarah Lynn", "sarah@lynn.com", ["Contribute to anonymous visit statistics"])
  ]

  function Min(a: int, b: int): int {
    if a <= b then a else b
  }

  /** How `slice` resolves one bound against a length: a negative bound
      counts from the end (and stops at 0), a bound past the end stops at
      the end. */
  function SliceIndex(i: int, len: nat): (r: nat)
    ensures r <= len
    ensures 0 <= i <= len ==> r == i
    ensures i > len ==> r == len
    ensures i < 0 ==> r == if len + i < 0 then 0 else len + i
  {
    if i < 0 then (if len + i < 0 then 0 else len + i)
    else if i <= len then i
    else len
  }

  /** `s.slice(start, end)`. */
  function JsSlice<T>(s: seq<T>, start: int, end: int): (r: seq<T>)
    ensures |r| <= |s|
    ensures 0 <= start <= end ==> |r| <= end - start
    ensures 0 <= start <= end <= |s| ==> |r| == end - start
    ensures 0 <= start <= |s| && start <= end ==> |r| == Min(end, |s|) - start
    ensures 0 <= start && |s| <= start ==> r == []
    ensures 0 <= start ==> forall k :: 0 <= k < |r| ==> start + k < |s| && r[k] == s[start + k]
  {
    var lo, hi := SliceIndex(start, |s|), SliceIndex(end, |s|);
    if lo < hi then s[lo..hi] else []
  }

  /** The query string of a GET. `None` stands for a parameter that is
      absent or empty, which `get(..) || default` replaces by the default. */
  datatype Query = Query(page: Option<int>, pageSize: Option<int>)

  /** `GET /api/consents`: the requested page of the collection, the
      collection's length, and the page and page size it used. */
  function HandleGet(consents: seq<Consent>, q: Query): (r: PageResponse)
    ensures r.total == |consents|
    ensures r.page == q.page.GetOr(DefaultPage)
    ensures r.pageSize == q.pageSize.GetOr(DefaultPageSize)
    ensures |r.data| <= |consents|
  {
    var page := q.page.GetOr(DefaultPage);
    var pageSize := q.pageSize.GetOr(DefaultPageSize);
    var start := PageStart(page, pageSize);
    var end := start + pageSize;
    PageResponse(JsSlice(consents, start, end), |consents|, page, pageSize)
  }

  /** The rows of page `page` of size `pageSize`. */
  function PageRows(consents: seq<Consent>, page: int, pageSize: int): seq<Consent> {
    HandleGet(consents, Query(Some(page), Some(pageSize))).data
  }

  /** A slice from a non-negative start is the run of the sequence from
      there, cut at its end. */
  lemma SliceFrom<T>(s: seq<T>, lo: int, size: int)
    requires lo >= 0 && size >= 1
    ensures |s| <= lo ==> JsSlice(s, lo, lo + size) == []
    ensures lo < |s| ==> JsSlice(s, lo, lo + size) == s[lo..Min(lo + size, |s|)]
  {
  }

  /** Appending leaves a slice that ends inside the old sequence alone. */
  lemma SliceOfAppend<T>(s: seq<T>, x: T, lo: int, hi: int)
    requires 0 <= lo <= hi <= |s|
    ensures JsSlice(s + [x], lo, hi) == JsSlice(s, lo, hi)
  {
    assert (s + [x])[lo..hi] == s[lo..hi];
  }

  /** Appending extends a slice that reaches past the old end by the new
      element. */
  lemma SliceOfAppendAtEnd<T>(s: seq<T>, x: T, lo: int, hi: int)
    requires 0 <= lo <= |s| < hi
    ensures JsSlice(s + [x], lo, hi) == JsSlice(s, lo, hi) + [x]
  {
    assert (s + [x])[lo..|s| + 1] == s[lo..] + [x];
  }

  /** The first row of page `page` sits at index `(page - 1) * pageSize`. */
  function PageStart(page: int, pageSize: int): int {
    (page - 1) * pageSize
  }

  /** For a positive page and page size the rows are the contiguous run of
      the collection from `(page - 1) * pageSize` up to `page * pageSize`,
      cut at the end of the collection: empty past the end, and never more
      than `pageSize` rows. */
  lemma PageIsContiguousSlice(consents: seq<Consent>, page: int, pageSize: int)
    requires page >= 1 && pageSize >= 1
    ensures var lo := PageStart(page, pageSize);
            && lo >= 0
            && |PageRows(consents, page, pageSize)| <= pageSize
            && (lo >= |consents| ==> PageRows(consents, page, pageSize) == [])
            && (lo < |consents| ==>
                  PageRows(consents, page, pageSize) == consents[lo..Min(lo + pageSize, |consents|)])
  {
    MulMonotone(0, page - 1, pageSize);
    SliceFrom(consents, PageStart(page, pageSize), pageSize);
  }

  /** A GET without parameters serves the first two records. */
  lemma DefaultQueryIsFirstPage(consents: seq<Consent>)
    ensures HandleGet(consents, Query(None, None)) == HandleGet(consents, Query(Some(1), Some(2)))
    ensures HandleGet(consents, Query(None, None)).data == consents[..Min(2, |consents|)]
  {
    var rows := HandleGet(consents, Query(None, None)).data;
    assert |rows| == Min(2, |consents|);
    assert forall k :: 0 <= k < |rows| ==> rows[k] == consents[k];
  }

  /** Page 0 resolves to `slice(-pageSize, 0)`, which is always empty. */
  lemma PageZeroIsEmpty(consents: seq<Consent>, pageSize: int)
    requires pageSize >= 1
    ensures PageRows(consents, 0, pageSize) == []
  {
  }

  /** Pages 1 through `k`, concatenated in order. */
  function PagesUpTo(consents: seq<Consent>, pageSize: int, k: nat): seq<Consent>
    requires pageSize >= 1
  {
    if k == 0 then [] else PagesUpTo(consents, pageSize, k - 1) + PageRows(consents, k, pageSize)
  }

  /** The first `k` pages are the first `k * pageSize` records, in order. */
  lemma {:induction false} PagesUpToIsPrefix(consents: seq<Consent>, pageSize: int, k: nat)
    requires pageSize >= 1
    ensures k * pageSize >= 0
    ensures PagesUpTo(consents, pageSize, k) == consents[..Min(k * pageSize, |consents|)]
  {
    MulMonotone(0, k, pageSize);
    if k > 0 {
      PagesUpToIsPrefix(consents, pageSize, k - 1);
      PageIsContiguousSlice(consents, k, pageSize);
      var lo := PageStart(k, pageSize);
      assert k * pageSize == lo + pageSize;
      if lo < |consents| {
        assert consents[..lo] + consents[lo..Min(lo + pageSize, |consents|)]
            == consents[..Min(k * pageSize, |consents|)];
      }
    }
  }

  /** Walking pages 1 to `ceil(total / pageSize)` visits every record once,
      in insertion order: the page count the view shows covers the
      collection exactly. */
  lemma PagesCoverCollection(consents: seq<Consent>, pageSize: int)
    requires pageSize >= 1
    ensures PagesUpTo(consents, pageSize, CeilDiv(|consents|, pageSize)) == consents
  {
    PagesUpToIsPrefix(consents, pageSize, CeilDiv(|consents|, pageSize));
  }

  /** A page that lies wholly inside the collection is not changed by an
      append. */
  lemma AppendKeepsFullPage(consents: seq<Consent>, x: Consent, pageSize: int, page: int)
    requires pageSize >= 1 && page >= 1
    requires PageStart(page, pageSize) + pageSize <= |consents|
    ensures PageRows(consents + [x], page, pageSize) == PageRows(consents, page, pageSize)
  {
    MulMonotone(0, page - 1, pageSize);
    var lo := PageStart(page, pageSize);
    SliceOfAppend(consents, x, lo, lo + pageSize);
  }

  /** The page whose range contains index `|consents|` gains the appended
      record as its last row. */
  lemma AppendOntoPage(consents: seq<Consent>, x: Consent, pageSize: int, page: int)
    requires pageSize >= 1 && page >= 1
    requires PageStart(page, pageSize) <= |consents| < PageStart(page, pageSize) + pageSize
    ensures PageRows(consents + [x], page, pageSize) == PageRows(consents, page, pageSize) + [x]
  {
    MulMonotone(0, page - 1, pageSize);
    var lo := PageStart(page, pageSize);
    SliceOfAppendAtEnd(consents, x, lo, lo + pageSize);
  }

  /** Appending a record leaves every page before the landing page
      `ceil((n + 1) / pageSize)` as it was: those pages are full and lie
      wholly inside the old collection. */
  lemma AppendKeepsEarlierPages(consents: seq<Consent>, x: Consent, pageSize: int, page: int)
    requires pageSize >= 1
    requires 1 <= page < CeilDiv(|consents| + 1, pageSize)
    ensures PageRows(consents + [x], page, pageSize) == PageRows(consents, page, pageSize)
  {
    var landing := CeilDiv(|consents| + 1, pageSize);
    assert PageStart(page, pageSize) + pageSize <= |consents| by {
      MulMonotone(page, landing - 1, pageSize);
      NextPageStart(page, pageSize);
    }
    AppendKeepsFullPage(consents, x, pageSize, page);
  }

  /** Page `page + 1` starts where page `page` ends. */
  lemma NextPageStart(page: int, pageSize: int)
    ensures page * pageSize == PageStart(page, pageSize) + pageSize
  {
  }

  /** After an append onto `n` records, page `ceil((n + 1) / pageSize)` holds
      exactly what it held before followed by the new record, so the new
      record is that page's last row, and any copy of that page taken before
      the append is stale. */
  lemma AppendLandsOnLastPage(consents: seq<Consent>, x: Consent, pageSize: int)
    requires pageSize >= 1
    ensures var landing := CeilDiv(|consents| + 1, pageSize);
            && landing >= 1
            && PageRows(consents + [x], landing, pageSize) == PageRows(consents, landing, pageSize) + [x]
  {
    var landing := CeilDiv(|consents| + 1, pageSize);
    assert PageStart(landing, pageSize) <= |consents| < PageStart(landing, pageSize) + pageSize by {
      NextPageStart(landing, pageSize);
    }
    AppendOntoPage(consents, x, pageSize, landing);
  }

  /** The response of a POST: the stored record with status 201, or status
      400 with the field and message of each failed schema rule. */
  datatype PostResponse = Created(consent: Consent) | Invalid(error: string, details: seq<Detail>) {
    function Status(): int {
      if Created? then 201 else 400
    }
  }

  const InvalidInput := "Invalid input"

  /** The module-level collection and the two handlers that use it. */
  class ConsentsEndpoint {
    var consents: seq<Consent>
    /** The schema's email check, whose internals are not modelled. */
    const isEmail: string -> bool

    /** A fresh server process starts from the seed records. */
    constructor (isEmail: string -> bool)
      ensures consents == Seed && this.isEmail == isEmail
    {
      consents := Seed;
      this.isEmail := isEmail;
    }

    /** `GET`: reads the collection and changes nothing. */
    method Get(q: Query) returns (r: PageResponse)
      ensures r == HandleGet(consents, q)
    {
      r := HandleGet(consents, q);
    }

    /** `POST`: an invalid body is answered with 400 and the collection is
        left alone; a valid one is pushed at the end and echoed with 201. */
    method Post(body: Consent) returns (r: PostResponse)
      modifies this
      ensures r.Created? <==> ValidConsent(body, isEmail)
      ensures r.Created? ==> r.consent == body && r.Status() == 201
      ensures r.Invalid? ==> r == Invalid(InvalidInput, Reports(Issues(body, isEmail))) && r.Status() == 400
      ensures consents == if r.Created? then old(consents) + [body] else old(consents)
    {
      var result := SafeParse(body, isEmail);
      if result.Rejected? {
        return Invalid(InvalidInput, Reports(result.issues));
      }
      var consent := result.data;
      consents := consents + [consent];
      r := Created(consent);
    }
  }

  /** One of the seed records ("Mr. Peanutbutter") would itself be refused
      by the POST schema: the seed is never validated. */
  lemma SeedHoldsRecordSchemaRefuses(isEmail: string -> bool)
    ensures exists i :: 0 <= i < |Seed| && !ValidConsent(Seed[i], isEmail)
  {
    PeanutbutterRefused();
    assert !ValidConsent(Seed[3], isEmail);
  }
}
