/** The contract of the service layer (services/consents.ts) that the page
    store calls. The HTTP transport itself is not modelled: a service is a
    function from the request it is given to the reply it produces, either
    the endpoint's page body or a failure carrying the thrown error's
    message. */
module ConsentService {
  import opened ConsentTypes

  /** The JSON body of `GET /api/consents`. */
  datatype PageResponse = PageResponse(data: seq<Consent>, total: int, page: int, pageSize: int)

  /** The outcome of an awaited service call: the parsed body, or the
      rejection with its `message` ("" when the thrown value has none). */
  datatype Reply<T> = Ok(value: T) | Failed(message: string)

  /** One call `getConsents(page, pageSize)`. */
  datatype Request = Request(page: int, pageSize: int)

  /** What `getConsents` answers to each request. */
  type Service = (int, int) -> Reply<PageResponse>

  /** `getConsents` throws this message when the response status is not ok. */
  const StatusFailureMessage := "Failed to fetch consents"

  /** The reply `getConsents` produces from an HTTP exchange: a non-ok status
      becomes a failure with the fixed message, an ok one the parsed body. */
  function FromHttp(ok: bool, body: PageResponse): (r: Reply<PageResponse>)
    ensures r.Ok? <==> ok
    ensures r.Ok? ==> r.value == body
    ensures r.Failed? ==> r.message == StatusFailureMessage
  {
    if ok then Ok(body) else Failed(StatusFailureMessage)
  }
}
