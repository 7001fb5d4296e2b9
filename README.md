# Consent manager: page-cache store and collection endpoint, in Dafny

This project models the core of a small consent-management web application.
Users give consent through a form (a name, an email and the chosen consent
options). The application lists the collected consents in a paginated table.

The model covers five parts of the application:

- **The page store** (`ConsentsContext.ConsentsProvider`, file
  `consents_context.dfy`). It holds the current page, the page size (fixed at
  2), a cache from page number to rows, the total, a loading flag and an
  optional error. It has two operations:
  - `FetchPage` is cache-first.
  - `RefreshAndGoToLastPage` asks page 1 for the fresh total, then fetches page
    `ceil(total / 2)` and overwrites that cache slot.

  The HTTP service the store awaits is a parameter: a function from the request
  `(page, pageSize)` to the reply. The refresh takes one such function per
  call, so its two calls may get different replies even when they ask for the
  same page. Each method returns the requests it made.
  It also returns, as a ghost, the state rendered while each request was
  pending.
- **The collection endpoint** (`ConsentsRoute`, file `consents_route.dfy`).
  The module-level array is the `consents` field of a `ConsentsEndpoint`
  object, which starts from the six seed records.
  - `GET` is the pure function `HandleGet`. It uses JavaScript's `slice`,
    written out with its negative-index rule.
  - `POST` validates the body and appends it.
- **The record schema** (`ConsentTypes`, file `consent_types.dfy`). It checks
  three field rules and lists the issues it finds. The library's email check is
  a parameter `isEmail`.
- **The consent form** (`ConsentForm`, file `give_consent_form.dfy`). It covers
  the checkbox toggle over the ordered selection and the submit-button rule.
  Its submission posts the form's fields to the endpoint object.
- **The paginated list** (`ConsentsPagination`, file `consents_list.dfy`). It
  covers the page count and the "cached rows, else remembered rows" display
  rule. The remembered rows are a mutable field standing for the ref. It also
  covers the two effects and page changes routed through `FetchPage`.

`landing.dfy` connects the store to the endpoint. A cache is coherent with
the collection when every cached page number is non-negative and the page
holds what GET would now serve. Among the non-negative page numbers, an
append makes exactly one page stale: the landing page `ceil((n + 1) /
pageSize)`. That is the page the refresh asks for and overwrites, so a
coherent cache stays coherent. Negative page numbers count from the end of
the collection, so their rows shift with every append. That is why the
coherence rule excludes them.

`context_scenarios.dfy` replays the situations of the store's test file as
verified client code.

`common.dfy` holds `Option` and `CeilDiv`. `CeilDiv` is `Math.ceil(a / b)` on
integers. `consent_service.dfy` holds the service contract.

## Model

| member | source | states |
|---|---|---|
| Common.CeilDiv | contexts/ConsentsContext.tsx:145 | `Math.ceil(a / b)` for a positive divisor is the integer `r` with `(r-1)*b < a <= r*b`. It is 0 for `a = 0` and at least 1 for positive `a`. |
| Common.CeilDivUnique | components/ConsentsListWithPagination.tsx:37 | Any `p` with `(p-1)*b < a <= p*b` equals the ceiling. |
| ConsentTypes.IsJsWhitespace | types/consents.ts:7 | The regex class `\s` holds space, tab and line feed (and the other JavaScript whitespace code points) and never a letter. |
| ConsentTypes.AllNameChars | types/consents.ts:7 | `[A-Za-z\s]*` matches a string iff every character is a letter or whitespace. |
| ConsentTypes.MatchesNamePattern | types/consents.ts:7 | `/^[A-Za-z\s]+$/` matches iff the string is non-empty and every character is a letter or whitespace. |
| ConsentTypes.NameValid | types/consents.ts:6-7 | The name rule (`min(1)` then the pattern) holds iff the pattern matches: the minimum length adds nothing beyond the pattern's `+`. |
| ConsentTypes.ValidConsent | types/consents.ts:3-12 | The schema accepts a record iff the name is non-empty letters and whitespace, the email check accepts the email, and at least one consent is given. |
| ConsentTypes.MessagesIdentifyIssues | types/consents.ts:6-11 | The four rule messages are pairwise different, so each message names its rule. |
| ConsentTypes.Reports | app/api/consents/route.ts:79-83 | A rejection's details have one entry per failed rule, in order, each holding the rule's field and message. |
| ConsentTypes.ReportsIdentifyIssues | app/api/consents/route.ts:79-83 | The details determine the failed rules: equal details mean equal issue lists. |
| ConsentTypes.Issues | types/consents.ts:3-12 | Each issue is present iff its rule fails. An empty name fails both the length rule and the pattern. The issue list is empty iff the record is valid. |
| ConsentTypes.SafeParse | types/consents.ts:3-12 | Parsing succeeds iff the record satisfies all three rules, and then returns the record unchanged. Otherwise it returns the non-empty issue list. |
| ConsentTypes.WhitespaceNameAccepted | types/consents.ts:7 | Every non-empty whitespace-only name passes the name rule. |
| ConsentTypes.PunctuatedNameRefused | types/consents.ts:7 | Every name with a character that is neither a letter nor whitespace, at any position, fails the name rule. |
| ConsentTypes.PeanutbutterRefused | app/api/consents/route.ts:32 | The seed name "Mr. Peanutbutter" fails the name rule. |
| ConsentService.FromHttp | services/consents.ts:28-30 | A non-ok status becomes a failure with the fixed message. An ok status yields the body. |
| ConsentsRoute.SliceIndex | app/api/consents/route.ts:60 | A slice bound resolves within `[0, len]`. A negative bound counts from the end. |
| ConsentsRoute.JsSlice | app/api/consents/route.ts:60 | From a non-negative start, the slice is the contiguous run of the input from there. It is at most `end - start` long and empty past the end. From a start within the input it is exactly `min(end, n) - start` long. |
| ConsentsRoute.HandleGet | app/api/consents/route.ts:54-67 | The response's total is the collection's length whatever the page. Page and page size are echoed, with defaults 1 and 2. |
| ConsentsRoute.PageIsContiguousSlice | app/api/consents/route.ts:58-60 | For page >= 1 and pageSize >= 1, the rows are `consents[(page-1)*pageSize .. min(page*pageSize, n)]`. They are empty past the end and never more than pageSize. |
| ConsentsRoute.DefaultQueryIsFirstPage | app/api/consents/route.ts:56-57 | Absent parameters mean page 1 with page size 2, which serves the first two records. |
| ConsentsRoute.PageZeroIsEmpty | app/api/consents/route.ts:58-60 | Page 0 is `slice(-pageSize, 0)`, which is empty. |
| ConsentsRoute.PagesUpToIsPrefix | app/api/consents/route.ts:58-60 | Pages 1..k concatenated are the first `k*pageSize` records in insertion order. |
| ConsentsRoute.PagesCoverCollection | app/api/consents/route.ts:58-63 | Pages 1..ceil(n/pageSize) concatenated are exactly the collection. |
| ConsentsRoute.AppendKeepsFullPage | app/api/consents/route.ts:86 | An append leaves a page that lies wholly inside the old collection unchanged. |
| ConsentsRoute.AppendOntoPage | app/api/consents/route.ts:86 | The page whose range holds index n gains the appended record as its last row. |
| ConsentsRoute.AppendKeepsEarlierPages | app/api/consents/route.ts:86 | Every page before the landing page `ceil((n+1)/pageSize)` is unchanged by an append. |
| ConsentsRoute.AppendLandsOnLastPage | app/api/consents/route.ts:86 | After an append onto n records, page `ceil((n+1)/pageSize)` (at least 1) holds its old rows followed by the new record. |
| ConsentsRoute.ConsentsEndpoint.constructor | app/api/consents/route.ts:12-46 | The collection starts as the six seed records. |
| ConsentsRoute.ConsentsEndpoint.Get | app/api/consents/route.ts:54-67 | GET answers `HandleGet` of the current collection and modifies nothing. |
| ConsentsRoute.ConsentsEndpoint.Post | app/api/consents/route.ts:75-88 | An invalid body gets status 400 with "Invalid input" and the field and message of each failed rule, and the collection is unchanged. A valid body is appended at the end and echoed with status 201. |
| ConsentsRoute.SeedHoldsRecordSchemaRefuses | app/api/consents/route.ts:31-35 | One seed record would itself be refused by POST's schema. |
| ConsentsContext.ErrorText | contexts/ConsentsContext.tsx:111 | `err.message \|\| fallback`: the message when it is non-empty. With a non-empty fallback the result is never empty. |
| ConsentsContext.ConsentsProvider.constructor | contexts/ConsentsContext.tsx:59-80 | The initial state is page = initialPage (default 1), cache = initialData, total = initialTotal, not loading, no error, page size 2. |
| ConsentsContext.ConsentsProvider.FetchPage | contexts/ConsentsContext.tsx:94-117 | **Hit** (even an empty cached page): only the page changes, with no request. **Miss**: one request `(target, 2)`, made while loading is true and error is cleared. On success the slot is filled with the total and page taken. On failure the error is the message or the fallback, while cache, page and total stay and the page stays uncached. Loading ends false. Other slots are never touched. |
| ConsentsContext.ConsentsProvider.RefreshAndGoToLastPage | contexts/ConsentsContext.tsx:136-156 | Each of the two calls has its own reply, even when both ask for `(1, 2)`. The requests are `(1, 2)` and then `(ceil(newTotal/2), 2)`, the latter not clamped. **Success**: the total, the page and an overwritten slot for the last page. **First call fails**: only the error changes. **Second call fails**: the new total stays with the error. Loading ends false. |
| ConsentForm.Deselect | components/GiveConsentForm.tsx:18 | The filter removes every occurrence of the option and keeps every other entry's count. |
| ConsentForm.DeselectKeepsOrder | components/GiveConsentForm.tsx:18 | The filter distributes over concatenation, so the remaining entries keep their relative order. |
| ConsentForm.DeselectAbsent | components/GiveConsentForm.tsx:18 | Filtering an absent option is the identity. |
| ConsentForm.Toggle | components/GiveConsentForm.tsx:15-21 | The option's membership flips and other entries are untouched. An unselected option is appended at the end. |
| ConsentForm.ToggleKeepsDistinct | components/GiveConsentForm.tsx:15-21 | Toggling keeps a repeat-free selection repeat-free. |
| ConsentForm.ToggleTwiceRestoresUnselected | components/GiveConsentForm.tsx:15-21 | Checking then unchecking an unselected option restores the list exactly. |
| ConsentForm.ToggleTwiceRestoresSelection | components/GiveConsentForm.tsx:15-21 | For a repeat-free selection, toggling twice restores the same multiset. |
| ConsentForm.ToggleTwiceMayReorder | components/GiveConsentForm.tsx:15-21 | In a repeat-free selection, unchecking then rechecking the option at position i moves it from there to the end. The list changes unless it was already last. |
| ConsentForm.FormValid | components/GiveConsentForm.tsx:35 | `isValid` (non-empty name, email and selection) implies the schema's consent rule. |
| ConsentForm.SubmitDisabled | components/GiveConsentForm.tsx:90 | The button is disabled whenever a submission is under way, and whenever the form is not valid. |
| ConsentForm.SubmitEnabledIff | components/GiveConsentForm.tsx:90 | The button is enabled iff name, email and selection are non-empty (`isValid`) and nothing is being submitted. |
| ConsentForm.SchemaValidIsFormValid | components/GiveConsentForm.tsx:35 | A record the schema accepts satisfies `isValid`, given that the email check refuses "". |
| ConsentForm.FormValidSchemaMayRefuse | components/GiveConsentForm.tsx:35 | `isValid` does not check the name pattern, so the form can submit a record the endpoint refuses. |
| ConsentForm.GiveConsentForm.constructor | components/GiveConsentForm.tsx:10-13 | The form starts with empty name, email and selection, not submitting, and with the button disabled. |
| ConsentForm.GiveConsentForm.SetName | components/GiveConsentForm.tsx:53 | Typing a name changes only the name. |
| ConsentForm.GiveConsentForm.SetEmail | components/GiveConsentForm.tsx:61 | Typing an email changes only the email. |
| ConsentForm.GiveConsentForm.HandleCheckbox | components/GiveConsentForm.tsx:15-21 | The selection becomes its toggle and nothing else changes. |
| ConsentForm.GiveConsentForm.HandleSubmit | components/GiveConsentForm.tsx:23-33 | It sends `{name, email, consentGivenFor}` in selection order, with the button disabled while the request is pending. Once delivered, submitting is cleared and `onSuccess` is called whatever the status. The endpoint appends iff the record is valid. If the request rejects, submitting stays true and `onSuccess` is not called. The fields are never cleared. |
| ConsentsPagination.PageCount | components/ConsentsListWithPagination.tsx:37 | The page count is 0 for total 0. Otherwise it is the least r with `total <= r*pageSize`. |
| ConsentsPagination.PageCountExamples | components/ConsentsListWithPagination.tsx:37 | Totals 0, 5 and 6 with two rows per page give 0, 3 and 3 pages. |
| ConsentsPagination.ShowInitialLoading | components/ConsentsListWithPagination.tsx:38-39 | The full-size spinner shows only while loading and only when the current page is uncached, so it never hides cached rows. |
| ConsentsPagination.DisplayRows | components/ConsentsListWithPagination.tsx:24 | The table shows the cached rows of the current page if cached (even empty), else the remembered rows. |
| ConsentsPagination.ConsentsListWithPagination.constructor | components/ConsentsListWithPagination.tsx:23 | The ref starts as the current page's cached rows, or empty. |
| ConsentsPagination.ConsentsListWithPagination.RememberShownRows | components/ConsentsListWithPagination.tsx:25-29 | The ref is replaced only when the current page is cached, and the shown rows do not change. |
| ConsentsPagination.ConsentsListWithPagination.FetchIfMissing | components/ConsentsListWithPagination.tsx:31-39 | A fetch of the current page is requested iff it is uncached. While it is pending, the shown rows stay and the initial spinner shows iff the page is 1. **Success**: the page is cached with the reply's rows and total. **Failure**: only loading and error change. A cached page leaves the store unchanged. |
| ConsentsPagination.ConsentsListWithPagination.OnPageChange | components/ConsentsListWithPagination.tsx:60 | A page change is `FetchPage`. **Hit**: only the store's page changes, with no request, and its cached rows are shown. **Miss**: the old rows stay while pending. On success the store takes the page, its rows and the total, and shows them. On failure only loading and error change, and the old rows stay. |
| Landing.EndpointServiceIsHttpReply | services/consents.ts:28-30 | The endpoint's GET always has an ok status, so the service's reply is the body `HandleGet` builds. |
| Landing.RefreshFindsAppendedRecord | contexts/ConsentsContext.tsx:141-146 | Against the endpoint after an append onto n records, the refresh learns total n+1. It asks for page `ceil((n+1)/pageSize)` and receives that page's old rows plus the new record. |
| Landing.PagePastLandingEmpty | app/api/consents/route.ts:58-60 | Page 0 and pages past the landing page are empty before and after the append. |
| Landing.RefreshRestoresCoherence | contexts/ConsentsContext.tsx:149 | Take a cache coherent with the collection, append a record and overwrite the landing slot. The cache is then coherent with the new collection. |
| Landing.AppendLeavesCachedLandingPageStale | contexts/ConsentsContext.tsx:97-100 | Without that overwrite, any coherent cache that holds the landing page is no longer coherent after an append. A cache hit would keep serving that page without the new record. |
| Landing.FetchKeepsCoherence | contexts/ConsentsContext.tsx:107 | Filling a slot from the endpoint keeps a coherent cache coherent. |
| Landing.SubmitAndRefresh | contexts/ConsentsContext.tsx:136-156 | A valid POST followed by a refresh lands on `ceil((n+1)/2)`. That page shows the new record last, with the new total and a coherent cache. Every other cached page keeps its slot and rows. An invalid POST changes nothing. |
| ContextScenarios.InitializesWithProvidedData | __tests__/contexts/ConsentsContext.test.tsx:49-65 | The seeded page, total and rows are shown, with no loading and no error. |
| ContextScenarios.FetchesNewPage | __tests__/contexts/ConsentsContext.test.tsx:67-89 | An uncached page 2 is requested as `(2, 2)` and then shown. |
| ContextScenarios.UsesCachedData | __tests__/contexts/ConsentsContext.test.tsx:91-117 | A cached page 2 is shown with no request. |
| ContextScenarios.HandlesApiErrors | __tests__/contexts/ConsentsContext.test.tsx:119-138 | A rejection records its message and ends loading. A retry is again a miss. |
| ContextScenarios.EmptyMessageFallsBack | contexts/ConsentsContext.tsx:111 | A rejection without a message records "Failed to fetch consents". |
| ContextScenarios.RefreshesToLastPage | __tests__/contexts/ConsentsContext.test.tsx:140-175 | Requests `(1, 2)` then `(3, 2)`, and lands on page 3 with total 6 and one row. |
| ContextScenarios.HandlesRefreshErrors | __tests__/contexts/ConsentsContext.test.tsx:177-198 | A first-call rejection records its message, ends loading and makes no second request. |
| ContextScenarios.MaintainsLoadingState | __tests__/contexts/ConsentsContext.test.tsx:200-238 | Loading is true while the fetch is pending and false after. |
| ContextScenarios.SecondRefreshCallFails | contexts/ConsentsContext.tsx:141-154 | With a fresh total of 2, page `(1, 2)` is asked for twice. If the second call rejects, the new total stays and the error is recorded, while page and cache are left as they were. |
| ContextScenarios.RefreshOnEmptyCollectionLandsOnPageZero | contexts/ConsentsContext.tsx:145 | With total 0 the refresh asks for page 0 and lands on page 0, which is cached as empty. |

## Left out

- Concurrency: the model does not cover interleaved requests or stale closures.
  Each store operation runs to completion before the next starts. The source
  has no guard against a slower, earlier request overwriting a later one's
  state, and the model does not invent one. The store's callbacks close over
  the cache of the render that created them, which is not modelled either.
- When effects run: React re-runs an effect only when its dependencies change.
  The model runs the effects as methods called after a render.
- Query parsing: `parseInt` of a malformed value (NaN) and trailing garbage
  are not modelled. A query parameter is either an integer or absent, and an
  empty parameter counts as absent. Page and page size may be any integers,
  and the slice follows JavaScript's rule for negative bounds.
- JSON bodies: the model does not cover POST bodies that are not JSON (the
  handler would throw) or fields of the wrong type. The schema's stripping of
  unknown keys is also left out, because the body is modelled as a record.
- Rejection details: each entry holds the field name and the message. Zod's
  issue code and its array-valued path are not modelled.
- Email syntax: the email rule is the parameter `isEmail`, because the
  library's check is not part of this model.
- Numbers: JavaScript numbers are modelled as unbounded integers. Fractional
  totals or pages cannot arise from the endpoint.
- HTTP transport: `fetch`, status codes and JSON decoding between service and
  endpoint are not modelled. The service is a function. `FromHttp` states
  only the status rule of `getConsents`. `addConsent` is not used by the
  modelled code and is left out.
- Rendering and navigation: the table, sidebar, tabs, `hashchange` listener,
  styling and build configuration are not modelled. So are `preventDefault`,
  the `onSuccess` callback's effect (a tab switch), and the error thrown by
  `useConsentsContext` outside a provider.
- Some test expectations describe behaviour the code does not implement:
  the form test mocks a service the form does not call, and the table test
  expects a hidden column on mobile. These are not modelled.

## Behaviour of the code worth noting

- The refresh's last page is not clamped to at least 1. A total of 0 lands
  on page 0 (`ContextScenarios.RefreshOnEmptyCollectionLandsOnPageZero`).
- The form calls `onSuccess` whatever the response status, a 400 included
  (`ConsentForm.GiveConsentForm.HandleSubmit`). Its `isValid` does not
  check the name pattern, so the endpoint can answer 400
  (`ConsentForm.FormValidSchemaMayRefuse`).
- No modelled code calls `refreshAndGoToLastPage` after a post. The
  comments at contexts/ConsentsContext.tsx:122-125 give its purpose: the user
  expects to see their new consent. `Landing.SubmitAndRefresh` composes the
  post and the refresh to state that purpose.
- The provider's initial page may be uncached. Every other page the store
  shows is cached. `ConsentsProvider.Backed` states this invariant: the
  current page is cached or is the initial page.
