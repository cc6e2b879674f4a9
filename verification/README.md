# GHL config exporter: token cache and `listAll` pagination

This project models the decision logic of `export-ghl.js`, the script that exports
LeadConnector (GoHighLevel) configuration through the REST API. Two pieces are modelled:

- **Credential state.** The script picks an auth mode at start-up: `static` when
  `OAUTH_ACCESS_TOKEN` is set and non-empty, `oauth` otherwise. It keeps a cached bearer token and an
  `expiresAt` instant in milliseconds. `accessToken()` serves the configured token, serves the
  cache, or performs one OAuth refresh-token grant (section 6 of RFC 6749). The model covers
  only the handling of the grant's reply: the status check, the `access_token` presence check,
  and the expiry arithmetic, `expires_in` seconds (section 5.1 of RFC 6749) minus a 60 s buffer.
- **Pagination.** `listAll(path, params, arrayKey)` calls `apiGet` repeatedly, threading
  `nextPageToken`. It concatenates each page's `arrayKey` array and stops at the first page
  without a truthy cursor. `apiGet` returns the body on a 2xx status and throws otherwise.

The network is an input. The token endpoint's answer is a `TokenReply`. The clock reading at
which that answer is handled (the second `Date.now()`) is the reply's `arrivedAt`. The list
endpoint is a finite sequence of `Response`s, one per request, in order. A run that needs more
replies than it was given ends in `OutOfReplies`; against a real server the loop is unbounded.
`Date.now()` at the cache check is the parameter `now`.

Modules:

- `Wrappers`: `Option` and `Result`.
- `Json`: parsed JSON values, JavaScript truthiness, and property reads (`v[key]`).
- `TokenCache`: `authMode`, `cached` and `expiresAt`, the reply half of `refreshOAuth`, and
  `accessToken`. Also a replay of sequential `accessToken` calls.
- `Http`: the `Authorization: Bearer <token>` header the request interceptor attaches, and
  `apiGet`'s status check.
- `Pagination`: `listAll` over a finite reply list, with a page-by-page reference description
  (`StopCount`, `Gathered`) and the lemmas that connect the two.
- `Client`: the interceptor composed with `apiGet` and `listAll`. Every page request first asks
  `accessToken` for a token, so an authenticated `listAll` threads the token state.

Behaviour of the code worth knowing when reading the model:

- The code does not raise a missing or zero `expires_in` to a minimum lifetime. It stores
  `arrivedAt − 60000`, so the token is already expired when the reply is handled, and the
  next call refreshes again (`ShortLifetimeRefreshesAgain`).
- There is no retry/backoff, no forced refresh on 401, no single-flight refresh, no fallback
  array-key detection and no page/limit pagination in `export-ghl.js`, so none are modelled.
- The cache check is `now < expiresAt`. The 60 s buffer is subtracted when the expiry is
  stored, not when it is compared.

## Model

| member | source | states |
|---|---|---|
| TokenCache.Init | export-ghl.js:26-35 | static mode exactly when an access token is configured; the cache holds that token in static mode and nothing in OAuth mode; `expiresAt` starts at 0; the state is valid |
| TokenCache.LifetimeMs | export-ghl.js:64 | the lifetime in ms is `expires_in`·1000, and 0 when `expires_in` is absent |
| TokenCache.Refresh | export-ghl.js:58-70 | the refresh succeeds iff the status is in [200,300) and `access_token` is present and non-empty; a bad status is reported first, with the status; on success the token is the reply's and the expiry is arrival time + `expires_in`·1000 − 60000, with an absent `expires_in` counting as 0 |
| TokenCache.AccessToken | export-ghl.js:73-79 | static mode returns the configured token, changes nothing and never refreshes; OAuth mode with a non-empty cache and `now < expiresAt` returns the cache unchanged; otherwise exactly one refresh, after which the cache and expiry are the grant's on success and untouched on failure; validity is preserved and a returned token is never empty |
| TokenCache.StaticSessionNeverRefreshes | export-ghl.js:74 | over any sequence of calls in static mode, every call yields the configured token, no refresh is issued, and the state never changes |
| TokenCache.FreshCacheSessionNeverRefreshes | export-ghl.js:75 | while every call happens before the expiry of a non-empty cache, no refresh is issued and every call returns the cached token |
| TokenCache.ShortLifetimeRefreshesAgain | export-ghl.js:63-69 | a successful refresh whose `expires_in` is absent or under 60 s stores an expiry earlier than the moment the reply was handled, so the next call (clock not running backwards) refreshes again |
| TokenCache.RefreshedCacheServesUntilExpiry | export-ghl.js:69-78 | after a successful refresh, every later call made before `arrivedAt + expires_in`·1000 − 60000 is served from the cache with the refreshed token and no further refresh |
| TokenCache.RefreshesAreStaleCalls | export-ghl.js:75-77 | in a run of calls, the number of refreshes equals the number of calls that found the cache empty or expired at their own instant |
| TokenCache.SessionPreservesValid | export-ghl.js:69-78 | every state a run of calls reaches is one the program can be in, and every token handed out is non-empty |
| Http.BearerHeader | export-ghl.js:96 | the header is `Bearer ` followed by exactly the token |
| Http.BearerRoundTrip | export-ghl.js:96 | parsing a Bearer header gives the token back, and a header parses to a token iff it is that token's Bearer header |
| Http.BearerHeaderInjective | export-ghl.js:96 | distinct tokens produce distinct headers |
| Http.ApiGet | export-ghl.js:105-110 | the body is returned iff the status is in [200,300); otherwise the error carries the path and the status |
| Json.Truthy | export-ghl.js:127-128 | a JSON value is falsy exactly when it is `null`, `false`, `0` or `""`; arrays and objects, empty or not, are truthy (the same rule decides the mode at line 27, the token check at 66, the cache check at 75 and the cursor at 120) |
| Json.Get | export-ghl.js:124 | reading a field of a non-null body yields a value exactly when the body is an object with that own field, and then yields that field's value |
| Json.ArrayAt | export-ghl.js:124 | the value under the key when it is an array, and no items when the field is absent or not an array |
| Pagination.RequestParams | export-ghl.js:118-121 | a truthy cursor is added to the base params under `nextPageToken`, overriding a base entry of that name; a falsy one leaves the base params untouched; other base entries are kept |
| Pagination.NextCursor | export-ghl.js:127 | the cursor is the body's `nextPageToken` when that is truthy, and `null` otherwise |
| Pagination.PageStep | export-ghl.js:117-128 | one loop iteration: a thrown fetch or a `null` body aborts with that error; otherwise the page's array is taken and the loop continues exactly when the cursor is truthy |
| Pagination.Walk | export-ghl.js:117-128 | the do/while loop from a given cursor: never more requests than replies, and the first request carries the base params plus that cursor when it is truthy |
| Pagination.ListAll | export-ghl.js:113-115 | `listAll` starts with no cursor: its first request carries exactly the base params, it never issues more requests than there are replies, and with no replies it ends in `OutOfReplies` |
| Pagination.Prepend | export-ghl.js:125 | a page's items are prepended only when the rest of the call completes; an error or exhaustion passes through with no items |
| Pagination.GatheredCons | export-ghl.js:125 | the items of a run of pages are the first page's array followed by the rest's items |
| Pagination.GatheredAppend | export-ghl.js:125 | gathering distributes over concatenation of page runs |
| Pagination.GatheredSkipsNonArrayPage | export-ghl.js:123-125 | a page whose `arrayKey` field is absent or not an array adds nothing to the result |
| Pagination.StopCountFirstStop | export-ghl.js:127-128 | the number of requests is one past the last page before the first page that does not continue the loop; if every reply continues, all of them are consumed |
| Pagination.WalkRequests | export-ghl.js:114-121 | the call issues exactly that many requests, and request k+1 carries page k's cursor |
| Pagination.WalkOutcome | export-ghl.js:108-128 | the last page fetched decides the end: a non-2xx status or `null` body fails with the path and status or the null-body error; a usable page without a cursor completes; running out of replies happens only when every page continued |
| Pagination.WalkItems | export-ghl.js:123-125 | on completion every fetched page was usable and the result is their arrays concatenated in order |
| Pagination.ListAllSpec | export-ghl.js:113-131 | the first request carries the base params; request k+1 carries the base params plus page k's truthy cursor; the call stops right after the first page without a truthy cursor; a completed call returns the in-order concatenation of the pages' arrays; an error on any page ends the call with no items and with that page's error: the path and status for a non-2xx reply, the null-body error for a `null` body |
| Client.AuthorizedGet | export-ghl.js:93-98 | the interceptor runs `accessToken` first: a refresh error rejects the request with no header sent; otherwise the request carries `Bearer <token>` and its result is `apiGet`'s |
| Client.AuthorizedWalk | export-ghl.js:93-98 | `listAll` through the interceptor: never more requests attempted than exchanges, and never more headers sent than requests attempted |
| Client.AuthorizedListAll | export-ghl.js:93-98 | `listAll` as the program runs it, with the interceptor before each page: it starts with no cursor, so its first request carries exactly the base params, and it attempts no more requests than there are exchanges |
| Client.AuthorizedListAllIsListAll | export-ghl.js:113-131 | unless a token lookup fails, `listAll` through the interceptor lists exactly what the plain `listAll` lists on the same replies |
| Client.AuthenticatedRunIsPlainListing | export-ghl.js:93-98 | whenever no token lookup fails, the authenticated listing is exactly the plain paginator's listing on the same replies |
| Client.StaticRunIsPlainListing | export-ghl.js:74 | with a static token an authenticated `listAll` lists exactly what the plain paginator lists on the same replies, the token state is unchanged, and every request carries the configured token |
| Client.FreshCacheRunIsPlainListing | export-ghl.js:75 | in OAuth mode, while every request comes before the expiry of a non-empty cache, the authenticated run is the plain listing, no refresh happens, and every request carries the cached token |
| Client.RunHeadersAreBearer | export-ghl.js:93-98 | every header sent is a Bearer header of a non-empty token and the token state stays valid; an authentication failure ends the run with no request sent for that page, and otherwise every request issued was sent |

## Left out

- axios client creation, the HTTP transport and the request interceptor's registration (lines
  84-98) are library calls. Only the header value `"Bearer " + token` is modelled.
- The token request itself (lines 41-56: the form-encoded body with client id, secret and
  refresh token) is sent over the network. Only its reply is modelled.
- axios by default rejects a non-2xx reply before the code's own status checks at lines 58 and
  108 run, and its error message differs. The model follows the code's checks. Either way the
  call fails with no result.
- dotenv loading and the `LOCATION_ID` check (lines 6, 16-24) are bootstrapping. An unset
  environment variable is modelled as the empty string, which JavaScript also treats as falsy.
- `preflight`, the resource catalogue, the timestamped export directory, `fs.writeJson`,
  console logging and `process.exit` (lines 136-200) are I/O and orchestration. The core's own
  logging (`console.log` at lines 41 and 106, `console.error` of the status and body at line
  59) is output only and is not modelled either.
- `Date.now()` is a parameter: `now` for the cache check, and the reply's `arrivedAt` for the
  expiry computation.
- Concurrent `accessToken` calls are not modelled. The code has no single-flight guard, and
  the exporter fetches one resource at a time.
- JSON numbers are integers. Fractional `expires_in` values, `NaN` and `-0`, and non-number
  `expires_in` values (which JavaScript would coerce) are not modelled.
- Line 69 computes in IEEE doubles: it is exact only below 2^53 and a huge `expires_in` gives
  `Infinity`; the model uses unbounded integers. `access_token` is modelled as a string, as
  section 5.1 of RFC 6749 defines it, so a truthy non-string token (say `123`, which lines 63
  and 66 would accept and line 96 would send as `Bearer 123`) is not represented.
- Json.Get, Json.ArrayAt: a property read sees only an object's own fields and yields
  `undefined` for everything else. This ignores members inherited from `Object.prototype`
  (`constructor`, `toString`, ...) and the `length` and numeric-index keys of arrays and
  strings. The exporter's array keys (`funnels`, `workflows`, `forms`, `surveys`, `tags`) and
  `nextPageToken` are none of those.
- Pagination.ListAllSpec: the real loop is unbounded. The model consumes a finite list of
  replies and reports `OutOfReplies` when it runs out while the cursor is still truthy.
- `out.push(...items)` can throw for very large pages in JavaScript. This is not modelled.
