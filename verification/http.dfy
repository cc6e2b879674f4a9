/** One authenticated GET as the exporter issues it: the `Authorization`
    header the request interceptor attaches, and `apiGet`'s status check. */
module Http {
  import opened Wrappers
  import opened Json
  import TokenCache

  const BearerPrefix: string := "Bearer "

  /** A reply to a GET: HTTP status and the parsed body. */
  datatype Response = Response(status: int, body: Value)

  /** Everything that makes a fetch throw. */
  datatype ApiError =
    | AuthFailed(cause: TokenCache.RefreshError)   // the interceptor's token refresh threw
    | HttpStatus(path: string, status: int)        // `apiGet` saw a non-2xx status
    | NullBody                                     // reading a field of a `null` body

  /** The interceptor's header value. */
  function BearerHeader(token: string): (h: string)
    ensures |h| == |BearerPrefix| + |token|
    ensures h[..|BearerPrefix|] == BearerPrefix
    ensures h[|BearerPrefix|..] == token
  {
    BearerPrefix + token
  }

  /** Recovers the token from a header value, if it is a Bearer header. */
  function BearerToken(h: string): (t: Option<string>)
    ensures t.Some? <==> |BearerPrefix| <= |h| && h[..|BearerPrefix|] == BearerPrefix
  {
    if |BearerPrefix| <= |h| && h[..|BearerPrefix|] == BearerPrefix then Some(h[|BearerPrefix|..])
    else None
  }

  /** The header carries exactly the token: parsing it gives the token back,
      and a header that parses is the Bearer header of what it parses to. */
  lemma BearerRoundTrip(token: string, h: string)
    ensures BearerToken(BearerHeader(token)) == Some(token)
    ensures BearerToken(h) == Some(token) <==> h == BearerHeader(token)
  {
  }

  /** Distinct tokens give distinct headers. */
  lemma BearerHeaderInjective(t1: string, t2: string)
    requires BearerHeader(t1) == BearerHeader(t2)
    ensures t1 == t2
  {
  }

  /** `apiGet` after the reply arrives: the body on a 2xx status, otherwise an
      error naming the path and the status. */
  function ApiGet(path: string, resp: Response): (r: Result<Value, ApiError>)
    ensures r.Success? <==> TokenCache.IsSuccessStatus(resp.status)
    ensures r.Success? ==> r.value == resp.body
    ensures r.Failure? ==> r.error == HttpStatus(path, resp.status)
  {
    if TokenCache.IsSuccessStatus(resp.status) then Success(resp.body)
    else Failure(HttpStatus(path, resp.status))
  }
}
