/** The exporter's authenticated client: before every GET the request
    interceptor asks `accessToken` for a token and attaches it as a Bearer
    header, so a `listAll` call threads the token state through its pages. */
module Client {
  import opened Wrappers
  import opened Json
  import opened TokenCache
  import opened Http
  import opened Pagination

  /** One request's worth of environment: the clock when the interceptor
      runs, what the token endpoint would answer, and the API's reply. */
  datatype Exchange = Exchange(now: int, tokenReply: TokenReply, response: Response)

  /** One authenticated `apiGet`: its result, the token state afterwards, and
      the `Authorization` header sent (None when no request went out). */
  datatype Fetch = Fetch(result: Result<Value, ApiError>, next: TokenState, header: Option<string>)

  /** The interceptor followed by `apiGet`. A refresh that throws rejects the
      request before it is sent. */
  function AuthorizedGet(s: TokenState, path: string, ex: Exchange): (f: Fetch)
    ensures var c := AccessToken(s, ex.now, ex.tokenReply);
      && f.next == c.next
      && (f.header.Some? <==> c.result.Success?)
      && (c.result.Failure? ==> f.result == Failure(AuthFailed(c.result.error)))
      && (c.result.Success? ==>
            f.header == Some(BearerHeader(c.result.value)) && f.result == ApiGet(path, ex.response))
  {
    var c := AccessToken(s, ex.now, ex.tokenReply);
    match c.result
    case Failure(e) => Fetch(Failure(AuthFailed(e)), c.next, None)
    case Success(token) => Fetch(ApiGet(path, ex.response), c.next, Some(BearerHeader(token)))
  }

  /** An authenticated `listAll` run: the listing, the token state at the
      end, and the headers of the requests actually sent. */
  datatype Run = Run(listing: Listing, final: TokenState, headers: seq<string>)

  function AuthorizedWalk(s: TokenState, path: string, base: Params, arrayKey: string, cursor: Value,
                          exchanges: seq<Exchange>): (r: Run)
    ensures |r.listing.requests| <= |exchanges|
    ensures |r.headers| <= |r.listing.requests|
    decreases |exchanges|
  {
    if |exchanges| == 0 then Run(Listing(OutOfReplies, []), s, [])
    else
      var req := RequestParams(base, cursor);
      var f := AuthorizedGet(s, path, exchanges[0]);
      var sent := match f.header case Some(h) => [h] case None => [];
      match PageStep(arrayKey, f.result)
      case Abort(e) => Run(Listing(Failed(e), [req]), f.next, sent)
      case Stop(items) => Run(Listing(Complete(items), [req]), f.next, sent)
      case More(items, next) =>
        var rest := AuthorizedWalk(f.next, path, base, arrayKey, next, exchanges[1..]);
        Run(Listing(Prepend(items, rest.listing.outcome), [req] + rest.listing.requests),
            rest.final, sent + rest.headers)
  }

  /** `listAll(path, params, arrayKey)` through the authenticated client: it
      starts with no cursor, so its first request carries exactly the base params. */
  function AuthorizedListAll(s: TokenState, path: string, base: Params, arrayKey: string,
                             exchanges: seq<Exchange>): (r: Run)
    ensures |r.listing.requests| <= |exchanges|
    ensures |exchanges| > 0 ==> |r.listing.requests| > 0 && r.listing.requests[0] == base
  {
    AuthorizedWalk(s, path, base, arrayKey, Null, exchanges)
  }

  /** The program's `listAll`, interceptor included, lists exactly what the
      plain `listAll` lists on the same replies unless a token lookup fails. */
  lemma AuthorizedListAllIsListAll(s: TokenState, path: string, base: Params, arrayKey: string,
                                   exchanges: seq<Exchange>)
    ensures var r := AuthorizedListAll(s, path, base, arrayKey, exchanges);
      !(r.listing.outcome.Failed? && r.listing.outcome.error.AuthFailed?) ==>
        r.listing == ListAll(path, base, arrayKey, Responses(exchanges))
  {
    AuthenticatedRunIsPlainListing(s, path, base, arrayKey, Null, exchanges);
  }

  /** The API replies carried by a list of exchanges. */
  function Responses(exchanges: seq<Exchange>): (rs: seq<Response>)
    ensures |rs| == |exchanges|
    ensures forall i :: 0 <= i < |exchanges| ==> rs[i] == exchanges[i].response
  {
    seq(|exchanges|, i requires 0 <= i < |exchanges| => exchanges[i].response)
  }

  /** With a static token, authentication is invisible: the run lists
      exactly what the plain paginator lists on the same replies, the token
      state never changes, and every request carries the configured token. */
  lemma {:induction false} StaticRunIsPlainListing(s: TokenState, path: string, base: Params, arrayKey: string,
                                                   cursor: Value, exchanges: seq<Exchange>)
    requires Valid(s) && s.mode.Static?
    ensures var r := AuthorizedWalk(s, path, base, arrayKey, cursor, exchanges);
      && r.listing == Walk(path, base, arrayKey, cursor, Responses(exchanges))
      && r.final == s
      && |r.headers| == |r.listing.requests|
      && (forall i :: 0 <= i < |r.headers| ==> r.headers[i] == BearerHeader(s.envAccessToken))
    decreases |exchanges|
  {
    if |exchanges| > 0 {
      var tail := exchanges[1..];
      assert Responses(exchanges)[1..] == Responses(tail);
      var f := AuthorizedGet(s, path, exchanges[0]);
      var step := PageStep(arrayKey, f.result);
      if step.More? {
        StaticRunIsPlainListing(s, path, base, arrayKey, step.cursor, tail);
      }
    }
  }

  /** In OAuth mode, while every request happens before the expiry of a
      non-empty cache, the run is the plain listing, no refresh happens and
      every request carries the cached token. */
  lemma {:induction false} FreshCacheRunIsPlainListing(s: TokenState, path: string, base: Params, arrayKey: string,
                                                       cursor: Value, exchanges: seq<Exchange>)
    requires s.mode.OAuth? && s.cached != ""
    requires forall i :: 0 <= i < |exchanges| ==> exchanges[i].now < s.expiresAt
    ensures var r := AuthorizedWalk(s, path, base, arrayKey, cursor, exchanges);
      && r.listing == Walk(path, base, arrayKey, cursor, Responses(exchanges))
      && r.final == s
      && |r.headers| == |r.listing.requests|
      && (forall i :: 0 <= i < |r.headers| ==> r.headers[i] == BearerHeader(s.cached))
    decreases |exchanges|
  {
    if |exchanges| > 0 {
      var tail := exchanges[1..];
      assert Responses(exchanges)[1..] == Responses(tail);
      var f := AuthorizedGet(s, path, exchanges[0]);
      var step := PageStep(arrayKey, f.result);
      if step.More? {
        assert forall i :: 0 <= i < |tail| ==> tail[i] == exchanges[i + 1];
        FreshCacheRunIsPlainListing(s, path, base, arrayKey, step.cursor, tail);
      }
    }
  }

  /** Whenever no token lookup fails, authentication is invisible in the
      listing: it is exactly what the plain paginator lists on the same replies. */
  lemma {:induction false} AuthenticatedRunIsPlainListing(s: TokenState, path: string, base: Params,
                                                          arrayKey: string, cursor: Value,
                                                          exchanges: seq<Exchange>)
    ensures var r := AuthorizedWalk(s, path, base, arrayKey, cursor, exchanges);
      !(r.listing.outcome.Failed? && r.listing.outcome.error.AuthFailed?) ==>
        r.listing == Walk(path, base, arrayKey, cursor, Responses(exchanges))
    decreases |exchanges|
  {
    if |exchanges| > 0 {
      var tail := exchanges[1..];
      assert Responses(exchanges)[1..] == Responses(tail);
      var f := AuthorizedGet(s, path, exchanges[0]);
      var step := PageStep(arrayKey, f.result);
      if step.More? {
        AuthenticatedRunIsPlainListing(f.next, path, base, arrayKey, step.cursor, tail);
      }
    }
  }

  /** Whatever the credentials do, every header sent is a Bearer header of a
      non-empty token, the token state stays valid, and an authentication
      failure ends the run with no request sent for that page. */
  lemma {:induction false} RunHeadersAreBearer(s: TokenState, path: string, base: Params, arrayKey: string,
                                               cursor: Value, exchanges: seq<Exchange>)
    requires Valid(s)
    ensures var r := AuthorizedWalk(s, path, base, arrayKey, cursor, exchanges);
      && Valid(r.final)
      && (forall i :: 0 <= i < |r.headers| ==>
            BearerToken(r.headers[i]).Some? && BearerToken(r.headers[i]).value != "")
      && (r.listing.outcome.Failed? && r.listing.outcome.error.AuthFailed? ==>
            |r.headers| == |r.listing.requests| - 1)
      && (!(r.listing.outcome.Failed? && r.listing.outcome.error.AuthFailed?) ==>
            |r.headers| == |r.listing.requests|)
    decreases |exchanges|
  {
    if |exchanges| > 0 {
      var r := AuthorizedWalk(s, path, base, arrayKey, cursor, exchanges);
      var f := AuthorizedGet(s, path, exchanges[0]);
      var c := AccessToken(s, exchanges[0].now, exchanges[0].tokenReply);
      var sent: seq<string> := match f.header case Some(h) => [h] case None => [];
      if f.header.Some? {
        BearerRoundTrip(c.result.value, f.header.value);
      }
      var step := PageStep(arrayKey, f.result);
      if step.More? {
        var rest := AuthorizedWalk(f.next, path, base, arrayKey, step.cursor, exchanges[1..]);
        RunHeadersAreBearer(f.next, path, base, arrayKey, step.cursor, exchanges[1..]);
        assert r.headers == sent + rest.headers;
        forall i | 0 <= i < |r.headers|
          ensures BearerToken(r.headers[i]).Some? && BearerToken(r.headers[i]).value != ""
        {
          if i > 0 {
            assert r.headers[i] == rest.headers[i - 1];
          }
        }
      }
    }
  }
}
