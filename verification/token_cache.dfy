/** The exporter's credential state: the auth mode chosen at start-up, the
    cached bearer token and its expiry instant, with `accessToken` deciding
    between the fixed token, the cache and one OAuth refresh-token grant
    (section 6 of RFC 6749). Only the handling of the token endpoint's reply
    is modelled; the reply itself is an input. Times are integer milliseconds. */
module TokenCache {
  import opened Wrappers

  /** Margin subtracted from the server-granted lifetime. */
  const SafetyBufferMs: int := 60000

  /** `expires_in` is in seconds (section 5.1 of RFC 6749); expiry is kept in ms. */
  const MsPerSecond: int := 1000

  datatype AuthMode = Static | OAuth

  /** The module-level `cached` / `expiresAt` variables plus the configured
      access token. An unset environment variable and a `null` cache are "". */
  datatype TokenState = TokenState(
    mode: AuthMode,
    envAccessToken: string,
    cached: string,
    expiresAt: int)

  /** What the token endpoint answered: HTTP status, the optional `access_token`
      and `expires_in` fields, and the clock reading taken when the reply was
      handled (the second `Date.now()`, after the request completed). */
  datatype TokenReply = TokenReply(
    status: int,
    accessToken: Option<string>,
    expiresIn: Option<int>,
    arrivedAt: int)

  /** Why a refresh threw. */
  datatype RefreshError =
    | RefreshRejected(status: int)
    | MissingAccessToken

  /** A successful refresh: the new token and its (already buffered) expiry. */
  datatype Grant = Grant(token: string, expiresAt: int)

  /** Outcome of one `accessToken` call: the token or the refresh error, the
      state afterwards, and whether a refresh request was issued. */
  datatype TokenCall = TokenCall(
    result: Result<string, RefreshError>,
    next: TokenState,
    refreshed: bool)

  predicate IsSuccessStatus(status: int)
  {
    200 <= status < 300
  }

  /** The state is one the program can be in. */
  predicate Valid(s: TokenState)
  {
    && (s.mode.Static? <==> s.envAccessToken != "")
    && (s.mode.Static? ==> s.cached == s.envAccessToken && s.expiresAt == 0)
    && (s.mode.OAuth? && s.cached == "" ==> s.expiresAt == 0)
  }

  /** Start-up: static mode exactly when an access token is configured; the
      cache holds that token in static mode and nothing in OAuth mode. */
  function Init(envAccessToken: string): (s: TokenState)
    ensures Valid(s)
    ensures s.mode.Static? <==> envAccessToken != ""
    ensures s.envAccessToken == envAccessToken
    ensures s.mode.OAuth? ==> s.cached == ""
    ensures s.expiresAt == 0
  {
    TokenState(if envAccessToken != "" then Static else OAuth,
               envAccessToken,
               envAccessToken,
               0)
  }

  /** The token lifetime in ms; an absent or zero `expires_in` counts as 0. */
  function LifetimeMs(reply: TokenReply): (ms: int)
    ensures reply.expiresIn.None? ==> ms == 0
    ensures reply.expiresIn.Some? ==> ms == reply.expiresIn.value * MsPerSecond
  {
    match reply.expiresIn
    case None => 0
    case Some(secs) => secs * MsPerSecond
  }

  /** The reply half of `refreshOAuth`: the status check, then the token
      presence check, then the buffered expiry. */
  function Refresh(reply: TokenReply): (r: Result<Grant, RefreshError>)
    ensures r.Success? <==>
              IsSuccessStatus(reply.status) && reply.accessToken.Some? && reply.accessToken.value != ""
    ensures !IsSuccessStatus(reply.status) ==> r == Failure(RefreshRejected(reply.status))
    ensures IsSuccessStatus(reply.status) && r.Failure? ==> r.error == MissingAccessToken
    ensures r.Success? ==> r.value.token == reply.accessToken.value && r.value.token != ""
    ensures r.Success? ==>
              r.value.expiresAt == reply.arrivedAt + LifetimeMs(reply) - SafetyBufferMs
  {
    if !IsSuccessStatus(reply.status) then
      Failure(RefreshRejected(reply.status))
    else
      match reply.accessToken
      case Some(token) =>
        if token == "" then Failure(MissingAccessToken)
        else Success(Grant(token, reply.arrivedAt + LifetimeMs(reply) - SafetyBufferMs))
      case None => Failure(MissingAccessToken)
  }

  /** The cache may be served at time `now`. */
  predicate CacheFresh(s: TokenState, now: int)
  {
    s.cached != "" && now < s.expiresAt
  }

  /** `accessToken()` at time `now`; `reply` is what the token endpoint would
      answer if a refresh is issued, and is ignored otherwise. */
  function AccessToken(s: TokenState, now: int, reply: TokenReply): (c: TokenCall)
    // static mode: the configured token, nothing changes, no refresh
    ensures s.mode.Static? ==>
              c.result == Success(s.envAccessToken) && c.next == s && !c.refreshed
    // a fresh cache is served as is
    ensures s.mode.OAuth? && CacheFresh(s, now) ==>
              c.result == Success(s.cached) && c.next == s && !c.refreshed
    // otherwise exactly one refresh, which succeeds exactly when the reply is usable
    ensures s.mode.OAuth? && !CacheFresh(s, now) ==>
              c.refreshed && (c.result.Success? <==> Refresh(reply).Success?)
    ensures c.refreshed <==> (s.mode.OAuth? && !CacheFresh(s, now))
    // a successful refresh installs the new token and its buffered expiry
    ensures c.refreshed && c.result.Success? ==>
              && c.result.value == reply.accessToken.value
              && c.next == s.(cached := reply.accessToken.value,
                              expiresAt := reply.arrivedAt + LifetimeMs(reply) - SafetyBufferMs)
    // a failed refresh changes nothing and reports why
    ensures c.result.Failure? ==> c.next == s && c.refreshed && c.result.error == Refresh(reply).error
    // only the cache and the expiry ever change
    ensures c.next.mode == s.mode && c.next.envAccessToken == s.envAccessToken
    ensures Valid(s) ==> Valid(c.next)
    // whatever is returned is a usable token in a valid state
    ensures Valid(s) && c.result.Success? ==> c.result.value != ""
  {
    if s.mode.Static? then
      TokenCall(Success(s.envAccessToken), s, false)
    else if CacheFresh(s, now) then
      TokenCall(Success(s.cached), s, false)
    else
      match Refresh(reply)
      case Success(g) =>
        TokenCall(Success(g.token), s.(cached := g.token, expiresAt := g.expiresAt), true)
      case Failure(e) =>
        TokenCall(Failure(e), s, true)
  }

  /** One call to `accessToken`: the clock reading and the reply it would get. */
  datatype Tick = Tick(now: int, reply: TokenReply)

  /** What a run of sequential `accessToken` calls produced. */
  datatype Session = Session(
    results: seq<Result<string, RefreshError>>,
    final: TokenState,
    refreshes: nat)

  /** Calls `accessToken` once per tick, in order, threading the state. */
  function RunSession(s: TokenState, ticks: seq<Tick>): (r: Session)
    ensures |r.results| == |ticks|
    ensures r.refreshes <= |ticks|
    decreases |ticks|
  {
    if |ticks| == 0 then Session([], s, 0)
    else
      var c := AccessToken(s, ticks[0].now, ticks[0].reply);
      var rest := RunSession(c.next, ticks[1..]);
      Session([c.result] + rest.results, rest.final, rest.refreshes + if c.refreshed then 1 else 0)
  }

  /** Static mode, over any number of calls: every call yields the configured
      token, no refresh is ever issued and the state never changes. */
  lemma {:induction false} StaticSessionNeverRefreshes(s: TokenState, ticks: seq<Tick>)
    requires Valid(s) && s.mode.Static?
    ensures RunSession(s, ticks).refreshes == 0
    ensures RunSession(s, ticks).final == s
    ensures forall i :: 0 <= i < |ticks| ==>
              RunSession(s, ticks).results[i] == Success(s.envAccessToken)
    decreases |ticks|
  {
    if |ticks| > 0 {
      StaticSessionNeverRefreshes(s, ticks[1..]);
    }
  }

  /** OAuth mode: while every call happens before the expiry of a non-empty
      cache, no refresh is issued and every call yields the cached token. */
  lemma {:induction false} FreshCacheSessionNeverRefreshes(s: TokenState, ticks: seq<Tick>)
    requires s.mode.OAuth? && s.cached != ""
    requires forall i :: 0 <= i < |ticks| ==> ticks[i].now < s.expiresAt
    ensures RunSession(s, ticks).refreshes == 0
    ensures RunSession(s, ticks).final == s
    ensures forall i :: 0 <= i < |ticks| ==> RunSession(s, ticks).results[i] == Success(s.cached)
    decreases |ticks|
  {
    if |ticks| > 0 {
      FreshCacheSessionNeverRefreshes(s, ticks[1..]);
    }
  }

  /** A successful refresh whose `expires_in` is absent or below the 60 s
      buffer leaves a token that is already expired when the reply is handled,
      so any later call (clock not earlier than that instant) refreshes again. */
  lemma ShortLifetimeRefreshesAgain(s: TokenState, now: int, reply: TokenReply, later: int, reply2: TokenReply)
    requires s.mode.OAuth? && !CacheFresh(s, now)
    requires Refresh(reply).Success?
    requires reply.expiresIn.None? || reply.expiresIn.value * MsPerSecond < SafetyBufferMs
    requires reply.arrivedAt <= later
    ensures AccessToken(s, now, reply).next.expiresAt < reply.arrivedAt
    ensures AccessToken(AccessToken(s, now, reply).next, later, reply2).refreshed
  {
  }

  /** After a successful refresh, every later call made before the stored
      expiry `arrivedAt + expires_in·1000 − 60000` is served from the cache:
      no further refresh, and always the token the refresh obtained. */
  lemma {:induction false} RefreshedCacheServesUntilExpiry(s: TokenState, now: int, reply: TokenReply, ticks: seq<Tick>)
    requires s.mode.OAuth? && !CacheFresh(s, now)
    requires Refresh(reply).Success?
    requires forall i :: 0 <= i < |ticks| ==>
               ticks[i].now < reply.arrivedAt + LifetimeMs(reply) - SafetyBufferMs
    ensures var next := AccessToken(s, now, reply).next;
      && RunSession(next, ticks).refreshes == 0
      && RunSession(next, ticks).final == next
      && forall i :: 0 <= i < |ticks| ==>
           RunSession(next, ticks).results[i] == Success(reply.accessToken.value)
  {
    FreshCacheSessionNeverRefreshes(AccessToken(s, now, reply).next, ticks);
  }

  /** Every call on a stale or empty OAuth cache issues exactly one refresh; a
      session's refresh count is the number of calls that found the cache
      unusable at their own instant. */
  function StaleCalls(s: TokenState, ticks: seq<Tick>): (n: nat)
    decreases |ticks|
  {
    if |ticks| == 0 then 0
    else
      (if s.mode.OAuth? && !CacheFresh(s, ticks[0].now) then 1 else 0)
      + StaleCalls(AccessToken(s, ticks[0].now, ticks[0].reply).next, ticks[1..])
  }

  lemma {:induction false} RefreshesAreStaleCalls(s: TokenState, ticks: seq<Tick>)
    ensures RunSession(s, ticks).refreshes == StaleCalls(s, ticks)
    decreases |ticks|
  {
    if |ticks| > 0 {
      RefreshesAreStaleCalls(AccessToken(s, ticks[0].now, ticks[0].reply).next, ticks[1..]);
    }
  }

  /** Every state a session passes through is valid. */
  lemma {:induction false} SessionPreservesValid(s: TokenState, ticks: seq<Tick>)
    requires Valid(s)
    ensures Valid(RunSession(s, ticks).final)
    ensures forall i :: 0 <= i < |ticks| && RunSession(s, ticks).results[i].Success? ==>
              RunSession(s, ticks).results[i].value != ""
    decreases |ticks|
  {
    if |ticks| > 0 {
      var c := AccessToken(s, ticks[0].now, ticks[0].reply);
      SessionPreservesValid(c.next, ticks[1..]);
      var r := RunSession(s, ticks);
      assert r.results == [c.result] + RunSession(c.next, ticks[1..]).results;
      forall i | 0 <= i < |ticks| && r.results[i].Success?
        ensures r.results[i].value != ""
      {
        if i > 0 {
          assert r.results[i] == RunSession(c.next, ticks[1..]).results[i - 1];
        }
      }
    }
  }
}
