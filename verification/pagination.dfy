/** `listAll`: fetch a cursor-paginated list endpoint page by page and
    concatenate the array found under `arrayKey` in each page.

    The server is a finite list of replies, one per request in order; if it
    runs out while the cursor still says "more", the outcome is
    `OutOfReplies` rather than the unbounded loop of the real program. */
module Pagination {
  import opened Wrappers
  import opened Json
  import opened Http

  /** Query parameters of one request. */
  type Params = map<string, Value>

  /** Name of the cursor, both in the reply body and in the next request. */
  const CursorKey: string := "nextPageToken"

  datatype Outcome =
    | Complete(items: seq<Value>)
    | Failed(error: ApiError)
    | OutOfReplies

  /** The outcome together with the parameters of every request attempted
      (an attempt whose token lookup failed is listed though nothing was sent). */
  datatype Listing = Listing(outcome: Outcome, requests: seq<Params>)

  /** The parameters of the next request (export-ghl.js:118-121): the base
      parameters, with the cursor added under `nextPageToken` (replacing any
      base entry of that name) only when the cursor is truthy. */
  function RequestParams(base: Params, cursor: Value): (p: Params)
    ensures !Truthy(cursor) ==> p == base
    ensures Truthy(cursor) ==> p.Keys == base.Keys + {CursorKey} && p[CursorKey] == cursor
    ensures forall k :: k in base && k != CursorKey ==> k in p && p[k] == base[k]
  {
    if Truthy(cursor) then base[CursorKey := cursor] else base
  }

  /** The cursor a page hands on (export-ghl.js:127): its `nextPageToken`
      field when that is truthy, and `null` in every other case. */
  function NextCursor(body: Value): (c: Value)
    requires !body.Null?
    ensures Truthy(c) <==> Get(body, CursorKey).Some? && Truthy(Get(body, CursorKey).value)
    ensures Truthy(c) ==> c == Get(body, CursorKey).value
    ensures !Truthy(c) ==> c == Null
  {
    match Get(body, CursorKey)
    case Some(v) => if Truthy(v) then v else Null
    case None => Null
  }

  /** What one page does to the loop. */
  datatype Step =
    | Stop(items: seq<Value>)                // page taken, no truthy cursor: the loop ends
    | More(items: seq<Value>, cursor: Value) // page taken, request the next one with `cursor`
    | Abort(error: ApiError)                 // the fetch or the field reads threw

  /** One iteration of the loop body after `apiGet` has returned or thrown:
      take the page's array (or nothing) and decide on the next cursor. */
  function PageStep(arrayKey: string, fetched: Result<Value, ApiError>): (r: Step)
    ensures r.Abort? <==> fetched.Failure? || fetched.value.Null?
    ensures fetched.Failure? ==> r == Abort(fetched.error)
    ensures fetched.Success? && fetched.value.Null? ==> r == Abort(NullBody)
    ensures fetched.Success? && !fetched.value.Null? ==>
              && r.items == ArrayAt(fetched.value, arrayKey)
              && (r.More? <==> Truthy(NextCursor(fetched.value)))
              && (r.More? ==> r.cursor == NextCursor(fetched.value))
  {
    match fetched
    case Failure(e) => Abort(e)
    case Success(body) =>
      if body.Null? then Abort(NullBody)
      else
        var next := NextCursor(body);
        if Truthy(next) then More(ArrayAt(body, arrayKey), next)
        else Stop(ArrayAt(body, arrayKey))
  }

  /** The outcome of the whole call given this page's items and the outcome
      of the remaining pages: items are prepended only on completion. */
  function Prepend(items: seq<Value>, rest: Outcome): (o: Outcome)
    ensures o.Complete? <==> rest.Complete?
    ensures o.Complete? ==> o.items == items + rest.items
    ensures !o.Complete? ==> o == rest
  {
    match rest
    case Complete(more) => Complete(items + more)
    case _ => rest
  }

  /** The remaining requests of a `listAll` call whose current cursor is
      `cursor`, against the replies still to come. */
  function Walk(path: string, base: Params, arrayKey: string, cursor: Value, replies: seq<Response>): (l: Listing)
    ensures |l.requests| <= |replies|
    ensures |replies| > 0 ==> |l.requests| > 0 && l.requests[0] == RequestParams(base, cursor)
    decreases |replies|
  {
    if |replies| == 0 then Listing(OutOfReplies, [])
    else
      var req := RequestParams(base, cursor);
      match PageStep(arrayKey, ApiGet(path, replies[0]))
      case Abort(e) => Listing(Failed(e), [req])
      case Stop(items) => Listing(Complete(items), [req])
      case More(items, next) =>
        var rest := Walk(path, base, arrayKey, next, replies[1..]);
        Listing(Prepend(items, rest.outcome), [req] + rest.requests)
  }

  /** `listAll(path, params, arrayKey)` against the given replies: it starts
      with no cursor, so its first request carries exactly the base parameters. */
  function ListAll(path: string, base: Params, arrayKey: string, replies: seq<Response>): (l: Listing)
    ensures |l.requests| <= |replies|
    ensures |replies| > 0 ==> |l.requests| > 0 && l.requests[0] == base
    ensures |replies| == 0 ==> l == Listing(OutOfReplies, [])
  {
    Walk(path, base, arrayKey, Null, replies)
  }

  // ---------------------------------------------------------------------
  // Reference description, stated page by page
  // ---------------------------------------------------------------------

  /** The reply was a 2xx with a body whose fields can be read. */
  predicate PageOk(resp: Response)
  {
    TokenCache.IsSuccessStatus(resp.status) && !resp.body.Null?
  }

  /** The reply was usable and carries a truthy cursor, so the loop goes on. */
  predicate Continues(resp: Response)
  {
    PageOk(resp) && Truthy(NextCursor(resp.body))
  }

  /** What a usable page contributes. */
  function PageItems(resp: Response, arrayKey: string): seq<Value>
    requires PageOk(resp)
  {
    ArrayAt(resp.body, arrayKey)
  }

  /** The items of a run of usable pages, gathered from the last page backwards. */
  function Gathered(pages: seq<Response>, arrayKey: string): seq<Value>
    requires forall i :: 0 <= i < |pages| ==> PageOk(pages[i])
    decreases |pages|
  {
    if |pages| == 0 then []
    else Gathered(pages[..|pages| - 1], arrayKey) + PageItems(pages[|pages| - 1], arrayKey)
  }

  lemma {:induction false} GatheredCons(p: Response, pages: seq<Response>, arrayKey: string)
    requires PageOk(p)
    requires forall i :: 0 <= i < |pages| ==> PageOk(pages[i])
    ensures Gathered([p] + pages, arrayKey) == PageItems(p, arrayKey) + Gathered(pages, arrayKey)
    decreases |pages|
  {
    var all := [p] + pages;
    if |pages| > 0 {
      var init := pages[..|pages| - 1];
      assert all[..|all| - 1] == [p] + init;
      GatheredCons(p, init, arrayKey);
    } else {
      assert all == [p];
      assert all[..0] == [];
    }
  }

  /** Gathering distributes over concatenation of page runs. */
  lemma {:induction false} GatheredAppend(a: seq<Response>, b: seq<Response>, arrayKey: string)
    requires forall i :: 0 <= i < |a| ==> PageOk(a[i])
    requires forall i :: 0 <= i < |b| ==> PageOk(b[i])
    ensures forall i :: 0 <= i < |a + b| ==> PageOk((a + b)[i])
    ensures Gathered(a + b, arrayKey) == Gathered(a, arrayKey) + Gathered(b, arrayKey)
    decreases |b|
  {
    if |b| > 0 {
      var b' := b[..|b| - 1];
      assert (a + b)[..|a + b| - 1] == a + b';
      GatheredAppend(a, b', arrayKey);
    } else {
      assert a + b == a;
    }
  }

  /** A page whose `arrayKey` field is absent or not an array adds nothing:
      gathering skips over it. */
  lemma {:induction false} GatheredSkipsNonArrayPage(pages: seq<Response>, i: nat, arrayKey: string)
    requires forall j :: 0 <= j < |pages| ==> PageOk(pages[j])
    requires i < |pages| && PageOk(pages[i])
    requires Get(pages[i].body, arrayKey).None? || !Get(pages[i].body, arrayKey).value.Arr?
    ensures Gathered(pages, arrayKey) == Gathered(pages[..i], arrayKey) + Gathered(pages[i + 1..], arrayKey)
  {
    var front, p, back := pages[..i], pages[i], pages[i + 1..];
    assert pages == (front + [p]) + back;
    assert forall j :: 0 <= j < |back| ==> back[j] == pages[i + 1 + j];
    assert [p][..0] == [];
    assert Gathered([p], arrayKey) == [];
    GatheredAppend(front, [p], arrayKey);
    GatheredAppend(front + [p], back, arrayKey);
  }

  /** How many requests `listAll` issues against `replies`: one per page up
      to and including the first page that does not continue the loop. */
  function StopCount(replies: seq<Response>): (n: nat)
    ensures n <= |replies|
    ensures |replies| > 0 <==> n > 0
    decreases |replies|
  {
    if |replies| == 0 then 0
    else if Continues(replies[0]) then 1 + StopCount(replies[1..])
    else 1
  }

  /** `StopCount` is the first page that ends the loop: every page before it
      continued, and it did not unless the replies ran out. */
  lemma {:induction false} StopCountFirstStop(replies: seq<Response>)
    ensures forall i :: 0 <= i < StopCount(replies) - 1 ==> Continues(replies[i])
    ensures StopCount(replies) == |replies| ||
              !Continues(replies[StopCount(replies) - 1])
    ensures (forall i :: 0 <= i < |replies| ==> Continues(replies[i])) ==>
              StopCount(replies) == |replies|
    decreases |replies|
  {
    if |replies| > 0 && Continues(replies[0]) {
      var tail := replies[1..];
      StopCountFirstStop(tail);
      forall i | 0 <= i < StopCount(replies) - 1
        ensures Continues(replies[i])
      {
        if i > 0 {
          assert replies[i] == tail[i - 1];
        }
      }
      if forall i :: 0 <= i < |replies| ==> Continues(replies[i]) {
        forall i | 0 <= i < |tail|
          ensures Continues(tail[i])
        {
          assert tail[i] == replies[i + 1];
        }
      }
    }
  }

  /** `Walk` issues exactly `StopCount` requests, and request k+1 carries the
      cursor of page k. */
  lemma {:induction false} WalkRequests(path: string, base: Params, arrayKey: string, cursor: Value,
                                        replies: seq<Response>)
    ensures |Walk(path, base, arrayKey, cursor, replies).requests| == StopCount(replies)
    ensures forall k :: 0 <= k < StopCount(replies) - 1 ==>
              && PageOk(replies[k])
              && Walk(path, base, arrayKey, cursor, replies).requests[k + 1]
                   == RequestParams(base, NextCursor(replies[k].body))
    decreases |replies|
  {
    if |replies| > 0 && Continues(replies[0]) {
      var l := Walk(path, base, arrayKey, cursor, replies);
      var next := NextCursor(replies[0].body);
      var tail := replies[1..];
      var rest := Walk(path, base, arrayKey, next, tail);
      WalkRequests(path, base, arrayKey, next, tail);
      assert l.requests == [RequestParams(base, cursor)] + rest.requests;
      forall k | 0 <= k < StopCount(replies) - 1
        ensures PageOk(replies[k])
        ensures l.requests[k + 1] == RequestParams(base, NextCursor(replies[k].body))
      {
        if k > 0 {
          assert replies[k] == tail[k - 1];
        }
      }
    }
  }

  /** How a `Walk` ends is decided by the page at `StopCount - 1`. */
  lemma {:induction false} WalkOutcome(path: string, base: Params, arrayKey: string, cursor: Value,
                                       replies: seq<Response>)
    ensures var o := Walk(path, base, arrayKey, cursor, replies).outcome;
      var n := StopCount(replies);
      && (o.OutOfReplies? <==> n == |replies| && (n == 0 || Continues(replies[n - 1])))
      && (o.Failed? <==> n > 0 && !PageOk(replies[n - 1]))
      && (o.Complete? <==> n > 0 && PageOk(replies[n - 1]) && !Continues(replies[n - 1]))
      && (o.Failed? ==>
            o.error == (if TokenCache.IsSuccessStatus(replies[n - 1].status)
                        then NullBody else HttpStatus(path, replies[n - 1].status)))
    decreases |replies|
  {
    if |replies| > 0 && Continues(replies[0]) {
      var tail := replies[1..];
      WalkOutcome(path, base, arrayKey, NextCursor(replies[0].body), tail);
      if StopCount(tail) > 0 {
        assert replies[StopCount(replies) - 1] == tail[StopCount(tail) - 1];
      }
    }
  }

  /** A completed `Walk` returns the pages' arrays concatenated in order. */
  lemma {:induction false} WalkItems(path: string, base: Params, arrayKey: string, cursor: Value,
                                     replies: seq<Response>)
    requires Walk(path, base, arrayKey, cursor, replies).outcome.Complete?
    ensures StopCount(replies) > 0
    ensures forall i :: 0 <= i < StopCount(replies) ==> PageOk(replies[i])
    ensures Walk(path, base, arrayKey, cursor, replies).outcome.items
              == Gathered(replies[..StopCount(replies)], arrayKey)
    decreases |replies|
  {
    var p := replies[0];
    var n := StopCount(replies);
    var l := Walk(path, base, arrayKey, cursor, replies);
    var step := PageStep(arrayKey, ApiGet(path, p));
    if Continues(p) {
      var tail := replies[1..];
      var next := NextCursor(p.body);
      var rest := Walk(path, base, arrayKey, next, tail);
      assert step == More(PageItems(p, arrayKey), next);
      assert l.outcome == Prepend(PageItems(p, arrayKey), rest.outcome);
      assert n == 1 + StopCount(tail);
      WalkItems(path, base, arrayKey, next, tail);
      forall i | 0 <= i < n
        ensures PageOk(replies[i])
      {
        if i > 0 {
          assert replies[i] == tail[i - 1];
        }
      }
      assert replies[..n] == [p] + tail[..n - 1];
      GatheredCons(p, tail[..n - 1], arrayKey);
    } else {
      assert step.Stop?;
      assert l.outcome.items == PageItems(p, arrayKey);
      assert replies[..1] == [p];
      assert [p][..0] == [];
    }
  }

  /** `listAll` in the terms of its callers: the first request carries the
      base parameters; request k+1 carries page k's cursor; the loop stops
      after the first page without a truthy cursor; on completion the result
      is the in-order concatenation of every page's array; an error on any
      page ends the call with the error alone. */
  lemma ListAllSpec(path: string, base: Params, arrayKey: string, replies: seq<Response>)
    ensures var l := ListAll(path, base, arrayKey, replies);
      var n := |l.requests|;
      && n <= |replies|
      && (|replies| > 0 ==> l.requests[0] == base)
      && (forall k :: 0 <= k < n - 1 ==>
            Continues(replies[k]) && l.requests[k + 1] == base[CursorKey := NextCursor(replies[k].body)])
      && (l.outcome.Complete? <==> n > 0 && PageOk(replies[n - 1]) && !Continues(replies[n - 1]))
      && (l.outcome.Complete? ==> l.outcome.items == Gathered(replies[..n], arrayKey))
      && (l.outcome.Failed? <==> n > 0 && !PageOk(replies[n - 1]))
      && (l.outcome.Failed? ==>
            l.outcome.error == (if TokenCache.IsSuccessStatus(replies[n - 1].status)
                                then NullBody else HttpStatus(path, replies[n - 1].status)))
      && (l.outcome.OutOfReplies? <==> n == |replies| && forall i :: 0 <= i < n ==> Continues(replies[i]))
  {
    var l := ListAll(path, base, arrayKey, replies);
    WalkRequests(path, base, arrayKey, Null, replies);
    WalkOutcome(path, base, arrayKey, Null, replies);
    StopCountFirstStop(replies);
    if l.outcome.Complete? {
      WalkItems(path, base, arrayKey, Null, replies);
    }
  }
}
