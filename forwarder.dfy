/**
 * `postJsonWithManualRedirects`: POST a JSON payload and follow the upstream's
 * redirects by hand, as section 15.4 of RFC 9110 describes them. 301, 302 and
 * 303 are followed with a GET; 307 and 308 repeat the POST with the same body;
 * the target is the `Location` header (section 10.2.2 of RFC 9110), used as is.
 *
 * `fetch` is an oracle: the reply to the i-th outbound call of a run (counting
 * from 0) may depend on i and on the call itself, so it stands both for a
 * scripted sequence of replies and for a server that answers by request.
 */
module Forwarder {
  import opened Wrappers

  /** Redirect hops allowed after the first POST. */
  const MaxHops: nat := 3

  datatype Method = Get | Post

  /** The part of an upstream `Response` the endpoint reads; `body` is `text()`, "" when that fails. */
  datatype Resp = Resp(status: int, location: Option<string>, contentType: Option<string>,
                       allow: Option<string>, body: string)

  /** What awaiting `fetch` gives: a response, or a rejected promise (network failure). */
  datatype Reply = Answered(resp: Resp) | Rejected

  /** One outbound request: its method (`verb`), its URL and its body (a GET has none). */
  datatype Call = Call(verb: Method, url: string, body: Option<string>)

  /** The outcome of a run together with every call it made, in order. */
  datatype Trace = Trace(reply: Reply, calls: seq<Call>)

  type Fetch = (nat, Call) -> Reply

  predicate IsRedirect(status: int) {
    status == 301 || status == 302 || status == 303 || status == 307 || status == 308
  }

  /** 307 and 308 keep the method and the body. */
  predicate PreservesMethod(status: int) {
    status == 307 || status == 308
  }

  /** `!location` holds for a missing header and for an empty one alike. */
  predicate HasLocation(res: Resp) {
    res.location.Some? && res.location.value != []
  }

  /** The fallback `new Response("Too many redirects", { status: 502 })`. */
  const TooManyRedirects: Resp :=
    Resp(502, None, Some("text/plain;charset=UTF-8"), None, "Too many redirects")

  /** What a run does after the POST of a hop. */
  datatype Next = Stop | Repost(location: string) | RefetchWithGet(location: string)

  /**
   * The decision after a POST: stop on a rejection, on a status that is not a
   * redirect, or on a redirect without a Location; otherwise POST again for 307
   * and 308, GET for 301, 302 and 303.
   */
  function NextAfter(rep: Reply): Next {
    if rep.Rejected? || !IsRedirect(rep.resp.status) || !HasLocation(rep.resp) then Stop
    else if PreservesMethod(rep.resp.status) then Repost(rep.resp.location.value)
    else RefetchWithGet(rep.resp.location.value)
  }

  /**
   * What a run does from the POST of hop `hop` on, sent to `url`; the call made
   * at hop `hop` is the run's call number `hop`. The run starts with a POST of
   * the payload to `url`.
   */
  function Follow(fetch: Fetch, url: string, payload: string, hop: nat): (t: Trace)
    requires hop <= MaxHops
    ensures |t.calls| >= 1 && t.calls[0] == Call(Post, url, Some(payload))
    decreases MaxHops - hop
  {
    var post := Call(Post, url, Some(payload));
    var rep := fetch(hop, post);
    match NextAfter(rep)
    case Stop => Trace(rep, [post])
    case Repost(location) =>
      if hop == MaxHops then Trace(rep, [post])
      else
        var rest := Follow(fetch, location, payload, hop + 1);
        Trace(rest.reply, [post] + rest.calls)
    case RefetchWithGet(location) =>
      var get := Call(Get, location, None);
      Trace(fetch(hop + 1, get), [post, get])
  }

  /** The loop of the source; the trace of calls it makes is kept in `calls`. */
  method PostJsonWithManualRedirects(fetch: Fetch, url: string, payload: string)
    returns (r: Reply, ghost calls: seq<Call>)
    ensures r == Follow(fetch, url, payload, 0).reply
    ensures calls == Follow(fetch, url, payload, 0).calls
  {
    ghost var whole := Follow(fetch, url, payload, 0);
    var currentUrl := url;
    var lastResponse: Option<Resp> := None;
    calls := [];
    for hop := 0 to MaxHops + 1
      invariant |calls| == hop
      invariant hop > 0 ==> lastResponse.Some?
      invariant hop <= MaxHops ==>
        var rest := Follow(fetch, currentUrl, payload, hop);
        whole.reply == rest.reply && whole.calls == calls + rest.calls
      invariant hop > MaxHops ==> whole.reply == Answered(lastResponse.value) && whole.calls == calls
    {
      var post := Call(Post, currentUrl, Some(payload));
      var reply := fetch(hop, post);
      ghost var before := calls;
      calls := calls + [post];
      if reply.Rejected? {
        return reply, calls;
      }
      var res := reply.resp;
      lastResponse := Some(res);
      if !IsRedirect(res.status) {
        return reply, calls;
      }
      if !HasLocation(res) {
        return reply, calls;
      }
      if PreservesMethod(res.status) {
        if hop < MaxHops {
          PreservingRedirectReposts(fetch, currentUrl, payload, hop);
          ghost var rest := Follow(fetch, res.location.value, payload, hop + 1);
          assert before + ([post] + rest.calls) == calls + rest.calls;
        }
        currentUrl := res.location.value;
        continue;
      }
      var get := Call(Get, res.location.value, None);
      r := fetch(hop + 1, get);
      calls := calls + [get];
      return;
    }
    r := Answered(if lastResponse.Some? then lastResponse.value else TooManyRedirects);
  }

  // ---------------------------------------------------------------------------
  // Properties of a run
  // ---------------------------------------------------------------------------

  /**
   * Bounds on the calls: all calls but the last are POSTs; at most
   * `MaxHops + 1` POSTs and at most one GET, so at most `MaxHops + 2` calls
   * from hop 0; every POST carries the payload and the GET carries no body.
   */
  lemma {:induction false} CallBounds(fetch: Fetch, url: string, payload: string, hop: nat)
    requires hop <= MaxHops
    ensures var t := Follow(fetch, url, payload, hop);
      && |t.calls| <= MaxHops - hop + 2
      && (forall i :: 0 <= i < |t.calls| - 1 ==> t.calls[i].verb == Post)
      && (t.calls[|t.calls| - 1].verb == Post ==> |t.calls| <= MaxHops - hop + 1)
      && (forall i :: 0 <= i < |t.calls| ==>
            t.calls[i].body == if t.calls[i].verb == Post then Some(payload) else None)
    decreases MaxHops - hop
  {
    var post := Call(Post, url, Some(payload));
    var next := NextAfter(fetch(hop, post));
    if next.Repost? && hop < MaxHops {
      CallBounds(fetch, next.location, payload, hop + 1);
      var rest := Follow(fetch, next.location, payload, hop + 1);
      assert Follow(fetch, url, payload, hop).calls == [post] + rest.calls;
      assert forall i :: 1 <= i < 1 + |rest.calls| ==> ([post] + rest.calls)[i] == rest.calls[i - 1];
    }
  }

  /**
   * The run's result is always the reply to its last call: the synthetic
   * "Too many redirects" response is never produced.
   */
  lemma {:induction false} ReplyIsLastCall(fetch: Fetch, url: string, payload: string, hop: nat)
    requires hop <= MaxHops
    ensures var t := Follow(fetch, url, payload, hop);
      t.reply == fetch(hop + |t.calls| - 1, t.calls[|t.calls| - 1])
    decreases MaxHops - hop
  {
    var post := Call(Post, url, Some(payload));
    var next := NextAfter(fetch(hop, post));
    if next.Repost? && hop < MaxHops {
      ReplyIsLastCall(fetch, next.location, payload, hop + 1);
    }
  }

  /**
   * Call `i` of `calls` (made as the run's call number `hop + i`) was answered
   * with a redirect that has a Location, and call `i + 1` goes to exactly that
   * Location: a POST after 307 or 308, a GET after 301, 302 or 303.
   */
  predicate LinkedToNext(fetch: Fetch, calls: seq<Call>, hop: nat, i: nat)
    requires i + 1 < |calls|
  {
    var rep := fetch(hop + i, calls[i]);
    && rep.Answered? && IsRedirect(rep.resp.status) && HasLocation(rep.resp)
    && calls[i + 1].url == rep.resp.location.value
    && (calls[i + 1].verb == Post <==> PreservesMethod(rep.resp.status))
  }

  /** Every call but the last leads to the next one through its reply's Location. */
  lemma {:induction false} HopsFollowLocation(fetch: Fetch, url: string, payload: string, hop: nat)
    requires hop <= MaxHops
    ensures var t := Follow(fetch, url, payload, hop);
      forall i: nat :: i + 1 < |t.calls| ==> LinkedToNext(fetch, t.calls, hop, i)
    decreases MaxHops - hop
  {
    var post := Call(Post, url, Some(payload));
    var next := NextAfter(fetch(hop, post));
    var t := Follow(fetch, url, payload, hop);
    if next.Repost? && hop < MaxHops {
      PreservingRedirectReposts(fetch, url, payload, hop);
      HopsFollowLocation(fetch, next.location, payload, hop + 1);
      var rest := Follow(fetch, next.location, payload, hop + 1);
      forall i: nat | i + 1 < |t.calls|
        ensures LinkedToNext(fetch, t.calls, hop, i)
      {
        if i > 0 {
          assert t.calls[i] == rest.calls[i - 1] && t.calls[i + 1] == rest.calls[i];
          assert LinkedToNext(fetch, rest.calls, hop + 1, i - 1);
        }
      }
    }
  }

  /** A reply that is not a redirect (or a rejection) ends the run after that one call, unchanged. */
  lemma NonRedirectIsFinal(fetch: Fetch, url: string, payload: string, hop: nat)
    requires hop <= MaxHops
    requires var rep := fetch(hop, Call(Post, url, Some(payload)));
      rep.Rejected? || !IsRedirect(rep.resp.status)
    ensures Follow(fetch, url, payload, hop)
      == Trace(fetch(hop, Call(Post, url, Some(payload))), [Call(Post, url, Some(payload))])
  {
  }

  /** A redirect without a usable Location is returned unchanged and nothing more is sent. */
  lemma MissingLocationIsFinal(fetch: Fetch, url: string, payload: string, hop: nat)
    requires hop <= MaxHops
    requires var rep := fetch(hop, Call(Post, url, Some(payload)));
      rep.Answered? && IsRedirect(rep.resp.status) && !HasLocation(rep.resp)
    ensures Follow(fetch, url, payload, hop)
      == Trace(fetch(hop, Call(Post, url, Some(payload))), [Call(Post, url, Some(payload))])
  {
  }

  /**
   * Before the hop limit, 307 or 308 with a Location is followed by a POST of
   * the identical payload to exactly that Location string.
   */
  lemma PreservingRedirectReposts(fetch: Fetch, url: string, payload: string, hop: nat)
    requires hop < MaxHops
    requires var rep := fetch(hop, Call(Post, url, Some(payload)));
      rep.Answered? && PreservesMethod(rep.resp.status) && HasLocation(rep.resp)
    ensures var loc := fetch(hop, Call(Post, url, Some(payload))).resp.location.value;
      var rest := Follow(fetch, loc, payload, hop + 1);
      && Follow(fetch, url, payload, hop) == Trace(rest.reply, [Call(Post, url, Some(payload))] + rest.calls)
      && Follow(fetch, url, payload, hop).calls[1] == Call(Post, loc, Some(payload))
  {
  }

  /**
   * 301, 302 or 303 with a Location is followed by exactly one GET to that
   * Location, whose reply is the run's result; no further hop is made.
   */
  lemma SeeOtherSwitchesToGet(fetch: Fetch, url: string, payload: string, hop: nat)
    requires hop <= MaxHops
    requires var rep := fetch(hop, Call(Post, url, Some(payload)));
      rep.Answered? && IsRedirect(rep.resp.status) && !PreservesMethod(rep.resp.status) && HasLocation(rep.resp)
    ensures var get := Call(Get, fetch(hop, Call(Post, url, Some(payload))).resp.location.value, None);
      Follow(fetch, url, payload, hop) == Trace(fetch(hop + 1, get), [Call(Post, url, Some(payload)), get])
  {
  }

  /**
   * Call `i` of `calls` (the run's call number `hop + i`) was answered 307 or
   * 308 with a Location, which makes the run POST again.
   */
  predicate KeepsRedirecting(fetch: Fetch, calls: seq<Call>, hop: nat, i: nat)
    requires i < |calls|
  {
    var rep := fetch(hop + i, calls[i]);
    rep.Answered? && PreservesMethod(rep.resp.status) && HasLocation(rep.resp)
  }

  /** Every call of `t`, started at hop `hop`, was answered 307 or 308 with a Location. */
  predicate AlwaysRedirected(fetch: Fetch, t: Trace, hop: nat) {
    forall i: nat :: i < |t.calls| ==> KeepsRedirecting(fetch, t.calls, hop, i)
  }

  /**
   * When every POST of a run is answered 307 or 308 with a Location, the run
   * makes exactly the POSTs up to the hop limit and returns the reply to the last.
   */
  lemma {:induction false} PersistentRedirectsStopAtLimit(fetch: Fetch, url: string, payload: string, hop: nat)
    requires hop <= MaxHops
    requires AlwaysRedirected(fetch, Follow(fetch, url, payload, hop), hop)
    ensures var t := Follow(fetch, url, payload, hop);
      && |t.calls| == MaxHops - hop + 1
      && (forall i :: 0 <= i < |t.calls| ==> t.calls[i].verb == Post)
      && t.reply == fetch(MaxHops, t.calls[MaxHops - hop])
    decreases MaxHops - hop
  {
    var post := Call(Post, url, Some(payload));
    var t := Follow(fetch, url, payload, hop);
    assert t.calls[0] == post;
    assert KeepsRedirecting(fetch, t.calls, hop, 0);
    var next := NextAfter(fetch(hop, post));
    if hop < MaxHops {
      PreservingRedirectReposts(fetch, url, payload, hop);
      var nextHop := hop + 1;
      var rest := Follow(fetch, next.location, payload, nextHop);
      forall i: nat | i < |rest.calls|
        ensures KeepsRedirecting(fetch, rest.calls, nextHop, i)
      {
        assert rest.calls[i] == t.calls[i + 1];
        assert KeepsRedirecting(fetch, t.calls, hop, i + 1);
      }
      PersistentRedirectsStopAtLimit(fetch, next.location, payload, nextHop);
    }
  }
}
