/** The cookie-refresh debounce of the scraper's HTTP session.

    When the site answers with a bot check or HTTP 429, the session asks a
    refresh callback for new cookies, but at most once per cooldown: a request that
    arrives sooner reuses the cookies of the last refresh. Clock readings are
    integers from a monotone clock, passed in; the callback's answer is passed in
    as the cookie map it would return (an empty map when it returns nothing). */
module Session {

  /** The refresher's state: when cookies were last refreshed, and the jar. */
  datatype Jar = Jar(lastRefresh: int, cookies: map<string, string>)

  /** What one refresh request does: its answer, whether the callback ran, and the
      state after it. */
  datatype Attempt = Attempt(ok: bool, invoked: bool, jar: Jar)

  /** One refresh request. `now` is the clock before the lock is taken, `recheck`
      after it, `finished` after the new cookies are installed. The callback runs
      only when both readings are a full cooldown past the last refresh. */
  function RefreshRule(hasCallback: bool, cooldown: int, jar: Jar, now: int, recheck: int, finished: int,
                       fetched: map<string, string>): (r: Attempt)
    ensures !hasCallback ==> !r.ok && !r.invoked && r.jar == jar
    ensures hasCallback && now - jar.lastRefresh < cooldown ==> r.ok && !r.invoked && r.jar == jar
    ensures r.invoked <==>
      hasCallback && now - jar.lastRefresh >= cooldown && recheck - jar.lastRefresh >= cooldown
    ensures !r.invoked ==> r.jar == jar && (r.ok <==> hasCallback)
    ensures r.invoked && fetched == map[] ==> !r.ok && r.jar == jar
    ensures r.invoked && fetched != map[] ==> r.ok && r.jar == Jar(finished, fetched)
  {
    if !hasCallback then Attempt(false, false, jar)
    else if now - jar.lastRefresh < cooldown then Attempt(true, false, jar)
    else if recheck - jar.lastRefresh < cooldown then Attempt(true, false, jar)
    else if fetched == map[] then Attempt(false, true, jar)
    else Attempt(true, true, Jar(finished, fetched))
  }

  /** The session's refresh state, updated in place. */
  class CookieRefresher {
    const hasCallback: bool
    const cooldown: int
    var lastRefresh: int
    var cookies: map<string, string>
    /** The context URLs the callback was invoked with, in order. */
    ghost var invocations: seq<string>

    constructor(hasCallback: bool, cooldown: int, cookies: map<string, string>)
      ensures this.hasCallback == hasCallback && this.cooldown == cooldown
      ensures lastRefresh == 0 && this.cookies == cookies && invocations == []
    {
      this.hasCallback := hasCallback;
      this.cooldown := cooldown;
      lastRefresh := 0;
      this.cookies := cookies;
      invocations := [];
    }

    /** `_refresh_cookies_with_callback`: on a fresh refresh the jar is cleared and
        refilled with exactly the callback's cookies. */
    method RefreshCookies(contextUrl: string, now: int, recheck: int, finished: int,
                          fetched: map<string, string>)
      returns (ok: bool)
      modifies this
      ensures var a := RefreshRule(hasCallback, cooldown, Jar(old(lastRefresh), old(cookies)), now, recheck,
                                   finished, fetched);
        ok == a.ok && Jar(lastRefresh, cookies) == a.jar
        && invocations == old(invocations) + (if a.invoked then [contextUrl] else [])
    {
      if !hasCallback {
        return false;
      }
      if now - lastRefresh < cooldown {
        return true;
      }
      if recheck - lastRefresh < cooldown {
        return true;
      }
      invocations := invocations + [contextUrl];
      if fetched == map[] {
        return false;
      }
      cookies := map[];
      var todo := fetched.Keys;
      while todo != {}
        invariant todo <= fetched.Keys
        invariant cookies == map k | k in fetched && k !in todo :: fetched[k]
        invariant lastRefresh == old(lastRefresh) && invocations == old(invocations) + [contextUrl]
        decreases |todo|
      {
        var name :| name in todo;
        cookies := cookies[name := fetched[name]];
        todo := todo - {name};
      }
      assert cookies == fetched;
      lastRefresh := finished;
      return true;
    }
  }

  /** One refresh request's clock readings and the callback's answer. */
  datatype Request = Request(now: int, recheck: int, finished: int, fetched: map<string, string>)

  /** A sequence of requests from `jar`: the final state and the times of the
      refreshes that installed new cookies. */
  function Run(hasCallback: bool, cooldown: int, jar: Jar, reqs: seq<Request>): (seq<int>, Jar)
    decreases |reqs|
  {
    if reqs == [] then ([], jar)
    else
      var q := reqs[0];
      var a := RefreshRule(hasCallback, cooldown, jar, q.now, q.recheck, q.finished, q.fetched);
      var rest := Run(hasCallback, cooldown, a.jar, reqs[1..]);
      ((if a.invoked && a.ok then [q.finished] else []) + rest.0, rest.1)
  }

  /** Every time in `times` is at least a cooldown after the one before it, the
      first at least a cooldown after `last`. */
  predicate Spaced(cooldown: int, last: int, times: seq<int>)
    decreases |times|
  {
    times == [] || (last + cooldown <= times[0] && Spaced(cooldown, times[0], times[1..]))
  }

  /** The debounce: whatever the callback answers, cookies are refreshed at most
      once per cooldown, provided each request's clock does not go back while it
      holds the lock. */
  lemma {:induction false} RefreshesSpaced(hasCallback: bool, cooldown: int, jar: Jar, reqs: seq<Request>)
    requires forall i :: 0 <= i < |reqs| ==> reqs[i].recheck <= reqs[i].finished
    ensures Spaced(cooldown, jar.lastRefresh, Run(hasCallback, cooldown, jar, reqs).0)
    decreases |reqs|
  {
    if reqs != [] {
      var q := reqs[0];
      var a := RefreshRule(hasCallback, cooldown, jar, q.now, q.recheck, q.finished, q.fetched);
      RefreshesSpaced(hasCallback, cooldown, a.jar, reqs[1..]);
      var rest := Run(hasCallback, cooldown, a.jar, reqs[1..]).0;
      if a.invoked && a.ok {
        assert q.recheck <= q.finished;
        assert a.jar.lastRefresh == q.finished && jar.lastRefresh + cooldown <= q.finished;
        assert Run(hasCallback, cooldown, jar, reqs).0 == [q.finished] + rest;
        assert ([q.finished] + rest)[1..] == rest;
      } else {
        assert a.jar == jar;
        assert Run(hasCallback, cooldown, jar, reqs).0 == rest;
      }
    }
  }

  /** Right after a refresh that installed cookies, a request that arrives within
      the cooldown is answered yes without invoking the callback, and changes
      nothing. */
  lemma DebouncedAfterRefresh(cooldown: int, jar: Jar, q1: Request, q2: Request)
    requires cooldown > 0 && q1.now - jar.lastRefresh >= cooldown && q1.recheck - jar.lastRefresh >= cooldown
    requires q1.fetched != map[] && q2.now < q1.finished + cooldown
    ensures var a1 := RefreshRule(true, cooldown, jar, q1.now, q1.recheck, q1.finished, q1.fetched);
      var a2 := RefreshRule(true, cooldown, a1.jar, q2.now, q2.recheck, q2.finished, q2.fetched);
      a1.ok && a1.invoked && a2.ok && !a2.invoked && a2.jar == a1.jar
  {
  }
}
