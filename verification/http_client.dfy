/** The HTTP client's two interceptors. The request interceptor attaches
    `Authorization: Bearer <token>` (the header form of section 2.1 of
    RFC 6750). The response interceptor is a single-flight refresh
    coordinator: the first eligible 401 starts one token refresh, later
    ones wait in a FIFO queue, and the refresh outcome releases or rejects
    every waiter. The asynchronous code runs on one thread, so it is
    modelled as a state machine over discrete events. */
module HttpClient {
  import opened Wrappers
  import opened Text
  import AuthSlice

  /** The authentication scheme prefix of the header value. */
  const BearerPrefix: string := "Bearer "

  /** `Bearer ${token}`. */
  function BearerHeader(token: string): string {
    BearerPrefix + token
  }

  /** Reads the token back out of a header value. */
  function BearerToken(header: string): (r: Option<string>)
    ensures r.Some? <==> IsPrefixOf(BearerPrefix, header)
    ensures r.Some? ==> header == BearerHeader(r.value)
  {
    if IsPrefixOf(BearerPrefix, header) then Some(header[|BearerPrefix|..]) else None
  }

  predicate IsPrefixOf(p: string, s: string) {
    |p| <= |s| && s[..|p|] == p
  }

  /** Building the header and reading it back gives the token. */
  lemma BearerRoundTrip(token: string)
    ensures BearerToken(BearerHeader(token)) == Some(token)
  {
    assert BearerHeader(token)[..|BearerPrefix|] == BearerPrefix;
    assert BearerHeader(token)[|BearerPrefix|..] == token;
  }

  /** An outgoing request, reduced to what the interceptors look at. */
  datatype Request = Request(id: nat, url: string, retried: bool, authorization: Option<string>)

  /** `config.headers.Authorization` is truthy. */
  predicate HasAuthorization(req: Request) {
    req.authorization.Some? && Truthy(req.authorization.value)
  }

  /** `store.getState().auth.accessToken || localStorage.getItem(...)`,
      kept only when truthy: the in-memory token wins, storage is the
      fallback. */
  function ChooseToken(auth: AuthSlice.AuthState, st: AuthSlice.Storage): (r: Option<string>)
    ensures r.Some? ==> Truthy(r.value)
    ensures r.Some? ==> r == auth.accessToken || r == AuthSlice.StoredToken(st)
    ensures auth.accessToken.Some? && Truthy(auth.accessToken.value) ==> r == auth.accessToken
    ensures r.None? <==>
      !(auth.accessToken.Some? && Truthy(auth.accessToken.value)) && AuthSlice.StoredToken(st).None?
  {
    if auth.accessToken.Some? && auth.accessToken.value != "" then auth.accessToken
    else AuthSlice.StoredToken(st)
  }

  /** The request interceptor. A request that already carries an
      `Authorization` header, or that finds no token, passes unchanged;
      otherwise only its header changes, to the bearer form of the
      chosen token. */
  function AttachToken(req: Request, auth: AuthSlice.AuthState, st: AuthSlice.Storage): (r: Request)
    ensures r.id == req.id && r.url == req.url && r.retried == req.retried
    ensures HasAuthorization(req) || ChooseToken(auth, st).None? ==> r == req
    ensures !HasAuthorization(req) && ChooseToken(auth, st).Some? ==>
      r.authorization.Some? && BearerToken(r.authorization.value) == ChooseToken(auth, st)
  {
    match ChooseToken(auth, st)
    case Some(t) =>
      if HasAuthorization(req) then req
      else
        BearerRoundTrip(t);
        req.(authorization := Some(BearerHeader(t)))
    case None => req
  }

  /** Running the interceptor twice changes nothing more. */
  lemma AttachTokenIdempotent(req: Request, auth: AuthSlice.AuthState, st: AuthSlice.Storage)
    ensures AttachToken(AttachToken(req, auth, st), auth, st) == AttachToken(req, auth, st)
  {
  }

  /** A failed response: the request and the HTTP status, absent when no
      response arrived. */
  datatype Failure = Failure(request: Request, status: Option<int>)

  /** The refresh protocol engages for a 401 on a request not yet retried
      whose URL is neither the login nor the refresh endpoint. */
  predicate Eligible(f: Failure) {
    && f.status == Some(401)
    && !f.request.retried
    && !Contains(f.request.url, "/login")
    && !Contains(f.request.url, "/refresh-token-superadmin")
  }

  /** A 401 on a URL that contains "/login" or "/refresh-token-superadmin"
      anywhere (the login and refresh endpoints under any base path, and
      any other URL with those texts in it) never starts a refresh; a 401
      on a fresh request to any other URL does. */
  lemma AuthEndpointsNotEligible(base: string, rest: string, req: Request)
    ensures !Eligible(Failure(req.(url := base + "/login" + rest), Some(401)))
    ensures !Eligible(Failure(req.(url := base + "/refresh-token-superadmin" + rest), Some(401)))
    ensures !req.retried && !Contains(req.url, "/login") && !Contains(req.url, "/refresh-token-superadmin") ==>
      Eligible(Failure(req, Some(401)))
  {
    var u1, u2 := base + "/login" + rest, base + "/refresh-token-superadmin" + rest;
    assert u1[|base|..|base| + 6] == "/login";
    assert OccursAt(u1, "/login", |base|);
    assert u2[|base|..|base| + 25] == "/refresh-token-superadmin";
    assert OccursAt(u2, "/refresh-token-superadmin", |base|);
  }

  /** The logout endpoint is not exempt: a 401 on it starts a refresh
      like any other request's. */
  lemma LogoutEligible(id: nat, auth: Option<string>)
    ensures Eligible(Failure(Request(id, LogoutUrl, false, auth), Some(401)))
  {
    var u := LogoutUrl;
    forall i | 0 <= i <= |u| - 6 ensures !OccursAt(u, "/login", i) {
      var w := u[i..i + 6];
      assert w[0] == u[i] && w[1] == u[i + 1] && w[4] == u[i + 4];
      assert u[i] != '/' || u[i + 1] != 'l' || u[i + 4] != 'i';
    }
  }

  /** The path of the logout call. */
  const LogoutUrl: string := "/superadmin/logout"

  /** Why a request was rejected. */
  datatype RejectReason = Original(status: Option<int>) | RefreshError(payload: AuthSlice.ErrorPayload)

  /** The rejection a failed refresh hands to every request waiting on it:
      the server's error body, or a fallback message. */
  function RefreshRejection(f: AuthSlice.ServerFailure): (e: RejectReason)
    ensures f.data.Some? ==> e == RefreshError(f.data.value)
    ensures f.data.None? ==> e == RefreshError(AuthSlice.ErrorPayload(Some("Token refresh failed")))
  {
    RefreshError(AuthSlice.RejectPayload(f, "Token refresh failed"))
  }

  /** How a request handled by the response interceptor ended. */
  datatype Settlement =
    | Resolved(request: Request, token: string)   // a waiter released with the new token
    | Replayed(request: Request)                  // the request that started the refresh, sent again
    | Rejected(request: Request, reason: RejectReason)

  /** What `processQueue` does to one waiter. */
  function Settle(req: Request, error: Option<RejectReason>, token: string): Settlement {
    match error
    case Some(e) => Rejected(req, e)
    case None => Resolved(req, token)
  }

  /** `processQueue(error, token)`: every waiter is settled, in enqueue
      order, all resolved with the token or all rejected with the error. */
  function Drain(queue: seq<Request>, error: Option<RejectReason>, token: string): (r: seq<Settlement>)
    ensures |r| == |queue|
    ensures forall i | 0 <= i < |queue| :: r[i] == Settle(queue[i], error, token)
  {
    if queue == [] then [] else [Settle(queue[0], error, token)] + Drain(queue[1..], error, token)
  }

  /** The `forEach` loop of `processQueue`, which also empties the queue. */
  method ProcessQueue(failedQueue: seq<Request>, error: Option<RejectReason>, token: string)
    returns (settled: seq<Settlement>, remaining: seq<Request>)
    ensures remaining == []
    ensures |settled| == |failedQueue|
    ensures forall i | 0 <= i < |failedQueue| ::
      settled[i] == (if error.Some? then Rejected(failedQueue[i], error.value) else Resolved(failedQueue[i], token))
  {
    settled := [];
    var i := 0;
    while i < |failedQueue|
      invariant 0 <= i <= |failedQueue|
      invariant |settled| == i
      invariant forall k | 0 <= k < i ::
        settled[k] == (if error.Some? then Rejected(failedQueue[k], error.value) else Resolved(failedQueue[k], token))
    {
      var prom := failedQueue[i];
      if error.Some? {
        settled := settled + [Rejected(prom, error.value)];
      } else {
        settled := settled + [Resolved(prom, token)];
      }
      i := i + 1;
    }
    remaining := [];
  }

  /** The coordinator's state: the two module variables `isRefreshing`
      and `failedQueue`, the request whose 401 started the refresh in
      flight, the default header, the auth session the refresh updates,
      counters of refresh calls issued and settled, the log of settled
      requests, and the redirect target, if any. */
  datatype Coordinator = Coordinator(
    isRefreshing: bool,
    failedQueue: seq<Request>,
    inFlight: Option<Request>,
    defaultAuthorization: Option<string>,
    session: AuthSlice.Session,
    refreshCalls: nat,
    refreshesSettled: nat,
    settled: seq<Settlement>,
    redirectTo: Option<string>)

  /** The coordinator at page load. */
  function Start(ses: AuthSlice.Session): (c: Coordinator)
    ensures Inv(c)
  {
    Coordinator(false, [], None, None, ses, 0, 0, [], None)
  }

  /** Single flight: a refresh is in flight exactly when a request started
      one, the queue is empty outside a refresh, and at most one refresh
      call is outstanding. */
  predicate Inv(c: Coordinator) {
    && (c.isRefreshing <==> c.inFlight.Some?)
    && (!c.isRefreshing ==> c.failedQueue == [])
    && (c.inFlight.Some? ==> c.inFlight.value.retried)
    && c.refreshCalls == c.refreshesSettled + (if c.isRefreshing then 1 else 0)
  }

  /** The events the coordinator reacts to: a failed response, and the
      two outcomes of the refresh in flight (the failure carries the
      current page path, which decides the redirect). */
  datatype Event =
    | ResponseError(failure: Failure)
    | RefreshSucceeded(token: string)
    | RefreshFailed(serverFailure: AuthSlice.ServerFailure, pathname: string)

  /** The login page the coordinator sends the browser to. */
  const LoginPath: string := "/superadmin/login"

  /** One event. An ineligible failure is rejected with its own error; an
      eligible one waits while a refresh is in flight and otherwise starts
      one. A refresh outcome settles the queue and the starting request
      and clears the in-flight flag; an outcome with no refresh in flight
      is ignored. */
  function Step(c: Coordinator, e: Event): (r: Coordinator)
    ensures Inv(c) ==> Inv(r)
    ensures r.refreshCalls == c.refreshCalls || (r.refreshCalls == c.refreshCalls + 1 && !c.isRefreshing)
    ensures |c.settled| <= |r.settled| && r.settled[..|c.settled|] == c.settled
    ensures Inv(c) && c.isRefreshing && !e.ResponseError? ==> !r.isRefreshing && r.failedQueue == []
    ensures e.ResponseError? && !Eligible(e.failure) ==>
      r == c.(settled := c.settled + [Rejected(e.failure.request, Original(e.failure.status))])
    ensures e.ResponseError? && Eligible(e.failure) && c.isRefreshing ==>
      r == c.(failedQueue := c.failedQueue + [e.failure.request])
  {
    match e
    case ResponseError(f) =>
      if !Eligible(f) then
        c.(settled := c.settled + [Rejected(f.request, Original(f.status))])
      else if c.isRefreshing then
        c.(failedQueue := c.failedQueue + [f.request])
      else
        c.(isRefreshing := true, inFlight := Some(f.request.(retried := true)),
           refreshCalls := c.refreshCalls + 1)
    case RefreshSucceeded(t) =>
      if !c.isRefreshing || c.inFlight.None? then c
      else
        var header := BearerHeader(t);
        var original := c.inFlight.value.(authorization := Some(header));
        c.(isRefreshing := false, failedQueue := [], inFlight := None,
           defaultAuthorization := Some(header),
           session := AuthSlice.Refresh(c.session, AuthSlice.RefreshOk(t)),
           refreshesSettled := c.refreshesSettled + 1,
           settled := c.settled + Drain(c.failedQueue, None, t) + [Replayed(original)])
    case RefreshFailed(f, path) =>
      if !c.isRefreshing || c.inFlight.None? then c
      else
        var err := RefreshRejection(f);
        var refreshed := AuthSlice.Refresh(c.session, AuthSlice.RefreshFail(f));
        c.(isRefreshing := false, failedQueue := [], inFlight := None,
           session := AuthSlice.Reduce(refreshed, AuthSlice.ResetAuthState),
           refreshesSettled := c.refreshesSettled + 1,
           settled := c.settled + Drain(c.failedQueue, Some(err), "") + [Rejected(c.inFlight.value, err)],
           redirectTo := if !Contains(path, "/login") then Some(LoginPath) else c.redirectTo)
  }

  /** A sequence of events, in order. */
  function Run(c: Coordinator, events: seq<Event>): Coordinator
    decreases |events|
  {
    if events == [] then c else Run(Step(c, events[0]), events[1..])
  }

  /** Single flight over any trace: the invariant holds after every
      sequence of events, so at most one refresh is ever outstanding. */
  lemma {:induction false} RunPreservesInv(c: Coordinator, events: seq<Event>)
    requires Inv(c)
    ensures Inv(Run(c, events))
    ensures Run(c, events).refreshCalls <= Run(c, events).refreshesSettled + 1
    decreases |events|
  {
    if events != [] {
      RunPreservesInv(Step(c, events[0]), events[1..]);
    }
  }

  /** Running two traces in a row is running their concatenation. */
  lemma {:induction false} RunAppend(c: Coordinator, a: seq<Event>, b: seq<Event>)
    ensures Run(c, a + b) == Run(Run(c, a), b)
    decreases |a|
  {
    if a == [] {
      assert a + b == b;
    } else {
      assert (a + b)[0] == a[0] && (a + b)[1..] == a[1..] + b;
      RunAppend(Step(c, a[0]), a[1..], b);
    }
  }

  /** Requests that will each draw a refreshable 401. */
  predicate AllFresh(rs: seq<Request>) {
    forall i | 0 <= i < |rs| ::
      !rs[i].retried && !Contains(rs[i].url, "/login") && !Contains(rs[i].url, "/refresh-token-superadmin")
  }

  /** Each request of `rs` answered with 401, in order. */
  function Unauthorized(rs: seq<Request>): (es: seq<Event>)
    ensures |es| == |rs|
    ensures forall i | 0 <= i < |rs| :: es[i] == ResponseError(Failure(rs[i], Some(401)))
  {
    if rs == [] then [] else [ResponseError(Failure(rs[0], Some(401)))] + Unauthorized(rs[1..])
  }

  /** While a refresh is in flight, 401s only join the queue, in arrival
      order; no further refresh is started. */
  lemma {:induction false} QueueWhileRefreshing(c: Coordinator, rs: seq<Request>)
    requires c.isRefreshing && AllFresh(rs)
    ensures Run(c, Unauthorized(rs)) == c.(failedQueue := c.failedQueue + rs)
    decreases |rs|
  {
    if rs == [] {
      assert c.failedQueue + rs == c.failedQueue;
    } else {
      var es := Unauthorized(rs);
      assert Eligible(es[0].failure);
      var c1 := Step(c, es[0]);
      assert c1 == c.(failedQueue := c.failedQueue + [rs[0]]);
      assert es[1..] == Unauthorized(rs[1..]);
      assert AllFresh(rs[1..]) by {
        forall i | 0 <= i < |rs[1..]| ensures !rs[1..][i].retried {
          assert rs[1..][i] == rs[i + 1];
        }
      }
      QueueWhileRefreshing(c1, rs[1..]);
      assert c1.failedQueue + rs[1..] == c.failedQueue + rs;
    }
  }

  /** Concurrent 401s with no refresh in flight, then a successful
      refresh: exactly one refresh call is made, every waiter is released
      with the same new token in the order it failed, and the first
      request is replayed with the new bearer header. */
  lemma ConcurrentUnauthorizedThenSuccess(c: Coordinator, rs: seq<Request>, token: string)
    requires Inv(c) && !c.isRefreshing && |rs| >= 1 && AllFresh(rs)
    ensures var r := Run(c, Unauthorized(rs) + [RefreshSucceeded(token)]);
      && r.refreshCalls == c.refreshCalls + 1
      && !r.isRefreshing && r.failedQueue == []
      && r.defaultAuthorization == Some(BearerHeader(token))
      && r.settled == c.settled + Drain(rs[1..], None, token)
                      + [Replayed(rs[0].(retried := true, authorization := Some(BearerHeader(token))))]
      && r.session == AuthSlice.Refresh(c.session, AuthSlice.RefreshOk(token))
  {
    Started(c, rs);
    var c1 := Run(c, Unauthorized(rs));
    RunAppend(c, Unauthorized(rs), [RefreshSucceeded(token)]);
    RefreshSuccessStep(c1, token);
  }

  /** A successful refresh: every waiter is released with the new token,
      then the request that started the refresh is replayed with the new
      bearer header; the header becomes the instance default; the session
      stores the token and is authenticated. */
  lemma RefreshSuccessStep(c: Coordinator, t: string)
    requires Inv(c) && c.isRefreshing
    ensures var r := Step(c, RefreshSucceeded(t));
      && r.refreshesSettled == r.refreshCalls == c.refreshCalls
      && !r.isRefreshing && r.failedQueue == []
      && r.session == AuthSlice.Refresh(c.session, AuthSlice.RefreshOk(t))
      && r.session.storage[AuthSlice.TokenKey] == t && r.session.auth.isAuthenticated
      && r.defaultAuthorization == Some(BearerHeader(t))
      && r.settled == c.settled + Drain(c.failedQueue, None, t)
                      + [Replayed(c.inFlight.value.(authorization := Some(BearerHeader(t))))]
      && r.redirectTo == c.redirectTo
  {
  }

  /** A failed refresh: every waiter and then the request that started
      the refresh are rejected with the refresh error, in order; the
      session is logged out with both credentials removed; the browser is
      sent to the login page unless it is already on one. */
  lemma RefreshFailureStep(c: Coordinator, f: AuthSlice.ServerFailure, path: string)
    requires Inv(c) && c.isRefreshing
    ensures var r := Step(c, RefreshFailed(f, path));
      && r.refreshesSettled == r.refreshCalls == c.refreshCalls
      && !r.isRefreshing && r.failedQueue == []
      && r.session.auth == AuthSlice.LoggedOut
      && AuthSlice.Cleared(r.session.storage)
      && r.settled == c.settled + Drain(c.failedQueue, Some(RefreshRejection(f)), "") + [Rejected(c.inFlight.value, RefreshRejection(f))]
      && r.redirectTo == (if Contains(path, "/login") then c.redirectTo else Some(LoginPath))
  {
  }

  /** Concurrent 401s with no refresh in flight, then a failed refresh:
      one refresh call, every one of the requests rejected with the
      refresh error, the session logged out with its credentials removed,
      and a redirect to the login page unless already on one. */
  lemma ConcurrentUnauthorizedThenFailure(c: Coordinator, rs: seq<Request>, f: AuthSlice.ServerFailure, path: string)
    requires Inv(c) && !c.isRefreshing && |rs| >= 1 && AllFresh(rs)
    ensures var r := Run(c, Unauthorized(rs) + [RefreshFailed(f, path)]);
      && r.refreshCalls == c.refreshCalls + 1
      && !r.isRefreshing && r.failedQueue == []
      && r.session.auth == AuthSlice.LoggedOut
      && AuthSlice.Cleared(r.session.storage)
      && r.redirectTo == (if Contains(path, "/login") then c.redirectTo else Some(LoginPath))
      && |r.settled| == |c.settled| + |rs|
      && r.settled[..|c.settled|] == c.settled
      && (forall i | |c.settled| <= i < |r.settled| ::
            r.settled[i].Rejected? && r.settled[i].reason == RefreshRejection(f))
  {
    Started(c, rs);
    var c1 := Run(c, Unauthorized(rs));
    RunAppend(c, Unauthorized(rs), [RefreshFailed(f, path)]);
    RefreshFailureStep(c1, f, path);
  }

  /** The state after the 401s: the first started the refresh, the rest
      wait in order. */
  lemma {:induction false} Started(c: Coordinator, rs: seq<Request>)
    requires Inv(c) && !c.isRefreshing && |rs| >= 1 && AllFresh(rs)
    ensures Run(c, Unauthorized(rs)) == c.(isRefreshing := true, inFlight := Some(rs[0].(retried := true)),
                     refreshCalls := c.refreshCalls + 1, failedQueue := rs[1..])
  {
    var e0 := ResponseError(Failure(rs[0], Some(401)));
    var tail := Unauthorized(rs[1..]);
    assert Unauthorized(rs) == [e0] + tail;
    RunAppend(c, [e0], tail);
    assert Eligible(e0.failure);
    var c0 := Step(c, e0);
    assert Run(c, [e0]) == c0 by {
      assert [e0][1..] == [];
    }
    assert AllFresh(rs[1..]) by {
      forall i | 0 <= i < |rs[1..]| ensures !rs[1..][i].retried {
        assert rs[1..][i] == rs[i + 1];
      }
    }
    QueueWhileRefreshing(c0, rs[1..]);
    assert [] + rs[1..] == rs[1..];
  }

  // ---- Later requests ----

  /** The request as the server receives it. Axios merges the instance's
      default headers under the request's own before the request
      interceptor runs, so once a refresh has set the default
      `Authorization`, a request without its own header already carries
      one and the interceptor leaves it alone. */
  function Outgoing(c: Coordinator, req: Request): (r: Request)
    ensures r.id == req.id && r.url == req.url && r.retried == req.retried
    ensures c.defaultAuthorization.None? ==> r == AttachToken(req, c.session.auth, c.session.storage)
    ensures req.authorization.None? && c.defaultAuthorization.Some? && Truthy(c.defaultAuthorization.value) ==>
      r.authorization == c.defaultAuthorization
  {
    var merged := if req.authorization.None? then req.(authorization := c.defaultAuthorization) else req;
    AttachToken(merged, c.session.auth, c.session.storage)
  }

  /** After a successful refresh, a later request without its own header
      is sent with the refreshed token whatever the session holds by then:
      a token from a later login or initialisation is not sent until
      another 401 forces another refresh. */
  lemma DefaultHeaderShadowsSession(c: Coordinator, t: string, ses: AuthSlice.Session, req: Request)
    requires Inv(c) && c.isRefreshing && req.authorization.None?
    ensures var sent := Outgoing(Step(c, RefreshSucceeded(t)).(session := ses), req);
      && sent.authorization == Some(BearerHeader(t))
      && BearerToken(sent.authorization.value) == Some(t)
  {
    BearerRoundTrip(t);
  }

  /** Logout while the backend answers its call with 401. The thunk clears
      the credentials and resets the record at once; the 401 then reaches
      the response interceptor, whose refresh succeeds and writes the new
      token back to storage; when the call settles, the fulfilled logout
      reducer resets the record again. The record ends logged out, but
      storage holds a token without a user, so the next page load starts
      with `isAuthenticated` set; the guard then denies that load for want
      of a user (`RouteGuard.TokenWithoutUserDenied`). */
  lemma LogoutUnauthorizedRestoresToken(c: Coordinator, id: nat, t: string)
    requires Inv(c) && !c.isRefreshing && t != ""
    ensures var loggedOut := AuthSlice.Logout(c.session, false);
      var call := Failure(Request(id, LogoutUrl, false, None), Some(401));
      var r := Run(c.(session := loggedOut), [ResponseError(call), RefreshSucceeded(t)]);
      var settled := AuthSlice.Reduce(r.session, AuthSlice.LogoutFulfilled);
      && settled.auth == AuthSlice.LoggedOut
      && settled.storage == loggedOut.storage[AuthSlice.TokenKey := t]
      && AuthSlice.StoredToken(settled.storage) == Some(t)
      && AuthSlice.StoredUser(settled.storage) == None
      && AuthSlice.InitialState(settled.storage).isAuthenticated
  {
    var loggedOut := AuthSlice.Logout(c.session, false);
    var c0 := c.(session := loggedOut);
    var call := Failure(Request(id, LogoutUrl, false, None), Some(401));
    LogoutEligible(id, None);
    var es := [ResponseError(call), RefreshSucceeded(t)];
    var c1 := Step(c0, es[0]);
    assert c1.isRefreshing && Inv(c1);
    RefreshSuccessStep(c1, t);
    var c2 := Step(c1, es[1]);
    assert es[1..] == [RefreshSucceeded(t)] && es[1..][1..] == [];
    assert Run(c2, []) == c2;
    assert Run(c1, es[1..]) == c2;
    assert Run(c0, es) == c2;
    assert c2.session.storage == loggedOut.storage[AuthSlice.TokenKey := t];
  }
}
