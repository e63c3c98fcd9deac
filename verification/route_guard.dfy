/** The guard in front of every protected page. It decides locally, from
    the auth record and the stored credentials, whether to render the page
    or send the browser to the login view. A token counts as valid when its
    `exp` claim (section 4.1.4 of RFC 7519, in seconds) lies more than
    30 seconds past the current time. */
module RouteGuard {
  import opened Wrappers
  import opened Text
  import AuthSlice

  /** The network-delay allowance, in milliseconds. */
  const BufferMs: int := 30000

  /** Where a denied visitor is sent. */
  const LoginPath: string := "/superadmin/login"

  /** `isTokenValid`. `exp` is the token's decoded expiry claim in seconds,
      absent when decoding fails (or the claim is missing, which makes the
      comparison false as well); `nowMs` is the clock in milliseconds. */
  predicate ExpValid(exp: Option<int>, nowMs: int) {
    exp.Some? && exp.value * 1000 > nowMs + BufferMs
  }

  /** The token's expiry, in milliseconds, lies strictly beyond the buffer. */
  lemma ExpValidMeaning(exp: Option<int>, nowMs: int)
    ensures ExpValid(exp, nowMs) <==> exp.Some? && exp.value * 1000 - nowMs > 30000
    ensures exp.Some? && exp.value * 1000 == nowMs + BufferMs ==> !ExpValid(exp, nowMs)
  {
  }

  /** A token valid now was valid at every earlier instant. */
  lemma ExpValidMonotone(exp: Option<int>, earlier: int, later: int)
    requires earlier <= later
    ensures ExpValid(exp, later) ==> ExpValid(exp, earlier)
  {
  }

  /** `isTokenValid(token)` with the decoder as a parameter. */
  predicate TokenValid(decode: string -> Option<int>, token: string, nowMs: int) {
    ExpValid(decode(token), nowMs)
  }

  /** A possibly absent token that is present, truthy and valid. */
  predicate SomeValid(decode: string -> Option<int>, token: Option<string>, nowMs: int) {
    token.Some? && Truthy(token.value) && TokenValid(decode, token.value, nowMs)
  }

  /** The mount-time hydrate condition: neither the flag nor an in-memory
      token is set, and storage holds a user and a token that is valid. */
  predicate ShouldHydrate(auth: AuthSlice.AuthState, st: AuthSlice.Storage,
                          decode: string -> Option<int>, nowMs: int) {
    && !auth.isAuthenticated
    && !(auth.accessToken.Some? && Truthy(auth.accessToken.value))
    && AuthSlice.StoredUser(st).Some?
    && SomeValid(decode, AuthSlice.StoredToken(st), nowMs)
  }

  /** The guard after its mount effect: the session, the loading flag,
      and whether the server check started by the effect is still
      pending. */
  datatype Mounted = Mounted(session: AuthSlice.Session, initializing: bool, checkPending: bool)

  /** The mount effect up to the server check. When the hydrate condition
      holds, the effect hydrates the record from storage and then awaits
      the check. The hydration changes `isAuthenticated` and `accessToken`,
      the effect's dependencies, so the effect runs again at once; that run
      skips the hydrate branch and its `finally` clears the loading flag
      while the first run still awaits the check. Without the condition
      the single run clears the flag. */
  function Mount(ses: AuthSlice.Session, decode: string -> Option<int>, nowMs: int): (r: Mounted)
    ensures !r.initializing
    ensures r.checkPending <==> ShouldHydrate(ses.auth, ses.storage, decode, nowMs)
    ensures !r.checkPending ==> r.session == ses
    ensures r.checkPending ==>
      && r.session.storage == ses.storage
      && r.session.auth.isAuthenticated
      && r.session.auth.user == AuthSlice.StoredUser(ses.storage)
      && r.session.auth.accessToken == AuthSlice.StoredToken(ses.storage)
      && !ShouldHydrate(r.session.auth, r.session.storage, decode, nowMs)
  {
    if ShouldHydrate(ses.auth, ses.storage, decode, nowMs) then
      var hydrated := AuthSlice.Reduce(ses, AuthSlice.SetAuthFromStorage);
      AuthSlice.SetAuthFromStorageEffect(ses);
      Mounted(hydrated, false, true)
    else
      Mounted(ses, false, false)
  }

  /** Both credentials are stored. */
  predicate HasCredentials(st: AuthSlice.Storage) {
    AuthSlice.StoredToken(st).Some? && AuthSlice.StoredUser(st).Some?
  }

  /** The server check settles: `initializeAuth` on the hydrated session,
      whose outcome is a parameter; its rejection is caught, and the first
      run's `finally` clears the loading flag once more. Nothing happens
      when no check is pending. */
  function CheckSettled(m: Mounted, check: AuthSlice.RefreshOutcome): (r: Mounted)
    ensures !r.checkPending
    ensures m.checkPending ==> !r.initializing
    ensures !m.checkPending ==> r == m
    ensures m.checkPending && HasCredentials(m.session.storage) && check.RefreshOk? ==>
      && r.session.storage == m.session.storage[AuthSlice.TokenKey := check.accessToken]
      && r.session.auth.isAuthenticated
      && r.session.auth.user == AuthSlice.StoredUser(m.session.storage)
      && r.session.auth.accessToken == Some(check.accessToken)
    ensures m.checkPending && HasCredentials(m.session.storage) && check.RefreshFail? ==>
      && AuthSlice.Cleared(r.session.storage)
      && !r.session.auth.isAuthenticated
      && r.session.auth.user == None && r.session.auth.accessToken == None
    ensures m.checkPending && !HasCredentials(m.session.storage) ==>
      && r.session.storage == m.session.storage
      && !r.session.auth.isAuthenticated
      && r.session.auth.user == None && r.session.auth.accessToken == None
  {
    if m.checkPending then
      Mounted(AuthSlice.InitializeAuth(m.session, check), false, false)
    else m
  }

  /** While the server check is pending the guard already renders: it
      admits on the hydrated record. */
  lemma HydratedAdmitsBeforeCheck(ses: AuthSlice.Session, decode: string -> Option<int>, nowMs: int,
                                  location: string)
    requires ShouldHydrate(ses.auth, ses.storage, decode, nowMs)
    ensures var m := Mount(ses, decode, nowMs);
      m.checkPending && Render(m.initializing, m.session.auth, m.session.storage, decode, nowMs, location).view == Admit
  {
  }

  /** A failed check, once settled, turns that admission into a redirect
      to the login page with both keys removed. */
  lemma FailedCheckRedirects(ses: AuthSlice.Session, decode: string -> Option<int>, nowMs: int,
                             location: string, f: AuthSlice.ServerFailure)
    requires ShouldHydrate(ses.auth, ses.storage, decode, nowMs)
    ensures var m := CheckSettled(Mount(ses, decode, nowMs), AuthSlice.RefreshFail(f));
      var g := Render(m.initializing, m.session.auth, m.session.storage, decode, nowMs, location);
      g.view == Redirect(LoginPath, location) && AuthSlice.Cleared(g.storage)
  {
    var m := CheckSettled(Mount(ses, decode, nowMs), AuthSlice.RefreshFail(f));
    assert AuthSlice.StoredToken(m.session.storage).None?;
  }

  /** What the guard renders: the loading placeholder, the protected page,
      or a replacing redirect that remembers the requested location. */
  datatype View = Loading | Admit | Redirect(to: string, from: string)

  /** A rendering and the storage after it. */
  datatype Guarded = Guarded(view: View, storage: AuthSlice.Storage)

  /** Some valid token, from the record or from storage. */
  predicate HasValidToken(auth: AuthSlice.AuthState, st: AuthSlice.Storage,
                          decode: string -> Option<int>, nowMs: int) {
    SomeValid(decode, auth.accessToken, nowMs) || SomeValid(decode, AuthSlice.StoredToken(st), nowMs)
  }

  /** A user, from the record or from storage. */
  predicate HasUser(auth: AuthSlice.AuthState, st: AuthSlice.Storage) {
    auth.user.Some? || AuthSlice.StoredUser(st).Some?
  }

  /** The admission decision once initialisation is over. Admission needs
      a valid token and a user; denial removes both stored credentials and
      keeps every other key. */
  function Decide(auth: AuthSlice.AuthState, st: AuthSlice.Storage,
                  decode: string -> Option<int>, nowMs: int, location: string): (r: Guarded)
    ensures r.view == Admit <==> HasValidToken(auth, st, decode, nowMs) && HasUser(auth, st)
    ensures r.view == Admit ==> r.storage == st
    ensures r.view != Admit ==>
      && r.view == Redirect(LoginPath, location)
      && AuthSlice.Cleared(r.storage)
      && (forall k | k != AuthSlice.TokenKey && k != AuthSlice.UserKey ::
            (k in r.storage <==> k in st) && (k in st ==> r.storage[k] == st[k]))
  {
    if !HasValidToken(auth, st, decode, nowMs) || !HasUser(auth, st) then
      Guarded(Redirect(LoginPath, location), AuthSlice.ClearCredentials(st))
    else
      Guarded(Admit, st)
  }

  /** The whole render: a placeholder while initialising, the decision after. */
  function Render(initializing: bool, auth: AuthSlice.AuthState, st: AuthSlice.Storage,
                  decode: string -> Option<int>, nowMs: int, location: string): (r: Guarded)
    ensures initializing ==> r == Guarded(Loading, st)
    ensures !initializing ==> r.view != Loading
  {
    if initializing then Guarded(Loading, st) else Decide(auth, st, decode, nowMs, location)
  }

  /** The decision never consults the `isAuthenticated` flag. */
  lemma DecisionIgnoresFlag(auth: AuthSlice.AuthState, st: AuthSlice.Storage,
                            decode: string -> Option<int>, nowMs: int, location: string, flag: bool)
    ensures Decide(auth.(isAuthenticated := flag), st, decode, nowMs, location)
         == Decide(auth, st, decode, nowMs, location)
  {
  }

  /** A denial is final for the same record: deciding again on the purged
      storage denies again. */
  lemma DenialIsStable(auth: AuthSlice.AuthState, st: AuthSlice.Storage,
                       decode: string -> Option<int>, nowMs: int, location: string)
    requires Decide(auth, st, decode, nowMs, location).view != Admit
    ensures var purged := Decide(auth, st, decode, nowMs, location).storage;
      Decide(auth, purged, decode, nowMs, location) == Guarded(Redirect(LoginPath, location), purged)
  {
    var purged := Decide(auth, st, decode, nowMs, location).storage;
    assert AuthSlice.StoredToken(purged).None? && AuthSlice.StoredUser(purged).None?;
    assert AuthSlice.ClearCredentials(purged) == purged;
  }

  /** On a reload the record is read from storage, so the guard never
      hydrates: with a valid stored token and a stored user it admits at
      once, and without a valid token or a user it denies. */
  lemma ReloadDecision(st: AuthSlice.Storage, decode: string -> Option<int>, nowMs: int,
                       location: string)
    ensures var ses := AuthSlice.Session(AuthSlice.InitialState(st), st);
      var m := Mount(ses, decode, nowMs);
      && m.session == ses && !m.checkPending
      && (Render(m.initializing, m.session.auth, m.session.storage, decode, nowMs, location).view == Admit
          <==> SomeValid(decode, AuthSlice.StoredToken(st), nowMs) && AuthSlice.StoredUser(st).Some?)
  {
  }

  /** A reload with a stored token but no stored user: the record starts
      authenticated, yet the guard, which never reads that flag, redirects
      to the login page and removes the token. */
  lemma TokenWithoutUserDenied(st: AuthSlice.Storage, decode: string -> Option<int>, nowMs: int,
                               location: string)
    requires AuthSlice.StoredToken(st).Some? && AuthSlice.StoredUser(st).None?
    ensures var ses := AuthSlice.Session(AuthSlice.InitialState(st), st);
      var m := Mount(ses, decode, nowMs);
      var g := Render(m.initializing, m.session.auth, m.session.storage, decode, nowMs, location);
      && ses.auth.isAuthenticated
      && g.view == Redirect(LoginPath, location)
      && AuthSlice.Cleared(g.storage)
  {
    ReloadDecision(st, decode, nowMs, location);
  }
}
