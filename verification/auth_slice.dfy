/** The session store: the persisted credentials (two `localStorage`
    keys), the in-memory auth record, its reducers, and the four auth
    operations (login, token refresh, logout, initialisation) as
    deterministic transitions driven by the server's answer. */
module AuthSlice {
  import opened Wrappers
  import opened Text

  /** The storage key of the access token. */
  const TokenKey: string := "SuperAdminToken"
  /** The storage key of the serialised user profile. */
  const UserKey: string := "SuperAdminUser"

  /** `localStorage`: string keys to string values. */
  type Storage = map<string, string>

  /** A user profile in its serialised (JSON) form; serialising an object
      never yields the empty string. */
  type Profile = s: string | s != "" witness "{}"

  /** `localStorage.getItem(key) || null`: the entry, when present and
      non-empty (the empty string is falsy and reads as absent). */
  function Read(st: Storage, key: string): (r: Option<string>)
    ensures r.Some? <==> key in st && st[key] != ""
    ensures r.Some? ==> r.value == st[key]
  {
    if key in st && st[key] != "" then Some(st[key]) else None
  }

  /** The stored access token. */
  function StoredToken(st: Storage): Option<string> {
    Read(st, TokenKey)
  }

  /** The stored user profile. */
  function StoredUser(st: Storage): (r: Option<Profile>)
    ensures r.Some? <==> Read(st, UserKey).Some?
    ensures r.Some? ==> r.value == st[UserKey]
  {
    if UserKey in st && st[UserKey] != "" then Some(st[UserKey]) else None
  }

  /** Removes both credential keys and leaves every other key as it was. */
  function ClearCredentials(st: Storage): (r: Storage)
    ensures TokenKey !in r && UserKey !in r
    ensures forall k | k != TokenKey && k != UserKey :: k in r <==> k in st
    ensures forall k | k in r :: r[k] == st[k]
  {
    st - {TokenKey, UserKey}
  }

  /** Both credentials are gone from storage. */
  predicate Cleared(st: Storage) {
    StoredToken(st) == None && StoredUser(st) == None
  }

  /** Lifecycle marker of the most recent operation. */
  datatype Status = Idle | Loading | Succeeded | Failed

  /** The auth record held in memory. */
  datatype AuthState = AuthState(
    user: Option<Profile>,
    accessToken: Option<string>,
    status: Status,
    error: Option<string>,
    isAuthenticated: bool)

  /** The auth record together with the storage it mirrors. */
  datatype Session = Session(auth: AuthState, storage: Storage)

  /** The shape every logout path produces. */
  const LoggedOut: AuthState := AuthState(None, None, Idle, None, false)

  /** The state the store starts from, read from storage at load time.
      Authentication follows the stored token alone. */
  function InitialState(st: Storage): (s: AuthState)
    ensures s.isAuthenticated <==> StoredToken(st).Some?
    ensures s.accessToken == StoredToken(st) && s.user == StoredUser(st)
    ensures s.status == Idle && s.error == None
  {
    AuthState(StoredUser(st), StoredToken(st), Idle, None, StoredToken(st).Some?)
  }

  /** Whether a stored user exists has no bearing on the initial
      authentication flag. */
  lemma InitialAuthIgnoresUser(st: Storage, profile: Profile)
    ensures InitialState(st[UserKey := profile]).isAuthenticated
         == InitialState(st - {UserKey}).isAuthenticated
  {
    assert StoredToken(st[UserKey := profile]) == StoredToken(st - {UserKey});
  }

  /** The payload a rejected operation carries: the server's error body
      or the operation's fallback `{ message }`. */
  datatype ErrorPayload = ErrorPayload(message: Option<string>)

  /** A failed request: the response body, absent when there was no
      response or an empty body. */
  datatype ServerFailure = ServerFailure(data: Option<ErrorPayload>)

  /** `err.response?.data || { message: fallback }`. */
  function RejectPayload(f: ServerFailure, fallback: string): ErrorPayload {
    f.data.GetOr(ErrorPayload(Some(fallback)))
  }

  /** `action.payload?.message || fallback`. */
  function ErrorMessage(p: ErrorPayload, fallback: string): (m: string)
    ensures m == fallback || p.message == Some(m)
    ensures fallback != "" ==> m != ""
  {
    OrElse(p.message, fallback)
  }

  /** The actions the slice reacts to. */
  datatype Action =
    | ResetAuthState
    | SetAuthFromStorage
    | LoginPending
    | LoginFulfilled(user: Profile, accessToken: string)
    | LoginRejected(payload: ErrorPayload)
    | RefreshFulfilled(accessToken: string)
    | RefreshRejected(payload: ErrorPayload)
    | LogoutFulfilled
    | LogoutRejected
    | InitializeFulfilled(user: Profile, accessToken: string)
    | InitializeRejected

  /** The slice's reducers. `resetAuthState` also clears storage and
      `setAuthFromStorage` reads it; every other reducer leaves storage
      alone. Actions without a reducer (the pending actions of refresh,
      logout and initialise) are not listed. */
  function Reduce(ses: Session, a: Action): (r: Session)
    ensures a != ResetAuthState ==> r.storage == ses.storage
    ensures a == ResetAuthState ==> r == Session(LoggedOut, ClearCredentials(ses.storage))
    ensures r.auth.isAuthenticated && !ses.auth.isAuthenticated ==>
      a.LoginFulfilled? || a.RefreshFulfilled? || a.InitializeFulfilled? || a.SetAuthFromStorage?
  {
    var s := ses.auth;
    match a
    case ResetAuthState =>
      Session(LoggedOut, ClearCredentials(ses.storage))
    case SetAuthFromStorage =>
      (match (StoredToken(ses.storage), StoredUser(ses.storage))
       case (Some(t), Some(u)) =>
         ses.(auth := s.(accessToken := Some(t), user := Some(u), isAuthenticated := true))
       case _ => ses)
    case LoginPending =>
      ses.(auth := s.(status := Loading, error := None))
    case LoginFulfilled(u, t) =>
      ses.(auth := s.(status := Succeeded, user := Some(u), accessToken := Some(t),
                      isAuthenticated := true, error := None))
    case LoginRejected(p) =>
      ses.(auth := s.(status := Failed, error := Some(ErrorMessage(p, "Login failed")),
                      isAuthenticated := false))
    case RefreshFulfilled(t) =>
      ses.(auth := s.(accessToken := Some(t), isAuthenticated := true, error := None))
    case RefreshRejected(p) =>
      ses.(auth := s.(user := None, accessToken := None, isAuthenticated := false,
                      error := Some(ErrorMessage(p, "Token refresh failed"))))
    case LogoutFulfilled =>
      ses.(auth := LoggedOut)
    case LogoutRejected =>
      ses.(auth := LoggedOut)
    case InitializeFulfilled(u, t) =>
      ses.(auth := AuthState(Some(u), Some(t), Succeeded, None, true))
    case InitializeRejected =>
      ses.(auth := s.(user := None, accessToken := None, isAuthenticated := false, status := Idle))
  }

  /** An authenticated record always holds a token. */
  predicate TokenBacked(s: AuthState) {
    s.isAuthenticated ==> s.accessToken.Some?
  }

  /** Every reducer keeps the record token-backed, and the initial state
      is token-backed. */
  lemma ReducePreservesTokenBacked(ses: Session, a: Action, st: Storage)
    requires TokenBacked(ses.auth)
    ensures TokenBacked(Reduce(ses, a).auth)
    ensures TokenBacked(InitialState(st))
  {
  }

  /** `setAuthFromStorage` changes the record exactly when both
      credentials are stored, and then copies them in. */
  lemma SetAuthFromStorageEffect(ses: Session)
    ensures var r := Reduce(ses, SetAuthFromStorage);
      (StoredToken(ses.storage).Some? && StoredUser(ses.storage).Some? ==>
         r.auth.accessToken == StoredToken(ses.storage)
         && r.auth.user == StoredUser(ses.storage)
         && r.auth.isAuthenticated
         && r.auth.status == ses.auth.status && r.auth.error == ses.auth.error)
      && (StoredToken(ses.storage).None? || StoredUser(ses.storage).None? ==> r == ses)
  {
  }

  /** What the server answered to the login request. */
  datatype LoginOutcome = LoginOk(user: Profile, accessToken: string) | LoginFail(failure: ServerFailure)

  /** The `login` operation: pending, then on success both credentials
      are persisted and the record takes the new session; on failure the
      existing user and token are kept and only status, error and the
      flag change. */
  function Login(ses: Session, outcome: LoginOutcome): (r: Session)
    ensures outcome.LoginOk? ==>
      && r.storage == ses.storage[TokenKey := outcome.accessToken][UserKey := outcome.user]
      && r.auth == AuthState(Some(outcome.user), Some(outcome.accessToken), Succeeded, None, true)
    ensures outcome.LoginFail? ==>
      && r.storage == ses.storage
      && r.auth.user == ses.auth.user && r.auth.accessToken == ses.auth.accessToken
      && r.auth.status == Failed && !r.auth.isAuthenticated
      && r.auth.error == Some(ErrorMessage(RejectPayload(outcome.failure, "Login failed"), "Login failed"))
  {
    var pending := Reduce(ses, LoginPending);
    match outcome
    case LoginOk(u, t) =>
      var stored := pending.(storage := pending.storage[TokenKey := t][UserKey := u]);
      Reduce(stored, LoginFulfilled(u, t))
    case LoginFail(f) =>
      Reduce(pending, LoginRejected(RejectPayload(f, "Login failed")))
  }

  /** A failed login reports the server's message when it sent one and
      "Login failed" otherwise. */
  lemma LoginFailureMessage(ses: Session, msg: string)
    requires msg != ""
    ensures Login(ses, LoginFail(ServerFailure(Some(ErrorPayload(Some(msg)))))).auth.error == Some(msg)
    ensures Login(ses, LoginFail(ServerFailure(None))).auth.error == Some("Login failed")
    ensures Login(ses, LoginFail(ServerFailure(Some(ErrorPayload(None))))).auth.error == Some("Login failed")
  {
  }

  /** What the refresh endpoint answered. */
  datatype RefreshOutcome = RefreshOk(accessToken: string) | RefreshFail(failure: ServerFailure)

  /** The `refreshToken` operation. Success overwrites only the token, in
      storage and in the record; failure removes both credentials and
      drops user and token from the record. */
  function Refresh(ses: Session, outcome: RefreshOutcome): (r: Session)
    ensures outcome.RefreshOk? ==>
      && r.storage == ses.storage[TokenKey := outcome.accessToken]
      && r.auth == ses.auth.(accessToken := Some(outcome.accessToken), isAuthenticated := true, error := None)
    ensures outcome.RefreshFail? ==>
      && r.storage == ClearCredentials(ses.storage)
      && r.auth.user == None && r.auth.accessToken == None && !r.auth.isAuthenticated
      && r.auth.status == ses.auth.status
      && r.auth.error == Some(ErrorMessage(RefreshPayload(outcome), "Token refresh failed"))
  {
    match outcome
    case RefreshOk(t) =>
      Reduce(ses.(storage := ses.storage[TokenKey := t]), RefreshFulfilled(t))
    case RefreshFail(f) =>
      Reduce(ses.(storage := ClearCredentials(ses.storage)), RefreshRejected(RejectPayload(f, "Token refresh failed")))
  }

  /** The rejection value of a failed refresh. */
  function RefreshPayload(outcome: RefreshOutcome): ErrorPayload
    requires outcome.RefreshFail?
  {
    RejectPayload(outcome.failure, "Token refresh failed")
  }

  /** The `logout` thunk's own steps. The backend call's rejection is
      caught and ignored: storage is cleared and the record reset whatever
      the call answers. A 401 answer also passes through the response
      interceptor first, which may refresh and store a token again; that
      path is `HttpClient.LogoutUnauthorizedRestoresToken`. */
  function Logout(ses: Session, backendSucceeded: bool): (r: Session)
    ensures r.auth == LoggedOut
    ensures Cleared(r.storage)
    ensures forall k | k != TokenKey && k != UserKey :: k in r.storage <==> k in ses.storage
  {
    var cleared := ses.(storage := ClearCredentials(ses.storage));
    var reset := Reduce(cleared, ResetAuthState);
    // the backend promise's rejection is swallowed, so the thunk fulfils
    Reduce(reset, LogoutFulfilled)
  }

  /** The thunk's own steps end in the same place whether or not the
      backend call succeeded. */
  lemma LogoutIgnoresBackend(ses: Session)
    ensures Logout(ses, true) == Logout(ses, false)
  {
  }

  /** Even the rejected path of logout produces the logged-out shape. */
  lemma LogoutRejectedIsLoggedOut(ses: Session)
    ensures Reduce(ses, LogoutRejected).auth == Reduce(ses, LogoutFulfilled).auth == LoggedOut
  {
  }

  /** The `initializeAuth` operation. Without both stored credentials it
      rejects ("No stored credentials") without asking the server;
      otherwise it refreshes, and on success takes the stored user with
      the new token, while on failure it clears storage and logs out. */
  function InitializeAuth(ses: Session, outcome: RefreshOutcome): (r: Session)
    ensures StoredToken(ses.storage).None? || StoredUser(ses.storage).None? ==>
      && r.storage == ses.storage
      && r.auth == ses.auth.(user := None, accessToken := None, isAuthenticated := false, status := Idle)
    ensures StoredToken(ses.storage).Some? && StoredUser(ses.storage).Some? && outcome.RefreshOk? ==>
      && r.storage == ses.storage[TokenKey := outcome.accessToken]
      && r.auth == AuthState(StoredUser(ses.storage), Some(outcome.accessToken), Succeeded, None, true)
    ensures StoredToken(ses.storage).Some? && StoredUser(ses.storage).Some? && outcome.RefreshFail? ==>
      && Cleared(r.storage)
      && r.auth.user == None && r.auth.accessToken == None && !r.auth.isAuthenticated
      && r.auth.status == Idle
      && r.auth.error == Some(ErrorMessage(RefreshPayload(outcome), "Token refresh failed"))
  {
    match (StoredToken(ses.storage), StoredUser(ses.storage))
    case (Some(_), Some(u)) =>
      var refreshed := Refresh(ses, outcome);
      (match outcome
       case RefreshOk(t) => Reduce(refreshed, InitializeFulfilled(u, t))
       case RefreshFail(_) =>
         Reduce(refreshed.(storage := ClearCredentials(refreshed.storage)), InitializeRejected))
    case _ =>
      Reduce(ses, InitializeRejected)
  }

  /** Without stored credentials no refresh is attempted: the server's
      answer cannot influence the result. */
  lemma InitializeWithoutCredentialsSkipsRefresh(ses: Session, o1: RefreshOutcome, o2: RefreshOutcome)
    requires StoredToken(ses.storage).None? || StoredUser(ses.storage).None?
    ensures InitializeAuth(ses, o1) == InitializeAuth(ses, o2)
  {
  }

  /** Every operation keeps the record token-backed. */
  lemma OperationsPreserveTokenBacked(ses: Session, lo: LoginOutcome, ro: RefreshOutcome, b: bool)
    requires TokenBacked(ses.auth)
    ensures TokenBacked(Login(ses, lo).auth)
    ensures TokenBacked(Refresh(ses, ro).auth)
    ensures TokenBacked(Logout(ses, b).auth)
    ensures TokenBacked(InitializeAuth(ses, ro).auth)
  {
  }
}
