/**
 The authentication context: an in-memory user (plus `loading` and `error`) kept
 in step with the two storage entries. Every network call goes through the
 response interceptor of `HttpClient` before the context's own error handling.
 */
module Session {
  import opened JsCore
  import opened Entities
  import opened BrowserStorage
  import opened HttpClient

  datatype AuthState = AuthState(user: Option<User>, loading: bool, error: Option<string>, storage: Storage)

  /** `response.data` of `POST /auth/login` and `POST /auth/register`, taken to carry both fields. */
  datatype AuthData = AuthData(user: User, accessToken: string)

  /** Request bodies the context sends. */
  datatype Body =
    | Credentials(email: string, password: string)
    | Registration(username: string, email: string, password: string, role: string)

  /** The state after an operation, what the operation returned or threw, and any forced navigation. */
  datatype AuthStep = AuthStep(state: AuthState, outcome: Outcome<User>, redirect: Option<Route>)

  const LoginFailed: string := "Login failed"
  const RegistrationFailed: string := "Registration failed"
  const UpdateFailed: string := "Update failed"

  /** The provider's first render: no user, still loading, no error. */
  function Mount(storage: Storage): (r: AuthState)
    ensures r.user.None? && r.loading && r.error.None? && r.storage == storage
  {
    AuthState(None, true, None, storage)
  }

  /** The start-up effect: restore the user only when both entries are present; loading ends either way. */
  function Init(st: AuthState): (r: AuthState)
    ensures !r.loading
    ensures r.storage == st.storage && r.error == st.error
    ensures StoredUser(st.storage).Some? && StoredToken(st.storage).Some? ==> r.user == StoredUser(st.storage)
    ensures StoredUser(st.storage).None? || StoredToken(st.storage).None? ==> r.user == st.user
  {
    if StoredUser(st.storage).Some? && StoredToken(st.storage).Some? then
      st.(user := StoredUser(st.storage), loading := false)
    else
      st.(loading := false)
  }

  /** A page load: mount the provider over the current storage and run the start-up effect. */
  function Reload(storage: Storage): (r: AuthState)
    ensures !r.loading && r.error.None? && r.storage == storage
    ensures r.user.Some? <==> StoredUser(storage).Some? && StoredToken(storage).Some?
    ensures r.user.Some? ==> r.user == StoredUser(storage)
  {
    Init(Mount(storage))
  }

  /** `isAuthenticated: !!user`. */
  predicate IsAuthenticated(st: AuthState) {
    st.user.Some?
  }

  /** Storing a successful sign-in: both entries written, the user published, the error cleared. */
  function SignedIn(st: AuthState, storage: Storage, data: AuthData): (r: AuthState)
    ensures r.user == Some(data.user) && r.error.None? && r.loading == st.loading
    ensures StoredUser(r.storage) == Some(data.user)
    ensures TokenKey in r.storage && r.storage[TokenKey] == Text(data.accessToken)
    ensures AgreeOutside(storage, r.storage, {UserKey, TokenKey})
  {
    st.(user := Some(data.user), error := None,
        storage := storage[UserKey := UserJson(data.user)][TokenKey := Text(data.accessToken)])
  }

  /** The body `login` posts to `/auth/login`. */
  function LoginBody(email: string, password: string): (b: Body)
    ensures b.Credentials? && b.email == email && b.password == password
  {
    Credentials(email, password)
  }

  /** `login`: on success persist and publish the response user; on failure keep the user and raise the response message, else 'Login failed'. */
  function Login(st: AuthState, reply: Reply<AuthData>): (r: AuthStep)
    ensures reply.Success? ==>
      && r.outcome == Returned(reply.data.user)
      && r.state == SignedIn(st, st.storage, reply.data)
      && r.redirect.None?
    ensures reply.Failure? ==>
      && r.outcome == Threw(MessageOr(reply.error, LoginFailed))
      && r.state.error == Some(r.outcome.message)
      && r.state.user == st.user && r.state.loading == st.loading
      && r.state.storage == Intercept(st.storage, reply).storage
      && r.redirect == Intercept(st.storage, reply).redirect
  {
    var seen := Intercept(st.storage, reply);
    match reply
    case Success(data) => AuthStep(SignedIn(st, seen.storage, data), Returned(data.user), None)
    case Failure(error) =>
      var message := MessageOr(error, LoginFailed);
      AuthStep(st.(error := Some(message), storage := seen.storage), Threw(message), seen.redirect)
  }

  /** The body `register` posts to `/auth/register`: the role is always the ordinary user role. */
  function RegisterBody(username: string, email: string, password: string): (b: Body)
    ensures b.Registration? && b.role == "user"
    ensures b.username == username && b.email == email && b.password == password
  {
    Registration(username, email, password, "user")
  }

  /** `register`: as `login`, but the error text prefers `detail`, then `message`, then 'Registration failed'. */
  function Register(st: AuthState, reply: Reply<AuthData>): (r: AuthStep)
    ensures reply.Success? ==>
      && r.outcome == Returned(reply.data.user)
      && r.state == SignedIn(st, st.storage, reply.data)
      && r.redirect.None?
    ensures reply.Failure? ==>
      && r.outcome == Threw(DetailOrMessageOr(reply.error, RegistrationFailed))
      && r.state.error == Some(r.outcome.message)
      && r.state.user == st.user && r.state.loading == st.loading
      && r.state.storage == Intercept(st.storage, reply).storage
      && r.redirect == Intercept(st.storage, reply).redirect
  {
    var seen := Intercept(st.storage, reply);
    match reply
    case Success(data) => AuthStep(SignedIn(st, seen.storage, data), Returned(data.user), None)
    case Failure(error) =>
      var message := DetailOrMessageOr(error, RegistrationFailed);
      AuthStep(st.(error := Some(message), storage := seen.storage), Threw(message), seen.redirect)
  }

  /** `logout`: both entries removed, user and error cleared; no request is made. */
  function Logout(st: AuthState): (r: AuthState)
    ensures r.user.None? && r.error.None? && r.loading == st.loading
    ensures UserKey !in r.storage && TokenKey !in r.storage
    ensures AgreeOutside(st.storage, r.storage, {UserKey, TokenKey})
  {
    st.(user := None, error := None, storage := ClearSession(st.storage))
  }

  /** `updateProfile`: on success overwrite only the `user` entry and publish the returned user. */
  function UpdateProfile(st: AuthState, reply: Reply<User>): (r: AuthStep)
    ensures reply.Success? ==>
      && r.outcome == Returned(reply.data)
      && r.state.user == Some(reply.data) && r.state.error.None? && r.state.loading == st.loading
      && StoredUser(r.state.storage) == Some(reply.data)
      && AgreeOutside(st.storage, r.state.storage, {UserKey})
      && r.redirect.None?
    ensures reply.Failure? ==>
      && r.outcome == Threw(MessageOr(reply.error, UpdateFailed))
      && r.state.error == Some(r.outcome.message)
      && r.state.user == st.user && r.state.loading == st.loading
      && r.state.storage == Intercept(st.storage, reply).storage
      && r.redirect == Intercept(st.storage, reply).redirect
  {
    var seen := Intercept(st.storage, reply);
    match reply
    case Success(user) =>
      AuthStep(st.(user := Some(user), error := None, storage := seen.storage[UserKey := UserJson(user)]),
               Returned(user), None)
    case Failure(error) =>
      var message := MessageOr(error, UpdateFailed);
      AuthStep(st.(error := Some(message), storage := seen.storage), Threw(message), seen.redirect)
  }

  /** A failed call that is not a 401 leaves storage and user untouched. */
  lemma FailureWithoutUnauthorizedKeepsSession(st: AuthState, reply: Reply<AuthData>, update: Reply<User>)
    requires reply.Failure? && !IsUnauthorized(reply)
    requires update.Failure? && !IsUnauthorized(update)
    ensures Login(st, reply).state.storage == st.storage && Login(st, reply).state.user == st.user
    ensures UpdateProfile(st, update).state.storage == st.storage
    ensures UpdateProfile(st, update).state.user == st.user
    ensures Login(st, reply).redirect.None? && UpdateProfile(st, update).redirect.None?
  {
  }

  /** A successful login survives a page reload exactly when the token is non-empty. */
  lemma LoginSurvivesReload(st: AuthState, data: AuthData)
    ensures var after := Login(st, Success(data)).state;
      Reload(after.storage).user == (if data.accessToken != [] then Some(data.user) else None)
  {
    var after := Login(st, Success(data)).state;
    assert StoredUser(after.storage) == Some(data.user);
    assert after.storage[TokenKey] == Text(data.accessToken);
  }

  /** After logout, a reload finds no session. */
  lemma LogoutSurvivesReload(st: AuthState)
    ensures !IsAuthenticated(Logout(st))
    ensures !IsAuthenticated(Reload(Logout(st).storage))
  {
  }

  /** A 401 on any session call clears storage and forces /login; the reload that follows finds no session. */
  lemma UnauthorizedSignsOutAfterReload(st: AuthState, reply: Reply<AuthData>, update: Reply<User>)
    requires IsUnauthorized(reply) && IsUnauthorized(update)
    ensures Login(st, reply).redirect == Some(LoginRoute)
    ensures !IsAuthenticated(Reload(Login(st, reply).state.storage))
    ensures !IsAuthenticated(Reload(Register(st, reply).state.storage))
    ensures !IsAuthenticated(Reload(UpdateProfile(st, update).state.storage))
  {
  }

  /** A profile update keeps the stored token, so a reload restores the updated user. */
  lemma UpdateProfileSurvivesReload(st: AuthState, user: User)
    requires StoredToken(st.storage).Some?
    ensures Reload(UpdateProfile(st, Success(user)).state.storage).user == Some(user)
  {
    var s := UpdateProfile(st, Success(user)).state.storage;
    assert s[TokenKey] == st.storage[TokenKey];
  }

  /** Every transition writes entries of the kind the start-up effect reads back. */
  lemma TransitionsKeepStorageWellTyped(st: AuthState, auth: Reply<AuthData>, update: Reply<User>)
    requires WellTyped(st.storage)
    ensures WellTyped(Init(st).storage)
    ensures WellTyped(Login(st, auth).state.storage)
    ensures WellTyped(Register(st, auth).state.storage)
    ensures WellTyped(Logout(st).storage)
    ensures WellTyped(UpdateProfile(st, update).state.storage)
  {
  }

  /** Session and credential entries stay paired; `updateProfile` keeps the pairing only when the session entry exists. */
  lemma TransitionsKeepStoragePaired(st: AuthState, auth: Reply<AuthData>, update: Reply<User>)
    requires Paired(st.storage)
    ensures Paired(Login(st, auth).state.storage)
    ensures Paired(Register(st, auth).state.storage)
    ensures Paired(Logout(st).storage)
    ensures UserKey in st.storage ==> Paired(UpdateProfile(st, update).state.storage)
  {
  }

  /** Without a session entry, a successful profile update leaves a user entry with no token beside it. */
  lemma UpdateProfileCanUnpair(st: AuthState, user: User)
    requires UserKey !in st.storage && TokenKey !in st.storage
    ensures !Paired(UpdateProfile(st, Success(user)).state.storage)
  {
  }
}
