/** The authentication slice of the store (`src/store/slices/authSlice.ts`):
    its state, the reducer over every action it handles, the message
    extraction its thunks share, and the thunks' outcomes given what the
    server answered. */
module AuthSlice {
  import opened Wrappers
  import JsString
  import Json
  import EH = ErrorHandler

  /** A user as the server sends it; reducers treat it as a plain object. */
  type User = Json.Record

  datatype AuthState = AuthState(
    isAuthenticated: bool,
    user: Option<User>,
    token: Option<string>,
    loading: bool,
    error: Option<string>)

  const InitialAuthState := AuthState(false, None, None, false, None)

  datatype AuthResponse = AuthResponse(user: User, token: string, isNewUser: bool)

  /** The three request thunks: sending a code, logging in, signing up. */
  datatype Thunk = SendVerificationCode | LoginWithPhone | SignupUser

  datatype AuthAction =
    | ClearError
    | SetUser(user: User)
    | UpdateCoreUser(patch: Json.Record)
    | SetToken(token: string)
    | ResetAuthState
    | Pending(thunk: Thunk)
    | SendCodeFulfilled
    | LoginFulfilled(response: AuthResponse)
    | SignupFulfilled(response: AuthResponse)
    | Rejected(thunk: Thunk, message: string)
    | LogoutFulfilled

  /** The reducer. A rejection never touches the session; only a session
      response, `setToken`, logout and reset move the token; only a session
      response authenticates; logout and reset both return the initial state. */
  function Reduce(s: AuthState, a: AuthAction): (r: AuthState)
    ensures a.Pending? ==> r == s.(loading := true, error := None)
    ensures a.Rejected? ==>
      && r.isAuthenticated == s.isAuthenticated && r.user == s.user && r.token == s.token
      && !r.loading && r.error == Some(a.message)
    ensures a.LoginFulfilled? || a.SignupFulfilled? ==>
      r == s.(loading := false, isAuthenticated := true, user := Some(a.response.user), token := Some(a.response.token))
    ensures a == LogoutFulfilled || a == ResetAuthState ==> r == InitialAuthState
    ensures r.token != s.token ==> a.SetToken? || a.LoginFulfilled? || a.SignupFulfilled? || a == LogoutFulfilled || a == ResetAuthState
    ensures r.isAuthenticated && !s.isAuthenticated ==> a.LoginFulfilled? || a.SignupFulfilled?
    ensures a.UpdateCoreUser? ==> (r.user.None? <==> s.user.None?) && r.token == s.token
  {
    match a
    case ClearError => s.(error := None)
    case SetUser(u) => s.(user := Some(u))
    case UpdateCoreUser(patch) =>
      if s.user.Some? then s.(user := Some(Json.Merge(s.user.value, patch))) else s
    case SetToken(t) => s.(token := Some(t))
    case ResetAuthState => InitialAuthState
    case Pending(_) => s.(loading := true, error := None)
    case SendCodeFulfilled => s.(loading := false)
    case LoginFulfilled(resp) =>
      s.(loading := false, isAuthenticated := true, user := Some(resp.user), token := Some(resp.token))
    case SignupFulfilled(resp) =>
      s.(loading := false, isAuthenticated := true, user := Some(resp.user), token := Some(resp.token))
    case Rejected(_, message) => s.(loading := false, error := Some(message))
    case LogoutFulfilled =>
      s.(isAuthenticated := false, user := None, token := None, error := None, loading := false)
  }

  /** `setToken` changes the token and nothing else. */
  lemma SetTokenChangesOnlyToken(s: AuthState, t: string)
    ensures Reduce(s, SetToken(t)) == s.(token := Some(t))
  {
  }

  /** `updateCoreUser` merges the patch over a present user, key by key,
      and leaves an absent user absent. */
  lemma UpdateCoreUserMerges(s: AuthState, patch: Json.Record)
    ensures s.user.None? ==> Reduce(s, UpdateCoreUser(patch)) == s
    ensures s.user.Some? ==>
      var u := Reduce(s, UpdateCoreUser(patch)).user.value;
      && u.Keys == s.user.value.Keys + patch.Keys
      && (forall k | k in patch :: u[k] == patch[k])
      && (forall k | k in s.user.value && k !in patch :: u[k] == s.user.value[k])
  {
  }

  const UnexpectedErrorMessage := "An unexpected error occurred"

  /** `handleAsyncError`: the server's message, else the error's own
      message, else a fixed text; never empty. */
  function HandleAsyncError(e: EH.RawError): (r: string)
    ensures r != []
    ensures e.response.Some? && JsString.IsTruthy(e.response.value.dataMessage) ==> r == e.response.value.dataMessage.value
    ensures (e.response.None? || !JsString.IsTruthy(e.response.value.dataMessage)) && JsString.IsTruthy(e.message) ==> r == e.message.value
    ensures r == UnexpectedErrorMessage || Some(r) == e.message || (e.response.Some? && Some(r) == e.response.value.dataMessage)
  {
    var fromServer := if e.response.Some? then e.response.value.dataMessage else None;
    JsString.Or(fromServer, JsString.Or(e.message, UnexpectedErrorMessage))
  }

  /** For an error with a response that carries any message, the thunks'
      rejection text is the message the central normaliser shows. */
  lemma AsyncErrorAgreesWithNormalizer(e: EH.RawError, context: Option<string>)
    requires e.response.Some?
    requires JsString.IsTruthy(e.response.value.dataMessage) || JsString.IsTruthy(e.message)
    ensures HandleAsyncError(e) == EH.NormalizeError(e, context).message
  {
  }

  /** The action a send/login/signup thunk settles with, given the server's
      answer: the session on success, the extracted message on failure. */
  function SettleThunk(thunk: Thunk, answer: Result<AuthResponse, EH.RawError>): (a: AuthAction)
    ensures answer.Failure? ==> a == Rejected(thunk, HandleAsyncError(answer.error))
    ensures answer.Success? && thunk == SendVerificationCode ==> a == SendCodeFulfilled
    ensures answer.Success? && thunk == LoginWithPhone ==> a == LoginFulfilled(answer.value)
    ensures answer.Success? && thunk == SignupUser ==> a == SignupFulfilled(answer.value)
  {
    match answer
    case Failure(err) => Rejected(thunk, HandleAsyncError(err))
    case Success(resp) =>
      match thunk
      case SendVerificationCode => SendCodeFulfilled
      case LoginWithPhone => LoginFulfilled(resp)
      case SignupUser => SignupFulfilled(resp)
  }

  /** The logout thunk swallows a failing server call, so it always
      fulfils, whatever the server answered. */
  function LogoutThunk(server: Result<Unit, EH.RawError>): (a: AuthAction)
    ensures a == LogoutFulfilled
  {
    match server
    case Success(_) => LogoutFulfilled
    case Failure(_) => LogoutFulfilled
  }

  /** Logging out ends the session whatever the server answered and
      whatever state the slice was in. */
  lemma LogoutAlwaysEndsSession(s: AuthState, server: Result<Unit, EH.RawError>)
    ensures var r := Reduce(s, LogoutThunk(server));
      !r.isAuthenticated && r.user.None? && r.token.None? && r.error.None? && !r.loading
  {
  }

  /** A whole request: pending, then the settled action. A failed request
      leaves the session exactly as it was before the attempt. */
  lemma {:induction false} FailedRequestKeepsSession(s: AuthState, thunk: Thunk, err: EH.RawError)
    ensures var r := Reduce(Reduce(s, Pending(thunk)), SettleThunk(thunk, Failure(err)));
      && r.isAuthenticated == s.isAuthenticated && r.user == s.user && r.token == s.token
      && !r.loading && r.error == Some(HandleAsyncError(err))
  {
  }
}
