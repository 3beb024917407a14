/** The authenticated HTTP client of `src/services/api.ts`, as a pure state
    machine over an explicit sequence of events. A request is named by an
    id; an in-flight read is named by a promise id, so "the same promise"
    is "the same id". Three pieces are modelled:
    - the failure classifier of the response interceptor;
    - the refresh coordinator: one refresh in flight at a time, the
      requests that fail with 401 meanwhile waiting in a FIFO queue that is
      settled once, all with the refresh's outcome;
    - the read de-duplication registry, a map from request key to the
      in-flight promise, emptied entry by entry as reads settle.
    The transport is abstract: a failure is a status (or none) and a body
    message; what the effects ask for (send, retry, reject, log out) is
    returned as data. */
module ApiClient {
  import opened Wrappers
  import JsString
  import Json
  import EH = ErrorHandler
  import AuthSlice

  type RequestId = nat
  type PromiseId = nat

  /** The parts of an axios request configuration the client reads: the
      URL and the `_retry` mark it sets on a request it retries itself. */
  datatype RequestConfig = RequestConfig(url: string, retry: bool)

  /** A failed request as the response interceptor receives it. */
  datatype HttpFailure = HttpFailure(
    config: RequestConfig,
    response: Option<EH.ResponseInfo>,
    message: Option<string>,
    stack: Option<string>)

  const RefreshPath := "/auth/refresh"
  const LogoutPath := "/auth/logout"

  /** The request the logout thunk sends through this client: an ordinary,
      unmarked POST to the logout endpoint. */
  const LogoutRequest := RequestConfig(LogoutPath, false)
  const NetworkFailureMessage := "Network error. Please check your connection."
  const ForbiddenMessage := "Access denied"
  const RateLimitMessage := "Too many requests. Please try again later."
  const ServerErrorMessage := "Server error. Please try again."

  /** The plain `{ code, message }` object the client hands to the error
      normaliser for the failures it recognises. */
  function Tagged(code: EH.ErrorCode, message: string): EH.RawError
  {
    EH.RawError(None, Some(message), EH.StrCode(EH.CodeName(code)), None, None, None)
  }

  /** The axios error itself, as the normaliser sees it. */
  function AsRaw(f: HttpFailure): EH.RawError
  {
    EH.RawError(f.response, f.message, EH.NoCode, Some("AxiosError"), Some(f.config.url), f.stack)
  }

  /** A message in which "a" is never followed by "u" cannot mention "auth". */
  predicate WithoutAu(m: string)
  {
    forall i | 0 <= i < |m| - 1 :: !(m[i] == 'a' && m[i + 1] == 'u')
  }

  /** The normaliser ignores the string code of a tagged object, since every
      tag starts with a letter: a message that does not mention "auth" comes
      out as UNKNOWN_ERROR, verbatim. */
  lemma TaggedIsUnknown(code: EH.ErrorCode, message: string, context: Option<string>)
    requires message != [] && WithoutAu(message)
    ensures EH.NormalizeError(Tagged(code, message), context)
         == EH.AppError(EH.UnknownError, message, EH.LabelContext(context), None)
  {
    JsString.NotContainsWithoutPair(message, "auth");
    EH.LetterCodeIsNoGeolocationCode(EH.RawError(None, None, EH.StrCode(EH.CodeName(code)), None, None, None));
    EH.StringCodeIsIgnored(EH.CodeName(code), message, context);
  }

  /** None of the client's own messages mentions "auth". */
  lemma NetworkFailureMessageWithoutAu()
    ensures NetworkFailureMessage != [] && WithoutAu(NetworkFailureMessage)
  {
  }

  lemma ForbiddenMessageWithoutAu()
    ensures ForbiddenMessage != [] && WithoutAu(ForbiddenMessage)
  {
  }

  lemma RateLimitMessageWithoutAu()
    ensures RateLimitMessage != [] && WithoutAu(RateLimitMessage)
  {
  }

  lemma ServerErrorMessageWithoutAu()
    ensures ServerErrorMessage != [] && WithoutAu(ServerErrorMessage)
  {
  }

  /** What the response interceptor does with a failure. */
  datatype Decision =
    | Reject(error: EH.AppError)   // reject with the normalised error
    | LogoutAndReject              // log out, reject with the failure itself
    | Refresh                      // go through the refresh coordinator

  predicate Unauthorized(f: HttpFailure)
  {
    f.response.Some? && f.response.value.status == 401 && !f.config.retry
  }

  predicate IsRefreshCall(f: HttpFailure)
  {
    JsString.Contains(f.config.url, RefreshPath)
  }

  /** The statuses that reach the last, generic branch. */
  predicate ReachesGenericBranch(f: HttpFailure)
  {
    && f.response.Some?
    && !Unauthorized(f)
    && f.response.value.status != 403
    && f.response.value.status != 429
    && f.response.value.status < 500
  }

  /** `handleResponseError`'s decision tree, first match wins: no response,
      an unmarked 401 (on the refresh URL or not), 403, 429, 5xx, anything
      else. The four tagged rejections come out of the normaliser as
      UNKNOWN_ERROR with the client's message; the generic branch gives a
      NETWORK_ERROR carrying the status. */
  function Classify(f: HttpFailure): (d: Decision)
    ensures f.response.None? ==>
      d == Reject(EH.AppError(EH.UnknownError, NetworkFailureMessage, EH.LabelContext(Some("API Network")), None))
    ensures d.Refresh? <==> Unauthorized(f) && !IsRefreshCall(f)
    ensures d.LogoutAndReject? <==> Unauthorized(f) && IsRefreshCall(f)
    ensures f.response.Some? && f.response.value.status == 403 ==>
      d == Reject(EH.AppError(EH.UnknownError, ForbiddenMessage, EH.LabelContext(Some("API Forbidden")), None))
    ensures f.response.Some? && f.response.value.status == 429 ==>
      d == Reject(EH.AppError(EH.UnknownError, RateLimitMessage, EH.LabelContext(Some("API Rate Limit")), None))
    ensures f.response.Some? && f.response.value.status >= 500 ==>
      d == Reject(EH.AppError(EH.UnknownError, ServerErrorMessage, EH.LabelContext(Some("API Server Error")), None))
    ensures ReachesGenericBranch(f) ==>
      && d.Reject?
      && d.error.code == EH.NetworkError
      && d.error.context == EH.HttpContext(f.response.value.status, Some(f.config.url), Some("API Response"))
      && d.error.message == JsString.Or(f.response.value.dataMessage, JsString.Or(f.message, EH.DefaultNetworkMessage))
      && d.error.stack == f.stack
  {
    if f.response.None? then
      NetworkFailureMessageWithoutAu();
      TaggedIsUnknown(EH.NetworkError, NetworkFailureMessage, Some("API Network"));
      Reject(EH.NormalizeError(Tagged(EH.NetworkError, NetworkFailureMessage), Some("API Network")))
    else if Unauthorized(f) then
      if IsRefreshCall(f) then LogoutAndReject else Refresh
    else if f.response.value.status == 403 then
      ForbiddenMessageWithoutAu();
      TaggedIsUnknown(EH.AuthError, ForbiddenMessage, Some("API Forbidden"));
      Reject(EH.NormalizeError(Tagged(EH.AuthError, ForbiddenMessage), Some("API Forbidden")))
    else if f.response.value.status == 429 then
      RateLimitMessageWithoutAu();
      TaggedIsUnknown(EH.NetworkError, RateLimitMessage, Some("API Rate Limit"));
      Reject(EH.NormalizeError(Tagged(EH.NetworkError, RateLimitMessage), Some("API Rate Limit")))
    else if f.response.value.status >= 500 then
      ServerErrorMessageWithoutAu();
      TaggedIsUnknown(EH.NetworkError, ServerErrorMessage, Some("API Server Error"));
      Reject(EH.NormalizeError(Tagged(EH.NetworkError, ServerErrorMessage), Some("API Server Error")))
    else
      Reject(EH.NormalizeError(AsRaw(f), Some("API Response")))
  }

  /** A 401 on a request the client already retried, and any 404, take the
      generic branch: no logout, no refresh. */
  lemma RetriedUnauthorizedAndNotFoundAreGeneric(f: HttpFailure)
    requires f.response.Some?
    requires (f.response.value.status == 401 && f.config.retry) || f.response.value.status == 404
    ensures Classify(f).Reject? && Classify(f).error.code == EH.NetworkError
    ensures Classify(f).error.context.status == f.response.value.status
  {
  }

  /** Whatever the failure, the client never logs out without an unmarked
      401 on the refresh URL, and only an unmarked 401 elsewhere refreshes. */
  lemma OnlyUnauthorizedLeavesTheRejectPath(f: HttpFailure)
    requires !Unauthorized(f)
    ensures Classify(f).Reject?
  {
  }

  /** A request known to the client: its id and its configuration. */
  datatype Request = Request(id: RequestId, config: RequestConfig)

  /** `isRefreshing`, with the request whose 401 started the refresh. */
  datatype RefreshState = Idle | Refreshing(trigger: Request)

  datatype Client = Client(
    refresh: RefreshState,
    failedQueue: seq<Request>,
    requestMap: map<string, PromiseId>,
    readKeys: map<PromiseId, string>,   // the key each in-flight read deletes when it settles
    nextPromise: PromiseId)

  const InitialClient := Client(Idle, [], map[], map[], 0)

  /** Why a request was rejected. */
  datatype Rejection =
    | Handled(error: EH.AppError)          // the normalised error
    | Original(failure: HttpFailure)       // the failure, unchanged
    | RefreshFailed(reason: EH.RawError)   // the refresh call's error

  datatype Verb = Post | Put | Patch | Delete | Upload

  /** What a step asks of the outside world, in order. */
  datatype Effect =
    | RejectRequest(id: RequestId, reason: Rejection)
    | Reissue(id: RequestId, config: RequestConfig)
    | CallRefresh(authorization: string)
    | DispatchLogout   // starts the logout thunk, which sends `LogoutRequest`
    | SendRead(caller: RequestId, promise: PromiseId, url: string, params: Option<string>)
    | SendWrite(caller: RequestId, verb: Verb, url: string)
    | Join(caller: RequestId, promise: PromiseId)

  datatype Event =
    | ResponseFailed(id: RequestId, failure: HttpFailure)
    | RefreshSettled(outcome: Result<Unit, EH.RawError>)
    | Read(caller: RequestId, url: string, params: Option<string>)   // params as JSON text
    | Write(caller: RequestId, verb: Verb, url: string)
    | ReadSettled(promise: PromiseId)
    | CancelAll
    | LogoutSettled(server: Result<Unit, EH.RawError>)   // the logout thunk's server call ends

  datatype Transition = Transition(next: Client, effects: seq<Effect>)

  /** The header of the refresh call; a missing token renders as "null". */
  function BearerHeader(token: Option<string>): string
  {
    "Bearer " + (if token.Some? then token.value else "null")
  }

  /** The request interceptor's `Authorization` header: set only when the
      stored token is a non-empty string. */
  function AuthorizationHeader(token: Option<string>): (h: Option<string>)
    ensures h.Some? <==> JsString.IsTruthy(token)
    ensures h.Some? ==> JsString.IsPrefix("Bearer ", h.value) && h.value[7..] == token.value
  {
    if JsString.IsTruthy(token) then Some("Bearer " + token.value) else None
  }

  /** Ordinary requests and the refresh call agree while a token is stored;
      without one, ordinary requests carry no header while the refresh call
      sends the literal "Bearer null". */
  lemma RequestAndRefreshHeaders(token: Option<string>)
    ensures JsString.IsTruthy(token) ==> AuthorizationHeader(token) == Some(BearerHeader(token))
    ensures token.None? ==> AuthorizationHeader(token).None? && BearerHeader(token) == "Bearer null"
  {
  }

  /** The de-duplication key of a read: method, URL and the JSON text of
      the parameters (`undefined` when there are none), with no clock or
      random part. */
  function ReadKey(url: string, params: Option<string>): (k: string)
    ensures JsString.IsPrefix("GET-", k)
  {
    "GET-" + url + "-" + params.GetOr("undefined")
  }

  /** Reads with the same parameters and different URLs never share a key. */
  lemma ReadKeyDistinguishesUrls(u1: string, u2: string, params: Option<string>)
    requires ReadKey(u1, params) == ReadKey(u2, params)
    ensures u1 == u2
  {
    var k := ReadKey(u1, params);
    assert |u1| == |u2|;
    assert u1 == k[4..4 + |u1|];
    assert u2 == k[4..4 + |u2|];
  }

  /** `processQueue`: every queued request settled once, in queue order,
      all with the refresh's outcome: re-sent as it was on success,
      rejected with the refresh error on failure. */
  function ProcessQueue(queue: seq<Request>, outcome: Result<Unit, EH.RawError>): (r: seq<Effect>)
    ensures |r| == |queue|
    ensures outcome.Success? ==> forall i | 0 <= i < |queue| :: r[i] == Reissue(queue[i].id, queue[i].config)
    ensures outcome.Failure? ==>
      forall i | 0 <= i < |queue| :: r[i] == RejectRequest(queue[i].id, RefreshFailed(outcome.error))
  {
    if queue == [] then []
    else
      var first := if outcome.Success? then Reissue(queue[0].id, queue[0].config)
                   else RejectRequest(queue[0].id, RefreshFailed(outcome.error));
      [first] + ProcessQueue(queue[1..], outcome)
  }

  /** `handleResponseError` and the first half of `handleTokenRefresh`:
      a rejection leaves the client as it was; an unmarked 401 joins the
      back of the queue while a refresh is in flight and otherwise marks
      the request and starts the one refresh call, with the stored token. */
  function OnFailure(c: Client, id: RequestId, f: HttpFailure, token: Option<string>): (t: Transition)
    ensures t.next.requestMap == c.requestMap && t.next.readKeys == c.readKeys && t.next.nextPromise == c.nextPromise
    ensures Classify(f).Reject? ==> t == Transition(c, [RejectRequest(id, Handled(Classify(f).error))])
    ensures Classify(f).LogoutAndReject? ==> t == Transition(c, [DispatchLogout, RejectRequest(id, Original(f))])
    ensures Classify(f).Refresh? && c.refresh.Refreshing? ==>
      t.next.refresh == c.refresh && t.next.failedQueue == c.failedQueue + [Request(id, f.config)] && t.effects == []
    ensures Classify(f).Refresh? && c.refresh.Idle? ==>
      && t.next.refresh == Refreshing(Request(id, f.config.(retry := true)))
      && t.next.failedQueue == c.failedQueue
      && t.effects == [CallRefresh(BearerHeader(token))]
    ensures (exists i | 0 <= i < |t.effects| :: t.effects[i].CallRefresh?) <==> Classify(f).Refresh? && c.refresh.Idle?
  {
    match Classify(f)
    case Reject(e) => Transition(c, [RejectRequest(id, Handled(e))])
    case LogoutAndReject => Transition(c, [DispatchLogout, RejectRequest(id, Original(f))])
    case Refresh =>
      if c.refresh.Refreshing? then
        Transition(c.(failedQueue := c.failedQueue + [Request(id, f.config)]), [])
      else
        var t := Transition(c.(refresh := Refreshing(Request(id, f.config.(retry := true)))),
                            [CallRefresh(BearerHeader(token))]);
        assert t.effects[0].CallRefresh?;
        t
  }

  /** The second half of `handleTokenRefresh`. On success the first
      request is re-sent at once and the queued ones after it, in order,
      since `processQueue` only resolves their promises and each re-send
      waits for its `then`; the store is not touched. On failure the queue
      is rejected first, in order, then logout is dispatched once and the
      first request rejected with the refresh error. Either way the client
      is idle with an empty queue. A settlement with no refresh in flight
      does nothing. */
  function OnRefreshSettled(c: Client, outcome: Result<Unit, EH.RawError>): (t: Transition)
    ensures c.refresh.Idle? ==> t == Transition(c, [])
    ensures t.next.refresh.Idle? && (c.refresh.Refreshing? ==> t.next.failedQueue == [])
    ensures t.next.requestMap == c.requestMap && t.next.readKeys == c.readKeys && t.next.nextPromise == c.nextPromise
    ensures c.refresh.Refreshing? && outcome.Success? ==>
      && |t.effects| == |c.failedQueue| + 1
      && t.effects[0] == Reissue(c.refresh.trigger.id, c.refresh.trigger.config)
      && t.effects[1..] == ProcessQueue(c.failedQueue, outcome)
    ensures c.refresh.Refreshing? && outcome.Failure? ==>
      && var n := |c.failedQueue|;
      && |t.effects| == n + 2
      && t.effects[..n] == ProcessQueue(c.failedQueue, outcome)
      && t.effects[n..] == [DispatchLogout, RejectRequest(c.refresh.trigger.id, RefreshFailed(outcome.error))]
    ensures forall i | 0 <= i < |t.effects| :: t.effects[i] == DispatchLogout <==>
      c.refresh.Refreshing? && outcome.Failure? && i == |c.failedQueue|
  {
    if c.refresh.Idle? then Transition(c, [])
    else
      var trigger := c.refresh.trigger;
      var settled := ProcessQueue(c.failedQueue, outcome);
      var effects := if outcome.Success? then [Reissue(trigger.id, trigger.config)] + settled
                     else settled + [DispatchLogout, RejectRequest(trigger.id, RefreshFailed(outcome.error))];
      if outcome.Success? then
        assert effects[1..] == settled;
        assert forall i | 1 <= i < |effects| :: effects[i] == settled[i - 1];
        Transition(c.(refresh := Idle, failedQueue := []), effects)
      else
        var last := [DispatchLogout, RejectRequest(trigger.id, RefreshFailed(outcome.error))];
        assert effects[..|settled|] == settled;
        assert effects[|settled|..] == last;
        assert forall i | 0 <= i < |settled| :: effects[i] == settled[i];
        assert forall i | 0 <= i < |last| :: effects[|settled| + i] == last[i];
        Transition(c.(refresh := Idle, failedQueue := []), effects)
  }

  /** `get` through `deduplicateRequest`: a registered key hands back the
      promise in flight and sends nothing; an unregistered key sends one
      request under a fresh promise and registers it. */
  function OnRead(c: Client, caller: RequestId, url: string, params: Option<string>): (t: Transition)
    ensures t.next.refresh == c.refresh && t.next.failedQueue == c.failedQueue
    ensures ReadKey(url, params) in c.requestMap ==>
      t == Transition(c, [Join(caller, c.requestMap[ReadKey(url, params)])])
    ensures ReadKey(url, params) !in c.requestMap ==>
      && t.effects == [SendRead(caller, c.nextPromise, url, params)]
      && t.next.requestMap == c.requestMap[ReadKey(url, params) := c.nextPromise]
      && t.next.readKeys == c.readKeys[c.nextPromise := ReadKey(url, params)]
      && t.next.nextPromise == c.nextPromise + 1
  {
    var key := ReadKey(url, params);
    if key in c.requestMap then Transition(c, [Join(caller, c.requestMap[key])])
    else
      var p := c.nextPromise;
      Transition(c.(requestMap := c.requestMap[key := p], readKeys := c.readKeys[p := key], nextPromise := p + 1),
                 [SendRead(caller, p, url, params)])
  }

  /** The `finally` of a de-duplicated read: its key is deleted from the
      registry, whichever promise the key points to by then. */
  function OnReadSettled(c: Client, p: PromiseId): (r: Client)
    ensures r.refresh == c.refresh && r.failedQueue == c.failedQueue && r.nextPromise == c.nextPromise
    ensures p in c.readKeys ==>
      && r.requestMap.Keys == c.requestMap.Keys - {c.readKeys[p]}
      && (forall k | k in r.requestMap :: r.requestMap[k] == c.requestMap[k])
      && r.readKeys.Keys == c.readKeys.Keys - {p}
    ensures p !in c.readKeys ==> r == c
  {
    if p in c.readKeys then c.(requestMap := c.requestMap - {c.readKeys[p]}, readKeys := c.readKeys - {p})
    else c
  }

  /** One event. The stored token is read where the source reads it; the
      client never writes it. Writes and uploads go straight to the
      transport; `cancelAllRequests` empties the registry and nothing else. */
  function Step(c: Client, ev: Event, token: Option<string>): Transition
  {
    match ev
    case ResponseFailed(id, f) => OnFailure(c, id, f, token)
    case RefreshSettled(outcome) => OnRefreshSettled(c, outcome)
    case Read(caller, url, params) => OnRead(c, caller, url, params)
    case Write(caller, verb, url) => Transition(c, [SendWrite(caller, verb, url)])
    case ReadSettled(p) => Transition(OnReadSettled(c, p), [])
    case CancelAll => Transition(c.(requestMap := map[]), [])
    case LogoutSettled(_) => Transition(c, [])
  }

  /** The client's invariant: a queue only while a refresh is in flight;
      the request that started the refresh is marked, the queued ones are
      not; every registered key points to an in-flight read that will
      delete exactly that key; promise ids are fresh. */
  predicate Valid(c: Client)
  {
    && (c.refresh.Idle? ==> c.failedQueue == [])
    && (c.refresh.Refreshing? ==> c.refresh.trigger.config.retry)
    && (forall i | 0 <= i < |c.failedQueue| :: !c.failedQueue[i].config.retry)
    && (forall k | k in c.requestMap :: c.requestMap[k] in c.readKeys && c.readKeys[c.requestMap[k]] == k)
    && (forall p | p in c.readKeys :: p < c.nextPromise)
  }

  lemma InitialClientValid()
    ensures Valid(InitialClient)
  {
  }

  lemma StepPreservesValid(c: Client, ev: Event, token: Option<string>)
    requires Valid(c)
    ensures Valid(Step(c, ev, token).next)
  {
    var n := Step(c, ev, token).next;
    match ev {
      case ResponseFailed(id, f) =>
        if Classify(f).Refresh? && c.refresh.Refreshing? {
          assert n.failedQueue == c.failedQueue + [Request(id, f.config)];
          forall i | 0 <= i < |n.failedQueue|
            ensures !n.failedQueue[i].config.retry
          {
            if i < |c.failedQueue| {
              assert n.failedQueue[i] == c.failedQueue[i];
            }
          }
        }
      case RefreshSettled(_) =>
      case Read(_, url, params) =>
        var key := ReadKey(url, params);
        if key !in c.requestMap {
          forall k | k in n.requestMap
            ensures n.requestMap[k] in n.readKeys && n.readKeys[n.requestMap[k]] == k
          {
            if k != key {
              assert c.requestMap[k] < c.nextPromise;
            }
          }
        }
      case Write(_, _, _) =>
      case ReadSettled(p) =>
        if p in c.readKeys {
          forall k | k in n.requestMap
            ensures n.requestMap[k] in n.readKeys && n.readKeys[n.requestMap[k]] == k
          {
            assert c.readKeys[c.requestMap[k]] == k;
          }
        }
      case CancelAll =>
      case LogoutSettled(_) =>
    }
  }

  /** The client together with the auth slice it dispatches logout to. */
  datatype System = System(client: Client, auth: AuthSlice.AuthState)

  datatype Trace = Trace(final: System, effects: seq<Effect>)

  /** One event for the client and its store. Dispatching logout changes
      nothing in the store yet: the slice has no case for the thunk's
      pending action, so the token stays stored while the logout POST is in
      flight. The session ends when that call settles, whatever the server
      answered. */
  function SystemStep(sys: System, ev: Event): (r: Trace)
    ensures !ev.LogoutSettled? ==> r.final.auth == sys.auth
    ensures ev.LogoutSettled? ==> r == Trace(System(sys.client, AuthSlice.InitialAuthState), [])
  {
    var t := Step(sys.client, ev, sys.auth.token);
    var auth := if ev.LogoutSettled? then AuthSlice.Reduce(sys.auth, AuthSlice.LogoutThunk(ev.server)) else sys.auth;
    Trace(System(t.next, auth), t.effects)
  }

  /** A run of a step function over a sequence of events: the final system
      and every effect, in order. The laws of runs hold whatever the step. */
  function RunWith(step: (System, Event) -> Trace, sys: System, evs: seq<Event>): Trace
    decreases |evs|
  {
    if evs == [] then Trace(sys, [])
    else
      var first := step(sys, evs[0]);
      var rest := RunWith(step, first.final, evs[1..]);
      Trace(rest.final, first.effects + rest.effects)
  }

  lemma RunWithCons(step: (System, Event) -> Trace, sys: System, ev: Event, rest: seq<Event>)
    ensures RunWith(step, sys, [ev] + rest).final == RunWith(step, step(sys, ev).final, rest).final
    ensures RunWith(step, sys, [ev] + rest).effects == step(sys, ev).effects + RunWith(step, step(sys, ev).final, rest).effects
  {
    assert ([ev] + rest)[0] == ev;
    assert ([ev] + rest)[1..] == rest;
  }

  lemma {:induction false} RunWithAppend(step: (System, Event) -> Trace, sys: System, a: seq<Event>, b: seq<Event>)
    ensures RunWith(step, sys, a + b).final == RunWith(step, RunWith(step, sys, a).final, b).final
    ensures RunWith(step, sys, a + b).effects
         == RunWith(step, sys, a).effects + RunWith(step, RunWith(step, sys, a).final, b).effects
    decreases |a|
  {
    if a == [] {
      assert a + b == b;
    } else {
      var first := step(sys, a[0]);
      assert a + b == [a[0]] + (a[1..] + b);
      assert a == [a[0]] + a[1..];
      RunWithCons(step, sys, a[0], a[1..] + b);
      RunWithCons(step, sys, a[0], a[1..]);
      RunWithAppend(step, first.final, a[1..], b);
      var restA := RunWith(step, first.final, a[1..]);
      var restB := RunWith(step, restA.final, b);
      assert first.effects + (restA.effects + restB.effects) == (first.effects + restA.effects) + restB.effects;
    }
  }

  /** A run of four events, step by step. */
  lemma RunWithFour(step: (System, Event) -> Trace, sys: System, e1: Event, e2: Event, e3: Event, e4: Event)
    ensures var t1 := step(sys, e1); var t2 := step(t1.final, e2);
      var t3 := step(t2.final, e3); var t4 := step(t3.final, e4);
      RunWith(step, sys, [e1, e2, e3, e4]) == Trace(t4.final, t1.effects + t2.effects + t3.effects + t4.effects)
  {
    var t1 := step(sys, e1);
    var t2 := step(t1.final, e2);
    var t3 := step(t2.final, e3);
    var t4 := step(t3.final, e4);
    RunWithCons(step, t3.final, e4, []);
    assert [e4] + [] == [e4];
    RunWithCons(step, t2.final, e3, [e4]);
    assert [e3] + [e4] == [e3, e4];
    RunWithCons(step, t1.final, e2, [e3, e4]);
    assert [e2] + [e3, e4] == [e2, e3, e4];
    RunWithCons(step, sys, e1, [e2, e3, e4]);
    assert [e1] + [e2, e3, e4] == [e1, e2, e3, e4];
    assert t1.effects + (t2.effects + (t3.effects + (t4.effects + [])))
        == t1.effects + t2.effects + t3.effects + t4.effects;
  }

  /** The client's runs. */
  function Run(sys: System, evs: seq<Event>): Trace
  {
    RunWith(SystemStep, sys, evs)
  }

  lemma RunAppend(sys: System, a: seq<Event>, b: seq<Event>)
    ensures Run(sys, a + b).final == Run(Run(sys, a).final, b).final
    ensures Run(sys, a + b).effects == Run(sys, a).effects + Run(Run(sys, a).final, b).effects
  {
    RunWithAppend(SystemStep, sys, a, b);
  }

  lemma RunCons(sys: System, ev: Event, rest: seq<Event>)
    ensures Run(sys, [ev] + rest).final == Run(SystemStep(sys, ev).final, rest).final
    ensures Run(sys, [ev] + rest).effects == SystemStep(sys, ev).effects + Run(SystemStep(sys, ev).final, rest).effects
  {
    RunWithCons(SystemStep, sys, ev, rest);
  }

  lemma RunSingle(sys: System, ev: Event)
    ensures Run(sys, [ev]) == SystemStep(sys, ev)
  {
    RunWithCons(SystemStep, sys, ev, []);
    assert [ev] + [] == [ev];
    assert SystemStep(sys, ev).effects + [] == SystemStep(sys, ev).effects;
  }

  lemma {:induction false} RunPreservesValid(sys: System, evs: seq<Event>)
    requires Valid(sys.client)
    ensures Valid(Run(sys, evs).final.client)
    decreases |evs|
  {
    if evs != [] {
      StepPreservesValid(sys.client, evs[0], sys.auth.token);
      RunPreservesValid(SystemStep(sys, evs[0]).final, evs[1..]);
      RunCons(sys, evs[0], evs[1..]);
      assert evs == [evs[0]] + evs[1..];
    }
  }

  /** The requests a run of unmarked 401s puts in the queue, in order. */
  function Queued(evs: seq<Event>): (q: seq<Request>)
    requires forall i | 0 <= i < |evs| :: evs[i].ResponseFailed?
    ensures |q| == |evs|
    decreases |evs|
  {
    if evs == [] then []
    else
      assert forall i | 0 <= i < |evs| - 1 :: evs[1..][i] == evs[i + 1];
      [Request(evs[0].id, evs[0].failure.config)] + Queued(evs[1..])
  }

  predicate AllRefreshing(evs: seq<Event>)
  {
    forall i | 0 <= i < |evs| :: evs[i].ResponseFailed? && Classify(evs[i].failure).Refresh?
  }

  lemma QueueOne(sys: System, ev: Event)
    requires sys.client.refresh.Refreshing?
    requires ev.ResponseFailed? && Classify(ev.failure).Refresh?
    ensures SystemStep(sys, ev)
         == Trace(sys.(client := sys.client.(failedQueue := sys.client.failedQueue + [Request(ev.id, ev.failure.config)])), [])
  {
    var t := OnFailure(sys.client, ev.id, ev.failure, sys.auth.token);
    assert t.next == sys.client.(failedQueue := sys.client.failedQueue + [Request(ev.id, ev.failure.config)]);
  }

  /** Queueing, for any step that queues the failures `queues` picks while
      a refresh is in flight: the run queues every event in order. */
  lemma {:induction false} RunWithQueues(step: (System, Event) -> Trace, queues: Event -> bool, sys: System, evs: seq<Event>)
    requires sys.client.refresh.Refreshing?
    requires forall s: System, ev: Event | s.client.refresh.Refreshing? && ev.ResponseFailed? && queues(ev) ::
      step(s, ev) == Trace(s.(client := s.client.(failedQueue := s.client.failedQueue + [Request(ev.id, ev.failure.config)])), [])
    requires forall i | 0 <= i < |evs| :: evs[i].ResponseFailed? && queues(evs[i])
    ensures RunWith(step, sys, evs) == Trace(sys.(client := sys.client.(failedQueue := sys.client.failedQueue + Queued(evs))), [])
    decreases |evs|
  {
    if evs == [] {
      assert sys.client.failedQueue + Queued(evs) == sys.client.failedQueue;
    } else {
      var rest := evs[1..];
      var head := Request(evs[0].id, evs[0].failure.config);
      var next := sys.(client := sys.client.(failedQueue := sys.client.failedQueue + [head]));
      calc {
        RunWith(step, sys, evs);
      == { assert step(sys, evs[0]) == Trace(next, []);
           var tail := RunWith(step, next, rest);
           assert [] + tail.effects == tail.effects; }
        RunWith(step, next, rest);
      == { assert forall i | 0 <= i < |rest| :: rest[i] == evs[i + 1];
           RunWithQueues(step, queues, next, rest); }
        Trace(next.(client := next.client.(failedQueue := next.client.failedQueue + Queued(rest))), []);
      == { assert next.client.failedQueue + Queued(rest) == sys.client.failedQueue + ([head] + Queued(rest)); }
        Trace(sys.(client := sys.client.(failedQueue := sys.client.failedQueue + Queued(evs))), []);
      }
    }
  }

  /** While a refresh is in flight, each further unmarked 401 joins the
      back of the queue: no second refresh, no effect at all. */
  lemma WhileRefreshingFailuresQueue(sys: System, evs: seq<Event>)
    requires sys.client.refresh.Refreshing?
    requires AllRefreshing(evs)
    ensures Run(sys, evs) == Trace(sys.(client := sys.client.(failedQueue := sys.client.failedQueue + Queued(evs))), [])
  {
    forall s: System, ev: Event | s.client.refresh.Refreshing? && ev.ResponseFailed? && Classify(ev.failure).Refresh?
      ensures SystemStep(s, ev) == Trace(s.(client := s.client.(failedQueue := s.client.failedQueue + [Request(ev.id, ev.failure.config)])), [])
    {
      QueueOne(s, ev);
    }
    RunWithQueues(SystemStep, (ev: Event) => ev.ResponseFailed? && Classify(ev.failure).Refresh?, sys, evs);
  }

  /** The effects of the refresh burst, for the lemmas below. */
  function ReissueAll(q: seq<Request>): (r: seq<Effect>)
    ensures |r| == |q|
    ensures forall i | 0 <= i < |q| :: r[i] == Reissue(q[i].id, q[i].config)
  {
    seq(|q|, i requires 0 <= i < |q| => Reissue(q[i].id, q[i].config))
  }

  function RejectAll(q: seq<Request>, reason: EH.RawError): (r: seq<Effect>)
    ensures |r| == |q|
    ensures forall i | 0 <= i < |q| :: r[i] == RejectRequest(q[i].id, RefreshFailed(reason))
  {
    seq(|q|, i requires 0 <= i < |q| => RejectRequest(q[i].id, RefreshFailed(reason)))
  }

  /** The effects of a successful settlement, as one sequence. */
  lemma SettleSuccessEffects(c: Client)
    requires c.refresh.Refreshing?
    ensures OnRefreshSettled(c, Success(Unit)).effects
         == [Reissue(c.refresh.trigger.id, c.refresh.trigger.config)] + ReissueAll(c.failedQueue)
  {
    var e := OnRefreshSettled(c, Success(Unit)).effects;
    assert e[1..] == ReissueAll(c.failedQueue);
    assert e == [e[0]] + e[1..];
  }

  /** The effects of a failed settlement, as one sequence. */
  lemma SettleFailureEffects(c: Client, err: EH.RawError)
    requires c.refresh.Refreshing?
    ensures OnRefreshSettled(c, Failure(err)).effects
         == RejectAll(c.failedQueue, err) + [DispatchLogout, RejectRequest(c.refresh.trigger.id, RefreshFailed(err))]
  {
    var e := OnRefreshSettled(c, Failure(err)).effects;
    var n := |c.failedQueue|;
    assert e[..n] == RejectAll(c.failedQueue, err);
    assert e == e[..n] + e[n..];
  }

  /** The first unmarked 401 with no refresh in flight, then its
      followers queued behind it. */
  lemma BurstStart(sys: System, first: Event, queued: seq<Event>)
    requires Valid(sys.client) && sys.client.refresh.Idle?
    requires first.ResponseFailed? && Classify(first.failure).Refresh?
    requires AllRefreshing(queued)
    ensures var tr := Run(sys, [first] + queued);
      && tr.effects == [CallRefresh(BearerHeader(sys.auth.token))]
      && tr.final.auth == sys.auth
      && tr.final.client == sys.client.(refresh := Refreshing(Request(first.id, first.failure.config.(retry := true))),
                                         failedQueue := Queued(queued))
  {
    var s1 := SystemStep(sys, first);
    assert s1.final.client == sys.client.(refresh := Refreshing(Request(first.id, first.failure.config.(retry := true))));
    WhileRefreshingFailuresQueue(s1.final, queued);
    RunCons(sys, first, queued);
    assert [] + Queued(queued) == Queued(queued);
  }

  /** A burst of unmarked 401s that ends with a successful refresh, from a
      client with no refresh in flight: exactly one refresh call; then the
      first request re-sent, marked; then every queued request re-sent
      unmarked, in arrival order; the store (and its token) untouched; the
      client idle with an empty queue. */
  lemma RefreshBurstSucceeds(sys: System, first: Event, queued: seq<Event>)
    requires Valid(sys.client) && sys.client.refresh.Idle?
    requires first.ResponseFailed? && Classify(first.failure).Refresh?
    requires AllRefreshing(queued)
    ensures var tr := Run(sys, [first] + queued + [RefreshSettled(Success(Unit))]);
      && tr.effects == [CallRefresh(BearerHeader(sys.auth.token)), Reissue(first.id, first.failure.config.(retry := true))]
                       + ReissueAll(Queued(queued))
      && (forall i | 0 <= i < |tr.effects| :: tr.effects[i].CallRefresh? <==> i == 0)
      && tr.final.auth == sys.auth
      && tr.final.client.refresh.Idle? && tr.final.client.failedQueue == []
      && tr.final.client.requestMap == sys.client.requestMap
  {
    BurstSucceedsRun(sys, first, queued);
    RefreshCallFirstOnly(CallRefresh(BearerHeader(sys.auth.token)),
                         Reissue(first.id, first.failure.config.(retry := true)), Queued(queued));
  }

  lemma BurstSucceedsRun(sys: System, first: Event, queued: seq<Event>)
    requires Valid(sys.client) && sys.client.refresh.Idle?
    requires first.ResponseFailed? && Classify(first.failure).Refresh?
    requires AllRefreshing(queued)
    ensures var tr := Run(sys, [first] + queued + [RefreshSettled(Success(Unit))]);
      && tr.effects == [CallRefresh(BearerHeader(sys.auth.token)), Reissue(first.id, first.failure.config.(retry := true))]
                       + ReissueAll(Queued(queued))
      && tr.final.auth == sys.auth
      && tr.final.client.refresh.Idle? && tr.final.client.failedQueue == []
      && tr.final.client.requestMap == sys.client.requestMap
  {
    BurstStart(sys, first, queued);
    var s2 := Run(sys, [first] + queued);
    var last := RefreshSettled(Success(Unit));
    RunSingle(s2.final, last);
    RunAppend(sys, [first] + queued, [last]);
    SettleSuccessEffects(s2.final.client);
    TwoThenRest(CallRefresh(BearerHeader(sys.auth.token)), Reissue(first.id, first.failure.config.(retry := true)),
                ReissueAll(Queued(queued)));
  }

  lemma TwoThenRest(h: Effect, t: Effect, rest: seq<Effect>)
    ensures [h] + ([t] + rest) == [h, t] + rest
  {
  }

  /** Where the refresh call sits among the burst's effects. */
  lemma RefreshCallFirstOnly(h: Effect, t: Effect, q: seq<Request>)
    requires h.CallRefresh? && !t.CallRefresh?
    ensures var e := [h, t] + ReissueAll(q);
      forall i | 0 <= i < |e| :: e[i].CallRefresh? <==> i == 0
  {
    var e := [h, t] + ReissueAll(q);
    forall i | 0 <= i < |e|
      ensures e[i].CallRefresh? <==> i == 0
    {
      if 2 <= i {
        assert e[i] == ReissueAll(q)[i - 2];
      }
    }
  }

  /** The same burst ending with a failed refresh: exactly one refresh
      call; every queued request rejected with the refresh error, in
      arrival order; logout dispatched once; then the first request
      rejected with the refresh error. The store still holds the session:
      it ends only when the logout call settles. */
  lemma RefreshBurstFails(sys: System, first: Event, queued: seq<Event>, err: EH.RawError)
    requires Valid(sys.client) && sys.client.refresh.Idle?
    requires first.ResponseFailed? && Classify(first.failure).Refresh?
    requires AllRefreshing(queued)
    ensures var tr := Run(sys, [first] + queued + [RefreshSettled(Failure(err))]);
      && tr.effects == [CallRefresh(BearerHeader(sys.auth.token))]
                       + RejectAll(Queued(queued), err)
                       + [DispatchLogout, RejectRequest(first.id, RefreshFailed(err))]
      && (forall i | 0 <= i < |tr.effects| :: tr.effects[i] == DispatchLogout <==> i == |queued| + 1)
      && tr.final.auth == sys.auth
      && tr.final.client.refresh.Idle? && tr.final.client.failedQueue == []
      && tr.final.client.requestMap == sys.client.requestMap
  {
    BurstFailsRun(sys, first, queued, err);
    LogoutPosition(CallRefresh(BearerHeader(sys.auth.token)), Queued(queued), err,
                   RejectRequest(first.id, RefreshFailed(err)));
  }

  lemma BurstFailsRun(sys: System, first: Event, queued: seq<Event>, err: EH.RawError)
    requires Valid(sys.client) && sys.client.refresh.Idle?
    requires first.ResponseFailed? && Classify(first.failure).Refresh?
    requires AllRefreshing(queued)
    ensures var tr := Run(sys, [first] + queued + [RefreshSettled(Failure(err))]);
      && tr.effects == [CallRefresh(BearerHeader(sys.auth.token))]
                       + RejectAll(Queued(queued), err)
                       + [DispatchLogout, RejectRequest(first.id, RefreshFailed(err))]
      && tr.final.auth == sys.auth
      && tr.final.client.refresh.Idle? && tr.final.client.failedQueue == []
      && tr.final.client.requestMap == sys.client.requestMap
  {
    BurstStart(sys, first, queued);
    var s2 := Run(sys, [first] + queued);
    var last := RefreshSettled(Failure(err));
    RunSingle(s2.final, last);
    RunAppend(sys, [first] + queued, [last]);
    SettleFailureStep(s2.final, err);
  }

  /** The failed settlement as one system step. */
  lemma SettleFailureStep(sys: System, err: EH.RawError)
    requires sys.client.refresh.Refreshing?
    ensures var tr := SystemStep(sys, RefreshSettled(Failure(err)));
      && tr.effects == RejectAll(sys.client.failedQueue, err)
                       + [DispatchLogout, RejectRequest(sys.client.refresh.trigger.id, RefreshFailed(err))]
      && tr.final == sys.(client := sys.client.(refresh := Idle, failedQueue := []))
  {
    SettleFailureEffects(sys.client, err);
  }

  /** Where the logout sits among the burst's effects. */
  lemma LogoutPosition(h: Effect, q: seq<Request>, err: EH.RawError, last: Effect)
    requires h != DispatchLogout && last != DispatchLogout
    ensures var e := [h] + RejectAll(q, err) + [DispatchLogout, last];
      forall i | 0 <= i < |e| :: e[i] == DispatchLogout <==> i == |q| + 1
  {
    var e := [h] + RejectAll(q, err) + [DispatchLogout, last];
    forall i | 0 <= i < |e|
      ensures e[i] == DispatchLogout <==> i == |q| + 1
    {
      if 1 <= i <= |q| {
        assert e[i] == RejectAll(q, err)[i - 1];
      }
    }
  }

  /** A 401 on the refresh URL dispatches logout and rejects with the
      failure itself; the coordinator is not involved, and the session
      ends once the logout call settles, whatever the server answers. */
  lemma RefreshCallUnauthorizedLogsOut(sys: System, id: RequestId, f: HttpFailure, server: Result<Unit, EH.RawError>)
    requires Unauthorized(f) && IsRefreshCall(f)
    ensures var tr := Run(sys, [ResponseFailed(id, f), LogoutSettled(server)]);
      && tr.effects == [DispatchLogout, RejectRequest(id, Original(f))]
      && tr.final.client == sys.client
      && tr.final.auth.token.None? && !tr.final.auth.isAuthenticated
  {
    var t1 := SystemStep(sys, ResponseFailed(id, f));
    assert t1 == Trace(sys, [DispatchLogout, RejectRequest(id, Original(f))]);
    RunCons(sys, ResponseFailed(id, f), [LogoutSettled(server)]);
    RunSingle(sys, LogoutSettled(server));
    assert [ResponseFailed(id, f)] + [LogoutSettled(server)] == [ResponseFailed(id, f), LogoutSettled(server)];
  }

  /** A failed burst followed by the logout call settling: the session is
      over, whatever the server answered. */
  lemma FailedBurstEndsSession(sys: System, first: Event, queued: seq<Event>, err: EH.RawError,
                               server: Result<Unit, EH.RawError>)
    requires Valid(sys.client) && sys.client.refresh.Idle?
    requires first.ResponseFailed? && Classify(first.failure).Refresh?
    requires AllRefreshing(queued)
    ensures var tr := Run(sys, [first] + queued + [RefreshSettled(Failure(err)), LogoutSettled(server)]);
      && tr.final.auth == AuthSlice.InitialAuthState
      && tr.final.client.refresh.Idle? && tr.final.client.failedQueue == []
  {
    var burst := [first] + queued + [RefreshSettled(Failure(err))];
    BurstFailsRun(sys, first, queued, err);
    RunAppend(sys, burst, [LogoutSettled(server)]);
    RunSingle(Run(sys, burst).final, LogoutSettled(server));
    assert burst + [LogoutSettled(server)] == [first] + queued + [RefreshSettled(Failure(err)), LogoutSettled(server)];
  }

  /** The logout call goes through this client with the stale token still
      stored, and its URL is not the refresh URL. When the server answers it
      with 401, a new refresh starts; when that refresh fails too, logout is
      dispatched again and the system is back where it was. Nothing bounds
      the cycle. */
  lemma LogoutUnauthorizedRefreshesAgain(sys: System, id: RequestId, f: HttpFailure, err: EH.RawError)
    requires sys.client.refresh.Idle? && sys.client.failedQueue == []
    requires f.config == LogoutRequest && f.response.Some? && f.response.value.status == 401
    ensures var tr := Run(sys, [ResponseFailed(id, f), RefreshSettled(Failure(err))]);
      && tr.effects == [CallRefresh(BearerHeader(sys.auth.token)), DispatchLogout, RejectRequest(id, RefreshFailed(err))]
      && tr.final == sys
  {
    var e1 := ResponseFailed(id, f);
    var e2 := RefreshSettled(Failure(err));
    var busy := sys.(client := sys.client.(refresh := Refreshing(Request(id, f.config.(retry := true)))));
    LogoutUnauthorizedStartsRefresh(sys, id, f);
    FailedRefreshWithEmptyQueue(busy, err);
    RunCons(sys, e1, [e2]);
    RunSingle(busy, e2);
    assert [e1] + [e2] == [e1, e2];
  }

  lemma LogoutUnauthorizedStartsRefresh(sys: System, id: RequestId, f: HttpFailure)
    requires sys.client.refresh.Idle?
    requires f.config == LogoutRequest && f.response.Some? && f.response.value.status == 401
    ensures SystemStep(sys, ResponseFailed(id, f))
         == Trace(sys.(client := sys.client.(refresh := Refreshing(Request(id, f.config.(retry := true))))),
                  [CallRefresh(BearerHeader(sys.auth.token))])
  {
    LogoutIsNotRefreshCall(f);
    assert Classify(f).Refresh?;
  }

  lemma FailedRefreshWithEmptyQueue(sys: System, err: EH.RawError)
    requires sys.client.refresh.Refreshing? && sys.client.failedQueue == []
    ensures SystemStep(sys, RefreshSettled(Failure(err)))
         == Trace(sys.(client := sys.client.(refresh := Idle)),
                  [DispatchLogout, RejectRequest(sys.client.refresh.trigger.id, RefreshFailed(err))])
  {
    var t := OnRefreshSettled(sys.client, Failure(err));
    assert t.effects == t.effects[0..];
  }

  lemma LogoutIsNotRefreshCall(f: HttpFailure)
    requires f.config == LogoutRequest
    ensures !IsRefreshCall(f)
  {
    JsString.LongerNeverContained(LogoutPath, RefreshPath);
  }

  predicate IsLogoutCall(f: HttpFailure)
  {
    JsString.Contains(f.config.url, LogoutPath)
  }

  /** The classifier with the logout call kept out of the coordinator, as
      the failed refresh evidently intends: a 401 on the logout URL takes
      the generic branch, which the logout thunk swallows, so the session
      still ends. Every other failure is classified as before. */
  function ClassifyExemptingLogout(f: HttpFailure): (d: Decision)
    ensures d.Refresh? <==> Unauthorized(f) && !IsRefreshCall(f) && !IsLogoutCall(f)
    ensures !IsLogoutCall(f) || !Unauthorized(f) || IsRefreshCall(f) ==> d == Classify(f)
  {
    if Unauthorized(f) && IsLogoutCall(f) && !IsRefreshCall(f) then
      Reject(EH.NormalizeError(AsRaw(f), Some("API Response")))
    else Classify(f)
  }

  /** With the exemption, the 401 on the logout call is rejected as a
      network error carrying its status: no refresh, no second logout. */
  lemma ExemptedLogoutUnauthorizedIsRejected(f: HttpFailure)
    requires f.config == LogoutRequest && f.response.Some? && f.response.value.status == 401
    ensures var d := ClassifyExemptingLogout(f);
      d.Reject? && d.error.code == EH.NetworkError && d.error.context.HttpContext? && d.error.context.status == 401
  {
    LogoutIsNotRefreshCall(f);
    LogoutRequestIsLogoutCall(f);
    var raw := AsRaw(f);
    assert ClassifyExemptingLogout(f) == Reject(EH.NormalizeError(raw, Some("API Response")));
    ResponseMeansNetworkError(raw, Some("API Response"));
  }

  lemma LogoutRequestIsLogoutCall(f: HttpFailure)
    requires f.config == LogoutRequest
    ensures IsLogoutCall(f)
  {
    assert JsString.IsPrefix(LogoutPath, f.config.url);
  }

  lemma ResponseMeansNetworkError(e: EH.RawError, context: Option<string>)
    requires e.response.Some?
    ensures var r := EH.NormalizeError(e, context);
      r.code == EH.NetworkError && r.context == EH.HttpContext(e.response.value.status, e.url, context)
  {
  }

  /** Two identical reads in a row share one promise: one request is sent,
      the second caller joins it. */
  lemma IdenticalReadsShareOnePromise(sys: System, a: RequestId, b: RequestId, url: string, params: Option<string>)
    requires ReadKey(url, params) !in sys.client.requestMap
    ensures var tr := Run(sys, [Read(a, url, params), Read(b, url, params)]);
      && tr.effects == [SendRead(a, sys.client.nextPromise, url, params), Join(b, sys.client.nextPromise)]
      && ReadKey(url, params) in tr.final.client.requestMap
      && tr.final.client.requestMap[ReadKey(url, params)] == sys.client.nextPromise
  {
    var p := sys.client.nextPromise;
    var e1 := Read(a, url, params);
    var e2 := Read(b, url, params);
    var t1 := SystemStep(sys, e1);
    assert t1.effects == [SendRead(a, p, url, params)];
    var t2 := SystemStep(t1.final, e2);
    assert t2.effects == [Join(b, p)];
    RunSingle(t1.final, e2);
    RunCons(sys, e1, [e2]);
    assert [e1] + [e2] == [e1, e2];
  }

  /** Once the shared read settles, the same read is sent afresh. */
  lemma SettledReadIsSentAgain(sys: System, a: RequestId, b: RequestId, url: string, params: Option<string>)
    requires Valid(sys.client)
    requires ReadKey(url, params) !in sys.client.requestMap
    ensures var p := sys.client.nextPromise;
      var tr := Run(sys, [Read(a, url, params), ReadSettled(p), Read(b, url, params)]);
      tr.effects == [SendRead(a, p, url, params), SendRead(b, p + 1, url, params)]
  {
    var p := sys.client.nextPromise;
    var e1 := Read(a, url, params);
    var e2 := ReadSettled(p);
    var e3 := Read(b, url, params);
    var t1 := SystemStep(sys, e1);
    assert t1.effects == [SendRead(a, p, url, params)];
    var t2 := SystemStep(t1.final, e2);
    assert t2.effects == [];
    assert ReadKey(url, params) !in t2.final.client.requestMap;
    var t3 := SystemStep(t2.final, e3);
    assert t3.effects == [SendRead(b, p + 1, url, params)];
    RunSingle(t2.final, e3);
    RunCons(t1.final, e2, [e3]);
    RunCons(sys, e1, [e2] + [e3]);
    assert [e1] + ([e2] + [e3]) == [e1, e2, e3];
  }

  /** `cancelAllRequests` forgets every registered read, so the next read
      of any key is sent; a read that was in flight before still deletes its
      key when it settles, even though a newer read registered that key
      since: the newer read is then no longer found by later callers. */
  lemma StaleSettleDropsNewerRead(sys: System, a: RequestId, b: RequestId, url: string, params: Option<string>)
    requires Valid(sys.client)
    requires ReadKey(url, params) !in sys.client.requestMap
    ensures var p := sys.client.nextPromise;
      var tr := Run(sys, [Read(a, url, params), CancelAll, Read(b, url, params), ReadSettled(p)]);
      && tr.effects == [SendRead(a, p, url, params), SendRead(b, p + 1, url, params)]
      && ReadKey(url, params) !in tr.final.client.requestMap
      && p + 1 in tr.final.client.readKeys
  {
    var p := sys.client.nextPromise;
    var key := ReadKey(url, params);
    var e1 := Read(a, url, params);
    var e2 := CancelAll;
    var e3 := Read(b, url, params);
    var e4 := ReadSettled(p);
    var t1 := SystemStep(sys, e1);
    assert t1.effects == [SendRead(a, p, url, params)];
    var t2 := SystemStep(t1.final, e2);
    assert t2.effects == [];
    var t3 := SystemStep(t2.final, e3);
    assert t3.effects == [SendRead(b, p + 1, url, params)];
    assert t3.final.client.readKeys[p] == key;
    var t4 := SystemStep(t3.final, e4);
    assert t4.effects == [];
    assert key !in t4.final.client.requestMap;
    RunWithFour(SystemStep, sys, e1, e2, e3, e4);
    assert t1.effects + t2.effects + t3.effects + t4.effects
        == [SendRead(a, p, url, params), SendRead(b, p + 1, url, params)];
  }

  /** Writes never touch the registry or the coordinator. */
  lemma WritesLeaveClientUnchanged(sys: System, evs: seq<Event>)
    requires forall i | 0 <= i < |evs| :: evs[i].Write?
    ensures Run(sys, evs).final == sys
    ensures |Run(sys, evs).effects| == |evs|
    decreases |evs|
  {
    if evs == [] {
      assert Run(sys, evs) == Trace(sys, []);
    } else {
      WritesLeaveClientUnchanged(sys, evs[1..]);
      RunCons(sys, evs[0], evs[1..]);
      assert evs == [evs[0]] + evs[1..];
    }
  }

  /** The success interceptor's unwrapping of the body: `body.data` when it
      is defined, else the body itself. Reading `.data` of a `null` body
      throws, which the model gives as `None`. */
  function UnwrapBody(body: Json.Value): (r: Option<Json.Value>)
    ensures r.None? <==> body.Null?
    ensures r.Some? && r.value != body ==> body.Obj? && "data" in body.fields && r.value == body.fields["data"]
  {
    match body
    case Null => None
    case Obj(fields) => if "data" in fields then Some(fields["data"]) else Some(body)
    case _ => Some(body)
  }

  /** The server's envelope `{ data, success, message }`. */
  function Envelope(data: Json.Value, success: bool, message: Option<string>): Json.Value
  {
    var base := map["data" := data, "success" := Json.Bool(success)];
    Json.Obj(if message.Some? then base["message" := Json.Str(message.value)] else base)
  }

  /** Unwrapping an envelope gives back exactly its payload. */
  lemma UnwrapEnvelope(data: Json.Value, success: bool, message: Option<string>)
    ensures UnwrapBody(Envelope(data, success, message)) == Some(data)
  {
  }

  /** A non-null body with no `data` field passes through unchanged. */
  lemma UnwrapWithoutEnvelope(body: Json.Value)
    requires !body.Null? && !(body.Obj? && "data" in body.fields)
    ensures UnwrapBody(body) == Some(body)
  {
  }

  /** The percentage an upload reports: `Math.round(loaded * 100 / total)`,
      only when the caller passed a progress callback and the total is known
      and non-zero. Rounding is to the nearest integer, halves upward. */
  function UploadProgress(hasCallback: bool, loaded: nat, total: Option<nat>): (r: Option<int>)
    ensures r.Some? <==> hasCallback && total.Some? && total.value != 0
    ensures r.Some? ==>
      && (2 * r.value - 1) * total.value <= 200 * loaded
      && 200 * loaded < (2 * r.value + 1) * total.value
    ensures r.Some? && loaded <= total.value ==> 0 <= r.value <= 100
  {
    if !hasCallback || total.None? || total.value == 0 then None
    else
      var t := total.value;
      var p := (200 * loaded + t) / (2 * t);
      ProgressBounds(loaded, t, p);
      Some(p)
  }

  /** A positive product with a positive factor has a positive co-factor. */
  lemma CancelFactor(x: int, y: int, d: int)
    requires d > 0 && x * d < y * d
    ensures x < y
  {
    assert (y - x) * d == y * d - x * d;
    assert (y - x) * d > 0;
  }

  lemma ProgressBounds(loaded: nat, t: nat, p: int)
    requires t > 0 && p == (200 * loaded + t) / (2 * t)
    ensures (2 * p - 1) * t <= 200 * loaded < (2 * p + 1) * t
    ensures loaded <= t ==> 0 <= p <= 100
  {
    var n := 200 * loaded + t;
    var d := 2 * t;
    assert p * d <= n < (p + 1) * d;
    assert (2 * p - 1) * t == p * d - t;
    assert (2 * p + 1) * t == (p + 1) * d - t;
    CancelFactor(-1, 2 * p + 1, t);
    if loaded <= t {
      assert 200 * loaded <= 200 * t;
      CancelFactor(2 * p - 1, 201, t);
    }
  }

  /** The rounding characterisation determines the percentage: no other
      integer is within half a point of the exact ratio (halves upward). */
  lemma ProgressIsTheNearestInteger(loaded: nat, t: nat, q: int)
    requires t > 0
    requires (2 * q - 1) * t <= 200 * loaded < (2 * q + 1) * t
    ensures UploadProgress(true, loaded, Some(t)) == Some(q)
  {
    var p := UploadProgress(true, loaded, Some(t)).value;
    CancelFactor(2 * p - 1, 2 * q + 1, t);
    CancelFactor(2 * q - 1, 2 * p + 1, t);
  }

  /** More bytes sent never lowers the reported percentage. */
  lemma ProgressMonotonic(l1: nat, l2: nat, t: nat)
    requires t > 0 && l1 <= l2
    ensures UploadProgress(true, l1, Some(t)).value <= UploadProgress(true, l2, Some(t)).value
  {
    var p1 := UploadProgress(true, l1, Some(t)).value;
    var p2 := UploadProgress(true, l2, Some(t)).value;
    CancelFactor(2 * p1 - 1, 2 * p2 + 1, t);
  }
}
