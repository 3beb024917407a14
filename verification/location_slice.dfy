/** The location slice of the store (`src/store/slices/locationSlice.ts`):
    the current location, the nearby users, the tracking flag and the time
    of the last update, the reducer over the actions it handles, and what
    its thunks dispatch. The clock `new Date()` reads is the `at` field of
    the location update. */
module LocationSlice {
  import opened Wrappers
  import JsString
  import LS = LocationService
  import MS = MapSlice

  datatype LocationState = LocationState(
    currentLocation: Option<LS.Location>,
    nearbyUsers: seq<MS.NearbyUser>,
    isTracking: bool,
    lastUpdate: Option<real>,
    error: Option<string>)

  const InitialLocationState := LocationState(None, [], false, None, None)

  /** The slice's own actions and the lifecycle actions of its four thunks,
      handled or not. */
  datatype LocationAction =
    | UpdateCurrentLocation(location: LS.Location, at: real)
    | ClearLocationError
    | StartPending | StartFulfilled | StartRejected(payload: string)
    | StopPending | StopFulfilled
    | NearbyPending | NearbyFulfilled(users: seq<MS.NearbyUser>) | NearbyRejected(payload: string)
    | SyncPending | SyncFulfilled(synced: LS.Location) | SyncRejected(payload: string)

  /** The actions the slice has a case for; every other one passes through. */
  predicate Handled(a: LocationAction)
  {
    a.UpdateCurrentLocation? || a == ClearLocationError || a == StartPending || a.StartRejected?
    || a == StopFulfilled || a.NearbyFulfilled? || a.NearbyRejected? || a.SyncRejected?
  }

  /** The reducer. Only a start request turns tracking on; only a stop and
      a failed start turn it off. Only a location update sets the time of
      the last update; stopping drops the location but not that time. Each
      rejection records its payload; a failed background sync overwrites
      whatever error was showing. */
  function Reduce(s: LocationState, a: LocationAction): (r: LocationState)
    ensures !Handled(a) ==> r == s
    ensures a.UpdateCurrentLocation? ==>
      r == s.(currentLocation := Some(a.location), lastUpdate := Some(a.at), error := None)
    ensures a == ClearLocationError ==> r == s.(error := None)
    ensures a == StartPending ==> r == s.(isTracking := true, error := None)
    ensures a.StartRejected? ==> r == s.(isTracking := false, error := Some(a.payload))
    ensures a == StopFulfilled ==> r == s.(isTracking := false, currentLocation := None)
    ensures a.NearbyFulfilled? ==> r == s.(nearbyUsers := a.users)
    ensures a.NearbyRejected? || a.SyncRejected? ==> r == s.(error := Some(a.payload))
    ensures r.isTracking && !s.isTracking ==> a == StartPending
    ensures !r.isTracking && s.isTracking ==> a.StartRejected? || a == StopFulfilled
    ensures r.lastUpdate != s.lastUpdate ==> a.UpdateCurrentLocation?
    ensures r.nearbyUsers != s.nearbyUsers ==> a.NearbyFulfilled?
  {
    match a
    case UpdateCurrentLocation(location, at) =>
      s.(currentLocation := Some(location), lastUpdate := Some(at), error := None)
    case ClearLocationError => s.(error := None)
    case StartPending => s.(isTracking := true, error := None)
    case StartRejected(payload) => s.(isTracking := false, error := Some(payload))
    case StopFulfilled => s.(isTracking := false, currentLocation := None)
    case NearbyFulfilled(users) => s.(nearbyUsers := users)
    case NearbyRejected(payload) => s.(error := Some(payload))
    case SyncRejected(payload) => s.(error := Some(payload))
    case _ => s
  }

  function ReduceAll(s: LocationState, actions: seq<LocationAction>): LocationState
    decreases |actions|
  {
    if actions == [] then s else ReduceAll(Reduce(s, actions[0]), actions[1..])
  }

  /** Once on, tracking stays on through any run of actions that holds no
      stop and no failed start. */
  lemma {:induction false} TrackingPersists(s: LocationState, actions: seq<LocationAction>)
    requires s.isTracking
    requires forall i | 0 <= i < |actions| :: actions[i] != StopFulfilled && !actions[i].StartRejected?
    ensures ReduceAll(s, actions).isTracking
    decreases |actions|
  {
    if actions != [] {
      assert forall i | 0 <= i < |actions| - 1 :: actions[1..][i] == actions[i + 1];
      TrackingPersists(Reduce(s, actions[0]), actions[1..]);
    }
  }

  const SyncFailedMessage := "Failed to update location on server"
  const NearbyFailedMessage := "Failed to fetch nearby users"
  const StartFailedMessage := "Could not start location tracking."

  /** `updateLocationOnServer`: the service posts the location (and emits
      it once the post succeeds); the thunk fulfils with the location it
      was given, or rejects with the error's message or the fallback. */
  function SettleSync(location: LS.Location, post: Result<Unit, string>): (a: LocationAction)
    ensures post.Success? ==> a == SyncFulfilled(location)
    ensures post.Failure? ==> a.SyncRejected? && a.payload != []
    ensures post.Failure? && post.error != [] ==> a == SyncRejected(post.error)
    ensures post.Failure? && post.error == [] ==> a == SyncRejected(SyncFailedMessage)
  {
    match LS.UpdateLocationOnServer(location, post).outcome
    case Success(_) => SyncFulfilled(location)
    case Failure(message) => SyncRejected(JsString.Or(Some(message), SyncFailedMessage))
  }

  /** `fetchNearbyUsers`: the list the service returns, or its message or
      the fallback. */
  function SettleNearby(answer: Result<seq<MS.NearbyUser>, Option<string>>): (a: LocationAction)
    ensures answer.Success? ==> a == NearbyFulfilled(answer.value)
    ensures answer.Failure? ==> a.NearbyRejected? && a.payload != []
    ensures answer.Failure? && JsString.IsTruthy(answer.error) ==> a == NearbyRejected(answer.error.value)
  {
    match answer
    case Success(users) => NearbyFulfilled(users)
    case Failure(message) => NearbyRejected(JsString.Or(message, NearbyFailedMessage))
  }

  /** `startLocationTracking`: fulfils unless registering the watch throws,
      and then rejects with a fixed message whatever was thrown. */
  function SettleStart(throws: bool): (a: LocationAction)
    ensures throws <==> a.StartRejected?
    ensures throws ==> a.payload == StartFailedMessage
    ensures !throws ==> a == StartFulfilled
  {
    if throws then StartRejected(StartFailedMessage) else StartFulfilled
  }

  /** What the tracking callback dispatches for one location: the local
      update first, then the background sync's pending and settled actions. */
  function OnLocation(location: LS.Location, at: real, post: Result<Unit, string>): (actions: seq<LocationAction>)
    ensures |actions| == 3
    ensures actions[0] == UpdateCurrentLocation(location, at)
    ensures actions[1] == SyncPending
    ensures actions[2] == SettleSync(location, post)
  {
    [UpdateCurrentLocation(location, at), SyncPending, SettleSync(location, post)]
  }

  /** One location from the tracker: it is shown and timestamped whatever
      the server says; a failed sync leaves the location in place and its
      message in the error; the tracking flag and the nearby list are
      untouched. */
  lemma LocationShownBeforeSync(s: LocationState, location: LS.Location, at: real, post: Result<Unit, string>)
    ensures var r := ReduceAll(s, OnLocation(location, at, post));
      && r.currentLocation == Some(location) && r.lastUpdate == Some(at)
      && r.isTracking == s.isTracking && r.nearbyUsers == s.nearbyUsers
      && (post.Success? <==> r.error.None?)
      && (post.Failure? ==> r.error == Some(SettleSync(location, post).payload))
  {
    var acts := OnLocation(location, at, post);
    var s1 := Reduce(s, acts[0]);
    var s2 := Reduce(s1, acts[1]);
    var s3 := Reduce(s2, acts[2]);
    var rest1 := acts[1..];
    var rest2 := rest1[1..];
    assert rest1[0] == acts[1] && rest2[0] == acts[2] && rest2[1..] == [];
    assert ReduceAll(s2, rest2) == ReduceAll(s3, []) == s3;
    assert ReduceAll(s1, rest1) == ReduceAll(s2, rest2);
    assert ReduceAll(s, acts) == ReduceAll(s1, rest1);
  }

  /** A fix from the location service reaches the slice only through the
      callback it stores: with a callback, the fix is recorded marked as
      current; without one, nothing is dispatched. */
  function OnFix(t: LS.Tracker, pos: LS.Position, at: real, post: Result<Unit, string>): (actions: seq<LocationAction>)
    ensures t.callback.None? ==> actions == []
    ensures t.callback.Some? ==> actions == OnLocation(LS.FromPosition(pos), at, post)
  {
    match LS.HandlePositionSuccess(t, pos)
    case None => []
    case Some(inv) => OnLocation(inv.location, at, post)
  }

  /** After a configuration change while tracking, the as-written restart
      leaves the service without a callback: later fixes never reach the
      slice, which still shows the old location and says it is tracking. */
  lemma FixesLostAfterConfigChange(s: LocationState, t: LS.Tracker, p: LS.PartialConfig,
                                   pos: LS.Position, at: real, post: Result<Unit, string>)
    requires LS.Valid(t) && t.isTracking && t.callback.Some?
    ensures OnFix(LS.UpdateConfig(t, p), pos, at, post) == []
    ensures ReduceAll(s, OnFix(LS.UpdateConfig(t, p), pos, at, post)) == s
    ensures OnFix(LS.UpdateConfigKeepingCallback(t, p), pos, at, post) != []
  {
    LS.UpdateConfigDropsCallback(t, p, pos);
  }

  /** A whole start request: pending turns tracking on and clears the
      error; a failed start turns it off again with the fixed message. */
  lemma StartRequest(s: LocationState, throws: bool)
    ensures var r := Reduce(Reduce(s, StartPending), SettleStart(throws));
      && r.isTracking == !throws
      && r.error == (if throws then Some(StartFailedMessage) else None)
      && r.currentLocation == s.currentLocation && r.nearbyUsers == s.nearbyUsers
  {
  }

  /** A whole stop request ends tracking and drops the location from any
      state, keeping the time of the last update. */
  lemma StopRequest(s: LocationState)
    ensures var r := Reduce(Reduce(s, StopPending), StopFulfilled);
      && !r.isTracking && r.currentLocation.None? && r.lastUpdate == s.lastUpdate && r.error == s.error
  {
  }
}
