/** The location tracker of `src/services/locationService.ts`: a small
    state machine over whether it is tracking, the platform watch it holds,
    the consumer's callback and its configuration. The platform's
    geolocation watches are part of the state (the set of live watches and
    the configuration each was opened with), so "one watch" is a statement
    about that map. A callback is named by an id. */
module LocationService {
  import opened Wrappers

  type CallbackId = nat
  type WatchId = nat

  datatype Config = Config(
    enableHighAccuracy: bool,
    distanceFilter: real,
    interval: real,
    fastestInterval: real,
    timeout: real,
    maximumAge: real)

  const DefaultConfig := Config(true, 10.0, 15000.0, 10000.0, 20000.0, 10000.0)

  /** A `Partial<LocationServiceConfig>`: each key supplied or absent. */
  datatype PartialConfig = PartialConfig(
    enableHighAccuracy: Option<bool>,
    distanceFilter: Option<real>,
    interval: Option<real>,
    fastestInterval: Option<real>,
    timeout: Option<real>,
    maximumAge: Option<real>)

  /** `{ ...config, ...patch }`: exactly the supplied keys are overridden. */
  function MergeConfig(c: Config, p: PartialConfig): (r: Config)
    ensures p.enableHighAccuracy.Some? ==> r.enableHighAccuracy == p.enableHighAccuracy.value
    ensures p.enableHighAccuracy.None? ==> r.enableHighAccuracy == c.enableHighAccuracy
    ensures p.distanceFilter.Some? ==> r.distanceFilter == p.distanceFilter.value
    ensures p.distanceFilter.None? ==> r.distanceFilter == c.distanceFilter
    ensures p.interval.Some? ==> r.interval == p.interval.value
    ensures p.interval.None? ==> r.interval == c.interval
    ensures p.fastestInterval.Some? ==> r.fastestInterval == p.fastestInterval.value
    ensures p.fastestInterval.None? ==> r.fastestInterval == c.fastestInterval
    ensures p.timeout.Some? ==> r.timeout == p.timeout.value
    ensures p.timeout.None? ==> r.timeout == c.timeout
    ensures p.maximumAge.Some? ==> r.maximumAge == p.maximumAge.value
    ensures p.maximumAge.None? ==> r.maximumAge == c.maximumAge
  {
    Config(
      p.enableHighAccuracy.GetOr(c.enableHighAccuracy),
      p.distanceFilter.GetOr(c.distanceFilter),
      p.interval.GetOr(c.interval),
      p.fastestInterval.GetOr(c.fastestInterval),
      p.timeout.GetOr(c.timeout),
      p.maximumAge.GetOr(c.maximumAge))
  }

  const EmptyPatch := PartialConfig(None, None, None, None, None, None)

  /** Merging nothing changes nothing, and merging a patch twice is merging
      it once. */
  lemma MergeConfigLaws(c: Config, p: PartialConfig)
    ensures MergeConfig(c, EmptyPatch) == c
    ensures MergeConfig(MergeConfig(c, p), p) == MergeConfig(c, p)
  {
  }

  datatype Tracker = Tracker(
    watchId: Option<WatchId>,
    isTracking: bool,
    callback: Option<CallbackId>,
    config: Config,
    watches: map<WatchId, Config>,   // the platform's live watches
    nextWatch: WatchId)              // the id the platform hands out next

  const InitialTracker := Tracker(None, false, None, DefaultConfig, map[], 0)

  /** The tracker's invariant: it tracks exactly when it holds a watch, and
      the platform has no live watch but that one. */
  predicate Valid(t: Tracker)
  {
    && (t.isTracking <==> t.watchId.Some?)
    && t.watches.Keys == (if t.watchId.Some? then {t.watchId.value} else {})
    && (forall w | w in t.watches :: w < t.nextWatch)
  }

  lemma InitialTrackerValid()
    ensures Valid(InitialTracker)
  {
  }

  /** `startTracking`: while tracking, nothing changes; otherwise the
      callback is stored, one platform watch is opened with the current
      configuration, and tracking is on. */
  function StartTracking(t: Tracker, cb: Option<CallbackId>): (r: Tracker)
    ensures t.isTracking ==> r == t
    ensures !t.isTracking ==>
      && r.isTracking && r.callback == cb && r.config == t.config
      && r.watchId == Some(t.nextWatch) && r.watches == t.watches[t.nextWatch := t.config]
    ensures Valid(t) && !t.isTracking ==> r.watches == map[t.nextWatch := t.config]
    ensures Valid(t) ==> Valid(r)
  {
    if t.isTracking then t
    else
      var w := t.nextWatch;
      t.(callback := cb, watchId := Some(w), watches := t.watches[w := t.config], nextWatch := w + 1, isTracking := true)
  }

  /** `stopTracking`, from any state: the watch is cleared if there is one,
      tracking is off and the stored callback is dropped. */
  function StopTracking(t: Tracker): (r: Tracker)
    ensures !r.isTracking && r.watchId.None? && r.callback.None?
    ensures r.config == t.config
    ensures t.watchId.Some? ==> r.watches == t.watches - {t.watchId.value}
    ensures t.watchId.None? ==> r.watches == t.watches
    ensures Valid(t) ==> Valid(r) && r.watches == map[]
  {
    var cleared := if t.watchId.Some? then t.(watches := t.watches - {t.watchId.value}, watchId := None) else t;
    cleared.(isTracking := false, callback := None)
  }

  /** Stopping twice is stopping once. */
  lemma StopTrackingIdempotent(t: Tracker)
    ensures StopTracking(StopTracking(t)) == StopTracking(t)
  {
  }

  /** `updateConfig` as written: the configuration is merged; if tracking
      with a callback, `stopTracking` runs and then `startTracking` is
      handed the stored callback, which `stopTracking` has just cleared. */
  function UpdateConfig(t: Tracker, p: PartialConfig): (r: Tracker)
    ensures r.config == MergeConfig(t.config, p)
    ensures !(t.isTracking && t.callback.Some?) ==> r == t.(config := MergeConfig(t.config, p))
    ensures Valid(t) ==> Valid(r)
  {
    var merged := t.(config := MergeConfig(t.config, p));
    if merged.isTracking && merged.callback.Some? then
      var stopped := StopTracking(merged);
      StartTracking(stopped, stopped.callback)
    else merged
  }

  /** The restart leaves the tracker running with no callback: the new
      watch is the only live one and carries the new configuration, but
      every later fix is dropped. */
  lemma UpdateConfigDropsCallback(t: Tracker, p: PartialConfig, fix: Position)
    requires Valid(t) && t.isTracking && t.callback.Some?
    ensures var r := UpdateConfig(t, p);
      && r.isTracking && r.callback.None?
      && r.watches == map[t.nextWatch := MergeConfig(t.config, p)]
      && HandlePositionSuccess(r, fix).None?
  {
  }

  /** Once in that state, a further `updateConfig` changes only the
      configuration: the live watch keeps the configuration it was opened
      with. */
  lemma UpdateConfigWithoutCallbackDoesNotRestart(t: Tracker, p: PartialConfig)
    requires t.isTracking && t.callback.None?
    ensures UpdateConfig(t, p) == t.(config := MergeConfig(t.config, p))
  {
  }

  /** The intended restart: the callback is read before `stopTracking`
      clears it. */
  function UpdateConfigKeepingCallback(t: Tracker, p: PartialConfig): (r: Tracker)
    ensures r.config == MergeConfig(t.config, p)
    ensures r.callback == t.callback
    ensures r.isTracking == t.isTracking
    ensures Valid(t) ==> Valid(r)
    ensures Valid(t) && t.isTracking && t.callback.Some? ==> r.watches == map[t.nextWatch := MergeConfig(t.config, p)]
  {
    var merged := t.(config := MergeConfig(t.config, p));
    if merged.isTracking && merged.callback.Some? then
      StartTracking(StopTracking(merged), merged.callback)
    else merged
  }

  /** With the corrected restart, fixes after a configuration change still
      reach the consumer. */
  lemma CorrectedUpdateKeepsDelivering(t: Tracker, p: PartialConfig, fix: Position)
    requires Valid(t) && t.isTracking && t.callback.Some?
    ensures HandlePositionSuccess(UpdateConfigKeepingCallback(t, p), fix) == Some(Invocation(t.callback.value, FromPosition(fix)))
  {
  }

  /** `getConfig`: a copy of the configuration. */
  function GetConfig(t: Tracker): Config
  {
    t.config
  }

  /** After `updateConfig`, `getConfig` shows exactly the supplied keys
      changed, whatever the tracker was doing. */
  lemma GetConfigAfterUpdate(t: Tracker, p: PartialConfig)
    ensures GetConfig(UpdateConfig(t, p)) == MergeConfig(GetConfig(t), p)
  {
  }

  /** A fix from the platform. */
  datatype Position = Position(latitude: real, longitude: real, accuracy: real, timestamp: real)

  /** A location as the consumer receives it (`Omit<UserLocation, 'id' | 'userId'>`). */
  datatype Location = Location(latitude: real, longitude: real, accuracy: real, timestamp: real, isCurrent: bool)

  function FromPosition(pos: Position): (l: Location)
    ensures l.latitude == pos.latitude && l.longitude == pos.longitude
    ensures l.accuracy == pos.accuracy && l.timestamp == pos.timestamp
    ensures l.isCurrent
  {
    Location(pos.latitude, pos.longitude, pos.accuracy, pos.timestamp, true)
  }

  datatype Invocation = Invocation(callback: CallbackId, location: Location)

  /** `handlePositionSuccess`: the stored callback is called once with the
      copied coordinates, marked current; with no callback nothing happens. */
  function HandlePositionSuccess(t: Tracker, pos: Position): (r: Option<Invocation>)
    ensures r.None? <==> t.callback.None?
    ensures r.Some? ==> r.value.callback == t.callback.value && r.value.location == FromPosition(pos)
  {
    if t.callback.Some? then Some(Invocation(t.callback.value, FromPosition(pos))) else None
  }

  /** `handlePositionError`: a watch error stops tracking. */
  function HandlePositionError(t: Tracker): (r: Tracker)
    ensures !r.isTracking && r.callback.None? && r.watchId.None?
    ensures Valid(t) ==> Valid(r) && r.watches == map[]
  {
    StopTracking(t)
  }

  /** What `updateLocationOnServer` does, in order. */
  datatype ServerEffect = PostLocation(location: Location) | EmitLocation(location: Location)

  datatype ServerCall = ServerCall(effects: seq<ServerEffect>, outcome: Result<Unit, string>)

  /** `updateLocationOnServer`: the POST first; the socket emit only after
      it succeeds; a failed POST is rethrown with nothing emitted. */
  function UpdateLocationOnServer(location: Location, post: Result<Unit, string>): (r: ServerCall)
    ensures |r.effects| >= 1 && r.effects[0] == PostLocation(location)
    ensures r.outcome == post
    ensures (exists i | 0 <= i < |r.effects| :: r.effects[i].EmitLocation?) <==> post.Success?
    ensures post.Success? ==> r.effects == [PostLocation(location), EmitLocation(location)]
  {
    if post.Success? then
      var effects := [PostLocation(location), EmitLocation(location)];
      assert effects[1].EmitLocation?;
      ServerCall(effects, post)
    else ServerCall([PostLocation(location)], post)
  }

  const CurrentLocationPrefix := "Could not get current location: "

  /** `getCurrentLocation`: the fix as a current location, or the
      platform's message behind a fixed prefix. */
  function CurrentLocation(answer: Result<Position, string>): (r: Result<Location, string>)
    ensures answer.Success? ==> r == Success(FromPosition(answer.value))
    ensures answer.Failure? ==>
      && r.Failure?
      && |r.error| == |CurrentLocationPrefix| + |answer.error|
      && r.error[..|CurrentLocationPrefix|] == CurrentLocationPrefix
      && r.error[|CurrentLocationPrefix|..] == answer.error
  {
    match answer
    case Success(pos) => Success(FromPosition(pos))
    case Failure(message) => Failure(CurrentLocationPrefix + message)
  }
}
