/** The viewport synchronisation of the map screen
    (`handleRegionChangeComplete` in `src/screens/main/MapScreen.tsx` and
    the effect that clears its timer on unmount): every region change is
    recorded at once, locally and in the store, and the nearby-data fetch
    is debounced on the trailing edge, one second after the last change.
    Time is an explicit clock advanced by `Elapse` events; the one timer
    the screen holds is part of the state. Arithmetic is over reals. */
module ViewportSync {
  import opened Wrappers
  import MS = MapSlice

  const DebounceMs: nat := 1000
  const MetersPerDegree: real := 111000.0
  const MaxRadius: real := 5000.0

  function Max(a: real, b: real): real
  {
    if a >= b then a else b
  }

  /** The search radius of a region: the larger span in metres, capped at
      five kilometres. */
  function Radius(region: MS.Region): (r: real)
    ensures r <= MaxRadius
    ensures r == MaxRadius || r == Max(region.latitudeDelta, region.longitudeDelta) * MetersPerDegree
    ensures Max(region.latitudeDelta, region.longitudeDelta) * MetersPerDegree <= MaxRadius ==>
      r == Max(region.latitudeDelta, region.longitudeDelta) * MetersPerDegree
    ensures r >= 0.0 <==> region.latitudeDelta >= 0.0 || region.longitudeDelta >= 0.0
  {
    var span := Max(region.latitudeDelta, region.longitudeDelta) * MetersPerDegree;
    if span <= MaxRadius then span else MaxRadius
  }

  /** The two worked values: deltas 0.02 and 0.01 give 2220 m; a latitude
      delta of 0.5 hits the cap. */
  lemma RadiusExamples(lon: real)
    ensures Radius(MS.Region(0.0, 0.0, 0.02, 0.01)) == 2220.0
    ensures Radius(MS.Region(0.0, 0.0, 0.5, lon)) == 5000.0
  {
  }

  /** Widening either span of the view never shrinks the search radius. */
  lemma RadiusMonotonic(a: MS.Region, b: MS.Region)
    requires a.latitudeDelta <= b.latitudeDelta && a.longitudeDelta <= b.longitudeDelta
    ensures Radius(a) <= Radius(b)
  {
  }

  /** The two spans play the same part: exchanging them changes nothing. */
  lemma RadiusSymmetric(region: MS.Region)
    ensures Radius(region) == Radius(region.(latitudeDelta := region.longitudeDelta, longitudeDelta := region.latitudeDelta))
  {
  }

  function FetchFor(region: MS.Region): MS.FetchParams
  {
    MS.FetchParams(region.latitude, region.longitude, Radius(region))
  }

  /** The scheduled fetch: the region it will ask about and when it fires. */
  datatype Timer = Timer(region: MS.Region, dueAt: int)

  datatype Screen = Screen(
    local: Option<MS.Region>,   // the screen's own region state
    store: MS.MapState,
    timer: Option<Timer>,
    now: int)

  datatype ScreenEvent = RegionChange(region: MS.Region) | Elapse(ms: nat) | Teardown

  datatype Outcome = Outcome(next: Screen, fetches: seq<MS.FetchParams>)

  /** One event. A change records the region locally and in the store and
      replaces any pending timer; time passing fires a due timer, once;
      teardown clears the timer. */
  function StepScreen(s: Screen, ev: ScreenEvent): (o: Outcome)
    ensures ev.RegionChange? ==>
      && o.next.local == Some(ev.region)
      && o.next.store == MS.Reduce(s.store, MS.SetMapRegion(ev.region))
      && o.next.timer == Some(Timer(ev.region, s.now + DebounceMs))
      && o.fetches == []
    ensures ev.Elapse? ==> o.next.now == s.now + ev.ms && o.next.local == s.local && o.next.store == s.store
    ensures ev.Elapse? ==>
      (o.fetches != [] <==> s.timer.Some? && s.timer.value.dueAt <= s.now + ev.ms)
    ensures o.fetches != [] ==> ev.Elapse? && o.fetches == [FetchFor(s.timer.value.region)] && o.next.timer.None?
    ensures ev == Teardown ==> o.next.timer.None? && o.fetches == []
  {
    match ev
    case RegionChange(region) =>
      Outcome(s.(local := Some(region), store := MS.Reduce(s.store, MS.SetMapRegion(region)),
                 timer := Some(Timer(region, s.now + DebounceMs))), [])
    case Elapse(ms) =>
      var now := s.now + ms;
      if s.timer.Some? && s.timer.value.dueAt <= now then
        Outcome(s.(now := now, timer := None), [FetchFor(s.timer.value.region)])
      else Outcome(s.(now := now), [])
    case Teardown => Outcome(s.(timer := None), [])
  }

  /** The screen's invariant: a pending timer always holds the latest
      region, recorded locally and in the store, and is due no more than
      one debounce period ahead. */
  predicate Consistent(s: Screen)
  {
    s.timer.Some? ==>
      && s.local == Some(s.timer.value.region)
      && s.store.region == Some(s.timer.value.region)
      && s.timer.value.dueAt <= s.now + DebounceMs
  }

  lemma StepKeepsConsistent(s: Screen, ev: ScreenEvent)
    requires Consistent(s)
    ensures Consistent(StepScreen(s, ev).next)
  {
  }

  /** Hence a fetch always asks about the latest region the user settled on. */
  lemma FetchUsesLatestRegion(s: Screen, ev: ScreenEvent)
    requires Consistent(s)
    requires StepScreen(s, ev).fetches != []
    ensures StepScreen(s, ev).fetches == [FetchFor(s.local.value)]
    ensures s.store.region == s.local
  {
  }

  /** A run of a step function over events: the final screen and every
      fetch, in order. */
  function RunWith(step: (Screen, ScreenEvent) -> Outcome, s: Screen, evs: seq<ScreenEvent>): Outcome
    decreases |evs|
  {
    if evs == [] then Outcome(s, [])
    else
      var first := step(s, evs[0]);
      var rest := RunWith(step, first.next, evs[1..]);
      Outcome(rest.next, first.fetches + rest.fetches)
  }

  function Run(s: Screen, evs: seq<ScreenEvent>): Outcome
  {
    RunWith(StepScreen, s, evs)
  }

  /** A burst of changes: each change followed by less than a second of
      quiet. */
  function Burst(regions: seq<MS.Region>, gaps: seq<nat>): (evs: seq<ScreenEvent>)
    requires |regions| == |gaps|
    ensures |evs| == 2 * |regions|
    decreases |regions|
  {
    if regions == [] then []
    else [RegionChange(regions[0]), Elapse(gaps[0])] + Burst(regions[1..], gaps[1..])
  }

  /** During a burst nothing is fetched; afterwards the one pending timer
      holds the last region and is due a second after the last change. */
  lemma {:induction false} BurstFetchesNothing(s: Screen, regions: seq<MS.Region>, gaps: seq<nat>)
    requires |regions| == |gaps| && |regions| > 0
    requires forall i | 0 <= i < |gaps| :: gaps[i] < DebounceMs
    ensures var o := Run(s, Burst(regions, gaps));
      && o.fetches == []
      && o.next.timer == Some(Timer(regions[|regions| - 1], o.next.now - gaps[|gaps| - 1] + DebounceMs))
      && o.next.local == Some(regions[|regions| - 1])
      && o.next.store.region == Some(regions[|regions| - 1])
    decreases |regions|
  {
    var s1 := StepScreen(s, RegionChange(regions[0])).next;
    var s2 := StepScreen(s1, Elapse(gaps[0])).next;
    assert StepScreen(s1, Elapse(gaps[0])).fetches == [];
    var evs := Burst(regions, gaps);
    assert evs[0] == RegionChange(regions[0]);
    assert evs[1..][0] == Elapse(gaps[0]);
    assert evs[1..][1..] == Burst(regions[1..], gaps[1..]);
    var rest := Run(s2, evs[1..][1..]);
    assert Run(s1, evs[1..]) == Outcome(rest.next, [] + rest.fetches);
    assert Run(s, evs) == Outcome(rest.next, [] + ([] + rest.fetches));
    if |regions| > 1 {
      BurstFetchesNothing(s2, regions[1..], gaps[1..]);
    } else {
      assert Burst(regions[1..], gaps[1..]) == [];
      assert rest == Outcome(s2, []);
    }
  }

  /** A burst followed by a second of quiet fetches exactly once, for the
      last region of the burst. */
  lemma BurstThenQuietFetchesOnce(s: Screen, regions: seq<MS.Region>, gaps: seq<nat>)
    requires |regions| == |gaps| && |regions| > 0
    requires forall i | 0 <= i < |gaps| :: gaps[i] < DebounceMs
    ensures Run(s, Burst(regions, gaps) + [Elapse(DebounceMs)]).fetches == [FetchFor(regions[|regions| - 1])]
  {
    BurstFetchesNothing(s, regions, gaps);
    RunAppend(s, Burst(regions, gaps), [Elapse(DebounceMs)]);
    var mid := Run(s, Burst(regions, gaps)).next;
    RunSingle(mid, Elapse(DebounceMs));
    assert StepScreen(mid, Elapse(DebounceMs)).fetches == [FetchFor(regions[|regions| - 1])];
  }

  lemma RunWithCons(step: (Screen, ScreenEvent) -> Outcome, s: Screen, ev: ScreenEvent, rest: seq<ScreenEvent>)
    ensures var first := step(s, ev);
      RunWith(step, s, [ev] + rest) == Outcome(RunWith(step, first.next, rest).next, first.fetches + RunWith(step, first.next, rest).fetches)
  {
    assert ([ev] + rest)[0] == ev;
    assert ([ev] + rest)[1..] == rest;
  }

  lemma {:induction false} RunWithAppend(step: (Screen, ScreenEvent) -> Outcome, s: Screen, a: seq<ScreenEvent>, b: seq<ScreenEvent>)
    ensures RunWith(step, s, a + b).next == RunWith(step, RunWith(step, s, a).next, b).next
    ensures RunWith(step, s, a + b).fetches == RunWith(step, s, a).fetches + RunWith(step, RunWith(step, s, a).next, b).fetches
    decreases |a|
  {
    if a == [] {
      assert a + b == b;
    } else {
      var first := step(s, a[0]);
      assert a + b == [a[0]] + (a[1..] + b);
      assert a == [a[0]] + a[1..];
      RunWithCons(step, s, a[0], a[1..] + b);
      RunWithCons(step, s, a[0], a[1..]);
      RunWithAppend(step, first.next, a[1..], b);
      var restA := RunWith(step, first.next, a[1..]);
      var restB := RunWith(step, restA.next, b);
      assert first.fetches + (restA.fetches + restB.fetches) == (first.fetches + restA.fetches) + restB.fetches;
    }
  }

  lemma RunSingle(s: Screen, ev: ScreenEvent)
    ensures Run(s, [ev]) == StepScreen(s, ev)
  {
    RunWithCons(StepScreen, s, ev, []);
    assert [ev] + [] == [ev];
    assert StepScreen(s, ev).fetches + [] == StepScreen(s, ev).fetches;
  }

  lemma RunAppend(s: Screen, a: seq<ScreenEvent>, b: seq<ScreenEvent>)
    ensures Run(s, a + b).next == Run(Run(s, a).next, b).next
    ensures Run(s, a + b).fetches == Run(s, a).fetches + Run(Run(s, a).next, b).fetches
  {
    RunWithAppend(StepScreen, s, a, b);
  }

  /** After teardown no fetch fires, however long the clock runs. */
  lemma {:induction false} NoFetchAfterTeardown(s: Screen, waits: seq<ScreenEvent>)
    requires s.timer.None?
    requires forall i | 0 <= i < |waits| :: waits[i].Elapse? || waits[i] == Teardown
    ensures Run(s, waits).fetches == []
    decreases |waits|
  {
    if waits != [] {
      var t := StepScreen(s, waits[0]).next;
      assert forall i | 0 <= i < |waits| - 1 :: waits[1..][i] == waits[i + 1];
      NoFetchAfterTeardown(t, waits[1..]);
    }
  }

  lemma TeardownCancelsPendingFetch(s: Screen, waits: seq<ScreenEvent>)
    requires forall i | 0 <= i < |waits| :: waits[i].Elapse?
    ensures Run(s, [Teardown] + waits).fetches == []
  {
    var t := StepScreen(s, Teardown).next;
    assert ([Teardown] + waits)[0] == Teardown;
    assert ([Teardown] + waits)[1..] == waits;
    NoFetchAfterTeardown(t, waits);
  }
}
