/** Traces of the whole engine in which nothing is sighted and nothing reloaded. */
module EngineTicks {
  import opened Wrappers
  import opened Identity
  import opened Tunables
  import opened Presence
  import opened PresenceRuns
  import opened PresenceTicks
  import opened EngineSpec

  /** Every call is a tick. */
  ghost predicate OnlyTicks(tr: Trace) { forall i | 0 <= i < |tr.moves| :: tr.moves[i].action.TickAll? }

  lemma TickKeepsConfiguration(e: EngineState, m: Move, e': EngineState, out: seq<Event>, k: BeaconKey)
    requires Next(e, m, e', out) && m.action.TickAll? && k in e.beacons
    ensures e'.top == e.top && e'.resolved == e.resolved && k in e'.beacons && e'.beacons[k].name == e.beacons[k].name
  {
    assert TrackedAfter(e, m.action, k);
    MoveKeepsIdentity(e, m, e', out, k);
  }

  lemma TickAt(tr: Trace, k: BeaconKey, i: nat)
    requires ValidTrace(tr) && i < |tr.moves| && tr.moves[i].action.TickAll? && k in tr.states[i].beacons
    ensures tr.states[i + 1].top == tr.states[i].top && tr.states[i + 1].resolved == tr.states[i].resolved
    ensures k in tr.states[i + 1].beacons && tr.states[i + 1].beacons[k].name == tr.states[i].beacons[k].name
  {
    assert MoveAt(tr, i);
    TickKeepsConfiguration(tr.states[i], tr.moves[i], tr.states[i + 1], tr.outs[i], k);
  }

  /** Ticks leave the topology, the cache and the names alone. */
  lemma {:induction false} TicksKeepConfiguration(tr: Trace, k: BeaconKey, n: nat)
    requires ValidTrace(tr) && TrackedThroughout(tr, k) && OnlyTicks(tr) && n <= |tr.moves|
    ensures tr.states[n].top == tr.states[0].top && tr.states[n].resolved == tr.states[0].resolved
    ensures tr.states[n].beacons[k].name == tr.states[0].beacons[k].name
  {
    if n > 0 {
      TicksKeepConfiguration(tr, k, n - 1);
      TickAt(tr, k, n - 1);
    }
  }

  lemma TicksOfTrace(tr: Trace, k: BeaconKey, r: Run)
    requires Follows(tr, k, r) && OnlyTicks(tr)
    ensures TickRun(r, TunFor(tr.states[0].resolved, tr.states[0].beacons[k].name), tr.states[0].top)
  {
    FollowsIsValid(tr, k, r);
    forall i | 0 <= i < |r.steps|
      ensures r.steps[i].Tick? && r.steps[i].top == tr.states[0].top
      ensures r.steps[i].tun == TunFor(tr.states[0].resolved, tr.states[0].beacons[k].name)
    {
      assert StepFollows(tr, k, r, i);
      TicksKeepConfiguration(tr, k, i);
      TrackedMove(tr, k, i);
    }
  }

  /**
   * Any number of ticks of the whole engine makes a beacon emit at most one event per AP that knows it, and one more.
   */
  lemma EngineTicksSettle(tr: Trace, k: BeaconKey)
    requires ValidTrace(tr) && TrackedThroughout(tr, k) && OnlyTicks(tr)
    ensures |Project(Log(tr.outs, |tr.moves|), k)| <= |tr.states[0].beacons[k].perAP| + 1
  {
    var r := RunOf(tr, k);
    TicksOfTrace(tr, k, r);
    FollowsIsValid(tr, k, r);
    LogFollows(tr, k, r, |tr.moves|);
    TicksSettle(r, TunFor(tr.states[0].resolved, tr.states[0].beacons[k].name), tr.states[0].top);
  }

  /** Once a tick has taken a beacon out of its zone, no later tick emits anything for it. */
  lemma EngineSilentAfterDeparture(tr: Trace, k: BeaconKey, i: nat, j: nat)
    requires ValidTrace(tr) && TrackedThroughout(tr, k) && OnlyTicks(tr) && i < j < |tr.moves|
    requires tr.states[i].beacons[k].zone != "" && tr.states[i + 1].beacons[k].zone == ""
    ensures Project(tr.outs[j], k) == [] && tr.states[j + 1].beacons[k] == tr.states[i + 1].beacons[k]
  {
    var r := RunOf(tr, k);
    TicksOfTrace(tr, k, r);
    SilentAfterDeparture(r, i, j, TunFor(tr.states[0].resolved, tr.states[0].beacons[k].name), tr.states[0].top);
    FollowsStep(tr, k, r, j);
  }

  /** The settings and the topology that every tick of such a trace uses for a beacon. */
  function SettingsAt(tr: Trace, k: BeaconKey): Resolved
    requires |tr.states| > 0 && k in tr.states[0].beacons
  {
    TunFor(tr.states[0].resolved, tr.states[0].beacons[k].name)
  }

  /**
   * Exact departure in the whole engine: a beacon in a zone departs at the first tick that finds its sticky window over
   * and no AP in presence or all silent, and at no other. m is the index of that tick, or the number of ticks.
   */
  lemma EngineDepartsExactlyAtFirstDue(tr: Trace, k: BeaconKey, m: nat, i: nat)
    requires ValidTrace(tr) && TrackedThroughout(tr, k) && OnlyTicks(tr) && m <= |tr.moves| && i < |tr.moves|
    requires tr.states[0].beacons[k].zone != ""
    requires forall j | 0 <= j < m :: !DepartureDue(tr.states[0].beacons[k], tr.moves[j].now, SettingsAt(tr, k))
    requires m < |tr.moves| ==> DepartureDue(tr.states[0].beacons[k], tr.moves[m].now, SettingsAt(tr, k))
    ensures tr.states[i].beacons[k].zone != "" && tr.states[i + 1].beacons[k].zone == "" <==> i == m
  {
    var r := RunOf(tr, k);
    FollowsIsValid(tr, k, r);
    TicksOfTrace(tr, k, r);
    assert r.states[i] == tr.states[i].beacons[k] && r.states[i + 1] == tr.states[i + 1].beacons[k];
    DepartsExactlyAtFirstDue(r, m, i, SettingsAt(tr, k), tr.states[0].top);
  }

  /** A lone arrival followed by ticks: the engine's log for the beacon is one departure, from the deadline on. */
  lemma EngineLoneArrivalDepartsOnce(tr: Trace, k: BeaconKey, n: nat, m: nat, ap: string, a: real)
    requires ValidTrace(tr) && TrackedThroughout(tr, k) && OnlyTicks(tr) && n <= |tr.moves| && m <= |tr.moves|
    requires LoneArrival(tr.states[0].beacons[k], ap, a, SettingsAt(tr, k), tr.states[0].top)
    requires |tr.moves| > 0 ==> a <= tr.moves[0].now
    requires forall i | 0 <= i < m ::
      !Due(tr.moves[i].now, a, tr.states[0].beacons[k].perAP[ap].ewma, SettingsAt(tr, k))
    requires m < |tr.moves| ==> Due(tr.moves[m].now, a, tr.states[0].beacons[k].perAP[ap].ewma, SettingsAt(tr, k))
    ensures Project(Log(tr.outs, n), k) ==
      if n <= m then [] else [DepartureEvent(tr.states[0].beacons[k], tr.moves[m].now, SettingsAt(tr, k), Some(a))]
  {
    var r := RunOf(tr, k);
    FollowsIsValid(tr, k, r);
    TicksOfTrace(tr, k, r);
    LogFollows(tr, k, r, n);
    LoneArrivalDepartsOnce(r, n, m, ap, a, SettingsAt(tr, k), tr.states[0].top);
  }
}
