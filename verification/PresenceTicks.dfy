/** Runs in which nothing is sighted: they settle, and a lone arrival departs once, at a known time. */
module PresenceTicks {
  import opened Wrappers
  import opened Text
  import opened Tunables
  import opened Topology
  import opened Presence
  import opened PresenceSignal
  import opened PresenceRuns

  /** Every step is a tick under one configuration. */
  ghost predicate TickRun(r: Run, tun: Resolved, top: Topology) {
    ValidRun(r) && forall i | 0 <= i < |r.steps| :: r.steps[i].Tick? && r.steps[i].tun == tun && r.steps[i].top == top
  }

  /** All APs that ever reported have been silent longer than TAwayMaxS. */
  ghost predicate AllSilent(perAP: map<string, ApState>, t: real, tun: Resolved) {
    && (exists k :: k in perAP && perAP[k].lastSighting.Some?)
    && forall k | k in perAP && perAP[k].lastSighting.Some? :: t - perAP[k].lastSighting.value > tun.tAwayMaxS as real
  }

  /** A beacon that can no longer move without a sighting. */
  ghost predicate Quiet(b: Beacon, t: real, tun: Resolved) {
    b.zone == "" && (Present(b.perAP, t, tun) == {} || AllSilent(b.perAP, t, tun))
  }

  /** How many events the ticks from time t on can still emit. */
  ghost function Budget(b: Beacon, t: real, tun: Resolved, top: Topology): nat {
    var n := |Present(b.perAP, t, tun)|;
    if b.zone == "" then (if Quiet(b, t, tun) then 0 else n + 1)
    else if b.ap in Present(b.perAP, t, tun) && b.zone == Zone(top, b.ap) then n
    else n + 1
  }

  lemma SubsetIsSmaller<T>(a: set<T>, b: set<T>)
    requires a <= b
    ensures |a| <= |b|
    ensures forall x | x in b && x !in a :: |a| < |b|
  {
    assert b == a + (b - a);
    forall x | x in b && x !in a
      ensures |a| < |b|
    {
      assert x in b - a;
    }
  }

  lemma BudgetShrinks(b: Beacon, t: real, t': real, tun: Resolved, top: Topology)
    requires InRange(tun) && t <= t'
    ensures Budget(b, t', tun, top) <= Budget(b, t, tun, top)
  {
    PresentShrinks(b.perAP, t, t', tun);
    SubsetIsSmaller(Present(b.perAP, t', tun), Present(b.perAP, t, tun));
  }

  /** A tick pays for what it emits. */
  lemma TickPays(b: Beacon, step: Step)
    requires step.Tick? && Enabled(b, step)
    ensures var o := Apply(b, step);
      |o.events| + Budget(o.beacon, step.now, step.tun, step.top) <= Budget(b, step.now, step.tun, step.top)
  {
    var present := Present(b.perAP, step.now, step.tun);
    assert Silent(step.look.freshest, step.now, step.tun) <==> AllSilent(b.perAP, step.now, step.tun);
    if step.look.closest.Some? {
      assert step.look.closest.value.key in present;
      SubsetIsSmaller({step.look.closest.value.key}, present);
    }
  }

  lemma {:induction false} BudgetCoversRun(r: Run, n: nat, tun: Resolved, top: Topology)
    requires TickRun(r, tun, top) && 0 < n <= |r.steps|
    ensures InRange(tun) && r.states[n].perAP == r.states[0].perAP
    ensures |Emitted(r, n)| + Budget(r.states[n], r.steps[n - 1].now, tun, top)
      <= Budget(r.states[0], r.steps[0].now, tun, top)
  {
    var b, step := r.states[n - 1], r.steps[n - 1];
    assert StepAt(r, n - 1);
    TickPays(b, step);
    OnlySightingsTouchSignal(b, step);
    if n > 1 {
      BudgetCoversRun(r, n - 1, tun, top);
      BudgetShrinks(b, r.steps[n - 2].now, step.now, tun, top);
    }
  }

  /** Settling: however many ticks, at most one event per known AP and one more. */
  lemma TicksSettle(r: Run, tun: Resolved, top: Topology)
    requires TickRun(r, tun, top)
    ensures |Emitted(r, |r.steps|)| <= |r.states[0].perAP| + 1
  {
    if |r.steps| > 0 {
      BudgetCoversRun(r, |r.steps|, tun, top);
      SubsetIsSmaller(Present(r.states[0].perAP, r.steps[0].now, tun), r.states[0].perAP.Keys);
    }
  }

  lemma QuietTick(b: Beacon, step: Step, t: real)
    requires step.Tick? && Enabled(b, step) && t <= step.now && Quiet(b, t, step.tun)
    ensures Apply(b, step) == Outcome(b, []) && Quiet(b, step.now, step.tun)
  {
    PresentShrinks(b.perAP, t, step.now, step.tun);
    assert Silent(step.look.freshest, step.now, step.tun) <==> AllSilent(b.perAP, step.now, step.tun);
  }

  lemma DepartureIsQuiet(b: Beacon, step: Step)
    requires step.Tick? && Enabled(b, step) && Leaves(b, Apply(b, step).beacon)
    ensures Quiet(Apply(b, step).beacon, step.now, step.tun)
  {
    assert Silent(step.look.freshest, step.now, step.tun) <==> AllSilent(b.perAP, step.now, step.tun);
  }

  /** After a departure every later tick is silent and changes nothing. */
  lemma {:induction false} SilentAfterDeparture(r: Run, i: nat, j: nat, tun: Resolved, top: Topology)
    requires TickRun(r, tun, top) && i < j < |r.steps| && Departs(r, i)
    ensures EventsAt(r, j) == [] && r.states[j + 1] == r.states[i + 1] && Quiet(r.states[j], r.steps[j - 1].now, tun)
  {
    assert StepAt(r, i) && StepAt(r, j);
    if j == i + 1 {
      DepartureIsQuiet(r.states[i], r.steps[i]);
    } else {
      SilentAfterDeparture(r, i, j - 1, tun, top);
      assert StepAt(r, j - 1);
      QuietTick(r.states[j - 1], r.steps[j - 1], r.steps[j - 2].now);
    }
    QuietTick(r.states[j], r.steps[j], r.steps[j - 1].now);
  }

  // ------------------------------------------------------ exact departure

  /** A tick at time t takes the beacon out of its zone. */
  ghost predicate DepartureDue(b: Beacon, t: real, tun: Resolved) {
    !WithinSticky(b.lastArrival, t, tun) && (Present(b.perAP, t, tun) == {} || AllSilent(b.perAP, t, tun))
  }

  lemma TickKeepsStay(b: Beacon, step: Step)
    requires step.Tick? && Enabled(b, step) && b.zone != ""
    ensures var b' := Apply(b, step).beacon;
      && b'.perAP == b.perAP && b'.lastArrival == b.lastArrival
      && (b'.zone == "" <==> DepartureDue(b, step.now, step.tun))
  {
    TickDepartsExactlyWhen(b, step);
    RecomputeKeeps(b, step.tun, step.top, step.now, "", step.look);
  }

  /** Until a departure is due, a beacon in a zone stays in one, with its arrival time and its signals. */
  lemma {:induction false} StaysUntilDue(r: Run, n: nat, tun: Resolved, top: Topology)
    requires TickRun(r, tun, top) && n <= |r.steps| && r.states[0].zone != ""
    requires forall i | 0 <= i < n :: !DepartureDue(r.states[0], r.steps[i].now, tun)
    ensures r.states[n].zone != ""
    ensures r.states[n].perAP == r.states[0].perAP && r.states[n].lastArrival == r.states[0].lastArrival
  {
    if n > 0 {
      StaysUntilDue(r, n - 1, tun, top);
      assert StepAt(r, n - 1);
      TickKeepsStay(r.states[n - 1], r.steps[n - 1]);
    }
  }

  /**
   * Exact departure, for any number of APs: from a beacon in a zone, a tick-only run departs at the first tick that
   * finds the sticky window over and no AP in presence or all silent, and at no other. m is the index of that tick, or
   * the number of ticks if there is none.
   */
  lemma DepartsExactlyAtFirstDue(r: Run, m: nat, i: nat, tun: Resolved, top: Topology)
    requires TickRun(r, tun, top) && m <= |r.steps| && i < |r.steps| && r.states[0].zone != ""
    requires forall j | 0 <= j < m :: !DepartureDue(r.states[0], r.steps[j].now, tun)
    requires m < |r.steps| ==> DepartureDue(r.states[0], r.steps[m].now, tun)
    ensures Departs(r, i) <==> i == m
  {
    if i <= m {
      StaysUntilDue(r, i, tun, top);
      assert StepAt(r, i);
      TickKeepsStay(r.states[i], r.steps[i]);
    } else {
      DepartsExactlyAtFirstDue(r, m, m, tun, top);
      SilentAfterDeparture(r, m, i, tun, top);
    }
  }

  // ------------------------------------------------------ a lone arrival

  /** A beacon that arrived at time a with one AP in presence, whatever others heard before, and not seen since. */
  ghost predicate LoneArrival(b: Beacon, k: string, a: real, tun: Resolved, top: Topology) {
    && InRange(tun) && k in b.perAP && Present(b.perAP, a, tun) == {k} && SeenBy(b, a)
    && b.ap == k && b.zone != "" && b.zone == Zone(top, k)
    && b.perAP[k].lastSighting == Some(a) && b.lastArrival == Some(a)
    && b.candidateAP == "" && b.candidateCount == 0
  }

  /** A sighting that finds its beacon not_home and its own AP, a mapped one, alone in presence is such an arrival. */
  lemma SightingIsLoneArrival(b: Beacon, step: Step)
    requires step.Sight? && Enabled(b, step) && b.zone == "" && SeenBy(b, step.now)
    requires Zone(step.top, Lower(step.s.apMac)) != ""
    requires Present(Observe(b, step.tun, step.now, step.s).perAP, step.now, step.tun) == {Lower(step.s.apMac)}
    ensures LoneArrival(Apply(b, step).beacon, Lower(step.s.apMac), step.now, step.tun, step.top)
    ensures |Apply(b, step).events| == 1 && Apply(b, step).events[0].state == Zone(step.top, Lower(step.s.apMac))
  {
    var seen, k := Observe(b, step.tun, step.now, step.s), Lower(step.s.apMac);
    SightingIsNotSilent(b, step);
    assert step.look.closest.Some? && step.look.closest.value.key == k;
    RecomputeKeeps(seen, step.tun, step.top, step.now, k, step.look);
  }

  /** The first sighting of a fresh beacon, at or above the floor of a mapped AP, is such an arrival. */
  lemma FirstSightingIsLoneArrival(b: Beacon, step: Step)
    requires step.Sight? && Enabled(b, step) && b == NewBeacon(b.id, b.name)
    requires step.s.rssi >= step.tun.presenceFloorDbm && Zone(step.top, Lower(step.s.apMac)) != ""
    ensures LoneArrival(Apply(b, step).beacon, Lower(step.s.apMac), step.now, step.tun, step.top)
    ensures |Apply(b, step).events| == 1 && Apply(b, step).events[0].state == Zone(step.top, Lower(step.s.apMac))
  {
    var seen, k := Observe(b, step.tun, step.now, step.s), Lower(step.s.apMac);
    assert seen.perAP.Keys == {k} && k in Present(seen.perAP, step.now, step.tun);
    SightingIsLoneArrival(b, step);
  }

  /** The deadline in closed form: past the sticky window, and past the fade time or the silence bound. */
  predicate Due(t: real, a: real, ewma: real, tun: Resolved) {
    && t - a >= tun.stickyAfterArrivalS as real
    && ((tun.decayRateDbPerS > 0.0 && t - a > FadeAfter(ewma, tun)) || t - a > tun.tAwayMaxS as real)
  }

  lemma LoneTick(b: Beacon, step: Step, k: string, a: real)
    requires step.Tick? && Enabled(b, step) && LoneArrival(b, k, a, step.tun, step.top) && a <= step.now
    ensures Apply(b, step) ==
      if Due(step.now, a, b.perAP[k].ewma, step.tun)
      then Outcome(MoveTo(b, "", ""), [DepartureEvent(b, step.now, step.tun, Some(a))])
      else Outcome(b, [])
  {
    var ap := b.perAP[k];
    LoneFreshest(b, step, k, a);
    PresentShrinks(b.perAP, a, step.now, step.tun);
    assert k in Present(b.perAP, a, step.tun) && InPresence(ap, a, step.tun);
    if step.tun.decayRateDbPerS > 0.0 {
      FadeTimeIsExact(ap, step.now, step.tun);
    } else {
      assert Effective(ap, step.now, step.tun) == ap.ewma;
    }
    assert k in Present(b.perAP, step.now, step.tun) <==> InPresence(ap, step.now, step.tun);
  }

  lemma LoneFreshest(b: Beacon, step: Step, k: string, a: real)
    requires step.Tick? && Enabled(b, step) && k in b.perAP && b.perAP[k].lastSighting == Some(a) && SeenBy(b, a)
    ensures step.look.freshest == Some(a)
  {
  }

  /**
   * Exact departure: from a lone arrival, the ticks before the deadline emit nothing, the first one past it emits
   * the departure, and no later tick emits anything. m is the index of that first tick, or the number of ticks.
   */
  lemma {:induction false} LoneArrivalDepartsOnce(
      r: Run, n: nat, m: nat, k: string, a: real, tun: Resolved, top: Topology)
    requires TickRun(r, tun, top) && n <= |r.steps| && m <= |r.steps|
    requires LoneArrival(r.states[0], k, a, tun, top) && (|r.steps| > 0 ==> a <= r.steps[0].now)
    requires forall i | 0 <= i < m :: !Due(r.steps[i].now, a, r.states[0].perAP[k].ewma, tun)
    requires m < |r.steps| ==> Due(r.steps[m].now, a, r.states[0].perAP[k].ewma, tun)
    ensures n <= m ==> Emitted(r, n) == [] && r.states[n] == r.states[0]
    ensures n > m ==> Departs(r, m) && Emitted(r, n) == [DepartureEvent(r.states[0], r.steps[m].now, tun, Some(a))]
  {
    if n > 0 {
      LoneArrivalDepartsOnce(r, n - 1, m, k, a, tun, top);
      assert StepAt(r, n - 1);
      if n - 1 <= m {
        LoneTick(r.states[n - 1], r.steps[n - 1], k, a);
      } else {
        SilentAfterDeparture(r, m, n - 1, tun, top);
      }
    }
  }
}
