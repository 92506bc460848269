/** Whole runs of one beacon's state machine, under any mix of steps and any hot reload. */
module PresenceRuns {
  import opened Wrappers
  import opened Text
  import opened Tunables
  import opened Topology
  import opened Presence
  import opened PresenceSignal

  /** A run: the steps taken and the states before, between and after them. */
  datatype Run = Run(states: seq<Beacon>, steps: seq<Step>)

  /** Step i of the run is enabled and leads to the next state. */
  ghost predicate StepAt(r: Run, i: nat)
    requires i < |r.steps| && |r.states| == |r.steps| + 1
  {
    Enabled(r.states[i], r.steps[i]) && r.states[i + 1] == Apply(r.states[i], r.steps[i]).beacon
  }

  /** Every step follows, and the clock never goes back. */
  ghost predicate ValidRun(r: Run) {
    && |r.states| == |r.steps| + 1
    && (forall i | 0 <= i < |r.steps| :: StepAt(r, i))
    && (forall i, j | 0 <= i <= j < |r.steps| :: r.steps[i].now <= r.steps[j].now)
  }

  ghost function EventsAt(r: Run, i: nat): seq<Event>
    requires ValidRun(r) && i < |r.steps|
  {
    assert StepAt(r, i);
    Apply(r.states[i], r.steps[i]).events
  }

  /** Everything emitted by the first n steps. */
  ghost function Emitted(r: Run, n: nat): seq<Event>
    requires ValidRun(r) && n <= |r.steps|
  {
    if n == 0 then [] else Emitted(r, n - 1) + EventsAt(r, n - 1)
  }

  // ------------------------------------------------ sticky window, flapping

  predicate Departs(r: Run, i: nat)
    requires i < |r.steps| && |r.states| == |r.steps| + 1
  {
    Leaves(r.states[i], r.states[i + 1])
  }

  /** Number of departures among the first n steps. */
  function Departures(r: Run, n: nat): nat
    requires n <= |r.steps| && |r.states| == |r.steps| + 1
  {
    if n == 0 then 0 else Departures(r, n - 1) + (if Departs(r, n - 1) then 1 else 0)
  }

  /** Every recompute of the run had a sticky window of at least s seconds, through any reloads. */
  ghost predicate StickyAtLeast(r: Run, s: real) {
    forall i | 0 <= i < |r.steps| && (r.steps[i].Sight? || r.steps[i].Tick?) ::
      r.steps[i].tun.stickyAfterArrivalS as real >= s
  }

  lemma RecomputeWindow(b: Beacon, tun: Resolved, top: Topology, now: real, fromAP: string, look: Look)
    requires look.closest.Some? ==> look.closest.value.key in b.perAP
    ensures var b' := Recompute(b, tun, top, now, fromAP, look).beacon;
      && (b'.lastArrival == b.lastArrival || b'.lastArrival == Some(now))
      && (Enters(b, b') ==> b'.lastArrival == Some(now))
      && (Leaves(b, b') ==> !WithinSticky(b.lastArrival, now, tun))
  {
  }

  /** The window as one step sees it: what leaves, what enters, and how the arrival time moves. */
  lemma WindowStep(b: Beacon, step: Step)
    requires Enabled(b, step)
    ensures var b' := Apply(b, step).beacon;
      && (b'.lastArrival == b.lastArrival || b'.lastArrival == Some(step.now))
      && (Enters(b, b') ==> b'.lastArrival == Some(step.now))
      && (Leaves(b, b') ==> (step.Sight? || step.Tick?) && !WithinSticky(b.lastArrival, step.now, step.tun))
  {
    match step
    case Sight(now, tun, top, s, look) => RecomputeWindow(Observe(b, tun, now, s), tun, top, now, Lower(s.apMac), look);
    case Tick(now, tun, top, look) => RecomputeWindow(b, tun, top, now, "", look);
    case _ =>
  }

  lemma WindowAt(r: Run, i: nat)
    requires ValidRun(r) && i < |r.steps|
    ensures var b, step, b' := r.states[i], r.steps[i], r.states[i + 1];
      && (b'.lastArrival == b.lastArrival || b'.lastArrival == Some(step.now))
      && (Enters(b, b') ==> b'.lastArrival == Some(step.now))
      && (Leaves(b, b') ==> (step.Sight? || step.Tick?) && !WithinSticky(b.lastArrival, step.now, step.tun))
  {
    assert StepAt(r, i);
    WindowStep(r.states[i], r.steps[i]);
  }

  /** While in a zone since arriving at step a, the arrival time is known and no earlier than that step. */
  lemma {:induction false} InZoneSince(r: Run, n: nat) returns (a: nat)
    requires ValidRun(r) && r.states[0].zone == "" && n <= |r.steps| && r.states[n].zone != ""
    ensures a < n && Enters(r.states[a], r.states[a + 1])
    ensures forall i | a < i <= n :: r.states[i].zone != ""
    ensures r.states[n].lastArrival.Some? && r.steps[a].now <= r.states[n].lastArrival.value <= r.steps[n - 1].now
  {
    WindowAt(r, n - 1);
    if r.states[n - 1].zone == "" {
      a := n - 1;
    } else {
      a := InZoneSince(r, n - 1);
    }
  }

  /**
   * Sticky safety: from not_home, every departure ends a stay that began with an arrival at least s seconds
   * earlier, and the beacon was in a zone throughout.
   */
  lemma DepartureEndsLongStay(r: Run, j: nat, s: real) returns (a: nat)
    requires ValidRun(r) && r.states[0].zone == "" && StickyAtLeast(r, s) && j < |r.steps| && Departs(r, j)
    ensures a < j && Enters(r.states[a], r.states[a + 1])
    ensures forall i | a < i <= j :: r.states[i].zone != ""
    ensures r.steps[j].now - r.steps[a].now >= s
  {
    a := InZoneSince(r, j);
    WindowAt(r, j);
  }

  /** The seconds that n steps' departures account for, at s each. */
  function StickyTime(r: Run, n: nat, s: real): real
    requires n <= |r.steps| && |r.states| == |r.steps| + 1
  {
    if n == 0 then 0.0 else StickyTime(r, n - 1, s) + (if Departs(r, n - 1) then s else 0.0)
  }

  lemma {:induction false} StickyTimeCounts(r: Run, n: nat, s: real)
    requires n <= |r.steps| && |r.states| == |r.steps| + 1
    ensures StickyTime(r, n, s) == Departures(r, n) as real * s
  {
    if n > 0 {
      StickyTimeCounts(r, n - 1, s);
      var d := Departures(r, n - 1) as real;
      assert (d + 1.0) * s == d * s + s;
      assert Departures(r, n) as real == if Departs(r, n - 1) then d + 1.0 else d;
    }
  }

  /** The departures so far fit into the time up to the current arrival, or up to the last step. */
  lemma {:induction false} FlapInvariant(r: Run, n: nat, s: real)
    requires ValidRun(r) && r.states[0].zone == "" && StickyAtLeast(r, s) && s >= 0.0 && n <= |r.steps|
    ensures n > 0 && r.states[n].zone == "" ==> StickyTime(r, n, s) <= r.steps[n - 1].now - r.steps[0].now
    ensures r.states[n].zone != "" ==>
      n > 0 && r.states[n].lastArrival.Some? && r.states[n].lastArrival.value <= r.steps[n - 1].now
    ensures r.states[n].zone != "" ==> StickyTime(r, n, s) <= r.states[n].lastArrival.value - r.steps[0].now
  {
    if n > 0 {
      FlapInvariant(r, n - 1, s);
      WindowAt(r, n - 1);
    }
  }

  lemma QuotientBounds(d: real, t: real, s: real)
    requires s > 0.0 && d * s <= t
    ensures d <= t / s
  {
    var q := t / s;
    assert q * s == t;
    if d > q {
      assert (d - q) * s > 0.0;
      assert (d - q) * s == d * s - q * s;
    }
  }

  /** The departures of a run that starts not_home take up, at s seconds each, no more than its length t. */
  lemma FlapsFit(r: Run, s: real, d: real, t: real)
    requires ValidRun(r) && |r.steps| > 0 && r.states[0].zone == "" && StickyAtLeast(r, s) && s >= 0.0
    requires d == Departures(r, |r.steps|) as real && t == r.steps[|r.steps| - 1].now - r.steps[0].now
    ensures d * s <= t
  {
    FlapInvariant(r, |r.steps|, s);
    StickyTimeCounts(r, |r.steps|, s);
  }

  /** Flap bound: a run that starts not_home and lasts t seconds holds at most t / s departures. */
  lemma FlapBound(r: Run, s: real)
    requires ValidRun(r) && |r.steps| > 0 && r.states[0].zone == "" && StickyAtLeast(r, s) && s > 0.0
    ensures Departures(r, |r.steps|) as real <= (r.steps[|r.steps| - 1].now - r.steps[0].now) / s
  {
    var d, t := Departures(r, |r.steps|) as real, r.steps[|r.steps| - 1].now - r.steps[0].now;
    FlapsFit(r, s, d, t);
    QuotientBounds(d, t, s);
  }

  /** From any state in a zone: no later step departs within s seconds of the arrival time then recorded. */
  lemma {:induction false} HeldUntil(r: Run, n: nat, s: real, arrived: real)
    requires ValidRun(r) && StickyAtLeast(r, s) && s >= 0.0 && n <= |r.steps|
    requires r.states[0].zone != "" && r.states[0].lastArrival == Some(arrived)
    requires |r.steps| > 0 ==> arrived <= r.steps[0].now
    ensures r.states[n].lastArrival.Some? && r.states[n].lastArrival.value >= arrived
    ensures r.states[n].zone == "" ==> n > 0 && r.steps[n - 1].now >= arrived + s
  {
    if n > 0 {
      HeldUntil(r, n - 1, s, arrived);
      WindowAt(r, n - 1);
    }
  }

  // ----------------------------------------------------- log agrees with state

  /** The state last announced, or base when nothing was. */
  function LastAnnounced(events: seq<Event>, base: string): string {
    if events == [] then base else events[|events| - 1].state
  }

  lemma RecomputeAnnounces(b: Beacon, tun: Resolved, top: Topology, now: real, fromAP: string, look: Look)
    requires look.closest.Some? ==> look.closest.value.key in b.perAP
    ensures var o := Recompute(b, tun, top, now, fromAP, look);
      |o.events| <= 1 && LastAnnounced(o.events, Published(b)) == Published(o.beacon)
  {
  }

  lemma AnnouncesState(b: Beacon, step: Step)
    requires Enabled(b, step) && !step.Restore?
    ensures var o := Apply(b, step);
      |o.events| <= 1 && LastAnnounced(o.events, Published(b)) == Published(o.beacon)
  {
    match step
    case Sight(now, tun, top, s, look) =>
      RecomputeAnnounces(Observe(b, tun, now, s), tun, top, now, Lower(s.apMac), look);
    case Tick(now, tun, top, look) => RecomputeAnnounces(b, tun, top, now, "", look);
    case _ =>
  }

  lemma AnnouncesAt(r: Run, i: nat)
    requires ValidRun(r) && i < |r.steps| && !r.steps[i].Restore?
    ensures LastAnnounced(EventsAt(r, i), Published(r.states[i])) == Published(r.states[i + 1])
  {
    assert StepAt(r, i);
    AnnouncesState(r.states[i], r.steps[i]);
  }

  lemma LastAnnouncedConcat(a: seq<Event>, b: seq<Event>, base: string)
    ensures LastAnnounced(a + b, base) == LastAnnounced(b, LastAnnounced(a, base))
  {
    if b == [] {
      assert a + b == a;
    }
  }

  /** Everything in the first n of some lists of events, in order. */
  function Log(outs: seq<seq<Event>>, n: nat): seq<Event>
    requires n <= |outs|
  {
    if n == 0 then [] else Log(outs, n - 1) + outs[n - 1]
  }

  /** If each list takes the last announced state from one of a series to the next, so does the whole log. */
  lemma {:induction false} LogAnnounces(outs: seq<seq<Event>>, states: seq<string>, n: nat)
    requires n <= |outs| < |states| && forall i | 0 <= i < n :: LastAnnounced(outs[i], states[i]) == states[i + 1]
    ensures LastAnnounced(Log(outs, n), states[0]) == states[n]
  {
    if n > 0 {
      LogAnnounces(outs, states, n - 1);
      LastAnnouncedConcat(Log(outs, n - 1), outs[n - 1], states[0]);
    }
  }

  lemma {:induction false} EmittedIsLog(r: Run, outs: seq<seq<Event>>, n: nat)
    requires ValidRun(r) && n <= |outs| == |r.steps| && forall i | 0 <= i < n :: outs[i] == EventsAt(r, i)
    ensures Emitted(r, n) == Log(outs, n)
  {
    if n > 0 {
      EmittedIsLog(r, outs, n - 1);
    }
  }

  /**
   * The log agrees with the state: after any run without a restore, the state last announced is the published one,
   * counting from what was published when the run began.
   */
  lemma LogAgreesWithState(r: Run, n: nat)
    requires ValidRun(r) && n <= |r.steps| && forall i | 0 <= i < n :: !r.steps[i].Restore?
    ensures LastAnnounced(Emitted(r, n), Published(r.states[0])) == Published(r.states[n])
  {
    var outs := seq(|r.steps|, i requires 0 <= i < |r.steps| => EventsAt(r, i));
    var states := seq(|r.states|, i requires 0 <= i < |r.states| => Published(r.states[i]));
    forall i | 0 <= i < n
      ensures LastAnnounced(outs[i], states[i]) == states[i + 1]
    {
      AnnouncesAt(r, i);
    }
    EmittedIsLog(r, outs, n);
    LogAnnounces(outs, states, n);
  }

  /** All map-reading steps of the run use these zones. */
  ghost predicate FixedZones(r: Run, top: Topology) {
    forall i | 0 <= i < |r.steps| && (r.steps[i].Sight? || r.steps[i].Tick? || r.steps[i].Retop?) ::
      SameZones(r.steps[i].top, top)
  }

  lemma RecomputeKeepsZone(
      b: Beacon, tun: Resolved, t: Topology, now: real, fromAP: string, look: Look, top: Topology)
    requires look.closest.Some? ==> look.closest.value.key in b.perAP
    requires SameZones(t, top) && (b.zone != "" ==> b.zone == Zone(top, b.ap))
    ensures var b' := Recompute(b, tun, t, now, fromAP, look).beacon;
      b'.zone != "" ==> b'.zone == Zone(top, b'.ap)
  {
  }

  lemma StepKeepsZoneOfAP(b: Beacon, step: Step, top: Topology)
    requires Enabled(b, step) && !step.Restore? && (b.zone != "" ==> b.zone == Zone(top, b.ap))
    requires step.Sight? || step.Tick? || step.Retop? ==> SameZones(step.top, top)
    ensures var b' := Apply(b, step).beacon;
      b'.zone != "" ==> b'.zone == Zone(top, b'.ap)
  {
    match step
    case Sight(now, tun, t, s, look) =>
      RecomputeKeepsZone(Observe(b, tun, now, s), tun, t, now, Lower(s.apMac), look, top);
    case Tick(now, tun, t, look) => RecomputeKeepsZone(b, tun, t, now, "", look, top);
    case _ =>
  }

  /** Under one zone map and without restores, the published zone is always that of the AP backing it. */
  lemma {:induction false} ZoneIsThatOfAP(r: Run, n: nat, top: Topology)
    requires ValidRun(r) && n <= |r.steps| && FixedZones(r, top) && forall i | 0 <= i < n :: !r.steps[i].Restore?
    requires r.states[0].zone != "" ==> r.states[0].zone == Zone(top, r.states[0].ap)
    ensures r.states[n].zone != "" ==> r.states[n].zone == Zone(top, r.states[n].ap)
  {
    if n > 0 {
      ZoneIsThatOfAP(r, n - 1, top);
      ZoneOfAPAt(r, n - 1, top);
    }
  }

  lemma ZoneOfAPAt(r: Run, i: nat, top: Topology)
    requires ValidRun(r) && i < |r.steps| && FixedZones(r, top) && !r.steps[i].Restore?
    requires r.states[i].zone != "" ==> r.states[i].zone == Zone(top, r.states[i].ap)
    ensures r.states[i + 1].zone != "" ==> r.states[i + 1].zone == Zone(top, r.states[i + 1].ap)
  {
    assert StepAt(r, i);
    StepKeepsZoneOfAP(r.states[i], r.steps[i], top);
  }

  // ------------------------------------------------------------- ewma hull

  /** Every reading of AP k in the run lies between lo and hi. */
  ghost predicate ReadingsWithin(r: Run, k: string, lo: real, hi: real) {
    forall i | 0 <= i < |r.steps| && r.steps[i].Sight? && Lower(r.steps[i].s.apMac) == k ::
      lo <= r.steps[i].s.rssi as real <= hi
  }

  /** A step changes an AP's state only by observing a reading. */
  lemma OnlySightingsTouchSignal(b: Beacon, step: Step)
    requires Enabled(b, step)
    ensures Apply(b, step).beacon.perAP == if step.Sight? then Observe(b, step.tun, step.now, step.s).perAP else b.perAP
  {
    match step
    case Sight(now, tun, top, s, look) => RecomputeKeeps(Observe(b, tun, now, s), tun, top, now, Lower(s.apMac), look);
    case Tick(now, tun, top, look) => RecomputeKeeps(b, tun, top, now, "", look);
    case _ =>
  }

  /** What one step does to AP k's average. */
  lemma HullAt(r: Run, i: nat, k: string, lo: real, hi: real)
    requires ValidRun(r) && i < |r.steps| && ReadingsWithin(r, k, lo, hi)
    requires k in r.states[i].perAP ==> lo <= r.states[i].perAP[k].ewma <= hi
    ensures k in r.states[i + 1].perAP ==> lo <= r.states[i + 1].perAP[k].ewma <= hi
  {
    assert StepAt(r, i);
    var b, step := r.states[i], r.steps[i];
    OnlySightingsTouchSignal(b, step);
    if step.Sight? && Lower(step.s.apMac) == k && k in b.perAP {
      AverageIsBetween(step.tun.alpha, step.s.rssi as real, b.perAP[k].ewma, lo, hi);
    }
  }

  /** Hull: through any reloads of alpha, an AP's average stays between its least and its greatest reading. */
  lemma {:induction false} EwmaStaysInHull(r: Run, n: nat, k: string, lo: real, hi: real)
    requires ValidRun(r) && n <= |r.steps| && ReadingsWithin(r, k, lo, hi)
    requires k in r.states[0].perAP ==> lo <= r.states[0].perAP[k].ewma <= hi
    ensures k in r.states[n].perAP ==> lo <= r.states[n].perAP[k].ewma <= hi
  {
    if n > 0 {
      EwmaStaysInHull(r, n - 1, k, lo, hi);
      HullAt(r, n - 1, k, lo, hi);
    }
  }

  /** Fade bound over runs: readings of at most m cannot hold an AP in presence past the fade time of m. */
  lemma RunFadeBound(r: Run, n: nat, k: string, lo: real, m: real, now: real, tun: Resolved)
    requires ValidRun(r) && n <= |r.steps| && ReadingsWithin(r, k, lo, m) && k !in r.states[0].perAP
    requires k in r.states[n].perAP && r.states[n].perAP[k].lastSighting.Some?
    requires InRange(tun) && tun.decayRateDbPerS > 0.0
      && now - r.states[n].perAP[k].lastSighting.value > FadeAfter(m, tun)
    ensures k !in Present(r.states[n].perAP, now, tun)
  {
    EwmaStaysInHull(r, n, k, lo, m);
    FadeBound(r.states[n].perAP[k], now, tun, m);
  }

  /** The clock bounds every recorded sighting and arrival. */
  lemma {:induction false} NothingFromTheFuture(r: Run, n: nat)
    requires ValidRun(r) && 0 < n <= |r.steps| && SeenBy(r.states[0], r.steps[0].now)
    ensures SeenBy(r.states[n], r.steps[n - 1].now)
  {
    assert StepAt(r, n - 1);
    if n > 1 {
      NothingFromTheFuture(r, n - 1);
    }
    OnlySightingsTouchSignal(r.states[n - 1], r.steps[n - 1]);
  }

  /** In any run, a sighting that leaves its beacon not_home has no AP in presence or an unmapped closest AP. */
  lemma SightingArrives(r: Run, i: nat)
    requires ValidRun(r) && i < |r.steps| && r.steps[i].Sight? && SeenBy(r.states[0], r.steps[0].now)
    requires r.states[i + 1].zone == ""
    ensures Present(r.states[i + 1].perAP, r.steps[i].now, r.steps[i].tun) == {}
      || (r.steps[i].look.closest.Some? && Zone(r.steps[i].top, r.steps[i].look.closest.value.key) == "")
  {
    assert StepAt(r, i);
    if i > 0 {
      NothingFromTheFuture(r, i);
    }
    SightingIsNotSilent(r.states[i], r.steps[i]);
    ArrivalIsImmediate(r.states[i], r.steps[i]);
    OnlySightingsTouchSignal(r.states[i], r.steps[i]);
  }
}
