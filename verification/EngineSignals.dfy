/** Zones, averages and switches over traces of the whole engine, for any mix of calls and any hot reloads. */
module EngineSignals {
  import opened Text
  import opened Identity
  import opened Topology
  import opened Presence
  import opened PresenceSignal
  import opened PresenceRuns
  import opened PresenceHysteresis
  import opened PresenceRules
  import opened PresenceReadings
  import opened EngineSpec
  import opened EngineRuns

  ghost predicate NoRestoreState(tr: Trace, n: nat)
    requires n <= |tr.moves|
  {
    forall i | 0 <= i < n :: !tr.moves[i].action.RestoreState?
  }

  lemma RunHasNoRestore(tr: Trace, k: BeaconKey, r: Run, n: nat)
    requires Follows(tr, k, r) && n <= |tr.moves| && NoRestoreState(tr, n)
    ensures NoRestore(r, n)
  {
    forall i | 0 <= i < n
      ensures !r.steps[i].Restore?
    {
      RestoreOnlyByRestoreState(tr, k, r, i);
    }
  }

  // ----------------------------------------------------------------- zones

  /** Every topology of the trace gives the access points the same labels; the allowlist may change. */
  ghost predicate OneZoneMap(tr: Trace, top: Topology) {
    forall i | 0 <= i < |tr.states| :: SameZones(tr.states[i].top, top)
  }

  /** A step reads the topology before the call, or the one it applies. */
  lemma StepReadsTopology(e: EngineState, m: Move, k: BeaconKey)
    requires TrackedAfter(e, m.action, k)
    ensures var step, c := StepFor(e, m, k), Configure(e, m.action);
      && (step.Sight? || step.Tick? ==> step.top == e.top)
      && (step.Retop? ==> step.top == c.top)
  {
  }

  lemma StepReadsZones(tr: Trace, k: BeaconKey, r: Run, top: Topology, i: nat)
    requires Follows(tr, k, r) && OneZoneMap(tr, top) && i < |r.steps|
    requires r.steps[i].Sight? || r.steps[i].Tick? || r.steps[i].Retop?
    ensures SameZones(r.steps[i].top, top)
  {
    assert StepFollows(tr, k, r, i) && MoveAt(tr, i);
    StepReadsTopology(tr.states[i], tr.moves[i], k);
    assert SameZones(tr.states[i].top, top) && SameZones(tr.states[i + 1].top, top);
  }

  /** As long as the labels stay the same, a beacon's published zone is always that of the AP backing it. */
  lemma EngineZoneIsThatOfAP(tr: Trace, k: BeaconKey, n: nat, top: Topology)
    requires ValidTrace(tr) && TrackedThroughout(tr, k) && n <= |tr.moves| && OneZoneMap(tr, top)
      && NoRestoreState(tr, n)
    requires var b := tr.states[0].beacons[k];
      b.zone != "" ==> b.zone == Zone(top, b.ap)
    ensures var b := tr.states[n].beacons[k];
      b.zone != "" ==> b.zone == Zone(top, b.ap)
  {
    var r := RunOf(tr, k);
    FollowsIsValid(tr, k, r);
    RunHasNoRestore(tr, k, r, n);
    forall i | 0 <= i < |r.steps| && (r.steps[i].Sight? || r.steps[i].Tick? || r.steps[i].Retop?)
      ensures SameZones(r.steps[i].top, top)
    {
      StepReadsZones(tr, k, r, top, i);
    }
    ZoneIsThatOfAP(r, n, top);
  }

  // -------------------------------------------------------------- averages

  /** Every sighting of beacon k by AP ap that the trace submits has a reading between lo and hi. */
  ghost predicate SubmitsWithin(tr: Trace, k: BeaconKey, ap: string, lo: real, hi: real) {
    forall i | 0 <= i < |tr.moves| && tr.moves[i].action.Submit? && tr.moves[i].action.s.beacon == k
               && Lower(tr.moves[i].action.s.apMac) == ap ::
      lo <= tr.moves[i].action.s.rssi as real <= hi
  }

  lemma SightIsSubmit(e: EngineState, m: Move, k: BeaconKey)
    requires TrackedAfter(e, m.action, k) && StepFor(e, m, k).Sight?
    ensures m.action.Submit? && m.action.s.beacon == k && StepFor(e, m, k).s == m.action.s
  {
  }

  /** Through any reloads, an AP's average for a beacon stays between its least and its greatest reading. */
  lemma EngineEwmaStaysInHull(tr: Trace, k: BeaconKey, n: nat, ap: string, lo: real, hi: real)
    requires ValidTrace(tr) && TrackedThroughout(tr, k) && n <= |tr.moves| && SubmitsWithin(tr, k, ap, lo, hi)
    requires ap !in tr.states[0].beacons[k].perAP
    ensures var perAP := tr.states[n].beacons[k].perAP;
      ap in perAP ==> lo <= perAP[ap].ewma <= hi
  {
    var r := RunOf(tr, k);
    FollowsIsValid(tr, k, r);
    forall i | 0 <= i < |r.steps| && r.steps[i].Sight? && Lower(r.steps[i].s.apMac) == ap
      ensures lo <= r.steps[i].s.rssi as real <= hi
    {
      assert StepFollows(tr, k, r, i);
      SightIsSubmit(tr.states[i], tr.moves[i], k);
    }
    EwmaStaysInHull(r, n, ap, lo, hi);
  }

  // -------------------------------------------------------------- switches

  /**
   * In any trace, a switch that a sighting or a tick makes ends a streak of votes for the new AP that began at the last
   * reset, at least as many as the beacon's confirm count at that moment.
   */
  lemma EngineSwitchHasConfirmedHistory(tr: Trace, k: BeaconKey, r: Run, n: nat) returns (s: nat)
    requires Follows(tr, k, r) && n < |tr.moves| && NoRestoreState(tr, n) && tr.states[0].beacons[k].candidateCount == 0
    requires ValidRun(r) && SwitchesAt(r, n) && !tr.moves[n].action.ApplyTopology?
    ensures var ap := tr.states[n + 1].beacons[k].ap;
      && s <= n && FirstVoteSinceReset(r, s, n, ap) && VotesFor(r.states[n], r.steps[n], ap)
      && Streak(r, s, n, ap, if s < n then r.states[n].candidateCount else 0)
      && Votes(r, s, n + 1, ap) >= TunFor(tr.states[n].resolved, tr.states[n].beacons[k].name).confirmCount
  {
    RunHasNoRestore(tr, k, r, n);
    RetopIsApplyTopology(tr, k, r, n);
    WindowOfStep(tr, k, r, n);
    s := SwitchHasConfirmedHistory(r, n);
  }

  lemma RetopIsApplyTopology(tr: Trace, k: BeaconKey, r: Run, i: nat)
    requires Follows(tr, k, r) && i < |tr.moves|
    ensures r.steps[i].Retop? <==> tr.moves[i].action.ApplyTopology?
  {
    assert StepFollows(tr, k, r, i);
  }

  /** The beacon's resolved confirm count is c in every state of the trace. */
  ghost predicate ConfirmCountIs(tr: Trace, k: BeaconKey, c: int)
    requires TrackedThroughout(tr, k)
  {
    c >= 1 && forall i | 0 <= i < |tr.states| ::
      TunFor(tr.states[i].resolved, tr.states[i].beacons[k].name).confirmCount == c
  }

  lemma RunConfirmsWith(tr: Trace, k: BeaconKey, r: Run, c: int)
    requires Follows(tr, k, r) && ConfirmCountIs(tr, k, c)
    ensures ConfirmsWith(r, c)
  {
    forall i | 0 <= i < |r.steps| && r.steps[i].Sight?
      ensures r.steps[i].tun.confirmCount == c
    {
      WindowOfStep(tr, k, r, i);
    }
  }

  /** Whatever call makes a switch, a full confirmation stands behind it if and only if it is not ApplyTopology. */
  lemma EngineSwitchIsBackedExactlyWhen(tr: Trace, k: BeaconKey, r: Run, n: nat, c: int)
    requires Follows(tr, k, r) && n < |tr.moves| && NoRestoreState(tr, n) && tr.states[0].beacons[k].candidateCount == 0
    requires ConfirmCountIs(tr, k, c) && ValidRun(r) && SwitchesAt(r, n)
    ensures Backed(r, n, c, tr.states[n + 1].beacons[k].ap) <==> !tr.moves[n].action.ApplyTopology?
  {
    RunHasNoRestore(tr, k, r, n);
    RunConfirmsWith(tr, k, r, c);
    RetopIsApplyTopology(tr, k, r, n);
    SwitchIsBackedExactlyWhen(r, n, c);
  }

  /** In any trace, the last sightings before a switch of a recompute agree iff none since the first vote was blind. */
  lemma EngineConsecutiveExactlyWhen(tr: Trace, k: BeaconKey, r: Run, n: nat, c: int) returns (s: nat)
    requires Follows(tr, k, r) && n < |tr.moves| && NoRestoreState(tr, n) && tr.states[0].beacons[k].candidateCount == 0
    requires ConfirmCountIs(tr, k, c) && ValidRun(r) && SwitchesAt(r, n) && !tr.moves[n].action.ApplyTopology?
    ensures s <= n && FirstVoteSinceReset(r, s, n, tr.states[n + 1].beacons[k].ap)
    ensures LastAgree(r, n, c, tr.states[n + 1].beacons[k].ap) <==> NoneBlind(r, s, n)
  {
    RunHasNoRestore(tr, k, r, n);
    RunConfirmsWith(tr, k, r, c);
    RetopIsApplyTopology(tr, k, r, n);
    s := ConsecutiveExactlyWhenNoneIsBlind(r, n, c);
  }

  // -------------------------------------------------------------- arrivals

  /**
   * In any trace, a sighting that leaves its beacon not_home has no AP in presence under the settings in force, or its
   * closest AP has no zone.
   */
  lemma EngineSightingArrives(tr: Trace, k: BeaconKey, i: nat)
    requires ValidTrace(tr) && TrackedThroughout(tr, k) && i < |tr.moves|
    requires SeenBy(tr.states[0].beacons[k], tr.moves[0].now)
    requires tr.moves[i].action.Submit? && tr.moves[i].action.s.beacon == k && tr.states[i + 1].beacons[k].zone == ""
    ensures var tun, c := TunFor(tr.states[i].resolved, tr.states[i].beacons[k].name), LookFor(tr.moves[i], k).closest;
      || Present(tr.states[i + 1].beacons[k].perAP, tr.moves[i].now, tun) == {}
      || (c.Some? && Zone(tr.states[i].top, c.value.key) == "")
  {
    var r := RunOf(tr, k);
    FollowsIsValid(tr, k, r);
    assert StepFollows(tr, k, r, i);
    WindowOfStep(tr, k, r, i);
    SightingArrives(r, i);
  }

  /**
   * In any trace, after a sighting of the beacon or a tick whose closest AP has a zone, and that does not count it as
   * gone, the AP behind its published zone is in presence.
   */
  lemma EngineBackedAfterRecompute(tr: Trace, k: BeaconKey, r: Run, i: nat)
    requires Follows(tr, k, r) && i < |tr.moves|
    requires Recomputes(r.steps[i]) && Guided(Seen(r.states[i], r.steps[i]), r.steps[i])
    ensures var tun := TunFor(tr.states[i].resolved, tr.states[i].beacons[k].name);
      CurrentInPresence(tr.states[i + 1].beacons[k], tr.moves[i].now, tun)
  {
    FollowsIsValid(tr, k, r);
    WindowOfStep(tr, k, r, i);
    BackedInRuns(r, i);
    assert r.states[i + 1] == tr.states[i + 1].beacons[k];
  }

  /** In a trace in which the beacon's alpha stays the same an AP's average is the closed form of its readings. */
  lemma EngineAverageInClosedForm(tr: Trace, k: BeaconKey, r: Run, ap: string, n: nat, a: real)
    requires Follows(tr, k, r) && n <= |tr.moves| && ap !in tr.states[0].beacons[k].perAP
    requires forall i | 0 <= i < |tr.states| :: TunFor(tr.states[i].resolved, tr.states[i].beacons[k].name).alpha == a
    ensures IsAverageOf(tr.states[n].beacons[k].perAP, ap, a, Readings(r, ap, n))
  {
    FollowsIsValid(tr, k, r);
    forall i | 0 <= i < |r.steps| && r.steps[i].Sight?
      ensures r.steps[i].tun.alpha == a
    {
      WindowOfStep(tr, k, r, i);
    }
    AverageInClosedForm(r, ap, n, a);
  }
}
