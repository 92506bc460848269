/** What the engine promises over whole runs: for every trace, every beacon and every hot reload. */
module EngineRuns {
  import opened Wrappers
  import opened Identity
  import opened Tunables
  import opened Topology
  import opened Presence
  import opened PresenceSignal
  import opened PresenceRuns
  import opened EngineSpec

  // ------------------------------------------------------------- flapping

  /** In every state of the trace the beacon's resolved sticky window is at least s seconds. */
  ghost predicate WindowAtLeast(tr: Trace, k: BeaconKey, s: real)
    requires TrackedThroughout(tr, k)
  {
    forall i | 0 <= i < |tr.states| ::
      TunFor(tr.states[i].resolved, tr.states[i].beacons[k].name).stickyAfterArrivalS as real >= s
  }

  lemma WindowOfRun(tr: Trace, k: BeaconKey, r: Run, s: real)
    requires Follows(tr, k, r) && WindowAtLeast(tr, k, s)
    ensures StickyAtLeast(r, s)
  {
    forall i | 0 <= i < |r.steps| && (r.steps[i].Sight? || r.steps[i].Tick?)
      ensures r.steps[i].tun.stickyAfterArrivalS as real >= s
    {
      WindowOfStep(tr, k, r, i);
    }
  }

  lemma WindowOfStep(tr: Trace, k: BeaconKey, r: Run, i: nat)
    requires Follows(tr, k, r) && i < |r.steps| && (r.steps[i].Sight? || r.steps[i].Tick?)
    ensures r.steps[i].tun == TunFor(tr.states[i].resolved, tr.states[i].beacons[k].name)
  {
    assert StepFollows(tr, k, r, i);
    TrackedMove(tr, k, i);
    TunOfStep(tr.states[i], tr.moves[i], k);
  }

  lemma TunOfStep(e: EngineState, m: Move, k: BeaconKey)
    requires k in e.beacons && TrackedAfter(e, m.action, k) && (StepFor(e, m, k).Sight? || StepFor(e, m, k).Tick?)
    ensures StepFor(e, m, k).tun == TunFor(e.resolved, e.beacons[k].name)
  {
  }

  /** Number of departures of a beacon among the first n calls of a trace. */
  ghost function TraceDepartures(tr: Trace, k: BeaconKey, n: nat): nat
    requires TrackedThroughout(tr, k) && n < |tr.states|
  {
    if n == 0 then 0
    else TraceDepartures(tr, k, n - 1) + (if Leaves(tr.states[n - 1].beacons[k], tr.states[n].beacons[k]) then 1 else 0)
  }

  lemma {:induction false} SameDepartures(tr: Trace, k: BeaconKey, r: Run, n: nat)
    requires Follows(tr, k, r) && n <= |tr.moves|
    ensures TraceDepartures(tr, k, n) == Departures(r, n)
  {
    if n > 0 {
      SameDepartures(tr, k, r, n - 1);
      assert r.states[n - 1] == tr.states[n - 1].beacons[k] && r.states[n] == tr.states[n].beacons[k];
    }
  }

  /**
   * Flap bound for the engine: a beacon that stays on the allowlist and starts not_home departs at most t / s times
   * in t seconds, whatever calls the trace mixes, as long as its sticky window is never below s. The bound is stated as
   * a product, which also covers s == 0.
   */
  lemma EngineFlapBound(tr: Trace, k: BeaconKey, s: real, d: real, t: real)
    requires ValidTrace(tr) && TrackedThroughout(tr, k) && |tr.moves| > 0 && s >= 0.0 && WindowAtLeast(tr, k, s)
    requires tr.states[0].beacons[k].zone == ""
    requires d == TraceDepartures(tr, k, |tr.moves|) as real && t == tr.moves[|tr.moves| - 1].now - tr.moves[0].now
    ensures d * s <= t
  {
    var r := RunOf(tr, k);
    RunHasWindow(tr, k, r, s);
    SameDepartures(tr, k, r, |tr.moves|);
    FlapsFit(r, s, d, t);
  }

  lemma RunHasWindow(tr: Trace, k: BeaconKey, r: Run, s: real)
    requires Follows(tr, k, r) && WindowAtLeast(tr, k, s)
    ensures ValidRun(r) && StickyAtLeast(r, s) && |r.steps| == |tr.moves| && r.states[0] == tr.states[0].beacons[k]
    ensures forall i | 0 <= i < |r.steps| :: r.steps[i].now == tr.moves[i].now
  {
    FollowsIsValid(tr, k, r);
    WindowOfRun(tr, k, r, s);
  }

  /** Every departure of such a beacon ends a stay of at least s seconds. */
  lemma EngineDepartureEndsLongStay(tr: Trace, k: BeaconKey, j: nat, s: real) returns (a: nat)
    requires ValidTrace(tr) && TrackedThroughout(tr, k) && j < |tr.moves| && WindowAtLeast(tr, k, s)
    requires tr.states[0].beacons[k].zone == ""
    requires Leaves(tr.states[j].beacons[k], tr.states[j + 1].beacons[k])
    ensures a < j && Enters(tr.states[a].beacons[k], tr.states[a + 1].beacons[k])
    ensures forall i | a < i <= j :: tr.states[i].beacons[k].zone != ""
    ensures tr.moves[j].now - tr.moves[a].now >= s
  {
    var r := RunOf(tr, k);
    FollowsIsValid(tr, k, r);
    WindowOfRun(tr, k, r, s);
    a := DepartureEndsLongStay(r, j, s);
    forall i | a < i <= j
      ensures tr.states[i].beacons[k].zone != ""
    {
      assert r.states[i] == tr.states[i].beacons[k];
    }
  }

  // ------------------------------------------------------- log and state

  lemma RestoreOnlyByRestoreState(tr: Trace, k: BeaconKey, r: Run, i: nat)
    requires Follows(tr, k, r) && i < |tr.moves| && !tr.moves[i].action.RestoreState?
    ensures !r.steps[i].Restore?
  {
    assert StepFollows(tr, k, r, i);
  }

  /** At every point of every trace, what was last announced of a beacon is what it publishes now. */
  lemma EngineLogAgreesWithState(tr: Trace, k: BeaconKey, n: nat)
    requires ValidTrace(tr) && TrackedThroughout(tr, k) && n <= |tr.moves|
    requires forall i | 0 <= i < n :: !tr.moves[i].action.RestoreState?
    ensures LastAnnounced(Project(Log(tr.outs, n), k), Published(tr.states[0].beacons[k]))
      == Published(tr.states[n].beacons[k])
  {
    var r := RunOf(tr, k);
    FollowsIsValid(tr, k, r);
    forall i | 0 <= i < n
      ensures !r.steps[i].Restore?
    {
      RestoreOnlyByRestoreState(tr, k, r, i);
    }
    LogFollows(tr, k, r, n);
    LogAgreesWithState(r, n);
  }

  lemma {:induction false} OneEventEach(out: seq<Event>, keys: set<BeaconKey>)
    requires forall i | 0 <= i < |out| :: out[i].beacon in keys
    requires forall k | k in keys :: |Project(out, k)| == 1
    ensures |out| == |keys|
  {
    if out == [] {
      assert forall k | k in keys :: |Project(out, k)| == 0;
      assert keys == {};
    } else {
      var n := |out| - 1;
      var k := out[n].beacon;
      forall i | 0 <= i < n
        ensures out[..n][i].beacon in keys - {k}
      {
        if out[i].beacon == k {
          ProjectFinds(out[..n], i);
        }
      }
      OneEventEach(out[..n], keys - {k});
    }
  }

  lemma {:induction false} ProjectFinds(out: seq<Event>, i: nat)
    requires i < |out|
    ensures |Project(out, out[i].beacon)| >= 1
  {
    if i < |out| - 1 {
      ProjectFinds(out[..|out| - 1], i);
    }
  }

  /** RepublishAll changes nothing and emits exactly one event per tracked beacon, announcing what it publishes. */
  lemma RepublishIsReadOnly(e: EngineState, m: Move, e': EngineState, out: seq<Event>)
    requires Next(e, m, e', out) && m.action.RepublishAll?
    ensures e' == e && |out| == |e.beacons|
    ensures forall k | k in e.beacons :: |Project(out, k)| == 1 && Project(out, k)[0].state == Published(e.beacons[k])
  {
    forall k
      ensures k in e'.beacons <==> k in e.beacons
      ensures k in e.beacons ==> e'.beacons[k] == e.beacons[k] && |Project(out, k)| == 1
      ensures k in e.beacons ==> Project(out, k)[0].state == Published(e.beacons[k])
      ensures k !in e.beacons ==> Project(out, k) == []
    {
      RepublishesOne(e, m, e', out, k);
    }
    assert e'.beacons == e.beacons;
    forall i | 0 <= i < |out|
      ensures out[i].beacon in e.beacons
    {
      ProjectFinds(out, i);
    }
    OneEventEach(out, e.beacons.Keys);
  }

  lemma RepublishesOne(e: EngineState, m: Move, e': EngineState, out: seq<Event>, k: BeaconKey)
    requires Next(e, m, e', out) && m.action.RepublishAll?
    ensures k in e'.beacons <==> k in e.beacons
    ensures k in e.beacons ==> e'.beacons[k] == e.beacons[k] && |Project(out, k)| == 1
    ensures k in e.beacons ==> Project(out, k)[0].state == Published(e.beacons[k])
    ensures k !in e.beacons ==> Project(out, k) == []
  {
    assert TrackedAfter(e, m.action, k) <==> k in e.beacons;
    if k in e.beacons {
      assert BeaconMoves(e, m, e', out, k);
    }
  }

  // ------------------------------------------------------------ warm boot

  /** A snapshot of the engine: one entry per tracked beacon, in some order. */
  ghost predicate IsSnapshot(e: EngineState, now: real, snaps: seq<BeaconSnapshot>) {
    && (forall sn | sn in snaps :: sn.beacon in e.beacons && sn == SnapshotOf(e, now, sn.beacon))
    && (forall k | k in e.beacons :: SnapshotOf(e, now, k) in snaps)
    && |snaps| == |e.beacons|
  }

  function SnapshotOf(e: EngineState, now: real, k: BeaconKey): BeaconSnapshot
    requires k in e.beacons
  {
    var b := e.beacons[k];
    var tun := TunFor(e.resolved, b.name);
    BeaconSnapshot(k, b.name, b.zone, b.ap, b.lastArrival, StickyActive(b, now, tun), ApSnapshots(b.perAP, now, tun),
      b.battery, b.temperature)
  }

  /** A row of the presence_state table. */
  datatype Row = Row(kind: string, key: string, zone: string, ap: string, lastArrival: Option<real>)

  function RowOf(sn: BeaconSnapshot): Row { Row(sn.beacon.kind, sn.beacon.key, sn.zone, sn.ap, sn.lastArrival) }

  /** The snapshots main builds from loaded rows; a row with an unknown kind or empty key is skipped. */
  function FromRows(rows: seq<Row>): seq<BeaconSnapshot> {
    if rows == [] then []
    else
      var n := |rows| - 1;
      var r, key := rows[n], FromStoreKey(rows[n].kind, rows[n].key);
      FromRows(rows[..n]) + (if key.Some?
        then [BeaconSnapshot(key.value, "", r.zone, r.ap, r.lastArrival, false, map[], None, None)] else [])
  }

  /** The table holds the saved rows; nothing is known of the order they are read back in. */
  ghost predicate SameRows(saved: seq<BeaconSnapshot>, loaded: seq<Row>) {
    && (forall sn | sn in saved :: RowOf(sn) in loaded)
    && (forall r | r in loaded :: exists sn | sn in saved :: r == RowOf(sn))
  }

  lemma {:induction false} FromRowsHolds(rows: seq<Row>)
    ensures forall sn | sn in FromRows(rows) :: exists r | r in rows ::
      FromStoreKey(r.kind, r.key) == Some(sn.beacon) && sn.zone == r.zone && sn.ap == r.ap
    ensures forall r | r in rows && FromStoreKey(r.kind, r.key).Some? ::
      BeaconSnapshot(FromStoreKey(r.kind, r.key).value, "", r.zone, r.ap, r.lastArrival, false, map[],
        None, None) in FromRows(rows)
  {
    if rows != [] {
      FromRowsHolds(rows[..|rows| - 1]);
    }
  }

  lemma {:induction false} LastSnapshotHolds(snaps: seq<BeaconSnapshot>, k: BeaconKey)
    ensures var l := LastSnapshot(snaps, k);
      && (l.Some? ==> l.value in snaps && l.value.beacon == k && l.value.zone != "")
      && (l.None? ==> forall sn | sn in snaps && sn.beacon == k :: sn.zone == "")
  {
    if snaps != [] {
      LastSnapshotHolds(snaps[..|snaps| - 1], k);
    }
  }

  /** Saved and loaded, a beacon's zone and AP come back; a beacon that was not_home brings nothing. */
  lemma SnapshotSurvives(e: EngineState, now: real, saved: seq<BeaconSnapshot>, loaded: seq<Row>, k: BeaconKey)
    requires IsSnapshot(e, now, saved) && SameRows(saved, loaded)
    requires k in e.beacons && forall j | j in e.beacons :: j.Valid()
    ensures var l := LastSnapshot(FromRows(loaded), k);
      if e.beacons[k].zone == "" then l.None?
      else l.Some? && l.value.zone == e.beacons[k].zone && l.value.ap == e.beacons[k].ap
  {
    var snaps := FromRows(loaded);
    FromRowsHolds(loaded);
    LastSnapshotHolds(snaps, k);
    forall sn | sn in snaps && sn.beacon == k
      ensures sn.zone == e.beacons[k].zone && sn.ap == e.beacons[k].ap
    {
      var r :| r in loaded && FromStoreKey(r.kind, r.key) == Some(sn.beacon) && sn.zone == r.zone && sn.ap == r.ap;
      var sn0 :| sn0 in saved && r == RowOf(sn0);
    }
    var r := RowOf(SnapshotOf(e, now, k));
    assert r in loaded && FromStoreKey(r.kind, r.key) == Some(k);
  }

  /** A restart: the old engine, its saved snapshot, the rows read back, a cold engine, and the restoring call. */
  datatype Reboot = Reboot(
    before: EngineState, savedAt: real, saved: seq<BeaconSnapshot>, loaded: seq<Row>,
    tun: Tunables, cold: EngineState, restore: Move, warm: EngineState, out: seq<Event>)

  /** The new engine starts with the old allowlist and restores what the table held, in whatever order. */
  ghost predicate ValidReboot(rb: Reboot) {
    && Coherent(rb.before) && (forall k | k in rb.before.beacons :: k.Valid())
    && IsSnapshot(rb.before, rb.savedAt, rb.saved) && SameRows(rb.saved, rb.loaded)
    && Init(rb.cold, rb.before.top, rb.tun)
    && rb.restore.action == RestoreState(FromRows(rb.loaded)) && Next(rb.cold, rb.restore, rb.warm, rb.out)
  }

  lemma InitIsCold(e: EngineState, old': EngineState, tun: Tunables, k: BeaconKey)
    requires Init(e, old'.top, tun) && old'.beacons.Keys == Keys(old'.top.beacons)
    ensures (k in e.beacons <==> k in old'.beacons) && (k in e.beacons ==> e.beacons[k].zone == "")
  {
  }

  lemma RestoreTracksTheSame(e: EngineState, m: Move, e': EngineState, out: seq<Event>, k: BeaconKey)
    requires Next(e, m, e', out) && m.action.RestoreState?
    ensures (k in e'.beacons <==> k in e.beacons) && (k !in e.beacons ==> Project(out, k) == [])
  {
    assert TrackedAfter(e, m.action, k) <==> k in e.beacons;
  }

  lemma ColdBeacon(rb: Reboot, k: BeaconKey)
    requires ValidReboot(rb)
    ensures k in rb.cold.beacons <==> k in rb.before.beacons
    ensures k in rb.cold.beacons ==> rb.cold.beacons[k].zone == ""
    ensures k in rb.warm.beacons <==> k in rb.cold.beacons
    ensures k !in rb.warm.beacons ==> Project(rb.out, k) == []
  {
    InitIsCold(rb.cold, rb.before, rb.tun, k);
    RestoreTracksTheSame(rb.cold, rb.restore, rb.warm, rb.out, k);
  }

  lemma RestoredBeacon(rb: Reboot, k: BeaconKey)
    requires ValidReboot(rb) && k in rb.before.beacons
    ensures k in rb.warm.beacons && Project(rb.out, k) == []
    ensures var b, b' := rb.before.beacons[k], rb.warm.beacons[k];
      b'.zone == b.zone && (b.zone != "" ==> b'.ap == b.ap && b'.lastArrival == Some(rb.restore.now))
  {
    ColdBeacon(rb, k);
    RestoreOne(rb.cold, rb.restore, rb.warm, rb.out, k);
    SnapshotSurvives(rb.before, rb.savedAt, rb.saved, rb.loaded, k);
  }

  /** What RestoreState does to one tracked beacon. */
  lemma RestoreOne(e: EngineState, m: Move, e': EngineState, out: seq<Event>, k: BeaconKey)
    requires Next(e, m, e', out) && m.action.RestoreState? && k in e.beacons
    ensures k in e'.beacons && Project(out, k) == []
    ensures var l := LastSnapshot(m.action.snaps, k);
      e'.beacons[k] == if l.Some? then e.beacons[k].(zone := l.value.zone, ap := l.value.ap, lastArrival := Some(m.now))
                       else e.beacons[k]
  {
    assert TrackedAfter(e, m.action, k);
    assert BeaconMoves(e, m, e', out, k);
  }

  /**
   * Warm boot: the restore emits nothing, every beacon publishes what it did before the restart, and each one that
   * was in a zone counts as arriving at boot.
   */
  lemma WarmBootRestores(rb: Reboot)
    requires ValidReboot(rb)
    ensures rb.warm.beacons.Keys == rb.before.beacons.Keys && rb.out == []
    ensures forall k | k in rb.before.beacons ::
      var b, b' := rb.before.beacons[k], rb.warm.beacons[k];
      b'.zone == b.zone && (b.zone != "" ==> b'.ap == b.ap && b'.lastArrival == Some(rb.restore.now))
  {
    forall k
      ensures (k in rb.warm.beacons <==> k in rb.before.beacons) && Project(rb.out, k) == []
      ensures k in rb.before.beacons ==>
        var b, b' := rb.before.beacons[k], rb.warm.beacons[k];
        b'.zone == b.zone && (b.zone != "" ==> b'.ap == b.ap && b'.lastArrival == Some(rb.restore.now))
    {
      ColdBeacon(rb, k);
      if k in rb.before.beacons {
        RestoredBeacon(rb, k);
      }
    }
    if rb.out != [] {
      ProjectFinds(rb.out, 0);
    }
  }

  /** What re-publishing announces, beacon by beacon, is the same before the restart and after it. */
  lemma WarmBootRepublishesTheSame(
      rb: Reboot, p: Move, e: EngineState, oldOut: seq<Event>, q: Move, e': EngineState, newOut: seq<Event>)
    requires ValidReboot(rb)
    requires p.action.RepublishAll? && Next(rb.before, p, e, oldOut)
    requires q.action.RepublishAll? && Next(rb.warm, q, e', newOut)
    ensures |oldOut| == |newOut|
    ensures forall k | k in rb.before.beacons ::
      |Project(oldOut, k)| == |Project(newOut, k)| == 1 && Project(newOut, k)[0].state == Project(oldOut, k)[0].state
  {
    WarmBootRestores(rb);
    SameStatesRepublishAlike(rb.before, p, e, oldOut, rb.warm, q, e', newOut);
  }

  lemma SameStatesRepublishAlike(
      e: EngineState, p: Move, e1: EngineState, out: seq<Event>, f: EngineState, q: Move, f1: EngineState,
      out': seq<Event>)
    requires e.beacons.Keys == f.beacons.Keys && forall k | k in e.beacons :: f.beacons[k].zone == e.beacons[k].zone
    requires p.action.RepublishAll? && Next(e, p, e1, out) && q.action.RepublishAll? && Next(f, q, f1, out')
    ensures |out| == |out'|
    ensures forall k | k in e.beacons ::
      |Project(out, k)| == |Project(out', k)| == 1 && Project(out', k)[0].state == Project(out, k)[0].state
  {
    RepublishIsReadOnly(e, p, e1, out);
    RepublishIsReadOnly(f, q, f1, out');
    assert |e.beacons| == |e.beacons.Keys| && |f.beacons| == |f.beacons.Keys|;
  }

  /** No run of the rebooted engine departs a restored beacon before boot plus its sticky window. */
  lemma RestoredBeaconIsHeld(tr: Trace, k: BeaconKey, n: nat, s: real, boot: real)
    requires ValidTrace(tr) && TrackedThroughout(tr, k) && n < |tr.moves| && s >= 0.0 && WindowAtLeast(tr, k, s)
    requires tr.states[0].beacons[k].zone != "" && tr.states[0].beacons[k].lastArrival == Some(boot)
      && boot <= tr.moves[0].now
    requires Leaves(tr.states[n].beacons[k], tr.states[n + 1].beacons[k])
    ensures tr.moves[n].now >= boot + s
  {
    var r := RunOf(tr, k);
    FollowsIsValid(tr, k, r);
    WindowOfRun(tr, k, r, s);
    HeldUntil(r, n + 1, s, boot);
  }
}
