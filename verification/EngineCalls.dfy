/** What each call of the engine does to each beacon: whom it reaches, what it leaves alone, and with which settings. */
module EngineCalls {
  import opened Wrappers
  import opened Text
  import opened Identity
  import opened Tunables
  import opened Topology
  import opened Presence
  import opened PresenceRuns
  import opened PresenceReadings
  import opened PresenceRules
  import opened EngineSpec
  import opened EngineRuns
  import EngineReload

  /** The call neither changes the beacon nor emits an event of it. */
  ghost predicate Untouched(e: EngineState, e': EngineState, out: seq<Event>, k: BeaconKey)
    requires k in e.beacons
  {
    k in e'.beacons && e'.beacons[k] == e.beacons[k] && Project(out, k) == []
  }

  // -------------------------------------------------------------- sightings

  /** A sighting of one beacon does not touch another, and one of an untracked beacon touches none. */
  lemma SubmitReachesOne(e: EngineState, m: Move, e': EngineState, out: seq<Event>, k: BeaconKey)
    requires Next(e, m, e', out) && m.action.Submit? && k in e.beacons && k != m.action.s.beacon
    ensures Untouched(e, e', out, k) && e'.top == e.top && e'.tun == e.tun && e'.resolved == e.resolved
  {
    assert TrackedAfter(e, m.action, k) && BeaconMoves(e, m, e', out, k);
  }

  /** The alpha in force for a name: its override, or the default. */
  predicate AlphaInForce(t: Tunables, name: string, a: real) { InForce(a, EntryOf(t, name).alpha, t.defaults.alpha) }

  /** The record after a sighting: the AP it names has the reading, every other AP what it had. */
  ghost predicate Folded(b: Beacon, b': Beacon, a: real, now: real, s: Sighting) {
    var ap, average := Lower(s.apMac), s.rssi as real;
    && (forall j :: j in b'.perAP <==> j in b.perAP || j == ap)
    && (forall j | j in b.perAP && j != ap :: b'.perAP[j] == b.perAP[j])
    && b'.perAP[ap] == ApState(
         s.apName, if ap in b.perAP then Mix(a, average, b.perAP[ap].ewma) else average, s.rssi, Some(now), s.at)
    && b'.battery == (if s.battery.Some? then s.battery else b.battery)
    && b'.temperature == (if s.temperature.Some? then s.temperature else b.temperature)
  }

  lemma SightFolds(b: Beacon, step: Step)
    requires step.Sight? && Enabled(b, step)
    ensures Folded(b, Apply(b, step).beacon, step.tun.alpha, step.now, step.s)
  {
    var ap := Lower(step.s.apMac);
    ReadingIsAveraged(b, step, ap);
    TelemetryIsLatest(b, step);
    forall j | j != ap
      ensures j in Apply(b, step).beacon.perAP <==> j in b.perAP
      ensures j in b.perAP ==> Apply(b, step).beacon.perAP[j] == b.perAP[j]
    {
      OtherStepsKeepAP(b, step, j);
    }
  }

  /**
   * A sighting of a tracked beacon is folded into the AP it names, with the alpha in force for the beacon, and into no
   * other; the telemetry it carries replaces the last known one.
   */
  lemma SubmitFoldsReading(e: EngineState, m: Move, e': EngineState, out: seq<Event>, a: real)
    requires Coherent(e) && Next(e, m, e', out) && m.action.Submit? && m.action.s.beacon in e.beacons
    requires AlphaInForce(e.tun, e.beacons[m.action.s.beacon].name, a)
    ensures var k := m.action.s.beacon;
      Folded(e.beacons[k], e'.beacons[k], a, m.now, m.action.s)
  {
    var k := m.action.s.beacon;
    assert TrackedAfter(e, m.action, k) && BeaconMoves(e, m, e', out, k);
    StepIsAsCalled(e, m, k);
    ResolvesFieldByField(e.tun, e.beacons[k].name);
    SightFolds(e.beacons[k], StepFor(e, m, k));
  }

  // ------------------------------------------------------- times and settings

  /** A call reaches every beacon it concerns at its own time, under the topology and the settings then in force. */
  lemma StepIsAsCalled(e: EngineState, m: Move, k: BeaconKey)
    requires Coherent(e) && k in e.beacons && TrackedAfter(e, m.action, k)
    ensures var step, tun := StepFor(e, m, k), ResolveFor(e.tun, e.beacons[k].name);
      && step.now == m.now
      && (m.action.TickAll? ==> step == Tick(m.now, tun, e.top, LookFor(m, k)))
      && (m.action.Submit? && m.action.s.beacon == k ==> step == Sight(m.now, tun, e.top, m.action.s, LookFor(m, k)))
      && (m.action.RepublishAll? ==> step == Republish(m.now, tun))
  {
    CoherentSettings(e, k);
  }

  /** Applying a topology goes by the new labels, and by the settings of the beacon's new name. */
  lemma TopologyStepIsAsCalled(e: EngineState, m: Move, b: TrackedBeacon)
    requires m.action.ApplyTopology? && WellFormed(m.action.top.beacons) && b in m.action.top.beacons
    ensures TrackedAfter(e, m.action, b.key)
    ensures StepFor(e, m, b.key)
      == Retop(m.now, ResolveFor(e.tun, b.name), m.action.top, b.name, LookFor(m, b.key).closest)
  {
    NameOfEntry(m.action.top, b);
    assert b.name in Names(m.action.top.beacons);
  }

  // ---------------------------------------------------------- configuration

  /** New tunables touch no beacon and say nothing. */
  lemma TunablesAreSilent(e: EngineState, m: Move, e': EngineState, out: seq<Event>)
    requires Next(e, m, e', out) && m.action.ApplyTunables?
    ensures e'.beacons == e.beacons && out == [] && e'.tun == m.action.tun && e'.top == e.top
  {
    forall k
      ensures (k in e'.beacons <==> k in e.beacons) && Project(out, k) == []
      ensures k in e.beacons ==> e'.beacons[k] == e.beacons[k]
    {
      assert TrackedAfter(e, m.action, k) <==> k in e.beacons;
      if k in e.beacons {
        assert BeaconMoves(e, m, e', out, k);
      }
    }
    assert e'.beacons == e.beacons;
    if out != [] {
      ProjectFinds(out, 0);
      assert false;
    }
  }

  /** What a listed beacon keeps through a new topology: all but its name and perhaps its place. */
  predicate KeepsRecord(b: Beacon, b': Beacon) {
    && b'.id == b.id && b'.perAP == b.perAP && b'.lastArrival == b.lastArrival
    && b'.battery == b.battery && b'.temperature == b.temperature
  }

  /** A beacon that is listed again keeps its record under its new name, and is published in a zone if it was before. */
  lemma TopologyKeepsRecord(e: EngineState, m: Move, e': EngineState, out: seq<Event>, b: TrackedBeacon)
    requires Next(e, m, e', out) && m.action.ApplyTopology? && WellFormed(m.action.top.beacons)
    requires b in m.action.top.beacons && b.key in e.beacons
    ensures b.key in e'.beacons && e'.beacons[b.key].name == b.name
    ensures KeepsRecord(e.beacons[b.key], e'.beacons[b.key])
    ensures e.beacons[b.key].zone == "" <==> e'.beacons[b.key].zone == ""
  {
    TopologyStepIsAsCalled(e, m, b);
    assert BeaconMoves(e, m, e', out, b.key);
    RelabelMovesExactlyWhen(e.beacons[b.key], StepFor(e, m, b.key));
  }

  /** A beacon that is newly listed starts from nothing, silently; one that is not listed is gone, without a word. */
  lemma TopologyStartsAndDrops(e: EngineState, m: Move, e': EngineState, out: seq<Event>, k: BeaconKey)
    requires Next(e, m, e', out) && m.action.ApplyTopology? && WellFormed(m.action.top.beacons)
    ensures k !in Keys(m.action.top.beacons) ==> k !in e'.beacons && Project(out, k) == []
    ensures forall b | b in m.action.top.beacons && b.key == k && k !in e.beacons ::
      k in e'.beacons && Project(out, k) == []
      && e'.beacons[k] == Beacon(k, b.name, map[], "", "", None, "", 0, None, None)
  {
    forall b | b in m.action.top.beacons && b.key == k && k !in e.beacons
      ensures k in e'.beacons && Project(out, k) == []
      ensures e'.beacons[k] == Beacon(k, b.name, map[], "", "", None, "", 0, None, None)
    {
      TopologyStepIsAsCalled(e, m, b);
      assert BeaconMoves(e, m, e', out, k);
      RelabelMovesExactlyWhen(Before(e, m.action, k), StepFor(e, m, k));
    }
  }

  // ---------------------------------------------------------------- restoring

  /** The snapshot applies to beacon k. */
  predicate Applies(sn: BeaconSnapshot, k: BeaconKey) { sn.beacon == k && sn.zone != "" }

  lemma {:induction false} LastSnapshotIs(snaps: seq<BeaconSnapshot>, k: BeaconKey, i: nat)
    requires i < |snaps| && Applies(snaps[i], k) && forall j | i < j < |snaps| :: !Applies(snaps[j], k)
    ensures LastSnapshot(snaps, k) == Some(snaps[i])
  {
    if i < |snaps| - 1 {
      assert !Applies(snaps[|snaps| - 1], k);
      LastSnapshotIs(snaps[..|snaps| - 1], k, i);
    }
  }

  /** The last snapshot that applies to a beacon sets its zone and AP, as an arrival now; nothing else, and silently. */
  lemma RestoreTakesLast(e: EngineState, m: Move, e': EngineState, out: seq<Event>, k: BeaconKey, i: nat)
    requires Next(e, m, e', out) && m.action.RestoreState? && k in e.beacons && i < |m.action.snaps|
    requires Applies(m.action.snaps[i], k) && forall j | i < j < |m.action.snaps| :: !Applies(m.action.snaps[j], k)
    ensures k in e'.beacons && Project(out, k) == []
    ensures var sn, b := m.action.snaps[i], e.beacons[k];
      e'.beacons[k] == b.(zone := sn.zone, ap := sn.ap, lastArrival := Some(m.now))
  {
    assert TrackedAfter(e, m.action, k) && BeaconMoves(e, m, e', out, k);
    LastSnapshotIs(m.action.snaps, k, i);
  }

  /** A beacon to which none applies is left alone. */
  lemma RestoreLeavesOthers(e: EngineState, m: Move, e': EngineState, out: seq<Event>, k: BeaconKey)
    requires Next(e, m, e', out) && m.action.RestoreState? && k in e.beacons
    requires forall j | 0 <= j < |m.action.snaps| :: !Applies(m.action.snaps[j], k)
    ensures Untouched(e, e', out, k)
  {
    assert TrackedAfter(e, m.action, k) && BeaconMoves(e, m, e', out, k);
    LastSnapshotHolds(m.action.snaps, k);
    assert LastSnapshot(m.action.snaps, k).None?;
  }

  /** The positions of the snapshots that apply to a tracked beacon. */
  function Hits(snaps: seq<BeaconSnapshot>, keys: set<BeaconKey>): set<nat> {
    set i: nat | i < |snaps| && snaps[i].beacon in keys && Applies(snaps[i], snaps[i].beacon)
  }

  /** The count that RestoreState returns is the number of those. */
  lemma {:induction false} RestorableCounts(snaps: seq<BeaconSnapshot>, keys: set<BeaconKey>)
    ensures EngineReload.Restorable(snaps, keys) == |Hits(snaps, keys)|
  {
    if snaps == [] {
      assert Hits(snaps, keys) == {};
    } else {
      var n := |snaps| - 1;
      RestorableCounts(snaps[..n], keys);
      var before, hit := Hits(snaps[..n], keys), snaps[n].beacon in keys && Applies(snaps[n], snaps[n].beacon);
      assert Hits(snaps, keys) == if hit then before + {n} else before;
    }
  }

  // ---------------------------------------------------------------- snapshot

  /** What a snapshot says of an AP: its last reading, its average, and what is left of it now under these settings. */
  predicate ShowsAP(shown: ApSnapshot, ap: ApState, now: real, tun: Resolved) {
    && shown.name == ap.apName && shown.lastRSSI == ap.lastRSSI && shown.ewma == ap.ewma
    && shown.lastSighting == ap.lastSighting && shown.effective == Effective(ap, now, tun)
  }

  /** A snapshot says of a beacon what the state says, and judges its signals by the settings in force for its name. */
  lemma SnapshotShows(e: EngineState, now: real, k: BeaconKey)
    requires Coherent(e) && k in e.beacons
    ensures var sn, b, tun := SnapshotOf(e, now, k), e.beacons[k], ResolveFor(e.tun, e.beacons[k].name);
      && sn.beacon == k && sn.name == b.name && sn.zone == b.zone && sn.ap == b.ap && sn.lastArrival == b.lastArrival
      && sn.battery == b.battery && sn.temperature == b.temperature
      && (sn.sticky <==>
            b.zone != "" && b.lastArrival.Some? && now < b.lastArrival.value + tun.stickyAfterArrivalS as real)
      && sn.aps.Keys == b.perAP.Keys
      && (forall ap | ap in b.perAP :: ShowsAP(sn.aps[ap], b.perAP[ap], now, tun))
      && (set ap | ap in sn.aps && sn.aps[ap].inPresence) == Present(b.perAP, now, tun)
  {
    CoherentSettings(e, k);
  }
}
