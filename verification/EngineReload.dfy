/**
 * What registering a new allowlist, refreshing the cache and restoring snapshots do to the engine's state, on values.
 */
module EngineReload {
  import opened Wrappers
  import opened Identity
  import opened Tunables
  import opened Topology
  import opened Presence
  import opened EngineSpec
  import opened EngineRuns
  import opened EnginePasses

  /** The entries of a map whose keys are kept. */
  function Restricted<K, V>(m: map<K, V>, keep: set<K>): map<K, V> { map k | k in m && k in keep :: m[k] }

  /** The pruning loops: delete every entry whose key is not kept. */
  method Prune<K, V>(m: map<K, V>, keep: set<K>) returns (r: map<K, V>)
    ensures r == Restricted(m, keep)
  {
    r := m;
    var todo := m.Keys;
    while todo != {}
      invariant forall k | k in todo :: k in m
      invariant forall k :: k in r <==> k in m && (k in keep || k in todo)
      invariant forall k | k in r :: r[k] == m[k]
      decreases todo
    {
      var k :| k in todo;
      todo := todo - {k};
      if k !in keep {
        r := r - {k};
      }
    }
  }

  // ------------------------------------------------------------- tunables

  /** The names of the beacons that a loop has visited. */
  ghost function NamesDone(beacons: map<BeaconKey, Beacon>, todo: set<BeaconKey>): set<string> {
    set k | k in beacons && k !in todo :: beacons[k].name
  }

  lemma CacheWithOneMore(start: map<string, Resolved>, u: Tunables, names: set<string>, n: string)
    ensures start + CacheFor(u, names + {n}) == (start + CacheFor(u, names))[n := ResolveFor(u, n)]
  {
  }

  lemma CacheGrows(
      start: map<string, Resolved>, u: Tunables, beacons: map<BeaconKey, Beacon>, todo: set<BeaconKey>, k: BeaconKey)
    requires k in beacons && k in todo
    ensures var n := beacons[k].name;
      start + CacheFor(u, NamesDone(beacons, todo - {k}))
        == (start + CacheFor(u, NamesDone(beacons, todo)))[n := ResolveFor(u, n)]
  {
    assert NamesDone(beacons, todo - {k}) == NamesDone(beacons, todo) + {beacons[k].name};
    CacheWithOneMore(start, u, NamesDone(beacons, todo), beacons[k].name);
  }

  lemma ReloadIsNext(e: EngineState, m: Move)
    requires m.action.ApplyTunables?
    ensures Next(e, m, Configure(e, m.action), [])
  {
  }

  /** A reload of the tunables is a silent move. */
  lemma ReloadIsMove(e: EngineState, m: Move)
    requires Coherent(e) && m.action.ApplyTunables? && Legal(m.action)
    ensures Next(e, m, Configure(e, m.action), []) && Coherent(Configure(e, m.action))
  {
    ReloadIsNext(e, m);
    NextKeepsCoherent(e, m, Configure(e, m.action), []);
  }

  // ------------------------------------------------------------- topology

  /** The beacons and the cache while a new allowlist is registered. */
  datatype Roll = Roll(beacons: map<BeaconKey, Beacon>, resolved: map<string, Resolved>)

  /** After the first i entries: a known key takes the entry's name, an unknown one gets a fresh record. */
  ghost function Enrolled(e: EngineState, entries: seq<TrackedBeacon>, i: nat): Roll
    requires i <= |entries|
  {
    if i == 0 then Roll(e.beacons, e.resolved)
    else
      var r, b := Enrolled(e, entries, i - 1), entries[i - 1];
      Roll(r.beacons[b.key := if b.key in r.beacons then r.beacons[b.key].(name := b.name)
        else NewBeacon(b.key, b.name)],
           r.resolved[b.name := ResolveFor(e.tun, b.name)])
  }

  /** The first i entries list the key. */
  predicate Lists(entries: seq<TrackedBeacon>, i: nat, k: BeaconKey)
    requires i <= |entries|
  {
    exists j | 0 <= j < i :: entries[j].key == k
  }

  /** What registering leaves under a key that is not listed, or before it is reached. */
  lemma {:induction false} EnrolledOther(e: EngineState, entries: seq<TrackedBeacon>, i: nat, k: BeaconKey)
    requires i <= |entries| && !Lists(entries, i, k)
    ensures var r := Enrolled(e, entries, i).beacons;
      (k in r <==> k in e.beacons) && (k in r ==> r[k] == e.beacons[k])
  {
    if i > 0 {
      assert entries[i - 1].key != k;
      assert !Lists(entries, i - 1, k);
      EnrolledOther(e, entries, i - 1, k);
    }
  }

  /** A listed key has the entry's name, and otherwise what it had before, or a fresh record. */
  lemma {:induction false} EnrolledListed(e: EngineState, entries: seq<TrackedBeacon>, i: nat, j: nat)
    requires WellFormed(entries) && j < i <= |entries|
    ensures var r, b := Enrolled(e, entries, i).beacons, entries[j];
      b.key in r && r[b.key] == if b.key in e.beacons then e.beacons[b.key].(name := b.name)
        else NewBeacon(b.key, b.name)
  {
    var k := entries[j].key;
    if j == i - 1 {
      EnrolledOther(e, entries, i - 1, k);
    } else {
      EnrolledListed(e, entries, i - 1, j);
      assert entries[i - 1].key != k;
    }
  }

  lemma NamesGrow(entries: seq<TrackedBeacon>, i: nat)
    requires 0 < i <= |entries|
    ensures Names(entries[..i]) == Names(entries[..i - 1]) + {entries[i - 1].name}
    ensures Keys(entries[..i]) == Keys(entries[..i - 1]) + {entries[i - 1].key}
  {
    assert entries[..i] == entries[..i - 1] + [entries[i - 1]];
  }

  /** The keys and names of the first i entries. */
  ghost predicate Kept(entries: seq<TrackedBeacon>, i: nat, keys: set<BeaconKey>, names: set<string>)
    requires i <= |entries|
  {
    keys == Keys(entries[..i]) && names == Names(entries[..i])
  }

  lemma KeptMore(entries: seq<TrackedBeacon>, i: nat, keys: set<BeaconKey>, names: set<string>)
    requires i < |entries| && Kept(entries, i, keys, names)
    ensures Kept(entries, i + 1, keys + {entries[i].key}, names + {entries[i].name})
  {
    NamesGrow(entries, i + 1);
  }

  lemma {:induction false} EnrolledCache(e: EngineState, entries: seq<TrackedBeacon>, i: nat)
    requires i <= |entries|
    ensures Enrolled(e, entries, i).resolved == e.resolved + CacheFor(e.tun, Names(entries[..i]))
  {
    if i > 0 {
      EnrolledCache(e, entries, i - 1);
      NamesGrow(entries, i);
      CacheWithOneMore(e.resolved, e.tun, Names(entries[..i - 1]), entries[i - 1].name);
    }
  }

  /** A beacon as the emit pass of ApplyTopology finds it. */
  ghost function Renamed(e: EngineState, t: Topology, k: BeaconKey): Beacon
    requires k in Keys(t.beacons)
  {
    Before(e, ApplyTopology(t), k).(name := NameOf(t, k))
  }

  /** Registered and pruned: exactly the listed keys, under their names, and exactly their names in the cache. */
  ghost predicate Reconfigured(e: EngineState, t: Topology, e': EngineState) {
    && e'.top == t && e'.tun == e.tun && e'.resolved == CacheFor(e.tun, Names(t.beacons))
    && (forall k :: k in e'.beacons <==> k in Keys(t.beacons))
    && (forall k | k in e'.beacons :: e'.beacons[k] == Renamed(e, t, k))
  }

  lemma EnrolledIsRenamed(e: EngineState, t: Topology, k: BeaconKey)
    requires ValidTopology(t) && k in Keys(t.beacons)
    ensures var r := Enrolled(e, t.beacons, |t.beacons|).beacons;
      k in r && r[k] == Renamed(e, t, k)
  {
    var j :| 0 <= j < |t.beacons| && t.beacons[j].key == k;
    EnrolledListed(e, t.beacons, |t.beacons|, j);
    NameOfEntry(t, t.beacons[j]);
  }

  lemma RestrictedCache(start: map<string, Resolved>, u: Tunables, names: set<string>)
    ensures Restricted(start + CacheFor(u, names), names) == CacheFor(u, names)
  {
  }

  lemma EnrolledIsReconfigured(e: EngineState, t: Topology)
    requires ValidTopology(t)
    ensures var r := Enrolled(e, t.beacons, |t.beacons|);
      Reconfigured(e, t, EngineState(t, e.tun, Restricted(r.resolved, Names(t.beacons)),
        Restricted(r.beacons, Keys(t.beacons))))
  {
    var r := Enrolled(e, t.beacons, |t.beacons|);
    EnrolledCache(e, t.beacons, |t.beacons|);
    assert t.beacons[..|t.beacons|] == t.beacons;
    RestrictedCache(e.resolved, e.tun, Names(t.beacons));
    forall k | k in Keys(t.beacons)
      ensures k in r.beacons && r.beacons[k] == Renamed(e, t, k)
    {
      EnrolledIsRenamed(e, t, k);
    }
  }

  lemma RenamedIsSettled(e: EngineState, t: Topology, k: BeaconKey)
    requires ValidTunables(e.tun) && k in Keys(t.beacons) && (k in e.beacons ==> e.beacons[k].id == k)
    ensures var b := Renamed(e, t, k);
      b.id == k && b.name in Names(t.beacons) && InRange(ResolveFor(e.tun, b.name))
  {
    ValidIffResolvesInRange(e.tun);
    var b :| b in t.beacons && b.key == k && b.name == NameOf(t, k);
  }

  /** Beacon k awaits the emit pass: renamed, and with in-range settings under its new name. */
  ghost predicate Awaits(e: EngineState, t: Topology, mid: EngineState, k: BeaconKey) {
    && k in Keys(t.beacons) && k in mid.beacons && mid.beacons[k] == Renamed(e, t, k) && mid.beacons[k].id == k
    && mid.resolved == Configure(e, ApplyTopology(t)).resolved
    && mid.beacons[k].name in mid.resolved && InRange(mid.resolved[mid.beacons[k].name])
  }

  ghost predicate AllAwait(e: EngineState, t: Topology, mid: EngineState) {
    forall k {:trigger Awaits(e, t, mid, k)} | k in mid.beacons :: Awaits(e, t, mid, k)
  }

  /** Every listed beacon finds in-range settings in the refreshed cache. */
  lemma ReconfiguredAwaits(e: EngineState, t: Topology, mid: EngineState)
    requires ValidTunables(e.tun) && (forall k | k in e.beacons :: e.beacons[k].id == k) && Reconfigured(e, t, mid)
    ensures AllAwait(e, t, mid)
  {
    forall k | k in mid.beacons
      ensures Awaits(e, t, mid, k)
    {
      RenamedIsSettled(e, t, k);
    }
  }

  /** What the emit pass does to one beacon, given what the scan answered; a beacon that is not_home is not scanned. */
  lemma RelabelTakes(e: EngineState, m: Move, k: BeaconKey) returns (o: Outcome)
    requires m.action.ApplyTopology? && k in Keys(m.action.top.beacons)
    requires var b, resolved := Renamed(e, m.action.top, k), Configure(e, m.action).resolved;
      && b.id == k && b.name in resolved && InRange(resolved[b.name])
      && (b.zone != "" ==> IsClosest(b.perAP, m.now, resolved[b.name], LookFor(m, k).closest))
    ensures TrackedAfter(e, m.action, k) && StepTaken(e, m, k, o) && OwnEvents(k, o.events)
    ensures var b, c := Renamed(e, m.action.top, k), LookFor(m, k).closest;
      && (b.zone != "" && c.Some? ==> c.value.key in b.perAP)
      && o == Relabel(b, TunFor(Configure(e, m.action).resolved, b.name), m.action.top, m.now, b.name, c)
  {
    var b := Before(e, m.action, k);
    o := Apply(b, StepFor(e, m, k));
    EventsAreOwn(b, StepFor(e, m, k));
  }

  /** The emit pass goes on with one more beacon. */
  lemma RelabelPasses(
      e: EngineState, mid: EngineState, m: Move, m': Move, k: BeaconKey, values: map<BeaconKey, Beacon>,
      values': map<BeaconKey, Beacon>, done: map<BeaconKey, Outcome>, start: seq<Event>, out: seq<Event>,
      log: seq<Event>)
    returns (done': map<BeaconKey, Outcome>, out': seq<Event>)
    requires m.action.ApplyTopology? && Awaits(e, m.action.top, mid, k) && k !in done
    requires k in m'.looks && m' == m.(looks := m.looks[k := m'.looks[k]])
    requires Pass(e, m, mid.beacons, values, done, out)
    requires var b, c := mid.beacons[k], m'.looks[k].closest;
      && (b.zone != "" ==> IsClosest(b.perAP, m.now, mid.resolved[b.name], c))
      && var o := Relabel(b, mid.resolved[b.name], m.action.top, m.now, b.name, c);
         values' == values[k := o.beacon] && log == (start + out) + o.events
    ensures forall j :: j in done' <==> j in done || j == k
    ensures log == start + out' && Pass(e, m', mid.beacons, values', done', out')
  {
    var o := RelabelTakes(e, m', k);
    done', out' := PassOne(e, m, m', mid.beacons, values, done, start, out, k, o, log);
  }

  // ----------------------------------------- republish, snapshot, restore

  /** What re-publication does to one beacon. */
  lemma RepublishTakes(e: EngineState, m: Move, k: BeaconKey) returns (o: Outcome)
    requires Settled(e) && k in e.beacons && m.action == RepublishAll
    ensures TrackedAfter(e, m.action, k) && StepTaken(e, m, k, o) && OwnEvents(k, o.events)
    ensures o == Outcome(e.beacons[k], [RepublishEvent(e.beacons[k], m.now, TunFor(e.resolved, e.beacons[k].name))])
  {
    o := Apply(e.beacons[k], StepFor(e, m, k));
    EventsAreOwn(e.beacons[k], StepFor(e, m, k));
  }

  /** A snapshot in the making: one entry for each beacon that is not still to do. */
  ghost predicate SnapshotSoFar(e: EngineState, now: real, todo: set<BeaconKey>, snaps: seq<BeaconSnapshot>) {
    && (forall k | k in todo :: k in e.beacons) && |snaps| + |todo| == |e.beacons|
    && (forall sn | sn in snaps :: sn.beacon in e.beacons && sn == SnapshotOf(e, now, sn.beacon))
    && (forall k | k in e.beacons && k !in todo :: SnapshotOf(e, now, k) in snaps)
  }

  lemma SnapshotStarts(e: EngineState, now: real)
    ensures SnapshotSoFar(e, now, e.beacons.Keys, [])
  {
  }

  lemma SnapshotMore(e: EngineState, now: real, todo: set<BeaconKey>, snaps: seq<BeaconSnapshot>, k: BeaconKey)
    requires SnapshotSoFar(e, now, todo, snaps) && k in todo
    ensures SnapshotSoFar(e, now, todo - {k}, snaps + [SnapshotOf(e, now, k)])
  {
  }

  lemma SnapshotEnds(e: EngineState, now: real, snaps: seq<BeaconSnapshot>)
    requires SnapshotSoFar(e, now, {}, snaps)
    ensures IsSnapshot(e, now, snaps)
  {
  }

  /** A beacon after restoring from snapshots: the last one that applies decides. */
  function Restored(b: Beacon, k: BeaconKey, snaps: seq<BeaconSnapshot>, now: real): Beacon {
    var l := LastSnapshot(snaps, k);
    if l.Some? then b.(zone := l.value.zone, ap := l.value.ap, lastArrival := Some(now)) else b
  }

  /** The number of snapshots that restore a beacon. */
  function Restorable(snaps: seq<BeaconSnapshot>, keys: set<BeaconKey>): nat {
    if snaps == [] then 0
    else
      var sn := snaps[|snaps| - 1];
      Restorable(snaps[..|snaps| - 1], keys) + (if sn.beacon in keys && sn.zone != "" then 1 else 0)
  }

  /** Every beacon is as the snapshots leave it. */
  ghost predicate AllRestored(
      before: map<BeaconKey, Beacon>, after: map<BeaconKey, Beacon>, snaps: seq<BeaconSnapshot>, now: real) {
    forall k :: (k in after <==> k in before) && (k in before ==> after[k] == Restored(before[k], k, snaps, now))
  }

  lemma RestoreNone(before: map<BeaconKey, Beacon>, now: real)
    ensures AllRestored(before, before, [], now)
  {
  }

  /** One more snapshot. */
  lemma RestoreMore(
      before: map<BeaconKey, Beacon>, after: map<BeaconKey, Beacon>, snaps: seq<BeaconSnapshot>, sn: BeaconSnapshot,
      now: real)
    requires AllRestored(before, after, snaps, now)
    ensures sn.beacon in before && sn.zone != "" ==>
      AllRestored(before, after[sn.beacon := after[sn.beacon].(zone := sn.zone, ap := sn.ap,
        lastArrival := Some(now))], snaps + [sn], now)
    ensures sn.beacon !in before || sn.zone == "" ==> AllRestored(before, after, snaps + [sn], now)
  {
    var more := snaps + [sn];
    assert more[..|snaps|] == snaps;
    forall k
      ensures LastSnapshot(more, k) == if sn.beacon == k && sn.zone != "" then Some(sn) else LastSnapshot(snaps, k)
    {
    }
  }

  /** Restoring is a silent move. */
  lemma RestoreIsMove(e: EngineState, m: Move, e': EngineState)
    requires m.action.RestoreState? && e' == e.(beacons := e'.beacons)
    requires AllRestored(e.beacons, e'.beacons, m.action.snaps, m.now)
    ensures Next(e, m, e', [])
  {
    forall k
      ensures k in e'.beacons <==> TrackedAfter(e, m.action, k)
      ensures k in e'.beacons ==> BeaconMoves(e, m, e', [], k)
    {
      RestoreMovesOne(e, m, e', k);
    }
  }

  lemma RestoreMovesOne(e: EngineState, m: Move, e': EngineState, k: BeaconKey)
    requires m.action.RestoreState? && AllRestored(e.beacons, e'.beacons, m.action.snaps, m.now)
    ensures k in e'.beacons <==> TrackedAfter(e, m.action, k)
    ensures k in e'.beacons ==> BeaconMoves(e, m, e', [], k)
  {
    LastSnapshotNamesZone(m.action.snaps, k);
  }

  lemma {:induction false} LastSnapshotNamesZone(snaps: seq<BeaconSnapshot>, k: BeaconKey)
    ensures LastSnapshot(snaps, k).Some? ==> LastSnapshot(snaps, k).value.zone != ""
  {
    if snaps != [] {
      LastSnapshotNamesZone(snaps[..|snaps| - 1], k);
    }
  }
}
