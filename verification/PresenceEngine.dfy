/** The presence engine: mutable beacon records updated in place, proved against the transition relation. */
module PresenceEngine {
  import opened Wrappers
  import opened Text
  import opened Identity
  import opened Tunables
  import opened Topology
  import opened Presence
  import opened EngineSpec
  import opened EngineRuns
  import opened BeaconStates
  import opened EnginePasses
  import opened EngineReload

  class Engine {
    var top: Topology
    var tun: Tunables
    var beacons: map<BeaconKey, BeaconState>
    var resolved: map<string, Resolved>
    var emitted: seq<Event>

    /** The records as values of the specification. */
    ghost var model: map<BeaconKey, Beacon>

    /** All records made so far. */
    ghost var records: set<BeaconState>

    /** Every record has its own key, and the model says what it holds. */
    ghost predicate Synced()
      reads this`beacons, this`model, this`records, records
    {
      && (forall k :: k in model <==> k in beacons)
      && (forall k | k in beacons :: beacons[k] in records && beacons[k].id == k && beacons[k].Value() == model[k])
    }

    ghost function State(): EngineState
      reads this`top, this`tun, this`resolved, this`model
    {
      EngineState(top, tun, resolved, model)
    }

    ghost predicate Valid()
      reads this`top, this`tun, this`resolved, this`beacons, this`model, this`records, records
    {
      Synced() && Coherent(State())
    }

    /** A fresh record under a key. */
    method AddRecord(id: BeaconKey, name: string)
      requires Synced()
      modifies this`beacons, this`model, this`records
      ensures Synced() && id in beacons && fresh(beacons[id]) && beacons == old(beacons)[id := beacons[id]]
        && records == old(records) + {beacons[id]}
      ensures model == old(model)[id := NewBeacon(id, name)]
    {
      var bs := new BeaconState(id, name);
      beacons := beacons[id := bs];
      model := model[id := NewBeacon(id, name)];
      records := records + {bs};
    }

    /** NewEngine: every listed beacon gets a fresh record and its resolved settings. */
    constructor (t: Topology, u: Tunables)
      requires ValidTopology(t) && ValidTunables(u)
      ensures Valid() && Init(State(), t, u) && emitted == [] && fresh(records)
    {
      top, tun, beacons, resolved, emitted := t, u, map[], map[], [];
      model, records := map[], {};
      new;
      Register();
    }

    /** The rest of NewEngine, on an engine with its configuration and nothing else. */
    method Register()
      requires beacons == map[] && model == map[] && resolved == map[] && records == {}
      requires ValidTopology(top) && ValidTunables(tun)
      modifies this`beacons, this`model, this`records, this`resolved
      ensures Synced() && Init(State(), top, tun) && Coherent(State()) && fresh(records)
    {
      RegisterAll();
      FreshStateIsInit(top, tun);
    }

    /** The registration loop of NewEngine. */
    method RegisterAll()
      requires beacons == map[] && model == map[] && resolved == map[] && records == {}
      modifies this`beacons, this`model, this`records, this`resolved
      ensures Synced() && State() == FreshState(top, tun, |top.beacons|) && fresh(records)
    {
      for i := 0 to |top.beacons|
        invariant Synced() && State() == FreshState(top, tun, i) && fresh(records)
      {
        var b := top.beacons[i];
        AddRecord(b.key, b.name);
        resolved := resolved[b.name := ResolveFor(tun, b.name)];
      }
    }

    /** emit: the events handed to the hooks and the out channel, in order. */
    method Emit(ev: Event)
      modifies this`emitted
      ensures emitted == old(emitted) + [ev]
    {
      emitted := emitted + [ev];
    }

    /** recomputeOne on a record, in place. */
    method RecomputeOne(bs: BeaconState, now: real, fromAP: string) returns (look: Look)
      requires bs.name in resolved && InRange(resolved[bs.name])
      modifies this`emitted, bs
      ensures IsLook(old(bs.perAP), now, resolved[old(bs.name)], look)
      ensures var o := Recompute(old(bs.Value()), resolved[old(bs.name)], top, now, fromAP, look);
        bs.Value() == o.beacon && emitted == old(emitted) + o.events
    {
      var s := resolved[bs.name];
      var closest := bs.ClosestInPresence(s, now);
      var stickyActive := bs.currentZone != "" && WithinSticky(bs.lastArrivalTs, now, s);
      var freshest := bs.FreshestSightingTs();
      look := Look(closest, freshest);
      var forceAway := freshest.Some? && now - freshest.value > s.tAwayMaxS as real && !stickyActive;

      if closest.None? || forceAway {
        if bs.currentZone == "" {
          return;
        }
        if stickyActive && !forceAway {
          return;
        }
        var prevAP := bs.currentAP;
        var ev := Event(bs.id, bs.name, NOT_HOME, "", "", 0, 0.0, 0.0, 0.0, freshest, false, now, None, None);
        if prevAP in bs.perAP {
          var ap := bs.perAP[prevAP];
          ev := ev.(apMac := prevAP, apName := ap.apName, rssiRaw := ap.lastRSSI, rssiEwma := ap.ewma,
                    rssiEffective := Effective(ap, now, s), lastSeen := ap.lastSeenAt);
        }
        bs.currentZone, bs.currentAP := "", "";
        bs.candidateAP, bs.candidateCount := "", 0;
        Emit(ev);
        return;
      }

      var c := closest.value;
      var closestZone := Zone(top, c.key);
      if closestZone == "" {
        return;
      }
      if bs.currentZone == "" {
        bs.currentZone, bs.currentAP := closestZone, c.key;
        bs.lastArrivalTs := Some(now);
        bs.candidateAP, bs.candidateCount := "", 0;
        Emit(BuildEventFor(bs, c, now, true));
        return;
      }

      Contend(bs, s, now, fromAP, look, stickyActive);
    }

    /** The rest of recomputeOne: the closest AP against the current one, for a beacon already in a zone. */
    method Contend(bs: BeaconState, s: Resolved, now: real, fromAP: string, look: Look, stickyActive: bool)
      requires look.closest.Some? && look.closest.value.key in bs.perAP && Zone(top, look.closest.value.key) != ""
        && bs.currentZone != ""
      requires stickyActive == StickyActive(bs.Value(), now, s) && (Silent(look.freshest, now, s) ==> stickyActive)
      modifies this`emitted, bs
      ensures var o := Recompute(old(bs.Value()), s, top, now, fromAP, look);
        bs.Value() == o.beacon && emitted == old(emitted) + o.events
    {
      var c := look.closest.value;
      var closestZone := Zone(top, c.key);
      var currentOK := bs.currentAP in bs.perAP;
      var currentEff := NO_SIGNAL;
      if currentOK {
        currentEff := Effective(bs.perAP[bs.currentAP], now, s);
      }
      if !currentOK || currentEff < s.presenceFloorDbm as real {
        bs.currentZone, bs.currentAP := closestZone, c.key;
        bs.candidateAP, bs.candidateCount := "", 0;
        Emit(BuildEventFor(bs, c, now, stickyActive));
        return;
      }
      if c.key == bs.currentAP {
        bs.candidateAP, bs.candidateCount := "", 0;
        if closestZone != bs.currentZone {
          bs.currentZone := closestZone;
          Emit(BuildEventFor(bs, c, now, stickyActive));
        }
        return;
      }
      if closestZone == bs.currentZone {
        bs.candidateAP, bs.candidateCount := "", 0;
        return;
      }
      if fromAP == "" {
        return;
      }
      if c.eff - currentEff < s.hysteresisDb {
        bs.candidateAP, bs.candidateCount := "", 0;
        return;
      }
      if bs.candidateAP == c.key {
        bs.candidateCount := bs.candidateCount + 1;
      } else {
        bs.candidateAP, bs.candidateCount := c.key, 1;
      }
      if bs.candidateCount < s.confirmCount {
        return;
      }
      bs.currentZone, bs.currentAP := closestZone, c.key;
      bs.candidateAP, bs.candidateCount := "", 0;
      Emit(BuildEventFor(bs, c, now, stickyActive));
    }

    /** recomputeOne on the record of a key: no other record changes. */
    method RecomputeKey(k: BeaconKey, now: real, fromAP: string) returns (ghost look: Look)
      requires Synced() && k in beacons && model[k].name in resolved && InRange(resolved[model[k].name])
      modifies this`emitted, this`model, records
      ensures Synced()
      ensures var b := old(model)[k];
        && IsLook(b.perAP, now, resolved[b.name], look)
        && var o := Recompute(b, resolved[b.name], top, now, fromAP, look);
           model == old(model)[k := o.beacon] && emitted == old(emitted) + o.events
    {
      var bs := beacons[k];
      look := RecomputeOne(bs, now, fromAP);
      model := model[k := bs.Value()];
    }

    /** buildEvent, read off a record. */
    function BuildEventFor(bs: BeaconState, c: Closest, now: real, sticky: bool): (ev: Event)
      requires c.key in bs.perAP
      reads bs
      ensures ev == BuildEvent(bs.Value(), c, now, sticky)
    {
      var ap := bs.perAP[c.key];
      Event(bs.id, bs.name, bs.currentZone, c.key, ap.apName, ap.lastRSSI, ap.ewma, c.eff, c.gap, ap.lastSeenAt,
            sticky, now, bs.lastBatteryMV, bs.lastTemperatureC)
    }

    /** The first half of handleSighting, in place. */
    method ObserveSighting(bs: BeaconState, s: Sighting, now: real)
      requires bs.name in resolved
      modifies bs
      ensures bs.Value() == Observe(old(bs.Value()), resolved[old(bs.name)], now, s)
    {
      var apKey := Lower(s.apMac);
      var tun := resolved[bs.name];
      ghost var spec := Observe(bs.Value(), tun, now, s);
      if apKey !in bs.perAP {
        bs.perAP := bs.perAP[apKey := ApState(s.apName, s.rssi as real, s.rssi, Some(now), s.at)];
      } else {
        var ewma := tun.alpha * s.rssi as real + (1.0 - tun.alpha) * bs.perAP[apKey].ewma;
        bs.perAP := bs.perAP[apKey := ApState(s.apName, ewma, s.rssi, Some(now), s.at)];
      }
      assert bs.perAP[apKey] == spec.perAP[apKey];
      assert bs.perAP == spec.perAP;
      if s.battery.Some? {
        bs.lastBatteryMV := s.battery;
      }
      if s.temperature.Some? {
        bs.lastTemperatureC := s.temperature;
      }
    }

    method ObserveKey(s: Sighting, now: real)
      requires Synced() && s.beacon in beacons && model[s.beacon].name in resolved
      modifies this`model, records
      ensures Synced()
      ensures var b := old(model)[s.beacon];
        model == old(model)[s.beacon := Observe(b, resolved[b.name], now, s)]
    {
      var bs := beacons[s.beacon];
      ObserveSighting(bs, s, now);
      model := model[s.beacon := bs.Value()];
    }

    /** Submit: one sighting. A beacon that is not tracked is dropped. */
    method Submit(s: Sighting, now: real) returns (ghost m: Move)
      requires Valid()
      modifies this`emitted, this`model, records
      ensures Valid() && old(emitted) <= emitted
      ensures m.now == now && m.action == EngineSpec.Submit(s)
      ensures Next(old(State()), m, State(), emitted[|old(emitted)|..])
    {
      ghost var e := State();
      CoherentIsSettled(e);
      ghost var o;
      m, o := HandleSighting(s, now);
      SubmitIsMove(e, m, State(), o);
      NextKeepsCoherent(e, m, State(), o.events);
      assert o.events == emitted[|old(emitted)|..];
    }

    method HandleSighting(s: Sighting, now: real) returns (ghost m: Move, ghost o: Outcome)
      requires Synced() && Settled(State())
      modifies this`emitted, this`model, records
      ensures Synced() && emitted == old(emitted) + o.events
      ensures m.now == now && m.action == EngineSpec.Submit(s)
      ensures SightingTaken(old(State()), m, State(), o)
    {
      ghost var e := State();
      m, o := Move(now, EngineSpec.Submit(s), map[]), Outcome(NewBeacon(s.beacon, ""), []);
      if s.beacon in beacons {
        ghost var look, _ := SightKey(s, now);
        m := m.(looks := map[s.beacon := look]);
        o := SightTakes(e, m, s.beacon);
        assert model == e.beacons[s.beacon := o.beacon];
      }
    }

    /** A sighting on the record of its beacon: no other record changes. */
    method SightKey(s: Sighting, now: real) returns (ghost look: Look, ghost seen: Beacon)
      requires Synced() && s.beacon in beacons && model[s.beacon].name in resolved
      requires InRange(resolved[model[s.beacon].name])
      modifies this`emitted, this`model, records
      ensures Synced() && seen == Observe(old(model)[s.beacon], resolved[old(model)[s.beacon].name], now, s)
      ensures IsLook(seen.perAP, now, resolved[seen.name], look)
      ensures var o := Recompute(seen, resolved[seen.name], top, now, Lower(s.apMac), look);
        model == old(model)[s.beacon := o.beacon] && emitted == old(emitted) + o.events
    {
      ObserveKey(s, now);
      seen := model[s.beacon];
      look := RecomputeKey(s.beacon, now, Lower(s.apMac));
    }

    /** Tick: re-evaluate every beacon for fade-outs and sticky expiry. */
    method Tick(now: real) returns (ghost m: Move)
      requires Valid()
      modifies this`emitted, this`model, records
      ensures Valid() && old(emitted) <= emitted
      ensures m.now == now && m.action == TickAll
      ensures Next(old(State()), m, State(), emitted[|old(emitted)|..])
    {
      ghost var e := State();
      CoherentIsSettled(e);
      ghost var out, done;
      m, out, done := RecomputeAll(now);
      PassIsMove(e, m, e.beacons, State(), done, out);
      NextKeepsCoherent(e, m, State(), out);
      assert out == emitted[|old(emitted)|..];
    }

    method RecomputeAll(now: real) returns (ghost m: Move, ghost out: seq<Event>, ghost done: map<BeaconKey, Outcome>)
      requires Synced() && Settled(State())
      modifies this`emitted, this`model, records
      ensures Synced() && emitted == old(emitted) + out && m.now == now && m.action == TickAll
      ensures (forall k :: k in done <==> k in old(model)) && Pass(old(State()), m, old(model), model, done, out)
    {
      ghost var e, start := State(), emitted;
      m, out, done := Move(now, TickAll, map[]), [], map[];
      PassStarts(e, m, e.beacons);
      var todo := beacons.Keys;
      while todo != {}
        invariant m.now == now && m.action == TickAll
        invariant forall k :: (k in todo ==> k in e.beacons) && (k in done <==> k in e.beacons && k !in todo)
        invariant Synced() && emitted == start + out && Pass(e, m, e.beacons, model, done, out)
        decreases todo
      {
        var k :| k in todo;
        todo := todo - {k};
        m, out, done := TickOne(k, now, e, m, start, out, done);
      }
    }

    /** One turn of the tick loop. */
    method TickOne(
        k: BeaconKey, now: real, ghost e: EngineState, ghost m: Move, ghost start: seq<Event>, ghost out: seq<Event>,
        ghost done: map<BeaconKey, Outcome>)
      returns (ghost m': Move, ghost out': seq<Event>, ghost done': map<BeaconKey, Outcome>)
      requires Synced() && Settled(e) && e.top == top && e.resolved == resolved && m.now == now && m.action == TickAll
      requires k in beacons && k !in done && emitted == start + out && Pass(e, m, e.beacons, model, done, out)
      modifies this`emitted, this`model, records
      ensures Synced() && m'.now == now && m'.action == TickAll
      ensures forall j :: j in done' <==> j in done || j == k
      ensures emitted == start + out' && Pass(e, m', e.beacons, model, done', out')
    {
      assert PassAt(e, m, e.beacons, model, done, out, k);
      ghost var values := model;
      ghost var look := RecomputeKey(k, now, "");
      m' := m.(looks := m.looks[k := look]);
      ghost var o := TickTakes(e, m', k);
      done', out' := PassOne(e, m, m', e.beacons, values, done, start, out, k, o, emitted);
    }

    /** ApplyTunables: swap in a validated document and refresh the cache; no document, no change. */
    method ApplyTunables(u: Option<Tunables>, ghost now: real) returns (ghost m: Move)
      requires Valid() && (u.Some? ==> ValidTunables(u.value))
      modifies this`tun, this`resolved
      ensures Valid()
      ensures u.None? ==> State() == old(State())
      ensures u.Some? ==> m.now == now && m.action == EngineSpec.ApplyTunables(u.value)
      ensures u.Some? ==> Next(old(State()), m, State(), [])
    {
      m := Move(now, TickAll, map[]);
      if u.None? {
        return;
      }
      ghost var e := State();
      m := m.(action := EngineSpec.ApplyTunables(u.value));
      Reload(u.value);
      ReloadIsMove(e, m);
    }

    method Reload(u: Tunables)
      requires Synced()
      modifies this`tun, this`resolved
      ensures Synced() && State() == Configure(old(State()), EngineSpec.ApplyTunables(u))
    {
      tun := u;
      RefreshCache();
    }

    /** The loop of ApplyTunables, in whatever order the beacons come. */
    method RefreshCache()
      requires Synced()
      modifies this`resolved
      ensures resolved == old(resolved) + CacheFor(tun, set k | k in model :: model[k].name)
    {
      var todo := beacons.Keys;
      assert CacheFor(tun, NamesDone(model, todo)) == map[];
      while todo != {}
        invariant forall k | k in todo :: k in beacons
        invariant resolved == old(resolved) + CacheFor(tun, NamesDone(model, todo))
        decreases todo
      {
        var k :| k in todo;
        CacheGrows(old(resolved), tun, model, todo, k);
        todo := todo - {k};
        var bs := beacons[k];
        resolved := resolved[bs.name := ResolveFor(tun, bs.name)];
      }
      assert NamesDone(model, todo) == set k | k in model :: model[k].name;
    }

    /**
     * ApplyTopology: register and rename, evict what is no longer listed, then emit for every beacon whose closest AP
     * has another label now; no topology, no change.
     */
    method ApplyTopology(t: Option<Topology>, now: real) returns (ghost m: Move)
      requires Valid() && (t.Some? ==> ValidTopology(t.value))
      modifies this, records
      ensures Valid() && old(emitted) <= emitted && fresh(records - old(records))
      ensures t.None? ==> State() == old(State()) && emitted == old(emitted)
      ensures t.Some? ==> m.now == now && m.action == EngineSpec.ApplyTopology(t.value)
      ensures t.Some? ==> Next(old(State()), m, State(), emitted[|old(emitted)|..])
    {
      m := Move(now, TickAll, map[]);
      if t.None? {
        return;
      }
      ghost var e := State();
      Reconfigure(t.value);
      ghost var mid := State();
      ReconfiguredAwaits(e, t.value, mid);
      ghost var out, done;
      m, out, done := RelabelAll(now, e, mid);
      PassIsMove(e, m, mid.beacons, State(), done, out);
      NextKeepsCoherent(e, m, State(), out);
      assert out == emitted[|old(emitted)|..];
    }

    /** The first part of ApplyTopology: the records and the cache after registering and pruning. */
    method Reconfigure(t: Topology)
      requires Synced() && ValidTopology(t)
      modifies this`top, this`beacons, this`model, this`records, this`resolved, records
      ensures Synced() && Reconfigured(old(State()), t, State()) && fresh(records - old(records))
    {
      ghost var e := State();
      top := t;
      var keep, keepNames := Enroll(e);
      assert t.beacons[..|t.beacons|] == t.beacons;
      Evict(keep, keepNames);
      EnrolledIsReconfigured(e, t);
    }

    /** The pruning of records and of the cache. */
    method Evict(keep: set<BeaconKey>, keepNames: set<string>)
      requires Synced()
      modifies this`beacons, this`model, this`resolved
      ensures Synced() && model == Restricted(old(model), keep) && resolved == Restricted(old(resolved), keepNames)
    {
      beacons := Prune(beacons, keep);
      model := Restricted(model, keep);
      resolved := Prune(resolved, keepNames);
    }

    /** The registration loop of ApplyTopology. */
    method Enroll(ghost e: EngineState) returns (keep: set<BeaconKey>, keepNames: set<string>)
      requires Synced() && State() == e.(top := top)
      modifies this`beacons, this`model, this`records, this`resolved, records
      ensures Synced() && fresh(records - old(records))
      ensures Roll(model, resolved) == Enrolled(e, top.beacons, |top.beacons|)
      ensures Kept(top.beacons, |top.beacons|, keep, keepNames)
    {
      keep, keepNames := {}, {};
      for i := 0 to |top.beacons|
        invariant Synced() && fresh(records - old(records)) && Roll(model, resolved) == Enrolled(e, top.beacons, i)
        invariant Kept(top.beacons, i, keep, keepNames)
      {
        keep, keepNames := EnrollNext(e, i, keep, keepNames);
      }
    }

    /** One turn of the registration loop. */
    method EnrollNext(ghost e: EngineState, i: nat, keep: set<BeaconKey>, keepNames: set<string>)
      returns (keep': set<BeaconKey>, keepNames': set<string>)
      requires Synced() && e.tun == tun && i < |top.beacons| && Kept(top.beacons, i, keep, keepNames)
      requires Roll(model, resolved) == Enrolled(e, top.beacons, i)
      modifies this`beacons, this`model, this`records, this`resolved, records
      ensures Synced() && fresh(records - old(records)) && Kept(top.beacons, i + 1, keep', keepNames')
      ensures Roll(model, resolved) == Enrolled(e, top.beacons, i + 1)
    {
      var b := top.beacons[i];
      keep', keepNames' := keep + {b.key}, keepNames + {b.name};
      KeptMore(top.beacons, i, keep, keepNames);
      EnrollOne(b);
    }

    method EnrollOne(b: TrackedBeacon)
      requires Synced()
      modifies this`beacons, this`model, this`records, this`resolved, records
      ensures Synced() && fresh(records - old(records))
      ensures var values := old(model);
        model == values[b.key := if b.key in values then values[b.key].(name := b.name) else NewBeacon(b.key, b.name)]
      ensures resolved == old(resolved)[b.name := ResolveFor(tun, b.name)]
    {
      if b.key !in beacons {
        AddRecord(b.key, b.name);
      } else {
        RenameRecord(b.key, b.name);
      }
      resolved := resolved[b.name := ResolveFor(tun, b.name)];
    }

    method RenameRecord(id: BeaconKey, name: string)
      requires Synced() && id in beacons
      modifies this`model, beacons[id]
      ensures Synced() && model == old(model)[id := old(model)[id].(name := name)]
    {
      var bs := beacons[id];
      bs.name := name;
      model := model[id := bs.Value()];
    }

    /** The emit pass of ApplyTopology; e is the engine before the call. */
    method RelabelAll(now: real, ghost e: EngineState, ghost mid: EngineState)
      returns (ghost m: Move, ghost out: seq<Event>, ghost done: map<BeaconKey, Outcome>)
      requires Synced() && State() == mid && AllAwait(e, top, mid)
      modifies this`emitted, this`model, records
      ensures Synced() && emitted == old(emitted) + out && m.now == now && m.action == EngineSpec.ApplyTopology(top)
      ensures (forall k :: k in done <==> k in mid.beacons) && Pass(e, m, mid.beacons, model, done, out)
    {
      ghost var start := emitted;
      m, out, done := Move(now, EngineSpec.ApplyTopology(top), map[]), [], map[];
      PassStarts(e, m, mid.beacons);
      var todo := beacons.Keys;
      while todo != {}
        invariant m.now == now && m.action == EngineSpec.ApplyTopology(top)
        invariant forall k :: (k in todo ==> k in mid.beacons) && (k in done <==> k in mid.beacons && k !in todo)
        invariant Synced() && emitted == start + out && Pass(e, m, mid.beacons, model, done, out)
        decreases todo
      {
        var k :| k in todo;
        todo := todo - {k};
        m, out, done := RelabelOne(k, now, e, mid, m, start, out, done);
      }
    }

    /** One turn of the emit pass. */
    method RelabelOne(
        k: BeaconKey, now: real, ghost e: EngineState, ghost mid: EngineState, ghost m: Move, ghost start: seq<Event>,
        ghost out: seq<Event>, ghost done: map<BeaconKey, Outcome>)
      returns (ghost m': Move, ghost out': seq<Event>, ghost done': map<BeaconKey, Outcome>)
      requires Synced() && AllAwait(e, top, mid) && mid.resolved == resolved
      requires m.now == now && m.action == EngineSpec.ApplyTopology(top)
      requires k in mid.beacons && k !in done && emitted == start + out && Pass(e, m, mid.beacons, model, done, out)
      modifies this`emitted, this`model, records
      ensures Synced() && m'.now == now && m'.action == m.action
      ensures forall j :: j in done' <==> j in done || j == k
      ensures emitted == start + out' && Pass(e, m', mid.beacons, model, done', out')
    {
      assert Awaits(e, top, mid, k) && PassAt(e, m, mid.beacons, model, done, out, k);
      ghost var values := model;
      ghost var closest := RelabelKey(k, now);
      m' := m.(looks := m.looks[k := Look(closest, None)]);
      done', out' := RelabelPasses(e, mid, m, m', k, values, model, done, start, out, emitted);
    }

    /** The emit pass on the record of a key: no other record changes. */
    method RelabelKey(k: BeaconKey, now: real) returns (ghost closest: Option<Closest>)
      requires Synced() && k in beacons && model[k].name in resolved && InRange(resolved[model[k].name])
      modifies this`emitted, this`model, beacons[k]
      ensures Synced()
      ensures var b := old(model)[k];
        && (b.zone != "" ==> IsClosest(b.perAP, now, resolved[b.name], closest))
        && var o := Relabel(b, resolved[b.name], top, now, b.name, closest);
           model == old(model)[k := o.beacon] && emitted == old(emitted) + o.events
    {
      var bs := beacons[k];
      closest := RelabelRecord(bs, now);
      model := model[k := bs.Value()];
    }

    method RelabelRecord(bs: BeaconState, now: real) returns (closest: Option<Closest>)
      requires bs.name in resolved && InRange(resolved[bs.name])
      modifies this`emitted, bs
      ensures old(bs.currentZone) != "" ==> IsClosest(old(bs.perAP), now, resolved[old(bs.name)], closest)
      ensures var o := Relabel(old(bs.Value()), resolved[old(bs.name)], top, now, old(bs.name), closest);
        bs.Value() == o.beacon && emitted == old(emitted) + o.events
    {
      closest := None;
      if bs.currentZone == "" {
        return;
      }
      var s := resolved[bs.name];
      closest := bs.ClosestInPresence(s, now);
      if closest.None? {
        return;
      }
      var c := closest.value;
      var newZone := Zone(top, c.key);
      if newZone == "" || newZone == bs.currentZone {
        return;
      }
      bs.currentZone, bs.currentAP := newZone, c.key;
      bs.candidateAP, bs.candidateCount := "", 0;
      var stickyActive := WithinSticky(bs.lastArrivalTs, now, s);
      Emit(BuildEventFor(bs, c, now, stickyActive));
    }

    /** RepublishAll: one event per beacon, no change. */
    method RepublishAll(now: real) returns (ghost m: Move)
      requires Valid()
      modifies this`emitted
      ensures Valid() && State() == old(State()) && old(emitted) <= emitted
      ensures m.now == now && m.action == EngineSpec.RepublishAll
      ensures Next(old(State()), m, State(), emitted[|old(emitted)|..])
    {
      ghost var e := State();
      CoherentIsSettled(e);
      ghost var out;
      m, out := RepublishEach(now);
      assert out == emitted[|old(emitted)|..];
    }

    method RepublishEach(now: real) returns (ghost m: Move, ghost out: seq<Event>)
      requires Synced() && Settled(State())
      modifies this`emitted
      ensures Synced() && State() == old(State())
      ensures emitted == old(emitted) + out && m.now == now && m.action == EngineSpec.RepublishAll
      ensures Next(State(), m, State(), out)
    {
      ghost var e, start := State(), emitted;
      ghost var done: map<BeaconKey, Outcome> := map[];
      m, out := Move(now, EngineSpec.RepublishAll, map[]), [];
      PassStarts(e, m, e.beacons);
      var todo := beacons.Keys;
      while todo != {}
        invariant forall k :: (k in todo ==> k in e.beacons) && (k in done <==> k in e.beacons && k !in todo)
        invariant Synced() && emitted == start + out && Pass(e, m, e.beacons, e.beacons, done, out)
        decreases todo
      {
        var k :| k in todo;
        todo := todo - {k};
        done, out := RepublishKey(k, now, e, m, start, out, done);
      }
      PassIsMove(e, m, e.beacons, e, done, out);
    }

    /** One turn of the re-publication loop. */
    method RepublishKey(
        k: BeaconKey, now: real, ghost e: EngineState, ghost m: Move, ghost start: seq<Event>, ghost out: seq<Event>,
        ghost done: map<BeaconKey, Outcome>)
      returns (ghost done': map<BeaconKey, Outcome>, ghost out': seq<Event>)
      requires Synced() && Settled(e) && e == State() && m.now == now && m.action == EngineSpec.RepublishAll
      requires k in beacons && k !in done && emitted == start + out && Pass(e, m, e.beacons, e.beacons, done, out)
      modifies this`emitted
      ensures Synced() && forall j :: j in done' <==> j in done || j == k
      ensures emitted == start + out' && Pass(e, m, e.beacons, e.beacons, done', out')
    {
      var bs := beacons[k];
      RepublishOne(bs, now);
      ghost var o := RepublishTakes(e, m, k);
      done', out' := PassOne(e, m, m, e.beacons, e.beacons, done, start, out, k, o, emitted);
      assert e.beacons[k := o.beacon] == e.beacons;
    }

    /** The event of one record. */
    method RepublishOne(bs: BeaconState, now: real)
      modifies this`emitted
      ensures emitted == old(emitted) + [RepublishEvent(bs.Value(), now, TunFor(resolved, bs.name))]
    {
      var s := TunFor(resolved, bs.name);
      var sticky := bs.currentZone != "" && WithinSticky(bs.lastArrivalTs, now, s);
      if bs.currentZone != "" {
        if bs.currentAP in bs.perAP {
          var eff := Effective(bs.perAP[bs.currentAP], now, s);
          Emit(BuildEventFor(bs, Closest(bs.currentAP, eff, 0.0), now, sticky));
          return;
        }
        Emit(Event(bs.id, bs.name, bs.currentZone, "", "", 0, 0.0, 0.0, 0.0, None, sticky, now, bs.lastBatteryMV,
          bs.lastTemperatureC));
        return;
      }
      Emit(Event(bs.id, bs.name, NOT_HOME, "", "", 0, 0.0, 0.0, 0.0, None, false, now, bs.lastBatteryMV,
        bs.lastTemperatureC));
    }

    /** RestoreState: re-assert the zones of a persisted snapshot, silently; n counts the snapshots applied. */
    method RestoreState(snaps: seq<BeaconSnapshot>, now: real) returns (n: nat, ghost m: Move)
      requires Valid()
      modifies this`model, records
      ensures Valid() && n == Restorable(snaps, old(beacons).Keys)
      ensures m.now == now && m.action == EngineSpec.RestoreState(snaps) && Next(old(State()), m, State(), [])
    {
      ghost var e := State();
      m := Move(now, EngineSpec.RestoreState(snaps), map[]);
      n := RestoreEach(snaps, now);
      RestoreIsMove(e, m, State());
      NextKeepsCoherent(e, m, State(), []);
    }

    method RestoreEach(snaps: seq<BeaconSnapshot>, now: real) returns (n: nat)
      requires Synced()
      modifies this`model, records
      ensures Synced() && AllRestored(old(model), model, snaps, now) && n == Restorable(snaps, beacons.Keys)
    {
      ghost var before := model;
      n := 0;
      RestoreNone(before, now);
      for i := 0 to |snaps|
        invariant Synced() && AllRestored(before, model, snaps[..i], now) && n == Restorable(snaps[..i], beacons.Keys)
      {
        var sn := snaps[i];
        assert snaps[..i + 1] == snaps[..i] + [sn];
        RestoreMore(before, model, snaps[..i], sn, now);
        if sn.beacon !in beacons || sn.zone == "" {
          continue;
        }
        RestoreKey(sn, now);
        n := n + 1;
      }
      assert snaps[..|snaps|] == snaps;
    }

    method RestoreKey(sn: BeaconSnapshot, now: real)
      requires Synced() && sn.beacon in beacons
      modifies this`model, beacons[sn.beacon]
      ensures Synced()
      ensures model == old(model)[sn.beacon := old(model)[sn.beacon].(zone := sn.zone, ap := sn.ap,
        lastArrival := Some(now))]
    {
      var bs := beacons[sn.beacon];
      Reassert(bs, sn, now);
      model := model[sn.beacon := bs.Value()];
    }

    method Reassert(bs: BeaconState, sn: BeaconSnapshot, now: real)
      modifies bs
      ensures bs.Value() == old(bs.Value()).(zone := sn.zone, ap := sn.ap, lastArrival := Some(now))
    {
      bs.currentZone := sn.zone;
      bs.currentAP := sn.ap;
      bs.lastArrivalTs := Some(now);
    }

    /** IsTracked: whether the beacon is on the current allowlist, and the name the allowlist gives it. */
    method IsTracked(b: BeaconKey) returns (name: string, ok: bool)
      requires Valid()
      ensures ok <==> b in Keys(top.beacons)
      ensures name == if ok then NameOf(top, b) else ""
    {
      if b !in beacons {
        return "", false;
      }
      return beacons[b].name, true;
    }

    /** Snapshot: one entry per tracked beacon, in whatever order the map yields them. */
    method Snapshot(now: real) returns (snaps: seq<BeaconSnapshot>)
      requires Valid()
      ensures IsSnapshot(State(), now, snaps)
    {
      ghost var e := State();
      snaps := [];
      var todo := beacons.Keys;
      assert todo == e.beacons.Keys;
      SnapshotStarts(e, now);
      while todo != {}
        invariant SnapshotSoFar(e, now, todo, snaps)
        decreases todo
      {
        var k :| k in todo;
        SnapshotMore(e, now, todo, snaps, k);
        todo := todo - {k};
        var aps := beacons[k].SnapshotAPs(TunFor(resolved, beacons[k].name), now);
        snaps := snaps + [SnapshotRecord(k, now, aps)];
      }
      SnapshotEnds(e, now, snaps);
    }

    /** One entry of a snapshot, read off the record of a key. */
    function SnapshotRecord(k: BeaconKey, now: real, aps: map<string, ApSnapshot>): (sn: BeaconSnapshot)
      requires Synced() && k in beacons && aps == ApSnapshots(model[k].perAP, now, TunFor(resolved, model[k].name))
      reads this`top, this`tun, this`resolved, this`beacons, this`model, this`records, records
      ensures sn == SnapshotOf(State(), now, k)
    {
      var bs := beacons[k];
      var s := TunFor(resolved, bs.name);
      var sticky := bs.currentZone != "" && WithinSticky(bs.lastArrivalTs, now, s);
      BeaconSnapshot(k, bs.name, bs.currentZone, bs.currentAP, bs.lastArrivalTs, sticky, aps, bs.lastBatteryMV,
        bs.lastTemperatureC)
    }
  }
}
