/**
 * Passes over the beacons, on values: what a loop that visits them one at a time, in any order, has done so far,
 * and why a finished pass is a move of the engine.
 */
module EnginePasses {
  import opened Text
  import opened Identity
  import opened Tunables
  import opened Topology
  import opened Presence
  import opened EngineSpec

  /** A step took a beacon from b to b' and emitted evs. */
  ghost predicate Did(b: Beacon, step: Step, b': Beacon, evs: seq<Event>) {
    Enabled(b, step) && Apply(b, step) == Outcome(b', evs)
  }

  /** Events of one beacon do not show in another's projection. */
  lemma ProjectExtend(out: seq<Event>, evs: seq<Event>, id: BeaconKey, k: BeaconKey)
    requires OwnEvents(id, evs)
    ensures Project(out + evs, k) == if k == id then Project(out, k) + evs else Project(out, k)
  {
    if evs == [] {
      assert out + evs == out;
    } else {
      assert evs == [evs[0]];
      ProjectSnoc(out, evs[0], k);
    }
  }

  /**
   * A pass over the beacons, seen at key k: a beacon it has reached is as its outcome says and has emitted the
   * outcome's events; any other is as it was and has emitted none.
   */
  ghost predicate SweptAt(
      before: map<BeaconKey, Beacon>, after: map<BeaconKey, Beacon>, done: map<BeaconKey, Outcome>, out: seq<Event>,
      k: BeaconKey)
  {
    && (k in after <==> k in before)
    && (k in done ==> k in before)
    && (if k in done then after[k] == done[k].beacon && Project(out, k) == done[k].events
        else Project(out, k) == [] && (k in before ==> after[k] == before[k]))
  }

  /** At most one event, of this beacon. */
  predicate OwnEvents(k: BeaconKey, evs: seq<Event>) {
    |evs| <= 1 && forall i | 0 <= i < |evs| :: evs[i].beacon == k
  }

  /** A pass of a call over the beacons, seen at key k: if reached, it took the step that the call is to it. */
  ghost predicate PassAt(
      e: EngineState, m: Move, before: map<BeaconKey, Beacon>, after: map<BeaconKey, Beacon>,
      done: map<BeaconKey, Outcome>, out: seq<Event>, k: BeaconKey)
  {
    && SweptAt(before, after, done, out, k)
    && (k in done ==> TrackedAfter(e, m.action, k) && StepTaken(e, m, k, done[k]))
  }

  ghost predicate Pass(
      e: EngineState, m: Move, before: map<BeaconKey, Beacon>, after: map<BeaconKey, Beacon>,
      done: map<BeaconKey, Outcome>, out: seq<Event>)
  {
    forall k :: PassAt(e, m, before, after, done, out, k)
  }

  ghost predicate StepTaken(e: EngineState, m: Move, k: BeaconKey, o: Outcome)
    requires TrackedAfter(e, m.action, k)
  {
    Did(Before(e, m.action, k), StepFor(e, m, k), o.beacon, o.events)
  }

  /** The same call, except for what the scans answered for beacon k. */
  ghost predicate DiffersAt(m: Move, m': Move, k: BeaconKey) {
    m'.now == m.now && m'.action == m.action && forall j | j != k :: LookFor(m', j) == LookFor(m, j)
  }

  /** Recording what the scans answered for one beacon changes no other beacon's step. */
  lemma StepsKeep(e: EngineState, m: Move, m': Move, k: BeaconKey, j: BeaconKey)
    requires j != k && TrackedAfter(e, m.action, j) && DiffersAt(m, m', k)
    ensures TrackedAfter(e, m'.action, j) && StepFor(e, m', j) == StepFor(e, m, j)
  {
  }

  lemma PassOneAt(
      e: EngineState, m: Move, m': Move, before: map<BeaconKey, Beacon>, after: map<BeaconKey, Beacon>,
      done: map<BeaconKey, Outcome>, out: seq<Event>, k: BeaconKey, o: Outcome, j: BeaconKey)
    requires PassAt(e, m, before, after, done, out, j) && k in before && k !in done && OwnEvents(k, o.events)
    requires DiffersAt(m, m', k) && TrackedAfter(e, m'.action, k) && StepTaken(e, m', k, o)
    ensures PassAt(e, m', before, after[k := o.beacon], done[k := o], out + o.events, j)
  {
    ProjectExtend(out, o.events, k, j);
    if j == k {
      assert [] + o.events == o.events;
    } else if j in done {
      StepsKeep(e, m, m', k, j);
    }
  }

  lemma PassExtends(
      e: EngineState, m: Move, m': Move, before: map<BeaconKey, Beacon>, after: map<BeaconKey, Beacon>,
      done: map<BeaconKey, Outcome>, out: seq<Event>, k: BeaconKey, o: Outcome)
    requires Pass(e, m, before, after, done, out) && k in before && k !in done && OwnEvents(k, o.events)
    requires DiffersAt(m, m', k) && TrackedAfter(e, m'.action, k) && StepTaken(e, m', k, o)
    ensures Pass(e, m', before, after[k := o.beacon], done[k := o], out + o.events)
  {
    var after', done', out' := after[k := o.beacon], done[k := o], out + o.events;
    forall j
      ensures PassAt(e, m', before, after', done', out', j)
    {
      assert PassAt(e, m, before, after, done, out, j);
      PassOneAt(e, m, m', before, after, done, out, k, o, j);
    }
  }

  /** Reaching one more beacon: the records, the log and the pass go on together. */
  lemma PassOne(
      e: EngineState, m: Move, m': Move, before: map<BeaconKey, Beacon>, after: map<BeaconKey, Beacon>,
      done: map<BeaconKey, Outcome>, start: seq<Event>, out: seq<Event>, k: BeaconKey, o: Outcome, log: seq<Event>)
    returns (done': map<BeaconKey, Outcome>, out': seq<Event>)
    requires Pass(e, m, before, after, done, out) && k in before && k !in done && OwnEvents(k, o.events)
    requires DiffersAt(m, m', k) && TrackedAfter(e, m'.action, k) && StepTaken(e, m', k, o)
      && log == (start + out) + o.events
    ensures Pass(e, m', before, after[k := o.beacon], done', out') && log == start + out'
    ensures forall j :: j in done' <==> j in done || j == k
  {
    PassExtends(e, m, m', before, after, done, out, k, o);
    done', out' := done[k := o], out + o.events;
    assert log == start + out';
  }

  lemma PassStarts(e: EngineState, m: Move, before: map<BeaconKey, Beacon>)
    ensures Pass(e, m, before, before, map[], [])
  {
  }

  /** A pass that reached every tracked beacon is a move of the engine. */
  lemma PassIsMove(
      e: EngineState, m: Move, before: map<BeaconKey, Beacon>, e': EngineState, done: map<BeaconKey, Outcome>,
      out: seq<Event>)
    requires Pass(e, m, before, e'.beacons, done, out)
    requires forall k :: (k in done <==> k in before) && (k in before <==> TrackedAfter(e, m.action, k))
    requires var c := Configure(e, m.action);
      e'.top == c.top && e'.tun == c.tun && e'.resolved == c.resolved
    ensures Next(e, m, e', out)
  {
    forall k
      ensures k in e'.beacons <==> TrackedAfter(e, m.action, k)
      ensures k in e'.beacons ==> BeaconMoves(e, m, e', out, k)
      ensures k !in e'.beacons ==> Project(out, k) == []
    {
      assert PassAt(e, m, before, e'.beacons, done, out, k);
      assert k in done <==> k in before;
    }
  }

  /** Every beacon has its own key and in-range settings in the cache. */
  ghost predicate Settled(e: EngineState) {
    forall k | k in e.beacons ::
      e.beacons[k].id == k && e.beacons[k].name in e.resolved && InRange(e.resolved[e.beacons[k].name])
  }

  lemma CoherentIsSettled(e: EngineState)
    requires Coherent(e)
    ensures Settled(e)
  {
    CoherentNames(e);
    forall k | k in e.beacons
      ensures e.beacons[k].name in e.resolved && InRange(e.resolved[e.beacons[k].name])
    {
      CoherentSettings(e, k);
      assert e.beacons[k].name in (set j | j in e.beacons :: e.beacons[j].name);
    }
  }

  /** A sighting took its step on its own beacon, if that is tracked, and touched nothing else. */
  ghost predicate SightingTaken(e: EngineState, m: Move, e': EngineState, o: Outcome) {
    && m.action.Submit?
    && var k := m.action.s.beacon;
       if k in e.beacons
       then TrackedAfter(e, m.action, k) && StepTaken(e, m, k, o) && OwnEvents(k, o.events)
         && e' == e.(beacons := e.beacons[k := o.beacon])
       else o.events == [] && e' == e
  }

  /** What a tick does to a beacon, given what the scans answered. */
  lemma TickTakes(e: EngineState, m: Move, k: BeaconKey) returns (o: Outcome)
    requires Settled(e) && k in e.beacons && m.action == TickAll && k in m.looks
    requires IsLook(e.beacons[k].perAP, m.now, TunFor(e.resolved, e.beacons[k].name), m.looks[k])
    ensures TrackedAfter(e, m.action, k) && StepTaken(e, m, k, o) && OwnEvents(k, o.events)
    ensures var look := m.looks[k];
      && (look.closest.Some? ==> look.closest.value.key in e.beacons[k].perAP)
      && o == Recompute(e.beacons[k], TunFor(e.resolved, e.beacons[k].name), e.top, m.now, "", look)
  {
    o := Apply(e.beacons[k], StepFor(e, m, k));
    EventsAreOwn(e.beacons[k], StepFor(e, m, k));
  }

  /** The engine after registering the first i entries of the allowlist. */
  ghost function FreshState(t: Topology, u: Tunables, i: nat): EngineState
    requires i <= |t.beacons|
  {
    if i == 0 then EngineState(t, u, map[], map[])
    else
      var e, b := FreshState(t, u, i - 1), t.beacons[i - 1];
      e.(beacons := e.beacons[b.key := NewBeacon(b.key, b.name)],
        resolved := e.resolved[b.name := ResolveFor(u, b.name)])
  }

  /** It tracks exactly these entries, each with a fresh record under its own name and its resolved settings. */
  lemma {:induction false} FreshStateHolds(t: Topology, u: Tunables, i: nat)
    requires i <= |t.beacons|
    ensures var e := FreshState(t, u, i);
      && e.top == t && e.tun == u && e.resolved == CacheFor(u, Names(t.beacons[..i]))
        && e.beacons.Keys == Keys(t.beacons[..i])
      && forall k | k in e.beacons :: FreshEntry(t, e, k)
  {
    if i > 0 {
      FreshStateHolds(t, u, i - 1);
      var e, e' := FreshState(t, u, i - 1), FreshState(t, u, i);
      assert t.beacons[..i] == t.beacons[..i - 1] + [t.beacons[i - 1]];
      assert t.beacons[i - 1] in t.beacons;
      forall k | k in e'.beacons
        ensures FreshEntry(t, e', k)
      {
        assert k == t.beacons[i - 1].key || FreshEntry(t, e, k);
      }
    }
  }

  ghost predicate FreshEntry(t: Topology, e: EngineState, k: BeaconKey)
    requires k in e.beacons
  {
    exists b | b in t.beacons :: b.key == k && e.beacons[k] == NewBeacon(k, b.name)
  }

  lemma FreshStateIsInit(t: Topology, u: Tunables)
    requires ValidTopology(t) && ValidTunables(u)
    ensures var e := FreshState(t, u, |t.beacons|);
      Init(e, t, u) && Coherent(e)
  {
    var e := FreshState(t, u, |t.beacons|);
    FreshStateHolds(t, u, |t.beacons|);
    assert t.beacons[..|t.beacons|] == t.beacons;
    forall k | k in e.beacons
      ensures e.beacons[k] == NewBeacon(k, NameOf(t, k))
    {
      assert FreshEntry(t, e, k);
      var b :| b in t.beacons && b.key == k && e.beacons[k] == NewBeacon(k, b.name);
      NameOfEntry(t, b);
    }
    InitIsCoherent(e, t, u);
  }

  lemma EventsAreOwn(b: Beacon, step: Step)
    requires Enabled(b, step)
    ensures OwnEvents(b.id, Apply(b, step).events)
  {
    ApplyKeepsIdentity(b, step);
  }

  /** What a sighting does to its beacon, given what the scans answered after it was recorded. */
  lemma SightTakes(e: EngineState, m: Move, k: BeaconKey) returns (o: Outcome)
    requires Settled(e) && k in e.beacons && m.action.Submit? && m.action.s.beacon == k && k in m.looks
    requires var tun := TunFor(e.resolved, e.beacons[k].name);
      IsLook(Observe(e.beacons[k], tun, m.now, m.action.s).perAP, m.now, tun, m.looks[k])
    ensures TrackedAfter(e, m.action, k) && StepTaken(e, m, k, o) && OwnEvents(k, o.events)
    ensures var look, tun := m.looks[k], TunFor(e.resolved, e.beacons[k].name);
      var seen := Observe(e.beacons[k], tun, m.now, m.action.s);
      && (look.closest.Some? ==> look.closest.value.key in seen.perAP)
      && o == Recompute(seen, tun, e.top, m.now, Lower(m.action.s.apMac), look)
  {
    o := Apply(e.beacons[k], StepFor(e, m, k));
    EventsAreOwn(e.beacons[k], StepFor(e, m, k));
  }

  /** A beacon the sighting is not for takes an idle step. */
  lemma OthersIdle(e: EngineState, m: Move, k: BeaconKey)
    requires k in e.beacons && m.action.Submit? && m.action.s.beacon != k
    ensures TrackedAfter(e, m.action, k) && StepTaken(e, m, k, Outcome(e.beacons[k], []))
  {
  }

  /** A sighting moves its beacon, if tracked, and nothing else. */
  lemma SubmitIsMove(e: EngineState, m: Move, e': EngineState, o: Outcome)
    requires SightingTaken(e, m, e', o)
    ensures Next(e, m, e', o.events)
  {
    forall j
      ensures j in e'.beacons <==> TrackedAfter(e, m.action, j)
      ensures j in e'.beacons ==> BeaconMoves(e, m, e', o.events, j)
      ensures j !in e'.beacons ==> Project(o.events, j) == []
    {
      SubmitMovesOne(e, m, e', o, j);
    }
  }

  lemma SubmitMovesOne(e: EngineState, m: Move, e': EngineState, o: Outcome, j: BeaconKey)
    requires SightingTaken(e, m, e', o)
    ensures j in e'.beacons <==> TrackedAfter(e, m.action, j)
    ensures j in e'.beacons ==> BeaconMoves(e, m, e', o.events, j)
    ensures j !in e'.beacons ==> Project(o.events, j) == []
  {
    var k := m.action.s.beacon;
    ProjectExtend([], o.events, k, j);
    assert [] + o.events == o.events;
    if j in e.beacons && j != k {
      OthersIdle(e, m, j);
    }
  }
}
