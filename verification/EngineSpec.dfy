/**
 * The whole engine as a transition relation over its state: every entry point, for all beacons at once, with the
 * emitted events in whatever order the beacon map was walked. Runs of the engine project onto runs of each beacon.
 */
module EngineSpec {
  import opened Wrappers
  import opened Text
  import opened Identity
  import opened Tunables
  import opened Topology
  import opened Presence
  import opened PresenceRuns

  datatype EngineState = EngineState(
    top: Topology, tun: Tunables, resolved: map<string, Resolved>, beacons: map<BeaconKey, Beacon>)

  /** What Snapshot exposes of a beacon; its APs are listed under their addresses, in no order. */
  datatype BeaconSnapshot = BeaconSnapshot(
    beacon: BeaconKey, name: string, zone: string, ap: string, lastArrival: Option<real>, sticky: bool,
    aps: map<string, ApSnapshot>, battery: Option<int>, temperature: Option<real>)

  datatype Action =
    | Submit(s: Sighting)
    | TickAll
    | ApplyTunables(tun: Tunables)
    | ApplyTopology(top: Topology)
    | RepublishAll
    | RestoreState(snaps: seq<BeaconSnapshot>)

  /** One call: when, what, and what the scans over each beacon's AP map answered. */
  datatype Move = Move(now: real, action: Action, looks: map<BeaconKey, Look>)

  /** A lookup in the resolved cache. */
  function TunFor(resolved: map<string, Resolved>, name: string): Resolved {
    if name in resolved then resolved[name] else ZERO_SETTINGS
  }

  function LookFor(m: Move, k: BeaconKey): Look {
    if k in m.looks then m.looks[k] else Look(None, None)
  }

  /** The name the allowlist gives a key. */
  ghost function NameOf(top: Topology, k: BeaconKey): string
    requires k in Keys(top.beacons)
  {
    var b :| b in top.beacons && b.key == k;
    b.name
  }

  lemma NameOfEntry(top: Topology, b: TrackedBeacon)
    requires WellFormed(top.beacons) && b in top.beacons
    ensures NameOf(top, b.key) == b.name
  {
    var c :| c in top.beacons && c.key == b.key && c.name == NameOf(top, b.key);
    var i :| 0 <= i < |top.beacons| && top.beacons[i] == b;
    var j :| 0 <= j < |top.beacons| && top.beacons[j] == c;
    assert i == j;
  }

  function CacheFor(tun: Tunables, names: set<string>): map<string, Resolved> {
    map n | n in names :: ResolveFor(tun, n)
  }

  /** The configuration after an action: which document, which map, and the refreshed cache. */
  function Configure(e: EngineState, a: Action): EngineState {
    match a
    case ApplyTunables(tun) =>
      e.(tun := tun, resolved := e.resolved + CacheFor(tun, set k | k in e.beacons :: e.beacons[k].name))
    case ApplyTopology(top) => e.(top := top, resolved := CacheFor(e.tun, Names(top.beacons)))
    case _ => e
  }

  /** The snapshot RestoreState ends up applying to a beacon: the last one for it that names a zone. */
  function LastSnapshot(snaps: seq<BeaconSnapshot>, k: BeaconKey): Option<BeaconSnapshot> {
    if snaps == [] then None
    else
      var sn := snaps[|snaps| - 1];
      if sn.beacon == k && sn.zone != "" then Some(sn) else LastSnapshot(snaps[..|snaps| - 1], k)
  }

  ghost predicate TrackedAfter(e: EngineState, a: Action, k: BeaconKey) {
    if a.ApplyTopology? then k in Keys(a.top.beacons) else k in e.beacons
  }

  /** A tracked beacon as an action finds it: a newly listed one starts fresh. */
  ghost function Before(e: EngineState, a: Action, k: BeaconKey): Beacon
    requires TrackedAfter(e, a, k)
  {
    if k in e.beacons then e.beacons[k] else NewBeacon(k, NameOf(a.top, k))
  }

  /** What a call is to one beacon. */
  ghost function StepFor(e: EngineState, m: Move, k: BeaconKey): Step
    requires TrackedAfter(e, m.action, k)
  {
    var b, resolved := Before(e, m.action, k), Configure(e, m.action).resolved;
    match m.action
    case Submit(s) => (if s.beacon == k then Sight(m.now, TunFor(resolved, b.name), e.top, s, LookFor(m, k))
      else Idle(m.now))
    case TickAll => Tick(m.now, TunFor(resolved, b.name), e.top, LookFor(m, k))
    case ApplyTunables(_) => Idle(m.now)
    case ApplyTopology(top) =>
      Retop(m.now, TunFor(resolved, NameOf(top, k)), top, NameOf(top, k), LookFor(m, k).closest)
    case RepublishAll => Republish(m.now, TunFor(resolved, b.name))
    case RestoreState(snaps) =>
      var sn := LastSnapshot(snaps, k);
      if sn.Some? then Restore(m.now, sn.value.zone, sn.value.ap) else Idle(m.now)
  }

  /** The events of one beacon, in order. */
  function Project(events: seq<Event>, k: BeaconKey): seq<Event> {
    if events == [] then []
    else
      var last := events[|events| - 1];
      Project(events[..|events| - 1], k) + (if last.beacon == k then [last] else [])
  }

  lemma ProjectSnoc(events: seq<Event>, ev: Event, k: BeaconKey)
    ensures Project(events + [ev], k) == Project(events, k) + (if ev.beacon == k then [ev] else [])
  {
    assert (events + [ev])[..|events|] == events;
  }

  lemma {:induction false} ProjectConcat(a: seq<Event>, b: seq<Event>, k: BeaconKey)
    ensures Project(a + b, k) == Project(a, k) + Project(b, k)
  {
    if b == [] {
      assert a + b == a;
    } else {
      var n := |b| - 1;
      ProjectConcat(a, b[..n], k);
      ProjectSnoc(a + b[..n], b[n], k);
      assert a + b == (a + b[..n]) + [b[n]];
    }
  }

  /** One beacon's share of a call. */
  ghost predicate BeaconMoves(e: EngineState, m: Move, e': EngineState, out: seq<Event>, k: BeaconKey)
    requires TrackedAfter(e, m.action, k) && k in e'.beacons
  {
    var b, step := Before(e, m.action, k), StepFor(e, m, k);
    Enabled(b, step) && Apply(b, step) == Outcome(e'.beacons[k], Project(out, k))
  }

  /** The engine's transition relation: a call m takes e to e' and emits out. */
  ghost predicate Next(e: EngineState, m: Move, e': EngineState, out: seq<Event>) {
    var c := Configure(e, m.action);
    && e'.top == c.top && e'.tun == c.tun && e'.resolved == c.resolved
    && (forall k :: k in e'.beacons <==> TrackedAfter(e, m.action, k))
    && (forall k | k in e'.beacons :: BeaconMoves(e, m, e', out, k))
    && (forall k | k !in e'.beacons :: Project(out, k) == [])
  }

  /** A freshly constructed engine. */
  ghost predicate Init(e: EngineState, top: Topology, tun: Tunables) {
    && e.top == top && e.tun == tun && e.resolved == CacheFor(tun, Names(top.beacons))
    && e.beacons.Keys == Keys(top.beacons)
    && forall k | k in e.beacons :: e.beacons[k] == NewBeacon(k, NameOf(top, k))
  }

  // ------------------------------------------------------------ coherence

  /** Configuration arrives validated. */
  predicate Legal(a: Action) {
    && (a.ApplyTunables? ==> ValidTunables(a.tun))
    && (a.ApplyTopology? ==> ValidTopology(a.top))
  }

  /**
   * The tracked beacons are exactly the allowlist, under its names, and the cache holds exactly their names with the
   * values that resolving each name yields now.
   */
  ghost predicate Coherent(e: EngineState) {
    && ValidTopology(e.top) && ValidTunables(e.tun)
    && e.beacons.Keys == Keys(e.top.beacons)
    && (forall k | k in e.beacons :: e.beacons[k].id == k && e.beacons[k].name == NameOf(e.top, k))
    && e.resolved == CacheFor(e.tun, Names(e.top.beacons))
  }

  lemma ApplyKeepsIdentity(b: Beacon, step: Step)
    requires Enabled(b, step)
    ensures var b' := Apply(b, step).beacon;
      b'.id == b.id && b'.name == if step.Retop? then step.name else b.name
    ensures |Apply(b, step).events| <= 1 && forall ev | ev in Apply(b, step).events :: ev.beacon == b.id
  {
    match step
    case Sight(now, tun, top, s, look) => RecomputeKeeps(Observe(b, tun, now, s), tun, top, now, Lower(s.apMac), look);
    case Tick(now, tun, top, look) => RecomputeKeeps(b, tun, top, now, "", look);
    case _ =>
  }

  lemma CoherentNames(e: EngineState)
    requires ValidTopology(e.top) && e.beacons.Keys == Keys(e.top.beacons)
    requires forall k | k in e.beacons :: e.beacons[k].name == NameOf(e.top, k)
    ensures (set k | k in e.beacons :: e.beacons[k].name) == Names(e.top.beacons)
  {
    forall b | b in e.top.beacons
      ensures b.key in e.beacons && e.beacons[b.key].name == b.name
    {
      NameOfEntry(e.top, b);
    }
    forall k | k in e.beacons
      ensures e.beacons[k].name in Names(e.top.beacons)
    {
      var b :| b in e.top.beacons && b.key == k && b.name == NameOf(e.top, k);
    }
  }

  lemma InitIsCoherent(e: EngineState, top: Topology, tun: Tunables)
    requires Init(e, top, tun) && ValidTopology(top) && ValidTunables(tun)
    ensures Coherent(e)
  {
  }

  /** A call renames a beacon only by applying a topology. */
  lemma MoveKeepsIdentity(e: EngineState, m: Move, e': EngineState, out: seq<Event>, k: BeaconKey)
    requires TrackedAfter(e, m.action, k) && k in e'.beacons && BeaconMoves(e, m, e', out, k)
    ensures var b := Before(e, m.action, k);
      && e'.beacons[k].id == b.id
      && e'.beacons[k].name == if m.action.ApplyTopology? then NameOf(m.action.top, k) else b.name
  {
    var b, step := Before(e, m.action, k), StepFor(e, m, k);
    assert step.Retop? <==> m.action.ApplyTopology?;
    ApplyKeepsIdentity(b, step);
  }

  lemma NextNames(e: EngineState, m: Move, e': EngineState, out: seq<Event>, k: BeaconKey)
    requires Coherent(e) && Next(e, m, e', out) && k in e'.beacons
    ensures e'.beacons[k].id == k && e'.beacons[k].name == NameOf(e'.top, k)
  {
    assert TrackedAfter(e, m.action, k) && BeaconMoves(e, m, e', out, k);
    MoveKeepsIdentity(e, m, e', out, k);
  }

  /** The cache after a call holds the allowlist's names with the values they now resolve to. */
  lemma ConfigureKeepsCache(e: EngineState, a: Action)
    requires Coherent(e)
    ensures var c := Configure(e, a);
      c.resolved == CacheFor(c.tun, Names(c.top.beacons))
  {
    CoherentNames(e);
  }

  lemma NextTracksAllowlist(e: EngineState, m: Move, e': EngineState, out: seq<Event>)
    requires Coherent(e) && Legal(m.action) && Next(e, m, e', out)
    ensures e'.beacons.Keys == Keys(e'.top.beacons) && ValidTopology(e'.top) && ValidTunables(e'.tun)
  {
    forall k
      ensures k in e'.beacons <==> k in Keys(e'.top.beacons)
    {
      assert k in e'.beacons <==> TrackedAfter(e, m.action, k);
    }
  }

  /** Coherence is kept by every call: renames, name swaps, promotions, demotions and reloads included. */
  lemma NextKeepsCoherent(e: EngineState, m: Move, e': EngineState, out: seq<Event>)
    requires Coherent(e) && Legal(m.action) && Next(e, m, e', out)
    ensures Coherent(e')
  {
    NextTracksAllowlist(e, m, e', out);
    assert forall k | k in e'.beacons :: e'.beacons[k].id == k && e'.beacons[k].name == NameOf(e'.top, k) by {
      forall k | k in e'.beacons
        ensures e'.beacons[k].id == k && e'.beacons[k].name == NameOf(e'.top, k)
      {
        NextNames(e, m, e', out, k);
      }
    }
    assert e'.resolved == CacheFor(e'.tun, Names(e'.top.beacons)) by {
      ConfigureKeepsCache(e, m.action);
    }
  }

  /** In a coherent state every beacon's settings are the resolved ones, and in range. */
  lemma CoherentSettings(e: EngineState, k: BeaconKey)
    requires Coherent(e) && k in e.beacons
    ensures TunFor(e.resolved, e.beacons[k].name) == ResolveFor(e.tun, e.beacons[k].name)
    ensures InRange(TunFor(e.resolved, e.beacons[k].name))
  {
    CoherentNames(e);
    assert e.beacons[k].name in (set j | j in e.beacons :: e.beacons[j].name);
    ValidIffResolvesInRange(e.tun);
  }

  // --------------------------------------------------------------- traces

  /** A run of the engine: states, calls, and what each call emitted. */
  datatype Trace = Trace(states: seq<EngineState>, moves: seq<Move>, outs: seq<seq<Event>>)

  ghost predicate MoveAt(tr: Trace, i: nat)
    requires i < |tr.moves| && |tr.states| == |tr.moves| + 1 && |tr.outs| == |tr.moves|
  {
    Legal(tr.moves[i].action) && Next(tr.states[i], tr.moves[i], tr.states[i + 1], tr.outs[i])
  }

  ghost predicate ValidTrace(tr: Trace) {
    && |tr.states| == |tr.moves| + 1 && |tr.outs| == |tr.moves|
    && Coherent(tr.states[0])
    && (forall i | 0 <= i < |tr.moves| :: MoveAt(tr, i))
    && (forall i, j | 0 <= i <= j < |tr.moves| :: tr.moves[i].now <= tr.moves[j].now)
  }

  /** Cache coherence in every reachable state. */
  lemma {:induction false} AlwaysCoherent(tr: Trace, n: nat)
    requires ValidTrace(tr) && n <= |tr.moves|
    ensures Coherent(tr.states[n])
  {
    if n > 0 {
      AlwaysCoherent(tr, n - 1);
      assert MoveAt(tr, n - 1);
      NextKeepsCoherent(tr.states[n - 1], tr.moves[n - 1], tr.states[n], tr.outs[n - 1]);
    }
  }

  /** The beacon is on the allowlist throughout. */
  ghost predicate TrackedThroughout(tr: Trace, k: BeaconKey) {
    forall i | 0 <= i < |tr.states| :: k in tr.states[i].beacons
  }

  lemma TrackedMove(tr: Trace, k: BeaconKey, i: nat)
    requires ValidTrace(tr) && TrackedThroughout(tr, k) && i < |tr.moves|
    ensures TrackedAfter(tr.states[i], tr.moves[i].action, k)
    ensures Before(tr.states[i], tr.moves[i].action, k) == tr.states[i].beacons[k]
    ensures BeaconMoves(tr.states[i], tr.moves[i], tr.states[i + 1], tr.outs[i], k)
  {
    assert MoveAt(tr, i);
    assert k in tr.states[i + 1].beacons;
  }

  ghost predicate StepFollows(tr: Trace, k: BeaconKey, r: Run, i: nat)
    requires i < |tr.moves| == |r.steps| && |tr.states| == |tr.moves| + 1
  {
    TrackedAfter(tr.states[i], tr.moves[i].action, k) && r.steps[i] == StepFor(tr.states[i], tr.moves[i], k)
  }

  /** The run that one beacon goes through in a trace of the engine. */
  ghost predicate Follows(tr: Trace, k: BeaconKey, r: Run) {
    && ValidTrace(tr) && TrackedThroughout(tr, k)
    && |r.states| == |tr.states| && |r.steps| == |tr.moves|
    && (forall i | 0 <= i < |r.states| :: r.states[i] == tr.states[i].beacons[k])
    && (forall i | 0 <= i < |r.steps| :: StepFollows(tr, k, r, i))
  }

  /** Every tracked beacon has such a run. */
  lemma RunOf(tr: Trace, k: BeaconKey) returns (r: Run)
    requires ValidTrace(tr) && TrackedThroughout(tr, k)
    ensures Follows(tr, k, r)
  {
    forall i: nat | i < |tr.moves|
      ensures TrackedAfter(tr.states[i], tr.moves[i].action, k)
    {
      TrackedMove(tr, k, i);
    }
    r := Run(seq(|tr.states|, i requires 0 <= i < |tr.states| => tr.states[i].beacons[k]),
             seq(|tr.moves|, i requires 0 <= i < |tr.moves| => StepFor(tr.states[i], tr.moves[i], k)));
    forall i | 0 <= i < |r.steps|
      ensures StepFollows(tr, k, r, i)
    {
    }
  }

  lemma StepNow(e: EngineState, m: Move, k: BeaconKey)
    requires TrackedAfter(e, m.action, k)
    ensures StepFor(e, m, k).now == m.now
  {
  }

  lemma FollowsStep(tr: Trace, k: BeaconKey, r: Run, i: nat)
    requires Follows(tr, k, r) && i < |tr.moves|
    ensures StepAt(r, i) && r.steps[i].now == tr.moves[i].now
    ensures Apply(r.states[i], r.steps[i]).events == Project(tr.outs[i], k)
  {
    assert StepFollows(tr, k, r, i);
    TrackedMove(tr, k, i);
    StepNow(tr.states[i], tr.moves[i], k);
  }

  /** A trace of the engine is, for each tracked beacon, a valid run of its state machine, at the same times. */
  lemma FollowsIsValid(tr: Trace, k: BeaconKey, r: Run)
    requires Follows(tr, k, r)
    ensures ValidRun(r) && forall i | 0 <= i < |r.steps| :: r.steps[i].now == tr.moves[i].now
  {
    forall i | 0 <= i < |r.steps|
      ensures StepAt(r, i) && r.steps[i].now == tr.moves[i].now
    {
      FollowsStep(tr, k, r, i);
    }
  }

  lemma {:induction false} LogProjects(outs: seq<seq<Event>>, k: BeaconKey, r: Run, n: nat)
    requires ValidRun(r) && n <= |outs| == |r.steps| && forall i | 0 <= i < n :: EventsAt(r, i) == Project(outs[i], k)
    ensures Project(Log(outs, n), k) == Emitted(r, n)
  {
    if n > 0 {
      LogProjects(outs, k, r, n - 1);
      ProjectConcat(Log(outs, n - 1), outs[n - 1], k);
    }
  }

  /** A beacon's part of the log is what its run emits. */
  lemma LogFollows(tr: Trace, k: BeaconKey, r: Run, n: nat)
    requires Follows(tr, k, r) && n <= |tr.moves| && ValidRun(r)
    ensures Project(Log(tr.outs, n), k) == Emitted(r, n)
  {
    forall i | 0 <= i < n
      ensures EventsAt(r, i) == Project(tr.outs[i], k)
    {
      FollowsStep(tr, k, r, i);
    }
    LogProjects(tr.outs, k, r, n);
  }
}
