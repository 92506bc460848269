/**
 * One beacon's state machine, on values: what a sighting, a tick, a configuration change, a re-publication or a
 * warm boot does to it and which event it emits. The engine applies these rules to its mutable beacon states.
 *
 * Go iterates its per-AP map in no fixed order, and the two scans over it (closest AP, freshest sighting) are the
 * only places where that order can matter. What they answered is therefore part of a step (a Look), constrained
 * by IsClosest and IsFreshest rather than computed.
 */
module Presence {
  import opened Wrappers
  import opened Text
  import opened Identity
  import opened Tunables
  import opened Topology

  const NOT_HOME := "not_home"

  /** The value the source uses for "no signal at all". */
  const NO_SIGNAL := -1000000000.0

  /** One AP's smoothed signal for one beacon; times are seconds, None is the zero time. */
  datatype ApState = ApState(
    apName: string, ewma: real, lastRSSI: int, lastSighting: Option<real>, lastSeenAt: Option<real>)

  datatype Beacon = Beacon(
    id: BeaconKey, name: string, perAP: map<string, ApState>,
    zone: string, ap: string, lastArrival: Option<real>,
    candidateAP: string, candidateCount: int,
    battery: Option<int>, temperature: Option<real>)

  function NewBeacon(id: BeaconKey, name: string): Beacon {
    Beacon(id, name, map[], "", "", None, "", 0, None, None)
  }

  datatype Sighting = Sighting(
    beacon: BeaconKey, apMac: string, apName: string, rssi: int, at: Option<real>,
    battery: Option<int>, temperature: Option<real>)

  datatype Event = Event(
    beacon: BeaconKey, name: string, state: string, apMac: string, apName: string,
    rssiRaw: int, rssiEwma: real, rssiEffective: real, runnerUpDiff: real,
    lastSeen: Option<real>, sticky: bool, emittedAt: real,
    battery: Option<int>, temperature: Option<real>)

  /** The published state of a beacon: its zone label, or not_home. */
  function Published(b: Beacon): string { if b.zone == "" then NOT_HOME else b.zone }

  // --------------------------------------------------------------- signal

  /** effectiveRSSI: the smoothed value, decaying linearly once the grace period is over. */
  function Effective(ap: ApState, now: real, tun: Resolved): real {
    if ap.lastSighting.None? then NO_SIGNAL
    else
      var age := now - ap.lastSighting.value;
      var grace := tun.gracePeriodS as real;
      if age <= grace then ap.ewma else ap.ewma - tun.decayRateDbPerS * (age - grace)
  }

  predicate InPresence(ap: ApState, now: real, tun: Resolved) {
    Effective(ap, now, tun) >= tun.presenceFloorDbm as real
  }

  /** The APs that currently see the beacon. */
  function Present(perAP: map<string, ApState>, now: real, tun: Resolved): set<string> {
    set k | k in perAP && InPresence(perAP[k], now, tun)
  }

  /** The closest AP: its key, its effective signal, and its lead over the runner-up. */
  datatype Closest = Closest(key: string, eff: real, gap: real)

  /** Whether gap is the lead of key over the best other AP in presence, or 0 when there is no other. */
  ghost predicate IsLead(perAP: map<string, ApState>, now: real, tun: Resolved, key: string, eff: real, gap: real) {
    var others := Present(perAP, now, tun) - {key};
    if others == {} then gap == 0.0
    else exists k | k in others ::
      && gap == eff - Effective(perAP[k], now, tun)
      && forall j | j in others :: Effective(perAP[j], now, tun) <= Effective(perAP[k], now, tun)
  }

  /** What closestInPresence may answer. */
  ghost predicate IsClosest(perAP: map<string, ApState>, now: real, tun: Resolved, c: Option<Closest>) {
    match c
    case None => Present(perAP, now, tun) == {}
    case Some(best) =>
      && best.key in Present(perAP, now, tun)
      && best.eff == Effective(perAP[best.key], now, tun)
      && (forall k | k in Present(perAP, now, tun) :: Effective(perAP[k], now, tun) <= best.eff)
      && IsLead(perAP, now, tun, best.key, best.eff, best.gap)
  }

  /** What freshestSightingTs answers. */
  ghost predicate IsFreshest(perAP: map<string, ApState>, t: Option<real>) {
    match t
    case None => forall k | k in perAP :: perAP[k].lastSighting.None?
    case Some(x) =>
      && (exists k | k in perAP :: perAP[k].lastSighting == Some(x))
      && forall k | k in perAP && perAP[k].lastSighting.Some? :: perAP[k].lastSighting.value <= x
  }

  /** The answers of both scans. */
  datatype Look = Look(closest: Option<Closest>, freshest: Option<real>)

  ghost predicate IsLook(perAP: map<string, ApState>, now: real, tun: Resolved, look: Look) {
    IsClosest(perAP, now, tun, look.closest) && IsFreshest(perAP, look.freshest)
  }

  /** What a snapshot shows of one AP. */
  datatype ApSnapshot = ApSnapshot(
    name: string, lastRSSI: int, ewma: real, effective: real, lastSighting: Option<real>, inPresence: bool)

  function ApSnapshotOf(ap: ApState, now: real, tun: Resolved): ApSnapshot {
    ApSnapshot(ap.apName, ap.lastRSSI, ap.ewma, Effective(ap, now, tun), ap.lastSighting, InPresence(ap, now, tun))
  }

  function ApSnapshots(perAP: map<string, ApState>, now: real, tun: Resolved): map<string, ApSnapshot> {
    map k | k in perAP :: ApSnapshotOf(perAP[k], now, tun)
  }

  // ------------------------------------------------------------ recompute

  /** Inside the sticky-arrival window; only asked of a beacon that is in a zone. */
  predicate WithinSticky(lastArrival: Option<real>, now: real, tun: Resolved) {
    lastArrival.Some? && now - lastArrival.value < tun.stickyAfterArrivalS as real
  }

  predicate StickyActive(b: Beacon, now: real, tun: Resolved) {
    b.zone != "" && WithinSticky(b.lastArrival, now, tun)
  }

  /** Some AP has reported, but none within TAwayMaxS. */
  predicate Silent(freshest: Option<real>, now: real, tun: Resolved) {
    freshest.Some? && now - freshest.value > tun.tAwayMaxS as real
  }

  /** A beacon after a step, and the events it emitted. */
  datatype Outcome = Outcome(beacon: Beacon, events: seq<Event>)

  function BuildEvent(b: Beacon, c: Closest, now: real, sticky: bool): Event
    requires c.key in b.perAP
  {
    var ap := b.perAP[c.key];
    Event(b.id, b.name, b.zone, c.key, ap.apName, ap.lastRSSI, ap.ewma, c.eff, c.gap, ap.lastSeenAt, sticky, now,
      b.battery, b.temperature)
  }

  /** The beacon moved to a zone and AP, with its candidate forgotten. */
  function MoveTo(b: Beacon, zone: string, ap: string): Beacon {
    b.(zone := zone, ap := ap, candidateAP := "", candidateCount := 0)
  }

  function Forget(b: Beacon): Beacon { b.(candidateAP := "", candidateCount := 0) }

  /** The event of a departure: the last zone's AP for context, or the freshest sighting if it is gone. */
  function DepartureEvent(b: Beacon, now: real, tun: Resolved, freshest: Option<real>): Event {
    if b.ap in b.perAP then
      var ap := b.perAP[b.ap];
      Event(b.id, b.name, NOT_HOME, b.ap, ap.apName, ap.lastRSSI, ap.ewma, Effective(ap, now, tun), 0.0, ap.lastSeenAt,
        false, now, None, None)
    else
      Event(b.id, b.name, NOT_HOME, "", "", 0, 0.0, 0.0, 0.0, freshest, false, now, None, None)
  }

  /** recomputeOne. A tick, or a sighting with an empty AP address, passes "" as fromAP. */
  function Recompute(b: Beacon, tun: Resolved, top: Topology, now: real, fromAP: string, look: Look): Outcome
    requires look.closest.Some? ==> look.closest.value.key in b.perAP
  {
    var sticky := StickyActive(b, now, tun);
    var forceAway := Silent(look.freshest, now, tun) && !sticky;
    if look.closest.None? || forceAway then
      if b.zone == "" then Outcome(b, [])
      else if sticky && !forceAway then Outcome(b, [])
      else Outcome(MoveTo(b, "", ""), [DepartureEvent(b, now, tun, look.freshest)])
    else
      var c := look.closest.value;
      var closestZone := Zone(top, c.key);
      if closestZone == "" then Outcome(b, [])
      else if b.zone == "" then
        var b' := MoveTo(b, closestZone, c.key).(lastArrival := Some(now));
        Outcome(b', [BuildEvent(b', c, now, true)])
      else if b.ap !in b.perAP || !InPresence(b.perAP[b.ap], now, tun) then
        var b' := MoveTo(b, closestZone, c.key);
        Outcome(b', [BuildEvent(b', c, now, sticky)])
      else if c.key == b.ap then
        var b' := Forget(b).(zone := closestZone);
        Outcome(b', if closestZone != b.zone then [BuildEvent(b', c, now, sticky)] else [])
      else if closestZone == b.zone then Outcome(Forget(b), [])
      else if fromAP == "" then Outcome(b, [])
      else if c.eff - Effective(b.perAP[b.ap], now, tun) < tun.hysteresisDb then Outcome(Forget(b), [])
      else
        var count := if b.candidateAP == c.key then b.candidateCount + 1 else 1;
        if count < tun.confirmCount then Outcome(b.(candidateAP := c.key, candidateCount := count), [])
        else
          var b' := MoveTo(b, closestZone, c.key);
          Outcome(b', [BuildEvent(b', c, now, sticky)])
  }

  // ---------------------------------------------------------------- steps

  /** The first half of handleSighting: fold one reading into the AP's state and keep the latest telemetry. */
  function Observe(b: Beacon, tun: Resolved, now: real, s: Sighting): Beacon {
    var k := Lower(s.apMac);
    var ewma := if k in b.perAP then tun.alpha * s.rssi as real + (1.0 - tun.alpha) * b.perAP[k].ewma
      else s.rssi as real;
    b.(perAP := b.perAP[k := ApState(s.apName, ewma, s.rssi, Some(now), s.at)],
       battery := if s.battery.Some? then s.battery else b.battery,
       temperature := if s.temperature.Some? then s.temperature else b.temperature)
  }

  /** ApplyTopology's pass over one beacon: its new name, and the zone of its closest AP under the new map. */
  function Relabel(b0: Beacon, tun: Resolved, top: Topology, now: real, name: string, closest: Option<Closest>): Outcome
    requires b0.zone != "" && closest.Some? ==> closest.value.key in b0.perAP
  {
    var b := b0.(name := name);
    if b.zone == "" || closest.None? then Outcome(b, [])
    else
      var c := closest.value;
      var newZone := Zone(top, c.key);
      if newZone == "" || newZone == b.zone then Outcome(b, [])
      else
        var b' := MoveTo(b, newZone, c.key);
        Outcome(b', [BuildEvent(b', c, now, WithinSticky(b.lastArrival, now, tun))])
  }

  /** The event RepublishAll emits for one beacon. */
  function RepublishEvent(b: Beacon, now: real, tun: Resolved): Event {
    if b.zone != "" && b.ap in b.perAP then
      BuildEvent(b, Closest(b.ap, Effective(b.perAP[b.ap], now, tun), 0.0), now, StickyActive(b, now, tun))
    else if b.zone != "" then
      Event(b.id, b.name, b.zone, "", "", 0, 0.0, 0.0, 0.0, None, StickyActive(b, now, tun), now, b.battery,
        b.temperature)
    else
      Event(b.id, b.name, NOT_HOME, "", "", 0, 0.0, 0.0, 0.0, None, false, now, b.battery, b.temperature)
  }

  /** One engine entry point as one beacon sees it, with the settings and map in force. */
  datatype Step =
    | Sight(now: real, tun: Resolved, top: Topology, s: Sighting, look: Look)
    | Tick(now: real, tun: Resolved, top: Topology, look: Look)
    | Retop(now: real, tun: Resolved, top: Topology, name: string, closest: Option<Closest>)
    | Republish(now: real, tun: Resolved)
    | Restore(now: real, zone: string, ap: string)
    | Idle(now: real)

  /** The scans inside the step answered as they may on this beacon. */
  ghost predicate Enabled(b: Beacon, step: Step) {
    match step
    case Sight(now, tun, _, s, look) => InRange(tun) && IsLook(Observe(b, tun, now, s).perAP, now, tun, look)
    case Tick(now, tun, _, look) => InRange(tun) && IsLook(b.perAP, now, tun, look)
    case Retop(now, tun, _, _, closest) => InRange(tun) && (b.zone != "" ==> IsClosest(b.perAP, now, tun, closest))
    case Republish(_, tun) => InRange(tun)
    case Restore(_, zone, _) => zone != ""
    case Idle(_) => true
  }

  /** What a step does to a beacon. */
  function Apply(b: Beacon, step: Step): Outcome
    requires Enabled(b, step)
  {
    match step
    case Sight(now, tun, top, s, look) => Recompute(Observe(b, tun, now, s), tun, top, now, Lower(s.apMac), look)
    case Tick(now, tun, top, look) => Recompute(b, tun, top, now, "", look)
    case Retop(now, tun, top, name, closest) => Relabel(b, tun, top, now, name, closest)
    case Republish(now, tun) => Outcome(b, [RepublishEvent(b, now, tun)])
    case Restore(now, zone, ap) => Outcome(b.(zone := zone, ap := ap, lastArrival := Some(now)), [])
    case Idle(_) => Outcome(b, [])
  }

  /**
   * A recompute concerns only where the beacon is: its identity, signals and telemetry stay, and its events are its
   * own.
   */
  lemma RecomputeKeeps(b: Beacon, tun: Resolved, top: Topology, now: real, fromAP: string, look: Look)
    requires look.closest.Some? ==> look.closest.value.key in b.perAP
    ensures var o := Recompute(b, tun, top, now, fromAP, look);
      && o.beacon.id == b.id && o.beacon.name == b.name && o.beacon.perAP == b.perAP
      && o.beacon.battery == b.battery && o.beacon.temperature == b.temperature
      && |o.events| <= 1 && forall ev | ev in o.events :: ev.beacon == b.id
  {
  }
}
