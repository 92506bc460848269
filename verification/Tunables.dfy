/** The presence engine's knobs: validation, and the per-beacon merge it caches. */
module Tunables {
  import opened Wrappers

  /** A full set of values: the bridge-wide defaults, and also what a beacon's merge resolves to. */
  datatype Settings = Settings(
    alpha: real, gracePeriodS: int, decayRateDbPerS: real, presenceFloorDbm: int,
    tAwayMaxS: int, stickyAfterArrivalS: int, hysteresisDb: real, confirmCount: int)

  type Resolved = Settings

  /** A partial set: only the fields present override. */
  datatype Overrides = Overrides(
    alpha: Option<real>, gracePeriodS: Option<int>, decayRateDbPerS: Option<real>, presenceFloorDbm: Option<int>,
    tAwayMaxS: Option<int>, stickyAfterArrivalS: Option<int>, hysteresisDb: Option<real>, confirmCount: Option<int>)

  datatype Tunables = Tunables(defaults: Settings, beacons: map<string, Overrides>)

  /** The zero value of Go's Resolved, which a lookup of an unknown name would yield. */
  const ZERO_SETTINGS := Settings(0.0, 0, 0.0, 0, 0, 0, 0.0, 0)

  /** The documented ranges, which every rule of the state machine relies on. */
  predicate InRange(s: Settings) {
    && 0.0 < s.alpha <= 1.0
    && s.gracePeriodS >= 0
    && s.decayRateDbPerS >= 0.0
    && -127 <= s.presenceFloorDbm <= 0
    && s.tAwayMaxS >= 1
    && s.stickyAfterArrivalS >= 0
    && s.hysteresisDb >= 0.0
    && s.confirmCount >= 1
  }

  datatype Fault = BadAlpha | BadGrace | BadDecay | BadFloor | BadTAway | BadSticky | BadHysteresis | BadConfirm

  /** validateDefaults: the first check that fails. */
  function ValidateDefaults(d: Settings): Option<Fault> {
    if d.alpha <= 0.0 || d.alpha > 1.0 then Some(BadAlpha)
    else if d.gracePeriodS < 0 then Some(BadGrace)
    else if d.decayRateDbPerS < 0.0 then Some(BadDecay)
    else if d.presenceFloorDbm > 0 || d.presenceFloorDbm < -127 then Some(BadFloor)
    else if d.tAwayMaxS < 1 then Some(BadTAway)
    else if d.stickyAfterArrivalS < 0 then Some(BadSticky)
    else if d.hysteresisDb < 0.0 then Some(BadHysteresis)
    else if d.confirmCount < 1 then Some(BadConfirm)
    else None
  }

  function ValidateOverrides(o: Overrides): Option<Fault> {
    if o.alpha.Some? && (o.alpha.value <= 0.0 || o.alpha.value > 1.0) then Some(BadAlpha)
    else if o.gracePeriodS.Some? && o.gracePeriodS.value < 0 then Some(BadGrace)
    else if o.decayRateDbPerS.Some? && o.decayRateDbPerS.value < 0.0 then Some(BadDecay)
    else if o.presenceFloorDbm.Some? && (o.presenceFloorDbm.value > 0 || o.presenceFloorDbm.value < -127)
      then Some(BadFloor)
    else if o.tAwayMaxS.Some? && o.tAwayMaxS.value < 1 then Some(BadTAway)
    else if o.stickyAfterArrivalS.Some? && o.stickyAfterArrivalS.value < 0 then Some(BadSticky)
    else if o.hysteresisDb.Some? && o.hysteresisDb.value < 0.0 then Some(BadHysteresis)
    else if o.confirmCount.Some? && o.confirmCount.value < 1 then Some(BadConfirm)
    else None
  }

  function Or<T>(o: Option<T>, default: T): T { if o.Some? then o.value else default }

  function Merge(d: Settings, o: Overrides): Resolved {
    Settings(Or(o.alpha, d.alpha), Or(o.gracePeriodS, d.gracePeriodS), Or(o.decayRateDbPerS, d.decayRateDbPerS),
             Or(o.presenceFloorDbm, d.presenceFloorDbm), Or(o.tAwayMaxS, d.tAwayMaxS),
             Or(o.stickyAfterArrivalS, d.stickyAfterArrivalS), Or(o.hysteresisDb, d.hysteresisDb),
             Or(o.confirmCount, d.confirmCount))
  }

  /** ResolveFor: the defaults, overlaid with the beacon's overrides when it has any. */
  function ResolveFor(t: Tunables, name: string): Resolved {
    if name in t.beacons then Merge(t.defaults, t.beacons[name]) else t.defaults
  }

  /** A document Validate accepts. */
  predicate ValidTunables(t: Tunables) {
    ValidateDefaults(t.defaults).None? && forall name | name in t.beacons :: ValidateOverrides(t.beacons[name]).None?
  }

  /** Validate: the defaults, then every override entry in whatever order the map yields them. */
  method Validate(t: Tunables) returns (err: Option<Fault>)
    ensures err.None? <==> ValidTunables(t)
  {
    err := ValidateDefaults(t.defaults);
    if err.Some? {
      return;
    }
    var todo := t.beacons.Keys;
    while todo != {}
      invariant err.None? && todo <= t.beacons.Keys
      invariant forall name | name in t.beacons && name !in todo :: ValidateOverrides(t.beacons[name]).None?
      decreases todo
    {
      var name :| name in todo;
      todo := todo - {name};
      err := ValidateOverrides(t.beacons[name]);
      if err.Some? {
        return;
      }
    }
  }

  lemma OverridesKeepRange(d: Settings, o: Overrides)
    requires InRange(d)
    ensures ValidateOverrides(o).None? <==> InRange(Merge(d, o))
  {
  }

  /** Validation is exact: a document is accepted if and only if its defaults and every beacon's merge are in range. */
  lemma ValidIffResolvesInRange(t: Tunables)
    ensures ValidTunables(t) <==> InRange(t.defaults) && forall name: string :: InRange(ResolveFor(t, name))
  {
    assert ValidateDefaults(t.defaults).None? <==> InRange(t.defaults);
    if InRange(t.defaults) {
      forall name: string
        ensures InRange(ResolveFor(t, name)) <==> (name in t.beacons ==> ValidateOverrides(t.beacons[name]).None?)
      {
        if name in t.beacons {
          OverridesKeepRange(t.defaults, t.beacons[name]);
        }
      }
    }
  }

  /** What each fault says of a set of values. */
  predicate Breaks(s: Settings, f: Fault) {
    match f
    case BadAlpha => !(0.0 < s.alpha <= 1.0)
    case BadGrace => s.gracePeriodS < 0
    case BadDecay => s.decayRateDbPerS < 0.0
    case BadFloor => !(-127 <= s.presenceFloorDbm <= 0)
    case BadTAway => s.tAwayMaxS < 1
    case BadSticky => s.stickyAfterArrivalS < 0
    case BadHysteresis => s.hysteresisDb < 0.0
    case BadConfirm => s.confirmCount < 1
  }

  /** The order of the checks. */
  function Rank(f: Fault): nat {
    match f
    case BadAlpha => 0
    case BadGrace => 1
    case BadDecay => 2
    case BadFloor => 3
    case BadTAway => 4
    case BadSticky => 5
    case BadHysteresis => 6
    case BadConfirm => 7
  }

  /** A check answers the first fault, or none if there is none. */
  ghost predicate IsFirstFault(s: Settings, found: Option<Fault>) {
    && (found.None? ==> forall f :: !Breaks(s, f))
    && (found.Some? ==> Breaks(s, found.value) && forall f :: Breaks(s, f) ==> Rank(found.value) <= Rank(f))
  }

  /**
   * The defaults are refused for the first value out of range, and overrides for the first value that puts the merge
   * over defaults in range out of it: no knob is checked against another one's range.
   */
  lemma FirstFaultIsNamed(d: Settings, o: Overrides)
    ensures IsFirstFault(d, ValidateDefaults(d))
    ensures InRange(d) ==> IsFirstFault(Merge(d, o), ValidateOverrides(o))
  {
  }

  const NO_OVERRIDES := Overrides(None, None, None, None, None, None, None, None)

  /** What a document overrides for a name. */
  function EntryOf(t: Tunables, name: string): Overrides { if name in t.beacons then t.beacons[name] else NO_OVERRIDES }

  /** A field has the override's value if there is one, and the default's otherwise. */
  predicate InForce<T(==)>(r: T, override: Option<T>, default: T) {
    (override.Some? ==> r == override.value) && (override.None? ==> r == default)
  }

  /** ResolveFor, field by field: each of the eight has the value in force for that field and for no other. */
  lemma ResolvesFieldByField(t: Tunables, name: string)
    ensures var r, o, d := ResolveFor(t, name), EntryOf(t, name), t.defaults;
      && InForce(r.alpha, o.alpha, d.alpha)
      && InForce(r.gracePeriodS, o.gracePeriodS, d.gracePeriodS)
      && InForce(r.decayRateDbPerS, o.decayRateDbPerS, d.decayRateDbPerS)
      && InForce(r.presenceFloorDbm, o.presenceFloorDbm, d.presenceFloorDbm)
      && InForce(r.tAwayMaxS, o.tAwayMaxS, d.tAwayMaxS)
      && InForce(r.stickyAfterArrivalS, o.stickyAfterArrivalS, d.stickyAfterArrivalS)
      && InForce(r.hysteresisDb, o.hysteresisDb, d.hysteresisDb)
      && InForce(r.confirmCount, o.confirmCount, d.confirmCount)
  {
  }

  /** A name without an entry resolves to the defaults, and so does one whose entry overrides nothing. */
  lemma ResolvesToDefaults(t: Tunables, name: string)
    requires EntryOf(t, name) == NO_OVERRIDES
    ensures ResolveFor(t, name) == t.defaults
  {
  }

  /** A field resolves from that field alone: documents that agree on it agree in the result, whatever else differs. */
  lemma FieldsAreIndependent(t: Tunables, t': Tunables, name: string)
    requires name in t.beacons && name in t'.beacons
    ensures var o, o', d, d', r, r' :=
        t.beacons[name], t'.beacons[name], t.defaults, t'.defaults, ResolveFor(t, name), ResolveFor(t', name);
      && (o.alpha == o'.alpha && d.alpha == d'.alpha ==> r.alpha == r'.alpha)
      && (o.gracePeriodS == o'.gracePeriodS && d.gracePeriodS == d'.gracePeriodS ==> r.gracePeriodS == r'.gracePeriodS)
      && (o.decayRateDbPerS == o'.decayRateDbPerS && d.decayRateDbPerS == d'.decayRateDbPerS ==>
            r.decayRateDbPerS == r'.decayRateDbPerS)
      && (o.presenceFloorDbm == o'.presenceFloorDbm && d.presenceFloorDbm == d'.presenceFloorDbm ==>
            r.presenceFloorDbm == r'.presenceFloorDbm)
      && (o.tAwayMaxS == o'.tAwayMaxS && d.tAwayMaxS == d'.tAwayMaxS ==> r.tAwayMaxS == r'.tAwayMaxS)
      && (o.stickyAfterArrivalS == o'.stickyAfterArrivalS && d.stickyAfterArrivalS == d'.stickyAfterArrivalS ==>
            r.stickyAfterArrivalS == r'.stickyAfterArrivalS)
      && (o.hysteresisDb == o'.hysteresisDb && d.hysteresisDb == d'.hysteresisDb ==> r.hysteresisDb == r'.hysteresisDb)
      && (o.confirmCount == o'.confirmCount && d.confirmCount == d'.confirmCount ==> r.confirmCount == r'.confirmCount)
  {
  }
}
