/** How a beacon's signal behaves: the scans, the smoothed average, the decay, and single steps of the machine. */
module PresenceSignal {
  import opened Wrappers
  import opened Text
  import opened Tunables
  import opened Topology
  import opened Presence

  // ---------------------------------------------------------------- scans

  /**
   * Whatever order the AP map is walked in, the closest-AP scan succeeds or fails alike and finds the same strength
   * and the same lead; the lead of a tie, or of a lone AP, is zero.
   */
  lemma ScanIsOrderIndependent(
      perAP: map<string, ApState>, now: real, tun: Resolved, c: Option<Closest>, d: Option<Closest>)
    requires IsClosest(perAP, now, tun, c) && IsClosest(perAP, now, tun, d)
    ensures c.Some? <==> Present(perAP, now, tun) != {}
    ensures c.Some? <==> d.Some?
    ensures c.Some? ==> c.value.eff == d.value.eff && c.value.gap == d.value.gap && c.value.gap >= 0.0
    ensures c.Some? && c.value.key != d.value.key ==> c.value.gap == 0.0
    ensures c.Some? && Present(perAP, now, tun) == {c.value.key} ==> c.value.gap == 0.0
  {
    if c.Some? && d.Some? {
      var present := Present(perAP, now, tun);
      if c.value.key != d.value.key {
        assert d.value.key in present - {c.value.key};
        assert c.value.key in present - {d.value.key};
      } else {
        LeadIsUnique(perAP, now, tun, c.value.key, c.value.eff, c.value.gap, d.value.gap);
      }
    }
  }

  lemma LeadIsUnique(perAP: map<string, ApState>, now: real, tun: Resolved, key: string, eff: real, g: real, h: real)
    requires IsLead(perAP, now, tun, key, eff, g) && IsLead(perAP, now, tun, key, eff, h)
    ensures g == h
  {
    var others := Present(perAP, now, tun) - {key};
    if others != {} {
      var j :| j in others && g == eff - Effective(perAP[j], now, tun)
        && forall i | i in others :: Effective(perAP[i], now, tun) <= Effective(perAP[j], now, tun);
      var k :| k in others && h == eff - Effective(perAP[k], now, tun)
        && forall i | i in others :: Effective(perAP[i], now, tun) <= Effective(perAP[k], now, tun);
    }
  }

  lemma FreshestIsUnique(perAP: map<string, ApState>, s: Option<real>, t: Option<real>)
    requires IsFreshest(perAP, s) && IsFreshest(perAP, t)
    ensures s == t
  {
  }

  // ---------------------------------------------------------------- decay

  /** A product of non-negative numbers is not negative, and of positive numbers is positive. */
  lemma ProductSign(x: real, y: real)
    ensures x >= 0.0 && y >= 0.0 ==> x * y >= 0.0
    ensures x > 0.0 && y > 0.0 ==> x * y > 0.0
  {
  }

  lemma ProductOfDifference(d: real, x: real, y: real)
    ensures d * (y - x) == d * y - d * x
  {
  }

  /** A product with a non-negative factor keeps order. */
  lemma ScaleKeepsOrder(d: real, x: real, y: real)
    requires d >= 0.0 && x <= y
    ensures d * x <= d * y
  {
    ProductSign(d, y - x);
    ProductOfDifference(d, x, y);
  }

  /** With a positive factor, order is kept both ways. */
  lemma ScaleIsExact(d: real, x: real, y: real)
    requires d > 0.0
    ensures d * x <= d * y <==> x <= y
  {
    if x <= y {
      ScaleKeepsOrder(d, x, y);
    } else {
      ProductSign(d, x - y);
      ProductOfDifference(d, y, x);
    }
  }

  /** Dividing and multiplying back. */
  lemma QuotientTimes(m: real, d: real) returns (q: real)
    requires d > 0.0
    ensures q == m / d && d * q == m
  {
    q := m / d;
  }

  /** An AP that was never heard is not in presence under any settings in range. */
  lemma UnheardIsAbsent(ap: ApState, now: real, tun: Resolved)
    requires InRange(tun) && ap.lastSighting.None?
    ensures !InPresence(ap, now, tun)
  {
  }

  /** Without a sighting the effective signal never rises. */
  lemma EffectiveNeverRises(ap: ApState, t: real, t': real, tun: Resolved)
    requires InRange(tun) && t <= t'
    ensures Effective(ap, t', tun) <= Effective(ap, t, tun)
  {
    if ap.lastSighting.Some? {
      var grace := tun.gracePeriodS as real;
      var x, y := t - ap.lastSighting.value - grace, t' - ap.lastSighting.value - grace;
      if x > 0.0 {
        ScaleKeepsOrder(tun.decayRateDbPerS, x, y);
      } else if y > 0.0 {
        ScaleKeepsOrder(tun.decayRateDbPerS, 0.0, y);
      }
    }
  }

  /** Hence the APs in presence only become fewer. */
  lemma PresentShrinks(perAP: map<string, ApState>, t: real, t': real, tun: Resolved)
    requires InRange(tun) && t <= t'
    ensures Present(perAP, t', tun) <= Present(perAP, t, tun)
  {
    forall k | k in Present(perAP, t', tun)
      ensures k in Present(perAP, t, tun)
    {
      EffectiveNeverRises(perAP[k], t, t', tun);
    }
  }

  function Max(x: real, y: real): real { if x < y then y else x }

  /** How long an AP with smoothed signal m stays in presence after its last sighting, when signals decay. */
  function FadeAfter(m: real, tun: Resolved): real
    requires tun.decayRateDbPerS > 0.0
  {
    tun.gracePeriodS as real + Max(0.0, m - tun.presenceFloorDbm as real) / tun.decayRateDbPerS
  }

  /** A signal at or above the floor is in presence exactly until its fade time. */
  lemma FadeTimeIsExact(ap: ApState, now: real, tun: Resolved)
    requires InRange(tun) && tun.decayRateDbPerS > 0.0 && ap.lastSighting.Some?
    requires ap.ewma >= tun.presenceFloorDbm as real
    ensures InPresence(ap, now, tun) <==> now - ap.lastSighting.value <= FadeAfter(ap.ewma, tun)
  {
    FadeFrom(ap, now, tun, ap.ewma - tun.presenceFloorDbm as real);
  }

  lemma InPresenceByMargin(ap: ApState, now: real, tun: Resolved, margin: real, late: real)
    requires ap.lastSighting.Some? && margin == ap.ewma - tun.presenceFloorDbm as real && margin >= 0.0
    requires late == now - ap.lastSighting.value - tun.gracePeriodS as real
    ensures InPresence(ap, now, tun) <==> late <= 0.0 || tun.decayRateDbPerS * late <= margin
  {
    assert now - ap.lastSighting.value - tun.gracePeriodS as real == late;
  }

  /** The same with the signal's margin over the floor named. */
  lemma FadeFrom(ap: ApState, now: real, tun: Resolved, margin: real)
    requires InRange(tun) && tun.decayRateDbPerS > 0.0 && ap.lastSighting.Some?
    requires margin == ap.ewma - tun.presenceFloorDbm as real && margin >= 0.0
    ensures InPresence(ap, now, tun) <==> now - ap.lastSighting.value <= FadeAfter(ap.ewma, tun)
  {
    var d := tun.decayRateDbPerS;
    var late := now - ap.lastSighting.value - tun.gracePeriodS as real;
    var over := Max(0.0, ap.ewma - tun.presenceFloorDbm as real);
    var q := QuotientTimes(over, d);
    assert FadeAfter(ap.ewma, tun) == tun.gracePeriodS as real + q;
    assert over == margin;
    InPresenceByMargin(ap, now, tun, margin, late);
    ScaleIsExact(d, late, q);
    ScaleIsExact(d, 0.0, q);
  }

  /** An AP whose smoothed signal is at most m is out of presence once its age exceeds the fade time of m. */
  lemma FadeBound(ap: ApState, now: real, tun: Resolved, m: real)
    requires InRange(tun) && tun.decayRateDbPerS > 0.0 && ap.lastSighting.Some? && ap.ewma <= m
    requires now - ap.lastSighting.value > FadeAfter(m, tun)
    ensures !InPresence(ap, now, tun)
  {
    var floor := tun.presenceFloorDbm as real;
    var top := ap.(ewma := Max(m, floor));
    assert FadeAfter(top.ewma, tun) == FadeAfter(m, tun) by {
      assert Max(0.0, top.ewma - floor) == Max(0.0, m - floor);
    }
    FadeTimeIsExact(top, now, tun);
    assert Effective(ap, now, tun) <= Effective(top, now, tun);
  }

  // ----------------------------------------------------------------- ewma

  /** A weighted average lies between its parts. */
  lemma AverageIsBetween(alpha: real, x: real, y: real, lo: real, hi: real)
    requires 0.0 <= alpha <= 1.0 && lo <= x <= hi && lo <= y <= hi
    ensures lo <= alpha * x + (1.0 - alpha) * y <= hi
  {
    PartOfWhole(alpha, x - y, hi - y);
    PartOfWhole(alpha, y - x, y - lo);
    ProductOfDifference(alpha, y, x);
    ProductOfDifference(alpha, x, y);
    assert (1.0 - alpha) * y == y - alpha * y;
  }

  lemma PartOfWhole(alpha: real, v: real, u: real)
    requires 0.0 <= alpha <= 1.0 && v <= u && u >= 0.0
    ensures alpha * v <= u
  {
    ScaleKeepsOrder(alpha, v, u);
    ShareIsPart(alpha, u);
  }

  /** A share of a non-negative amount is no more than the amount. */
  lemma ShareIsPart(alpha: real, u: real)
    requires alpha <= 1.0 && u >= 0.0
    ensures alpha * u <= u
  {
    ProductSign(1.0 - alpha, u);
    assert (1.0 - alpha) * u == u - alpha * u;
  }

  // ------------------------------------------------------------ one step

  /** A step is a departure: the beacon was in a zone and is in none. */
  predicate Leaves(b: Beacon, b': Beacon) { b.zone != "" && b'.zone == "" }

  predicate Enters(b: Beacon, b': Beacon) { b.zone == "" && b'.zone != "" }

  /**
   * Exactly when a tick takes a beacon out of its zone: the sticky window is over, and either no AP is in presence
   * or every AP has been silent for longer than TAwayMaxS.
   */
  lemma TickDepartsExactlyWhen(b: Beacon, step: Step)
    requires step.Tick? && Enabled(b, step) && b.zone != ""
    ensures Apply(b, step).beacon.zone == "" <==>
      && !WithinSticky(b.lastArrival, step.now, step.tun)
      && (Present(b.perAP, step.now, step.tun) == {}
          || ((exists k :: k in b.perAP && b.perAP[k].lastSighting.Some?)
              && forall k | k in b.perAP && b.perAP[k].lastSighting.Some? ::
                   step.now - b.perAP[k].lastSighting.value > step.tun.tAwayMaxS as real))
    ensures Apply(b, step).beacon.zone == "" ==>
      Apply(b, step).events == [DepartureEvent(b, step.now, step.tun, step.look.freshest)]
  {
  }

  /**
   * Arrival is immediate: a beacon that a sighting or tick leaves not_home has no AP in presence, or its closest AP
   * has no zone, or all its APs have been silent too long; and a beacon that was already not_home stays so only then.
   */
  lemma ArrivalIsImmediate(b: Beacon, step: Step)
    requires (step.Sight? || step.Tick?) && Enabled(b, step)
    ensures var seen := if step.Sight? then Observe(b, step.tun, step.now, step.s) else b;
      var blocked := || Present(seen.perAP, step.now, step.tun) == {}
                     || (step.look.closest.Some? && Zone(step.top, step.look.closest.value.key) == "")
                     || Silent(step.look.freshest, step.now, step.tun);
      && (Apply(b, step).beacon.zone == "" ==> blocked)
      && (b.zone == "" ==> (Apply(b, step).beacon.zone == "" <==> blocked))
      && (Enters(b, Apply(b, step).beacon) ==>
            |Apply(b, step).events| == 1 && Apply(b, step).beacon.lastArrival == Some(step.now))
  {
  }

  /** Every sighting recorded is at or before t. */
  ghost predicate SeenBy(b: Beacon, t: real) {
    forall k | k in b.perAP && b.perAP[k].lastSighting.Some? :: b.perAP[k].lastSighting.value <= t
  }

  /** Right after a sighting of the beacon, silence cannot be what keeps it away. */
  lemma SightingIsNotSilent(b: Beacon, step: Step)
    requires step.Sight? && Enabled(b, step) && SeenBy(b, step.now)
    ensures step.look.freshest == Some(step.now) && !Silent(step.look.freshest, step.now, step.tun)
  {
    var seen := Observe(b, step.tun, step.now, step.s);
    assert seen.perAP[Lower(step.s.apMac)].lastSighting == Some(step.now);
  }
}
