/** The engine's mutable per-beacon record and the two scans over its AP map. */
module BeaconStates {
  import opened Wrappers
  import opened Identity
  import opened Tunables
  import opened Presence

  /** The scanned part of the AP map and the running best and second best of the APs in presence. */
  ghost predicate Scanned(
      perAP: map<string, ApState>, now: real, tun: Resolved, done: set<string>,
      ok: bool, key: string, best: real, second: real)
    requires done <= perAP.Keys
  {
    var present := done * Present(perAP, now, tun);
    && (ok <==> present != {})
    && (!ok ==> best == NO_SIGNAL && second == NO_SIGNAL)
    && (ok ==> key in present && best == Effective(perAP[key], now, tun))
    && (forall k | k in present :: Effective(perAP[k], now, tun) <= best)
    && (forall k | k in present && k != key :: Effective(perAP[k], now, tun) <= second)
    && (if present - {key} == {} then second == NO_SIGNAL
        else exists k | k in present - {key} :: second == Effective(perAP[k], now, tun))
  }

  class BeaconState {
    const id: BeaconKey
    var name: string
    var perAP: map<string, ApState>
    var currentZone: string
    var currentAP: string
    var lastArrivalTs: Option<real>
    var candidateAP: string
    var candidateCount: int
    var lastBatteryMV: Option<int>
    var lastTemperatureC: Option<real>

    constructor (id: BeaconKey, name: string)
      ensures Value() == NewBeacon(id, name)
    {
      this.id, this.name, this.perAP := id, name, map[];
      currentZone, currentAP, lastArrivalTs := "", "", None;
      candidateAP, candidateCount := "", 0;
      lastBatteryMV, lastTemperatureC := None, None;
    }

    /** The record as a value of the specification. */
    ghost function Value(): Beacon
      reads this
    {
      Beacon(id, name, perAP, currentZone, currentAP, lastArrivalTs, candidateAP, candidateCount, lastBatteryMV,
        lastTemperatureC)
    }

    /** closestInPresence: one pass over the APs, in any order, keeping the best and the second best. */
    method ClosestInPresence(tun: Resolved, now: real) returns (c: Option<Closest>)
      requires InRange(tun)
      ensures IsClosest(perAP, now, tun, c)
    {
      var closestEff, runnerUpEff := NO_SIGNAL, NO_SIGNAL;
      var ok, key := false, "";
      var todo := perAP.Keys;
      while todo != {}
        invariant todo <= perAP.Keys
        invariant Scanned(perAP, now, tun, perAP.Keys - todo, ok, key, closestEff, runnerUpEff)
        decreases todo
      {
        var k :| k in todo;
        ghost var done := perAP.Keys - todo;
        todo := todo - {k};
        assert perAP.Keys - todo == done + {k};
        var eff := Effective(perAP[k], now, tun);
        if eff < tun.presenceFloorDbm as real {
          SkipAbsent(perAP, now, tun, done, ok, key, closestEff, runnerUpEff, k);
          continue;
        }
        TakePresent(perAP, now, tun, done, ok, key, closestEff, runnerUpEff, k);
        ok := true;
        if eff > closestEff {
          runnerUpEff := closestEff;
          closestEff := eff;
          key := k;
        } else if eff > runnerUpEff {
          runnerUpEff := eff;
        }
      }
      assert perAP.Keys - todo == perAP.Keys;
      ScanEnds(perAP, now, tun, ok, key, closestEff, runnerUpEff);
      if !ok {
        return None;
      }
      c := Some(Closest(key, closestEff, if runnerUpEff > NO_SIGNAL then closestEff - runnerUpEff else 0.0));
    }

    /** The inner loop of Snapshot: every AP as it stands. */
    method SnapshotAPs(tun: Resolved, now: real) returns (aps: map<string, ApSnapshot>)
      ensures aps == ApSnapshots(perAP, now, tun)
    {
      aps := map[];
      var todo := perAP.Keys;
      while todo != {}
        invariant todo <= perAP.Keys && aps.Keys == perAP.Keys - todo
        invariant forall k | k in aps :: aps[k] == ApSnapshotOf(perAP[k], now, tun)
        decreases todo
      {
        var k :| k in todo;
        todo := todo - {k};
        var ap := perAP[k];
        var eff := Effective(ap, now, tun);
        var inPresence := eff >= tun.presenceFloorDbm as real;
        aps := aps[k := ApSnapshot(ap.apName, ap.lastRSSI, ap.ewma, eff, ap.lastSighting, inPresence)];
      }
    }

    /** freshestSightingTs: the latest sighting over all APs. */
    method FreshestSightingTs() returns (t: Option<real>)
      ensures IsFreshest(perAP, t)
    {
      t := None;
      var todo := perAP.Keys;
      while todo != {}
        invariant todo <= perAP.Keys
        invariant t.None? ==> forall k | k in perAP && k !in todo :: perAP[k].lastSighting.None?
        invariant t.Some? ==> exists k | k in perAP :: perAP[k].lastSighting == t
        invariant t.Some? ==> forall k | k in perAP && k !in todo && perAP[k].lastSighting.Some? ::
          perAP[k].lastSighting.value <= t.value
        decreases todo
      {
        var k :| k in todo;
        todo := todo - {k};
        var ts := perAP[k].lastSighting;
        if ts.Some? && (t.None? || ts.value > t.value) {
          t := ts;
        }
      }
    }
  }

  lemma SkipAbsent(
      perAP: map<string, ApState>, now: real, tun: Resolved, done: set<string>,
      ok: bool, key: string, best: real, second: real, k: string)
    requires done <= perAP.Keys && Scanned(perAP, now, tun, done, ok, key, best, second)
    requires k in perAP && k !in done && !InPresence(perAP[k], now, tun)
    ensures Scanned(perAP, now, tun, done + {k}, ok, key, best, second)
  {
    assert (done + {k}) * Present(perAP, now, tun) == done * Present(perAP, now, tun);
  }

  /** A newly scanned AP in presence takes the lead, the second place, or neither. */
  lemma TakePresent(
      perAP: map<string, ApState>, now: real, tun: Resolved, done: set<string>,
      ok: bool, key: string, best: real, second: real, k: string)
    requires InRange(tun) && done <= perAP.Keys && Scanned(perAP, now, tun, done, ok, key, best, second)
    requires k in perAP && k !in done && InPresence(perAP[k], now, tun)
    ensures var eff := Effective(perAP[k], now, tun);
      if eff > best then Scanned(perAP, now, tun, done + {k}, true, k, eff, best)
      else Scanned(perAP, now, tun, done + {k}, true, key, best, if eff > second then eff else second)
  {
    var old' := done * Present(perAP, now, tun);
    var present := (done + {k}) * Present(perAP, now, tun);
    assert present == old' + {k};
    var eff := Effective(perAP[k], now, tun);
    assert eff > NO_SIGNAL;
    if eff > best {
      assert present - {k} == old';
      if ok {
        assert key in present - {k};
      }
    } else {
      assert k in present - {key};
      assert present - {key} == (old' - {key}) + {k};
    }
  }

  lemma ScanEnds(perAP: map<string, ApState>, now: real, tun: Resolved, ok: bool, key: string, best: real, second: real)
    requires InRange(tun) && Scanned(perAP, now, tun, perAP.Keys, ok, key, best, second)
    ensures IsClosest(perAP, now, tun,
      if ok then Some(Closest(key, best, if second > NO_SIGNAL then best - second else 0.0)) else None)
  {
    var present := Present(perAP, now, tun);
    assert perAP.Keys * present == present;
    if ok && present - {key} != {} {
      var k :| k in present - {key} && second == Effective(perAP[k], now, tun);
      assert second > NO_SIGNAL;
    }
  }
}
