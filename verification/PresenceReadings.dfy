/** What a run's readings leave behind: the smoothed average in closed form, the last reading, and the telemetry. */
module PresenceReadings {
  import opened Wrappers
  import opened Text
  import opened Tunables
  import opened Presence
  import opened PresenceSignal
  import opened PresenceRuns

  /** The step is a reading of the beacon by AP k. */
  predicate Reads(step: Step, k: string) { step.Sight? && Lower(step.s.apMac) == k }

  // ------------------------------------------------------------- one reading

  /** The weighted mean of a new reading and the average so far. */
  function Mix(alpha: real, x: real, average: real): real { alpha * x + (1.0 - alpha) * average }

  /** A reading of an AP heard before moves its average by the weight alpha; the first one is the average. */
  lemma ReadingIsAveraged(b: Beacon, step: Step, k: string)
    requires Enabled(b, step) && Reads(step, k)
    ensures var perAP, rssi := Apply(b, step).beacon.perAP, step.s.rssi as real;
      && k in perAP
      && perAP[k].ewma == (if k in b.perAP then Mix(step.tun.alpha, rssi, b.perAP[k].ewma) else rssi)
      && perAP[k].lastRSSI == step.s.rssi && perAP[k].lastSighting == Some(step.now)
      && perAP[k].lastSeenAt == step.s.at && perAP[k].apName == step.s.apName
  {
    OnlySightingsTouchSignal(b, step);
  }

  /** Any other step leaves the AP alone. */
  lemma OtherStepsKeepAP(b: Beacon, step: Step, k: string)
    requires Enabled(b, step) && !Reads(step, k)
    ensures var perAP := Apply(b, step).beacon.perAP;
      (k in perAP <==> k in b.perAP) && (k in perAP ==> perAP[k] == b.perAP[k])
  {
    OnlySightingsTouchSignal(b, step);
  }

  /** Telemetry that a sighting carries replaces the last known value; absent fields, and all other steps, keep it. */
  lemma TelemetryIsLatest(b: Beacon, step: Step)
    requires Enabled(b, step)
    ensures var b' := Apply(b, step).beacon;
      && b'.battery == (if step.Sight? && step.s.battery.Some? then step.s.battery else b.battery)
      && b'.temperature == (if step.Sight? && step.s.temperature.Some? then step.s.temperature else b.temperature)
  {
    match step
    case Sight(now, tun, top, s, look) => RecomputeKeeps(Observe(b, tun, now, s), tun, top, now, Lower(s.apMac), look);
    case Tick(now, tun, top, look) => RecomputeKeeps(b, tun, top, now, "", look);
    case _ =>
  }

  // -------------------------------------------------------------- whole runs

  /** The readings of AP k among the first n steps, in order. */
  function Readings(r: Run, k: string, n: nat): seq<real>
    requires n <= |r.steps|
  {
    if n == 0 then []
    else Readings(r, k, n - 1) + (if Reads(r.steps[n - 1], k) then [r.steps[n - 1].s.rssi as real] else [])
  }

  function Power(x: real, n: nat): real { if n == 0 then 1.0 else x * Power(x, n - 1) }

  /** The weight of reading i of n: the first one keeps all that later ones leave, each later one starts with alpha. */
  function Weight(alpha: real, i: nat, n: nat): real
    requires i < n
  {
    (if i == 0 then 1.0 else alpha) * Power(1.0 - alpha, n - 1 - i)
  }

  /** The sum of the first m of n readings, each with its weight. */
  function WeightedSum(alpha: real, xs: seq<real>, m: nat, n: nat): real
    requires m <= |xs| && m <= n
  {
    if m == 0 then 0.0 else WeightedSum(alpha, xs, m - 1, n) + Weight(alpha, m - 1, n) * xs[m - 1]
  }

  lemma ProductsRegroup(c: real, w: real, x: real, y: real)
    ensures c * (y + w * x) == c * y + (c * w) * x
  {
  }

  lemma WeightDecays(alpha: real, i: nat, n: nat)
    requires i < n
    ensures Weight(alpha, i, n + 1) == (1.0 - alpha) * Weight(alpha, i, n)
  {
    var first, c, p := if i == 0 then 1.0 else alpha, 1.0 - alpha, Power(1.0 - alpha, n - 1 - i);
    assert Power(c, n - i) == c * p;
    Commute(first, c, p);
  }

  lemma Commute(a: real, b: real, c: real)
    ensures a * (b * c) == b * (a * c)
  {
  }

  /** One more reading scales all weights so far. */
  lemma {:induction false} SumDecays(alpha: real, xs: seq<real>, m: nat, n: nat)
    requires m <= |xs| && m <= n
    ensures WeightedSum(alpha, xs, m, n + 1) == (1.0 - alpha) * WeightedSum(alpha, xs, m, n)
  {
    if m > 0 {
      SumDecays(alpha, xs, m - 1, n);
      WeightDecays(alpha, m - 1, n);
      ProductsRegroup(1.0 - alpha, Weight(alpha, m - 1, n), xs[m - 1], WeightedSum(alpha, xs, m - 1, n));
    }
  }

  lemma {:induction false} SumIgnoresTail(alpha: real, xs: seq<real>, x: real, m: nat, n: nat)
    requires m <= |xs| && m <= n
    ensures WeightedSum(alpha, xs + [x], m, n) == WeightedSum(alpha, xs, m, n)
  {
    if m > 0 {
      SumIgnoresTail(alpha, xs, x, m - 1, n);
    }
  }

  /** Every reading with its weight. */
  function ClosedForm(alpha: real, xs: seq<real>): real { WeightedSum(alpha, xs, |xs|, |xs|) }

  /** The closed form follows the recurrence of the average. */
  lemma ClosedFormGrows(alpha: real, xs: seq<real>, x: real)
    ensures ClosedForm(alpha, xs + [x]) == if xs == [] then x else Mix(alpha, x, ClosedForm(alpha, xs))
  {
    var n := |xs|;
    SumIgnoresTail(alpha, xs, x, n, n + 1);
    SumDecays(alpha, xs, n, n);
    NewWeight(alpha, n);
    assert (xs + [x])[n] == x;
  }

  /** The newest reading has weight alpha, or one if it is the first. */
  lemma NewWeight(alpha: real, n: nat)
    ensures Weight(alpha, n, n + 1) == if n == 0 then 1.0 else alpha
  {
    assert Power(1.0 - alpha, 0) == 1.0;
  }

  /** Alpha is a at every sighting of the run. */
  ghost predicate AlphaIs(r: Run, a: real) {
    forall i | 0 <= i < |r.steps| && r.steps[i].Sight? :: r.steps[i].tun.alpha == a
  }

  /** The AP's average is the closed form of its readings; without readings it is not known. */
  predicate IsAverageOf(perAP: map<string, ApState>, k: string, a: real, xs: seq<real>) {
    (k in perAP <==> xs != []) && (k in perAP ==> perAP[k].ewma == ClosedForm(a, xs))
  }

  lemma AverageAt(r: Run, k: string, i: nat, a: real)
    requires ValidRun(r) && i < |r.steps| && AlphaIs(r, a) && IsAverageOf(r.states[i].perAP, k, a, Readings(r, k, i))
    ensures IsAverageOf(r.states[i + 1].perAP, k, a, Readings(r, k, i + 1))
  {
    var step, xs := r.steps[i], Readings(r, k, i);
    assert StepAt(r, i);
    if Reads(step, k) {
      ReadingIsAveraged(r.states[i], step, k);
      ClosedFormGrows(a, xs, step.s.rssi as real);
    } else {
      OtherStepsKeepAP(r.states[i], step, k);
      assert xs + [] == xs;
    }
  }

  /**
   * The average in closed form: with alpha fixed at a, an AP not known before has after the readings x0, x1, ..., xm
   * the average (1 - a)^m x0 + a (1 - a)^(m-1) x1 + ... + a xm.
   */
  lemma {:induction false} AverageInClosedForm(r: Run, k: string, n: nat, a: real)
    requires ValidRun(r) && n <= |r.steps| && AlphaIs(r, a) && k !in r.states[0].perAP
    ensures IsAverageOf(r.states[n].perAP, k, a, Readings(r, k, n))
  {
    if n > 0 {
      AverageInClosedForm(r, k, n - 1, a);
      AverageAt(r, k, n - 1, a);
    }
  }

  /** What is kept of an AP besides its average is its last reading: step i read it, and no step up to n has since. */
  lemma {:induction false} LastReadingIsKept(r: Run, k: string, i: nat, n: nat)
    requires ValidRun(r) && i < n <= |r.steps| && Reads(r.steps[i], k)
    requires forall j | i < j < n :: !Reads(r.steps[j], k)
    ensures k in r.states[n].perAP
    ensures var ap, s := r.states[n].perAP[k], r.steps[i].s;
      ap.lastRSSI == s.rssi && ap.lastSighting == Some(r.steps[i].now) && ap.lastSeenAt == s.at && ap.apName == s.apName
  {
    assert StepAt(r, n - 1);
    if i == n - 1 {
      ReadingIsAveraged(r.states[i], r.steps[i], k);
    } else {
      LastReadingIsKept(r, k, i, n - 1);
      OtherStepsKeepAP(r.states[n - 1], r.steps[n - 1], k);
    }
  }

  /** The AP was heard at some time. */
  predicate Heard(b: Beacon, k: string) { k in b.perAP ==> b.perAP[k].lastSighting.Some? }

  /** In any run that starts so, every AP a beacon knows was heard at some time. */
  lemma {:induction false} KnownAPsWereHeard(r: Run, k: string, n: nat)
    requires ValidRun(r) && n <= |r.steps| && Heard(r.states[0], k)
    ensures Heard(r.states[n], k)
  {
    if n > 0 {
      KnownAPsWereHeard(r, k, n - 1);
      assert StepAt(r, n - 1);
      if Reads(r.steps[n - 1], k) {
        ReadingIsAveraged(r.states[n - 1], r.steps[n - 1], k);
      } else {
        OtherStepsKeepAP(r.states[n - 1], r.steps[n - 1], k);
      }
    }
  }

  /** The last battery and temperature values that the first n steps carried, or what was known before. */
  function LastBattery(r: Run, n: nat, base: Option<int>): Option<int>
    requires n <= |r.steps|
  {
    if n == 0 then base
    else if r.steps[n - 1].Sight? && r.steps[n - 1].s.battery.Some? then r.steps[n - 1].s.battery
    else LastBattery(r, n - 1, base)
  }

  function LastTemperature(r: Run, n: nat, base: Option<real>): Option<real>
    requires n <= |r.steps|
  {
    if n == 0 then base
    else if r.steps[n - 1].Sight? && r.steps[n - 1].s.temperature.Some? then r.steps[n - 1].s.temperature
    else LastTemperature(r, n - 1, base)
  }

  /** In any run the telemetry is the last that any sighting of the beacon carried, field by field. */
  lemma {:induction false} TelemetryIsKept(r: Run, n: nat)
    requires ValidRun(r) && n <= |r.steps|
    ensures r.states[n].battery == LastBattery(r, n, r.states[0].battery)
    ensures r.states[n].temperature == LastTemperature(r, n, r.states[0].temperature)
  {
    if n > 0 {
      TelemetryIsKept(r, n - 1);
      assert StepAt(r, n - 1);
      TelemetryIsLatest(r.states[n - 1], r.steps[n - 1]);
    }
  }
}
