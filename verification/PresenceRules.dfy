/**
 * What single steps of the machine do, case by case and completely: where a beacon is afterwards, what its counter
 * holds, which events it emits and what they say.
 */
module PresenceRules {
  import opened Wrappers
  import opened Text
  import opened Tunables
  import opened Topology
  import opened Presence
  import opened PresenceSignal
  import opened PresenceRuns
  import opened PresenceHysteresis

  predicate Recomputes(step: Step) { step.Sight? || step.Tick? }

  /** Outside the window all APs have been silent too long: the beacon counts as gone, in presence or not. */
  predicate ForcedAway(b: Beacon, step: Step)
    requires Recomputes(step)
  {
    Silent(step.look.freshest, step.now, step.tun) && !StickyActive(b, step.now, step.tun)
  }

  /** The recompute has a closest AP with a zone to go by. */
  predicate Guided(b: Beacon, step: Step)
    requires Recomputes(step)
  {
    step.look.closest.Some? && !ForcedAway(b, step) && Zone(step.top, step.look.closest.value.key) != ""
  }

  /** The beacon published no other place before and after, and its arrival time is the old one. */
  predicate SamePlace(b: Beacon, b': Beacon) { b'.zone == b.zone && b'.ap == b.ap && b'.lastArrival == b.lastArrival }

  /** The beacon is at the closest AP, under its label. */
  predicate AtClosest(b: Beacon, step: Step)
    requires Recomputes(step) && step.look.closest.Some?
  {
    b.ap == step.look.closest.value.key && b.zone == Zone(step.top, b.ap)
  }

  // ---------------------------------------------------------- where it goes

  /** A recompute departs exactly when the window is over and no AP is in presence or all have been silent too long. */
  lemma DepartsExactlyWhen(b: Beacon, step: Step)
    requires Recomputes(step) && Enabled(b, step) && b.zone != ""
    ensures var seen, o := Seen(b, step), Apply(b, step);
      && (o.beacon.zone == "" <==>
            && !WithinSticky(b.lastArrival, step.now, step.tun)
            && (Present(seen.perAP, step.now, step.tun) == {} || Silent(step.look.freshest, step.now, step.tun)))
      && (o.beacon.zone == "" ==>
            && o.beacon.ap == "" && o.beacon.lastArrival == b.lastArrival && o.beacon.candidateCount == 0
            && |o.events| == 1 && o.events[0].state == NOT_HOME)
  {
  }

  /** Without a mapped closest AP to go by, a recompute that does not depart changes nothing and says nothing. */
  lemma UnguidedStays(b: Beacon, step: Step)
    requires Recomputes(step) && Enabled(b, step) && !Guided(Seen(b, step), step)
    ensures var o := Apply(b, step);
      !Leaves(b, o.beacon) ==> SamePlace(b, o.beacon) && SameStanding(b, o.beacon) && o.events == []
  {
  }

  /** An arrival is backed by the closest AP, under its label, and announced once. */
  lemma ArrivalIsBacked(b: Beacon, step: Step)
    requires Recomputes(step) && Enabled(b, step) && Guided(Seen(b, step), step) && b.zone == ""
    ensures var o := Apply(b, step);
      && AtClosest(o.beacon, step) && o.beacon.lastArrival == Some(step.now) && o.beacon.candidateCount == 0
      && |o.events| == 1 && o.events[0].state == o.beacon.zone && o.events[0].apMac == o.beacon.ap
  {
  }

  /** A beacon whose AP has faded, or is gone, moves to the closest one at once, and announces even the same zone. */
  lemma FadedAPIsLeft(b: Beacon, step: Step)
    requires Recomputes(step) && Enabled(b, step) && Guided(Seen(b, step), step) && b.zone != ""
    requires !CurrentInPresence(Seen(b, step), step.now, step.tun)
    ensures var o := Apply(b, step);
      && AtClosest(o.beacon, step) && o.beacon.lastArrival == b.lastArrival && o.beacon.candidateCount == 0
      && |o.events| == 1 && o.events[0].state == o.beacon.zone && o.events[0].apMac == o.beacon.ap
  {
  }

  /** While its own AP is closest, a beacon stays there and follows the AP's label, announcing exactly its changes. */
  lemma LabelIsFollowed(b: Beacon, step: Step)
    requires Recomputes(step) && Enabled(b, step) && Guided(Seen(b, step), step)
    requires CurrentInPresence(Seen(b, step), step.now, step.tun) && step.look.closest.value.key == b.ap
    ensures var o := Apply(b, step);
      && AtClosest(o.beacon, step) && o.beacon.lastArrival == b.lastArrival && o.beacon.candidateCount == 0
      && (if o.beacon.zone == b.zone then o.events == []
          else |o.events| == 1 && o.events[0].state == o.beacon.zone && o.events[0].apMac == b.ap)
  {
  }

  /** The votes for ap that the step makes it, with those counted before. */
  function Tally(b: Beacon, ap: string): int { (if b.candidateAP == ap then b.candidateCount else 0) + 1 }

  /** A vote that reaches the confirm count switches at once, keeps the arrival time and is announced once. */
  lemma ConfirmedVoteSwitches(b: Beacon, step: Step, ap: string)
    requires Recomputes(step) && Enabled(b, step) && VotesFor(b, step, ap) && Tally(b, ap) >= step.tun.confirmCount
    ensures var o := Apply(b, step);
      && o.beacon.ap == ap && o.beacon.zone == Zone(step.top, ap) && o.beacon.lastArrival == b.lastArrival
      && o.beacon.candidateCount == 0
      && |o.events| == 1 && o.events[0].state == o.beacon.zone && o.events[0].apMac == ap
  {
    assert !Silent(step.look.freshest, step.now, step.tun) || StickyActive(Seen(b, step), step.now, step.tun);
  }

  /** A vote that does not is counted, and nothing else changes. */
  lemma VoteIsCounted(b: Beacon, step: Step, ap: string)
    requires Recomputes(step) && Enabled(b, step) && VotesFor(b, step, ap) && Tally(b, ap) < step.tun.confirmCount
    ensures var o := Apply(b, step);
      SamePlace(b, o.beacon) && o.beacon.candidateAP == ap && o.beacon.candidateCount == Tally(b, ap) && o.events == []
  {
  }

  /** A sighting that is not a vote, while another AP leads one still in presence, clears the counter and no more. */
  lemma NonVoteClears(b: Beacon, step: Step)
    requires Sighted(step) && Enabled(b, step) && Guided(Seen(b, step), step)
    requires CurrentInPresence(Seen(b, step), step.now, step.tun) && step.look.closest.value.key != b.ap
    requires !VotesFor(b, step, step.look.closest.value.key)
    ensures var o := Apply(b, step);
      SamePlace(b, o.beacon) && o.beacon.candidateAP == "" && o.beacon.candidateCount == 0 && o.events == []
  {
  }

  /** A step that is not a sighting never counts: in the same case it clears the counter only within one zone. */
  lemma TickNeverCounts(b: Beacon, step: Step)
    requires Recomputes(step) && !Sighted(step) && Enabled(b, step) && Guided(Seen(b, step), step)
    requires CurrentInPresence(Seen(b, step), step.now, step.tun) && step.look.closest.value.key != b.ap
    ensures var o := Apply(b, step);
      && SamePlace(b, o.beacon) && o.events == []
      && (if Zone(step.top, step.look.closest.value.key) == b.zone
          then o.beacon.candidateAP == "" && o.beacon.candidateCount == 0 else SameStanding(b, o.beacon))
  {
  }

  /** After a recompute with a mapped closest AP to go by, the AP behind a published zone is in presence. */
  lemma GuidedIsBacked(b: Beacon, step: Step)
    requires Recomputes(step) && Enabled(b, step) && Guided(Seen(b, step), step)
    ensures CurrentInPresence(Apply(b, step).beacon, step.now, step.tun)
  {
    var seen := Seen(b, step);
    RecomputeKeeps(seen, step.tun, step.top, step.now, if step.Sight? then Lower(step.s.apMac) else "", step.look);
    var c := step.look.closest.value.key;
    assert c in Present(seen.perAP, step.now, step.tun);
    if b.zone == "" {
      ArrivalIsBacked(b, step);
    } else if !CurrentInPresence(seen, step.now, step.tun) {
      FadedAPIsLeft(b, step);
    } else {
      PlaceInPresence(b, step);
    }
  }

  lemma PlaceInPresence(b: Beacon, step: Step)
    requires Recomputes(step) && Enabled(b, step) && Guided(Seen(b, step), step)
    requires CurrentInPresence(Seen(b, step), step.now, step.tun)
    ensures var b' := Apply(b, step).beacon;
      b'.zone != "" && b'.ap in {b.ap, step.look.closest.value.key}
  {
    var c := step.look.closest.value.key;
    if c == b.ap {
      LabelIsFollowed(b, step);
    } else if !Sighted(step) {
      TickNeverCounts(b, step);
    } else if !VotesFor(b, step, c) {
      NonVoteClears(b, step);
    } else if Tally(b, c) >= step.tun.confirmCount {
      ConfirmedVoteSwitches(b, step, c);
    } else {
      VoteIsCounted(b, step, c);
    }
  }

  /** In any run, after a recompute with a mapped closest AP to go by, the AP behind the zone is in presence. */
  lemma BackedInRuns(r: Run, i: nat)
    requires ValidRun(r) && i < |r.steps| && Recomputes(r.steps[i]) && Guided(Seen(r.states[i], r.steps[i]), r.steps[i])
    ensures CurrentInPresence(r.states[i + 1], r.steps[i].now, r.steps[i].tun)
  {
    assert StepAt(r, i);
    GuidedIsBacked(r.states[i], r.steps[i]);
  }

  /** After i votes in a row for ap, all of k needed or not: the beacon is there, or the counter holds at least i. */
  predicate Accumulated(b: Beacon, i: nat, k: int, ap: string) {
    if i == 0 then b.candidateCount >= 0
    else if i < k then b.ap == ap || (b.candidateAP == ap && b.candidateCount >= i)
    else b.ap == ap
  }

  lemma VotesAccumulate(b: Beacon, step: Step, i: nat, k: int, ap: string)
    requires step.Sight? && Enabled(b, step) && VotesFor(b, step, ap) && step.tun.confirmCount == k && i < k
    requires Accumulated(b, i, k, ap)
    ensures var b' := Apply(b, step).beacon;
      Accumulated(b', i + 1, k, ap) && (i + 1 == k ==> b'.zone == Zone(step.top, ap))
  {
    VoteIsForAnother(b, step, ap);
    if Tally(b, ap) >= step.tun.confirmCount {
      ConfirmedVoteSwitches(b, step, ap);
    } else {
      VoteIsCounted(b, step, ap);
    }
  }

  /** Step j is a vote for ap. */
  ghost predicate VoteAt(r: Run, j: nat, ap: string)
    requires ValidRun(r) && j < |r.steps|
  {
    VotesFor(r.states[j], r.steps[j], ap)
  }

  /** Enough is enough: with the confirm count fixed at k, k votes in a row for an AP move the beacon there. */
  lemma {:induction false} ConsecutiveVotesSwitch(r: Run, s: nat, i: nat, k: int, ap: string)
    requires ValidRun(r) && ConfirmsWith(r, k) && i <= k && s + i <= |r.steps| && r.states[s].candidateCount >= 0
    requires forall j | s <= j < s + i :: VoteAt(r, j, ap)
    ensures Accumulated(r.states[s + i], i, k, ap)
    ensures i == k ==> r.steps[s + i - 1].Sight? && r.states[s + i].zone == Zone(r.steps[s + i - 1].top, ap)
  {
    if i > 0 {
      ConsecutiveVotesSwitch(r, s, i - 1, k, ap);
      assert VoteAt(r, s + i - 1, ap) && StepAt(r, s + i - 1);
      VotesAccumulate(r.states[s + i - 1], r.steps[s + i - 1], i - 1, k, ap);
    }
  }

  lemma VoteIsForAnother(b: Beacon, step: Step, ap: string)
    requires VotesFor(b, step, ap)
    ensures b.ap != ap
  {
  }

  /** Applying a topology renames, and moves exactly a published beacon whose closest AP has another label now. */
  lemma RelabelMovesExactlyWhen(b: Beacon, step: Step)
    requires step.Retop? && Enabled(b, step)
    ensures var o := Apply(b, step);
      var moves := b.zone != "" && step.closest.Some? && Zone(step.top, step.closest.value.key) !in {"", b.zone};
      && o.beacon.name == step.name && o.beacon.perAP == b.perAP && o.beacon.lastArrival == b.lastArrival
      && (moves ==>
            && o.beacon.ap == step.closest.value.key && o.beacon.zone == Zone(step.top, o.beacon.ap)
            && o.beacon.candidateCount == 0 && |o.events| == 1)
      && (!moves ==> SamePlace(b, o.beacon) && SameStanding(b, o.beacon) && o.events == [])
  {
  }

  // ------------------------------------------------------- what events say

  /** The event shows the reading of AP k of the beacon as it stands. */
  predicate Shows(ev: Event, b: Beacon, k: string, now: real, tun: Resolved)
    requires k in b.perAP
  {
    var ap := b.perAP[k];
    && ev.apMac == k && ev.apName == ap.apName && ev.rssiRaw == ap.lastRSSI && ev.rssiEwma == ap.ewma
    && ev.rssiEffective == Effective(ap, now, tun) && ev.lastSeen == ap.lastSeenAt
  }

  /** The event shows no reading. */
  predicate ShowsNone(ev: Event) {
    ev.apMac == "" && ev.apName == "" && ev.rssiRaw == 0 && ev.rssiEwma == 0.0 && ev.rssiEffective == 0.0
  }

  /** Whose it is, when, and what it publishes: the state after the step. */
  predicate Announces(ev: Event, b': Beacon, now: real) {
    ev.beacon == b'.id && ev.name == b'.name && ev.state == Published(b') && ev.emittedAt == now
  }

  /** An event that puts the beacon into a zone shows the backing AP, its lead, the window and the latest telemetry. */
  ghost predicate PlacesAt(ev: Event, b: Beacon, b': Beacon, now: real, tun: Resolved) {
    && Announces(ev, b', now) && b'.zone != "" && b'.ap in b'.perAP && Shows(ev, b', b'.ap, now, tun)
    && IsLead(b'.perAP, now, tun, b'.ap, ev.rssiEffective, ev.runnerUpDiff)
    && (ev.sticky <==> b.zone == "" || WithinSticky(b.lastArrival, now, tun))
    && ev.battery == b'.battery && ev.temperature == b'.temperature
  }

  /** A departure shows the AP left behind if it is known, and the freshest sighting otherwise; no telemetry. */
  predicate TakesAway(ev: Event, b: Beacon, b': Beacon, freshest: Option<real>, now: real, tun: Resolved) {
    && Announces(ev, b', now) && b'.zone == "" && ev.runnerUpDiff == 0.0 && !ev.sticky
    && (if b.ap in b.perAP then Shows(ev, b, b.ap, now, tun) else ShowsNone(ev) && ev.lastSeen == freshest)
    && ev.battery.None? && ev.temperature.None?
  }

  lemma ArrivalSays(b: Beacon, step: Step)
    requires Recomputes(step) && Enabled(b, step) && Guided(Seen(b, step), step)
    requires b.zone == "" || !CurrentInPresence(Seen(b, step), step.now, step.tun)
    ensures var seen, o := Seen(b, step), Apply(b, step);
      forall ev | ev in o.events :: PlacesAt(ev, seen, o.beacon, step.now, step.tun)
  {
  }

  lemma OwnSays(b: Beacon, step: Step)
    requires Recomputes(step) && Enabled(b, step) && Guided(Seen(b, step), step)
    requires CurrentInPresence(Seen(b, step), step.now, step.tun) && step.look.closest.value.key == b.ap
    ensures var seen, o := Seen(b, step), Apply(b, step);
      forall ev | ev in o.events :: PlacesAt(ev, seen, o.beacon, step.now, step.tun)
  {
  }

  lemma OtherSays(b: Beacon, step: Step)
    requires Recomputes(step) && Enabled(b, step) && Guided(Seen(b, step), step)
    requires CurrentInPresence(Seen(b, step), step.now, step.tun) && step.look.closest.value.key != b.ap
    ensures var seen, o := Seen(b, step), Apply(b, step);
      forall ev | ev in o.events :: PlacesAt(ev, seen, o.beacon, step.now, step.tun)
  {
  }

  lemma GuidedEventsSay(b: Beacon, step: Step)
    requires Recomputes(step) && Enabled(b, step) && Guided(Seen(b, step), step)
    ensures var seen, o := Seen(b, step), Apply(b, step);
      forall ev | ev in o.events :: PlacesAt(ev, seen, o.beacon, step.now, step.tun)
  {
    if !CurrentInPresence(Seen(b, step), step.now, step.tun) {
      ArrivalSays(b, step);
    } else if step.look.closest.value.key == b.ap {
      OwnSays(b, step);
    } else {
      OtherSays(b, step);
    }
  }

  lemma UnguidedEventsSay(b: Beacon, step: Step)
    requires Recomputes(step) && Enabled(b, step) && !Guided(Seen(b, step), step)
    ensures var seen, o := Seen(b, step), Apply(b, step);
      forall ev | ev in o.events :: TakesAway(ev, seen, o.beacon, step.look.freshest, step.now, step.tun)
  {
  }

  /** Every event of a recompute is of one of these two kinds, according to whether it had an AP to go by. */
  lemma RecomputeEventsSay(b: Beacon, step: Step)
    requires Recomputes(step) && Enabled(b, step)
    ensures var seen, o := Seen(b, step), Apply(b, step);
      forall ev | ev in o.events ::
        if Guided(seen, step) then PlacesAt(ev, seen, o.beacon, step.now, step.tun)
        else TakesAway(ev, seen, o.beacon, step.look.freshest, step.now, step.tun)
  {
    if Guided(Seen(b, step), step) {
      GuidedEventsSay(b, step);
    } else {
      UnguidedEventsSay(b, step);
    }
  }

  /** So is the event of an applied topology. */
  lemma RelabelEventsSay(b: Beacon, step: Step)
    requires step.Retop? && Enabled(b, step)
    ensures var o := Apply(b, step);
      forall ev | ev in o.events :: PlacesAt(ev, b, o.beacon, step.now, step.tun)
  {
  }

  /** A re-publication shows the backing AP if it is known, without a lead, the window, and the latest telemetry. */
  lemma RepublishSays(b: Beacon, step: Step)
    requires step.Republish? && Enabled(b, step)
    ensures var o := Apply(b, step);
      && o.beacon == b && |o.events| == 1
      && var ev := o.events[0];
         && Announces(ev, b, step.now) && ev.runnerUpDiff == 0.0
         && (ev.sticky <==> StickyActive(b, step.now, step.tun))
         && ev.battery == b.battery && ev.temperature == b.temperature
         && (if b.zone != "" && b.ap in b.perAP then Shows(ev, b, b.ap, step.now, step.tun)
             else ShowsNone(ev) && ev.lastSeen.None?)
  {
  }

  /** Restoring sets the zone, its AP and a fresh arrival, and nothing else, silently. */
  lemma RestoreSets(b: Beacon, step: Step)
    requires step.Restore? && Enabled(b, step)
    ensures var o := Apply(b, step);
      && o.events == []
      && o.beacon.zone == step.zone && o.beacon.ap == step.ap && o.beacon.lastArrival == Some(step.now)
      && o.beacon.(zone := b.zone, ap := b.ap, lastArrival := b.lastArrival) == b
  {
  }
}
