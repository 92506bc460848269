/** Zone-to-zone changes: what the confirm counter counts, and what a confirmed switch has behind it. */
module PresenceHysteresis {
  import opened Wrappers
  import opened Text
  import opened Identity
  import opened Tunables
  import opened Topology
  import opened Presence
  import opened PresenceRuns

  /** A sighting proper: one with an AP address. */
  predicate Sighted(step: Step) { step.Sight? && Lower(step.s.apMac) != "" }

  /** The beacon the recompute of this step looks at. */
  function Seen(b: Beacon, step: Step): Beacon {
    if step.Sight? then Observe(b, step.tun, step.now, step.s) else b
  }

  /** The AP that backs the published zone still sees the beacon. */
  predicate CurrentInPresence(b: Beacon, now: real, tun: Resolved) {
    b.zone != "" && b.ap in b.perAP && InPresence(b.perAP[b.ap], now, tun)
  }

  /** AP ap is closest, in another zone, and ahead of the current AP, itself still in presence, by the hysteresis. */
  predicate Leads(b: Beacon, tun: Resolved, top: Topology, now: real, look: Look, ap: string) {
    && CurrentInPresence(b, now, tun)
    && !(Silent(look.freshest, now, tun) && !StickyActive(b, now, tun))
    && look.closest.Some? && look.closest.value.key == ap && ap != b.ap
    && Zone(top, ap) != "" && Zone(top, ap) != b.zone
    && look.closest.value.eff - Effective(b.perAP[b.ap], now, tun) >= tun.hysteresisDb
  }

  /**
   * A sighting votes for an AP when that AP is closest, in another zone, and ahead of the current AP, itself still in
   * presence, by at least the hysteresis then in force.
   */
  predicate VotesFor(b: Beacon, step: Step, ap: string) {
    Sighted(step) && Leads(Seen(b, step), step.tun, step.top, step.now, step.look, ap)
  }

  /** A sighting the machine can make nothing of: no AP in presence, or the closest one has no zone. */
  predicate Blind(step: Step) {
    Sighted(step) && (step.look.closest.None? || Zone(step.top, step.look.closest.value.key) == "")
  }

  /** The step counted one more vote for the candidate it leaves, below the confirm count. */
  predicate CountsVote(b: Beacon, step: Step, b': Beacon) {
    && (step.Sight? || step.Tick?) && VotesFor(b, step, b'.candidateAP) && b'.zone == b.zone && b'.ap == b.ap
    && b'.candidateCount == (if b.candidateAP == b'.candidateAP then b.candidateCount else 0) + 1
    && b'.candidateCount < step.tun.confirmCount
  }

  predicate SameStanding(b: Beacon, b': Beacon) {
    b'.candidateAP == b.candidateAP && b'.candidateCount == b.candidateCount && b'.zone == b.zone && b'.ap == b.ap
  }

  lemma RecomputeCandidate(b: Beacon, tun: Resolved, top: Topology, now: real, fromAP: string, look: Look)
    requires look.closest.Some? ==> look.closest.value.key in b.perAP
    requires fromAP != "" ==> !Silent(look.freshest, now, tun)
    ensures var b' := Recompute(b, tun, top, now, fromAP, look).beacon;
      || b'.candidateCount == 0
      || (SameStanding(b, b') && (fromAP == "" || look.closest.None? || Zone(top, look.closest.value.key) == ""))
      || (fromAP != "" && Leads(b, tun, top, now, look, b'.candidateAP) && b'.zone == b.zone && b'.ap == b.ap
          && b'.candidateCount == (if b.candidateAP == b'.candidateAP then b.candidateCount else 0) + 1
          && b'.candidateCount < tun.confirmCount)
  {
  }

  /**
   * What one step does to the candidate: forget it, count a vote, or leave it alone; and a sighting leaves it alone
   * only when it is blind.
   */
  lemma CandidateStep(b: Beacon, step: Step)
    requires Enabled(b, step) && !step.Restore?
    ensures var b' := Apply(b, step).beacon;
      b'.candidateCount == 0 || CountsVote(b, step, b') || (SameStanding(b, b') && (Sighted(step) ==> Blind(step)))
  {
    if step.Sight? {
      CandidateSight(b, step);
    } else if step.Tick? {
      RecomputeCandidate(b, step.tun, step.top, step.now, "", step.look);
    }
  }

  lemma CandidateSight(b: Beacon, step: Step)
    requires step.Sight? && Enabled(b, step)
    ensures var b' := Apply(b, step).beacon;
      b'.candidateCount == 0 || CountsVote(b, step, b') || (SameStanding(b, b') && (Sighted(step) ==> Blind(step)))
  {
    var seen := Seen(b, step);
    assert SameStanding(b, seen);
    assert seen.perAP[Lower(step.s.apMac)].lastSighting == Some(step.now);
    RecomputeCandidate(seen, step.tun, step.top, step.now, Lower(step.s.apMac), step.look);
  }

  /**
   * A tick never advances a running count, and keeps it exactly when the sticky window holds the zone with no AP in
   * presence, or the closest AP has no zone, or it is another AP in another zone while the current one is still in
   * presence; otherwise the tick resets it.
   */
  lemma TickKeepsCandidateExactlyWhen(b: Beacon, step: Step)
    requires step.Tick? && Enabled(b, step) && b.zone != "" && b.candidateCount > 0
    ensures var count := Apply(b, step).beacon.candidateCount;
      var c, sticky := step.look.closest, StickyActive(b, step.now, step.tun);
      && (count == b.candidateCount || count == 0)
      && (count == b.candidateCount <==>
            if c.None? then sticky
            else (sticky || !Silent(step.look.freshest, step.now, step.tun))
                 && (Zone(step.top, c.value.key) == ""
                     || (CurrentInPresence(b, step.now, step.tun) && c.value.key != b.ap
                       && Zone(step.top, c.value.key) != b.zone)))
  {
  }

  /** Number of votes for ap among steps s to n - 1. */
  ghost function Votes(r: Run, s: nat, n: nat, ap: string): nat
    requires ValidRun(r) && s <= n <= |r.steps|
    decreases n
  {
    if s == n then 0 else Votes(r, s, n - 1, ap) + (if VotesFor(r.states[n - 1], r.steps[n - 1], ap) then 1 else 0)
  }

  /**
   * Since step s every sighting voted for ap or was blind, the published zone and its AP stayed the same, and the
   * votes number exactly count.
   */
  ghost predicate Streak(r: Run, s: nat, n: nat, ap: string, count: int)
    requires ValidRun(r) && s <= n <= |r.steps|
  {
    && Votes(r, s, n, ap) == count
    && (forall i | s <= i < n && Sighted(r.steps[i]) :: VotesFor(r.states[i], r.steps[i], ap) || Blind(r.steps[i]))
    && (forall i | s <= i <= n :: r.states[i].zone == r.states[n].zone && r.states[i].ap == r.states[n].ap)
  }

  ghost predicate NoRestore(r: Run, n: nat)
    requires n <= |r.steps|
  {
    forall i | 0 <= i < n :: !r.steps[i].Restore?
  }

  /** A streak grows by a vote for the same AP, or by a step that is not a sighting or is blind. */
  lemma StreakGrows(r: Run, s: nat, n: nat, ap: string, count: int)
    requires ValidRun(r) && s <= n < |r.steps| && Streak(r, s, n, ap, count)
    requires r.states[n + 1].zone == r.states[n].zone && r.states[n + 1].ap == r.states[n].ap
    requires Sighted(r.steps[n]) ==> VotesFor(r.states[n], r.steps[n], ap) || Blind(r.steps[n])
    ensures Streak(r, s, n + 1, ap, count + (if VotesFor(r.states[n], r.steps[n], ap) then 1 else 0))
  {
  }

  lemma VoteIsNotBlind(b: Beacon, step: Step, ap: string)
    requires VotesFor(b, step, ap)
    ensures !Blind(step)
  {
  }

  /** Blind sightings are not votes. */
  lemma BlindIsNoVote(b: Beacon, step: Step, ap: string)
    requires Blind(step)
    ensures !VotesFor(b, step, ap)
  {
  }

  /**
   * Step s is the first vote since the candidate was last reset: the candidate was none or another before it, and has
   * been ap with a running count in every state since.
   */
  ghost predicate FirstVoteSinceReset(r: Run, s: nat, n: nat, ap: string)
    requires ValidRun(r) && s <= n <= |r.steps|
  {
    && s < |r.steps| && VotesFor(r.states[s], r.steps[s], ap)
    && (r.states[s].candidateCount == 0 || r.states[s].candidateAP != ap)
    && forall i | s < i <= n :: r.states[i].candidateCount > 0 && r.states[i].candidateAP == ap
  }

  /** A positive counter at state n is the exact number of votes since the reset before step s. */
  ghost predicate CountedSince(r: Run, s: nat, n: nat)
    requires ValidRun(r) && s <= n <= |r.steps|
  {
    var b := r.states[n];
    && b.candidateCount >= 0
    && (b.candidateCount > 0 ==>
          s < n && FirstVoteSinceReset(r, s, n, b.candidateAP) && Streak(r, s, n, b.candidateAP, b.candidateCount))
  }

  /** A running count goes on: a vote more, or a step that is not a sighting or is blind. */
  lemma CountGoesOn(r: Run, s: nat, n: nat)
    requires ValidRun(r) && s <= n < |r.steps| && CountedSince(r, s, n)
    requires var b, step, b' := r.states[n], r.steps[n], r.states[n + 1];
      && b.candidateCount > 0 && b'.candidateCount > 0 && b'.candidateAP == b.candidateAP
      && b'.zone == b.zone && b'.ap == b.ap && (Sighted(step) ==> VotesFor(b, step, b.candidateAP) || Blind(step))
      && b'.candidateCount == b.candidateCount + (if VotesFor(b, step, b.candidateAP) then 1 else 0)
    ensures CountedSince(r, s, n + 1)
  {
    StreakGrows(r, s, n, r.states[n].candidateAP, r.states[n].candidateCount);
  }

  /** A count starts with a vote. */
  lemma CountStarts(r: Run, n: nat)
    requires ValidRun(r) && n < |r.steps|
    requires var b, b' := r.states[n], r.states[n + 1];
      && VotesFor(b, r.steps[n], b'.candidateAP) && (b.candidateCount == 0 || b.candidateAP != b'.candidateAP)
      && b'.candidateCount == 1 && b'.zone == b.zone && b'.ap == b.ap
    ensures CountedSince(r, n, n + 1)
  {
    var ap := r.states[n + 1].candidateAP;
    assert Streak(r, n, n, ap, 0);
    StreakGrows(r, n, n, ap, 0);
  }

  lemma CountStep(r: Run, s: nat, n: nat) returns (s': nat)
    requires ValidRun(r) && s <= n < |r.steps| && CountedSince(r, s, n) && !r.steps[n].Restore?
    ensures s' <= n + 1 && CountedSince(r, s', n + 1)
  {
    var b, step, b' := r.states[n], r.steps[n], r.states[n + 1];
    assert StepAt(r, n);
    CandidateStep(b, step);
    if b'.candidateCount == 0 {
      s' := n + 1;
    } else if CountsVote(b, step, b') && (b.candidateCount == 0 || b.candidateAP != b'.candidateAP) {
      s' := n;
      CountStarts(r, n);
    } else {
      s' := s;
      if Blind(step) {
        BlindIsNoVote(b, step, b.candidateAP);
      }
      CountGoesOn(r, s, n);
    }
  }

  /** The history behind the counter: whenever it is positive it is the exact number of votes since the last reset. */
  lemma {:induction false} CounterCountsVotes(r: Run, n: nat) returns (s: nat)
    requires ValidRun(r) && n <= |r.steps| && NoRestore(r, n) && r.states[0].candidateCount == 0
    ensures s <= n && CountedSince(r, s, n)
  {
    s := 0;
    if n > 0 {
      s := CounterCountsVotes(r, n - 1);
      s := CountStep(r, s, n - 1);
    }
  }

  /** A recompute that leaves the current AP while it is still in presence is a vote reaching the confirm count. */
  lemma SwitchIsConfirmedVote(b: Beacon, step: Step)
    requires (step.Sight? || step.Tick?) && Enabled(b, step) && CurrentInPresence(Seen(b, step), step.now, step.tun)
    requires var b' := Apply(b, step).beacon;
      b'.zone != "" && b'.ap != b.ap
    ensures var b' := Apply(b, step).beacon;
      && VotesFor(b, step, b'.ap)
      && (if b.candidateAP == b'.ap then b.candidateCount else 0) + 1 >= step.tun.confirmCount
      && |Apply(b, step).events| == 1
  {
  }

  /**
   * Step n moves the beacon to another AP although the current one still sees it: a recompute, or the application of a
   * topology.
   */
  ghost predicate SwitchesAt(r: Run, n: nat)
    requires ValidRun(r) && n < |r.steps|
  {
    && (r.steps[n].Sight? || r.steps[n].Tick? || r.steps[n].Retop?)
    && CurrentInPresence(Seen(r.states[n], r.steps[n]), r.steps[n].now, r.steps[n].tun)
    && r.states[n + 1].zone != "" && r.states[n + 1].ap != r.states[n].ap
  }

  /**
   * Hysteresis over whole runs: a switch that a recompute makes is itself a vote, and ends a streak that holds at least
   * ConfirmCount votes for the new AP since the last reset, through any reload of the tunables. The counter has counted
   * all of them but the last.
   */
  lemma SwitchHasConfirmedHistory(r: Run, n: nat) returns (s: nat)
    requires ValidRun(r) && n < |r.steps| && NoRestore(r, n) && r.states[0].candidateCount == 0
    requires SwitchesAt(r, n) && !r.steps[n].Retop?
    ensures var ap := r.states[n + 1].ap;
      && s <= n && FirstVoteSinceReset(r, s, n, ap) && VotesFor(r.states[n], r.steps[n], ap)
      && Streak(r, s, n, ap, if s < n then r.states[n].candidateCount else 0)
      && Votes(r, s, n + 1, ap) >= r.steps[n].tun.confirmCount
  {
    assert StepAt(r, n);
    SwitchIsConfirmedVote(r.states[n], r.steps[n]);
    s := CounterCountsVotes(r, n);
    if r.states[n].candidateCount == 0 || r.states[n].candidateAP != r.states[n + 1].ap {
      s := n;
    }
  }

  /** The confirm count is k at every sighting of the run. */
  ghost predicate ConfirmsWith(r: Run, k: int) {
    k >= 1 && forall i | 0 <= i < |r.steps| && r.steps[i].Sight? :: r.steps[i].tun.confirmCount == k
  }

  /** With the confirm count fixed at k, the stored counter never reaches it. */
  lemma {:induction false} CounterStaysBelowConfirm(r: Run, n: nat, k: int)
    requires ValidRun(r) && n <= |r.steps| && NoRestore(r, n) && ConfirmsWith(r, k)
    requires r.states[0].candidateCount < k
    ensures r.states[n].candidateCount < k
  {
    if n > 0 {
      CounterStaysBelowConfirm(r, n - 1, k);
      assert StepAt(r, n - 1);
      CandidateStep(r.states[n - 1], r.steps[n - 1]);
    }
  }

  // ----------------------------------------------- consecutive sightings

  /** Number of sightings among steps j to n - 1. */
  ghost function Sightings(r: Run, j: nat, n: nat): nat
    requires j <= n <= |r.steps|
    decreases n
  {
    if j == n then 0 else Sightings(r, j, n - 1) + (if Sighted(r.steps[n - 1]) then 1 else 0)
  }

  /** Every sighting among steps j to n - 1 votes for ap. */
  ghost predicate AllVote(r: Run, j: nat, n: nat, ap: string)
    requires ValidRun(r) && j <= n <= |r.steps|
  {
    forall i | j <= i < n && Sighted(r.steps[i]) :: VotesFor(r.states[i], r.steps[i], ap)
  }

  /** From step j up to and including step n there are k sightings, and all of them vote for ap. */
  ghost predicate AgreeFrom(r: Run, j: nat, n: nat, k: int, ap: string)
    requires ValidRun(r) && j <= n < |r.steps|
  {
    Sightings(r, j, n + 1) == k && AllVote(r, j, n + 1, ap)
  }

  /**
   * What ADR-0006 asks of a switch at step n: the last k sightings of the beacon, that of the switch included, agree.
   */
  ghost predicate LastAgree(r: Run, n: nat, k: int, ap: string)
    requires ValidRun(r) && n < |r.steps|
  {
    exists j: nat | j <= n :: AgreeFrom(r, j, n, k, ap)
  }

  ghost predicate NoneBlind(r: Run, s: nat, n: nat)
    requires s <= n < |r.steps|
  {
    forall i | s <= i <= n :: !Blind(r.steps[i])
  }

  lemma {:induction false} VotesAreSightings(r: Run, j: nat, n: nat, ap: string)
    requires ValidRun(r) && j <= n <= |r.steps| && AllVote(r, j, n, ap)
    ensures Votes(r, j, n, ap) == Sightings(r, j, n)
  {
    if j < n {
      VotesAreSightings(r, j, n - 1, ap);
    }
  }

  lemma {:induction false} VotesSplit(r: Run, s: nat, j: nat, n: nat, ap: string)
    requires ValidRun(r) && s <= j <= n <= |r.steps|
    ensures Votes(r, s, n, ap) == Votes(r, s, j, ap) + Votes(r, j, n, ap)
  {
    if j < n {
      VotesSplit(r, s, j, n - 1, ap);
    }
  }

  /** A run of k agreeing sightings that ends at n reaches back to the first of exactly k votes. */
  lemma AgreeingRunCoversVotes(r: Run, s: nat, j: nat, n: nat, ap: string)
    requires ValidRun(r) && s <= n < |r.steps| && j <= n && VotesFor(r.states[s], r.steps[s], ap)
    requires AgreeFrom(r, j, n, Votes(r, s, n + 1, ap), ap)
    ensures j <= s
  {
    if s < j {
      assert Votes(r, s, s + 1, ap) == Votes(r, s, s, ap) + 1;
      VotesSplit(r, s, s + 1, j, ap);
      VotesAreSightings(r, j, n + 1, ap);
      VotesSplit(r, s, j, n + 1, ap);
    }
  }

  /** With the confirm count fixed at k, exactly k votes stand behind a switch that a recompute makes. */
  lemma SwitchHasExactlyKVotes(r: Run, n: nat, k: int) returns (s: nat)
    requires ValidRun(r) && n < |r.steps| && NoRestore(r, n) && r.states[0].candidateCount == 0
    requires SwitchesAt(r, n) && !r.steps[n].Retop? && ConfirmsWith(r, k)
    ensures var ap := r.states[n + 1].ap;
      && s <= n && FirstVoteSinceReset(r, s, n, ap) && VotesFor(r.states[n], r.steps[n], ap)
      && Streak(r, s, n, ap, k - 1) && Votes(r, s, n + 1, ap) == k
  {
    s := SwitchHasConfirmedHistory(r, n);
    CounterStaysBelowConfirm(r, n, k);
  }

  /** If no sighting since the first of k votes is blind, all of them are votes. */
  lemma NoneBlindAgree(r: Run, s: nat, n: nat, k: int, ap: string)
    requires ValidRun(r) && s <= n < |r.steps| && Streak(r, s, n, ap, k - 1) && Votes(r, s, n + 1, ap) == k
    requires VotesFor(r.states[n], r.steps[n], ap) && NoneBlind(r, s, n)
    ensures LastAgree(r, n, k, ap)
  {
    forall i | s <= i < n + 1 && Sighted(r.steps[i])
      ensures VotesFor(r.states[i], r.steps[i], ap)
    {
      assert !Blind(r.steps[i]);
    }
    VotesAreSightings(r, s, n + 1, ap);
    assert AgreeFrom(r, s, n, k, ap);
  }

  /** If the last k sightings agree, they reach back to the first of k votes, so none since is blind. */
  lemma AgreeNoneBlind(r: Run, s: nat, n: nat, k: int, ap: string)
    requires ValidRun(r) && s <= n < |r.steps| && Votes(r, s, n + 1, ap) == k
    requires VotesFor(r.states[s], r.steps[s], ap) && LastAgree(r, n, k, ap)
    ensures NoneBlind(r, s, n)
  {
    var j: nat :| j <= n && AgreeFrom(r, j, n, k, ap);
    AgreeingRunCoversVotes(r, s, j, n, ap);
    forall i | s <= i <= n
      ensures !Blind(r.steps[i])
    {
      if Sighted(r.steps[i]) {
        VoteIsNotBlind(r.states[i], r.steps[i], ap);
      }
    }
  }

  /**
   * When a switch that a recompute makes keeps the promise of ADR-0006: the last k sightings agree if and only if no
   * sighting since the first vote was blind.
   */
  lemma ConsecutiveExactlyWhenNoneIsBlind(r: Run, n: nat, k: int) returns (s: nat)
    requires ValidRun(r) && n < |r.steps| && NoRestore(r, n) && r.states[0].candidateCount == 0
    requires SwitchesAt(r, n) && !r.steps[n].Retop? && ConfirmsWith(r, k)
    ensures s <= n && FirstVoteSinceReset(r, s, n, r.states[n + 1].ap)
    ensures LastAgree(r, n, k, r.states[n + 1].ap) <==> NoneBlind(r, s, n)
  {
    var ap := r.states[n + 1].ap;
    s := SwitchHasExactlyKVotes(r, n, k);
    if NoneBlind(r, s, n) {
      NoneBlindAgree(r, s, n, k, ap);
    }
    if LastAgree(r, n, k, ap) {
      AgreeNoneBlind(r, s, n, k, ap);
    }
  }

  // ------------------------------------------- switches made by a topology

  /** At least k votes for the new AP since the last reset stand behind the switch at step n. */
  ghost predicate Backed(r: Run, n: nat, k: int, ap: string)
    requires ValidRun(r) && n < |r.steps|
  {
    exists s: nat | s <= n :: FirstVoteSinceReset(r, s, n, ap) && VotesUpTo(r, s, n, ap) >= k
  }

  /** Number of votes for ap among steps s to n. */
  ghost function VotesUpTo(r: Run, s: nat, n: nat, ap: string): nat
    requires ValidRun(r) && s <= n < |r.steps|
  {
    Votes(r, s, n + 1, ap)
  }

  /** There is one first vote since the last reset. */
  lemma FirstVoteIsUnique(r: Run, s: nat, s': nat, n: nat, ap: string)
    requires ValidRun(r) && s <= n <= |r.steps| && s' <= n
    requires FirstVoteSinceReset(r, s, n, ap) && FirstVoteSinceReset(r, s', n, ap)
    ensures s == s'
  {
  }

  /** What a topology counts on is never a full confirmation: the counter would have made the switch before. */
  lemma RelabelIsNotBacked(r: Run, n: nat, k: int, s: nat, ap: string)
    requires ValidRun(r) && s <= n < |r.steps| && NoRestore(r, n) && r.states[0].candidateCount == 0
    requires r.steps[n].Retop? && ConfirmsWith(r, k) && FirstVoteSinceReset(r, s, n, ap)
    ensures VotesUpTo(r, s, n, ap) < k
  {
    assert s < n;
    assert r.states[n].candidateCount > 0 && r.states[n].candidateAP == ap;
    var s' := CounterCountsVotes(r, n);
    FirstVoteIsUnique(r, s, s', n, ap);
    CounterStaysBelowConfirm(r, n, k);
  }

  /**
   * Whatever makes a switch, with the confirm count fixed at k, k votes for the new AP since the last reset stand
   * behind it if and only if it is not the application of a topology.
   */
  lemma SwitchIsBackedExactlyWhen(r: Run, n: nat, k: int)
    requires ValidRun(r) && n < |r.steps| && NoRestore(r, n) && r.states[0].candidateCount == 0
    requires SwitchesAt(r, n) && ConfirmsWith(r, k)
    ensures Backed(r, n, k, r.states[n + 1].ap) <==> !r.steps[n].Retop?
  {
    var ap := r.states[n + 1].ap;
    if r.steps[n].Retop? {
      forall s: nat | s <= n && FirstVoteSinceReset(r, s, n, ap)
        ensures VotesUpTo(r, s, n, ap) < k
      {
        RelabelIsNotBacked(r, n, k, s, ap);
      }
    } else {
      var s := SwitchHasExactlyKVotes(r, n, k);
      assert VotesUpTo(r, s, n, ap) == k;
    }
  }

  /**
   * When the application of a topology switches: the beacon is in a zone and its closest AP, another one, has a label
   * that is neither empty nor the published one. Votes and hysteresis have no part in it.
   */
  lemma RelabelSwitchesExactlyWhen(r: Run, n: nat)
    requires ValidRun(r) && n < |r.steps| && r.steps[n].Retop?
    requires CurrentInPresence(r.states[n], r.steps[n].now, r.steps[n].tun)
    ensures SwitchesAt(r, n) <==>
      && r.steps[n].closest.Some? && r.steps[n].closest.value.key != r.states[n].ap
      && Zone(r.steps[n].top, r.steps[n].closest.value.key) !in {"", r.states[n].zone}
  {
    assert StepAt(r, n);
  }
}
