/**
 * Concrete runs, each from a fresh beacon, in which the machine does what its documentation says it does not: two
 * mapped access points and one without a zone, all heard at the same moment.
 */
module PresenceWitnesses {
  import opened Wrappers
  import opened Text
  import opened Identity
  import opened Tunables
  import opened Topology
  import opened Presence
  import opened PresenceRuns
  import opened PresenceHysteresis

  // ------------------------------------------- votes need not be consecutive

  /** A setting with ConfirmCount 2 and no smoothing or decay. */
  const SHARP := Settings(1.0, 5, 0.0, -95, 30, 0, 4.0, 2)

  /** Two mapped APs; any third one has no zone. */
  function TwoZones(): Topology { Topology(map["a" := "east", "b" := "west"], [], _ => None) }

  function Heard(rssi: int): ApState { ApState("", rssi as real, rssi, Some(0.0), None) }

  function SightOf(id: BeaconKey, ap: string, rssi: int, closest: Closest): Step {
    Sight(0.0, SHARP, TwoZones(), Sighting(id, ap, "", rssi, None, None, None), Look(Some(closest), Some(0.0)))
  }

  /** The beacon once AP a alone has heard it, and once AP b has been heard 20 dB louder. */
  function InTheEast(id: BeaconKey): Beacon {
    NewBeacon(id, "tag").(perAP := map["a" := Heard(-80)], zone := "east", ap := "a", lastArrival := Some(0.0))
  }

  function Tempted(id: BeaconKey): Beacon {
    var b := InTheEast(id);
    b.(perAP := b.perAP["b" := Heard(-60)], candidateAP := "b", candidateCount := 1)
  }

  /** Then once an unmapped AP has been heard louder still, and once AP b has been heard loudest of all. */
  function Distracted(id: BeaconKey): Beacon {
    var b := Tempted(id);
    b.(perAP := b.perAP["u" := Heard(-40)])
  }

  function InTheWest(id: BeaconKey): Beacon {
    var b := Distracted(id);
    MoveTo(b.(perAP := b.perAP["b" := Heard(-30)]), "west", "b")
  }

  function FirstSight(id: BeaconKey): Step { SightOf(id, "a", -80, Closest("a", -80.0, 0.0)) }

  function VoteSight(id: BeaconKey): Step { SightOf(id, "b", -60, Closest("b", -60.0, 20.0)) }

  function BlindSight(id: BeaconKey): Step { SightOf(id, "u", -40, Closest("u", -40.0, 20.0)) }

  function LastSight(id: BeaconKey): Step { SightOf(id, "b", -30, Closest("b", -30.0, 10.0)) }

  /** An arrival in the east on AP a, then sightings for AP b, for an unmapped AP, and for AP b again. */
  function InterruptedRun(id: BeaconKey): Run {
    Run([NewBeacon(id, "tag"), InTheEast(id), Tempted(id), Distracted(id), InTheWest(id)],
        [FirstSight(id), VoteSight(id), BlindSight(id), LastSight(id)])
  }

  /** At the moment of their sightings, the best of two known readings leads the other by their difference. */
  lemma LeaderOf(perAP: map<string, ApState>, best: string, other: string, x: int, y: int)
    requires best in perAP && other in perAP && best != other && perAP[best] == Heard(x) && perAP[other] == Heard(y)
    requires x >= y >= -95
    requires forall k | k in perAP && k != best :: exists z: int :: perAP[k] == Heard(z) && -95 <= z <= y
    ensures IsLook(perAP, 0.0, SHARP, Look(Some(Closest(best, x as real, (x - y) as real)), Some(0.0)))
  {
    var present := Present(perAP, 0.0, SHARP);
    assert best in present && other in present - {best};
    forall k | k in perAP && k != best
      ensures k in present && Effective(perAP[k], 0.0, SHARP) <= y as real && perAP[k].lastSighting == Some(0.0)
    {
    }
    assert Effective(perAP[other], 0.0, SHARP) == y as real;
  }

  lemma LoneLeader(ap: string, x: int)
    requires x >= -95
    ensures IsLook(map[ap := Heard(x)], 0.0, SHARP, Look(Some(Closest(ap, x as real, 0.0)), Some(0.0)))
  {
    var perAP := map[ap := Heard(x)];
    assert Present(perAP, 0.0, SHARP) == {ap};
    assert perAP[ap].lastSighting == Some(0.0);
  }

  lemma ArrivalInTheEast(id: BeaconKey)
    ensures var b, step := NewBeacon(id, "tag"), FirstSight(id);
      Enabled(b, step) && Apply(b, step).beacon == InTheEast(id) && Sighted(step)
  {
    assert Lower("a") == "a";
    LoneLeader("a", -80);
    assert Zone(TwoZones(), "a") == "east";
  }

  lemma VoteForTheWest(id: BeaconKey)
    ensures var b, step := InTheEast(id), VoteSight(id);
      Enabled(b, step) && Apply(b, step).beacon == Tempted(id) && Sighted(step) && VotesFor(b, step, "b")
  {
    var b, step := InTheEast(id), VoteSight(id);
    assert Lower("b") == "b";
    LeaderOf(Tempted(id).perAP, "b", "a", -60, -80);
    assert Zone(TwoZones(), "b") == "west";
    assert Observe(b, SHARP, 0.0, step.s).perAP == Tempted(id).perAP;
  }

  lemma UnmappedSighting(id: BeaconKey)
    ensures var b, step := Tempted(id), BlindSight(id);
      Enabled(b, step) && Apply(b, step).beacon == Distracted(id) && Sighted(step) && Blind(step)
  {
    var b, step := Tempted(id), BlindSight(id);
    assert Lower("u") == "u";
    LeaderOf(Distracted(id).perAP, "u", "b", -40, -60);
    assert Zone(TwoZones(), "u") == "";
    assert Observe(b, SHARP, 0.0, step.s).perAP == Distracted(id).perAP;
  }

  lemma SecondVote(id: BeaconKey)
    ensures var b, step := Distracted(id), LastSight(id);
      Enabled(b, step) && Apply(b, step).beacon == InTheWest(id) && Sighted(step) && VotesFor(b, step, "b")
  {
    var b, step := Distracted(id), LastSight(id);
    LastLook(id);
    assert Lower("b") == "b";
    assert Zone(TwoZones(), "b") == "west";
  }

  lemma LastLook(id: BeaconKey)
    ensures var b, step := Distracted(id), LastSight(id);
      && Observe(b, SHARP, 0.0, step.s).perAP == InTheWest(id).perAP
      && IsLook(InTheWest(id).perAP, 0.0, SHARP, step.look)
  {
    assert Lower("b") == "b";
    LeaderOf(InTheWest(id).perAP, "b", "u", -30, -40);
  }

  /**
   * The confirming sightings need not be consecutive: from a fresh beacon, with ConfirmCount 2, the machine switches on
   * a vote, a sighting whose closest AP has no zone, and a second vote, so the last two sightings do not agree.
   */
  lemma InterruptedVotesStillConfirm(id: BeaconKey)
    ensures var r := InterruptedRun(id);
      && ValidRun(r) && r.states[0] == NewBeacon(id, "tag") && NoRestore(r, |r.steps|) && SHARP.confirmCount == 2
      && (forall i | 0 <= i < |r.steps| :: Sighted(r.steps[i]) && r.steps[i].tun == SHARP)
      && SwitchesAt(r, 3) && r.states[4].ap == "b" && Blind(r.steps[2]) && !LastAgree(r, 3, 2, "b")
  {
    var r := InterruptedRun(id);
    InterruptedRunIsValid(id);
    SecondVote(id);
    BlindIsNoVote(r.states[2], r.steps[2], "b");
    forall j: nat | j <= 3
      ensures !AgreeFrom(r, j, 3, 2, "b")
    {
      if j == 3 {
        assert Sightings(r, 3, 4) == Sightings(r, 3, 3) + 1;
      } else {
        assert Sighted(r.steps[2]) && !VotesFor(r.states[2], r.steps[2], "b");
      }
    }
  }

  lemma FirstSteps(r: Run, id: BeaconKey)
    requires |r.states| == |r.steps| + 1 && |r.steps| >= 2
    requires r.states[0] == NewBeacon(id, "tag") && r.states[1] == InTheEast(id) && r.states[2] == Tempted(id)
    requires r.steps[0] == FirstSight(id) && r.steps[1] == VoteSight(id)
    ensures StepAt(r, 0) && StepAt(r, 1) && Sighted(r.steps[0]) && Sighted(r.steps[1])
  {
    ArrivalInTheEast(id);
    VoteForTheWest(id);
  }

  lemma FourStepsAreValid(r: Run)
    requires |r.states| == 5 && |r.steps| == 4 && StepAt(r, 0) && StepAt(r, 1) && StepAt(r, 2) && StepAt(r, 3)
    requires r.steps[0].now == r.steps[1].now == r.steps[2].now == r.steps[3].now
    ensures ValidRun(r)
  {
    forall i | 0 <= i < |r.steps|
      ensures StepAt(r, i) && r.steps[i].now == r.steps[0].now
    {
      assert i == 0 || i == 1 || i == 2 || i == 3;
    }
  }

  lemma InterruptedRunIsValid(id: BeaconKey)
    ensures var r := InterruptedRun(id);
      && ValidRun(r) && Blind(r.steps[2])
      && forall i | 0 <= i < |r.steps| :: Sighted(r.steps[i]) && r.steps[i].tun == SHARP
  {
    var r := InterruptedRun(id);
    FirstSteps(r, id);
    LastSteps(r, id);
    FourStepsAreValid(r);
    forall i | 0 <= i < |r.steps|
      ensures Sighted(r.steps[i])
    {
      assert i == 0 || i == 1 || i == 2 || i == 3;
    }
  }

  lemma LastSteps(r: Run, id: BeaconKey)
    requires |r.states| == 5 && |r.steps| == 4
    requires r.states[2] == Tempted(id) && r.states[3] == Distracted(id) && r.states[4] == InTheWest(id)
    requires r.steps[2] == BlindSight(id) && r.steps[3] == LastSight(id)
    ensures StepAt(r, 2) && StepAt(r, 3) && Sighted(r.steps[2]) && Sighted(r.steps[3]) && Blind(r.steps[2])
  {
    UnmappedSighting(id);
    SecondVote(id);
  }

  // ------------------------------------------------- a tick can reset the count

  /** The same map with AP b moved to the east. */
  function OneZone(): Topology { Topology(map["a" := "east", "b" := "east"], [], _ => None) }

  /** An arrival on AP a, a vote for AP b, a new map in which both are in one zone, and a tick. */
  function ResetRun(id: BeaconKey): Run {
    var b1, b2, c := InTheEast(id), Tempted(id), Closest("b", -60.0, 20.0);
    Run([NewBeacon(id, "tag"), b1, b2, b2, Forget(b2)],
        [FirstSight(id), VoteSight(id),
         Retop(0.0, SHARP, OneZone(), "tag", Some(c)),
         Tick(0.0, SHARP, OneZone(), Look(Some(c), Some(0.0)))])
  }

  /** From a fresh beacon, a tick takes a running count to zero, silently. */
  lemma TickResetsCount(id: BeaconKey)
    ensures var r := ResetRun(id);
      && ValidRun(r) && r.states[0] == NewBeacon(id, "tag") && r.steps[3].Tick?
      && r.states[3].candidateCount == 1 && r.states[4].candidateCount == 0 && EventsAt(r, 3) == []
  {
    var r := ResetRun(id);
    FirstSteps(r, id);
    RelabelKeepsCount(id);
    TickForgets(id);
    FourStepsAreValid(r);
  }

  lemma RelabelKeepsCount(id: BeaconKey)
    ensures var b, step := Tempted(id), ResetRun(id).steps[2];
      Enabled(b, step) && Apply(b, step) == Outcome(b, [])
  {
    assert Lower("b") == "b" && Zone(OneZone(), "b") == "east";
    LeaderOf(Tempted(id).perAP, "b", "a", -60, -80);
  }

  lemma TickForgets(id: BeaconKey)
    ensures var b, step := Tempted(id), ResetRun(id).steps[3];
      Enabled(b, step) && Apply(b, step) == Outcome(Forget(b), [])
  {
    assert Lower("b") == "b" && Zone(OneZone(), "b") == "east";
    LeaderOf(Tempted(id).perAP, "b", "a", -60, -80);
  }

  // ------------------------------------- applying a topology switches at once

  /** The beacon of a running vote, moved to the west by nothing but the application of a topology. */
  function Relabelled(id: BeaconKey): Beacon { MoveTo(Tempted(id), "west", "b") }

  function Reapply(): Step { Retop(0.0, SHARP, TwoZones(), "tag", Some(Closest("b", -60.0, 20.0))) }

  /** An arrival on AP a, one vote for AP b, and the same topology applied again. */
  function ReappliedRun(id: BeaconKey): Run {
    Run([NewBeacon(id, "tag"), InTheEast(id), Tempted(id), Relabelled(id)], [FirstSight(id), VoteSight(id), Reapply()])
  }

  lemma ReapplyMoves(id: BeaconKey)
    ensures Enabled(Tempted(id), Reapply()) && Apply(Tempted(id), Reapply()).beacon == Relabelled(id)
  {
    assert Lower("b") == "b" && Zone(TwoZones(), "b") == "west";
    LeaderOf(Tempted(id).perAP, "b", "a", -60, -80);
  }

  lemma ReappliedRunIsValid(id: BeaconKey)
    ensures ValidRun(ReappliedRun(id))
  {
    var r := ReappliedRun(id);
    FirstSteps(r, id);
    ReapplyMoves(id);
    assert StepAt(r, 2);
    forall i | 0 <= i < |r.steps|
      ensures StepAt(r, i) && r.steps[i].now == 0.0
    {
      assert i == 0 || i == 1 || i == 2;
    }
  }

  lemma NoVoteBeforeArrival(id: BeaconKey)
    ensures !VotesFor(NewBeacon(id, "tag"), FirstSight(id), "b") && Sighted(FirstSight(id))
  {
    assert Lower("a") == "a";
  }

  /**
   * Applying the same topology again moves a published zone, with ConfirmCount 2 and a single vote, and with no blind
   * sighting, although the old AP is still in presence.
   */
  lemma ReapplyingSwitches(id: BeaconKey)
    ensures var r := ReappliedRun(id);
      && ValidRun(r) && r.states[0] == NewBeacon(id, "tag") && ConfirmsWith(r, 2)
      && (forall i | 0 <= i < |r.steps| :: r.steps[i].top == TwoZones() && !Blind(r.steps[i]))
      && SwitchesAt(r, 2) && r.states[2].zone == "east" && r.states[3].zone == "west"
      && !Backed(r, 2, 2, "b") && !LastAgree(r, 2, 2, "b")
  {
    var r := ReappliedRun(id);
    ReappliedRunIsValid(id);
    ReapplyHasNoBlind(id);
    assert r.states[2].perAP["a"] == Heard(-80);
    SwitchIsBackedExactlyWhen(r, 2, 2);
    forall j: nat | j <= 2
      ensures !AgreeFrom(r, j, 2, 2, "b")
    {
      ReapplyDisagrees(id, j);
    }
  }

  lemma ReapplyHasNoBlind(id: BeaconKey)
    ensures var r := ReappliedRun(id);
      forall i | 0 <= i < |r.steps| :: r.steps[i].top == TwoZones() && !Blind(r.steps[i])
  {
    var r := ReappliedRun(id);
    assert Lower("a") == "a" && Lower("b") == "b" && Zone(TwoZones(), "a") == "east" && Zone(TwoZones(), "b") == "west";
    forall i | 0 <= i < |r.steps|
      ensures r.steps[i].top == TwoZones() && !Blind(r.steps[i])
    {
      assert i == 0 || i == 1 || i == 2;
    }
  }

  lemma ReapplyDisagrees(id: BeaconKey, j: nat)
    requires j <= 2 && ValidRun(ReappliedRun(id))
    ensures !AgreeFrom(ReappliedRun(id), j, 2, 2, "b")
  {
    var r := ReappliedRun(id);
    assert !Sighted(r.steps[2]);
    if j == 0 {
      NoVoteBeforeArrival(id);
      assert r.states[0] == NewBeacon(id, "tag") && r.steps[0] == FirstSight(id);
    } else {
      assert Sightings(r, 2, 3) == Sightings(r, 2, 2);
      assert Sightings(r, 1, 3) == Sightings(r, 1, 2) <= Sightings(r, 1, 1) + 1;
    }
  }

  // -------------------------------------- an unmapped AP blocks the arrival

  function UnmappedFirst(id: BeaconKey): Step { SightOf(id, "u", -40, Closest("u", -40.0, 0.0)) }

  function MappedSecond(id: BeaconKey): Step { SightOf(id, "a", -80, Closest("u", -40.0, 40.0)) }

  function Unseen(id: BeaconKey): Beacon { NewBeacon(id, "tag").(perAP := map["u" := Heard(-40)]) }

  function StillAway(id: BeaconKey): Beacon {
    NewBeacon(id, "tag").(perAP := map["u" := Heard(-40), "a" := Heard(-80)])
  }

  /** A sighting by an AP without a zone, then one by a mapped AP, well above the floor but weaker. */
  function BlockedRun(id: BeaconKey): Run {
    Run([NewBeacon(id, "tag"), Unseen(id), StillAway(id)], [UnmappedFirst(id), MappedSecond(id)])
  }

  lemma UnmappedDoesNotArrive(id: BeaconKey)
    ensures var b, step := NewBeacon(id, "tag"), UnmappedFirst(id);
      Enabled(b, step) && Apply(b, step) == Outcome(Unseen(id), [])
  {
    assert Lower("u") == "u" && Zone(TwoZones(), "u") == "";
    LoneLeader("u", -40);
  }

  lemma MappedDoesNotArrive(id: BeaconKey)
    ensures var b, step := Unseen(id), MappedSecond(id);
      Enabled(b, step) && Apply(b, step) == Outcome(StillAway(id), [])
  {
    assert Lower("a") == "a" && Lower("u") == "u" && Zone(TwoZones(), "u") == "";
    LeaderOf(StillAway(id).perAP, "u", "a", -40, -80);
    assert Observe(Unseen(id), SHARP, 0.0, MappedSecond(id).s).perAP == StillAway(id).perAP;
  }

  lemma BlockedRunIsValid(id: BeaconKey)
    ensures ValidRun(BlockedRun(id))
  {
    var r := BlockedRun(id);
    UnmappedDoesNotArrive(id);
    MappedDoesNotArrive(id);
    forall i | 0 <= i < |r.steps|
      ensures StepAt(r, i) && r.steps[i].now == 0.0
    {
      assert i == 0 || i == 1;
    }
  }

  lemma BlockedRunIsSilent(id: BeaconKey)
    requires ValidRun(BlockedRun(id))
    ensures Emitted(BlockedRun(id), 2) == []
  {
    var r := BlockedRun(id);
    assert EventsAt(r, 0) == [] by {
      UnmappedDoesNotArrive(id);
    }
    assert EventsAt(r, 1) == [] by {
      MappedDoesNotArrive(id);
    }
    assert Emitted(r, 1) == Emitted(r, 0) + EventsAt(r, 0);
  }

  /** A sighting that brings a mapped AP into presence does not cause the arrival while an unmapped AP is closer. */
  lemma UnmappedBlocksArrival(id: BeaconKey)
    ensures var r := BlockedRun(id);
      && ValidRun(r) && r.states[0] == NewBeacon(id, "tag") && r.steps[1].Sight?
      && "a" !in r.states[1].perAP && "a" in Present(r.states[2].perAP, 0.0, SHARP) && Zone(TwoZones(), "a") == "east"
      && r.states[2].zone == "" && Emitted(r, 2) == []
  {
    BlockedRunIsValid(id);
    BlockedRunIsSilent(id);
    assert Lower("a") == "a";
  }
}
