/** From the engine to Home Assistant: what the broker holds for a beacon is what the engine publishes. */
module PublishedState {
  import opened Wrappers
  import opened Identity
  import opened Presence
  import opened PresenceRuns
  import opened EngineSpec
  import opened EngineRuns
  import Discovery
  import opened DiscoveryTopics
  import MqttPublisher

  /** The publisher's run when it handles some events, in order, and all documents marshal. */
  function Handling(events: seq<Event>): seq<Discovery.Step> {
    seq(|events|, i requires 0 <= i < |events| => Discovery.Handle(events[i], true, true))
  }

  lemma HandlingSnoc(env: Discovery.Env, s: Discovery.Site, events: seq<Event>)
    requires events != []
    ensures var n := |events| - 1;
      Discovery.After(env, s, Handling(events))
        == Discovery.Apply(env, Discovery.After(env, s, Handling(events[..n])), Discovery.Handle(events[n], true, true))
  {
    var n := |events| - 1;
    assert Handling(events)[..n] == Handling(events[..n]);
  }

  /** No other beacon among the events has the entity id of k. */
  ghost predicate OwnEntity(env: Discovery.Env, events: seq<Event>, k: BeaconKey) {
    forall i | 0 <= i < |events| && Discovery.Entity(env, events[i].beacon) == Discovery.Entity(env, k) ::
      events[i].beacon == k
  }

  /** The topics of an entity show the last of its events, or what they held before if there is none. */
  predicate TopicsShow(before: Discovery.Site, after: Discovery.Site, e: string, own: seq<Event>) {
    var state, telemetry := Discovery.StateTopic(e), Discovery.TelemetryTopic(e);
    if own == [] then
      && Discovery.Held(after.retained, state) == Discovery.Held(before.retained, state)
      && Discovery.Held(after.retained, telemetry) == Discovery.Held(before.retained, telemetry)
    else
      var last := own[|own| - 1];
      && Discovery.Held(after.retained, state) == Some(Discovery.TrackerState(last.state != NOT_HOME))
      && Discovery.Held(after.retained, telemetry)
           == Some(Discovery.Telemetry(last.state, last.battery, last.temperature))
  }

  lemma OneMoreEvent(
      env: Discovery.Env, s: Discovery.Site, mid: Discovery.Site, own: seq<Event>, ev: Event, k: BeaconKey, e: string)
    requires e == Discovery.Entity(env, k) && Slashless(e) && TopicsShow(s, mid, e, own)
    requires Discovery.Entity(env, ev.beacon) == e ==> ev.beacon == k
    ensures var after := Discovery.Apply(env, mid, Discovery.Handle(ev, true, true));
      TopicsShow(s, after, e, own + (if ev.beacon == k then [ev] else []))
  {
    if ev.beacon == k {
      HandleWrites(env, mid, ev, true, true);
    } else {
      OtherStepsKeepTopics(env, mid, Discovery.Handle(ev, true, true), e);
      assert own + [] == own;
    }
  }

  /** The topics of a beacon follow its events. */
  lemma {:induction false} TopicsFollowEvents(env: Discovery.Env, s: Discovery.Site, events: seq<Event>, k: BeaconKey)
    requires OwnEntity(env, events, k) && Slashless(Discovery.Entity(env, k))
    ensures TopicsShow(s, Discovery.After(env, s, Handling(events)), Discovery.Entity(env, k), Project(events, k))
  {
    if events != [] {
      var n := |events| - 1;
      TopicsFollowEvents(env, s, events[..n], k);
      HandlingSnoc(env, s, events);
      OneMoreEvent(env, s, Discovery.After(env, s, Handling(events[..n])), Project(events[..n], k), events[n], k,
        Discovery.Entity(env, k));
    }
  }

  /**
   * End to end: if the publisher handles what a trace of the engine emitted, the broker's tracker state of a beacon
   * that was announced at all is home if and only if the engine publishes it in a zone, and the area is that zone.
   */
  lemma BrokerAgreesWithEngine(tr: Trace, k: BeaconKey, n: nat, env: Discovery.Env, s: Discovery.Site)
    requires ValidTrace(tr) && TrackedThroughout(tr, k) && n <= |tr.moves|
    requires forall i | 0 <= i < n :: !tr.moves[i].action.RestoreState?
    requires OwnEntity(env, Log(tr.outs, n), k) && Slashless(Discovery.Entity(env, k))
    requires Project(Log(tr.outs, n), k) != []
    ensures var e, r := Discovery.Entity(env, k), Discovery.After(env, s, Handling(Log(tr.outs, n))).retained;
      var published := Published(tr.states[n].beacons[k]);
      && Discovery.Held(r, Discovery.StateTopic(e)) == Some(Discovery.TrackerState(published != NOT_HOME))
      && Discovery.TelemetryTopic(e) in r && r[Discovery.TelemetryTopic(e)].Telemetry?
      && r[Discovery.TelemetryTopic(e)].area == published
  {
    TopicsFollowEvents(env, s, Log(tr.outs, n), k);
    EngineLogAgreesWithState(tr, k, n);
  }

  /**
   * Documents that do not marshal: a config that is due stops its event before anything is published or noted; a state
   * document costs only the telemetry, not the tracker's state.
   */
  lemma MarshalFailures(
      env: Discovery.Env, s: Discovery.Site, ev: Event, configOk: Event -> bool, stateOk: Event -> bool)
    requires Slashless(Discovery.Entity(env, ev.beacon))
    ensures var e := Discovery.Entity(env, ev.beacon);
      var s' := Discovery.Apply(env, s, MqttPublisher.StepOf(MqttPublisher.EventItem(ev), configOk, stateOk));
      var state, telemetry := Discovery.StateTopic(e), Discovery.TelemetryTopic(e);
      && (!configOk(ev) && Discovery.NeedsConfig(s, e, ev) ==> s' == s)
      && (configOk(ev) ==>
            && e in s'.seen && Discovery.Held(s'.retained, state) == Some(Discovery.TrackerState(ev.state != NOT_HOME))
            && Discovery.Held(s'.retained, telemetry)
                 == if stateOk(ev) then Some(Discovery.Telemetry(ev.state, ev.battery, ev.temperature))
                    else Discovery.Held(s.retained, telemetry))
  {
    if configOk(ev) {
      HandleWrites(env, s, ev, true, stateOk(ev));
      OtherStepsKeepTopics(env, s, Discovery.Handle(ev, true, stateOk(ev)), Discovery.Entity(env, ev.beacon));
    }
  }
}
