/** What Home Assistant reads: the state and telemetry topics of an entity over whole runs of the publisher. */
module DiscoveryTopics {
  import opened Wrappers
  import opened Text
  import opened Identity
  import Presence
  import opened Discovery

  /** An entity id without a slash, as every id is whose key holds none. */
  predicate Slashless(e: string) { '/' !in e }

  lemma {:induction false} StripDashesAddsNone(key: string)
    requires '/' !in key
    ensures '/' !in StripDashes(key)
  {
    if key != "" {
      StripDashesAddsNone(key[1..]);
    }
  }

  /** Every known kind of key has such an entity id, provided its key, or for a free-form key its hash, has no slash. */
  lemma EntityIsSlashless(k: BeaconKey, hash: string -> string)
    requires KnownKind(k.kind) && (if FreeForm(k.kind) then '/' !in hash(k.key) else '/' !in k.key)
    ensures Slashless(EntityID(k, hash))
  {
    assert '/' !in EntityBase(k.kind);
    if FreeForm(k.kind) {
      SanitizeFreeIsClean(k.key);
    } else if k.kind == IBEACON {
      StripDashesAddsNone(k.key);
    }
  }

  /** So has every key that NewIBeaconKey, NewEddystoneUIDKey, NewEddystoneURLKey or NewNameKey can return. */
  lemma ConstructedIsSlashless(k: BeaconKey, hash: string -> string)
    requires FreeForm(k.kind) || IsIBeaconKey(k) || (k.kind == EDDYSTONE_UID && IsUidText(k.key))
    requires '/' !in hash(k.key)
    ensures Slashless(EntityID(k, hash))
  {
    if IsIBeaconKey(k) {
      var u: string, major: uint16, minor: uint16 :| IsCanonicalUUID(u) && k.key == IBeaconText(u, major, minor);
      assert '/' !in u && '/' !in Decimal(major) && '/' !in Decimal(minor);
    } else if k.kind == EDDYSTONE_UID {
      assert k.key == k.key[..20] + "_" + k.key[21..];
    }
    EntityIsSlashless(k, hash);
  }

  /** With a slash in the id of one entity, a fitting prefix makes its state topic a legacy topic of another. */
  lemma SlashedTopicsCollide()
    ensures StateTopic("briihass_mfg_a/device_tracker/x") == LegacyTopics("briihass/briihass_mfg_a", "x")[1]
  {
    assert "briihass/" + "briihass_mfg_a/device_tracker/x" == "briihass/briihass_mfg_a" + "/device_tracker/" + "x";
  }

  // ------------------------------------------------------------- own topics

  /** A legacy topic has two slashes before its last part, a state topic of such an entity only one. */
  lemma LegacyStateIsNotState(prefix: string, e: string, e': string)
    requires Slashless(e)
    ensures StateTopic(e) != prefix + "/device_tracker/" + e' + "/state"
  {
    var legacy := prefix + "/device_tracker/" + e' + "/state";
    assert legacy[|prefix|] == '/' && legacy[|prefix| + 15] == '/' && |legacy| >= |prefix| + 22;
    forall i | 9 <= i < 9 + |e|
      ensures StateTopic(e)[i] != '/'
    {
      assert StateTopic(e)[i] == e[i - 9];
    }
  }

  lemma MiddleIsUnique(head: string, e: string, e': string, tail: string)
    requires head + e + tail == head + e' + tail
    ensures e == e'
  {
    var t := head + e + tail;
    assert |e| == |e'|;
    assert t[|head|..|head| + |e|] == e && t[|head|..|head| + |e'|] == e';
  }

  /** No topic of another entity, and no other topic of its own, is an entity's state topic. */
  lemma StateTopicIsOwn(prefix: string, e: string, e': string)
    requires Slashless(e)
    ensures StateTopic(e) != ConfigTopic(prefix, e') && StateTopic(e) != TelemetryTopic(e')
    ensures StateTopic(e) !in LegacyTopics(prefix, e') && (StateTopic(e) == StateTopic(e') ==> e == e')
  {
    OtherTopicsAreNotConfig(prefix, e', e);
    var s, t, l := StateTopic(e), TelemetryTopic(e'), LegacyTopics(prefix, e');
    assert s[|s| - 1] == 'e' && t[|t| - 1] == 'y' && l[0][|l[0]| - 1] == 'g' && l[2][|l[2]| - 1] == 's';
    LegacyStateIsNotState(prefix, e, e');
    if s == StateTopic(e') {
      MiddleIsUnique(BRIDGE_TOPIC, e, e', "/state");
    }
  }

  /** The same for telemetry topics, of any entity. */
  lemma TelemetryTopicIsOwn(prefix: string, e: string, e': string)
    ensures TelemetryTopic(e) != ConfigTopic(prefix, e') && TelemetryTopic(e) != StateTopic(e')
    ensures TelemetryTopic(e) !in LegacyTopics(prefix, e') && (TelemetryTopic(e) == TelemetryTopic(e') ==> e == e')
  {
    OtherTopicsAreNotConfig(prefix, e', e);
    var t, s, l := TelemetryTopic(e), StateTopic(e'), LegacyTopics(prefix, e');
    assert t[|t| - 1] == 'y' && s[|s| - 1] == 'e';
    assert l[0][|l[0]| - 1] == 'g' && l[1][|l[1]| - 1] == 'e' && l[2][|l[2]| - 1] == 's';
    if t == TelemetryTopic(e') {
      MiddleIsUnique(BRIDGE_TOPIC, e, e', "/telemetry");
    }
  }

  // --------------------------------------------------------------- one step

  /** The event reaches the state topic: its config is not due, or it marshals. */
  predicate Passes(env: Env, s: Site, ev: Presence.Event, configOk: bool) {
    configOk || !NeedsConfig(s, Entity(env, ev.beacon), ev)
  }

  /** When a config is due: the broker's one does not yet declare the entity with what the event reports. */
  lemma ConfigIsDueExactlyWhen(env: Env, s: Site, ev: Presence.Event)
    requires Matches(env, s)
    ensures var e := Entity(env, ev.beacon);
      NeedsConfig(s, e, ev) <==>
        || e !in s.seen
        || (ev.battery.Some? && e + "_voltage" !in s.retained[ConfigTopic(env.prefix, e)].components)
        || (ev.temperature.Some? && e + "_temperature" !in s.retained[ConfigTopic(env.prefix, e)].components)
  {
    var e := Entity(env, ev.beacon);
    if e in s.seen {
      assert DeclaredAs(env, s, e);
      ComponentsAreExact(e, Flag(s.hasVoltage, e), Flag(s.hasTemp, e));
    }
  }

  lemma AnnounceSetsTopics(env: Env, s: Site, ev: Presence.Event, stateOk: bool, e: string)
    ensures var x, r := Entity(env, ev.beacon), Announce(env, s, ev, stateOk).retained;
      && (Slashless(e) ==>
            Held(r, StateTopic(e))
              == if e == x then Some(TrackerState(ev.state != Presence.NOT_HOME)) else Held(s.retained, StateTopic(e)))
      && Held(r, TelemetryTopic(e))
           == if e == x && stateOk then Some(Telemetry(ev.state, ev.battery, ev.temperature))
              else Held(s.retained, TelemetryTopic(e))
  {
    var x := Entity(env, ev.beacon);
    TelemetryTopicIsOwn(env.prefix, e, x);
    if Slashless(e) {
      StateTopicIsOwn(env.prefix, e, x);
    }
  }

  lemma DeclareKeepsTopics(env: Env, s: Site, ev: Presence.Event, e: string)
    ensures var r := Declare(env, s, ev).retained;
      && (Slashless(e) ==> Held(r, StateTopic(e)) == Held(s.retained, StateTopic(e)))
      && Held(r, TelemetryTopic(e)) == Held(s.retained, TelemetryTopic(e))
  {
    var x, s' := Entity(env, ev.beacon), Declare(env, s, ev);
    var device := Device(x, ev.name, Components(x, Flag(s'.hasVoltage, x), Flag(s'.hasTemp, x)));
    var declared := Retain(s.retained, ConfigTopic(env.prefix, x), Some(device));
    TelemetryTopicIsOwn(env.prefix, e, x);
    WipeHolds(declared, LegacyTopics(env.prefix, x), TelemetryTopic(e));
    if Slashless(e) {
      StateTopicIsOwn(env.prefix, e, x);
      WipeHolds(declared, LegacyTopics(env.prefix, x), StateTopic(e));
    }
  }

  lemma RemoveWipesTopics(env: Env, s: Site, b: BeaconKey, e: string)
    ensures var x, r := Entity(env, b), Removed(env, s, b).retained;
      && (Slashless(e) ==> Held(r, StateTopic(e)) == if e == x then None else Held(s.retained, StateTopic(e)))
      && Held(r, TelemetryTopic(e)) == if e == x then None else Held(s.retained, TelemetryTopic(e))
  {
    var x := Entity(env, b);
    TelemetryTopicIsOwn(env.prefix, e, x);
    WipeHolds(s.retained, TopicsOf(env.prefix, x), TelemetryTopic(e));
    if Slashless(e) {
      StateTopicIsOwn(env.prefix, e, x);
      WipeHolds(s.retained, TopicsOf(env.prefix, x), StateTopic(e));
    }
  }

  /** A step that rewrites the state topic of entity e: an event of it that passes, or its removal. */
  predicate WritesState(env: Env, s: Site, step: Step, e: string) {
    match step
    case Handle(ev, configOk, _) => Entity(env, ev.beacon) == e && Passes(env, s, ev, configOk)
    case Remove(b) => Entity(env, b) == e
    case Clear => false
  }

  /** A step that rewrites its telemetry topic: the same, if the document marshals. */
  predicate WritesTelemetry(env: Env, s: Site, step: Step, e: string) {
    WritesState(env, s, step, e) && (step.Handle? ==> step.stateOk)
  }

  /** A handled event that passes makes the tracker home unless it is not_home, and carries its own telemetry. */
  lemma HandleWrites(env: Env, s: Site, ev: Presence.Event, configOk: bool, stateOk: bool)
    requires Passes(env, s, ev, configOk)
    ensures var e, r := Entity(env, ev.beacon), Apply(env, s, Handle(ev, configOk, stateOk)).retained;
      && (Slashless(e) ==> Held(r, StateTopic(e)) == Some(TrackerState(ev.state != Presence.NOT_HOME)))
      && (stateOk ==> Held(r, TelemetryTopic(e)) == Some(Telemetry(ev.state, ev.battery, ev.temperature)))
  {
    var e := Entity(env, ev.beacon);
    AnnounceSetsTopics(env, s, ev, stateOk, e);
    AnnounceSetsTopics(env, Declare(env, s, ev), ev, stateOk, e);
  }

  /** Any other step leaves the topics of e alone, whatever entity it is for. */
  lemma OtherStepsKeepTopics(env: Env, s: Site, step: Step, e: string)
    ensures var r := Apply(env, s, step).retained;
      && (Slashless(e) && !WritesState(env, s, step, e) ==> Held(r, StateTopic(e)) == Held(s.retained, StateTopic(e)))
      && (!WritesTelemetry(env, s, step, e) ==> Held(r, TelemetryTopic(e)) == Held(s.retained, TelemetryTopic(e)))
  {
    match step
    case Handle(ev, configOk, stateOk) =>
      AnnounceSetsTopics(env, s, ev, stateOk, e);
      AnnounceSetsTopics(env, Declare(env, s, ev), ev, stateOk, e);
      DeclareKeepsTopics(env, s, ev, e);
    case Remove(b) => RemoveWipesTopics(env, s, b, e);
    case Clear =>
  }

  /** After an event whose config marshals, the broker's config declares the components of what it reports. */
  lemma ConfigDeclaresTelemetry(env: Env, s: Site, ev: Presence.Event, stateOk: bool)
    requires Matches(env, s)
    ensures var e, s' := Entity(env, ev.beacon), Apply(env, s, Handle(ev, true, stateOk));
      && e in s'.seen && DeclaredAs(env, s', e)
      && var c := s'.retained[ConfigTopic(env.prefix, e)].components;
         (ev.battery.Some? ==> e + "_voltage" in c) && (ev.temperature.Some? ==> e + "_temperature" in c)
  {
    var e, s' := Entity(env, ev.beacon), Apply(env, s, Handle(ev, true, stateOk));
    HandledMatches(env, s, ev, true, stateOk);
    assert e in s'.seen && DeclaredAs(env, s', e);
    ComponentsAreExact(e, Flag(s'.hasVoltage, e), Flag(s'.hasTemp, e));
  }

  /** The name of a declared device is that of the event that declared it. */
  lemma ConfigNamesDevice(env: Env, s: Site, ev: Presence.Event, stateOk: bool)
    requires NeedsConfig(s, Entity(env, ev.beacon), ev)
    ensures var e, s' := Entity(env, ev.beacon), Apply(env, s, Handle(ev, true, stateOk));
      var p := Held(s'.retained, ConfigTopic(env.prefix, e));
      p.Some? && p.value.Device? && p.value.id == e && p.value.name == ev.name
  {
    var e := Entity(env, ev.beacon);
    DeclareSetsConfig(env, s, ev, e);
    AnnounceKeepsConfigs(env, Declare(env, s, ev), ev, stateOk, e);
  }

  /** The first config of an entity wipes the topics that an older version retained for it; a later one leaves them. */
  lemma ConfigWipesLegacyOnce(env: Env, s: Site, ev: Presence.Event, stateOk: bool, t: string)
    requires Slashless(Entity(env, ev.beacon)) && t in LegacyTopics(env.prefix, Entity(env, ev.beacon))
    ensures Held(Apply(env, s, Handle(ev, true, stateOk)).retained, t)
      == if Entity(env, ev.beacon) in s.seen then Held(s.retained, t) else None
  {
    var e, s' := Entity(env, ev.beacon), Declare(env, s, ev);
    var device := Device(e, ev.name, Components(e, Flag(s'.hasVoltage, e), Flag(s'.hasTemp, e)));
    OtherTopicsAreNotConfig(env.prefix, e, e);
    StateTopicIsOwn(env.prefix, e, e);
    TelemetryTopicIsOwn(env.prefix, e, e);
    WipeHolds(Retain(s.retained, ConfigTopic(env.prefix, e), Some(device)), LegacyTopics(env.prefix, e), t);
  }

  // --------------------------------------------------------------- whole runs

  predicate WritesStateAt(env: Env, s: Site, run: seq<Step>, j: nat, e: string)
    requires j < |run|
  {
    WritesState(env, After(env, s, run[..j]), run[j], e)
  }

  predicate WritesTelemetryAt(env: Env, s: Site, run: seq<Step>, j: nat, e: string)
    requires j < |run|
  {
    WritesTelemetry(env, After(env, s, run[..j]), run[j], e)
  }

  lemma AfterNextStep(env: Env, s: Site, run: seq<Step>, n: nat)
    requires n < |run|
    ensures After(env, s, run[..n + 1]) == Apply(env, After(env, s, run[..n]), run[n])
  {
    assert run[..n + 1][..n] == run[..n];
  }

  /** What a step that rewrites the topics leaves on the state topic. */
  function StateLeft(step: Step): Option<Payload> {
    if step.Handle? then Some(TrackerState(step.ev.state != Presence.NOT_HOME)) else None
  }

  function TelemetryLeft(step: Step): Option<Payload> {
    if step.Handle? then Some(Telemetry(step.ev.state, step.ev.battery, step.ev.temperature)) else None
  }

  lemma StepWrites(env: Env, s: Site, step: Step, e: string)
    ensures var r := Apply(env, s, step).retained;
      && (Slashless(e) && WritesState(env, s, step, e) ==> Held(r, StateTopic(e)) == StateLeft(step))
      && (WritesTelemetry(env, s, step, e) ==> Held(r, TelemetryTopic(e)) == TelemetryLeft(step))
  {
    match step
    case Handle(ev, configOk, stateOk) =>
      if Passes(env, s, ev, configOk) {
        HandleWrites(env, s, ev, configOk, stateOk);
      }
    case Remove(b) => RemoveWipesTopics(env, s, b, e);
    case Clear =>
  }

  /** The topics after the first n steps of a run. */
  function StateAfter(env: Env, s: Site, run: seq<Step>, n: nat, e: string): Option<Payload>
    requires n <= |run|
  {
    Held(After(env, s, run[..n]).retained, StateTopic(e))
  }

  function TelemetryAfter(env: Env, s: Site, run: seq<Step>, n: nat, e: string): Option<Payload>
    requires n <= |run|
  {
    Held(After(env, s, run[..n]).retained, TelemetryTopic(e))
  }

  lemma NextState(env: Env, s: Site, run: seq<Step>, n: nat, e: string)
    requires n < |run| && Slashless(e)
    ensures StateAfter(env, s, run, n + 1, e)
      == if WritesStateAt(env, s, run, n, e) then StateLeft(run[n]) else StateAfter(env, s, run, n, e)
  {
    AfterNextStep(env, s, run, n);
    StepWrites(env, After(env, s, run[..n]), run[n], e);
    OtherStepsKeepTopics(env, After(env, s, run[..n]), run[n], e);
  }

  lemma NextTelemetry(env: Env, s: Site, run: seq<Step>, n: nat, e: string)
    requires n < |run|
    ensures TelemetryAfter(env, s, run, n + 1, e)
      == if WritesTelemetryAt(env, s, run, n, e) then TelemetryLeft(run[n]) else TelemetryAfter(env, s, run, n, e)
  {
    AfterNextStep(env, s, run, n);
    StepWrites(env, After(env, s, run[..n]), run[n], e);
    OtherStepsKeepTopics(env, After(env, s, run[..n]), run[n], e);
  }

  /** What the last of the first n steps that rewrites the state topic of e left there, or base if none did. */
  function LastState(env: Env, s: Site, run: seq<Step>, n: nat, e: string, base: Option<Payload>): Option<Payload>
    requires n <= |run|
  {
    if n == 0 then base
    else if WritesStateAt(env, s, run, n - 1, e) then StateLeft(run[n - 1])
    else LastState(env, s, run, n - 1, e, base)
  }

  function LastTelemetry(env: Env, s: Site, run: seq<Step>, n: nat, e: string, base: Option<Payload>): Option<Payload>
    requires n <= |run|
  {
    if n == 0 then base
    else if WritesTelemetryAt(env, s, run, n - 1, e) then TelemetryLeft(run[n - 1])
    else LastTelemetry(env, s, run, n - 1, e, base)
  }

  /**
   * In any run the state topic of an entity holds what its last write left: home unless the event was not_home, or
   * nothing after a removal. Clears and the events of other entities do not touch it.
   */
  lemma {:induction false} StateTopicIsLastWrite(env: Env, s: Site, run: seq<Step>, n: nat, e: string)
    requires Slashless(e) && n <= |run|
    ensures StateAfter(env, s, run, n, e) == LastState(env, s, run, n, e, StateAfter(env, s, run, 0, e))
  {
    if n > 0 {
      StateTopicIsLastWrite(env, s, run, n - 1, e);
      NextState(env, s, run, n - 1, e);
    }
  }

  /** So does the telemetry topic: the area, battery and temperature of the last event whose document marshalled. */
  lemma {:induction false} TelemetryTopicIsLastWrite(env: Env, s: Site, run: seq<Step>, n: nat, e: string)
    requires n <= |run|
    ensures TelemetryAfter(env, s, run, n, e) == LastTelemetry(env, s, run, n, e, TelemetryAfter(env, s, run, 0, e))
  {
    if n > 0 {
      TelemetryTopicIsLastWrite(env, s, run, n - 1, e);
      NextTelemetry(env, s, run, n - 1, e);
    }
  }

  /** The topics and the components, spelled out for one entity. */
  lemma KnownTopics()
    ensures ConfigTopic("homeassistant", "x") == "homeassistant/device/x/config"
    ensures StateTopic("x") == "briihass/x/state" && TelemetryTopic("x") == "briihass/x/telemetry"
  {
  }

  lemma KnownLegacyTopics()
    ensures LegacyTopics("homeassistant", "x") == [
      "homeassistant/device_tracker/x/config", "homeassistant/device_tracker/x/state",
      "homeassistant/device_tracker/x/attributes"]
  {
    var base := "homeassistant" + "/device_tracker/" + "x";
    assert base == "homeassistant/device_tracker/x";
    assert base + "/config" == "homeassistant/device_tracker/x/config";
    assert base + "/state" == "homeassistant/device_tracker/x/state";
    assert base + "/attributes" == "homeassistant/device_tracker/x/attributes";
  }

  /** Every component reads the entity's own topics: the tracker its state, each sensor its field of the telemetry. */
  lemma ComponentsRead(e: string, v: bool, t: bool)
    ensures var c, state, telemetry := Components(e, v, t), "briihass/" + e + "/state", "briihass/" + e + "/telemetry";
      && e in c && c[e] == Component("device_tracker", e, state, "", telemetry)
      && e + "_rssi" in c && c[e + "_rssi"] == Component("sensor", e + "_rssi", telemetry, "rssi", "")
      && e + "_area" in c && c[e + "_area"] == Component("sensor", e + "_area", telemetry, "area", "")
      && (v ==> e + "_voltage" in c
                && c[e + "_voltage"] == Component("sensor", e + "_voltage", telemetry, "voltage", ""))
      && (t ==> e + "_temperature" in c
                && c[e + "_temperature"] == Component("sensor", e + "_temperature", telemetry, "temperature", ""))
  {
    ComponentNamesDiffer(e);
  }
}
