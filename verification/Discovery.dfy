/**
 * The discovery tracker of the MQTT publisher against the broker's retained messages: which entities have been
 * declared, with which components, and how they are removed. Publishes succeed, and an empty retained payload deletes
 * the topic (section 3.3.1.3 of MQTT 3.1.1).
 */
module Discovery {
  import opened Wrappers
  import opened Identity
  import opened Presence

  const BRIDGE_TOPIC := "briihass/"

  /** The discovery prefix and the short hash inside entity ids. */
  datatype Env = Env(prefix: string, hash: string -> string)

  function Entity(env: Env, b: BeaconKey): string { EntityID(b, env.hash) }

  // --------------------------------------------------------------- topics

  function ConfigTopic(prefix: string, entity: string): string { prefix + "/device/" + entity + "/config" }

  function StateTopic(entity: string): string { BRIDGE_TOPIC + entity + "/state" }

  function TelemetryTopic(entity: string): string { BRIDGE_TOPIC + entity + "/telemetry" }

  function LegacyTopics(prefix: string, entity: string): seq<string> {
    var base := prefix + "/device_tracker/" + entity;
    [base + "/config", base + "/state", base + "/attributes"]
  }

  /** A config topic belongs to one entity. */
  lemma ConfigTopicIsInjective(prefix: string, e: string, e': string)
    requires ConfigTopic(prefix, e) == ConfigTopic(prefix, e')
    ensures e == e'
  {
    var head := prefix + "/device/";
    var t, t' := ConfigTopic(prefix, e), ConfigTopic(prefix, e');
    assert t == head + e + "/config" && t' == head + e' + "/config";
    assert |e| == |e'|;
    assert t[|head|..|head| + |e|] == e && t'[|head|..|head| + |e'|] == e';
  }

  /** No other topic is a config topic, whatever the prefix and the entities. */
  lemma OtherTopicsAreNotConfig(prefix: string, e: string, e': string)
    ensures StateTopic(e') != ConfigTopic(prefix, e) && TelemetryTopic(e') != ConfigTopic(prefix, e)
    ensures ConfigTopic(prefix, e) !in LegacyTopics(prefix, e')
  {
    var c := ConfigTopic(prefix, e);
    assert c[|c| - 1] == 'g';
    assert c == (prefix + "/device") + ("/" + e + "/config");
    assert c[|prefix| + 7] == '/';
    var s, t := StateTopic(e'), TelemetryTopic(e');
    assert s[|s| - 1] == 'e' && t[|t| - 1] == 'y';
    LegacyTopicShapes(prefix, e');
  }

  lemma LegacyTopicShapes(prefix: string, e: string)
    ensures var l := LegacyTopics(prefix, e);
      |l[0]| > |prefix| + 7 && l[0][|prefix| + 7] == '_' && l[1][|l[1]| - 1] == 'e' && l[2][|l[2]| - 1] == 's'
  {
    var l := LegacyTopics(prefix, e);
    assert l[0] == (prefix + "/device") + ("_tracker/" + e + "/config");
  }

  // ------------------------------------------------------------- payloads

  /** One entity inside a device: what kind, its id, the topic it reads, and the field or attributes it shows. */
  datatype Component = Component(
    platform: string, uniqueId: string, stateTopic: string, field: string, attributesTopic: string)

  datatype Payload =
    | Device(id: string, name: string, components: map<string, Component>)
    | TrackerState(home: bool)
    | Telemetry(area: string, battery: Option<int>, temperature: Option<real>)

  function Sensor(entity: string, suffix: string, field: string): Component {
    Component("sensor", entity + suffix, TelemetryTopic(entity), field, "")
  }

  /** The components of a device: tracker, signal and area always, voltage and temperature when asked for. */
  function Components(entity: string, withVoltage: bool, withTemp: bool): map<string, Component> {
    var base := map[
      entity := Component("device_tracker", entity, StateTopic(entity), "", TelemetryTopic(entity)),
      entity + "_rssi" := Sensor(entity, "_rssi", "rssi"),
      entity + "_area" := Sensor(entity, "_area", "area")];
    var more := if withVoltage then base[entity + "_voltage" := Sensor(entity, "_voltage", "voltage")] else base;
    if withTemp then more[entity + "_temperature" := Sensor(entity, "_temperature", "temperature")] else more
  }

  lemma SuffixesDiffer(e: string, s: string, t: string)
    requires s != t
    ensures e + s != e + t
  {
    assert (e + s)[|e|..] == s && (e + t)[|e|..] == t;
  }

  /** The five possible components of an entity have different names. */
  lemma ComponentNamesDiffer(e: string)
    ensures e != e + "_rssi" && e != e + "_area" && e != e + "_voltage" && e != e + "_temperature"
    ensures e + "_rssi" != e + "_area" && e + "_rssi" != e + "_voltage" && e + "_rssi" != e + "_temperature"
    ensures e + "_area" != e + "_voltage" && e + "_area" != e + "_temperature" && e + "_voltage" != e + "_temperature"
  {
    SuffixesDiffer(e, "_rssi", "_area");
    assert |e + "_rssi"| == |e| + 5 && |e + "_voltage"| == |e| + 8 && |e + "_temperature"| == |e| + 12;
  }

  /** A device declares voltage exactly when asked to, likewise temperature, and each component goes by its own name. */
  lemma ComponentsAreExact(e: string, v: bool, t: bool)
    ensures var c := Components(e, v, t);
      && (e + "_voltage" in c <==> v) && (e + "_temperature" in c <==> t)
      && e in c && e + "_rssi" in c && e + "_area" in c
      && |c| == 3 + (if v then 1 else 0) + (if t then 1 else 0)
      && (forall name | name in c :: c[name].uniqueId == name)
  {
    ComponentNamesDiffer(e);
    var base, more := Components(e, false, false), Components(e, v, false);
    var voltage, temperature := e + "_voltage", e + "_temperature";
    CountBase(e);
    assert voltage !in base;
    assert more == if v then base[voltage := Sensor(e, "_voltage", "voltage")] else base;
    assert temperature !in more;
    assert Components(e, v, t) == if t then more[temperature := Sensor(e, "_temperature", "temperature")] else more;
    OneMoreEntry(base, voltage, Sensor(e, "_voltage", "voltage"));
    OneMoreEntry(more, temperature, Sensor(e, "_temperature", "temperature"));
  }

  lemma OneMoreEntry(m: map<string, Component>, name: string, c: Component)
    requires name !in m
    ensures |m[name := c]| == |m| + 1
  {
    assert m[name := c].Keys == m.Keys + {name};
    assert |m[name := c]| == |m[name := c].Keys| && |m| == |m.Keys|;
  }

  lemma CountBase(e: string)
    ensures var c := Components(e, false, false);
      c.Keys == {e, e + "_rssi", e + "_area"} && |c| == 3
  {
    ComponentNamesDiffer(e);
    var c := Components(e, false, false);
    assert c.Keys == {e, e + "_rssi", e + "_area"};
    assert |c| == |c.Keys|;
  }

  /** More flags, more components; those already declared stay as they are. */
  lemma ComponentsGrow(e: string, v: bool, t: bool, v': bool, t': bool)
    requires (v ==> v') && (t ==> t')
    ensures forall name | name in Components(e, v, t) ::
      name in Components(e, v', t') && Components(e, v', t')[name] == Components(e, v, t)[name]
  {
    ComponentNamesDiffer(e);
  }

  // --------------------------------------------------------------- broker

  /** A retained publish; None is the empty payload. */
  function Retain(retained: map<string, Payload>, topic: string, payload: Option<Payload>): map<string, Payload> {
    if payload.Some? then retained[topic := payload.value] else retained - {topic}
  }

  /** Retained publishes of the empty payload to several topics, in order. */
  function Wipe(retained: map<string, Payload>, topics: seq<string>): map<string, Payload> {
    if topics == [] then retained else Retain(Wipe(retained, topics[..|topics| - 1]), topics[|topics| - 1], None)
  }

  function Held(retained: map<string, Payload>, topic: string): Option<Payload> {
    if topic in retained then Some(retained[topic]) else None
  }

  lemma {:induction false} WipeHolds(retained: map<string, Payload>, topics: seq<string>, t: string)
    ensures Held(Wipe(retained, topics), t) == if t in topics then None else Held(retained, t)
  {
    if topics != [] {
      WipeHolds(retained, topics[..|topics| - 1], t);
    }
  }

  // -------------------------------------------------------------- tracker

  /** The four maps of the publisher and the broker's retained messages. */
  datatype Site = Site(
    seen: set<string>, seenIDs: map<string, BeaconKey>, hasVoltage: map<string, bool>, hasTemp: map<string, bool>,
    retained: map<string, Payload>)

  function Flag(m: map<string, bool>, e: string): bool { e in m && m[e] }

  function NeedsConfig(s: Site, e: string, ev: Event): bool {
    || e !in s.seen
    || (Flag(s.hasVoltage, e) || ev.battery.Some?) != Flag(s.hasVoltage, e)
    || (Flag(s.hasTemp, e) || ev.temperature.Some?) != Flag(s.hasTemp, e)
  }

  /** The first half of handle: declare the device, or declare it again with more components. */
  function Declare(env: Env, s: Site, ev: Event): Site {
    var e := Entity(env, ev.beacon);
    var v, t := Flag(s.hasVoltage, e) || ev.battery.Some?, Flag(s.hasTemp, e) || ev.temperature.Some?;
    var declared := Retain(s.retained, ConfigTopic(env.prefix, e), Some(Device(e, ev.name, Components(e, v, t))));
    Site(s.seen + {e}, s.seenIDs[e := ev.beacon], s.hasVoltage[e := v], s.hasTemp[e := t],
         if e in s.seen then declared else Wipe(declared, LegacyTopics(env.prefix, e)))
  }

  /** The second half of handle: the tracker's state and, if it marshals, the telemetry document. */
  function Announce(env: Env, s: Site, ev: Event, stateOk: bool): Site {
    var e := Entity(env, ev.beacon);
    var r := Retain(s.retained, StateTopic(e), Some(TrackerState(ev.state != NOT_HOME)));
    s.(retained := if stateOk then Retain(r, TelemetryTopic(e), Some(Telemetry(ev.state, ev.battery, ev.temperature)))
      else r)
  }

  /** handle; the flags say whether the config and the state document marshal. */
  function Handled(env: Env, s: Site, ev: Event, configOk: bool, stateOk: bool): Site {
    if !NeedsConfig(s, Entity(env, ev.beacon), ev) then Announce(env, s, ev, stateOk)
    else if !configOk then s
    else Announce(env, Declare(env, s, ev), ev, stateOk)
  }

  /** All topics of an entity. */
  function TopicsOf(prefix: string, e: string): seq<string> {
    [ConfigTopic(prefix, e), StateTopic(e), TelemetryTopic(e)] + LegacyTopics(prefix, e)
  }

  /** handleRemove. */
  function Removed(env: Env, s: Site, b: BeaconKey): Site {
    var e := Entity(env, b);
    Site(s.seen - {e}, s.seenIDs - {e}, s.hasVoltage - {e}, s.hasTemp - {e}, Wipe(s.retained, TopicsOf(env.prefix, e)))
  }

  /** clearSeen forgets every entity; the broker keeps what it has. */
  function Cleared(s: Site): Site { Site({}, map[], map[], map[], s.retained) }

  // ------------------------------------------------------------ invariant

  /** The four maps have one domain, and each entry's beacon has that entity id. */
  ghost predicate OneDomain(env: Env, s: Site) {
    && s.seenIDs.Keys == s.seen && s.hasVoltage.Keys == s.seen && s.hasTemp.Keys == s.seen
    && forall e | e in s.seen :: Entity(env, s.seenIDs[e]) == e
  }

  /** The broker's config of an entity declares exactly the base components and those its flags say. */
  ghost predicate DeclaredAs(env: Env, s: Site, e: string) {
    var p := Held(s.retained, ConfigTopic(env.prefix, e));
    p.Some? && p.value.Device? && p.value.id == e
      && p.value.components == Components(e, Flag(s.hasVoltage, e), Flag(s.hasTemp, e))
  }

  ghost predicate Matches(env: Env, s: Site) {
    OneDomain(env, s) && forall e | e in s.seen :: DeclaredAs(env, s, e)
  }

  /** What a config topic holds after the second half of handle. */
  lemma AnnounceKeepsConfigs(env: Env, s: Site, ev: Event, stateOk: bool, e: string)
    ensures Held(Announce(env, s, ev, stateOk).retained, ConfigTopic(env.prefix, e))
      == Held(s.retained, ConfigTopic(env.prefix, e))
  {
    OtherTopicsAreNotConfig(env.prefix, e, Entity(env, ev.beacon));
  }

  /** What a config topic holds after the first half: the new device for its entity, and no change for any other. */
  lemma DeclareSetsConfig(env: Env, s: Site, ev: Event, e: string)
    ensures var x := Entity(env, ev.beacon);
      var s' := Declare(env, s, ev);
      Held(s'.retained, ConfigTopic(env.prefix, e)) ==
        if e == x then Some(Device(x, ev.name, Components(x, Flag(s'.hasVoltage, x), Flag(s'.hasTemp, x))))
        else Held(s.retained, ConfigTopic(env.prefix, e))
  {
    var x := Entity(env, ev.beacon);
    OtherTopicsAreNotConfig(env.prefix, e, x);
    var s' := Declare(env, s, ev);
    var declared := Retain(s.retained, ConfigTopic(env.prefix, x),
      Some(Device(x, ev.name, Components(x, Flag(s'.hasVoltage, x), Flag(s'.hasTemp, x)))));
    WipeHolds(declared, LegacyTopics(env.prefix, x), ConfigTopic(env.prefix, e));
    if e != x && ConfigTopic(env.prefix, e) == ConfigTopic(env.prefix, x) {
      ConfigTopicIsInjective(env.prefix, e, x);
    }
  }

  lemma RemoveWipesConfig(env: Env, s: Site, b: BeaconKey, e: string)
    ensures Held(Removed(env, s, b).retained, ConfigTopic(env.prefix, e)) ==
      if e == Entity(env, b) then None else Held(s.retained, ConfigTopic(env.prefix, e))
  {
    var x := Entity(env, b);
    OtherTopicsAreNotConfig(env.prefix, e, x);
    WipeHolds(s.retained, TopicsOf(env.prefix, x), ConfigTopic(env.prefix, e));
    if e != x && ConfigTopic(env.prefix, e) == ConfigTopic(env.prefix, x) {
      ConfigTopicIsInjective(env.prefix, e, x);
    }
  }

  lemma DeclareMatches(env: Env, s: Site, ev: Event)
    requires Matches(env, s)
    ensures Matches(env, Declare(env, s, ev))
  {
    var s' := Declare(env, s, ev);
    DeclareKeepsDomain(env, s, ev);
    forall e | e in s'.seen
      ensures DeclaredAs(env, s', e)
    {
      DeclareSetsConfig(env, s, ev, e);
      assert e == Entity(env, ev.beacon) || DeclaredAs(env, s, e);
    }
  }

  lemma DeclareKeepsDomain(env: Env, s: Site, ev: Event)
    requires OneDomain(env, s)
    ensures OneDomain(env, Declare(env, s, ev))
  {
  }

  lemma AnnounceMatches(env: Env, s: Site, ev: Event, stateOk: bool)
    requires Matches(env, s)
    ensures Matches(env, Announce(env, s, ev, stateOk))
  {
    var s' := Announce(env, s, ev, stateOk);
    forall e | e in s'.seen
      ensures DeclaredAs(env, s', e)
    {
      AnnounceKeepsConfigs(env, s, ev, stateOk, e);
      assert DeclaredAs(env, s, e);
    }
  }

  lemma HandledMatches(env: Env, s: Site, ev: Event, configOk: bool, stateOk: bool)
    requires Matches(env, s)
    ensures Matches(env, Handled(env, s, ev, configOk, stateOk))
  {
    DeclareMatches(env, s, ev);
    AnnounceMatches(env, s, ev, stateOk);
    AnnounceMatches(env, Declare(env, s, ev), ev, stateOk);
  }

  lemma RemovedMatches(env: Env, s: Site, b: BeaconKey)
    requires Matches(env, s)
    ensures Matches(env, Removed(env, s, b))
  {
    var s' := Removed(env, s, b);
    forall e | e in s'.seen
      ensures DeclaredAs(env, s', e)
    {
      RemoveWipesConfig(env, s, b, e);
      assert DeclaredAs(env, s, e);
    }
  }

  // ----------------------------------------------------------------- runs

  datatype Step = Handle(ev: Event, configOk: bool, stateOk: bool) | Remove(b: BeaconKey) | Clear

  function Apply(env: Env, s: Site, step: Step): Site {
    match step
    case Handle(ev, configOk, stateOk) => Handled(env, s, ev, configOk, stateOk)
    case Remove(b) => Removed(env, s, b)
    case Clear => Cleared(s)
  }

  function After(env: Env, s: Site, run: seq<Step>): Site {
    if run == [] then s else Apply(env, After(env, s, run[..|run| - 1]), run[|run| - 1])
  }

  /** A new publisher, in front of whatever the broker holds. */
  function Start(retained: map<string, Payload>): Site { Cleared(Site({}, map[], map[], map[], retained)) }

  lemma ApplyMatches(env: Env, s: Site, step: Step)
    requires Matches(env, s)
    ensures Matches(env, Apply(env, s, step))
  {
    match step
    case Handle(ev, configOk, stateOk) => HandledMatches(env, s, ev, configOk, stateOk);
    case Remove(b) => RemovedMatches(env, s, b);
    case Clear =>
  }

  lemma {:induction false} RunKeepsMatches(env: Env, s: Site, run: seq<Step>)
    requires Matches(env, s)
    ensures Matches(env, After(env, s, run))
  {
    if run != [] {
      var s' := After(env, s, run[..|run| - 1]);
      RunKeepsMatches(env, s, run[..|run| - 1]);
      ApplyMatches(env, s', run[|run| - 1]);
    }
  }

  /** In every run, from any broker, the maps match what the broker has retained. */
  lemma AlwaysMatches(env: Env, retained: map<string, Payload>, run: seq<Step>)
    ensures Matches(env, After(env, Start(retained), run))
  {
    RunKeepsMatches(env, Start(retained), run);
  }

  /** The broker holds configs for the seen entities and for no others. */
  ghost predicate NoGhosts(env: Env, s: Site) {
    forall e :: Held(s.retained, ConfigTopic(env.prefix, e)).Some? ==> e in s.seen
  }

  lemma StepKeepsNoGhosts(env: Env, s: Site, step: Step)
    requires NoGhosts(env, s) && !step.Clear?
    ensures NoGhosts(env, Apply(env, s, step))
  {
    var s' := Apply(env, s, step);
    forall e | Held(s'.retained, ConfigTopic(env.prefix, e)).Some?
      ensures e in s'.seen
    {
      match step
      case Handle(ev, configOk, stateOk) =>
        AnnounceKeepsConfigs(env, s, ev, stateOk, e);
        AnnounceKeepsConfigs(env, Declare(env, s, ev), ev, stateOk, e);
        DeclareSetsConfig(env, s, ev, e);
      case Remove(b) => RemoveWipesConfig(env, s, b, e);
    }
  }

  /** From an empty broker and with no clear, the tracker knows every config the broker holds. */
  lemma {:induction false} NoGhostsWithoutClears(env: Env, run: seq<Step>)
    requires forall i | 0 <= i < |run| :: !run[i].Clear?
    ensures NoGhosts(env, After(env, Start(map[]), run))
  {
    if run != [] {
      NoGhostsWithoutClears(env, run[..|run| - 1]);
      StepKeepsNoGhosts(env, After(env, Start(map[]), run[..|run| - 1]), run[|run| - 1]);
    }
  }

  /** A step that neither clears nor removes entity e. */
  predicate Spares(env: Env, step: Step, e: string) {
    !step.Clear? && (step.Remove? ==> Entity(env, step.b) != e)
  }

  /** The entity is still declared, with at least the components it had. */
  ghost predicate Grows(s: Site, s': Site, e: string) {
    && e in s'.seen
    && (Flag(s.hasVoltage, e) ==> Flag(s'.hasVoltage, e)) && (Flag(s.hasTemp, e) ==> Flag(s'.hasTemp, e))
  }

  lemma {:induction false} FlagsNeverShrink(env: Env, s: Site, run: seq<Step>, e: string)
    requires e in s.seen && forall i | 0 <= i < |run| :: Spares(env, run[i], e)
    ensures Grows(s, After(env, s, run), e)
  {
    if run != [] {
      FlagsNeverShrink(env, s, run[..|run| - 1], e);
      assert Spares(env, run[|run| - 1], e);
    }
  }

  /** Between clears and removals, the broker's config of an entity keeps every component it ever declared. */
  lemma ConfigsNeverShrink(env: Env, s: Site, run: seq<Step>, e: string)
    requires Matches(env, s) && e in s.seen && forall i | 0 <= i < |run| :: Spares(env, run[i], e)
    ensures var s' := After(env, s, run);
      && DeclaredAs(env, s, e) && DeclaredAs(env, s', e)
      && var c, c' := s.retained[ConfigTopic(env.prefix, e)].components,
        s'.retained[ConfigTopic(env.prefix, e)].components;
         forall name | name in c :: name in c' && c'[name] == c[name]
  {
    var s' := After(env, s, run);
    FlagsNeverShrink(env, s, run, e);
    RunKeepsMatches(env, s, run);
    assert DeclaredAs(env, s, e) && DeclaredAs(env, s', e);
    ComponentsGrow(e, Flag(s.hasVoltage, e), Flag(s.hasTemp, e), Flag(s'.hasVoltage, e), Flag(s'.hasTemp, e));
  }

  // -------------------------------------------------------------- orphans

  function Entities(env: Env, beacons: seq<BeaconKey>): set<string> { set b | b in beacons :: Entity(env, b) }

  /** The beacons behind the entities that are declared but not kept, in some order, each once. */
  ghost predicate IsOrphanList(env: Env, s: Site, keep: set<string>, orphans: seq<BeaconKey>) {
    && (forall i | 0 <= i < |orphans| :: Entity(env, orphans[i]) in s.seen && Entity(env, orphans[i]) !in keep)
    && (forall e | e in s.seen && e !in keep :: Names(env, orphans, e))
    && |orphans| == |s.seen - keep|
  }

  /** Such a list in the making: the entities of todo are still to be looked at. */
  ghost predicate OrphansSoFar(env: Env, s: Site, keep: set<string>, todo: set<string>, orphans: seq<BeaconKey>) {
    && todo <= s.seen && |orphans| + |todo - keep| == |s.seen - keep|
    && (forall i | 0 <= i < |orphans| :: Entity(env, orphans[i]) in s.seen && Entity(env, orphans[i]) !in keep)
    && (forall e | e in s.seen && e !in keep && e !in todo :: Names(env, orphans, e))
  }

  lemma OrphansSkip(env: Env, s: Site, keep: set<string>, todo: set<string>, orphans: seq<BeaconKey>, e: string)
    requires OrphansSoFar(env, s, keep, todo, orphans) && e in todo && e in keep
    ensures OrphansSoFar(env, s, keep, todo - {e}, orphans)
  {
    assert todo - {e} - keep == todo - keep;
  }

  lemma OrphansTake(
      env: Env, s: Site, keep: set<string>, todo: set<string>, orphans: seq<BeaconKey>, e: string, b: BeaconKey)
    requires OrphansSoFar(env, s, keep, todo, orphans) && e in todo && e !in keep && Entity(env, b) == e
    ensures OrphansSoFar(env, s, keep, todo - {e}, orphans + [b])
  {
    assert todo - {e} - keep == (todo - keep) - {e};
    var more := orphans + [b];
    assert more[|orphans|] == b;
    forall x | x in s.seen && x !in keep && x !in todo - {e}
      ensures Names(env, more, x)
    {
      if x != e {
        assert Names(env, orphans, x);
        var i :| 0 <= i < |orphans| && Entity(env, orphans[i]) == x;
        assert more[i] == orphans[i];
      }
    }
  }

  function Removals(beacons: seq<BeaconKey>): seq<Step> {
    seq(|beacons|, i requires 0 <= i < |beacons| => Remove(beacons[i]))
  }

  lemma RemovalsGrow(beacons: seq<BeaconKey>)
    requires beacons != []
    ensures var n := |beacons| - 1;
      Removals(beacons)[..n] == Removals(beacons[..n]) && Removals(beacons)[n] == Remove(beacons[n])
  {
  }

  ghost predicate Names(env: Env, beacons: seq<BeaconKey>, e: string) {
    exists i | 0 <= i < |beacons| :: Entity(env, beacons[i]) == e
  }

  /** Removing several beacons forgets exactly their entities and leaves every other config alone. */
  lemma {:induction false} RemovalsForget(env: Env, s: Site, beacons: seq<BeaconKey>, e: string)
    ensures var s' := After(env, s, Removals(beacons));
      && (e in s'.seen <==> e in s.seen && !Names(env, beacons, e))
      && Held(s'.retained, ConfigTopic(env.prefix, e)) ==
           if Names(env, beacons, e) then None else Held(s.retained, ConfigTopic(env.prefix, e))
  {
    if beacons != [] {
      var n := |beacons| - 1;
      RemovalsForget(env, s, beacons[..n], e);
      RemovalsGrow(beacons);
      assert beacons == beacons[..n] + [beacons[n]];
      RemoveWipesConfig(env, After(env, s, Removals(beacons[..n])), beacons[n], e);
      assert Names(env, beacons, e) <==> Names(env, beacons[..n], e) || Entity(env, beacons[n]) == e;
    }
  }

  /** Removing several beacons leaves none of their topics retained, current or legacy. */
  lemma {:induction false} RemovalsWipe(env: Env, s: Site, beacons: seq<BeaconKey>, i: nat, t: string)
    requires i < |beacons| && t in TopicsOf(env.prefix, Entity(env, beacons[i]))
    ensures t !in After(env, s, Removals(beacons)).retained
  {
    var n := |beacons| - 1;
    RemovalsGrow(beacons);
    if i < n {
      RemovalsWipe(env, s, beacons[..n], i, t);
    }
    RemoveErases(env, After(env, s, Removals(beacons[..n])), beacons[n], t);
  }

  lemma RemoveErases(env: Env, s: Site, b: BeaconKey, t: string)
    requires t in TopicsOf(env.prefix, Entity(env, b)) || t !in s.retained
    ensures t !in Removed(env, s, b).retained
  {
    WipeHolds(s.retained, TopicsOf(env.prefix, Entity(env, b)), t);
  }

  /**
   * Removing the orphans leaves exactly the kept entities declared, with their configs untouched and no topic of an
   * orphan retained, so that a second reconcile finds nothing to remove.
   */
  lemma OrphansAreGone(env: Env, s: Site, keep: set<string>, orphans: seq<BeaconKey>)
    requires IsOrphanList(env, s, keep, orphans)
    ensures var s' := After(env, s, Removals(orphans));
      && s'.seen == s.seen * keep
      && (forall e | e in s'.seen ::
        Held(s'.retained, ConfigTopic(env.prefix, e)) == Held(s.retained, ConfigTopic(env.prefix, e)))
      && (forall e, t | e in s.seen && e !in keep && t in TopicsOf(env.prefix, e) :: t !in s'.retained)
      && (forall again | IsOrphanList(env, s', keep, again) :: again == [])
  {
    var s' := After(env, s, Removals(orphans));
    forall e
      ensures e in s'.seen <==> e in s.seen && e in keep
      ensures e in s'.seen ==>
        Held(s'.retained, ConfigTopic(env.prefix, e)) == Held(s.retained, ConfigTopic(env.prefix, e))
    {
      RemovalsForget(env, s, orphans, e);
    }
    forall e, t | e in s.seen && e !in keep && t in TopicsOf(env.prefix, e)
      ensures t !in s'.retained
    {
      var i :| 0 <= i < |orphans| && Entity(env, orphans[i]) == e;
      RemovalsWipe(env, s, orphans, i, t);
    }
    assert s'.seen - keep == {};
  }

  /** If the tracker knew every config the broker held, only kept entities are left on the broker. */
  lemma OnlyKnownRemain(env: Env, s: Site, keep: set<string>, orphans: seq<BeaconKey>, e: string)
    requires IsOrphanList(env, s, keep, orphans) && NoGhosts(env, s)
    requires Held(After(env, s, Removals(orphans)).retained, ConfigTopic(env.prefix, e)).Some?
    ensures e in keep
  {
    RemovalsForget(env, s, orphans, e);
  }

  /**
   * What a reconcile cannot reach: the config of an entity that is not kept survives it if and only if it was retained
   * and the tracker did not know the entity, as after a reconnect or a restart.
   */
  lemma GhostsSurviveExactlyWhen(env: Env, s: Site, keep: set<string>, orphans: seq<BeaconKey>, e: string)
    requires IsOrphanList(env, s, keep, orphans) && e !in keep
    ensures Held(After(env, s, Removals(orphans)).retained, ConfigTopic(env.prefix, e)).Some?
      <==> Held(s.retained, ConfigTopic(env.prefix, e)).Some? && e !in s.seen
  {
    RemovalsForget(env, s, orphans, e);
  }

  /** A device is declared, the bridge restarts while its beacon is demoted, and the next reconcile leaves it there. */
  lemma DemotedWhileDownLingers(env: Env, ev: Event)
    ensures var e := Entity(env, ev.beacon);
      var s := After(env, Start(map[]), [Handle(ev, true, true), Clear]);
      && IsOrphanList(env, s, {}, [])
      && Held(After(env, s, Removals([])).retained, ConfigTopic(env.prefix, e)).Some?
  {
    var e, declare := Entity(env, ev.beacon), Handle(ev, true, true);
    var s1 := After(env, Start(map[]), [declare]);
    assert [declare][..0] == [] && [declare, Clear][..1] == [declare];
    assert s1 == Apply(env, After(env, Start(map[]), []), declare);
    AlwaysMatches(env, map[], [declare]);
    assert e in s1.seen && DeclaredAs(env, s1, e);
    var s := After(env, Start(map[]), [declare, Clear]);
    assert s == Cleared(s1);
    assert s.seen - {} == {};
    GhostsSurviveExactlyWhen(env, s, {}, [], e);
  }
}
