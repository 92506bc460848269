/** The MQTT publisher: its bounded queue, its four discovery maps and the broker, updated in place. */
module MqttPublisher {
  import opened Wrappers
  import opened Identity
  import Presence
  import DropQueue
  import opened Discovery

  /** A queued item: a presence event, or a request to remove a beacon's device. */
  datatype Item = EventItem(ev: Presence.Event) | RemoveItem(b: BeaconKey)

  /** What the consumer does with an item, given which documents marshal. */
  function StepOf(item: Item, configOk: Presence.Event -> bool, stateOk: Presence.Event -> bool): Step {
    match item
    case EventItem(ev) => Handle(ev, configOk(ev), stateOk(ev))
    case RemoveItem(b) => Remove(b)
  }

  function StepsOf(items: seq<Item>, configOk: Presence.Event -> bool, stateOk: Presence.Event -> bool): seq<Step> {
    seq(|items|, i requires 0 <= i < |items| => StepOf(items[i], configOk, stateOk))
  }

  function RemoveItems(beacons: seq<BeaconKey>): seq<Item> {
    seq(|beacons|, i requires 0 <= i < |beacons| => RemoveItem(beacons[i]))
  }

  lemma RemoveItemsGrow(beacons: seq<BeaconKey>, i: nat)
    requires i < |beacons|
    ensures var items := RemoveItems(beacons[..i + 1]);
      |items| == i + 1 && items[..i] == RemoveItems(beacons[..i]) && items[i] == RemoveItem(beacons[i])
  {
  }

  lemma RemovalsOfItems(beacons: seq<BeaconKey>, configOk: Presence.Event -> bool, stateOk: Presence.Event -> bool)
    ensures StepsOf(RemoveItems(beacons), configOk, stateOk) == Removals(beacons)
  {
  }

  lemma AfterSnoc(env: Env, s: Site, run: seq<Step>, step: Step)
    ensures After(env, s, run + [step]) == Apply(env, After(env, s, run), step)
  {
    assert (run + [step])[..|run|] == run;
  }

  /** Handling the item at place n, and where the queue starts then. */
  lemma AfterNext(
      env: Env, s: Site, items: seq<Item>, n: nat, configOk: Presence.Event -> bool, stateOk: Presence.Event -> bool)
    requires n < |items|
    ensures After(env, s, StepsOf(items[..n + 1], configOk, stateOk))
      == Apply(env, After(env, s, StepsOf(items[..n], configOk, stateOk)), StepOf(items[n], configOk, stateOk))
    ensures items[n..] != [] && items[n..][0] == items[n] && items[n..][1..] == items[n + 1..]
  {
    var run, step := StepsOf(items[..n], configOk, stateOk), StepOf(items[n], configOk, stateOk);
    assert StepsOf(items[..n + 1], configOk, stateOk) == run + [step];
    AfterSnoc(env, s, run, step);
  }

  /** Enqueueing several items in a row with nobody interfering. */
  function QueueAll(queue: seq<Item>, cap: nat, items: seq<Item>): seq<Item> {
    if items == [] then queue
    else DropQueue.Enqueued(QueueAll(queue, cap, items[..|items| - 1]), cap, items[|items| - 1])
  }

  /** With room for all of them, nothing is evicted. */
  lemma {:induction false} QueueAllWithRoom(queue: seq<Item>, cap: nat, items: seq<Item>)
    requires |queue| + |items| <= cap
    ensures QueueAll(queue, cap, items) == queue + items
  {
    if items == [] {
      assert queue + items == queue;
    } else {
      var n := |items| - 1;
      QueueAllWithRoom(queue, cap, items[..n]);
      assert queue + items == queue + items[..n] + [items[n]];
    }
  }

  /**
   * Enqueueing several items in a row while others use the queue: what it holds then, and how many got in. A refusal
   * does not stop the next one.
   */
  function Raced(
      queue: seq<Item>, cap: nat, items: seq<Item>, others: nat -> DropQueue.Others<Item>): (seq<Item>, nat)
  {
    if items == [] then (queue, 0)
    else
      var n := |items| - 1;
      var (q, k) := Raced(queue, cap, items[..n], others);
      var a := DropQueue.Attempted(others(n).before(q), cap, items[n], others(n));
      (a.chan, if a.ok then k + 1 else k)
  }

  /** One more removal. */
  lemma RacedGrows(
      queue: seq<Item>, cap: nat, list: seq<BeaconKey>, others: nat -> DropQueue.Others<Item>, i: nat, q: seq<Item>,
      k: nat)
    requires i < |list| && Raced(queue, cap, RemoveItems(list[..i]), others) == (q, k)
    ensures var a := DropQueue.Attempted(others(i).before(q), cap, RemoveItem(list[i]), others(i));
      Raced(queue, cap, RemoveItems(list[..i + 1]), others) == (a.chan, if a.ok then k + 1 else k)
  {
    RemoveItemsGrow(list, i);
  }

  /** Nobody else uses the queue, except during calls that find room at once. */
  ghost predicate Unopposed(queue: seq<Item>, cap: nat, items: seq<Item>, others: nat -> DropQueue.Others<Item>) {
    && 0 < cap && |queue| <= cap && (forall i, s :: others(i).before(s) == s)
    && ((forall i :: DropQueue.StandBy(others(i))) || |queue| + |items| <= cap)
  }

  lemma {:induction false} QueueAllFits(queue: seq<Item>, cap: nat, items: seq<Item>)
    requires 0 < cap && |queue| <= cap
    ensures |QueueAll(queue, cap, items)| <= cap
  {
    if items != [] {
      QueueAllFits(queue, cap, items[..|items| - 1]);
    }
  }

  /** Then every item gets in. */
  lemma {:induction false} RacedAlone(
      queue: seq<Item>, cap: nat, items: seq<Item>, others: nat -> DropQueue.Others<Item>)
    ensures Unopposed(queue, cap, items, others) ==>
      Raced(queue, cap, items, others) == (QueueAll(queue, cap, items), |items|)
  {
    if items != [] && Unopposed(queue, cap, items, others) {
      var n := |items| - 1;
      RacedAlone(queue, cap, items[..n], others);
      QueueAllFits(queue, cap, items[..n]);
      var q := QueueAll(queue, cap, items[..n]);
      if |queue| + |items| <= cap {
        QueueAllWithRoom(queue, cap, items[..n]);
      } else {
        DropQueue.AttemptAlone(q, cap, items[n], others(n));
      }
    }
  }

  /**
   * From an empty queue with room for every orphan, a reconcile followed by a drain leaves exactly the kept entities
   * declared and wipes every topic of the others, and a second reconcile has nothing to enqueue.
   */
  lemma ReconcileConverges(
      env: Env, s: Site, keep: set<string>, orphans: seq<BeaconKey>, cap: nat, configOk: Presence.Event -> bool,
      stateOk: Presence.Event -> bool)
    requires IsOrphanList(env, s, keep, orphans) && |orphans| <= cap
    ensures var s' := After(env, s, StepsOf(QueueAll([], cap, RemoveItems(orphans)), configOk, stateOk));
      && s'.seen == s.seen * keep
      && (forall e, t | e in s.seen && e !in keep && t in TopicsOf(env.prefix, e) :: t !in s'.retained)
      && (forall again | IsOrphanList(env, s', keep, again) :: again == [])
      && (NoGhosts(env, s) ==> forall e :: Held(s'.retained, ConfigTopic(env.prefix, e)).Some? ==> e in keep)
  {
    QueueAllWithRoom([], cap, RemoveItems(orphans));
    assert [] + RemoveItems(orphans) == RemoveItems(orphans);
    RemovalsOfItems(orphans, configOk, stateOk);
    OrphansAreGone(env, s, keep, orphans);
    if NoGhosts(env, s) {
      forall e | Held(After(env, s, Removals(orphans)).retained, ConfigTopic(env.prefix, e)).Some?
        ensures e in keep
      {
        OnlyKnownRemain(env, s, keep, orphans, e);
      }
    }
  }

  datatype QueueError = Cancelled | QueueFull

  class Publisher {
    const env: Env
    const cap: nat
    const configOk: Presence.Event -> bool
    const stateOk: Presence.Event -> bool
    var queue: seq<Item>
    var dropped: nat
    var reported: seq<Item>
    var seen: set<string>
    var seenIDs: map<string, BeaconKey>
    var hasVoltage: map<string, bool>
    var hasTemp: map<string, bool>

    /** The broker's retained messages. */
    var retained: map<string, Payload>

    ghost function State(): Site
      reads this`seen, this`seenIDs, this`hasVoltage, this`hasTemp, this`retained
    {
      Site(seen, seenIDs, hasVoltage, hasTemp, retained)
    }

    ghost predicate Valid()
      reads this`queue, this`seen, this`seenIDs, this`hasVoltage, this`hasTemp, this`retained
    {
      0 < cap && |queue| <= cap && Matches(env, State())
    }

    /** An empty tracker in front of whatever the broker holds; the buffer defaults to 5000 items. */
    constructor (
        env: Env, bufferSize: int, configOk: Presence.Event -> bool, stateOk: Presence.Event -> bool,
        retained: map<string, Payload>)
      ensures Valid() && State() == Start(retained) && queue == [] && dropped == 0 && reported == []
      ensures this.env == env && cap == (if bufferSize <= 0 then 5000 else bufferSize)
      ensures this.configOk == configOk && this.stateOk == stateOk
    {
      this.env, this.configOk, this.stateOk := env, configOk, stateOk;
      cap := if bufferSize <= 0 then 5000 else bufferSize;
      queue, dropped, reported := [], 0, [];
      seen, seenIDs, hasVoltage, hasTemp := {}, map[], map[], map[];
      this.retained := retained;
    }

    /** publishOne, retained and successful; None is the empty payload. */
    method PublishOne(topic: string, payload: Option<Payload>)
      modifies this`retained
      ensures retained == Retain(old(retained), topic, payload)
    {
      retained := if payload.Some? then retained[topic := payload.value] else retained - {topic};
    }

    method WipeAll(topics: seq<string>)
      modifies this`retained
      ensures retained == Wipe(old(retained), topics)
    {
      for i := 0 to |topics|
        invariant retained == Wipe(old(retained), topics[..i])
      {
        assert topics[..i + 1][..i] == topics[..i];
        PublishOne(topics[i], None);
      }
      assert topics[..|topics|] == topics;
    }

    /** handle. */
    method HandleEvent(ev: Presence.Event)
      modifies this`seen, this`seenIDs, this`hasVoltage, this`hasTemp, this`retained
      ensures State() == Handled(env, old(State()), ev, configOk(ev), stateOk(ev))
    {
      var entityID := Entity(env, ev.beacon);
      var alreadySeen := entityID in seen;
      var hadVoltage := entityID in hasVoltage && hasVoltage[entityID];
      var hadTemp := entityID in hasTemp && hasTemp[entityID];
      var withVoltage := hadVoltage || ev.battery.Some?;
      var withTemp := hadTemp || ev.temperature.Some?;
      if !alreadySeen || withVoltage != hadVoltage || withTemp != hadTemp {
        if !configOk(ev) {
          return;
        }
        PublishConfig(ev, alreadySeen, withVoltage, withTemp);
      }
      PublishState(ev);
    }

    /** The config half of handle: the device, the legacy topics on first sight, and the four maps. */
    method PublishConfig(ev: Presence.Event, alreadySeen: bool, withVoltage: bool, withTemp: bool)
      requires var e := Entity(env, ev.beacon);
        && alreadySeen == (e in seen)
        && withVoltage == (Flag(hasVoltage, e) || ev.battery.Some?)
        && withTemp == (Flag(hasTemp, e) || ev.temperature.Some?)
      modifies this`seen, this`seenIDs, this`hasVoltage, this`hasTemp, this`retained
      ensures State() == Declare(env, old(State()), ev)
    {
      var entityID := Entity(env, ev.beacon);
      PublishOne(ConfigTopic(env.prefix, entityID),
        Some(Device(entityID, ev.name, Components(entityID, withVoltage, withTemp))));
      if !alreadySeen {
        WipeAll(LegacyTopics(env.prefix, entityID));
      }
      seen := seen + {entityID};
      seenIDs := seenIDs[entityID := ev.beacon];
      hasVoltage := hasVoltage[entityID := withVoltage];
      hasTemp := hasTemp[entityID := withTemp];
    }

    /** The state half of handle. */
    method PublishState(ev: Presence.Event)
      modifies this`retained
      ensures State() == Announce(env, old(State()), ev, stateOk(ev))
    {
      var entityID := Entity(env, ev.beacon);
      PublishOne(StateTopic(entityID), Some(TrackerState(ev.state != Presence.NOT_HOME)));
      if !stateOk(ev) {
        return;
      }
      PublishOne(TelemetryTopic(entityID), Some(Telemetry(ev.state, ev.battery, ev.temperature)));
    }

    /** handleRemove. */
    method HandleRemove(b: BeaconKey)
      modifies this`seen, this`seenIDs, this`hasVoltage, this`hasTemp, this`retained
      ensures State() == Removed(env, old(State()), b)
    {
      var entityID := Entity(env, b);
      seen := seen - {entityID};
      seenIDs := seenIDs - {entityID};
      hasVoltage := hasVoltage - {entityID};
      hasTemp := hasTemp - {entityID};
      WipeAll(TopicsOf(env.prefix, entityID));
    }

    /** clearSeen: on our reconnect, on Home Assistant's birth message, and on a resync. */
    method ClearSeen()
      modifies this`seen, this`seenIDs, this`hasVoltage, this`hasTemp
      ensures State() == Cleared(old(State())) && Matches(env, State())
    {
      seen, seenIDs, hasVoltage, hasTemp := {}, map[], map[], map[];
    }

    /** enqueue, whatever the other producers and the consumer do meanwhile. */
    method Enqueue(item: Item, others: DropQueue.Others<Item>) returns (ok: bool)
      requires 0 < cap && |queue| <= cap && DropQueue.Respects(others, cap)
      modifies this`queue, this`dropped, this`reported
      ensures |queue| <= cap
      ensures var a := DropQueue.Attempted(old(queue), cap, item, others);
        && queue == a.chan && ok == a.ok
        && dropped == old(dropped) + a.lost && reported == old(reported) + a.told
    {
      if |queue| < cap {
        queue := queue + [item];
        return true;
      }
      queue := others.first(queue);
      var evicted := [];
      if queue != [] {
        evicted := [queue[0]];
        queue := queue[1..];
        dropped := dropped + 1;
      }
      queue := others.second(queue);
      if |queue| < cap {
        queue := queue + [item];
        reported := reported + evicted;
        return true;
      }
      dropped := dropped + 1;
      reported := reported + [item];
      return false;
    }

    /** RemoveEntity: an error exactly when the context is done or the request was refused. */
    method RemoveEntity(cancelled: bool, b: BeaconKey, others: DropQueue.Others<Item>) returns (err: Option<QueueError>)
      requires Valid() && DropQueue.Respects(others, cap)
      modifies this`queue, this`dropped, this`reported
      ensures Valid() && State() == old(State())
      ensures cancelled ==> err == Some(Cancelled) && queue == old(queue)
      ensures !cancelled ==>
        var a := DropQueue.Attempted(old(queue), cap, RemoveItem(b), others);
        queue == a.chan && err == if a.ok then None else Some(QueueFull)
    {
      if cancelled {
        return Some(Cancelled);
      }
      var ok := Enqueue(RemoveItem(b), others);
      return if ok then None else Some(QueueFull);
    }

    /** The first loop of RepublishOrphans. */
    method EntitiesOf(known: seq<BeaconKey>) returns (keep: set<string>)
      ensures keep == Entities(env, known)
    {
      keep := {};
      for i := 0 to |known|
        invariant keep == Entities(env, known[..i])
      {
        assert known[..i + 1] == known[..i] + [known[i]];
        keep := keep + {Entity(env, known[i])};
      }
      assert known[..|known|] == known;
    }

    /** The declared beacons whose entity is not among the kept ones, in whatever order the map yields them. */
    method Orphans(keep: set<string>) returns (orphans: seq<BeaconKey>)
      requires Matches(env, State())
      ensures IsOrphanList(env, State(), keep, orphans)
    {
      orphans := [];
      var todo := seenIDs.Keys;
      while todo != {}
        invariant OrphansSoFar(env, State(), keep, todo, orphans)
        decreases todo
      {
        var e :| e in todo;
        if e in keep {
          OrphansSkip(env, State(), keep, todo, orphans, e);
        } else {
          OrphansTake(env, State(), keep, todo, orphans, e, seenIDs[e]);
          orphans := orphans + [seenIDs[e]];
        }
        todo := todo - {e};
      }
    }

    /**
     * RepublishOrphans: enqueue a removal for every declared entity that is not known. A refusal is reported and does
     * not stop the rest; with nobody else about, or room for all, every removal gets in, in order.
     */
    method RepublishOrphans(cancelled: bool, known: seq<BeaconKey>, others: nat -> DropQueue.Others<Item>)
      returns (enq: nat, err: Option<QueueError>, ghost orphans: seq<BeaconKey>)
      requires Valid() && forall i :: DropQueue.Respects(others(i), cap)
      modifies this`queue, this`dropped, this`reported
      ensures Valid() && State() == old(State())
      ensures cancelled ==> enq == 0 && err == Some(Cancelled) && queue == old(queue)
      ensures !cancelled ==> IsOrphanList(env, State(), Entities(env, known), orphans)
      ensures !cancelled ==> (queue, enq) == Raced(old(queue), cap, RemoveItems(orphans), others)
      ensures !cancelled ==> enq <= |orphans| && err == (if enq == |orphans| then None else Some(QueueFull))
      ensures !cancelled && Unopposed(old(queue), cap, RemoveItems(orphans), others) ==>
        enq == |orphans| && queue == QueueAll(old(queue), cap, RemoveItems(orphans))
    {
      enq, err, orphans := 0, None, [];
      if cancelled {
        return 0, Some(Cancelled), [];
      }
      ghost var s := State();
      var keep := EntitiesOf(known);
      var list := Orphans(keep);
      orphans := list;
      enq, err := EnqueueRemovals(list, others);
      assert State() == s && Matches(env, s);
    }

    /** The second loop of RepublishOrphans. */
    method EnqueueRemovals(
        list: seq<BeaconKey>, others: nat -> DropQueue.Others<Item>) returns (enq: nat, err: Option<QueueError>)
      requires 0 < cap && |queue| <= cap && forall i :: DropQueue.Respects(others(i), cap)
      modifies this`queue, this`dropped, this`reported
      ensures |queue| <= cap && enq <= |list| && err == (if enq == |list| then None else Some(QueueFull))
      ensures (queue, enq) == Raced(old(queue), cap, RemoveItems(list), others)
      ensures Unopposed(old(queue), cap, RemoveItems(list), others) ==>
        enq == |list| && queue == QueueAll(old(queue), cap, RemoveItems(list))
    {
      enq, err := 0, None;
      for i := 0 to |list|
        invariant |queue| <= cap && enq <= i && err == (if enq == i then None else Some(QueueFull))
        invariant (queue, enq) == Raced(old(queue), cap, RemoveItems(list[..i]), others)
      {
        RacedGrows(old(queue), cap, list, others, i, queue, enq);
        assert DropQueue.Respects(others(i), cap);
        queue := others(i).before(queue);
        var ok := Enqueue(RemoveItem(list[i]), others(i));
        if !ok {
          if err.None? {
            err := Some(QueueFull);
          }
          continue;
        }
        enq := enq + 1;
      }
      assert list[..|list|] == list;
      RacedAlone(old(queue), cap, RemoveItems(list), others);
    }

    /** The receive case of Run. */
    method RunOne()
      requires Valid() && queue != []
      modifies this`queue, this`seen, this`seenIDs, this`hasVoltage, this`hasTemp, this`retained
      ensures Valid() && queue == old(queue)[1..]
      ensures State() == Apply(env, old(State()), StepOf(old(queue)[0], configOk, stateOk))
    {
      var item := queue[0];
      ApplyMatches(env, State(), StepOf(item, configOk, stateOk));
      queue := queue[1..];
      match item
      case RemoveItem(b) => HandleRemove(b);
      case EventItem(ev) => HandleEvent(ev);
    }

    /** Run until the queue is empty, with nobody enqueueing: it terminates having handled the items in order. */
    method Drain()
      requires Valid()
      modifies this`queue, this`seen, this`seenIDs, this`hasVoltage, this`hasTemp, this`retained
      ensures Valid() && queue == [] && State() == After(env, old(State()), StepsOf(old(queue), configOk, stateOk))
    {
      ghost var s, items, n := State(), queue, 0;
      assert items[0..] == items && StepsOf(items[..0], configOk, stateOk) == [];
      while queue != []
        invariant Valid() && n <= |items| && queue == items[n..]
        invariant State() == After(env, s, StepsOf(items[..n], configOk, stateOk))
        decreases |queue|
      {
        AfterNext(env, s, items, n, configOk, stateOk);
        RunOne();
        n := n + 1;
      }
      assert items[..n] == items;
    }
  }

  // --------------------------------------------------------------- options

  /** What New is given; the client id and the topics of the connection itself are not part of the model. */
  datatype Options = Options(
    brokerURL: string, username: string, password: string, discoveryPrefix: string, bufferSize: int, hasLogger: bool)

  datatype OptionsError = NoBroker | NoCredentials | NoLogger

  /** New: refuses missing options in this order, and applies the defaults. */
  method New(
      opts: Options, hash: string -> string, configOk: Presence.Event -> bool, stateOk: Presence.Event -> bool,
      retained: map<string, Payload>)
    returns (r: Result<Publisher, OptionsError>)
    ensures r.Ok? <==> opts.brokerURL != "" && opts.username != "" && opts.password != "" && opts.hasLogger
    ensures r.Err? ==> r.error == (if opts.brokerURL == "" then NoBroker
                                   else if opts.username == "" || opts.password == "" then NoCredentials else NoLogger)
    ensures r.Ok? ==> fresh(r.value) && r.value.Valid() && r.value.State() == Start(retained) && r.value.queue == []
    ensures r.Ok? ==> r.value.cap == if opts.bufferSize <= 0 then 5000 else opts.bufferSize
    ensures r.Ok? ==> r.value.env == Env(if opts.discoveryPrefix == "" then "homeassistant" else opts.discoveryPrefix,
      hash)
  {
    var prefix := if opts.discoveryPrefix == "" then "homeassistant" else opts.discoveryPrefix;
    if opts.brokerURL == "" {
      return Err(NoBroker);
    }
    if opts.username == "" || opts.password == "" {
      return Err(NoCredentials);
    }
    if !opts.hasLogger {
      return Err(NoLogger);
    }
    var p := new Publisher(Env(prefix, hash), opts.bufferSize, configOk, stateOk, retained);
    return Ok(p);
  }
}
