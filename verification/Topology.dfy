/** The allowlist of tracked beacons and the map from access points to zone labels. */
module Topology {
  import opened Wrappers
  import opened Text
  import opened Identity

  datatype TrackedBeacon = TrackedBeacon(key: BeaconKey, name: string)

  /** What net.ParseMAC makes of a text: the canonical form of a six-byte hardware address, or nothing. */
  type Canonical = string -> Option<string>

  datatype Topology = Topology(zones: map<string, string>, beacons: seq<TrackedBeacon>, canonical: Canonical)

  /** NormalizeMAC: the canonical form, or the lower case of a text that has none. */
  function NormalizeMAC(canonical: Canonical, s: string): string {
    if canonical(s).Some? then canonical(s).value else Lower(s)
  }

  predicate IsBlank(s: string) { TrimSpace(s) == "" }

  /** Zone: the label of an access point, or "" when it has none. */
  function Zone(t: Topology, ap: string): string {
    var mac := NormalizeMAC(t.canonical, ap);
    if mac in t.zones then t.zones[mac] else ""
  }

  /** The spelling of an address does not matter: its case, or whatever else the canonical form does away with. */
  lemma ZoneIgnoresSpelling(t: Topology, ap: string, ap': string)
    requires t.canonical(ap) == t.canonical(ap') && (t.canonical(ap).None? ==> Lower(ap) == Lower(ap'))
    ensures Zone(t, ap) == Zone(t, ap')
  {
  }

  /** Two topologies give every access point the same label. */
  ghost predicate SameZones(t: Topology, t': Topology) { forall ap :: Zone(t, ap) == Zone(t', ap) }

  function Keys(beacons: seq<TrackedBeacon>): set<BeaconKey> { set b <- beacons :: b.key }

  function Names(beacons: seq<TrackedBeacon>): set<string> { set b <- beacons :: b.name }

  /** No two entries of the allowlist share a key or a name, and none is blank. */
  predicate WellFormed(beacons: seq<TrackedBeacon>) {
    && (forall i | 0 <= i < |beacons| :: !beacons[i].key.IsZero() && !IsBlank(beacons[i].name))
    && (forall i, j | 0 <= i < j < |beacons| :: beacons[i].key != beacons[j].key && beacons[i].name != beacons[j].name)
  }

  /** What NewTopology guarantees of a topology it returns. */
  predicate ValidTopology(t: Topology) {
    && WellFormed(t.beacons)
    && forall mac | mac in t.zones :: !IsBlank(t.zones[mac])
  }

  /** A name, or a label, that holds nothing but spaces is as good as none: it is refused, and any other is not. */
  lemma SpacesAreNoName(key: BeaconKey, name: string)
    requires !key.IsZero()
    ensures WellFormed([TrackedBeacon(key, name)])
      <==> exists i | 0 <= i < |name| :: name[i] !in {' ', '\t', '\n', '\r', 11 as char, 12 as char}
  {
    BlankExactlyWhen(name);
    var entry := TrackedBeacon(key, name);
    assert [entry][0] == entry;
    assert WellFormed([entry]) <==> !IsBlank(name);
  }

  /** In a valid topology an access point has no label exactly when its address is not configured. */
  lemma LabelledExactlyWhen(t: Topology, ap: string, mac: string)
    requires ValidTopology(t) && (t.canonical(ap) == Some(mac) || (t.canonical(ap).None? && Lower(ap) == mac))
    ensures Zone(t, ap) != "" <==> mac in t.zones
    ensures mac in t.zones ==> Zone(t, ap) == t.zones[mac]
  {
    assert IsBlank("");
  }

  datatype TopologyError = BadMac | EmptyLabel | ZeroKey | EmptyName | DuplicateKey | DuplicateName

  /** Every zone entry names a hardware address and has a label; isMac stands for net.ParseMAC. */
  predicate ZonesAccepted(zones: map<string, string>, isMac: string -> bool) {
    forall mac | mac in zones :: isMac(mac) && !IsBlank(zones[mac])
  }

  /** NewTopology accepts exactly the well-formed inputs, and what it returns is valid. */
  method NewTopology(
      zones: map<string, string>, beacons: seq<TrackedBeacon>, isMac: string -> bool, canonical: Canonical)
    returns (r: Result<Topology, TopologyError>)
    ensures r.Ok? <==> ZonesAccepted(zones, isMac) && WellFormed(beacons)
    ensures r.Ok? ==> ValidTopology(r.value) && r.value.beacons == beacons && r.value.canonical == canonical
    ensures r.Ok? ==> forall mac | mac in zones :: NormalizeMAC(canonical, mac) in r.value.zones
    ensures r.Ok? ==> forall k | k in r.value.zones ::
      exists mac :: mac in zones && NormalizeMAC(canonical, mac) == k && r.value.zones[k] == zones[mac]
  {
    var out: map<string, string> := map[];
    var todo := zones.Keys;
    while todo != {}
      invariant todo <= zones.Keys
      invariant forall mac | mac in zones && mac !in todo ::
        isMac(mac) && !IsBlank(zones[mac]) && NormalizeMAC(canonical, mac) in out
      invariant forall k | k in out ::
        exists mac :: mac in zones && NormalizeMAC(canonical, mac) == k && out[k] == zones[mac]
      invariant forall k | k in out :: !IsBlank(out[k])
      decreases todo
    {
      var mac :| mac in todo;
      todo := todo - {mac};
      if !isMac(mac) {
        return Err(BadMac);
      }
      if IsBlank(zones[mac]) {
        return Err(EmptyLabel);
      }
      out := out[NormalizeMAC(canonical, mac) := zones[mac]];
    }
    var seen: set<BeaconKey>, names: set<string> := {}, {};
    var kept: seq<TrackedBeacon> := [];
    for i := 0 to |beacons|
      invariant kept == beacons[..i] && WellFormed(kept)
      invariant seen == Keys(kept) && names == Names(kept)
    {
      var b := beacons[i];
      if b.key.IsZero() {
        return Err(ZeroKey);
      }
      if IsBlank(b.name) {
        return Err(EmptyName);
      }
      if b.key in seen {
        return Err(DuplicateKey);
      }
      if b.name in names {
        return Err(DuplicateName);
      }
      seen, names := seen + {b.key}, names + {b.name};
      kept := kept + [b];
    }
    assert kept == beacons;
    r := Ok(Topology(out, kept, canonical));
  }
}
