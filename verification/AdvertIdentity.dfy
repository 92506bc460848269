/** What the walkers and the identity pipeline promise of every advertisement. */
module AdvertIdentity {
  import opened Wrappers
  import opened Text
  import opened Identity
  import opened AdFormat
  import opened Advert
  import opened AdvertFields

  // ------------------------------------------------------ walkers agree

  lemma {:induction false} CollectedIBeacon(raw: seq<byte>, records: seq<Structure>)
    ensures Collected(raw, records).iBeacon == LastIBeacon(records)
  {
    if records != [] {
      var n := |records| - 1;
      CollectedIBeacon(raw, records[..n]);
      var a := Collected(raw, records[..n]);
      RecordSetsFrames(a.(structures := a.structures + [records[n]]), records[n]);
    }
  }

  lemma CollectedKeepsRecords(raw: seq<byte>, records: seq<Structure>)
    ensures Collected(raw, records).structures == records
    ensures Collected(raw, records).iBeacon == LastIBeacon(records)
  {
    LatestWins(raw, records);
    CollectedIBeacon(raw, records);
  }

  lemma {:induction false} LastShortIsShort(records: seq<Structure>)
    ensures LastShort(records).Some? ==> LastShort(records).value.ShortIBeacon?
  {
    if records != [] {
      LastShortIsShort(records[..|records| - 1]);
    }
  }

  /** The full walk and the debug walk read the same records, stop alike and name the same iBeacon. */
  lemma ParseAgreesWithDebug(buf: seq<byte>)
    ensures var w, a, d := Walk(buf), Collected(buf, Walk(buf).records), DebugSpec(buf);
      && |d.records| == |a.structures|
      && (forall i | 0 <= i < |d.records| ::
            Structure(d.records[i].typ, d.records[i].value) == a.structures[i]
              && d.records[i].length == |d.records[i].value|)
      && (w.Overran() <==> d.err.Some? && d.err.value.Overrun?)
      && a.iBeacon == d.iBeacon
  {
    CollectedKeepsRecords(buf, Walk(buf).records);
    LastShortIsShort(Walk(buf).records);
  }

  lemma {:induction false} NoSignedNoFrame(records: seq<Structure>)
    requires forall i | 0 <= i < |records| :: !Signed(records[i])
    ensures LastIBeacon(records).None? && FirstSigned(records).None?
  {
    if records != [] {
      NoSignedNoFrame(records[..|records| - 1]);
      FirstSignedConcat(records[..|records| - 1], [records[|records| - 1]]);
      assert records == records[..|records| - 1] + [records[|records| - 1]];
    }
  }

  lemma {:induction false} FirstSignedIsSigned(records: seq<Structure>)
    ensures FirstSigned(records).Some? ==> Signed(FirstSigned(records).value) && FirstSigned(records).value in records
    ensures FirstSigned(records).None? ==> forall i | 0 <= i < |records| :: !Signed(records[i])
  {
    if records != [] {
      FirstSignedIsSigned(records[1..]);
      forall i | 0 <= i < |records| && FirstSigned(records).None?
        ensures !Signed(records[i])
      {
        assert i > 0 ==> records[i] == records[1..][i - 1];
      }
    }
  }

  /** The answer the legacy filter should give if it agreed with the full decode. */
  function FilterOf(frame: Option<IBeacon>): Filtered {
    if frame.Some? then Found(frame.value) else NotIBeacon
  }

  /**
   * On a buffer the full walk accepts, the legacy filter agrees with it exactly when no record bears the
   * signature, or the first one that does is complete and carries the frame of the last complete one.
   */
  lemma FilterAgreesExactlyWhen(buf: seq<byte>)
    requires !Walk(buf).Overran()
    ensures var records := Walk(buf).records;
      var first := FirstSigned(records);
      FilterSpec(buf) == FilterOf(Collected(buf, records).iBeacon)
      <==> (first.Some? ==> |first.value.value| >= 25 && FrameOf(first.value) == LastIBeacon(records))
  {
    var records := Walk(buf).records;
    CollectedKeepsRecords(buf, records);
    FirstSignedIsSigned(records);
    if FirstSigned(records).None? {
      NoSignedNoFrame(records);
    }
  }

  lemma {:induction false} OnlyFrame(records: seq<Structure>, k: nat)
    requires k < |records| && forall i | 0 <= i < |records| && i != k :: !Signed(records[i])
    ensures LastIBeacon(records) == FrameOf(records[k])
  {
    var n := |records| - 1;
    if k == n {
      NoSignedNoFrame(records[..n]);
    } else {
      OnlyFrame(records[..n], k);
    }
  }

  /** With at most one signed record, and that one complete, the filter and the full decode never differ. */
  lemma FilterAgreesOnOneSignature(buf: seq<byte>, k: nat)
    requires !Walk(buf).Overran()
    requires var records := Walk(buf).records;
      forall i | 0 <= i < |records| && Signed(records[i]) :: i == k && |records[i].value| >= 25
    ensures FilterSpec(buf) == FilterOf(Collected(buf, Walk(buf).records).iBeacon)
  {
    var records := Walk(buf).records;
    FirstSignedIsSigned(records);
    FilterAgreesExactlyWhen(buf);
    if FirstSigned(records).Some? {
      OnlyFrame(records, k);
    }
  }

  // ----------------------------------------------------------- identity

  /** Identify: iBeacon, then Eddystone UID, then Eddystone URL, then name. */
  function Identify(a: Advert): Option<BeaconKey> {
    var byIBeacon := if a.iBeacon.Some?
      then NewIBeaconKey(a.iBeacon.value.uuid, a.iBeacon.value.major, a.iBeacon.value.minor) else None;
    var byEddystone :=
      if a.eddystone.None? then None
      else if a.eddystone.value.frameType == 0x00
        then NewEddystoneUIDKey(a.eddystone.value.namespace, a.eddystone.value.instance)
      else if a.eddystone.value.frameType == 0x10 && a.eddystone.value.url != ""
        then NewEddystoneURLKey(a.eddystone.value.url)
      else None;
    if byIBeacon.Some? then byIBeacon
    else if byEddystone.Some? then byEddystone
    else if a.localName != "" then NewNameKey(a.localName)
    else None
  }

  lemma HexIsInjective(a: seq<byte>, b: seq<byte>)
    requires HexEncode(a) == HexEncode(b)
    ensures a == b
  {
    HexRoundTrip(a);
    HexRoundTrip(b);
  }

  lemma HexIsNormal(s: string)
    requires IsHex(s)
    ensures Lower(TrimSpace(s)) == s
  {
    NormalIsFixed(s);
  }

  lemma UuidTextIsCanonical(b: seq<byte>)
    requires |b| == 16
    ensures IsCanonicalUUID(UuidText(b)) && Lower(TrimSpace(UuidText(b))) == UuidText(b)
    ensures UuidDigits(UuidText(b)) == HexEncode(b)
  {
    var g0, g1, g2, g3, g4 := HexEncode(b[..4]), HexEncode(b[4..6]), HexEncode(b[6..8]), HexEncode(b[8..10]),
      HexEncode(b[10..]);
    HexRoundTrip(b[..4]);
    HexRoundTrip(b[4..6]);
    HexRoundTrip(b[6..8]);
    HexRoundTrip(b[8..10]);
    HexRoundTrip(b[10..]);
    GroupsAreCanonical(g0, g1, g2, g3, g4);
    NormalIsFixed(UuidText(b));
    HexOfGroups(b);
  }

  lemma HexOfGroups(b: seq<byte>)
    requires |b| == 16
    ensures HexEncode(b[..4]) + HexEncode(b[4..6]) + HexEncode(b[6..8]) + HexEncode(b[8..10]) + HexEncode(b[10..])
      == HexEncode(b)
  {
    HexEncodeConcat(b[..4], b[4..6]);
    HexEncodeConcat(b[..6], b[6..8]);
    HexEncodeConcat(b[..8], b[8..10]);
    HexEncodeConcat(b[..10], b[10..]);
    assert b[..4] + b[4..6] == b[..6] && b[..6] + b[6..8] == b[..8] && b[..8] + b[8..10] == b[..10]
      && b[..10] + b[10..] == b;
  }

  lemma GroupsAreCanonical(g0: string, g1: string, g2: string, g3: string, g4: string)
    requires IsHex(g0) && IsHex(g1) && IsHex(g2) && IsHex(g3) && IsHex(g4)
    requires |g0| == 8 && |g1| == 4 && |g2| == 4 && |g3| == 4 && |g4| == 12
    ensures var t := g0 + "-" + g1 + "-" + g2 + "-" + g3 + "-" + g4;
      IsCanonicalUUID(t) && UuidDigits(t) == g0 + g1 + g2 + g3 + g4
  {
    var t := g0 + "-" + g1 + "-" + g2 + "-" + g3 + "-" + g4;
    assert t[..8] == g0 && t[9..13] == g1 && t[14..18] == g2 && t[19..23] == g3 && t[24..] == g4;
    forall i | 0 <= i < 36 && i != 8 && i != 13 && i != 18 && i != 23
      ensures IsHexDigit(t[i])
    {
      assert t[i] == if i < 8 then g0[i] else if i < 13 then g1[i - 9] else if i < 18 then g2[i - 14]
                     else if i < 23 then g3[i - 19] else g4[i - 24];
    }
  }

  /** A manufacturer value that decodes as an iBeacon. */
  predicate IsFrame(v: seq<byte>) { LooksLikeIBeacon(v) && |v| >= 25 }

  function KeyOfFrame(v: seq<byte>): Option<BeaconKey>
    requires IsFrame(v)
  {
    var f := DecodeIBeaconPayload(v).value;
    NewIBeaconKey(f.uuid, f.major, f.minor)
  }

  lemma FrameHasKey(v: seq<byte>)
    requires IsFrame(v)
    ensures KeyOfFrame(v) == Some(BeaconKey(IBEACON,
      IBeaconText(UuidText(v[4..20]), BigEndian16(v, 20), BigEndian16(v, 22))))
    ensures Constructed(KeyOfFrame(v).value)
  {
    UuidTextIsCanonical(v[4..20]);
  }

  /**
   * Every decoded iBeacon has a key, and two of them share it, or share the entity id, exactly when their UUID,
   * major and minor bytes are the same.
   */
  lemma IBeaconIdentityIsFaithful(v: seq<byte>, v': seq<byte>, hash: string -> string)
    requires IsFrame(v) && IsFrame(v') && IsShortHash(hash)
    ensures KeyOfFrame(v).Some? && KeyOfFrame(v').Some?
    ensures KeyOfFrame(v) == KeyOfFrame(v') <==> v[4..24] == v'[4..24]
    ensures EntityID(KeyOfFrame(v).value, hash) == EntityID(KeyOfFrame(v').value, hash) <==> v[4..24] == v'[4..24]
  {
    FrameHasKey(v);
    FrameHasKey(v');
    EntityIdCollisions(KeyOfFrame(v).value, KeyOfFrame(v').value, hash);
    if KeyOfFrame(v) == KeyOfFrame(v') {
      FrameKeyIsInjective(v, v');
    } else if v[4..24] == v'[4..24] {
      SameBytesSameKey(v, v');
    }
  }

  lemma SameBytesSameKey(v: seq<byte>, v': seq<byte>)
    requires IsFrame(v) && IsFrame(v') && v[4..24] == v'[4..24]
    ensures KeyOfFrame(v) == KeyOfFrame(v')
  {
    assert v[4..20] == v[4..24][..16] && v'[4..20] == v'[4..24][..16];
    assert forall i | 20 <= i < 24 :: v[i] == v[4..24][i - 4] && v'[i] == v'[4..24][i - 4];
  }

  lemma FrameKeyIsInjective(v: seq<byte>, v': seq<byte>)
    requires IsFrame(v) && IsFrame(v') && KeyOfFrame(v) == KeyOfFrame(v')
    ensures v[4..24] == v'[4..24]
  {
    var u, u' := v[4..20], v'[4..20];
    assert UuidText(u) == UuidText(u') && BigEndian16(v, 20) == BigEndian16(v', 20)
      && BigEndian16(v, 22) == BigEndian16(v', 22) by {
      FrameHasKey(v);
      FrameHasKey(v');
      UuidTextIsCanonical(u);
      UuidTextIsCanonical(u');
      IBeaconTextIsInjective(UuidText(u), BigEndian16(v, 20), BigEndian16(v, 22), UuidText(u'), BigEndian16(v', 20),
        BigEndian16(v', 22));
    }
    assert u == u' by {
      UuidTextIsInjective(u, u');
    }
    Join16IsInjective(v[20], v[21], v'[20], v'[21]);
    Join16IsInjective(v[22], v[23], v'[22], v'[23]);
    assert v[4..24] == u + [v[20], v[21], v[22], v[23]];
    assert v'[4..24] == u' + [v'[20], v'[21], v'[22], v'[23]];
  }

  lemma UuidTextIsInjective(b: seq<byte>, b': seq<byte>)
    requires |b| == |b'| == 16 && UuidText(b) == UuidText(b')
    ensures b == b'
  {
    UuidTextIsCanonical(b);
    UuidTextIsCanonical(b');
    HexIsInjective(b, b');
  }

  lemma Join16IsInjective(hi: byte, lo: byte, hi': byte, lo': byte)
    requires Join16(hi, lo) == Join16(hi', lo')
    ensures hi == hi' && lo == lo'
  {
  }

  /** A payload of any length from 25 bytes on is accepted, and what follows the frame does not change it. */
  lemma TrailingBytesAreIgnored(v: seq<byte>, extra: seq<byte>)
    requires IsFrame(v)
    ensures IsFrame(v + extra) && DecodeIBeaconPayload(v + extra) == DecodeIBeaconPayload(v)
    ensures FrameOf(Structure(MANUF_DATA, v + extra)) == FrameOf(Structure(MANUF_DATA, v))
  {
    assert (v + extra)[4..20] == v[4..20];
  }

  /** An Eddystone payload that decodes as a UID frame. */
  predicate IsUidFrame(p: seq<byte>) { |p| >= 18 && p[0] == 0x00 }

  function KeyOfUid(p: seq<byte>): Option<BeaconKey>
    requires IsUidFrame(p)
  {
    var f := DecodeEddystone(p).value;
    NewEddystoneUIDKey(f.namespace, f.instance)
  }

  lemma UidHasKey(p: seq<byte>)
    requires IsUidFrame(p)
    ensures KeyOfUid(p) == Some(BeaconKey(EDDYSTONE_UID, HexEncode(p[2..12]) + "_" + HexEncode(p[12..18])))
  {
    HexRoundTrip(p[2..12]);
    HexRoundTrip(p[12..18]);
    HexIsNormal(HexEncode(p[2..12]));
    HexIsNormal(HexEncode(p[12..18]));
  }

  /** Eddystone-UID frames: a key for each, shared exactly when namespace and instance bytes are the same. */
  lemma UidIdentityIsFaithful(p: seq<byte>, p': seq<byte>, hash: string -> string)
    requires IsUidFrame(p) && IsUidFrame(p') && IsShortHash(hash)
    ensures KeyOfUid(p).Some? && KeyOfUid(p').Some?
    ensures KeyOfUid(p) == KeyOfUid(p') <==> p[2..18] == p'[2..18]
    ensures EntityID(KeyOfUid(p).value, hash) == EntityID(KeyOfUid(p').value, hash) <==> p[2..18] == p'[2..18]
  {
    UidHasKey(p);
    UidHasKey(p');
    EntityIdCollisions(KeyOfUid(p).value, KeyOfUid(p').value, hash);
    assert p[2..18] == p[2..12] + p[12..18] && p'[2..18] == p'[2..12] + p'[12..18];
    assert p[2..12] == p[2..18][..10] && p'[2..12] == p'[2..18][..10];
    assert p[12..18] == p[2..18][10..] && p'[12..18] == p'[2..18][10..];
    if KeyOfUid(p) == KeyOfUid(p') {
      var a, b, a', b' := HexEncode(p[2..12]), HexEncode(p[12..18]), HexEncode(p'[2..12]), HexEncode(p'[12..18]);
      EqualHeads(a + "_", b, a' + "_", b');
      EqualHeads(a, "_", a', "_");
      HexIsInjective(p[2..12], p'[2..12]);
      HexIsInjective(p[12..18], p'[12..18]);
    }
  }

  // ------------------------------------------------- whole advertisements

  /** The key of an Eddystone payload: a UID frame always has one, a URL frame if its text is not blank. */
  function KeyOfEddystone(p: seq<byte>): Option<BeaconKey> {
    if IsUidFrame(p) then Some(BeaconKey(EDDYSTONE_UID, HexEncode(p[2..12]) + "_" + HexEncode(p[12..18])))
    else if |p| >= 3 && p[0] == 0x10 then NewEddystoneURLKey(UrlText(p[2], p[3..]))
    else None
  }

  /**
   * The identity that a list of records should have: that of its last complete iBeacon, else of its last decodable
   * Eddystone record, else of the name it shows.
   */
  function KeyOfRecords(records: seq<Structure>): Option<BeaconKey> {
    var frame, payload := Last(FrameBytes, records), Last(EddystonePayload, records);
    if frame.Some? then
      var v := frame.value;
      if IsFrame(v)
      then Some(BeaconKey(IBEACON, IBeaconText(UuidText(v[4..20]), BigEndian16(v, 20), BigEndian16(v, 22))))
      else None
    else if payload.Some? && KeyOfEddystone(payload.value).Some? then KeyOfEddystone(payload.value)
    else NewNameKey(ShownName(records))
  }

  lemma {:induction false} LastFrameIsFrame(records: seq<Structure>)
    ensures Last(FrameBytes, records).Some? ==> IsFrame(Last(FrameBytes, records).value)
  {
    if records != [] {
      LastFrameIsFrame(records[..|records| - 1]);
    }
  }

  lemma EddystoneIdentity(a: Advert, p: seq<byte>)
    requires a.iBeacon.None? && a.eddystone.Some? && a.eddystone == DecodeEddystone(p)
    ensures Identify(a) == if KeyOfEddystone(p).Some? then KeyOfEddystone(p) else NewNameKey(a.localName)
  {
    if IsUidFrame(p) {
      UidHasKey(p);
    }
    assert NewNameKey("").None? && NewEddystoneURLKey("").None?;
  }

  /**
   * From bytes to identity, at every level of the precedence: what Parse and Identify make of a buffer is the key of
   * the record that the precedence picks, with the bytes of that record.
   */
  lemma IdentityFollowsPrecedence(buf: seq<byte>)
    ensures Identify(Collected(buf, Walk(buf).records)) == KeyOfRecords(Walk(buf).records)
  {
    var records := Walk(buf).records;
    var a := Collected(buf, records);
    LatestFramesWin(buf, records);
    NameRule(buf, records);
    LastFrameIsFrame(records);
    if Last(FrameBytes, records).Some? {
      FrameHasKey(Last(FrameBytes, records).value);
    } else if Last(EddystonePayload, records).Some? {
      EddystoneIdentity(a, Last(EddystonePayload, records).value);
    } else {
      assert NewNameKey("").None?;
    }
  }

  /** Every identity is one that a key constructor can return, and its kind says which level decided. */
  lemma IdentityIsConstructed(records: seq<Structure>)
    ensures var id, frame, payload := KeyOfRecords(records), Last(FrameBytes, records), Last(EddystonePayload, records);
      && (id.Some? ==> Constructed(id.value))
      && (id.Some? && id.value.kind == IBEACON <==> frame.Some?)
      && (id.Some? && id.value.kind == EDDYSTONE_UID <==> frame.None? && payload.Some? && IsUidFrame(payload.value))
      && (id.Some? && id.value.kind == EDDYSTONE_URL <==>
            frame.None? && payload.Some? && !IsUidFrame(payload.value) && KeyOfEddystone(payload.value).Some?)
  {
    LastFrameIsFrame(records);
    if Last(FrameBytes, records).Some? {
      FrameHasKey(Last(FrameBytes, records).value);
    }
  }

  // ---------------------------------------------- where the filter differs

  /** An iBeacon of all zeroes except its major. */
  function SampleFrame(major: byte): Structure {
    Structure(MANUF_DATA, [0x4C, 0x00, 0x02, 0x15] + seq(16, _ => 0) + [0, major, 0, 0, 0])
  }

  /** On a buffer with two complete iBeacons the filter names the first and the full decode the second. */
  lemma TwoFrames(first: Structure, second: Structure) returns (buf: seq<byte>)
    requires Signed(first) && Signed(second) && 25 <= |first.value| <= 254 && 25 <= |second.value| <= 254
    ensures !Walk(buf).Overran() && Walk(buf).records == [first, second]
    ensures FilterSpec(buf) == Found(FrameOf(first).value)
    ensures Collected(buf, Walk(buf).records).iBeacon == FrameOf(second)
  {
    var records := [first, second];
    buf := Encode(records);
    assert buf == Encode(records) + [];
    WalkInvertsEncode(buf, records, []);
    CollectedKeepsRecords(buf, records);
  }

  /** So the filter and the full decode can name different iBeacons. */
  lemma FilterCanDiffer() returns (buf: seq<byte>)
    ensures !Walk(buf).Overran() && FilterSpec(buf).Found?
    ensures FilterSpec(buf) != FilterOf(Collected(buf, Walk(buf).records).iBeacon)
  {
    SampleMajor(1);
    SampleMajor(2);
    buf := TwoFrames(SampleFrame(1), SampleFrame(2));
  }

  lemma SampleMajor(major: byte)
    ensures var s := SampleFrame(major);
      |s.value| == 25 && Signed(s) && FrameOf(s).Some? && FrameOf(s).value.major == major
  {
    var v := SampleFrame(major).value;
    assert v[0] == 0x4C && v[1] == 0x00 && v[2] == 0x02 && v[3] == 0x15 && v[20] == 0 && v[21] == major;
  }
}
