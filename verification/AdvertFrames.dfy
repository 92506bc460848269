/** Round trips of the frames inside an advertisement: what a beacon encodes is what the parser decodes. */
module AdvertFrames {
  import opened Wrappers
  import opened Text
  import opened Identity
  import opened AdFormat
  import opened Advert

  // --------------------------------------------------------------- encoders

  /** A 16-bit number in network order. */
  function Big16(n: uint16): seq<byte> { [n / 256, n % 256] }

  function Big32(n: int): seq<byte>
    requires 0 <= n < 0x1_0000_0000
  {
    Big16(n / 65536) + Big16(n % 65536)
  }

  /** A signed byte in two's complement. */
  function Signed8(n: int): byte
    requires -128 <= n < 128
  {
    if n < 0 then n + 256 else n
  }

  /** A signed 16-bit number in two's complement. */
  function Signed16(n: int): uint16
    requires -32768 <= n < 32768
  {
    if n < 0 then n + 65536 else n
  }

  /** Company, type and length, then sixteen bytes, two numbers and the signed power at one metre. */
  function EncodeIBeacon(uuid: seq<byte>, major: uint16, minor: uint16, tx: int): seq<byte>
    requires |uuid| == 16 && -128 <= tx < 128
  {
    [0x4C, 0x00, 0x02, 0x15] + uuid + Big16(major) + Big16(minor) + [Signed8(tx)]
  }

  function EncodeUid(tx: int, namespace: seq<byte>, instance: seq<byte>): seq<byte>
    requires -128 <= tx < 128 && |namespace| == 10 && |instance| == 6
  {
    [0x00, Signed8(tx)] + namespace + instance
  }

  function EncodeUrl(tx: int, scheme: byte, encoded: seq<byte>): seq<byte>
    requires -128 <= tx < 128
  {
    [0x10, Signed8(tx), scheme] + encoded
  }

  /** Telemetry: version, battery, 8.8 fixed-point temperature, and the counts of adverts and of tenths of seconds. */
  function EncodeTlm(version: byte, battery: uint16, temperature: uint16, count: int, uptime: int): seq<byte>
    requires 0 <= count < 0x1_0000_0000 && 0 <= uptime < 0x1_0000_0000
  {
    [0x20, version] + Big16(battery) + Big16(temperature) + Big32(count) + Big32(uptime)
  }

  // ------------------------------------------------------------- round trips

  lemma Big16RoundTrip(n: uint16, before: seq<byte>, after: seq<byte>)
    ensures BigEndian16(before + Big16(n) + after, |before|) == n
  {
    var v := before + Big16(n) + after;
    assert v[|before|] == n / 256 && v[|before| + 1] == n % 256;
  }

  lemma Big32RoundTrip(n: int, before: seq<byte>, after: seq<byte>)
    requires 0 <= n < 0x1_0000_0000
    ensures BigEndian32(before + Big32(n) + after, |before|) == n
  {
    var v := before + Big32(n) + after;
    assert v == before + Big16(n / 65536) + (Big16(n % 65536) + after);
    assert v == (before + Big16(n / 65536)) + Big16(n % 65536) + after;
    Big16RoundTrip(n / 65536, before, Big16(n % 65536) + after);
    Big16RoundTrip(n % 65536, before + Big16(n / 65536), after);
  }

  lemma Signed8RoundTrip(n: int)
    requires -128 <= n < 128
    ensures Int8(Signed8(n)) == n
  {
  }

  /** An iBeacon, whatever follows it, decodes to the text of its sixteen bytes, its two numbers and its power. */
  lemma IBeaconRoundTrip(uuid: seq<byte>, major: uint16, minor: uint16, tx: int, after: seq<byte>)
    requires |uuid| == 16 && -128 <= tx < 128
    ensures var v := EncodeIBeacon(uuid, major, minor, tx) + after;
      LooksLikeIBeacon(v) && DecodeIBeaconPayload(v) == Some(IBeacon(UuidText(uuid), major, minor, tx))
  {
    var v := EncodeIBeacon(uuid, major, minor, tx) + after;
    var head := [0x4C, 0x00, 0x02, 0x15] + uuid;
    assert v[4..20] == uuid;
    assert v == head + Big16(major) + (Big16(minor) + [Signed8(tx)] + after);
    Big16RoundTrip(major, head, Big16(minor) + [Signed8(tx)] + after);
    assert v == (head + Big16(major)) + Big16(minor) + ([Signed8(tx)] + after);
    Big16RoundTrip(minor, head + Big16(major), [Signed8(tx)] + after);
    assert v[24] == Signed8(tx);
  }

  /** A UID frame decodes to the hex of its two ids and its power. */
  lemma UidRoundTrip(tx: int, namespace: seq<byte>, instance: seq<byte>, after: seq<byte>)
    requires -128 <= tx < 128 && |namespace| == 10 && |instance| == 6
    ensures DecodeEddystone(EncodeUid(tx, namespace, instance) + after) ==
      Some(EddystoneFrame(0x00, HexEncode(namespace), HexEncode(instance), "", Some(tx), None, None, None, None))
  {
    var p := EncodeUid(tx, namespace, instance) + after;
    assert p[2..12] == namespace && p[12..18] == instance && p[0] == 0x00 && p[1] == Signed8(tx);
  }

  /** A URL frame decodes to the expansion of its bytes and its power. */
  lemma UrlRoundTrip(tx: int, scheme: byte, encoded: seq<byte>)
    requires -128 <= tx < 128
    ensures DecodeEddystone(EncodeUrl(tx, scheme, encoded)) ==
      Some(EddystoneFrame(0x10, "", "", UrlText(scheme, encoded), Some(tx), None, None, None, None))
  {
    var p := EncodeUrl(tx, scheme, encoded);
    assert p[3..] == encoded && p[0] == 0x10 && p[1] == Signed8(tx) && p[2] == scheme;
  }

  lemma TlmFields(version: byte, battery: uint16, temperature: uint16, count: int, uptime: int, after: seq<byte>)
    requires 0 <= count < 0x1_0000_0000 && 0 <= uptime < 0x1_0000_0000
    ensures var p := EncodeTlm(version, battery, temperature, count, uptime) + after;
      && |p| >= 14 && p[0] == 0x20
      && BigEndian16(p, 2) == battery && BigEndian16(p, 4) == temperature
      && BigEndian32(p, 6) == count && BigEndian32(p, 10) == uptime
  {
    var p := EncodeTlm(version, battery, temperature, count, uptime) + after;
    var h2 := [0x20, version];
    var h4, h6 := h2 + Big16(battery), h2 + Big16(battery) + Big16(temperature);
    var h10 := h6 + Big32(count);
    assert p == h2 + Big16(battery) + (Big16(temperature) + Big32(count) + Big32(uptime) + after);
    Big16RoundTrip(battery, h2, Big16(temperature) + Big32(count) + Big32(uptime) + after);
    assert p == h4 + Big16(temperature) + (Big32(count) + Big32(uptime) + after);
    Big16RoundTrip(temperature, h4, Big32(count) + Big32(uptime) + after);
    assert p == h6 + Big32(count) + (Big32(uptime) + after);
    Big32RoundTrip(count, h6, Big32(uptime) + after);
    assert p == h10 + Big32(uptime) + after;
    Big32RoundTrip(uptime, h10, after);
  }

  /** A temperature in 256ths of a degree is read with its sign; the least one stands for none. */
  lemma TemperatureRoundTrip(t: int)
    requires -32768 <= t < 32768
    ensures Temperature(Signed16(t)) == if t == -32768 then None else Some(t as real / 256.0)
  {
  }

  /** A telemetry frame decodes to its battery, its signed temperature and its two counts. */
  lemma TlmRoundTrip(version: byte, battery: uint16, t: int, count: int, uptime: int, after: seq<byte>)
    requires -32768 <= t < 32768 && 0 <= count < 0x1_0000_0000 && 0 <= uptime < 0x1_0000_0000
    ensures DecodeEddystone(EncodeTlm(version, battery, Signed16(t), count, uptime) + after) ==
      Some(EddystoneFrame(
        0x20, "", "", "", None, Some(battery), if t == -32768 then None else Some(t as real / 256.0), Some(count),
        Some(uptime)))
  {
    TlmFields(version, battery, Signed16(t), count, uptime, after);
    TemperatureRoundTrip(t);
  }

  /** The shortest payload of each frame type that decodes; a type that is not known decodes to itself alone. */
  lemma DecodesExactlyFrom(p: seq<byte>)
    requires p != []
    ensures DecodeEddystone(p).Some? <==>
      |p| >= (if p[0] == 0x00 then 18 else if p[0] == 0x10 then 3 else if p[0] == 0x20 then 14 else 1)
    ensures p[0] !in {0x00, 0x10, 0x20} ==>
      DecodeEddystone(p) == Some(EddystoneFrame(p[0], "", "", "", None, None, None, None, None))
    ensures DecodeEddystone([]).None?
  {
  }

  /** A manufacturer value decodes as an iBeacon exactly from 25 bytes on. */
  lemma IBeaconDecodesExactlyFrom(v: seq<byte>)
    ensures DecodeIBeaconPayload(v).Some? <==> |v| >= 25
  {
  }

  // ----------------------------------------------------------- known bytes

  /** The codes of a URL, in the order of the Eddystone-URL specification. */
  lemma UrlCodes(code: byte, c: byte)
    ensures UrlScheme(0) == "http://www." && UrlScheme(1) == "https://www."
    ensures UrlScheme(2) == "http://" && UrlScheme(3) == "https://" && (code > 3 ==> UrlScheme(code) == "")
    ensures code < 7 ==> UrlPart(code) == UrlPart(code + 7) + "/"
    ensures UrlPart(7) == ".com" && UrlPart(8) == ".org" && UrlPart(9) == ".edu" && UrlPart(10) == ".net"
    ensures UrlPart(11) == ".info" && UrlPart(12) == ".biz" && UrlPart(13) == ".gov"
    ensures 14 <= c < 0x20 || c >= 0x7f ==> UrlPart(c) == ""
  {
  }

  /** The 16-bit service ids are little-endian pairs, and the 128-bit ones are read backwards; a rest is ignored. */
  lemma ServiceIds(lo: byte, hi: byte, id: seq<byte>, odd: byte)
    requires |id| == 16
    ensures Uuids16([lo, hi], 1) == [hi * 256 + lo]
    ensures Uuids16([lo, hi, odd], 1) == [hi * 256 + lo]
    ensures |Uuids128(id, 1)| == 1 && HexDecode(Uuids128(id, 1)[0]).Some?
    ensures var read := HexDecode(Uuids128(id, 1)[0]).value;
      |read| == 16 && forall i | 0 <= i < 16 :: read[i] == id[15 - i]
  {
    assert id[0..16] == id;
    HexRoundTrip(Reversed(id));
  }

  /** One advertisement with every record type that the parser reads, byte by byte. */
  function KnownRecords(): seq<Structure> {
    [Structure(0x01, [0x06]), Structure(0x0A, [0xC5]), Structure(0x09, [0x54, 0x61, 0x67]),
     Structure(0x03, [0xAA, 0xFE]), Structure(0xFF, [0x4C, 0x00, 0x10]), Structure(0x16, [0xAA, 0xFE, 0x30, 0x07])]
  }

  lemma KnownFirstHalf(raw: seq<byte>)
    ensures var r := KnownRecords();
      Collected(raw, r[..3]) == EmptyAdvert(raw).(
        structures := r[..3], flags := Some(0x06), txPower := Some(-59), localName := "Tag")
  {
    var r := KnownRecords();
    assert r[..1][..0] == [] && r[..2][..1] == r[..1] && r[..3][..2] == r[..2];
    assert BytesToString([0x54, 0x61, 0x67]) == "Tag";
    assert Collected(raw, r[..1]) == EmptyAdvert(raw).(structures := r[..1], flags := Some(0x06));
    assert Collected(raw, r[..2]) == EmptyAdvert(raw).(structures := r[..2], flags := Some(0x06), txPower := Some(-59));
  }

  lemma KnownSecondHalf(raw: seq<byte>)
    ensures var r := KnownRecords();
      Collected(raw, r[..5]) == EmptyAdvert(raw).(
        structures := r[..5], flags := Some(0x06), txPower := Some(-59), localName := "Tag", services16 := [0xFEAA],
        mfg := [MfgRecord(0x004C, [0x10])])
  {
    var r := KnownRecords();
    KnownFirstHalf(raw);
    assert r[..4][..3] == r[..3] && r[..5][..4] == r[..4];
    var a3 := Collected(raw, r[..3]);
    ServiceIds(0xAA, 0xFE, seq(16, _ => 0), 0);
    assert Collected(raw, r[..4]) == a3.(structures := r[..4], services16 := [0xFEAA]);
    assert [0x4C, 0x00, 0x10][2..] == [0x10];
  }

  /** It decodes to flags 6, -59 dBm, the name "Tag", service 0xFEAA, company 0x004C, and an Eddystone-EID frame. */
  lemma KnownAdvert(raw: seq<byte>)
    ensures var a := Collected(raw, KnownRecords());
      && a.flags == Some(0x06) && a.txPower == Some(-59) && a.localName == "Tag" && a.services16 == [0xFEAA]
      && a.mfg == [MfgRecord(0x004C, [0x10])] && a.serviceData == [SvcDataRecord(0xFEAA, [0x30, 0x07])]
      && a.iBeacon.None? && a.eddystone.Some? && a.eddystone.value.frameType == 0x30
  {
    var r := KnownRecords();
    KnownSecondHalf(raw);
    assert r == r[..5] + [r[5]];
    assert r[..|r| - 1] == r[..5];
    assert [0xAA, 0xFE, 0x30, 0x07][2..] == [0x30, 0x07];
  }

  /** The remaining record types: shortened name and the incomplete list of 16-bit ids. */
  lemma KnownShortTypes(raw: seq<byte>)
    ensures Collected(raw, [Structure(0x08, [0x54])]).localName == "T"
    ensures Collected(raw, [Structure(0x02, [0xAA, 0xFE])]).services16 == [0xFEAA]
  {
    ServiceIds(0xAA, 0xFE, seq(16, _ => 0), 0);
    assert BytesToString([0x54]) == "T";
    SingleRecord(raw, Structure(0x08, [0x54]));
    SingleRecord(raw, Structure(0x02, [0xAA, 0xFE]));
  }

  /** And both lists of 128-bit ids. */
  lemma KnownLongTypes(raw: seq<byte>, id: seq<byte>, t: byte)
    requires |id| == 16 && (t == 0x06 || t == 0x07)
    ensures Collected(raw, [Structure(t, id)]).services128 == [HexEncode(Reversed(id))]
  {
    assert id[0..16] == id;
    SingleRecord(raw, Structure(t, id));
  }

  lemma SingleRecord(raw: seq<byte>, s: Structure)
    ensures Collected(raw, [s]) == Decoded(EmptyAdvert(raw).(structures := [s]), s.typ, s.value)
  {
    assert [s][..0] == [];
    assert EmptyAdvert(raw).structures + [s] == [s];
  }
}
