/** The three advertisement walkers and the identity they feed. */
module Advert {
  import opened Wrappers
  import opened Text
  import opened Identity
  import opened AdFormat

  const AD_FLAGS := 0x01
  const AD_SVC16_INC := 0x02
  const AD_SVC16_COMP := 0x03
  const AD_SVC128_INC := 0x06
  const AD_SVC128_COMP := 0x07
  const AD_NAME_SHORT := 0x08
  const AD_NAME_COMPLETE := 0x09
  const AD_TX_POWER := 0x0A
  const AD_SERVICE_DATA := 0x16
  const MANUF_DATA := 0xFF
  const EDDYSTONE_UUID16 := 0xFEAA

  function Int8(b: byte): int { if b < 128 then b else b - 256 }

  /** Two bytes as a 16-bit number; the callers put them in wire order. */
  function Join16(hi: byte, lo: byte): uint16 { hi * 256 + lo }

  function BigEndian16(v: seq<byte>, i: nat): uint16
    requires i + 2 <= |v|
  {
    Join16(v[i], v[i + 1])
  }

  function BigEndian32(v: seq<byte>, i: nat): int
    requires i + 4 <= |v|
  {
    BigEndian16(v, i) * 65536 + BigEndian16(v, i + 2)
  }

  /** string(v): one character per byte. */
  function BytesToString(v: seq<byte>): string {
    seq(|v|, i requires 0 <= i < |v| => v[i] as char)
  }

  // -------------------------------------------------------------- iBeacon

  datatype IBeacon = IBeacon(uuid: string, major: uint16, minor: uint16, txPower: int)

  predicate LooksLikeIBeacon(v: seq<byte>) {
    |v| >= 4 && v[0] == 0x4C && v[1] == 0x00 && v[2] == 0x02 && v[3] == 0x15
  }

  /** The canonical 8-4-4-4-12 text of sixteen bytes. */
  function UuidText(b: seq<byte>): string
    requires |b| == 16
  {
    HexEncode(b[..4]) + "-" + HexEncode(b[4..6]) + "-" + HexEncode(b[6..8]) + "-" + HexEncode(b[8..10]) + "-"
      + HexEncode(b[10..])
  }

  function DecodeIBeaconPayload(v: seq<byte>): Option<IBeacon> {
    if |v| < 25 then None
    else Some(IBeacon(UuidText(v[4..20]), BigEndian16(v, 20), BigEndian16(v, 22), Int8(v[24])))
  }

  /** A record that bears the iBeacon signature, whatever its length. */
  predicate Signed(s: Structure) { s.typ == MANUF_DATA && LooksLikeIBeacon(s.value) }

  /** The frame of a complete iBeacon record. */
  function FrameOf(s: Structure): Option<IBeacon> {
    if Signed(s) then DecodeIBeaconPayload(s.value) else None
  }

  /** The last complete iBeacon of a list of records. */
  function LastIBeacon(records: seq<Structure>): Option<IBeacon> {
    if records == [] then None
    else
      var frame := FrameOf(records[|records| - 1]);
      if frame.Some? then frame else LastIBeacon(records[..|records| - 1])
  }

  /** formatUUID: groups of hex digits and dashes written into a 36-character array. */
  method FormatUUID(b: seq<byte>) returns (text: string)
    ensures text == if |b| == 16 then UuidText(b) else ""
  {
    if |b| != 16 {
      return "";
    }
    var out := new char[36];
    var pos := EmitGroup(out, 0, b[..4]);
    assert out[..pos] == HexEncode(b[..4]);
    pos := EmitDashed(out, pos, b[4..6]);
    pos := EmitDashed(out, pos, b[6..8]);
    pos := EmitDashed(out, pos, b[8..10]);
    pos := EmitDashed(out, pos, b[10..]);
    assert out[..pos] == out[..];
    text := out[..];
  }

  /** A dash and a group. */
  method EmitDashed(out: array<char>, pos: nat, group: seq<byte>) returns (next: nat)
    requires pos + 1 + 2 * |group| <= out.Length
    modifies out
    ensures next == pos + 1 + 2 * |group| && out[..next] == old(out[..pos]) + "-" + HexEncode(group)
  {
    out[pos] := '-';
    assert out[..pos + 1] == old(out[..pos]) + "-";
    next := EmitGroup(out, pos + 1, group);
  }

  method EmitGroup(out: array<char>, pos: nat, group: seq<byte>) returns (next: nat)
    requires pos + 2 * |group| <= out.Length
    modifies out
    ensures next == pos + 2 * |group|
    ensures out[..next] == old(out[..pos]) + HexEncode(group) && out[next..] == old(out[next..])
  {
    next := pos;
    var k := 0;
    assert old(out[..pos]) + HexEncode(group[..k]) == old(out[..pos]);
    while k < |group|
      invariant 0 <= k <= |group| && next == pos + 2 * k
      invariant out[..next] == old(out[..pos]) + HexEncode(group[..k]) && out[next..] == old(out[next..])
    {
      ghost var before, rest := out[..next], out[next..];
      var hi, lo := HexChar(group[k] / 16), HexChar(group[k] % 16);
      out[next] := hi;
      out[next + 1] := lo;
      assert out[..next + 2] == before + [hi, lo] && out[next + 2..] == rest[2..];
      HexEncodeSnoc(group, k);
      next := next + 2;
      k := k + 1;
    }
    assert group[..k] == group;
  }

  lemma HexEncodeSnoc(group: seq<byte>, k: nat)
    requires k < |group|
    ensures HexEncode(group[..k + 1]) == HexEncode(group[..k]) + [HexChar(group[k] / 16), HexChar(group[k] % 16)]
  {
    assert group[..k + 1] == group[..k] + [group[k]];
    HexEncodeConcat(group[..k], [group[k]]);
    assert [group[k]][1..] == [];
  }

  // ------------------------------------------------------------ Eddystone

  datatype EddystoneFrame = EddystoneFrame(
    frameType: byte, namespace: string, instance: string, url: string, txPower: Option<int>,
    batteryMV: Option<int>, temperatureC: Option<real>, advCount: Option<int>, secCount: Option<int>)

  function UrlScheme(scheme: byte): string {
    if scheme == 0 then "http://www." else if scheme == 1 then "https://www."
    else if scheme == 2 then "http://" else if scheme == 3 then "https://" else ""
  }

  function UrlPart(c: byte): string {
    if c < 14 then
      [".com/", ".org/", ".edu/", ".net/", ".info/", ".biz/", ".gov/",
       ".com", ".org", ".edu", ".net", ".info", ".biz", ".gov"][c]
    else if 0x20 <= c < 0x7f then [c as char] else ""
  }

  function UrlText(scheme: byte, encoded: seq<byte>): string { UrlScheme(scheme) + Concat(UrlPart, encoded) }

  method DecodeEddystoneURL(scheme: byte, encoded: seq<byte>) returns (url: string)
    ensures url == UrlText(scheme, encoded)
  {
    url := UrlScheme(scheme);
    for i := 0 to |encoded|
      invariant url == UrlScheme(scheme) + Concat(UrlPart, encoded[..i])
    {
      assert encoded[..i + 1] == encoded[..i] + [encoded[i]];
      ConcatSnoc(UrlPart, encoded[..i], encoded[i]);
      url := url + UrlPart(encoded[i]);
    }
    assert encoded[..|encoded|] == encoded;
  }

  function BlankFrame(t: byte): EddystoneFrame { EddystoneFrame(t, "", "", "", None, None, None, None, None) }

  /** 8.8 fixed point, with 0x8000 meaning "no temperature". */
  function Temperature(raw: uint16): Option<real> {
    if raw == 0x8000 then None
    else Some((if raw < 0x8000 then raw as real else (raw - 65536) as real) / 256.0)
  }

  function DecodeEddystone(p: seq<byte>): Option<EddystoneFrame> {
    if |p| < 1 then None
    else if p[0] == 0x00 then
      if |p| < 18 then None
      else Some(BlankFrame(p[0]).(txPower := Some(Int8(p[1])), namespace := HexEncode(p[2..12]),
        instance := HexEncode(p[12..18])))
    else if p[0] == 0x10 then
      if |p| < 3 then None
      else Some(BlankFrame(p[0]).(txPower := Some(Int8(p[1])), url := UrlText(p[2], p[3..])))
    else if p[0] == 0x20 then
      if |p| < 14 then None
      else Some(BlankFrame(p[0]).(batteryMV := Some(BigEndian16(p, 2)), temperatureC := Temperature(BigEndian16(p, 4)),
                                  advCount := Some(BigEndian32(p, 6)), secCount := Some(BigEndian32(p, 10))))
    else Some(BlankFrame(p[0]))
  }

  // ------------------------------------------------------- decoded advert

  datatype MfgRecord = MfgRecord(companyID: uint16, payload: seq<byte>)
  datatype SvcDataRecord = SvcDataRecord(uuid16: uint16, payload: seq<byte>)

  datatype Advert = Advert(
    raw: seq<byte>, structures: seq<Structure>, flags: Option<byte>, localName: string, txPower: Option<int>,
    services16: seq<uint16>, services128: seq<string>, mfg: seq<MfgRecord>, serviceData: seq<SvcDataRecord>,
    iBeacon: Option<IBeacon>, eddystone: Option<EddystoneFrame>)

  function EmptyAdvert(raw: seq<byte>): Advert {
    Advert(raw, [], None, "", None, [], [], [], [], None, None)
  }

  function Reversed(b: seq<byte>): seq<byte> {
    seq(|b|, i requires 0 <= i < |b| => b[|b| - 1 - i])
  }

  /** The 16-bit service ids in the first n pairs of v. */
  function Uuids16(v: seq<byte>, n: nat): seq<uint16>
    requires 2 * n <= |v|
  {
    seq(n, i requires 0 <= i < n => Join16(v[2 * i + 1], v[2 * i]))
  }

  function Uuids128(v: seq<byte>, n: nat): seq<string>
    requires 16 * n <= |v|
  {
    seq(n, i requires 0 <= i < n => HexEncode(Reversed(v[16 * i..16 * i + 16])))
  }

  /** What one record adds to the advert. */
  function Decoded(a: Advert, t: byte, v: seq<byte>): Advert {
    if t == AD_FLAGS then (if |v| >= 1 then a.(flags := Some(v[0])) else a)
    else if t == AD_NAME_COMPLETE then a.(localName := BytesToString(v))
    else if t == AD_NAME_SHORT then (if a.localName == "" then a.(localName := BytesToString(v)) else a)
    else if t == AD_TX_POWER then (if |v| >= 1 then a.(txPower := Some(Int8(v[0]))) else a)
    else if t == AD_SVC16_INC || t == AD_SVC16_COMP then a.(services16 := a.services16 + Uuids16(v, |v| / 2))
    else if t == AD_SVC128_INC || t == AD_SVC128_COMP then a.(services128 := a.services128 + Uuids128(v, |v| / 16))
    else if t == MANUF_DATA then
      if |v| < 2 then a
      else
        var a' := a.(mfg := a.mfg + [MfgRecord(Join16(v[1], v[0]), v[2..])]);
        if LooksLikeIBeacon(v) && DecodeIBeaconPayload(v).Some? then a'.(iBeacon := DecodeIBeaconPayload(v)) else a'
    else if t == AD_SERVICE_DATA then
      if |v| < 2 then a
      else
        var uuid := Join16(v[1], v[0]);
        var a' := a.(serviceData := a.serviceData + [SvcDataRecord(uuid, v[2..])]);
        if uuid == EDDYSTONE_UUID16 && DecodeEddystone(v[2..]).Some? then a'.(eddystone := DecodeEddystone(v[2..]))
          else a'
    else a
  }

  /** The advert that a list of records decodes to. */
  function Collected(raw: seq<byte>, records: seq<Structure>): Advert {
    if records == [] then EmptyAdvert(raw)
    else
      var a, s := Collected(raw, records[..|records| - 1]), records[|records| - 1];
      Decoded(a.(structures := a.structures + [s]), s.typ, s.value)
  }

  /** The loop over 16-bit service ids, least significant byte first; a trailing odd byte is ignored. */
  method AppendServices16(ids0: seq<uint16>, v: seq<byte>) returns (ids: seq<uint16>)
    ensures ids == ids0 + Uuids16(v, |v| / 2)
  {
    ids := ids0;
    ghost var n := 0;
    var j := 0;
    while j + 2 <= |v|
      invariant j == 2 * n <= |v| && ids == ids0 + Uuids16(v, n)
    {
      ids := ids + [Join16(v[j + 1], v[j])];
      j, n := j + 2, n + 1;
    }
  }

  /** The loop over 128-bit service ids, each reversed into reading order; a trailing part is ignored. */
  method AppendServices128(ids0: seq<string>, v: seq<byte>) returns (ids: seq<string>)
    ensures ids == ids0 + Uuids128(v, |v| / 16)
  {
    ids := ids0;
    ghost var n := 0;
    var j := 0;
    while j + 16 <= |v|
      invariant j == 16 * n <= |v| && ids == ids0 + Uuids128(v, n)
    {
      ids := ids + [HexEncode(Reversed(v[j..j + 16]))];
      j, n := j + 16, n + 1;
    }
  }

  /** decodeStructure: one case per record type. */
  method DecodeStructure(a: Advert, t: byte, v: seq<byte>) returns (r: Advert)
    ensures r == Decoded(a, t, v)
  {
    r := a;
    if t == AD_FLAGS {
      if |v| >= 1 {
        r := r.(flags := Some(v[0]));
      }
    } else if t == AD_NAME_COMPLETE {
      r := r.(localName := BytesToString(v));
    } else if t == AD_NAME_SHORT {
      if r.localName == "" {
        r := r.(localName := BytesToString(v));
      }
    } else if t == AD_TX_POWER {
      if |v| >= 1 {
        r := r.(txPower := Some(Int8(v[0])));
      }
    } else if t == AD_SVC16_INC || t == AD_SVC16_COMP {
      var ids := AppendServices16(r.services16, v);
      r := r.(services16 := ids);
    } else if t == AD_SVC128_INC || t == AD_SVC128_COMP {
      var ids := AppendServices128(r.services128, v);
      r := r.(services128 := ids);
    } else if t == MANUF_DATA {
      if |v| >= 2 {
        r := r.(mfg := r.mfg + [MfgRecord(Join16(v[1], v[0]), v[2..])]);
        if LooksLikeIBeacon(v) && |v| >= 25 {
          r := r.(iBeacon := DecodeIBeaconPayload(v));
        }
      }
    } else if t == AD_SERVICE_DATA {
      if |v| >= 2 {
        var uuid := Join16(v[1], v[0]);
        r := r.(serviceData := r.serviceData + [SvcDataRecord(uuid, v[2..])]);
        if uuid == EDDYSTONE_UUID16 {
          var frame := DecodeEddystone(v[2..]);
          if frame.Some? {
            r := r.(eddystone := frame);
          }
        }
      }
    }
  }

  // -------------------------------------------------------------- walkers

  datatype ParseError = BadHex | Overrun(offset: nat, length: nat, total: nat) | ShortIBeacon(got: nat)

  function OverrunError(buf: seq<byte>): ParseError
    requires Walk(buf).Overran()
  {
    WalkSplitsBuffer(buf);
    Overrun(|buf| - |Walk(buf).rest|, Walk(buf).rest[0], |buf|)
  }

  /** How far a walker's loop has come: the bytes before i are exactly the records read so far. */
  ghost predicate Progress(buf: seq<byte>, i: nat, done: seq<Structure>) {
    i <= |buf| && Fits(done) && Encode(done) == buf[..i]
  }

  lemma {:induction false} EncodeSnoc(records: seq<Structure>, s: Structure)
    requires Fits(records) && |s.value| <= 254
    ensures Fits(records + [s]) && Encode(records + [s]) == Encode(records) + EncodeOne(s)
  {
    if records == [] {
      assert records + [s] == [s];
      assert Encode([s]) == EncodeOne(s) + Encode([]);
    } else {
      var first, more := records[0], records[1..];
      EncodeSnoc(more, s);
      assert (records + [s])[1..] == more + [s];
      assert EncodeOne(first) + (Encode(more) + EncodeOne(s)) == (EncodeOne(first) + Encode(more)) + EncodeOne(s);
    }
  }

  /** One turn of a walker's loop. */
  lemma ProgressStep(buf: seq<byte>, i: nat, done: seq<Structure>, n: int, s: Structure)
    requires Progress(buf, i, done) && i < |buf| && buf[i] != 0 && n == i + 1 + buf[i] as int <= |buf|
    requires s == Structure(buf[i + 1], buf[i + 2..n])
    ensures Progress(buf, n, done + [s]) && |s.value| <= 254
  {
    assert EncodeOne(s) == buf[i..n];
    EncodeSnoc(done, s);
    assert buf[..i] + buf[i..n] == buf[..n];
  }

  /** A loop that stops where no record starts has read what the walk reads. */
  lemma ProgressEnds(buf: seq<byte>, i: nat, done: seq<Structure>)
    requires Progress(buf, i, done) && !RecordAt(buf[i..])
    ensures Walk(buf) == Walked(done, buf[i..])
  {
    WalkReadsEncoding(done, buf[i..]);
    assert buf[..i] + buf[i..] == buf;
    assert done + [] == done;
  }

  /** The records read so far are the first ones of the walk. */
  lemma ProgressIsPrefix(buf: seq<byte>, i: nat, done: seq<Structure>)
    requires Progress(buf, i, done)
    ensures done <= Walk(buf).records
  {
    WalkReadsEncoding(done, buf[i..]);
    assert buf[..i] + buf[i..] == buf;
  }

  lemma CollectedSnoc(raw: seq<byte>, records: seq<Structure>, s: Structure)
    ensures var a := Collected(raw, records);
      Collected(raw, records + [s]) == Decoded(a.(structures := a.structures + [s]), s.typ, s.value)
  {
    assert (records + [s])[..|records|] == records;
  }

  /** Parse: the full walk. On an overrun the partial advert is returned with the error. */
  method Parse(hexStr: string) returns (a: Advert, err: Option<ParseError>)
    ensures HexDecode(hexStr).None? ==> a == EmptyAdvert([]) && err == Some(BadHex)
    ensures HexDecode(hexStr).Some? ==>
      var buf := HexDecode(hexStr).value;
      && a == Collected(buf, Walk(buf).records)
      && err == if Walk(buf).Overran() then Some(OverrunError(buf)) else None
  {
    if hexStr == "" {
      return EmptyAdvert([]), None;
    }
    var decoded := HexDecode(hexStr);
    if decoded.None? {
      return EmptyAdvert([]), Some(BadHex);
    }
    a, err := ParseBytes(decoded.value);
  }

  method ParseBytes(buf: seq<byte>) returns (a: Advert, err: Option<ParseError>)
    ensures a == Collected(buf, Walk(buf).records)
    ensures err == if Walk(buf).Overran() then Some(OverrunError(buf)) else None
  {
    a, err := EmptyAdvert(buf), None;
    ghost var done: seq<Structure> := [];
    var i := 0;
    while i < |buf|
      invariant Progress(buf, i, done)
      invariant a == Collected(buf, done)
    {
      var recLen: int := buf[i];
      if recLen == 0 {
        break;
      }
      if i + 1 + recLen > |buf| {
        ProgressEnds(buf, i, done);
        return a, Some(Overrun(i, recLen, |buf|));
      }
      var s := Structure(buf[i + 1], buf[i + 2..i + 1 + recLen]);
      ProgressStep(buf, i, done, i + 1 + recLen, s);
      CollectedSnoc(buf, done, s);
      a := DecodeStructure(a.(structures := a.structures + [s]), s.typ, s.value);
      done := done + [s];
      i := i + 1 + recLen;
    }
    ProgressEnds(buf, i, done);
  }

  /** The first record that bears the signature. */
  function FirstSigned(records: seq<Structure>): Option<Structure> {
    if records == [] then None
    else if Signed(records[0]) then Some(records[0])
    else FirstSigned(records[1..])
  }

  lemma {:induction false} FirstSignedConcat(a: seq<Structure>, b: seq<Structure>)
    requires FirstSigned(a).None?
    ensures FirstSigned(a + b) == FirstSigned(b)
  {
    if a == [] {
      assert a + b == b;
    } else {
      FirstSignedConcat(a[1..], b);
      assert (a + b)[1..] == a[1..] + b;
    }
  }

  datatype Filtered = Found(frame: IBeacon) | NotIBeacon | Failed(error: ParseError)

  /** What the early-exit filter must answer, from the records and the way the walk ends. */
  function FilterSpec(buf: seq<byte>): Filtered {
    match FirstSigned(Walk(buf).records)
    case Some(s) => (if FrameOf(s).Some? then Found(FrameOf(s).value) else Failed(ShortIBeacon(|s.value|)))
    case None => if Walk(buf).Overran() then Failed(OverrunError(buf)) else NotIBeacon
  }

  /** ParseAdvert: the legacy walk, which returns at the first signed record. */
  method ParseAdvert(hexStr: string) returns (r: Filtered)
    ensures r == match HexDecode(hexStr) case None => Failed(BadHex) case Some(buf) => FilterSpec(buf)
  {
    if hexStr == "" {
      return NotIBeacon;
    }
    var decoded := HexDecode(hexStr);
    if decoded.None? {
      return Failed(BadHex);
    }
    r := FilterBytes(decoded.value);
  }

  lemma FirstSignedAt(buf: seq<byte>, i: nat, done: seq<Structure>, s: Structure)
    requires Progress(buf, i, done + [s]) && FirstSigned(done).None? && Signed(s)
    ensures FirstSigned(Walk(buf).records) == Some(s)
  {
    ProgressIsPrefix(buf, i, done + [s]);
    var records := Walk(buf).records;
    var more := records[|done| + 1..];
    assert records == done + ([s] + more);
    FirstSignedConcat(done, [s] + more);
  }

  method FilterBytes(buf: seq<byte>) returns (r: Filtered)
    ensures r == FilterSpec(buf)
  {
    ghost var done: seq<Structure> := [];
    var i := 0;
    while i < |buf|
      invariant Progress(buf, i, done)
      invariant FirstSigned(done).None?
    {
      var recLen: int := buf[i];
      if recLen == 0 {
        break;
      }
      if i + 1 + recLen > |buf| {
        ProgressEnds(buf, i, done);
        return Failed(Overrun(i, recLen, |buf|));
      }
      var s := Structure(buf[i + 1], buf[i + 2..i + 1 + recLen]);
      ProgressStep(buf, i, done, i + 1 + recLen, s);
      if s.typ == MANUF_DATA && LooksLikeIBeacon(s.value) {
        FirstSignedAt(buf, i + 1 + recLen, done, s);
        var frame := DecodeIBeaconPayload(s.value);
        if frame.None? {
          return Failed(ShortIBeacon(|s.value|));
        }
        return Found(frame.value);
      }
      FirstSignedConcat(done, [s]);
      done := done + [s];
      i := i + 1 + recLen;
    }
    ProgressEnds(buf, i, done);
    r := NotIBeacon;
  }

  datatype TLVRecord = TLVRecord(offset: nat, length: nat, typ: byte, value: seq<byte>)
  datatype DebugWalk = DebugWalk(
    bytes: seq<byte>, records: seq<TLVRecord>, iBeacon: Option<IBeacon>, err: Option<ParseError>)

  /** The records with the offset each starts at. */
  function Located(records: seq<Structure>): seq<TLVRecord>
    requires Fits(records)
  {
    seq(|records|, i requires 0 <= i < |records| =>
      TLVRecord(|Encode(records[..i])|, |records[i].value|, records[i].typ, records[i].value))
  }

  /** The error of the last signed record that is too short. */
  function LastShort(records: seq<Structure>): Option<ParseError> {
    if records == [] then None
    else
      var s := records[|records| - 1];
      if Signed(s) && FrameOf(s).None? then Some(ShortIBeacon(|s.value|)) else LastShort(records[..|records| - 1])
  }

  lemma LocatedSnoc(records: seq<Structure>, s: Structure)
    requires Fits(records) && |s.value| <= 254 && Fits(records + [s])
    ensures Located(records + [s]) == Located(records) + [TLVRecord(|Encode(records)|, |s.value|, s.typ, s.value)]
  {
    var all := records + [s];
    forall i | 0 <= i < |records| ensures all[..i] == records[..i] {
    }
    assert all[..|records|] == records;
  }

  lemma LastSnoc(records: seq<Structure>, s: Structure)
    ensures LastIBeacon(records + [s]) == if FrameOf(s).Some? then FrameOf(s) else LastIBeacon(records)
    ensures LastShort(records + [s]) ==
      if Signed(s) && FrameOf(s).None? then Some(ShortIBeacon(|s.value|)) else LastShort(records)
  {
    assert (records + [s])[..|records|] == records;
  }

  /** What the debug walk has to report after some records. */
  function DebugSoFar(buf: seq<byte>, done: seq<Structure>): DebugWalk
    requires Fits(done)
  {
    DebugWalk(buf, Located(done), LastIBeacon(done), LastShort(done))
  }

  /** What one more record adds to the report: its place, and its frame or the trouble with it. */
  function DebugWith(d: DebugWalk, offset: nat, s: Structure): DebugWalk {
    var d' := d.(records := d.records + [TLVRecord(offset, |s.value|, s.typ, s.value)]);
    if !Signed(s) then d'
    else if FrameOf(s).Some? then d'.(iBeacon := FrameOf(s))
    else d'.(err := Some(ShortIBeacon(|s.value|)))
  }

  lemma DebugGrows(buf: seq<byte>, done: seq<Structure>, s: Structure)
    requires Fits(done) && |s.value| <= 254 && Fits(done + [s])
    ensures DebugSoFar(buf, done + [s]) == DebugWith(DebugSoFar(buf, done), |Encode(done)|, s)
  {
    LocatedSnoc(done, s);
    LastSnoc(done, s);
  }

  /** What the debug walk reports of a buffer. */
  function DebugSpec(buf: seq<byte>): DebugWalk {
    WalkSplitsBuffer(buf);
    var w := Walk(buf);
    var d := DebugSoFar(buf, w.records);
    if w.Overran() then d.(err := Some(OverrunError(buf))) else d
  }

  /** ParseAdvertDebug: every record with its offset, and any trouble as data. */
  method ParseAdvertDebug(hexStr: string) returns (r: Result<DebugWalk, ParseError>)
    ensures r == match HexDecode(hexStr) case None => Err(BadHex) case Some(buf) => Ok(DebugSpec(buf))
  {
    if hexStr == "" {
      assert Located([]) == [];
      return Ok(DebugWalk([], [], None, None));
    }
    var decoded := HexDecode(hexStr);
    if decoded.None? {
      return Err(BadHex);
    }
    var out := DebugBytes(decoded.value);
    r := Ok(out);
  }

  method DebugBytes(buf: seq<byte>) returns (out: DebugWalk)
    ensures out == DebugSpec(buf)
  {
    out := DebugWalk(buf, [], None, None);
    ghost var done: seq<Structure> := [];
    var i := 0;
    while i < |buf|
      invariant Progress(buf, i, done)
      invariant out == DebugSoFar(buf, done)
    {
      var recLen: int := buf[i];
      if recLen == 0 {
        break;
      }
      if i + 1 + recLen > |buf| {
        ProgressEnds(buf, i, done);
        return out.(err := Some(Overrun(i, recLen, |buf|)));
      }
      var s := Structure(buf[i + 1], buf[i + 2..i + 1 + recLen]);
      ProgressStep(buf, i, done, i + 1 + recLen, s);
      DebugGrows(buf, done, s);
      out := DebugRecord(out, i, s);
      done := done + [s];
      i := i + 1 + recLen;
    }
    ProgressEnds(buf, i, done);
  }

  /** The part of the loop that keeps a record. */
  method DebugRecord(d: DebugWalk, offset: nat, s: Structure) returns (out: DebugWalk)
    ensures out == DebugWith(d, offset, s)
  {
    out := d.(records := d.records + [TLVRecord(offset, |s.value|, s.typ, s.value)]);
    if s.typ == MANUF_DATA && LooksLikeIBeacon(s.value) {
      var frame := DecodeIBeaconPayload(s.value);
      if frame.Some? {
        out := out.(iBeacon := frame);
      } else {
        out := out.(err := Some(ShortIBeacon(|s.value|)));
      }
    }
  }
}
