/** The BLE advertisement list format: length-type-value records, and its hexadecimal transport. */
module AdFormat {
  import opened Wrappers
  import opened Text
  import opened Identity

  // ------------------------------------------------------------------ hex

  function HexChar(n: int): char
    requires 0 <= n < 16
  {
    if n < 10 then (48 + n) as char else (87 + n) as char
  }

  /** hex.EncodeToString. */
  function HexEncode(b: seq<byte>): (r: string)
    ensures |r| == 2 * |b|
  {
    if b == [] then "" else [HexChar(b[0] / 16), HexChar(b[0] % 16)] + HexEncode(b[1..])
  }

  function HexValue(c: char): Option<int> {
    if '0' <= c <= '9' then Some(c as int - 48)
    else if 'a' <= c <= 'f' then Some(c as int - 87)
    else if 'A' <= c <= 'F' then Some(c as int - 55)
    else None
  }

  /** hex.DecodeString: both cases accepted, an odd or foreign character refused. */
  function HexDecode(s: string): Option<seq<byte>> {
    if s == "" then Some([])
    else if |s| == 1 then None
    else
      var hi, lo, rest := HexValue(s[0]), HexValue(s[1]), HexDecode(s[2..]);
      if hi.None? || lo.None? || rest.None? then None
      else Some([(hi.value * 16 + lo.value) as byte] + rest.value)
  }

  lemma {:induction false} HexRoundTrip(b: seq<byte>)
    ensures HexDecode(HexEncode(b)) == Some(b) && IsHex(HexEncode(b))
  {
    if b != [] {
      HexRoundTrip(b[1..]);
      var s, hi, lo := HexEncode(b), b[0] / 16, b[0] % 16;
      assert s[2..] == HexEncode(b[1..]);
      assert HexValue(s[0]) == Some(hi) && HexValue(s[1]) == Some(lo);
      assert b == [b[0]] + b[1..];
    }
  }

  /** It accepts exactly an even number of hex digits of either case, and encoding what it yields lowers the case. */
  lemma {:induction false} HexDecodesExactlyWhen(s: string)
    ensures HexDecode(s).Some? <==> |s| % 2 == 0 && IsHex(Lower(s))
    ensures HexDecode(s).Some? ==> HexEncode(HexDecode(s).value) == Lower(s)
  {
    if |s| >= 2 {
      var hi, lo, rest := s[0], s[1], s[2..];
      HexDecodesExactlyWhen(rest);
      assert s == [hi, lo] + rest;
      DigitReads(hi);
      DigitReads(lo);
      PairDecodes(hi, lo, rest);
      LowerPair(hi, lo, rest);
      if HexDecode(s).Some? {
        HexPair(hi, lo, rest);
      }
    }
  }

  lemma PairDecodes(hi: char, lo: char, rest: string)
    ensures HexDecode([hi, lo] + rest) ==
      if HexValue(hi).None? || HexValue(lo).None? || HexDecode(rest).None? then None
      else Some([(HexValue(hi).value * 16 + HexValue(lo).value) as byte] + HexDecode(rest).value)
  {
    assert ([hi, lo] + rest)[2..] == rest;
  }

  lemma HexPair(hi: char, lo: char, rest: string)
    requires HexDecode([hi, lo] + rest).Some?
    ensures HexDecode(rest).Some?
    ensures HexEncode(HexDecode([hi, lo] + rest).value)
      == [LowerChar(hi), LowerChar(lo)] + HexEncode(HexDecode(rest).value)
  {
    PairDecodes(hi, lo, rest);
    PairEncodes(hi, lo, HexDecode(rest).value);
  }

  lemma PairEncodes(hi: char, lo: char, rest: seq<byte>)
    requires HexValue(hi).Some? && HexValue(lo).Some?
    ensures HexEncode([(HexValue(hi).value * 16 + HexValue(lo).value) as byte] + rest)
      == [LowerChar(hi), LowerChar(lo)] + HexEncode(rest)
  {
    DigitReads(hi);
    DigitReads(lo);
    var x := (HexValue(hi).value * 16 + HexValue(lo).value) as byte;
    assert ([x] + rest)[1..] == rest && x / 16 == HexValue(hi).value && x % 16 == HexValue(lo).value;
  }

  lemma LowerPair(hi: char, lo: char, rest: string)
    ensures Lower([hi, lo] + rest) == [LowerChar(hi), LowerChar(lo)] + Lower(rest)
    ensures IsHex(Lower([hi, lo] + rest))
      <==> IsHexDigit(LowerChar(hi)) && IsHexDigit(LowerChar(lo)) && IsHex(Lower(rest))
  {
    var l, r := Lower([hi, lo] + rest), Lower(rest);
    assert l == [LowerChar(hi), LowerChar(lo)] + r;
    assert l[0] == LowerChar(hi) && l[1] == LowerChar(lo);
    assert forall i | 0 <= i < |r| :: r[i] == l[i + 2];
    assert forall i | 2 <= i < |l| :: l[i] == r[i - 2];
  }

  lemma DigitReads(c: char)
    ensures HexValue(c).Some? <==> IsHexDigit(LowerChar(c))
    ensures HexValue(c).Some? ==> 0 <= HexValue(c).value < 16 && HexChar(HexValue(c).value) == LowerChar(c)
  {
  }

  /** The first digit of a byte is its high half. */
  lemma KnownHex()
    ensures HexEncode([0x4C, 0x09]) == "4c09" && HexDecode("4C09") == Some([0x4C, 0x09])
  {
    assert [0x4C as byte, 0x09][1..] == [0x09];
    HexDecodesExactlyWhen("4C09");
    HexRoundTrip([0x4C, 0x09]);
  }

  lemma {:induction false} HexEncodeConcat(a: seq<byte>, b: seq<byte>)
    ensures HexEncode(a + b) == HexEncode(a) + HexEncode(b)
  {
    if a == [] {
      assert a + b == b;
    } else {
      var x, rest := a[0], a[1..];
      assert a == [x] + rest && a + b == [x] + (rest + b);
      HexEncodeCons(x, rest);
      HexEncodeCons(x, rest + b);
      HexEncodeConcat(rest, b);
    }
  }

  lemma HexEncodeCons(x: byte, rest: seq<byte>)
    ensures HexEncode([x] + rest) == HexEncode([x]) + HexEncode(rest)
  {
    assert ([x] + rest)[1..] == rest;
    assert HexEncode([x]) == [HexChar(x / 16), HexChar(x % 16)] by {
      assert [x][1..] == [];
    }
  }

  // -------------------------------------------------------------- records

  /** One record: its type byte and the bytes after it. */
  datatype Structure = Structure(typ: byte, value: seq<byte>)

  /** The length byte counts the type, so a value holds at most 254 bytes. */
  predicate Fits(records: seq<Structure>) {
    forall i | 0 <= i < |records| :: |records[i].value| <= 254
  }

  function EncodeOne(s: Structure): (r: seq<byte>)
    requires |s.value| <= 254
    ensures |r| == |s.value| + 2
  {
    [(|s.value| + 1) as byte, s.typ] + s.value
  }

  function Encode(records: seq<Structure>): seq<byte>
    requires Fits(records)
  {
    if records == [] then [] else EncodeOne(records[0]) + Encode(records[1..])
  }

  /** Where a walk ends: the records read, and the bytes left where it stopped. */
  datatype Walked = Walked(records: seq<Structure>, rest: seq<byte>) {
    /** The walk stopped at a record that runs past the end, rather than at the end or a zero length. */
    predicate Overran() { rest != [] && rest[0] != 0 }
  }

  predicate RecordAt(buf: seq<byte>) {
    buf != [] && buf[0] != 0 && 1 + buf[0] <= |buf|
  }

  /** The first record of buf, and how far it reaches. */
  function FirstRecord(buf: seq<byte>): Structure
    requires RecordAt(buf)
  {
    Structure(buf[1], buf[2..1 + buf[0]])
  }

  function Walk(buf: seq<byte>): Walked {
    if !RecordAt(buf) then Walked([], buf)
    else
      var w := Walk(buf[1 + buf[0]..]);
      Walked([FirstRecord(buf)] + w.records, w.rest)
  }

  lemma {:induction false} WalkFits(buf: seq<byte>)
    ensures Fits(Walk(buf).records) && !RecordAt(Walk(buf).rest)
  {
    if RecordAt(buf) {
      WalkFits(buf[|FirstRecord(buf).value| + 2..]);
    }
  }

  lemma EncodeCons(first: Structure, more: seq<Structure>, rest: seq<byte>)
    requires |first.value| <= 254 && Fits([first] + more) && Fits(more)
    ensures Encode([first] + more) + rest == EncodeOne(first) + (Encode(more) + rest)
  {
    assert ([first] + more)[1..] == more;
  }

  /** Every walk, finished or overrun, splits the buffer into an encoded list and the remainder. */
  lemma {:induction false} WalkSplitsBuffer(buf: seq<byte>)
    ensures Fits(Walk(buf).records) && !RecordAt(Walk(buf).rest)
    ensures buf == Encode(Walk(buf).records) + Walk(buf).rest
  {
    WalkFits(buf);
    if !RecordAt(buf) {
      assert Encode([]) + buf == buf;
    } else {
      var first := FirstRecord(buf);
      var rest := buf[|first.value| + 2..];
      var w := Walk(rest);
      WalkFits(rest);
      WalkSplitsBuffer(rest);
      FirstRecordIsPrefix(buf);
      EncodeCons(first, w.records, w.rest);
    }
  }

  lemma FirstRecordIsPrefix(buf: seq<byte>)
    requires RecordAt(buf)
    ensures var first := FirstRecord(buf);
      |first.value| <= 254 && buf == EncodeOne(first) + buf[|first.value| + 2..]
  {
    var first := FirstRecord(buf);
    assert buf[..|first.value| + 2] == EncodeOne(first);
  }

  lemma WalkReadsOne(s: Structure, more: seq<byte>)
    requires |s.value| <= 254
    ensures var w := Walk(EncodeOne(s) + more);
      w == Walked([s] + Walk(more).records, Walk(more).rest)
  {
    var buf := EncodeOne(s) + more;
    assert buf[0] == |s.value| + 1 && buf[1] == s.typ;
    assert buf[2..1 + buf[0]] == s.value;
    assert buf[1 + buf[0]..] == more;
  }

  /** Walking an encoded list followed by anything reads that list first. */
  lemma {:induction false} WalkReadsEncoding(records: seq<Structure>, tail: seq<byte>)
    requires Fits(records)
    ensures Walk(Encode(records) + tail) == Walked(records + Walk(tail).records, Walk(tail).rest)
  {
    var w := Walk(tail);
    if records == [] {
      assert Encode(records) + tail == tail;
      assert records + w.records == w.records;
    } else {
      var first, more := records[0], records[1..];
      var next := Encode(more) + tail;
      calc {
        Walk(Encode(records) + tail);
      ==  { assert records == [first] + more; EncodeCons(first, more, tail); }
        Walk(EncodeOne(first) + next);
      ==  { WalkReadsOne(first, next); }
        Walked([first] + Walk(next).records, Walk(next).rest);
      ==  { WalkReadsEncoding(more, tail); }
        Walked([first] + (more + w.records), w.rest);
      ==  { assert [first] + (more + w.records) == records + w.records; }
        Walked(records + w.records, w.rest);
      }
    }
  }

  /**
   * Round trip, both ways: a walk succeeds with these records and this remainder exactly when the buffer is
   * their encoding followed by that remainder, which is empty or starts with the zero terminator.
   */
  lemma WalkInvertsEncode(buf: seq<byte>, records: seq<Structure>, rest: seq<byte>)
    ensures !Walk(buf).Overran() && Walk(buf) == Walked(records, rest)
      <==> Fits(records) && buf == Encode(records) + rest && (rest == [] || rest[0] == 0)
  {
    WalkSplitsBuffer(buf);
    if Fits(records) && buf == Encode(records) + rest && (rest == [] || rest[0] == 0) {
      WalkReadsEncoding(records, rest);
      assert records + [] == records;
    }
  }

  /** A length byte counts the type with the value; a zero, or a record that runs past the end, ends it. */
  lemma KnownWalk()
    ensures Walk([0x02, 0x01, 0x06, 0x00, 0x07]) == Walked([Structure(0x01, [0x06])], [0x00, 0x07])
    ensures Walk([0x03, 0x01, 0x06]) == Walked([], [0x03, 0x01, 0x06])
    ensures Walk([0x01, 0xFF]) == Walked([Structure(0xFF, [])], [])
  {
    var buf: seq<byte> := [0x02, 0x01, 0x06, 0x00, 0x07];
    assert buf[3..] == [0x00, 0x07] && FirstRecord(buf) == Structure(0x01, [0x06]);
    var last: seq<byte> := [0x01, 0xFF];
    assert last[2..] == [] && FirstRecord(last) == Structure(0xFF, []);
  }
}
