/** Where a walk stands and what is wrong: the offsets of records, and the errors of all three walkers. */
module AdvertErrors {
  import opened Wrappers
  import opened Identity
  import opened AdFormat
  import opened Advert

  // ----------------------------------------------------------------- places

  /** The buffer holds, from the record's offset on, its length byte, its type and its value. */
  predicate StandsAt(buf: seq<byte>, r: TLVRecord) {
    && r.offset + 2 + r.length <= |buf| && buf[r.offset] as int == r.length + 1 && buf[r.offset + 1] == r.typ
    && buf[r.offset + 2..r.offset + 2 + r.length] == r.value
  }

  lemma {:induction false} EncodeSplits(records: seq<Structure>, i: nat)
    requires Fits(records) && i < |records|
    ensures Encode(records) == Encode(records[..i]) + EncodeOne(records[i]) + Encode(records[i + 1..])
  {
    var first, more := records[0], records[1..];
    if i == 0 {
      assert records[..0] == [] && Encode(records[..0]) == [];
    } else {
      EncodeSplits(more, i - 1);
      assert records[..i][1..] == more[..i - 1] && more[i..] == records[i + 1..];
      assert Encode(records[..i]) == EncodeOne(first) + Encode(more[..i - 1]);
      Regroup(EncodeOne(first), Encode(more[..i - 1]), EncodeOne(records[i]), Encode(records[i + 1..]));
    }
  }

  lemma Regroup<T>(a: seq<T>, b: seq<T>, c: seq<T>, d: seq<T>)
    ensures a + (b + c + d) == (a + b) + c + d
  {
  }

  lemma MiddleStands(before: seq<byte>, s: Structure, after: seq<byte>, rest: seq<byte>)
    requires |s.value| <= 254
    ensures StandsAt(before + EncodeOne(s) + after + rest, TLVRecord(|before|, |s.value|, s.typ, s.value))
  {
    var n, buf := |before|, before + EncodeOne(s) + after + rest;
    assert buf[n..n + 2 + |s.value|] == EncodeOne(s);
    assert buf[n + 2..n + 2 + |s.value|] == s.value;
  }

  /** Every record of the debug walk stands in the buffer where it says. */
  lemma RecordsStandWhereTheySay(buf: seq<byte>, i: nat)
    requires i < |DebugSpec(buf).records|
    ensures StandsAt(buf, DebugSpec(buf).records[i])
  {
    WalkSplitsBuffer(buf);
    var w := Walk(buf);
    EncodeSplits(w.records, i);
    MiddleStands(Encode(w.records[..i]), w.records[i], Encode(w.records[i + 1..]), w.rest);
  }

  /** They follow one another without gaps, from the start. */
  lemma RecordsAreContiguous(buf: seq<byte>, i: nat)
    requires i < |DebugSpec(buf).records|
    ensures var d := DebugSpec(buf).records;
      d[i].offset == if i == 0 then 0 else d[i - 1].offset + d[i - 1].length + 2
  {
    WalkFits(buf);
    if i > 0 {
      NextOffset(Walk(buf).records, i);
    }
  }

  lemma NextOffset(records: seq<Structure>, i: nat)
    requires Fits(records) && 0 < i <= |records|
    ensures |Encode(records[..i])| == |Encode(records[..i - 1])| + |records[i - 1].value| + 2
  {
    assert records[..i] == records[..i - 1] + [records[i - 1]];
    EncodeSnoc(records[..i - 1], records[i - 1]);
  }

  // ----------------------------------------------------------------- errors

  /** The error names an offset, the length byte there, and the size of the buffer, which the record would pass. */
  predicate NamesOverrun(buf: seq<byte>, e: ParseError) {
    && e.Overrun? && e.total == |buf| && e.offset < |buf| && buf[e.offset] as int == e.length
    && 0 < e.length && e.offset + 1 + e.length > |buf|
  }

  /** An overrun is reported at the record after the last whole one. */
  lemma OverrunSaysWhere(buf: seq<byte>)
    requires Walk(buf).Overran()
    ensures NamesOverrun(buf, OverrunError(buf)) && Fits(Walk(buf).records)
    ensures OverrunError(buf).offset == |Encode(Walk(buf).records)|
  {
    WalkSplitsBuffer(buf);
    var w := Walk(buf);
    assert buf[|buf| - |w.rest|..] == w.rest;
  }

  /** The record at i is the first one that bears the signature. */
  ghost predicate FirstSignedAt(records: seq<Structure>, i: nat) {
    i < |records| && Signed(records[i]) && forall j | 0 <= j < i :: !Signed(records[j])
  }

  lemma {:induction false} FirstSignedIsFirst(records: seq<Structure>, i: nat)
    requires FirstSignedAt(records, i)
    ensures FirstSigned(records) == Some(records[i])
  {
    if i > 0 {
      assert !Signed(records[0]);
      forall j | 0 <= j < i - 1
        ensures !Signed(records[1..][j])
      {
        assert records[1..][j] == records[j + 1];
      }
      FirstSignedIsFirst(records[1..], i - 1);
    }
  }

  /** The filter goes by the first signed record: its frame if it has 25 bytes, and otherwise an error with its size. */
  lemma FilterGoesByFirst(buf: seq<byte>, i: nat)
    requires FirstSignedAt(Walk(buf).records, i)
    ensures var v := Walk(buf).records[i].value;
      && (|v| < 25 ==> FilterSpec(buf) == Failed(ShortIBeacon(|v|)))
      && (|v| >= 25 ==> FilterSpec(buf).Found? && Some(FilterSpec(buf).frame) == DecodeIBeaconPayload(v))
  {
    FirstSignedIsFirst(Walk(buf).records, i);
  }

  lemma {:induction false} NoneSigned(records: seq<Structure>)
    requires forall i | 0 <= i < |records| :: !Signed(records[i])
    ensures FirstSigned(records).None? && LastShort(records).None?
  {
    if records != [] {
      NoneSigned(records[..|records| - 1]);
      FirstSignedConcat(records[..|records| - 1], [records[|records| - 1]]);
      assert records == records[..|records| - 1] + [records[|records| - 1]];
    }
  }

  /** With no signed record it answers that there is none, or where the walk ran over the end. */
  lemma FilterWithoutSignature(buf: seq<byte>)
    requires forall i | 0 <= i < |Walk(buf).records| :: !Signed(Walk(buf).records[i])
    ensures !Walk(buf).Overran() ==> FilterSpec(buf) == NotIBeacon
    ensures Walk(buf).Overran() ==> FilterSpec(buf).Failed? && NamesOverrun(buf, FilterSpec(buf).error)
  {
    NoneSigned(Walk(buf).records);
    if Walk(buf).Overran() {
      OverrunSaysWhere(buf);
    }
  }

  /** A signed record too short to be a frame. */
  predicate TooShort(s: Structure) { Signed(s) && |s.value| < 25 }

  lemma {:induction false} LastShortIs(records: seq<Structure>, i: nat)
    requires i < |records| && TooShort(records[i]) && forall j | i < j < |records| :: !TooShort(records[j])
    ensures LastShort(records) == Some(ShortIBeacon(|records[i].value|))
  {
    if i < |records| - 1 {
      assert !TooShort(records[|records| - 1]);
      LastShortIs(records[..|records| - 1], i);
    }
  }

  lemma {:induction false} NoShort(records: seq<Structure>)
    requires forall i | 0 <= i < |records| :: !TooShort(records[i])
    ensures LastShort(records).None?
  {
    if records != [] {
      NoShort(records[..|records| - 1]);
    }
  }

  /** The debug walk's trouble: an overrun if there is one, else the size of the last signed record below 25 bytes. */
  lemma DebugTrouble(buf: seq<byte>, i: nat)
    requires i < |Walk(buf).records| && TooShort(Walk(buf).records[i])
    requires forall j | i < j < |Walk(buf).records| :: !TooShort(Walk(buf).records[j])
    ensures DebugSpec(buf).bytes == buf && DebugSpec(buf).err.Some?
    ensures var e := DebugSpec(buf).err.value;
      if Walk(buf).Overran() then NamesOverrun(buf, e) else e == ShortIBeacon(|Walk(buf).records[i].value|)
  {
    if Walk(buf).Overran() {
      OverrunSaysWhere(buf);
    } else {
      LastShortIs(Walk(buf).records, i);
    }
  }

  /** Without such a record an overrun is all it can report. */
  lemma DebugWithoutShort(buf: seq<byte>)
    requires forall i | 0 <= i < |Walk(buf).records| :: !TooShort(Walk(buf).records[i])
    ensures DebugSpec(buf).bytes == buf && (DebugSpec(buf).err.Some? <==> Walk(buf).Overran())
    ensures Walk(buf).Overran() ==> NamesOverrun(buf, DebugSpec(buf).err.value)
  {
    NoShort(Walk(buf).records);
    if Walk(buf).Overran() {
      OverrunSaysWhere(buf);
    }
  }
}
