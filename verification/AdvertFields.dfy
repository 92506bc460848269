/** What each field of a decoded advert holds, in terms of the whole list of records it was decoded from. */
module AdvertFields {
  import opened Wrappers
  import opened Text
  import opened Identity
  import opened AdFormat
  import opened Advert

  // -------------------------------------------------- reference readings

  /** The reading of the last record that has one. */
  function Last<T>(read: Structure -> Option<T>, records: seq<Structure>): Option<T> {
    if records == [] then None
    else
      var x := read(records[|records| - 1]);
      if x.Some? then x else Last(read, records[..|records| - 1])
  }

  function FlagsOf(s: Structure): Option<byte> {
    if s.typ == AD_FLAGS && |s.value| >= 1 then Some(s.value[0]) else None
  }

  function TxPowerOf(s: Structure): Option<int> {
    if s.typ == AD_TX_POWER && |s.value| >= 1 then Some(Int8(s.value[0])) else None
  }

  /** The payload of an Eddystone record that decodes. */
  function EddystonePayload(s: Structure): Option<seq<byte>> {
    if s.typ == AD_SERVICE_DATA && |s.value| >= 2 && Join16(s.value[1], s.value[0]) == EDDYSTONE_UUID16
       && DecodeEddystone(s.value[2..]).Some?
    then Some(s.value[2..]) else None
  }

  /** The value of a complete iBeacon record. */
  function FrameBytes(s: Structure): Option<seq<byte>> {
    if Signed(s) && |s.value| >= 25 then Some(s.value) else None
  }

  function Services16Of(s: Structure): seq<uint16> {
    if s.typ == AD_SVC16_INC || s.typ == AD_SVC16_COMP then Uuids16(s.value, |s.value| / 2) else []
  }

  function Services128Of(s: Structure): seq<string> {
    if s.typ == AD_SVC128_INC || s.typ == AD_SVC128_COMP then Uuids128(s.value, |s.value| / 16) else []
  }

  function MfgOf(s: Structure): seq<MfgRecord> {
    if s.typ == MANUF_DATA && |s.value| >= 2 then [MfgRecord(Join16(s.value[1], s.value[0]), s.value[2..])] else []
  }

  function SvcDataOf(s: Structure): seq<SvcDataRecord> {
    if s.typ == AD_SERVICE_DATA && |s.value| >= 2 then [SvcDataRecord(Join16(s.value[1], s.value[0]), s.value[2..])]
      else []
  }

  /** The number of records up to and including the last complete name. */
  function AfterComplete(records: seq<Structure>): (n: nat)
    ensures n <= |records|
  {
    if records == [] then 0
    else if records[|records| - 1].typ == AD_NAME_COMPLETE then |records|
    else AfterComplete(records[..|records| - 1])
  }

  /** The first shortened name that is not empty. */
  function FirstShortName(records: seq<Structure>): string {
    if records == [] then ""
    else
      var earlier, s := FirstShortName(records[..|records| - 1]), records[|records| - 1];
      if earlier != "" then earlier else if s.typ == AD_NAME_SHORT then BytesToString(s.value) else ""
  }

  /** The last complete name; if there is none or it is empty, the first shortened name after it that is not. */
  function ShownName(records: seq<Structure>): string {
    var n := AfterComplete(records);
    var complete := if n == 0 then "" else BytesToString(records[n - 1].value);
    if complete != "" then complete else FirstShortName(records[n..])
  }

  // ------------------------------------------------------------ one record

  /** Each field takes what the record reads for it and otherwise keeps what it had. */
  lemma RecordSetsLatest(a: Advert, s: Structure)
    ensures var d := Decoded(a, s.typ, s.value);
      && d.flags == (if FlagsOf(s).Some? then FlagsOf(s) else a.flags)
      && d.txPower == (if TxPowerOf(s).Some? then TxPowerOf(s) else a.txPower)
      && d.raw == a.raw && d.structures == a.structures
  {
  }

  lemma RecordSetsFrames(a: Advert, s: Structure)
    ensures var d := Decoded(a, s.typ, s.value);
      && d.iBeacon == (if FrameBytes(s).Some? then DecodeIBeaconPayload(FrameBytes(s).value) else a.iBeacon)
      && d.eddystone == (if EddystonePayload(s).Some? then DecodeEddystone(EddystonePayload(s).value) else a.eddystone)
  {
  }

  lemma RecordAppends(a: Advert, s: Structure)
    ensures var d := Decoded(a, s.typ, s.value);
      && d.services16 == a.services16 + Services16Of(s) && d.services128 == a.services128 + Services128Of(s)
      && d.mfg == a.mfg + MfgOf(s) && d.serviceData == a.serviceData + SvcDataOf(s)
  {
  }

  lemma RecordNames(a: Advert, s: Structure)
    ensures var name := Decoded(a, s.typ, s.value).localName;
      name == if s.typ == AD_NAME_COMPLETE || (s.typ == AD_NAME_SHORT && a.localName == "")
              then BytesToString(s.value) else a.localName
  {
  }

  // ----------------------------------------------------------- all records

  lemma {:induction false} RecordsAreKept(raw: seq<byte>, records: seq<Structure>)
    ensures Collected(raw, records).structures == records && Collected(raw, records).raw == raw
  {
    if records != [] {
      var n := |records| - 1;
      RecordsAreKept(raw, records[..n]);
      var a := Collected(raw, records[..n]);
      RecordSetsLatest(a.(structures := a.structures + [records[n]]), records[n]);
      assert records == records[..n] + [records[n]];
    }
  }

  lemma {:induction false} LatestFlagsWin(raw: seq<byte>, records: seq<Structure>)
    ensures var a := Collected(raw, records);
      a.flags == Last(FlagsOf, records) && a.txPower == Last(TxPowerOf, records)
  {
    if records != [] {
      var n := |records| - 1;
      LatestFlagsWin(raw, records[..n]);
      var a := Collected(raw, records[..n]);
      RecordSetsLatest(a.(structures := a.structures + [records[n]]), records[n]);
    }
  }

  /** All records are kept, and the last flags and the last transmit power win. */
  lemma LatestWins(raw: seq<byte>, records: seq<Structure>)
    ensures var a := Collected(raw, records);
      && a.structures == records && a.raw == raw
      && a.flags == Last(FlagsOf, records) && a.txPower == Last(TxPowerOf, records)
  {
    RecordsAreKept(raw, records);
    LatestFlagsWin(raw, records);
  }

  /** The last complete iBeacon and the last decodable Eddystone record win. */
  lemma {:induction false} LatestFramesWin(raw: seq<byte>, records: seq<Structure>)
    ensures var a := Collected(raw, records);
      && (match Last(FrameBytes, records)
          case Some(v) => a.iBeacon == DecodeIBeaconPayload(v) && a.iBeacon.Some? && LooksLikeIBeacon(v)
          case None => a.iBeacon.None?)
      && (match Last(EddystonePayload, records)
          case Some(p) => a.eddystone == DecodeEddystone(p) && a.eddystone.Some?
          case None => a.eddystone.None?)
  {
    if records != [] {
      var n := |records| - 1;
      LatestFramesWin(raw, records[..n]);
      var a := Collected(raw, records[..n]);
      RecordSetsFrames(a.(structures := a.structures + [records[n]]), records[n]);
    }
  }

  /** Service ids, manufacturer records and service data are those of all records, in order. */
  lemma {:induction false} ListsAreComplete(raw: seq<byte>, records: seq<Structure>)
    ensures var a := Collected(raw, records);
      && a.services16 == Concat(Services16Of, records) && a.services128 == Concat(Services128Of, records)
      && a.mfg == Concat(MfgOf, records) && a.serviceData == Concat(SvcDataOf, records)
  {
    if records != [] {
      var n := |records| - 1;
      ListsAreComplete(raw, records[..n]);
      var a := Collected(raw, records[..n]);
      RecordAppends(a.(structures := a.structures + [records[n]]), records[n]);
    }
  }

  lemma ShownNameGrows(records: seq<Structure>)
    requires records != []
    ensures var n := |records| - 1;
      var s, earlier := records[n], ShownName(records[..n]);
      ShownName(records) == if s.typ == AD_NAME_COMPLETE || (s.typ == AD_NAME_SHORT && earlier == "")
                            then BytesToString(s.value) else earlier
  {
    var n := |records| - 1;
    if records[n].typ != AD_NAME_COMPLETE {
      var m := AfterComplete(records[..n]);
      assert records[m..][..n - m] == records[..n][m..] && records[m..][n - m] == records[n];
      assert m > 0 ==> records[..n][m - 1] == records[m - 1];
    } else {
      assert records[|records|..] == [];
    }
  }

  /** The local name is the last complete one; if that is missing or empty, the first shortened name after it. */
  lemma {:induction false} NameRule(raw: seq<byte>, records: seq<Structure>)
    ensures Collected(raw, records).localName == ShownName(records)
  {
    if records != [] {
      var n := |records| - 1;
      NameRule(raw, records[..n]);
      var a := Collected(raw, records[..n]);
      RecordNames(a.(structures := a.structures + [records[n]]), records[n]);
      ShownNameGrows(records);
    }
  }

  // ------------------------------------------------------------------ URLs

  /** Printable bytes are spelled as they are. */
  lemma {:induction false} PrintableIsSpelledAsIs(encoded: seq<byte>)
    requires forall i | 0 <= i < |encoded| :: 0x20 <= encoded[i] < 0x7f
    ensures Concat(UrlPart, encoded) == BytesToString(encoded)
  {
    if encoded != [] {
      var n := |encoded| - 1;
      PrintableIsSpelledAsIs(encoded[..n]);
      assert UrlPart(encoded[n]) == [encoded[n] as char];
      assert BytesToString(encoded) == BytesToString(encoded[..n]) + [encoded[n] as char];
    }
  }

  /** A URL in which a code stands between printable bytes reads scheme, bytes, expansion, bytes. */
  lemma UrlReads(scheme: byte, before: seq<byte>, c: byte, after: seq<byte>)
    requires forall i | 0 <= i < |before| :: 0x20 <= before[i] < 0x7f
    requires forall i | 0 <= i < |after| :: 0x20 <= after[i] < 0x7f
    ensures UrlText(scheme, before + [c] + after)
      == UrlScheme(scheme) + (BytesToString(before) + UrlPart(c) + BytesToString(after))
  {
    ConcatSplits(UrlPart, before + [c], after);
    ConcatSnoc(UrlPart, before, c);
    PrintableIsSpelledAsIs(before);
    PrintableIsSpelledAsIs(after);
  }
}
