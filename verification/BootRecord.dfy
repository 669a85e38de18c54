/** The boot record that the bootloader leaves for attestation: a little-endian header and a list of
    type-length-value entries (attest_service.rs). */
module BootRecords {
  import opened Basics

  const SHARED_DATA_TLV_INFO_MAGIC: nat := 0x2016
  const IAS_MEASURE_VALUE_TYPE: nat := 0x1008
  const IAS_SIGNER_ID_TYPE: nat := 0x1001

  /** One PSA software component of RFC 9783, section 4.4.1. */
  datatype SwComponent = SwComponent(
    measurementType: Option<seq<Byte>>,
    measurementValue: seq<Byte>,
    signerId: seq<Byte>)

  /** Two bytes at an offset, if the data has them. */
  function U16Le(data: seq<Byte>, at: nat): Option<nat> {
    if at + 2 <= |data| then
      var low: int, high: int := data[at], data[at + 1];
      Some(low + 256 * high)
    else None
  }

  function Finish(measure: Option<seq<Byte>>, signer: Option<seq<Byte>>): Option<SwComponent> {
    if measure.Some? && signer.Some? then Some(SwComponent(None, measure.value, signer.value)) else None
  }

  /** The entries from an offset on, with the last measurement and signer seen before it. */
  function ParseEntries(data: seq<Byte>, total: nat, offset: nat,
                        measure: Option<seq<Byte>>, signer: Option<seq<Byte>>): Option<SwComponent>
    decreases if offset < total then total - offset else 0
  {
    if offset + 4 > total then Finish(measure, signer)
    else
      match (U16Le(data, offset), U16Le(data, offset + 2))
      case (Some(kind), Some(len)) =>
        if offset + 4 + len > |data| then None
        else
          var payload := data[offset + 4..offset + 4 + len];
          ParseEntries(data, total, offset + 4 + len,
                       if kind == IAS_MEASURE_VALUE_TYPE then Some(payload) else measure,
                       if kind == IAS_SIGNER_ID_TYPE then Some(payload) else signer)
      case _ => None
  }

  function Parse(data: seq<Byte>): Option<SwComponent> {
    match (U16Le(data, 0), U16Le(data, 2))
    case (Some(magic), Some(total)) =>
      if magic != SHARED_DATA_TLV_INFO_MAGIC || total > |data| || total < 4 then None
      else ParseEntries(data, total, 4, None, None)
    case _ => None
  }

  method ParseBootData(data: seq<Byte>) returns (r: Option<SwComponent>)
    ensures r == Parse(data)
  {
    var magic := U16Le(data, 0);
    if magic.None? {
      return None;
    }
    var total := U16Le(data, 2);
    if total.None? {
      return None;
    }
    if magic.value != SHARED_DATA_TLV_INFO_MAGIC || total.value > |data| || total.value < 4 {
      return None;
    }
    var measure: Option<seq<Byte>>, signer: Option<seq<Byte>> := None, None;
    var offset := 4;
    while offset + 4 <= total.value
      invariant ParseEntries(data, total.value, offset, measure, signer) == Parse(data)
      decreases if offset < total.value then total.value - offset else 0
    {
      var kind, len := U16Le(data, offset), U16Le(data, offset + 2);
      if kind.None? || len.None? {
        return None;
      }
      offset := offset + 4;
      if offset + len.value > |data| {
        return None;
      }
      var payload := data[offset..offset + len.value];
      if kind.value == IAS_MEASURE_VALUE_TYPE {
        measure := Some(payload);
      } else if kind.value == IAS_SIGNER_ID_TYPE {
        signer := Some(payload);
      }
      offset := offset + len.value;
    }
    return Finish(measure, signer);
  }

  // ----- The record that is parsed ---------------------------------------------------------

  datatype Entry = Entry(kind: nat, payload: seq<Byte>)

  ghost predicate Encodable(es: seq<Entry>) {
    forall e :: e in es ==> e.kind < 0x1_0000 && |e.payload| < 0x1_0000
  }

  function U16Bytes(n: nat): seq<Byte>
    requires n < 0x1_0000
  {
    [n % 256, n / 256]
  }

  ghost function EntryBytes(e: Entry): seq<Byte>
    requires e.kind < 0x1_0000 && |e.payload| < 0x1_0000
  {
    U16Bytes(e.kind) + U16Bytes(|e.payload|) + e.payload
  }

  ghost function Entries(es: seq<Entry>): seq<Byte>
    requires Encodable(es)
  {
    if es == [] then [] else EntryBytes(es[0]) + Entries(es[1..])
  }

  ghost function Record(es: seq<Entry>, slack: seq<Byte>): seq<Byte>
    requires Encodable(es) && 4 + |Entries(es)| + |slack| < 0x1_0000
  {
    U16Bytes(SHARED_DATA_TLV_INFO_MAGIC) + U16Bytes(4 + |Entries(es)| + |slack|) + Entries(es) + slack
  }

  /** The payload of the last entry of a kind. */
  ghost function LastOf(es: seq<Entry>, kind: nat): Option<seq<Byte>> {
    if es == [] then None
    else if Last(es).kind == kind then Some(Last(es).payload)
    else LastOf(es[..|es| - 1], kind)
  }

  /** The same from the front, starting from what was seen before. */
  ghost function LastSeen(es: seq<Entry>, kind: nat, seen: Option<seq<Byte>>): Option<seq<Byte>> {
    if es == [] then seen
    else LastSeen(es[1..], kind, if es[0].kind == kind then Some(es[0].payload) else seen)
  }

  lemma {:induction false} LastSeenAppends(es: seq<Entry>, e: Entry, kind: nat, seen: Option<seq<Byte>>)
    ensures LastSeen(es + [e], kind, seen) == if e.kind == kind then Some(e.payload) else LastSeen(es, kind, seen)
  {
    if es == [] {
      assert (es + [e])[1..] == [];
    } else {
      assert (es + [e])[1..] == es[1..] + [e];
      LastSeenAppends(es[1..], e, kind, if es[0].kind == kind then Some(es[0].payload) else seen);
    }
  }

  lemma {:induction false} LastSeenIsLast(es: seq<Entry>, kind: nat)
    ensures LastSeen(es, kind, None) == LastOf(es, kind)
  {
    if es != [] {
      LastSeenIsLast(es[..|es| - 1], kind);
      LastSeenAppends(es[..|es| - 1], Last(es), kind, None);
      assert es[..|es| - 1] + [Last(es)] == es;
    }
  }

  lemma U16ReadsBack(before: seq<Byte>, n: nat, after: seq<Byte>)
    requires n < 0x1_0000
    ensures U16Le(before + U16Bytes(n) + after, |before|) == Some(n)
  {
  }

  /** One entry in the middle of the data: its kind, its length and its payload are found. */
  lemma EntryReadsBack(data: seq<Byte>, before: seq<Byte>, e: Entry, after: seq<Byte>)
    requires e.kind < 0x1_0000 && |e.payload| < 0x1_0000
    requires data == before + EntryBytes(e) + after
    ensures U16Le(data, |before|) == Some(e.kind)
    ensures U16Le(data, |before| + 2) == Some(|e.payload|)
    ensures |before| + 4 + |e.payload| <= |data|
    ensures data[|before| + 4..|before| + 4 + |e.payload|] == e.payload
    ensures |EntryBytes(e)| == 4 + |e.payload|
  {
    hide U16Le;
    var kind, len := U16Bytes(e.kind), U16Bytes(|e.payload|);
    assert data == before + kind + (len + e.payload + after);
    U16ReadsBack(before, e.kind, len + e.payload + after);
    assert data == (before + kind) + len + (e.payload + after);
    U16ReadsBack(before + kind, |e.payload|, e.payload + after);
  }

  /** From this offset on each entry begins, with kind and length, before the end of the record. */
  ghost predicate BeginInside(es: seq<Entry>, offset: nat, total: nat)
    decreases |es|
  {
    es == [] || (offset + 4 <= total && BeginInside(es[1..], offset + 4 + |es[0].payload|, total))
  }

  lemma {:induction false} ShortEntriesBeginInside(es: seq<Entry>, offset: nat, total: nat)
    requires Encodable(es) && offset + |Entries(es)| <= total
    ensures BeginInside(es, offset, total)
    decreases |es|
  {
    if es != [] {
      ShortEntriesBeginInside(es[1..], offset + 4 + |es[0].payload|, total);
    }
  }

  lemma {:induction false} EntriesReadBack(data: seq<Byte>, before: seq<Byte>, es: seq<Entry>, rest: seq<Byte>,
                                           total: nat, measure: Option<seq<Byte>>, signer: Option<seq<Byte>>)
    requires Encodable(es) && data == before + Entries(es) + rest
    requires BeginInside(es, |before|, total) && total < |before| + |Entries(es)| + 4
    ensures ParseEntries(data, total, |before|, measure, signer)
            == Finish(LastSeen(es, IAS_MEASURE_VALUE_TYPE, measure), LastSeen(es, IAS_SIGNER_ID_TYPE, signer))
    decreases |es|
  {
    hide U16Le, EntryBytes, Finish;
    if es != [] {
      var e, tail := es[0], es[1..];
      var next := before + EntryBytes(e);
      assert data == next + Entries(tail) + rest;
      assert data == before + EntryBytes(e) + (Entries(tail) + rest);
      EntryReadsBack(data, before, e, Entries(tail) + rest);
      EntriesReadBack(data, next, tail, rest, total,
                      if e.kind == IAS_MEASURE_VALUE_TYPE then Some(e.payload) else measure,
                      if e.kind == IAS_SIGNER_ID_TYPE then Some(e.payload) else signer);
    }
  }

  /** A serialised record, with up to three stray bytes inside its length and any padding behind
      it, parses to its last measurement and last signer, or to nothing if either is missing. */
  lemma RecordReadsBack(es: seq<Entry>, slack: seq<Byte>, padding: seq<Byte>)
    requires Encodable(es) && |slack| < 4 && 4 + |Entries(es)| + |slack| < 0x1_0000
    ensures Parse(Record(es, slack) + padding)
            == Finish(LastOf(es, IAS_MEASURE_VALUE_TYPE), LastOf(es, IAS_SIGNER_ID_TYPE))
  {
    hide U16Le;
    var data, total := Record(es, slack) + padding, 4 + |Entries(es)| + |slack|;
    var magic, length := U16Bytes(SHARED_DATA_TLV_INFO_MAGIC), U16Bytes(total);
    assert data == [] + magic + (length + Entries(es) + slack + padding);
    U16ReadsBack([], SHARED_DATA_TLV_INFO_MAGIC, length + Entries(es) + slack + padding);
    assert data == magic + length + (Entries(es) + slack + padding);
    U16ReadsBack(magic, total, Entries(es) + slack + padding);
    assert data == (magic + length) + Entries(es) + (slack + padding);
    ShortEntriesBeginInside(es, 4, total);
    EntriesReadBack(data, magic + length, es, slack + padding, total, None, None);
    LastSeenIsLast(es, IAS_MEASURE_VALUE_TYPE);
    LastSeenIsLast(es, IAS_SIGNER_ID_TYPE);
  }

  // ----- Which bytes are a record ----------------------------------------------------------

  /** The bytes are a record of these entries: the magic number and a length that fits, both with the low byte
      first, and entries that begin inside that length until less than four bytes of it are left. The last
      entry may end behind it, but inside the data. */
  ghost predicate IsRecord(data: seq<Byte>, es: seq<Entry>) {
    && |data| >= 4 && data[0] == 0x16 && data[1] == 0x20
    && var low: int, high: int := data[2], data[3];
       var total := low + 256 * high;
       && 4 <= total <= |data| && Encodable(es)
       && Entries(es) <= data[4..] && BeginInside(es, 4, total) && total < 4 + |Entries(es)| + 4
  }

  /** Whatever entries the bytes are a record of, the last measurement and the last signer are parsed. */
  lemma RecordIsParsed(data: seq<Byte>, es: seq<Entry>)
    requires IsRecord(data, es)
    ensures var measure, signer := LastOf(es, 0x1008), LastOf(es, 0x1001);
            Parse(data) == if measure.Some? && signer.Some? then Some(SwComponent(None, measure.value, signer.value)) else None
  {
    var low: int, high: int := data[2], data[3];
    var total := low + 256 * high;
    assert data == data[..4] + Entries(es) + data[4 + |Entries(es)|..];
    EntriesReadBack(data, data[..4], es, data[4 + |Entries(es)|..], total, None, None);
    LastSeenIsLast(es, IAS_MEASURE_VALUE_TYPE);
    LastSeenIsLast(es, IAS_SIGNER_ID_TYPE);
  }

  lemma U16IsBytes(data: seq<Byte>, at: nat)
    requires U16Le(data, at).Some?
    ensures U16Le(data, at).value < 0x1_0000 && U16Bytes(U16Le(data, at).value) == data[at..at + 2]
  {
    var low: int, high: int := data[at], data[at + 1];
    assert (low + 256 * high) % 256 == low && (low + 256 * high) / 256 == high;
  }

  lemma {:induction false} ParsedAreEntries(data: seq<Byte>, total: nat, offset: nat,
                                            measure: Option<seq<Byte>>, signer: Option<seq<Byte>>) returns (es: seq<Entry>)
    requires ParseEntries(data, total, offset, measure, signer).Some? && offset <= |data|
    ensures Encodable(es) && Entries(es) <= data[offset..] && BeginInside(es, offset, total)
    ensures total < offset + |Entries(es)| + 4
    decreases if offset < total then total - offset else 0
  {
    es := [];
    if offset + 4 <= total {
      U16IsBytes(data, offset);
      U16IsBytes(data, offset + 2);
      var kind, len := U16Le(data, offset).value, U16Le(data, offset + 2).value;
      hide U16Le;
      var e, next := Entry(kind, data[offset + 4..offset + 4 + len]), offset + 4 + len;
      assert EntryBytes(e) == data[offset..next];
      var rest := ParsedAreEntries(data, total, next,
                                   if kind == IAS_MEASURE_VALUE_TYPE then Some(e.payload) else measure,
                                   if kind == IAS_SIGNER_ID_TYPE then Some(e.payload) else signer);
      es := [e] + rest;
      assert es[1..] == rest;
      assert data[offset..] == data[offset..next] + data[next..];
    }
  }

  /** The parser finds something exactly in the bytes that are a record of entries with both a measurement
      and a signer; everything else, a wrong magic number, length or entry included, is nothing. */
  lemma ParseIsExact(data: seq<Byte>)
    ensures Parse(data).Some? <==>
            exists es :: IsRecord(data, es) && LastOf(es, 0x1008).Some? && LastOf(es, 0x1001).Some?
  {
    if es :| IsRecord(data, es) && LastOf(es, 0x1008).Some? && LastOf(es, 0x1001).Some? {
      RecordIsParsed(data, es);
    }
    if Parse(data).Some? {
      var total := U16Le(data, 2).value;
      assert data[0] == 0x16 && data[1] == 0x20 by { MagicBytes(data); }
      var es := ParsedAreEntries(data, total, 4, None, None);
      assert IsRecord(data, es);
      RecordIsParsed(data, es);
    }
  }

  lemma MagicBytes(data: seq<Byte>)
    requires U16Le(data, 0) == Some(0x2016)
    ensures data[0] == 0x16 && data[1] == 0x20
  {
  }

  // ----- Arbitrary bytes -------------------------------------------------------------------

  ghost predicate SliceOf(data: seq<Byte>, part: seq<Byte>) {
    exists i, j :: 0 <= i <= j <= |data| && part == data[i..j]
  }

  lemma {:induction false} EntriesAreSlices(data: seq<Byte>, total: nat, offset: nat,
                                            measure: Option<seq<Byte>>, signer: Option<seq<Byte>>)
    requires measure.Some? ==> SliceOf(data, measure.value)
    requires signer.Some? ==> SliceOf(data, signer.value)
    ensures var r := ParseEntries(data, total, offset, measure, signer);
            r.Some? ==> SliceOf(data, r.value.measurementValue) && SliceOf(data, r.value.signerId)
    decreases if offset < total then total - offset else 0
  {
    if offset + 4 <= total && U16Le(data, offset).Some? && U16Le(data, offset + 2).Some? {
      var kind, len := U16Le(data, offset).value, U16Le(data, offset + 2).value;
      if offset + 4 + len <= |data| {
        var payload := data[offset + 4..offset + 4 + len];
        EntriesAreSlices(data, total, offset + 4 + len,
                         if kind == IAS_MEASURE_VALUE_TYPE then Some(payload) else measure,
                         if kind == IAS_SIGNER_ID_TYPE then Some(payload) else signer);
      }
    }
  }

  /** On any bytes at all, what the parser returns are parts of its input. */
  lemma ParseReturnsSlices(data: seq<Byte>)
    ensures Parse(data).Some? ==>
              SliceOf(data, Parse(data).value.measurementValue) && SliceOf(data, Parse(data).value.signerId)
  {
    if U16Le(data, 2).Some? {
      EntriesAreSlices(data, U16Le(data, 2).value, 4, None, None);
    }
  }
}
