/** The puts and deletes inside a write batch, and a whole log of batches. */
module Batch {
  import opened Bytes
  import Crc32c
  import Wal
  import opened Wrappers

  datatype Entry = Put(key: bytes, value: bytes) | Del(key: bytes)

  const BATCH_HEADER: nat := 12

  // --- what the reader computes ---

  /** The entry at `pos` and where the next begins; None at the first oddity. */
  function EntryAt(payload: bytes, pos: nat): Option<(Entry, nat)>
    requires pos < |payload|
  {
    match ReadVarintSpec(payload, pos + 1)
    case None => None
    case Some((klen, at)) =>
      var key := Slice(payload, at, klen);
      if |key| < klen then None
      else if payload[pos] == 1 then
        match ReadVarintSpec(payload, at + klen)
        case None => None
        case Some((vlen, vat)) =>
          var value := Slice(payload, vat, vlen);
          if |value| < vlen then None else Some((Put(key, value), vat + vlen))
      else if payload[pos] == 0 then Some((Del(key), at + klen))
      else None
  }

  function EntriesFrom(payload: bytes, pos: nat): seq<Entry>
    decreases |payload| - pos
  {
    if pos >= |payload| then []
    else
      match EntryAt(payload, pos)
      case None => []
      case Some((e, next)) => [e] + EntriesFrom(payload, next)
  }

  function BatchEntriesSpec(payload: bytes): seq<Entry> {
    if |payload| < BATCH_HEADER then [] else EntriesFrom(payload, BATCH_HEADER)
  }

  lemma EntriesStep(out: seq<Entry>, payload: bytes, pos: nat)
    requires pos < |payload|
    ensures out + EntriesFrom(payload, pos) ==
      match EntryAt(payload, pos)
      case None => out
      case Some((e, next)) => (out + [e]) + EntriesFrom(payload, next)
  {
    hide EntryAt;
  }

  lemma NoEntriesLeft(payload: bytes, pos: nat)
    requires pos >= |payload|
    ensures EntriesFrom(payload, pos) == []
  {
  }

  method BatchEntries(payload: bytes) returns (out: seq<Entry>)
    ensures out == BatchEntriesSpec(payload)
  {
    hide ReadVarintSpec, Slice, EntriesFrom;
    out := [];
    if |payload| < BATCH_HEADER {
      return;
    }
    var pos: nat := BATCH_HEADER;
    while pos < |payload|
      invariant BatchEntriesSpec(payload) == out + EntriesFrom(payload, pos)
      decreases |payload| - pos
    {
      ghost var entry := EntryAt(payload, pos);
      EntriesStep(out, payload, pos);
      var tag := payload[pos];
      pos := pos + 1;
      var klen := ReadVarint(payload, pos);
      if klen.None? {
        return;
      }
      var key := Slice(payload, klen.value.1, klen.value.0);
      pos := klen.value.1 + klen.value.0;
      if |key| < klen.value.0 {
        return;
      }
      if tag == 1 {
        var vlen := ReadVarint(payload, pos);
        if vlen.None? {
          return;
        }
        var value := Slice(payload, vlen.value.1, vlen.value.0);
        pos := vlen.value.1 + vlen.value.0;
        if |value| < vlen.value.0 {
          return;
        }
        assert entry == Some((Put(key, value), pos));
        out := out + [Put(key, value)];
      } else if tag == 0 {
        assert entry == Some((Del(key), pos));
        out := out + [Del(key)];
      } else {
        return;
      }
    }
    NoEntriesLeft(payload, pos);
  }

  function LogEntriesOf(payloads: seq<bytes>): seq<Entry> {
    if payloads == [] then [] else BatchEntriesSpec(payloads[0]) + LogEntriesOf(payloads[1..])
  }

  function WalEntriesSpec(data: bytes): seq<Entry> {
    LogEntriesOf(Wal.Payloads(data))
  }

  method WalEntries(data: bytes, table: seq<bv32>) returns (out: seq<Entry>)
    requires Crc32c.IsTable(table)
    ensures out == WalEntriesSpec(data)
  {
    hide BatchEntriesSpec;
    var payloads := Wal.WalPayloads(data, table);
    out := [];
    for i := 0 to |payloads|
      invariant LogEntriesOf(payloads) == out + LogEntriesOf(payloads[i..])
    {
      var entries := BatchEntries(payloads[i]);
      assert payloads[i..][1..] == payloads[i + 1..];
      out := out + entries;
    }
  }

  // --- what any payload means ---

  /** The bytes from `pos` to `next` spell the entry: 1, a key and a value, or 0 and a
      key; each behind its length, and all of it there. */
  ghost predicate SpelledEntry(payload: bytes, pos: nat, next: nat, e: Entry) {
    pos < |payload| &&
    match e
    case Put(key, value) => payload[pos] == 1 && SpelledFields(payload, pos + 1, next, key, value)
    case Del(key) => payload[pos] == 0 && SpellsField(payload, pos + 1, next, key)
  }

  ghost predicate SpelledFields(payload: bytes, pos: nat, next: nat, key: bytes, value: bytes) {
    exists mid: nat :: SpellsField(payload, pos, mid, key) && SpellsField(payload, mid, next, value)
  }

  /** The entries spelled one behind the other from `pos`, to the end or to where none is. */
  ghost predicate SpelledEntries(payload: bytes, pos: nat, es: seq<Entry>)
    decreases |es|
  {
    if es == [] then pos >= |payload| || forall e, next: nat :: !SpelledEntry(payload, pos, next, e)
    else exists next: nat :: SpelledEntry(payload, pos, next, es[0]) && SpelledEntries(payload, next, es[1..])
  }

  lemma EntryExact(payload: bytes, pos: nat, next: nat, e: Entry)
    requires pos < |payload|
    ensures EntryAt(payload, pos) == Some((e, next)) <==> SpelledEntry(payload, pos, next, e)
  {
    hide ReadVarintSpec, SpellsField, Slice;
    match e {
      case Put(key, value) =>
        var start := pos + 1;
        var r := ReadVarintSpec(payload, start);
        if r.Some? {
          var mid := r.value.1 + r.value.0;
          FieldExact(payload, start, mid, key);
          FieldExact(payload, mid, next, value);
        }
        forall mid: nat | SpellsField(payload, start, mid, key)
          ensures r.Some? && mid == r.value.1 + r.value.0
        {
          FieldExact(payload, start, mid, key);
        }
      case Del(key) => FieldExact(payload, pos + 1, next, key);
    }
  }

  lemma {:induction false} EntriesExactFrom(payload: bytes, pos: nat, es: seq<Entry>)
    ensures EntriesFrom(payload, pos) == es <==> SpelledEntries(payload, pos, es)
    decreases |es|
  {
    hide EntryAt, SpelledEntry;
    if pos < |payload| {
      forall e, next: nat
        ensures EntryAt(payload, pos) == Some((e, next)) <==> SpelledEntry(payload, pos, next, e)
      {
        EntryExact(payload, pos, next, e);
      }
      if es != [] {
        var r := EntryAt(payload, pos);
        if r.Some? { EntriesExactFrom(payload, r.value.1, es[1..]); }
      }
    } else {
      forall e, next: nat
        ensures !SpelledEntry(payload, pos, next, e)
      {
        NoEntryThere(payload, pos, next, e);
      }
    }
  }

  lemma NoEntryThere(payload: bytes, pos: nat, next: nat, e: Entry)
    requires pos >= |payload|
    ensures !SpelledEntry(payload, pos, next, e)
  {
  }

  /** Of any payload exactly the entries come out that are spelled behind the twelve
      header bytes, one behind the other, up to the first place where none is. */
  lemma EntriesExact(payload: bytes, es: seq<Entry>)
    ensures BatchEntriesSpec(payload) == es <==>
      if |payload| < 12 then es == [] else SpelledEntries(payload, 12, es)
  {
    hide EntriesFrom, SpelledEntries;
    if |payload| >= 12 { EntriesExactFrom(payload, 12, es); }
  }

  // --- what a writer puts down ---

  function Encode(e: Entry): bytes {
    match e
    case Put(key, value) => [1] + (Varint(|key|) + (key + (Varint(|value|) + value)))
    case Del(key) => [0] + (Varint(|key|) + key)
  }

  function EncodeAll(es: seq<Entry>): bytes {
    if es == [] then [] else Encode(es[0]) + EncodeAll(es[1..])
  }

  /** Lengths a varint can carry. */
  ghost predicate Sized(e: Entry) {
    |e.key| < VARINT_LIMIT && (e.Put? ==> |e.value| < VARINT_LIMIT)
  }

  ghost predicate AllSized(es: seq<Entry>) {
    forall e :: e in es ==> Sized(e)
  }

  lemma EntryInverts(payload: bytes, pos: nat, e: Entry)
    requires At(payload, pos, Encode(e)) && Sized(e)
    ensures pos < |payload| && EntryAt(payload, pos) == Some((e, pos + |Encode(e)|))
  {
    hide ReadVarintSpec, Varint, At, Slice, EntryAt;
    if e.Put? {
      PutInverts(payload, pos, e.key, e.value);
    } else {
      DelInverts(payload, pos, e.key);
    }
  }

  lemma PutInverts(payload: bytes, pos: nat, key: bytes, value: bytes)
    requires At(payload, pos, Encode(Put(key, value))) && Sized(Put(key, value))
    ensures pos < |payload| && EntryAt(payload, pos) == Some((Put(key, value), pos + |Encode(Put(key, value))|))
  {
    hide ReadVarintSpec, Varint, At, Slice;
    TakeField(payload, pos, 1, key, Varint(|value|) + value);
    var at := pos + 1 + |Varint(|key|)|;
    AtSplit(payload, at + |key|, Varint(|value|), value);
    ReadVarintInverts(payload, at + |key|, |value|);
    AtSlice(payload, at + |key| + |Varint(|value|)|, value);
  }

  lemma DelInverts(payload: bytes, pos: nat, key: bytes)
    requires At(payload, pos, Encode(Del(key))) && Sized(Del(key))
    ensures pos < |payload| && EntryAt(payload, pos) == Some((Del(key), pos + |Encode(Del(key))|))
  {
    hide ReadVarintSpec, Varint, At, Slice;
    assert key + [] == key;
    TakeField(payload, pos, 0, key, []);
  }

  /** A tag, a length and that many bytes, then `rest`. */
  lemma TakeField(payload: bytes, pos: nat, tag: byte, field: bytes, rest: bytes)
    requires At(payload, pos, [tag] + (Varint(|field|) + (field + rest))) && |field| < VARINT_LIMIT
    ensures var at := pos + 1 + |Varint(|field|)|;
      && pos < |payload| && payload[pos] == tag
      && ReadVarintSpec(payload, pos + 1) == Some((|field|, at))
      && Slice(payload, at, |field|) == field
      && At(payload, at + |field|, rest)
  {
    hide ReadVarintSpec, Varint, VarintFrom, At, Slice;
    AtHead(payload, pos, [tag] + (Varint(|field|) + (field + rest)));
    assert ([tag] + (Varint(|field|) + (field + rest)))[1..] == Varint(|field|) + (field + rest);
    AtSplit(payload, pos + 1, Varint(|field|), field + rest);
    ReadVarintInverts(payload, pos + 1, |field|);
    AtSplit(payload, pos + 1 + |Varint(|field|)|, field, rest);
    AtSlice(payload, pos + 1 + |Varint(|field|)|, field);
  }

  /** Whatever follows, entries laid end to end come back one by one. */
  lemma {:induction false} EntriesInvert(payload: bytes, pos: nat, es: seq<Entry>)
    requires At(payload, pos, EncodeAll(es)) && AllSized(es)
    ensures EntriesFrom(payload, pos) == es + EntriesFrom(payload, pos + |EncodeAll(es)|)
    decreases |es|
  {
    hide EntryAt, Encode;
    if es != [] {
      AtSplit(payload, pos, Encode(es[0]), EncodeAll(es[1..]));
      EntryInverts(payload, pos, es[0]);
      EntriesInvert(payload, pos + |Encode(es[0])|, es[1..]);
    }
  }

  function WriteBatch(header: bytes, es: seq<Entry>): bytes {
    header + EncodeAll(es)
  }

  lemma BatchRoundTrip(header: bytes, es: seq<Entry>)
    requires |header| == BATCH_HEADER && AllSized(es)
    ensures BatchEntriesSpec(WriteBatch(header, es)) == es
  {
    hide EncodeAll;
    var payload := WriteBatch(header, es);
    assert payload == header + EncodeAll(es) + [];
    AtWhole(header, EncodeAll(es), []);
    EntriesInvert(payload, BATCH_HEADER, es);
  }

  /** A batch: its twelve header bytes and its entries. */
  datatype WrittenBatch = WrittenBatch(header: bytes, entries: seq<Entry>)

  ghost predicate Writable(b: WrittenBatch) {
    |b.header| == BATCH_HEADER && AllSized(b.entries)
  }

  function Written(batches: seq<WrittenBatch>): seq<bytes> {
    if batches == [] then []
    else [WriteBatch(batches[0].header, batches[0].entries)] + Written(batches[1..])
  }

  function EntriesOf(batches: seq<WrittenBatch>): seq<Entry> {
    if batches == [] then [] else batches[0].entries + EntriesOf(batches[1..])
  }

  lemma {:induction false} WrittenEntries(batches: seq<WrittenBatch>)
    requires forall i :: 0 <= i < |batches| ==> Writable(batches[i])
    ensures LogEntriesOf(Written(batches)) == EntriesOf(batches)
  {
    hide BatchEntriesSpec, WriteBatch;
    if batches != [] {
      assert Writable(batches[0]);
      BatchRoundTrip(batches[0].header, batches[0].entries);
      WrittenEntries(batches[1..]);
    }
  }

  /** Every entry of every batch written to a log, in file order. */
  lemma LogOfBatches(batches: seq<WrittenBatch>)
    requires forall i :: 0 <= i < |batches| ==> Writable(batches[i])
    ensures WalEntriesSpec(Wal.Log(Written(batches))) == EntriesOf(batches)
  {
    hide Wal.Log, Wal.Payloads;
    Wal.LogRoundTrip(Written(batches));
    WrittenEntries(batches);
  }
}
