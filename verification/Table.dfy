/** Immutable tables: prefix-compressed blocks found through footer, index and
    handles, against any table a writer may lay out. */
module Table {
  import opened Batch
  import opened Bytes
  import Snappy
  import opened Wrappers

  const FOOTER_SIZE: nat := 48
  const MAGIC: nat := 0xdb4775248b80fb57

  datatype Pair = Pair(key: bytes, value: bytes)

  // --- what the reader computes ---

  function BlockBodySpec(data: bytes, offset: nat, size: nat): (r: Option<bytes>) {
    var raw := Slice(data, offset, size);
    if |raw| < size || offset + size >= |data| then None
    else if data[offset + size] == 0 then Some(raw)
    else if data[offset + size] == 1 then Snappy.DecompressSpec(raw)
    else None
  }

  /** Three varints in a row, and where they end. */
  function Lengths(body: bytes, pos: nat): (r: Option<(nat, nat, nat, nat)>)
    ensures r.Some? ==> pos < r.value.3 <= |body|
  {
    match ReadVarintSpec(body, pos)
    case None => None
    case Some((shared, p1)) =>
      match ReadVarintSpec(body, p1)
      case None => None
      case Some((unshared, p2)) =>
        match ReadVarintSpec(body, p2)
        case None => None
        case Some((vlen, p3)) => Some((shared, unshared, vlen, p3))
  }

  /** The entry at `pos`, its key completed from the one before. */
  function PairAt(body: bytes, pos: nat, prev: bytes): (r: Option<(Pair, nat)>)
    ensures r.Some? ==> r.value.1 > pos
  {
    match Lengths(body, pos)
    case None => None
    case Some((shared, unshared, vlen, at)) =>
      if shared > |prev| then None
      else
        var key := prev[..shared] + Slice(body, at, unshared);
        var value := Slice(body, at + unshared, vlen);
        if |key| < shared + unshared || |value| < vlen then None
        else Some((Pair(key, value), at + unshared + vlen))
  }

  function PairsFrom(body: bytes, pos: nat, end: nat, prev: bytes): seq<Pair>
    decreases end - pos
  {
    if pos >= end then []
    else
      match PairAt(body, pos, prev)
      case None => []
      case Some((p, next)) => [p] + PairsFrom(body, next, end, p.key)
  }

  /** Entries run up to the restart array, whose length the last four bytes give. */
  function BlockPairsSpec(body: bytes): seq<Pair> {
    if |body| < 4 then []
    else
      var restarts := Le(body[|body| - 4..]);
      if |body| < 4 + 4 * restarts then []
      else PairsFrom(body, 0, |body| - 4 - 4 * restarts, [])
  }

  /** The eight-byte trailer of an internal key, its low byte first. */
  function EntryOf(p: Pair): seq<Entry> {
    if |p.key| < 8 then []
    else
      var user := p.key[..|p.key| - 8];
      if p.key[|p.key| - 8] == 1 then [Put(user, p.value)] else [Del(user)]
  }

  function EntriesOf(pairs: seq<Pair>): seq<Entry> {
    if pairs == [] then [] else EntryOf(pairs[0]) + EntriesOf(pairs[1..])
  }

  function HandleOf(handle: bytes): Option<(nat, nat)> {
    match ReadVarintSpec(handle, 0)
    case None => None
    case Some((off, p)) =>
      match ReadVarintSpec(handle, p)
      case None => None
      case Some((size, _)) => Some((off, size))
  }

  function EntriesBehind(data: bytes, handle: bytes): seq<Entry> {
    match HandleOf(handle)
    case None => []
    case Some((off, size)) =>
      match BlockBodySpec(data, off, size)
      case None => []
      case Some(body) => EntriesOf(BlockPairsSpec(body))
  }

  function EntriesOfIndex(data: bytes, index: seq<Pair>): seq<Entry> {
    if index == [] then [] else EntriesBehind(data, index[0].value) + EntriesOfIndex(data, index[1..])
  }

  /** The index handle, behind the metaindex handle in the footer. */
  function FooterHandle(footer: bytes): Option<(nat, nat)> {
    match ReadVarintSpec(footer, 0)
    case None => None
    case Some((_, p1)) =>
      match ReadVarintSpec(footer, p1)
      case None => None
      case Some((_, p2)) =>
        match ReadVarintSpec(footer, p2)
        case None => None
        case Some((off, p3)) =>
          match ReadVarintSpec(footer, p3)
          case None => None
          case Some((size, _)) => Some((off, size))
  }

  function TableEntriesSpec(data: bytes): seq<Entry> {
    if |data| < FOOTER_SIZE then []
    else
      var footer := data[|data| - FOOTER_SIZE..];
      if Le(footer[FOOTER_SIZE - 8..]) != MAGIC then []
      else
        match FooterHandle(footer)
        case None => []
        case Some((off, size)) =>
          match BlockBodySpec(data, off, size)
          case None => []
          case Some(body) => EntriesOfIndex(data, BlockPairsSpec(body))
  }

  // --- the reader's loops ---

  method BlockBody(data: bytes, offset: nat, size: nat) returns (r: Option<bytes>)
    ensures r == BlockBodySpec(data, offset, size)
  {
    hide Snappy.DecompressSpec;
    var raw := Slice(data, offset, size);
    if |raw| < size {
      return None;
    }
    var kind := Slice(data, offset + size, 1);
    if kind == [0] {
      return Some(raw);
    }
    if kind == [1] {
      r := Snappy.Decompress(raw);
      return;
    }
    return None;
  }

  lemma PairsStep(out: seq<Pair>, body: bytes, pos: nat, end: nat, prev: bytes)
    requires pos < end
    ensures out + PairsFrom(body, pos, end, prev) ==
      match PairAt(body, pos, prev)
      case None => out
      case Some((p, next)) => (out + [p]) + PairsFrom(body, next, end, p.key)
  {
    hide PairAt;
  }

  method BlockPairs(body: bytes) returns (out: seq<Pair>)
    ensures out == BlockPairsSpec(body)
  {
    hide ReadVarintSpec, Slice, Le, PairsFrom;
    out := [];
    if |body| < 4 {
      return;
    }
    var restarts := Le(body[|body| - 4..]);
    var end: int := |body| - 4 - restarts * 4;
    if end < 0 {
      return;
    }
    var pos: nat := 0;
    var prev: bytes := [];
    while pos < end
      invariant BlockPairsSpec(body) == out + PairsFrom(body, pos, end, prev)
      decreases end - pos
    {
      PairsStep(out, body, pos, end, prev);
      ghost var pair := PairAt(body, pos, prev);
      var shared := ReadVarint(body, pos);
      if shared.None? {
        return;
      }
      var unshared := ReadVarint(body, shared.value.1);
      if unshared.None? {
        return;
      }
      var vlen := ReadVarint(body, unshared.value.1);
      if vlen.None? {
        return;
      }
      pos := vlen.value.1;
      if shared.value.0 > |prev| {
        return;
      }
      var key := prev[..shared.value.0] + Slice(body, pos, unshared.value.0);
      pos := pos + unshared.value.0;
      var value := Slice(body, pos, vlen.value.0);
      pos := pos + vlen.value.0;
      if |key| < shared.value.0 + unshared.value.0 || |value| < vlen.value.0 {
        return;
      }
      assert pair == Some((Pair(key, value), pos));
      prev := key;
      out := out + [Pair(key, value)];
    }
    NoPairsLeft(body, pos, end, prev);
  }

  lemma NoPairsLeft(body: bytes, pos: nat, end: nat, prev: bytes)
    requires pos >= end
    ensures PairsFrom(body, pos, end, prev) == []
  {
  }

  lemma EntriesOfStep(out: seq<Entry>, pairs: seq<Pair>, i: nat)
    requires i <= |pairs|
    ensures i < |pairs| ==>
      out + EntriesOf(pairs[i..]) == (out + EntryOf(pairs[i])) + EntriesOf(pairs[i + 1..])
    ensures i == |pairs| ==> out + EntriesOf(pairs[i..]) == out
  {
    hide EntryOf;
    if i < |pairs| {
      assert pairs[i..][1..] == pairs[i + 1..];
    }
  }

  method DecodeEntries(pairs: seq<Pair>) returns (out: seq<Entry>)
    ensures out == EntriesOf(pairs)
  {
    hide EntriesOf;
    out := [];
    assert pairs[0..] == pairs;
    for i := 0 to |pairs|
      invariant EntriesOf(pairs) == out + EntriesOf(pairs[i..])
    {
      EntriesOfStep(out, pairs, i);
      assert out + [] == out;
      var key, value := pairs[i].key, pairs[i].value;
      if |key| < 8 {
        continue;
      }
      if key[|key| - 8] == 1 {
        out := out + [Put(key[..|key| - 8], value)];
      } else {
        out := out + [Del(key[..|key| - 8])];
      }
    }
    EntriesOfStep(out, pairs, |pairs|);
  }

  lemma IndexStep(out: seq<Entry>, data: bytes, index: seq<Pair>, i: nat)
    requires i < |index|
    ensures out + EntriesOfIndex(data, index[i..]) ==
      (out + EntriesBehind(data, index[i].value)) + EntriesOfIndex(data, index[i + 1..])
  {
    hide EntriesBehind;
    assert index[i..][1..] == index[i + 1..];
  }

  lemma NoIndexLeft(data: bytes)
    ensures EntriesOfIndex(data, []) == []
  {
  }

  /** One turn of the walk: an unreadable handle or block adds nothing. */
  method BlockEntries(data: bytes, handle: bytes) returns (out: seq<Entry>)
    ensures out == EntriesBehind(data, handle)
  {
    hide ReadVarintSpec, BlockBodySpec, BlockPairsSpec, EntriesOf;
    var off := ReadVarint(handle, 0);
    if off.None? {
      return [];
    }
    var size := ReadVarint(handle, off.value.1);
    if size.None? {
      return [];
    }
    var body := BlockBody(data, off.value.0, size.value.0);
    if body.None? {
      return [];
    }
    var pairs := BlockPairs(body.value);
    out := DecodeEntries(pairs);
  }

  method WalkIndex(data: bytes, index: seq<Pair>) returns (out: seq<Entry>)
    ensures out == EntriesOfIndex(data, index)
  {
    NoIndexLeft(data);
    hide EntriesOfIndex, EntriesBehind;
    out := [];
    assert index[0..] == index;
    for i := 0 to |index|
      invariant EntriesOfIndex(data, index) == out + EntriesOfIndex(data, index[i..])
    {
      IndexStep(out, data, index, i);
      var entries := BlockEntries(data, index[i].value);
      out := out + entries;
    }
    assert index[|index|..] == [];
  }

  method TableEntries(data: bytes) returns (out: seq<Entry>)
    ensures out == TableEntriesSpec(data)
  {
    hide ReadVarintSpec, BlockBodySpec, BlockPairsSpec, EntriesOfIndex, Le;
    if |data| < FOOTER_SIZE {
      return [];
    }
    var footer := data[|data| - FOOTER_SIZE..];
    if Le(footer[FOOTER_SIZE - 8..]) != MAGIC {
      return [];
    }
    var metaOff := ReadVarint(footer, 0);
    if metaOff.None? {
      return [];
    }
    var metaSize := ReadVarint(footer, metaOff.value.1);
    if metaSize.None? {
      return [];
    }
    var indexOff := ReadVarint(footer, metaSize.value.1);
    if indexOff.None? {
      return [];
    }
    var indexSize := ReadVarint(footer, indexOff.value.1);
    if indexSize.None? {
      return [];
    }
    var body := BlockBody(data, indexOff.value.0, indexSize.value.0);
    if body.None? {
      return [];
    }
    var index := BlockPairs(body.value);
    out := WalkIndex(data, index);
  }

  // --- what any table means ---

  /** The bytes from `pos` to `next` spell the pair behind a pair with key `prev`: how
      much of that key it begins with, and how long the rest and the value are, then the
      rest and the value, all of it there. */
  ghost predicate SpelledPair(body: bytes, pos: nat, next: nat, prev: bytes, p: Pair) {
    exists p1: nat, p2: nat, at: nat, shared: nat :: SpelledBy(body, pos, p1, p2, at, next, shared, prev, p)
  }

  ghost predicate SpelledBy(body: bytes, pos: nat, p1: nat, p2: nat, at: nat, next: nat, shared: nat, prev: bytes, p: Pair) {
    && shared <= |prev| && shared <= |p.key|
    && SpellsNumber(body, pos, p1, shared) && SpellsNumber(body, p1, p2, |p.key| - shared)
    && SpellsNumber(body, p2, at, |p.value|) && next == at + |p.key| - shared + |p.value| <= |body|
    && p.key == prev[..shared] + body[at..at + |p.key| - shared] && p.value == body[next - |p.value|..next]
  }

  /** The pairs spelled one behind the other, to `end` or to where none is. */
  ghost predicate SpelledPairs(body: bytes, pos: nat, end: nat, prev: bytes, ps: seq<Pair>)
    decreases |ps|
  {
    if ps == [] then pos >= end || forall p, next: nat :: !SpelledPair(body, pos, next, prev, p)
    else
      pos < end && exists next: nat ::
        SpelledPair(body, pos, next, prev, ps[0]) && SpelledPairs(body, next, end, ps[0].key, ps[1..])
  }

  lemma PairSpelled(body: bytes, pos: nat, prev: bytes)
    requires PairAt(body, pos, prev).Some?
    ensures SpelledPair(body, pos, PairAt(body, pos, prev).value.1, prev, PairAt(body, pos, prev).value.0)
  {
    hide ReadVarintSpec, SpellsNumber;
    var (shared, p1) := ReadVarintSpec(body, pos).value;
    var (unshared, p2) := ReadVarintSpec(body, p1).value;
    var (vlen, at) := ReadVarintSpec(body, p2).value;
    ReadVarintExact(body, pos, shared, p1);
    ReadVarintExact(body, p1, unshared, p2);
    ReadVarintExact(body, p2, vlen, at);
    var (p, next) := PairAt(body, pos, prev).value;
    assert |p.key| - shared == unshared && |p.value| == vlen && next == at + unshared + vlen;
    assert SpelledBy(body, pos, p1, p2, at, next, shared, prev, p);
  }

  lemma SpelledPairRead(body: bytes, pos: nat, next: nat, prev: bytes, p: Pair)
    requires SpelledPair(body, pos, next, prev, p)
    ensures PairAt(body, pos, prev) == Some((p, next))
  {
    hide PairAt, SpelledBy;
    var p1: nat, p2: nat, at: nat, shared: nat :| SpelledBy(body, pos, p1, p2, at, next, shared, prev, p);
    SpelledByRead(body, pos, p1, p2, at, next, shared, prev, p);
  }

  lemma SpelledByRead(body: bytes, pos: nat, p1: nat, p2: nat, at: nat, next: nat, shared: nat, prev: bytes, p: Pair)
    requires SpelledBy(body, pos, p1, p2, at, next, shared, prev, p)
    ensures PairAt(body, pos, prev) == Some((p, next))
  {
    hide PairAt, SpellsNumber;
    LengthsRead(body, pos, p1, p2, at, shared, |p.key| - shared, |p.value|);
    PairTaken(body, pos, prev, at, shared, |p.key| - shared, |p.value|);
  }

  lemma LengthsRead(body: bytes, pos: nat, p1: nat, p2: nat, at: nat, shared: nat, unshared: nat, vlen: nat)
    requires SpellsNumber(body, pos, p1, shared) && SpellsNumber(body, p1, p2, unshared) && SpellsNumber(body, p2, at, vlen)
    ensures Lengths(body, pos) == Some((shared, unshared, vlen, at))
  {
    hide ReadVarintSpec, SpellsNumber;
    ReadVarintExact(body, pos, shared, p1);
    ReadVarintExact(body, p1, unshared, p2);
    ReadVarintExact(body, p2, vlen, at);
  }

  lemma PairTaken(body: bytes, pos: nat, prev: bytes, at: nat, shared: nat, unshared: nat, vlen: nat)
    requires Lengths(body, pos) == Some((shared, unshared, vlen, at))
    requires shared <= |prev| && at + unshared + vlen <= |body|
    ensures var next := at + unshared + vlen;
      PairAt(body, pos, prev) == Some((Pair(prev[..shared] + body[at..at + unshared], body[next - vlen..next]), next))
  {
    hide Lengths;
    assert Slice(body, at, unshared) == body[at..at + unshared];
    assert Slice(body, at + unshared, vlen) == body[at + unshared..at + unshared + vlen];
  }

  lemma {:induction false} PairsExact(body: bytes, pos: nat, end: nat, prev: bytes, ps: seq<Pair>)
    ensures PairsFrom(body, pos, end, prev) == ps <==> SpelledPairs(body, pos, end, prev, ps)
    decreases |ps|
  {
    hide PairAt, SpelledPair;
    if pos < end {
      var r := PairAt(body, pos, prev);
      if r.Some? { PairSpelled(body, pos, prev); }
      forall p, next: nat | SpelledPair(body, pos, next, prev, p)
        ensures r == Some((p, next))
      {
        SpelledPairRead(body, pos, next, prev, p);
      }
      if ps != [] && r.Some? {
        PairsExact(body, r.value.1, end, r.value.0.key, ps[1..]);
        assert ps == [ps[0]] + ps[1..];
        assert ([r.value.0] + PairsFrom(body, r.value.1, end, r.value.0.key))[1..] == PairsFrom(body, r.value.1, end, r.value.0.key);
      }
    }
  }

  /** Of any block exactly the pairs come out that are spelled one behind the other up to
      the restart array or to the first place where none is; of one too short for its
      restart array, nothing. */
  lemma BlockPairsExact(body: bytes, ps: seq<Pair>)
    ensures BlockPairsSpec(body) == ps <==>
      if |body| < 4 || |body| < 4 + 4 * Le(body[|body| - 4..]) then ps == []
      else SpelledPairs(body, 0, |body| - 4 - 4 * Le(body[|body| - 4..]), [], ps)
  {
    hide PairsFrom, SpelledPairs, Le;
    if |body| >= 4 && |body| >= 4 + 4 * Le(body[|body| - 4..]) {
      PairsExact(body, 0, |body| - 4 - 4 * Le(body[|body| - 4..]), [], ps);
    }
  }

  /** A block is there, as it is or compressed, with its type byte behind it. */
  ghost predicate BlockAt(data: bytes, off: nat, size: nat, body: bytes) {
    && off + size < |data|
    && (data[off + size] == 0 || data[off + size] == 1)
    && (data[off + size] == 0 ==> body == data[off..off + size])
    && (data[off + size] == 1 ==> Snappy.DecompressSpec(data[off..off + size]) == Some(body))
  }

  lemma BlockExact(data: bytes, off: nat, size: nat, body: bytes)
    ensures BlockBodySpec(data, off, size) == Some(body) <==> BlockAt(data, off, size, body)
  {
    hide Snappy.DecompressSpec;
    if off + size <= |data| {
      assert Slice(data, off, size) == data[off..off + size];
    }
  }

  /** An offset and a size, spelled one behind the other. */
  ghost predicate HandleAt(buf: bytes, pos: nat, off: nat, size: nat) {
    exists p1: nat, p2: nat :: SpellsNumber(buf, pos, p1, off) && SpellsNumber(buf, p1, p2, size)
  }

  lemma HandleExact(handle: bytes, off: nat, size: nat)
    ensures HandleOf(handle) == Some((off, size)) <==> HandleAt(handle, 0, off, size)
  {
    hide ReadVarintSpec, SpellsNumber;
    TwoNumbers(handle, 0);
  }

  lemma TwoNumbers(buf: bytes, pos: nat)
    ensures forall a: nat, b: nat, p1: nat, p2: nat ::
      SpellsNumber(buf, pos, p1, a) && SpellsNumber(buf, p1, p2, b) <==>
      ReadVarintSpec(buf, pos) == Some((a, p1)) && ReadVarintSpec(buf, p1) == Some((b, p2))
  {
    hide ReadVarintSpec, SpellsNumber;
    forall a: nat, b: nat, p1: nat, p2: nat
      ensures SpellsNumber(buf, pos, p1, a) && SpellsNumber(buf, p1, p2, b) <==>
        ReadVarintSpec(buf, pos) == Some((a, p1)) && ReadVarintSpec(buf, p1) == Some((b, p2))
    {
      ReadVarintExact(buf, pos, a, p1);
      ReadVarintExact(buf, p1, b, p2);
    }
  }

  /** The second of the two handles a footer starts with. */
  ghost predicate IndexHandle(footer: bytes, off: nat, size: nat) {
    exists p1: nat, p2: nat, a: nat, b: nat ::
      SpellsNumber(footer, 0, p1, a) && SpellsNumber(footer, p1, p2, b) && HandleAt(footer, p2, off, size)
  }

  lemma FooterExact(footer: bytes, off: nat, size: nat)
    ensures FooterHandle(footer) == Some((off, size)) <==> IndexHandle(footer, off, size)
  {
    hide ReadVarintSpec, SpellsNumber;
    TwoNumbers(footer, 0);
    if IndexHandle(footer, off, size) {
      var p1: nat, p2: nat, a: nat, b: nat :|
        SpellsNumber(footer, 0, p1, a) && SpellsNumber(footer, p1, p2, b) && HandleAt(footer, p2, off, size);
      TwoNumbers(footer, p2);
    }
    if FooterHandle(footer) == Some((off, size)) {
      var (a, p1) := ReadVarintSpec(footer, 0).value;
      var (b, p2) := ReadVarintSpec(footer, p1).value;
      var (_, p3) := ReadVarintSpec(footer, p2).value;
      var (_, p4) := ReadVarintSpec(footer, p3).value;
      TwoNumbers(footer, p2);
      assert SpellsNumber(footer, p2, p3, off) && SpellsNumber(footer, p3, p4, size);
      assert HandleAt(footer, p2, off, size);
    }
  }

  /** What a pair of a data block says: nothing under a key with no room for the
      eight-byte trailer, else a put where the trailer begins with 1 and a deletion of
      the key before it where it does not. */
  ghost predicate Says(p: Pair, es: seq<Entry>) {
    if |p.key| < 8 then es == []
    else
      && |es| == 1 && es[0].key == p.key[..|p.key| - 8]
      && (es[0].Put? <==> p.key[|p.key| - 8] == 1) && (es[0].Put? ==> es[0].value == p.value)
  }

  /** What the pairs of a block say, one behind the other. */
  ghost predicate AllSay(ps: seq<Pair>, es: seq<Entry>)
    decreases |ps|
  {
    if ps == [] then es == []
    else exists n: nat :: n <= |es| && Says(ps[0], es[..n]) && AllSay(ps[1..], es[n..])
  }

  /** What an index entry says: what its handle's block says, or nothing where the handle
      or the block cannot be read. */
  ghost predicate Behind(data: bytes, handle: bytes, es: seq<Entry>) {
    if exists body :: Reaches(data, handle, body) then
      exists body :: Reaches(data, handle, body) && AllSay(BlockPairsSpec(body), es)
    else es == []
  }

  ghost predicate Reaches(data: bytes, handle: bytes, body: bytes) {
    exists off: nat, size: nat :: HandleAt(handle, 0, off, size) && BlockAt(data, off, size, body)
  }

  lemma ReachesExact(data: bytes, handle: bytes, body: bytes)
    ensures Reaches(data, handle, body) <==>
      HandleOf(handle).Some? && BlockBodySpec(data, HandleOf(handle).value.0, HandleOf(handle).value.1) == Some(body)
  {
    hide HandleOf, BlockBodySpec, BlockAt, HandleAt;
    forall off: nat, size: nat
      ensures HandleAt(handle, 0, off, size) <==> HandleOf(handle) == Some((off, size))
      ensures BlockAt(data, off, size, body) <==> BlockBodySpec(data, off, size) == Some(body)
    {
      HandleExact(handle, off, size);
      BlockExact(data, off, size, body);
    }
  }

  lemma {:induction false} EntriesOfSay(ps: seq<Pair>, es: seq<Entry>)
    ensures EntriesOf(ps) == es <==> AllSay(ps, es)
    decreases |ps|
  {
    if ps != [] {
      hide EntryOf, Says;
      var first := EntryOf(ps[0]);
      forall e
        ensures Says(ps[0], e) <==> e == first
      {
        SaysIs(ps[0], e);
      }
      var n := |first|;
      if n <= |es| {
        EntriesOfSay(ps[1..], es[n..]);
        assert es == es[..n] + es[n..];
      }
      if EntriesOf(ps) == es {
        assert es[..n] == first && es[n..] == EntriesOf(ps[1..]);
      }
    }
  }

  lemma SaysIs(p: Pair, e: seq<Entry>)
    ensures Says(p, e) <==> e == EntryOf(p)
  {
    if |e| == 1 { assert e == [e[0]]; }
  }

  lemma BehindExact(data: bytes, handle: bytes, es: seq<Entry>)
    ensures EntriesBehind(data, handle) == es <==> Behind(data, handle, es)
  {
    hide HandleOf, BlockBodySpec, BlockPairsSpec, EntriesOf, AllSay, Reaches;
    forall body
      ensures Reaches(data, handle, body) <==>
        HandleOf(handle).Some? && BlockBodySpec(data, HandleOf(handle).value.0, HandleOf(handle).value.1) == Some(body)
      ensures EntriesOf(BlockPairsSpec(body)) == es <==> AllSay(BlockPairsSpec(body), es)
    {
      ReachesExact(data, handle, body);
      EntriesOfSay(BlockPairsSpec(body), es);
    }
  }

  /** What the entries of an index say, one behind the other. */
  ghost predicate AllBehind(data: bytes, index: seq<Pair>, es: seq<Entry>)
    decreases |index|
  {
    if index == [] then es == []
    else exists n: nat :: n <= |es| && Behind(data, index[0].value, es[..n]) && AllBehind(data, index[1..], es[n..])
  }

  lemma SplitsAs(es: seq<Entry>, first: seq<Entry>, rest: seq<Entry>)
    ensures es == first + rest <==> |first| <= |es| && es[..|first|] == first && es[|first|..] == rest
  {
    if |first| <= |es| {
      assert es == es[..|first|] + es[|first|..];
    }
  }

  lemma {:induction false} IndexExact(data: bytes, index: seq<Pair>, es: seq<Entry>)
    ensures EntriesOfIndex(data, index) == es <==> AllBehind(data, index, es)
    decreases |index|
  {
    hide EntriesBehind, Behind;
    if index != [] {
      var first := EntriesBehind(data, index[0].value);
      var n := |first|;
      SplitsAs(es, first, EntriesOfIndex(data, index[1..]));
      if n <= |es| {
        IndexExact(data, index[1..], es[n..]);
        BehindExact(data, index[0].value, es[..n]);
      }
      if AllBehind(data, index, es) {
        var k: nat :| k <= |es| && Behind(data, index[0].value, es[..k]) && AllBehind(data, index[1..], es[k..]);
        BehindExact(data, index[0].value, es[..k]);
        assert k == n;
      }
    }
  }

  lemma {:induction false} LeInjective(a: bytes, b: bytes)
    requires |a| == |b| && Le(a) == Le(b)
    ensures a == b
  {
    if a != [] {
      LeInjective(a[1..], b[1..]);
      assert a == [a[0]] + a[1..] && b == [b[0]] + b[1..];
    }
  }

  const MAGIC_BYTES: bytes := [0x57, 0xfb, 0x80, 0x8b, 0x24, 0x75, 0x47, 0xdb]

  lemma MagicIs(tail: bytes)
    requires |tail| == 8
    ensures Le(tail) == MAGIC <==> tail == MAGIC_BYTES
  {
    assert Le(MAGIC_BYTES) == MAGIC by {
      var m := MAGIC_BYTES;
      assert Le(m[1..][1..][1..][1..][1..][1..][1..][1..]) == 0;
      assert Le(m[1..][1..][1..][1..][1..][1..][1..]) == 0xdb;
      assert Le(m[1..][1..][1..][1..][1..][1..]) == 0xdb47;
      assert Le(m[1..][1..][1..][1..][1..]) == 0xdb4775;
      assert Le(m[1..][1..][1..][1..]) == 0xdb477524;
      assert Le(m[1..][1..][1..]) == 0xdb4775248b;
      assert Le(m[1..][1..]) == 0xdb4775248b80;
      assert Le(m[1..]) == 0xdb4775248b80fb;
    }
    if Le(tail) == MAGIC { LeInjective(tail, MAGIC_BYTES); }
  }

  /** The index block is the one behind the footer's second handle. */
  ghost predicate Index(data: bytes, body: bytes) {
    && |data| >= 48 && data[|data| - 8..] == MAGIC_BYTES
    && exists off: nat, size: nat :: IndexHandle(data[|data| - 48..], off, size) && BlockAt(data, off, size, body)
  }

  /** What a table says is what the blocks behind its index say, in that order; a file
      without the magic number, the handles or the index block says nothing. */
  lemma TableExact(data: bytes, es: seq<Entry>)
    ensures TableEntriesSpec(data) == es <==>
      if exists body :: Index(data, body)
      then exists body :: Index(data, body) && AllBehind(data, BlockPairsSpec(body), es)
      else es == []
  {
    hide FooterHandle, BlockBodySpec, BlockPairsSpec, EntriesOfIndex, AllBehind, IndexHandle, BlockAt, Le;
    forall body
      ensures EntriesOfIndex(data, BlockPairsSpec(body)) == es <==> AllBehind(data, BlockPairsSpec(body), es)
    {
      IndexExact(data, BlockPairsSpec(body), es);
    }
    forall body
      ensures Index(data, body) <==> IndexBody(data) == Some(body)
    {
      IndexIs(data, body);
    }
    assert TableEntriesSpec(data) ==
      if IndexBody(data).Some? then EntriesOfIndex(data, BlockPairsSpec(IndexBody(data).value)) else [];
  }

  ghost function IndexBody(data: bytes): Option<bytes> {
    if |data| < FOOTER_SIZE || Le(data[|data| - FOOTER_SIZE..][FOOTER_SIZE - 8..]) != MAGIC then None
    else
      match FooterHandle(data[|data| - FOOTER_SIZE..])
      case None => None
      case Some((off, size)) => BlockBodySpec(data, off, size)
  }

  lemma IndexIs(data: bytes, body: bytes)
    ensures Index(data, body) <==> IndexBody(data) == Some(body)
  {
    hide FooterHandle, BlockBodySpec, IndexHandle, BlockAt, Le;
    if |data| >= 48 {
      var footer := data[|data| - 48..];
      assert footer[40..] == data[|data| - 8..];
      MagicIs(data[|data| - 8..]);
      forall off: nat, size: nat
        ensures IndexHandle(footer, off, size) <==> FooterHandle(footer) == Some((off, size))
        ensures BlockAt(data, off, size, body) <==> BlockBodySpec(data, off, size) == Some(body)
      {
        FooterExact(footer, off, size);
        BlockExact(data, off, size, body);
      }
    }
  }

  // --- what a writer lays out ---

  /** A pair and how much of its key is left to the key before it. */
  datatype Line = Line(pair: Pair, shared: nat)

  ghost predicate Shares(prev: bytes, l: Line) {
    && l.shared <= |prev| && l.shared <= |l.pair.key|
    && prev[..l.shared] == l.pair.key[..l.shared]
    && |l.pair.key| < VARINT_LIMIT && |l.pair.value| < VARINT_LIMIT
  }

  ghost predicate Writable(prev: bytes, lines: seq<Line>)
    decreases |lines|
  {
    lines == [] || (Shares(prev, lines[0]) && Writable(lines[0].pair.key, lines[1..]))
  }

  function EncodeLine(l: Line): bytes
    requires l.shared <= |l.pair.key|
  {
    Varint(l.shared) + (Varint(|l.pair.key| - l.shared) + (Varint(|l.pair.value|) +
      (l.pair.key[l.shared..] + l.pair.value)))
  }

  ghost function EncodeLines(prev: bytes, lines: seq<Line>): bytes
    requires Writable(prev, lines)
    decreases |lines|
  {
    if lines == [] then [] else EncodeLine(lines[0]) + EncodeLines(lines[0].pair.key, lines[1..])
  }

  function PairsOf(lines: seq<Line>): seq<Pair> {
    if lines == [] then [] else [lines[0].pair] + PairsOf(lines[1..])
  }

  /** A block: its lines and its restart array, wherever the restarts point. */
  datatype Block = Block(lines: seq<Line>, restarts: bytes)

  ghost predicate Sound(b: Block) {
    && Writable([], b.lines)
    && |b.restarts| % 4 == 0 && |b.restarts| / 4 < Pow256(4)
  }

  ghost function Body(b: Block): bytes
    requires Sound(b)
  {
    EncodeLines([], b.lines) + b.restarts + ToLe(|b.restarts| / 4, 4)
  }

  lemma LengthsInvert(body: bytes, pos: nat, a: nat, b: nat, c: nat, rest: bytes)
    requires At(body, pos, Varint(a) + (Varint(b) + (Varint(c) + rest)))
    requires a < VARINT_LIMIT && b < VARINT_LIMIT && c < VARINT_LIMIT
    ensures var at := pos + |Varint(a)| + |Varint(b)| + |Varint(c)|;
      Lengths(body, pos) == Some((a, b, c, at)) && At(body, at, rest)
  {
    hide At, Varint, ReadVarintSpec;
    AtSplit(body, pos, Varint(a), Varint(b) + (Varint(c) + rest));
    AtSplit(body, pos + |Varint(a)|, Varint(b), Varint(c) + rest);
    AtSplit(body, pos + |Varint(a)| + |Varint(b)|, Varint(c), rest);
    ReadVarintInverts(body, pos, a);
    ReadVarintInverts(body, pos + |Varint(a)|, b);
    ReadVarintInverts(body, pos + |Varint(a)| + |Varint(b)|, c);
  }

  lemma LineInverts(body: bytes, pos: nat, prev: bytes, l: Line)
    requires Shares(prev, l) && At(body, pos, EncodeLine(l))
    ensures PairAt(body, pos, prev) == Some((l.pair, pos + |EncodeLine(l)|))
  {
    hide At, Varint, Lengths, Slice;
    var own := l.pair.key[l.shared..];
    LengthsInvert(body, pos, l.shared, |own|, |l.pair.value|, own + l.pair.value);
    var at := Lengths(body, pos).value.3;
    AtSplit(body, at, own, l.pair.value);
    AtSlice(body, at, own);
    AtSlice(body, at + |own|, l.pair.value);
    assert l.pair.key == l.pair.key[..l.shared] + own;
  }

  lemma {:induction false} LinesInvert(body: bytes, pos: nat, end: nat, prev: bytes, lines: seq<Line>)
    requires Writable(prev, lines) && At(body, pos, EncodeLines(prev, lines))
    requires end == pos + |EncodeLines(prev, lines)|
    ensures PairsFrom(body, pos, end, prev) == PairsOf(lines)
    decreases |lines|
  {
    hide At, EncodeLine, PairAt, Shares;
    if lines != [] {
      var l := lines[0];
      SharesFits(prev, l);
      var next := pos + |EncodeLine(l)|;
      AtSplit(body, pos, EncodeLine(l), EncodeLines(l.pair.key, lines[1..]));
      LineInverts(body, pos, prev, l);
      PairsStep([], body, pos, end, prev);
      LinesInvert(body, next, end, l.pair.key, lines[1..]);
    }
  }

  lemma SharesFits(prev: bytes, l: Line)
    requires Shares(prev, l)
    ensures l.shared <= |l.pair.key|
  {
  }

  /** A block gives back its pairs, whatever was shared and wherever it restarts. */
  lemma BlockRoundTrip(b: Block)
    requires Sound(b)
    ensures BlockPairsSpec(Body(b)) == PairsOf(b.lines)
  {
    hide EncodeLines, PairsFrom, Le, ToLe, Pow256, Writable;
    var lines := EncodeLines([], b.lines);
    var count := ToLe(|b.restarts| / 4, 4);
    var body := Body(b);
    assert body[|body| - 4..] == count;
    LeInvertsToLe(|b.restarts| / 4, 4);
    assert body == [] + lines + (b.restarts + count);
    AtWhole([], lines, b.restarts + count);
    LinesInvert(body, 0, |lines|, [], b.lines);
  }

  // --- internal keys ---

  /** An entry as a data block holds it: the user key, then eight bytes of which
      the first tells a put (1) from a delete (0) and the rest are a stamp. */
  datatype Row = Row(entry: Entry, stamp: bytes, shared: nat)

  function InternalPair(r: Row): Pair {
    match r.entry
    case Put(key, value) => Pair(key + [1] + r.stamp, value)
    case Del(key) => Pair(key + [0] + r.stamp, [])
  }

  function LinesOf(rows: seq<Row>): seq<Line> {
    if rows == [] then [] else [Line(InternalPair(rows[0]), rows[0].shared)] + LinesOf(rows[1..])
  }

  function EntriesIn(rows: seq<Row>): seq<Entry> {
    if rows == [] then [] else [rows[0].entry] + EntriesIn(rows[1..])
  }

  lemma {:induction false} RowsInvert(rows: seq<Row>)
    requires forall i :: 0 <= i < |rows| ==> |rows[i].stamp| == 7
    ensures EntriesOf(PairsOf(LinesOf(rows))) == EntriesIn(rows)
  {
    if rows != [] {
      RowInverts(rows[0]);
      hide InternalPair, EntryOf;
      var l := Line(InternalPair(rows[0]), rows[0].shared);
      assert LinesOf(rows)[1..] == LinesOf(rows[1..]);
      assert PairsOf(LinesOf(rows))[1..] == PairsOf(LinesOf(rows[1..]));
      RowsInvert(rows[1..]);
    }
  }

  lemma RowInverts(r: Row)
    requires |r.stamp| == 7
    ensures EntryOf(InternalPair(r)) == [r.entry]
  {
    var key := InternalPair(r).key;
    assert key[..|key| - 8] == r.entry.key;
  }

  // --- a whole table ---

  datatype Packing = Raw | Compressed(es: seq<Snappy.Element>)

  ghost predicate Packs(p: Packing, body: bytes) {
    p.Compressed? ==>
      |body| < VARINT_LIMIT && Snappy.WellFormed([], p.es) && Snappy.Denote([], p.es) == body
  }

  function Pack(p: Packing, body: bytes): bytes {
    if p.Raw? then body else Varint(|body|) + Snappy.EncodeAll(p.es)
  }

  /** A block on disk: its bytes, how they are stored, and four unread bytes. */
  function Stored(p: Packing, body: bytes, checksum: bytes): bytes {
    Pack(p, body) + ([if p.Raw? then 0 else 1] + checksum)
  }

  lemma StoredInverts(data: bytes, off: nat, p: Packing, body: bytes, checksum: bytes)
    requires Packs(p, body) && At(data, off, Stored(p, body, checksum))
    ensures BlockBodySpec(data, off, |Pack(p, body)|) == Some(body)
  {
    hide At, Snappy.DecompressSpec, Pack;
    var raw := Pack(p, body);
    AtSplit(data, off, raw, [if p.Raw? then 0 else 1] + checksum);
    AtSlice(data, off, raw);
    AtHead(data, off + |raw|, [if p.Raw? then 0 else 1] + checksum);
    PackInverts(p, body);
  }

  lemma PackInverts(p: Packing, body: bytes)
    requires Packs(p, body)
    ensures p.Raw? ==> Pack(p, body) == body
    ensures p.Compressed? ==> Snappy.DecompressSpec(Pack(p, body)) == Some(body)
  {
    hide Snappy.DecompressSpec, Snappy.WellFormed, Snappy.Denote, Snappy.EncodeAll, Varint;
    if p.Compressed? {
      Snappy.DecompressInverts(p.es, []);
      assert Pack(p, body) + [] == Pack(p, body);
    }
  }

  /** One data block of a table: its rows, restarts, storage and checksum. */
  datatype Piece = Piece(rows: seq<Row>, restarts: bytes, packing: Packing, checksum: bytes)

  function BlockOf(p: Piece): Block {
    Block(LinesOf(p.rows), p.restarts)
  }

  ghost predicate Fit(p: Piece) {
    && (forall i :: 0 <= i < |p.rows| ==> |p.rows[i].stamp| == 7)
    && Sound(BlockOf(p))
    && Packs(p.packing, Body(BlockOf(p)))
  }

  ghost function OnDisk(p: Piece): bytes
    requires Fit(p)
  {
    Stored(p.packing, Body(BlockOf(p)), p.checksum)
  }

  ghost predicate AllFit(pieces: seq<Piece>) {
    forall i :: 0 <= i < |pieces| ==> Fit(pieces[i])
  }

  ghost function DataBlocks(pieces: seq<Piece>): bytes
    requires AllFit(pieces)
  {
    if pieces == [] then [] else OnDisk(pieces[0]) + DataBlocks(pieces[1..])
  }

  function Handle(off: nat, size: nat): bytes {
    Varint(off) + Varint(size)
  }

  /** The index: under keys of any kind, the handles of the blocks in order. */
  ghost predicate Points(lines: seq<Line>, off: nat, pieces: seq<Piece>)
    requires AllFit(pieces)
    decreases |pieces|
  {
    |lines| == |pieces| &&
    (pieces == [] ||
      (&& lines[0].pair.value == Handle(off, |Pack(pieces[0].packing, Body(BlockOf(pieces[0])))|)
       && Points(lines[1..], off + |OnDisk(pieces[0])|, pieces[1..])))
  }

  function Footer(metaOff: nat, metaSize: nat, off: nat, size: nat, padding: bytes): bytes {
    Varint(metaOff) + (Varint(metaSize) + (Varint(off) + (Varint(size) + padding))) + ToLe(MAGIC, 8)
  }

  /** Everything a writer chooses: the blocks, the index over them and its
      storage, whatever lies between, and the rest of the footer. */
  datatype Layout = Layout(
    pieces: seq<Piece>,
    between: bytes,
    index: Block,
    indexPacking: Packing,
    indexChecksum: bytes,
    metaOff: nat,
    metaSize: nat,
    padding: bytes)

  ghost predicate Proper(t: Layout) {
    && AllFit(t.pieces)
    && Sound(t.index) && Packs(t.indexPacking, Body(t.index))
    && Points(t.index.lines, 0, t.pieces)
    && t.metaOff < VARINT_LIMIT && t.metaSize < VARINT_LIMIT
    && |TableFile(t)| < VARINT_LIMIT
    && |FooterOf(t)| == FOOTER_SIZE
  }

  ghost function IndexOff(t: Layout): nat
    requires AllFit(t.pieces)
  {
    |DataBlocks(t.pieces)| + |t.between|
  }

  ghost function FooterOf(t: Layout): bytes
    requires AllFit(t.pieces) && Sound(t.index)
  {
    Footer(t.metaOff, t.metaSize, IndexOff(t), |Pack(t.indexPacking, Body(t.index))|, t.padding)
  }

  ghost function TableFile(t: Layout): bytes
    requires AllFit(t.pieces) && Sound(t.index)
  {
    DataBlocks(t.pieces) + t.between + Stored(t.indexPacking, Body(t.index), t.indexChecksum) + FooterOf(t)
  }

  function AllEntries(pieces: seq<Piece>): seq<Entry> {
    if pieces == [] then [] else EntriesIn(pieces[0].rows) + AllEntries(pieces[1..])
  }

  lemma HandleInverts(off: nat, size: nat)
    requires off < VARINT_LIMIT && size < VARINT_LIMIT
    ensures HandleOf(Handle(off, size)) == Some((off, size))
  {
    hide Varint, ReadVarintSpec;
    var h := Handle(off, size);
    assert h == [] + Varint(off) + Varint(size) && h == Varint(off) + Varint(size) + [];
    AtWhole([], Varint(off), Varint(size));
    AtWhole(Varint(off), Varint(size), []);
    ReadVarintInverts(h, 0, off);
    ReadVarintInverts(h, |Varint(off)|, size);
  }

  lemma PieceInverts(data: bytes, off: nat, p: Piece)
    requires Fit(p) && At(data, off, OnDisk(p)) && |data| < VARINT_LIMIT
    ensures EntriesBehind(data, Handle(off, |Pack(p.packing, Body(BlockOf(p)))|)) == EntriesIn(p.rows)
  {
    hide HandleOf, BlockBodySpec, BlockPairsSpec, EntriesOf, Pack, Handle, Body, LinesOf, Sound, Packs;
    var body := Body(BlockOf(p));
    StoredInverts(data, off, p.packing, body, p.checksum);
    HandleInverts(off, |Pack(p.packing, body)|);
    BlockRoundTrip(BlockOf(p));
    RowsInvert(p.rows);
  }

  lemma {:induction false} IndexInverts(data: bytes, off: nat, lines: seq<Line>, pieces: seq<Piece>)
    requires AllFit(pieces) && Points(lines, off, pieces)
    requires At(data, off, DataBlocks(pieces)) && |data| < VARINT_LIMIT
    ensures EntriesOfIndex(data, PairsOf(lines)) == AllEntries(pieces)
    decreases |pieces|
  {
    hide At, OnDisk, Fit, EntriesBehind, Handle;
    if pieces != [] {
      AtSplit(data, off, OnDisk(pieces[0]), DataBlocks(pieces[1..]));
      PieceInverts(data, off, pieces[0]);
      assert PairsOf(lines)[1..] == PairsOf(lines[1..]);
      IndexInverts(data, off + |OnDisk(pieces[0])|, lines[1..], pieces[1..]);
    }
  }

  lemma FooterInverts(metaOff: nat, metaSize: nat, off: nat, size: nat, padding: bytes)
    requires metaOff < VARINT_LIMIT && metaSize < VARINT_LIMIT && off < VARINT_LIMIT && size < VARINT_LIMIT
    requires |Footer(metaOff, metaSize, off, size, padding)| == FOOTER_SIZE
    ensures var footer := Footer(metaOff, metaSize, off, size, padding);
      Le(footer[FOOTER_SIZE - 8..]) == MAGIC && FooterHandle(footer) == Some((off, size))
  {
    hide At, Varint, ReadVarintSpec, ToLe, Le, Pow256;
    var footer := Footer(metaOff, metaSize, off, size, padding);
    var magic := ToLe(MAGIC, 8);
    assert footer[FOOTER_SIZE - 8..] == magic;
    MagicFits();
    LeInvertsToLe(MAGIC, 8);
    var p3 := Varint(size) + padding;
    var p2 := Varint(off) + p3;
    var p1 := Varint(metaSize) + p2;
    assert footer == [] + (Varint(metaOff) + p1) + magic;
    AtWhole([], Varint(metaOff) + p1, magic);
    var at1 := |Varint(metaOff)|;
    var at2 := at1 + |Varint(metaSize)|;
    var at3 := at2 + |Varint(off)|;
    AtSplit(footer, 0, Varint(metaOff), p1);
    AtSplit(footer, at1, Varint(metaSize), p2);
    AtSplit(footer, at2, Varint(off), p3);
    AtSplit(footer, at3, Varint(size), padding);
    ReadVarintInverts(footer, 0, metaOff);
    ReadVarintInverts(footer, at1, metaSize);
    ReadVarintInverts(footer, at2, off);
    ReadVarintInverts(footer, at3, size);
  }

  lemma MagicFits()
    ensures MAGIC < Pow256(8)
  {
    assert Pow256(8) == 256 * 256 * Pow256(6) == 256 * 256 * 256 * 256 * Pow256(4);
    assert Pow256(4) == 256 * 256 * Pow256(2);
    assert Pow256(2) == 256 * 256;
  }

  /** Every entry of every block of every proper table, in order: through
      footer, index and handles, raw or compressed, shared or not. */
  lemma TableRoundTrip(t: Layout)
    requires Proper(t)
    ensures TableEntriesSpec(TableFile(t)) == AllEntries(t.pieces)
  {
    hide At, Body, Stored, Footer, FooterHandle, BlockBodySpec, BlockPairsSpec, EntriesOfIndex, DataBlocks,
      Points, Sound, Packs, Le, Pack, Fit;
    var data := TableFile(t);
    var blocks := DataBlocks(t.pieces);
    var body := Body(t.index);
    var index := Stored(t.indexPacking, body, t.indexChecksum);
    var footer := FooterOf(t);
    assert data[|data| - FOOTER_SIZE..] == footer;
    assert data == [] + blocks + (t.between + index + footer);
    AtWhole([], blocks, t.between + index + footer);
    assert data == (blocks + t.between) + index + footer;
    AtWhole(blocks + t.between, index, footer);
    StoredSize(t.indexPacking, body, t.indexChecksum);
    FooterInverts(t.metaOff, t.metaSize, IndexOff(t), |Pack(t.indexPacking, body)|, t.padding);
    StoredInverts(data, IndexOff(t), t.indexPacking, body, t.indexChecksum);
    BlockRoundTrip(t.index);
    IndexInverts(data, 0, t.index.lines, t.pieces);
  }

  lemma StoredSize(p: Packing, body: bytes, checksum: bytes)
    ensures |Stored(p, body, checksum)| > |Pack(p, body)|
  {
  }

  // --- any data blocks make a table ---

  /** Pointing at each block from an empty key. */
  ghost function IndexLines(off: nat, pieces: seq<Piece>): seq<Line>
    requires AllFit(pieces)
    decreases |pieces|
  {
    if pieces == [] then []
    else
      var handle := Handle(off, |Pack(pieces[0].packing, Body(BlockOf(pieces[0])))|);
      [Line(Pair([], handle), 0)] + IndexLines(off + |OnDisk(pieces[0])|, pieces[1..])
  }

  lemma {:induction false} VarintShort(n: nat, left: nat)
    requires 0 < left && n < Pow2(7 * left)
    ensures |Varint(n)| <= left
    decreases left
  {
    if n >= 128 {
      Pow2Seven(7 * (left - 1));
      if left == 1 {
        assert Pow2(7) == 128 * Pow2(0);
      }
      VarintShort(n / 128, left - 1);
    }
  }

  lemma HandleShort(off: nat, size: nat)
    requires off < VARINT_LIMIT && size < VARINT_LIMIT
    ensures |Varint(off)| <= 10 && |Varint(size)| <= 10 && |Handle(off, size)| < VARINT_LIMIT
  {
    VarintShort(off, 10);
    VarintShort(size, 10);
    Pow2Seven(63);
  }

  lemma OnDiskSize(p: Piece)
    requires Fit(p)
    ensures |OnDisk(p)| > |Pack(p.packing, Body(BlockOf(p)))|
  {
    hide Pack, Body, Sound;
    StoredSize(p.packing, Body(BlockOf(p)), p.checksum);
  }

  lemma {:induction false} IndexLinesPoint(off: nat, pieces: seq<Piece>, prev: bytes)
    requires AllFit(pieces) && off + |DataBlocks(pieces)| < VARINT_LIMIT
    ensures Points(IndexLines(off, pieces), off, pieces)
    ensures Writable(prev, IndexLines(off, pieces))
    decreases |pieces|
  {
    hide OnDisk, Pack, Body, Handle, Varint, Sound;
    if pieces != [] {
      var size := |Pack(pieces[0].packing, Body(BlockOf(pieces[0])))|;
      OnDiskSize(pieces[0]);
      HandleShort(off, size);
      IndexLinesPoint(off + |OnDisk(pieces[0])|, pieces[1..], []);
      var lines := IndexLines(off, pieces);
      assert lines[1..] == IndexLines(off + |OnDisk(pieces[0])|, pieces[1..]);
    }
  }

  ghost function LaidOut(pieces: seq<Piece>): Layout
    requires AllFit(pieces) && Sound(Block(IndexLines(0, pieces), []))
  {
    var index := Block(IndexLines(0, pieces), []);
    var used := |Varint(0)| + |Varint(0)| + |Varint(|DataBlocks(pieces)|)| + |Varint(|Body(index)|)|;
    Layout(pieces, [], index, Raw, [], 0, 0, if used <= 40 then seq(40 - used, _ => 0) else [])
  }

  /** Whatever its data blocks, and whatever rows, restarts, sharing and packing each
      has, a table of them can be written, so the round trip is about every one. */
  lemma EveryTableCanBeWritten(pieces: seq<Piece>)
    requires AllFit(pieces) && |DataBlocks(pieces)| < VARINT_LIMIT
    ensures Sound(Block(IndexLines(0, pieces), []))
    ensures |DataBlocks(pieces)| + |Body(Block(IndexLines(0, pieces), []))| + 49 < VARINT_LIMIT ==>
      Proper(LaidOut(pieces)) && TableEntriesSpec(TableFile(LaidOut(pieces))) == AllEntries(pieces)
  {
    IndexLinesPoint(0, pieces, []);
    hide Points, Writable, AllFit, DataBlocks, EncodeLines, TableEntriesSpec, Varint, ToLe, AllEntries;
    var index := Block(IndexLines(0, pieces), []);
    if |DataBlocks(pieces)| + |Body(index)| + 49 < VARINT_LIMIT {
      HandleShort(|DataBlocks(pieces)|, |Body(index)|);
      HandleShort(0, 0);
      var t := LaidOut(pieces);
      assert |FooterOf(t)| == FOOTER_SIZE;
      assert |Stored(Raw, Body(index), [])| == |Body(index)| + 1;
      assert Proper(t);
      TableRoundTrip(t);
    }
  }
}
