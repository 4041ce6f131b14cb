/** The write-ahead log: the fragment reassembler of pc/leveldb.py against the
    writer of the log format, over whole, truncated and damaged files. */
module Wal {
  import opened Bytes
  import Crc32c
  import opened Wrappers

  const BLOCK_SIZE: nat := 32768
  const HEADER_SIZE: nat := 7

  const FULL: byte := 1
  const FIRST: byte := 2
  const MIDDLE: byte := 3
  const LAST: byte := 4

  /** One physical record: the four stored checksum bytes, the kind, the body. */
  datatype Chunk = Chunk(kind: byte, body: bytes, stored: bytes)

  /** Whether a body, its kind and its stored checksum belong together. */
  type Guard = (byte, bytes, bytes) -> bool

  function CrcGuard(kind: byte, body: bytes, stored: bytes): bool {
    |stored| == 4 && Crc32c.Castagnoli([kind] + body) == Crc32c.Unmask(Crc32c.LoadCrc(stored))
  }

  // --- what the reader computes ---

  /** What one fragment completes, given what was pending; a bad one nothing. */
  function Emitted(g: Guard, c: Chunk, pending: Option<bytes>): seq<bytes> {
    if !g(c.kind, c.body, c.stored) then []
    else if c.kind == FULL then [c.body]
    else if c.kind == LAST && pending.Some? then [pending.value + c.body]
    else []
  }

  /** What is pending after it: a bad fragment takes the payload it was part of. */
  function Carried(g: Guard, c: Chunk, pending: Option<bytes>): Option<bytes> {
    if !g(c.kind, c.body, c.stored) then None
    else if c.kind == FIRST then Some(c.body)
    else if c.kind == MIDDLE && pending.Some? then Some(pending.value + c.body)
    else if c.kind == LAST && pending.Some? then None
    else pending
  }

  /** What stands at `pos`: no whole record, a full block, or a fragment. */
  datatype Head = Nothing | Trailer(next: nat) | Fragment(c: Chunk, next: nat)

  function HeadAt(data: bytes, pos: nat): (h: Head)
    ensures !h.Nothing? ==> pos + HEADER_SIZE <= |data| && pos < h.next
  {
    if pos + HEADER_SIZE > |data| then Nothing
    else if BLOCK_SIZE - pos % BLOCK_SIZE < HEADER_SIZE then Trailer(pos + (BLOCK_SIZE - pos % BLOCK_SIZE))
    else
      var length := Le(data[pos + 4..pos + 6]);
      var body := Slice(data, pos + HEADER_SIZE, length);
      if |body| < length then Nothing
      else Fragment(Chunk(data[pos + 6], body, data[pos..pos + 4]), pos + HEADER_SIZE + length)
  }

  /** The fragments a walk from `pos` meets. Kind 0 is stepped over before its
      checksum is looked at. */
  function Parse(data: bytes, pos: nat): seq<Chunk>
    decreases |data| - pos
  {
    match HeadAt(data, pos)
    case Nothing => []
    case Trailer(next) => Parse(data, next)
    case Fragment(c, next) => (if c.kind == 0 then [] else [c]) + Parse(data, next)
  }

  /** The fragments fed to the reassembler one by one. */
  function Assemble(g: Guard, chunks: seq<Chunk>, pending: Option<bytes>): seq<bytes> {
    if chunks == [] then []
    else Emitted(g, chunks[0], pending) + Assemble(g, chunks[1..], Carried(g, chunks[0], pending))
  }

  function Payloads(data: bytes): seq<bytes> {
    Assemble(CrcGuard, Parse(data, 0), None)
  }

  method Matches(kind: byte, body: bytes, stored: bytes, table: seq<bv32>) returns (ok: bool)
    requires Crc32c.IsTable(table) && |stored| == 4
    ensures ok == CrcGuard(kind, body, stored)
  {
    hide Crc32c.Castagnoli, Crc32c.LoadCrc, Crc32c.Unmask;
    var crc := Crc32c.Crc([kind] + body, table);
    return crc == Crc32c.Unmask(Crc32c.LoadCrc(stored));
  }

  /** The three ways a round of the loop can go, in the loop's own terms. */
  lemma ParseUnfolds(data: bytes, pos: nat)
    requires pos + HEADER_SIZE <= |data|
    ensures var left := BLOCK_SIZE - pos % BLOCK_SIZE;
      var length := Le(data[pos + 4..pos + 6]);
      var body := Slice(data, pos + HEADER_SIZE, length);
      var rest := Parse(data, pos + HEADER_SIZE + length);
      Parse(data, pos) ==
        if left < HEADER_SIZE then Parse(data, pos + left)
        else if |body| < length then []
        else if data[pos + 6] == 0 then rest
        else [Chunk(data[pos + 6], body, data[pos..pos + 4])] + rest
  {
    hide Le, Slice, HeadAt;
    HeadUnfolds(data, pos);
  }

  lemma HeadUnfolds(data: bytes, pos: nat)
    requires pos + HEADER_SIZE <= |data|
    ensures var left := BLOCK_SIZE - pos % BLOCK_SIZE;
      var length := Le(data[pos + 4..pos + 6]);
      var body := Slice(data, pos + HEADER_SIZE, length);
      HeadAt(data, pos) ==
        if left < HEADER_SIZE then Trailer(pos + left)
        else if |body| < length then Nothing
        else Fragment(Chunk(data[pos + 6], body, data[pos..pos + 4]), pos + HEADER_SIZE + length)
  {
    hide Le, Slice;
  }

  lemma AssembleStep(g: Guard, out: seq<bytes>, c: Chunk, rest: seq<Chunk>, pending: Option<bytes>)
    ensures out + Assemble(g, [c] + rest, pending) ==
      (out + Emitted(g, c, pending)) + Assemble(g, rest, Carried(g, c, pending))
  {
    assert ([c] + rest)[1..] == rest;
  }

  lemma PayloadsStart(data: bytes)
    ensures Payloads(data) == [] + Assemble(CrcGuard, Parse(data, 0), None)
  {
    hide CrcGuard, Assemble, Parse;
  }

  lemma AssembleNothing(g: Guard)
    ensures forall pending :: Assemble(g, [], pending) == []
  {
  }

  method WalPayloads(data: bytes, table: seq<bv32>) returns (out: seq<bytes>)
    requires Crc32c.IsTable(table)
    ensures out == Payloads(data)
  {
    hide CrcGuard, Assemble, Parse, Le, Slice, Payloads, HeadAt, Crc32c.IsTable;
    out := [];
    AssembleNothing(CrcGuard);
    PayloadsStart(data);
    var pos: nat := 0;
    var pending: bytes := [];
    var havePending := false;
    while pos + HEADER_SIZE <= |data|
      invariant Payloads(data) ==
        out + Assemble(CrcGuard, Parse(data, pos), if havePending then Some(pending) else None)
      decreases |data| - pos
    {
      ghost var pended := if havePending then Some(pending) else None;
      ParseUnfolds(data, pos);
      var inBlock := pos % BLOCK_SIZE;
      if BLOCK_SIZE - inBlock < HEADER_SIZE {
        pos := pos + (BLOCK_SIZE - inBlock);
        continue;
      }
      var stored := data[pos..pos + 4];
      var length := Le(data[pos + 4..pos + 6]);
      var kind := data[pos + 6];
      var body := Slice(data, pos + HEADER_SIZE, length);
      if |body| < length {
        return;
      }
      pos := pos + HEADER_SIZE + length;
      if kind == 0 {
        continue;
      }
      AssembleStep(CrcGuard, out, Chunk(kind, body, stored), Parse(data, pos), pended);
      assert out + [] == out;
      var matches := Matches(kind, body, stored, table);
      if !matches {
        pending := [];
        havePending := false;
        continue;
      }
      if kind == FULL {
        out := out + [body];
      } else if kind == FIRST {
        pending := body;
        havePending := true;
      } else if kind == MIDDLE && havePending {
        pending := pending + body;
      } else if kind == LAST && havePending {
        pending := pending + body;
        out := out + [pending];
        pending := [];
        havePending := false;
      }
    }
    ParseOfNothing(data, pos);
  }

  // --- what any file means, whoever wrote it ---

  /** A payload begun at `i` is still open before `k`: nothing since was bad, began
      another or ended one. Whole payloads and unknown kinds in between do not matter. */
  ghost predicate Open(g: Guard, chunks: seq<Chunk>, i: int, k: int) {
    && 0 <= i < k <= |chunks| && g(chunks[i].kind, chunks[i].body, chunks[i].stored) && chunks[i].kind == 2
    && forall j :: i < j < k ==>
         g(chunks[j].kind, chunks[j].body, chunks[j].stored) && chunks[j].kind != 2 && chunks[j].kind != 4
  }

  /** What was begun at `i`, with every middle of it before `k`. */
  ghost function Begun(chunks: seq<Chunk>, i: nat, k: nat): bytes
    requires i < k <= |chunks|
    decreases k - i
  {
    if k == i + 1 then chunks[i].body
    else Begun(chunks, i, k - 1) + if chunks[k - 1].kind == 3 then chunks[k - 1].body else []
  }

  /** The payload the `k`th fragment ends. */
  ghost function Ended(g: Guard, chunks: seq<Chunk>, k: nat): seq<bytes>
    requires k < |chunks|
  {
    var c := chunks[k];
    if !g(c.kind, c.body, c.stored) then []
    else if c.kind == 1 then [c.body]
    else if c.kind == 4 && exists i :: Open(g, chunks, i, k) then
      var i :| Open(g, chunks, i, k);
      [Begun(chunks, i, k) + c.body]
    else []
  }

  ghost function AllEnded(g: Guard, chunks: seq<Chunk>, n: nat): seq<bytes>
    requires n <= |chunks|
  {
    if n == 0 then [] else AllEnded(g, chunks, n - 1) + Ended(g, chunks, n - 1)
  }

  /** What the reassembler holds after the first `n`. */
  ghost function HeldAfter(g: Guard, chunks: seq<Chunk>, n: nat): Option<bytes>
    requires n <= |chunks|
  {
    if n == 0 then None else Carried(g, chunks[n - 1], HeldAfter(g, chunks, n - 1))
  }

  lemma {:induction false} HeldIsOpen(g: Guard, chunks: seq<Chunk>, n: nat)
    requires n <= |chunks|
    ensures forall i: nat :: Open(g, chunks, i, n) ==> HeldAfter(g, chunks, n) == Some(Begun(chunks, i, n))
    ensures HeldAfter(g, chunks, n).Some? ==> exists i: nat :: Open(g, chunks, i, n)
  {
    if n > 0 {
      HeldIsOpen(g, chunks, n - 1);
      forall i: nat | Open(g, chunks, i, n)
        ensures HeldAfter(g, chunks, n) == Some(Begun(chunks, i, n))
      {
        if i < n - 1 {
          assert Open(g, chunks, i, n - 1);
          assert Begun(chunks, i, n - 1) + [] == Begun(chunks, i, n - 1);
        }
      }
      if HeldAfter(g, chunks, n).Some? {
        if chunks[n - 1].kind == 2 {
          assert Open(g, chunks, n - 1, n);
        } else {
          var i: nat :| Open(g, chunks, i, n - 1);
          assert Open(g, chunks, i, n);
        }
      }
    }
  }

  lemma {:induction false} AssembledSoFar(g: Guard, chunks: seq<Chunk>, n: nat)
    requires n <= |chunks|
    ensures Assemble(g, chunks, None) == AllEnded(g, chunks, n) + Assemble(g, chunks[n..], HeldAfter(g, chunks, n))
  {
    hide Emitted, Carried, Open, Begun;
    if n == 0 {
      assert chunks[0..] == chunks;
    } else {
      AssembledSoFar(g, chunks, n - 1);
      var held := HeldAfter(g, chunks, n - 1);
      assert chunks[n - 1..] == [chunks[n - 1]] + chunks[n..];
      AssembleStep(g, AllEnded(g, chunks, n - 1), chunks[n - 1], chunks[n..], held);
      EmittedIsEnded(g, chunks, n - 1);
    }
  }

  lemma EmittedIsEnded(g: Guard, chunks: seq<Chunk>, k: nat)
    requires k < |chunks|
    ensures Emitted(g, chunks[k], HeldAfter(g, chunks, k)) == Ended(g, chunks, k)
  {
    hide Open, Begun, HeldAfter;
    HeldIsOpen(g, chunks, k);
    forall i | Open(g, chunks, i, k)
      ensures i >= 0
    {
      OpenBegins(g, chunks, i, k);
    }
  }

  lemma OpenBegins(g: Guard, chunks: seq<Chunk>, i: int, k: int)
    requires Open(g, chunks, i, k)
    ensures 0 <= i < k
  {
  }

  /** Of any fragments, good or bad and of whatever kinds, exactly these payloads come
      out: each good whole one, and each good last one behind a good first one with
      nothing bad, first or last between them, joined with the middles between. */
  lemma AssembleExact(g: Guard, chunks: seq<Chunk>)
    ensures Assemble(g, chunks, None) == AllEnded(g, chunks, |chunks|)
  {
    hide AllEnded, HeldAfter, Assemble;
    AssembledSoFar(g, chunks, |chunks|);
    AssembleNothing(g);
    assert chunks[|chunks|..] == [];
  }

  /** The fragments met from `pos`: none after a cut one; a block with no room for a
      header is left for the next; kind 0 is no fragment. */
  ghost predicate Met(data: bytes, pos: nat, chunks: seq<Chunk>)
    decreases |data| - pos
  {
    if pos + 7 > |data| then chunks == []
    else if pos % 32768 > 32761 then Met(data, pos - pos % 32768 + 32768, chunks)
    else
      var low: nat, high: nat := data[pos + 4], data[pos + 5];
      var end := pos + 7 + low + 256 * high;
      if end > |data| then chunks == []
      else if data[pos + 6] == 0 then Met(data, end, chunks)
      else
        && chunks != [] && chunks[0].kind == data[pos + 6] && chunks[0].stored == data[pos..pos + 4]
        && chunks[0].body == data[pos + 7..end] && Met(data, end, chunks[1..])
  }

  lemma {:induction false} ParseMeets(data: bytes, pos: nat)
    ensures Met(data, pos, Parse(data, pos))
    decreases |data| - pos
  {
    hide HeadAt;
    if pos + 7 <= |data| {
      HeadMeets(data, pos);
      match HeadAt(data, pos) {
        case Nothing =>
        case Trailer(next) => ParseMeets(data, next);
        case Fragment(c, next) =>
          ParseMeets(data, next);
          assert ([c] + Parse(data, next))[1..] == Parse(data, next);
          assert [] + Parse(data, next) == Parse(data, next);
      }
    }
  }

  lemma HeadMeets(data: bytes, pos: nat)
    requires pos + 7 <= |data|
    ensures var low: nat, high: nat := data[pos + 4], data[pos + 5];
      var end := pos + 7 + low + 256 * high;
      HeadAt(data, pos) ==
        if pos % 32768 > 32761 then Trailer(pos - pos % 32768 + 32768)
        else if end > |data| then Nothing
        else Fragment(Chunk(data[pos + 6], data[pos + 7..end], data[pos..pos + 4]), end)
  {
    var two := data[pos + 4..pos + 6];
    var low: nat, high: nat := two[0], two[1];
    assert two[1..][1..] == [] && Le(two[1..]) == high;
    assert Le(two) == low + 256 * high;
  }

  /** A log is never read past what is there, and zeros behind it, as in a file whose
      space was set aside, say nothing. */
  lemma {:induction false} ZerosSayNothing(data: bytes, pos: nat)
    requires forall i :: pos <= i < |data| ==> data[i] == 0
    ensures Parse(data, pos) == []
    decreases |data| - pos
  {
    hide HeadAt;
    if pos + 7 <= |data| {
      HeadMeets(data, pos);
      match HeadAt(data, pos) {
        case Nothing =>
        case Trailer(next) => ZerosSayNothing(data, next);
        case Fragment(c, next) => ZerosSayNothing(data, next);
      }
    }
  }

  // --- what the format lays out ---

  function Encode(c: Chunk): bytes {
    c.stored + ToLe(|c.body|, 2) + [c.kind] + c.body
  }

  ghost predicate Framed(c: Chunk) {
    |c.stored| == 4 && |c.body| < 65536 && c.kind != 0
  }

  ghost predicate AllFramed(chunks: seq<Chunk>) {
    forall c :: c in chunks ==> Framed(c)
  }

  /** The zero trailer of a block too full for another header. */
  function Gap(pos: nat): bytes {
    var left := BLOCK_SIZE - pos % BLOCK_SIZE;
    if left < HEADER_SIZE then seq(left, _ => 0) else []
  }

  function Image(pos: nat, chunks: seq<Chunk>): bytes
    decreases |chunks|
  {
    if chunks == [] then []
    else
      var head := Gap(pos) + Encode(chunks[0]);
      head + Image(pos + |head|, chunks[1..])
  }

  /** How many of the chunks lie whole within the first `n` bytes. */
  function Whole(pos: nat, chunks: seq<Chunk>, n: nat): (k: nat)
    ensures k <= |chunks|
    decreases |chunks|
  {
    if chunks == [] then 0
    else
      var head := |Gap(pos)| + |Encode(chunks[0])|;
      if n < head then 0 else 1 + Whole(pos + head, chunks[1..], n - head)
  }

  lemma EncodedHead(data: bytes, pos: nat, c: Chunk)
    requires At(data, pos, Encode(c)) && Framed(c)
    requires BLOCK_SIZE - pos % BLOCK_SIZE >= HEADER_SIZE
    ensures HeadAt(data, pos) == Fragment(c, pos + |Encode(c)|)
  {
    EncodedLength(data, pos, c, Encode(c));
    var there := data[pos..pos + |Encode(c)|];
    assert there[..4] == c.stored && there[6] == c.kind && there[7..] == c.body;
    assert data[pos..pos + 4] == there[..4];
    assert data[pos + 6] == there[6];
    assert data[pos + 7..pos + 7 + |c.body|] == there[7..];
  }

  lemma EncodedLength(data: bytes, pos: nat, c: Chunk, there: bytes)
    requires Framed(c) && pos + |there| <= |data| && data[pos..pos + |there|] == there
    requires HEADER_SIZE <= |there| && there <= Encode(c)
    ensures Le(data[pos + 4..pos + 6]) == |c.body|
  {
    SliceOfSlice(data, pos, pos + |there|, 4, 6);
    assert there[4..6] == Encode(c)[4..6] == ToLe(|c.body|, 2);
    assert Pow256(2) == 256 * Pow256(1);
    LeInvertsToLe(|c.body|, 2);
  }

  /** One whole fragment, with the trailer before it, is one fragment parsed. */
  lemma ParseStep(data: bytes, pos: nat, c: Chunk)
    requires Framed(c) && At(data, pos, Gap(pos) + Encode(c))
    ensures Parse(data, pos) == [c] + Parse(data, pos + |Gap(pos)| + |Encode(c)|)
  {
    hide HeadAt, Encode;
    var start := pos + |Gap(pos)|;
    AtSplit(data, pos, Gap(pos), Encode(c));
    EncodedHead(data, start, c);
    if Gap(pos) != [] {
      TrailerHead(data, pos);
    }
  }

  lemma TrailerHead(data: bytes, pos: nat)
    requires BLOCK_SIZE - pos % BLOCK_SIZE < HEADER_SIZE && pos + HEADER_SIZE <= |data|
    ensures HeadAt(data, pos) == Trailer(pos + |Gap(pos)|)
  {
  }

  lemma GapLands(pos: nat)
    ensures BLOCK_SIZE - (pos + |Gap(pos)|) % BLOCK_SIZE >= HEADER_SIZE
    ensures Gap(pos) != [] ==> |Gap(pos)| == BLOCK_SIZE - pos % BLOCK_SIZE < HEADER_SIZE
  {
  }

  /** A log cut inside a trailer or a fragment yields nothing more. */
  lemma ParseOfTornHead(data: bytes, pos: nat, c: Chunk)
    requires pos <= |data| && Framed(c)
    requires data[pos..] < Gap(pos) + Encode(c)
    ensures Parse(data, pos) == []
  {
    hide HeadAt, Gap, Encode;
    var start := pos + |Gap(pos)|;
    GapLands(pos);
    if pos + HEADER_SIZE > |data| {
      ParseOfNothing(data, pos);
    } else {
      if start + HEADER_SIZE <= |data| {
        TornBody(data, pos, start, c);
      } else {
        ParseOfNothing(data, start);
      }
      if Gap(pos) != [] {
        TrailerHead(data, pos);
      }
    }
  }

  lemma TornBody(data: bytes, pos: nat, start: nat, c: Chunk)
    requires Framed(c) && start == pos + |Gap(pos)| && start + HEADER_SIZE <= |data|
    requires BLOCK_SIZE - start % BLOCK_SIZE >= HEADER_SIZE
    requires data[pos..] < Gap(pos) + Encode(c)
    ensures HeadAt(data, start) == Nothing
  {
    hide Gap;
    var there := data[start..];
    assert there == data[pos..][|Gap(pos)|..];
    assert there == (Gap(pos) + Encode(c))[|Gap(pos)|..|data| - pos] == Encode(c)[..|there|];
    EncodedLength(data, start, c, there);
  }

  lemma ParseOfNothing(data: bytes, pos: nat)
    requires pos + HEADER_SIZE > |data|
    ensures Parse(data, pos) == []
  {
  }

  /** Reading the first `n` bytes of a log finds exactly the fragments that lie
      whole within them. */
  lemma {:induction false} ParseOfImage(data: bytes, pos: nat, chunks: seq<Chunk>)
    requires AllFramed(chunks) && pos <= |data|
    requires data[pos..] <= Image(pos, chunks)
    ensures Parse(data, pos) == chunks[..Whole(pos, chunks, |data| - pos)]
    decreases |chunks|
  {
    hide HeadAt, Encode, Gap;
    if chunks == [] {
      ParseOfNothing(data, pos);
      return;
    }
    var c := chunks[0];
    var head := Gap(pos) + Encode(c);
    var next := pos + |head|;
    var image := Image(next, chunks[1..]);
    assert Framed(c);
    if |data| - pos < |head| {
      assert data[pos..] == (head + image)[..|data| - pos] == head[..|data| - pos];
      ParseOfTornHead(data, pos, c);
    } else {
      assert data[pos..next] == data[pos..][..|head|] == (head + image)[..|head|] == head;
      assert data[next..] == data[pos..][|head|..];
      assert data[pos..][|head|..] <= (head + image)[|head|..] == image;
      ParseStep(data, pos, c);
      ParseOfImage(data, next, chunks[1..]);
    }
  }

  // --- payloads and the fragments they are written as ---

  /** FULL, or FIRST, any number of MIDDLE, LAST. */
  ghost predicate Record(piece: seq<Chunk>) {
    |piece| > 0 &&
    if |piece| == 1 then piece[0].kind == FULL
    else piece[0].kind == FIRST && Tail(piece[1..])
  }

  ghost predicate Tail(piece: seq<Chunk>) {
    |piece| > 0 &&
    if |piece| == 1 then piece[0].kind == LAST
    else piece[0].kind == MIDDLE && Tail(piece[1..])
  }

  function Joined(piece: seq<Chunk>): bytes {
    if piece == [] then [] else piece[0].body + Joined(piece[1..])
  }

  function Flatten<T>(xs: seq<seq<T>>): seq<T> {
    if xs == [] then [] else xs[0] + Flatten(xs[1..])
  }

  predicate Intact(g: Guard, c: Chunk) {
    g(c.kind, c.body, c.stored)
  }

  predicate AllIntact(g: Guard, piece: seq<Chunk>) {
    forall i :: 0 <= i < |piece| ==> Intact(g, piece[i])
  }

  /** The payloads none of whose fragments is damaged, in order. */
  function Survivors(g: Guard, pieces: seq<seq<Chunk>>): seq<bytes> {
    if pieces == [] then []
    else (if AllIntact(g, pieces[0]) then [Joined(pieces[0])] else []) + Survivors(g, pieces[1..])
  }

  lemma AssembleNext(g: Guard, chunks: seq<Chunk>, rest: seq<Chunk>, pending: Option<bytes>)
    requires chunks != []
    ensures Assemble(g, chunks + rest, pending) ==
      Emitted(g, chunks[0], pending) + Assemble(g, chunks[1..] + rest, Carried(g, chunks[0], pending))
  {
    assert (chunks + rest)[1..] == chunks[1..] + rest;
  }

  /** What follows a FIRST fragment, with the payload so far or without it. */
  lemma {:induction false} AssembleTail(g: Guard, piece: seq<Chunk>, rest: seq<Chunk>, pending: Option<bytes>)
    requires Tail(piece)
    ensures Assemble(g, piece + rest, pending) ==
      (if pending.Some? && AllIntact(g, piece) then [pending.value + Joined(piece)] else []) +
      Assemble(g, rest, None)
    decreases |piece|
  {
    hide Assemble;
    var c := piece[0];
    AssembleNext(g, piece, rest, pending);
    if |piece| == 1 {
      assert piece[1..] + rest == rest;
      assert Joined(piece) == c.body + [] == c.body;
      assert AllIntact(g, piece) == Intact(g, c);
    } else {
      var carried := Carried(g, c, pending);
      AssembleTail(g, piece[1..], rest, carried);
      assert piece == [c] + piece[1..];
      assert AllIntact(g, piece) == (Intact(g, c) && AllIntact(g, piece[1..]));
      if pending.Some? && Intact(g, c) {
        assert (pending.value + c.body) + Joined(piece[1..]) == pending.value + Joined(piece);
      }
    }
  }

  lemma AssembleRecord(g: Guard, piece: seq<Chunk>, rest: seq<Chunk>)
    requires Record(piece)
    ensures Assemble(g, piece + rest, None) ==
      (if AllIntact(g, piece) then [Joined(piece)] else []) + Assemble(g, rest, None)
  {
    var c := piece[0];
    AssembleNext(g, piece, rest, None);
    assert piece == [c] + piece[1..];
    assert AllIntact(g, piece) == (Intact(g, c) && AllIntact(g, piece[1..]));
    if |piece| == 1 {
      assert piece[1..] + rest == rest;
      assert Joined(piece) == c.body + [] == c.body;
    } else {
      AssembleTail(g, piece[1..], rest, Carried(g, c, None));
    }
  }

  /** Whatever was damaged, the reassembler yields exactly the payloads whose
      every fragment is intact: a damaged payload never takes a neighbour with
      it and never comes back in part. */
  lemma {:induction false} AssembleRecords(g: Guard, pieces: seq<seq<Chunk>>)
    requires forall p :: p in pieces ==> Record(p)
    ensures Assemble(g, Flatten(pieces), None) == Survivors(g, pieces)
  {
    if pieces != [] {
      AssembleRecord(g, pieces[0], Flatten(pieces[1..]));
      AssembleRecords(g, pieces[1..]);
    }
  }

  // --- the writer ---

  type Seal = (byte, bytes) -> bytes

  function CrcSeal(kind: byte, body: bytes): bytes {
    Crc32c.StoredCrc(Crc32c.Mask(Crc32c.Castagnoli([kind] + body)))
  }

  /** A writer's seal satisfies the reader's guard. */
  ghost predicate Seals(seal: Seal, g: Guard) {
    forall kind, body :: |seal(kind, body)| == 4 && g(kind, body, seal(kind, body))
  }

  lemma CrcSeals()
    ensures Seals(CrcSeal, CrcGuard)
  {
    hide Crc32c.Castagnoli, Crc32c.Mask, Crc32c.Unmask, Crc32c.LoadCrc, Crc32c.StoredCrc;
    var seal: Seal, g: Guard := CrcSeal, CrcGuard;
    forall kind, body
      ensures |seal(kind, body)| == 4 && g(kind, body, seal(kind, body))
    {
      var crc := Crc32c.Castagnoli([kind] + body);
      Crc32c.LoadInvertsStore(Crc32c.Mask(crc));
      Crc32c.UnmaskInvertsMask(crc);
    }
  }

  /** Room for a body in the block a header at `pos` lands in. */
  function Room(pos: nat): nat {
    var left := BLOCK_SIZE - (pos + |Gap(pos)|) % BLOCK_SIZE;
    if left < HEADER_SIZE then 0 else left - HEADER_SIZE
  }

  /** A payload split at block boundaries; a block with room for a header only
      takes an empty fragment. */
  function Fragments(seal: Seal, pos: nat, payload: bytes, first: bool): (piece: seq<Chunk>)
    decreases |payload|, if Room(pos) == 0 then 1 else 0
  {
    var n := if |payload| <= Room(pos) then |payload| else Room(pos);
    var last := n == |payload|;
    var kind := if first && last then FULL else if first then FIRST else if last then LAST else MIDDLE;
    var c := Chunk(kind, payload[..n], seal(kind, payload[..n]));
    if last then [c]
    else
      RoomRenews(pos, n);
      [c] + Fragments(seal, pos + |Gap(pos)| + HEADER_SIZE + n, payload[n..], false)
  }

  lemma RoomRenews(pos: nat, n: nat)
    requires n == Room(pos)
    ensures n == 0 ==> Room(pos + |Gap(pos)| + HEADER_SIZE + n) > 0
  {
    var start := pos + |Gap(pos)|;
    if n == 0 {
      assert start % BLOCK_SIZE == BLOCK_SIZE - HEADER_SIZE;
      assert (start + HEADER_SIZE) % BLOCK_SIZE == 0;
      assert Gap(start + HEADER_SIZE) == [];
    }
  }

  function Pieces(seal: Seal, pos: nat, payloads: seq<bytes>): (pieces: seq<seq<Chunk>>)
    ensures |pieces| == |payloads|
    decreases |payloads|
  {
    if payloads == [] then []
    else
      var piece := Fragments(seal, pos, payloads[0], true);
      [piece] + Pieces(seal, pos + |Image(pos, piece)|, payloads[1..])
  }

  function Log(payloads: seq<bytes>): bytes {
    Image(0, Flatten(Pieces(CrcSeal, 0, payloads)))
  }

  /** Every fragment lies inside one block, header and body. */
  ghost predicate InBlocks(pos: nat, chunks: seq<Chunk>)
    decreases |chunks|
  {
    chunks == [] ||
    var start := pos + |Gap(pos)|;
    && start % BLOCK_SIZE + HEADER_SIZE + |chunks[0].body| <= BLOCK_SIZE
    && InBlocks(start + HEADER_SIZE + |chunks[0].body|, chunks[1..])
  }

  lemma {:induction false} FragmentsMakeARecord(seal: Seal, g: Guard, pos: nat, payload: bytes, first: bool)
    requires Seals(seal, g)
    ensures var piece := Fragments(seal, pos, payload, first);
      && (if first then Record(piece) else Tail(piece))
      && AllFramed(piece)
      && AllIntact(g, piece)
    decreases |payload|, if Room(pos) == 0 then 1 else 0
  {
    hide Gap, Room;
    var n := if |payload| <= Room(pos) then |payload| else Room(pos);
    var piece := Fragments(seal, pos, payload, first);
    RoomFits(pos);
    if n < |payload| {
      RoomRenews(pos, n);
      FragmentsMakeARecord(seal, g, pos + |Gap(pos)| + HEADER_SIZE + n, payload[n..], false);
      assert piece[1..] == Fragments(seal, pos + |Gap(pos)| + HEADER_SIZE + n, payload[n..], false);
    }
  }

  lemma {:induction false} FragmentsJoin(seal: Seal, pos: nat, payload: bytes, first: bool)
    ensures Joined(Fragments(seal, pos, payload, first)) == payload
    decreases |payload|, if Room(pos) == 0 then 1 else 0
  {
    hide Gap, Room;
    var n := if |payload| <= Room(pos) then |payload| else Room(pos);
    var piece := Fragments(seal, pos, payload, first);
    assert payload == payload[..n] + payload[n..];
    if n == |payload| {
      assert Joined(piece) == payload + [];
    } else {
      RoomRenews(pos, n);
      FragmentsJoin(seal, pos + |Gap(pos)| + HEADER_SIZE + n, payload[n..], false);
    }
  }

  lemma RoomFits(pos: nat)
    ensures (pos + |Gap(pos)|) % BLOCK_SIZE + HEADER_SIZE + Room(pos) <= BLOCK_SIZE
    ensures Room(pos) < 65536
  {
  }

  /** The writer never lets a fragment straddle two blocks. */
  lemma {:induction false} FragmentsStayInBlocks(seal: Seal, pos: nat, payload: bytes, first: bool)
    ensures InBlocks(pos, Fragments(seal, pos, payload, first))
    decreases |payload|, if Room(pos) == 0 then 1 else 0
  {
    hide Gap, Room;
    var n := if |payload| <= Room(pos) then |payload| else Room(pos);
    RoomFits(pos);
    if n < |payload| {
      RoomRenews(pos, n);
      FragmentsStayInBlocks(seal, pos + |Gap(pos)| + HEADER_SIZE + n, payload[n..], false);
    }
  }

  /** A fragment as found: as written, or with its checksum no longer matching;
      the kind and the length are intact. */
  ghost predicate FoundAs(g: Guard, written: Chunk, found: Chunk) {
    && found.kind == written.kind
    && |found.body| == |written.body|
    && |found.stored| == 4
    && (found == written || !Intact(g, found))
  }

  ghost predicate PieceFoundAs(g: Guard, written: seq<Chunk>, found: seq<Chunk>) {
    |found| == |written| && forall i :: 0 <= i < |found| ==> FoundAs(g, written[i], found[i])
  }

  ghost predicate PiecesFoundAs(g: Guard, written: seq<seq<Chunk>>, found: seq<seq<Chunk>>) {
    |found| == |written| && forall i :: 0 <= i < |found| ==> PieceFoundAs(g, written[i], found[i])
  }

  /** The payloads no fragment of which was damaged. */
  function Undamaged(g: Guard, payloads: seq<bytes>, found: seq<seq<Chunk>>): seq<bytes>
    requires |found| == |payloads|
  {
    if payloads == [] then []
    else (if AllIntact(g, found[0]) then [payloads[0]] else []) + Undamaged(g, payloads[1..], found[1..])
  }

  lemma {:induction false} KindsMakeARecord(written: seq<Chunk>, found: seq<Chunk>)
    requires |written| == |found| && forall i :: 0 <= i < |found| ==> found[i].kind == written[i].kind
    ensures Tail(written) ==> Tail(found)
    ensures Record(written) ==> Record(found)
    decreases |written|
  {
    if |written| > 1 {
      KindsMakeARecord(written[1..], found[1..]);
    }
  }

  /** One piece as found: a framed record, and the piece itself if intact. */
  lemma FoundPiece(seal: Seal, g: Guard, pos: nat, payload: bytes, found: seq<Chunk>)
    requires Seals(seal, g)
    requires PieceFoundAs(g, Fragments(seal, pos, payload, true), found)
    ensures Record(found) && AllFramed(found)
    ensures AllIntact(g, found) ==> Joined(found) == payload
  {
    var piece := Fragments(seal, pos, payload, true);
    FragmentsMakeARecord(seal, g, pos, payload, true);
    FragmentsJoin(seal, pos, payload, true);
    assert forall i :: 0 <= i < |found| ==> FoundAs(g, piece[i], found[i]);
    KindsMakeARecord(piece, found);
    forall i | 0 <= i < |found|
      ensures Framed(found[i])
    {
      assert Framed(piece[i]);
    }
    if AllIntact(g, found) {
      assert forall i :: 0 <= i < |found| ==> Intact(g, found[i]);
      assert found == piece;
    }
  }

  /** What was found of the writer's output: framed records, true to the
      payloads wherever intact. */
  lemma {:induction false} FoundPieces(seal: Seal, g: Guard, pos: nat, payloads: seq<bytes>, found: seq<seq<Chunk>>)
    requires Seals(seal, g)
    requires PiecesFoundAs(g, Pieces(seal, pos, payloads), found)
    ensures forall p :: p in found ==> Record(p)
    ensures AllFramed(Flatten(found))
    ensures forall i :: 0 <= i < |found| && AllIntact(g, found[i]) ==> Joined(found[i]) == payloads[i]
    decreases |payloads|
  {
    hide Record, Framed, AllIntact, PieceFoundAs, Joined;
    if payloads != [] {
      var next := pos + |Image(pos, Fragments(seal, pos, payloads[0], true))|;
      FoundPiece(seal, g, pos, payloads[0], found[0]);
      forall i | 0 <= i < |found| - 1
        ensures PieceFoundAs(g, Pieces(seal, next, payloads[1..])[i], found[1..][i])
      {
        assert PieceFoundAs(g, Pieces(seal, pos, payloads)[i + 1], found[i + 1]);
      }
      FoundPieces(seal, g, next, payloads[1..], found[1..]);
    }
  }

  /** How many pieces lie whole within the first `m` fragments. */
  function WholePieces(pieces: seq<seq<Chunk>>, m: nat): (k: nat)
    ensures k <= |pieces|
  {
    if pieces == [] || m < |pieces[0]| then 0 else 1 + WholePieces(pieces[1..], m - |pieces[0]|)
  }

  lemma {:induction false} TornTail(g: Guard, piece: seq<Chunk>, j: nat, pending: Option<bytes>)
    requires Tail(piece) && j < |piece|
    ensures Assemble(g, piece[..j], pending) == []
    decreases j
  {
    if j > 0 {
      assert piece[..j][1..] == piece[1..][..j - 1];
      TornTail(g, piece[1..], j - 1, Carried(g, piece[0], pending));
    }
  }

  lemma TornRecord(g: Guard, piece: seq<Chunk>, j: nat)
    requires Record(piece) && j < |piece|
    ensures Assemble(g, piece[..j], None) == []
  {
    if j > 0 {
      assert piece[..j][1..] == piece[1..][..j - 1];
      TornTail(g, piece[1..], j - 1, Carried(g, piece[0], None));
    }
  }

  lemma TornNothing(g: Guard)
    ensures Assemble(g, [], None) == []
  {
  }

  lemma {:induction false} AssembleTorn(g: Guard, pieces: seq<seq<Chunk>>, m: nat)
    requires forall p :: p in pieces ==> Record(p)
    requires m <= |Flatten(pieces)|
    ensures Assemble(g, Flatten(pieces)[..m], None) == Survivors(g, pieces[..WholePieces(pieces, m)])
  {
    hide Assemble, Record, AllIntact, Joined;
    TornNothing(g);
    if pieces != [] {
      var rest := Flatten(pieces[1..]);
      if m < |pieces[0]| {
        assert Flatten(pieces)[..m] == pieces[0][..m];
        TornRecord(g, pieces[0], m);
      } else {
        var k := WholePieces(pieces[1..], m - |pieces[0]|);
        assert Flatten(pieces)[..m] == pieces[0] + rest[..m - |pieces[0]|];
        AssembleRecord(g, pieces[0], rest[..m - |pieces[0]|]);
        AssembleTorn(g, pieces[1..], m - |pieces[0]|);
        assert pieces[..k + 1][1..] == pieces[1..][..k];
      }
    }
  }

  lemma {:induction false} WholeOfAll(pos: nat, chunks: seq<Chunk>)
    ensures Whole(pos, chunks, |Image(pos, chunks)|) == |chunks|
    decreases |chunks|
  {
    if chunks != [] {
      WholeOfAll(pos + |Gap(pos) + Encode(chunks[0])|, chunks[1..]);
    }
  }

  lemma {:induction false} WholePiecesOfAll(pieces: seq<seq<Chunk>>)
    ensures WholePieces(pieces, |Flatten(pieces)|) == |pieces|
  {
    if pieces != [] {
      WholePiecesOfAll(pieces[1..]);
    }
  }

  lemma {:induction false} SurvivorsOfFirst(g: Guard, payloads: seq<bytes>, found: seq<seq<Chunk>>, k: nat)
    requires |found| == |payloads| && k <= |found|
    requires forall i :: 0 <= i < |found| && AllIntact(g, found[i]) ==> Joined(found[i]) == payloads[i]
    ensures Survivors(g, found[..k]) == Undamaged(g, payloads[..k], found[..k])
    decreases k
  {
    if k > 0 {
      assert found[..k][1..] == found[1..][..k - 1] && payloads[..k][1..] == payloads[1..][..k - 1];
      SurvivorsOfFirst(g, payloads[1..], found[1..], k - 1);
    }
  }

  // --- the guarantees of the log ---

  /** A log read back from the first `n` bytes of a file, any of whose fragments
      may have been damaged, gives exactly the payloads that were wholly written
      and not damaged, in order. */
  lemma LogRecovers(payloads: seq<bytes>, found: seq<seq<Chunk>>, n: nat)
    requires PiecesFoundAs(CrcGuard, Pieces(CrcSeal, 0, payloads), found)
    requires n <= |Image(0, Flatten(found))|
    ensures var k := WholePieces(found, Whole(0, Flatten(found), n));
      && Payloads(Image(0, Flatten(found))[..n]) == Undamaged(CrcGuard, payloads[..k], found[..k])
      && (n == |Image(0, Flatten(found))| ==> k == |payloads|)
  {
    hide CrcGuard, CrcSeal, HeadAt;
    var chunks := Flatten(found);
    var data := Image(0, chunks)[..n];
    var m := Whole(0, chunks, n);
    CrcSeals();
    FoundPieces(CrcSeal, CrcGuard, 0, payloads, found);
    assert data[0..] == data <= Image(0, chunks);
    ParseOfImage(data, 0, chunks);
    AssembleTorn(CrcGuard, found, m);
    SurvivorsOfFirst(CrcGuard, payloads, found, WholePieces(found, m));
    WholeOfAll(0, chunks);
    WholePiecesOfAll(found);
  }

  lemma {:induction false} PiecesAreFound(seal: Seal, g: Guard, pos: nat, payloads: seq<bytes>)
    requires Seals(seal, g)
    ensures var pieces := Pieces(seal, pos, payloads);
      && PiecesFoundAs(g, pieces, pieces)
      && (forall p :: p in pieces ==> AllIntact(g, p))
    decreases |payloads|
  {
    hide AllIntact, Framed, Image, Gap, Room;
    if payloads != [] {
      var piece := Fragments(seal, pos, payloads[0], true);
      FragmentsMakeARecord(seal, g, pos, payloads[0], true);
      assert PieceFoundAs(g, piece, piece) by {
        forall i | 0 <= i < |piece|
          ensures FoundAs(g, piece[i], piece[i])
        {
          FramedStored(piece[i]);
        }
      }
      PiecesAreFound(seal, g, pos + |Image(pos, piece)|, payloads[1..]);
    }
  }

  lemma FramedStored(c: Chunk)
    requires Framed(c)
    ensures |c.stored| == 4
  {
  }

  lemma {:induction false} AllUndamaged(g: Guard, payloads: seq<bytes>, found: seq<seq<Chunk>>)
    requires |found| == |payloads|
    requires forall k :: 0 <= k < |found| ==> AllIntact(g, found[k])
    ensures Undamaged(g, payloads, found) == payloads
    decreases |payloads|
  {
    hide AllIntact;
    if payloads != [] {
      AllUndamaged(g, payloads[1..], found[1..]);
    }
  }

  lemma {:induction false} UndamagedBut(g: Guard, payloads: seq<bytes>, found: seq<seq<Chunk>>, i: nat)
    requires |found| == |payloads| && i < |found|
    requires forall k :: 0 <= k < |found| ==> (AllIntact(g, found[k]) <==> k != i)
    ensures Undamaged(g, payloads, found) == payloads[..i] + payloads[i + 1..]
    decreases |payloads|
  {
    hide AllIntact;
    if i == 0 {
      AllUndamaged(g, payloads[1..], found[1..]);
    } else {
      UndamagedBut(g, payloads[1..], found[1..], i - 1);
      assert payloads[..i] == [payloads[0]] + payloads[1..][..i - 1];
      assert payloads[1..][i..] == payloads[i + 1..];
    }
  }

  /** The reader inverts the writer. */
  lemma LogRoundTrip(payloads: seq<bytes>)
    ensures Payloads(Log(payloads)) == payloads
  {
    hide CrcGuard, CrcSeal, AllIntact;
    var pieces := Pieces(CrcSeal, 0, payloads);
    CrcSeals();
    PiecesAreFound(CrcSeal, CrcGuard, 0, payloads);
    LogRecovers(payloads, pieces, |Log(payloads)|);
    assert Log(payloads)[..|Log(payloads)|] == Log(payloads);
    assert payloads[..|payloads|] == payloads && pieces[..|payloads|] == pieces;
    AllUndamaged(CrcGuard, payloads, pieces);
  }

  /** A log cut anywhere gives a prefix of its payloads, never part of one. */
  lemma LogTruncated(payloads: seq<bytes>, n: nat)
    requires n <= |Log(payloads)|
    ensures Payloads(Log(payloads)[..n]) <= payloads
  {
    hide CrcGuard, CrcSeal, AllIntact;
    var pieces := Pieces(CrcSeal, 0, payloads);
    CrcSeals();
    PiecesAreFound(CrcSeal, CrcGuard, 0, payloads);
    LogRecovers(payloads, pieces, n);
    var k := WholePieces(pieces, Whole(0, Flatten(pieces), n));
    AllUndamaged(CrcGuard, payloads[..k], pieces[..k]);
  }

  lemma BurstBreaksSeal(kind: byte, before: bytes, x: bytes, y: bytes, after: bytes)
    requires |x| == |y| <= 4 && x != y
    ensures !CrcGuard(kind, before + y + after, CrcSeal(kind, before + x + after))
  {
    hide Crc32c.Castagnoli, Crc32c.Mask, Crc32c.Unmask, Crc32c.LoadCrc, Crc32c.StoredCrc;
    var crc := Crc32c.Castagnoli([kind] + (before + x + after));
    Crc32c.LoadInvertsStore(Crc32c.Mask(crc));
    Crc32c.UnmaskInvertsMask(crc);
    assert [kind] + (before + x + after) == ([kind] + before) + x + after;
    assert [kind] + (before + y + after) == ([kind] + before) + y + after;
    Crc32c.BurstChangesCrc([kind] + before, x, y, after);
  }

  /** Damage to up to four adjacent bytes of any one fragment body costs exactly
      the payload that fragment belongs to. */
  lemma BurstCostsOnePayload(payloads: seq<bytes>, i: nat, j: nat,
      before: bytes, x: bytes, y: bytes, after: bytes)
    requires i < |payloads| && j < |Pieces(CrcSeal, 0, payloads)[i]|
    requires Pieces(CrcSeal, 0, payloads)[i][j].body == before + x + after
    requires |x| == |y| <= 4 && x != y
    ensures var pieces := Pieces(CrcSeal, 0, payloads);
      var damaged := pieces[i][j].(body := before + y + after);
      var found := pieces[i := pieces[i][j := damaged]];
      Payloads(Image(0, Flatten(found))) == payloads[..i] + payloads[i + 1..]
  {
    hide CrcGuard, CrcSeal, AllIntact, Image;
    var pieces := Pieces(CrcSeal, 0, payloads);
    var written: Chunk := pieces[i][j];
    var damaged := written.(body := before + y + after);
    var found := pieces[i := pieces[i][j := damaged]];
    CrcSeals();
    PiecesAreFound(CrcSeal, CrcGuard, 0, payloads);
    SealedAsWritten(CrcSeal, 0, payloads, i, j);
    BurstBreaksSeal(written.kind, before, x, y, after);
    DamagedPiece(CrcGuard, pieces[i], j, damaged);
    forall k | 0 <= k < |found|
      ensures PieceFoundAs(CrcGuard, pieces[k], found[k])
      ensures AllIntact(CrcGuard, found[k]) <==> k != i
    {
      assert PieceFoundAs(CrcGuard, pieces[k], pieces[k]);
      assert pieces[k] in pieces;
    }
    var data := Image(0, Flatten(found));
    LogRecovers(payloads, found, |data|);
    assert data[..|data|] == data;
    assert payloads[..|payloads|] == payloads && found[..|payloads|] == found;
    UndamagedBut(CrcGuard, payloads, found, i);
  }

  lemma DamagedPiece(g: Guard, piece: seq<Chunk>, j: nat, damaged: Chunk)
    requires j < |piece| && PieceFoundAs(g, piece, piece)
    requires FoundAs(g, piece[j], damaged) && !Intact(g, damaged)
    ensures PieceFoundAs(g, piece, piece[j := damaged])
    ensures !AllIntact(g, piece[j := damaged])
  {
    var found := piece[j := damaged];
    assert !Intact(g, found[j]);
    forall i | 0 <= i < |found|
      ensures FoundAs(g, piece[i], found[i])
    {
      assert FoundAs(g, piece[i], piece[i]);
    }
  }

  lemma {:induction false} SealedAsWritten(seal: Seal, pos: nat, payloads: seq<bytes>, i: nat, j: nat)
    requires i < |payloads| && j < |Pieces(seal, pos, payloads)[i]|
    ensures var c := Pieces(seal, pos, payloads)[i][j]; c.stored == seal(c.kind, c.body)
    decreases |payloads|
  {
    if i == 0 {
      FragmentsSealed(seal, pos, payloads[0], true, j);
    } else {
      var piece := Fragments(seal, pos, payloads[0], true);
      SealedAsWritten(seal, pos + |Image(pos, piece)|, payloads[1..], i - 1, j);
    }
  }

  lemma {:induction false} FragmentsSealed(seal: Seal, pos: nat, payload: bytes, first: bool, j: nat)
    requires j < |Fragments(seal, pos, payload, first)|
    ensures var c := Fragments(seal, pos, payload, first)[j]; c.stored == seal(c.kind, c.body)
    decreases j
  {
    if j > 0 {
      var n := if |payload| <= Room(pos) then |payload| else Room(pos);
      FragmentsSealed(seal, pos + |Gap(pos)| + HEADER_SIZE + n, payload[n..], false, j - 1);
    }
  }
}
