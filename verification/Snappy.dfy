/** The Snappy block format (sections 1 to 2.2.3 of format_description.txt):
    the decompressor against the meaning of an element stream. */
module Snappy {
  import opened Bytes
  import opened Wrappers

  // --- what the format means ---

  /** A literal says how many extra length bytes it spends; a copy says how
      many bytes its offset takes. */
  datatype Element =
    | Literal(body: bytes, width: nat)
    | Copy1(n: nat, offset: nat)
    | Copy2(n: nat, offset: nat)
    | Copy4(n: nat, offset: nat)

  predicate Expressible(e: Element) {
    match e
    case Literal(body, width) =>
      |body| > 0 && width <= 4 && if width == 0 then |body| <= 60 else |body| <= Pow256(width)
    case Copy1(n, offset) => 4 <= n <= 11 && offset < 2048
    case Copy2(n, offset) => 1 <= n <= 64 && offset < Pow256(2)
    case Copy4(n, offset) => 1 <= n <= 64 && offset < Pow256(4)
  }

  function Encode(e: Element): (s: bytes)
    requires Expressible(e)
    ensures s != []
  {
    match e
    case Literal(body, width) =>
      if width == 0 then [4 * (|body| - 1)] + body
      else [4 * (59 + width)] + (ToLe(|body| - 1, width) + body)
    case Copy1(n, offset) => [1 + 4 * (n - 4) + 32 * (offset / 256), offset % 256]
    case Copy2(n, offset) => [2 + 4 * (n - 1)] + ToLe(offset, 2)
    case Copy4(n, offset) => [3 + 4 * (n - 1)] + ToLe(offset, 4)
  }

  function Cycle(i: nat, period: nat): (k: nat)
    requires period > 0
    ensures k < period
  {
    if i < period then i else Cycle(i - period, period)
  }

  /** A copy repeats the last `offset` bytes for as long as it needs: where it
      overlaps its own output, the output is periodic. */
  function Periodic(out: bytes, offset: nat, n: nat): bytes
    requires 0 < offset <= |out|
  {
    out + seq(n, i requires 0 <= i < n => out[|out| - offset + Cycle(i, offset)])
  }

  /** The element makes sense after `out`. */
  predicate Applies(out: bytes, e: Element) {
    Expressible(e) && (!e.Literal? ==> 0 < e.offset <= |out|)
  }

  function Apply(out: bytes, e: Element): bytes
    requires Applies(out, e)
  {
    if e.Literal? then out + e.body else Periodic(out, e.offset, e.n)
  }

  predicate WellFormed(out: bytes, es: seq<Element>)
    decreases |es|
  {
    es == [] || (Applies(out, es[0]) && WellFormed(Apply(out, es[0]), es[1..]))
  }

  function Denote(out: bytes, es: seq<Element>): (r: bytes)
    requires WellFormed(out, es)
    ensures |r| >= |out|
    ensures es != [] ==> |r| > |out|
    decreases |es|
  {
    if es == [] then out else Denote(Apply(out, es[0]), es[1..])
  }

  // --- what the decompressor computes ---

  datatype Op = Chunk(chunk: bytes) | Copy(n: nat, offset: nat)

  /** The element at `pos`, and where the next begins. A copy's offset is read
      through a clamped slice, so one cut short by the end of the buffer still
      counts; a literal cut short does not. */
  function OpAt(buf: bytes, pos: nat): (r: Option<(Op, nat)>)
    requires pos < |buf|
    ensures r.Some? ==> r.value.1 > pos
  {
    var tag := buf[pos];
    if tag % 4 == 0 then
      var width := if tag / 4 < 60 then 0 else tag / 4 - 59;
      var n := if width == 0 then tag / 4 + 1 else Le(Slice(buf, pos + 1, width)) + 1;
      var chunk := Slice(buf, pos + 1 + width, n);
      if |chunk| < n then None else Some((Chunk(chunk), pos + 1 + width + n))
    else if tag % 4 == 1 then
      if pos + 1 >= |buf| then None
      else Some((Copy(4 + tag / 4 % 8, tag / 32 * 256 + buf[pos + 1]), pos + 2))
    else if tag % 4 == 2 then
      Some((Copy(tag / 4 + 1, Le(Slice(buf, pos + 1, 2))), pos + 3))
    else
      Some((Copy(tag / 4 + 1, Le(Slice(buf, pos + 1, 4))), pos + 5))
  }

  function Perform(out: bytes, op: Op): (r: Option<bytes>) {
    match op
    case Chunk(chunk) => Some(out + chunk)
    case Copy(n, offset) =>
      if offset == 0 || offset > |out| then None else Some(Periodic(out, offset, n))
  }

  function Decode(buf: bytes, pos: nat, out: bytes, expected: nat): (r: Option<bytes>)
    decreases |buf| - pos
  {
    if pos >= |buf| || |out| >= expected then
      if |out| == expected then Some(out) else None
    else
      match OpAt(buf, pos)
      case None => None
      case Some((op, next)) =>
        match Perform(out, op)
        case None => None
        case Some(out') => Decode(buf, next, out', expected)
  }

  function DecompressSpec(buf: bytes): (r: Option<bytes>) {
    match ReadVarintSpec(buf, 0)
    case None => None
    case Some((expected, pos)) => Decode(buf, pos, [], expected)
  }

  /** The byte-at-a-time copy: each byte may be one this very loop produced. */
  method AppendCopy(out: bytes, offset: nat, n: nat) returns (r: bytes)
    requires 0 < offset <= |out|
    ensures r == Periodic(out, offset, n)
  {
    r := out;
    var start := |out| - offset;
    for i := 0 to n
      invariant r == Periodic(out, offset, i)
    {
      if i >= offset {
        assert r[start + i] == out[start + Cycle(i - offset, offset)];
      }
      r := r + [r[start + i]];
    }
  }

  lemma DecodeStep(buf: bytes, pos: nat, out: bytes, expected: nat)
    requires pos < |buf| && |out| < expected
    ensures Decode(buf, pos, out, expected) ==
      match OpAt(buf, pos)
      case None => None
      case Some((op, next)) =>
        match Perform(out, op)
        case None => None
        case Some(out') => Decode(buf, next, out', expected)
  {
    hide OpAt, Perform;
  }

  lemma DecodeDone(buf: bytes, pos: nat, out: bytes, expected: nat)
    requires pos >= |buf| || |out| >= expected
    ensures Decode(buf, pos, out, expected) == if |out| == expected then Some(out) else None
  {
  }

  lemma OpIsLiteral(buf: bytes, pos: nat)
    requires pos < |buf| && buf[pos] % 4 == 0
    ensures var n := buf[pos] / 4;
      OpAt(buf, pos) ==
        if n < 60 then Literally(buf, pos + 1, n + 1)
        else Literally(buf, pos + 1 + (n - 59), Le(Slice(buf, pos + 1, n - 59)) + 1)
  {
    hide Slice, Le;
  }

  lemma OpIsLongLiteral(buf: bytes, pos: nat, width: nat)
    requires pos < |buf| && 0 < width && buf[pos] % 4 == 0 && buf[pos] / 4 == 59 + width
    ensures OpAt(buf, pos) == Literally(buf, pos + 1 + width, Le(Slice(buf, pos + 1, width)) + 1)
  {
    hide Slice, Le, OpAt;
    OpIsLiteral(buf, pos);
  }

  lemma OpIsNearCopy(buf: bytes, pos: nat)
    requires pos < |buf| && buf[pos] % 4 == 1
    ensures var tag: int := buf[pos];
      OpAt(buf, pos) ==
        if pos + 1 >= |buf| then None
        else Some((Copy(4 + tag / 4 % 8, tag / 32 * 256 + buf[pos + 1]), pos + 2))
  {
    hide Slice, Le;
  }

  lemma OpIsFarCopy(buf: bytes, pos: nat)
    requires pos < |buf| && buf[pos] % 4 >= 2
    ensures var w := if buf[pos] % 4 == 2 then 2 else 4;
      OpAt(buf, pos) == Some((Copy(buf[pos] / 4 + 1, Le(Slice(buf, pos + 1, w))), pos + 1 + w))
  {
    hide Slice, Le;
  }

  ghost function Literally(buf: bytes, at: nat, n: nat): Option<(Op, nat)> {
    if |Slice(buf, at, n)| < n then None else Some((Chunk(Slice(buf, at, n)), at + n))
  }

  lemma PerformUnfolds(out: bytes, op: Op)
    ensures op.Chunk? ==> Perform(out, op) == Some(out + op.chunk)
    ensures op.Copy? && (op.offset == 0 || op.offset > |out|) ==> Perform(out, op) == None
    ensures op.Copy? && 0 < op.offset <= |out| ==> Perform(out, op) == Some(Periodic(out, op.offset, op.n))
  {
    hide Periodic;
  }

  /** The top half of the loop: a tag and what it takes from the buffer. */
  method ReadElement(buf: bytes, start: nat) returns (r: Option<(Op, nat)>)
    requires start < |buf|
    ensures r == OpAt(buf, start)
  {
    hide Slice, Le, OpAt;
    var pos := start;
    var tag: int := buf[pos];
    pos := pos + 1;
    var kind := tag % 4;
    if kind == 0 {
      OpIsLiteral(buf, start);
      var n := tag / 4;
      if n < 60 {
        n := n + 1;
      } else {
        var width := n - 59;
        n := Le(Slice(buf, pos, width)) + 1;
        pos := pos + width;
      }
      var chunk := Slice(buf, pos, n);
      if |chunk| < n {
        return None;
      }
      return Some((Chunk(chunk), pos + n));
    }
    if kind == 1 {
      OpIsNearCopy(buf, start);
      if pos >= |buf| {
        return None;
      }
      return Some((Copy(4 + tag / 4 % 8, tag / 32 * 256 + buf[pos]), pos + 1));
    }
    OpIsFarCopy(buf, start);
    var width := if kind == 2 then 2 else 4;
    return Some((Copy(tag / 4 + 1, Le(Slice(buf, pos, width))), pos + width));
  }

  method Decompress(buf: bytes) returns (r: Option<bytes>)
    ensures r == DecompressSpec(buf)
  {
    hide ReadVarintSpec, Periodic, Decode, Perform, OpAt;
    var header := ReadVarint(buf, 0);
    if header.None? {
      return None;
    }
    var expected, pos := header.value.0, header.value.1;
    var out: bytes := [];
    while pos < |buf| && |out| < expected
      invariant DecompressSpec(buf) == Decode(buf, pos, out, expected)
      decreases |buf| - pos
    {
      DecodeStep(buf, pos, out, expected);
      var element := ReadElement(buf, pos);
      if element.None? {
        return None;
      }
      var op := element.value.0;
      pos := element.value.1;
      PerformUnfolds(out, op);
      if op.Chunk? {
        out := out + op.chunk;
        continue;
      }
      if op.offset == 0 || op.offset > |out| {
        return None;
      }
      out := AppendCopy(out, op.offset, op.n);
    }
    DecodeDone(buf, pos, out, expected);
    if |out| != expected {
      return None;
    }
    return Some(out);
  }

  // --- the decompressor accepts exactly the well-formed streams ---

  function OpOf(e: Element): Op {
    if e.Literal? then Chunk(e.body) else Copy(e.n, e.offset)
  }

  /** `e` stands at `pos`; the offset of a far copy may be cut off by the end of
      the buffer, as long as zeroes would complete it. */
  ghost predicate Stands(buf: bytes, pos: nat, e: Element) {
    && pos < |buf|
    && Expressible(e)
    && if e.Copy2? || e.Copy4? then Padded(buf, pos, Encode(e)) else At(buf, pos, Encode(e))
  }

  function Zeros(n: nat): bytes {
    seq(n, _ => 0)
  }

  ghost predicate Spells(buf: bytes, pos: nat, es: seq<Element>)
    decreases |es|
  {
    es == [] || (Stands(buf, pos, es[0]) && Spells(buf, pos + |Encode(es[0])|, es[1..]))
  }

  lemma CopyTagSplits(n: nat, hi: nat)
    requires 4 <= n <= 11
    ensures var tag := 1 + 4 * (n - 4) + 32 * hi;
      tag % 4 == 1 && tag / 4 % 8 == n - 4 && tag / 32 == hi
  {
    var tag := 1 + 4 * (n - 4) + 32 * hi;
    assert tag / 32 == hi;
  }

  lemma ShortLiteralStands(buf: bytes, pos: nat, body: bytes)
    requires 0 < |body| <= 60 && At(buf, pos, [4 * (|body| - 1)] + body)
    ensures pos < |buf| && OpAt(buf, pos) == Some((Chunk(body), pos + 1 + |body|))
  {
    hide At, Slice, Le, OpAt;
    var s := [4 * (|body| - 1)] + body;
    AtHead(buf, pos, s);
    assert s[1..] == body;
    OpIsLiteral(buf, pos);
    AtSlice(buf, pos + 1, body);
  }

  lemma LongLiteralStands(buf: bytes, pos: nat, tag: byte, body: bytes, width: nat)
    requires tag % 4 == 0 && tag / 4 == 59 + width && 0 < width
    requires 0 < |body| <= Pow256(width)
    requires At(buf, pos, [tag] + (ToLe(|body| - 1, width) + body))
    ensures pos < |buf| && OpAt(buf, pos) == Some((Chunk(body), pos + 1 + width + |body|))
  {
    hide At, Slice, Le, OpAt, ToLe, Pow256;
    var s := [tag] + (ToLe(|body| - 1, width) + body);
    AtHead(buf, pos, s);
    assert s[1..] == ToLe(|body| - 1, width) + body;
    LiteralLength(buf, pos + 1, body, width);
    OpIsLongLiteral(buf, pos, width);
  }

  lemma LiteralLength(buf: bytes, at: nat, body: bytes, width: nat)
    requires 0 < |body| <= Pow256(width)
    requires At(buf, at, ToLe(|body| - 1, width) + body)
    ensures Le(Slice(buf, at, width)) + 1 == |body|
    ensures Slice(buf, at + width, |body|) == body
  {
    hide At, Slice, Le, ToLe, Pow256;
    var len := ToLe(|body| - 1, width);
    AtSplit(buf, at, len, body);
    AtSlice(buf, at, len);
    AtSlice(buf, at + width, body);
    LeInvertsToLe(|body| - 1, width);
  }

  /** `s` stands at `pos`, whole or completed by zeroes past the end. */
  ghost predicate Padded(buf: bytes, pos: nat, s: bytes)
    requires pos < |buf|
  {
    At(buf, pos, s) || (|buf| - pos < |s| && s == buf[pos..] + Zeros(|s| - (|buf| - pos)))
  }

  /** The clamped slice of an offset cut short reads the same number. */
  lemma OffsetStands(buf: bytes, pos: nat, head: byte, offset: nat, w: nat)
    requires pos < |buf| && w > 0 && offset < Pow256(w)
    requires Padded(buf, pos, [head] + ToLe(offset, w))
    ensures buf[pos] == head && Le(Slice(buf, pos + 1, w)) == offset
  {
    hide Le, ToLe, Pow256;
    var s := [head] + ToLe(offset, w);
    LeInvertsToLe(offset, w);
    if At(buf, pos, s) {
      AtHead(buf, pos, s);
      assert s[1..] == ToLe(offset, w);
      AtSlice(buf, pos + 1, ToLe(offset, w));
    } else {
      var zeros := Zeros(|s| - (|buf| - pos));
      assert s[0] == (buf[pos..] + zeros)[0];
      assert s[1..] == (buf[pos..] + zeros)[1..] == buf[pos + 1..] + zeros;
      assert s[1..] == ToLe(offset, w);
      LePadded(buf[pos + 1..], |zeros|);
      assert Slice(buf, pos + 1, w) == buf[pos + 1..];
    }
  }

  lemma FarCopyStands(buf: bytes, pos: nat, kind: nat, n: nat, offset: nat, w: nat)
    requires pos < |buf| && ((kind == 2 && w == 2) || (kind == 3 && w == 4))
    requires 1 <= n <= 64 && offset < Pow256(w)
    requires Padded(buf, pos, [kind + 4 * (n - 1)] + ToLe(offset, w))
    ensures OpAt(buf, pos) == Some((Copy(n, offset), pos + 1 + w))
  {
    hide OpAt, Slice, Le, ToLe, Pow256, Padded;
    OffsetStands(buf, pos, kind + 4 * (n - 1), offset, w);
    OpIsFarCopy(buf, pos);
  }

  lemma StandsIsRead(buf: bytes, pos: nat, e: Element)
    requires Stands(buf, pos, e)
    ensures OpAt(buf, pos) == Some((OpOf(e), pos + |Encode(e)|))
  {
    hide Slice, Le, At, Pow256, ToLe, OpAt, Padded;
    match e
    case Literal(body, width) =>
      if width == 0 {
        ShortLiteralStands(buf, pos, body);
      } else {
        LongLiteralStands(buf, pos, 4 * (59 + width), body, width);
      }
    case Copy1(n, offset) =>
      NearCopyStands(buf, pos, n, offset / 256, offset % 256);
    case Copy2(n, offset) =>
      FarCopyStands(buf, pos, 2, n, offset, 2);
    case Copy4(n, offset) =>
      FarCopyStands(buf, pos, 3, n, offset, 4);
  }

  lemma NearCopyStands(buf: bytes, pos: nat, n: nat, hi: nat, lo: byte)
    requires 4 <= n <= 11 && hi < 8 && At(buf, pos, [1 + 4 * (n - 4) + 32 * hi, lo])
    ensures pos < |buf| && OpAt(buf, pos) == Some((Copy(n, hi * 256 + lo), pos + 2))
  {
    hide OpAt, At;
    var s := [1 + 4 * (n - 4) + 32 * hi, lo];
    AtHead(buf, pos, s);
    AtHead(buf, pos + 1, s[1..]);
    CopyTagSplits(n, hi);
    OpIsNearCopy(buf, pos);
  }

  lemma PerformIsApply(out: bytes, e: Element)
    requires Expressible(e)
    ensures Perform(out, OpOf(e)) == if Applies(out, e) then Some(Apply(out, e)) else None
  {
    hide Periodic;
  }

  /** Every well-formed stream that spells a denotation of the expected length
      decodes to it, whatever bytes follow. */
  lemma {:induction false} DecodeComplete(buf: bytes, pos: nat, out: bytes, es: seq<Element>)
    requires Spells(buf, pos, es) && WellFormed(out, es)
    ensures Decode(buf, pos, out, |Denote(out, es)|) == Some(Denote(out, es))
    decreases |es|
  {
    hide Stands, Applies, Apply, Encode, OpAt, Perform, Expressible;
    var expected := |Denote(out, es)|;
    if es == [] {
      DecodeDone(buf, pos, out, expected);
    } else {
      var e := es[0];
      StandsInside(buf, pos, e);
      StandsIsRead(buf, pos, e);
      PerformIsApply(out, e);
      DecodeStep(buf, pos, out, expected);
      DecodeComplete(buf, pos + |Encode(e)|, Apply(out, e), es[1..]);
    }
  }

  lemma StandsInside(buf: bytes, pos: nat, e: Element)
    requires Stands(buf, pos, e)
    ensures pos < |buf| && Expressible(e)
  {
  }

  /** What stands at `pos`, read back as an element. */
  function ElementAt(buf: bytes, pos: nat): (e: Element)
    requires pos < |buf|
  {
    var tag: int := buf[pos];
    var n := tag / 4;
    if tag % 4 == 0 then
      if n < 60 then Literal(Slice(buf, pos + 1, n + 1), 0)
      else Literal(Slice(buf, pos + 1 + (n - 59), Le(Slice(buf, pos + 1, n - 59)) + 1), n - 59)
    else if tag % 4 == 1 then
      Copy1(4 + n % 8, tag / 32 * 256 + if pos + 1 < |buf| then buf[pos + 1] else 0)
    else if tag % 4 == 2 then Copy2(n + 1, Le(Slice(buf, pos + 1, 2)))
    else Copy4(n + 1, Le(Slice(buf, pos + 1, 4)))
  }

  lemma {:induction false} ToLeInvertsLe(s: bytes)
    ensures ToLe(Le(s), |s|) == s
  {
    if s != [] {
      var rest := Le(s[1..]);
      ToLeInvertsLe(s[1..]);
    }
  }

  /** Short of `w` bytes, the number is written back with zeroes. */
  lemma SliceWritesBack(buf: bytes, at: nat, w: nat)
    requires at <= |buf|
    ensures var s := Slice(buf, at, w);
      && Le(s) < Pow256(w)
      && ToLe(Le(s), w) == s + Zeros(w - |s|)
  {
    hide Le, ToLe, Pow256, Slice;
    var s := Slice(buf, at, w);
    var padded := s + Zeros(w - |s|);
    LePadded(s, w - |s|);
    LeBounded(padded);
    ToLeInvertsLe(padded);
  }

  lemma ShortLiteralReadStands(buf: bytes, pos: nat, tag: byte)
    requires pos < |buf| && buf[pos] == tag && tag % 4 == 0 && tag / 4 < 60 && OpAt(buf, pos).Some?
    ensures var e := ElementAt(buf, pos);
      Stands(buf, pos, e) && OpAt(buf, pos) == Some((OpOf(e), pos + |Encode(e)|))
  {
    hide Slice, OpAt, At;
    OpIsLiteral(buf, pos);
    var chunk := Slice(buf, pos + 1, tag / 4 + 1);
    assert tag == 4 * (|chunk| - 1);
    SlicesJoin(buf, pos, tag, [], chunk);
    assert [] + chunk == chunk;
  }

  lemma LongLiteralReadStands(buf: bytes, pos: nat, tag: byte, width: nat)
    requires pos < |buf| && buf[pos] == tag && tag % 4 == 0 && tag / 4 == 59 + width && 0 < width
    requires OpAt(buf, pos).Some?
    ensures var e := ElementAt(buf, pos);
      Stands(buf, pos, e) && OpAt(buf, pos) == Some((OpOf(e), pos + |Encode(e)|))
  {
    hide Slice, OpAt, At, Le, ToLe, Pow256;
    OpIsLongLiteral(buf, pos, width);
    var len := Slice(buf, pos + 1, width);
    var chunk := Slice(buf, pos + 1 + width, Le(len) + 1);
    assert tag == 4 * (59 + width);
    SliceWritesBack(buf, pos + 1, width);
    LengthIsWhole(buf, pos + 1, width, Le(len) + 1);
    SlicesJoin(buf, pos, tag, len, chunk);
  }

  lemma LengthIsWhole(buf: bytes, at: nat, width: nat, n: nat)
    requires n > 0 && at <= |buf| && |Slice(buf, at + width, n)| == n
    ensures |Slice(buf, at, width)| == width
    ensures Slice(buf, at, width) + Zeros(0) == Slice(buf, at, width)
  {
  }

  lemma SlicesJoin(buf: bytes, pos: nat, tag: byte, len: bytes, chunk: bytes)
    requires pos < |buf| && buf[pos] == tag
    requires pos + 1 + |len| + |chunk| <= |buf|
    requires len == buf[pos + 1..pos + 1 + |len|]
    requires chunk == buf[pos + 1 + |len|..pos + 1 + |len| + |chunk|]
    ensures At(buf, pos, [tag] + (len + chunk))
  {
    AtSplit(buf, pos + 1, len, chunk);
    AtSplit(buf, pos, [tag], len + chunk);
  }

  lemma NearCopyReadStands(buf: bytes, pos: nat, tag: byte)
    requires pos < |buf| && buf[pos] == tag && tag % 4 == 1 && OpAt(buf, pos).Some?
    ensures var e := ElementAt(buf, pos);
      Stands(buf, pos, e) && OpAt(buf, pos) == Some((OpOf(e), pos + |Encode(e)|))
  {
    hide Slice, OpAt, Le, Pow256;
    OpIsNearCopy(buf, pos);
    var hi: nat, lo := tag / 32, buf[pos + 1];
    NearOffset(hi, lo);
    assert tag == 1 + 4 * (tag / 4 % 8) + 32 * hi;
    assert buf[pos..pos + 2] == [tag, lo];
  }

  lemma NearOffset(hi: nat, lo: byte)
    ensures (hi * 256 + lo) / 256 == hi && (hi * 256 + lo) % 256 == lo
  {
  }

  lemma FarCopyReadStands(buf: bytes, pos: nat, tag: byte)
    requires pos < |buf| && buf[pos] == tag && tag % 4 >= 2
    ensures var e := ElementAt(buf, pos);
      Stands(buf, pos, e) && OpAt(buf, pos) == Some((OpOf(e), pos + |Encode(e)|))
  {
    hide Slice, OpAt, Le, ToLe, Pow256;
    OpIsFarCopy(buf, pos);
    var w: nat := if tag % 4 == 2 then 2 else 4;
    SliceWritesBack(buf, pos + 1, w);
    PaddedOffset(buf, pos, w);
    assert tag == tag % 4 + 4 * (tag / 4);
  }

  lemma PaddedOffset(buf: bytes, pos: nat, w: nat)
    requires pos < |buf|
    ensures var s := Slice(buf, pos + 1, w);
      Padded(buf, pos, [buf[pos]] + (s + Zeros(w - |s|)))
  {
    var s := Slice(buf, pos + 1, w);
    var whole := [buf[pos]] + (s + Zeros(w - |s|));
    if pos + 1 + w <= |buf| {
      assert whole == buf[pos..pos + 1 + w];
    } else {
      assert s == buf[pos + 1..];
      assert whole == buf[pos..] + Zeros(w - |s|);
    }
  }

  lemma ReadStands(buf: bytes, pos: nat)
    requires pos < |buf| && OpAt(buf, pos).Some?
    ensures var e := ElementAt(buf, pos);
      Stands(buf, pos, e) && OpAt(buf, pos) == Some((OpOf(e), pos + |Encode(e)|))
  {
    hide OpAt, ElementAt, Stands;
    var tag := buf[pos];
    if tag % 4 == 0 {
      if tag / 4 < 60 {
        ShortLiteralReadStands(buf, pos, tag);
      } else {
        LongLiteralReadStands(buf, pos, tag, tag / 4 - 59);
      }
    } else if tag % 4 == 1 {
      NearCopyReadStands(buf, pos, tag);
    } else {
      FarCopyReadStands(buf, pos, tag);
    }
  }

  /** Whatever decodes was spelled by a well-formed stream meaning just that. */
  lemma {:induction false} DecodeSound(buf: bytes, pos: nat, out: bytes, expected: nat) returns (es: seq<Element>)
    requires Decode(buf, pos, out, expected).Some?
    ensures Spells(buf, pos, es) && WellFormed(out, es)
    ensures Decode(buf, pos, out, expected) == Some(Denote(out, es))
    ensures |Denote(out, es)| == expected
    decreases |buf| - pos
  {
    hide Stands, Applies, Apply, Encode, OpAt, Perform, Expressible, ElementAt, OpOf;
    if pos >= |buf| || |out| >= expected {
      es := [];
      DecodeDone(buf, pos, out, expected);
    } else {
      DecodeStep(buf, pos, out, expected);
      ReadStands(buf, pos);
      var e := ElementAt(buf, pos);
      StandsInside(buf, pos, e);
      PerformIsApply(out, e);
      var rest := DecodeSound(buf, pos + |Encode(e)|, Apply(out, e), expected);
      es := [e] + rest;
      assert es[1..] == rest;
    }
  }

  // --- the guarantees of the decompressor ---

  ghost predicate Means(buf: bytes, pos: nat, es: seq<Element>, out: bytes) {
    Spells(buf, pos, es) && WellFormed([], es) && Denote([], es) == out
  }

  /** The decompressor accepts exactly the buffers that declare a length and
      spell a well-formed stream denoting that many bytes, and then returns what
      the stream denotes; everything else is refused. */
  lemma DecompressExact(buf: bytes, out: bytes)
    ensures DecompressSpec(buf) == Some(out) <==>
      exists pos, es :: ReadVarintSpec(buf, 0) == Some((|out|, pos)) && Means(buf, pos, es, out)
  {
    hide ReadVarintSpec, Spells, WellFormed, Denote, Decode;
    if DecompressSpec(buf) == Some(out) {
      var expected, pos := ReadVarintSpec(buf, 0).value.0, ReadVarintSpec(buf, 0).value.1;
      var es := DecodeSound(buf, pos, [], expected);
      assert Means(buf, pos, es, out);
    }
    if exists pos, es :: ReadVarintSpec(buf, 0) == Some((|out|, pos)) && Means(buf, pos, es, out) {
      var pos, es :| ReadVarintSpec(buf, 0) == Some((|out|, pos)) && Means(buf, pos, es, out);
      DecodeComplete(buf, pos, [], es);
    }
  }

  function EncodeAll(es: seq<Element>): bytes {
    if es == [] then []
    else (if Expressible(es[0]) then Encode(es[0]) else []) + EncodeAll(es[1..])
  }

  lemma {:induction false} EncodedSpells(buf: bytes, pos: nat, out: bytes, es: seq<Element>)
    requires WellFormed(out, es) && At(buf, pos, EncodeAll(es))
    ensures Spells(buf, pos, es)
    decreases |es|
  {
    hide Encode, Apply, At, Expressible;
    if es != [] {
      AtSplit(buf, pos, Encode(es[0]), EncodeAll(es[1..]));
      AtHead(buf, pos, Encode(es[0]));
      EncodedSpells(buf, pos + |Encode(es[0])|, Apply(out, es[0]), es[1..]);
    }
  }

  /** Compressed bodies come back: a length, then any well-formed stream of that
      many bytes, then anything. */
  lemma DecompressInverts(es: seq<Element>, tail: bytes)
    requires WellFormed([], es) && |Denote([], es)| < VARINT_LIMIT
    ensures DecompressSpec(Varint(|Denote([], es)|) + EncodeAll(es) + tail) == Some(Denote([], es))
  {
    hide ReadVarintSpec, EncodeAll, WellFormed, Denote, Spells, Varint, VarintFrom, Decode;
    var out := Denote([], es);
    var header := Varint(|out|);
    var buf := header + EncodeAll(es) + tail;
    assert buf == [] + header + (EncodeAll(es) + tail);
    AtWhole([], header, EncodeAll(es) + tail);
    ReadVarintInverts(buf, 0, |out|);
    AtWhole(header, EncodeAll(es), tail);
    EncodedSpells(buf, |header|, [], es);
    DecodeComplete(buf, |header|, [], es);
  }
}
