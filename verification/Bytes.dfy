/** Byte strings as the readers see them: clamped slices, little-endian
    integers and capped varints, each with the writer it inverts. */
module Bytes {
  import opened Wrappers

  type byte = b: int | 0 <= b < 256

  type bytes = seq<byte>

  /** `s[pos:pos+n]` with Python's clamping: short at the end, never an error. */
  function Slice(s: bytes, pos: nat, n: nat): (r: bytes)
    ensures |r| <= n
    ensures pos + n <= |s| ==> r == s[pos..pos + n]
    ensures |r| == n ==> n == 0 || pos + n <= |s|
    ensures r != [] ==> pos + |r| <= |s| && r == s[pos..pos + |r|]
  {
    if pos >= |s| then [] else if pos + n <= |s| then s[pos..pos + n] else s[pos..]
  }

  /** `x` occurs in `s` at `pos`. */
  ghost predicate At(s: bytes, pos: nat, x: bytes) {
    pos + |x| <= |s| && s[pos..pos + |x|] == x
  }

  lemma SliceOfSlice<T>(s: seq<T>, a: nat, b: nat, i: nat, j: nat)
    requires i <= j && a + j <= b <= |s|
    ensures s[a..b][i..j] == s[a + i..a + j]
  {
    var t := s[a..b];
    forall k | 0 <= k < j - i
      ensures t[i..j][k] == s[a + i..a + j][k]
    {
      assert t[i..j][k] == t[i + k] == s[a + (i + k)];
    }
    assert t[i..j] == s[a + i..a + j];
  }

  lemma AtSplit(s: bytes, pos: nat, x: bytes, y: bytes)
    ensures At(s, pos, x + y) <==> At(s, pos, x) && At(s, pos + |x|, y)
  {
    if pos + |x + y| <= |s| {
      assert s[pos..pos + |x + y|] == s[pos..pos + |x|] + s[pos + |x|..pos + |x| + |y|];
      if At(s, pos, x + y) {
        assert s[pos..pos + |x|] == (x + y)[..|x|] == x;
        assert s[pos + |x|..pos + |x| + |y|] == (x + y)[|x|..] == y;
      }
    }
  }

  lemma AtHead(s: bytes, pos: nat, x: bytes)
    requires At(s, pos, x) && x != []
    ensures pos < |s| && s[pos] == x[0]
    ensures At(s, pos + 1, x[1..])
  {
    assert [x[0]] + x[1..] == x;
    AtSplit(s, pos, [x[0]], x[1..]);
    assert s[pos] == s[pos..pos + |x|][0];
  }

  lemma AtSlice(s: bytes, pos: nat, x: bytes)
    requires At(s, pos, x)
    ensures Slice(s, pos, |x|) == x
  {
  }

  lemma AtWhole(pre: bytes, x: bytes, post: bytes)
    ensures At(pre + x + post, |pre|, x)
  {
  }

  // --- int.from_bytes(_, "little") ---

  function Le(s: bytes): (n: nat)
  {
    if s == [] then 0 else s[0] + 256 * Le(s[1..])
  }

  function Pow256(w: nat): nat {
    if w == 0 then 1 else 256 * Pow256(w - 1)
  }

  function ToLe(n: nat, w: nat): (s: bytes)
    ensures |s| == w
  {
    if w == 0 then [] else [n % 256] + ToLe(n / 256, w - 1)
  }

  lemma {:induction false} LeInvertsToLe(n: nat, w: nat)
    requires n < Pow256(w)
    ensures Le(ToLe(n, w)) == n
  {
    if w > 0 {
      LeInvertsToLe(n / 256, w - 1);
    }
  }

  lemma {:induction false} LeBounded(s: bytes)
    ensures Le(s) < Pow256(|s|)
  {
    if s != [] {
      LeBounded(s[1..]);
    }
  }

  // --- varints ---

  const MAX_VARINT_BYTES: nat := 10

  function Pow2(n: nat): (p: nat)
    ensures p > 0
  {
    if n == 0 then 1 else 2 * Pow2(n - 1)
  }

  /** One more than the largest value ten groups of seven bits hold. */
  const VARINT_LIMIT: nat := Pow2(7 * MAX_VARINT_BYTES)

  lemma Pow2Seven(n: nat)
    ensures Pow2(n + 7) == 128 * Pow2(n)
  {
    assert Pow2(n + 7) == 2 * Pow2(n + 6);
    assert Pow2(n + 6) == 2 * Pow2(n + 5);
    assert Pow2(n + 5) == 2 * Pow2(n + 4);
    assert Pow2(n + 4) == 2 * Pow2(n + 3);
    assert Pow2(n + 3) == 2 * Pow2(n + 2);
    assert Pow2(n + 2) == 2 * Pow2(n + 1);
  }

  function Varint(n: nat): bytes {
    if n < 128 then [n] else [128 + n % 128] + Varint(n / 128)
  }

  /** The value and the end of the varint at `pos`, reading at most `left`
      bytes; None where the reader raises. */
  function VarintFrom(buf: bytes, pos: nat, left: nat): (r: Option<(nat, nat)>)
    ensures r.Some? ==> pos < r.value.1 <= |buf| && r.value.1 <= pos + left
    decreases |buf| - pos
  {
    if left == 0 || pos >= |buf| then None
    else if buf[pos] < 128 then Some((buf[pos], pos + 1))
    else
      match VarintFrom(buf, pos + 1, left - 1)
      case None => None
      case Some((v, p)) => Some((buf[pos] - 128 + 128 * v, p))
  }

  function ReadVarintSpec(buf: bytes, pos: nat): (r: Option<(nat, nat)>)
    ensures r.Some? ==> pos < r.value.1 <= |buf|
  {
    VarintFrom(buf, pos, MAX_VARINT_BYTES)
  }

  /** The outcome of a read whose first rounds left `value` below `scale`. */
  ghost function Above(value: nat, scale: nat, rest: Option<(nat, nat)>): Option<(nat, nat)> {
    match rest
    case None => None
    case Some((v, p)) => Some((value + scale * v, p))
  }

  lemma AboveStep(buf: bytes, at: nat, left: nat, value: nat, scale: nat)
    requires at < |buf| && 0 < left && value < scale
    ensures var low := buf[at] % 128;
      && value + low * scale < 128 * scale
      && Above(value, scale, VarintFrom(buf, at, left)) ==
         if buf[at] < 128 then Some((value + low * scale, at + 1))
         else Above(value + low * scale, 128 * scale, VarintFrom(buf, at + 1, left - 1))
  {
    var low := buf[at] % 128;
    var rest := VarintFrom(buf, at + 1, left - 1);
    ScaledDigit(scale, low, if rest.Some? then rest.value.0 else 0);
  }

  lemma AboveStart(buf: bytes, pos: nat)
    ensures Pow2(0) == 1
    ensures ReadVarintSpec(buf, pos) == Above(0, 1, VarintFrom(buf, pos, MAX_VARINT_BYTES))
    ensures forall at: nat, left, value, scale :: at >= |buf| || left == 0 ==>
      Above(value, scale, VarintFrom(buf, at, left)) == None
  {
    if VarintFrom(buf, pos, MAX_VARINT_BYTES).Some? {
      assert 0 + 1 * VarintFrom(buf, pos, MAX_VARINT_BYTES).value.0 == VarintFrom(buf, pos, MAX_VARINT_BYTES).value.0;
    }
  }

  lemma ScaledDigit(scale: nat, low: nat, v: nat)
    requires low < 128
    ensures low * scale <= 127 * scale
    ensures scale * (low + 128 * v) == low * scale + (128 * scale) * v
    ensures scale * low == low * scale
  {
  }

  /** The bits added by each round lie above the ones already there, so the
      source's `|=` is an addition. */
  method ReadVarint(buf: bytes, pos: nat) returns (r: Option<(nat, nat)>)
    ensures r == ReadVarintSpec(buf, pos)
  {
    hide Above, VarintFrom, ReadVarintSpec, Pow2;
    AboveStart(buf, pos);
    var value: nat := 0;
    var shift: nat := 0;
    var at := pos;
    for i := 0 to MAX_VARINT_BYTES
      invariant shift == 7 * i && at == pos + i
      invariant value < Pow2(shift)
      invariant ReadVarintSpec(buf, pos) ==
        Above(value, Pow2(shift), VarintFrom(buf, at, MAX_VARINT_BYTES - i))
    {
      if at >= |buf| {
        return None;
      }
      AboveStep(buf, at, MAX_VARINT_BYTES - i, value, Pow2(shift));
      var b := buf[at];
      at := at + 1;
      Pow2Seven(shift);
      value := value + (b % 128) * Pow2(shift);
      if b < 128 {
        return Some((value, at));
      }
      shift := shift + 7;
    }
    return None;
  }

  /** A reader that may take `left` bytes reads back a varint exactly when the
      number fits in `left` groups of seven bits. */
  lemma {:induction false} VarintFromInverts(buf: bytes, pos: nat, n: nat, left: nat)
    requires At(buf, pos, Varint(n))
    ensures VarintFrom(buf, pos, left) ==
      if 0 < left && n < Pow2(7 * left) then Some((n, pos + |Varint(n)|)) else None
    decreases left
  {
    AtHead(buf, pos, Varint(n));
    if left > 0 {
      Pow2Seven(7 * (left - 1));
      assert 7 * (left - 1) + 7 == 7 * left;
      if n >= 128 {
        assert Varint(n)[1..] == Varint(n / 128);
        VarintFromInverts(buf, pos + 1, n / 128, left - 1);
      }
    }
  }

  /** `read_varint` inverts the writer and refuses, rather than truncates, a
      number its ten bytes cannot express. */
  lemma ReadVarintInverts(buf: bytes, pos: nat, n: nat)
    requires At(buf, pos, Varint(n))
    ensures ReadVarintSpec(buf, pos) ==
      if n < VARINT_LIMIT then Some((n, pos + |Varint(n)|)) else None
  {
    VarintFromInverts(buf, pos, n, MAX_VARINT_BYTES);
  }

  /** What groups of seven bits amount to, the lowest first. */
  function Base128(s: bytes): nat {
    if s == [] then 0 else s[0] % 128 + 128 * Base128(s[1..])
  }

  /** A number as any writer may spell it: ten bytes at the most, each but the last
      with its top bit set. */
  ghost predicate SpellsNumber(buf: bytes, pos: nat, end: nat, n: nat) {
    && pos < end <= |buf| && end - pos <= 10
    && (forall i :: pos <= i < end - 1 ==> buf[i] >= 128) && buf[end - 1] < 128
    && n == Base128(buf[pos..end])
  }

  lemma {:induction false} VarintFromExact(buf: bytes, pos: nat, left: nat, n: nat, end: nat)
    ensures VarintFrom(buf, pos, left) == Some((n, end)) <==>
      && pos < end <= |buf| && end - pos <= left
      && (forall i :: pos <= i < end - 1 ==> buf[i] >= 128) && buf[end - 1] < 128
      && n == Base128(buf[pos..end])
    decreases left
  {
    hide Base128;
    if left > 0 && pos < |buf| {
      if pos < end <= |buf| { Base128First(buf, pos, end); }
      if buf[pos] >= 128 {
        var rest := VarintFrom(buf, pos + 1, left - 1);
        if rest.Some? { VarintFromExact(buf, pos + 1, left - 1, rest.value.0, rest.value.1); }
        if pos + 1 < end <= |buf| { VarintFromExact(buf, pos + 1, left - 1, Base128(buf[pos + 1..end]), end); }
      }
    }
  }

  lemma Base128First(buf: bytes, pos: nat, end: nat)
    requires pos < end <= |buf|
    ensures Base128(buf[pos..end]) == buf[pos] % 128 + 128 * Base128(buf[pos + 1..end])
    ensures Base128([]) == 0 && (end == pos + 1 ==> buf[pos + 1..end] == [])
  {
    assert buf[pos..end][1..] == buf[pos + 1..end];
  }

  /** `read_varint` returns exactly the number that is spelled there, and refuses where
      none is. */
  lemma ReadVarintExact(buf: bytes, pos: nat, n: nat, end: nat)
    ensures ReadVarintSpec(buf, pos) == Some((n, end)) <==> SpellsNumber(buf, pos, end, n)
  {
    hide Base128, VarintFrom;
    VarintFromExact(buf, pos, MAX_VARINT_BYTES, n, end);
  }

  /** A length in any spelling and that many bytes, all of them there. */
  ghost predicate SpellsField(buf: bytes, pos: nat, end: nat, x: bytes) {
    exists at: nat :: SpellsNumber(buf, pos, at, |x|) && end == at + |x| <= |buf| && x == buf[at..end]
  }

  lemma FieldExact(buf: bytes, pos: nat, end: nat, x: bytes)
    ensures SpellsField(buf, pos, end, x) <==>
      match ReadVarintSpec(buf, pos)
      case None => false
      case Some((n, at)) => |Slice(buf, at, n)| == n && x == Slice(buf, at, n) && end == at + n
  {
    hide ReadVarintSpec, SpellsNumber;
    var r := ReadVarintSpec(buf, pos);
    if r.Some? { ReadVarintExact(buf, pos, r.value.0, r.value.1); }
    forall at: nat | SpellsNumber(buf, pos, at, |x|)
      ensures r == Some((|x|, at))
    {
      ReadVarintExact(buf, pos, |x|, at);
    }
  }

  /** Zeroes appended to a little-endian number do not change it: what a
      clamped slice reads is the number padded with zeroes. */
  lemma {:induction false} LePadded(s: bytes, n: nat)
    ensures Le(s + seq(n, _ => 0)) == Le(s)
  {
    if s == [] {
      assert s + seq(n, _ => 0) == seq(n, _ => 0);
      if n > 0 {
        assert seq(n, _ => 0)[1..] == [] + seq(n - 1, _ => 0);
        LePadded([], n - 1);
      }
    } else {
      assert (s + seq(n, _ => 0))[1..] == s[1..] + seq(n, _ => 0);
      LePadded(s[1..], n);
    }
  }
}
