/** A byte survives the trip through eight bits and back. */
module ByteWidth {

  lemma ByteBack(b: int)
    requires 0 <= b < 256
    ensures (b as bv8) as int == b
  {
  }
}

/** The Castagnoli CRC guarding every log fragment: the table loop against the
    bit-serial shift register, LevelDB's mask, and what a mismatch cannot miss. */
module Crc32c {
  import opened ByteWidth
  import opened Bytes

  const POLY_REVERSED: bv32 := 0x82f63b78
  const MASK_DELTA: bv32 := 0xa282ead8

  function Bits(b: byte): bv32 {
    (b as bv8) as bv32
  }

  /** `x & 0xff` as a byte. */
  function Low(x: bv32): (b: byte)
    ensures Bits(b) == x & 0xff
  {
    var low := (x & 0xff) as bv8;
    ByteOfBits(low);
    low as int
  }

  lemma ByteOfBits(x: bv8)
    ensures (x as int) as bv8 == x
  {
  }

  function Xor(a: bv32, b: bv32): bv32 { a ^ b }

  function LowBit(x: bv32): bv32 { x & 1 }

  function Half(x: bv32): bv32 { x >> 1 }

  // --- the reference: a shift register clocked one message bit at a time ---

  type Feedback = bv32 -> bv32

  /** One clock of the reversed register: the outgoing bit selects the polynomial. */
  function Clock(c: bv32): bv32 {
    if c & 1 == 1 then (c >> 1) ^ POLY_REVERSED else c >> 1
  }

  function Clocks(f: Feedback, c: bv32, n: nat): bv32
    decreases n, c
  {
    if n == 0 then c else Clocks(f, f(c), n - 1)
  }

  /** Adds the low `n` bits of `x`, least significant first, to the outgoing
      bit, clocking after each. */
  function FeedBits(f: Feedback, c: bv32, x: bv32, n: nat): bv32
    decreases n, c
  {
    if n == 0 then c else FeedBits(f, f(Xor(c, LowBit(x))), Half(x), n - 1)
  }

  function Register(f: Feedback, data: bytes, c: bv32): bv32 {
    if data == [] then c else Register(f, data[1..], FeedBits(f, c, Bits(data[0]), 8))
  }

  function Castagnoli(data: bytes): bv32 {
    Register(Clock, data, 0xffff_ffff) ^ 0xffff_ffff
  }

  // --- any linear register may be fed a byte at a time ---

  ghost predicate Additive(f: Feedback) {
    forall a, b {:trigger f(Xor(a, b))} :: f(Xor(a, b)) == Xor(f(a), f(b))
  }

  /** Nothing is fed back while the outgoing bit is clear. */
  ghost predicate Shifts(f: Feedback) {
    forall x :: LowBit(x) == 0 ==> f(x) == Half(x)
  }

  ghost predicate Linear(f: Feedback) {
    Additive(f) && Shifts(f)
  }

  lemma FeedbackSplits(f: Feedback, c: bv32, x: bv32)
    requires Linear(f)
    ensures f(Xor(c, x)) == Xor(f(Xor(c, LowBit(x))), Half(x))
  {
    var even := x & 0xffff_fffe;
    EvenPart(x);
    XorRegroups(c, x);
    assert f(Xor(Xor(c, LowBit(x)), even)) == Xor(f(Xor(c, LowBit(x))), f(even));
  }

  lemma EvenPart(x: bv32)
    ensures LowBit(x & 0xffff_fffe) == 0 && Half(x & 0xffff_fffe) == Half(x)
  {
  }

  lemma XorRegroups(c: bv32, x: bv32)
    ensures Xor(c, x) == Xor(Xor(c, LowBit(x)), x & 0xffff_fffe)
  {
  }

  /** Feeding bits one at a time is adding them all at once and clocking. */
  lemma {:induction false} FeedBitsIsClocks(f: Feedback, c: bv32, x: bv32, n: nat)
    requires Linear(f)
    ensures Clocks(f, Xor(c, x), n) == Xor(FeedBits(f, c, x, n), Clocks(Half, x, n))
    decreases n
  {
    if n > 0 {
      FeedbackSplits(f, c, x);
      FeedBitsIsClocks(f, f(Xor(c, LowBit(x))), Half(x), n - 1);
    }
  }

  lemma {:induction false} ClocksAdditive(f: Feedback, add: (bv32, bv32) -> bv32, a: bv32, b: bv32, n: nat)
    requires forall x, y {:trigger f(add(x, y))} :: f(add(x, y)) == add(f(x), f(y))
    ensures Clocks(f, add(a, b), n) == add(Clocks(f, a, n), Clocks(f, b, n))
    decreases n
  {
    if n > 0 {
      ClocksAdditive(f, add, f(a), f(b), n - 1);
    }
  }

  lemma ByteRunsOut(b: byte)
    ensures Clocks(Half, Bits(b), 8) == 0
  {
    var x := Bits(b);
    assert Clocks(Half, x, 8) == Clocks(Half, x >> 1, 7) == Clocks(Half, x >> 2, 6)
        == Clocks(Half, x >> 3, 5) == Clocks(Half, x >> 4, 4);
    assert Clocks(Half, x >> 4, 4) == Clocks(Half, x >> 5, 3) == Clocks(Half, x >> 6, 2)
        == Clocks(Half, x >> 7, 1) == Clocks(Half, x >> 8, 0);
  }

  lemma FeedByteIsClocks(f: Feedback, c: bv32, b: byte)
    requires Linear(f)
    ensures FeedBits(f, c, Bits(b), 8) == Clocks(f, Xor(c, Bits(b)), 8)
  {
    FeedBitsIsClocks(f, c, Bits(b), 8);
    ByteRunsOut(b);
    XorZero(FeedBits(f, c, Bits(b), 8));
  }

  lemma XorZero(a: bv32)
    ensures Xor(a, 0) == a
  {
  }

  lemma {:induction false} ClocksOfHigh(f: Feedback, x: bv32)
    requires Linear(f) && x & 0xff == 0
    ensures Clocks(f, x, 8) == x >> 8
  {
    var x1, x2, x3, x4 := x >> 1, x >> 2, x >> 3, x >> 4;
    var x5, x6, x7 := x >> 5, x >> 6, x >> 7;
    HighBitsClear(x);
    assert Clocks(f, x, 8) == Clocks(f, x1, 7) == Clocks(f, x2, 6) == Clocks(f, x3, 5);
    assert Clocks(f, x3, 5) == Clocks(f, x4, 4) == Clocks(f, x5, 3) == Clocks(f, x6, 2);
    assert Clocks(f, x6, 2) == Clocks(f, x7, 1) == Clocks(f, x >> 8, 0);
  }

  lemma HighBitsClear(x: bv32)
    requires x & 0xff == 0
    ensures LowBit(x) == LowBit(x >> 1) == LowBit(x >> 2) == LowBit(x >> 3) == LowBit(x >> 4) == 0
    ensures LowBit(x >> 5) == LowBit(x >> 6) == LowBit(x >> 7) == 0
    ensures Half(x) == x >> 1 && Half(x >> 1) == x >> 2 && Half(x >> 2) == x >> 3
    ensures Half(x >> 3) == x >> 4 && Half(x >> 4) == x >> 5 && Half(x >> 5) == x >> 6
    ensures Half(x >> 6) == x >> 7 && Half(x >> 7) == x >> 8
  {
  }

  lemma ClocksSplit(f: Feedback, c: bv32, lo: bv32, hi: bv32)
    requires Linear(f) && hi & 0xff == 0 && hi >> 8 == c >> 8
    ensures Clocks(f, Xor(lo, hi), 8) == Xor(Clocks(f, lo, 8), c >> 8)
  {
    ClocksAdditive(f, Xor, lo, hi, 8);
    ClocksOfHigh(f, hi);
  }

  /** `table[(c ^ b) & 0xff] ^ (c >> 8)` feeds the eight bits of `b`. */
  lemma TableStep(f: Feedback, c: bv32, b: byte)
    requires Linear(f)
    ensures Xor(Clocks(f, Bits(Low(Xor(c, Bits(b)))), 8), c >> 8) == FeedBits(f, c, Bits(b), 8)
  {
    FeedByteIsClocks(f, c, b);
    var hi := HighPart(c, b);
    ClocksSplit(f, c, Bits(Low(Xor(c, Bits(b)))), hi);
  }

  lemma HighPart(c: bv32, b: byte) returns (hi: bv32)
    ensures hi & 0xff == 0 && hi >> 8 == c >> 8
    ensures Xor(Bits(Low(Xor(c, Bits(b)))), hi) == Xor(c, Bits(b))
  {
    hi := Xor(c, Bits(b)) & 0xffff_ff00;
    Halves(c, b);
  }

  lemma Halves(c: bv32, b: byte)
    ensures var x := Xor(c, Bits(b));
      && Xor(x & 0xff, x & 0xffff_ff00) == x
      && (x & 0xffff_ff00) & 0xff == 0
      && (x & 0xffff_ff00) >> 8 == c >> 8
  {
  }

  // --- the Castagnoli register is such a register ---

  lemma ClockIsLinear()
    ensures Linear(Clock)
  {
    var f: Feedback := Clock;
    forall a, b
      ensures f(Xor(a, b)) == Xor(f(a), f(b))
    {
      ClockAdditive(a, b);
    }
  }

  lemma ClockAdditive(a: bv32, b: bv32)
    ensures Clock(Xor(a, b)) == Xor(Clock(a), Clock(b))
  {
    if a & 1 == 1 {
      if b & 1 == 1 { BothOdd(a, b); } else { OneOdd(a, b); }
    } else if b & 1 == 1 {
      OddOne(a, b);
    } else {
      BothEven(a, b);
    }
  }

  lemma BothOdd(a: bv32, b: bv32)
    requires a & 1 == 1 && b & 1 == 1
    ensures Clock(Xor(a, b)) == Xor(Clock(a), Clock(b))
  {
  }

  lemma OneOdd(a: bv32, b: bv32)
    requires a & 1 == 1 && b & 1 == 0
    ensures Clock(Xor(a, b)) == Xor(Clock(a), Clock(b))
  {
    assert (a ^ b) >> 1 == (a >> 1) ^ (b >> 1);
  }

  lemma OddOne(a: bv32, b: bv32)
    requires a & 1 == 0 && b & 1 == 1
    ensures Clock(Xor(a, b)) == Xor(Clock(a), Clock(b))
  {
    OneOdd(b, a);
    XorSwaps(a, b);
    XorSwaps(Clock(a), Clock(b));
  }

  lemma BothEven(a: bv32, b: bv32)
    requires a & 1 == 0 && b & 1 == 0
    ensures Clock(Xor(a, b)) == Xor(Clock(a), Clock(b))
  {
  }

  // --- pc/leveldb.py's two loops ---

  ghost predicate IsTable(table: seq<bv32>) {
    |table| == 256 && forall i: byte :: table[i] == Clocks(Clock, Bits(i), 8)
  }

  method BuildTable() returns (table: seq<bv32>)
    ensures IsTable(table)
  {
    table := [];
    for i := 0 to 256
      invariant |table| == i
      invariant forall j: byte :: j < i ==> table[j] == Clocks(Clock, Bits(j), 8)
    {
      var c := Bits(i);
      for k := 0 to 8
        invariant Clocks(Clock, c, 8 - k) == Clocks(Clock, Bits(i), 8)
      {
        c := Clock(c);
      }
      table := table + [c];
    }
  }

  method Crc(data: bytes, table: seq<bv32>) returns (crc: bv32)
    requires IsTable(table)
    ensures crc == Castagnoli(data)
  {
    var c: bv32 := 0xffff_ffff;
    for i := 0 to |data|
      invariant Register(Clock, data[i..], c) == Register(Clock, data, 0xffff_ffff)
    {
      ClockIsLinear();
      TableStep(Clock, c, data[i]);
      assert data[i..][1..] == data[i + 1..];
      c := Xor(table[Low(Xor(c, Bits(data[i])))], c >> 8);
    }
    return c ^ 0xffff_ffff;
  }

  // --- LevelDB's mask ---

  function Mask(crc: bv32): bv32 {
    ((crc >> 15) | (crc << 17)) + MASK_DELTA
  }

  function Unmask(masked: bv32): bv32 {
    var rot := masked - MASK_DELTA;
    (rot >> 17) | (rot << 15)
  }

  lemma UnmaskInvertsMask(crc: bv32)
    ensures Unmask(Mask(crc)) == crc
    ensures Mask(Unmask(crc)) == crc
  {
  }

  lemma FedOnce(c: bv32, x: bv32, n: nat, next: bv32)
    requires n > 0 && next == (if (c ^ (x & 1)) & 1 == 1 then ((c ^ (x & 1)) >> 1) ^ 0x82f63b78 else (c ^ (x & 1)) >> 1)
    ensures FeedBits(Clock, c, x, n) == FeedBits(Clock, next, x >> 1, n - 1)
  {
  }

  lemma FedNone(c: bv32, x: bv32)
    ensures FeedBits(Clock, c, x, 0) == c
  {
  }

  /** The checksum of nothing and of the one byte "1", and what the mask takes off. */
  lemma CheckValues()
    ensures Castagnoli([]) == 0 && Castagnoli([0x31]) == 0x90f599e3
    ensures Unmask(0xa282ead8) == 0 && Unmask(0xa282ead9) == 0x8000
  {
    hide FeedBits;
    assert Bits(0x31) == 0x31;
    FedOnce(0xffffffff, 0x31, 8, 0x7fffffff);
    FedOnce(0x7fffffff, 0x18, 7, 0xbd09c487);
    FedOnce(0xbd09c487, 0xc, 6, 0xdc72d93b);
    FedOnce(0xdc72d93b, 0x6, 5, 0xeccf57e5);
    FedOnce(0xeccf57e5, 0x3, 4, 0x7667abf2);
    FedOnce(0x7667abf2, 0x1, 3, 0xb9c5ee81);
    FedOnce(0xb9c5ee81, 0x0, 2, 0xde14cc38);
    FedOnce(0xde14cc38, 0x0, 1, 0x6f0a661c);
    FedNone(0x6f0a661c, 0);
    assert [0x31][1..] == [];
  }

  /** The four stored bytes, little-endian. */
  function StoredCrc(masked: bv32): (s: bytes)
    ensures |s| == 4
  {
    [Low(masked), Low(masked >> 8), Low(masked >> 16), Low(masked >> 24)]
  }

  function LoadCrc(s: bytes): bv32
    requires |s| == 4
  {
    Bits(s[0]) | (Bits(s[1]) << 8) | (Bits(s[2]) << 16) | (Bits(s[3]) << 24)
  }

  lemma LoadInvertsStore(masked: bv32)
    ensures LoadCrc(StoredCrc(masked)) == masked
  {
    var s := StoredCrc(masked);
    assert Bits(s[0]) == masked & 0xff && Bits(s[1]) == (masked >> 8) & 0xff;
    assert Bits(s[2]) == (masked >> 16) & 0xff && Bits(s[3]) == (masked >> 24) & 0xff;
    FourBytes(masked);
  }

  lemma FourBytes(m: bv32)
    ensures (m & 0xff) | (((m >> 8) & 0xff) << 8) | (((m >> 16) & 0xff) << 16) | (((m >> 24) & 0xff) << 24) == m
  {
  }

  // --- what the check cannot miss: damage inside any four adjacent bytes ---

  lemma ClockInjective(a: bv32, b: bv32)
    requires Clock(a) == Clock(b)
    ensures a == b
  {
  }

  lemma {:induction false} ClocksInjective(a: bv32, b: bv32, n: nat)
    requires Clocks(Clock, a, n) == Clocks(Clock, b, n)
    ensures a == b
    decreases n
  {
    if n > 0 {
      ClocksInjective(Clock(a), Clock(b), n - 1);
      ClockInjective(a, b);
    }
  }

  lemma {:induction false} ClocksCompose(f: Feedback, c: bv32, m: nat, n: nat)
    ensures Clocks(f, Clocks(f, c, m), n) == Clocks(f, c, m + n)
    decreases m
  {
    if m > 0 {
      ClocksCompose(f, f(c), m - 1, n);
    }
  }

  /** Up to four bytes as one number, the first lowest. */
  function Word(x: bytes): bv32 {
    if x == [] then 0 else Join(x[0] as bv8, Word(x[1..]))
  }

  function Join(b: bv8, w: bv32): bv32 { (b as bv32) ^ (w << 8) }

  function Up8(w: bv32): bv32 { w << 8 }

  function Down8(w: bv32): bv32 { w >> 8 }

  lemma WordFits(x: bytes)
    requires |x| <= 3
    ensures Down8(Up8(Word(x))) == Word(x)
  {
    if |x| == 1 {
      WordFits1(x);
      assert Word(x) & 0xff00_0000 == 0;
    } else if |x| == 2 {
      WordFits2(x);
      assert Word(x) & 0xff00_0000 == 0;
    } else if |x| == 3 {
      WordFits2(x[1..]);
      JoinFits(x[0] as bv8, Word(x[1..]));
    }
  }

  lemma WordFits1(x: bytes)
    requires |x| == 1
    ensures Word(x) & 0xffff_ff00 == 0
  {
    assert Word(x[1..]) == 0;
  }

  lemma WordFits2(x: bytes)
    requires |x| == 2
    ensures Word(x) & 0xffff_0000 == 0
  {
    WordFits1(x[1..]);
  }

  lemma JoinFits(b: bv8, w: bv32)
    requires w & 0xffff_0000 == 0
    ensures Down8(Up8(Join(b, w))) == Join(b, w)
  {
  }

  lemma {:induction false} RegisterIsClocks(f: Feedback, x: bytes, c: bv32)
    requires Linear(f) && |x| <= 4
    ensures Register(f, x, c) == Clocks(f, Xor(c, Word(x)), 8 * |x|)
  {
    if x == [] {
      XorZero(c);
    } else {
      var rest := x[1..];
      var c' := FeedBits(f, c, Bits(x[0]), 8);
      FeedByteIsClocks(f, c, x[0]);
      WordFits(rest);
      FirstByteThenRest(f, c, x[0] as bv8, Word(rest));
      RegisterIsClocks(f, rest, c');
      ClocksCompose(f, Xor(c, Word(x)), 8, 8 * |rest|);
    }
  }

  lemma FirstByteThenRest(f: Feedback, c: bv32, b: bv8, w: bv32)
    requires Linear(f) && Down8(Up8(w)) == w
    ensures Clocks(f, Xor(c, Join(b, w)), 8) == Xor(Clocks(f, Xor(c, b as bv32), 8), w)
  {
    JoinSplits(c, b, w);
    LowClear(w);
    ClocksSplit(f, Up8(w), Xor(c, b as bv32), Up8(w));
  }

  lemma JoinSplits(c: bv32, b: bv8, w: bv32)
    ensures Xor(c, Join(b, w)) == Xor(Xor(c, b as bv32), Up8(w))
  {
    XorSplitsLow(c, Join(b, w));
    JoinLow(b, w);
    JoinHigh(b, w);
  }

  lemma XorSplitsLow(c: bv32, x: bv32)
    ensures Xor(c, x) == Xor(Xor(c, x & 0xff), x & 0xffff_ff00)
  {
  }

  lemma JoinLow(b: bv8, w: bv32)
    ensures Join(b, w) & 0xff == b as bv32
  {
  }

  lemma JoinHigh(b: bv8, w: bv32)
    ensures Join(b, w) & 0xffff_ff00 == Up8(w)
  {
  }

  lemma LowClear(w: bv32)
    ensures Up8(w) & 0xff == 0
  {
  }

  lemma {:induction false} WordInjective(x: bytes, y: bytes)
    requires |x| == |y| <= 4 && Word(x) == Word(y)
    ensures x == y
  {
    if x != [] {
      WordFits(x[1..]);
      WordFits(y[1..]);
      WordParts(x[0] as bv8, Word(x[1..]), y[0] as bv8, Word(y[1..]));
      ByteBack(x[0]);
      ByteBack(y[0]);
      WordInjective(x[1..], y[1..]);
      assert x == [x[0]] + x[1..] && y == [y[0]] + y[1..];
    }
  }

  lemma WordParts(a: bv8, v: bv32, b: bv8, w: bv32)
    requires Down8(Up8(v)) == v && Down8(Up8(w)) == w
    requires Join(a, v) == Join(b, w)
    ensures a == b && v == w
  {
    JoinLow(a, v);
    JoinLow(b, w);
    WideningInjective(a, b);
    JoinHigh(a, v);
    JoinHigh(b, w);
  }

  lemma WideningInjective(x: bv8, y: bv8)
    requires x as bv32 == y as bv32
    ensures x == y
  {
  }

  lemma {:induction false} RegisterConcat(f: Feedback, x: bytes, y: bytes, c: bv32)
    ensures Register(f, x + y, c) == Register(f, y, Register(f, x, c))
  {
    if x == [] {
      assert x + y == y;
    } else {
      assert (x + y)[1..] == x[1..] + y;
      RegisterConcat(f, x[1..], y, FeedBits(f, c, Bits(x[0]), 8));
    }
  }

  lemma {:induction false} RegisterInjective(data: bytes, a: bv32, b: bv32)
    requires Register(Clock, data, a) == Register(Clock, data, b)
    ensures a == b
  {
    if data != [] {
      ClockIsLinear();
      FeedByteIsClocks(Clock, a, data[0]);
      FeedByteIsClocks(Clock, b, data[0]);
      RegisterInjective(data[1..], FeedBits(Clock, a, Bits(data[0]), 8), FeedBits(Clock, b, Bits(data[0]), 8));
      ClocksInjective(Xor(a, Bits(data[0])), Xor(b, Bits(data[0])), 8);
      XorCancels(a, b, Bits(data[0]));
    }
  }

  lemma XorCancels(a: bv32, b: bv32, c: bv32)
    requires Xor(a, c) == Xor(b, c)
    ensures a == b
  {
    assert Xor(Xor(a, c), c) == a;
    assert Xor(Xor(b, c), c) == b;
  }

  lemma CastagnoliInjective(x: bytes, y: bytes)
    requires Castagnoli(x) == Castagnoli(y)
    ensures Register(Clock, x, 0xffff_ffff) == Register(Clock, y, 0xffff_ffff)
  {
    XorCancels(Register(Clock, x, 0xffff_ffff), Register(Clock, y, 0xffff_ffff), 0xffff_ffff);
  }

  lemma ShortRegisterInjective(x: bytes, y: bytes, c: bv32)
    requires |x| == |y| <= 4 && Register(Clock, x, c) == Register(Clock, y, c)
    ensures x == y
  {
    ClockIsLinear();
    RegisterIsClocks(Clock, x, c);
    RegisterIsClocks(Clock, y, c);
    ClocksInjective(Xor(c, Word(x)), Xor(c, Word(y)), 8 * |x|);
    XorSwaps(c, Word(x));
    XorSwaps(c, Word(y));
    XorCancels(Word(x), Word(y), c);
    WordInjective(x, y);
  }

  /** Replacing up to four adjacent bytes by different ones always changes the
      CRC, whatever surrounds them. */
  lemma BurstChangesCrc(before: bytes, x: bytes, y: bytes, after: bytes)
    requires |x| == |y| <= 4 && x != y
    ensures Castagnoli(before + x + after) != Castagnoli(before + y + after)
  {
    if Castagnoli(before + x + after) == Castagnoli(before + y + after) {
      var c := Register(Clock, before, 0xffff_ffff);
      CastagnoliInjective(before + x + after, before + y + after);
      RegisterConcat(Clock, before + x, after, 0xffff_ffff);
      RegisterConcat(Clock, before + y, after, 0xffff_ffff);
      RegisterConcat(Clock, before, x, 0xffff_ffff);
      RegisterConcat(Clock, before, y, 0xffff_ffff);
      RegisterInjective(after, Register(Clock, x, c), Register(Clock, y, c));
      ShortRegisterInjective(x, y, c);
    }
  }

  lemma XorSwaps(a: bv32, b: bv32)
    ensures Xor(a, b) == Xor(b, a)
  {
  }
}
