/** The CRC-16 of go/internal/encoding/encoding.go: generator 0x1021, initial and
    final XOR 0xFFFF, most significant bit first. The uint16 register is written as
    its 16 bits, most significant first, so that `<<` drops the head and `^` acts bit
    by bit. */
module Crc16 {
  import opened Bytes

  type Word = r: seq<bool> | |r| == 16 witness Repeat(false, 16)

  function Repeat(bit: bool, n: nat): (s: seq<bool>)
    ensures |s| == n && forall i | 0 <= i < n :: s[i] == bit
  {
    if n == 0 then [] else Repeat(bit, n - 1) + [bit]
  }

  const ONES: Word := Repeat(true, 16)  // 0xFFFF

  /** 0x1021, the terms x^12, x^5 and 1. */
  const GENERATOR: Word := Repeat(false, 3) + [true] + Repeat(false, 6) + [true] + Repeat(false, 4) + [true]

  /** a ^ b */
  function Xor(a: Word, b: Word): Word { seq(16, i requires 0 <= i < 16 => a[i] != b[i]) }

  /** a << 1 */
  function ShiftLeft(a: Word): Word { a[1..] + [false] }

  /** uint16(b) << 8 */
  function High(b: byte): Word { ByteBits(b) + Repeat(false, 8) }

  /** One turn of the inner loop: the test is the top bit. */
  function Shift(crc: Word): Word {
    if crc[0] then Xor(ShiftLeft(crc), GENERATOR) else ShiftLeft(crc)
  }

  function Shifts(crc: Word, n: nat): Word {
    if n == 0 then crc else Shift(Shifts(crc, n - 1))
  }

  function Register(crc: Word, data: seq<byte>): Word {
    if data == [] then crc else
      Shifts(Xor(Register(crc, data[..|data| - 1]), High(data[|data| - 1])), 8)
  }

  function Checksum(data: seq<byte>): Word {
    Xor(Register(ONES, data), ONES)
  }

  method Crc16(data: seq<byte>) returns (sum: Word)
    ensures sum == Checksum(data)
  {
    var crc := ONES;
    for k := 0 to |data|
      invariant crc == Register(ONES, data[..k])
    {
      assert data[..k + 1][..k] == data[..k];
      crc := Xor(crc, High(data[k]));
      ghost var start := crc;
      for i := 0 to 8
        invariant crc == Shifts(start, i)
      {
        if crc[0] {
          crc := Xor(ShiftLeft(crc), GENERATOR);
        } else {
          crc := ShiftLeft(crc);
        }
      }
    }
    assert data[..|data|] == data;
    sum := Xor(crc, ONES);
  }

  // ----- the same register fed one message bit at a time -----

  /** The feedback bit enters where the generator has a term: x^12, x^5 and 1. */
  function Step(r: Word, bit: bool): (s: Word)
    ensures forall i | 0 <= i < 16 :: s[i] == StepAt(r, r[0] != bit, i)
  {
    seq(16, i requires 0 <= i < 16 => StepAt(r, r[0] != bit, i))
  }

  function StepAt(r: Word, feedback: bool, i: nat): bool
    requires i < 16
  {
    if i == 15 then feedback else if i == 3 || i == 10 then r[i + 1] != feedback else r[i + 1]
  }

  function Feed(r: Word, bits: seq<bool>): Word
    decreases |bits|
  {
    if bits == [] then r else Feed(Step(r, bits[0]), bits[1..])
  }

  lemma {:induction false} FeedAppend(r: Word, x: seq<bool>, y: seq<bool>)
    ensures Feed(r, x + y) == Feed(Feed(r, x), y)
    decreases |x|
  {
    if x == [] {
      assert x + y == y;
    } else {
      assert (x + y)[1..] == x[1..] + y;
      FeedAppend(Step(r, x[0]), x[1..], y);
    }
  }

  /** `r` with `bits` added onto its leading positions. */
  function AddHead(r: Word, bits: seq<bool>): Word
    requires |bits| <= 16
  {
    seq(16, i requires 0 <= i < 16 => if i < |bits| then r[i] != bits[i] else r[i])
  }

  lemma ShiftFeedsHead(r: Word, bits: seq<bool>)
    requires 0 < |bits| <= 8
    ensures Shift(AddHead(r, bits)) == AddHead(Step(r, bits[0]), bits[1..])
  {}

  lemma {:induction false} ShiftsFeed(r: Word, bits: seq<bool>)
    requires |bits| <= 8
    ensures Shifts(AddHead(r, bits), |bits|) == Feed(r, bits)
    decreases |bits|
  {
    if bits == [] {
      assert AddHead(r, bits) == r;
    } else {
      ShiftsInner(AddHead(r, bits), |bits|);
      ShiftFeedsHead(r, bits);
      ShiftsFeed(Step(r, bits[0]), bits[1..]);
    }
  }

  lemma {:induction false} ShiftsInner(r: Word, n: nat)
    requires n > 0
    ensures Shifts(r, n) == Shifts(Shift(r), n - 1)
  {
    if n > 1 { ShiftsInner(r, n - 1); }
  }

  /** The bytewise loop is the bitwise register. */
  lemma {:induction false} RegisterIsBitwise(crc: Word, data: seq<byte>)
    ensures Register(crc, data) == Feed(crc, Bits(data))
  {
    if data != [] {
      var init, last := data[..|data| - 1], data[|data| - 1];
      RegisterIsBitwise(crc, init);
      assert Xor(Register(crc, init), High(last)) == AddHead(Register(crc, init), ByteBits(last));
      ShiftsFeed(Register(crc, init), ByteBits(last));
      FeedAppend(crc, Bits(init), ByteBits(last));
    }
  }

  lemma ChecksumsDiffer(x: seq<byte>, y: seq<byte>)
    requires Feed(ONES, Bits(x)) != Feed(ONES, Bits(y))
    ensures Checksum(x) != Checksum(y)
  {
    RegisterIsBitwise(ONES, x);
    RegisterIsBitwise(ONES, y);
    var a, b := Register(ONES, x), Register(ONES, y);
    var i :| 0 <= i < 16 && a[i] != b[i];
    assert Checksum(x)[i] != Checksum(y)[i];
  }

  // ----- the residue -----

  /** Feeding is linear: registers and messages may be added before or after. */
  lemma StepAdds(a: Word, b: Word, x: bool, y: bool)
    ensures Step(Xor(a, b), x != y) == Xor(Step(a, x), Step(b, y))
  {}

  function AddBits(x: seq<bool>, y: seq<bool>): (z: seq<bool>)
    requires |x| == |y|
    ensures |z| == |x|
  {
    if x == [] then [] else [x[0] != y[0]] + AddBits(x[1..], y[1..])
  }

  lemma {:induction false} FeedAdds(a: Word, b: Word, x: seq<bool>, y: seq<bool>)
    requires |x| == |y|
    ensures Feed(Xor(a, b), AddBits(x, y)) == Xor(Feed(a, x), Feed(b, y))
    decreases |x|
  {
    if x != [] {
      StepAdds(a, b, x[0], y[0]);
      assert AddBits(x, y)[1..] == AddBits(x[1..], y[1..]);
      FeedAdds(Step(a, x[0]), Step(b, y[0]), x[1..], y[1..]);
    }
  }

  lemma {:induction false} AddBitsAt(x: seq<bool>, y: seq<bool>, i: nat)
    requires |x| == |y| && i < |x|
    ensures AddBits(x, y)[i] == (x[i] != y[i])
  {
    if i > 0 { AddBitsAt(x[1..], y[1..], i - 1); }
  }

  const ZERO: Word := Repeat(false, 16)

  /** A register that is fed its own bits ends at zero. */
  lemma {:induction false} OwnBitsClear(p: seq<bool>)
    requires |p| <= 16
    ensures Feed(p + Repeat(false, 16 - |p|), p) == ZERO
    decreases |p|
  {
    if p == [] {
      assert p + Repeat(false, 16) == ZERO;
    } else {
      var r: Word := p + Repeat(false, 16 - |p|);
      assert Step(r, p[0]) == p[1..] + Repeat(false, 17 - |p|);
      OwnBitsClear(p[1..]);
    }
  }

  /** `r` holds the bits of the uint16 `w`. */
  ghost predicate Shows(r: Word, w: bv16) {
    && r[0] == (w & 0x8000 != 0) && r[1] == (w & 0x4000 != 0) && r[2] == (w & 0x2000 != 0) && r[3] == (w & 0x1000 != 0)
    && r[4] == (w & 0x0800 != 0) && r[5] == (w & 0x0400 != 0) && r[6] == (w & 0x0200 != 0) && r[7] == (w & 0x0100 != 0)
    && r[8] == (w & 0x0080 != 0) && r[9] == (w & 0x0040 != 0) && r[10] == (w & 0x0020 != 0) && r[11] == (w & 0x0010 != 0)
    && r[12] == (w & 0x0008 != 0) && r[13] == (w & 0x0004 != 0) && r[14] == (w & 0x0002 != 0) && r[15] == (w & 0x0001 != 0)
  }

  /** `t` is the register `w` after a message bit 1, position by position. */
  ghost predicate Follows(w: bv16, t: bv16) {
    && (t & 0x8000 != 0) == (w & 0x4000 != 0)
    && (t & 0x4000 != 0) == (w & 0x2000 != 0)
    && (t & 0x2000 != 0) == (w & 0x1000 != 0)
    && (t & 0x1000 != 0) == ((w & 0x0800 != 0) != (w & 0x8000 == 0))
    && (t & 0x0800 != 0) == (w & 0x0400 != 0)
    && (t & 0x0400 != 0) == (w & 0x0200 != 0)
    && (t & 0x0200 != 0) == (w & 0x0100 != 0)
    && (t & 0x0100 != 0) == (w & 0x0080 != 0)
    && (t & 0x0080 != 0) == (w & 0x0040 != 0)
    && (t & 0x0040 != 0) == (w & 0x0020 != 0)
    && (t & 0x0020 != 0) == ((w & 0x0010 != 0) != (w & 0x8000 == 0))
    && (t & 0x0010 != 0) == (w & 0x0008 != 0)
    && (t & 0x0008 != 0) == (w & 0x0004 != 0)
    && (t & 0x0004 != 0) == (w & 0x0002 != 0)
    && (t & 0x0002 != 0) == (w & 0x0001 != 0)
    && (t & 0x0001 != 0) == (w & 0x8000 == 0)
  }

  lemma ShowsStep(r: Word, w: bv16, t: bv16)
    requires Shows(r, w) && Follows(w, t)
    ensures Shows(Step(r, true), t)
  {}

  /** The register over sixteen ones, from zero. */
  lemma SixteenOnes()
    ensures Follows(0x0000, 0x1021) && Follows(0x1021, 0x3063) && Follows(0x3063, 0x70E7) && Follows(0x70E7, 0xF1EF)
    ensures Follows(0xF1EF, 0xE3DE) && Follows(0xE3DE, 0xC7BC) && Follows(0xC7BC, 0x8F78) && Follows(0x8F78, 0x1EF0)
    ensures Follows(0x1EF0, 0x2DC1) && Follows(0x2DC1, 0x4BA3) && Follows(0x4BA3, 0x8767) && Follows(0x8767, 0x0ECE)
    ensures Follows(0x0ECE, 0x0DBD) && Follows(0x0DBD, 0x0B5B) && Follows(0x0B5B, 0x0697) && Follows(0x0697, 0x1D0F)
  {}

  const RESIDUE: Word := Repeat(false, 3) + Repeat(true, 3) + [false, true] + Repeat(false, 4) + Repeat(true, 4)  // 0x1D0F

  lemma ResidueShows(r: Word)
    requires Shows(r, 0x1D0F)
    ensures r == RESIDUE
  {}

  lemma ShowsResidue()
    ensures Shows(RESIDUE, 0x1D0F)
  {}

  lemma FourOnes(r: Word, w: bv16, w1: bv16, w2: bv16, w3: bv16, t: bv16, n: nat) returns (s: Word)
    requires n >= 4 && Shows(r, w) && Follows(w, w1) && Follows(w1, w2) && Follows(w2, w3) && Follows(w3, t)
    ensures Feed(r, Repeat(true, n)) == Feed(s, Repeat(true, n - 4)) && Shows(s, t)
  {
    s := OneFed(r, w, w1, n);
    s := OneFed(s, w1, w2, n - 1);
    s := OneFed(s, w2, w3, n - 2);
    s := OneFed(s, w3, t, n - 3);
  }

  lemma OneFed(r: Word, w: bv16, t: bv16, n: nat) returns (s: Word)
    requires n >= 1 && Shows(r, w) && Follows(w, t)
    ensures Feed(r, Repeat(true, n)) == Feed(s, Repeat(true, n - 1)) && Shows(s, t)
  {
    ShowsStep(r, w, t);
    s := Step(r, true);
    assert Repeat(true, n)[1..] == Repeat(true, n - 1);
  }

  lemma ZeroShows()
    ensures Shows(ZERO, 0x0000)
  {}

  lemma FeedOnes()
    ensures Feed(ZERO, ONES) == RESIDUE
  {
    ZeroShows();
    SixteenOnes();
    var a := FourOnes(ZERO, 0x0000, 0x1021, 0x3063, 0x70E7, 0xF1EF, 16);
    var b := FourOnes(a, 0xF1EF, 0xE3DE, 0xC7BC, 0x8F78, 0x1EF0, 12);
    var c := FourOnes(b, 0x1EF0, 0x2DC1, 0x4BA3, 0x8767, 0x0ECE, 8);
    var d := FourOnes(c, 0x0ECE, 0x0DBD, 0x0B5B, 0x0697, 0x1D0F, 4);
    ResidueShows(d);
  }

  lemma ComplementBits(r: Word)
    ensures AddBits(r, ONES) == Xor(r, ONES) && Xor(r, ZERO) == r
  {
    forall i | 0 <= i < 16 ensures AddBits(r, ONES)[i] == Xor(r, ONES)[i] { AddBitsAt(r, ONES, i); }
  }

  lemma ComplementLeavesResidue(r: Word)
    ensures Feed(r, Xor(r, ONES)) == RESIDUE
  {
    ComplementBits(r);
    FeedAdds(r, ZERO, r, ONES);
    assert r + Repeat(false, 0) == r;
    OwnBitsClear(r);
    FeedOnes();
    assert Xor(ZERO, RESIDUE) == RESIDUE;
  }

  /** Every message followed by its own checksum leaves the same residue in the register, 0x1D0F, and
      the checksum of nothing is 0. */
  lemma Residue(data: seq<byte>)
    ensures Shows(Feed(ONES, Bits(data) + Checksum(data)), 0x1D0F)
    ensures Shows(Checksum([]), 0x0000)
  {
    ZeroShows();
    assert Checksum([]) == ZERO;
    RegisterIsBitwise(ONES, data);
    FeedAppend(ONES, Bits(data), Checksum(data));
    ComplementLeavesResidue(Register(ONES, data));
    ShowsResidue();
  }

  // ----- bursts of at most 16 bits -----

  /** Equal bits never merge two different registers. */
  lemma {:induction false} DifferenceSurvives(a: Word, b: Word, bits: seq<bool>)
    requires a != b
    ensures Feed(a, bits) != Feed(b, bits)
    decreases |bits|
  {
    if bits != [] {
      StepInjective(a, b, bits[0]);
      DifferenceSurvives(Step(a, bits[0]), Step(b, bits[0]), bits[1..]);
    }
  }

  lemma StepInjective(a: Word, b: Word, bit: bool)
    requires a != b
    ensures Step(a, bit) != Step(b, bit)
  {
    if a[0] == b[0] {
      var i :| 0 < i < 16 && a[i] != b[i];
      assert Step(a, bit)[i - 1] != Step(b, bit)[i - 1];
    } else {
      assert Step(a, bit)[15] != Step(b, bit)[15];
    }
  }

  /** The registers differ in one of their last `k` bits. */
  ghost predicate LowDiffer(a: Word, b: Word, k: nat)
  {
    exists i :: 16 - k <= i < 16 && 0 <= i && a[i] != b[i]
  }

  lemma LowDifferGrows(a: Word, b: Word, s: bool, t: bool, k: nat)
    requires k <= 15 && LowDiffer(a, b, k)
    ensures LowDiffer(Step(a, s), Step(b, t), k + 1)
  {
    var i :| 16 - k <= i < 16 && a[i] != b[i];
    if (a[0] != s) == (b[0] != t) {
      assert Step(a, s)[i - 1] != Step(b, t)[i - 1];
    } else {
      assert Step(a, s)[15] != Step(b, t)[15];
    }
  }

  /** A difference that is low enough cannot be cancelled by the few bits left. */
  lemma {:induction false} LowDifferenceSurvives(a: Word, b: Word, u: seq<bool>, v: seq<bool>, k: nat)
    requires |u| == |v| && k + |u| <= 16 && LowDiffer(a, b, k)
    ensures Feed(a, u) != Feed(b, v)
    decreases |u|
  {
    if u != [] {
      LowDifferGrows(a, b, u[0], v[0], k);
      LowDifferenceSurvives(Step(a, u[0]), Step(b, v[0]), u[1..], v[1..], k + 1);
    }
  }

  lemma BurstFromFirstBit(r: Word, s: bool, u: seq<bool>, v: seq<bool>, tail: seq<bool>)
    requires |u| == |v| <= 15
    ensures Feed(r, [s] + u + tail) != Feed(r, [!s] + v + tail)
  {
    assert Step(r, s)[15] != Step(r, !s)[15];
    assert ([s] + u)[1..] == u && ([!s] + v)[1..] == v;
    LowDifferenceSurvives(Step(r, s), Step(r, !s), u, v, 1);
    FeedAppend(r, [s] + u, tail);
    FeedAppend(r, [!s] + v, tail);
    DifferenceSurvives(Feed(r, [s] + u), Feed(r, [!s] + v), tail);
  }

  /** `x` and `y` are equal outside the `width` bits that start at bit `start`. */
  ghost predicate DifferWithin(x: seq<bool>, y: seq<bool>, start: nat, width: nat) {
    && |x| == |y|
    && forall i | 0 <= i < |x| && !(start <= i < start + width) :: x[i] == y[i]
  }

  lemma FirstDifference(x: seq<bool>, y: seq<bool>) returns (i: nat)
    requires |x| == |y| && x != y
    ensures i < |x| && x[i] != y[i] && x[..i] == y[..i]
  {
    i := 0;
    while i < |x| && x[i] == y[i]
      invariant i <= |x| && x[..i] == y[..i]
    {
      i := i + 1;
    }
    assert x[..i] != y[..i] || i < |x|;
  }

  lemma SplitAtDifference(x: seq<bool>, y: seq<bool>, start: nat)
    returns (p: seq<bool>, b: bool, u: seq<bool>, v: seq<bool>, tail: seq<bool>)
    requires DifferWithin(x, y, start, 16) && x != y
    ensures |u| == |v| <= 15
    ensures x == p + ([b] + u + tail) && y == p + ([!b] + v + tail)
  {
    var i := FirstDifference(x, y);
    var end := if start + 16 <= |x| then start + 16 else |x|;
    p, b, u, v, tail := x[..i], x[i], x[i + 1..end], y[i + 1..end], x[end..];
    assert y[end..] == tail;
    Pieces(x, i, end);
    Pieces(y, i, end);
  }

  lemma Pieces(x: seq<bool>, i: nat, end: nat)
    requires i < end <= |x|
    ensures x == x[..i] + ([x[i]] + x[i + 1..end] + x[end..])
  {}

  lemma BurstChangesRegister(r: Word, x: seq<bool>, y: seq<bool>, start: nat)
    requires DifferWithin(x, y, start, 16) && x != y
    ensures Feed(r, x) != Feed(r, y)
  {
    var p, b, u, v, tail := SplitAtDifference(x, y, start);
    FeedAppend(r, p, [b] + u + tail);
    FeedAppend(r, p, [!b] + v + tail);
    BurstFromFirstBit(Feed(r, p), b, u, v, tail);
  }

  /** Every error burst of at most 16 bits, at any bit offset, changes the checksum. */
  lemma DetectsBursts(x: seq<byte>, y: seq<byte>, start: nat)
    requires x != y && DifferWithin(Bits(x), Bits(y), start, 16)
    ensures Checksum(x) != Checksum(y)
  {
    UnbitsOfBits(x, Bits(x));
    UnbitsOfBits(y, Bits(y));
    BurstChangesRegister(ONES, Bits(x), Bits(y), start);
    ChecksumsDiffer(x, y);
  }

  lemma MiddleBytes(p: seq<byte>, m: seq<byte>, m': seq<byte>, s: seq<byte>)
    requires |m| == |m'| <= 2
    ensures DifferWithin(Bits(p + (m + s)), Bits(p + (m' + s)), 8 * |p|, 16)
  {
    BitsAppend(p, m + s);
    BitsAppend(m, s);
    BitsAppend(p, m' + s);
    BitsAppend(m', s);
    MiddleBits(Bits(p), Bits(m), Bits(m'), Bits(s));
  }

  lemma MiddleBits(p: seq<bool>, m: seq<bool>, m': seq<bool>, s: seq<bool>)
    requires |m| == |m'| <= 16
    ensures DifferWithin(p + (m + s), p + (m' + s), |p|, 16)
  {}

  /** Payloads that differ only in the two adjacent bytes `k` and `k + 1`. */
  lemma DetectsAdjacentBytes(x: seq<byte>, y: seq<byte>, k: nat)
    requires |x| == |y| && x != y
    requires forall i | 0 <= i < |x| && i != k && i != k + 1 :: x[i] == y[i]
    ensures Checksum(x) != Checksum(y)
  {
    var lo, hi := if k <= |x| then k else |x|, if k + 2 <= |x| then k + 2 else |x|;
    assert x == x[..lo] + (x[lo..hi] + x[hi..]);
    assert y == x[..lo] + (y[lo..hi] + x[hi..]);
    MiddleBytes(x[..lo], x[lo..hi], y[lo..hi], x[hi..]);
    DetectsBursts(x, y, 8 * lo);
  }

  // ----- an odd number of flipped bits -----

  /** Whether an odd number of bits is set. */
  function Odd(bits: seq<bool>): bool {
    if bits == [] then false else Odd(bits[..|bits| - 1]) != bits[|bits| - 1]
  }

  /** How many positions differ. */
  function Distance(x: seq<bool>, y: seq<bool>): nat
    requires |x| == |y|
  {
    if x == [] then 0 else
      Distance(x[..|x| - 1], y[..|y| - 1]) + if x[|x| - 1] != y[|y| - 1] then 1 else 0
  }

  lemma {:induction false} OddFlip(bits: seq<bool>, i: nat)
    requires i < |bits|
    ensures Odd(bits[i := !bits[i]]) == !Odd(bits)
  {
    var flipped := bits[i := !bits[i]];
    if i < |bits| - 1 {
      assert flipped[..|bits| - 1] == bits[..|bits| - 1][i := !bits[i]];
      OddFlip(bits[..|bits| - 1], i);
    } else {
      assert flipped[..|bits| - 1] == bits[..|bits| - 1];
    }
  }

  lemma {:induction false} OddHead(b: bool, bits: seq<bool>)
    ensures Odd([b] + bits) == (b != Odd(bits))
  {
    if bits == [] {
      assert [b] + bits == [b];
    } else {
      assert ([b] + bits)[..|bits|] == [b] + bits[..|bits| - 1];
      OddHead(b, bits[..|bits| - 1]);
    }
  }

  /** The generator has an even number of terms, so a step adds the message bit to the parity. */
  lemma StepParity(r: Word, bit: bool)
    ensures Odd(Step(r, bit)) == (Odd(r) != bit)
  {
    var s := ShiftLeft(r);
    assert s[..15] == r[1..] && r == [r[0]] + r[1..];
    OddHead(r[0], r[1..]);
    assert Odd(s) == Odd(r[1..]);
    if r[0] != bit {
      var s1 := s[3 := !s[3]];
      var s2 := s1[10 := !s1[10]];
      OddFlip(s, 3);
      OddFlip(s1, 10);
      OddFlip(s2, 15);
      assert Step(r, bit) == s2[15 := !s2[15]];
    } else {
      assert Step(r, bit) == s;
    }
  }

  lemma {:induction false} FeedParity(r: Word, bits: seq<bool>)
    ensures Odd(Feed(r, bits)) == (Odd(r) != Odd(bits))
    decreases |bits|
  {
    if bits != [] {
      assert bits == [bits[0]] + bits[1..];
      OddHead(bits[0], bits[1..]);
      StepParity(r, bits[0]);
      FeedParity(Step(r, bits[0]), bits[1..]);
    }
  }

  lemma {:induction false} OddDistance(x: seq<bool>, y: seq<bool>)
    requires |x| == |y|
    ensures (Odd(x) != Odd(y)) == (Distance(x, y) % 2 == 1)
  {
    if x != [] { OddDistance(x[..|x| - 1], y[..|y| - 1]); }
  }

  /** Payloads that differ in an odd number of bits, wherever they are. */
  lemma DetectsOddErrors(x: seq<byte>, y: seq<byte>)
    requires |x| == |y| && Distance(Bits(x), Bits(y)) % 2 == 1
    ensures Checksum(x) != Checksum(y)
  {
    OddDistance(Bits(x), Bits(y));
    FeedParity(ONES, Bits(x));
    FeedParity(ONES, Bits(y));
    ChecksumsDiffer(x, y);
  }
}
