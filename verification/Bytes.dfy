/** Bytes, fixed-width integers and their big-endian layout, and the result types
    that stand for Go's `(value, error)` pairs. */
module Bytes {
  type byte = bv8
  type uint16 = x: int | 0 <= x < 0x1_0000
  type uint64 = x: int | 0 <= x < 0x1_0000_0000_0000_0000
  type int64 = x: int | -0x8000_0000_0000_0000 <= x < 0x8000_0000_0000_0000

  datatype Option<+T> = None | Some(value: T)

  /** Go's conversion int64(u). */
  function ToInt64(u: uint64): int64 {
    if u < 0x8000_0000_0000_0000 then u else u - 0x1_0000_0000_0000_0000
  }

  /** The bits of a byte, most significant first. */
  function ByteBits(b: byte): (bits: seq<bool>)
    ensures |bits| == 8
  {
    [b & 0x80 != 0, b & 0x40 != 0, b & 0x20 != 0, b & 0x10 != 0,
     b & 0x08 != 0, b & 0x04 != 0, b & 0x02 != 0, b & 0x01 != 0]
  }

  function Pack(bits: seq<bool>): byte
    requires |bits| == 8
  {
    (if bits[0] then 0x80 else 0) | (if bits[1] then 0x40 else 0) |
    (if bits[2] then 0x20 else 0) | (if bits[3] then 0x10 else 0) |
    (if bits[4] then 0x08 else 0) | (if bits[5] then 0x04 else 0) |
    (if bits[6] then 0x02 else 0) | (if bits[7] then 0x01 else 0)
  }

  lemma PackBits(b: byte)
    ensures Pack(ByteBits(b)) == b
  {}

  lemma BitsPack(bits: seq<bool>)
    requires |bits| == 8
    ensures ByteBits(Pack(bits)) == bits
  {}

  /** The bits of a byte string, in order. */
  function Bits(data: seq<byte>): (bits: seq<bool>)
    ensures |bits| == 8 * |data|
  {
    if data == [] then [] else Bits(data[..|data| - 1]) + ByteBits(data[|data| - 1])
  }

  lemma {:induction false} BitsAppend(x: seq<byte>, y: seq<byte>)
    ensures Bits(x + y) == Bits(x) + Bits(y)
  {
    if y == [] {
      assert x + y == x;
    } else {
      assert (x + y)[..|x + y| - 1] == x + y[..|y| - 1];
      BitsAppend(x, y[..|y| - 1]);
      SeqAssociative(Bits(x), Bits(y[..|y| - 1]), ByteBits(y[|y| - 1]));
    }
  }

  lemma SeqAssociative<T>(x: seq<T>, y: seq<T>, z: seq<T>)
    ensures (x + y) + z == x + (y + z)
  {}

  /** The first `n` bytes that a bit string spells. */
  function Unbits(bits: seq<bool>, n: nat): (s: seq<byte>)
    requires 8 * n <= |bits|
    ensures |s| == n
  {
    if n == 0 then [] else Unbits(bits, n - 1) + [Pack(bits[8 * n - 8..8 * n])]
  }

  lemma PrefixParts(x: seq<bool>, y: seq<bool>, bits: seq<bool>)
    requires x + y <= bits
    ensures x <= bits && bits[|x|..|x| + |y|] == y
  {
    assert bits[..|x + y|] == x + y;
  }

  lemma {:induction false} UnbitsOfBits(s: seq<byte>, bits: seq<bool>)
    requires Bits(s) <= bits
    ensures Unbits(bits, |s|) == s
  {
    if s != [] {
      var init, last := s[..|s| - 1], s[|s| - 1];
      var n := 8 * |init|;
      PrefixParts(Bits(init), ByteBits(last), bits);
      assert bits[n..n + 8] == ByteBits(last);
      UnbitsOfBits(init, bits);
      PackBits(last);
    }
  }

  /** The low `width` bits of `n`, most significant first. */
  function Binary(n: nat, width: nat): (bits: seq<bool>)
    ensures |bits| == width
  {
    if width == 0 then [] else Binary(n / 2, width - 1) + [n % 2 == 1]
  }

  function FromBinary(bits: seq<bool>): nat {
    if bits == [] then 0 else
      2 * FromBinary(bits[..|bits| - 1]) + if bits[|bits| - 1] then 1 else 0
  }

  function Power2(width: nat): nat {
    if width == 0 then 1 else 2 * Power2(width - 1)
  }

  lemma {:induction false} BinaryRoundTrip(n: nat, width: nat)
    requires n < Power2(width)
    ensures FromBinary(Binary(n, width)) == n
  {
    if width > 0 {
      assert Binary(n, width)[..width - 1] == Binary(n / 2, width - 1);
      BinaryRoundTrip(n / 2, width - 1);
    }
  }

  lemma {:induction false} FromBinaryRoundTrip(bits: seq<bool>)
    ensures Binary(FromBinary(bits), |bits|) == bits
  {
    if bits != [] {
      FromBinaryRoundTrip(bits[..|bits| - 1]);
    }
  }

  lemma {:induction false} FromBinaryBound(bits: seq<bool>)
    ensures FromBinary(bits) < Power2(|bits|)
  {
    if bits != [] { FromBinaryBound(bits[..|bits| - 1]); }
  }

  /** Go's conversion byte(n). */
  function ToByte(n: nat): byte { Pack(Binary(n, 8)) }

  function ByteValue(b: byte): nat { FromBinary(ByteBits(b)) }

  lemma ToByteValue(n: nat)
    requires n < 256
    ensures ByteValue(ToByte(n)) == n
  {
    assert Power2(8) == 2 * Power2(7) == 256;
    BitsPack(Binary(n, 8));
    BinaryRoundTrip(n, 8);
  }

  lemma ByteValueBound(b: byte)
    ensures ByteValue(b) < 256
  {
    assert Power2(8) == 2 * Power2(7) == 256;
    FromBinaryBound(ByteBits(b));
  }

  /** The low `width` bytes of `n`, most significant first. */
  function BigEndian(n: nat, width: nat): (s: seq<byte>)
    ensures |s| == width
  {
    if width == 0 then [] else BigEndian(n / 256, width - 1) + [ToByte(n % 256)]
  }

  function FromBigEndian(s: seq<byte>): nat {
    if s == [] then 0 else FromBigEndian(s[..|s| - 1]) * 256 + ByteValue(s[|s| - 1])
  }

  function Capacity(width: nat): nat {
    if width == 0 then 1 else Capacity(width - 1) * 256
  }

  lemma FromBigEndianSnoc(s: seq<byte>, b: byte)
    ensures FromBigEndian(s + [b]) == FromBigEndian(s) * 256 + ByteValue(b)
  {
    assert (s + [b])[..|s|] == s;
  }

  lemma {:induction false} BigEndianRoundTrip(n: nat, width: nat)
    requires n < Capacity(width)
    ensures FromBigEndian(BigEndian(n, width)) == n
  {
    if width > 0 {
      FromBigEndianSnoc(BigEndian(n / 256, width - 1), ToByte(n % 256));
      ToByteValue(n % 256);
      BigEndianRoundTrip(n / 256, width - 1);
    }
  }

  lemma {:induction false} FromBigEndianBound(s: seq<byte>)
    ensures FromBigEndian(s) < Capacity(|s|)
  {
    if s != [] {
      FromBigEndianBound(s[..|s| - 1]);
      ByteValueBound(s[|s| - 1]);
    }
  }

  lemma Capacities()
    ensures Capacity(2) == 0x1_0000 && Capacity(8) == 0x1_0000_0000_0000_0000
  {
    assert Capacity(4) == 0x1_0000_0000;
    assert Capacity(6) == 0x1_0000_0000_0000;
  }

  function Uint16(s: seq<byte>): uint16
    requires |s| == 2
  {
    FromBigEndianBound(s); Capacities();
    FromBigEndian(s)
  }

  function Uint64(s: seq<byte>): uint64
    requires |s| == 8
  {
    FromBigEndianBound(s); Capacities();
    FromBigEndian(s)
  }

  lemma Uint16RoundTrip(n: uint16)
    ensures Uint16(BigEndian(n, 2)) == n
  {
    Capacities(); BigEndianRoundTrip(n, 2);
  }

  lemma Uint64RoundTrip(n: uint64)
    ensures Uint64(BigEndian(n, 8)) == n
  {
    Capacities(); BigEndianRoundTrip(n, 8);
  }
}
