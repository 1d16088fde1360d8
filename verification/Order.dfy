/** Sort order. Section 7 of RFC 4648 promises that base32hex text sorts as the data it stands for;
    with big-endian numbers, labels sort as the numbers in them. */
module Order {
  import opened Bytes
  import Base32Hex

  /** `x` and `y` agree before position `i`. */
  ghost predicate AgreeTo<T>(x: seq<T>, y: seq<T>, i: nat) { i <= |x| && i <= |y| && x[..i] == y[..i] }

  ghost predicate BytesLessAt(x: seq<byte>, y: seq<byte>, i: nat) {
    AgreeTo(x, y, i) && i < |y| && (i < |x| ==> x[i] < y[i])
  }

  /** Lexicographic order, a prefix first. */
  ghost predicate BytesLess(x: seq<byte>, y: seq<byte>) { exists i: nat :: BytesLessAt(x, y, i) }

  ghost predicate TextLessAt(x: string, y: string, i: nat) {
    AgreeTo(x, y, i) && i < |y| && (i < |x| ==> x[i] < y[i])
  }

  ghost predicate TextLess(x: string, y: string) { exists i: nat :: TextLessAt(x, y, i) }

  ghost predicate BitsLessAt(x: seq<bool>, y: seq<bool>, i: nat) {
    AgreeTo(x, y, i) && i < |y| && (i < |x| ==> !x[i] && y[i])
  }

  // ----- bits -----

  /** The first bit in which two bytes differ decides which is larger. */
  lemma ByteOrder(a: byte, b: byte) returns (i: nat)
    requires a < b
    ensures i < 8 && BitsLessAt(ByteBits(a), ByteBits(b), i)
  {
    var x, y := ByteBits(a), ByteBits(b);
    if x == y {
      PackBits(a);
      PackBits(b);
      assert false;
    }
    i := FirstDifference(x, y);
    PackBits(a);
    PackBits(b);
    if x[i] { PackOrder(y, x, i); }
  }

  lemma {:induction false} FirstDifference(x: seq<bool>, y: seq<bool>) returns (i: nat)
    requires |x| == |y| && x != y
    ensures i < |x| && x[i] != y[i] && AgreeTo(x, y, i)
  {
    if x[0] != y[0] {
      i := 0;
    } else {
      assert x == [x[0]] + x[1..] && y == [y[0]] + y[1..];
      i := FirstDifference(x[1..], y[1..]);
      i := i + 1;
      assert x[..i] == [x[0]] + x[1..][..i - 1] && y[..i] == [y[0]] + y[1..][..i - 1];
    }
  }

  lemma PackOrder(x: seq<bool>, y: seq<bool>, i: nat)
    requires |x| == |y| == 8 && i < 8 && BitsLessAt(x, y, i)
    ensures Pack(x) < Pack(y)
  {
    forall j | 0 <= j < i ensures x[j] == y[j] { assert x[..i][j] == y[..i][j]; }
    assert i == 0 || i == 1 || i == 2 || i == 3 || i == 4 || i == 5 || i == 6 || i == 7;
  }

  lemma {:induction false} BinaryOrder(x: seq<bool>, y: seq<bool>, i: nat)
    requires |x| == |y| && i < |x| && BitsLessAt(x, y, i)
    ensures FromBinary(x) < FromBinary(y)
  {
    var n := |x| - 1;
    if i == n {
      assert x[..n] == y[..n];
    } else {
      assert x[..n][..i] == x[..i] && y[..n][..i] == y[..i];
      BinaryOrder(x[..n], y[..n], i);
    }
  }

  // ----- numbers -----

  lemma ToByteOrder(a: nat, b: nat)
    requires a < b < 256
    ensures ToByte(a) < ToByte(b)
  {
    var x, y := Binary(a, 8), Binary(b, 8);
    assert Power2(8) == 2 * Power2(7) == 256;
    BinaryRoundTrip(a, 8);
    BinaryRoundTrip(b, 8);
    var i := FirstDifference(x, y);
    if x[i] { BinaryOrder(y, x, i); }
    PackOrder(x, y, i);
  }

  /** Big-endian byte strings sort as the numbers in them. */
  lemma {:induction false} BigEndianOrder(m: nat, n: nat, width: nat)
    requires m < n < Capacity(width)
    ensures BytesLess(BigEndian(m, width), BigEndian(n, width))
  {
    var x, y := BigEndian(m / 256, width - 1), BigEndian(n / 256, width - 1);
    if m / 256 == n / 256 {
      ToByteOrder(m % 256, n % 256);
      LastByteLess(x, ToByte(m % 256), ToByte(n % 256));
    } else {
      BigEndianOrder(m / 256, n / 256, width - 1);
      var i: nat :| BytesLessAt(x, y, i);
      SameLengthLess(x, ToByte(m % 256), y, ToByte(n % 256), i);
    }
  }

  lemma LastByteLess(x: seq<byte>, a: byte, b: byte)
    requires a < b
    ensures BytesLess(x + [a], x + [b])
  {
    assert BytesLessAt(x + [a], x + [b], |x|);
  }

  lemma SameLengthLess(x: seq<byte>, a: byte, y: seq<byte>, b: byte, i: nat)
    requires |x| == |y| && BytesLessAt(x, y, i)
    ensures BytesLessAt(x + [a], y + [b], i)
  {
    assert (x + [a])[..i] == x[..i] && (y + [b])[..i] == y[..i];
  }

  // ----- text -----

  lemma {:induction false} BitsPrefix(s: seq<byte>, t: seq<byte>, i: nat)
    requires AgreeTo(s, t, i)
    ensures Bits(s)[..8 * i] == Bits(s[..i]) == Bits(t)[..8 * i]
  {
    BitsAppend(s[..i], s[i..]);
    BitsAppend(t[..i], t[i..]);
    assert s == s[..i] + s[i..] && t == t[..i] + t[i..];
  }

  lemma MiddleSlice(bits: seq<bool>, n: nat, x: seq<bool>, y: seq<bool>, z: seq<bool>)
    requires bits == x + (y + z) && |x| == n && |y| == 8
    ensures bits[n..n + 8] == y
  {}

  lemma BitsOfThree(x: seq<byte>, b: byte, z: seq<byte>)
    ensures Bits(x + ([b] + z)) == Bits(x) + (ByteBits(b) + Bits(z))
  {
    BitsAppend(x, [b] + z);
    BitsAppend([b], z);
    assert [b][..0] == [] && Bits([b]) == ByteBits(b);
  }

  lemma SplitAround<T>(s: seq<T>, i: nat)
    requires i < |s|
    ensures s == s[..i] + ([s[i]] + s[i + 1..])
  {}

  lemma BitsAround(s: seq<byte>, x: seq<byte>, b: byte, z: seq<byte>, e: seq<bool>)
    requires s == x + ([b] + z) && e == ByteBits(b)
    ensures Bits(s) == Bits(x) + (e + Bits(z))
  {
    BitsOfThree(x, b, z);
  }

  lemma ByteSlice(s: seq<byte>, x: seq<byte>, b: byte, z: seq<byte>, e: seq<bool>, n: nat)
    requires s == x + ([b] + z) && e == ByteBits(b) && n == 8 * |x|
    ensures |e| == 8 && n + 8 <= |Bits(s)| && Bits(s)[n..n + 8] == e
  {
    BitsAround(s, x, b, z, e);
    MiddleSlice(Bits(s), n, Bits(x), e, Bits(z));
  }

  lemma BitsOfByte(s: seq<byte>, i: nat, e: seq<bool>)
    requires i < |s| && e == ByteBits(s[i])
    ensures Bits(s)[8 * i..8 * i + 8] == e
  {
    SplitAround(s, i);
    ByteSlice(s, s[..i], s[i], s[i + 1..], e, 8 * i);
  }

  /** Bytes sort as their bits; a shorter string is shorter by whole bytes. */
  lemma BitsOrder(s: seq<byte>, t: seq<byte>, i: nat) returns (j: nat)
    requires BytesLessAt(s, t, i)
    ensures BitsLessAt(Bits(s), Bits(t), j)
    ensures j <= |Bits(s)| && (j == |Bits(s)| ==> |Bits(s)| + 8 <= |Bits(t)|)
  {
    BitsPrefix(s, t, i);
    if i == |s| {
      j := 8 * i;
    } else {
      j := BitsOrderInside(s, t, i);
    }
  }

  lemma BitsOrderInside(s: seq<byte>, t: seq<byte>, i: nat) returns (j: nat)
    requires i < |s| && i < |t| && s[i] < t[i] && AgreeTo(Bits(s), Bits(t), 8 * i)
    ensures j < |Bits(s)| && BitsLessAt(Bits(s), Bits(t), j)
  {
    var a, b := ByteBits(s[i]), ByteBits(t[i]);
    var k := ByteOrder(s[i], t[i]);
    BitsOfByte(s, i, a);
    BitsOfByte(t, i, b);
    j := LiftBits(Bits(s), Bits(t), 8 * i, a, b, k);
  }

  lemma LiftBits(x: seq<bool>, y: seq<bool>, n: nat, a: seq<bool>, b: seq<bool>, k: nat) returns (j: nat)
    requires AgreeTo(x, y, n) && |a| == |b| == 8 && n + 8 <= |x| && n + 8 <= |y|
    requires x[n..n + 8] == a && y[n..n + 8] == b && k < 8 && BitsLessAt(a, b, k)
    ensures j < |x| && BitsLessAt(x, y, j)
  {
    j := n + k;
    assert x[..n + k] == x[..n] + a[..k] && y[..n + k] == y[..n] + b[..k];
    assert x[n + k] == a[k] && y[n + k] == b[k];
  }

  /** The k-th group of five bits, filled up with zeros. */
  function Window(bits: seq<bool>, k: nat): (w: seq<bool>)
    ensures |w| == 5 && forall j | 0 <= j < 5 :: w[j] == (5 * k + j < |bits| && bits[5 * k + j])
  {
    seq(5, j requires 0 <= j < 5 => 5 * k + j < |bits| && bits[5 * k + j])
  }

  lemma {:induction false} GroupAt(bits: seq<bool>, k: nat)
    requires k < |Base32Hex.Groups(bits)|
    ensures Base32Hex.Groups(bits)[k] == FromBinary(Window(bits, k))
    decreases k
  {
    if k > 0 {
      GroupAt(bits[5..], k - 1);
      assert Window(bits[5..], k - 1) == Window(bits, k);
    } else if |bits| < 5 {
      assert bits + Base32Hex.Zeros(5 - |bits|) == Window(bits, 0) by { ZerosAreFalse(5 - |bits|); }
    } else {
      assert bits[..5] == Window(bits, 0);
    }
  }

  lemma {:induction false} ZerosAreFalse(n: nat)
    ensures forall i | 0 <= i < n :: !Base32Hex.Zeros(n)[i]
  {
    if n > 0 { ZerosAreFalse(n - 1); }
  }

  lemma SameWindow(x: seq<bool>, y: seq<bool>, i: nat, k: nat)
    requires AgreeTo(x, y, i) && 5 * k + 5 <= i
    ensures Window(x, k) == Window(y, k)
  {
    forall j | 0 <= j < i ensures x[j] == y[j] { assert x[..i][j] == y[..i][j]; }
  }

  /** The group of the first difference is smaller, or equal where only zeros were filled up. */
  lemma WindowOrder(x: seq<bool>, y: seq<bool>, i: nat)
    requires i <= |x| && BitsLessAt(x, y, i)
    ensures FromBinary(Window(x, i / 5)) < FromBinary(Window(y, i / 5)) || (i == |x| && Window(x, i / 5) == Window(y, i / 5))
  {
    var k := i / 5;
    var a, b, d := Window(x, k), Window(y, k), i % 5;
    assert i == 5 * k + d;
    forall j | 0 <= j < i ensures x[j] == y[j] { assert x[..i][j] == y[..i][j]; }
    if i < |x| {
      assert a[..d] == b[..d];
      BinaryOrder(a, b, d);
    } else if a != b {
      var j := FirstDifference(a, b);
      assert !a[j] && b[j];
      BinaryOrder(a, b, j);
    }
  }

  lemma DigitOrder(d: Base32Hex.digit, e: Base32Hex.digit)
    requires d < e
    ensures Base32Hex.DigitChar(d) < Base32Hex.DigitChar(e)
  {}

  lemma SameDigits(s: seq<byte>, t: seq<byte>, i: nat, n: nat)
    requires AgreeTo(Bits(s), Bits(t), i) && 5 * n <= i
    ensures AgreeTo(Base32Hex.Encode(s), Base32Hex.Encode(t), n)
  {
    var x, y := Base32Hex.Encode(s), Base32Hex.Encode(t);
    forall k | 0 <= k < n ensures x[k] == y[k] {
      GroupAt(Bits(s), k);
      GroupAt(Bits(t), k);
      SameWindow(Bits(s), Bits(t), i, k);
    }
  }

  /** Encoded text sorts as the bytes it stands for. */
  lemma EncodeKeepsOrder(s: seq<byte>, t: seq<byte>)
    requires BytesLess(s, t)
    ensures TextLess(Base32Hex.Encode(s), Base32Hex.Encode(t))
  {
    var at: nat :| BytesLessAt(s, t, at);
    var i := BitsOrder(s, t, at);
    SameDigits(s, t, i, i / 5);
    if i / 5 == |Base32Hex.Encode(s)| {
      assert TextLessAt(Base32Hex.Encode(s), Base32Hex.Encode(t), i / 5);
    } else {
      WindowOrder(Bits(s), Bits(t), i);
      DigitsOrder(s, t, i / 5);
    }
  }

  function WindowDigit(s: seq<byte>, k: nat): Base32Hex.digit {
    Base32Hex.Group(Window(Bits(s), k))
  }

  lemma CharAt(s: seq<byte>, k: nat)
    requires k < |Base32Hex.Encode(s)|
    ensures Base32Hex.Encode(s)[k] == Base32Hex.DigitChar(WindowDigit(s, k))
  {
    GroupAt(Bits(s), k);
  }

  lemma DigitsOrder(s: seq<byte>, t: seq<byte>, k: nat)
    requires k < |Base32Hex.Encode(s)| && k < |Base32Hex.Encode(t)| && AgreeTo(Base32Hex.Encode(s), Base32Hex.Encode(t), k)
    requires FromBinary(Window(Bits(s), k)) < FromBinary(Window(Bits(t), k))
             || (&& |Base32Hex.Encode(s)| < |Base32Hex.Encode(t)| && k == |Base32Hex.Encode(s)| - 1
                 && Window(Bits(s), k) == Window(Bits(t), k))
    ensures TextLess(Base32Hex.Encode(s), Base32Hex.Encode(t))
  {
    var x, y := Base32Hex.Encode(s), Base32Hex.Encode(t);
    CharAt(s, k);
    CharAt(t, k);
    if FromBinary(Window(Bits(s), k)) < FromBinary(Window(Bits(t), k)) {
      DigitOrder(WindowDigit(s, k), WindowDigit(t, k));
      assert TextLessAt(x, y, k);
    } else {
      assert x[k] == y[k];
      PrefixLess(x, y, k);
    }
  }

  lemma PrefixLess(x: string, y: string, k: nat)
    requires |x| == k + 1 < |y| && AgreeTo(x, y, k) && x[k] == y[k]
    ensures TextLess(x, y)
  {
    assert x[..k + 1] == x[..k] + [x[k]] && y[..k + 1] == y[..k] + [y[k]];
    assert TextLessAt(x, y, k + 1);
  }

  /** Labels of 16-bit numbers sort as the numbers. */
  lemma NumberLabelsOrder(m: uint16, n: uint16)
    requires m < n
    ensures TextLess(Base32Hex.Encode(BigEndian(m, 2)), Base32Hex.Encode(BigEndian(n, 2)))
  {
    Capacities();
    BigEndianOrder(m, n, 2);
    EncodeKeepsOrder(BigEndian(m, 2), BigEndian(n, 2));
  }

  /** And every character is one of 0-9 and A-V. */
  lemma Alphabet(s: seq<byte>, i: nat)
    requires i < |Base32Hex.Encode(s)|
    ensures var c := Base32Hex.Encode(s)[i]; '0' <= c <= '9' || 'A' <= c <= 'V'
    ensures |Base32Hex.Encode(s)| == (8 * |s| + 4) / 5
  {
    Base32Hex.EncodeShape(s);
  }
}
