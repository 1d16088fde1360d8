/** Unpadded base32hex: the alphabet of section 7 of RFC 4648 over 5-bit groups, as
    Go's base32.HexEncoding.WithPadding(NoPadding) writes and reads it. */
module Base32Hex {
  import opened Bytes

  type digit = d: nat | d < 32

  function DigitChar(d: digit): char {
    if d < 10 then '0' + d as char else 'A' + (d - 10) as char
  }

  predicate IsDigit(c: char) { '0' <= c <= '9' || 'A' <= c <= 'V' }

  function CharDigit(c: char): digit
    requires IsDigit(c)
  {
    if '0' <= c <= '9' then (c - '0') as int else (c - 'A') as int + 10
  }

  lemma DigitRoundTrip(d: digit)
    ensures IsDigit(DigitChar(d)) && CharDigit(DigitChar(d)) == d
  {}

  function Zeros(n: nat): (s: seq<bool>)
    ensures |s| == n
  {
    if n == 0 then [] else Zeros(n - 1) + [false]
  }

  function Group(bits: seq<bool>): digit
    requires |bits| == 5
  {
    FromBinaryBound(bits);
    assert Power2(5) == 2 * Power2(4) == 32;
    FromBinary(bits)
  }

  /** Five bits to a digit, the last group filled up with zeros. */
  function Groups(bits: seq<bool>): (ds: seq<digit>)
    ensures |ds| == (|bits| + 4) / 5
    decreases |bits|
  {
    if bits == [] then []
    else if |bits| < 5 then [Group(bits + Zeros(5 - |bits|))]
    else [Group(bits[..5])] + Groups(bits[5..])
  }

  function Ungroup(ds: seq<digit>): (bits: seq<bool>)
    ensures |bits| == 5 * |ds|
  {
    if ds == [] then [] else Binary(ds[0], 5) + Ungroup(ds[1..])
  }

  lemma {:induction false} UngroupGroups(bits: seq<bool>)
    ensures bits <= Ungroup(Groups(bits))
    decreases |bits|
  {
    if 0 < |bits| < 5 {
      FromBinaryRoundTrip(bits + Zeros(5 - |bits|));
    } else if |bits| >= 5 {
      FromBinaryRoundTrip(bits[..5]);
      UngroupGroups(bits[5..]);
      assert bits == bits[..5] + bits[5..];
    }
  }

  function Chars(ds: seq<digit>): (s: string)
    ensures |s| == |ds| && forall i | 0 <= i < |s| :: s[i] == DigitChar(ds[i])
  {
    if ds == [] then [] else Chars(ds[..|ds| - 1]) + [DigitChar(ds[|ds| - 1])]
  }

  predicate AllDigits(s: string) { forall c <- s :: IsDigit(c) }

  function Digits(s: string): (ds: seq<digit>)
    requires AllDigits(s)
    ensures |ds| == |s| && forall i | 0 <= i < |s| :: ds[i] == CharDigit(s[i])
  {
    if s == [] then [] else Digits(s[..|s| - 1]) + [CharDigit(s[|s| - 1])]
  }

  /** base32hex.EncodeToString */
  function Encode(s: seq<byte>): (t: string) { Chars(Groups(Bits(s))) }

  /** How many bytes the decoder yields for `k` characters: a last group of 1, 3 or 6
      characters yields nothing. */
  function DecodedLength(k: nat): nat {
    5 * (k / 8) + match k % 8 case 2 => 1 case 4 => 2 case 5 => 3 case 7 => 4 case _ => 0
  }

  /** base32hex.DecodeString: an error on any character outside the alphabet; bits left
      over after the last byte are dropped. */
  function Decode(t: string): (s: Option<seq<byte>>)
    ensures s.Some? <==> AllDigits(t)
    ensures s.Some? ==> |s.value| == DecodedLength(|t|)
  {
    if AllDigits(t) then Some(Unbits(Ungroup(Digits(t)), DecodedLength(|t|))) else None
  }

  function EncodedLength(n: nat): nat { (8 * n + 4) / 5 }

  lemma LengthsMatch(n: nat)
    ensures DecodedLength(EncodedLength(n)) == n
  {
    var q, r := n / 5, n % 5;
    assert EncodedLength(n) == 8 * q + EncodedLength(r);
    assert EncodedLength(r) < 8;
    assert EncodedLength(n) / 8 == q && EncodedLength(n) % 8 == EncodedLength(r);
  }

  lemma EncodeShape(s: seq<byte>)
    ensures |Encode(s)| == EncodedLength(|s|) && AllDigits(Encode(s))
  {
    forall i | 0 <= i < |Encode(s)| ensures IsDigit(Encode(s)[i]) {
      DigitRoundTrip(Groups(Bits(s))[i]);
    }
  }

  lemma DigitsOfChars(ds: seq<digit>)
    ensures AllDigits(Chars(ds)) && Digits(Chars(ds)) == ds
  {
    forall i | 0 <= i < |ds| ensures IsDigit(Chars(ds)[i]) && CharDigit(Chars(ds)[i]) == ds[i] {
      DigitRoundTrip(ds[i]);
    }
  }

  /** Decoding undoes encoding, for byte strings of every length. */
  lemma RoundTrip(s: seq<byte>)
    ensures Decode(Encode(s)) == Some(s)
  {
    EncodeShape(s);
    DigitsOfChars(Groups(Bits(s)));
    LengthsMatch(|s|);
    UngroupGroups(Bits(s));
    UnbitsOfBits(s, Ungroup(Groups(Bits(s))));
  }

  lemma EncodeInjective(s: seq<byte>, t: seq<byte>)
    requires Encode(s) == Encode(t)
    ensures s == t
  {
    RoundTrip(s);
    RoundTrip(t);
  }
}
