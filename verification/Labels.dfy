/** The DNS form of a chunk: labels, dotted names, and what the relay reads back. */
module Labels {
  import opened Bytes
  import opened Chunks
  import opened Text
  import Base32Hex
  import Crc16

  // ----- payload labels -----

  /** `s` in pieces of 63 characters, the last one possibly shorter. */
  function Cut(s: string): (labels: seq<string>)
    ensures |labels| == (|s| + 62) / 63
    ensures forall l <- labels :: 1 <= |l| <= 63
    ensures forall i | 0 <= i < |labels| - 1 :: |labels[i]| == 63
    decreases |s|
  {
    if s == "" then [] else if |s| <= 63 then [s] else [s[..63]] + Cut(s[63..])
  }

  function Flatten(labels: seq<string>): string {
    if labels == [] then "" else labels[0] + Flatten(labels[1..])
  }

  method EncodePayload(payload: seq<byte>) returns (labels: seq<string>)
    ensures labels == Cut(Base32Hex.Encode(payload))
  {
    labels := CutLabels(Base32Hex.Encode(payload));
  }

  method CutLabels(encoded: string) returns (labels: seq<string>)
    ensures labels == Cut(encoded)
  {
    labels := [];
    var i := 0;
    while i < |encoded|
      invariant 0 <= i
      invariant i <= |encoded| ==> labels + Cut(encoded[i..]) == Cut(encoded)
      invariant i > |encoded| ==> labels == Cut(encoded)
    {
      var end := i + 63;
      if end > |encoded| {
        end := |encoded|;
      }
      CutMore(encoded, labels, i, end);
      labels := labels + [encoded[i..end]];
      i := i + 63;
    }
  }

  lemma CutMore(s: string, done: seq<string>, i: nat, end: nat)
    requires i < |s| && end == (if i + 63 > |s| then |s| else i + 63) && done + Cut(s[i..]) == Cut(s)
    ensures (done + [s[i..end]]) + Cut(s[end..]) == Cut(s)
    ensures end == |s| ==> done + [s[i..end]] == Cut(s)
  {
    CutAt(s, i, end);
    SeqAssociative(done, [s[i..end]], Cut(s[end..]));
    assert end == |s| ==> s[end..] == "";
  }

  lemma CutAt(s: string, i: nat, end: nat)
    requires i < |s| && end == if i + 63 > |s| then |s| else i + 63
    ensures Cut(s[i..]) == [s[i..end]] + Cut(s[end..])
  {
    var rest := s[i..];
    assert rest[..end - i] == s[i..end] && rest[end - i..] == s[end..];
    if |rest| <= 63 {
      assert rest == s[i..end] && s[end..] == "";
    }
  }

  function DecodePayload(labels: seq<string>): Option<seq<byte>> {
    Base32Hex.Decode(Flatten(labels))
  }

  lemma {:induction false} FlattenCut(s: string)
    ensures Flatten(Cut(s)) == s
    decreases |s|
  {
    if |s| > 63 {
      FlattenCut(s[63..]);
      assert s[..63] + s[63..] == s;
    }
  }

  lemma {:induction false} CutDigits(s: string)
    requires Base32Hex.AllDigits(s)
    ensures forall l <- Cut(s) :: Base32Hex.AllDigits(l)
    decreases |s|
  {
    if |s| > 63 { CutDigits(s[63..]); }
  }

  // ----- chunk labels -----

  function WordBytes(w: Crc16.Word): (s: seq<byte>)
    ensures |s| == 2
  {
    [Pack(w[..8]), Pack(w[8..])]
  }

  function BytesWord(s: seq<byte>): Crc16.Word
    requires |s| == 2
  {
    ByteBits(s[0]) + ByteBits(s[1])
  }

  lemma WordRoundTrip(w: Crc16.Word)
    ensures BytesWord(WordBytes(w)) == w
  {
    BitsPack(w[..8]);
    BitsPack(w[8..]);
  }

  /** The labels after the optional recipient hash. */
  function FieldLabels(c: Chunk): (labels: seq<string>)
    ensures |labels| >= 4
  {
    HeaderLabels(c) + Cut(Base32Hex.Encode(c.payload))
  }

  function HeaderLabels(c: Chunk): (labels: seq<string>)
    ensures |labels| == 4
  {
    [Base32Hex.Encode(c.msgID),
     Base32Hex.Encode(BigEndian(c.idx, 2)),
     Base32Hex.Encode(BigEndian(c.total, 2)),
     Base32Hex.Encode(WordBytes(c.checksum))]
  }

  /** The labels of a chunk without the zone. */
  function BodyLabels(c: Chunk): (labels: seq<string>)
    ensures |labels| >= 4
  {
    if |c.recipientHash| > 0 then [Base32Hex.Encode(c.recipientHash)] + FieldLabels(c) else FieldLabels(c)
  }

  function EncodeToLabels(c: Chunk, zone: string): seq<string> {
    BodyLabels(c) + [zone]
  }

  /** A field that must decode to exactly `n` bytes. */
  function Field(text: string, n: nat): (s: Option<seq<byte>>)
    ensures s.Some? ==> |s.value| == n
  {
    var s := Base32Hex.Decode(text);
    if s.Some? && |s.value| == n then s else None
  }

  /** The fields that follow the optional recipient hash. */
  function DecodeFields(body: seq<string>, recipientHash: seq<byte>): Option<Chunk> {
    if |body| < 4 then None else
    var msgID, idx := Field(body[0], 8), Field(body[1], 2);
    var total, checksum := Field(body[2], 2), Field(body[3], 2);
    var payload := DecodePayload(body[4..]);
    if msgID.Some? && idx.Some? && total.Some? && checksum.Some? && payload.Some? then
      Some(Chunk(msgID.value, Uint16(idx.value), Uint16(total.value), BytesWord(checksum.value),
                 payload.value, recipientHash))
    else None
  }

  /** DecodeChunkFromLabels; None stands for every error it returns. */
  function DecodeChunk(labels: seq<string>, zone: string): (c: Option<Chunk>)
    ensures c.Some? ==> |c.value.recipientHash| in {0, 32}
  {
    if |labels| < 2 || labels[|labels| - 1] != zone then None else
    var body := labels[..|labels| - 1];
    if |body| < 4 then None
    else if |body[0]| == 52 then
      var hash := Field(body[0], 32);
      if hash.None? then None else DecodeFields(body[1..], hash.value)
    else DecodeFields(body, [])
  }

  lemma FieldRoundTrip(s: seq<byte>)
    ensures Field(Base32Hex.Encode(s), |s|) == Some(s)
  {
    Base32Hex.RoundTrip(s);
  }

  lemma PayloadRoundTrip(payload: seq<byte>)
    ensures DecodePayload(Cut(Base32Hex.Encode(payload))) == Some(payload)
  {
    FlattenCut(Base32Hex.Encode(payload));
    Base32Hex.RoundTrip(payload);
  }

  lemma FieldsRoundTrip(c: Chunk)
    ensures DecodeFields(FieldLabels(c), c.recipientHash) == Some(c)
  {
    var labels := FieldLabels(c);
    assert labels[..4] == HeaderLabels(c) && labels[4..] == Cut(Base32Hex.Encode(c.payload));
    EncodedFields(labels, c);
  }

  lemma EncodedFields(labels: seq<string>, c: Chunk)
    requires |labels| >= 4 && labels[0] == Base32Hex.Encode(c.msgID) && labels[1] == Base32Hex.Encode(BigEndian(c.idx, 2))
    requires labels[2] == Base32Hex.Encode(BigEndian(c.total, 2)) && labels[3] == Base32Hex.Encode(WordBytes(c.checksum))
    requires labels[4..] == Cut(Base32Hex.Encode(c.payload))
    ensures DecodeFields(labels, c.recipientHash) == Some(c)
  {
    FieldRoundTrip(c.msgID);
    FieldRoundTrip(BigEndian(c.idx, 2));
    FieldRoundTrip(BigEndian(c.total, 2));
    FieldRoundTrip(WordBytes(c.checksum));
    Uint16RoundTrip(c.idx);
    Uint16RoundTrip(c.total);
    WordRoundTrip(c.checksum);
    PayloadRoundTrip(c.payload);
    FieldsDecode(labels, c, BigEndian(c.idx, 2), BigEndian(c.total, 2), WordBytes(c.checksum));
  }

  lemma FieldsDecode(labels: seq<string>, c: Chunk, idx: seq<byte>, total: seq<byte>, sum: seq<byte>)
    requires |labels| >= 4 && |idx| == |total| == |sum| == 2
    requires Field(labels[0], 8) == Some(c.msgID) && Field(labels[1], 2) == Some(idx)
    requires Field(labels[2], 2) == Some(total) && Field(labels[3], 2) == Some(sum)
    requires DecodePayload(labels[4..]) == Some(c.payload)
    requires Uint16(idx) == c.idx && Uint16(total) == c.total && BytesWord(sum) == c.checksum
    ensures DecodeFields(labels, c.recipientHash) == Some(c)
  {}

  /** A message ID has 13 characters, a recipient hash 52. */
  lemma FirstLabel(c: Chunk)
    requires |c.recipientHash| in {0, 32}
    ensures |BodyLabels(c)[0]| == if |c.recipientHash| == 32 then 52 else 13
  {
    Base32Hex.EncodeShape(c.recipientHash);
    Base32Hex.EncodeShape(c.msgID);
  }

  lemma DecodeAddressed(body: seq<string>, zone: string, c: Chunk)
    requires |body| >= 5 && |body[0]| == 52 && Field(body[0], 32) == Some(c.recipientHash)
    requires DecodeFields(body[1..], c.recipientHash) == Some(c)
    ensures DecodeChunk(body + [zone], zone) == Some(c)
  {
    assert (body + [zone])[..|body|] == body;
  }

  lemma DecodeUnaddressed(body: seq<string>, zone: string, c: Chunk)
    requires |body| >= 4 && |body[0]| != 52 && DecodeFields(body, []) == Some(c)
    ensures DecodeChunk(body + [zone], zone) == Some(c)
  {
    assert (body + [zone])[..|body|] == body;
  }

  /** Decoding undoes encoding; a message ID is never taken for a recipient hash. */
  lemma LabelsRoundTrip(c: Chunk, zone: string)
    requires |c.recipientHash| in {0, 32}
    ensures DecodeChunk(EncodeToLabels(c, zone), zone) == Some(c)
  {
    FirstLabel(c);
    FieldsRoundTrip(c);
    if |c.recipientHash| == 32 {
      FieldRoundTrip(c.recipientHash);
      assert BodyLabels(c)[1..] == FieldLabels(c);
      DecodeAddressed(BodyLabels(c), zone, c);
    } else {
      assert c.recipientHash == [];
      DecodeUnaddressed(BodyLabels(c), zone, c);
    }
  }

  // ----- the layout -----

  /** Where the fields stand: the recipient's hash if there is one, then message ID, index, total and
      checksum, then the payload, then the zone. Numbers are big-endian. */
  lemma WireLayout(c: Chunk, zone: string)
    requires |c.recipientHash| in {0, 32}
    ensures var labels := EncodeToLabels(c, zone);
            if |c.recipientHash| == 32 then
              |labels| > 0 && labels[0] == Base32Hex.Encode(c.recipientHash) && LaidOut(labels, c, zone, 1)
            else LaidOut(labels, c, zone, 0)
  {
    var header, payload := HeaderLabels(c), Cut(Base32Hex.Encode(c.payload));
    LabelParts(c, zone, header, payload);
    FlattenCut(Base32Hex.Encode(c.payload));
    if |c.recipientHash| == 32 {
      PartsLaidOut([Base32Hex.Encode(c.recipientHash)], header, payload, c, zone);
    } else {
      PartsLaidOut([], header, payload, c, zone);
    }
  }

  lemma PartsLaidOut(pre: seq<string>, header: seq<string>, payload: seq<string>, c: Chunk, zone: string)
    requires header == HeaderLabels(c) && Flatten(payload) == Base32Hex.Encode(c.payload)
    ensures LaidOut((pre + (header + payload)) + [zone], c, zone, |pre|)
    ensures pre != [] ==> ((pre + (header + payload)) + [zone])[0] == pre[0]
  {
    Parts(pre, header, payload, zone);
  }

  ghost predicate LaidOut(labels: seq<string>, c: Chunk, zone: string, h: nat) {
    && |labels| >= h + 5 && labels[|labels| - 1] == zone
    && labels[h] == Base32Hex.Encode(c.msgID)
    && labels[h + 1] == Base32Hex.Encode(BigEndian(c.idx, 2))
    && labels[h + 2] == Base32Hex.Encode(BigEndian(c.total, 2))
    && labels[h + 3] == Base32Hex.Encode(WordBytes(c.checksum))
    && Flatten(labels[h + 4..|labels| - 1]) == Base32Hex.Encode(c.payload)
  }

  lemma LabelParts(c: Chunk, zone: string, header: seq<string>, payload: seq<string>)
    requires header == HeaderLabels(c) && payload == Cut(Base32Hex.Encode(c.payload))
    ensures EncodeToLabels(c, zone)
         == ((if |c.recipientHash| > 0 then [Base32Hex.Encode(c.recipientHash)] else []) + (header + payload)) + [zone]
  {
    assert [] + (header + payload) == header + payload;
  }

  lemma Parts(pre: seq<string>, header: seq<string>, payload: seq<string>, zone: string)
    requires |header| == 4
    ensures var labels, h := (pre + (header + payload)) + [zone], |pre|;
            && |labels| == h + 5 + |payload| && (forall i | 0 <= i < h :: labels[i] == pre[i]) && labels[|labels| - 1] == zone
            && labels[h] == header[0] && labels[h + 1] == header[1] && labels[h + 2] == header[2] && labels[h + 3] == header[3]
            && labels[h + 4..|labels| - 1] == payload
  {}

  /** The checksum's bytes hold its bits, most significant first. */
  lemma WordBits(w: Crc16.Word)
    ensures Bits(WordBytes(w)) == w
  {
    var s := WordBytes(w);
    BitsPack(w[..8]);
    BitsPack(w[8..]);
    assert s[..1] == [Pack(w[..8])] && s[..1][..0] == [];
    assert Bits(s[..1]) == w[..8];
  }

  /** Payload and checksum label together, as they are sent, leave the residue of the checksum. */
  lemma WireResidue(payload: seq<byte>)
    ensures Crc16.Shows(Crc16.Feed(Crc16.ONES, Bits(payload + WordBytes(Crc16.Checksum(payload)))), 0x1D0F)
  {
    WordBits(Crc16.Checksum(payload));
    BitsAppend(payload, WordBytes(Crc16.Checksum(payload)));
    Crc16.Residue(payload);
  }

  /** The text decodes to exactly `n` bytes. */
  ghost predicate HoldsBytes(text: string, n: nat) {
    Base32Hex.AllDigits(text) && Base32Hex.DecodedLength(|text|) == n
  }

  /** Exactly which label sequences are read as a chunk. */
  lemma DecodesExactly(labels: seq<string>, zone: string)
    ensures DecodeChunk(labels, zone).Some? <==>
              && |labels| >= 5 && labels[|labels| - 1] == zone
              && var h := if |labels[0]| == 52 then 1 else 0;
                 && |labels| >= h + 5 && (h == 1 ==> HoldsBytes(labels[0], 32))
                 && HoldsBytes(labels[h], 8) && HoldsBytes(labels[h + 1], 2)
                 && HoldsBytes(labels[h + 2], 2) && HoldsBytes(labels[h + 3], 2)
                 && Base32Hex.AllDigits(Flatten(labels[h + 4..|labels| - 1]))
  {
    if |labels| >= 5 && labels[|labels| - 1] == zone {
      var body := labels[..|labels| - 1];
      if |labels[0]| == 52 {
        AddressedExactly(body, zone);
        assert labels == body + [zone];
        if |body| >= 5 { assert body[5..] == labels[5..|labels| - 1]; }
      } else {
        UnaddressedExactly(body, zone);
        assert labels == body + [zone] && body[4..] == labels[4..|labels| - 1];
      }
    }
  }

  lemma AddressedExactly(body: seq<string>, zone: string)
    requires |body| >= 4 && |body[0]| == 52
    ensures DecodeChunk(body + [zone], zone).Some? <==>
              && |body| >= 5 && HoldsBytes(body[0], 32)
              && HoldsBytes(body[1], 8) && HoldsBytes(body[2], 2) && HoldsBytes(body[3], 2) && HoldsBytes(body[4], 2)
              && Base32Hex.AllDigits(Flatten(body[5..]))
  {
    assert (body + [zone])[..|body|] == body;
    var hash := Field(body[0], 32);
    if hash.Some? {
      FieldsExactly(body[1..], hash.value);
      if |body| >= 5 { assert body[1..][4..] == body[5..]; }
    }
  }

  lemma UnaddressedExactly(body: seq<string>, zone: string)
    requires |body| >= 4 && |body[0]| != 52
    ensures DecodeChunk(body + [zone], zone).Some? <==>
              && HoldsBytes(body[0], 8) && HoldsBytes(body[1], 2) && HoldsBytes(body[2], 2) && HoldsBytes(body[3], 2)
              && Base32Hex.AllDigits(Flatten(body[4..]))
  {
    assert (body + [zone])[..|body|] == body;
    FieldsExactly(body, []);
  }

  lemma FieldsExactly(body: seq<string>, hash: seq<byte>)
    ensures DecodeFields(body, hash).Some? <==>
              && |body| >= 4 && HoldsBytes(body[0], 8) && HoldsBytes(body[1], 2) && HoldsBytes(body[2], 2) && HoldsBytes(body[3], 2)
              && Base32Hex.AllDigits(Flatten(body[4..]))
  {}

  // ----- names -----

  /** dns.Fqdn for names without backslash escapes. */
  function Fqdn(s: string): string {
    if HasSuffix(s, ".") then s else s + "."
  }

  /** The question name that SendChunk and QueryChunk ask. */
  function QuestionName(body: seq<string>, zone: string): string {
    Fqdn(Join(body + [zone], '.'))
  }

  function CleanZone(zone: string): string { TrimSuffix(Fqdn(zone), ".") }

  /** The relay's way back from a question name to labels; None when the name is not
      under its zone. */
  function RelayLabels(zone: string, qname: string): (labels: Option<seq<string>>)
    ensures labels.Some? ==> labels.value != []
  {
    var name := TrimSuffix(Fqdn(qname), ".");
    if !HasSuffix(name, CleanZone(zone)) then None
    else Some(Split(TrimSuffix(name, "." + CleanZone(zone)), '.'))
  }

  ghost predicate Plain(labels: seq<string>) {
    labels != [] && (forall l <- labels :: '.' !in l) && labels[|labels| - 1] != ""
  }

  lemma FqdnOnce(s: string)
    ensures Fqdn(Fqdn(s)) == Fqdn(s)
  {}

  /** What is left of a name after the relay strips the final dot. */
  lemma StrippedName(body: string, zone: string)
    requires zone != ""
    ensures TrimSuffix(Fqdn(body + "." + zone), ".") == body + "." + CleanZone(zone)
  {
    var name := body + "." + zone;
    if HasSuffix(zone, ".") {
      assert HasSuffix(name, ".") && name[..|name| - 1] == body + "." + zone[..|zone| - 1];
    } else {
      assert zone[|zone| - 1] != '.' && name[|name| - 1] == zone[|zone| - 1];
      TrimSuffixAppend(zone, ".");
      TrimSuffixAppend(name, ".");
    }
  }

  lemma NameInRootZone(body: string)
    requires body != "" && body[|body| - 1] != '.'
    ensures CleanZone("") == "" && TrimSuffix(Fqdn(body + "." + ""), ".") == body
    ensures TrimSuffix(body, "." + "") == body
  {
    assert body + "." + "" == body + ".";
    TrimSuffixAppend(body, ".");
    TrimSuffixAppend("", ".");
    assert !HasSuffix(body, ".");
    assert "." + "" == ".";
  }

  lemma StripZone(body: string, z: string)
    ensures HasSuffix(body + "." + z, z) && TrimSuffix(body + "." + z, "." + z) == body
  {
    TrimSuffixAppend(body + ".", z);
    assert body + "." + z == body + ("." + z);
    TrimSuffixAppend(body, "." + z);
  }

  lemma NameUnderZone(body: string, zone: string)
    requires body != "" && body[|body| - 1] != '.'
    ensures var name := TrimSuffix(Fqdn(Fqdn(body + "." + zone)), ".");
            HasSuffix(name, CleanZone(zone)) && TrimSuffix(name, "." + CleanZone(zone)) == body
  {
    FqdnOnce(body + "." + zone);
    if zone == "" {
      NameInRootZone(body);
    } else {
      StrippedName(body, zone);
      StripZone(body, CleanZone(zone));
    }
  }

  /** For every zone, the relay recovers exactly the labels the client joined. */
  lemma NameRoundTrip(body: seq<string>, zone: string)
    requires Plain(body)
    ensures RelayLabels(zone, QuestionName(body, zone)) == Some(body)
  {
    JoinAppend(body, zone, '.');
    JoinLastChar(body, '.');
    var last := body[|body| - 1];
    assert last[|last| - 1] in last;
    NameUnderZone(Join(body, '.'), zone);
    SplitJoin(body, '.');
  }

  /** A label of base32hex digits that DNS admits. */
  ghost predicate DigitLabel(l: string) {
    1 <= |l| <= 63 && Base32Hex.AllDigits(l)
  }

  lemma EncodedLabel(s: seq<byte>)
    requires 1 <= |s| <= 32
    ensures DigitLabel(Base32Hex.Encode(s))
  {
    Base32Hex.EncodeShape(s);
  }

  ghost predicate AllDigitLabels(labels: seq<string>) { forall l <- labels :: DigitLabel(l) }

  lemma DigitLabelsAppend(xs: seq<string>, ys: seq<string>)
    requires AllDigitLabels(xs) && AllDigitLabels(ys)
    ensures AllDigitLabels(xs + ys)
  {}

  lemma HeaderDigitLabels(c: Chunk)
    ensures AllDigitLabels(HeaderLabels(c))
  {
    EncodedLabel(c.msgID);
    EncodedLabel(BigEndian(c.idx, 2));
    EncodedLabel(BigEndian(c.total, 2));
    EncodedLabel(WordBytes(c.checksum));
  }

  lemma PayloadDigitLabels(payload: seq<byte>)
    ensures AllDigitLabels(Cut(Base32Hex.Encode(payload)))
  {
    Base32Hex.EncodeShape(payload);
    CutDigits(Base32Hex.Encode(payload));
  }

  lemma BodyDigitLabels(c: Chunk)
    requires |c.recipientHash| in {0, 32}
    ensures AllDigitLabels(BodyLabels(c))
  {
    HeaderDigitLabels(c);
    PayloadDigitLabels(c.payload);
    DigitLabelsAppend(HeaderLabels(c), Cut(Base32Hex.Encode(c.payload)));
    if |c.recipientHash| == 32 {
      EncodedLabel(c.recipientHash);
      DigitLabelsAppend([Base32Hex.Encode(c.recipientHash)], FieldLabels(c));
    }
  }

  lemma DigitLabelsPlain(labels: seq<string>)
    requires labels != [] && AllDigitLabels(labels)
    ensures Plain(labels)
  {
    forall l <- labels ensures '.' !in l {
      assert DigitLabel(l);
    }
    assert DigitLabel(labels[|labels| - 1]);
  }

  /** Client to relay: the question name of a chunk is read back as that chunk, and never
      as a poll. */
  lemma WireRoundTrip(c: Chunk, zone: string)
    requires |c.recipientHash| in {0, 32}
    ensures RelayLabels(zone, QuestionName(BodyLabels(c), zone)) == Some(BodyLabels(c))
    ensures BodyLabels(c)[0] != "POLL"
    ensures DecodeChunk(BodyLabels(c) + [CleanZone(zone)], CleanZone(zone)) == Some(c)
  {
    BodyDigitLabels(c);
    DigitLabelsPlain(BodyLabels(c));
    NameRoundTrip(BodyLabels(c), zone);
    FirstLabel(c);
    LabelsRoundTrip(c, CleanZone(zone));
  }
}
