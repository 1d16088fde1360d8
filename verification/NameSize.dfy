/** Section 2.3.4 of RFC 1035 against the names that chunks become: a label has at most
    63 octets, a name at most 255 counting a length octet per label and the root. */
module NameSize {
  import opened Bytes
  import opened Chunks
  import opened Labels
  import opened Text
  import Base32Hex

  const DEFAULT_ZONE := "msg.local-domain"

  const DEFAULT_CHUNK_SIZE := 75

  /** A length octet before every label. */
  function LabelOctets(labels: seq<string>): nat {
    if labels == [] then 0 else |labels[0]| + 1 + LabelOctets(labels[1..])
  }

  /** The wire length of a dotted name without its final dot: its labels and the root. */
  function NameOctets(name: string): nat {
    LabelOctets(Split(name, '.')) + 1
  }

  lemma {:induction false} SplitOctets(s: string, sep: char, n: nat)
    requires n >= 1
    ensures LabelOctets(SplitN(s, sep, n)) == |s| + 1
    decreases |s|
  {
    if n > 1 && s != [] {
      if s[0] == sep {
        SplitOctets(s[1..], sep, n - 1);
        assert SplitN(s, sep, n)[1..] == SplitN(s[1..], sep, n - 1);
      } else {
        SplitOctets(s[1..], sep, n);
        assert SplitN(s, sep, n)[1..] == SplitN(s[1..], sep, n)[1..];
      }
    } else {
      assert SplitN(s, sep, n) == [s] && [s][1..] == [];
    }
  }

  /** However many dots it has, a name takes its characters and two more octets. */
  lemma NameLength(name: string)
    ensures NameOctets(name) == |name| + 2
  {
    SplitOctets(name, '.', |name| + 1);
  }

  lemma {:induction false} JoinOctets(labels: seq<string>)
    requires labels != []
    ensures |Join(labels, '.')| + 1 == LabelOctets(labels)
    decreases |labels|
  {
    if |labels| > 1 { JoinOctets(labels[1..]); }
  }

  /** A zone counts as its characters and one more octet, however many dots it has. */
  lemma JoinedNameOctets(labels: seq<string>)
    requires labels != []
    ensures NameOctets(Join(labels, '.')) == LabelOctets(labels) + 1
  {
    NameLength(Join(labels, '.'));
    JoinOctets(labels);
  }

  lemma {:induction false} LabelOctetsAppend(xs: seq<string>, ys: seq<string>)
    ensures LabelOctets(xs + ys) == LabelOctets(xs) + LabelOctets(ys)
    decreases |xs|
  {
    if xs == [] {
      assert xs + ys == ys;
    } else {
      assert (xs + ys)[1..] == xs[1..] + ys;
      LabelOctetsAppend(xs[1..], ys);
    }
  }

  lemma {:induction false} CutOctets(s: string)
    ensures LabelOctets(Cut(s)) == |s| + |Cut(s)|
    decreases |s|
  {
    if |s| > 63 {
      assert Cut(s)[1..] == Cut(s[63..]);
      CutOctets(s[63..]);
    } else if s != "" {
      assert Cut(s) == [s] && [s][1..] == [];
    }
  }

  function PayloadOctets(n: nat): nat {
    Base32Hex.EncodedLength(n) + (Base32Hex.EncodedLength(n) + 62) / 63
  }

  lemma EncodedSize(s: seq<byte>)
    ensures |Base32Hex.Encode(s)| == Base32Hex.EncodedLength(|s|)
  {
    Base32Hex.EncodeShape(s);
  }

  lemma HeaderOctets(c: Chunk)
    ensures LabelOctets(HeaderLabels(c)) == 29
  {
    EncodedSize(c.msgID);
    EncodedSize(BigEndian(c.idx, 2));
    EncodedSize(BigEndian(c.total, 2));
    EncodedSize(WordBytes(c.checksum));
    FourOctets(HeaderLabels(c));
  }

  lemma FourOctets(labels: seq<string>)
    requires |labels| == 4
    ensures LabelOctets(labels) == |labels[0]| + |labels[1]| + |labels[2]| + |labels[3]| + 4
  {
    assert labels[3..][1..] == [] && labels[2..][1..] == labels[3..] && labels[1..][1..] == labels[2..];
    assert LabelOctets(labels[3..]) == |labels[3]| + 1;
    assert LabelOctets(labels[2..]) == |labels[2]| + 1 + LabelOctets(labels[3..]);
    assert LabelOctets(labels[1..]) == |labels[1]| + 1 + LabelOctets(labels[2..]);
  }

  lemma BodyOctets(hash: string, header: seq<string>, payload: seq<string>, zone: string)
    ensures LabelOctets(([hash] + (header + payload)) + [zone])
         == |hash| + LabelOctets(header) + LabelOctets(payload) + |zone| + 2
  {
    LabelOctetsAppend([hash] + (header + payload), [zone]);
    LabelOctetsAppend([hash], header + payload);
    LabelOctetsAppend(header, payload);
    assert [hash][1..] == [] && [zone][1..] == [];
  }

  lemma HashSize(hash: seq<byte>)
    requires |hash| == 32
    ensures |Base32Hex.Encode(hash)| == 52
  {
    EncodedSize(hash);
  }

  lemma PayloadSize(payload: seq<byte>)
    ensures LabelOctets(Cut(Base32Hex.Encode(payload))) == PayloadOctets(|payload|)
  {
    EncodedSize(payload);
    CutOctets(Base32Hex.Encode(payload));
  }

  /** The exact wire length of an addressed chunk's name. */
  lemma ChunkNameOctets(c: Chunk, zone: string)
    requires |c.recipientHash| == 32
    ensures NameOctets(Join(EncodeToLabels(c, zone), '.')) == 84 + |zone| + PayloadOctets(|c.payload|)
  {
    HashSize(c.recipientHash);
    PayloadSize(c.payload);
    HeaderOctets(c);
    BodyOctets(Base32Hex.Encode(c.recipientHash), HeaderLabels(c), Cut(Base32Hex.Encode(c.payload)), zone);
    JoinedNameOctets(EncodeToLabels(c, zone));
  }

  ghost predicate Fits(c: Chunk, zone: string) {
    NameOctets(Join(EncodeToLabels(c, zone), '.')) <= 255
  }

  lemma PayloadOctetsMonotone(m: nat, n: nat)
    requires m <= n
    ensures PayloadOctets(m) <= PayloadOctets(n)
  {
    assert Base32Hex.EncodedLength(m) <= Base32Hex.EncodedLength(n);
  }

  lemma PayloadBound(n: nat)
    ensures PayloadOctets(n) <= 155 <==> n <= 95
  {
    assert PayloadOctets(95) == 155 && PayloadOctets(96) == 157;
    if n <= 95 {
      PayloadOctetsMonotone(n, 95);
    } else {
      PayloadOctetsMonotone(96, n);
    }
  }

  /** Under the default zone an addressed chunk fits exactly when it carries at most 95 bytes. */
  lemma FitsUpTo95(c: Chunk)
    requires |c.recipientHash| == 32
    ensures Fits(c, DEFAULT_ZONE) <==> |c.payload| <= 95
  {
    assert |DEFAULT_ZONE| == 16;
    ChunkNameOctets(c, DEFAULT_ZONE);
    PayloadBound(|c.payload|);
  }

  function Distance(x: int, y: int): nat { if x <= y then y - x else x - y }

  /** SetChunkSize: of the sizes from 32 to 200, the nearest. */
  function ClampChunkSize(size: int): (r: nat)
    ensures 32 <= r <= 200 && forall x | 32 <= x <= 200 :: Distance(r, size) <= Distance(x, size)
  {
    if size < 32 then 32 else if size > 200 then 200 else size
  }

  lemma SliceSize(p: seq<byte>, size: nat, i: nat)
    ensures |Slice(p, size, i)| <= Min(size, |p|)
    ensures |Slice(p, size, 0)| == Min(size, |p|)
  {}

  ghost predicate AllFit(cs: seq<Chunk>) { forall c <- cs :: Fits(c, DEFAULT_ZONE) }

  /** All chunks fit exactly when none carries more than 95 bytes. */
  lemma AllFitPayloads(cs: seq<Chunk>)
    requires forall c <- cs :: |c.recipientHash| == 32
    ensures AllFit(cs) <==> forall c <- cs :: |c.payload| <= 95
  {
    forall c <- cs ensures Fits(c, DEFAULT_ZONE) <==> |c.payload| <= 95 {
      FitsUpTo95(c);
    }
  }

  lemma PayloadSizes(msgID: MsgId, p: seq<byte>, size: nat, hash: Hash)
    requires size > 0
    ensures (forall c <- ChunksOf(msgID, p, size, hash) :: |c.payload| <= 95) <==> Min(size, |p|) <= 95
    ensures forall c <- ChunksOf(msgID, p, size, hash) :: |c.recipientHash| == 32
  {
    var cs := ChunksOf(msgID, p, size, hash);
    forall i | 0 <= i < |cs| ensures |cs[i].payload| <= Min(size, |p|) {
      SliceSize(p, size, i);
    }
    if Min(size, |p|) > 95 {
      SliceSize(p, size, 0);
      CountBounds(|p|, size, 0);
      assert cs[0] in cs;
    }
  }

  /** The cap of 200 does not keep names legal: every chunk of an addressed message fits
      exactly when the clamped size, or the whole message, is at most 95 bytes. */
  lemma MessageFits(msgID: MsgId, p: seq<byte>, size: int, hash: Hash)
    ensures AllFit(ChunksOf(msgID, p, ClampChunkSize(size), hash)) <==> Min(ClampChunkSize(size), |p|) <= 95
  {
    PayloadSizes(msgID, p, ClampChunkSize(size), hash);
    AllFitPayloads(ChunksOf(msgID, p, ClampChunkSize(size), hash));
  }

  /** The default size always fits. */
  lemma DefaultSizeFits(msgID: MsgId, p: seq<byte>, hash: Hash)
    ensures AllFit(ChunksOf(msgID, p, DEFAULT_CHUNK_SIZE, hash))
  {
    MessageFits(msgID, p, DEFAULT_CHUNK_SIZE, hash);
  }

  lemma SizedFits(cs: seq<Chunk>, size: nat)
    requires size <= 95 && Sized(cs, size) && forall c <- cs :: |c.recipientHash| == 32
    ensures AllFit(cs)
  {
    SizedPayloads(cs, size);
    AllFitPayloads(cs);
  }

  lemma SizedPayloads(cs: seq<Chunk>, size: nat)
    requires size <= 95 && Sized(cs, size)
    ensures forall c <- cs :: |c.payload| <= 95
  {
    forall i | 0 <= i < |cs| ensures |cs[i].payload| <= 95 {
      assert i < |cs| - 1 || i == |cs| - 1;
    }
  }

  /** What SendMessage splits an addressed message into before any size is set: every name is legal. */
  method ChunksByDefault(msgID: MsgId, plaintext: seq<byte>, sha256: string -> Hash, recipientPubkey: string)
    returns (chunks: seq<Chunk>)
    requires recipientPubkey != ""
    ensures Sized(chunks, 75) && AllFit(chunks)
  {
    chunks := ChunkMessage(msgID, plaintext, DEFAULT_CHUNK_SIZE, sha256, recipientPubkey);
    SizedFits(chunks, DEFAULT_CHUNK_SIZE);
  }
}
