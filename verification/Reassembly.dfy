/** What splitting and reassembling promise together. */
module Reassembly {
  import opened Bytes
  import opened Counting
  import opened Chunks
  import Crc16

  // ----- the order of the chunks does not matter -----

  lemma PermutedCovers(cs: seq<Chunk>, ds: seq<Chunk>)
    requires multiset(cs) == multiset(ds) && Covers(cs)
    ensures Covers(ds)
  {
    MultisetMembers(cs, ds);
    var xs := Indices(ds);
    forall i, j | 0 <= i < j < |xs| ensures xs[i] != xs[j] {
      if xs[i] == xs[j] {
        AtIsUnique(cs, ds[i]);
        AtIsUnique(cs, ds[j]);
        RepeatedTwice(ds, i, j);
        ChunksDistinct(cs);
        DistinctOnce(cs, ds[i]);
      }
    }
  }

  lemma ChunksDistinct(cs: seq<Chunk>)
    requires Covers(cs)
    ensures Distinct(cs)
  {
    forall i, j | 0 <= i < j < |cs| ensures cs[i] != cs[j] {
      assert Indices(cs)[i] != Indices(cs)[j];
    }
  }

  lemma SameAt(cs: seq<Chunk>, ds: seq<Chunk>, k: nat)
    requires multiset(cs) == multiset(ds) && Covers(cs) && Covers(ds) && k < |cs| == |ds|
    ensures At(cs, k) == At(ds, k)
  {
    MultisetMembers(cs, ds);
    AtIsUnique(cs, At(ds, k));
  }

  lemma {:induction false} PermutedJoined(cs: seq<Chunk>, ds: seq<Chunk>, k: nat)
    requires multiset(cs) == multiset(ds) && Covers(cs) && Covers(ds) && k <= |cs| == |ds|
    ensures Joined(cs, k) == Joined(ds, k)
  {
    if k > 0 {
      SameAt(cs, ds, k - 1);
      PermutedJoined(cs, ds, k - 1);
    }
  }

  ghost predicate UniformTotals(cs: seq<Chunk>) {
    forall c, d | c in cs && d in cs :: c.total == d.total
  }

  /** With uniform totals, reassembly depends on the chunks only, not on their order. */
  lemma ReassemblyIgnoresOrder(cs: seq<Chunk>, ds: seq<Chunk>)
    requires multiset(cs) == multiset(ds) && UniformTotals(cs)
    ensures Reassemble(cs) == Reassemble(ds)
  {
    MultisetMembers(cs, ds);
    if cs != [] {
      assert cs[0] in ds && ds[0] in cs;
      if Covers(cs) { PermutedCovers(cs, ds); PermutedJoined(cs, ds, |cs|); }
      if Covers(ds) { PermutedCovers(ds, cs); }
    }
  }

  // ----- split, then reassemble -----

  ghost predicate Piece(c: Chunk, msgID: MsgId, i: nat, n: nat, hash: seq<byte>) {
    c.msgID == msgID && c.idx == i && c.total == n && c.recipientHash == hash && Intact(c)
  }

  function Concat(cs: seq<Chunk>): seq<byte> {
    if cs == [] then [] else Concat(cs[..|cs| - 1]) + cs[|cs| - 1].payload
  }

  /** `cs` is the message `p`, numbered 0..n-1 with a total that fits 16 bits. */
  ghost predicate Sent(cs: seq<Chunk>, msgID: MsgId, p: seq<byte>, hash: seq<byte>) {
    && 1 <= |cs| <= 0xFFFF
    && (forall i | 0 <= i < |cs| :: Piece(cs[i], msgID, i, |cs|, hash))
    && Concat(cs) == p
  }

  lemma {:induction false} SlicesConcat(msgID: MsgId, p: seq<byte>, size: nat, hash: seq<byte>, k: nat)
    requires size > 0 && k <= Count(|p|, size)
    ensures Concat(ChunksOf(msgID, p, size, hash)[..k]) == p[..Min(k * size, |p|)]
  {
    if k > 0 {
      var cs := ChunksOf(msgID, p, size, hash)[..k];
      assert cs[..k - 1] == ChunksOf(msgID, p, size, hash)[..k - 1];
      SlicesConcat(msgID, p, size, hash, k - 1);
      assert cs[k - 1].payload == Slice(p, size, k - 1);
      SliceExtends(p, size, k - 1);
    }
  }

  lemma SliceExtends(p: seq<byte>, size: nat, k: nat)
    ensures p[..Min(k * size, |p|)] + Slice(p, size, k) == p[..Min((k + 1) * size, |p|)]
  {
    assert (k + 1) * size == k * size + size;
  }

  /** ChunkMessage yields such a message whenever it makes 1 to 65535 chunks. */
  lemma SplitIsSent(msgID: MsgId, p: seq<byte>, size: nat, hash: seq<byte>)
    requires size > 0 && 1 <= Count(|p|, size) <= 0xFFFF
    ensures Sent(ChunksOf(msgID, p, size, hash), msgID, p, hash)
  {
    var cs := ChunksOf(msgID, p, size, hash);
    forall i | 0 <= i < |cs| ensures Piece(cs[i], msgID, i, |cs|, hash) {
      PieceAt(msgID, p, size, hash, i);
    }
    WholeConcat(msgID, p, size, hash);
  }

  lemma PieceAt(msgID: MsgId, p: seq<byte>, size: nat, hash: seq<byte>, i: nat)
    requires size > 0 && i < Count(|p|, size) <= 0xFFFF
    ensures Piece(ChunkAt(msgID, p, size, hash, i), msgID, i, Count(|p|, size), hash)
  {
    PieceOf(msgID, i, Count(|p|, size), Slice(p, size, i), hash);
  }

  lemma PieceOf(msgID: MsgId, i: nat, n: nat, payload: seq<byte>, hash: seq<byte>)
    requires i < n <= 0xFFFF
    ensures Piece(Chunk(msgID, ToUint16(i), ToUint16(n), Crc16.Checksum(payload), payload, hash), msgID, i, n, hash)
  {}

  lemma WholeConcat(msgID: MsgId, p: seq<byte>, size: nat, hash: seq<byte>)
    requires size > 0
    ensures Concat(ChunksOf(msgID, p, size, hash)) == p
  {
    var cs := ChunksOf(msgID, p, size, hash);
    SlicesConcat(msgID, p, size, hash, |cs|);
    CountBounds(|p|, size, 0);
    assert cs[..|cs|] == cs;
  }

  lemma SentCovers(cs: seq<Chunk>, msgID: MsgId, p: seq<byte>, hash: seq<byte>)
    requires Sent(cs, msgID, p, hash)
    ensures Complete(cs) && UniformTotals(cs)
    ensures forall i | 0 <= i < |cs| :: At(cs, i) == cs[i]
    ensures forall c <- cs :: Intact(c)
  {
    assert Covers(cs);
    forall i | 0 <= i < |cs| ensures At(cs, i) == cs[i] {
      AtIsUnique(cs, cs[i]);
    }
  }

  lemma {:induction false} JoinedIsConcat(cs: seq<Chunk>, k: nat)
    requires Covers(cs) && k <= |cs| && forall i | 0 <= i < |cs| :: At(cs, i) == cs[i]
    ensures Joined(cs, k) == Concat(cs[..k])
  {
    if k > 0 {
      JoinedIsConcat(cs, k - 1);
      assert cs[..k][..k - 1] == cs[..k - 1];
    }
  }

  /** Any order of the chunks of a sent message gives back the message. */
  lemma SentReassembles(cs: seq<Chunk>, msgID: MsgId, p: seq<byte>, hash: seq<byte>, ds: seq<Chunk>)
    requires Sent(cs, msgID, p, hash) && multiset(ds) == multiset(cs)
    ensures Reassemble(ds) == Some(p)
  {
    SentCovers(cs, msgID, p, hash);
    JoinedIsConcat(cs, |cs|);
    assert cs[..|cs|] == cs;
    ReassemblyIgnoresOrder(cs, ds);
  }

  /** Chunk then reassemble, for every plaintext and chunk size and any order: the
      plaintext when there are 1 to 65535 chunks, an error otherwise. */
  lemma ChunkThenReassemble(msgID: MsgId, p: seq<byte>, maxChunkSize: int, hash: seq<byte>, ds: seq<Chunk>)
    requires multiset(ds) == multiset(ChunksOf(msgID, p, SizeOf(maxChunkSize), hash))
    ensures Reassemble(ds) ==
            if 1 <= Count(|p|, SizeOf(maxChunkSize)) <= 0xFFFF then Some(p) else None
  {
    var size := SizeOf(maxChunkSize);
    var cs := ChunksOf(msgID, p, size, hash);
    if 1 <= |cs| <= 0xFFFF {
      SplitIsSent(msgID, p, size, hash);
      SentReassembles(cs, msgID, p, hash, ds);
    } else {
      MultisetMembers(cs, ds);
      if |cs| > 0xFFFF {
        assert ds[0] in cs;
      }
    }
  }

  // ----- altered payloads -----

  /** The alterations that the checksum is proved to catch. */
  ghost predicate Detectable(x: seq<byte>, y: seq<byte>) {
    && |x| == |y| && x != y
    && (Crc16.Distance(Bits(x), Bits(y)) % 2 == 1
        || exists start: nat :: Crc16.DifferWithin(Bits(x), Bits(y), start, 16))
  }

  /** A chunk whose payload was altered in an odd number of bits, or inside any window of
      16 consecutive bits, makes the whole reassembly fail. */
  lemma AlteredChunkRejected(cs: seq<Chunk>, i: nat, y: seq<byte>)
    requires i < |cs| && Intact(cs[i]) && Detectable(cs[i].payload, y)
    ensures Reassemble(cs[i := cs[i].(payload := y)]) == None
  {
    var x, ds := cs[i].payload, cs[i := cs[i].(payload := y)];
    if Crc16.Distance(Bits(x), Bits(y)) % 2 == 1 {
      Crc16.DetectsOddErrors(x, y);
    } else {
      var start: nat :| Crc16.DifferWithin(Bits(x), Bits(y), start, 16);
      Crc16.DetectsBursts(x, y, start);
    }
    assert ds[i] in ds && !Intact(ds[i]);
  }
}
