/** Chunks, and how go/internal/encoding/encoding.go splits a message into them and
    puts it back together. */
module Chunks {
  import opened Bytes
  import opened Counting
  import Crc16

  type MsgId = s: seq<byte> | |s| == 8 witness BigEndian(0, 8)

  /** A SHA-256 digest. The hash itself is a parameter of the model. */
  type Hash = s: seq<byte> | |s| == 32 witness BigEndian(0, 32)

  datatype Chunk = Chunk(
    msgID: MsgId,
    idx: uint16,
    total: uint16,
    checksum: Crc16.Word,
    payload: seq<byte>,
    recipientHash: seq<byte>)

  function NewChunk(msgID: MsgId, idx: uint16, total: uint16, payload: seq<byte>): Chunk {
    Chunk(msgID, idx, total, Crc16.Checksum(payload), payload, [])
  }

  /** Go's conversion uint16(n). */
  function ToUint16(n: nat): uint16 { n % 0x1_0000 }

  function RecipientHash(sha256: string -> Hash, pubkey: string): seq<byte> {
    if pubkey == "" then [] else sha256(pubkey)
  }

  // ----- splitting -----

  function SizeOf(maxChunkSize: int): (size: nat)
    ensures size > 0
  {
    if maxChunkSize <= 0 then 220 else maxChunkSize
  }

  function Count(length: nat, size: nat): nat
    requires size > 0
  {
    (length + size - 1) / size
  }

  function Min(a: nat, b: nat): nat { if a <= b then a else b }

  function Slice(p: seq<byte>, size: nat, i: nat): seq<byte> {
    p[Min(i * size, |p|)..Min(i * size + size, |p|)]
  }

  function ChunkAt(msgID: MsgId, p: seq<byte>, size: nat, hash: seq<byte>, i: nat): Chunk
    requires size > 0
  {
    NewChunk(msgID, ToUint16(i), ToUint16(Count(|p|, size)), Slice(p, size, i)).(recipientHash := hash)
  }

  function ChunksOf(msgID: MsgId, p: seq<byte>, size: nat, hash: seq<byte>): (cs: seq<Chunk>)
    requires size > 0
    ensures |cs| == Count(|p|, size)
    ensures forall i | 0 <= i < |cs| :: cs[i] == ChunkAt(msgID, p, size, hash, i)
  {
    seq(Count(|p|, size), i requires 0 <= i => ChunkAt(msgID, p, size, hash, i))
  }

  /** Index and total on the wire are the true ones up to multiples of 65536. */
  lemma NumbersWrap(msgID: MsgId, p: seq<byte>, size: nat, hash: seq<byte>, i: nat)
    requires size > 0 && i < Count(|p|, size)
    ensures var c := ChunksOf(msgID, p, size, hash)[i];
            (i - c.idx) % 0x1_0000 == 0 && (Count(|p|, size) - c.total) % 0x1_0000 == 0
  {
    WrapsBack(i);
    WrapsBack(Count(|p|, size));
  }

  lemma WrapsBack(n: nat)
    ensures (n - ToUint16(n)) % 0x1_0000 == 0
  {}

  /** The last chunk starts inside the message and the chunks reach its end. */
  lemma CountBounds(length: nat, size: nat, i: nat)
    requires size > 0
    ensures Count(length, size) * size >= length
    ensures i < Count(length, size) ==> i * size < length
  {
    var x := length + size - 1;
    var q := x / size;
    assert x == size * q + x % size;
    if i < q {
      assert i * size <= (q - 1) * size == q * size - size;
    }
  }

  lemma SliceBounds(p: seq<byte>, size: nat, i: nat)
    requires size > 0 && i < Count(|p|, size)
    ensures 0 <= i * size < |p|
    ensures Slice(p, size, i) == p[i * size..if i * size + size > |p| then |p| else i * size + size]
  {
    CountBounds(|p|, size, i);
  }

  /** Every chunk but the last carries `size` bytes, and the last carries the rest. */
  ghost predicate Sized(cs: seq<Chunk>, size: nat) {
    && (forall i | 0 <= i < |cs| - 1 :: |cs[i].payload| == size)
    && (cs != [] ==> 1 <= |cs[|cs| - 1].payload| <= size)
  }

  lemma FullSlice(p: seq<byte>, size: nat, i: nat)
    requires size > 0 && i + 1 < Count(|p|, size)
    ensures |Slice(p, size, i)| == size
  {
    CountBounds(|p|, size, i + 1);
    assert (i + 1) * size == i * size + size;
  }

  lemma LastSlice(p: seq<byte>, size: nat, i: nat)
    requires size > 0 && i + 1 == Count(|p|, size)
    ensures 1 <= |Slice(p, size, i)| <= size
  {
    SliceBounds(p, size, i);
  }

  lemma ChunkSizes(msgID: MsgId, p: seq<byte>, size: nat, hash: seq<byte>)
    requires size > 0
    ensures Sized(ChunksOf(msgID, p, size, hash), size)
  {
    var cs := ChunksOf(msgID, p, size, hash);
    forall i | 0 <= i < |cs| - 1 ensures |cs[i].payload| == size { FullSlice(p, size, i); }
    if cs != [] { LastSlice(p, size, |cs| - 1); }
  }

  /** The loop body: the i-th slice of the message as a chunk. */
  method CutChunk(msgID: MsgId, plaintext: seq<byte>, size: nat, recipientHash: seq<byte>, i: nat)
    returns (chunk: Chunk)
    requires size > 0 && i < Count(|plaintext|, size)
    ensures chunk == ChunkAt(msgID, plaintext, size, recipientHash, i)
  {
    SliceBounds(plaintext, size, i);
    var start := i * size;
    var end := start + size;
    if end > |plaintext| {
      end := |plaintext|;
    }
    var payload := plaintext[start..end];
    var sum := Crc16.Crc16(payload);
    chunk := Chunk(msgID, ToUint16(i), ToUint16(Count(|plaintext|, size)), sum, payload, recipientHash);
  }

  method ChunkMessage(msgID: MsgId, plaintext: seq<byte>, maxChunkSize: int,
                      sha256: string -> Hash, recipientPubkey: string) returns (chunks: seq<Chunk>)
    ensures chunks == ChunksOf(msgID, plaintext, SizeOf(maxChunkSize), RecipientHash(sha256, recipientPubkey))
    ensures Sized(chunks, if maxChunkSize > 0 then maxChunkSize else 220)
    ensures forall c <- chunks :: c.recipientHash == if recipientPubkey == "" then [] else sha256(recipientPubkey)
  {
    var size := maxChunkSize;
    if size <= 0 {
      size := 220;
    }
    var recipientHash: seq<byte> := [];
    if recipientPubkey != "" {
      recipientHash := sha256(recipientPubkey);
    }
    chunks := CutAll(msgID, plaintext, size, recipientHash);
    ChunkSizes(msgID, plaintext, size, recipientHash);
  }

  method CutAll(msgID: MsgId, plaintext: seq<byte>, size: nat, recipientHash: seq<byte>)
    returns (chunks: seq<Chunk>)
    requires size > 0
    ensures chunks == ChunksOf(msgID, plaintext, size, recipientHash)
  {
    ghost var expected := ChunksOf(msgID, plaintext, size, recipientHash);
    var total := Count(|plaintext|, size);
    chunks := [];
    for i := 0 to total
      invariant chunks == expected[..i]
    {
      var chunk := CutChunk(msgID, plaintext, size, recipientHash, i);
      AppendNext(expected, i, chunk);
      chunks := chunks + [chunk];
    }
  }

  lemma AppendNext(cs: seq<Chunk>, i: nat, c: Chunk)
    requires i < |cs| && c == cs[i]
    ensures cs[..i] + [c] == cs[..i + 1]
  {}

  // ----- putting back together -----

  predicate Intact(c: Chunk) { c.checksum == Crc16.Checksum(c.payload) }

  function Indices(cs: seq<Chunk>): (xs: seq<nat>)
    ensures |xs| == |cs| && forall i | 0 <= i < |cs| :: xs[i] == cs[i].idx
  {
    seq(|cs|, i requires 0 <= i < |cs| => cs[i].idx)
  }

  /** The indices are a permutation of 0..n-1. */
  ghost predicate Covers(cs: seq<Chunk>) {
    Distinct(Indices(cs)) && forall c <- cs :: c.idx < |cs|
  }

  lemma CoversAll(cs: seq<Chunk>, k: nat)
    requires Covers(cs) && k < |cs|
    ensures exists i :: 0 <= i < |cs| && cs[i].idx == k
  {
    var xs := Indices(cs);
    Pigeonhole(xs);
    assert k in xs;
    var i :| 0 <= i < |xs| && xs[i] == k;
    assert cs[i].idx == k;
  }

  ghost function At(cs: seq<Chunk>, k: nat): (c: Chunk)
    requires Covers(cs) && k < |cs|
    ensures c in cs && c.idx == k
  {
    CoversAll(cs, k);
    var i :| 0 <= i < |cs| && cs[i].idx == k;
    cs[i]
  }

  lemma AtIsUnique(cs: seq<Chunk>, c: Chunk)
    requires Covers(cs) && c in cs
    ensures At(cs, c.idx) == c
  {
    var d := At(cs, c.idx);
    var i :| 0 <= i < |cs| && cs[i] == c;
    var j :| 0 <= j < |cs| && cs[j] == d;
    assert Indices(cs)[i] == Indices(cs)[j];
  }

  lemma AllIntact(cs: seq<Chunk>)
    requires Covers(cs) && forall k | 0 <= k < |cs| :: Intact(At(cs, k))
    ensures forall c <- cs :: Intact(c)
  {
    forall c <- cs ensures Intact(c) {
      AtIsUnique(cs, c);
    }
  }

  /** The payloads of chunks 0..k-1, in index order. */
  ghost function Joined(cs: seq<Chunk>, k: nat): seq<byte>
    requires Covers(cs) && k <= |cs|
  {
    if k == 0 then [] else Joined(cs, k - 1) + At(cs, k - 1).payload
  }

  ghost predicate Complete(cs: seq<Chunk>) {
    cs != [] && |cs| == cs[0].total && Covers(cs)
  }

  /** What ReassembleMessage returns, or None for an error. */
  ghost function Reassemble(cs: seq<Chunk>): Option<seq<byte>> {
    if Complete(cs) && forall c <- cs :: Intact(c) then Some(Joined(cs, |cs|)) else None
  }

  datatype ReassemblyError =
    | NoChunks
    | WrongCount(expected: nat, got: nat)
    | OutOfRange(idx: nat)
    | Duplicate(idx: nat)
    | MissingIndex
    | ChecksumMismatch(idx: nat)

  datatype Reassembly = Message(data: seq<byte>) | Failed(error: ReassemblyError) {
    function ToOption(): Option<seq<byte>> {
      match this case Message(data) => Some(data) case Failed(_) => None
    }
  }

  /** Why a reassembly failed, told of the chunks alone. Reporting a missing index is
      never right: with as many distinct in-range indices as slots, every slot is full. */
  ghost predicate Explains(cs: seq<Chunk>, error: ReassemblyError) {
    match error
    case NoChunks => cs == []
    case WrongCount(expected, got) => cs != [] && expected == cs[0].total && got == |cs| != expected
    case OutOfRange(idx) => cs != [] && |cs| == cs[0].total && idx >= |cs| && idx in Indices(cs)
    case Duplicate(idx) => cs != [] && |cs| == cs[0].total && multiset(Indices(cs))[idx] >= 2
    case MissingIndex => false
    case ChecksumMismatch(idx) =>
      Complete(cs) && idx < |cs| && !Intact(At(cs, idx)) && forall k | 0 <= k < idx :: Intact(At(cs, k))
  }

  /** The first loop: one slot for each index. */
  method Place(chunks: seq<Chunk>) returns (sorted: array<Option<Chunk>>, error: Option<ReassemblyError>)
    requires chunks != [] && |chunks| == chunks[0].total
    ensures fresh(sorted) && sorted.Length == |chunks|
    ensures error.Some? ==> !Covers(chunks) && Explains(chunks, error.value)
    ensures error.None? ==> Covers(chunks)
    ensures error.None? ==> forall k | 0 <= k < |chunks| :: sorted[chunks[k].idx] == Some(chunks[k])
  {
    var n := |chunks|;
    sorted := new Option<Chunk>[n](_ => None);
    ghost var xs := Indices(chunks);
    ghost var filler: seq<int> := seq(n, _ => -1);  // which chunk fills a slot
    for i := 0 to n
      invariant |filler| == n && forall k | 0 <= k < i :: xs[k] < n && filler[xs[k]] == k
      invariant forall s | 0 <= s < n :: filler[s] == -1 || 0 <= filler[s] < i
      invariant forall s | 0 <= s < n && filler[s] >= 0 :: xs[filler[s]] == s
      invariant forall s | 0 <= s < n :: sorted[s] == if filler[s] < 0 then None else Some(chunks[filler[s]])
    {
      var c := chunks[i];
      assert xs[i] == c.idx;
      if c.idx >= n {
        return sorted, Some(OutOfRange(c.idx));
      }
      if sorted[c.idx] != None {
        RepeatedTwice(xs, filler[c.idx], i);
        return sorted, Some(Duplicate(c.idx));
      }
      sorted[c.idx] := Some(c);
      filler := filler[c.idx := i];
    }
    error := None;
  }

  method ReassembleMessage(chunks: seq<Chunk>) returns (r: Reassembly)
    ensures r.ToOption() == Reassemble(chunks)
    ensures r.Failed? ==> Explains(chunks, r.error)
  {
    if |chunks| == 0 {
      return Failed(NoChunks);
    }
    var total := chunks[0].total;
    if |chunks| != total {
      return Failed(WrongCount(total, |chunks|));
    }
    var sorted, error := Place(chunks);
    if error.Some? {
      return Failed(error.value);
    }
    SlotsInOrder(chunks, sorted[..]);
    r := Concatenate(chunks, sorted);
  }

  lemma SlotsInOrder(cs: seq<Chunk>, slots: seq<Option<Chunk>>)
    requires Covers(cs) && |slots| == |cs|
    requires forall k | 0 <= k < |cs| :: slots[cs[k].idx] == Some(cs[k])
    ensures forall s | 0 <= s < |cs| :: slots[s] == Some(At(cs, s))
  {
    forall s | 0 <= s < |cs| ensures slots[s] == Some(At(cs, s)) {
      var k :| 0 <= k < |cs| && cs[k] == At(cs, s);
    }
  }

  /** The chunks with indices below `s` match their checksums. */
  ghost predicate IntactBefore(cs: seq<Chunk>, s: nat)
    requires Covers(cs) && s <= |cs|
  {
    forall k | 0 <= k < s :: Intact(At(cs, k))
  }

  lemma FirstMismatch(cs: seq<Chunk>, s: nat)
    requires Complete(cs) && s < |cs| && IntactBefore(cs, s) && !Intact(At(cs, s))
    ensures Reassemble(cs) == None && Explains(cs, ChecksumMismatch(s))
  {
    assert At(cs, s) in cs;
  }

  lemma AllMatch(cs: seq<Chunk>)
    requires Complete(cs) && IntactBefore(cs, |cs|)
    ensures Reassemble(cs) == Some(Joined(cs, |cs|))
  {
    AllIntact(cs);
  }

  lemma OneMore(cs: seq<Chunk>, s: nat)
    requires Covers(cs) && s < |cs| && IntactBefore(cs, s) && Intact(At(cs, s))
    ensures IntactBefore(cs, s + 1) && Joined(cs, s + 1) == Joined(cs, s) + At(cs, s).payload
  {}

  /** The second loop: check and append the slots in order. */
  method Concatenate(chunks: seq<Chunk>, sorted: array<Option<Chunk>>) returns (r: Reassembly)
    requires Complete(chunks) && sorted.Length == |chunks|
    requires forall s | 0 <= s < |chunks| :: sorted[s] == Some(At(chunks, s))
    ensures r.ToOption() == Reassemble(chunks)
    ensures r.Failed? ==> Explains(chunks, r.error)
  {
    var result := [];
    for s := 0 to sorted.Length
      invariant result == Joined(chunks, s) && IntactBefore(chunks, s)
    {
      if sorted[s] == None {
        assert false;  // the "missing chunk index" branch
      }
      var ok := Matches(sorted[s].value);
      if !ok {
        FirstMismatch(chunks, s);
        return Failed(ChecksumMismatch(s));
      }
      OneMore(chunks, s);
      result := result + sorted[s].value.payload;
    }
    AllMatch(chunks);
    r := Message(result);
  }

  method Matches(c: Chunk) returns (ok: bool)
    ensures ok == Intact(c)
  {
    var expected := Crc16.Crc16(c.payload);
    ok := c.checksum == expected;
  }
}
