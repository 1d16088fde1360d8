/** The relay's chunk store and its sequence counter: go/internal/store/store.go and
    go/internal/store/sequence.go. Times are nanoseconds since the Unix epoch. */
module Store {
  import opened Bytes
  import opened Chunks

  datatype MessageBuf = MessageBuf(
    chunks: map<uint16, Chunk>,
    total: uint16,
    createdAt: int,
    timestamp: int,     // UnixMilli
    sequence: uint64)

  /** `counters` is the persisted sequence table, None when none is attached. */
  datatype StoreState = StoreState(
    messages: map<MsgId, MessageBuf>,
    owner: map<MsgId, string>,
    counts: map<string, int>,
    counters: Option<map<seq<byte>, uint64>>)

  // ----- the sequence counter -----

  function PeerID(pubkey: seq<byte>): seq<byte> {
    if |pubkey| > 8 then pubkey[..8] else pubkey
  }

  function Last(counters: map<seq<byte>, uint64>, key: seq<byte>): uint64 {
    if key in counters then counters[key] else 0
  }

  /** seq++ on a uint64. */
  function Successor(n: uint64): uint64 { (n + 1) % 0x1_0000_0000_0000_0000 }

  class SequenceCounter {
    var table: map<seq<byte>, uint64>

    constructor (table: map<seq<byte>, uint64>)
      ensures this.table == table
    {
      this.table := table;
    }

    /** The transaction commits or, when `commits` is false, fails and changes nothing. */
    method Next(peerID: seq<byte>, commits: bool) returns (seq_: uint64, ok: bool)
      modifies this
      ensures ok == commits && seq_ == Successor(Last(old(table), peerID))
      ensures table == if commits then old(table)[peerID := seq_] else old(table)
    {
      seq_ := 0;
      if peerID in table {
        seq_ := table[peerID];
      }
      seq_ := (seq_ + 1) % 0x1_0000_0000_0000_0000;
      if commits {
        table := table[peerID := seq_];
      }
      ok := commits;
    }

    method GetLast(peerID: seq<byte>) returns (seq_: uint64)
      ensures seq_ == Last(table, peerID)
    {
      seq_ := 0;
      if peerID in table {
        seq_ := table[peerID];
      }
    }
  }

  // ----- steps on the state -----

  /** The sequence number that a new message for `hash` is stamped with. */
  function Stamp(s: StoreState, hash: seq<byte>, commits: bool): uint64 {
    if s.counters.Some? && |hash| > 0 && commits then Successor(Last(s.counters.value, PeerID(hash))) else 0
  }

  function Counted(s: StoreState, hash: seq<byte>, commits: bool): Option<map<seq<byte>, uint64>> {
    if s.counters.Some? && |hash| > 0 && commits then
      Some(s.counters.value[PeerID(hash) := Stamp(s, hash, commits)])
    else s.counters
  }

  /** The buffer that Store puts `c` into: the old one, or a new stamped one. */
  function BufferFor(s: StoreState, c: Chunk, now: int, commits: bool): MessageBuf {
    if c.msgID in s.messages then s.messages[c.msgID]
    else MessageBuf(map[], c.total, now, now / 1_000_000, Stamp(s, c.recipientHash, commits))
  }

  function StoreChunk(s: StoreState, c: Chunk, now: int, commits: bool): StoreState {
    var buf := BufferFor(s, c, now, commits);
    s.(messages := s.messages[c.msgID := buf.(chunks := buf.chunks[c.idx := c])],
       counters := if c.msgID in s.messages then s.counters else Counted(s, c.recipientHash, commits))
  }

  predicate Full(buf: MessageBuf) { |buf.chunks| == buf.total }

  function SetOwner(s: StoreState, id: MsgId, peer: string): StoreState {
    if id in s.owner then s
    else s.(owner := s.owner[id := peer],
            counts := s.counts[peer := (if peer in s.counts then s.counts[peer] else 0) + 1])
  }

  function Lookup(s: StoreState, id: MsgId, idx: uint16): Option<Chunk> {
    if id in s.messages && idx in s.messages[id].chunks then Some(s.messages[id].chunks[idx]) else None
  }

  predicate Expired(buf: MessageBuf, now: int, ttl: int) { now - buf.createdAt > ttl }

  function OwnedBy(owner: map<MsgId, string>, peer: string): set<MsgId> {
    set id | id in owner && owner[id] == peer
  }

  /** How many IDs each owner has; owners with none do not appear. */
  function CountsOf(owner: map<MsgId, string>): map<string, int> {
    map peer | peer in owner.Values :: |OwnedBy(owner, peer)|
  }

  function DeadIds(s: StoreState, now: int, ttl: int): set<MsgId> {
    set id | id in s.messages && Expired(s.messages[id], now, ttl)
  }

  /** What gc leaves: exactly the unexpired messages, without the owners of the expired
      ones, and the counts of the owners that are left. */
  function Collect(s: StoreState, now: int, ttl: int): StoreState {
    var dead := DeadIds(s, now, ttl);
    StoreState(s.messages - dead, s.owner - dead, CountsOf(s.owner - dead), s.counters)
  }

  // ----- the two indexes agree -----

  /** peerMessages[p] is the number of IDs that p owns, and there are no zero entries. */
  ghost predicate Agreement(s: StoreState) { s.counts == CountsOf(s.owner) }

  /** Chunks sit under their own message ID and index. */
  ghost predicate Keyed(s: StoreState) {
    forall id, k | id in s.messages && k in s.messages[id].chunks ::
      s.messages[id].chunks[k].msgID == id && s.messages[id].chunks[k].idx == k
  }

  lemma ValuesAdd(owner: map<MsgId, string>, id: MsgId, peer: string)
    requires id !in owner
    ensures owner[id := peer].Values == owner.Values + {peer}
  {
    var owner' := owner[id := peer];
    assert owner'[id] == peer;
    forall p | p in owner.Values ensures p in owner'.Values {
      var i :| i in owner && owner[i] == p;
      assert owner'[i] == p;
    }
  }

  lemma OwnedByAdd(owner: map<MsgId, string>, id: MsgId, peer: string, p: string)
    requires id !in owner
    ensures |OwnedBy(owner[id := peer], p)| == |OwnedBy(owner, p)| + if p == peer then 1 else 0
  {
    var before, after := OwnedBy(owner, p), OwnedBy(owner[id := peer], p);
    assert after == if p == peer then before + {id} else before;
  }

  lemma NoneOwned(owner: map<MsgId, string>, peer: string)
    ensures peer !in owner.Values <==> |OwnedBy(owner, peer)| == 0
  {
    if peer in owner.Values {
      var i :| i in owner && owner[i] == peer;
      assert i in OwnedBy(owner, peer);
    } else {
      assert OwnedBy(owner, peer) == {};
    }
  }

  lemma CountsOfAdd(owner: map<MsgId, string>, id: MsgId, peer: string)
    requires id !in owner
    ensures CountsOf(owner[id := peer]) ==
            CountsOf(owner)[peer := (if peer in CountsOf(owner) then CountsOf(owner)[peer] else 0) + 1]
  {
    var counts, counts' := CountsOf(owner), CountsOf(owner[id := peer]);
    ValuesAdd(owner, id, peer);
    assert counts'.Keys == counts.Keys + {peer};
    NoneOwned(owner, peer);
    forall p | p in counts' ensures counts'[p] == (if p in counts then counts[p] else 0) + if p == peer then 1 else 0 {
      OwnedByAdd(owner, id, peer, p);
    }
  }

  lemma CountsOfRemove(owner: map<MsgId, string>, id: MsgId)
    requires id in owner
    ensures var peer := owner[id];
            peer in CountsOf(owner) && CountsOf(owner)[peer] >= 1
            && CountsOf(owner - {id}) ==
               if CountsOf(owner)[peer] == 1 then CountsOf(owner) - {peer}
               else CountsOf(owner)[peer := CountsOf(owner)[peer] - 1]
  {
    var rest, peer := owner - {id}, owner[id];
    assert owner == rest[id := peer];
    CountsOfAdd(rest, id, peer);
    if peer !in CountsOf(rest) {
      assert CountsOf(owner) - {peer} == CountsOf(rest);
    } else {
      assert OwnedBy(rest, peer) != {};
    }
  }

  lemma SetOwnerAgrees(s: StoreState, id: MsgId, peer: string)
    requires Agreement(s)
    ensures Agreement(SetOwner(s, id, peer))
  {
    if id !in s.owner { CountsOfAdd(s.owner, id, peer); }
  }

  lemma CollectKeepsIndexes(s: StoreState, now: int, ttl: int)
    requires Keyed(s)
    ensures Agreement(Collect(s, now, ttl)) && Keyed(Collect(s, now, ttl))
  {}
}
