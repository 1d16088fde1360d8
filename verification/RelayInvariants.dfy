/** What every step of the relay keeps, and what its sequence numbers promise. */
module RelayInvariants {
  import opened Bytes
  import opened Chunks
  import opened Relay
  import opened Store
  import Base32Hex

  // ----- owned messages are live, stored chunks are well formed -----

  ghost predicate Live(s: StoreState) { s.owner.Keys <= s.messages.Keys }

  ghost predicate AllWellFormed(s: StoreState) {
    forall id, k | id in s.messages && k in s.messages[id].chunks :: WellFormed(s.messages[id].chunks[k])
  }

  ghost predicate Good(s: StoreState) {
    Agreement(s) && Keyed(s) && Live(s) && AllWellFormed(s)
  }

  lemma PutKeepsGood(s: StoreState, c: Chunk, now: int, commits: bool)
    requires Good(s) && WellFormed(c)
    ensures Good(PutChunk(s, c, now, commits))
  {
    var t := StoreChunk(s, c, now, commits);
    assert Keyed(t) && AllWellFormed(t) && Agreement(t);
    SetOwnerAgrees(t, c.msgID, OwnerName(c.recipientHash));
  }

  lemma NextKeepsGood(cfg: Config, s: RelayState, e: Event)
    requires Good(s.store)
    ensures Good(Next(cfg, s, e).store)
  {
    if Stored(cfg, s, e).Some? {
      PutKeepsGood(s.store, Stored(cfg, s, e).value, e.now, e.commits);
    } else if e.Gc? {
      CollectKeepsIndexes(s.store, e.now, cfg.ttl);
    } else if e.Restart? {
      EmptyIsGood(s.store.counters);
    }
  }

  /** A relay that starts with whatever counters it finds satisfies both run invariants. */
  lemma EmptyIsGood(counters: Option<map<seq<byte>, uint64>>)
    ensures Good(StoreState(map[], map[], map[], counters)) && Sequenced(StoreState(map[], map[], map[], counters))
  {
    var owner: map<MsgId, string> := map[];
    assert CountsOf(owner) == map[];
  }

  /** Over every run: the per-peer counts are exact, every owned ID is live, every stored
      chunk sits under its own key and has a positive total. */
  lemma {:induction false} RunKeepsGood(cfg: Config, s: RelayState, es: seq<Event>)
    requires Good(s.store)
    ensures Good(Run(cfg, s, es).store)
  {
    if es != [] {
      RunKeepsGood(cfg, s, es[..|es| - 1]);
      NextKeepsGood(cfg, Run(cfg, s, es[..|es| - 1]), es[|es| - 1]);
    }
  }

  /** Gc removes exactly the expired messages from all three maps. */
  lemma GcIsExact(s: StoreState, now: int, ttl: int, id: MsgId, peer: string)
    requires Good(s)
    ensures var t := Collect(s, now, ttl);
            && (id in t.messages <==> id in s.messages && now - s.messages[id].createdAt <= ttl)
            && (id in t.messages ==> t.messages[id] == s.messages[id])
            && (id in t.owner <==> id in s.owner && id in t.messages)
            && (id in t.owner ==> t.owner[id] == s.owner[id])
            && (if peer in t.counts then t.counts[peer] else 0)
               == |set i | i in s.owner && s.owner[i] == peer && now - s.messages[i].createdAt <= ttl|
  {
    var t := Collect(s, now, ttl);
    NoneOwned(t.owner, peer);
    assert OwnedBy(t.owner, peer) == set i | i in s.owner && s.owner[i] == peer && now - s.messages[i].createdAt <= ttl;
  }

  // ----- why a request has to be one step -----

  /** If gc comes between Store and SetMessageOwner, owned IDs stay live exactly when the buffer that
      took the chunk has not expired at that gc. Store never refreshes an old buffer. The counts
      agree in either case. */
  lemma OwnerAfterGc(s: StoreState, c: Chunk, now: int, commits: bool, gcTime: int, ttl: int, peer: string)
    requires Good(s)
    ensures var t := SetOwner(Collect(StoreChunk(s, c, now, commits), gcTime, ttl), c.msgID, peer);
            && Agreement(t)
            && (Live(t) <==> gcTime - BufferFor(s, c, now, commits).createdAt <= ttl)
  {
    var stored := StoreChunk(s, c, now, commits);
    assert Keyed(stored) && Live(stored);
    var swept := Collect(stored, gcTime, ttl);
    CollectKeepsIndexes(stored, gcTime, ttl);
    SetOwnerAgrees(swept, c.msgID, peer);
    assert c.msgID in SetOwner(swept, c.msgID, peer).owner;
  }

  /** A chunk that is stored again just before its message expires, with gc one nanosecond later:
      the ID is owned and not live, although the counts agree. */
  lemma LateRetransmission(c: Chunk, first: int, ttl: int)
    requires WellFormed(c) && |c.recipientHash| > 0 && ttl >= 0
    ensures var s := PutChunk(StoreState(map[], map[], map[], None), c, first, true);
            var t := SetOwner(Collect(StoreChunk(s, c, first + ttl, true), first + ttl + 1, ttl),
                              c.msgID, OwnerName(c.recipientHash));
            Good(s) && Agreement(t) && !Live(t)
  {
    var empty := StoreState(map[], map[], map[], None);
    EmptyIsGood(None);
    PutKeepsGood(empty, c, first, true);
    var s := PutChunk(empty, c, first, true);
    OwnerAfterGc(s, c, first + ttl, true, first + ttl + 1, ttl, OwnerName(c.recipientHash));
  }

  // ----- sequence numbers -----

  /** The counter key behind an owner name: the first eight bytes of its hash. */
  function OwnerKey(owner: string): seq<byte> {
    var hash := Base32Hex.Decode(owner);
    if hash.Some? then PeerID(hash.value) else []
  }

  lemma OwnerKeyOf(hash: seq<byte>)
    ensures OwnerKey(OwnerName(hash)) == PeerID(hash)
  {
    Base32Hex.RoundTrip(hash);
  }

  function Counters(s: StoreState): map<seq<byte>, uint64> {
    if s.counters.Some? then s.counters.value else map[]
  }

  /** No counter wraps around in the next `n` stores. */
  ghost predicate Headroom(s: StoreState, n: nat) {
    && n < 0x1_0000_0000_0000_0000
    && forall key | key in Counters(s) :: Counters(s)[key] + n < 0x1_0000_0000_0000_0000
  }

  /** The sequence number of a live message, 0 for any other ID. */
  function Number(s: StoreState, id: MsgId): uint64 {
    if id in s.messages then s.messages[id].sequence else 0
  }

  /** The counter that numbers an owned message. */
  function KeyOf(s: StoreState, id: MsgId): Option<seq<byte>> {
    if id in s.owner then Some(OwnerKey(s.owner[id])) else None
  }

  /** A nonzero number belongs to an owned message and was handed out by its counter. */
  ghost predicate Issued(s: StoreState) {
    forall id :: Number(s, id) != 0 ==>
      KeyOf(s, id).Some? && Number(s, id) <= Last(Counters(s), KeyOf(s, id).value)
  }

  /** Messages under the same counter never share a nonzero number. */
  ghost predicate Unshared(s: StoreState) {
    forall x, y :: x != y && Number(s, x) != 0 && KeyOf(s, x) == KeyOf(s, y) ==> Number(s, x) != Number(s, y)
  }

  ghost predicate Sequenced(s: StoreState) { Good(s) && Issued(s) && Unshared(s) }

  /** A stamp is larger than everything issued before, exactly until the counter wraps. */
  lemma StampIsNew(s: StoreState, hash: seq<byte>)
    requires s.counters.Some? && |hash| > 0
    ensures Stamp(s, hash, true) > Last(s.counters.value, PeerID(hash))
       <==> Last(s.counters.value, PeerID(hash)) < 0xFFFF_FFFF_FFFF_FFFF
  {}

  /** From `s` to `t` only message `id` may gain a number, and no owner changes. */
  ghost predicate NumbersKept(s: StoreState, t: StoreState, id: MsgId) {
    && (forall x | x != id :: Number(t, x) == Number(s, x))
    && (forall x | KeyOf(s, x).Some? :: KeyOf(t, x) == KeyOf(s, x))
  }

  lemma SameNumbers(s: StoreState, t: StoreState, id: MsgId)
    requires Issued(s) && Unshared(s) && Counters(t) == Counters(s) && NumbersKept(s, t, id)
    requires Number(t, id) == Number(s, id)
    ensures Issued(t) && Unshared(t)
  {
    assert forall x :: Number(t, x) == Number(s, x);
  }

  /** A new message gets its counter's next number. */
  lemma NextNumber(s: StoreState, t: StoreState, id: MsgId, key: seq<byte>)
    requires Issued(s) && Unshared(s) && NumbersKept(s, t, id)
    requires Number(s, id) == 0 && KeyOf(t, id) == Some(key)
    requires Number(t, id) == Last(Counters(s), key) + 1
    requires Counters(t) == Counters(s)[key := Number(t, id)]
    ensures Issued(t) && Unshared(t)
  {
    forall x ensures Number(t, x) != 0 ==>
      KeyOf(t, x).Some? && Number(t, x) <= Last(Counters(t), KeyOf(t, x).value)
    {
      assert x != id ==> Number(t, x) == Number(s, x);
    }
    forall x, y | x != y && Number(t, x) != 0 && KeyOf(t, x) == KeyOf(t, y) ensures Number(t, x) != Number(t, y) {
      assert x != id ==> Number(t, x) == Number(s, x);
      assert y != id ==> Number(t, y) == Number(s, y);
    }
  }

  /** What a store request does to numbers and counters. */
  ghost predicate PutEffect(s: StoreState, c: Chunk, commits: bool, t: StoreState) {
    && NumbersKept(s, t, c.msgID)
    && if c.msgID in s.messages || s.counters.None? || |c.recipientHash| == 0 || !commits then
         Counters(t) == Counters(s) && Number(t, c.msgID) == Number(s, c.msgID)
       else
         && Number(s, c.msgID) == 0
         && Number(t, c.msgID) == Successor(Last(Counters(s), PeerID(c.recipientHash)))
         && Counters(t) == Counters(s)[PeerID(c.recipientHash) := Number(t, c.msgID)]
         && (c.msgID !in s.owner ==> KeyOf(t, c.msgID) == Some(PeerID(c.recipientHash)))
  }

  lemma StoreEffect(s: StoreState, c: Chunk, now: int, commits: bool)
    ensures var t := StoreChunk(s, c, now, commits);
            && t.owner == s.owner && (forall x | x != c.msgID :: Number(t, x) == Number(s, x))
            && if c.msgID in s.messages then Counters(t) == Counters(s) && Number(t, c.msgID) == Number(s, c.msgID)
               else Counters(t) == Counters(s.(counters := Counted(s, c.recipientHash, commits)))
                    && Number(t, c.msgID) == Stamp(s, c.recipientHash, commits)
  {}

  lemma OwnerEffect(s: StoreState, id: MsgId, hash: seq<byte>)
    ensures var t := SetOwner(s, id, OwnerName(hash));
            && t.messages == s.messages && t.counters == s.counters
            && (forall x | KeyOf(s, x).Some? :: KeyOf(t, x) == KeyOf(s, x))
            && (id !in s.owner ==> KeyOf(t, id) == Some(PeerID(hash)))
  {
    OwnerKeyOf(hash);
  }

  lemma PutHasEffect(s: StoreState, c: Chunk, now: int, commits: bool)
    ensures PutEffect(s, c, commits, PutChunk(s, c, now, commits))
  {
    var stored := StoreChunk(s, c, now, commits);
    StoreEffect(s, c, now, commits);
    assert forall x :: KeyOf(stored, x) == KeyOf(s, x);
    OwnerEffect(stored, c.msgID, c.recipientHash);
    var t := PutChunk(s, c, now, commits);
    assert forall x :: Number(t, x) == Number(stored, x);
  }

  lemma EffectKeepsSequences(s: StoreState, c: Chunk, commits: bool, t: StoreState)
    requires Live(s) && Issued(s) && Unshared(s) && Headroom(s, 1) && PutEffect(s, c, commits, t)
    ensures Issued(t) && Unshared(t)
  {
    if c.msgID in s.messages || s.counters.None? || |c.recipientHash| == 0 || !commits {
      SameNumbers(s, t, c.msgID);
    } else {
      assert c.msgID !in s.owner;
      NextNumber(s, t, c.msgID, PeerID(c.recipientHash));
    }
  }

  lemma PutKeepsSequenced(s: StoreState, c: Chunk, now: int, commits: bool)
    requires Sequenced(s) && Headroom(s, 1) && WellFormed(c)
    ensures Sequenced(PutChunk(s, c, now, commits))
  {
    PutKeepsGood(s, c, now, commits);
    PutHasEffect(s, c, now, commits);
    EffectKeepsSequences(s, c, commits, PutChunk(s, c, now, commits));
  }

  /** A step either has the effect of one store request or leaves the counters alone. */
  lemma NextEffect(cfg: Config, s: RelayState, e: Event)
    ensures Stored(cfg, s, e).Some? ==> PutEffect(s.store, Stored(cfg, s, e).value, e.commits, Next(cfg, s, e).store)
    ensures Stored(cfg, s, e).None? ==> Counters(Next(cfg, s, e).store) == Counters(s.store)
    ensures Next(cfg, s, e).store.counters.Some? == s.store.counters.Some?
  {
    var c := Stored(cfg, s, e);
    if c.Some? {
      PutHasEffect(s.store, c.value, e.now, e.commits);
    }
  }

  lemma EffectHeadroom(s: StoreState, c: Chunk, commits: bool, t: StoreState, n: nat)
    requires Headroom(s, n + 1) && PutEffect(s, c, commits, t)
    ensures Headroom(t, n)
  {}

  lemma HeadroomNext(cfg: Config, s: RelayState, e: Event, n: nat)
    requires Headroom(s.store, n + 1)
    ensures Headroom(Next(cfg, s, e).store, n)
  {
    NextEffect(cfg, s, e);
    if Stored(cfg, s, e).Some? {
      EffectHeadroom(s.store, Stored(cfg, s, e).value, e.commits, Next(cfg, s, e).store, n);
    }
  }

  lemma RemovalKeepsSequences(s: StoreState, t: StoreState)
    requires Issued(s) && Unshared(s) && Counters(t) == Counters(s)
    requires forall x | x in t.messages :: x in s.messages && t.messages[x] == s.messages[x]
    requires forall x | x in t.messages :: KeyOf(t, x) == KeyOf(s, x)
    ensures Issued(t) && Unshared(t)
  {
    forall x ensures Number(t, x) == 0 || (Number(t, x) == Number(s, x) && KeyOf(t, x) == KeyOf(s, x)) {
    }
    forall x, y | x != y && Number(t, x) != 0 && KeyOf(t, x) == KeyOf(t, y) ensures Number(t, x) != Number(t, y) {
      assert Number(t, x) == Number(s, x);
    }
  }

  lemma NextKeepsSequenced(cfg: Config, s: RelayState, e: Event)
    requires Sequenced(s.store) && Headroom(s.store, 1)
    ensures Sequenced(Next(cfg, s, e).store)
  {
    NextKeepsGood(cfg, s, e);
    if Stored(cfg, s, e).Some? {
      PutKeepsSequenced(s.store, Stored(cfg, s, e).value, e.now, e.commits);
    } else if !e.Request? {
      RemovalKeepsSequences(s.store, Next(cfg, s, e).store);
    }
  }

  lemma {:induction false} RunHeadroom(cfg: Config, s: RelayState, es: seq<Event>, n: nat)
    requires Headroom(s.store, |es| + n)
    ensures Headroom(Run(cfg, s, es).store, n)
  {
    if es != [] {
      RunHeadroom(cfg, s, es[..|es| - 1], n + 1);
      HeadroomNext(cfg, Run(cfg, s, es[..|es| - 1]), es[|es| - 1], n);
    }
  }

  /** Over every run of store, gc and restart steps that is too short to wrap a counter, live
      messages of one owner never share a nonzero sequence number. */
  lemma {:induction false} RunKeepsSequenced(cfg: Config, s: RelayState, es: seq<Event>)
    requires Sequenced(s.store) && Headroom(s.store, |es|)
    ensures Sequenced(Run(cfg, s, es).store)
  {
    if es != [] {
      var init := es[..|es| - 1];
      assert Headroom(s.store, |init| + 1);
      RunHeadroom(cfg, s, init, 1);
      assert Headroom(s.store, |init|);
      RunKeepsSequenced(cfg, s, init);
      NextKeepsSequenced(cfg, Run(cfg, s, init), es[|es| - 1]);
    }
  }

  lemma OwnersShareNoSequence(cfg: Config, s: RelayState, es: seq<Event>, x: MsgId, y: MsgId)
    requires Sequenced(s.store) && Headroom(s.store, |es|)
    requires var t := Run(cfg, s, es).store;
             && x != y && x in t.messages && y in t.messages
             && x in t.owner && y in t.owner && t.owner[x] == t.owner[y]
             && t.messages[x].sequence != 0
    ensures var t := Run(cfg, s, es).store; t.messages[x].sequence != t.messages[y].sequence
  {
    RunKeepsSequenced(cfg, s, es);
    var t := Run(cfg, s, es).store;
    assert Number(t, x) != Number(t, y);
  }
}
