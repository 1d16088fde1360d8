/** One message through a relay run: whatever else happens, its buffer holds exactly those of
    its chunks that arrived, until it expires or the relay restarts. */
module MessageRuns {
  import opened Bytes
  import opened ChunkStores
  import opened Chunks
  import opened Counting
  import opened Reassembly
  import opened Relay
  import opened RelayRuns
  import opened Store

  /** Of the message `cs`, the store holds exactly the chunks with indices in `got`. */
  ghost predicate Holds(s: StoreState, cs: seq<Chunk>, id: MsgId, hash: seq<byte>, got: set<int>) {
    && (forall i | i in got :: 0 <= i < |cs|)
    && (got == {} ==> id !in s.messages && id !in s.owner)
    && (got != {} ==>
          && id in s.messages && s.messages[id].total == |cs|
          && HoldsChunks(s.messages[id].chunks, cs, got)
          && (|hash| > 0 ==> id in s.owner && s.owner[id] == OwnerName(hash)))
  }

  ghost predicate HoldsChunks(m: map<uint16, Chunk>, cs: seq<Chunk>, got: set<int>) {
    && (forall i | i in got :: 0 <= i < |cs|)
    && (forall k: uint16 :: k in m <==> k in got)
    && (forall k: uint16 | k in m :: m[k] == cs[k])
  }

  /** What is stamped on a message: creation time, timestamp and sequence number. */
  datatype Metadata = Metadata(createdAt: int, timestamp: int, sequence: uint64)

  function Meta(buf: MessageBuf): Metadata { Metadata(buf.createdAt, buf.timestamp, buf.sequence) }

  /** The stamp of a message that is first stored now. */
  function StampFor(s: StoreState, now: int, commits: bool, hash: seq<byte>): Metadata {
    Metadata(now, now / 1_000_000, Stamp(s, hash, commits))
  }

  /** Another chunk of the message arrives. */
  lemma PutOwn(s: StoreState, cs: seq<Chunk>, id: MsgId, p: seq<byte>, hash: seq<byte>, got: set<int>,
               i: nat, now: int, commits: bool)
    requires Sent(cs, id, p, hash) && Holds(s, cs, id, hash, got) && i < |cs|
    ensures var t := PutChunk(s, cs[i], now, commits);
            && Holds(t, cs, id, hash, got + {i})
            && Meta(t.messages[id]) == if got == {} then StampFor(s, now, commits, hash) else Meta(s.messages[id])
  {
    assert Piece(cs[i], id, i, |cs|, hash);
    PutBuffer(s, cs[i], now, commits);
    GrowChunks(BufferFor(s, cs[i], now, commits).chunks, cs, got, i);
  }

  lemma PutBuffer(s: StoreState, c: Chunk, now: int, commits: bool)
    ensures var t, buf := PutChunk(s, c, now, commits), BufferFor(s, c, now, commits);
            && c.msgID in t.messages && t.messages[c.msgID] == buf.(chunks := buf.chunks[c.idx := c])
            && (|c.recipientHash| > 0 ==>
                  && c.msgID in t.owner
                  && t.owner[c.msgID] == if c.msgID in s.owner then s.owner[c.msgID] else OwnerName(c.recipientHash))
  {}

  lemma GrowChunks(m: map<uint16, Chunk>, cs: seq<Chunk>, got: set<int>, i: uint16)
    requires HoldsChunks(m, cs, got) && i < |cs|
    ensures HoldsChunks(m[i := cs[i]], cs, got + {i})
  {}

  /** A chunk of another message arrives. */
  lemma PutOther(s: StoreState, cs: seq<Chunk>, id: MsgId, hash: seq<byte>, got: set<int>,
                 c: Chunk, now: int, commits: bool)
    requires Holds(s, cs, id, hash, got) && c.msgID != id
    ensures var t := PutChunk(s, c, now, commits);
            Holds(t, cs, id, hash, got) && (id in s.messages ==> t.messages[id] == s.messages[id])
  {}

  lemma CollectOther(s: StoreState, cs: seq<Chunk>, id: MsgId, hash: seq<byte>, got: set<int>, now: int, ttl: int)
    requires Holds(s, cs, id, hash, got) && (got != {} ==> now - s.messages[id].createdAt <= ttl)
    ensures var t := Collect(s, now, ttl);
            Holds(t, cs, id, hash, got) && (id in s.messages ==> t.messages[id] == s.messages[id])
  {}

  // ----- over a run -----

  /** What each step of a run stores. */
  ghost function Log(cfg: Config, s: RelayState, es: seq<Event>): (log: seq<Option<Chunk>>)
    ensures |log| == |es| && forall k | 0 <= k < |es| :: log[k] == StoredAt(cfg, s, es, k)
  {
    seq(|es|, k requires 0 <= k < |es| => StoredAt(cfg, s, es, k))
  }

  /** The indices of the chunks of `cs` stored in the first `k` steps. */
  ghost function Got(log: seq<Option<Chunk>>, cs: seq<Chunk>, k: nat): set<int>
    requires k <= |log|
  {
    set i | 0 <= i < |cs| && Some(cs[i]) in log[..k]
  }

  predicate Under(stored: Option<Chunk>, id: MsgId) { stored.Some? && stored.value.msgID == id }

  /** Message IDs are distinct per message: whatever is stored under `id` is a chunk of `cs`. */
  ghost predicate OnlyOurs(log: seq<Option<Chunk>>, cs: seq<Chunk>, id: MsgId) {
    forall k | 0 <= k < |log| && Under(log[k], id) :: log[k].value in cs
  }

  /** Once a chunk is stored the relay does not restart, and gc runs only within the
      message's lifetime. */
  ghost predicate Undisturbed(log: seq<Option<Chunk>>, es: seq<Event>, id: MsgId, ttl: int)
    requires |log| == |es|
  {
    forall j, k | 0 <= j < k < |es| && Under(log[j], id) ::
      !es[k].Restart? && (es[k].Gc? ==> es[k].now - es[j].now <= ttl)
  }

  ghost predicate Setting(cfg: Config, s: RelayState, es: seq<Event>, cs: seq<Chunk>, id: MsgId, p: seq<byte>, hash: seq<byte>) {
    && Sent(cs, id, p, hash)
    && id !in s.store.messages && id !in s.store.owner
    && OnlyOurs(Log(cfg, s, es), cs, id) && Undisturbed(Log(cfg, s, es), es, id, cfg.ttl)
  }

  predicate Commits(e: Event) { e.Request? && e.commits }

  /** Step `j` is the first that stores a chunk of the message. */
  ghost predicate FirstStore(log: seq<Option<Chunk>>, id: MsgId, j: nat) {
    j < |log| && Under(log[j], id) && forall i | 0 <= i < j :: !Under(log[i], id)
  }

  /** The buffer bears the stamp of the first step that stored a chunk of the message. */
  ghost predicate StampedFirst(cfg: Config, s: RelayState, es: seq<Event>, id: MsgId, hash: seq<byte>, k: nat)
    requires k <= |es|
  {
    var t, log := Before(cfg, s, es, k).store, Log(cfg, s, es);
    id in t.messages ==> exists j: nat :: j < k && FirstStore(log, id, j) && Meta(t.messages[id]) == StampAt(cfg, s, es, hash, j)
  }

  function StampAt(cfg: Config, s: RelayState, es: seq<Event>, hash: seq<byte>, j: nat): Metadata
    requires j < |es|
  {
    StampFor(Before(cfg, s, es, j).store, es[j].now, Commits(es[j]), hash)
  }

  lemma ArrivedIsGot(log: seq<Option<Chunk>>, cs: seq<Chunk>, id: MsgId, i: nat, k: nat)
    requires i < k <= |log| && OnlyOurs(log, cs, id) && Under(log[i], id)
    ensures Got(log, cs, k) != {}
  {
    var x :| 0 <= x < |cs| && cs[x] == log[i].value;
    assert log[..k][i] == Some(cs[x]);
    assert x in Got(log, cs, k);
  }

  lemma NothingBefore(log: seq<Option<Chunk>>, cs: seq<Chunk>, id: MsgId, k: nat)
    requires k <= |log| && OnlyOurs(log, cs, id)
    ensures Got(log, cs, k) == {} ==> forall i | 0 <= i < k :: !Under(log[i], id)
  {
    if i :| 0 <= i < k && Under(log[i], id) {
      ArrivedIsGot(log, cs, id, i, k);
    }
  }

  lemma GotNext(log: seq<Option<Chunk>>, cs: seq<Chunk>, k: nat)
    requires k < |log|
    ensures Got(log, cs, k + 1) == Got(log, cs, k) + set i | 0 <= i < |cs| && Some(cs[i]) == log[k]
  {
    assert log[..k + 1] == log[..k] + [log[k]];
  }

  lemma GotOwn(log: seq<Option<Chunk>>, cs: seq<Chunk>, id: MsgId, p: seq<byte>, hash: seq<byte>, k: nat)
    returns (i: nat)
    requires k < |log| && Sent(cs, id, p, hash) && OnlyOurs(log, cs, id) && Under(log[k], id)
    ensures i < |cs| && log[k] == Some(cs[i]) && Got(log, cs, k + 1) == Got(log, cs, k) + {i}
  {
    i :| 0 <= i < |cs| && cs[i] == log[k].value;
    GotNext(log, cs, k);
    forall j | 0 <= j < |cs| && cs[j] == cs[i] ensures j == i {
      assert Piece(cs[i], id, i, |cs|, hash) && Piece(cs[j], id, j, |cs|, hash);
    }
  }

  lemma GotOther(log: seq<Option<Chunk>>, cs: seq<Chunk>, id: MsgId, p: seq<byte>, hash: seq<byte>, k: nat)
    requires k < |log| && Sent(cs, id, p, hash) && !Under(log[k], id)
    ensures Got(log, cs, k + 1) == Got(log, cs, k)
  {
    GotNext(log, cs, k);
    forall i | 0 <= i < |cs| ensures log[k] != Some(cs[i]) {
      assert Piece(cs[i], id, i, |cs|, hash);
    }
  }

  ghost predicate Tracks(cfg: Config, s: RelayState, es: seq<Event>, cs: seq<Chunk>, id: MsgId, hash: seq<byte>, k: nat)
    requires k <= |es|
  {
    && Holds(Before(cfg, s, es, k).store, cs, id, hash, Got(Log(cfg, s, es), cs, k))
    && StampedFirst(cfg, s, es, id, hash, k)
  }

  lemma TrackOwn(cfg: Config, s: RelayState, es: seq<Event>, cs: seq<Chunk>, id: MsgId, p: seq<byte>, hash: seq<byte>, k: nat)
    requires Setting(cfg, s, es, cs, id, p, hash) && k < |es| && Tracks(cfg, s, es, cs, id, hash, k)
    requires Under(Log(cfg, s, es)[k], id)
    ensures Tracks(cfg, s, es, cs, id, hash, k + 1)
  {
    var st, t, log := Before(cfg, s, es, k).store, Before(cfg, s, es, k + 1).store, Log(cfg, s, es);
    BeforeNext(cfg, s, es, k);
    var i := GotOwn(log, cs, id, p, hash, k);
    PutOwn(st, cs, id, p, hash, Got(log, cs, k), i, es[k].now, es[k].commits);
    if id in st.messages {
      var j: nat :| j < k && FirstStore(log, id, j) && Meta(st.messages[id]) == StampAt(cfg, s, es, hash, j);
      assert Meta(t.messages[id]) == StampAt(cfg, s, es, hash, j);
    } else {
      NothingBefore(log, cs, id, k);
      assert FirstStore(log, id, k) && Meta(t.messages[id]) == StampAt(cfg, s, es, hash, k);
    }
  }

  lemma TrackOther(cfg: Config, s: RelayState, es: seq<Event>, cs: seq<Chunk>, id: MsgId, p: seq<byte>, hash: seq<byte>, k: nat)
    requires Setting(cfg, s, es, cs, id, p, hash) && k < |es| && Tracks(cfg, s, es, cs, id, hash, k)
    requires !Under(Log(cfg, s, es)[k], id)
    ensures Tracks(cfg, s, es, cs, id, hash, k + 1)
  {
    var st, t, log := Before(cfg, s, es, k), Before(cfg, s, es, k + 1).store, Log(cfg, s, es);
    BeforeNext(cfg, s, es, k);
    GotOther(log, cs, id, p, hash, k);
    if id in st.store.messages {
      var j: nat :| j < k && FirstStore(log, id, j) && Meta(st.store.messages[id]) == StampAt(cfg, s, es, hash, j);
      StepKeeps(cfg, st, es[k], cs, id, hash, Got(log, cs, k));
      assert Meta(t.messages[id]) == StampAt(cfg, s, es, hash, j);
    } else {
      StepKeeps(cfg, st, es[k], cs, id, hash, Got(log, cs, k));
    }
  }

  /** A step that stores no chunk of the message and does not drop it. */
  lemma StepKeeps(cfg: Config, s: RelayState, e: Event, cs: seq<Chunk>, id: MsgId, hash: seq<byte>, got: set<int>)
    requires Holds(s.store, cs, id, hash, got)
    requires Stored(cfg, s, e).Some? ==> Stored(cfg, s, e).value.msgID != id
    requires id in s.store.messages ==>
               !e.Restart? && (e.Gc? ==> e.now - s.store.messages[id].createdAt <= cfg.ttl)
    ensures Holds(Next(cfg, s, e).store, cs, id, hash, got)
    ensures id in s.store.messages ==> Next(cfg, s, e).store.messages[id] == s.store.messages[id]
    ensures id in Next(cfg, s, e).store.messages ==> id in s.store.messages
  {
    var c := Stored(cfg, s, e);
    if c.Some? {
      PutOther(s.store, cs, id, hash, got, c.value, e.now, e.commits);
    } else if e.Gc? {
      CollectOther(s.store, cs, id, hash, got, e.now, cfg.ttl);
    }
  }

  lemma TrackStep(cfg: Config, s: RelayState, es: seq<Event>, cs: seq<Chunk>, id: MsgId, p: seq<byte>, hash: seq<byte>, k: nat)
    requires Setting(cfg, s, es, cs, id, p, hash) && k < |es| && Tracks(cfg, s, es, cs, id, hash, k)
    ensures Tracks(cfg, s, es, cs, id, hash, k + 1)
  {
    if Under(Log(cfg, s, es)[k], id) {
      TrackOwn(cfg, s, es, cs, id, p, hash, k);
    } else {
      TrackOther(cfg, s, es, cs, id, p, hash, k);
    }
  }

  lemma TrackStart(cfg: Config, s: RelayState, es: seq<Event>, cs: seq<Chunk>, id: MsgId, hash: seq<byte>)
    requires id !in s.store.messages && id !in s.store.owner
    ensures Tracks(cfg, s, es, cs, id, hash, 0)
  {
    assert es[..0] == [] && Got(Log(cfg, s, es), cs, 0) == {};
    assert Before(cfg, s, es, 0) == s;
  }

  /** At every point of the run the store holds exactly the chunks that have arrived. */
  lemma {:induction false} HoldsWhatArrived(cfg: Config, s: RelayState, es: seq<Event>, cs: seq<Chunk>, id: MsgId,
                                            p: seq<byte>, hash: seq<byte>, k: nat)
    requires Setting(cfg, s, es, cs, id, p, hash) && k <= |es|
    ensures Tracks(cfg, s, es, cs, id, hash, k)
    decreases k
  {
    if k == 0 {
      TrackStart(cfg, s, es, cs, id, hash);
    } else {
      HoldsWhatArrived(cfg, s, es, cs, id, p, hash, k - 1);
      TrackStep(cfg, s, es, cs, id, p, hash, k - 1);
    }
  }

  // ----- retransmission -----

  /** Storing again a chunk that is held changes nothing at all. */
  lemma ReplayHeld(s: StoreState, cs: seq<Chunk>, id: MsgId, p: seq<byte>, hash: seq<byte>, got: set<int>,
                   i: nat, now: int, commits: bool)
    requires Sent(cs, id, p, hash) && Holds(s, cs, id, hash, got) && i in got
    ensures PutChunk(s, cs[i], now, commits) == s
  {
    assert Piece(cs[i], id, i, |cs|, hash);
    var buf := s.messages[id];
    assert buf.chunks[cs[i].idx := cs[i]] == buf.chunks;
    assert s.messages[id := buf] == s.messages;
    assert StoreChunk(s, cs[i], now, commits) == s;
  }

  /** At any later point of the run, a store request that was already handled leaves every
      chunk, timestamp, sequence number, owner and count as it is, however often it comes. */
  lemma RetransmissionHarmless(cfg: Config, s: RelayState, es: seq<Event>, cs: seq<Chunk>, id: MsgId,
                               p: seq<byte>, hash: seq<byte>, i: nat, j: nat, k: nat, now: int, commits: bool)
    requires Setting(cfg, s, es, cs, id, p, hash) && i < |cs| && j < k <= |es|
    requires StoredAt(cfg, s, es, j) == Some(cs[i])
    ensures PutChunk(Before(cfg, s, es, k).store, cs[i], now, commits) == Before(cfg, s, es, k).store
  {
    HoldsWhatArrived(cfg, s, es, cs, id, p, hash, k);
    var log := Log(cfg, s, es);
    assert i in Got(log, cs, k) by {
      assert log[..k][j] == Some(cs[i]);
    }
    ReplayHeld(Before(cfg, s, es, k).store, cs, id, p, hash, Got(log, cs, k), i, now, commits);
  }

  /** What a store request does apart from the chunk: the buffer exists, and its message has an owner. */
  function Opened(s: StoreState, id: MsgId, total: uint16, hash: seq<byte>, now: int, commits: bool): StoreState {
    Claimed(Buffered(s, id, total, hash, now, commits), id, hash)
  }

  function Buffered(s: StoreState, id: MsgId, total: uint16, hash: seq<byte>, now: int, commits: bool): StoreState {
    if id in s.messages then s else
      s.(messages := s.messages[id := MessageBuf(map[], total, now, now / 1_000_000, Stamp(s, hash, commits))],
         counters := Counted(s, hash, commits))
  }

  function Claimed(s: StoreState, id: MsgId, hash: seq<byte>): StoreState {
    if |hash| > 0 then SetOwner(s, id, OwnerName(hash)) else s
  }

  function WithChunk(s: StoreState, c: Chunk): StoreState
    requires c.msgID in s.messages
  {
    var buf := s.messages[c.msgID];
    s.(messages := s.messages[c.msgID := buf.(chunks := buf.chunks[c.idx := c])])
  }

  lemma StoreBuffers(s: StoreState, c: Chunk, now: int, commits: bool)
    ensures var t := Buffered(s, c.msgID, c.total, c.recipientHash, now, commits);
            c.msgID in t.messages && StoreChunk(s, c, now, commits) == WithChunk(t, c)
  {
    var buf := BufferFor(s, c, now, commits);
    assert s.messages[c.msgID := buf][c.msgID := buf.(chunks := buf.chunks[c.idx := c])]
        == s.messages[c.msgID := buf.(chunks := buf.chunks[c.idx := c])];
  }

  lemma ClaimKeepsChunk(s: StoreState, c: Chunk)
    requires c.msgID in s.messages
    ensures var t := Claimed(s, c.msgID, c.recipientHash);
            c.msgID in t.messages && Claimed(WithChunk(s, c), c.msgID, c.recipientHash) == WithChunk(t, c)
  {}

  lemma PutOpens(s: StoreState, c: Chunk, now: int, commits: bool)
    ensures var t := Opened(s, c.msgID, c.total, c.recipientHash, now, commits);
            c.msgID in t.messages && PutChunk(s, c, now, commits) == WithChunk(t, c)
  {
    StoreBuffers(s, c, now, commits);
    ClaimKeepsChunk(Buffered(s, c.msgID, c.total, c.recipientHash, now, commits), c);
    assert PutChunk(s, c, now, commits) == Claimed(StoreChunk(s, c, now, commits), c.msgID, c.recipientHash);
  }

  /** Once opened, a message stays as it is opened. */
  lemma OpenedOnce(s: StoreState, c: Chunk, now: int, commits: bool)
    requires c.msgID in s.messages && (|c.recipientHash| > 0 ==> c.msgID in s.owner)
    ensures PutChunk(s, c, now, commits) == WithChunk(s, c)
  {
    PutOpens(s, c, now, commits);
  }

  lemma OpenedStays(s: StoreState, id: MsgId, total: uint16, hash: seq<byte>, now: int, commits: bool)
    ensures var t := Opened(s, id, total, hash, now, commits);
            id in t.messages && (|hash| > 0 ==> id in t.owner)
  {}

  lemma ChunksCommute(s: StoreState, c: Chunk, d: Chunk)
    requires c.msgID == d.msgID && c.msgID in s.messages && (c.idx == d.idx ==> c == d)
    ensures WithChunk(WithChunk(s, c), d) == WithChunk(WithChunk(s, d), c)
  {
    var m: map<uint16, Chunk> := s.messages[c.msgID].chunks;
    var x: map<uint16, Chunk>, y: map<uint16, Chunk> := m[c.idx := c], m[d.idx := d];
    assert x[d.idx := d] == y[c.idx := c];
    assert WithChunk(WithChunk(s, c), d).messages == WithChunk(WithChunk(s, d), c).messages;
  }

  lemma TwoPuts(s: StoreState, c: Chunk, d: Chunk, now: int, commits: bool, later: int, commits': bool)
    requires c.msgID == d.msgID && c.recipientHash == d.recipientHash
    ensures var t := Opened(s, c.msgID, c.total, c.recipientHash, now, commits);
            c.msgID in t.messages && PutChunk(PutChunk(s, c, now, commits), d, later, commits') == WithChunk(WithChunk(t, c), d)
  {
    PutOpens(s, c, now, commits);
    OpenedStays(s, c.msgID, c.total, c.recipientHash, now, commits);
    OpenedOnce(PutChunk(s, c, now, commits), d, later, commits');
  }

  /** Two store requests of one message may arrive in either order, in any state and whether or not
      their transactions commit: the whole store is the same. */
  lemma StoresCommute(s: StoreState, c: Chunk, d: Chunk, now: int, commits: bool, later: int, commits': bool)
    requires c.msgID == d.msgID && c.total == d.total && c.recipientHash == d.recipientHash && (c.idx == d.idx ==> c == d)
    ensures PutChunk(PutChunk(s, c, now, commits), d, later, commits')
         == PutChunk(PutChunk(s, d, now, commits), c, later, commits')
  {
    TwoPuts(s, c, d, now, commits, later, commits');
    TwoPuts(s, d, c, now, commits, later, commits');
    ChunksCommute(Opened(s, c.msgID, c.total, c.recipientHash, now, commits), c, d);
  }

  lemma HeldCount(m: map<uint16, Chunk>, cs: seq<Chunk>, got: set<int>)
    requires HoldsChunks(m, cs, got) && |cs| <= 0xFFFF
    ensures |m| == |got|
    ensures |m| == |cs| <==> forall i | 0 <= i < |cs| :: i in got
  {
    var keys: set<int> := m.Keys;
    forall x | x in got ensures x in keys {
      var k: uint16 := x;
      assert k in m;
    }
    assert keys == got;
    var all: set<int> := Range(|cs|);
    SubsetSize(got, all);
    assert got == all <==> forall i | 0 <= i < |cs| :: i in got;
  }

  /** Store reports completion exactly when every index is present. */
  lemma FullIsExact(s: StoreState, cs: seq<Chunk>, id: MsgId, p: seq<byte>, hash: seq<byte>, got: set<int>)
    requires Sent(cs, id, p, hash) && Holds(s, cs, id, hash, got) && got != {}
    ensures Full(s.messages[id]) <==> forall i | 0 <= i < |cs| :: i in got
  {
    HeldCount(s.messages[id].chunks, cs, got);
  }

  lemma SameElementsOnce(xs: seq<Chunk>, ys: seq<Chunk>)
    requires Distinct(xs) && Distinct(ys) && forall x :: x in xs <==> x in ys
    ensures multiset(xs) == multiset(ys)
  {
    forall x ensures multiset(xs)[x] == multiset(ys)[x] {
      DistinctOnce(xs, x);
      DistinctOnce(ys, x);
      assert (x in xs <==> x in multiset(xs)) && (x in ys <==> x in multiset(ys));
    }
  }

  /** A full buffer reassembles to the payload in whatever order the map yields its chunks. */
  lemma FullReassembles(s: StoreState, cs: seq<Chunk>, id: MsgId, p: seq<byte>, hash: seq<byte>, got: set<int>, ds: seq<Chunk>)
    requires Sent(cs, id, p, hash) && Holds(s, cs, id, hash, got) && got != {}
    requires Full(s.messages[id]) && Enumerates(ds, s.messages[id].chunks)
    ensures Reassemble(ds) == Some(p)
  {
    var m := s.messages[id].chunks;
    FullIsExact(s, cs, id, p, hash, got);
    forall i | 0 <= i < |cs| ensures cs[i] in ds && cs[i].idx == i {
      assert Piece(cs[i], id, i, |cs|, hash);
      var k: uint16 := i;
      assert m[k] == cs[i];
    }
    forall x ensures x in ds <==> x in cs {
    }
    forall i, j | 0 <= i < j < |ds| ensures ds[i] != ds[j] {
      assert Indices(ds)[i] != Indices(ds)[j];
    }
    SameElementsOnce(ds, cs);
    SentReassembles(cs, id, p, hash, ds);
  }

  lemma HeldLookup(t: StoreState, cs: seq<Chunk>, id: MsgId, p: seq<byte>, hash: seq<byte>, got: set<int>)
    requires Sent(cs, id, p, hash) && Holds(t, cs, id, hash, got) && forall i | 0 <= i < |cs| :: i in got
    ensures id in t.messages && Full(t.messages[id])
    ensures forall i: uint16 | i < |cs| :: Lookup(t, id, i) == Some(cs[i])
    ensures |hash| > 0 ==> id in t.owner && t.owner[id] == OwnerName(hash)
  {
    assert 0 in got;
    FullIsExact(t, cs, id, p, hash, got);
  }
}
