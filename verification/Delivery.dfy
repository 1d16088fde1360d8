/** End to end: from the chunks a sender puts on the wire to the payload a recipient reads,
    through any relay run. */
module Delivery {
  import opened Bytes
  import opened Chunks
  import opened Counting
  import opened DnsClient
  import opened Labels
  import opened MessageRuns
  import opened Reassembly
  import opened Relay
  import opened RelayInvariants
  import opened RelayRuns
  import opened Store
  import Base32Hex
  import Engine
  import Text

  // ----- polling -----

  function PollName(hash: Hash, zone: string): string {
    QuestionName(["POLL", OwnerName(hash)], zone)
  }

  lemma PollNameIsPoll(hash: Hash, zone: string)
    ensures Classify(zone, Some(PollName(hash, zone))) == Poll(OwnerName(hash))
    ensures PollName(hash, zone) == Fqdn("POLL." + Base32Hex.Encode(hash) + "." + zone)
  {
    assert ["POLL", OwnerName(hash)] + [zone] == ["POLL", OwnerName(hash), zone];
    Text.JoinThree("POLL", OwnerName(hash), zone, '.');
    assert "POLL" + "." == "POLL.";
    EncodedLabel(hash);
    DigitLabelsPlain([OwnerName(hash)]);
    assert Plain(["POLL", OwnerName(hash)]);
    NameRoundTrip(["POLL", OwnerName(hash)], zone);
  }

  lemma {:induction false} RecordsContain(s: StoreState, ids: seq<MsgId>, id: MsgId)
    requires id in ids
    ensures PollRecord(s, id) in RecordsOf(s, ids)
  {
    if ids[|ids| - 1] != id { RecordsContain(s, ids[..|ids| - 1], id); }
  }

  /** A reply lists `id` when the client reads it from one of the records. */
  ghost predicate Lists(reply: Reply, id: MsgId) {
    && reply.rcode == Success && reply.answer.Some?
    && exists record :: record in reply.answer.value && Reads(record, id)
  }

  predicate Reads(record: string, id: MsgId) {
    var m := Engine.ParsePollRecord(record);
    m.Some? && m.value.msgID == id
  }

  lemma OwnedHasRecord(cfg: Config, s: RelayState, e: Event, hash: Hash, reply: Reply, id: MsgId)
    requires e.Request? && e.qname == Some(PollName(hash, cfg.zone)) && Allowed(s, e) && IsReply(cfg, s, e, reply)
    requires id in s.store.owner && s.store.owner[id] == OwnerName(hash)
    ensures reply.rcode == Success && reply.answer.Some? && PollRecord(s.store, id) in reply.answer.value
  {
    PollNameIsPoll(hash, cfg.zone);
    var records := reply.answer.value;
    var ids: seq<MsgId> :|
      Distinct(ids) && Elems(ids) == OwnedBy(s.store.owner, OwnerName(hash)) && records == RecordsOf(s.store, ids);
    assert id in Elems(ids);
    RecordsContain(s.store, ids, id);
  }

  lemma OwnedIsListed(cfg: Config, s: RelayState, e: Event, hash: Hash, reply: Reply, id: MsgId)
    requires e.Request? && e.qname == Some(PollName(hash, cfg.zone)) && Allowed(s, e) && IsReply(cfg, s, e, reply)
    requires id in s.store.owner && s.store.owner[id] == OwnerName(hash)
    ensures Lists(reply, id)
  {
    OwnedHasRecord(cfg, s, e, hash, reply, id);
    Engine.PollRecordRoundTrip(s.store, id);
    assert Reads(PollRecord(s.store, id), id);
  }

  // ----- fetching -----

  /** The answers that fetchAndReassemble works with, query by query. */
  ghost function Answered(mode: Transport, zone: string, exchanges: uint16 -> (nat -> Option<Reply>)): uint16 -> Option<Chunk> {
    (i: uint16) => QueryOutcome(mode, zone, exchanges(i))
  }

  /** Whatever the state serves under `id` is the chunk of that index. */
  ghost predicate ServesOnly(s: StoreState, cs: seq<Chunk>, id: MsgId) {
    forall i: uint16 :: Lookup(s, id, i).Some? ==> i < |cs| && Lookup(s, id, i).value == cs[i]
  }

  /** All queries are answered by the relay in states of `states`, or fail. */
  ghost predicate AllFromRelay(cfg: Config, states: set<RelayState>, id: MsgId, exchanges: uint16 -> (nat -> Option<Reply>)) {
    forall i: uint16 :: FromRelay(cfg, states, id, i, exchanges(i))
  }

  lemma AnswersAreOurs(cfg: Config, states: set<RelayState>, mode: Transport, cs: seq<Chunk>, id: MsgId,
                       exchanges: uint16 -> (nat -> Option<Reply>))
    requires AllFromRelay(cfg, states, id, exchanges)
    requires forall s | s in states :: Good(s.store) && ServesOnly(s.store, cs, id)
    ensures AnswersFrom(Answered(mode, cfg.zone, exchanges), cs)
  {
    var answer := Answered(mode, cfg.zone, exchanges);
    forall i: uint16 | answer(i).Some? ensures i < |cs| && answer(i).value == cs[i] {
      QueryIsHonest(cfg, states, mode, id, i, exchanges(i));
      var s :| s in states && Lookup(s.store, id, i) == answer(i);
    }
  }

  /** States that occur in a run. */
  ghost predicate DuringRun(cfg: Config, s: RelayState, es: seq<Event>, states: set<RelayState>) {
    forall t | t in states :: exists k: nat :: k <= |es| && t == Before(cfg, s, es, k)
  }

  lemma LookupAfterPut(s: StoreState, c: Chunk, now: int, commits: bool, id: MsgId, i: uint16)
    ensures Lookup(PutChunk(s, c, now, commits), id, i)
         == if id == c.msgID && i == c.idx then Some(c) else Lookup(s, id, i)
  {
    LookupAfterStore(s, c, now, commits, id, i);
    assert PutChunk(s, c, now, commits).messages == StoreChunk(s, c, now, commits).messages;
  }

  lemma LookupAfterStore(s: StoreState, c: Chunk, now: int, commits: bool, id: MsgId, i: uint16)
    ensures Lookup(StoreChunk(s, c, now, commits), id, i)
         == if id == c.msgID && i == c.idx then Some(c) else Lookup(s, id, i)
  {}

  lemma PutServesOnly(s: StoreState, cs: seq<Chunk>, id: MsgId, c: Chunk, now: int, commits: bool)
    requires ServesOnly(s, cs, id) && (c.msgID == id ==> c.idx < |cs| && cs[c.idx] == c)
    ensures ServesOnly(PutChunk(s, c, now, commits), cs, id)
  {
    var t := PutChunk(s, c, now, commits);
    forall i: uint16 | Lookup(t, id, i).Some? ensures i < |cs| && Lookup(t, id, i).value == cs[i] {
      LookupAfterPut(s, c, now, commits, id, i);
    }
  }

  /** Whatever a step does, a relay that only takes chunks of `cs` under `id` only serves those. */
  lemma NextServesOnly(cfg: Config, s: RelayState, e: Event, cs: seq<Chunk>, id: MsgId, p: seq<byte>, hash: seq<byte>)
    requires Sent(cs, id, p, hash) && ServesOnly(s.store, cs, id)
    requires Under(Stored(cfg, s, e), id) ==> Stored(cfg, s, e).value in cs
    ensures ServesOnly(Next(cfg, s, e).store, cs, id)
  {
    var c := Stored(cfg, s, e);
    if c.Some? {
      if c.value.msgID == id {
        var k :| 0 <= k < |cs| && cs[k] == c.value;
        assert Piece(cs[k], id, k, |cs|, hash);
      }
      PutServesOnly(s.store, cs, id, c.value, e.now, e.commits);
    } else if e.Gc? {
      CollectServesOnly(s.store, cs, id, e.now, cfg.ttl);
    } else if e.Restart? {
      NothingServed(Next(cfg, s, e).store, cs, id);
    }
  }

  lemma CollectServesOnly(s: StoreState, cs: seq<Chunk>, id: MsgId, now: int, ttl: int)
    requires ServesOnly(s, cs, id)
    ensures ServesOnly(Collect(s, now, ttl), cs, id)
  {
    var t := Collect(s, now, ttl);
    forall i: uint16 | Lookup(t, id, i).Some? ensures i < |cs| && Lookup(t, id, i).value == cs[i] {
      assert Lookup(t, id, i) == Lookup(s, id, i);
    }
  }

  lemma NothingServed(s: StoreState, cs: seq<Chunk>, id: MsgId)
    requires s.messages == map[]
    ensures ServesOnly(s, cs, id)
  {}

  lemma {:induction false} BeforeServesOnly(cfg: Config, s: RelayState, es: seq<Event>, cs: seq<Chunk>, id: MsgId,
                                            p: seq<byte>, hash: seq<byte>, k: nat)
    requires OneMessage(cfg, s, es, cs, id, p, hash) && k <= |es|
    ensures Good(Before(cfg, s, es, k).store) && ServesOnly(Before(cfg, s, es, k).store, cs, id)
  {
    RunKeepsGood(cfg, s, es[..k]);
    if k == 0 {
      assert es[..0] == [];
    } else {
      BeforeServesOnly(cfg, s, es, cs, id, p, hash, k - 1);
      BeforeNext(cfg, s, es, k - 1);
      assert Log(cfg, s, es)[k - 1] == StoredAt(cfg, s, es, k - 1);
      NextServesOnly(cfg, Before(cfg, s, es, k - 1), es[k - 1], cs, id, p, hash);
    }
  }

  /** All chunks that the relay has or takes under `id` come from one message. Restarts, expiry and
      gc may come at any time. */
  ghost predicate OneMessage(cfg: Config, s: RelayState, es: seq<Event>, cs: seq<Chunk>, id: MsgId, p: seq<byte>, hash: seq<byte>) {
    Good(s.store) && Sent(cs, id, p, hash) && ServesOnly(s.store, cs, id) && OnlyOurs(Log(cfg, s, es), cs, id)
  }

  lemma SettingIsOneMessage(cfg: Config, s: RelayState, es: seq<Event>, cs: seq<Chunk>, id: MsgId, p: seq<byte>, hash: seq<byte>)
    requires Good(s.store) && Setting(cfg, s, es, cs, id, p, hash)
    ensures OneMessage(cfg, s, es, cs, id, p, hash)
  {}

  lemma RunServesOnly(cfg: Config, s: RelayState, es: seq<Event>, cs: seq<Chunk>, id: MsgId, p: seq<byte>, hash: seq<byte>,
                      states: set<RelayState>)
    requires OneMessage(cfg, s, es, cs, id, p, hash) && DuringRun(cfg, s, es, states)
    ensures forall t | t in states :: Good(t.store) && ServesOnly(t.store, cs, id)
  {
    forall t | t in states ensures Good(t.store) && ServesOnly(t.store, cs, id) {
      var k: nat :| k <= |es| && t == Before(cfg, s, es, k);
      BeforeServesOnly(cfg, s, es, cs, id, p, hash, k);
    }
  }

  /** No truncated or mixed message: against a relay whose chunks for `id` come from one message, a
      fetch returns the whole payload or an error. Its queries may be answered at any points of any
      run, also while chunks arrive, expire, are lost in a restart and arrive again. */
  lemma NoTruncatedMessage(cfg: Config, s: RelayState, es: seq<Event>, cs: seq<Chunk>, id: MsgId, p: seq<byte>, hash: seq<byte>,
                           states: set<RelayState>, mode: Transport, exchanges: uint16 -> (nat -> Option<Reply>))
    requires OneMessage(cfg, s, es, cs, id, p, hash) && DuringRun(cfg, s, es, states)
    requires AllFromRelay(cfg, states, id, exchanges)
    ensures FetchOutcome(Answered(mode, cfg.zone, exchanges)) in {Fetched(p), FetchError}
  {
    RunServesOnly(cfg, s, es, cs, id, p, hash, states);
    AnswersAreOurs(cfg, states, mode, cs, id, exchanges);
    FetchAllOrNothing(Answered(mode, cfg.zone, exchanges), cs, id, p, hash);
  }

  /** Whatever a relay has stored, in any states that a run can reach a fetch from it does not panic. */
  lemma NeverPanics(cfg: Config, states: set<RelayState>, mode: Transport, id: MsgId, exchanges: uint16 -> (nat -> Option<Reply>))
    requires (forall t | t in states :: Good(t.store)) && AllFromRelay(cfg, states, id, exchanges)
    ensures FetchOutcome(Answered(mode, cfg.zone, exchanges)) != Panics
  {
    AnswerHasTotal(cfg, states, mode, id, 0, exchanges(0));
    PositiveTotal(Answered(mode, cfg.zone, exchanges));
  }

  lemma AnswerHasTotal(cfg: Config, states: set<RelayState>, mode: Transport, id: MsgId, i: uint16, exchange: nat -> Option<Reply>)
    requires (forall t | t in states :: Good(t.store)) && FromRelay(cfg, states, id, i, exchange)
    ensures var c := QueryOutcome(mode, cfg.zone, exchange); c.Some? ==> c.value.total > 0
  {
    QueryIsHonest(cfg, states, mode, id, i, exchange);
    var c := QueryOutcome(mode, cfg.zone, exchange);
    if c.Some? {
      var t :| t in states && Lookup(t.store, id, i) == c;
      StoredHasTotal(t.store, id, i);
    }
  }

  lemma StoredHasTotal(s: StoreState, id: MsgId, i: uint16)
    requires Good(s) && Lookup(s, id, i).Some?
    ensures Lookup(s, id, i).value.total > 0
  {
    assert AllWellFormed(s);
  }

  lemma PositiveTotal(answer: uint16 -> Option<Chunk>)
    requires answer(0).Some? ==> answer(0).value.total > 0
    ensures FetchOutcome(answer) != Panics
  {}

  lemma RunNeverPanics(cfg: Config, s: RelayState, es: seq<Event>, states: set<RelayState>, mode: Transport, id: MsgId,
                       exchanges: uint16 -> (nat -> Option<Reply>))
    requires Good(s.store) && DuringRun(cfg, s, es, states) && AllFromRelay(cfg, states, id, exchanges)
    ensures FetchOutcome(Answered(mode, cfg.zone, exchanges)) != Panics
  {
    forall t | t in states ensures Good(t.store) {
      var k: nat :| k <= |es| && t == Before(cfg, s, es, k);
      RunKeepsGood(cfg, s, es[..k]);
    }
    NeverPanics(cfg, states, mode, id, exchanges);
  }

  /** Each query for an existing chunk gets at least one usable answer. */
  ghost predicate EveryQueryGetsThrough(mode: Transport, exchanges: uint16 -> (nat -> Option<Reply>), n: nat) {
    forall i: uint16 | i < n :: SomeUsable(mode, exchanges(i))
  }

  ghost predicate SomeUsable(mode: Transport, exchange: nat -> Option<Reply>) {
    exists k: nat :: k < Attempts(mode) && Usable(exchange(k))
  }

  lemma UsableParses(cfg: Config, states: set<RelayState>, id: MsgId, i: uint16, exchange: nat -> Option<Reply>, k: nat)
    requires (forall t | t in states :: Good(t.store)) && FromRelay(cfg, states, id, i, exchange) && Usable(exchange(k))
    ensures Parse(exchange(k).value, cfg.zone).Some?
  {
    var t :| t in states && QueryAnswered(cfg, t, id, i, exchange(k).value);
    QueryReadsBack(cfg, t, id, i, exchange(k).value);
  }

  lemma UsableDecides(cfg: Config, states: set<RelayState>, mode: Transport, id: MsgId, i: uint16,
                      exchange: nat -> Option<Reply>, k: nat)
    requires (forall t | t in states :: Good(t.store)) && FromRelay(cfg, states, id, i, exchange)
    requires k < Attempts(mode) && Usable(exchange(k))
    ensures QueryOutcome(mode, cfg.zone, exchange).Some?
  {
    var first := SomeFirstUsable(mode, exchange, k);
    UsableParses(cfg, states, id, i, exchange, first);
    OutcomeOfFirst(mode, cfg.zone, exchange, first, Parse(exchange(first).value, cfg.zone));
  }

  lemma {:induction false} SomeFirstUsable(mode: Transport, exchange: nat -> Option<Reply>, k: nat) returns (first: nat)
    requires k < Attempts(mode) && Usable(exchange(k))
    ensures FirstUsable(mode, exchange, first)
  {
    first := k;
    if j: nat :| j < k && Usable(exchange(j)) {
      first := SomeFirstUsable(mode, exchange, j);
    }
  }

  lemma QueryAnswers(cfg: Config, states: set<RelayState>, mode: Transport, id: MsgId, i: uint16, exchange: nat -> Option<Reply>)
    requires (forall t | t in states :: Good(t.store)) && FromRelay(cfg, states, id, i, exchange) && SomeUsable(mode, exchange)
    ensures QueryOutcome(mode, cfg.zone, exchange).Some?
  {
    var k: nat :| k < Attempts(mode) && Usable(exchange(k));
    UsableDecides(cfg, states, mode, id, i, exchange, k);
  }

  lemma AllAnswered(cfg: Config, states: set<RelayState>, n: nat, id: MsgId, mode: Transport,
                    exchanges: uint16 -> (nat -> Option<Reply>))
    requires (forall t | t in states :: Good(t.store)) && AllFromRelay(cfg, states, id, exchanges)
    requires EveryQueryGetsThrough(mode, exchanges, n)
    ensures AllSome(Answered(mode, cfg.zone, exchanges), n)
  {
    forall i: uint16 | i < n ensures QueryOutcome(mode, cfg.zone, exchanges(i)).Some? {
      QueryAnswers(cfg, states, mode, id, i, exchanges(i));
    }
  }

  /** A fetch whose queries all get through returns the payload. */
  lemma FetchDelivers(cfg: Config, states: set<RelayState>, cs: seq<Chunk>, id: MsgId, p: seq<byte>, hash: seq<byte>,
                      mode: Transport, exchanges: uint16 -> (nat -> Option<Reply>))
    requires Sent(cs, id, p, hash) && forall t | t in states :: Good(t.store) && ServesOnly(t.store, cs, id)
    requires AllFromRelay(cfg, states, id, exchanges) && EveryQueryGetsThrough(mode, exchanges, |cs|)
    ensures FetchOutcome(Answered(mode, cfg.zone, exchanges)) == Fetched(p)
  {
    AnswersAreOurs(cfg, states, mode, cs, id, exchanges);
    AllAnswered(cfg, states, |cs|, id, mode, exchanges);
    FetchAllOrNothing(Answered(mode, cfg.zone, exchanges), cs, id, p, hash);
  }

  /** A query for a stored chunk that the relay lets through gets a usable answer. */
  lemma QueryServed(cfg: Config, s: RelayState, id: MsgId, i: uint16, e: Event, reply: Reply)
    requires e.Request? && e.qname == Some(QueryName(id, i, cfg.zone)) && Allowed(s, e) && IsReply(cfg, s, e, reply)
    requires Lookup(s.store, id, i).Some?
    ensures Usable(Some(reply))
  {
    QueryNameIsFetch(id, i, cfg.zone);
  }

  /** A fetch whose queries are answered at any points of the run, each at least once in a usable
      way, returns exactly the payload. */
  lemma FetchReturnsPayload(cfg: Config, s: RelayState, es: seq<Event>, cs: seq<Chunk>, id: MsgId, p: seq<byte>, hash: seq<byte>,
                            states: set<RelayState>, mode: Transport, exchanges: uint16 -> (nat -> Option<Reply>))
    requires OneMessage(cfg, s, es, cs, id, p, hash) && DuringRun(cfg, s, es, states)
    requires AllFromRelay(cfg, states, id, exchanges) && EveryQueryGetsThrough(mode, exchanges, |cs|)
    ensures FetchOutcome(Answered(mode, cfg.zone, exchanges)) == Fetched(p)
  {
    RunServesOnly(cfg, s, es, cs, id, p, hash, states);
    FetchDelivers(cfg, states, cs, id, p, hash, mode, exchanges);
  }

  /** States that occur in a run once every chunk of the message has been stored. */
  ghost predicate AfterAllStored(cfg: Config, s: RelayState, es: seq<Event>, cs: seq<Chunk>, states: set<RelayState>) {
    forall t | t in states :: exists k: nat :: k <= |es| && AllStoredBy(cfg, s, es, cs, k) && t == Before(cfg, s, es, k)
  }

  ghost predicate AllStoredBy(cfg: Config, s: RelayState, es: seq<Event>, cs: seq<Chunk>, k: nat)
    requires k <= |es|
  {
    forall c <- cs :: Some(c) in Log(cfg, s, es)[..k]
  }

  /** The reply answers a query for chunk `i` that the rate limit lets through. */
  ghost predicate LetThrough(cfg: Config, states: set<RelayState>, id: MsgId, i: uint16, reply: Option<Reply>) {
    reply.Some? && exists t :: t in states && Served(cfg, t, id, i, reply.value)
  }

  ghost predicate Served(cfg: Config, t: RelayState, id: MsgId, i: uint16, reply: Reply) {
    exists e :: Passes(cfg, t, e, QueryName(id, i, cfg.zone)) && IsReply(cfg, t, e, reply)
  }

  predicate Passes(cfg: Config, t: RelayState, e: Event, name: string) {
    e.Request? && e.qname == Some(name) && Allowed(t, e)
  }

  ghost predicate EveryQueryLetThrough(cfg: Config, states: set<RelayState>, mode: Transport, id: MsgId,
                                       exchanges: uint16 -> (nat -> Option<Reply>), n: nat) {
    forall i: uint16 | i < n :: SomeLetThrough(cfg, states, mode, id, i, exchanges(i))
  }

  ghost predicate SomeLetThrough(cfg: Config, states: set<RelayState>, mode: Transport, id: MsgId, i: uint16,
                                 exchange: nat -> Option<Reply>) {
    exists k: nat :: k < Attempts(mode) && LetThrough(cfg, states, id, i, exchange(k))
  }

  ghost predicate HasAll(t: StoreState, cs: seq<Chunk>, id: MsgId) {
    forall i: uint16 | i < |cs| :: Lookup(t, id, i) == Some(cs[i])
  }

  /** Once all chunks are stored, the relay has the whole message and its owner. */
  lemma StoredServesAll(cfg: Config, s: RelayState, es: seq<Event>, cs: seq<Chunk>, id: MsgId, p: seq<byte>, hash: Hash, k: nat)
    requires Setting(cfg, s, es, cs, id, p, hash) && k <= |es| && AllStoredBy(cfg, s, es, cs, k)
    ensures var t := Before(cfg, s, es, k).store;
            HasAll(t, cs, id) && id in t.owner && t.owner[id] == OwnerName(hash)
  {
    HoldsWhatArrived(cfg, s, es, cs, id, p, hash, k);
    GotAll(Log(cfg, s, es), cs, k);
    HeldLookup(Before(cfg, s, es, k).store, cs, id, p, hash, Got(Log(cfg, s, es), cs, k));
  }

  lemma FirstStamp(cfg: Config, s: RelayState, es: seq<Event>, cs: seq<Chunk>, id: MsgId, p: seq<byte>, hash: Hash, k: nat)
    returns (j: nat)
    requires Setting(cfg, s, es, cs, id, p, hash) && k <= |es| && AllStoredBy(cfg, s, es, cs, k)
    ensures var t := Before(cfg, s, es, k).store;
            && j < k && FirstStore(Log(cfg, s, es), id, j)
            && id in t.messages && Meta(t.messages[id]) == StampAt(cfg, s, es, hash, j)
  {
    HoldsWhatArrived(cfg, s, es, cs, id, p, hash, k);
    GotAll(Log(cfg, s, es), cs, k);
    assert 0 in Got(Log(cfg, s, es), cs, k);
    j :| j < k && FirstStore(Log(cfg, s, es), id, j)
         && Meta(Before(cfg, s, es, k).store.messages[id]) == StampAt(cfg, s, es, hash, j);
  }

  lemma GotAll(log: seq<Option<Chunk>>, cs: seq<Chunk>, k: nat)
    requires k <= |log| && forall c <- cs :: Some(c) in log[..k]
    ensures forall i | 0 <= i < |cs| :: i in Got(log, cs, k)
  {
    assert forall i | 0 <= i < |cs| :: cs[i] in cs;
  }

  lemma StatesHaveAll(cfg: Config, s: RelayState, es: seq<Event>, cs: seq<Chunk>, id: MsgId, p: seq<byte>, hash: Hash,
                      states: set<RelayState>)
    requires Setting(cfg, s, es, cs, id, p, hash) && AfterAllStored(cfg, s, es, cs, states)
    ensures DuringRun(cfg, s, es, states) && forall t | t in states :: HasAll(t.store, cs, id)
  {
    forall t | t in states ensures HasAll(t.store, cs, id) && exists k: nat :: k <= |es| && t == Before(cfg, s, es, k) {
      var k: nat :| k <= |es| && AllStoredBy(cfg, s, es, cs, k) && t == Before(cfg, s, es, k);
      StoredServesAll(cfg, s, es, cs, id, p, hash, k);
    }
  }

  lemma ServedIsUsable(cfg: Config, t: RelayState, id: MsgId, i: uint16, reply: Reply)
    requires Lookup(t.store, id, i).Some? && Served(cfg, t, id, i, reply)
    ensures Usable(Some(reply))
  {
    var e :| Passes(cfg, t, e, QueryName(id, i, cfg.zone)) && IsReply(cfg, t, e, reply);
    QueryServed(cfg, t, id, i, e, reply);
  }

  lemma LetThroughIsUsable(cfg: Config, id: MsgId, states: set<RelayState>, i: uint16, reply: Option<Reply>)
    requires forall t | t in states :: Lookup(t.store, id, i).Some?
    requires LetThrough(cfg, states, id, i, reply)
    ensures Usable(reply)
  {
    var t :| t in states && Served(cfg, t, id, i, reply.value);
    ServedIsUsable(cfg, t, id, i, reply.value);
  }

  lemma SomeAttemptUsable(cfg: Config, id: MsgId, states: set<RelayState>, mode: Transport,
                          i: uint16, exchange: nat -> Option<Reply>)
    requires forall t | t in states :: Lookup(t.store, id, i).Some?
    requires SomeLetThrough(cfg, states, mode, id, i, exchange)
    ensures SomeUsable(mode, exchange)
  {
    var k: nat :| k < Attempts(mode) && LetThrough(cfg, states, id, i, exchange(k));
    LetThroughIsUsable(cfg, id, states, i, exchange(k));
  }

  /** End-to-end delivery. The chunks of a message of 1 to 65535 chunks reach a relay in any order,
      with repeats, among any other requests. From then on, until the message expires, a fetch of
      which every query is let through at least once returns exactly the payload, however the other
      attempts fare and whatever else the relay handles in between. */
  lemma EndToEnd(cfg: Config, s: RelayState, es: seq<Event>, cs: seq<Chunk>, id: MsgId, p: seq<byte>, hash: Hash,
                 states: set<RelayState>, mode: Transport, exchanges: uint16 -> (nat -> Option<Reply>))
    requires Good(s.store) && Setting(cfg, s, es, cs, id, p, hash) && AfterAllStored(cfg, s, es, cs, states)
    requires AllFromRelay(cfg, states, id, exchanges) && EveryQueryLetThrough(cfg, states, mode, id, exchanges, |cs|)
    ensures FetchOutcome(Answered(mode, cfg.zone, exchanges)) == Fetched(p)
  {
    StatesHaveAll(cfg, s, es, cs, id, p, hash, states);
    forall i: uint16 | i < |cs| ensures SomeUsable(mode, exchanges(i)) {
      assert forall t | t in states :: Lookup(t.store, id, i) == Some(cs[i]);
      SomeAttemptUsable(cfg, id, states, mode, i, exchanges(i));
    }
    FetchReturnsPayload(cfg, s, es, cs, id, p, hash, states, mode, exchanges);
  }

  /** And a poll of the recipient that is let through lists the message. */
  lemma PollLists(cfg: Config, s: RelayState, es: seq<Event>, cs: seq<Chunk>, id: MsgId, p: seq<byte>, hash: Hash,
                  k: nat, e: Event, reply: Reply)
    requires Setting(cfg, s, es, cs, id, p, hash) && k <= |es| && AllStoredBy(cfg, s, es, cs, k)
    requires var t := Before(cfg, s, es, k); Passes(cfg, t, e, PollName(hash, cfg.zone)) && IsReply(cfg, t, e, reply)
    ensures Lists(reply, id)
  {
    StoredServesAll(cfg, s, es, cs, id, p, hash, k);
    OwnedIsListed(cfg, Before(cfg, s, es, k), e, hash, reply, id);
  }

  /** What the poll reports about the message is what the relay stamped on it when it first stored
      one of its chunks: the time in milliseconds and the recipient's next sequence number. */
  lemma PollReportsFirstStore(cfg: Config, s: RelayState, es: seq<Event>, cs: seq<Chunk>, id: MsgId, p: seq<byte>, hash: Hash,
                              k: nat, e: Event, reply: Reply) returns (j: nat, record: string)
    requires Setting(cfg, s, es, cs, id, p, hash) && k <= |es| && AllStoredBy(cfg, s, es, cs, k)
    requires var t := Before(cfg, s, es, k); Passes(cfg, t, e, PollName(hash, cfg.zone)) && IsReply(cfg, t, e, reply)
    ensures j < k && FirstStore(Log(cfg, s, es), id, j) && reply.answer.Some? && record in reply.answer.value
    ensures Reads(record, id)
    ensures var stamp := StampAt(cfg, s, es, hash, j);
            0 < stamp.timestamp < 0x8000_0000_0000_0000 ==>
              Engine.ParsePollRecord(record) == Some(Engine.Polled(id, [], stamp.timestamp, stamp.sequence))
  {
    var t := Before(cfg, s, es, k);
    StoredServesAll(cfg, s, es, cs, id, p, hash, k);
    j := FirstStamp(cfg, s, es, cs, id, p, hash, k);
    record := PollRecord(t.store, id);
    OwnedHasRecord(cfg, t, e, hash, reply, id);
    Engine.PollRecordRoundTrip(t.store, id);
  }

  /** The same from the sender's side: ChunkMessage's output for any plaintext, chunk size and
      recipient that makes 1 to 65535 chunks satisfies the premises, and each chunk's question
      name is stored as that chunk by a relay that lets it through. */
  lemma SenderMeetsPremises(msgID: MsgId, p: seq<byte>, maxChunkSize: int, hash: Hash, zone: string)
    requires 1 <= Count(|p|, SizeOf(maxChunkSize)) <= 0xFFFF
    ensures var cs := ChunksOf(msgID, p, SizeOf(maxChunkSize), hash);
            && Sent(cs, msgID, p, hash)
            && forall c <- cs :: Classify(zone, Some(SendName(c, zone))) == Put(c)
  {
    var cs := ChunksOf(msgID, p, SizeOf(maxChunkSize), hash);
    SplitIsSent(msgID, p, SizeOf(maxChunkSize), hash);
    forall i | 0 <= i < |cs| ensures Classify(zone, Some(SendName(cs[i], zone))) == Put(cs[i]) {
      assert Piece(cs[i], msgID, i, |cs|, hash);
      SentNameIsStored(cs[i], zone);
    }
  }
}
