/** A client that polls any number of relays, joined to the runs of those relays: what
    PollMessages hands over when its responses and fetches come from relays. */
module Receiving {
  import opened Bytes
  import opened Chunks
  import opened Counting
  import opened Delivery
  import opened DnsClient
  import opened Engine
  import opened MessageRuns
  import opened RelayInvariants
  import opened RelayRuns
  import opened Store
  import Labels
  import Relay

  /** One relay: its run, and the states of it in which the client's requests reach it. */
  datatype Source = Source(cfg: Relay.Config, s: Relay.RelayState, es: seq<Relay.Event>, states: set<Relay.RelayState>)

  /** What the exchanges of one poll with one relay yield. */
  datatype Wire = Wire(poll: nat -> Option<Relay.Reply>, queries: MsgId -> (uint16 -> (nat -> Option<Relay.Reply>)))

  ghost predicate PollReply(cfg: Relay.Config, t: Relay.RelayState, hash: Hash, reply: Relay.Reply) {
    exists e: Relay.Event :: e.Request? && e.qname == Some(PollName(hash, cfg.zone)) && Relay.IsReply(cfg, t, e, reply)
  }

  /** Every attempt either fails or is answered by the relay in one of its states. */
  ghost predicate PollFromRelay(src: Source, hash: Hash, poll: nat -> Option<Relay.Reply>) {
    forall k: nat :: poll(k).Some? ==> exists t :: t in src.states && PollReply(src.cfg, t, hash, poll(k).value)
  }

  ghost predicate Honest(src: Source, wire: Wire, hash: Hash) {
    && Good(src.s.store) && DuringRun(src.cfg, src.s, src.es, src.states)
    && PollFromRelay(src, hash, wire.poll)
    && forall id :: AllFromRelay(src.cfg, src.states, id, wire.queries(id))
  }

  /** One poll of a client: its relays, what it exchanges with them, and what it makes of that. */
  datatype Visit = Visit(sources: seq<Source>, wires: seq<Wire>, responses: seq<Option<seq<Polled>>>, fetch: Fetch)

  ghost predicate IsVisit(v: Visit, mode: Transport, hash: Hash) {
    && |v.sources| == |v.wires| == |v.responses|
    && (forall r | 0 <= r < |v.sources| ::
          Honest(v.sources[r], v.wires[r], hash) && IsPollResult(mode, v.wires[r].poll, v.responses[r]))
    && (forall r: nat, id :: v.fetch(r, id) == FetchFrom(v, mode, r, id))
  }

  ghost function FetchFrom(v: Visit, mode: Transport, r: nat, id: MsgId): FetchResult {
    if r < |v.sources| && r < |v.wires| then
      FetchOutcome(Answered(mode, v.sources[r].cfg.zone, v.wires[r].queries(id)))
    else FetchError
  }

  /** Relays, whatever they have stored and however their runs go, never make a poll panic. */
  lemma VisitNeverPanics(v: Visit, mode: Transport, hash: Hash, r: nat, id: MsgId)
    requires IsVisit(v, mode, hash)
    ensures v.fetch(r, id) != Panics
  {
    assert v.fetch(r, id) == FetchFrom(v, mode, r, id);
    if r < |v.sources| {
      var src := v.sources[r];
      assert Honest(src, v.wires[r], hash);
      RunNeverPanics(src.cfg, src.s, src.es, src.states, mode, id, v.wires[r].queries(id));
    }
  }

  ghost predicate PollOf(poll: Poll, v: Visit) { poll.responses == v.responses && poll.fetch == v.fetch }

  lemma VisitNeverFatal(poll: Poll, v: Visit, mode: Transport, hash: Hash)
    requires IsVisit(v, mode, hash) && PollOf(poll, v)
    ensures NeverFatal(poll)
  {
    forall r: nat, id ensures poll.fetch(r, id) != Panics {
      VisitNeverPanics(v, mode, hash, r, id);
    }
  }

  ghost predicate AllVisits(polls: seq<Poll>, visits: seq<Visit>, mode: Transport, hash: Hash) {
    |polls| == |visits| && forall j | 0 <= j < |polls| :: IsVisit(visits[j], mode, hash) && PollOf(polls[j], visits[j])
  }

  lemma VisitsNeverFatal(polls: seq<Poll>, visits: seq<Visit>, mode: Transport, hash: Hash)
    requires AllVisits(polls, visits, mode, hash)
    ensures forall p <- polls :: NeverFatal(p)
  {
    forall j | 0 <= j < |polls| ensures NeverFatal(polls[j]) {
      assert IsVisit(visits[j], mode, hash) && PollOf(polls[j], visits[j]);
      VisitNeverFatal(polls[j], visits[j], mode, hash);
    }
  }

  /** So a client of such relays lives through any sequence of polls, and each poll hands over exactly
      what is listed, served and new. */
  lemma RelaysAreSafe(polls: seq<Poll>, results: seq<Progress>, visits: seq<Visit>, mode: Transport, hash: Hash, k: nat, id: MsgId)
    requires AllVisits(polls, visits, mode, hash) && History(polls, results) && k < |polls|
    ensures Alive(results, |results|)
    ensures id in Ids(Handed(results, k)) <==>
            && (exists r: nat :: ListedBy(polls[k].responses, r, id))
            && (exists r: nat :: r < |polls[k].responses| && polls[k].fetch(r, id).Fetched?)
            && id !in HandedBefore(results, k)
  {
    VisitsNeverFatal(polls, visits, mode, hash);
    StaysAlive(polls, results);
    PollIsComplete(polls, results, k, id);
  }

  // ----- a reply that makes a poll panic -----

  /** The labels of a query, sent back as its answer. */
  function EchoReply(id: MsgId, i: uint16): Relay.Reply {
    Relay.Reply(Relay.Success, Some(Labels.BodyLabels(NewChunk(id, i, 0, []))))
  }

  /** A server that sends every query's own labels back. */
  function Echo(id: MsgId): uint16 -> (nat -> Option<Relay.Reply>) {
    (i: uint16) => (k: nat) => Some(EchoReply(id, i))
  }

  lemma EchoParses(id: MsgId, i: uint16, zone: string)
    ensures Parse(EchoReply(id, i), zone) == Some(NewChunk(id, i, 0, []))
  {
    Labels.LabelsRoundTrip(NewChunk(id, i, 0, []), zone);
  }

  lemma SteadyOutcome(mode: Transport, zone: string, exchange: nat -> Option<Relay.Reply>, reply: Relay.Reply, c: Option<Chunk>)
    requires Usable(Some(reply)) && Parse(reply, zone) == c && forall k: nat :: exchange(k) == Some(reply)
    ensures QueryOutcome(mode, zone, exchange) == c
  {
    assert FirstUsable(mode, exchange, 0);
    OutcomeOfFirst(mode, zone, exchange, 0, c);
  }

  /** A fetch from such a server panics. */
  lemma EchoPanics(id: MsgId, mode: Transport, zone: string)
    ensures FetchOutcome(Answered(mode, zone, Echo(id))) == Panics
  {
    EchoParses(id, 0, zone);
    SteadyOutcome(mode, zone, Echo(id)(0), EchoReply(id, 0), Some(NewChunk(id, 0, 0, [])));
    PanicsWhen(Answered(mode, zone, Echo(id)));
  }

  /** A poll of two servers: the first echoes queries, the second answers them as `served` says. One of
      them lists the message `m`. */
  ghost function EchoPoll(m: Polled, mode: Transport, zone: string,
                          served: MsgId -> (uint16 -> (nat -> Option<Relay.Reply>))): Poll {
    Poll([None, Some([m])],
         (r: nat, id: MsgId) => FetchOutcome(Answered(mode, zone, if r == 0 then Echo(id) else served(id))))
  }

  /** Such a poll panics and hands over nothing, whatever the second server lists and serves. */
  lemma PanicLosesMessage(m: Polled, mode: Transport, zone: string, served: MsgId -> (uint16 -> (nat -> Option<Relay.Reply>)))
    ensures var poll := EchoPoll(m, mode, zone, served);
            && ListedBy(poll.responses, 1, m.msgID)
            && poll.fetch(1, m.msgID) == FetchOutcome(Answered(mode, zone, served(m.msgID)))
            && PollResult({}, poll) == Progress([], true)
  {
    var poll := EchoPoll(m, mode, zone, served);
    assert Ids([m]) == {m.msgID} by { Snoc([], m); assert [] + [m] == [m]; }
    assert ListedBy(poll.responses, 1, m.msgID);
    forall id ensures poll.fetch(0, id) == Panics { EchoPanics(id, mode, zone); }
    FirstPanics(m, poll);
  }

  lemma FirstPanics(m: Polled, poll: Poll)
    requires ListedBy(poll.responses, 1, m.msgID) && forall id :: poll.fetch(0, id) == Panics
    ensures PollResult({}, poll) == Progress([], true)
  {
    var ms, n := FirstOnly(Listed(poll.responses)), |poll.responses|;
    forall id ensures FirstFetch(poll.fetch, n, id) == Panics { assert FirstAnswer(poll.fetch, n, id, 0); }
    PollIsUnion(poll.responses, m.msgID);
    assert Fatal({}, ms, n, poll.fetch, m.msgID);
    PanicsExactly({}, ms, n, poll.fetch);
    forall id ensures id !in Ids(PollResult({}, poll).messages) { DeliveredOnce({}, ms, n, poll.fetch, id); }
    NoIds(PollResult({}, poll).messages);
  }

  lemma NoIds(ms: seq<Polled>)
    requires forall id :: id !in Ids(ms)
    ensures ms == []
  {
    if ms != [] { assert ms[|ms| - 1].msgID in Ids(ms); }
  }

  // ----- what a relay's list says -----

  lemma {:induction false} RecordIsOwned(s: StoreState, ids: seq<MsgId>, record: string) returns (id: MsgId)
    requires record in Relay.RecordsOf(s, ids)
    ensures id in ids && record == Relay.PollRecord(s, id)
  {
    var init, last := ids[..|ids| - 1], ids[|ids| - 1];
    if record == Relay.PollRecord(s, last) {
      id := last;
    } else {
      id := RecordIsOwned(s, init, record);
    }
  }

  /** An accepted poll reply holds one record for each ID the recipient owns, and nothing else. */
  lemma ReplyRecords(cfg: Relay.Config, t: Relay.RelayState, hash: Hash, reply: Relay.Reply, record: string) returns (id: MsgId)
    requires PollReply(cfg, t, hash, reply) && Accepted(Some(reply)) && record in Records(reply)
    ensures id in t.store.owner && record == Relay.PollRecord(t.store, id)
  {
    var e: Relay.Event :| e.Request? && e.qname == Some(PollName(hash, cfg.zone)) && Relay.IsReply(cfg, t, e, reply);
    PollNameIsPoll(hash, cfg.zone);
    var peer := Relay.OwnerName(hash);
    assert Relay.IsPollAnswer(t.store, peer, reply.answer.value);
    var ids: seq<MsgId> :|
      Distinct(ids) && Elems(ids) == OwnedBy(t.store.owner, peer) && reply.answer.value == Relay.RecordsOf(t.store, ids);
    id := RecordIsOwned(t.store, ids, record);
    assert id in Elems(ids);
  }

  /** The message's metadata in a relay's store. */
  ghost predicate StampedIn(t: StoreState, m: Polled) {
    m.msgID in t.messages && m.timestamp == t.messages[m.msgID].timestamp && m.sequence == t.messages[m.msgID].sequence
  }

  ghost predicate ClockSet(src: Source, id: MsgId) {
    forall t | t in src.states && id in t.store.messages :: 0 < t.store.messages[id].timestamp < 0x8000_0000_0000_0000
  }

  lemma RecordIsStamped(t: StoreState, id: MsgId, m: Polled)
    requires Good(t) && id in t.owner && ParsePollRecord(Relay.PollRecord(t, id)) == Some(m)
    ensures m.msgID == id && id in t.messages
    ensures 0 < t.messages[id].timestamp < 0x8000_0000_0000_0000 ==> StampedIn(t, m)
  {
    PollRecordRoundTrip(t, id);
  }

  lemma GoodStates(src: Source)
    requires Good(src.s.store) && DuringRun(src.cfg, src.s, src.es, src.states)
    ensures forall t | t in src.states :: Good(t.store)
  {
    forall t | t in src.states ensures Good(t.store) {
      var k: nat :| k <= |src.es| && t == Before(src.cfg, src.s, src.es, k);
      RunKeepsGood(src.cfg, src.s, src.es[..k]);
    }
  }

  lemma FirstAcceptedExists(mode: Transport, exchange: nat -> Option<Relay.Reply>, k: nat) returns (first: nat)
    requires k < Attempts(mode) && Accepted(exchange(k))
    ensures FirstAccepted(mode, exchange, first)
  {
    first := k;
    if j: nat :| j < k && Accepted(exchange(j)) {
      first := FirstAcceptedExists(mode, exchange, j);
    }
  }

  /** A response is the list of some state of the relay. */
  lemma ResponseFrom(src: Source, wire: Wire, mode: Transport, hash: Hash, response: Option<seq<Polled>>)
    returns (t: Relay.RelayState, reply: Relay.Reply)
    requires Honest(src, wire, hash) && IsPollResult(mode, wire.poll, response) && response.Some?
    ensures t in src.states && PollReply(src.cfg, t, hash, reply) && Accepted(Some(reply))
    ensures response.value == ParseResponse(Records(reply))
  {
    var k: nat :| k < Attempts(mode) && Accepted(wire.poll(k));
    var first := FirstAcceptedExists(mode, wire.poll, k);
    reply := wire.poll(first).value;
    t :| t in src.states && PollReply(src.cfg, t, hash, reply);
  }

  /** Every entry of a response bears the stamp that the relay's store has for it. */
  lemma EntryIsStamped(src: Source, wire: Wire, mode: Transport, hash: Hash, response: Option<seq<Polled>>, m: Polled)
    returns (t: Relay.RelayState)
    requires Honest(src, wire, hash) && IsPollResult(mode, wire.poll, response) && response.Some? && m in response.value
    requires ClockSet(src, m.msgID)
    ensures t in src.states && StampedIn(t.store, m)
  {
    var reply;
    t, reply := ResponseFrom(src, wire, mode, hash, response);
    ParsedFrom(Records(reply), m);
    var record :| record in Records(reply) && ParsePollRecord(record) == Some(m);
    var id := ReplyRecords(src.cfg, t, hash, reply, record);
    GoodStates(src);
    RecordIsStamped(t.store, id, m);
  }

  // ----- end to end -----

  /** Relay `r` has taken all chunks of the message and lets the poll and every query through at least
      once. */
  ghost predicate Reached(v: Visit, mode: Transport, cs: seq<Chunk>, id: MsgId, p: seq<byte>, hash: Hash, r: nat)
    requires r < |v.sources| && r < |v.wires|
  {
    var src, wire := v.sources[r], v.wires[r];
    && Setting(src.cfg, src.s, src.es, cs, id, p, hash) && AfterAllStored(src.cfg, src.s, src.es, cs, src.states)
    && PollLetThrough(src, mode, hash, wire.poll)
    && EveryQueryLetThrough(src.cfg, src.states, mode, id, wire.queries(id), |cs|)
  }

  ghost predicate PollLetThrough(src: Source, mode: Transport, hash: Hash, poll: nat -> Option<Relay.Reply>) {
    exists k: nat :: k < Attempts(mode) && poll(k).Some? && PollServed(src, hash, poll(k).value)
  }

  ghost predicate PollServed(src: Source, hash: Hash, reply: Relay.Reply) {
    exists t, e :: t in src.states && Passes(src.cfg, t, e, PollName(hash, src.cfg.zone)) && Relay.IsReply(src.cfg, t, e, reply)
  }

  lemma ServedIsAccepted(src: Source, hash: Hash, reply: Relay.Reply)
    requires PollServed(src, hash, reply)
    ensures Accepted(Some(reply))
  {
    PollNameIsPoll(hash, src.cfg.zone);
  }

  lemma OwnedInReply(cfg: Relay.Config, t: Relay.RelayState, hash: Hash, reply: Relay.Reply, id: MsgId)
    requires PollReply(cfg, t, hash, reply) && Accepted(Some(reply))
    requires id in t.store.owner && t.store.owner[id] == Relay.OwnerName(hash)
    ensures id in Ids(ParseResponse(Records(reply)))
  {
    var e: Relay.Event :| e.Request? && e.qname == Some(PollName(hash, cfg.zone)) && Relay.IsReply(cfg, t, e, reply);
    OwnedHasRecord(cfg, t, e, hash, reply, id);
    PollRecordRoundTrip(t.store, id);
    var m := ParsePollRecord(Relay.PollRecord(t.store, id)).value;
    ParsedFrom(Records(reply), m);
    IdsAre(ParseResponse(Records(reply)), id);
  }

  lemma OwnerAt(src: Source, cs: seq<Chunk>, id: MsgId, p: seq<byte>, hash: Hash, t: Relay.RelayState)
    requires Setting(src.cfg, src.s, src.es, cs, id, p, hash) && AfterAllStored(src.cfg, src.s, src.es, cs, src.states)
    requires t in src.states
    ensures id in t.store.owner && t.store.owner[id] == Relay.OwnerName(hash)
  {
    var k: nat :|
      k <= |src.es| && AllStoredBy(src.cfg, src.s, src.es, cs, k) && t == Before(src.cfg, src.s, src.es, k);
    StoredServesAll(src.cfg, src.s, src.es, cs, id, p, hash, k);
  }

  lemma ReachedLists(v: Visit, mode: Transport, cs: seq<Chunk>, id: MsgId, p: seq<byte>, hash: Hash, r: nat)
    requires IsVisit(v, mode, hash) && r < |v.sources| && Reached(v, mode, cs, id, p, hash, r)
    ensures ListedBy(v.responses, r, id)
  {
    var src, wire := v.sources[r], v.wires[r];
    assert Honest(src, wire, hash) && IsPollResult(mode, wire.poll, v.responses[r]);
    var k: nat :| k < Attempts(mode) && wire.poll(k).Some? && PollServed(src, hash, wire.poll(k).value);
    ServedIsAccepted(src, hash, wire.poll(k).value);
    var t, reply := ResponseFrom(src, wire, mode, hash, v.responses[r]);
    OwnerAt(src, cs, id, p, hash, t);
    OwnedInReply(src.cfg, t, hash, reply, id);
  }

  lemma ReachedServes(v: Visit, mode: Transport, cs: seq<Chunk>, id: MsgId, p: seq<byte>, hash: Hash, r: nat)
    requires IsVisit(v, mode, hash) && r < |v.sources| && Reached(v, mode, cs, id, p, hash, r)
    ensures v.fetch(r, id) == Fetched(p)
  {
    var src, wire := v.sources[r], v.wires[r];
    assert Honest(src, wire, hash) && v.fetch(r, id) == FetchFrom(v, mode, r, id);
    EndToEnd(src.cfg, src.s, src.es, cs, id, p, hash, src.states, mode, wire.queries(id));
  }

  /** No relay mixes another message in under this ID. */
  ghost predicate Unmixed(v: Visit, cs: seq<Chunk>, id: MsgId, p: seq<byte>, hash: Hash) {
    forall r | 0 <= r < |v.sources| :: var src := v.sources[r]; OneMessage(src.cfg, src.s, src.es, cs, id, p, hash)
  }

  lemma UnmixedServes(v: Visit, mode: Transport, cs: seq<Chunk>, id: MsgId, p: seq<byte>, hash: Hash, r: nat)
    requires IsVisit(v, mode, hash) && Unmixed(v, cs, id, p, hash)
    ensures v.fetch(r, id) in {Fetched(p), FetchError}
  {
    assert v.fetch(r, id) == FetchFrom(v, mode, r, id);
    if r < |v.sources| {
      var src := v.sources[r];
      assert Honest(src, v.wires[r], hash) && OneMessage(src.cfg, src.s, src.es, cs, id, p, hash);
      NoTruncatedMessage(src.cfg, src.s, src.es, cs, id, p, hash, src.states, mode, v.wires[r].queries(id));
    }
  }

  /** What the poll makes of its responses and fetches, given what the client has fetched before. */
  function Outcome(v: Visit, fetched: set<MsgId>): Progress {
    Delivered(fetched, FirstOnly(Listed(v.responses)), |v.responses|, v.fetch)
  }

  lemma VisitCompletes(v: Visit, mode: Transport, hash: Hash, fetched: set<MsgId>)
    requires IsVisit(v, mode, hash)
    ensures !Outcome(v, fetched).panicked
  {
    forall r: nat, id ensures v.fetch(r, id) != Panics {
      VisitNeverPanics(v, mode, hash, r, id);
    }
    NoFatalFetch(fetched, FirstOnly(Listed(v.responses)), |v.responses|, v.fetch);
  }

  /** The stamp that some relay has on the message. */
  ghost predicate Stamped(v: Visit, m: Polled) {
    exists r: nat, t :: r < |v.sources| && t in v.sources[r].states && StampedIn(t.store, m)
  }

  ghost predicate ClocksSet(v: Visit, id: MsgId) { forall r | 0 <= r < |v.sources| :: ClockSet(v.sources[r], id) }

  lemma HandedIsOurs(v: Visit, mode: Transport, cs: seq<Chunk>, id: MsgId, p: seq<byte>, hash: Hash,
                     fetched: set<MsgId>, m: Polled)
    requires IsVisit(v, mode, hash) && Unmixed(v, cs, id, p, hash) && ClocksSet(v, id)
    requires m in Outcome(v, fetched).messages && m.msgID == id
    ensures m.data == p && Stamped(v, m)
  {
    DeliveredContents(fetched, FirstOnly(Listed(v.responses)), |v.responses|, v.fetch, m);
    var server := FirstAnswerExists(v.fetch, |v.responses|, id);
    UnmixedServes(v, mode, cs, id, p, hash, server);
    var record :| record in FirstOnly(Listed(v.responses)) && m == record.(data := m.data);
    var r := EntryFrom(v.responses, record);
    assert Honest(v.sources[r], v.wires[r], hash) && IsPollResult(mode, v.wires[r].poll, v.responses[r]);
    assert ClockSet(v.sources[r], id);
    var t := EntryIsStamped(v.sources[r], v.wires[r], mode, hash, v.responses[r], record);
    assert StampedIn(t.store, m);
  }

  /** From the relays' stores to the client's hands. If one of any number of relays has taken all chunks
      of a message and lets the client's poll and queries through, the poll hands over exactly one
      message under its ID: the payload, with a time and sequence number that a relay stamped on it.
      The other relays may fail, hold part of the message, or lose it at any time. */
  lemma MessageReceived(v: Visit, mode: Transport, cs: seq<Chunk>, id: MsgId, p: seq<byte>, hash: Hash,
                        fetched: set<MsgId>, r: nat) returns (m: Polled)
    requires IsVisit(v, mode, hash) && Unmixed(v, cs, id, p, hash) && ClocksSet(v, id) && id !in fetched
    requires r < |v.sources| && Reached(v, mode, cs, id, p, hash, r)
    ensures !Outcome(v, fetched).panicked && Once(Outcome(v, fetched).messages)
    ensures m in Outcome(v, fetched).messages && m.msgID == id && m.data == p && Stamped(v, m)
  {
    VisitCompletes(v, mode, hash, fetched);
    ReachedLists(v, mode, cs, id, p, hash, r);
    ReachedServes(v, mode, cs, id, p, hash, r);
    OnePollIsComplete(fetched, v.responses, v.fetch, id);
    DeliveredExactly(fetched, FirstOnly(Listed(v.responses)), |v.responses|, v.fetch, id);
    IdsAre(Outcome(v, fetched).messages, id);
    m :| m in Outcome(v, fetched).messages && m.msgID == id;
    HandedIsOurs(v, mode, cs, id, p, hash, fetched, m);
  }

  /** The message bears the stamp of the first step of the relay's run that stored a chunk of it. */
  ghost predicate FirstStamped(src: Source, hash: Hash, m: Polled) {
    exists j: nat :: j < |src.es| && FirstStore(Log(src.cfg, src.s, src.es), m.msgID, j) && BearsStamp(src, hash, m, j)
  }

  ghost predicate BearsStamp(src: Source, hash: Hash, m: Polled, j: nat)
    requires j < |src.es|
  {
    var stamp := StampAt(src.cfg, src.s, src.es, hash, j);
    m.timestamp == stamp.timestamp && m.sequence == stamp.sequence
  }

  lemma StampOfState(src: Source, cs: seq<Chunk>, p: seq<byte>, hash: Hash, t: Relay.RelayState, m: Polled)
    requires Setting(src.cfg, src.s, src.es, cs, m.msgID, p, hash) && AfterAllStored(src.cfg, src.s, src.es, cs, src.states)
    requires t in src.states && StampedIn(t.store, m)
    ensures FirstStamped(src, hash, m)
  {
    var k: nat :|
      k <= |src.es| && AllStoredBy(src.cfg, src.s, src.es, cs, k) && t == Before(src.cfg, src.s, src.es, k);
    var j := FirstStamp(src.cfg, src.s, src.es, cs, m.msgID, p, hash, k);
    assert BearsStamp(src, hash, m, j);
  }

  lemma StampOfOne(v: Visit, src: Source, cs: seq<Chunk>, p: seq<byte>, hash: Hash, m: Polled)
    requires v.sources == [src] && Stamped(v, m)
    requires Setting(src.cfg, src.s, src.es, cs, m.msgID, p, hash) && AfterAllStored(src.cfg, src.s, src.es, cs, src.states)
    ensures FirstStamped(src, hash, m)
  {
    var r: nat, t :| r < |v.sources| && t in v.sources[r].states && StampedIn(t.store, m);
    StampOfState(src, cs, p, hash, t, m);
  }

  lemma OneIsUnmixed(v: Visit, src: Source, cs: seq<Chunk>, id: MsgId, p: seq<byte>, hash: Hash)
    requires v.sources == [src] && Good(src.s.store) && Setting(src.cfg, src.s, src.es, cs, id, p, hash)
    ensures Unmixed(v, cs, id, p, hash)
  {
    SettingIsOneMessage(src.cfg, src.s, src.es, cs, id, p, hash);
  }

  /** With a single relay, the time and the number are those of the first store of the message. */
  lemma ReceivedFromOne(v: Visit, src: Source, mode: Transport, cs: seq<Chunk>, id: MsgId, p: seq<byte>, hash: Hash,
                        fetched: set<MsgId>) returns (m: Polled)
    requires IsVisit(v, mode, hash) && v.sources == [src] && Reached(v, mode, cs, id, p, hash, 0)
    requires ClocksSet(v, id) && id !in fetched
    ensures !Outcome(v, fetched).panicked && Once(Outcome(v, fetched).messages)
    ensures m in Outcome(v, fetched).messages && m.msgID == id && m.data == p && FirstStamped(src, hash, m)
  {
    assert Honest(v.sources[0], v.wires[0], hash);
    OneIsUnmixed(v, src, cs, id, p, hash);
    m := MessageReceived(v, mode, cs, id, p, hash, fetched, 0);
    StampOfOne(v, src, cs, p, hash, m);
  }
}
