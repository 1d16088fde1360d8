/** The client's side of one exchange: SendChunk and QueryChunk of go/internal/dns/dns.go and
    fetchAndReassemble of go/internal/client/dns_engine.go. The network is a parameter that
    says what each attempt yields; None is a failed exchange. */
module DnsClient {
  import opened Bytes
  import opened Chunks
  import opened Labels
  import opened Reassembly
  import opened Relay
  import opened RelayInvariants
  import opened Store

  datatype Transport = Auto | Tcp | Udp

  // ----- sending -----

  function SendName(c: Chunk, zone: string): string { QuestionName(BodyLabels(c), zone) }

  predicate Accepted(reply: Option<Reply>) { reply.Some? && reply.value.rcode == Success }

  /** The k-th attempt is tcp, udp, tcp in automatic mode. A udp answer, even a refusal, is
      final; only a failed udp exchange is retried. */
  method SendChunk(mode: Transport, exchange: nat -> Option<Reply>) returns (ok: bool, attempts: nat)
    ensures 1 <= attempts <= if mode.Auto? then 3 else 1
    ensures ok == Accepted(exchange(attempts - 1))
    ensures forall k | 0 <= k < attempts - 1 :: !Accepted(exchange(k))
    ensures mode.Auto? && !ok ==> attempts == if exchange(1).None? then 3 else 2
    ensures ok <==> exchange(attempts - 1).Some? && exchange(attempts - 1).value.rcode == Success
  {
    var reply := exchange(0);
    if mode != Auto {
      return Accepted(reply), 1;
    }
    if Accepted(reply) {
      return true, 1;
    }
    reply := exchange(1);
    if Accepted(reply) {
      return true, 2;
    }
    if reply == None {
      reply := exchange(2);
      return Accepted(reply), 3;
    }
    return false, 2;
  }

  /** The store after a request for `c` arrived once for each element of `arrivals`. */
  function Deliver(s: StoreState, c: Chunk, arrivals: seq<(int, bool)>): StoreState {
    if arrivals == [] then s
    else PutChunk(Deliver(s, c, arrivals[..|arrivals| - 1]), c, arrivals[|arrivals| - 1].0, arrivals[|arrivals| - 1].1)
  }

  /** The chunk is held, and its recipient owns the message. */
  predicate Has(s: StoreState, c: Chunk) {
    Lookup(s, c.msgID, c.idx) == Some(c) && (|c.recipientHash| > 0 ==> c.msgID in s.owner)
  }

  lemma PutHas(s: StoreState, c: Chunk, now: int, commits: bool)
    ensures Has(PutChunk(s, c, now, commits), c)
  {}

  lemma PutAgain(s: StoreState, c: Chunk, now: int, commits: bool)
    requires Has(s, c)
    ensures PutChunk(s, c, now, commits) == s
  {
    var buf := s.messages[c.msgID];
    assert buf.chunks[c.idx := c] == buf.chunks;
    assert s.messages[c.msgID := buf] == s.messages;
  }

  lemma PutTwice(s: StoreState, c: Chunk, now: int, commits: bool, later: int, commits': bool)
    ensures PutChunk(PutChunk(s, c, now, commits), c, later, commits') == PutChunk(s, c, now, commits)
  {
    PutHas(s, c, now, commits);
    PutAgain(PutChunk(s, c, now, commits), c, later, commits');
  }

  /** However many of an attempt's retransmissions reach the relay, the first decides. */
  lemma {:induction false} RetriesActOnce(s: StoreState, c: Chunk, arrivals: seq<(int, bool)>)
    requires arrivals != []
    ensures Deliver(s, c, arrivals) == PutChunk(s, c, arrivals[0].0, arrivals[0].1)
  {
    var init, last := arrivals[..|arrivals| - 1], arrivals[|arrivals| - 1];
    if init != [] {
      RetriesActOnce(s, c, init);
      PutTwice(s, c, arrivals[0].0, arrivals[0].1, last.0, last.1);
    }
  }

  /** A relay that lets the request through reads the sender's chunk and stores it. */
  lemma SentNameIsStored(c: Chunk, zone: string)
    requires WellFormed(c)
    ensures Classify(zone, Some(SendName(c, zone))) == Put(c)
  {
    WireRoundTrip(c, zone);
  }

  // ----- querying -----

  function QueryName(id: MsgId, idx: uint16, zone: string): string {
    QuestionName(BodyLabels(NewChunk(id, idx, 0, [])), zone)
  }

  predicate Usable(reply: Option<Reply>) { Accepted(reply) && reply.value.answer.Some? }

  function Parse(reply: Reply, zone: string): Option<Chunk>
    requires reply.answer.Some?
  {
    DecodeChunk(reply.answer.value + [zone], zone)
  }

  function Attempts(mode: Transport): nat { if mode.Auto? then 3 else 1 }

  /** Attempt `k` is the first with a usable answer. */
  ghost predicate FirstUsable(mode: Transport, exchange: nat -> Option<Reply>, k: nat) {
    k < Attempts(mode) && Usable(exchange(k)) && forall j: nat | j < k :: !Usable(exchange(j))
  }

  /** The first usable answer decides, even if it does not decode. */
  ghost function QueryOutcome(mode: Transport, zone: string, exchange: nat -> Option<Reply>): Option<Chunk> {
    if exists k: nat :: FirstUsable(mode, exchange, k) then
      var k: nat :| FirstUsable(mode, exchange, k);
      Parse(exchange(k).value, zone)
    else None
  }

  /** The first usable answer is parsed; without one there is an error. */
  ghost predicate IsQueryResult(mode: Transport, zone: string, exchange: nat -> Option<Reply>, chunk: Option<Chunk>) {
    && (forall k: nat | FirstUsable(mode, exchange, k) :: chunk == Parse(exchange(k).value, zone))
    && ((forall k: nat | k < Attempts(mode) :: !Usable(exchange(k))) ==> chunk.None?)
  }

  lemma FirstIsUnique(mode: Transport, exchange: nat -> Option<Reply>, j: nat, k: nat)
    requires FirstUsable(mode, exchange, j) && FirstUsable(mode, exchange, k)
    ensures j == k
  {}

  lemma OutcomeOfFirst(mode: Transport, zone: string, exchange: nat -> Option<Reply>, k: nat, chunk: Option<Chunk>)
    requires FirstUsable(mode, exchange, k) && chunk == Parse(exchange(k).value, zone)
    ensures QueryOutcome(mode, zone, exchange) == chunk && IsQueryResult(mode, zone, exchange, chunk)
  {
    forall j: nat | FirstUsable(mode, exchange, j) ensures j == k { FirstIsUnique(mode, exchange, j, k); }
  }

  /** Which attempt can be the first usable one: only the first in a fixed mode, one of three in automatic
      mode. */
  lemma WhichAttempt(mode: Transport, exchange: nat -> Option<Reply>, k: nat)
    ensures FirstUsable(mode, exchange, k) <==>
              || (k == 0 && Usable(exchange(0)))
              || (k == 1 && mode == Auto && !Usable(exchange(0)) && Usable(exchange(1)))
              || (k == 2 && mode == Auto && !Usable(exchange(0)) && !Usable(exchange(1)) && Usable(exchange(2)))
  {}

  /** The exchanges of a query: tcp, then udp, then tcp again in automatic mode, until an answer is
      usable. */
  method Ask(mode: Transport, exchange: nat -> Option<Reply>) returns (reply: Option<Reply>, k: nat)
    ensures reply == exchange(k) && k < Attempts(mode)
    ensures if Usable(reply) then FirstUsable(mode, exchange, k)
            else forall j: nat | j < Attempts(mode) :: !Usable(exchange(j))
    ensures !Usable(reply) ==> k == if mode.Auto? then 2 else 0
  {
    reply, k := exchange(0), 0;
    if mode != Auto || Usable(reply) {
      return;
    }
    reply, k := exchange(1), 1;
    if Usable(reply) {
      return;
    }
    reply, k := exchange(2), 2;
  }

  method QueryChunk(mode: Transport, zone: string, exchange: nat -> Option<Reply>) returns (chunk: Option<Chunk>)
    ensures IsQueryResult(mode, zone, exchange, chunk) && chunk == QueryOutcome(mode, zone, exchange)
    ensures chunk.Some? ==> exists k: nat :: exchange(k).Some? && exchange(k).value.rcode == Success
  {
    var reply, k := Ask(mode, exchange);
    if !Usable(reply) {
      return None;
    }
    chunk := Parse(reply.value, zone);
    OutcomeOfFirst(mode, zone, exchange, k, chunk);
  }

  lemma QueryNameIsFetch(id: MsgId, idx: uint16, zone: string)
    ensures Classify(zone, Some(QueryName(id, idx, zone))) == Fetch(id, idx)
  {
    WireRoundTrip(NewChunk(id, idx, 0, []), zone);
  }

  /** What a relay answers to a query for (id, idx) in state `s`. */
  ghost predicate QueryAnswered(cfg: Config, s: RelayState, id: MsgId, idx: uint16, reply: Reply) {
    exists ip: string, now: int, commits: bool ::
      IsReply(cfg, s, Request(ip, now, Some(QueryName(id, idx, cfg.zone)), commits), reply)
  }

  /** A usable answer is the stored chunk, read back exactly. */
  lemma QueryReadsBack(cfg: Config, s: RelayState, id: MsgId, idx: uint16, reply: Reply)
    requires Good(s.store) && QueryAnswered(cfg, s, id, idx, reply) && Usable(Some(reply))
    ensures Lookup(s.store, id, idx).Some? && Parse(reply, cfg.zone) == Lookup(s.store, id, idx)
  {
    QueryNameIsFetch(id, idx, cfg.zone);
    var found := Lookup(s.store, id, idx);
    assert reply == FetchReply(found);
    LabelsRoundTrip(found.value, cfg.zone);
  }

  /** Every attempt either fails or is answered by the relay in one of the states of `states`. */
  ghost predicate FromRelay(cfg: Config, states: set<RelayState>, id: MsgId, idx: uint16, exchange: nat -> Option<Reply>) {
    forall k: nat :: exchange(k).Some? ==>
      exists s :: s in states && QueryAnswered(cfg, s, id, idx, exchange(k).value)
  }

  /** Whatever a query returns is stored in one of the states that answered it. */
  lemma QueryIsHonest(cfg: Config, states: set<RelayState>, mode: Transport, id: MsgId, idx: uint16,
                      exchange: nat -> Option<Reply>)
    requires FromRelay(cfg, states, id, idx, exchange) && forall s | s in states :: Good(s.store)
    ensures var c := QueryOutcome(mode, cfg.zone, exchange);
            c.None? || exists s :: s in states && Lookup(s.store, id, idx) == c
  {
    forall k: nat | Usable(exchange(k))
      ensures exists s :: s in states && Lookup(s.store, id, idx) == Parse(exchange(k).value, cfg.zone)
    {
      var s :| s in states && QueryAnswered(cfg, s, id, idx, exchange(k).value);
      QueryReadsBack(cfg, s, id, idx, exchange(k).value);
    }
  }

  // ----- fetching a whole message -----

  /** Panics is the out-of-range write to slot 0 when the first chunk claims a total of 0. */
  datatype FetchResult = Fetched(data: seq<byte>) | FetchError | Panics

  function Gathered(answer: uint16 -> Option<Chunk>, n: uint16): (cs: seq<Chunk>)
    requires forall i: uint16 | i < n :: answer(i).Some?
    ensures |cs| == n && forall i: uint16 | i < n :: cs[i] == answer(i).value
  {
    seq(n, i requires 0 <= i < n => answer(i).value)
  }

  ghost function FetchOutcome(answer: uint16 -> Option<Chunk>): FetchResult {
    if answer(0).None? then FetchError
    else if answer(0).value.total == 0 then Panics
    else if exists i: uint16 :: i < answer(0).value.total && answer(i).None? then FetchError
    else
      var r := Reassemble(Gathered(answer, answer(0).value.total));
      if r.Some? then Fetched(r.value) else FetchError
  }

  /** The relay answers the first query with a chunk that claims a total of 0. */
  predicate ClaimsNoChunks(answer: uint16 -> Option<Chunk>) {
    answer(0).Some? && answer(0).value.total == 0
  }

  lemma PanicsWhen(answer: uint16 -> Option<Chunk>)
    ensures FetchOutcome(answer) == Panics <==> ClaimsNoChunks(answer)
  {}

  method FetchAndReassemble(answer: uint16 -> Option<Chunk>) returns (r: FetchResult)
    ensures r == FetchOutcome(answer)
  {
    var first := answer(0);
    if first.None? {
      return FetchError;
    }
    var total := first.value.total;
    if total == 0 {
      return Panics;
    }
    var all := [first.value];
    for i := 1 to total
      invariant |all| == i && forall k: uint16 | k < i :: answer(k) == Some(all[k])
    {
      var chunk := answer(i);
      if chunk.None? {
        return FetchError;
      }
      all := all + [chunk.value];
    }
    assert all == Gathered(answer, total);
    var m := ReassembleMessage(all);
    match m
    case Message(data) => r := Fetched(data);
    case Failed(_) => r := FetchError;
  }

  /** A fetch succeeds exactly when the first answer claims some chunks, all those queries are answered,
      every chunk matches its checksum, and the indices are a permutation; the result is then the
      payloads in index order. */
  lemma FetchedExactly(answer: uint16 -> Option<Chunk>)
    ensures FetchOutcome(answer).Fetched? <==>
              && answer(0).Some? && answer(0).value.total > 0 && AllSome(answer, answer(0).value.total)
              && var cs := Gathered(answer, answer(0).value.total); Covers(cs) && forall c <- cs :: Intact(c)
    ensures FetchOutcome(answer).Fetched? ==>
              var cs := Gathered(answer, answer(0).value.total); Covers(cs) && FetchOutcome(answer).data == Joined(cs, |cs|)
  {
    if answer(0).Some? && answer(0).value.total > 0 && AllSome(answer, answer(0).value.total) {
      assert Gathered(answer, answer(0).value.total)[0] == answer(0).value;
    }
  }

  /** Answers that only ever come from one sent message. */
  ghost predicate AnswersFrom(answer: uint16 -> Option<Chunk>, cs: seq<Chunk>) {
    forall i: uint16 :: answer(i).Some? ==> i < |cs| && answer(i).value == cs[i]
  }

  ghost predicate AllSome(answer: uint16 -> Option<Chunk>, n: nat) { forall i: uint16 | i < n :: answer(i).Some? }

  /** No truncated or mixed message: a fetch is all or nothing, and never panics. */
  lemma FetchAllOrNothing(answer: uint16 -> Option<Chunk>, cs: seq<Chunk>, id: MsgId, p: seq<byte>, hash: seq<byte>)
    requires Sent(cs, id, p, hash) && AnswersFrom(answer, cs)
    ensures FetchOutcome(answer) ==
            if AllSome(answer, |cs|) then Fetched(p) else FetchError
  {
    assert Piece(cs[0], id, 0, |cs|, hash);
    var n: uint16 := |cs|;
    if AllSome(answer, |cs|) {
      assert Gathered(answer, n) == cs;
      SentReassembles(cs, id, p, hash, cs);
    } else {
      var i: uint16 :| i < |cs| && answer(i).None?;
      assert i < n && answer(i).None?;
    }
  }
}
