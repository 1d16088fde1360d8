/** Delivery does happen: for every message whose names are legal there is a relay run and a poll
    that meet the premises of the delivery theorems. */
module Scenario {
  import opened Bytes
  import opened Chunks
  import opened Counting
  import opened Delivery
  import opened DnsClient
  import opened Engine
  import opened MessageRuns
  import opened Reassembly
  import opened Receiving
  import opened Relay
  import opened RelayInvariants
  import opened RelayRuns
  import opened Store
  import Labels
  import NameSize
  import RateLimit
  import Text

  /** The k-th of a supply of addresses. */
  function Address(k: nat): (ip: string)
    ensures |ip| == k
  {
    if k == 0 then "" else Address(k - 1) + "x"
  }

  /** One request per name, in order, each from an address of its own. */
  function Orderly(names: seq<string>, now: int): (es: seq<Event>)
    ensures |es| == |names|
    ensures forall k | 0 <= k < |names| :: es[k] == Request(Address(k), now, Some(names[k]), true)
  {
    seq(|names|, k requires 0 <= k < |names| => Request(Address(k), now, Some(names[k]), true))
  }

  function Fresh(cfg: Config): RelayState {
    RelayState(StoreState(map[], map[], map[], Some(map[])), RateLimit.Limiter(cfg.limit, cfg.burst, map[]))
  }

  /** No bucket yet for the address of length `k`, nor for longer ones. */
  ghost predicate Unseen(l: RateLimit.Limiter, k: nat) {
    l.burst >= 1 && forall ip | ip in l.buckets :: |ip| < k
  }

  lemma UnseenAllowed(l: RateLimit.Limiter, k: nat, now: real)
    requires Unseen(l, k)
    ensures RateLimit.Allows(l, Address(k), now) && Unseen(RateLimit.AfterRequest(l, Address(k), now), k + 1)
  {
    assert RateLimit.Inflow(l.limit as real, now, now) == 0.0;
  }

  lemma UnseenNext(cfg: Config, s: RelayState, e: Event, k: nat)
    requires Unseen(s.limiter, k) && e.Request? && e.ip == Address(k)
    ensures Allowed(s, e) && Unseen(Next(cfg, s, e).limiter, k + 1)
  {
    UnseenAllowed(s.limiter, k, Seconds(e.now));
  }

  ghost predicate NewAddresses(es: seq<Event>) {
    forall k | 0 <= k < |es| :: es[k].Request? && es[k].ip == Address(k)
  }

  lemma {:induction false} OrderlyUnseen(cfg: Config, s: RelayState, es: seq<Event>, k: nat)
    requires Unseen(s.limiter, 0) && k <= |es| && NewAddresses(es)
    ensures Unseen(Before(cfg, s, es, k).limiter, k)
  {
    if k == 0 {
      assert es[..0] == [];
    } else {
      OrderlyUnseen(cfg, s, es, k - 1);
      BeforeNext(cfg, s, es, k - 1);
      UnseenNext(cfg, Before(cfg, s, es, k - 1), es[k - 1], k - 1);
    }
  }

  lemma OrderlyAllowed(cfg: Config, s: RelayState, es: seq<Event>, k: nat)
    requires Unseen(s.limiter, 0) && k < |es| && NewAddresses(es)
    ensures Allowed(Before(cfg, s, es, k), es[k])
  {
    OrderlyUnseen(cfg, s, es, k);
    UnseenNext(cfg, Before(cfg, s, es, k), es[k], k);
  }

  /** The relay reads each name as a request to store that chunk, and the name is legal. */
  ghost predicate NamesOf(names: seq<string>, cs: seq<Chunk>, zone: string) {
    |names| == |cs| && forall k | 0 <= k < |cs| :: IsNameOf(names[k], cs[k], zone) && Legal(names[k])
  }

  predicate IsNameOf(name: string, c: Chunk, zone: string) { Classify(zone, Some(name)) == Put(c) }

  /** A question name of at most 255 octets. */
  predicate Legal(name: string) { NameSize.NameOctets(Text.TrimSuffix(name, ".")) <= 255 }

  lemma TrimmedLength(s: string)
    ensures |Text.TrimSuffix(Labels.Fqdn(s), ".")| <= |s|
  {
    if !Text.HasSuffix(s, ".") { Text.TrimSuffixAppend(s, "."); }
  }

  lemma FittingIsLegal(c: Chunk, zone: string)
    requires NameSize.Fits(c, zone)
    ensures Legal(SendName(c, zone))
  {
    ShortIsLegal(Text.Join(Labels.EncodeToLabels(c, zone), '.'));
  }

  lemma ShortIsLegal(joined: string)
    requires NameSize.NameOctets(joined) <= 255
    ensures Legal(Labels.Fqdn(joined))
  {
    TrimmedLength(joined);
    NameSize.NameLength(joined);
    NameSize.NameLength(Text.TrimSuffix(Labels.Fqdn(joined), "."));
  }

  lemma NamesExist(cs: seq<Chunk>, id: MsgId, p: seq<byte>, hash: Hash, zone: string) returns (names: seq<string>)
    requires Sent(cs, id, p, hash) && forall c <- cs :: NameSize.Fits(c, zone)
    ensures NamesOf(names, cs, zone)
  {
    names := seq(|cs|, k requires 0 <= k < |cs| => SendName(cs[k], zone));
    forall k | 0 <= k < |cs| ensures IsNameOf(names[k], cs[k], zone) && Legal(names[k]) {
      NameExists(cs[k], id, k, |cs|, hash, zone);
    }
  }

  lemma NameExists(c: Chunk, id: MsgId, k: nat, n: nat, hash: Hash, zone: string)
    requires k < n && Piece(c, id, k, n, hash) && NameSize.Fits(c, zone)
    ensures IsNameOf(SendName(c, zone), c, zone) && Legal(SendName(c, zone))
  {
    SentNameIsStored(c, zone);
    FittingIsLegal(c, zone);
  }

  lemma AllowedIsStored(cfg: Config, t: RelayState, e: Event, name: string, c: Chunk)
    requires IsNameOf(name, c, cfg.zone) && Passes(cfg, t, e, name)
    ensures Stored(cfg, t, e) == Some(c)
  {}

  lemma OrderlyStores(cfg: Config, cs: seq<Chunk>, names: seq<string>, now: int, k: nat)
    requires cfg.burst >= 1 && k < |cs| && NamesOf(names, cs, cfg.zone)
    ensures StoredAt(cfg, Fresh(cfg), Orderly(names, now), k) == Some(cs[k])
  {
    var es := Orderly(names, now);
    OrderlyAllowed(cfg, Fresh(cfg), es, k);
    AllowedIsStored(cfg, Before(cfg, Fresh(cfg), es, k), es[k], names[k], cs[k]);
  }

  lemma InOrder(log: seq<Option<Chunk>>, es: seq<Event>, cs: seq<Chunk>, id: MsgId, ttl: int)
    requires |log| == |es| == |cs| && forall k | 0 <= k < |cs| :: es[k].Request? && log[k] == Some(cs[k])
    ensures OnlyOurs(log, cs, id) && Undisturbed(log, es, id, ttl)
    ensures forall c <- cs :: Some(c) in log[..|es|]
  {
    assert log[..|es|] == log;
    forall c <- cs ensures Some(c) in log {
      var k :| 0 <= k < |cs| && cs[k] == c;
      assert log[k] == Some(c);
    }
  }

  /** Sending a message's chunks in order to a new relay is a run as the theorems want it. */
  lemma OrderlySetting(cfg: Config, cs: seq<Chunk>, names: seq<string>, id: MsgId, p: seq<byte>, hash: Hash, now: int)
    requires cfg.burst >= 1 && Sent(cs, id, p, hash) && NamesOf(names, cs, cfg.zone)
    ensures var s, es := Fresh(cfg), Orderly(names, now);
            Setting(cfg, s, es, cs, id, p, hash) && AllStoredBy(cfg, s, es, cs, |es|)
  {
    var es := Orderly(names, now);
    var log := Log(cfg, Fresh(cfg), es);
    forall k | 0 <= k < |cs| ensures log[k] == Some(cs[k]) {
      OrderlyStores(cfg, cs, names, now, k);
    }
    InOrder(log, es, cs, id, cfg.ttl);
  }

  /** Requests at time `now`, each with a legal name. */
  ghost predicate LegalRequests(es: seq<Event>, now: int) {
    forall k | 0 <= k < |es| :: es[k].Request? && es[k].now == now && es[k].qname.Some? && Legal(es[k].qname.value)
  }

  lemma RunOfNames(cfg: Config, cs: seq<Chunk>, names: seq<string>, id: MsgId, p: seq<byte>, hash: Hash, now: int, es: seq<Event>)
    requires cfg.burst >= 1 && Sent(cs, id, p, hash) && NamesOf(names, cs, cfg.zone) && es == Orderly(names, now)
    ensures Setting(cfg, Fresh(cfg), es, cs, id, p, hash) && AllStoredBy(cfg, Fresh(cfg), es, cs, |es|)
    ensures Unseen(Before(cfg, Fresh(cfg), es, |es|).limiter, |es|) && LegalRequests(es, now)
  {
    OrderlySetting(cfg, cs, names, id, p, hash, now);
    OrderlyUnseen(cfg, Fresh(cfg), es, |es|);
    NamesAreLegal(names, cs, cfg.zone, now);
  }

  lemma NamesAreLegal(names: seq<string>, cs: seq<Chunk>, zone: string, now: int)
    requires NamesOf(names, cs, zone)
    ensures LegalRequests(Orderly(names, now), now)
  {}

  /** After which new addresses may still ask. */
  lemma RunIsPossible(cfg: Config, cs: seq<Chunk>, id: MsgId, p: seq<byte>, hash: Hash, now: int) returns (es: seq<Event>)
    requires cfg.burst >= 1 && Sent(cs, id, p, hash) && forall c <- cs :: NameSize.Fits(c, cfg.zone)
    ensures Setting(cfg, Fresh(cfg), es, cs, id, p, hash) && AllStoredBy(cfg, Fresh(cfg), es, cs, |es|)
    ensures Unseen(Before(cfg, Fresh(cfg), es, |es|).limiter, |es|) && LegalRequests(es, now)
  {
    var names := NamesExist(cs, id, p, hash, cfg.zone);
    es := Orderly(names, now);
    RunOfNames(cfg, cs, names, id, p, hash, now, es);
  }

  /** A relay that answers every query at once, in the state `t`. */
  function Prompt(t: RelayState, id: MsgId): uint16 -> (nat -> Option<Reply>) {
    (i: uint16) => (k: nat) => Some(FetchReply(Lookup(t.store, id, i)))
  }

  lemma AllowedIsAnswered(cfg: Config, t: RelayState, e: Event, id: MsgId, i: uint16)
    requires Passes(cfg, t, e, QueryName(id, i, cfg.zone))
    ensures IsReply(cfg, t, e, FetchReply(Lookup(t.store, id, i)))
  {
    QueryNameIsFetch(id, i, cfg.zone);
  }

  lemma NewAddressPasses(cfg: Config, t: RelayState, n: nat, now: int, name: string) returns (e: Event)
    requires Unseen(t.limiter, n)
    ensures Passes(cfg, t, e, name) && e.now == now
  {
    e := Request(Address(n), now, Some(name), true);
    UnseenAllowed(t.limiter, n, Seconds(now));
  }

  lemma AnsweredIsServed(cfg: Config, t: RelayState, e: Event, id: MsgId, i: uint16, name: string, reply: Reply)
    requires name == QueryName(id, i, cfg.zone) && Passes(cfg, t, e, name) && IsReply(cfg, t, e, reply)
    ensures Served(cfg, t, id, i, reply) && QueryAnswered(cfg, t, id, i, reply)
  {
    assert e == Request(e.ip, e.now, Some(name), e.commits);
  }

  lemma PromptServes(cfg: Config, t: RelayState, id: MsgId, n: nat, now: int, i: uint16, reply: Reply)
    requires Unseen(t.limiter, n) && reply == FetchReply(Lookup(t.store, id, i))
    ensures Served(cfg, t, id, i, reply) && QueryAnswered(cfg, t, id, i, reply)
  {
    var name := QueryName(id, i, cfg.zone);
    var e := NewAddressPasses(cfg, t, n, now, name);
    AllowedIsAnswered(cfg, t, e, id, i);
    AnsweredIsServed(cfg, t, e, id, i, name, reply);
  }

  lemma SteadyFromRelay(cfg: Config, t: RelayState, id: MsgId, i: uint16, reply: Reply, exchange: nat -> Option<Reply>)
    requires QueryAnswered(cfg, t, id, i, reply) && forall k: nat :: exchange(k) == Some(reply)
    ensures FromRelay(cfg, {t}, id, i, exchange)
  {}

  lemma SteadyLetThrough(cfg: Config, t: RelayState, id: MsgId, mode: Transport, i: uint16, reply: Reply,
                         exchange: nat -> Option<Reply>)
    requires Served(cfg, t, id, i, reply) && exchange(0) == Some(reply)
    ensures SomeLetThrough(cfg, {t}, mode, id, i, exchange)
  {
    assert LetThrough(cfg, {t}, id, i, exchange(0));
  }

  lemma PromptAnswers(cfg: Config, t: RelayState, id: MsgId, n: nat, now: int, mode: Transport, i: uint16)
    requires Unseen(t.limiter, n)
    ensures FromRelay(cfg, {t}, id, i, Prompt(t, id)(i)) && SomeLetThrough(cfg, {t}, mode, id, i, Prompt(t, id)(i))
  {
    var reply := FetchReply(Lookup(t.store, id, i));
    PromptServes(cfg, t, id, n, now, i, reply);
    SteadyFromRelay(cfg, t, id, i, reply, Prompt(t, id)(i));
    SteadyLetThrough(cfg, t, id, mode, i, reply, Prompt(t, id)(i));
  }

  lemma PromptMeetsPremises(cfg: Config, t: RelayState, id: MsgId, n: nat, now: int, mode: Transport, count: nat)
    requires Unseen(t.limiter, n)
    ensures AllFromRelay(cfg, {t}, id, Prompt(t, id))
    ensures EveryQueryLetThrough(cfg, {t}, mode, id, Prompt(t, id), count)
  {
    forall i: uint16 ensures FromRelay(cfg, {t}, id, i, Prompt(t, id)(i)) {
      PromptAnswers(cfg, t, id, n, now, mode, i);
    }
    forall i: uint16 | i < count ensures SomeLetThrough(cfg, {t}, mode, id, i, Prompt(t, id)(i)) {
      PromptAnswers(cfg, t, id, n, now, mode, i);
    }
  }

  /** Every message of 1 to 65535 chunks with legal names, under every configuration that lets a new
      address ask once, has a run and a fetch at any time that satisfy all premises of end-to-end
      delivery. */
  lemma DeliveryIsPossible(cfg: Config, cs: seq<Chunk>, id: MsgId, p: seq<byte>, hash: Hash, now: int, mode: Transport)
    returns (es: seq<Event>, states: set<RelayState>, exchanges: uint16 -> (nat -> Option<Reply>))
    requires cfg.burst >= 1 && Sent(cs, id, p, hash) && forall c <- cs :: NameSize.Fits(c, cfg.zone)
    ensures Good(Fresh(cfg).store) && Setting(cfg, Fresh(cfg), es, cs, id, p, hash) && LegalRequests(es, now)
    ensures AfterAllStored(cfg, Fresh(cfg), es, cs, states) && AllFromRelay(cfg, states, id, exchanges)
    ensures EveryQueryLetThrough(cfg, states, mode, id, exchanges, |cs|)
  {
    es := RunIsPossible(cfg, cs, id, p, hash, now);
    var t := Before(cfg, Fresh(cfg), es, |es|);
    states, exchanges := {t}, Prompt(t, id);
    EmptyIsGood(Some(map[]));
    PromptMeetsPremises(cfg, t, id, |es|, now, mode, |cs|);
  }

  // ----- a whole poll -----

  lemma Enumerate(ids: set<MsgId>) returns (list: seq<MsgId>)
    ensures Distinct(list) && Elems(list) == ids
  {
    list := [];
    if ids != {} {
      var id :| id in ids;
      var rest := Enumerate(ids - {id});
      assert id !in Elems(rest);
      list := rest + [id];
      assert forall x :: x in list <==> x in rest || x == id;
      assert forall x :: x in rest <==> x in Elems(rest);
    } else {
      assert Elems<MsgId>([]) == {};
    }
  }

  lemma PollAnswered(cfg: Config, t: RelayState, e: Event, hash: Hash) returns (reply: Reply)
    requires Passes(cfg, t, e, PollName(hash, cfg.zone))
    ensures IsReply(cfg, t, e, reply)
  {
    PollNameIsPoll(hash, cfg.zone);
    var ids := Enumerate(OwnedBy(t.store.owner, OwnerName(hash)));
    reply := Reply(Success, Some(RecordsOf(t.store, ids)));
  }

  function Always(reply: Reply): nat -> Option<Reply> { (k: nat) => Some(reply) }

  /** One poll of one relay that answers everything at once in the state `t`. */
  ghost function PromptVisit(src: Source, t: RelayState, mode: Transport, reply: Reply): Visit {
    Visit([src], [Wire(Always(reply), (id: MsgId) => Prompt(t, id))], [Some(ParseResponse(Records(reply)))],
          (r: nat, id: MsgId) => if r == 0 then FetchOutcome(Answered(mode, src.cfg.zone, Prompt(t, id))) else FetchError)
  }

  lemma PollPromptly(src: Source, t: RelayState, hash: Hash, n: nat, now: int, mode: Transport) returns (reply: Reply)
    requires src.states == {t} && Unseen(t.limiter, n)
    ensures Accepted(Some(reply)) && PollFromRelay(src, hash, Always(reply)) && PollLetThrough(src, mode, hash, Always(reply))
  {
    var e := NewAddressPasses(src.cfg, t, n, now, PollName(hash, src.cfg.zone));
    reply := PollAnswered(src.cfg, t, e, hash);
    assert PollReply(src.cfg, t, hash, reply);
    assert PollServed(src, hash, reply);
    ServedIsAccepted(src, hash, reply);
    assert Always(reply)(0) == Some(reply);
  }

  lemma AlwaysResult(mode: Transport, reply: Reply)
    requires Accepted(Some(reply))
    ensures IsPollResult(mode, Always(reply), Some(ParseResponse(Records(reply))))
  {
    assert Always(reply)(0) == Some(reply);
  }

  lemma PromptHonest(src: Source, t: RelayState, hash: Hash, n: nat, now: int, mode: Transport, wire: Wire)
    requires src.states == {t} && Unseen(t.limiter, n) && Good(src.s.store) && DuringRun(src.cfg, src.s, src.es, src.states)
    requires PollFromRelay(src, hash, wire.poll) && forall id :: wire.queries(id) == Prompt(t, id)
    ensures Honest(src, wire, hash)
  {
    forall id ensures AllFromRelay(src.cfg, src.states, id, wire.queries(id)) {
      PromptMeetsPremises(src.cfg, t, id, n, now, mode, 0);
    }
  }

  lemma OneVisit(v: Visit, src: Source, wire: Wire, mode: Transport, hash: Hash)
    requires v.sources == [src] && v.wires == [wire] && |v.responses| == 1
    requires Honest(src, wire, hash) && IsPollResult(mode, wire.poll, v.responses[0])
    requires forall r: nat, id :: v.fetch(r, id) == FetchFrom(v, mode, r, id)
    ensures IsVisit(v, mode, hash)
  {}

  lemma PromptIsVisit(src: Source, t: RelayState, hash: Hash, n: nat, now: int, mode: Transport, reply: Reply)
    requires src.states == {t} && Unseen(t.limiter, n) && Good(src.s.store) && DuringRun(src.cfg, src.s, src.es, src.states)
    requires Accepted(Some(reply)) && PollFromRelay(src, hash, Always(reply))
    ensures IsVisit(PromptVisit(src, t, mode, reply), mode, hash)
  {
    var v := PromptVisit(src, t, mode, reply);
    PromptHonest(src, t, hash, n, now, mode, v.wires[0]);
    AlwaysResult(mode, reply);
    OneVisit(v, src, v.wires[0], mode, hash);
  }

  lemma StampIsNow(cfg: Config, cs: seq<Chunk>, id: MsgId, p: seq<byte>, hash: Hash, es: seq<Event>, now: int)
    requires Setting(cfg, Fresh(cfg), es, cs, id, p, hash) && AllStoredBy(cfg, Fresh(cfg), es, cs, |es|) && LegalRequests(es, now)
    ensures var t := Before(cfg, Fresh(cfg), es, |es|).store;
            id in t.messages && t.messages[id].timestamp == now / 1_000_000
  {
    var j := FirstStamp(cfg, Fresh(cfg), es, cs, id, p, hash, |es|);
  }

  lemma PromptReaches(v: Visit, src: Source, t: RelayState, hash: Hash, n: nat, now: int, mode: Transport,
                      cs: seq<Chunk>, id: MsgId, p: seq<byte>)
    requires |v.wires| == 1 && v.sources == [src] && v.wires[0].queries(id) == Prompt(t, id)
    requires src.states == {t} && Unseen(t.limiter, n) && PollLetThrough(src, mode, hash, v.wires[0].poll)
    requires Setting(src.cfg, src.s, src.es, cs, id, p, hash) && AfterAllStored(src.cfg, src.s, src.es, cs, src.states)
    ensures Reached(v, mode, cs, id, p, hash, 0)
  {
    PromptMeetsPremises(src.cfg, t, id, n, now, mode, |cs|);
  }

  lemma PromptPoll(src: Source, t: RelayState, hash: Hash, n: nat, now: int, mode: Transport,
                   cs: seq<Chunk>, id: MsgId, p: seq<byte>) returns (v: Visit)
    requires src.states == {t} && Unseen(t.limiter, n) && Good(src.s.store) && DuringRun(src.cfg, src.s, src.es, src.states)
    requires Setting(src.cfg, src.s, src.es, cs, id, p, hash) && AfterAllStored(src.cfg, src.s, src.es, cs, src.states)
    ensures IsVisit(v, mode, hash) && v.sources == [src] && Reached(v, mode, cs, id, p, hash, 0)
  {
    var reply := PollPromptly(src, t, hash, n, now, mode);
    v := PromptVisit(src, t, mode, reply);
    PromptIsVisit(src, t, hash, n, now, mode, reply);
    PromptReaches(v, src, t, hash, n, now, mode, cs, id, p);
  }

  lemma LastState(cfg: Config, s: RelayState, es: seq<Event>, cs: seq<Chunk>, t: RelayState)
    requires AllStoredBy(cfg, s, es, cs, |es|) && t == Before(cfg, s, es, |es|)
    ensures AfterAllStored(cfg, s, es, cs, {t}) && DuringRun(cfg, s, es, {t})
  {}

  lemma OneClock(v: Visit, src: Source, id: MsgId)
    requires v.sources == [src] && ClockSet(src, id)
    ensures ClocksSet(v, id)
  {}

  lemma ClockOf(src: Source, t: RelayState, id: MsgId)
    requires src.states == {t} && id in t.store.messages && 0 < t.store.messages[id].timestamp < 0x8000_0000_0000_0000
    ensures ClockSet(src, id)
  {}

  lemma SourceIsPossible(cfg: Config, cs: seq<Chunk>, id: MsgId, p: seq<byte>, hash: Hash, now: int)
    returns (src: Source, t: RelayState)
    requires cfg.burst >= 1 && Sent(cs, id, p, hash) && (forall c <- cs :: NameSize.Fits(c, cfg.zone))
    requires 0 < now / 1_000_000 < 0x8000_0000_0000_0000
    ensures src.states == {t} && Unseen(t.limiter, |src.es|) && Good(src.s.store) && DuringRun(src.cfg, src.s, src.es, src.states)
    ensures Setting(src.cfg, src.s, src.es, cs, id, p, hash) && AfterAllStored(src.cfg, src.s, src.es, cs, src.states)
    ensures ClockSet(src, id) && LegalRequests(src.es, now)
  {
    var es := RunIsPossible(cfg, cs, id, p, hash, now);
    t := Before(cfg, Fresh(cfg), es, |es|);
    src := Source(cfg, Fresh(cfg), es, {t});
    EmptyIsGood(Some(map[]));
    LastState(cfg, Fresh(cfg), es, cs, t);
    StampIsNow(cfg, cs, id, p, hash, es, now);
    ClockOf(src, t, id);
  }

  /** For every such message there is a poll, after its chunks are stored, that satisfies all premises
      of Receiving.ReceivedFromOne. */
  lemma ReceiptIsPossible(cfg: Config, cs: seq<Chunk>, id: MsgId, p: seq<byte>, hash: Hash, now: int, mode: Transport)
    returns (v: Visit, src: Source)
    requires cfg.burst >= 1 && Sent(cs, id, p, hash) && (forall c <- cs :: NameSize.Fits(c, cfg.zone))
    requires 0 < now / 1_000_000 < 0x8000_0000_0000_0000
    ensures IsVisit(v, mode, hash) && v.sources == [src] && Reached(v, mode, cs, id, p, hash, 0) && ClocksSet(v, id)
    ensures LegalRequests(src.es, now)
  {
    var t;
    src, t := SourceIsPossible(cfg, cs, id, p, hash, now);
    v := PromptPoll(src, t, hash, |src.es|, now, mode, cs, id, p);
    OneClock(v, src, id);
  }
}
