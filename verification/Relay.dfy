/** The relay as a state machine: the DNS handler of go/internal/relay/server.go, with
    garbage collection and process restarts. One request is one step. */
module Relay {
  import opened Bytes
  import opened Chunks
  import opened Counting
  import opened Labels
  import Base32Hex
  import ChunkStores
  import RateLimit
  import Store
  import Text

  datatype Config = Config(zone: string, ttl: int, limit: int, burst: int)

  datatype RelayState = RelayState(store: Store.StoreState, limiter: RateLimit.Limiter)

  datatype Rcode = Success | FormatError | NameError | Refused

  datatype Reply = Reply(rcode: Rcode, answer: Option<seq<string>>)

  /** `qname` is None for a request without a question; `commits` says whether the
      sequence table's transaction, if this request needs one, succeeds. */
  datatype Event =
    | Request(ip: string, now: int, qname: Option<string>, commits: bool)
    | Gc(now: int)
    | Restart(now: int)

  // ----- what a question asks for -----

  datatype Action =
    | Reject(rcode: Rcode)
    | Poll(peer: string)
    | Fetch(msgID: MsgId, idx: uint16)
    | Put(chunk: Chunk)

  /** What every stored chunk satisfies. */
  predicate WellFormed(c: Chunk) { c.total > 0 && |c.recipientHash| in {0, 32} }

  function Classify(zone: string, qname: Option<string>): (action: Action)
    ensures action.Put? ==> WellFormed(action.chunk)
  {
    if qname.None? then Reject(FormatError) else
    var labels := RelayLabels(zone, qname.value);
    if labels.None? then Reject(Refused) else ClassifyLabels(zone, labels.value)
  }

  function ClassifyLabels(zone: string, labels: seq<string>): (action: Action)
    requires labels != []
    ensures action.Put? ==> WellFormed(action.chunk)
  {
    if labels[0] == "POLL" then
      if |labels| < 2 then Reject(FormatError) else Poll(labels[1])
    else
      var chunk := DecodeChunk(labels + [CleanZone(zone)], CleanZone(zone));
      if chunk.None? then Reject(FormatError)
      else if chunk.value.total == 0 then Fetch(chunk.value.msgID, chunk.value.idx)
      else Put(chunk.value)
  }

  // ----- the state after a step -----

  function Seconds(now: int): real { now as real / 1_000_000_000.0 }

  function OwnerName(hash: seq<byte>): string { Base32Hex.Encode(hash) }

  /** Store, then SetMessageOwner when the chunk names a recipient. */
  function PutChunk(s: Store.StoreState, c: Chunk, now: int, commits: bool): Store.StoreState {
    var stored := Store.StoreChunk(s, c, now, commits);
    if |c.recipientHash| > 0 then Store.SetOwner(stored, c.msgID, OwnerName(c.recipientHash)) else stored
  }

  predicate Allowed(s: RelayState, e: Event)
    requires e.Request?
  {
    RateLimit.Allows(s.limiter, e.ip, Seconds(e.now))
  }

  /** The chunk that a step stores, if any. */
  function Stored(cfg: Config, s: RelayState, e: Event): Option<Chunk> {
    if e.Request? && Allowed(s, e) && Classify(cfg.zone, e.qname).Put? then
      Some(Classify(cfg.zone, e.qname).chunk)
    else None
  }

  function NextStore(cfg: Config, s: RelayState, e: Event): Store.StoreState {
    match e
    case Request(_, now, _, commits) =>
      var chunk := Stored(cfg, s, e);
      if chunk.Some? then PutChunk(s.store, chunk.value, now, commits) else s.store
    case Gc(now) => Store.Collect(s.store, now, cfg.ttl)
    case Restart(_) => Store.StoreState(map[], map[], map[], s.store.counters)
  }

  function NextLimiter(cfg: Config, s: RelayState, e: Event): RateLimit.Limiter {
    match e
    case Request(ip, now, _, _) => RateLimit.AfterRequest(s.limiter, ip, Seconds(now))
    case Gc(_) => s.limiter
    case Restart(_) => RateLimit.Limiter(cfg.limit, cfg.burst, map[])
  }

  function Next(cfg: Config, s: RelayState, e: Event): RelayState {
    RelayState(NextStore(cfg, s, e), NextLimiter(cfg, s, e))
  }

  function Run(cfg: Config, s: RelayState, es: seq<Event>): RelayState {
    if es == [] then s else Next(cfg, Run(cfg, s, es[..|es| - 1]), es[|es| - 1])
  }

  // ----- the reply to a request -----

  /** msgID:timestamp:sequence, each in base32hex. */
  function ExtendedRecord(id: MsgId, timestamp: nat, sequence: uint64): string {
    Text.Join([Base32Hex.Encode(id),
               Base32Hex.Encode(BigEndian(timestamp, 8)),
               Base32Hex.Encode(BigEndian(sequence, 8))], ':')
  }

  function PollRecord(s: Store.StoreState, id: MsgId): string {
    if id in s.messages && s.messages[id].timestamp > 0 then
      ExtendedRecord(id, s.messages[id].timestamp, s.messages[id].sequence)
    else Base32Hex.Encode(id)
  }

  /** One record per ID that the peer owns, in some order. */
  ghost predicate IsPollAnswer(s: Store.StoreState, peer: string, records: seq<string>) {
    exists ids: seq<MsgId> ::
      && Distinct(ids) && Elems(ids) == Store.OwnedBy(s.owner, peer)
      && records == RecordsOf(s, ids)
  }

  function RecordsOf(s: Store.StoreState, ids: seq<MsgId>): seq<string> {
    if ids == [] then [] else RecordsOf(s, ids[..|ids| - 1]) + [PollRecord(s, ids[|ids| - 1])]
  }

  function Ack(c: Chunk): seq<string> {
    [Base32Hex.Encode(c.msgID), Base32Hex.Encode(BigEndian(c.idx, 2)), "OK"]
  }

  function FetchReply(found: Option<Chunk>): Reply {
    if found.Some? then Reply(Success, Some(BodyLabels(found.value))) else Reply(NameError, None)
  }

  ghost predicate Answers(s: Store.StoreState, action: Action, reply: Reply) {
    match action
    case Reject(rcode) => reply == Reply(rcode, None)
    case Poll(peer) => reply.rcode == Success && reply.answer.Some? && IsPollAnswer(s, peer, reply.answer.value)
    case Fetch(id, idx) => reply == FetchReply(Store.Lookup(s, id, idx))
    case Put(c) => reply == Reply(Success, Some(Ack(c)))
  }

  ghost predicate IsReply(cfg: Config, s: RelayState, e: Event, reply: Reply)
    requires e.Request?
  {
    Answers(s.store, if Allowed(s, e) then Classify(cfg.zone, e.qname) else Reject(Refused), reply)
  }

  /** A query for an unknown chunk is a name error; a known one is sent as its labels. */
  lemma FetchReplies(s: Store.StoreState, id: MsgId, idx: uint16, reply: Reply, zone: string)
    requires Answers(s, Fetch(id, idx), reply)
    ensures if id in s.messages && idx in s.messages[id].chunks then
              && reply.rcode == Success && reply.answer.Some?
              && reply.answer.value + [zone] == EncodeToLabels(s.messages[id].chunks[idx], zone)
            else reply == Reply(NameError, None)
  {}

  /** A stored chunk is acknowledged with its message ID, its index and OK. */
  lemma AckReplies(s: Store.StoreState, c: Chunk, reply: Reply)
    requires Answers(s, Put(c), reply)
    ensures reply.rcode == Success && reply.answer.Some? && |reply.answer.value| == 3
    ensures reply.answer.value[0] == Base32Hex.Encode(c.msgID)
    ensures reply.answer.value[1] == Base32Hex.Encode(BigEndian(c.idx, 2))
    ensures reply.answer.value[2] == "OK"
  {}

  /** A request beyond the rate is refused, and one without a question is malformed. */
  lemma EmptyReplies(cfg: Config, s: RelayState, e: Event, reply: Reply)
    requires e.Request? && IsReply(cfg, s, e, reply)
    ensures !Allowed(s, e) ==> reply == Reply(Refused, None)
    ensures Allowed(s, e) && e.qname.None? ==> reply == Reply(FormatError, None)
  {}

  /** What is refused or malformed, told of the name: outside the zone, a poll without a recipient, or
      labels that are no chunk. */
  lemma RejectsExactly(zone: string, qname: string)
    ensures var name, z := Text.TrimSuffix(Fqdn(qname), "."), CleanZone(zone);
            var action := Classify(zone, Some(qname));
            if !Text.HasSuffix(name, z) then action == Reject(Refused) else
            var labels := Text.Split(Text.TrimSuffix(name, "." + z), '.');
            if labels[0] == "POLL" then action == if |labels| >= 2 then Poll(labels[1]) else Reject(FormatError)
            else DecodeChunk(labels + [z], z).None? <==> action == Reject(FormatError)
  {}

  // ----- the handler -----

  lemma RefusedRequest(cfg: Config, s: RelayState, e: Event)
    requires e.Request? && !Allowed(s, e)
    ensures Next(cfg, s, e) == s.(limiter := RateLimit.AfterRequest(s.limiter, e.ip, Seconds(e.now)))
    ensures IsReply(cfg, s, e, Reply(Refused, None))
  {}

  lemma AllowedRequest(cfg: Config, s: RelayState, e: Event, t: RelayState, reply: Reply)
    requires e.Request? && Allowed(s, e) && Answers(s.store, Classify(cfg.zone, e.qname), reply)
    requires t.limiter == RateLimit.AfterRequest(s.limiter, e.ip, Seconds(e.now))
    requires var action := Classify(cfg.zone, e.qname);
             t.store == if action.Put? then PutChunk(s.store, action.chunk, e.now, e.commits) else s.store
    ensures t == Next(cfg, s, e) && IsReply(cfg, s, e, reply)
  {}

  class Server {
    const cfg: Config
    const store: ChunkStores.ChunkStore
    const limiter: RateLimit.IPRateLimiter

    ghost predicate Valid()
      reads this, store, store.sequenceCounter, limiter
    {
      store.Valid() && limiter.Valid()
    }

    ghost function Contents(): RelayState
      reads this, store, store.sequenceCounter, limiter, limiter.buckets.Values
    {
      RelayState(store.Contents(), limiter.State())
    }

    constructor (cfg: Config, store: ChunkStores.ChunkStore, limiter: RateLimit.IPRateLimiter)
      requires store.Valid() && limiter.Valid()
      ensures Valid() && this.cfg == cfg && this.store == store && this.limiter == limiter
    {
      this.cfg, this.store, this.limiter := cfg, store, limiter;
    }

    method Handle(ip: string, now: int, qname: Option<string>, commits: bool) returns (reply: Reply)
      requires Valid()
      modifies store, store.sequenceCounter, limiter, limiter.buckets.Values
      ensures Valid()
      ensures Contents() == Next(cfg, old(Contents()), Request(ip, now, qname, commits))
      ensures IsReply(cfg, old(Contents()), Request(ip, now, qname, commits), reply)
    {
      ghost var before := Contents();
      var allowed := limiter.Allow(ip, Seconds(now));
      if !allowed {
        RefusedRequest(cfg, before, Request(ip, now, qname, commits));
        return Reply(Refused, None);
      }
      reply := Admit(now, qname, commits, ip, before);
    }

    /** A request that the rate limit lets through. */
    method Admit(now: int, qname: Option<string>, commits: bool, ghost ip: string, ghost before: RelayState)
      returns (reply: Reply)
      requires Valid() && store.Contents() == before.store && RateLimit.Allows(before.limiter, ip, Seconds(now))
      requires limiter.State() == RateLimit.AfterRequest(before.limiter, ip, Seconds(now))
      modifies store, store.sequenceCounter
      ensures Valid()
      ensures Contents() == Next(cfg, before, Request(ip, now, qname, commits))
      ensures IsReply(cfg, before, Request(ip, now, qname, commits), reply)
    {
      reply := Respond(now, qname, commits);
      AllowedRequest(cfg, before, Request(ip, now, qname, commits), Contents(), reply);
    }

    /** The handler after the rate limit. */
    method Respond(now: int, qname: Option<string>, commits: bool) returns (reply: Reply)
      requires Valid()
      modifies store, store.sequenceCounter
      ensures Valid()
      ensures var action := Classify(cfg.zone, qname);
              && Answers(old(store.Contents()), action, reply)
              && store.Contents() == if action.Put? then PutChunk(old(store.Contents()), action.chunk, now, commits)
                                     else old(store.Contents())
    {
      if qname.None? {
        return Reply(FormatError, None);
      }
      var name := Text.TrimSuffix(Fqdn(qname.value), ".");
      var zoneClean := Text.TrimSuffix(Fqdn(cfg.zone), ".");
      if !Text.HasSuffix(name, zoneClean) {
        return Reply(Refused, None);
      }
      var labels := Text.Split(Text.TrimSuffix(name, "." + zoneClean), '.');
      reply := Dispatch(labels, zoneClean, now, commits);
    }

    method Dispatch(labels: seq<string>, zoneClean: string, now: int, commits: bool) returns (reply: Reply)
      requires Valid() && labels != [] && zoneClean == CleanZone(cfg.zone)
      modifies store, store.sequenceCounter
      ensures Valid()
      ensures var action := ClassifyLabels(cfg.zone, labels);
              && Answers(old(store.Contents()), action, reply)
              && store.Contents() == if action.Put? then PutChunk(old(store.Contents()), action.chunk, now, commits)
                                     else old(store.Contents())
    {
      if labels[0] == "POLL" {
        if |labels| < 2 {
          return Reply(FormatError, None);
        }
        var pending := ListPending(labels[1]);
        return Reply(Success, Some(pending));
      }
      var decoded := DecodeChunk(labels + [zoneClean], zoneClean);
      if decoded.None? {
        return Reply(FormatError, None);
      }
      if decoded.value.total == 0 {
        var found := store.GetChunk(decoded.value.msgID, decoded.value.idx);
        return FetchReply(found);
      }
      Receive(decoded.value, now, commits);
      reply := Reply(Success, Some(Ack(decoded.value)));
    }

    /** The two calls on the store that a store request makes. */
    method Receive(chunk: Chunk, now: int, commits: bool)
      requires Valid()
      modifies store, store.sequenceCounter
      ensures Valid() && store.Contents() == PutChunk(old(store.Contents()), chunk, now, commits)
    {
      var complete := store.Store(chunk, now, commits);
      if |chunk.recipientHash| > 0 {
        store.SetMessageOwner(chunk.msgID, OwnerName(chunk.recipientHash));
      }
    }

    method ListPending(peer: string) returns (pending: seq<string>)
      requires Valid()
      ensures IsPollAnswer(store.Contents(), peer, pending)
    {
      var ids := store.ListPeerMessages(peer);
      pending := [];
      for i := 0 to |ids|
        invariant pending == RecordsOf(store.Contents(), ids[..i])
      {
        assert ids[..i + 1][..i] == ids[..i];
        var record := RecordFor(ids[i]);
        pending := pending + [record];
      }
      assert ids[..|ids|] == ids;
    }

    method RecordFor(id: MsgId) returns (record: string)
      requires Valid()
      ensures record == PollRecord(store.Contents(), id)
    {
      var ts, n, ok := store.GetMessageMeta(id);
      if ok && ts > 0 {
        record := ExtendedRecord(id, ts, n);
      } else {
        record := Base32Hex.Encode(id);
      }
    }
  }
}
