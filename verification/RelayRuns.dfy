/** Whole runs of the relay: the order of messages, and how often one IP can change the
    store. */
module RelayRuns {
  import opened Bytes
  import opened Chunks
  import opened Relay
  import opened RelayInvariants
  import opened Store
  import RateLimit

  /** The state before step `k` of a run. */
  function Before(cfg: Config, s: RelayState, es: seq<Event>, k: nat): RelayState
    requires k <= |es|
  {
    Run(cfg, s, es[..k])
  }

  lemma BeforeNext(cfg: Config, s: RelayState, es: seq<Event>, k: nat)
    requires k < |es|
    ensures Before(cfg, s, es, k + 1) == Next(cfg, Before(cfg, s, es, k), es[k])
  {
    assert es[..k + 1][..k] == es[..k];
  }

  function StoredAt(cfg: Config, s: RelayState, es: seq<Event>, k: nat): Option<Chunk>
    requires k < |es|
  {
    Stored(cfg, Before(cfg, s, es, k), es[k])
  }

  // ----- later messages get larger numbers -----

  /** Step `k` stores the first chunk of a message for a recipient, and its number is recorded. */
  predicate Numbers(cfg: Config, s: RelayState, es: seq<Event>, k: nat, c: Chunk)
    requires k < |es|
  {
    && StoredAt(cfg, s, es, k) == Some(c) && c.msgID !in Before(cfg, s, es, k).store.messages
    && |c.recipientHash| > 0 && es[k].commits
  }

  function LastAt(cfg: Config, s: RelayState, es: seq<Event>, k: nat, key: seq<byte>): uint64
    requires k <= |es|
  {
    Last(Counters(Before(cfg, s, es, k).store), key)
  }

  lemma EffectCounter(s: StoreState, c: Chunk, commits: bool, t: StoreState, key: seq<byte>)
    requires PutEffect(s, c, commits, t) && Headroom(s, 1)
    ensures Last(Counters(t), key) >= Last(Counters(s), key)
  {}

  lemma CounterNeverDrops(cfg: Config, s: RelayState, e: Event, key: seq<byte>)
    requires Headroom(s.store, 1)
    ensures Last(Counters(Next(cfg, s, e).store), key) >= Last(Counters(s.store), key)
  {
    NextEffect(cfg, s, e);
    if Stored(cfg, s, e).Some? {
      EffectCounter(s.store, Stored(cfg, s, e).value, e.commits, Next(cfg, s, e).store, key);
    }
  }

  lemma {:induction false} CounterMonotone(cfg: Config, s: RelayState, es: seq<Event>, j: nat, k: nat, key: seq<byte>)
    requires j <= k <= |es| && Headroom(s.store, |es|)
    ensures LastAt(cfg, s, es, j, key) <= LastAt(cfg, s, es, k, key)
    decreases k
  {
    if j < k {
      CounterMonotone(cfg, s, es, j, k - 1, key);
      BeforeNext(cfg, s, es, k - 1);
      HeadroomAt(cfg, s, es, k - 1);
      CounterNeverDrops(cfg, Before(cfg, s, es, k - 1), es[k - 1], key);
    }
  }

  lemma HeadroomAt(cfg: Config, s: RelayState, es: seq<Event>, k: nat)
    requires k < |es| && Headroom(s.store, |es|)
    ensures Headroom(Before(cfg, s, es, k).store, 1)
  {
    assert Headroom(s.store, |es[..k]| + 1);
    RunHeadroom(cfg, s, es[..k], 1);
  }

  lemma {:induction false} CounterAttached(cfg: Config, s: RelayState, es: seq<Event>, k: nat)
    requires k <= |es| && s.store.counters.Some?
    ensures Before(cfg, s, es, k).store.counters.Some?
    decreases k
  {
    if k > 0 {
      CounterAttached(cfg, s, es, k - 1);
      BeforeNext(cfg, s, es, k - 1);
      NextEffect(cfg, Before(cfg, s, es, k - 1), es[k - 1]);
    }
  }

  /** The number that step `k` hands out is its counter's next value. */
  lemma NumberHandedOut(cfg: Config, s: RelayState, es: seq<Event>, k: nat, c: Chunk)
    requires k < |es| && s.store.counters.Some? && Headroom(s.store, |es|) && Numbers(cfg, s, es, k, c)
    ensures Number(Before(cfg, s, es, k + 1).store, c.msgID) == LastAt(cfg, s, es, k, PeerID(c.recipientHash)) + 1
    ensures LastAt(cfg, s, es, k + 1, PeerID(c.recipientHash)) == LastAt(cfg, s, es, k, PeerID(c.recipientHash)) + 1
  {
    BeforeNext(cfg, s, es, k);
    CounterAttached(cfg, s, es, k);
    HeadroomAt(cfg, s, es, k);
    NextEffect(cfg, Before(cfg, s, es, k), es[k]);
    EffectNumbers(Before(cfg, s, es, k).store, c, Before(cfg, s, es, k + 1).store);
  }

  lemma EffectNumbers(s: StoreState, c: Chunk, t: StoreState)
    requires PutEffect(s, c, true, t) && Headroom(s, 1)
    requires c.msgID !in s.messages && s.counters.Some? && |c.recipientHash| > 0
    ensures Number(t, c.msgID) == Last(Counters(t), PeerID(c.recipientHash)) == Last(Counters(s), PeerID(c.recipientHash)) + 1
  {}

  /** Over every run, across gc and restarts: of two messages whose recipients share a
      counter, the one first stored later has the larger number, and both are nonzero. */
  lemma LaterIsLarger(cfg: Config, s: RelayState, es: seq<Event>, j: nat, k: nat, c: Chunk, d: Chunk)
    requires s.store.counters.Some? && Headroom(s.store, |es|) && j < k < |es|
    requires Numbers(cfg, s, es, j, c) && Numbers(cfg, s, es, k, d)
    requires PeerID(c.recipientHash) == PeerID(d.recipientHash)
    ensures 0 < Number(Before(cfg, s, es, j + 1).store, c.msgID) < Number(Before(cfg, s, es, k + 1).store, d.msgID)
  {
    NumberHandedOut(cfg, s, es, j, c);
    NumberHandedOut(cfg, s, es, k, d);
    CounterMonotone(cfg, s, es, j + 1, k, PeerID(c.recipientHash));
  }

  // ----- exactly which number a message gets -----

  /** Step `k` numbers a new message for a recipient whose hash starts with `prefix`. */
  predicate NumbersFor(cfg: Config, s: RelayState, es: seq<Event>, k: nat, prefix: seq<byte>)
    requires k < |es|
  {
    var c := StoredAt(cfg, s, es, k);
    && c.Some? && Numbers(cfg, s, es, k, c.value) && |c.value.recipientHash| >= 8 && c.value.recipientHash[..8] == prefix
  }

  /** How many messages for such recipients the first `k` steps number. */
  function CountNumbered(cfg: Config, s: RelayState, es: seq<Event>, k: nat, prefix: seq<byte>): nat
    requires k <= |es|
  {
    if k == 0 then 0
    else CountNumbered(cfg, s, es, k - 1, prefix) + if NumbersFor(cfg, s, es, k - 1, prefix) then 1 else 0
  }

  lemma HashKey(c: Chunk)
    requires WellFormed(c) && |c.recipientHash| > 0
    ensures |c.recipientHash| == 32 && PeerID(c.recipientHash) == c.recipientHash[..8]
  {}

  lemma EffectCount(s: StoreState, c: Chunk, commits: bool, t: StoreState, key: seq<byte>)
    requires PutEffect(s, c, commits, t) && Headroom(s, 1) && s.counters.Some? && WellFormed(c)
    ensures Last(Counters(t), key) == Last(Counters(s), key) +
            if c.msgID !in s.messages && |c.recipientHash| > 0 && commits && c.recipientHash[..8] == key then 1 else 0
  {
    if |c.recipientHash| > 0 { HashKey(c); }
  }

  lemma CounterStep(cfg: Config, s: RelayState, es: seq<Event>, k: nat, prefix: seq<byte>)
    requires k < |es| && s.store.counters.Some? && Headroom(s.store, |es|)
    ensures LastAt(cfg, s, es, k + 1, prefix) == LastAt(cfg, s, es, k, prefix) + NumbersNow(cfg, s, es, k, prefix)
  {
    BeforeNext(cfg, s, es, k);
    CounterAttached(cfg, s, es, k);
    HeadroomAt(cfg, s, es, k);
    var st, c := Before(cfg, s, es, k), StoredAt(cfg, s, es, k);
    NextEffect(cfg, st, es[k]);
    if c.Some? {
      EffectCount(st.store, c.value, es[k].commits, Next(cfg, st, es[k]).store, prefix);
    }
  }

  lemma {:induction false} CounterIsCount(cfg: Config, s: RelayState, es: seq<Event>, k: nat, prefix: seq<byte>)
    requires k <= |es| && s.store.counters.Some? && Headroom(s.store, |es|)
    ensures LastAt(cfg, s, es, k, prefix) == Last(Counters(s.store), prefix) + CountNumbered(cfg, s, es, k, prefix)
  {
    if k == 0 {
      CountStarts(cfg, s, es, prefix);
    } else {
      CounterIsCount(cfg, s, es, k - 1, prefix);
      CountStep(cfg, s, es, k - 1, k, prefix);
    }
  }

  lemma CountStarts(cfg: Config, s: RelayState, es: seq<Event>, prefix: seq<byte>)
    ensures LastAt(cfg, s, es, 0, prefix) == Last(Counters(s.store), prefix)
    ensures CountNumbered(cfg, s, es, 0, prefix) == 0
  {
    BeforeFirst(cfg, s, es);
  }

  /** In one step the counter and the count grow by the same. */
  lemma CountStep(cfg: Config, s: RelayState, es: seq<Event>, k: nat, next: nat, prefix: seq<byte>)
    requires k < |es| && next == k + 1 && s.store.counters.Some? && Headroom(s.store, |es|)
    ensures LastAt(cfg, s, es, next, prefix) - LastAt(cfg, s, es, k, prefix)
         == CountNumbered(cfg, s, es, next, prefix) - CountNumbered(cfg, s, es, k, prefix)
  {
    CounterStep(cfg, s, es, k, prefix);
  }

  function NumbersNow(cfg: Config, s: RelayState, es: seq<Event>, k: nat, prefix: seq<byte>): nat
    requires k < |es|
  {
    if NumbersFor(cfg, s, es, k, prefix) then 1 else 0
  }

  lemma BeforeFirst(cfg: Config, s: RelayState, es: seq<Event>)
    ensures Before(cfg, s, es, 0) == s
  {
    assert es[..0] == [];
  }

  /** Over every run, across gc and restarts: the number of a new message is the value that its
      recipient's counter had at the start, plus the messages numbered since then, this one included, for
      recipients with the same first eight bytes of the hash. The others do not count. */
  lemma NumberIsCount(cfg: Config, s: RelayState, es: seq<Event>, k: nat, c: Chunk)
    requires k < |es| && s.store.counters.Some? && Headroom(s.store, |es|) && Numbers(cfg, s, es, k, c)
    ensures |c.recipientHash| == 32
    ensures var prefix := c.recipientHash[..8];
            Number(Before(cfg, s, es, k + 1).store, c.msgID)
            == (if prefix in s.store.counters.value then s.store.counters.value[prefix] else 0)
               + CountNumbered(cfg, s, es, k + 1, prefix)
  {
    NumberHandedOut(cfg, s, es, k, c);
    HashKey(c);
    CounterIsCount(cfg, s, es, k + 1, c.recipientHash[..8]);
  }

  // ----- what a message keeps -----

  /** What is fixed when a message is first stored. */
  datatype Fixed = Fixed(total: uint16, createdAt: int, timestamp: int, sequence: uint64)

  function FixedOf(buf: MessageBuf): Fixed { Fixed(buf.total, buf.createdAt, buf.timestamp, buf.sequence) }

  lemma NextKeepsFixed(cfg: Config, s: RelayState, e: Event, id: MsgId)
    ensures var t := Next(cfg, s, e).store;
            && (id in s.store.messages && id in t.messages ==> FixedOf(t.messages[id]) == FixedOf(s.store.messages[id]))
            && (id in s.store.owner && id in t.owner ==> t.owner[id] == s.store.owner[id])
  {
    var c := Stored(cfg, s, e);
    if c.Some? { PutKeepsFixed(s.store, c.value, e.now, e.commits, id); }
  }

  lemma PutKeepsFixed(s: StoreState, c: Chunk, now: int, commits: bool, id: MsgId)
    ensures var t := PutChunk(s, c, now, commits);
            && (id in s.messages ==> id in t.messages && FixedOf(t.messages[id]) == FixedOf(s.messages[id]))
            && (id in s.owner ==> id in t.owner && t.owner[id] == s.owner[id])
  {}

  ghost predicate StoredThroughout(cfg: Config, s: RelayState, es: seq<Event>, id: MsgId, j: nat, k: nat)
    requires j <= k <= |es|
  {
    forall i: nat | j <= i <= k :: id in Before(cfg, s, es, i).store.messages
  }

  ghost predicate OwnedThroughout(cfg: Config, s: RelayState, es: seq<Event>, id: MsgId, j: nat, k: nat)
    requires j <= k <= |es|
  {
    forall i: nat | j <= i <= k :: id in Before(cfg, s, es, i).store.owner
  }

  /** As long as a message is stored, no later chunk of whatever kind changes its total, times or number;
      and as long as it has an owner, no later chunk changes that. */
  lemma {:induction false} FirstChunkDecides(cfg: Config, s: RelayState, es: seq<Event>, id: MsgId, j: nat, k: nat)
    requires j <= k <= |es|
    ensures StoredThroughout(cfg, s, es, id, j, k) ==>
              FixedOf(Before(cfg, s, es, k).store.messages[id]) == FixedOf(Before(cfg, s, es, j).store.messages[id])
    ensures OwnedThroughout(cfg, s, es, id, j, k) ==>
              Before(cfg, s, es, k).store.owner[id] == Before(cfg, s, es, j).store.owner[id]
    decreases k
  {
    if j < k {
      FirstChunkDecides(cfg, s, es, id, j, k - 1);
      BeforeNext(cfg, s, es, k - 1);
      NextKeepsFixed(cfg, Before(cfg, s, es, k - 1), es[k - 1], id);
      if StoredThroughout(cfg, s, es, id, j, k) { assert StoredThroughout(cfg, s, es, id, j, k - 1); }
      if OwnedThroughout(cfg, s, es, id, j, k) { assert OwnedThroughout(cfg, s, es, id, j, k - 1); }
    }
  }

  // ----- how often one IP changes the store -----

  function Requests(es: seq<Event>): seq<RateLimit.Request> {
    if es == [] then []
    else (if es[0].Request? then [RateLimit.Request(es[0].ip, Seconds(es[0].now))] else []) + Requests(es[1..])
  }

  /** How many requests of `ip` changed the store. */
  function Changes(cfg: Config, s: RelayState, es: seq<Event>, ip: string): nat
    decreases |es|
  {
    if es == [] then 0 else
      (if es[0].Request? && es[0].ip == ip && NextStore(cfg, s, es[0]) != s.store then 1 else 0) +
      Changes(cfg, Next(cfg, s, es[0]), es[1..], ip)
  }

  lemma {:induction false} ChangesAreGranted(cfg: Config, s: RelayState, es: seq<Event>, ip: string)
    requires forall e <- es :: !e.Restart?
    ensures Changes(cfg, s, es, ip) <= Grants(s.limiter, Requests(es), ip)
    decreases |es|
  {
    if es != [] {
      ChangesAreGranted(cfg, Next(cfg, s, es[0]), es[1..], ip);
      ChangeStep(cfg, s, es[0], Requests(es[1..]), ip);
    }
  }

  /** How many of the requests of `ip` are granted. */
  ghost function Grants(l: RateLimit.Limiter, reqs: seq<RateLimit.Request>, ip: string): nat {
    RateLimit.CountTrue(RateLimit.Answers(l, reqs, ip))
  }

  lemma ChangeStep(cfg: Config, s: RelayState, e: Event, rest: seq<RateLimit.Request>, ip: string)
    requires !e.Restart?
    ensures var reqs := (if e.Request? then [RateLimit.Request(e.ip, Seconds(e.now))] else []) + rest;
            Grants(s.limiter, reqs, ip) >=
            (if e.Request? && e.ip == ip && NextStore(cfg, s, e) != s.store then 1 else 0) +
            Grants(Next(cfg, s, e).limiter, rest, ip)
  {
    if e.Request? {
      if NextStore(cfg, s, e) != s.store { ChangeNeedsGrant(cfg, s, e); }
      AnswersStep(s.limiter, e.ip, Seconds(e.now), rest, ip);
    } else {
      assert [] + rest == rest;
    }
  }

  lemma ChangeNeedsGrant(cfg: Config, s: RelayState, e: Event)
    requires e.Request? && NextStore(cfg, s, e) != s.store
    ensures RateLimit.Allows(s.limiter, e.ip, Seconds(e.now))
  {}

  lemma AnswersStep(l: RateLimit.Limiter, from: string, now: real, rest: seq<RateLimit.Request>, ip: string)
    ensures RateLimit.CountTrue(RateLimit.Answers(l, [RateLimit.Request(from, now)] + rest, ip)) ==
            (if from == ip && RateLimit.Allows(l, ip, now) then 1 else 0) +
            RateLimit.CountTrue(RateLimit.Answers(RateLimit.AfterRequest(l, from, now), rest, ip))
  {
    var reqs, later := [RateLimit.Request(from, now)] + rest, RateLimit.Answers(RateLimit.AfterRequest(l, from, now), rest, ip);
    assert reqs[1..] == rest;
    if from == ip {
      assert ([RateLimit.Allows(l, ip, now)] + later)[1..] == later;
    } else {
      assert RateLimit.Answers(l, reqs, ip) == later;
    }
  }

  ghost predicate InTime(es: seq<Event>) {
    forall i, j | 0 <= i < j < |es| :: es[i].now <= es[j].now
  }

  lemma SecondsMonotone(x: int, y: int)
    requires x <= y
    ensures Seconds(x) <= Seconds(y)
  {}

  lemma {:induction false} RequestsOrdered(es: seq<Event>)
    requires InTime(es)
    ensures RateLimit.Ordered(Requests(es))
    ensures forall r <- Requests(es) :: es != [] && Seconds(es[0].now) <= r.now
  {
    if es != [] {
      var rest := es[1..];
      RequestsOrdered(rest);
      if rest != [] { SecondsMonotone(es[0].now, rest[0].now); }
      var rs := Requests(rest);
      forall j | 0 <= j < |rs| ensures Seconds(es[0].now) <= rs[j].now {
        assert rs[j] in rs;
      }
    }
  }

  /** Between restarts and with a nondecreasing clock, over any stretch of a run the requests
      of one IP that change the chunk store number at most burst + limit * seconds elapsed. */
  lemma StoreChangeBound(cfg: Config, s: RelayState, es: seq<Event>, ip: string)
    requires es != [] && InTime(es) && forall e <- es :: !e.Restart?
    requires RateLimit.Sound(s.limiter, Seconds(es[0].now))
    requires RateLimit.Times(Requests(es), ip) != []
    ensures var ts := RateLimit.Times(Requests(es), ip);
            Changes(cfg, s, es, ip) as real
            <= s.limiter.burst as real + RateLimit.Inflow(s.limiter.limit as real, ts[0], ts[|ts| - 1])
  {
    ChangesAreGranted(cfg, s, es, ip);
    RequestsOrdered(es);
    GrantsBound(s.limiter, Seconds(es[0].now), Requests(es), ip);
  }

  lemma GrantsBound(l: RateLimit.Limiter, start: real, reqs: seq<RateLimit.Request>, ip: string)
    requires RateLimit.Sound(l, start) && RateLimit.Ordered(reqs) && (forall r <- reqs :: start <= r.now)
    requires RateLimit.Times(reqs, ip) != []
    ensures var ts := RateLimit.Times(reqs, ip);
            Grants(l, reqs, ip) as real <= l.burst as real + RateLimit.Inflow(l.limit as real, ts[0], ts[|ts| - 1])
  {
    assert reqs != [] ==> reqs[0] in reqs;
    RateLimit.IpBound(l, start, reqs, ip);
  }

  ghost predicate LimiterSound(cfg: Config, s: RelayState, now: int) {
    s.limiter.limit == cfg.limit && s.limiter.burst == cfg.burst && RateLimit.Sound(s.limiter, Seconds(now))
  }

  lemma SoundNext(cfg: Config, s: RelayState, e: Event, later: int)
    requires LimiterSound(cfg, s, e.now) && e.now <= later
    ensures LimiterSound(cfg, Next(cfg, s, e), later)
  {
    SecondsMonotone(e.now, later);
    if e.Request? {
      RateLimit.SoundAfterRequest(s.limiter, e.ip, Seconds(e.now), Seconds(e.now));
    }
  }

  lemma {:induction false} RunSound(cfg: Config, s: RelayState, es: seq<Event>, k: nat)
    requires k < |es| && InTime(es) && LimiterSound(cfg, s, es[0].now)
    ensures LimiterSound(cfg, Before(cfg, s, es, k), es[k].now)
  {
    if k > 0 {
      RunSound(cfg, s, es, k - 1);
      BeforeNext(cfg, s, es, k - 1);
      SoundNext(cfg, Before(cfg, s, es, k - 1), es[k - 1], es[k].now);
    }
  }

  /** When `ip` asks, in nanoseconds. */
  function AskTimes(es: seq<Event>, ip: string): seq<int> {
    if es == [] then []
    else (if es[0].Request? && es[0].ip == ip then [es[0].now] else []) + AskTimes(es[1..], ip)
  }

  lemma TimesHead(r: RateLimit.Request, rest: seq<RateLimit.Request>, ip: string)
    ensures RateLimit.Times([r] + rest, ip) == (if r.ip == ip then [r.now] else []) + RateLimit.Times(rest, ip)
  {
    assert ([r] + rest)[1..] == rest;
  }

  lemma InSecondsStep(x: seq<int>, xs: seq<real>, y: seq<int>, ys: seq<real>)
    requires InSeconds(x, xs) && InSeconds(y, ys)
    ensures InSeconds(x + y, xs + ys)
  {}

  ghost predicate InSeconds(ts: seq<int>, seconds: seq<real>) {
    |ts| == |seconds| && forall i | 0 <= i < |ts| :: seconds[i] == Seconds(ts[i])
  }

  lemma {:induction false} AskTimesInSeconds(es: seq<Event>, ip: string)
    ensures InSeconds(AskTimes(es, ip), RateLimit.Times(Requests(es), ip))
  {
    if es != [] {
      var e, rest := es[0], es[1..];
      AskTimesInSeconds(rest, ip);
      if e.Request? {
        TimesHead(RateLimit.Request(e.ip, Seconds(e.now)), Requests(rest), ip);
        if e.ip == ip {
          InSecondsStep([e.now], [Seconds(e.now)], AskTimes(rest, ip), RateLimit.Times(Requests(rest), ip));
        } else {
          assert [] + AskTimes(rest, ip) == AskTimes(rest, ip);
        }
      } else {
        assert Requests(es) == Requests(rest) && AskTimes(es, ip) == AskTimes(rest, ip);
      }
    }
  }

  lemma InNanoseconds(count: int, burst: int, limit: int, first: int, last: int)
    ensures count as real <= burst as real + (Seconds(last) - Seconds(first)) * limit as real
       <==> count * 1_000_000_000 <= burst * 1_000_000_000 + limit * (last - first)
  {
    var d, r := (last - first) as real, 1_000_000_000.0;
    assert Seconds(last) - Seconds(first) == d / r;
    assert d / r * limit as real * r == d * limit as real;
    assert d * limit as real == (limit * (last - first)) as real;
  }

  /** At most burst + limit per second, from the first time to the last. */
  predicate WithinRate(cfg: Config, count: nat, ts: seq<int>)
    requires ts != []
  {
    count * 1_000_000_000 <= cfg.burst * 1_000_000_000 + cfg.limit * (ts[|ts| - 1] - ts[0])
  }

  lemma WithinRateIs(cfg: Config, count: nat, ts: seq<int>, seconds: seq<real>)
    requires |ts| > 0 && InSeconds(ts, seconds)
    requires count as real <= cfg.burst as real + RateLimit.Inflow(cfg.limit as real, seconds[0], seconds[|seconds| - 1])
    ensures WithinRate(cfg, count, ts)
  {
    InNanoseconds(count, cfg.burst, cfg.limit, ts[0], ts[|ts| - 1]);
  }

  lemma GrantsWithinRate(cfg: Config, l: RateLimit.Limiter, start: real, reqs: seq<RateLimit.Request>, ip: string, ts: seq<int>)
    requires l.limit == cfg.limit && l.burst == cfg.burst && RateLimit.Sound(l, start)
    requires RateLimit.Ordered(reqs) && (forall r <- reqs :: start <= r.now)
    requires |ts| > 0 && InSeconds(ts, RateLimit.Times(reqs, ip))
    ensures WithinRate(cfg, Grants(l, reqs, ip), ts)
  {
    GrantsBound(l, start, reqs, ip);
    WithinRateIs(cfg, Grants(l, reqs, ip), ts, RateLimit.Times(reqs, ip));
  }

  lemma FewerWithinRate(cfg: Config, few: nat, many: nat, ts: seq<int>)
    requires ts != [] && few <= many && WithinRate(cfg, many, ts)
    ensures WithinRate(cfg, few, ts)
  {}

  lemma ChangesWithinRate(cfg: Config, s: RelayState, es: seq<Event>, ip: string)
    requires es != [] && InTime(es) && LimiterSound(cfg, s, es[0].now)
    requires (forall e <- es :: !e.Restart?) && AskTimes(es, ip) != []
    ensures WithinRate(cfg, Changes(cfg, s, es, ip), AskTimes(es, ip))
  {
    AskTimesInSeconds(es, ip);
    RequestsOrdered(es);
    ChangesAreGranted(cfg, s, es, ip);
    GrantsWithinRate(cfg, s.limiter, Seconds(es[0].now), Requests(es), ip, AskTimes(es, ip));
    FewerWithinRate(cfg, Changes(cfg, s, es, ip), Grants(s.limiter, Requests(es), ip), AskTimes(es, ip));
  }

  lemma SliceInTime(es: seq<Event>, i: nat, j: nat)
    requires InTime(es) && i < j <= |es|
    ensures InTime(es[i..j])
  {}

  /** Over any stretch of any run that has no restart inside, the requests of one IP that change the
      chunk store number at most burst + limit per second from its first to its last request there. */
  lemma StretchBound(cfg: Config, s: RelayState, es: seq<Event>, i: nat, j: nat, ip: string)
    requires i < j <= |es| && InTime(es) && LimiterSound(cfg, s, es[0].now)
    requires (forall e <- es[i..j] :: !e.Restart?) && AskTimes(es[i..j], ip) != []
    ensures WithinRate(cfg, Changes(cfg, Before(cfg, s, es, i), es[i..j], ip), AskTimes(es[i..j], ip))
  {
    RunSound(cfg, s, es, i);
    SliceInTime(es, i, j);
    ChangesWithinRate(cfg, Before(cfg, s, es, i), es[i..j], ip);
  }

  // ----- exactly which requests are let through -----

  /** Whether the relay lets the requests of `ip` through, in order. */
  function LetIn(cfg: Config, s: RelayState, es: seq<Event>, ip: string): seq<bool>
    decreases |es|
  {
    if es == [] then []
    else (if es[0].Request? && es[0].ip == ip then [Allowed(s, es[0])] else []) + LetIn(cfg, Next(cfg, s, es[0]), es[1..], ip)
  }

  lemma AnswersHead(l: RateLimit.Limiter, r: RateLimit.Request, rest: seq<RateLimit.Request>, ip: string)
    ensures RateLimit.Answers(l, [r] + rest, ip)
         == (if r.ip == ip then [RateLimit.Allows(l, ip, r.now)] else [])
            + RateLimit.Answers(RateLimit.AfterRequest(l, r.ip, r.now), rest, ip)
  {
    assert ([r] + rest)[1..] == rest;
  }

  lemma LimiterNext(cfg: Config, s: RelayState, e: Event)
    requires !e.Restart?
    ensures Next(cfg, s, e).limiter == if e.Request? then RateLimit.AfterRequest(s.limiter, e.ip, Seconds(e.now)) else s.limiter
  {}

  lemma {:induction false} LetInIsAnswers(cfg: Config, s: RelayState, es: seq<Event>, ip: string)
    requires forall e <- es :: !e.Restart?
    ensures LetIn(cfg, s, es, ip) == RateLimit.Answers(s.limiter, Requests(es), ip)
    decreases |es|
  {
    if es != [] {
      var e, rest := es[0], es[1..];
      LetInIsAnswers(cfg, Next(cfg, s, e), rest, ip);
      LimiterNext(cfg, s, e);
      if e.Request? {
        AnswersHead(s.limiter, RateLimit.Request(e.ip, Seconds(e.now)), Requests(rest), ip);
      } else {
        assert Requests(es) == Requests(rest);
      }
    }
  }

  /** The requests let through from the j-th on and the k-th keep within burst + limit per second. */
  predicate RoomFrom(cfg: Config, letIn: seq<bool>, ts: seq<int>, j: nat, k: nat)
    requires j <= k < |letIn| == |ts|
  {
    (RateLimit.CountTrue(letIn[j..k]) + 1) * 1_000_000_000 <= cfg.burst * 1_000_000_000 + cfg.limit * (ts[k] - ts[j])
  }

  /** After a restart and until the next one, the k-th request of an IP is let through exactly when this
      keeps its rate within the limit over every window from one of its earlier requests, whatever the
      other IPs do. */
  lemma LetInExactly(cfg: Config, s: RelayState, restart: Event, es: seq<Event>, ip: string, k: nat)
    requires restart.Restart? && (forall e <- es :: !e.Restart?) && k < |AskTimes(es, ip)|
    ensures var letIn, ts := LetIn(cfg, Next(cfg, s, restart), es, ip), AskTimes(es, ip);
            |letIn| == |ts| && (letIn[k] <==> forall j: nat | j <= k :: RoomFrom(cfg, letIn, ts, j, k))
  {
    var t, ts := Next(cfg, s, restart), AskTimes(es, ip);
    AskTimesInSeconds(es, ip);
    LetInIsAnswers(cfg, t, es, ip);
    RateLimit.IpGrantedExactly(cfg.limit, cfg.burst, Requests(es), ip, k);
    RoomsAgree(cfg, LetIn(cfg, t, es, ip), RateLimit.Times(Requests(es), ip), ts, k);
  }

  lemma RoomsAgree(cfg: Config, letIn: seq<bool>, seconds: seq<real>, ts: seq<int>, k: nat)
    requires k < |letIn| == |seconds| == |ts| && InSeconds(ts, seconds)
    ensures RateLimit.RoomEverywhere(letIn, seconds, k, cfg.burst, cfg.limit as real)
       <==> forall j: nat | j <= k :: RoomFrom(cfg, letIn, ts, j, k)
  {
    var rate := cfg.limit as real;
    if RateLimit.RoomEverywhere(letIn, seconds, k, cfg.burst, rate) {
      forall j: nat | j <= k ensures RoomFrom(cfg, letIn, ts, j, k) {
        assert RateLimit.Room(letIn, seconds, j, k, cfg.burst, rate);
        RoomAgrees(cfg, letIn, seconds, ts, j, k);
      }
    }
    if forall j: nat | j <= k :: RoomFrom(cfg, letIn, ts, j, k) {
      forall j: nat | j <= k ensures RateLimit.Room(letIn, seconds, j, k, cfg.burst, rate) {
        assert RoomFrom(cfg, letIn, ts, j, k);
        RoomAgrees(cfg, letIn, seconds, ts, j, k);
      }
    }
  }

  lemma RoomAgrees(cfg: Config, letIn: seq<bool>, seconds: seq<real>, ts: seq<int>, j: nat, k: nat)
    requires j <= k < |letIn| == |seconds| == |ts| && seconds[j] == Seconds(ts[j]) && seconds[k] == Seconds(ts[k])
    ensures RateLimit.Room(letIn, seconds, j, k, cfg.burst, cfg.limit as real) <==> RoomFrom(cfg, letIn, ts, j, k)
  {
    InNanoseconds(RateLimit.CountTrue(letIn[j..k]) + 1, cfg.burst, cfg.limit, ts[j], ts[k]);
  }
}
