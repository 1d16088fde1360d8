/** The token bucket and the per-IP limiter of go/internal/ratelimit/ratelimit.go.
    Times are seconds; the float64 token count is a real. */
module RateLimit {
  // ----- one bucket -----

  datatype Bucket = Bucket(rate: real, burst: int, tokens: real, lastCheck: real)

  function NewBucket(rate: int, burst: int, now: real): Bucket {
    Bucket(rate as real, burst, burst as real, now)
  }

  /** Tokens that flow in between two times. */
  function Inflow(rate: real, from: real, to: real): real { (to - from) * rate }

  function Cap(tokens: real, burst: real): real { if tokens > burst then burst else tokens }

  /** The tokens after topping up at `now`. */
  function Refill(b: Bucket, now: real): real {
    Cap(b.tokens + Inflow(b.rate, b.lastCheck, now), b.burst as real)
  }

  predicate Grants(b: Bucket, now: real, n: int) { Refill(b, now) >= n as real }

  function After(b: Bucket, now: real, n: int): Bucket {
    b.(tokens := if Grants(b, now, n) then Refill(b, now) - n as real else Refill(b, now), lastCheck := now)
  }

  class TokenBucket {
    var rate: real
    var burst: int
    var tokens: real
    var lastCheck: real

    function State(): Bucket
      reads this
    {
      Bucket(rate, burst, tokens, lastCheck)
    }

    constructor (rate: int, burst: int, now: real)
      ensures State() == NewBucket(rate, burst, now)
    {
      this.rate, this.burst := rate as real, burst;
      tokens, lastCheck := burst as real, now;
    }

    method AllowN(now: real, n: int) returns (ok: bool)
      modifies this
      ensures ok == Grants(old(State()), now, n)
      ensures State() == After(old(State()), now, n)
      ensures ok <==> n <= burst && n as real <= old(tokens) + (now - old(lastCheck)) * rate
    {
      var elapsed := now - lastCheck;
      lastCheck := now;
      tokens := tokens + elapsed * rate;
      if tokens > burst as real {
        tokens := burst as real;
      }
      assert tokens == Refill(old(State()), now);
      GrantedWhen(old(State()), now, n);
      if tokens >= n as real {
        tokens := tokens - n as real;
        return true;
      }
      return false;
    }

    method Allow(now: real) returns (ok: bool)
      modifies this
      ensures ok == Grants(old(State()), now, 1)
      ensures State() == After(old(State()), now, 1)
    {
      ok := AllowN(now, 1);
    }
  }

  /** A request is granted exactly when it asks for no more than fits and no more than there is, with
      what has flowed in since the last request. */
  lemma GrantedWhen(b: Bucket, now: real, n: int)
    ensures Grants(b, now, n) <==> n <= b.burst && n as real <= b.tokens + (now - b.lastCheck) * b.rate
  {}

  // ----- the rate bound -----

  /** What NewTokenBucket establishes and a nondecreasing clock keeps. */
  predicate InRange(b: Bucket) {
    b.rate >= 0.0 && 0.0 <= b.tokens <= b.burst as real
  }

  predicate Nondecreasing(times: seq<real>) {
    forall i, j | 0 <= i < j < |times| :: times[i] <= times[j]
  }

  predicate StartsAfter(b: Bucket, times: seq<real>) {
    Nondecreasing(times) && (times != [] ==> b.lastCheck <= times[0])
  }

  lemma InflowNonNegative(rate: real, from: real, to: real)
    requires rate >= 0.0 && from <= to
    ensures Inflow(rate, from, to) >= 0.0
  {
    var elapsed := to - from;
    assert elapsed * rate >= 0.0;
  }

  lemma CapInRange(tokens: real, burst: real)
    requires 0.0 <= tokens && 0.0 <= burst
    ensures 0.0 <= Cap(tokens, burst) <= burst
  {}

  /** A request for any number of tokens leaves the bucket between empty and full. */
  lemma StaysInRange(b: Bucket, now: real, n: nat)
    requires InRange(b) && b.lastCheck <= now
    ensures InRange(After(b, now, n)) && 0.0 <= Refill(b, now) <= b.burst as real
  {
    InflowNonNegative(b.rate, b.lastCheck, now);
    CapInRange(b.tokens + Inflow(b.rate, b.lastCheck, now), b.burst as real);
  }

  /** How many of the requests at `times` the bucket grants. */
  function Granted(b: Bucket, times: seq<real>): nat
    decreases |times|
  {
    if times == [] then 0 else
      (if Grants(b, times[0], 1) then 1 else 0) + Granted(After(b, times[0], 1), times[1..])
  }

  lemma NextStartsAfter(b: Bucket, times: seq<real>)
    requires times != [] && StartsAfter(b, times)
    ensures StartsAfter(After(b, times[0], 1), times[1..])
  {}

  lemma InflowAdds(rate: real, x: real, y: real, z: real)
    ensures Inflow(rate, x, y) + Inflow(rate, y, z) == Inflow(rate, x, z)
  {
    assert (y - x) * rate + (z - y) * rate == ((y - x) + (z - y)) * rate;
  }

  lemma RefillBound(b: Bucket, now: real)
    ensures Refill(b, now) <= b.tokens + Inflow(b.rate, b.lastCheck, now)
  {}

  /** Grants never exceed the tokens at the first request and what flows in after it. */
  lemma {:induction false} GrantedBound(b: Bucket, times: seq<real>)
    requires InRange(b) && times != [] && StartsAfter(b, times)
    ensures Granted(b, times) as real <= Refill(b, times[0]) + Inflow(b.rate, times[0], times[|times| - 1])
    decreases |times|
  {
    StaysInRange(b, times[0], 1);
    var b', rest, spent := After(b, times[0], 1), times[1..], if Grants(b, times[0], 1) then 1 else 0;
    assert Granted(b, times) == spent + Granted(b', rest);
    assert b'.tokens == Refill(b, times[0]) - spent as real;
    if rest != [] {
      NextStartsAfter(b, times);
      GrantedBound(b', rest);
      RefillBound(b', rest[0]);
      InflowAdds(b.rate, times[0], rest[0], rest[|rest| - 1]);
    }
  }

  /** Over any stretch of requests, at most burst + rate * elapsed are granted. */
  lemma WindowBound(b: Bucket, times: seq<real>)
    requires InRange(b) && times != [] && StartsAfter(b, times)
    ensures Granted(b, times) as real <= b.burst as real + Inflow(b.rate, times[0], times[|times| - 1])
  {
    StaysInRange(b, times[0], 1);
    GrantedBound(b, times);
  }

  // ----- one bucket per IP -----

  datatype Limiter = Limiter(limit: int, burst: int, buckets: map<string, Bucket>)

  function BucketFor(l: Limiter, ip: string, now: real): Bucket {
    if ip in l.buckets then l.buckets[ip] else NewBucket(l.limit, l.burst, now)
  }

  predicate Allows(l: Limiter, ip: string, now: real) {
    Grants(BucketFor(l, ip, now), now, 1)
  }

  function AfterRequest(l: Limiter, ip: string, now: real): Limiter {
    l.(buckets := l.buckets[ip := After(BucketFor(l, ip, now), now, 1)])
  }

  class IPRateLimiter {
    const limit: int
    const burst: int
    var buckets: map<string, TokenBucket>

    /** Different IPs never share a bucket object. */
    ghost predicate Valid()
      reads this
    {
      forall x, y | x in buckets && y in buckets && x != y :: buckets[x] != buckets[y]
    }

    ghost function State(): Limiter
      reads this, buckets.Values
    {
      Limiter(limit, burst, map ip | ip in buckets :: buckets[ip].State())
    }

    constructor (limit: int, burst: int)
      ensures Valid() && State() == Limiter(limit, burst, map[])
    {
      this.limit, this.burst, buckets := limit, burst, map[];
    }

    method Allow(ip: string, now: real) returns (ok: bool)
      requires Valid()
      modifies this, buckets.Values
      ensures Valid() && fresh(buckets.Values - old(buckets.Values))
      ensures ok == Allows(old(State()), ip, now)
      ensures State() == AfterRequest(old(State()), ip, now)
    {
      if ip !in buckets {
        var bucket := new TokenBucket(limit, burst, now);
        buckets := buckets[ip := bucket];
      }
      ok := buckets[ip].Allow(now);
    }
  }

  /** A known IP is let through exactly when its bucket holds a token after refilling. */
  lemma KnownAllowedWhen(l: Limiter, ip: string, now: real, b: Bucket)
    requires ip in l.buckets && b == l.buckets[ip]
    ensures Allows(l, ip, now) <==> 1 <= b.burst && 1.0 <= b.tokens + (now - b.lastCheck) * b.rate
  {
    GrantedWhen(b, now, 1);
  }

  datatype Request = Request(ip: string, now: real)

  function Times(reqs: seq<Request>, ip: string): seq<real> {
    if reqs == [] then []
    else (if reqs[0].ip == ip then [reqs[0].now] else []) + Times(reqs[1..], ip)
  }

  /** The limiter's answers to the requests of `ip`, in order. */
  function Answers(l: Limiter, reqs: seq<Request>, ip: string): seq<bool>
    decreases |reqs|
  {
    if reqs == [] then []
    else
      (if reqs[0].ip == ip then [Allows(l, ip, reqs[0].now)] else []) +
      Answers(AfterRequest(l, reqs[0].ip, reqs[0].now), reqs[1..], ip)
  }

  /** The answers of a single bucket. */
  function BucketAnswers(b: Bucket, times: seq<real>): seq<bool>
    decreases |times|
  {
    if times == [] then []
    else [Grants(b, times[0], 1)] + BucketAnswers(After(b, times[0], 1), times[1..])
  }

  lemma {:induction false} KnownIpIsolated(l: Limiter, reqs: seq<Request>, ip: string)
    requires ip in l.buckets
    ensures Answers(l, reqs, ip) == BucketAnswers(l.buckets[ip], Times(reqs, ip))
    decreases |reqs|
  {
    if reqs != [] {
      var l' := AfterRequest(l, reqs[0].ip, reqs[0].now);
      KnownIpIsolated(l', reqs[1..], ip);
      var rest := Times(reqs[1..], ip);
      if reqs[0].ip == ip {
        assert Times(reqs, ip)[1..] == rest;
      } else {
        assert Times(reqs, ip) == rest && l'.buckets[ip] == l.buckets[ip];
      }
    }
  }

  /** A full bucket answers the same whenever it was created. */
  lemma CreationTimeIrrelevant(limit: int, burst: int, t: real, times: seq<real>)
    requires limit >= 0 && times != [] && t <= times[0]
    ensures BucketAnswers(NewBucket(limit, burst, t), times) == BucketAnswers(NewBucket(limit, burst, times[0]), times)
  {
    InflowNonNegative(limit as real, t, times[0]);
    assert Refill(NewBucket(limit, burst, t), times[0]) == burst as real;
    assert Refill(NewBucket(limit, burst, times[0]), times[0]) == burst as real;
    assert After(NewBucket(limit, burst, t), times[0], 1) == After(NewBucket(limit, burst, times[0]), times[0], 1);
  }

  lemma {:induction false} NewIpIsolated(l: Limiter, reqs: seq<Request>, ip: string)
    requires ip !in l.buckets && Times(reqs, ip) != []
    ensures Answers(l, reqs, ip) ==
            BucketAnswers(NewBucket(l.limit, l.burst, Times(reqs, ip)[0]), Times(reqs, ip))
    decreases |reqs|
  {
    var l' := AfterRequest(l, reqs[0].ip, reqs[0].now);
    if reqs[0].ip == ip {
      KnownIpIsolated(l', reqs[1..], ip);
      assert Times(reqs, ip)[1..] == Times(reqs[1..], ip);
    } else {
      assert Times(reqs, ip) == Times(reqs[1..], ip);
      NewIpIsolated(l', reqs[1..], ip);
    }
  }

  /** In every interleaved trace the limiter answers one IP exactly as a fresh bucket would
      that sees that IP's requests alone, created at any time before the first. */
  lemma PerIpIsolation(limit: int, burst: int, reqs: seq<Request>, ip: string, t: real)
    requires limit >= 0 && (Times(reqs, ip) != [] ==> t <= Times(reqs, ip)[0])
    ensures Answers(Limiter(limit, burst, map[]), reqs, ip) ==
            BucketAnswers(NewBucket(limit, burst, t), Times(reqs, ip))
  {
    var l := Limiter(limit, burst, map[]);
    if Times(reqs, ip) != [] {
      NewIpIsolated(l, reqs, ip);
      CreationTimeIrrelevant(limit, burst, t, Times(reqs, ip));
    } else {
      NoRequests(l, reqs, ip);
    }
  }

  lemma {:induction false} NoRequests(l: Limiter, reqs: seq<Request>, ip: string)
    requires Times(reqs, ip) == []
    ensures Answers(l, reqs, ip) == []
    decreases |reqs|
  {
    if reqs != [] { NoRequests(AfterRequest(l, reqs[0].ip, reqs[0].now), reqs[1..], ip); }
  }

  // ----- the bound on one IP -----

  function CountTrue(bs: seq<bool>): nat {
    if bs == [] then 0 else (if bs[0] then 1 else 0) + CountTrue(bs[1..])
  }

  lemma {:induction false} CountAnswers(b: Bucket, times: seq<real>)
    ensures CountTrue(BucketAnswers(b, times)) == Granted(b, times)
    decreases |times|
  {
    if times != [] {
      assert BucketAnswers(b, times)[1..] == BucketAnswers(After(b, times[0], 1), times[1..]);
      CountAnswers(After(b, times[0], 1), times[1..]);
    }
  }

  /** Every bucket is a bucket of this limiter, in range, and not ahead of the clock. */
  predicate Sound(l: Limiter, now: real) {
    && l.limit >= 0 && l.burst >= 0
    && forall ip | ip in l.buckets ::
         var b := l.buckets[ip];
         InRange(b) && b.rate == l.limit as real && b.burst == l.burst && b.lastCheck <= now
  }

  lemma SoundAfterRequest(l: Limiter, ip: string, earlier: real, now: real)
    requires Sound(l, earlier) && earlier <= now
    ensures Sound(AfterRequest(l, ip, now), now)
  {
    StaysInRange(BucketFor(l, ip, now), now, 1);
  }

  predicate Ordered(reqs: seq<Request>) {
    forall i, j | 0 <= i < j < |reqs| :: reqs[i].now <= reqs[j].now
  }

  lemma {:induction false} TimesOrdered(reqs: seq<Request>, ip: string)
    requires Ordered(reqs)
    ensures Nondecreasing(Times(reqs, ip))
    ensures forall t <- Times(reqs, ip) :: reqs != [] && reqs[0].now <= t
  {
    if reqs != [] {
      var rest := reqs[1..];
      TimesOrdered(rest, ip);
      assert rest != [] ==> reqs[0].now <= rest[0].now;
      var ts := Times(rest, ip);
      forall j | 0 <= j < |ts| ensures reqs[0].now <= ts[j] {
        assert ts[j] in ts && rest[0].now <= ts[j];
      }
      assert Times(reqs, ip) == if reqs[0].ip == ip then [reqs[0].now] + ts else ts;
    }
  }

  /** From any sound state on, the requests of one IP that are granted number at most
      burst + limit * (the time from its first to its last request). */
  lemma IpBound(l: Limiter, start: real, reqs: seq<Request>, ip: string)
    requires Sound(l, start) && Ordered(reqs) && (reqs != [] ==> start <= reqs[0].now)
    requires Times(reqs, ip) != []
    ensures var ts := Times(reqs, ip);
            CountTrue(Answers(l, reqs, ip)) as real
            <= l.burst as real + Inflow(l.limit as real, ts[0], ts[|ts| - 1])
  {
    var ts := Times(reqs, ip);
    TimesOrdered(reqs, ip);
    var b := BucketFor(l, ip, ts[0]);
    if ip in l.buckets { KnownIpIsolated(l, reqs, ip); } else { NewIpIsolated(l, reqs, ip); }
    assert ts[0] in ts;
    CountAnswers(b, ts);
    WindowBound(b, ts);
  }

  // ----- which requests are granted -----

  lemma {:induction false} AnswersLength(b: Bucket, times: seq<real>)
    ensures |BucketAnswers(b, times)| == |times|
    decreases |times|
  {
    if times != [] { AnswersLength(After(b, times[0], 1), times[1..]); }
  }

  /** Besides `granted` requests one more fits into `tokens` and what flows in during `elapsed`. */
  predicate Fits(granted: nat, tokens: real, elapsed: real, rate: real) {
    granted as real + 1.0 <= tokens + elapsed * rate
  }

  /** Granting request `k` keeps the grants from request `j` on within `burst` and what flows in. */
  predicate Room(answers: seq<bool>, times: seq<real>, j: nat, k: nat, burst: int, rate: real)
    requires j <= k < |answers| == |times|
  {
    Fits(CountTrue(answers[j..k]), burst as real, times[k] - times[j], rate)
  }

  /** Request `k` breaks no window that starts at an earlier request. */
  ghost predicate RoomEverywhere(answers: seq<bool>, times: seq<real>, k: nat, burst: int, rate: real)
    requires k < |answers| == |times|
  {
    forall j: nat | j <= k :: Room(answers, times, j, k, burst, rate)
  }

  lemma CountTrueHead(a: bool, rest: seq<bool>, k: nat)
    requires k <= |rest|
    ensures CountTrue(([a] + rest)[..k + 1]) == (if a then 1 else 0) + CountTrue(rest[..k])
  {
    assert ([a] + rest)[..k + 1][1..] == rest[..k];
  }

  lemma RoomLater(a: bool, rest: seq<bool>, times: seq<real>, j: nat, k: nat, burst: int, rate: real)
    requires j <= k < |rest| == |times| - 1
    ensures Room([a] + rest, times, j + 1, k + 1, burst, rate) <==> Room(rest, times[1..], j, k, burst, rate)
  {
    assert ([a] + rest)[j + 1..k + 1] == rest[j..k];
  }

  /** The windows of a whole sequence are the first one and those of its tail. */
  lemma RoomTail(a: bool, rest: seq<bool>, times: seq<real>, k: nat, burst: int, rate: real)
    requires k < |rest| == |times| - 1
    ensures RoomEverywhere([a] + rest, times, k + 1, burst, rate)
       <==> Room([a] + rest, times, 0, k + 1, burst, rate) && RoomEverywhere(rest, times[1..], k, burst, rate)
  {
    var n := k + 1;
    if Room([a] + rest, times, 0, n, burst, rate) && RoomEverywhere(rest, times[1..], k, burst, rate) {
      forall j: nat | j <= n ensures Room([a] + rest, times, j, n, burst, rate) {
        if j > 0 {
          assert Room(rest, times[1..], j - 1, k, burst, rate);
          RoomLater(a, rest, times, j - 1, k, burst, rate);
        }
      }
    }
    if RoomEverywhere([a] + rest, times, k + 1, burst, rate) {
      forall j: nat | j <= k ensures Room(rest, times[1..], j, k, burst, rate) {
        assert Room([a] + rest, times, j + 1, k + 1, burst, rate);
        RoomLater(a, rest, times, j, k, burst, rate);
      }
    }
  }

  lemma FitsAdds(granted: nat, spent: nat, tokens: real, before: real, after: real, burst: real)
    ensures granted as real + 1.0 <= Cap(tokens + before, burst) - spent as real + after
       <==> ((granted + spent) as real + 1.0 <= tokens + (before + after) && (granted + spent) as real + 1.0 <= burst + after)
  {}

  lemma FitsIs(granted: nat, tokens: real, elapsed: real, rate: real, inflow: real)
    requires inflow == elapsed * rate
    ensures Fits(granted, tokens, elapsed, rate) <==> granted as real + 1.0 <= tokens + inflow
  {}

  lemma LeftAfter(b: Bucket, now: real, inflow: real)
    requires inflow == Inflow(b.rate, b.lastCheck, now)
    ensures After(b, now, 1).tokens == Cap(b.tokens + inflow, b.burst as real) - (if Grants(b, now, 1) then 1.0 else 0.0)
  {}

  /** What a request leaves is enough for later grants exactly when the tokens before it were and a full
      bucket at its time would have been. */
  lemma FitsAfter(b: Bucket, now: real, later: real, granted: nat, spent: nat)
    requires spent == if Grants(b, now, 1) then 1 else 0
    ensures Fits(granted, After(b, now, 1).tokens, later - now, b.rate)
       <==> && Fits(granted + spent, b.tokens, later - b.lastCheck, b.rate)
            && Fits(granted + spent, b.burst as real, later - now, b.rate)
  {
    var before, after := Inflow(b.rate, b.lastCheck, now), Inflow(b.rate, now, later);
    InflowAdds(b.rate, b.lastCheck, now, later);
    LeftAfter(b, now, before);
    FitsAdds(granted, spent, b.tokens, before, after, b.burst as real);
    FitsIs(granted, After(b, now, 1).tokens, later - now, b.rate, after);
    FitsIs(granted + spent, b.tokens, later - b.lastCheck, b.rate, before + after);
    FitsIs(granted + spent, b.burst as real, later - now, b.rate, after);
  }

  lemma FirstRoom(b: Bucket, now: real)
    ensures Grants(b, now, 1) <==> Fits(0, b.tokens, now - b.lastCheck, b.rate) && Fits(0, b.burst as real, now - now, b.rate)
  {
    GrantedWhen(b, now, 1);
  }

  /** The exact rule of one bucket, for any times: request `k` is granted exactly when the grants so far
      leave room for it in the window from the start and in every window from an earlier request. */
  lemma {:induction false} GrantedExactly(b: Bucket, times: seq<real>, k: nat)
    requires k < |times|
    ensures var answers := BucketAnswers(b, times);
            && |answers| == |times|
            && (answers[k] <==> && Fits(CountTrue(answers[..k]), b.tokens, times[k] - b.lastCheck, b.rate)
                                && RoomEverywhere(answers, times, k, b.burst, b.rate))
    decreases |times|
  {
    AnswersLength(b, times);
    var answers, left := BucketAnswers(b, times), After(b, times[0], 1);
    assert answers[0..k] == answers[..k];
    if k == 0 {
      FirstRoom(b, times[0]);
      assert Room(answers, times, 0, 0, b.burst, b.rate) == Fits(0, b.burst as real, times[0] - times[0], b.rate);
    } else {
      var rest := BucketAnswers(left, times[1..]);
      AnswersLength(left, times[1..]);
      GrantedExactly(left, times[1..], k - 1);
      FitsAfter(b, times[0], times[k], CountTrue(rest[..k - 1]), if answers[0] then 1 else 0);
      CountTrueHead(answers[0], rest, k - 1);
      RoomTail(answers[0], rest, times, k - 1, b.burst, b.rate);
    }
  }

  /** The exact rule of a new limiter, for any interleaved trace: the k-th request of an IP is granted
      exactly when, from each of its requests on, the grants and this one number at most
      burst + limit * elapsed. The answers of the others do not enter. */
  lemma IpGrantedExactly(limit: int, burst: int, reqs: seq<Request>, ip: string, k: nat)
    requires k < |Times(reqs, ip)|
    ensures var answers, ts := Answers(Limiter(limit, burst, map[]), reqs, ip), Times(reqs, ip);
            |answers| == |ts| && (answers[k] <==> RoomEverywhere(answers, ts, k, burst, limit as real))
  {
    var ts := Times(reqs, ip);
    NewIpIsolated(Limiter(limit, burst, map[]), reqs, ip);
    FullGrantedExactly(limit, burst, ts, k);
  }

  lemma FullGrantedExactly(limit: int, burst: int, ts: seq<real>, k: nat)
    requires k < |ts|
    ensures var answers := BucketAnswers(NewBucket(limit, burst, ts[0]), ts);
            |answers| == |ts| && (answers[k] <==> RoomEverywhere(answers, ts, k, burst, limit as real))
  {
    GrantedExactly(NewBucket(limit, burst, ts[0]), ts, k);
    var answers := BucketAnswers(NewBucket(limit, burst, ts[0]), ts);
    assert answers[0..k] == answers[..k];
    assert RoomEverywhere(answers, ts, k, burst, limit as real) ==> Room(answers, ts, 0, k, burst, limit as real);
  }
}
