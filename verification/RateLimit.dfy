/** The per-IP token-bucket limiter: lazy refill, and idle buckets evicted inline. */
module RateLimit {
  import opened Wrappers

  const DEFAULT_RPS: real := 20.0
  const DEFAULT_BURST: real := 60.0
  const SWEEP_INTERVAL: real := 60.0
  const IDLE_TTL: real := 600.0

  datatype TokenBucket = TokenBucket(tokens: real, last: real)

  type Buckets = map<string, TokenBucket>

  function Min(a: real, b: real): real {
    if a <= b then a else b
  }

  // ---------- One request ----------

  /** Tokens gained in a time span. */
  function Gain(rate: real, elapsed: real): real {
    elapsed * rate
  }

  /** What a bucket, or the lack of one, makes of a request: the decision and the bucket afterwards. */
  function Take(rate: real, burst: real, bucket: Option<TokenBucket>, now: real): (bool, TokenBucket) {
    match bucket
    case None => (true, TokenBucket(burst - 1.0, now))
    case Some(b) =>
      var tokens := Min(burst, b.tokens + Gain(rate, now - b.last));
      if tokens < 1.0 then (false, TokenBucket(tokens, now)) else (true, TokenBucket(tokens - 1.0, now))
  }

  function Lookup(buckets: Buckets, ip: string): Option<TokenBucket> {
    if ip in buckets then Some(buckets[ip]) else None
  }

  datatype State = State(buckets: Buckets, lastSweep: real)

  predicate SweepDue(s: State, now: real) {
    now - s.lastSweep >= SWEEP_INTERVAL
  }

  /** The state once idle buckets are evicted, if a sweep is due. */
  function Swept(s: State, now: real): State {
    if SweepDue(s, now) then
      State(map ip | ip in s.buckets && !(now - s.buckets[ip].last > IDLE_TTL) :: s.buckets[ip], now)
    else s
  }

  /** The client has a bucket that is not swept now: sweeps come a minute apart and take what was idle for ten. */
  ghost predicate KeepsBucket(s: State, ip: string, now: real) {
    ip in s.buckets && !(now - s.lastSweep >= 60.0 && now - s.buckets[ip].last > 600.0)
  }

  class RateLimiter {
    const rate: real
    const burst: real
    var buckets: Buckets
    var lastSweep: real

    /** Zero settings take the defaults. */
    constructor (requestsPerSecond: real, burst: int)
      ensures this.rate == if requestsPerSecond == 0.0 then 20.0 else requestsPerSecond
      ensures this.burst == if burst == 0 then 60.0 else burst as real
      ensures buckets == map[] && lastSweep == 0.0
    {
      rate := if requestsPerSecond == 0.0 then DEFAULT_RPS else requestsPerSecond;
      this.burst := if burst == 0 then DEFAULT_BURST else burst as real;
      buckets, lastSweep := map[], 0.0;
    }

    function Now(): State
      reads this
    {
      State(buckets, lastSweep)
    }

    method Sweep(now: real)
      modifies this
      ensures Now() == Swept(old(Now()), now)
    {
      if now - lastSweep < SWEEP_INTERVAL { return; }
      lastSweep := now;
      var todo := buckets.Keys;
      while todo != {}
        invariant todo <= old(buckets).Keys && lastSweep == now
        invariant buckets == map ip | ip in old(buckets) && (ip in todo || !(now - old(buckets)[ip].last > IDLE_TTL)) ::
          old(buckets)[ip]
        decreases todo
      {
        var ip :| ip in todo;
        if now - buckets[ip].last > IDLE_TTL { buckets := buckets - {ip}; }
        todo := todo - {ip};
      }
    }

    method Allow(ip: string, now: real) returns (ok: bool)
      modifies this
      ensures ok == Allowed(rate, burst, old(Now()), Request(ip, now))
      ensures Now() == Next(rate, burst, old(Now()), Request(ip, now))
      ensures !KeepsBucket(old(Now()), ip, now) ==> ok && buckets[ip] == TokenBucket(burst - 1.0, now)
      ensures old(KeepsBucket(Now(), ip, now)) ==>
        var refilled := old(buckets)[ip].tokens + rate * (now - old(buckets)[ip].last);
        var held := if refilled <= burst then refilled else burst;
        (ok <==> held >= 1.0) && buckets[ip] == TokenBucket(if ok then held - 1.0 else held, now)
      ensures forall x :: x != ip ==>
        (x in buckets <==> old(KeepsBucket(Now(), x, now))) && (x in buckets ==> buckets[x] == old(buckets)[x])
      ensures lastSweep == if now - old(lastSweep) >= 60.0 then now else old(lastSweep)
    {
      Sweep(now);
      if ip !in buckets {
        buckets := buckets[ip := TokenBucket(burst - 1.0, now)];
        return true;
      }
      var b := buckets[ip];
      var elapsed := now - b.last;
      var tokens := Min(burst, b.tokens + Gain(rate, elapsed));
      buckets := buckets[ip := TokenBucket(tokens, now)];
      if tokens < 1.0 { return false; }
      buckets := buckets[ip := TokenBucket(tokens - 1.0, now)];
      return true;
    }
  }

  // ---------- Runs ----------

  datatype Request = Request(ip: string, time: real)

  function Allowed(rate: real, burst: real, s: State, r: Request): bool {
    Take(rate, burst, Lookup(Swept(s, r.time).buckets, r.ip), r.time).0
  }

  function Next(rate: real, burst: real, s: State, r: Request): State {
    var t := Swept(s, r.time);
    t.(buckets := t.buckets[r.ip := Take(rate, burst, Lookup(t.buckets, r.ip), r.time).1])
  }

  const FRESH: State := State(map[], 0.0)

  /** The limiter after a run of requests. */
  function After(rate: real, burst: real, reqs: seq<Request>): State {
    if reqs == [] then FRESH else Next(rate, burst, After(rate, burst, reqs[..|reqs| - 1]), reqs[|reqs| - 1])
  }

  /** The decision on the last request of a run. */
  function Decision(rate: real, burst: real, reqs: seq<Request>): bool
    requires reqs != []
  {
    Allowed(rate, burst, After(rate, burst, reqs[..|reqs| - 1]), reqs[|reqs| - 1])
  }

  /** One client's bucket when only its own requests are looked at and nothing is ever evicted. */
  function OwnBucket(rate: real, burst: real, reqs: seq<Request>, ip: string): Option<TokenBucket> {
    if reqs == [] then None
    else
      var before, r := OwnBucket(rate, burst, reqs[..|reqs| - 1], ip), reqs[|reqs| - 1];
      if r.ip == ip then Some(Take(rate, burst, before, r.time).1) else before
  }

  /** The decision on the last request by a limiter that keeps one bucket per client for ever. */
  function OwnDecision(rate: real, burst: real, reqs: seq<Request>): bool
    requires reqs != []
  {
    Take(rate, burst, OwnBucket(rate, burst, reqs[..|reqs| - 1], reqs[|reqs| - 1].ip), reqs[|reqs| - 1].time).0
  }

  /** Clock readings never go back. */
  ghost predicate Ordered(reqs: seq<Request>) {
    forall i, j :: 0 <= i < j < |reqs| ==> reqs[i].time <= reqs[j].time
  }

  lemma LastIsLatest(reqs: seq<Request>)
    requires Ordered(reqs) && reqs != []
    ensures var init, r := reqs[..|reqs| - 1], reqs[|reqs| - 1];
      Ordered(init) && r in reqs && forall q :: q in init ==> q.time <= r.time
  {
    forall q | q in reqs[..|reqs| - 1] ensures q.time <= reqs[|reqs| - 1].time {
      var i :| 0 <= i < |reqs| - 1 && reqs[i] == q;
    }
  }

  // ---------- Tokens stay within the bucket ----------

  lemma GainMono(rate: real, a: real, b: real)
    requires a <= b && rate >= 0.0
    ensures Gain(rate, a) <= Gain(rate, b)
    ensures a >= 0.0 ==> Gain(rate, a) >= 0.0
  {
    ProductSign(b - a, rate);
    if a >= 0.0 { ProductSign(a, rate); }
    GainAdd(rate, a, b - a);
  }

  lemma ProductSign(x: real, y: real)
    requires x >= 0.0 && y >= 0.0
    ensures x * y >= 0.0
  {
  }

  lemma GainAdd(rate: real, a: real, b: real)
    ensures Gain(rate, a) + Gain(rate, b) == Gain(rate, a + b)
  {
  }

  ghost predicate Filled(burst: real, bucket: Option<TokenBucket>, now: real) {
    bucket.Some? ==> 0.0 <= bucket.value.tokens <= burst && bucket.value.last <= now
  }

  lemma TakeKeepsFilled(rate: real, burst: real, bucket: Option<TokenBucket>, now: real)
    requires rate > 0.0 && burst >= 1.0 && Filled(burst, bucket, now)
    ensures Filled(burst, Some(Take(rate, burst, bucket, now).1), now)
  {
    if bucket.Some? { GainMono(rate, 0.0, now - bucket.value.last); }
  }

  lemma {:induction false} OwnBucketFilled(rate: real, burst: real, reqs: seq<Request>, ip: string, now: real)
    requires rate > 0.0 && burst >= 1.0 && Ordered(reqs) && forall r :: r in reqs ==> r.time <= now
    ensures Filled(burst, OwnBucket(rate, burst, reqs, ip), now)
  {
    if reqs != [] {
      var init, r := reqs[..|reqs| - 1], reqs[|reqs| - 1];
      LastIsLatest(reqs);
      OwnBucketFilled(rate, burst, init, ip, r.time);
      TakeKeepsFilled(rate, burst, OwnBucket(rate, burst, init, ip), r.time);
    }
  }

  /** Whatever was evicted, every bucket the limiter keeps holds between no tokens and a full burst. */
  lemma {:induction false} TokensInRange(rate: real, burst: real, reqs: seq<Request>, ip: string, now: real)
    requires rate > 0.0 && burst >= 1.0 && Ordered(reqs) && forall r :: r in reqs ==> r.time <= now
    ensures Filled(burst, Lookup(After(rate, burst, reqs).buckets, ip), now)
  {
    if reqs != [] {
      var init, r := reqs[..|reqs| - 1], reqs[|reqs| - 1];
      LastIsLatest(reqs);
      TokensInRange(rate, burst, init, ip, r.time);
      TakeKeepsFilled(rate, burst, Lookup(Swept(After(rate, burst, init), r.time).buckets, ip), r.time);
    }
  }

  // ---------- Eviction is invisible ----------

  /** A client without a bucket has one, in the limiter that never evicts, that has refilled to the brim. */
  ghost predicate Full(rate: real, burst: real, bucket: Option<TokenBucket>, now: real) {
    bucket.Some? ==> bucket.value.tokens + Gain(rate, now - bucket.value.last) >= burst
  }

  /** The limiter's buckets are those that never evicting would keep, less some that are full. */
  ghost predicate Matches(rate: real, burst: real, reqs: seq<Request>, buckets: Buckets, now: real) {
    forall ip ::
      if ip in buckets then OwnBucket(rate, burst, reqs, ip) == Some(buckets[ip])
      else Full(rate, burst, OwnBucket(rate, burst, reqs, ip), now)
  }

  /** A full bucket decides as no bucket does, and leaves what a new one would be. */
  lemma FullIsFresh(rate: real, burst: real, bucket: Option<TokenBucket>, now: real)
    requires burst >= 1.0 && Full(rate, burst, bucket, now)
    ensures Take(rate, burst, bucket, now) == Take(rate, burst, None, now)
  {
  }

  lemma SweepMatches(rate: real, burst: real, reqs: seq<Request>, s: State, before: real, now: real)
    requires rate > 0.0 && 1.0 <= burst <= Gain(rate, IDLE_TTL) && before <= now && Ordered(reqs) &&
      forall r :: r in reqs ==> r.time <= before
    requires Matches(rate, burst, reqs, s.buckets, before)
    ensures Matches(rate, burst, reqs, Swept(s, now).buckets, now)
  {
    forall ip | ip !in Swept(s, now).buckets ensures Full(rate, burst, OwnBucket(rate, burst, reqs, ip), now) {
      var bucket := OwnBucket(rate, burst, reqs, ip);
      OwnBucketFilled(rate, burst, reqs, ip, before);
      if bucket.Some? {
        if ip in s.buckets {
          GainMono(rate, IDLE_TTL, now - bucket.value.last);
        } else {
          GainMono(rate, before - bucket.value.last, now - bucket.value.last);
        }
      }
    }
  }

  lemma {:induction false} RunMatches(rate: real, burst: real, reqs: seq<Request>, now: real)
    requires rate > 0.0 && 1.0 <= burst <= Gain(rate, IDLE_TTL) && Ordered(reqs) &&
      forall r :: r in reqs ==> r.time <= now
    ensures Matches(rate, burst, reqs, After(rate, burst, reqs).buckets, now)
    ensures reqs != [] ==> Decision(rate, burst, reqs) == OwnDecision(rate, burst, reqs)
  {
    if reqs != [] {
      var init, r := reqs[..|reqs| - 1], reqs[|reqs| - 1];
      LastIsLatest(reqs);
      RunMatches(rate, burst, init, r.time);
      var s := After(rate, burst, init);
      SweepMatches(rate, burst, init, s, r.time, r.time);
      if r.ip !in Swept(s, r.time).buckets { FullIsFresh(rate, burst, OwnBucket(rate, burst, init, r.ip), r.time); }
      NextMatches(rate, burst, init, r, Swept(s, r.time).buckets, reqs, now);
    }
  }

  lemma NextMatches(rate: real, burst: real, init: seq<Request>, r: Request, buckets: Buckets, reqs: seq<Request>,
      now: real)
    requires rate > 0.0 && reqs == init + [r] && r.time <= now && Matches(rate, burst, init, buckets, r.time)
    requires Take(rate, burst, Lookup(buckets, r.ip), r.time) ==
      Take(rate, burst, OwnBucket(rate, burst, init, r.ip), r.time)
    ensures Matches(rate, burst, reqs, buckets[r.ip := Take(rate, burst, Lookup(buckets, r.ip), r.time).1], now)
  {
    assert reqs[..|reqs| - 1] == init;
    forall ip | ip != r.ip && ip !in buckets ensures Full(rate, burst, OwnBucket(rate, burst, reqs, ip), now) {
      var b := OwnBucket(rate, burst, init, ip);
      assert Full(rate, burst, b, r.time);
      if b.Some? { GainMono(rate, r.time - b.value.last, now - b.value.last); }
    }
  }

  // ---------- The window bound ----------

  /** How many of a client's requests in [s, e] were admitted. */
  function Admitted(rate: real, burst: real, reqs: seq<Request>, ip: string, s: real, e: real): nat {
    if reqs == [] then 0
    else
      var r := reqs[|reqs| - 1];
      Admitted(rate, burst, reqs[..|reqs| - 1], ip, s, e) +
        if r.ip == ip && s <= r.time <= e && Decision(rate, burst, reqs) then 1 else 0
  }

  function OwnAdmitted(rate: real, burst: real, reqs: seq<Request>, ip: string, s: real, e: real): nat {
    if reqs == [] then 0
    else
      var r := reqs[|reqs| - 1];
      OwnAdmitted(rate, burst, reqs[..|reqs| - 1], ip, s, e) +
        if r.ip == ip && s <= r.time <= e && OwnDecision(rate, burst, reqs) then 1 else 0
  }

  /** Admissions so far in the window are paid for by the first fill and the time since the window began. */
  ghost predicate Paid(rate: real, burst: real, bucket: Option<TokenBucket>, admitted: nat, s: real) {
    admitted == 0 ||
      (bucket.Some? && admitted as real + bucket.value.tokens <= burst + Gain(rate, bucket.value.last - s))
  }

  lemma TakeKeepsPaid(rate: real, burst: real, bucket: Option<TokenBucket>, admitted: nat, s: real, e: real, now: real)
    requires rate > 0.0 && burst >= 1.0 && Filled(burst, bucket, now) && Paid(rate, burst, bucket, admitted, s)
    requires admitted as real <= burst + Gain(rate, e - s)
    ensures var (ok, after) := Take(rate, burst, bucket, now); var more := if s <= now <= e && ok then 1 else 0;
      Paid(rate, burst, Some(after), admitted + more, s) && (admitted + more) as real <= burst + Gain(rate, e - s)
  {
    TakeKeepsFilled(rate, burst, bucket, now);
    if bucket.Some? { GainAdd(rate, bucket.value.last - s, now - bucket.value.last); }
    if s <= now <= e {
      GainMono(rate, 0.0, now - s);
      GainMono(rate, now - s, e - s);
    }
  }

  lemma {:induction false} OwnWindow(rate: real, burst: real, reqs: seq<Request>, ip: string, s: real, e: real)
    requires rate > 0.0 && burst >= 1.0 && Ordered(reqs) && s <= e
    ensures Paid(rate, burst, OwnBucket(rate, burst, reqs, ip), OwnAdmitted(rate, burst, reqs, ip, s, e), s)
    ensures OwnAdmitted(rate, burst, reqs, ip, s, e) as real <= burst + Gain(rate, e - s)
  {
    if reqs == [] {
      GainMono(rate, 0.0, e - s);
    } else {
      var init, r := reqs[..|reqs| - 1], reqs[|reqs| - 1];
      LastIsLatest(reqs);
      OwnWindow(rate, burst, init, ip, s, e);
      OwnBucketFilled(rate, burst, init, ip, r.time);
      if r.ip == ip {
        TakeKeepsPaid(rate, burst, OwnBucket(rate, burst, init, ip), OwnAdmitted(rate, burst, init, ip, s, e), s, e,
          r.time);
      }
    }
  }

  /** Every decision on the run and its prefixes is the one a limiter that never evicts would make. */
  ghost predicate Invisible(rate: real, burst: real, reqs: seq<Request>) {
    forall n :: 0 < n <= |reqs| ==> Decision(rate, burst, reqs[..n]) == OwnDecision(rate, burst, reqs[..n])
  }

  lemma {:induction false} InvisibleCounts(rate: real, burst: real, reqs: seq<Request>, ip: string, s: real, e: real)
    requires Invisible(rate, burst, reqs)
    ensures Admitted(rate, burst, reqs, ip, s, e) == OwnAdmitted(rate, burst, reqs, ip, s, e)
  {
    if reqs != [] {
      var init := reqs[..|reqs| - 1];
      assert reqs[..|reqs|] == reqs;
      forall n | 0 < n <= |init| ensures Decision(rate, burst, init[..n]) == OwnDecision(rate, burst, init[..n]) {
        assert init[..n] == reqs[..n];
      }
      InvisibleCounts(rate, burst, init, ip, s, e);
    }
  }

  lemma RunInvisible(rate: real, burst: real, reqs: seq<Request>)
    requires rate > 0.0 && 1.0 <= burst <= Gain(rate, IDLE_TTL) && Ordered(reqs)
    ensures Invisible(rate, burst, reqs)
  {
    forall n | 0 < n <= |reqs| ensures Decision(rate, burst, reqs[..n]) == OwnDecision(rate, burst, reqs[..n]) {
      var part := reqs[..n];
      forall r | r in part ensures r.time <= part[n - 1].time {
        var i :| 0 <= i < n && part[i] == r;
      }
      RunMatches(rate, burst, part, part[n - 1].time);
    }
  }

  // ---------- Without enough idle time both properties fail ----------

  function Repeat(k: nat, ip: string, t: real): seq<Request> {
    seq(k, _ => Request(ip, t))
  }

  /** The k-th of several requests at one moment, the first of which found no bucket. */
  lemma KthAdmitted(rate: real, n: nat, state: State, k: nat, ip: string, t: real)
    requires 0 < k <= n && state.lastSweep <= t
    requires if k == 1 then ip !in Swept(state, t).buckets
      else Lookup(state.buckets, ip) == Some(TokenBucket((n - (k - 1)) as real, t))
    ensures Allowed(rate, n as real, state, Request(ip, t))
    ensures var next := Next(rate, n as real, state, Request(ip, t));
      next.lastSweep <= t && Lookup(next.buckets, ip) == Some(TokenBucket((n - k) as real, t))
  {
    assert Gain(rate, 0.0) == 0.0;
  }

  /** k requests at time t, from an empty place, have all been admitted on top of base earlier ones. */
  ghost predicate Bursting(rate: real, n: nat, reqs: seq<Request>, k: nat, ip: string, t: real, s: real, e: real,
      base: nat) {
    k <= n && Admitted(rate, n as real, reqs, ip, s, e) == base + k && After(rate, n as real, reqs).lastSweep <= t &&
    if k == 0 then ip !in Swept(After(rate, n as real, reqs), t).buckets
    else Lookup(After(rate, n as real, reqs).buckets, ip) == Some(TokenBucket((n - k) as real, t))
  }

  lemma BurstStep(rate: real, n: nat, reqs: seq<Request>, k: nat, ip: string, t: real, s: real, e: real, base: nat)
    requires s <= t <= e && k < n && Bursting(rate, n, reqs, k, ip, t, s, e, base)
    ensures Bursting(rate, n, reqs + [Request(ip, t)], k + 1, ip, t, s, e, base)
  {
    assert (reqs + [Request(ip, t)])[..|reqs|] == reqs;
    KthAdmitted(rate, n, After(rate, n as real, reqs), k + 1, ip, t);
  }

  /** From an evicted bucket a whole burst is admitted at once. */
  lemma {:induction false} BurstAdmitted(rate: real, n: nat, before: seq<Request>, k: nat, ip: string, t: real, s: real,
      e: real, base: nat)
    requires s <= t <= e && k <= n && Bursting(rate, n, before, 0, ip, t, s, e, base)
    ensures Bursting(rate, n, before + Repeat(k, ip, t), k, ip, t, s, e, base)
  {
    RepeatSteps(before, k, ip, t);
    if k > 0 {
      BurstAdmitted(rate, n, before, k - 1, ip, t, s, e, base);
      BurstStep(rate, n, before + Repeat(k - 1, ip, t), k - 1, ip, t, s, e, base);
    }
  }

  lemma RepeatSteps(before: seq<Request>, k: nat, ip: string, t: real)
    ensures k == 0 ==> before + Repeat(k, ip, t) == before
    ensures k > 0 ==> before + Repeat(k, ip, t) == before + Repeat(k - 1, ip, t) + [Request(ip, t)]
  {
  }

  lemma OrderedBursts(n: nat, ip: string, s: real, e: real)
    requires s <= e
    ensures Ordered([] + Repeat(n, ip, s) + Repeat(n, ip, e))
  {
  }

  /** A pause longer than the idle time in which a bucket still does not refill. */
  lemma IdleGap(rate: real, n: nat) returns (gap: real)
    requires rate > 0.0 && n as real > Gain(rate, IDLE_TTL)
    ensures gap > IDLE_TTL && Gain(rate, gap) < n as real
  {
    var refill := n as real / rate;
    assert Gain(rate, refill) == n as real;
    if refill <= IDLE_TTL { GainMono(rate, refill, IDLE_TTL); }
    gap := (IDLE_TTL + refill) / 2.0;
    StrictGain(rate, gap, refill);
  }

  lemma FirstBurst(rate: real, n: nat, ip: string, s: real, e: real)
    requires 0.0 <= s <= e
    ensures Bursting(rate, n, [], 0, ip, s, s, e, 0)
  {
  }

  /** After a long enough pause the bucket is gone and a new burst can begin. */
  lemma SecondBurst(rate: real, n: nat, reqs: seq<Request>, ip: string, s: real, e: real)
    requires n >= 1 && e - s > IDLE_TTL && Bursting(rate, n, reqs, n, ip, s, s, e, 0)
    ensures Bursting(rate, n, reqs, 0, ip, e, s, e, n)
  {
    assert SweepDue(After(rate, n as real, reqs), e);
  }

  /** Two bursts, apart by more than the idle time but less than a refill: an ordered run that admits too much. */
  lemma TwoBursts(rate: real, n: nat) returns (reqs: seq<Request>, ip: string, s: real, e: real)
    requires rate > 0.0 && n >= 1 && n as real > Gain(rate, IDLE_TTL)
    ensures Ordered(reqs) && s <= e
    ensures !WithinBudget(rate, n as real, reqs, ip, s, e)
  {
    var gap := IdleGap(rate, n);
    ip, s, e := "", 0.0, gap;
    FirstBurst(rate, n, ip, s, e);
    BurstAdmitted(rate, n, [], n, ip, s, s, e, 0);
    SecondBurst(rate, n, [] + Repeat(n, ip, s), ip, s, e);
    BurstAdmitted(rate, n, [] + Repeat(n, ip, s), n, ip, e, s, e, n);
    reqs := [] + Repeat(n, ip, s) + Repeat(n, ip, e);
    OrderedBursts(n, ip, s, e);
  }

  lemma StrictGain(rate: real, a: real, b: real)
    requires rate > 0.0 && a < b
    ensures Gain(rate, a) < Gain(rate, b)
  {
    ProductPositive(b - a, rate);
    GainAdd(rate, a, b - a);
  }

  lemma ProductPositive(x: real, y: real)
    requires x > 0.0 && y > 0.0
    ensures x * y > 0.0
  {
  }

  /** Evicting idle buckets is invisible on every ordered run exactly when a bucket refills within the idle time. */
  lemma EvictionInvisibleIff(rate: real, n: nat)
    requires rate > 0.0 && n >= 1
    ensures (forall reqs :: Ordered(reqs) ==> Invisible(rate, n as real, reqs)) <==> n as real <= Gain(rate, IDLE_TTL)
  {
    if n as real <= Gain(rate, IDLE_TTL) {
      forall reqs | Ordered(reqs) ensures Invisible(rate, n as real, reqs) { RunInvisible(rate, n as real, reqs); }
    } else {
      var reqs, ip, s, e := TwoBursts(rate, n);
      if Invisible(rate, n as real, reqs) {
        InvisibleCounts(rate, n as real, reqs, ip, s, e);
        OwnWindow(rate, n as real, reqs, ip, s, e);
      }
    }
  }

  ghost predicate WindowBounded(rate: real, burst: real, reqs: seq<Request>) {
    forall ip, s, e :: s <= e ==> WithinBudget(rate, burst, reqs, ip, s, e)
  }

  /** At most burst + rate * (e - s) of the client's requests in [s, e] are admitted. */
  ghost predicate WithinBudget(rate: real, burst: real, reqs: seq<Request>, ip: string, s: real, e: real) {
    Admitted(rate, burst, reqs, ip, s, e) as real <= burst + Gain(rate, e - s)
  }

  lemma InvisibleIsBounded(rate: real, burst: real, reqs: seq<Request>)
    requires rate > 0.0 && burst >= 1.0 && Ordered(reqs) && Invisible(rate, burst, reqs)
    ensures WindowBounded(rate, burst, reqs)
  {
    forall ip: string, s: real, e: real {:trigger WithinBudget(rate, burst, reqs, ip, s, e)} | s <= e
      ensures WithinBudget(rate, burst, reqs, ip, s, e)
    {
      InvisibleCounts(rate, burst, reqs, ip, s, e);
      OwnWindow(rate, burst, reqs, ip, s, e);
    }
  }

  /** No window of length T admits more than burst + rate * T of a client's requests, on every ordered run, exactly when
      a bucket refills within the idle time. */
  lemma WindowBoundIff(rate: real, n: nat)
    requires rate > 0.0 && n >= 1
    ensures (forall reqs :: Ordered(reqs) ==> WindowBounded(rate, n as real, reqs)) <==>
      n as real <= Gain(rate, IDLE_TTL)
  {
    if n as real <= Gain(rate, IDLE_TTL) {
      forall reqs | Ordered(reqs) ensures WindowBounded(rate, n as real, reqs) {
        RunInvisible(rate, n as real, reqs);
        InvisibleIsBounded(rate, n as real, reqs);
      }
    } else {
      var reqs, ip, s, e := TwoBursts(rate, n);
      assert !WithinBudget(rate, n as real, reqs, ip, s, e);
    }
  }

  // ---------- No request is denied without need ----------

  /** The bucket accounts for every admission since some moment s, at which it was full. */
  ghost predicate Accounts(rate: real, burst: real, reqs: seq<Request>, ip: string, bucket: TokenBucket, s: real) {
    s <= bucket.last &&
    bucket.tokens + Admitted(rate, burst, reqs, ip, s, bucket.last) as real >= burst + Gain(rate, bucket.last - s)
  }

  ghost predicate Accounted(rate: real, burst: real, reqs: seq<Request>, ip: string, bucket: Option<TokenBucket>) {
    bucket.Some? ==> exists s :: Accounts(rate, burst, reqs, ip, bucket.value, s)
  }

  lemma {:induction false} AdmittedMono(rate: real, burst: real, reqs: seq<Request>, ip: string, s: real, e: real,
      e': real)
    requires e <= e'
    ensures Admitted(rate, burst, reqs, ip, s, e) <= Admitted(rate, burst, reqs, ip, s, e')
  {
    if reqs != [] { AdmittedMono(rate, burst, reqs[..|reqs| - 1], ip, s, e, e'); }
  }

  /** The admissions of a run are those before its last request, and that one if it is admitted in the window. */
  lemma AdmittedNext(rate: real, burst: real, reqs: seq<Request>, r: Request, s: real, e: real)
    requires s <= r.time <= e
    ensures Admitted(rate, burst, reqs + [r], r.ip, s, e) ==
      Admitted(rate, burst, reqs, r.ip, s, e) + if Decision(rate, burst, reqs + [r]) then 1 else 0
  {
    assert (reqs + [r])[..|reqs|] == reqs;
  }

  /** A request that finds a bucket leaves it accounted for, from the same moment on or, if it was full, from now on. */
  /** A bucket that stays below the brim accounts for the same moments as before. */
  lemma RefilledAccounts(rate: real, burst: real, before: TokenBucket, now: real, s: real, admitted: nat, later: nat,
      more: nat, held: real)
    requires s <= before.last <= now && admitted <= later
    requires before.tokens + admitted as real >= burst + Gain(rate, before.last - s)
    requires held == before.tokens + Gain(rate, now - before.last)
    ensures held - more as real + (later + more) as real >= burst + Gain(rate, now - s)
  {
    GainAdd(rate, before.last - s, now - before.last);
    assert Gain(rate, before.last - s) + Gain(rate, now - before.last) == Gain(rate, now - s);
  }

  lemma NoGain(rate: real)
    ensures Gain(rate, 0.0) == 0.0
  {
  }

  lemma TakeAccounts(rate: real, burst: real, init: seq<Request>, r: Request, before: TokenBucket, s: real)
    requires rate > 0.0 && burst >= 1.0 && before.last <= r.time
    requires Lookup(Swept(After(rate, burst, init), r.time).buckets, r.ip) == Some(before)
    requires Accounts(rate, burst, init, r.ip, before, s)
    ensures Accounted(rate, burst, init + [r], r.ip, Some(Take(rate, burst, Some(before), r.time).1))
    ensures !Decision(rate, burst, init + [r]) ==>
      Accounts(rate, burst, init + [r], r.ip, Take(rate, burst, Some(before), r.time).1, s)
  {
    var after := Take(rate, burst, Some(before), r.time).1;
    assert (init + [r])[..|init|] == init;
    if before.tokens + Gain(rate, r.time - before.last) >= burst {
      AdmittedNext(rate, burst, init, r, r.time, r.time);
      NoGain(rate);
      assert Accounts(rate, burst, init + [r], r.ip, after, r.time);
    } else {
      AdmittedMono(rate, burst, init, r.ip, s, before.last, r.time);
      AdmittedNext(rate, burst, init, r, s, r.time);
      RefilledAccounts(rate, burst, before, r.time, s, Admitted(rate, burst, init, r.ip, s, before.last),
        Admitted(rate, burst, init, r.ip, s, r.time), if Decision(rate, burst, init + [r]) then 1 else 0,
        before.tokens + Gain(rate, r.time - before.last));
      assert Accounts(rate, burst, init + [r], r.ip, after, s);
    }
  }

  lemma FreshAccounts(rate: real, burst: real, init: seq<Request>, r: Request)
    requires Lookup(Swept(After(rate, burst, init), r.time).buckets, r.ip) == None
    ensures Decision(rate, burst, init + [r])
    ensures Accounts(rate, burst, init + [r], r.ip, TokenBucket(burst - 1.0, r.time), r.time)
  {
    assert (init + [r])[..|init|] == init;
    AdmittedNext(rate, burst, init, r, r.time, r.time);
    NoGain(rate);
  }

  lemma {:induction false} BucketsAccounted(rate: real, burst: real, reqs: seq<Request>, ip: string)
    requires rate > 0.0 && burst >= 1.0 && Ordered(reqs)
    ensures Accounted(rate, burst, reqs, ip, Lookup(After(rate, burst, reqs).buckets, ip))
  {
    if reqs != [] {
      var init, r := reqs[..|reqs| - 1], reqs[|reqs| - 1];
      assert reqs == init + [r];
      LastIsLatest(reqs);
      BucketsAccounted(rate, burst, init, ip);
      var before := Lookup(Swept(After(rate, burst, init), r.time).buckets, ip);
      TokensInRange(rate, burst, init, ip, r.time);
      if r.ip == ip {
        if before.None? {
          FreshAccounts(rate, burst, init, r);
        } else {
          var s :| Accounts(rate, burst, init, ip, before.value, s);
          TakeAccounts(rate, burst, init, r, before.value, s);
        }
      } else if before.Some? {
        var s :| Accounts(rate, burst, init, ip, before.value, s);
        assert Accounts(rate, burst, reqs, ip, before.value, s);
      }
    }
  }

  /** With one more admission the window from s to now would hold more than burst + rate * its length. */
  ghost predicate Exhausted(rate: real, burst: real, init: seq<Request>, r: Request, s: real) {
    s <= r.time && Admitted(rate, burst, init, r.ip, s, r.time) as real + 1.0 > burst + (r.time - s) * rate
  }

  /** A denied request leaves its client less than a token. */
  lemma DeniedIsDrained(rate: real, burst: real, bucket: TokenBucket, now: real)
    requires !Take(rate, burst, Some(bucket), now).0
    ensures Take(rate, burst, Some(bucket), now).1.tokens < 1.0 && Take(rate, burst, Some(bucket), now).1.last == now
  {
  }

  lemma DrainedIsExhausted(rate: real, burst: real, init: seq<Request>, r: Request, tokens: real, s: real)
    requires s <= r.time && tokens < 1.0
    requires tokens + Admitted(rate, burst, init, r.ip, s, r.time) as real >= burst + Gain(rate, r.time - s)
    ensures Exhausted(rate, burst, init, r, s)
  {
  }

  /** A denied request would have taken some window over the bound. */
  lemma DeniedIsExhausted(rate: real, burst: real, init: seq<Request>, r: Request) returns (s: real)
    requires rate > 0.0 && burst >= 1.0 && Ordered(init + [r]) && !Decision(rate, burst, init + [r])
    ensures Exhausted(rate, burst, init, r, s)
  {
    var before := FoundBucket(rate, burst, init, r);
    s :| Accounts(rate, burst, init, r.ip, before, s);
    TakeAccounts(rate, burst, init, r, before, s);
    DeniedIsDrained(rate, burst, before, r.time);
    AdmittedNext(rate, burst, init, r, s, r.time);
    DrainedIsExhausted(rate, burst, init, r, Take(rate, burst, Some(before), r.time).1.tokens, s);
  }

  lemma {:induction false} LastIsOwn(rate: real, burst: real, reqs: seq<Request>, ip: string) returns (i: nat)
    requires ip in After(rate, burst, reqs).buckets
    ensures i < |reqs| && reqs[i] == Request(ip, After(rate, burst, reqs).buckets[ip].last)
  {
    var init, r := reqs[..|reqs| - 1], reqs[|reqs| - 1];
    if r.ip == ip { i := |reqs| - 1; } else { i := LastIsOwn(rate, burst, init, ip); }
  }

  /** A denied request has found a bucket, which accounts for the admissions before it. */
  lemma FoundBucket(rate: real, burst: real, init: seq<Request>, r: Request) returns (before: TokenBucket)
    requires rate > 0.0 && burst >= 1.0 && Ordered(init + [r]) && !Decision(rate, burst, init + [r])
    ensures Lookup(Swept(After(rate, burst, init), r.time).buckets, r.ip) == Some(before)
    ensures !Take(rate, burst, Some(before), r.time).0 && before.last <= r.time
    ensures Accounted(rate, burst, init, r.ip, Some(before)) && before.tokens >= 0.0
    ensures Request(r.ip, before.last) in init
  {
    var reqs := init + [r];
    assert reqs[..|reqs| - 1] == init;
    LastIsLatest(reqs);
    BucketsAccounted(rate, burst, init, r.ip);
    TokensInRange(rate, burst, init, r.ip, r.time);
    var found := Lookup(Swept(After(rate, burst, init), r.time).buckets, r.ip);
    if found.None? { FreshAccounts(rate, burst, init, r); }
    before := found.value;
    var i := LastIsOwn(rate, burst, init, r.ip);
  }

  /** Where eviction is invisible a request is denied exactly when admitting it would take some window over the bound:
      the limiter is the most permissive one that keeps every window within it. */
  lemma DeniedIff(rate: real, burst: real, init: seq<Request>, r: Request)
    requires rate > 0.0 && 1.0 <= burst <= rate * 600.0 && Ordered(init + [r])
    ensures !Decision(rate, burst, init + [r]) <==> exists s :: Exhausted(rate, burst, init, r, s)
  {
    if !Decision(rate, burst, init + [r]) {
      var s := DeniedIsExhausted(rate, burst, init, r);
    } else {
      forall s ensures !Exhausted(rate, burst, init, r, s) {
        if s <= r.time { AdmittedIsWithin(rate, burst, init, r, s); }
      }
    }
  }

  lemma AdmittedIsWithin(rate: real, burst: real, init: seq<Request>, r: Request, s: real)
    requires rate > 0.0 && 1.0 <= burst <= rate * 600.0 && Ordered(init + [r]) && Decision(rate, burst, init + [r])
    requires s <= r.time
    ensures !Exhausted(rate, burst, init, r, s)
  {
    RunInvisible(rate, burst, init + [r]);
    InvisibleCounts(rate, burst, init + [r], r.ip, s, r.time);
    OwnWindow(rate, burst, init + [r], r.ip, s, r.time);
    AdmittedNext(rate, burst, init, r, s, r.time);
  }

  lemma RefilledIsAdmitted(rate: real, burst: real, bucket: TokenBucket, now: real)
    requires burst >= 1.0 && bucket.tokens >= 0.0 && Gain(rate, now - bucket.last) >= 1.0
    ensures Take(rate, burst, Some(bucket), now).0
  {
  }

  /** A request that comes 1 / rate or more after every earlier one of its client is admitted. */
  lemma SpacedIsAdmitted(rate: real, burst: real, init: seq<Request>, r: Request)
    requires rate > 0.0 && burst >= 1.0 && Ordered(init + [r])
    requires forall q :: q in init && q.ip == r.ip ==> Gain(rate, r.time - q.time) >= 1.0
    ensures Decision(rate, burst, init + [r])
  {
    if !Decision(rate, burst, init + [r]) {
      var before := FoundBucket(rate, burst, init, r);
      var q := Request(r.ip, before.last);
      assert q in init && Gain(rate, r.time - q.time) >= 1.0;
      RefilledIsAdmitted(rate, burst, before, r.time);
    }
  }

  /** The default settings are on the safe side. */
  lemma DefaultsRefillInTime()
    ensures DEFAULT_BURST <= Gain(DEFAULT_RPS, IDLE_TTL)
  {
  }
}
