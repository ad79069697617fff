/**
 The per-address token bucket that evicts stale buckets, proved to answer like one that never evicts, and
 what the never-evicting one promises: a bound on the grants in any window and honest retry times.
 */
module RateLimiter {

  type Address = nat

  /** Times and durations are whole nanoseconds. */
  const MINUTE: int := 60_000_000_000
  const MAX_DURATION: int := 0x7fff_ffff_ffff_ffff

  datatype Bucket = Bucket(tokens: real, updatedAt: int, lastSeen: int)

  datatype Config = Config(ratePerMinute: real, burst: real)

  /** What the constructor demands: it panics on anything else. */
  predicate ValidConfig(c: Config) {
    c.ratePerMinute > 0.0 && c.burst >= 1.0
  }

  function Ceil(r: real): int {
    -((-r).Floor)
  }

  function Nanoseconds(tokens: real, ratePerMinute: real): real
    requires ratePerMinute > 0.0
  {
    tokens / ratePerMinute * (MINUTE as real)
  }

  function DurationForTokens(tokens: real, ratePerMinute: real): int
    requires ratePerMinute > 0.0
  {
    var nanoseconds := Nanoseconds(tokens, ratePerMinute);
    if nanoseconds >= MAX_DURATION as real then MAX_DURATION
    else if nanoseconds <= 1.0 then 1
    else Ceil(nanoseconds)
  }

  function StaleAfter(c: Config): int
    requires ValidConfig(c)
  {
    var d := DurationForTokens(c.burst, c.ratePerMinute);
    if d < MINUTE then MINUTE else d
  }

  /** A full bucket's worth of time fits into a duration. */
  predicate Unsaturated(c: Config)
    requires ValidConfig(c)
  {
    Nanoseconds(c.burst, c.ratePerMinute) < MAX_DURATION as real
  }

  function Min(a: real, b: real): real {
    if a < b then a else b
  }

  /** The tokens a duration brings. */
  function Earned(c: Config, elapsed: int): real {
    elapsed as real / MINUTE as real * c.ratePerMinute
  }

  function Refill(c: Config, b: Bucket, now: int): Bucket {
    if now <= b.updatedAt then b
    else b.(tokens := Min(c.burst, b.tokens + Earned(c, now - b.updatedAt)), updatedAt := now)
  }

  // ---------- The limiter that never evicts ----------

  datatype Answer = Answer(ok: bool, wait: int)

  /** The caller's bucket at the time of the call, before it pays. */
  function Touched(c: Config, buckets: map<Address, Bucket>, ip: Address, now: int): Bucket {
    if ip !in buckets then Bucket(c.burst, now, now)
    else
      var b := Refill(c, buckets[ip], now);
      b.(lastSeen := if now > b.lastSeen then now else b.lastSeen)
  }

  function Pay(c: Config, b: Bucket): (Answer, Bucket)
    requires ValidConfig(c)
  {
    if b.tokens >= 1.0 then (Answer(true, 0), b.(tokens := b.tokens - 1.0))
    else (Answer(false, DurationForTokens(1.0 - b.tokens, c.ratePerMinute)), b)
  }

  function AllowForever(c: Config, buckets: map<Address, Bucket>, ip: Address, now: int): (Answer, map<Address, Bucket>)
    requires ValidConfig(c)
  {
    var (answer, b) := Pay(c, Touched(c, buckets, ip, now));
    (answer, buckets[ip := b])
  }

  /** The tokens `ip` would find at `now`. */
  function Available(c: Config, buckets: map<Address, Bucket>, ip: Address, now: int): real {
    Touched(c, buckets, ip, now).tokens
  }

  /** Buckets hold between nothing and a burst, and were refilled whenever they were seen, never in the future. */
  ghost predicate Sound(c: Config, buckets: map<Address, Bucket>, now: int) {
    forall ip :: ip in buckets ==>
      && 0.0 <= buckets[ip].tokens <= c.burst
      && buckets[ip].updatedAt == buckets[ip].lastSeen <= now
  }

  // ---------- Eviction is invisible ----------

  /** What is missing from the evicting limiter would be a full bucket by now. */
  ghost predicate Agree(c: Config, buckets: map<Address, Bucket>, forever: map<Address, Bucket>, now: int) {
    && buckets.Keys <= forever.Keys
    && (forall ip :: ip in buckets ==> buckets[ip] == forever[ip])
    && (forall ip :: ip in forever && ip !in buckets ==>
          forever[ip].updatedAt < now && forever[ip].tokens + Earned(c, now - forever[ip].updatedAt) >= c.burst)
  }

  lemma EarnedGrows(c: Config, a: int, b: int)
    requires ValidConfig(c) && a <= b
    ensures Earned(c, b) - Earned(c, a) == Earned(c, b - a) >= 0.0
  {
    var m := MINUTE as real;
    var unit := c.ratePerMinute / m;
    assert unit > 0.0;
    assert Earned(c, a) == a as real * unit;
    assert Earned(c, b) == b as real * unit;
    assert Earned(c, b - a) == (b - a) as real * unit;
    assert (b - a) as real * unit >= 0.0;
  }

  /** Waiting for as long as some tokens take earns them. */
  lemma DurationSuffices(c: Config, tokens: real, elapsed: int)
    requires ValidConfig(c) && Nanoseconds(tokens, c.ratePerMinute) < MAX_DURATION as real
    requires elapsed >= DurationForTokens(tokens, c.ratePerMinute)
    ensures Earned(c, elapsed) >= tokens
  {
    var m := MINUTE as real;
    var q := tokens / c.ratePerMinute;
    var nanoseconds := q * m;
    assert elapsed as real >= nanoseconds;
    var minutes := elapsed as real / m;
    assert minutes * m == elapsed as real;
    assert minutes >= q;
    assert q * c.ratePerMinute == tokens;
    MulOrder(q, minutes, c.ratePerMinute);
  }

  /** And no shorter wait of at least a nanosecond does. */
  lemma DurationIsLeast(c: Config, tokens: real, elapsed: int)
    requires ValidConfig(c) && Nanoseconds(tokens, c.ratePerMinute) < MAX_DURATION as real
    requires 1 <= elapsed < DurationForTokens(tokens, c.ratePerMinute)
    ensures Earned(c, elapsed) < tokens
  {
    var m := MINUTE as real;
    var q := tokens / c.ratePerMinute;
    assert elapsed as real < q * m;
    var minutes := elapsed as real / m;
    assert minutes * m == elapsed as real;
    assert minutes < q;
    assert q * c.ratePerMinute == tokens;
    MulStrict(minutes, q, c.ratePerMinute);
  }

  /** Every wait is a positive duration that fits, and waits too long to fit become the longest one. */
  lemma DurationFits(tokens: real, ratePerMinute: real)
    requires ratePerMinute > 0.0
    ensures 1 <= DurationForTokens(tokens, ratePerMinute) <= MAX_DURATION
    ensures Nanoseconds(tokens, ratePerMinute) >= MAX_DURATION as real ==> DurationForTokens(tokens, ratePerMinute) == MAX_DURATION
  {
    hide Nanoseconds;
  }

  /** A clock that goes back earns nothing, and no time of a bucket goes back with it. */
  lemma ClockBack(c: Config, buckets: map<Address, Bucket>, ip: Address, now: int)
    requires ip in buckets
    ensures var b := buckets[ip];
      var t := Touched(c, buckets, ip, now);
      && t.updatedAt >= b.updatedAt && t.lastSeen >= b.lastSeen && t.lastSeen >= now
      && (now <= b.updatedAt ==> t.tokens == b.tokens && t.updatedAt == b.updatedAt)
      && (now <= b.lastSeen ==> t.lastSeen == b.lastSeen)
  {
  }

  lemma MulStrict(a: real, b: real, k: real)
    requires a < b && k > 0.0
    ensures a * k < b * k
  {
    assert (b - a) * k > 0.0;
  }

  /** A bucket is stale after a minute, or after the least time that fills it if that is longer. */
  lemma StaleWhenFull(c: Config)
    requires ValidConfig(c) && Unsaturated(c)
    ensures StaleAfter(c) >= MINUTE && Earned(c, StaleAfter(c)) >= c.burst
    ensures StaleAfter(c) > MINUTE ==> Earned(c, StaleAfter(c) - 1) < c.burst
  {
    DurationSuffices(c, c.burst, StaleAfter(c));
    if StaleAfter(c) > MINUTE {
      DurationIsLeast(c, c.burst, StaleAfter(c) - 1);
    }
  }

  lemma MulOrder(a: real, b: real, k: real)
    requires a <= b && k > 0.0
    ensures a * k <= b * k
  {
    assert (b - a) * k >= 0.0;
  }

  predicate Stale(c: Config, b: Bucket, now: int)
    requires ValidConfig(c)
  {
    now >= b.lastSeen + StaleAfter(c)
  }

  ghost function Swept(c: Config, buckets: map<Address, Bucket>, now: int): map<Address, Bucket>
    requires ValidConfig(c)
  {
    map ip | ip in buckets && !Stale(c, buckets[ip], now) :: buckets[ip]
  }

  lemma SweepAgrees(c: Config, buckets: map<Address, Bucket>, forever: map<Address, Bucket>, clock: int, now: int)
    requires ValidConfig(c) && Unsaturated(c) && clock <= now
    requires Agree(c, buckets, forever, clock) && Sound(c, forever, clock)
    ensures Agree(c, buckets, forever, now) && Agree(c, Swept(c, buckets, now), forever, now)
  {
    forall ip | ip in forever && (ip !in buckets || Stale(c, buckets[ip], now))
      ensures forever[ip].updatedAt < now
      ensures forever[ip].tokens + Earned(c, now - forever[ip].updatedAt) >= c.burst
    {
      var b := forever[ip];
      if ip !in buckets {
        EarnedGrows(c, clock - b.updatedAt, now - b.updatedAt);
      } else {
        DurationSuffices(c, c.burst, now - b.updatedAt);
      }
    }
  }

  lemma TouchedAgrees(c: Config, buckets: map<Address, Bucket>, forever: map<Address, Bucket>, ip: Address, now: int)
    requires ValidConfig(c) && Agree(c, buckets, forever, now) && Sound(c, forever, now)
    ensures Touched(c, buckets, ip, now) == Touched(c, forever, ip, now)
  {
  }

  lemma AllowForeverSound(c: Config, buckets: map<Address, Bucket>, clock: int, ip: Address, now: int)
    requires ValidConfig(c) && Sound(c, buckets, clock) && clock <= now
    ensures Sound(c, AllowForever(c, buckets, ip, now).1, now)
  {
    if ip in buckets {
      EarnedGrows(c, 0, now - buckets[ip].updatedAt);
      assert Earned(c, 0) == 0.0;
    }
  }

  /** Whether or not a sweep came first, the evicting limiter answers and ends up like the other. */
  lemma AllowAgrees(c: Config, buckets: map<Address, Bucket>, swept: map<Address, Bucket>, forever: map<Address, Bucket>,
                    clock: int, ip: Address, now: int)
    requires ValidConfig(c) && Unsaturated(c) && clock <= now
    requires Agree(c, buckets, forever, clock) && Sound(c, forever, clock)
    requires swept == buckets || swept == Swept(c, buckets, now)
    ensures Touched(c, swept, ip, now) == Touched(c, forever, ip, now)
    ensures var after := AllowForever(c, forever, ip, now).1;
            Sound(c, after, now) && Agree(c, AllowForever(c, swept, ip, now).1, after, now)
  {
    SweepAgrees(c, buckets, forever, clock, now);
    assert Sound(c, forever, now);
    TouchedAgrees(c, swept, forever, ip, now);
    AllowForeverSound(c, forever, clock, ip, now);
  }

  class IPRateLimiter {
    const config: Config
    var buckets: map<Address, Bucket>
    var lastSweepAt: int
    var sweepInitialized: bool

    // What a limiter that never evicts would hold, the time of the last call, and whether time ever ran backwards.
    ghost var forever: map<Address, Bucket>
    ghost var clock: int
    ghost var steady: bool

    ghost predicate Valid()
      reads this
    {
      && ValidConfig(config)
      && (steady && Unsaturated(config) ==>
            Sound(config, forever, clock) && Agree(config, buckets, forever, clock))
    }

    constructor (ratePerMinute: real, burst: real, ghost now: int)
      requires ratePerMinute > 0.0 && burst >= 1.0
      ensures Valid() && config == Config(ratePerMinute, burst) && buckets == map[] && forever == map[]
      ensures steady && clock == now
    {
      config := Config(ratePerMinute, burst);
      buckets := map[];
      lastSweepAt := 0;
      sweepInitialized := false;
      forever := map[];
      clock := now;
      steady := true;
    }

    method Sweep(now: int)
      requires ValidConfig(config)
      modifies this`buckets, this`lastSweepAt, this`sweepInitialized
      ensures sweepInitialized
      ensures var due := old(sweepInitialized) && now >= old(lastSweepAt) && now - old(lastSweepAt) >= StaleAfter(config);
        && buckets == (if due then Swept(config, old(buckets), now) else old(buckets))
        && lastSweepAt == (if due || !old(sweepInitialized) then now else old(lastSweepAt))
    {
      if !sweepInitialized {
        lastSweepAt := now;
        sweepInitialized := true;
        return;
      }
      var staleAfter := StaleAfter(config);
      if now < lastSweepAt || now - lastSweepAt < staleAfter {
        return;
      }
      var todo := buckets.Keys;
      while todo != {}
        invariant todo <= buckets.Keys && sweepInitialized
        invariant buckets.Keys <= old(buckets.Keys)
        invariant forall ip :: ip in buckets ==> buckets[ip] == old(buckets)[ip]
        invariant forall ip :: ip in buckets && ip !in todo ==> !Stale(config, buckets[ip], now)
        invariant forall ip :: ip in old(buckets) && ip !in buckets ==> Stale(config, old(buckets)[ip], now)
        decreases todo
      {
        var ip :| ip in todo;
        todo := todo - {ip};
        if now >= buckets[ip].lastSeen + staleAfter {
          buckets := buckets - {ip};
        }
      }
      lastSweepAt := now;
    }

    /** The caller's bucket, new or refilled. */
    method Touch(ip: Address, now: int) returns (bucket: Bucket)
      ensures bucket == Touched(config, buckets, ip, now)
    {
      if ip !in buckets {
        bucket := Bucket(config.burst, now, now);
      } else {
        bucket := Refill(config, buckets[ip], now);
        if now > bucket.lastSeen {
          bucket := bucket.(lastSeen := now);
        }
      }
    }

    /** While time runs forward, every answer is the one of the limiter that never evicts. */
    method Allow(ip: Address, now: int) returns (ok: bool, wait: int)
      requires Valid()
      modifies this
      ensures Valid() && clock == now && steady == (old(steady) && old(clock) <= now)
      ensures forever == AllowForever(config, old(forever), ip, now).1
      ensures steady && Unsaturated(config) ==> Answer(ok, wait) == AllowForever(config, old(forever), ip, now).0
    {
      hide Agree, Sound, Swept, Refill, Unsaturated, Touched, DurationForTokens;
      ghost var was := forever;
      ghost var before := buckets;
      ghost var answers := steady && clock <= now && Unsaturated(config);
      Sweep(now);
      if answers {
        AllowAgrees(config, before, buckets, was, clock, ip, now);
      }
      var bucket := Touch(ip, now);
      if bucket.tokens >= 1.0 {
        ok, wait := true, 0;
        bucket := bucket.(tokens := bucket.tokens - 1.0);
      } else {
        ok, wait := false, DurationForTokens(1.0 - bucket.tokens, config.ratePerMinute);
      }
      buckets := buckets[ip := bucket];
      forever := AllowForever(config, was, ip, now).1;
      steady := steady && clock <= now;
      clock := now;
    }
  }

  // ---------- What the answers promise ----------

  datatype Call = Call(ip: Address, now: int)

  function Run(c: Config, buckets: map<Address, Bucket>, calls: seq<Call>): map<Address, Bucket>
    requires ValidConfig(c)
    decreases |calls|
  {
    if calls == [] then buckets
    else Run(c, AllowForever(c, buckets, calls[0].ip, calls[0].now).1, calls[1..])
  }

  /** How often `ip` is let through. */
  function Grants(c: Config, buckets: map<Address, Bucket>, calls: seq<Call>, ip: Address): nat
    requires ValidConfig(c)
    decreases |calls|
  {
    if calls == [] then 0
    else
      var (answer, after) := AllowForever(c, buckets, calls[0].ip, calls[0].now);
      (if calls[0].ip == ip && answer.ok then 1 else 0) + Grants(c, after, calls[1..], ip)
  }

  /** The calls come in order of time, from `clock` on. */
  predicate InOrder(calls: seq<Call>, clock: int) {
    calls == [] || (clock <= calls[0].now && InOrder(calls[1..], calls[0].now))
  }

  predicate Until(calls: seq<Call>, end: int) {
    forall i :: 0 <= i < |calls| ==> calls[i].now <= end
  }

  lemma AvailableBounds(c: Config, buckets: map<Address, Bucket>, clock: int, ip: Address, now: int)
    requires ValidConfig(c) && Sound(c, buckets, clock) && clock <= now
    ensures 0.0 <= Available(c, buckets, ip, now) <= c.burst
  {
    if ip in buckets {
      EarnedGrows(c, 0, now - buckets[ip].updatedAt);
      assert Earned(c, 0) == 0.0;
    }
  }

  /** Between two times the tokens found grow by no more than what the time in between earns. */
  lemma AvailableGrows(c: Config, buckets: map<Address, Bucket>, clock: int, ip: Address, now: int, later: int)
    requires ValidConfig(c) && Sound(c, buckets, clock) && clock <= now <= later
    ensures Available(c, buckets, ip, now) <= Available(c, buckets, ip, later)
    ensures Available(c, buckets, ip, later) <= Available(c, buckets, ip, now) + Earned(c, later - now)
  {
    EarnedGrows(c, 0, later - now);
    assert Earned(c, 0) == 0.0;
    if ip in buckets {
      var u := buckets[ip].updatedAt;
      EarnedGrows(c, now - u, later - u);
      EarnedGrows(c, 0, now - u);
    }
  }

  /** A call costs its caller a token if it is let through, and costs nobody else anything. */
  lemma CallCosts(c: Config, buckets: map<Address, Bucket>, clock: int, call: Call, ip: Address, later: int)
    requires ValidConfig(c) && Sound(c, buckets, clock) && clock <= call.now <= later
    ensures var (answer, after) := AllowForever(c, buckets, call.ip, call.now);
            && (call.ip != ip ==> Available(c, after, ip, later) == Available(c, buckets, ip, later)
                                  || (ip !in buckets && Available(c, after, ip, later) == c.burst))
            && (call.ip == ip ==> Available(c, after, ip, call.now)
                                  == Available(c, buckets, ip, call.now) - (if answer.ok then 1.0 else 0.0))
  {
  }

  /** The grants are paid for by what the caller could find at the start and what the time brings. */
  lemma {:induction false} GrantsArePaid(c: Config, buckets: map<Address, Bucket>, calls: seq<Call>, ip: Address, clock: int, end: int)
    requires ValidConfig(c) && Sound(c, buckets, clock) && InOrder(calls, clock) && Until(calls, end) && clock <= end
    ensures Grants(c, buckets, calls, ip) as real <= Available(c, buckets, ip, clock) + Earned(c, end - clock)
    decreases |calls|
  {
    AvailableBounds(c, buckets, clock, ip, clock);
    EarnedGrows(c, 0, end - clock);
    assert Earned(c, 0) == 0.0;
    if calls != [] {
      var call := calls[0];
      var (answer, after) := AllowForever(c, buckets, call.ip, call.now);
      assert calls[0].now <= end;
      assert Until(calls[1..], end) by {
        assert forall i :: 0 <= i < |calls| - 1 ==> calls[1..][i] == calls[i + 1];
      }
      AllowForeverSound(c, buckets, clock, call.ip, call.now);
      GrantsArePaid(c, after, calls[1..], ip, call.now, end);
      CallCosts(c, buckets, clock, call, ip, call.now);
      AvailableGrows(c, buckets, clock, ip, clock, call.now);
      EarnedGrows(c, call.now - clock, end - clock);
    }
  }

  /** In any window of time no address is let through more often than a burst plus what the window earns. */
  lemma WindowBound(c: Config, buckets: map<Address, Bucket>, calls: seq<Call>, ip: Address, from: int, to: int)
    requires ValidConfig(c) && Sound(c, buckets, from) && InOrder(calls, from) && Until(calls, to) && from <= to
    ensures Grants(c, buckets, calls, ip) as real <= c.burst + Earned(c, to - from)
  {
    GrantsArePaid(c, buckets, calls, ip, from, to);
    AvailableBounds(c, buckets, from, ip, from);
  }

  /** Calls by other addresses leave what `ip` will find alone. */
  lemma {:induction false} OthersDoNotMatter(c: Config, buckets: map<Address, Bucket>, calls: seq<Call>, ip: Address, clock: int, later: int)
    requires ValidConfig(c) && Sound(c, buckets, clock) && InOrder(calls, clock) && Until(calls, later)
    requires ip in buckets && forall i :: 0 <= i < |calls| ==> calls[i].ip != ip
    ensures ip in Run(c, buckets, calls) && Run(c, buckets, calls)[ip] == buckets[ip]
    decreases |calls|
  {
    if calls != [] {
      var after := AllowForever(c, buckets, calls[0].ip, calls[0].now).1;
      assert calls[0].ip != ip && calls[0].now <= later;
      AllowForeverSound(c, buckets, clock, calls[0].ip, calls[0].now);
      assert forall i :: 0 <= i < |calls| - 1 ==> calls[1..][i] == calls[i + 1];
      OthersDoNotMatter(c, after, calls[1..], ip, calls[0].now, later);
    }
  }

  /** An address that was refused and comes back after the wait, having called nothing meanwhile, is let through. */
  lemma RetryIsGranted(c: Config, buckets: map<Address, Bucket>, clock: int, ip: Address, now: int, others: seq<Call>, retry: int)
    requires ValidConfig(c) && Unsaturated(c) && Sound(c, buckets, clock) && clock <= now
    requires var (answer, _) := AllowForever(c, buckets, ip, now); !answer.ok && retry >= now + answer.wait
    requires InOrder(others, now) && Until(others, retry) && forall i :: 0 <= i < |others| ==> others[i].ip != ip
    ensures var after := AllowForever(c, buckets, ip, now).1;
            AllowForever(c, Run(c, after, others), ip, retry).0.ok
  {
    var (answer, after) := AllowForever(c, buckets, ip, now);
    AllowForeverSound(c, buckets, clock, ip, now);
    OthersDoNotMatter(c, after, others, ip, now, retry);
    var b := after[ip];
    AvailableBounds(c, buckets, clock, ip, now);
    var missing := 1.0 - b.tokens;
    MissingIsLess(c, missing);
    DurationSuffices(c, missing, retry - now);
    assert Sound(c, after, now);
    assert b.updatedAt == now || b.updatedAt == clock;
  }

  lemma MissingIsLess(c: Config, missing: real)
    requires ValidConfig(c) && Unsaturated(c) && missing <= 1.0
    ensures Nanoseconds(missing, c.ratePerMinute) < MAX_DURATION as real
  {
    var r := c.ratePerMinute;
    var a := missing / r;
    var b := c.burst / r;
    assert a * r == missing && b * r == c.burst;
    if a > b {
      MulOrder(b, a, r);
    }
    MulOrder(a, b, MINUTE as real);
  }
}
