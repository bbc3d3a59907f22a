/**
 * The rate limiter of gateway/src/auth.rs when clock readings reach it out of order: the reading is taken before the
 * lock (auth.rs:243-244), so a request can be served with an older one than the request before it.
 *
 * In any order at all, grants are bounded by the burst plus what the forward movements of the readings refill. The
 * bound over intervals of time survives no lateness, however small, and neither does the invisibility of eviction.
 */
module RateLimiterLateness {
  import opened RateLimiter
  import opened RateLimiterLimits

  // ---------------------------------------------------------------- a bound for any order

  /** How far the readings of requests `from`, ..., `n - 1` move forward, one to the next; moving back is free. */
  function Forward(requests: seq<Request>, from: nat, n: nat): real
    requires from <= n <= |requests|
    decreases n
  {
    if n <= from + 1 then 0.0
    else Forward(requests, from, n - 1) + Elapsed(requests[n - 1].at, requests[n - 2].at)
  }

  /** How many of the requests `from`, ..., `n - 1` on `key` are granted. */
  function GrantsBetween(config: Config, requests: seq<Request>, evicting: bool, key: string, from: nat, n: nat): nat
    requires from <= n <= |requests|
    decreases n
  {
    if n == from then 0
    else
      GrantsBetween(config, requests, evicting, key, from, n - 1) +
      if requests[n - 1].key == key && Granted(config, requests, evicting, n - 1) then 1 else 0
  }

  /** No bucket is overdrawn, whatever the readings. */
  ghost predicate Solvent(buckets: Buckets) {
    forall key :: key in buckets ==> buckets[key].tokens >= 0.0
  }

  /** Eviction is invisible at the very reading it uses. */
  lemma EvictionKeepsLevel(config: Config, buckets: Buckets, key: string, now: real)
    requires config.perSecond >= 0.001 && Solvent(buckets)
    ensures Level(config, AfterEviction(config, buckets, now), key, now) == Level(config, buckets, key, now)
    ensures Solvent(AfterEviction(config, buckets, now))
  {
    if key in buckets && key !in AfterEviction(config, buckets, now) {
      EvictedIsFull(config, buckets[key], now);
    }
  }

  lemma EvictedIsFull(config: Config, b: Bucket, now: real)
    requires config.perSecond >= 0.001 && b.tokens >= 0.0 && Elapsed(now, b.lastRefill) >= IdleToFull(config)
    ensures b.tokens + Elapsed(now, b.lastRefill) * config.perSecond >= config.capacity as real
  {
    var idle := config.capacity as real / config.perSecond;
    assert idle * config.perSecond == config.capacity as real;
    MulMonotone(idle, Elapsed(now, b.lastRefill), config.perSecond);
  }

  lemma SolventLevel(config: Config, buckets: Buckets, key: string, now: real)
    requires config.perSecond >= 0.0 && Solvent(buckets)
    ensures 0.0 <= Level(config, buckets, key, now) <= config.capacity as real
  {
    if key in buckets {
      MulMonotone(0.0, Elapsed(now, buckets[key].lastRefill), config.perSecond);
    }
  }

  /** A request moves one token from its key's level to its grants, and leaves every other level alone. */
  lemma SpendMoves(config: Config, buckets: Buckets, r: Request, key: string)
    requires config.perSecond >= 0.0 && Solvent(buckets)
    ensures var (granted, after) := Spend(config, buckets, r);
            && Solvent(after)
            && Level(config, after, key, r.at) + (if granted && r.key == key then 1.0 else 0.0)
               == Level(config, buckets, key, r.at)
  {
    SolventLevel(config, buckets, r.key, r.at);
    var after := Spend(config, buckets, r).1;
    if key == r.key {
      RefilledNow(config, after[key]);
    } else {
      SameBucketSameLevel(config, after, buckets, key, r.at);
    }
  }

  lemma RefilledNow(config: Config, b: Bucket)
    ensures b.tokens + Elapsed(b.lastRefill, b.lastRefill) * config.perSecond == b.tokens
  {
  }

  /** Moving on to another reading refills at most for the way it moves forward. */
  lemma LevelMoves(config: Config, buckets: Buckets, key: string, now: real, next: real)
    requires config.perSecond >= 0.0
    ensures Level(config, buckets, key, next)
            <= Level(config, buckets, key, now) + Elapsed(next, now) * config.perSecond
  {
    MulMonotone(0.0, Elapsed(next, now), config.perSecond);
    if key in buckets {
      var last := buckets[key].lastRefill;
      RefillSplits(Elapsed(next, last), Elapsed(now, last), Elapsed(next, now), config.perSecond);
    }
  }

  lemma RefillSplits(whole: real, first: real, second: real, rate: real)
    requires rate >= 0.0 && whole <= first + second
    ensures whole * rate <= first * rate + second * rate
  {
    assert (first + second) * rate == first * rate + second * rate;
    assert whole * rate <= (first + second) * rate;
  }

  /** `count` grants and the present level are covered by the burst and `forward` of refill. */
  ghost predicate Covered(config: Config, count: nat, level: real, forward: real) {
    count as real + level <= Allowance(config, forward)
  }

  lemma CoveredFurther(config: Config, count: nat, level: real, forward: real, next: real, step: real)
    requires Covered(config, count, level, forward) && next <= level + step * config.perSecond
    ensures Covered(config, count, next, forward + step)
  {
    assert (forward + step) * config.perSecond == forward * config.perSecond + step * config.perSecond;
  }

  /** The same, for the level at the next reading. */
  lemma CoveredNext(config: Config, buckets: Buckets, key: string, count: nat, forward: real, now: real, next: real)
    requires config.perSecond >= 0.0 && Covered(config, count, Level(config, buckets, key, now), forward)
    ensures Covered(config, count, Level(config, buckets, key, next), forward + Elapsed(next, now))
  {
    LevelMoves(config, buckets, key, now, next);
    CoveredFurther(config, count, Level(config, buckets, key, now), forward,
                   Level(config, buckets, key, next), Elapsed(next, now));
  }

  /** Fast enough for eviction, or no eviction. */
  predicate Sound(config: Config, evicting: bool) {
    config.perSecond >= if evicting then 0.001 else 0.0
  }

  /** One request, at the level its own reading shows before it. */
  lemma RequestCovered(
    config: Config, buckets: Buckets, r: Request, evicting: bool, key: string, count: nat, forward: real)
    requires Sound(config, evicting) && Solvent(buckets)
    requires Covered(config, count, Level(config, buckets, key, r.at), forward)
    ensures var (granted, after) := if evicting then Acquire(config, buckets, r) else Spend(config, buckets, r);
            && Solvent(after)
            && Covered(config, count + if granted && r.key == key then 1 else 0,
                       Level(config, after, key, r.at), forward)
  {
    if evicting {
      EvictionKeepsLevel(config, buckets, key, r.at);
      SpendMoves(config, AfterEviction(config, buckets, r.at), r, key);
    } else {
      SpendMoves(config, buckets, r, key);
    }
  }

  lemma {:induction false} RunSolvent(config: Config, requests: seq<Request>, evicting: bool)
    requires Sound(config, evicting)
    ensures Solvent(After(config, requests, evicting))
    decreases |requests|
  {
    if requests != [] {
      var n := |requests| - 1;
      RunSolvent(config, requests[..n], evicting);
      var before := After(config, requests[..n], evicting);
      if evicting {
        EvictionKeepsLevel(config, before, "", requests[n].at);
        SpendMoves(config, AfterEviction(config, before, requests[n].at), requests[n], "");
      } else {
        SpendMoves(config, before, requests[n], "");
      }
    }
  }

  lemma CoveredAtFirst(config: Config, buckets: Buckets, key: string, now: real)
    requires config.perSecond >= 0.0 && Solvent(buckets)
    ensures Covered(config, 0, Level(config, buckets, key, now), 0.0)
  {
    SolventLevel(config, buckets, key, now);
  }

  lemma {:induction false} WindowCovered(
    config: Config, requests: seq<Request>, evicting: bool, key: string, from: nat, n: nat)
    requires Sound(config, evicting) && from < n <= |requests|
    ensures Covered(config, GrantsBetween(config, requests, evicting, key, from, n),
                    Level(config, After(config, requests[..n], evicting), key, requests[n - 1].at),
                    Forward(requests, from, n))
    decreases n
  {
    var r, earlier := requests[n - 1], requests[..n - 1];
    var before := After(config, earlier, evicting);
    var count := GrantsBetween(config, requests, evicting, key, from, n - 1);
    assert requests[..n][..n - 1] == earlier;
    RunSolvent(config, earlier, evicting);
    if from == n - 1 {
      CoveredAtFirst(config, before, key, r.at);
    } else {
      WindowCovered(config, requests, evicting, key, from, n - 1);
      CoveredNext(config, before, key, count, Forward(requests, from, n - 1), requests[n - 2].at, r.at);
    }
    RequestCovered(config, before, r, evicting, key, count, Forward(requests, from, n));
  }

  /**
   * Whatever the order of the readings: of any stretch of consecutive requests, a key is granted at most the burst
   * plus the rate times the forward movement of the readings in the stretch.
   */
  lemma ForwardBound(config: Config, requests: seq<Request>, key: string, from: nat, n: nat)
    requires config.perSecond >= 0.001 && from <= n <= |requests|
    ensures GrantsBetween(config, requests, true, key, from, n) as real <= Allowance(config, Forward(requests, from, n))
  {
    if from < n {
      WindowCovered(config, requests, true, key, from, n);
      RunSolvent(config, requests[..n], true);
      SolventLevel(config, After(config, requests[..n], true), key, requests[n - 1].at);
    }
  }

  /** On readings in order the forward movement is the time from the first to the last. */
  lemma {:induction false} ForwardInOrder(requests: seq<Request>, from: nat, n: nat)
    requires InOrder(requests) && from < n <= |requests|
    ensures Forward(requests, from, n) == requests[n - 1].at - requests[from].at
    decreases n
  {
    if from + 1 < n {
      ForwardInOrder(requests, from, n - 1);
      assert requests[n - 2].at <= requests[n - 1].at;
    }
  }

  // ---------------------------------------------------------------- no lateness is small enough

  /** No reading is more than `d` ahead of a later one. */
  ghost predicate LateByAtMost(requests: seq<Request>, d: real) {
    forall i, j :: 0 <= i <= j < |requests| ==> requests[i].at <= requests[j].at + d
  }

  /** Every key, in every interval of every run that is late by at most `d`, stays within its allowance. */
  ghost predicate WithinAllowanceWhenLate(config: Config, d: real) {
    forall requests, key, from: real, to: real :: LateByAtMost(requests, d) && from <= to ==>
      GrantedCount(config, requests, true, key, from, to) as real <= Allowance(config, to - from)
  }

  /** A burst at `d`, then `n` times a reading of 0 and one of `d`. */
  function Seesaw(config: Config, d: real, n: nat): seq<Request> {
    if n == 0 then Burst(d, config.capacity)
    else Seesaw(config, d, n - 1) + [Request("", 0.0)] + [Request("", d)]
  }

  lemma {:induction false} SeesawIsLate(config: Config, d: real, n: nat)
    requires d > 0.0
    ensures forall r :: r in Seesaw(config, d, n) ==> 0.0 <= r.at <= d
    ensures LateByAtMost(Seesaw(config, d, n), d)
    decreases n
  {
    if n == 0 {
      BurstAt(d, config.capacity);
    } else {
      SeesawIsLate(config, d, n - 1);
    }
    var requests := Seesaw(config, d, n);
    forall i, j | 0 <= i <= j < |requests| ensures requests[i].at <= requests[j].at + d {
      assert requests[i] in requests && requests[j] in requests;
    }
  }

  /** The empty key's bucket, alone. */
  function Alone(tokens: real, lastRefill: real): Buckets {
    map["" := Bucket(tokens, lastRefill)]
  }

  /** A request on the empty key where that is the only bucket: nothing to evict, nothing else to keep. */
  lemma OnlyBucket(config: Config, tokens: real, lastRefill: real, at: real, level: real)
    requires level == Level(config, Alone(tokens, lastRefill), "", at)
    ensures Acquire(config, Alone(tokens, lastRefill), Request("", at))
            == (level >= 1.0, Alone(if level >= 1.0 then level - 1.0 else level, at))
  {
    var buckets := Alone(tokens, lastRefill);
    assert |buckets| == 1 && AfterEviction(config, buckets, at) == buckets;
    assert forall b :: buckets["" := b] == map["" := b];
  }

  /** A reading of 0 is refused, and takes the bucket's clock back. */
  lemma BackIsRefused(config: Config, tokens: real, d: real)
    requires config.capacity >= 1 && d > 0.0 && 0.0 <= tokens < 1.0
    ensures Acquire(config, Alone(tokens, d), Request("", 0.0)) == (false, Alone(tokens, 0.0))
  {
    assert Elapsed(0.0, d) == 0.0;
    OnlyBucket(config, tokens, d, 0.0, tokens);
  }

  /** The next reading of `d` refills the same time again. */
  lemma ForthRefills(config: Config, tokens: real, d: real, refill: real)
    requires config.capacity >= 1 && d > 0.0 && 0.0 <= tokens < 1.0 && refill == d * config.perSecond
    ensures var (granted, after) := Acquire(config, Alone(tokens, 0.0), Request("", d));
            && (granted <==> tokens + refill >= 1.0)
            && (!granted ==> after == Alone(tokens + refill, d))
  {
    assert Elapsed(d, 0.0) == d;
    OnlyBucket(config, tokens, 0.0, d, Capped(config, tokens + refill));
  }

  /** `n` refills of `refill` each. */
  function Refills(n: nat, refill: real): real {
    if n == 0 then 0.0 else Refills(n - 1, refill) + refill
  }

  lemma {:induction false} RefillsMultiply(n: nat, refill: real)
    ensures Refills(n, refill) == n as real * refill
  {
    if n > 0 {
      RefillsMultiply(n - 1, refill);
      assert n as real * refill == (n - 1) as real * refill + refill;
    }
  }

  /** `count` has passed the burst, or every seesaw so far has only refilled. */
  ghost predicate Refilling(config: Config, buckets: Buckets, count: nat, n: nat, d: real, refill: real) {
    count > config.capacity
    || (count == config.capacity && 0.0 <= Refills(n, refill) < 1.0 && buckets == Alone(Refills(n, refill), d))
  }

  lemma {:induction false} SeesawRefills(config: Config, d: real, n: nat, refill: real)
    requires config.capacity >= 1 && config.perSecond > 0.0 && d > 0.0 && refill == d * config.perSecond > 0.0
    ensures Refilling(config, After(config, Seesaw(config, d, n), true),
                      GrantedCount(config, Seesaw(config, d, n), true, "", d, d), n, d, refill)
    decreases n
  {
    if n == 0 {
      BurstRun(config, d, config.capacity, true, d, d);
      assert Spent(config, config.capacity, d) == Alone(0.0, d);
    } else {
      SeesawRefills(config, d, n - 1, refill);
      SeesawStep(config, Seesaw(config, d, n - 1), n, d, refill);
    }
  }

  lemma SeesawStep(config: Config, earlier: seq<Request>, n: nat, d: real, refill: real)
    requires config.capacity >= 1 && d > 0.0 && refill == d * config.perSecond > 0.0 && n > 0
    requires Refilling(config, After(config, earlier, true),
                       GrantedCount(config, earlier, true, "", d, d), n - 1, d, refill)
    ensures var requests := earlier + [Request("", 0.0)] + [Request("", d)];
            Refilling(config, After(config, requests, true),
                      GrantedCount(config, requests, true, "", d, d), n, d, refill)
  {
    if GrantedCount(config, earlier, true, "", d, d) == config.capacity {
      RefillsOnce(config, earlier, Refills(n - 1, refill), d, refill);
    } else {
      CountsOn(config, earlier, Request("", 0.0), Request("", d), d);
    }
  }

  lemma CountsOn(config: Config, earlier: seq<Request>, a: Request, b: Request, d: real)
    ensures GrantedCount(config, earlier + [a] + [b], true, "", d, d) >= GrantedCount(config, earlier, true, "", d, d)
  {
    Appended(config, earlier, a, true, "", d, d);
    Appended(config, earlier + [a], b, true, "", d, d);
  }

  lemma RefillsOnce(config: Config, earlier: seq<Request>, tokens: real, d: real, refill: real)
    requires config.capacity >= 1 && d > 0.0 && refill == d * config.perSecond && 0.0 <= tokens < 1.0
    requires After(config, earlier, true) == Alone(tokens, d)
    requires GrantedCount(config, earlier, true, "", d, d) == config.capacity
    ensures var requests := earlier + [Request("", 0.0)] + [Request("", d)];
            if tokens + refill >= 1.0 then GrantedCount(config, requests, true, "", d, d) == config.capacity + 1
            else GrantedCount(config, requests, true, "", d, d) == config.capacity
                 && After(config, requests, true) == Alone(tokens + refill, d)
  {
    BackIsRefused(config, tokens, d);
    Appended(config, earlier, Request("", 0.0), true, "", d, d);
    ForthRefills(config, tokens, d, refill);
    Appended(config, earlier + [Request("", 0.0)], Request("", d), true, "", d, d);
  }

  lemma Enough(x: real) returns (n: nat)
    requires x > 0.0
    ensures n as real * x >= 1.0
  {
    n := (1.0 / x).Floor + 1;
    assert n as real >= 1.0 / x;
    assert (1.0 / x) * x == 1.0;
    MulMonotone(1.0 / x, n as real, x);
  }

  /** However small the lateness and however slow the refill: enough seesaws get a token more than the burst. */
  lemma AnyLatenessExceeds(config: Config, d: real) returns (requests: seq<Request>)
    requires config.capacity >= 1 && config.perSecond > 0.0 && d > 0.0
    ensures LateByAtMost(requests, d)
    ensures GrantedCount(config, requests, true, "", d, d) as real > Allowance(config, d - d)
  {
    var refill := d * config.perSecond;
    assert refill > 0.0;
    var n := Enough(refill);
    requests := Seesaw(config, d, n);
    SeesawIsLate(config, d, n);
    SeesawRefills(config, d, n, refill);
    RefillsMultiply(n, refill);
  }

  lemma InOrderIsNotLate(requests: seq<Request>, d: real)
    requires d >= 0.0
    ensures InOrder(requests) ==> LateByAtMost(requests, d)
    ensures LateByAtMost(requests, 0.0) ==> InOrder(requests)
  {
  }

  /**
   * The bound over intervals holds in all runs late by at most `d` exactly when nothing is granted and none is owed,
   * or the refill is fast enough for eviction and nothing is late at all.
   */
  lemma WithinAllowanceWhenLateIff(config: Config, d: real)
    requires d >= 0.0
    ensures WithinAllowanceWhenLate(config, d)
            <==> (config.capacity == 0 && config.perSecond >= 0.0) || (config.perSecond >= 0.001 && d == 0.0)
  {
    if config.capacity == 0 && config.perSecond >= 0.0 {
      forall requests, key, from: real, to: real | LateByAtMost(requests, d) && from <= to
        ensures GrantedCount(config, requests, true, key, from, to) as real <= Allowance(config, to - from)
      {
        NothingGranted(config, requests, key, from, to);
        AllowanceGrows(config, 0.0, to - from);
      }
    } else if config.perSecond >= 0.001 && d == 0.0 {
      forall requests, key, from: real, to: real | LateByAtMost(requests, d) && from <= to
        ensures GrantedCount(config, requests, true, key, from, to) as real <= Allowance(config, to - from)
      {
        InOrderIsNotLate(requests, d);
        RateBound(config, requests, key, from, to);
      }
    } else if config.perSecond >= 0.001 {
      var requests := AnyLatenessExceeds(config, d);
    } else {
      InOrderExceeds(config, d);
    }
  }

  /** Where not even runs in order are within bounds, late ones are not. */
  lemma InOrderExceeds(config: Config, d: real)
    requires d >= 0.0 && !(config.perSecond >= 0.001 || (config.capacity == 0 && config.perSecond >= 0.0))
    ensures !WithinAllowanceWhenLate(config, d)
  {
    WithinAllowanceIff(config);
    var requests, key, from: real, to: real :| InOrder(requests) && from <= to
      && GrantedCount(config, requests, true, key, from, to) as real > Allowance(config, to - from);
    InOrderIsNotLate(requests, d);
  }

  // ---------------------------------------------------------------- nor for eviction

  ghost predicate EvictionInvisibleWhenLate(config: Config, d: real) {
    forall requests :: LateByAtMost(requests, d) ==> SameDecisions(config, requests)
  }

  /** When a bucket spent at 0 is full again. */
  function FullAt(config: Config): real
    requires config.perSecond > 0.0
  {
    config.capacity as real / config.perSecond
  }

  /** A spent bucket among too many others, a request on another key when all are full, then `n` late ones. */
  function Latecomers(config: Config, late: real, n: nat): seq<Request>
    requires config.perSecond > 0.0
  {
    if n == 0 then Crowd(config.capacity, MAX_BUCKETS) + [Request(Name(1), FullAt(config))]
    else Latecomers(config, late, n - 1) + [Request("", late)]
  }

  lemma {:induction false} LatecomersLate(config: Config, late: real, n: nat)
    requires config.perSecond > 0.0 && 0.0 <= late <= FullAt(config)
    ensures forall r :: r in Latecomers(config, late, n) ==> 0.0 <= r.at <= FullAt(config)
    ensures LateByAtMost(Latecomers(config, late, n), FullAt(config) - late)
    decreases n
  {
    if n == 0 {
      CrowdAt(config.capacity, MAX_BUCKETS);
      assert forall r :: r in Latecomers(config, late, 0) ==> r.at == 0.0 || r == Request(Name(1), FullAt(config));
    } else {
      LatecomersLate(config, late, n - 1);
    }
  }

  /** The request on the other key evicts everything: by its reading, every bucket is full. */
  lemma AllFullEvicted(config: Config, buckets: Buckets)
    requires config.perSecond >= 0.001 && 1 <= config.capacity && Crowded(config, buckets, MAX_BUCKETS)
    ensures var after := Acquire(config, buckets, Request(Name(1), FullAt(config))).1;
            "" !in after && |after| == 1
  {
    assert Name(1) != "";
    assert AfterEviction(config, buckets, FullAt(config)) == map[];
    var b := Acquire(config, buckets, Request(Name(1), FullAt(config))).1[Name(1)];
    assert Acquire(config, buckets, Request(Name(1), FullAt(config))).1 == map[Name(1) := b];
  }

  /** Few buckets, and the empty key has a full one, or `n` of its tokens are spent. */
  ghost predicate SpentAfter(config: Config, buckets: Buckets, late: real, n: nat)
    requires n <= config.capacity
  {
    && |buckets| <= 2
    && if n == 0 then "" !in buckets && |buckets| <= 1
       else "" in buckets && buckets[""] == Bucket((config.capacity - n) as real, late)
  }

  lemma OneMoreLatecomer(config: Config, earlier: seq<Request>, late: real, n: nat)
    requires 1 <= n <= config.capacity && SpentAfter(config, After(config, earlier, true), late, n - 1)
    ensures SpentAfter(config, After(config, earlier + [Request("", late)], true), late, n)
    ensures GrantedCount(config, earlier + [Request("", late)], true, "", late, late)
            == GrantedCount(config, earlier, true, "", late, late) + 1
  {
    FewBuckets(config, After(config, earlier, true), late, (config.capacity - n) as real + 1.0);
    Appended(config, earlier, Request("", late), true, "", late, late);
  }

  lemma NoLatecomers(config: Config, late: real)
    requires config.perSecond >= 0.001 && 1 <= config.capacity && 0.0 < late < FullAt(config)
    ensures SpentAfter(config, After(config, Latecomers(config, late, 0), true), late, 0)
    ensures GrantedCount(config, Latecomers(config, late, 0), true, "", late, late) == 0
  {
    var crowd := Crowd(config.capacity, MAX_BUCKETS);
    NoneGrantedBefore(config, late, true);
    CrowdRun(config, MAX_BUCKETS, true, 0.0);
    AllFullEvicted(config, After(config, crowd, true));
    Appended(config, crowd, Request(Name(1), FullAt(config)), true, "", late, late);
  }

  /** So the evicting limiter grants the latecomers a whole new burst. */
  lemma {:induction false} EvictedLatecomers(config: Config, late: real, n: nat)
    requires config.perSecond >= 0.001 && 1 <= config.capacity && n <= config.capacity && 0.0 < late < FullAt(config)
    ensures SpentAfter(config, After(config, Latecomers(config, late, n), true), late, n)
    ensures GrantedCount(config, Latecomers(config, late, n), true, "", late, late) == n
    decreases n
  {
    if n == 0 {
      NoLatecomers(config, late);
    } else {
      EvictedLatecomers(config, late, n - 1);
      OneMoreLatecomer(config, Latecomers(config, late, n - 1), late, n);
    }
  }

  lemma FewBuckets(config: Config, buckets: Buckets, at: real, level: real)
    requires |buckets| <= 2 && config.capacity >= 1 && 1.0 <= level <= config.capacity as real
    requires if "" in buckets then buckets[""] == Bucket(level, at)
             else level == config.capacity as real && |buckets| <= 1
    ensures var (granted, after) := Acquire(config, buckets, Request("", at));
            granted && |after| <= 2 && "" in after && after[""] == Bucket(level - 1.0, at)
  {
    assert AfterEviction(config, buckets, at) == buckets;
    assert Elapsed(at, at) == 0.0;
    assert Level(config, buckets, "", at) == level;
  }

  /** None of the crowd's requests, all at 0, counts at `late`. */
  lemma NoneGrantedBefore(config: Config, late: real, evicting: bool)
    requires config.perSecond > 0.0 && late > 0.0
    ensures GrantedCount(config, Latecomers(config, late, 0), evicting, "", late, late) == 0
  {
    var crowd := Crowd(config.capacity, MAX_BUCKETS);
    CrowdAt(config.capacity, MAX_BUCKETS);
    NoneAt(config, crowd, evicting, late);
    Appended(config, crowd, Request(Name(1), FullAt(config)), evicting, "", late, late);
    assert Name(1) != "";
  }

  lemma {:induction false} NoneAt(config: Config, requests: seq<Request>, evicting: bool, late: real)
    requires forall r :: r in requests ==> r.at != late
    ensures GrantedCount(config, requests, evicting, "", late, late) == 0
    decreases |requests|
  {
    if requests != [] {
      NoneAt(config, requests[..|requests| - 1], evicting, late);
      assert requests[|requests| - 1] in requests;
    }
  }

  /** Without eviction there is only what refilled by then: grants and level always add up to it. */
  lemma {:induction false} KeptLatecomers(config: Config, late: real, n: nat)
    requires config.perSecond >= 0.001 && 1 <= config.capacity && 0.0 < late < FullAt(config)
    ensures var after := After(config, Latecomers(config, late, n), false);
            && Solvent(after)
            && GrantedCount(config, Latecomers(config, late, n), false, "", late, late) as real
               + Level(config, after, "", late) == late * config.perSecond
    decreases n
  {
    RunSolvent(config, Latecomers(config, late, n), false);
    if n == 0 {
      NoneGrantedBefore(config, late, false);
      CrowdRun(config, MAX_BUCKETS, false, 0.0);
      var crowd := Crowd(config.capacity, MAX_BUCKETS);
      Appended(config, crowd, Request(Name(1), FullAt(config)), false, "", late, late);
      RefilledBy(config, After(config, Latecomers(config, late, 0), false), late);
    } else {
      KeptLatecomers(config, late, n - 1);
      var earlier, r := Latecomers(config, late, n - 1), Request("", late);
      SpendMoves(config, After(config, earlier, false), r, "");
      Appended(config, earlier, r, false, "", late, late);
    }
  }

  lemma NotFullYet(config: Config, late: real)
    requires config.perSecond > 0.0 && 0.0 < late < FullAt(config)
    ensures late * config.perSecond < config.capacity as real
  {
    assert FullAt(config) * config.perSecond == config.capacity as real;
    assert late * config.perSecond < FullAt(config) * config.perSecond;
  }

  lemma RefilledBy(config: Config, buckets: Buckets, late: real)
    requires config.perSecond > 0.0 && 0.0 < late < FullAt(config)
    requires "" in buckets && buckets[""] == Bucket(0.0, 0.0)
    ensures Level(config, buckets, "", late) == late * config.perSecond
  {
    NotFullYet(config, late);
  }

  /** However small the lateness, some run late by no more shows the eviction. */
  lemma AnyLatenessShowsEviction(config: Config, d: real) returns (requests: seq<Request>)
    requires config.perSecond >= 0.001 && 1 <= config.capacity && d > 0.0
    ensures LateByAtMost(requests, d) && !SameDecisions(config, requests)
  {
    var full := FullAt(config);
    assert full * config.perSecond == config.capacity as real;
    assert full > 0.0;
    var late := if d < full then full - d / 2.0 else full / 2.0;
    requests := Latecomers(config, late, config.capacity);
    LatecomersLate(config, late, config.capacity);
    EvictedLatecomers(config, late, config.capacity);
    KeptLatecomers(config, late, config.capacity);
    SolventLevel(config, After(config, requests, false), "", late);
    NotFullYet(config, late);
    if SameDecisions(config, requests) {
      CountSame(config, requests, "", late, late);
      assert false;
    }
  }

  /** Eviction is invisible in all runs late by at most `d` exactly when nothing is granted, or nothing is late. */
  lemma EvictionInvisibleWhenLateIff(config: Config, d: real)
    requires d >= 0.0
    ensures EvictionInvisibleWhenLate(config, d)
            <==> config.capacity == 0 || (config.perSecond >= 0.001 && d == 0.0)
  {
    if config.capacity == 0 {
      forall requests | LateByAtMost(requests, d) ensures SameDecisions(config, requests) {
        forall i: nat | i < |requests|
          ensures Granted(config, requests, true, i) <==> Granted(config, requests, false, i)
        {
          NothingToGrant(config, requests, true, i);
          NothingToGrant(config, requests, false, i);
        }
      }
    } else if config.perSecond < 0.001 {
      var requests := SlowRefillShows(config);
      InOrderIsNotLate(requests, d);
    } else if d == 0.0 {
      forall requests | LateByAtMost(requests, d) ensures SameDecisions(config, requests) {
        InOrderIsNotLate(requests, d);
        EvictionIsInvisible(config, requests);
      }
    } else {
      var requests := AnyLatenessShowsEviction(config, d);
    }
  }
}
