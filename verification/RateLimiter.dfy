/**
 * The gateway's token-bucket rate limiter (gateway/src/auth.rs), with its eviction of idle buckets.
 * Token counts and instants are reals; the program's `f64` rounding is not modelled.
 */
module RateLimiter {

  datatype Bucket = Bucket(tokens: real, lastRefill: real)

  type Buckets = map<string, Bucket>

  datatype Config = Config(capacity: nat, perSecond: real)

  datatype Request = Request(key: string, at: real)

  const MAX_BUCKETS: nat := 10000

  /** `Instant::duration_since` saturates at zero. */
  function Elapsed(now: real, since: real): real {
    if now >= since then now - since else 0.0
  }

  function IdleToFull(config: Config): real {
    var rate := if config.perSecond >= 0.001 then config.perSecond else 0.001;
    config.capacity as real / rate
  }

  function AfterEviction(config: Config, buckets: Buckets, now: real): Buckets {
    if |buckets| > MAX_BUCKETS
    then map key | key in buckets && Elapsed(now, buckets[key].lastRefill) < IdleToFull(config) :: buckets[key]
    else buckets
  }

  function Capped(config: Config, tokens: real): real {
    if tokens <= config.capacity as real then tokens else config.capacity as real
  }

  /** What `key` has to spend at `now`: its refilled bucket, or a full one if it has none. */
  function Level(config: Config, buckets: Buckets, key: string, now: real): real {
    if key in buckets
    then Capped(config, buckets[key].tokens + Elapsed(now, buckets[key].lastRefill) * config.perSecond)
    else config.capacity as real
  }

  /** The bucket's part of `try_acquire`, after eviction. */
  function Spend(config: Config, buckets: Buckets, r: Request): (bool, Buckets) {
    var level := Level(config, buckets, r.key, r.at);
    var granted := level >= 1.0;
    (granted, buckets[r.key := Bucket(if granted then level - 1.0 else level, r.at)])
  }

  function Acquire(config: Config, buckets: Buckets, r: Request): (bool, Buckets) {
    Spend(config, AfterEviction(config, buckets, r.at), r)
  }

  /** Inserting a full bucket first, as `or_insert` does, makes no difference to the level. */
  lemma BucketLevel(config: Config, buckets: Buckets, key: string, now: real, bucket: Bucket)
    requires bucket == if key in buckets then buckets[key] else Bucket(config.capacity as real, now)
    ensures Level(config, buckets, key, now)
            == Capped(config, bucket.tokens + Elapsed(now, bucket.lastRefill) * config.perSecond)
  {
    if key !in buckets {
      assert Elapsed(now, bucket.lastRefill) == 0.0;
    }
  }

  /** What a request finds for a key: the bucket, unless it is one of more than 10000 and idle long enough to fill. */
  predicate Found(config: Config, buckets: Buckets, key: string, now: real) {
    && key in buckets
    && (|buckets| <= 10000 ||
        var idle, rate := if now < buckets[key].lastRefill then 0.0 else now - buckets[key].lastRefill,
                          if config.perSecond < 0.001 then 0.001 else config.perSecond;
        idle < config.capacity as real / rate)
  }

  /** A request leaves every other key as it finds it. */
  lemma OthersKept(config: Config, buckets: Buckets, r: Request, key: string)
    requires key != r.key
    ensures var after := Acquire(config, buckets, r).1;
            && (key in after <==> Found(config, buckets, key, r.at)) && (key in after ==> after[key] == buckets[key])
  {
  }

  /** It is granted exactly when the refilled bucket, never over its capacity, has a token, and then takes one. */
  lemma GrantedIff(config: Config, buckets: Buckets, r: Request)
    ensures var full := config.capacity as real;
            var b := if Found(config, buckets, r.key, r.at) then buckets[r.key] else Bucket(full, r.at);
            var elapsed := if r.at < b.lastRefill then 0.0 else r.at - b.lastRefill;
            var refilled := b.tokens + elapsed * config.perSecond;
            var level := if refilled < full then refilled else full;
            var (granted, after) := Acquire(config, buckets, r);
            && (granted <==> level >= 1.0)
            && r.key in after && after[r.key] == Bucket(if granted then level - 1.0 else level, r.at)
  {
    var kept := AfterEviction(config, buckets, r.at);
    assert r.key in kept <==> Found(config, buckets, r.key, r.at);
    var b := if r.key in kept then kept[r.key] else Bucket(config.capacity as real, r.at);
    BucketLevel(config, kept, r.key, r.at, b);
  }

  class Limiter {
    const config: Config
    var buckets: Buckets

    constructor (capacity: nat, perSecond: real)
      ensures config == Config(capacity, perSecond) && buckets == map[]
    {
      config, buckets := Config(capacity, perSecond), map[];
    }

    method TryAcquire(key: string, now: real) returns (granted: bool)
      modifies this
      ensures granted == Acquire(config, old(buckets), Request(key, now)).0
      ensures buckets == Acquire(config, old(buckets), Request(key, now)).1
    {
      if |buckets| > MAX_BUCKETS {
        var idleToFull := IdleToFull(config);
        buckets := map k | k in buckets && Elapsed(now, buckets[k].lastRefill) < idleToFull :: buckets[k];
      }
      var bucket := if key in buckets then buckets[key] else Bucket(config.capacity as real, now);
      var elapsed := Elapsed(now, bucket.lastRefill);
      var tokens := Capped(config, bucket.tokens + elapsed * config.perSecond);
      assert buckets == AfterEviction(config, old(buckets), now);
      BucketLevel(config, buckets, key, now, bucket);
      assert tokens == Level(config, buckets, key, now);
      granted := tokens >= 1.0;
      buckets := buckets[key := Bucket(if granted then tokens - 1.0 else tokens, now)];
    }
  }

  /** `key_is_valid`: every configured key is compared, with no early exit. */
  method KeyIsValid(apiKeys: seq<string>, candidate: string) returns (matched: bool)
    ensures matched <==> candidate in apiKeys
  {
    matched := false;
    for i := 0 to |apiKeys|
      invariant matched <==> candidate in apiKeys[..i]
    {
      matched := matched || apiKeys[i] == candidate;
    }
    assert apiKeys[..|apiKeys|] == apiKeys;
  }

  // ---------------------------------------------------------------- runs

  /** The buckets after all of `requests`; `evicting` says whether idle buckets are dropped. */
  function After(config: Config, requests: seq<Request>, evicting: bool): Buckets {
    if requests == [] then map[]
    else
      var n := |requests| - 1;
      var before := After(config, requests[..n], evicting);
      (if evicting then Acquire(config, before, requests[n]) else Spend(config, before, requests[n])).1
  }

  /** The decision on request `i`. */
  function Granted(config: Config, requests: seq<Request>, evicting: bool, i: nat): bool
    requires i < |requests|
  {
    var before := After(config, requests[..i], evicting);
    (if evicting then Acquire(config, before, requests[i]) else Spend(config, before, requests[i])).0
  }

  ghost predicate InOrder(requests: seq<Request>) {
    forall i, j :: 0 <= i <= j < |requests| ==> requests[i].at <= requests[j].at
  }

  ghost predicate SameDecisions(config: Config, requests: seq<Request>) {
    forall i: nat :: i < |requests| ==> (Granted(config, requests, true, i) <==> Granted(config, requests, false, i))
  }

  // ---------------------------------------------------------------- eviction is invisible

  /** Every bucket is non-negative and was last refilled at or before `now`. */
  ghost predicate Sane(buckets: Buckets, now: real) {
    forall key :: key in buckets ==> buckets[key].tokens >= 0.0 && buckets[key].lastRefill <= now
  }

  /** From `now` on, no key can tell the two maps apart. */
  ghost predicate Alike(config: Config, a: Buckets, b: Buckets, now: real) {
    forall key, later: real :: later >= now ==> Level(config, a, key, later) == Level(config, b, key, later)
  }

  lemma MulMonotone(x: real, y: real, rate: real)
    requires 0.0 <= x <= y && rate >= 0.0
    ensures 0.0 <= x * rate <= y * rate
  {
  }

  lemma IdleBucketIsFull(config: Config, b: Bucket, now: real, later: real)
    requires config.perSecond >= 0.001 && b.tokens >= 0.0 && b.lastRefill <= now <= later
    requires Elapsed(now, b.lastRefill) >= IdleToFull(config)
    ensures b.tokens + Elapsed(later, b.lastRefill) * config.perSecond >= config.capacity as real
  {
    var idle := config.capacity as real / config.perSecond;
    assert idle * config.perSecond == config.capacity as real;
    MulMonotone(idle, later - b.lastRefill, config.perSecond);
  }

  lemma EvictionAlike(config: Config, buckets: Buckets, now: real)
    requires config.perSecond >= 0.001 && Sane(buckets, now)
    ensures Alike(config, AfterEviction(config, buckets, now), buckets, now)
    ensures Sane(AfterEviction(config, buckets, now), now)
  {
    var kept := AfterEviction(config, buckets, now);
    forall key, later: real | later >= now
      ensures Level(config, kept, key, later) == Level(config, buckets, key, later)
    {
      if key in buckets && key !in kept {
        IdleBucketIsFull(config, buckets[key], now, later);
      }
    }
  }

  /** A request only moves its own key's bucket, and moves it to the same place in both maps. */
  lemma SpendAlike(config: Config, a: Buckets, b: Buckets, r: Request)
    requires Alike(config, a, b, r.at)
    ensures Spend(config, a, r).0 == Spend(config, b, r).0
    ensures Alike(config, Spend(config, a, r).1, Spend(config, b, r).1, r.at)
  {
    assert Level(config, a, r.key, r.at) == Level(config, b, r.key, r.at);
    var a', b' := Spend(config, a, r).1, Spend(config, b, r).1;
    assert a'[r.key] == b'[r.key];
    forall key, later: real | later >= r.at ensures Level(config, a', key, later) == Level(config, b', key, later) {
      if key == r.key {
        SameBucketSameLevel(config, a', b', key, later);
      } else {
        SameBucketSameLevel(config, a', a, key, later);
        SameBucketSameLevel(config, b', b, key, later);
        assert Level(config, a, key, later) == Level(config, b, key, later);
      }
    }
  }

  lemma SameBucketSameLevel(config: Config, a: Buckets, b: Buckets, key: string, now: real)
    requires key in a <==> key in b
    requires key in a ==> a[key] == b[key]
    ensures Level(config, a, key, now) == Level(config, b, key, now)
  {
  }

  lemma SpendSane(config: Config, buckets: Buckets, r: Request, before: real)
    requires config.perSecond >= 0.0 && Sane(buckets, before) && before <= r.at
    ensures Sane(Spend(config, buckets, r).1, r.at)
  {
    LevelNonNegative(config, buckets, r.key, r.at);
  }

  lemma LevelNonNegative(config: Config, buckets: Buckets, key: string, now: real)
    requires config.perSecond >= 0.0 && Sane(buckets, now)
    ensures Level(config, buckets, key, now) >= 0.0
  {
    if key in buckets {
      MulMonotone(0.0, Elapsed(now, buckets[key].lastRefill), config.perSecond);
    }
  }

  /** One request on an evicting and a non-evicting map that were alike: same decision, still alike. */
  lemma RequestAlike(config: Config, evicted: Buckets, kept: Buckets, r: Request, before: real)
    requires config.perSecond >= 0.001 && before <= r.at
    requires Sane(evicted, before) && Sane(kept, before) && Alike(config, evicted, kept, before)
    ensures Acquire(config, evicted, r).0 == Spend(config, kept, r).0
    ensures Alike(config, Acquire(config, evicted, r).1, Spend(config, kept, r).1, r.at)
    ensures Sane(Acquire(config, evicted, r).1, r.at) && Sane(Spend(config, kept, r).1, r.at)
  {
    var swept := AfterEviction(config, evicted, r.at);
    EvictionAlike(config, evicted, r.at);
    AlikeTrans(config, swept, evicted, kept, r.at);
    SpendAlike(config, swept, kept, r);
    SpendSane(config, swept, r, r.at);
    SpendSane(config, kept, r, before);
  }

  lemma {:induction false} RunsAlike(config: Config, requests: seq<Request>, now: real)
    requires config.perSecond >= 0.001 && InOrder(requests)
    requires requests != [] ==> requests[|requests| - 1].at <= now
    ensures Sane(After(config, requests, false), now) && Sane(After(config, requests, true), now)
    ensures Alike(config, After(config, requests, true), After(config, requests, false), now)
    decreases |requests|
  {
    if requests != [] {
      var n := |requests| - 1;
      var r := requests[n];
      RunsAlike(config, requests[..n], r.at);
      RequestAlike(config, After(config, requests[..n], true), After(config, requests[..n], false), r, r.at);
    }
  }

  lemma AlikeTrans(config: Config, a: Buckets, b: Buckets, c: Buckets, now: real)
    requires Alike(config, a, b, now) && Alike(config, b, c, now)
    ensures Alike(config, a, c, now)
  {
    forall key, later: real | later >= now ensures Level(config, a, key, later) == Level(config, c, key, later) {
      assert Level(config, a, key, later) == Level(config, b, key, later);
    }
  }

  /** The evicting limiter decides every request as one that never evicts would. */
  lemma EvictionIsInvisible(config: Config, requests: seq<Request>)
    requires config.perSecond >= 0.001 && InOrder(requests)
    ensures SameDecisions(config, requests)
  {
    forall i: nat | i < |requests| ensures Granted(config, requests, true, i) <==> Granted(config, requests, false, i) {
      var before := requests[..i];
      RunsAlike(config, before, requests[i].at);
      RequestAlike(config, After(config, before, true), After(config, before, false), requests[i], requests[i].at);
    }
  }

  // ---------------------------------------------------------------- the rate bound

  /** How many of the requests on `key` with times in [from, to] were granted. */
  function GrantedCount(
    config: Config, requests: seq<Request>, evicting: bool, key: string, from: real, to: real): nat
  {
    if requests == [] then 0
    else
      var n := |requests| - 1;
      GrantedCount(config, requests[..n], evicting, key, from, to) +
      if requests[n].key == key && from <= requests[n].at <= to && Granted(config, requests, evicting, n) then 1 else 0
  }

  lemma PrefixDecidesAlike(config: Config, requests: seq<Request>, n: nat)
    requires n <= |requests| && SameDecisions(config, requests)
    ensures SameDecisions(config, requests[..n])
  {
    forall i: nat | i < n
      ensures Granted(config, requests[..n], true, i) <==> Granted(config, requests[..n], false, i)
    {
      assert requests[..n][..i] == requests[..i];
      assert Granted(config, requests, true, i) <==> Granted(config, requests, false, i);
    }
  }

  lemma {:induction false} CountSame(config: Config, requests: seq<Request>, key: string, from: real, to: real)
    requires SameDecisions(config, requests)
    ensures GrantedCount(config, requests, true, key, from, to) == GrantedCount(config, requests, false, key, from, to)
    decreases |requests|
  {
    if requests != [] {
      var n := |requests| - 1;
      PrefixDecidesAlike(config, requests, n);
      CountSame(config, requests[..n], key, from, to);
      assert Granted(config, requests, true, n) <==> Granted(config, requests, false, n);
    }
  }

  /** The burst plus what `elapsed` seconds refill. */
  function Allowance(config: Config, elapsed: real): real {
    config.capacity as real + elapsed * config.perSecond
  }

  /** Once `key` has been granted something since `from`, grants and tokens fit the allowance since `from`. */
  ghost predicate KeyBounded(config: Config, buckets: Buckets, key: string, from: real, count: nat) {
    count == 0
    || (&& key in buckets && from <= buckets[key].lastRefill
        && count as real + buckets[key].tokens <= Allowance(config, buckets[key].lastRefill - from))
  }

  lemma RefillBounded(
    capacity: real, rate: real, tokens: real, last: real, at: real, from: real, count: real, level: real)
    requires level <= tokens + (at - last) * rate
    requires count + tokens <= capacity + (last - from) * rate
    ensures count + level <= capacity + (at - from) * rate
  {
  }

  lemma KeyStep(config: Config, before: Buckets, r: Request, key: string, from: real, count: nat)
    requires config.perSecond >= 0.0 && Sane(before, r.at) && from <= r.at
    requires KeyBounded(config, before, key, from, count)
    ensures var (granted, after) := Spend(config, before, r);
            KeyBounded(config, after, key, from, count + if granted && r.key == key then 1 else 0)
  {
    if r.key == key {
      var level := Level(config, before, key, r.at);
      if count == 0 {
        AllowanceGrows(config, 0.0, r.at - from);
      } else {
        var b := before[key];
        RefillBounded(config.capacity as real, config.perSecond, b.tokens, b.lastRefill, r.at, from,
                      count as real, level);
      }
    }
  }

  lemma {:induction false} RunBounded(config: Config, requests: seq<Request>, key: string, from: real, to: real)
    requires config.perSecond >= 0.0 && InOrder(requests)
    requires requests != [] ==> requests[|requests| - 1].at <= to
    ensures KeyBounded(config, After(config, requests, false), key, from,
                       GrantedCount(config, requests, false, key, from, to))
    decreases |requests|
  {
    if requests == [] || requests[|requests| - 1].at < from {
      NothingBefore(config, requests, key, from, to);
    } else {
      var n := |requests| - 1;
      var r, earlier := requests[n], requests[..n];
      RunBounded(config, earlier, key, from, to);
      SaneRun(config, earlier, r.at);
      KeyStep(config, After(config, earlier, false), r, key, from, GrantedCount(config, earlier, false, key, from, to));
    }
  }

  lemma {:induction false} SaneRun(config: Config, requests: seq<Request>, now: real)
    requires config.perSecond >= 0.0 && InOrder(requests)
    requires requests != [] ==> requests[|requests| - 1].at <= now
    ensures Sane(After(config, requests, false), now)
    decreases |requests|
  {
    if requests != [] {
      var n := |requests| - 1;
      SaneRun(config, requests[..n], requests[n].at);
      LevelNonNegative(config, After(config, requests[..n], false), requests[n].key, requests[n].at);
    }
  }

  lemma {:induction false} NothingBefore(config: Config, requests: seq<Request>, key: string, from: real, to: real)
    requires InOrder(requests)
    requires requests != [] ==> requests[|requests| - 1].at < from
    ensures GrantedCount(config, requests, false, key, from, to) == 0
    decreases |requests|
  {
    if requests != [] {
      var n := |requests| - 1;
      assert n > 0 ==> requests[n - 1].at <= requests[n].at;
      NothingBefore(config, requests[..n], key, from, to);
    }
  }

  lemma {:induction false} CountUntil(config: Config, requests: seq<Request>, key: string, from: real, to: real, n: nat)
    requires InOrder(requests) && n <= |requests|
    requires forall i :: n <= i < |requests| ==> requests[i].at > to
    ensures GrantedCount(config, requests, false, key, from, to)
            == GrantedCount(config, requests[..n], false, key, from, to)
    decreases |requests|
  {
    if n < |requests| {
      var m := |requests| - 1;
      assert requests[..m][..n] == requests[..n];
      CountUntil(config, requests[..m], key, from, to, n);
    } else {
      assert requests[..n] == requests;
    }
  }

  lemma AllowanceGrows(config: Config, elapsed: real, longer: real)
    requires config.perSecond >= 0.0 && 0.0 <= elapsed <= longer
    ensures 0.0 <= config.capacity as real <= Allowance(config, elapsed) <= Allowance(config, longer)
  {
    MulMonotone(elapsed, longer, config.perSecond);
  }

  lemma BoundedCount(config: Config, buckets: Buckets, key: string, from: real, to: real, count: nat)
    requires config.perSecond >= 0.0 && from <= to && Sane(buckets, to)
    requires KeyBounded(config, buckets, key, from, count)
    ensures count as real <= Allowance(config, to - from)
  {
    AllowanceGrows(config, if count == 0 then 0.0 else buckets[key].lastRefill - from, to - from);
  }

  /** Without eviction, a key is granted at most the burst plus what the interval refills. */
  lemma KeptRateBound(config: Config, requests: seq<Request>, key: string, from: real, to: real)
    requires config.perSecond >= 0.0 && InOrder(requests) && from <= to
    ensures GrantedCount(config, requests, false, key, from, to) as real <= Allowance(config, to - from)
  {
    var n := FirstAfter(requests, to);
    CountUntil(config, requests, key, from, to, n);
    RunBounded(config, requests[..n], key, from, to);
    SaneRun(config, requests[..n], to);
    BoundedCount(config, After(config, requests[..n], false), key, from, to,
                 GrantedCount(config, requests[..n], false, key, from, to));
  }

  /** In any interval a key is granted at most the burst plus what the interval refills, eviction included. */
  lemma RateBound(config: Config, requests: seq<Request>, key: string, from: real, to: real)
    requires config.perSecond >= 0.001 && InOrder(requests) && from <= to
    ensures GrantedCount(config, requests, true, key, from, to) as real <= Allowance(config, to - from)
  {
    EvictionIsInvisible(config, requests);
    CountSame(config, requests, key, from, to);
    KeptRateBound(config, requests, key, from, to);
  }

  lemma {:induction false} FirstAfter(requests: seq<Request>, to: real) returns (n: nat)
    requires InOrder(requests)
    ensures n <= |requests|
    ensures forall i :: 0 <= i < n ==> requests[i].at <= to
    ensures forall i :: n <= i < |requests| ==> requests[i].at > to
    decreases |requests|
  {
    if requests == [] || requests[|requests| - 1].at <= to {
      n := |requests|;
    } else {
      n := FirstAfter(requests[..|requests| - 1], to);
    }
  }
}
