/**
 * When the eviction of gateway/src/auth.rs is invisible and when the rate bound holds: exactly for which
 * settings, over all runs. Also a run with clock readings out of order that exceeds the bound.
 */
module RateLimiterLimits {
  import opened RateLimiter

  ghost predicate EvictionInvisible(config: Config) {
    forall requests :: InOrder(requests) ==> SameDecisions(config, requests)
  }

  /** Every key, in every interval of every in-order run, stays within its allowance. */
  ghost predicate AlwaysWithinAllowance(config: Config) {
    forall requests, key, from: real, to: real :: InOrder(requests) && from <= to ==>
      GrantedCount(config, requests, true, key, from, to) as real <= Allowance(config, to - from)
  }

  // ---------------------------------------------------------------- a run that shows eviction

  function Name(n: nat): string {
    seq(n, _ => 'a')
  }

  /** `n` requests on the empty key. */
  function Burst(at: real, n: nat): seq<Request> {
    if n == 0 then [] else Burst(at, n - 1) + [Request("", at)]
  }

  /** One burst at 0, then `n` other keys, all at 0. */
  function Crowd(capacity: nat, n: nat): seq<Request> {
    if n == 0 then Burst(0.0, capacity) else Crowd(capacity, n - 1) + [Request(Name(n), 0.0)]
  }

  /** The empty key spends its burst, too many other keys turn up, and much later it spends again `n` times. */
  function Comeback(config: Config, n: nat): seq<Request> {
    if n == 0 then Crowd(config.capacity, MAX_BUCKETS)
    else Comeback(config, n - 1) + [Request("", Later(config))]
  }

  function Later(config: Config): real {
    1000.0 * config.capacity as real
  }

  lemma Appended(config: Config, earlier: seq<Request>, r: Request, evicting: bool, key: string, from: real, to: real)
    ensures var before := After(config, earlier, evicting);
            var (granted, after) := if evicting then Acquire(config, before, r) else Spend(config, before, r);
            && After(config, earlier + [r], evicting) == after
            && Granted(config, earlier + [r], evicting, |earlier|) == granted
            && GrantedCount(config, earlier + [r], evicting, key, from, to)
               == GrantedCount(config, earlier, evicting, key, from, to)
                  + if r.key == key && from <= r.at <= to && granted then 1 else 0
  {
    assert (earlier + [r])[..|earlier|] == earlier;
  }

  /** A bucket refilled at this very instant. */
  ghost predicate Current(config: Config, buckets: Buckets, at: real) {
    forall key :: key in buckets ==> buckets[key].lastRefill == at && buckets[key].tokens <= config.capacity as real
  }

  lemma NoneIdle(config: Config, buckets: Buckets, at: real)
    requires config.capacity >= 1 && Current(config, buckets, at)
    ensures AfterEviction(config, buckets, at) == buckets
  {
  }

  /** With no time passed there is no refill and no eviction: one token goes, if there is one. */
  lemma RequestNow(config: Config, buckets: Buckets, r: Request, evicting: bool)
    requires config.capacity >= 1 && Current(config, buckets, r.at)
    ensures var level := if r.key in buckets then buckets[r.key].tokens else config.capacity as real;
            (if evicting then Acquire(config, buckets, r) else Spend(config, buckets, r))
            == (level >= 1.0, buckets[r.key := Bucket(if level >= 1.0 then level - 1.0 else level, r.at)])
  {
    NoneIdle(config, buckets, r.at);
    if r.key in buckets {
      assert Elapsed(r.at, buckets[r.key].lastRefill) == 0.0;
    }
  }

  lemma AppendedNow(
    config: Config, earlier: seq<Request>, r: Request, evicting: bool, from: real, to: real, level: real)
    requires config.capacity >= 1 && Current(config, After(config, earlier, evicting), r.at)
    requires var before := After(config, earlier, evicting);
             level == if r.key in before then before[r.key].tokens else config.capacity as real
    requires level >= 1.0
    ensures After(config, earlier + [r], evicting)
            == After(config, earlier, evicting)[r.key := Bucket(level - 1.0, r.at)]
    ensures GrantedCount(config, earlier + [r], evicting, "", from, to)
            == GrantedCount(config, earlier, evicting, "", from, to)
               + if r.key == "" && from <= r.at <= to then 1 else 0
  {
    RequestNow(config, After(config, earlier, evicting), r, evicting);
    Appended(config, earlier, r, evicting, "", from, to);
  }

  /** The empty key's bucket after `n` of its requests at one instant. */
  function Spent(config: Config, n: nat, at: real): Buckets
    requires n <= config.capacity
  {
    if n == 0 then map[] else map["" := Bucket((config.capacity - n) as real, at)]
  }

  lemma SpendOne(config: Config, n: nat, at: real)
    requires 1 <= n <= config.capacity
    ensures Spent(config, n - 1, at)["" := Bucket((config.capacity - n) as real + 1.0 - 1.0, at)]
            == Spent(config, n, at)
  {
  }

  lemma {:induction false} BurstRun(config: Config, at: real, n: nat, evicting: bool, from: real, to: real)
    requires n <= config.capacity && from <= at <= to
    ensures After(config, Burst(at, n), evicting) == Spent(config, n, at)
    ensures GrantedCount(config, Burst(at, n), evicting, "", from, to) == n
    decreases n
  {
    if n > 0 {
      BurstRun(config, at, n - 1, evicting, from, to);
      AppendedNow(config, Burst(at, n - 1), Request("", at), evicting, from, to, (config.capacity - n) as real + 1.0);
      SpendOne(config, n, at);
    }
  }

  /** One bucket for each of `n` other keys and a spent one for the empty key, all of them current. */
  ghost predicate Crowded(config: Config, buckets: Buckets, n: nat) {
    && |buckets| == n + 1 && Current(config, buckets, 0.0)
    && "" in buckets && buckets[""] == Bucket(0.0, 0.0)
    && forall key :: key in buckets ==> |key| <= n
  }

  lemma OneMore(config: Config, buckets: Buckets, n: nat, b: Bucket)
    requires n > 0 && Crowded(config, buckets, n - 1)
    requires b.lastRefill == 0.0 && b.tokens <= config.capacity as real
    ensures Name(n) !in buckets && Crowded(config, buckets[Name(n) := b], n)
  {
    assert |Name(n)| == n;
  }

  lemma {:induction false} CrowdRun(config: Config, n: nat, evicting: bool, to: real)
    requires 1 <= config.capacity && to >= 0.0
    ensures Crowded(config, After(config, Crowd(config.capacity, n), evicting), n)
    ensures GrantedCount(config, Crowd(config.capacity, n), evicting, "", 0.0, to) == config.capacity
  {
    if n == 0 {
      BurstRun(config, 0.0, config.capacity, evicting, 0.0, to);
    } else {
      CrowdRun(config, n - 1, evicting, to);
      OneMoreKey(config, Crowd(config.capacity, n - 1), n, evicting, to);
    }
  }

  lemma OneMoreKey(config: Config, earlier: seq<Request>, n: nat, evicting: bool, to: real)
    requires 1 <= config.capacity && 1 <= n && Crowded(config, After(config, earlier, evicting), n - 1)
    ensures Crowded(config, After(config, earlier + [Request(Name(n), 0.0)], evicting), n)
    ensures GrantedCount(config, earlier + [Request(Name(n), 0.0)], evicting, "", 0.0, to)
            == GrantedCount(config, earlier, evicting, "", 0.0, to)
  {
    var full := config.capacity as real;
    OneMore(config, After(config, earlier, evicting), n, Bucket(full - 1.0, 0.0));
    AppendedNow(config, earlier, Request(Name(n), 0.0), evicting, 0.0, to, full);
  }

  /** Too slow a refill: by then the evicting limiter takes every bucket for a full one. */
  lemma AllEvicted(config: Config, buckets: Buckets)
    requires config.perSecond < 0.001 && 1 <= config.capacity && Crowded(config, buckets, MAX_BUCKETS)
    ensures Acquire(config, buckets, Request("", Later(config))) == (true, Spent(config, 1, Later(config)))
  {
    assert IdleToFull(config) == Later(config);
    assert AfterEviction(config, buckets, Later(config)) == map[];
  }

  lemma {:induction false} ComebackRun(config: Config, n: nat)
    requires config.perSecond < 0.001 && 1 <= n <= config.capacity
    ensures After(config, Comeback(config, n), true) == Spent(config, n, Later(config))
    ensures GrantedCount(config, Comeback(config, n), true, "", 0.0, Later(config)) == config.capacity + n
  {
    var to := Later(config);
    var earlier, r := Comeback(config, n - 1), Request("", to);
    if n == 1 {
      CrowdRun(config, MAX_BUCKETS, true, to);
      AllEvicted(config, After(config, earlier, true));
      Appended(config, earlier, r, true, "", 0.0, to);
    } else {
      ComebackRun(config, n - 1);
      AppendedNow(config, earlier, r, true, 0.0, to, (config.capacity - n) as real + 1.0);
      SpendOne(config, n, to);
    }
  }

  lemma {:induction false} BurstAt(at: real, n: nat)
    ensures forall r :: r in Burst(at, n) ==> r.at == at
    decreases n
  {
    if n > 0 {
      BurstAt(at, n - 1);
    }
  }

  lemma {:induction false} CrowdAt(capacity: nat, n: nat)
    ensures forall r :: r in Crowd(capacity, n) ==> r.at == 0.0
  {
    if n == 0 {
      BurstAt(0.0, capacity);
    } else {
      CrowdAt(capacity, n - 1);
    }
  }

  lemma {:induction false} ComebackInOrder(config: Config, n: nat)
    ensures InOrder(Comeback(config, n))
    ensures forall r :: r in Comeback(config, n) ==> 0.0 <= r.at <= Later(config)
  {
    if n == 0 {
      CrowdAt(config.capacity, MAX_BUCKETS);
    } else {
      ComebackInOrder(config, n - 1);
    }
  }

  lemma SlowAllowance(config: Config)
    requires config.perSecond < 0.001 && 1 <= config.capacity
    ensures Allowance(config, Later(config)) < 2.0 * config.capacity as real
  {
    var capacity := config.capacity as real;
    assert (1000.0 * capacity) * config.perSecond == capacity * (1000.0 * config.perSecond);
    assert capacity * (1000.0 * config.perSecond) < capacity * 1.0;
  }

  lemma DrainedLevel(config: Config, buckets: Buckets)
    requires config.perSecond < 0.0 && 1 <= config.capacity && "" in buckets && buckets[""] == Bucket(0.0, 0.0)
    ensures !Spend(config, buckets, Request("", Later(config))).0
  {
    assert Later(config) * config.perSecond < 0.0;
  }

  /** How long a comeback must be before a limiter that never evicts has refused some of it. */
  function Enough(config: Config): nat {
    if config.perSecond < 0.0 then 1 else config.capacity
  }

  lemma DrainedRefuses(config: Config)
    requires config.perSecond < 0.0 && 1 <= config.capacity
    ensures GrantedCount(config, Comeback(config, 0) + [Request("", Later(config))], false, "", 0.0, Later(config))
            == config.capacity
  {
    var earlier, to := Comeback(config, 0), Later(config);
    CrowdRun(config, MAX_BUCKETS, false, to);
    DrainedLevel(config, After(config, earlier, false));
    Appended(config, earlier, Request("", to), false, "", 0.0, to);
  }

  lemma SlowRefuses(config: Config)
    requires 0.0 <= config.perSecond < 0.001 && 1 <= config.capacity
    ensures GrantedCount(config, Comeback(config, config.capacity), false, "", 0.0, Later(config)) < 2 * config.capacity
  {
    ComebackInOrder(config, config.capacity);
    KeptRateBound(config, Comeback(config, config.capacity), "", 0.0, Later(config));
    SlowAllowance(config);
    assert Later(config) - 0.0 == Later(config);
  }

  lemma KeptRefuses(config: Config)
    requires config.perSecond < 0.001 && 1 <= config.capacity
    ensures GrantedCount(config, Comeback(config, Enough(config)), false, "", 0.0, Later(config))
            < config.capacity + Enough(config)
  {
    if config.perSecond < 0.0 {
      DrainedRefuses(config);
      assert Comeback(config, 1) == Comeback(config, 0) + [Request("", Later(config))];
    } else {
      SlowRefuses(config);
    }
  }

  /** On too slow a refill the two limiters part. */
  lemma SlowRefillShows(config: Config) returns (requests: seq<Request>)
    requires config.perSecond < 0.001 && 1 <= config.capacity
    ensures InOrder(requests) && !SameDecisions(config, requests)
  {
    var n := Enough(config);
    requests := Comeback(config, n);
    ComebackInOrder(config, n);
    ComebackRun(config, n);
    KeptRefuses(config);
    if SameDecisions(config, requests) {
      CountSame(config, requests, "", 0.0, Later(config));
      assert false;
    }
  }

  lemma NothingToGrant(config: Config, requests: seq<Request>, evicting: bool, i: nat)
    requires config.capacity == 0 && i < |requests|
    ensures !Granted(config, requests, evicting, i)
  {
  }

  lemma {:induction false} NothingGranted(config: Config, requests: seq<Request>, key: string, from: real, to: real)
    requires config.capacity == 0
    ensures GrantedCount(config, requests, true, key, from, to) == 0
    decreases |requests|
  {
    if requests != [] {
      NothingToGrant(config, requests, true, |requests| - 1);
      NothingGranted(config, requests[..|requests| - 1], key, from, to);
    }
  }

  /** Eviction never shows, in any in-order run, exactly when a refill is fast enough or nothing is ever granted. */
  lemma EvictionInvisibleIff(config: Config)
    ensures EvictionInvisible(config) <==> config.perSecond >= 0.001 || config.capacity == 0
  {
    if config.perSecond >= 0.001 {
      forall requests | InOrder(requests) ensures SameDecisions(config, requests) {
        EvictionIsInvisible(config, requests);
      }
    } else if config.capacity == 0 {
      forall requests | InOrder(requests) ensures SameDecisions(config, requests) {
        forall i: nat | i < |requests|
          ensures Granted(config, requests, true, i) <==> Granted(config, requests, false, i)
        {
          NothingToGrant(config, requests, true, i);
          NothingToGrant(config, requests, false, i);
        }
      }
    } else {
      var requests := SlowRefillShows(config);
    }
  }

  /** The allowance is never exceeded exactly when refill is fast enough, or nothing is granted and none is owed. */
  lemma WithinAllowanceIff(config: Config)
    ensures AlwaysWithinAllowance(config)
            <==> config.perSecond >= 0.001 || (config.capacity == 0 && config.perSecond >= 0.0)
  {
    if config.perSecond >= 0.001 {
      forall requests, key, from: real, to: real | InOrder(requests) && from <= to
        ensures GrantedCount(config, requests, true, key, from, to) as real <= Allowance(config, to - from)
      {
        RateBound(config, requests, key, from, to);
      }
    } else if config.capacity == 0 && config.perSecond >= 0.0 {
      forall requests, key, from: real, to: real | InOrder(requests) && from <= to
        ensures GrantedCount(config, requests, true, key, from, to) as real <= Allowance(config, to - from)
      {
        NothingGranted(config, requests, key, from, to);
        MulMonotone(0.0, to - from, config.perSecond);
      }
    } else if config.capacity == 0 {
      assert InOrder([]) && GrantedCount(config, [], true, "", 0.0, 1.0) == 0;
      assert Allowance(config, 1.0 - 0.0) < 0.0;
    } else {
      var requests, to := Comeback(config, config.capacity), Later(config);
      ComebackInOrder(config, config.capacity);
      ComebackRun(config, config.capacity);
      SlowAllowance(config);
      assert GrantedCount(config, requests, true, "", 0.0, to) as real > Allowance(config, to - 0.0);
    }
  }

  /**
   * `now` is read before the lock is taken, so a request can be served with an older reading than the last
   * one. That moves `last_refill` back, and the same seconds are refilled twice.
   */
  lemma LateLockRefillsTwice()
    ensures var config := Config(1, 1.0);
            var requests := [Request("k", 10.0), Request("k", 0.0), Request("k", 10.0)];
            GrantedCount(config, requests, true, "k", 10.0, 10.0) as real > Allowance(config, 10.0 - 10.0)
  {
    var config := Config(1, 1.0);
    var r, late := Request("k", 10.0), Request("k", 0.0);
    Appended(config, [], r, true, "k", 10.0, 10.0);
    Appended(config, [r], late, true, "k", 10.0, 10.0);
    Appended(config, [r, late], r, true, "k", 10.0, 10.0);
    assert [] + [r] == [r] && [r] + [late] == [r, late] && [r, late] + [r] == [r, late, r];
    assert After(config, [], true) == map[];
    assert After(config, [r], true) == map["k" := Bucket(0.0, 10.0)];
    assert After(config, [r, late], true) == map["k" := Bucket(0.0, 0.0)];
  }
}
