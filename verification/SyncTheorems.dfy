/**
 * What honest sync sessions achieve: the exact gain of one session, the union after several, and
 * the pull guarantee that epidemic spreading rests on.
 */
module SyncTheorems {
  import opened Wrappers
  import opened Bundle
  import opened Relay
  import opened SyncProtocol
  import opened SyncExchange

  ghost predicate CalmAt(t: Setting, states: seq<Session>, acts: seq<Act>, i: nat)
    requires i < |acts| && i + 1 < |states|
  {
    CalmStep(t, states[i], acts[i], states[i + 1])
  }

  ghost predicate CalmRun(t: Setting, states: seq<Session>, acts: seq<Act>) {
    && Run(t.cs, states, acts)
    && states[0].heldLeft <= t.base.left && states[0].heldRight <= t.base.right
    && forall i :: 0 <= i < |acts| ==> CalmAt(t, states, acts, i)
  }

  ghost function Stores(s: Session): Pair {
    Pair(s.heldLeft, s.heldRight)
  }

  /** What each side owns after `i` steps: its starting store plus what other tasks added. */
  ghost function OwnAt(states: seq<Session>, acts: seq<Act>, i: nat): Pair
    requires |states| == |acts| + 1 && i < |states|
  {
    if i == 0 then Stores(states[0])
    else OwnAfter(OwnAt(states, acts, i - 1), states[i - 1], acts[i - 1], states[i])
  }

  lemma ExchangeStep(t: Setting, start: Pair, own: Pair, s: Session, act: Act, s': Session)
    requires Roomy(t) && Exchange(t, start, own, s) && CalmStep(t, s, act, s')
    ensures Exchange(t, start, OwnAfter(own, s, act, s'), s')
  {
    match act
    case Move(side, now) => ExchangeMoved(t, start, own, s, side, Other(side), now, s');
    case Interfere =>
      OrderlyStep(t.cs, s, act, s');
      ExchangeInterfered(t, start, own, s, s', Left);
      ExchangeInterfered(t, start, own, s, s', Right);
  }

  ghost predicate ExchangeAt(t: Setting, states: seq<Session>, acts: seq<Act>, i: nat)
    requires |states| == |acts| + 1 && i < |states|
  {
    Exchange(t, Stores(states[0]), OwnAt(states, acts, i), states[i])
  }

  lemma ExchangeNext(t: Setting, states: seq<Session>, acts: seq<Act>, i: nat)
    requires |states| == |acts| + 1 && i < |acts| && Roomy(t)
    requires ExchangeAt(t, states, acts, i) && CalmAt(t, states, acts, i)
    ensures ExchangeAt(t, states, acts, i + 1)
  {
    ExchangeStep(t, Stores(states[0]), OwnAt(states, acts, i), states[i], acts[i], states[i + 1]);
  }

  lemma {:induction false} RunExchange(t: Setting, states: seq<Session>, acts: seq<Act>, i: nat)
    requires CalmRun(t, states, acts) && Roomy(t) && i < |states|
    ensures ExchangeAt(t, states, acts, i)
    decreases i
  {
    if i == 0 {
      ExchangeStart(t, states[0]);
    } else {
      RunExchange(t, states, acts, i - 1);
      assert CalmAt(t, states, acts, i - 1);
      ExchangeNext(t, states, acts, i - 1);
    }
  }

  lemma WiresArePreimages(hashes: seq<BundleHash>)
    ensures Elements(Wires(hashes)) == Preimages(Elements(hashes))
  {
    forall w ensures w in Elements(Wires(hashes)) <==> w in Preimages(Elements(hashes)) {
      InWires(hashes, w);
      InPreimages(Elements(hashes), w);
    }
  }

  lemma {:induction false} NoRepeatsCount<T(!new)>(s: seq<T>)
    requires NoRepeats(s)
    ensures |Elements(s)| == |s|
  {
    ListsCount(s, Elements(s));
  }

  /** `gained` is what a session brought an end: exactly as much of what it missed as the caps let through. */
  ghost predicate Gained(gained: set<Wire>, peerHad: set<Wire>, had: set<Wire>, batchCap: nat) {
    gained <= peerHad - had && |gained| == Min(|peerHad - had|, batchCap)
  }

  lemma PlanIsGain(sender: End, receiver: End, senderCap: nat, receiverCap: nat)
    requires Consumed(receiver) >= 1 && NoRepeats(sender.mine)
    requires receiver.want == Truncate(Missing(sender.mine, receiver.mine), receiverCap)
    ensures var plan := Plan(receiver, senderCap);
            |Elements(plan)| == |plan| &&
            Gained(Elements(plan), Elements(Wires(sender.mine)), Elements(Wires(receiver.mine)),
                   Min(senderCap, receiverCap))
  {
    PlanFacts(receiver, sender, senderCap, receiverCap);
    NoRepeatsCount(Plan(receiver, senderCap));
    WiresArePreimages(sender.mine);
    WiresArePreimages(receiver.mine);
    PreimagesWithout(Elements(sender.mine), Elements(receiver.mine));
    PreimageCount(Elements(sender.mine) - Elements(receiver.mine));
  }

  lemma ReturnedHasAll(t: Setting, start: Pair, own: Pair, s: Session, me: Side, peer: Side)
    requires me == Other(peer) && peer == Other(me)
    requires OneWay(t, start, own, s, peer) && OneWay(t, start, own, s, me)
    requires s.EndOf(me).phase.Returned?
    ensures var plan := Plan(s.EndOf(me), t.cs.Of(peer).maxBundlesPerSession);
            && s.EndOf(me).admitted == |plan|
            && s.Held(me) == own.Of(me) + Elements(plan)
            && Gained(Elements(plan), Elements(Wires(s.EndOf(peer).mine)), Elements(Wires(s.EndOf(me).mine)),
                BatchCap(t.cs))
            && |Elements(plan)| == |plan|
  {
    var e := s.EndOf(me);
    var plan := Plan(e, t.cs.Of(peer).maxBundlesPerSession);
    PlanIsGain(s.EndOf(peer), e, t.cs.Of(peer).maxBundlesPerSession, t.cs.Of(me).maxBundlesPerSession);
    assert plan[..|plan|] == plan;
  }

  /**
   * At the moment an end returns, in any calm run: the lists the two ends exchanged are snapshots of
   * their stores, each between what the side held at the start and what it owns by now, and the end
   * has gained exactly min(missing, both session caps) of the peer's bundles, lost none, and counted
   * them all.
   */
  lemma GainOnReturn(t: Setting, states: seq<Session>, acts: seq<Act>, me: Side)
    returns (gained: set<Wire>, peerHad: set<Wire>, had: set<Wire>)
    requires CalmRun(t, states, acts) && Roomy(t)
    requires states[|acts|].EndOf(me).phase.Returned?
    ensures var start, own := Stores(states[0]), OwnAt(states, acts, |acts|);
            && start.Of(Other(me)) <= peerHad <= own.Of(Other(me)) <= t.base.Of(Other(me))
            && start.Of(me) <= had <= own.Of(me)
            && Gained(gained, peerHad, had, BatchCap(t.cs))
            && states[|acts|].Held(me) == own.Of(me) + gained
            && states[|acts|].EndOf(me).admitted == |gained|
    ensures peerHad == Elements(Wires(states[|acts|].EndOf(Other(me)).mine))
    ensures had == Elements(Wires(states[|acts|].EndOf(me).mine))
  {
    var s, start, own, peer := states[|acts|], Stores(states[0]), OwnAt(states, acts, |acts|), Other(me);
    RunExchange(t, states, acts, |acts|);
    assert Other(peer) == me && OneWay(t, start, own, s, peer) && OneWay(t, start, own, s, me);
    ReturnedHasAll(t, start, own, s, me, peer);
    gained := Elements(Plan(s.EndOf(me), t.cs.Of(peer).maxBundlesPerSession));
    peerHad, had := Elements(Wires(s.EndOf(peer).mine)), Elements(Wires(s.EndOf(me).mine));
  }

  lemma {:induction false} QuietOwn(states: seq<Session>, acts: seq<Act>, i: nat)
    requires |states| == |acts| + 1 && i < |states|
    requires forall k :: 0 <= k < |acts| ==> acts[k].Move?
    ensures OwnAt(states, acts, i) == Stores(states[0])
    decreases i
  {
    if i > 0 {
      QuietOwn(states, acts, i - 1);
    }
  }

  /**
   * One honest session with nothing else going on, under any interleaving of the two ends: each
   * returned end holds what it held plus exactly min(missing, own cap, peer's cap) new bundles of
   * the peer's, and that number is what `sync_with_peer` returns.
   */
  lemma ExactGain(t: Setting, states: seq<Session>, acts: seq<Act>, me: Side) returns (gained: set<Wire>)
    requires CalmRun(t, states, acts) && Roomy(t)
    requires forall k :: 0 <= k < |acts| ==> acts[k].Move?
    requires states[|acts|].EndOf(me).phase.Returned?
    ensures Gained(gained, states[0].Held(Other(me)), states[0].Held(me), BatchCap(t.cs))
    ensures states[|acts|].Held(me) == states[0].Held(me) + gained
    ensures states[|acts|].EndOf(me).admitted == |gained|
  {
    QuietOwn(states, acts, |acts|);
    var peerHad, had;
    gained, peerHad, had := GainOnReturn(t, states, acts, me);
    var start := Stores(states[0]);
    assert start.Of(Other(me)) == states[0].Held(Other(me)) && start.Of(me) == states[0].Held(me);
    assert peerHad == start.Of(Other(me)) && had == start.Of(me);
  }

  /**
   * The pull guarantee: with session caps that cover what the peer can own, an end that returns
   * holds everything its peer held when the session began, whatever is being added meanwhile.
   */
  lemma PullsEverything(t: Setting, states: seq<Session>, acts: seq<Act>, me: Side)
    requires CalmRun(t, states, acts) && Roomy(t)
    requires |t.base.Of(Other(me))| <= BatchCap(t.cs)
    requires states[|acts|].EndOf(me).phase.Returned?
    ensures states[0].Held(Other(me)) + states[0].Held(me) <= states[|acts|].Held(me)
  {
    var gained, peerHad, had := GainOnReturn(t, states, acts, me);
    TotalLenMonotone(peerHad - had, t.base.Of(Other(me)));
    SameSizeSubset(gained, peerHad - had);
  }

  /** A calm session loses nothing and brings in nothing but what either side owns. */
  lemma StoresOnlyGrow(t: Setting, states: seq<Session>, acts: seq<Act>, side: Side)
    requires CalmRun(t, states, acts) && Roomy(t)
    ensures states[0].Held(side) <= states[|acts|].Held(side) <= t.base.left + t.base.right
  {
    var start, own, s := Stores(states[0]), OwnAt(states, acts, |acts|), states[|acts|];
    RunExchange(t, states, acts, |acts|);
    GrownAtMost(t, start, own, s, side, Other(side));
    assert start.Of(side) == states[0].Held(side);
  }

  lemma GrownAtMost(t: Setting, start: Pair, own: Pair, s: Session, side: Side, peer: Side)
    requires side == Other(peer) && peer == Other(side)
    requires OneWay(t, start, own, s, side) && OneWay(t, start, own, s, peer)
    ensures start.Of(side) <= s.Held(side) <= t.base.left + t.base.right
  {
    PlanOwned(t, start, own, s, peer);
    var plan := Plan(s.EndOf(side), t.cs.Of(peer).maxBundlesPerSession);
    assert Elements(plan[..Got(s.EndOf(side))]) <= Elements(plan);
  }

  lemma SameSizeSubset<T>(part: set<T>, whole: set<T>)
    requires part <= whole && |part| == |whole|
    ensures part == whole
  {
    assert |whole - part| == |whole| - |part|;
  }

  // ---------------------------------------------------------------- repeated sessions

  /** A complete session from `before` to `after` in which nothing else happens. */
  ghost predicate QuietRun(t: Setting, before: Pair, after: Pair, states: seq<Session>, acts: seq<Act>) {
    && CalmRun(t, states, acts)
    && (forall k :: 0 <= k < |acts| ==> acts[k].Move?)
    && Stores(states[0]) == before && Stores(states[|acts|]) == after
    && states[|acts|].left.phase.Returned? && states[|acts|].right.phase.Returned?
  }

  ghost predicate QuietSync(cs: Configs, horizon: u64, before: Pair, after: Pair) {
    exists states: seq<Session>, acts: seq<Act> ::
      QuietRun(Setting(cs, horizon, before), before, after, states, acts)
  }

  lemma UnionRoomy(cs: Configs, horizon: u64, stores: Pair)
    requires Lasting(stores.left + stores.right, horizon)
    requires Fits(cs.left, stores.left + stores.right) && Fits(cs.right, stores.left + stores.right)
    ensures Roomy(Setting(cs, horizon, stores))
  {
    var t, all := Setting(cs, horizon, stores), stores.left + stores.right;
    forall more: set<Wire> | more <= stores.right ensures Fits(cs.left, stores.left + more) {
      TotalLenMonotone(stores.left + more, all);
    }
    forall more: set<Wire> | more <= stores.left ensures Fits(cs.right, stores.right + more) {
      TotalLenMonotone(stores.right + more, all);
    }
    assert RoomFor(cs.left, stores.left, stores.right, BatchCap(cs));
    assert RoomFor(cs.right, stores.right, stores.left, BatchCap(cs));
    assert t.base.Of(Left) == stores.left && t.base.Of(Right) == stores.right;
    assert RoomySide(t, Left) && RoomySide(t, Right);
  }

  /** One session leaves the union alone and shrinks what each side misses by up to the smaller cap. */
  lemma SyncShrinksMissing(cs: Configs, horizon: u64, before: Pair, after: Pair)
    requires QuietSync(cs, horizon, before, after)
    requires Lasting(before.left + before.right, horizon)
    requires Fits(cs.left, before.left + before.right) && Fits(cs.right, before.left + before.right)
    ensures after.left + after.right == before.left + before.right
    ensures |after.right - after.left| == |before.right - before.left| - Min(|before.right - before.left|, BatchCap(cs))
    ensures |after.left - after.right| == |before.left - before.right| - Min(|before.left - before.right|, BatchCap(cs))
  {
    var states: seq<Session>, acts: seq<Act> :|
      QuietRun(Setting(cs, horizon, before), before, after, states, acts);
    UnionRoomy(cs, horizon, before);
    var fromRight := ExactGain(Setting(cs, horizon, before), states, acts, Left);
    var fromLeft := ExactGain(Setting(cs, horizon, before), states, acts, Right);
    SetsAfterGain(before, after, fromRight, fromLeft);
  }

  /** What a gain from the other side does to the union and to what is missing. */
  lemma SetsAfterGain(before: Pair, after: Pair, fromRight: set<Wire>, fromLeft: set<Wire>)
    requires fromRight <= before.right - before.left && fromLeft <= before.left - before.right
    requires after.left == before.left + fromRight && after.right == before.right + fromLeft
    ensures after.left + after.right == before.left + before.right
    ensures |after.right - after.left| == |before.right - before.left| - |fromRight|
    ensures |after.left - after.right| == |before.left - before.right| - |fromLeft|
  {
    assert after.right - after.left == before.right - before.left - fromRight;
    assert after.left - after.right == before.left - before.right - fromLeft;
  }

  ghost predicate Sessions(cs: Configs, horizons: seq<u64>, stores: seq<Pair>) {
    && |stores| == |horizons| + 1
    && forall k :: 0 <= k < |horizons| ==> QuietSync(cs, horizons[k], stores[k], stores[k + 1])
  }

  /** What is missing after `n` sessions: each takes away one batch, until nothing is left. */
  function StillMissing(missing: nat, batch: nat, n: nat): nat {
    if missing <= n * batch then 0 else missing - n * batch
  }

  lemma {:induction false} RepeatedSyncs(cs: Configs, horizons: seq<u64>, stores: seq<Pair>, n: nat)
    requires Sessions(cs, horizons, stores) && n <= |horizons|
    requires var all := stores[0].left + stores[0].right;
             && Fits(cs.left, all) && Fits(cs.right, all)
             && forall k :: 0 <= k < |horizons| ==> Lasting(all, horizons[k])
    ensures stores[n].left + stores[n].right == stores[0].left + stores[0].right
    ensures |stores[n].right - stores[n].left| == StillMissing(|stores[0].right - stores[0].left|, BatchCap(cs), n)
    ensures |stores[n].left - stores[n].right| == StillMissing(|stores[0].left - stores[0].right|, BatchCap(cs), n)
    decreases n
  {
    if n > 0 {
      RepeatedSyncs(cs, horizons, stores, n - 1);
      assert QuietSync(cs, horizons[n - 1], stores[n - 1], stores[n]);
      SyncShrinksMissing(cs, horizons[n - 1], stores[n - 1], stores[n]);
      assert n * BatchCap(cs) == (n - 1) * BatchCap(cs) + BatchCap(cs);
    }
  }

  /** Enough sessions to cover what either side misses leave both stores equal to the union. */
  lemma SyncsReachUnion(cs: Configs, horizons: seq<u64>, stores: seq<Pair>)
    requires Sessions(cs, horizons, stores)
    requires var all := stores[0].left + stores[0].right;
             && Fits(cs.left, all) && Fits(cs.right, all)
             && forall k :: 0 <= k < |horizons| ==> Lasting(all, horizons[k])
    requires |stores[0].right - stores[0].left| <= |horizons| * BatchCap(cs)
    requires |stores[0].left - stores[0].right| <= |horizons| * BatchCap(cs)
    ensures var all := stores[0].left + stores[0].right; stores[|horizons|] == Pair(all, all)
  {
    var n := |horizons|;
    RepeatedSyncs(cs, horizons, stores, n);
    assert stores[n].right - stores[n].left == {} && stores[n].left - stores[n].right == {};
    assert stores[n].left == stores[n].left + stores[n].right == stores[n].right;
  }
}
