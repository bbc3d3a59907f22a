/**
 * Safety over whole runs of the mesh: expired bundles stop spreading, and every bundle has a
 * time-respecting history of live links back to the device that composed it.
 */
module NetworkTheorems {
  import opened Wrappers
  import opened Bundle
  import opened Relay
  import opened SyncProtocol
  import opened Network

  // ---------------------------------------------------------------- expiry

  function Holders(net: Net, w: Wire): set<nat> {
    set i: nat | i < |net.held| && w in net.held[i]
  }

  predicate MidAdmission(net: Net, w: Wire, i: nat) {
    (i, w) in net.checked || exists k :: 0 <= k < |net.links| && LinkAdmits(net.links[k], w, i)
  }

  predicate LinkAdmits(l: Link, w: Wire, i: nat) {
    (l.a == i && l.left.phase == Admitting(w)) || (l.b == i && l.right.phase == Admitting(w))
  }

  /** Agents that hold `w` or have already passed its expiry check and are about to file it. */
  function HoldersToBe(net: Net, w: Wire): set<nat> {
    set i: nat | i < |net.held| && (w in net.held[i] || MidAdmission(net, w, i))
  }

  lemma ServeSpreads(configs: seq<RelayConfig>, net: Net, k: nat, side: Side, net': Net, w: Wire, i: nat)
    requires ServeStep(configs, net, k, side, net') && ExpiredAt(w, net.clock) && i < |net.held|
    ensures w in net'.held[i] && w !in net.held[i] ==> MidAdmission(net, w, i)
    ensures MidAdmission(net', w, i) ==> MidAdmission(net, w, i)
  {
    var l, l', node := net.links[k], net'.links[k], net.links[k].Node(side);
    StepMovesBundles(configs[node], l.ViewOf(side, net.held[node]), l'.ViewOf(side, net'.held[node]),
                     Over(l.EndOf(Other(side))), net.clock);
    if w in net'.held[i] && w !in net.held[i] {
      assert LinkAdmits(l, w, i);
    }
    if MidAdmission(net', w, i) && (i, w) !in net'.checked {
      var m :| 0 <= m < |net'.links| && LinkAdmits(net'.links[m], w, i);
      assert LinkAdmits(net.links[m], w, i);
    }
  }

  /** No step starts a new admission of an expired bundle, and only admissions under way can end. */
  lemma ExpiredStep(configs: seq<RelayConfig>, net: Net, event: Event, net': Net, w: Wire)
    requires NetNext(configs, net, event, net') && ExpiredAt(w, net.clock)
    ensures HoldersToBe(net', w) <= HoldersToBe(net, w)
    ensures forall i: nat :: MidAdmission(net', w, i) && i < |net.held| ==> MidAdmission(net, w, i)
  {
    forall i: nat | i < |net.held|
      ensures w in net'.held[i] && w !in net.held[i] ==> MidAdmission(net, w, i)
      ensures MidAdmission(net', w, i) ==> MidAdmission(net, w, i)
    {
      if event.Serve? {
        ServeSpreads(configs, net, event.link, event.side, net', w, i);
      } else if MidAdmission(net', w, i) && (i, w) !in net'.checked {
        var m :| 0 <= m < |net'.links| && LinkAdmits(net'.links[m], w, i);
        assert m < |net.links| && net.links[m] == net'.links[m];
      }
    }
  }

  /**
   * Once a bundle's expiry has passed, the agents that hold it or are mid-admission never grow again.
   * In particular, if no admission is under way at that moment, the holders never grow again.
   */
  lemma {:induction false} ExpiredNeverSpreads(
    configs: seq<RelayConfig>, nets: seq<Net>, events: seq<Event>, w: Wire, m: nat, n: nat)
    requires NetRun(configs, nets, events) && m <= n < |nets|
    requires ExpiredAt(w, nets[m].clock)
    ensures ExpiredAt(w, nets[n].clock) && HoldersToBe(nets[n], w) <= HoldersToBe(nets[m], w)
    ensures (forall i: nat :: !MidAdmission(nets[m], w, i)) ==> Holders(nets[n], w) <= Holders(nets[m], w)
    decreases n
  {
    if m < n {
      ExpiredNeverSpreads(configs, nets, events, w, m, n - 1);
      assert NetNextAt(configs, nets, events, n - 1);
      ExpiredStep(configs, nets[n - 1], events[n - 1], nets[n], w);
    }
    if forall i: nat :: !MidAdmission(nets[m], w, i) {
      forall i | i in Holders(nets[n], w) ensures i in Holders(nets[m], w) {
        assert i in HoldersToBe(nets[n], w);
      }
    }
  }

  /** Some admission of `w` that is under way would file it at an agent that does not hold it. */
  ghost predicate StillFiling(configs: seq<RelayConfig>, net: Net, w: Wire) {
    || (exists i: nat :: i < |net.held| == |configs| && (i, w) in net.checked &&
                         Admit(configs[i], net.held[i], w, None).Inserted?)
    || (exists k: nat, side: Side :: k < |net.links| && WellFormed(configs, net) && LinkFiles(configs, net, w, k, side))
  }

  ghost predicate LinkFiles(configs: seq<RelayConfig>, net: Net, w: Wire, k: nat, side: Side)
    requires k < |net.links| && WellFormed(configs, net)
  {
    var e, node := net.links[k].EndOf(side), net.links[k].Node(side);
    e.phase == Admitting(w) && Admit(configs[node], net.held[node], w, Some(e.budget)).Inserted?
  }

  ghost predicate CanGrow(configs: seq<RelayConfig>, net: Net, w: Wire) {
    exists event, net' :: NetNext(configs, net, event, net') && !(Holders(net', w) <= Holders(net, w))
  }

  lemma CheckedFiles(configs: seq<RelayConfig>, net: Net, w: Wire, i: nat)
    requires i < |net.held| == |configs| && (i, w) in net.checked && Admit(configs[i], net.held[i], w, None).Inserted?
    ensures CanGrow(configs, net, w)
  {
    var net' := net.(checked := net.checked - {(i, w)}, held := net.held[i := net.held[i] + {w}]);
    assert NetNext(configs, net, StoreOwn(i, w), net');
    assert i in Holders(net', w) && i !in Holders(net, w);
  }

  lemma SessionFiles(configs: seq<RelayConfig>, net: Net, w: Wire, k: nat, side: Side)
    requires WellFormed(configs, net) && k < |net.links| && LinkFiles(configs, net, w, k, side)
    ensures CanGrow(configs, net, w)
  {
    var l, node := net.links[k], net.links[k].Node(side);
    var v := l.ViewOf(side, net.held[node]);
    var v' := OnLock(configs[node], v, w);
    var net' := net.(links := net.links[k := l.With(side, v')], held := net.held[node := v'.held]);
    assert net'.links[k].ViewOf(side, net'.held[node]) == v';
    assert NetNext(configs, net, Serve(k, side), net');
    assert node in Holders(net', w) && node !in Holders(net, w);
  }

  /** The holders of an expired bundle can grow in one step exactly when such an admission is under way. */
  lemma ExpiredHoldersGrowIff(configs: seq<RelayConfig>, net: Net, w: Wire)
    requires WellFormed(configs, net) && ExpiredAt(w, net.clock)
    ensures CanGrow(configs, net, w) <==> StillFiling(configs, net, w)
  {
    if event, net' :| NetNext(configs, net, event, net') && !(Holders(net', w) <= Holders(net, w)) {
      GrowthIsFiling(configs, net, event, net', w);
    }
    if i: nat :|
      i < |net.held| == |configs| && (i, w) in net.checked && Admit(configs[i], net.held[i], w, None).Inserted? {
      CheckedFiles(configs, net, w, i);
    } else if StillFiling(configs, net, w) {
      var k: nat, side: Side :| k < |net.links| && LinkFiles(configs, net, w, k, side);
      SessionFiles(configs, net, w, k, side);
    }
  }

  lemma GrowthIsFiling(configs: seq<RelayConfig>, net: Net, event: Event, net': Net, w: Wire)
    requires WellFormed(configs, net) && ExpiredAt(w, net.clock)
    requires NetNext(configs, net, event, net') && !(Holders(net', w) <= Holders(net, w))
    ensures StillFiling(configs, net, w)
  {
    var i :| i in Holders(net', w) && i !in Holders(net, w);
    match event
    case Serve(k, side) =>
      var l, node := net.links[k], net.links[k].Node(side);
      StepMovesBundles(configs[node], l.ViewOf(side, net.held[node]), net'.links[k].ViewOf(side, net'.held[node]),
                       Over(l.EndOf(Other(side))), net.clock);
      assert i == node && LinkFiles(configs, net, w, k, side);
    case StoreOwn(j, b) => assert i == j && w == b;
    case _ => assert false;
  }

  /** The window is real: a bundle checked just before its expiry can be filed just after it. */
  lemma ExpiredHoldersCanGrow(
    configs: seq<RelayConfig>, online: seq<bool>, w: Wire)
    returns (nets: seq<Net>, events: seq<Event>)
    requires |configs| == |online| > 0 && Screen(w, 0).Ok? && HasRoom(configs[0], {}, w)
    ensures NetRun(configs, nets, events) && |events| == 3
    ensures ExpiredAt(w, nets[2].clock) && Holders(nets[2], w) == {} && Holders(nets[3], w) == {0}
  {
    var empty: seq<set<Wire>> := seq(|configs|, _ => {});
    var start := Net(0, empty, online, {}, [], {});
    var looked := start.(checked := {(0, w)});
    var later := looked.(clock := ExpiryMs(w).value);
    var filed := later.(checked := {}, held := empty[0 := {w}]);
    nets, events := [start, looked, later, filed], [CheckOwn(0, w), Tick, StoreOwn(0, w)];
    assert Admit(configs[0], {}, w, None).Inserted? && {} + {w} == {w};
    assert start.checked + {(0, w)} == {(0, w)} && later.checked - {(0, w)} == {};
    assert NetNextAt(configs, nets, events, 0) && NetNextAt(configs, nets, events, 1)
        && NetNextAt(configs, nets, events, 2);
    assert Holders(filed, w) == {0};
  }

  /** An agent that sweeps, on its own or at the start of a session, drops everything expired. */
  lemma SweepsDropExpired(configs: seq<RelayConfig>, net: Net, event: Event, net': Net, w: Wire, i: nat)
    requires WellFormed(configs, net) && NetNext(configs, net, event, net') && ExpiredAt(w, net.clock)
    requires || event == Sweep(i)
             || (event.Serve? && event.link < |net.links| && net.links[event.link].Node(event.side) == i &&
                 net.links[event.link].EndOf(event.side).phase.Sweeping?)
    ensures i !in Holders(net', w)
  {
  }

  // ---------------------------------------------------------------- provenance

  /**
   * A bundle's history: filed at the device that composed it (event `at`), then carried over one
   * link after another, each hop filed by the receiving end's session step (event `at`).
   */
  datatype Trail = Composed(node: nat, at: nat) | Carried(previous: Trail, link: nat, side: Side, node: nat, at: nat)

  /** Link `k` joins `node` to `peer` and was opened, while they were reachable, before event `at`. */
  predicate OpenedBefore(nets: seq<Net>, events: seq<Event>, k: nat, node: nat, peer: nat, at: nat)
    requires |nets| == |events| + 1 && at <= |events|
  {
    exists c: nat :: c < at && OpenedAt(nets, events, k, node, peer, c)
  }

  predicate OpenedAt(nets: seq<Net>, events: seq<Event>, k: nat, node: nat, peer: nat, c: nat)
    requires |nets| == |events| + 1 && c < |events|
  {
    && (events[c] == Connect(node, peer) || events[c] == Connect(peer, node))
    && Reachable(nets[c], node, peer) && |nets[c].links| == k
  }

  /** Event `at` put `w` into `node`'s store. */
  predicate Files(nets: seq<Net>, events: seq<Event>, w: Wire, node: nat, at: nat)
    requires |nets| == |events| + 1 && at < |events|
  {
    && node < |nets[at].held| && node < |nets[at + 1].held|
    && w !in nets[at].held[node] && w in nets[at + 1].held[node]
  }

  predicate ValidTrail(nets: seq<Net>, events: seq<Event>, w: Wire, trail: Trail)
    requires |nets| == |events| + 1
  {
    trail.at < |events| && Files(nets, events, w, trail.node, trail.at) &&
    match trail
    case Composed(node, at) => events[at] == StoreOwn(node, w)
    case Carried(previous, k, side, node, at) =>
      && ValidTrail(nets, events, w, previous) && previous.at < at
      && events[at] == Serve(k, side)
      && OpenedBefore(nets, events, k, node, previous.node, at)
  }

  /** `w` reached `node` along a valid trail before event `n`. */
  ghost predicate Reached(nets: seq<Net>, events: seq<Event>, w: Wire, node: nat, n: nat)
    requires |nets| == |events| + 1
  {
    exists trail :: ValidTrail(nets, events, w, trail) && trail.node == node && trail.at < n
  }

  /** `w` is on its way out of this side of the link, or has just left it. */
  predicate Carries(l: Link, side: Side, w: Wire) {
    || w in l.EndOf(side).toSend
    || Push(w) in l.Outbox(side)
    || l.EndOf(Other(side)).phase == Admitting(w)
  }

  ghost predicate TracedNode(nets: seq<Net>, events: seq<Event>, n: nat, i: nat)
    requires |nets| == |events| + 1 && n < |nets| && i < |nets[n].held|
  {
    forall w :: w in nets[n].held[i] ==> Reached(nets, events, w, i, n)
  }

  ghost predicate TracedLink(nets: seq<Net>, events: seq<Event>, n: nat, k: nat, side: Side)
    requires |nets| == |events| + 1 && n < |nets| && k < |nets[n].links|
  {
    var l := nets[n].links[k];
    && OpenedBefore(nets, events, k, l.Node(side), l.Node(Other(side)), n)
    && forall w :: Carries(l, side, w) ==> Reached(nets, events, w, l.Node(side), n)
  }

  ghost predicate Traced(nets: seq<Net>, events: seq<Event>, n: nat)
    requires |nets| == |events| + 1 && n < |nets|
  {
    && (forall i :: 0 <= i < |nets[n].held| ==> TracedNode(nets, events, n, i))
    && (forall k, side :: 0 <= k < |nets[n].links| ==> TracedLink(nets, events, n, k, side))
  }

  lemma ReachedLater(nets: seq<Net>, events: seq<Event>, w: Wire, node: nat, n: nat)
    requires |nets| == |events| + 1 && Reached(nets, events, w, node, n)
    ensures Reached(nets, events, w, node, n + 1)
  {
    var trail :| ValidTrail(nets, events, w, trail) && trail.node == node && trail.at < n;
  }

  lemma OpenedLater(nets: seq<Net>, events: seq<Event>, k: nat, node: nat, peer: nat, n: nat)
    requires |nets| == |events| + 1 && n < |events| && OpenedBefore(nets, events, k, node, peer, n)
    ensures OpenedBefore(nets, events, k, node, peer, n + 1)
  {
    var c: nat :| c < n && OpenedAt(nets, events, k, node, peer, c);
    assert c < n + 1;
  }

  /** Links and stores that an event leaves alone stay traced. */
  lemma TracedNodeLater(nets: seq<Net>, events: seq<Event>, n: nat, i: nat)
    requires |nets| == |events| + 1 && n < |events| && i < |nets[n].held| && i < |nets[n + 1].held|
    requires TracedNode(nets, events, n, i) && nets[n + 1].held[i] <= nets[n].held[i]
    ensures TracedNode(nets, events, n + 1, i)
  {
    var next := n + 1;
    forall w | w in nets[next].held[i] ensures Reached(nets, events, w, i, next) {
      ReachedLater(nets, events, w, i, n);
    }
  }

  lemma TracedLinkLater(nets: seq<Net>, events: seq<Event>, n: nat, k: nat, side: Side)
    requires |nets| == |events| + 1 && n < |events| && k < |nets[n].links| && k < |nets[n + 1].links|
    requires TracedLink(nets, events, n, k, side) && nets[n + 1].links[k] == nets[n].links[k]
    ensures TracedLink(nets, events, n + 1, k, side)
  {
    var l := nets[n].links[k];
    OpenedLater(nets, events, k, l.Node(side), l.Node(Other(side)), n);
    forall w | Carries(l, side, w) ensures Reached(nets, events, w, l.Node(side), n + 1) {
      ReachedLater(nets, events, w, l.Node(side), n);
    }
  }

  /** The end that steps: what it is about to send was in its store, what it files came over the link. */
  lemma ServedTraced(configs: seq<RelayConfig>, nets: seq<Net>, events: seq<Event>, n: nat, k: nat, side: Side)
    requires |nets| == |events| + 1 && n < |events| && events[n] == Serve(k, side)
    requires ServeStep(configs, nets[n], k, side, nets[n + 1])
    requires TracedLink(nets, events, n, k, side) && TracedLink(nets, events, n, k, Other(side))
    requires TracedNode(nets, events, n, nets[n].links[k].Node(side))
    ensures TracedNode(nets, events, n + 1, nets[n].links[k].Node(side))
    ensures TracedLink(nets, events, n + 1, k, side) && TracedLink(nets, events, n + 1, k, Other(side))
  {
    var l, l' := nets[n].links[k], nets[n + 1].links[k];
    var node, peer := l.Node(side), l.Node(Other(side));
    StepMovesBundles(configs[node], l.ViewOf(side, nets[n].held[node]), l'.ViewOf(side, nets[n + 1].held[node]),
                     Over(l.EndOf(Other(side))), nets[n].clock);
    assert Other(Other(side)) == side;
    OpenedLater(nets, events, k, node, peer, n);
    OpenedLater(nets, events, k, peer, node, n);
    var next := n + 1;
    forall w | w in nets[next].held[node] ensures Reached(nets, events, w, node, next) {
      if w in nets[n].held[node] {
        ReachedLater(nets, events, w, node, n);
      } else {
        assert Carries(l, Other(side), w);
        var before :| ValidTrail(nets, events, w, before) && before.node == peer && before.at < n;
        var trail := Carried(before, k, side, node, n);
        assert Files(nets, events, w, node, n);
        assert ValidTrail(nets, events, w, trail);
      }
    }
    forall w | Carries(l', side, w) ensures Reached(nets, events, w, node, n + 1) {
      if Carries(l, side, w) {
        ReachedLater(nets, events, w, node, n);
      } else {
        assert w in nets[n].held[node];
        ReachedLater(nets, events, w, node, n);
      }
    }
    forall w | Carries(l', Other(side), w) ensures Reached(nets, events, w, peer, n + 1) {
      assert Carries(l, Other(side), w);
      ReachedLater(nets, events, w, peer, n);
    }
  }

  lemma TracedStep(configs: seq<RelayConfig>, nets: seq<Net>, events: seq<Event>, n: nat)
    requires NetRun(configs, nets, events) && n < |events| && Traced(nets, events, n)
    ensures Traced(nets, events, n + 1)
  {
    var net, net', event := nets[n], nets[n + 1], events[n];
    var next := n + 1;
    assert NetNextAt(configs, nets, events, n);
    forall i | 0 <= i < |net'.held| ensures TracedNode(nets, events, next, i) {
      assert TracedNode(nets, events, n, i);
      if event.Serve? && i == net.links[event.link].Node(event.side) {
        ServedTraced(configs, nets, events, n, event.link, event.side);
      } else if event.StoreOwn? && i == event.node {
        StoredTraced(configs, nets, events, n);
      } else {
        TracedNodeLater(nets, events, n, i);
      }
    }
    forall k, side | 0 <= k < |net'.links| ensures TracedLink(nets, events, next, k, side) {
      if k == |net.links| {
        assert OpenedAt(nets, events, k, net'.links[k].Node(side), net'.links[k].Node(Other(side)), n);
      } else if event.Serve? && k == event.link {
        assert TracedNode(nets, events, n, net.links[k].Node(event.side));
        ServedTraced(configs, nets, events, n, k, event.side);
        assert side == event.side || side == Other(event.side);
      } else {
        TracedLinkLater(nets, events, n, k, side);
      }
    }
  }

  lemma StoredTraced(configs: seq<RelayConfig>, nets: seq<Net>, events: seq<Event>, n: nat)
    requires |nets| == |events| + 1 && n < |events| && events[n].StoreOwn?
    requires NetNext(configs, nets[n], events[n], nets[n + 1])
    requires TracedNode(nets, events, n, events[n].node)
    ensures TracedNode(nets, events, n + 1, events[n].node)
  {
    var i, b, next := events[n].node, events[n].bytes, n + 1;
    forall w | w in nets[next].held[i] ensures Reached(nets, events, w, i, next) {
      if w in nets[n].held[i] {
        ReachedLater(nets, events, w, i, n);
      } else {
        assert w == b && ValidTrail(nets, events, w, Composed(i, n));
      }
    }
  }

  /**
   * In every run, whatever is severed, healed or switched off, a bundle in a store got there along a
   * chain of links, each opened between reachable devices before it carried the bundle, with filing
   * times strictly increasing from the device that composed it.
   */
  lemma {:induction false} EveryBundleHasATrail(configs: seq<RelayConfig>, nets: seq<Net>, events: seq<Event>, n: nat)
    requires NetRun(configs, nets, events) && n < |nets|
    ensures Traced(nets, events, n)
    decreases n
  {
    if n > 0 {
      EveryBundleHasATrail(configs, nets, events, n - 1);
      TracedStep(configs, nets, events, n - 1);
    }
  }
}
