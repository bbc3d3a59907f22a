/**
 * Exactly when an expired bundle can still gain a holder in some continuation of a run of the mesh
 * (mesh/src/relay.rs:194-233): an agent has it past its expiry check, with session budget left, and could hold it
 * at all.
 */
module NetworkExpiry {
  import opened Wrappers
  import opened Bundle
  import opened Relay
  import opened SyncProtocol
  import opened SyncProgress
  import opened Network
  import opened NetworkTheorems

  predicate EndPending(l: Link, side: Side, w: Wire, i: nat) {
    l.Node(side) == i && l.EndOf(side).phase == Admitting(w) && l.EndOf(side).budget > 0
  }

  /** Agent `i` has passed the expiry check for `w` and may still be let through by its budget. */
  predicate PastCheck(net: Net, w: Wire, i: nat) {
    (i, w) in net.checked || exists k: nat, side: Side :: k < |net.links| && EndPending(net.links[k], side, w, i)
  }

  /** And its store could take `w`, if only by being empty. */
  ghost predicate CanFile(configs: seq<RelayConfig>, net: Net, w: Wire, i: nat) {
    i < |configs| && PastCheck(net, w, i) && HasRoom(configs[i], {}, w)
  }

  /** A stretch of events, from any state. */
  ghost predicate Onward(configs: seq<RelayConfig>, nets: seq<Net>, events: seq<Event>) {
    |nets| == |events| + 1 && forall n :: 0 <= n < |events| ==> NetNextAt(configs, nets, events, n)
  }

  /** Event `n` puts `w` into the store of agent `i`. */
  predicate Gains(nets: seq<Net>, w: Wire, i: nat, n: nat) {
    n + 1 < |nets| && i < |nets[n].held| && i < |nets[n + 1].held| && w !in nets[n].held[i] && w in nets[n + 1].held[i]
  }

  // ---------------------------------------------------------------- only what is pending is filed

  lemma PendingBefore(configs: seq<RelayConfig>, net: Net, event: Event, net': Net, w: Wire, i: nat)
    requires WellFormed(configs, net) && NetNext(configs, net, event, net') && ExpiredAt(w, net.clock)
    requires PastCheck(net', w, i)
    ensures PastCheck(net, w, i)
  {
    if (i, w) !in net'.checked {
      var k: nat, side: Side :| k < |net'.links| && EndPending(net'.links[k], side, w, i);
      if event.Serve? && event.link == k {
        ServedNotPending(configs, net, k, event.side, net', w);
        assert side == Other(event.side) && EndPending(net.links[k], side, w, i);
      } else {
        assert k < |net.links| && EndPending(net.links[k], side, w, i);
      }
    }
  }

  /** The end that has just stepped is not about to file an expired bundle: it would have had to pass the check. */
  lemma ServedNotPending(configs: seq<RelayConfig>, net: Net, k: nat, side: Side, net': Net, w: Wire)
    requires ServeStep(configs, net, k, side, net') && ExpiredAt(w, net.clock)
    ensures net'.links[k].EndOf(side).phase != Admitting(w)
    ensures net'.links[k].EndOf(Other(side)) == net.links[k].EndOf(Other(side))
    ensures net'.links[k].a == net.links[k].a && net'.links[k].b == net.links[k].b
  {
    var l, node := net.links[k], net.links[k].Node(side);
    StepMovesBundles(configs[node], l.ViewOf(side, net.held[node]), net'.links[k].ViewOf(side, net'.held[node]),
                     Over(l.EndOf(Other(side))), net.clock);
  }

  lemma GainWasPending(configs: seq<RelayConfig>, net: Net, event: Event, net': Net, w: Wire, i: nat)
    requires WellFormed(configs, net) && NetNext(configs, net, event, net')
    requires i < |net.held| && i < |net'.held| && w !in net.held[i] && w in net'.held[i]
    ensures CanFile(configs, net, w, i)
  {
    match event
    case Serve(k, side) =>
      var l, node := net.links[k], net.links[k].Node(side);
      StepMovesBundles(configs[node], l.ViewOf(side, net.held[node]), net'.links[k].ViewOf(side, net'.held[node]),
                       Over(l.EndOf(Other(side))), net.clock);
      assert i == node && l.EndOf(side).phase == Admitting(w);
      assert Admit(configs[i], net.held[i], w, Some(l.EndOf(side).budget)).Inserted?;
      assert EndPending(l, side, w, i);
      RoomWhenEmpty(configs[i], net.held[i], w);
    case StoreOwn(j, b) => RoomWhenEmpty(configs[i], net.held[i], w);
    case _ => assert false;
  }

  lemma RoomWhenEmpty(config: RelayConfig, held: set<Wire>, w: Wire)
    requires HasRoom(config, held, w)
    ensures HasRoom(config, {}, w)
  {
    TotalLenMonotone({}, held);
  }

  lemma {:induction false} OnwardSound(configs: seq<RelayConfig>, nets: seq<Net>, events: seq<Event>, w: Wire, n: nat)
    requires Onward(configs, nets, events) && n < |nets| && Sound(configs, nets[0]) && ExpiredAt(w, nets[0].clock)
    ensures Sound(configs, nets[n]) && ExpiredAt(w, nets[n].clock)
    decreases n
  {
    if n > 0 {
      OnwardSound(configs, nets, events, w, n - 1);
      assert NetNextAt(configs, nets, events, n - 1);
      SoundStep(configs, nets[n - 1], events[n - 1], nets[n]);
    }
  }

  lemma {:induction false} PendingAtStart(
    configs: seq<RelayConfig>, nets: seq<Net>, events: seq<Event>, w: Wire, i: nat, n: nat)
    requires Onward(configs, nets, events) && n < |nets| && Sound(configs, nets[0]) && ExpiredAt(w, nets[0].clock)
    requires CanFile(configs, nets[n], w, i)
    ensures CanFile(configs, nets[0], w, i)
    decreases n
  {
    if n > 0 {
      OnwardSound(configs, nets, events, w, n - 1);
      assert NetNextAt(configs, nets, events, n - 1);
      PendingBefore(configs, nets[n - 1], events[n - 1], nets[n], w, i);
      PendingAtStart(configs, nets, events, w, i, n - 1);
    }
  }

  // ---------------------------------------------------------------- all that is pending can be filed

  /** Picking up everything an agent holds leaves it empty. */
  lemma TakeAll(configs: seq<RelayConfig>, net: Net, i: nat) returns (event: Event, net': Net)
    requires Sound(configs, net) && i < |configs|
    ensures NetNext(configs, net, event, net') && net' == net.(held := net.held[i := {}])
  {
    assert Accounted(configs[i], net.held[i]);
    var addresses := CanList(set b | b in net.held[i] :: AddressOf(b).value);
    forall b | b in net.held[i] ensures b in Matching(net.held[i], addresses) {
      assert AddressOf(b).value in addresses;
    }
    assert net.held[i] - Matching(net.held[i], addresses) == {};
    event, net' := Take(i, addresses), net.(held := net.held[i := {}]);
  }

  lemma FilesNow(configs: seq<RelayConfig>, net: Net, w: Wire, i: nat) returns (event: Event, net': Net)
    requires WellFormed(configs, net) && CanFile(configs, net, w, i) && net.held[i] == {}
    ensures NetNext(configs, net, event, net') && |net'.held| == |net.held| && net'.held[i] == {w}
  {
    if (i, w) in net.checked {
      event := StoreOwn(i, w);
      net' := net.(checked := net.checked - {(i, w)}, held := net.held[i := {} + {w}]);
    } else {
      var k: nat, side: Side :| k < |net.links| && EndPending(net.links[k], side, w, i);
      var l := net.links[k];
      var v := l.ViewOf(side, {});
      var v' := OnLock(configs[i], v, w);
      event := Serve(k, side);
      net' := net.(links := net.links[k := l.With(side, v')], held := net.held[i := v'.held]);
      assert net'.links[k].ViewOf(side, net'.held[i]) == v' && v'.held == {} + {w};
    }
  }

  lemma PendingGains(configs: seq<RelayConfig>, net: Net, w: Wire, i: nat) returns (nets: seq<Net>, events: seq<Event>)
    requires Sound(configs, net) && CanFile(configs, net, w, i)
    ensures Onward(configs, nets, events) && nets[0] == net && |events| == 2 && Gains(nets, w, i, 1)
  {
    var take, empty := TakeAll(configs, net, i);
    var file, filed := FilesNow(configs, empty, w, i);
    nets, events := [net, empty, filed], [take, file];
    assert NetNextAt(configs, nets, events, 0) && NetNextAt(configs, nets, events, 1);
  }

  // ---------------------------------------------------------------- over all continuations

  ghost predicate SomeTimeGains(configs: seq<RelayConfig>, net: Net, w: Wire, i: nat) {
    exists nets, events, n :: Onward(configs, nets, events) && nets[0] == net && Gains(nets, w, i, n)
  }

  /** Agent `i` can come to file an expired bundle in some continuation exactly when it has it past its check. */
  lemma AgentGainsIff(configs: seq<RelayConfig>, net: Net, w: Wire, i: nat)
    requires Sound(configs, net) && ExpiredAt(w, net.clock)
    ensures SomeTimeGains(configs, net, w, i) <==> CanFile(configs, net, w, i)
  {
    if nets: seq<Net>, events: seq<Event>, n: nat :|
      Onward(configs, nets, events) && nets[0] == net && Gains(nets, w, i, n) {
      OnwardSound(configs, nets, events, w, n);
      assert NetNextAt(configs, nets, events, n);
      GainWasPending(configs, nets[n], events[n], nets[n + 1], w, i);
      PendingAtStart(configs, nets, events, w, i, n);
    }
    if CanFile(configs, net, w, i) {
      var nets, events := PendingGains(configs, net, w, i);
    }
  }

  ghost predicate HoldersOutgrow(configs: seq<RelayConfig>, net: Net, w: Wire) {
    exists nets, events ::
      Onward(configs, nets, events) && nets[0] == net && !(Holders(nets[|events|], w) <= Holders(net, w))
  }

  lemma {:induction false} NewHolderGained(nets: seq<Net>, w: Wire, i: nat, n: nat) returns (m: nat)
    requires n < |nets| && i in Holders(nets[n], w) && i !in Holders(nets[0], w)
    requires forall t :: 0 <= t <= n ==> |nets[t].held| == |nets[0].held|
    ensures Gains(nets, w, i, m)
    decreases n
  {
    if w in nets[n - 1].held[i] {
      m := NewHolderGained(nets, w, i, n - 1);
    } else {
      m := n - 1;
    }
  }

  /**
   * In any run, once a bundle has expired: some continuation brings it a holder it does not have exactly when an
   * agent outside its holders has it past its check, with budget left, and could hold it at all.
   */
  lemma HoldersOutgrowIff(configs: seq<RelayConfig>, nets: seq<Net>, events: seq<Event>, m: nat, w: Wire)
    requires NetRun(configs, nets, events) && m < |nets| && ExpiredAt(w, nets[m].clock)
    ensures HoldersOutgrow(configs, nets[m], w)
            <==> exists i: nat :: i !in Holders(nets[m], w) && CanFile(configs, nets[m], w, i)
  {
    var net := nets[m];
    RunSound(configs, nets, events, m);
    if later: seq<Net>, more: seq<Event> :|
      Onward(configs, later, more) && later[0] == net && !(Holders(later[|more|], w) <= Holders(net, w)) {
      var i :| i in Holders(later[|more|], w) && i !in Holders(net, w);
      forall t | 0 <= t <= |more| ensures |later[t].held| == |net.held| {
        OnwardSound(configs, later, more, w, t);
      }
      var n := NewHolderGained(later, w, i, |more|);
      AgentGainsIff(configs, net, w, i);
    }
    if i: nat :| i !in Holders(net, w) && CanFile(configs, net, w, i) {
      var later, more := PendingGains(configs, net, w, i);
      assert i in Holders(later[2], w);
    }
  }

  ghost predicate NeverGainsAgain(configs: seq<RelayConfig>, net: Net, w: Wire) {
    forall nets, events, n, i :: Onward(configs, nets, events) && nets[0] == net ==> !Gains(nets, w, i, n)
  }

  /** And no event of any continuation adds a holder exactly when no agent at all has it so. */
  lemma NeverGainsAgainIff(configs: seq<RelayConfig>, nets: seq<Net>, events: seq<Event>, m: nat, w: Wire)
    requires NetRun(configs, nets, events) && m < |nets| && ExpiredAt(w, nets[m].clock)
    ensures NeverGainsAgain(configs, nets[m], w) <==> forall i: nat :: !CanFile(configs, nets[m], w, i)
  {
    RunSound(configs, nets, events, m);
    forall i: nat ensures SomeTimeGains(configs, nets[m], w, i) <==> CanFile(configs, nets[m], w, i) {
      AgentGainsIff(configs, nets[m], w, i);
    }
    if !NeverGainsAgain(configs, nets[m], w) {
      var later: seq<Net>, more: seq<Event>, n: nat, i: nat :|
        Onward(configs, later, more) && later[0] == nets[m] && Gains(later, w, i, n);
      assert SomeTimeGains(configs, nets[m], w, i);
    }
    if i: nat :| CanFile(configs, nets[m], w, i) {
      var later: seq<Net>, more: seq<Event>, n: nat :|
        Onward(configs, later, more) && later[0] == nets[m] && Gains(later, w, i, n);
    }
  }
}
