/**
 * The whole mesh, message by message: any number of agents, any number of concurrent sessions over
 * links opened between reachable devices, a connectivity graph that changes at will, and local
 * compose, take and sweep on every agent, all under one clock that never runs backwards.
 *
 * Admission reads the clock before it takes the store lock, so a local admission is two steps
 * (`CheckOwn`, `StoreOwn`), as it is inside a session.
 */
module Network {
  import opened Wrappers
  import opened Bundle
  import opened Relay
  import opened SyncProtocol
  import opened SyncProgress

  datatype Link = Link(a: nat, b: nat, left: End, right: End, toRight: seq<SyncMessage>, toLeft: seq<SyncMessage>) {
    function Node(side: Side): nat {
      if side == Left then a else b
    }

    function EndOf(side: Side): End {
      if side == Left then left else right
    }

    function Outbox(side: Side): seq<SyncMessage> {
      if side == Left then toRight else toLeft
    }

    /** One end with its own agent's store, as the protocol sees it. */
    function ViewOf(side: Side, held: set<Wire>): View {
      View(EndOf(side), Outbox(Other(side)), Outbox(side), held)
    }

    function With(side: Side, v: View): Link {
      if side == Left then Link(a, b, v.end, right, v.outbox, v.inbox) else Link(a, b, left, v.end, v.inbox, v.outbox)
    }

    /** The link as a session of the protocol, with some contents for the two stores. */
    function AsSession(heldLeft: set<Wire>, heldRight: set<Wire>): Session {
      Session(left, right, toRight, toLeft, heldLeft, heldRight)
    }
  }

  datatype Net = Net(
    clock: u64,
    held: seq<set<Wire>>,
    online: seq<bool>,
    severed: set<(nat, nat)>,
    links: seq<Link>,
    checked: set<(nat, Wire)>)

  datatype Event =
    | Tick
    | Rewire
    | Connect(from: nat, to: nat)
    | Serve(link: nat, side: Side)
    | CheckOwn(node: nat, bytes: Wire)
    | StoreOwn(node: nat, bytes: Wire)
    | Take(node: nat, addresses: seq<Address>)
    | Sweep(node: nat)

  predicate Reachable(net: Net, i: nat, j: nat) {
    && i != j && i < |net.online| && j < |net.online| && net.online[i] && net.online[j]
    && (i, j) !in net.severed && (j, i) !in net.severed
  }

  predicate WellFormed(configs: seq<RelayConfig>, net: Net) {
    && |net.held| == |net.online| == |configs|
    && forall k :: 0 <= k < |net.links| ==>
         net.links[k].a < |configs| && net.links[k].b < |configs| && net.links[k].a != net.links[k].b
  }

  /** One side of one link takes one step of the protocol, on its own agent's store. */
  ghost predicate ServeStep(configs: seq<RelayConfig>, net: Net, k: nat, side: Side, net': Net) {
    && WellFormed(configs, net) && k < |net.links| == |net'.links| && |net'.held| == |net.held|
    && var l, node := net.links[k], net.links[k].Node(side);
       var v' := net'.links[k].ViewOf(side, net'.held[node]);
       && EndStep(configs[node], l.ViewOf(side, net.held[node]), v', Over(l.EndOf(Other(side))), net.clock)
       && net' == net.(links := net.links[k := l.With(side, v')], held := net.held[node := v'.held])
  }

  ghost predicate NetNext(configs: seq<RelayConfig>, net: Net, event: Event, net': Net) {
    match event
    case Tick => net'.clock >= net.clock && net' == net.(clock := net'.clock)
    case Rewire => |net'.online| == |net.online| && net' == net.(online := net'.online, severed := net'.severed)
    case Connect(i, j) => Reachable(net, i, j) && net' == net.(links := net.links + [Link(i, j, FRESH, FRESH, [], [])])
    case Serve(k, side) => ServeStep(configs, net, k, side, net')
    case CheckOwn(i, w) =>
      i < |net.held| && Screen(w, net.clock).Ok? && net' == net.(checked := net.checked + {(i, w)})
    case StoreOwn(i, w) =>
      && i < |net.held| == |configs| && (i, w) in net.checked
      && net' == net.(checked := net.checked - {(i, w)},
                      held := net.held[i := AfterAdmit(net.held[i], w, Admit(configs[i], net.held[i], w, None))])
    case Take(i, addresses) =>
      i < |net.held| && net' == net.(held := net.held[i := net.held[i] - Matching(net.held[i], addresses)])
    case Sweep(i) => i < |net.held| && net' == net.(held := net.held[i := Swept(net.held[i], net.clock)])
  }

  predicate Started(configs: seq<RelayConfig>, net: Net) {
    && |net.held| == |net.online| == |configs|
    && (forall i :: 0 <= i < |net.held| ==> net.held[i] == {})
    && net.links == [] && net.checked == {}
  }

  ghost predicate NetNextAt(configs: seq<RelayConfig>, nets: seq<Net>, events: seq<Event>, i: nat)
    requires i < |events| && i + 1 < |nets|
  {
    NetNext(configs, nets[i], events[i], nets[i + 1])
  }

  ghost predicate NetRun(configs: seq<RelayConfig>, nets: seq<Net>, events: seq<Event>) {
    && |nets| == |events| + 1
    && Started(configs, nets[0])
    && forall i :: 0 <= i < |events| ==> NetNextAt(configs, nets, events, i)
  }

  // ---------------------------------------------------------------- what every step keeps

  predicate AdmitsDecodable(e: End) {
    e.phase.Admitting? ==> Decodable(e.phase.bytes)
  }

  ghost predicate LinkSound(l: Link) {
    Orderly(l.AsSession({}, {})) && AdmitsDecodable(l.left) && AdmitsDecodable(l.right)
  }

  /** Every agent within its caps, every session in order, everything past its checks decodable. */
  ghost predicate Sound(configs: seq<RelayConfig>, net: Net) {
    && WellFormed(configs, net)
    && (forall i :: 0 <= i < |configs| ==> Accounted(configs[i], net.held[i]))
    && (forall k :: 0 <= k < |net.links| ==> LinkSound(net.links[k]))
    && (forall i, w :: (i, w) in net.checked ==> Decodable(w))
  }

  /** A link's session steps exactly as the two-ended protocol does, whatever the other store holds. */
  lemma LinkSteps(cs: Configs, l: Link, side: Side, v: View, v': View, now: u64)
    requires v == l.ViewOf(side, v.held) && EndStep(cs.Of(side), v, v', Over(l.EndOf(Other(side))), now)
    requires Orderly(l.AsSession({}, {}))
    ensures Orderly(l.With(side, v').AsSession({}, {}))
  {
    var s := if side == Left then l.AsSession(v.held, {}) else l.AsSession({}, v.held);
    assert InStep(l.AsSession({}, {}), Left) && InStep(l.AsSession({}, {}), Right);
    assert Orderly(s);
    assert s.ViewOf(side) == v && s.With(side, v').ViewOf(side) == v';
    OrderlyStep(cs, s, Move(side, now), s.With(side, v'));
    assert InStep(s.With(side, v'), Left) && InStep(s.With(side, v'), Right);
  }

  lemma ServeKeepsLink(configs: seq<RelayConfig>, net: Net, k: nat, side: Side, net': Net)
    requires Sound(configs, net) && ServeStep(configs, net, k, side, net')
    ensures LinkSound(net'.links[k])
    ensures var node := net.links[k].Node(side); Accounted(configs[node], net'.held[node])
  {
    var l, node := net.links[k], net.links[k].Node(side);
    assert LinkSound(l) && Accounted(configs[node], net.held[node]);
    var v, v', gone := l.ViewOf(side, net.held[node]), net'.links[k].ViewOf(side, net'.held[node]),
        Over(l.EndOf(Other(side)));
    LinkSteps(Configs(configs[l.a], configs[l.b]), l, side, v, v', net.clock);
    StepMovesBundles(configs[node], v, v', gone, net.clock);
    StepAccounted(configs[node], v, v', gone, net.clock);
  }

  lemma SoundWithStore(configs: seq<RelayConfig>, net: Net, i: nat, held: set<Wire>)
    requires Sound(configs, net) && i < |configs| && Accounted(configs[i], held)
    ensures Sound(configs, net.(held := net.held[i := held]))
  {
  }

  lemma SoundWithLink(configs: seq<RelayConfig>, net: Net, k: nat, l: Link)
    requires Sound(configs, net) && k < |net.links| && LinkSound(l)
    requires l.a == net.links[k].a && l.b == net.links[k].b
    ensures Sound(configs, net.(links := net.links[k := l]))
  {
  }

  lemma SoundStep(configs: seq<RelayConfig>, net: Net, event: Event, net': Net)
    requires Sound(configs, net) && NetNext(configs, net, event, net')
    ensures Sound(configs, net')
  {
    match event
    case Serve(k, side) =>
      var node := net.links[k].Node(side);
      ServeKeepsLink(configs, net, k, side, net');
      SoundWithLink(configs, net, k, net'.links[k]);
      SoundWithStore(configs, net.(links := net.links[k := net'.links[k]]), node, net'.held[node]);
    case StoreOwn(i, w) =>
      AccountedAfterAdmit(configs[i], net.held[i], w, None);
      SoundWithStore(configs, net.(checked := net.checked - {(i, w)}), i, net'.held[i]);
    case Take(i, addresses) =>
      AccountedSubset(configs[i], net.held[i], net'.held[i]);
      SoundWithStore(configs, net, i, net'.held[i]);
    case Sweep(i) =>
      AccountedSubset(configs[i], net.held[i], net'.held[i]);
      SoundWithStore(configs, net, i, net'.held[i]);
    case Connect(i, j) => assert LinkSound(net'.links[|net.links|]);
    case _ =>
  }

  lemma {:induction false} RunSound(configs: seq<RelayConfig>, nets: seq<Net>, events: seq<Event>, n: nat)
    requires NetRun(configs, nets, events) && n < |nets|
    ensures Sound(configs, nets[n])
    decreases n
  {
    if n == 0 {
      assert forall i :: 0 <= i < |configs| ==> Accounted(configs[i], nets[0].held[i]);
    } else {
      RunSound(configs, nets, events, n - 1);
      assert NetNextAt(configs, nets, events, n - 1);
      SoundStep(configs, nets[n - 1], events[n - 1], nets[n]);
    }
  }

  /** In every run, every agent stays within both caps, whatever is interleaved with what. */
  lemma AlwaysAccounted(configs: seq<RelayConfig>, nets: seq<Net>, events: seq<Event>, n: nat, i: nat)
    requires NetRun(configs, nets, events) && n < |nets| && i < |configs|
    ensures |nets[n].held| == |configs|
    ensures |nets[n].held[i]| <= configs[i].maxTotalBundles
    ensures TotalLen(nets[n].held[i]) <= configs[i].maxTotalBytes
  {
    RunSound(configs, nets, events, n);
    assert Accounted(configs[i], nets[n].held[i]);
  }

  /** In every run, no session ever fails, and every unfinished session has a side that can move. */
  lemma SessionsNeverStuck(
    configs: seq<RelayConfig>, nets: seq<Net>, events: seq<Event>, k: nat)
    returns (side: Side, net': Net)
    requires NetRun(configs, nets, events) && k < |nets[|events|].links|
    ensures var l := nets[|events|].links[k];
            && !l.left.phase.Failed? && !l.right.phase.Failed?
            && ((l.left.phase.Returned? && l.right.phase.Returned?) ||
                NetNext(configs, nets[|events|], Serve(k, side), net'))
  {
    var net := nets[|events|];
    RunSound(configs, nets, events, |events|);
    var l := net.links[k];
    assert LinkSound(l);
    var s := l.AsSession({}, {});
    assert InStep(s, Left) && InStep(s, Right);
    side, net' := Left, net;
    if !(l.left.phase.Returned? && l.right.phase.Returned?) {
      side := SomeoneCanMove(s);
      var node := l.Node(side);
      var v := l.ViewOf(side, net.held[node]);
      var v' := CanStep(configs[node], v, Over(l.EndOf(Other(side))), net.clock);
      net' := net.(links := net.links[k := l.With(side, v')], held := net.held[node := v'.held]);
      assert net'.links[k].ViewOf(side, net'.held[node]) == v';
    }
  }

  // ---------------------------------------------------------------- the events that are one agent's own

  /** A session can be opened exactly between two different devices that are online and not cut off from each other. */
  lemma ConnectsIff(configs: seq<RelayConfig>, net: Net, i: nat, j: nat)
    requires WellFormed(configs, net) && i < |configs| && j < |configs|
    ensures (exists net' :: NetNext(configs, net, Connect(i, j), net')) <==>
              && i != j && net.online[i] && net.online[j] && (i, j) !in net.severed && (j, i) !in net.severed
    ensures forall net' :: NetNext(configs, net, Connect(i, j), net') ==>
              && |net'.links| == |net.links| + 1 && net'.links[..|net.links|] == net.links && net'.held == net.held
              && net'.links[|net.links|].a == i && net'.links[|net.links|].b == j
  {
    if Reachable(net, i, j) {
      assert NetNext(configs, net, Connect(i, j),
                     net.(links := net.links + [Link(i, j, FRESH, FRESH, [], [])]));
    }
  }

  /** The network's agent `i` is this one. */
  ghost predicate Stands(agent: MeshRelayAgent, configs: seq<RelayConfig>, net: Net, i: nat)
    reads agent
  {
    WellFormed(configs, net) && i < |configs| && agent.Valid()
    && agent.config == configs[i] && agent.Contents() == net.held[i]
  }

  /** Picking up is the agent's `take_for_addresses`. */
  method Taking(
    agent: MeshRelayAgent, addresses: seq<Address>, ghost configs: seq<RelayConfig>, ghost net: Net, ghost i: nat)
    returns (taken: seq<Wire>, ghost net': Net)
    requires Stands(agent, configs, net, i)
    modifies agent
    ensures NetNext(configs, net, Take(i, addresses), net') && Stands(agent, configs, net', i)
    ensures Elements(taken) == net.held[i] - net'.held[i]
  {
    taken := agent.TakeForAddresses(addresses);
    net' := net.(held := net.held[i := agent.Contents()]);
  }

  /** Sweeping is its `sweep_expired`. */
  method Sweeping(agent: MeshRelayAgent, now: u64, ghost configs: seq<RelayConfig>, ghost net: Net, ghost i: nat)
    returns (ghost net': Net)
    requires Stands(agent, configs, net, i) && now == net.clock
    modifies agent
    ensures NetNext(configs, net, Sweep(i), net') && Stands(agent, configs, net', i)
  {
    agent.SweepExpired(now);
    net' := net.(held := net.held[i := agent.Contents()]);
  }

  /** Composing is its `admit`: the check, then the store, or a refusal that leaves the network as it is. */
  method Composing(
    agent: MeshRelayAgent, bytes: Wire, now: u64, ghost configs: seq<RelayConfig>, ghost net: Net, ghost i: nat)
    returns (result: Result<(), MeshError>, ghost looked: Net, ghost net': Net)
    requires Stands(agent, configs, net, i) && now == net.clock
    modifies agent
    ensures Stands(agent, configs, net', i)
    ensures Screen(bytes, now).Err? ==> result.Err? && net' == net
    ensures Screen(bytes, now).Ok? ==>
              NetNext(configs, net, CheckOwn(i, bytes), looked) && NetNext(configs, looked, StoreOwn(i, bytes), net')
    ensures result.Ok? <==> bytes in net'.held[i] && Screen(bytes, now).Ok?
  {
    result := agent.AdmitOwn(bytes, now);
    looked, net' := net, net;
    if Screen(bytes, now).Ok? {
      looked := net.(checked := net.checked + {(i, bytes)});
      net' := looked.(checked := looked.checked - {(i, bytes)}, held := net.held[i := agent.Contents()]);
    }
  }
}
