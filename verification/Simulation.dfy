/**
 * The simulated air (mesh/src/radio/simulated.rs) and the round-based harness over it
 * (mesh/src/sim.rs, with `MeshNode::sync_once` from mesh/src/transport.rs).
 *
 * The harness drives the message-level network of `Network`: syncing opens a link and lets an arbitrary scheduler take
 * steps, one end of any link at a time, until the connecting end has returned. Sessions whose accepting end is still
 * at work go on during later ones.
 */
module Simulation {
  import opened Wrappers
  import opened Bundle
  import opened Relay
  import opened SyncProtocol
  import opened SyncProgress
  import opened Network
  import opened NetworkSpread

  function OrderedPair(a: nat, b: nat): (nat, nat) {
    if a <= b then (a, b) else (b, a)
  }

  /** A pair is one link, whichever end is named first. */
  lemma OnePair(a: nat, b: nat)
    ensures forall x: nat, y: nat :: OrderedPair(x, y) == OrderedPair(a, b) <==> {x, y} == {a, b}
  {
    forall x: nat, y: nat ensures OrderedPair(x, y) == OrderedPair(a, b) <==> {x, y} == {a, b} {
      if {x, y} == {a, b} {
        assert x in {a, b} && y in {a, b} && a in {x, y} && b in {x, y};
      }
    }
  }

  class SimNetwork {
    /** Whether each registered device is online. */
    var devices: map<nat, bool>
    var severed: set<(nat, nat)>
    var nextIndex: nat

    predicate Live(a: nat, b: nat)
      reads this
    {
      a != b && a in devices && devices[a] && b in devices && devices[b] && OrderedPair(a, b) !in severed
    }

    constructor ()
      ensures devices == map[] && severed == {} && nextIndex == 0
    {
      devices, severed, nextIndex := map[], {}, 0;
    }

    method Register() returns (index: nat)
      modifies this
      ensures index == old(nextIndex) && nextIndex == index + 1
      ensures devices == old(devices)[index := true] && severed == old(severed)
    {
      index := nextIndex;
      nextIndex := nextIndex + 1;
      devices := devices[index := true];
    }

    /** Cutting a link cuts it in both directions and touches no other link. */
    method Sever(a: nat, b: nat)
      modifies this`severed
      ensures severed == old(severed) + {OrderedPair(a, b)}
      ensures forall x: nat, y: nat :: Live(x, y) <==> old(Live(x, y)) && {x, y} != {a, b}
    {
      OnePair(a, b);
      severed := severed + {OrderedPair(a, b)};
    }

    method Heal(a: nat, b: nat)
      modifies this`severed
      ensures severed == old(severed) - {OrderedPair(a, b)}
      ensures forall x: nat, y: nat :: {x, y} != {a, b} ==> (Live(x, y) <==> old(Live(x, y)))
      ensures Live(a, b) <==> a != b && a in devices && devices[a] && b in devices && devices[b]
    {
      OnePair(a, b);
      severed := severed - {OrderedPair(a, b)};
    }

    method SetOnline(device: nat, online: bool)
      modifies this`devices
      ensures forall x: nat, y: nat :: x != device && y != device ==> (Live(x, y) <==> old(Live(x, y)))
      ensures !online ==> forall x :: !Live(device, x) && !Live(x, device)
      ensures online ==> forall x :: Live(device, x) <==>
                device != x && device in devices && x in devices && devices[x] && OrderedPair(device, x) !in severed
      ensures devices == if device in old(devices) then old(devices)[device := online] else old(devices)
    {
      if device in devices {
        devices := devices[device := online];
      }
    }

    /** `reachable`, with the early return it takes before looking at severed links. */
    method Reachable(a: nat, b: nat) returns (reachable: bool)
      ensures reachable == Live(a, b) == Live(b, a)
      ensures reachable <==>
                && a != b && a in devices && devices[a] && b in devices && devices[b]
                && (if a < b then (a, b) else (b, a)) !in severed
    {
      if a == b {
        return false;
      }
      var aOnline := a in devices && devices[a];
      var bOnline := b in devices && devices[b];
      if !aOnline || !bOnline {
        return false;
      }
      return OrderedPair(a, b) !in severed;
    }

    /** A scan sights every device it has a live link to, once, and nobody else. */
    method Scan(self: nat) returns (sightings: seq<nat>)
      ensures Lists(sightings, set b | b in devices && Live(self, b))
    {
      var todo := devices.Keys;
      sightings := [];
      while todo != {}
        invariant todo <= devices.Keys
        invariant Lists(sightings, set b | b in devices.Keys - todo && Live(self, b))
        decreases todo
      {
        var b :| b in todo;
        ghost var seen := set c | c in devices.Keys - todo && Live(self, c);
        if Live(self, b) {
          ListsMore(sightings, seen, b);
          sightings := sightings + [b];
        }
        todo := todo - {b};
        assert (set c | c in devices.Keys - todo && Live(self, c)) == seen + if Live(self, b) then {b} else {};
      }
      assert devices.Keys - todo == devices.Keys;
    }
  }

  // ---------------------------------------------------------------- histories of the network

  /** A run of the network so far. */
  datatype History = History(nets: seq<Net>, events: seq<Event>)

  ghost predicate Runs(configs: seq<RelayConfig>, h: History) {
    NetRun(configs, h.nets, h.events)
  }

  function Now(h: History): Net
    requires |h.nets| == |h.events| + 1
  {
    h.nets[|h.events|]
  }

  /** `later` goes on from `h` with neither a composition nor a pick-up. */
  predicate QuietSince(h: History, later: History) {
    && h.nets <= later.nets && h.events <= later.events
    && |h.nets| == |h.events| + 1 && |later.nets| == |later.events| + 1
    && forall t :: |h.events| <= t < |later.events| ==> !later.events[t].Take? && !later.events[t].StoreOwn?
  }

  lemma Goes(configs: seq<RelayConfig>, h: History, event: Event, net: Net) returns (later: History)
    requires Runs(configs, h) && NetNext(configs, Now(h), event, net)
    ensures later == History(h.nets + [net], h.events + [event])
    ensures Runs(configs, later) && Now(later) == net
    ensures !event.Take? && !event.StoreOwn? ==> QuietSince(h, later)
  {
    later := History(h.nets + [net], h.events + [event]);
    forall t {:trigger NetNextAt(configs, later.nets, later.events, t)} | 0 <= t < |later.events|
      ensures NetNextAt(configs, later.nets, later.events, t)
    {
      if t < |h.events| {
        assert NetNextAt(configs, h.nets, h.events, t);
      }
    }
  }

  lemma QuietTwice(first: History, second: History, third: History)
    requires QuietSince(first, second) && QuietSince(second, third)
    ensures QuietSince(first, third)
  {
    forall t | |first.events| <= t < |third.events| ensures !third.events[t].Take? && !third.events[t].StoreOwn? {
      if t < |second.events| {
        assert third.events[t] == second.events[t];
      }
    }
  }

  /** Everything composed in the history. */
  ghost function AllComposed(h: History): set<Wire> {
    Composed(h.events, |h.events|)
  }

  lemma QuietComposesNothing(h: History, later: History)
    requires QuietSince(h, later)
    ensures AllComposed(later) == AllComposed(h)
  {
    forall w ensures w in AllComposed(later) <==> w in AllComposed(h) {
      if w in AllComposed(later) {
        var t :| 0 <= t < |later.events| && later.events[t].StoreOwn? && later.events[t].bytes == w;
        assert h.events[t] == later.events[t];
      }
      if w in AllComposed(h) {
        var t :| 0 <= t < |h.events| && h.events[t].StoreOwn? && h.events[t].bytes == w;
        assert later.events[t] == h.events[t];
      }
    }
  }

  /** Caps fit everything composed, nothing of it expires by `horizon`, and that is not past. */
  ghost predicate Clear(configs: seq<RelayConfig>, h: History, horizon: u64)
    requires |h.nets| == |h.events| + 1
  {
    Covers(configs, AllComposed(h), horizon) && Now(h).clock <= horizon
  }

  lemma QuietKeeps(configs: seq<RelayConfig>, h: History, later: History, horizon: u64, i: nat)
    requires Runs(configs, h) && Runs(configs, later) && QuietSince(h, later) && Clear(configs, later, horizon)
    requires i < |configs|
    ensures |Now(h).held| == |Now(later).held| == |configs|
    ensures Now(h).held[i] <= Now(later).held[i] <= AllComposed(later)
  {
    var m, n := |h.events|, |later.events|;
    CoversFewer(configs, AllComposed(later), horizon, Composed(later.events, n), Now(later).clock);
    StoresKeep(configs, later.nets, later.events, m, n, n, i);
    HeldIsComposed(configs, later.nets, later.events, n, i);
  }

  // ---------------------------------------------------------------- how much work is left

  function LinkWork(configs: seq<RelayConfig>, l: Link): nat {
    if l.a < |configs| && l.b < |configs|
    then OwnWork(configs[l.a], l.left) + OwnWork(configs[l.b], l.right) + 2 * |l.toLeft| + 2 * |l.toRight|
    else 0
  }

  function NetWork(configs: seq<RelayConfig>, links: seq<Link>): nat {
    if links == [] then 0 else NetWork(configs, links[..|links| - 1]) + LinkWork(configs, links[|links| - 1])
  }

  lemma {:induction false} NetWorkUpdate(configs: seq<RelayConfig>, links: seq<Link>, k: nat, l: Link)
    requires k < |links|
    ensures NetWork(configs, links[k := l]) + LinkWork(configs, links[k])
            == NetWork(configs, links) + LinkWork(configs, l)
    decreases |links|
  {
    var n := |links| - 1;
    if k == n {
      assert links[k := l][..n] == links[..n];
    } else {
      NetWorkUpdate(configs, links[..n], k, l);
      assert links[k := l][..n] == links[..n][k := l];
    }
  }

  /** Every step of an end of any link leaves less to do. */
  lemma ServeWorks(configs: seq<RelayConfig>, net: Net, k: nat, side: Side, net': Net)
    requires NetNext(configs, net, Serve(k, side), net')
    ensures |net'.links| == |net.links| && NetWork(configs, net'.links) < NetWork(configs, net.links)
  {
    var l, node := net.links[k], net.links[k].Node(side);
    EndStepWorks(configs[node], l.ViewOf(side, net.held[node]), net'.links[k].ViewOf(side, net'.held[node]),
                 Over(l.EndOf(Other(side))), net.clock);
    NetWorkUpdate(configs, net.links, k, net'.links[k]);
  }

  // ---------------------------------------------------------------- the harness

  /** Node `b` is at most `hops` live links away from node `a`. */
  ghost predicate WithinHops(net: SimNetwork, a: nat, b: nat, hops: nat, nodes: nat)
    reads net
    decreases hops
  {
    if hops == 0 then a == b
    else WithinHops(net, a, b, hops - 1, nodes) ||
         exists mid: nat :: mid < nodes && WithinHops(net, a, mid, hops - 1, nodes) && net.Live(mid, b)
  }

  /** "At most": a node within some number of hops is within any larger number. */
  lemma MoreHops(net: SimNetwork, a: nat, b: nat, hops: nat, more: nat, nodes: nat)
    requires WithinHops(net, a, b, hops, nodes) && hops <= more
    ensures WithinHops(net, a, b, more, nodes)
    decreases more
  {
    if hops < more {
      MoreHops(net, a, b, hops, more - 1, nodes);
    }
  }

  /** Nothing is lost, and nothing is held that was never composed. */
  predicate Grown(before: seq<set<Wire>>, after: seq<set<Wire>>, composed: set<Wire>) {
    |after| == |before| && forall k :: 0 <= k < |before| ==> before[k] <= after[k] <= composed
  }

  /** One round: every node has what every node it has a live link to held before. */
  ghost predicate Round(net: SimNetwork, before: seq<set<Wire>>, after: seq<set<Wire>>)
    reads net
  {
    && |after| == |before| && (forall k :: 0 <= k < |before| ==> before[k] <= after[k])
    && forall i: nat, j: nat :: i < |before| && j < |before| && net.Live(i, j) ==> before[j] <= after[i]
  }

  function Agents(size: nat, config: RelayConfig): seq<RelayConfig> {
    seq(size, _ => config)
  }

  class SimHarness {
    const config: RelayConfig
    const size: nat
    const network: SimNetwork
    /** What the nodes, their links and their stores have been through. */
    ghost var history: History

    /** Devices 0, 1, ... are the nodes' radios, in order. */
    ghost predicate Valid()
      reads this, network
    {
      && Runs(Agents(size, config), history) && |Now(history).held| == size
      && (forall d: nat :: d in network.devices <==> d < size)
      && (forall p :: p in network.severed ==> p.0 <= p.1)
    }

    ghost function Stores(): seq<set<Wire>>
      requires Valid()
      reads this, network
    {
      Now(history).held
    }

    /** The caps fit everything composed so far, nothing of it expires by `horizon`, and that is not past. */
    ghost predicate ClearUntil(horizon: u64)
      requires Valid()
      reads this, network
    {
      Clear(Agents(size, config), history, horizon)
    }

    constructor (n: nat, config: RelayConfig)
      ensures Valid() && fresh(network) && size == n && this.config == config
      ensures forall k :: 0 <= k < n ==> Stores()[k] == {}
      ensures AllComposed(history) == {} && Now(history).clock == 0
      ensures forall a: nat, b: nat :: network.Live(a, b) <==> a != b && a < n && b < n
    {
      var net := new SimNetwork();
      network, size := net, n;
      this.config := config;
      history := History([Net(0, seq(n, _ => {}), seq(n, _ => true), {}, [], {})], []);
      new;
      var registered := 0;
      while registered < n
        invariant net == network && fresh(network) && net.severed == {} && net.nextIndex == registered <= n
        invariant forall d: nat :: d in net.devices <==> d < registered
        invariant forall d: nat :: d in net.devices ==> net.devices[d]
        invariant history == History([Net(0, seq(n, _ => {}), seq(n, _ => true), {}, [], {})], [])
      {
        var _ := net.Register();
        registered := registered + 1;
      }
    }

    /** A node's own relay admits a bundle: the checks, then the store under its lock. */
    ghost method AdmitOwn(i: nat, bytes: Wire)
      requires Valid() && i < size
      modifies this`history
      ensures Valid() && Now(history).clock == Now(old(history)).clock
      ensures var before, clock := old(Stores()), Now(old(history)).clock;
              if Screen(bytes, clock).Err? then history == old(history)
              else
                && AllComposed(history) == AllComposed(old(history)) + {bytes}
                && Stores() == before[i := AfterAdmit(before[i], bytes, Admit(config, before[i], bytes, None))]
    {
      if Screen(bytes, Now(history).clock).Ok? {
        var net := Now(history);
        var looked := net.(checked := net.checked + {(i, bytes)});
        var checked := Goes(Agents(size, config), history, CheckOwn(i, bytes), looked);
        var decision := Admit(config, net.held[i], bytes, None);
        var filed := looked.(checked := looked.checked - {(i, bytes)},
                             held := net.held[i := AfterAdmit(net.held[i], bytes, decision)]);
        var stored := Goes(Agents(size, config), checked, StoreOwn(i, bytes), filed);
        QuietComposesNothing(history, checked);
        OneMoreComposed(checked, i, bytes, stored);
        history := stored;
      }
    }

    method Sever(i: nat, j: nat)
      requires Valid() && i < size && j < size
      modifies network`severed
      ensures Valid()
      ensures forall x: nat, y: nat :: network.Live(x, y) <==> old(network.Live(x, y)) && {x, y} != {i, j}
    {
      network.Sever(i, j);
    }

    method Heal(i: nat, j: nat)
      requires Valid() && i < size && j < size
      modifies network`severed
      ensures Valid() && (network.Live(i, j) <==> i != j && network.devices[i] && network.devices[j])
      ensures forall x: nat, y: nat :: {x, y} != {i, j} ==> (network.Live(x, y) <==> old(network.Live(x, y)))
    {
      network.Heal(i, j);
    }

    method SetOnline(i: nat, online: bool)
      requires Valid() && i < size
      modifies network`devices
      ensures Valid() && network.devices == old(network.devices)[i := online]
    {
      network.SetOnline(i, online);
    }

    /** The network's connectivity is what the air says by now. */
    ghost method Rewire()
      requires Valid()
      modifies this`history
      ensures Valid() && QuietSince(old(history), history) && Stores() == old(Stores())
      ensures Now(history).clock == Now(old(history)).clock
      ensures forall a: nat, b: nat :: a < size && b < size && network.Live(a, b) ==> Reachable(Now(history), a, b)
    {
      var net := Now(history);
      var devices := network.devices;
      var online := seq(size, d => d in devices && devices[d]);
      AlwaysWellFormed(Agents(size, config), history.nets, history.events, |history.events|);
      history := Goes(Agents(size, config), history, Event.Rewire, net.(online := online, severed := network.severed));
    }

    /** One end of one link takes a step, after any time within the horizon; which one is the scheduler's choice. */
    ghost method Schedule(k: nat, horizon: u64)
      requires Valid() && ClearUntil(horizon)
      requires k < |Now(history).links| && !Now(history).links[k].left.phase.Returned?
      modifies this`history
      ensures Valid() && QuietSince(old(history), history) && Now(history).clock <= horizon
      ensures |Now(history).links| == |Now(old(history)).links|
      ensures NetWork(Agents(size, config), Now(history).links) < NetWork(Agents(size, config), Now(old(history)).links)
    {
      var configs := Agents(size, config);
      var later: u64 :| Now(history).clock <= later <= horizon;
      var ticked := Goes(configs, history, Tick, Now(history).(clock := later));
      var enabled, stepped := SessionsNeverStuck(configs, ticked.nets, ticked.events, k);
      assert NetNext(configs, Now(ticked), Serve(k, enabled), stepped);
      var l: nat, side: Side, net :| NetNext(configs, Now(ticked), Serve(l, side), net);
      ServeWorks(configs, Now(ticked), l, side, net);
      var served := Goes(configs, ticked, Serve(l, side), net);
      QuietTwice(history, ticked, served);
      history := served;
    }

    /** Connect and sync: steps are scheduled until the connecting end has returned. */
    ghost method SyncLink(i: nat, j: nat, horizon: u64)
      requires Valid() && ClearUntil(horizon) && i < size && j < size && network.Live(i, j)
      modifies this`history
      ensures Valid() && ClearUntil(horizon) && QuietSince(old(history), history)
      ensures old(Stores())[j] <= Stores()[i]
    {
      var configs := Agents(size, config);
      var start := history;
      Rewire();
      var wired := history;
      var k := |Now(wired).links|;
      var net := Now(wired).(links := Now(wired).links + [Link(i, j, FRESH, FRESH, [], [])]);
      history := Goes(configs, wired, Connect(i, j), net);
      var joined := history;
      QuietComposesNothing(start, wired);
      QuietComposesNothing(wired, joined);
      while !Now(history).links[k].left.phase.Returned?
        invariant Valid() && QuietSince(joined, history) && ClearUntil(horizon) && k < |Now(history).links|
        decreases NetWork(configs, Now(history).links)
      {
        var before := history;
        Schedule(k, horizon);
        QuietTwice(joined, before, history);
        QuietComposesNothing(before, history);
      }
      QuietTwice(wired, joined, history);
      QuietTwice(start, wired, history);
      SessionPulls(configs, wired, joined, history, horizon, i, j);
    }

    /** `sync_once`: scan, then connect to each sighting and sync. */
    method SyncOnce(i: nat, ghost horizon: u64)
      requires Valid() && ClearUntil(horizon) && i < size
      modifies this`history
      ensures Valid() && ClearUntil(horizon) && QuietSince(old(history), history)
      ensures forall j: nat :: j < size && network.Live(i, j) ==> old(Stores())[j] <= Stores()[i]
    {
      var sightings := network.Scan(i);
      for n := 0 to |sightings|
        invariant Valid() && ClearUntil(horizon) && QuietSince(old(history), history)
        invariant forall m :: 0 <= m < n ==> sightings[m] < size && old(Stores())[sightings[m]] <= Stores()[i]
      {
        var j := sightings[n];
        assert j in sightings;
        ghost var before := history;
        QuietKeeps(Agents(size, config), old(history), before, horizon, j);
        var reachable := network.Reachable(i, j);
        if reachable {
          SyncLink(i, j, horizon);
          QuietTwice(old(history), before, history);
          QuietKeeps(Agents(size, config), before, history, horizon, i);
        }
      }
      forall j: nat | j < size && network.Live(i, j) ensures old(Stores())[j] <= Stores()[i] {
        assert j in sightings;
      }
    }

    /** One round in index order. */
    method RunSyncRound(ghost horizon: u64)
      requires Valid() && ClearUntil(horizon)
      modifies this`history
      ensures Valid() && ClearUntil(horizon) && QuietSince(old(history), history)
      ensures Round(network, old(Stores()), Stores())
    {
      for i := 0 to size
        invariant Valid() && ClearUntil(horizon) && QuietSince(old(history), history)
        invariant forall k: nat, j: nat :: k < i && j < size && network.Live(k, j) ==> old(Stores())[j] <= Stores()[k]
      {
        ghost var before := history;
        AllKeep(Agents(size, config), old(history), before, horizon);
        SyncOnce(i, horizon);
        QuietTwice(old(history), before, history);
        AllKeep(Agents(size, config), before, history, horizon);
      }
      AllKeep(Agents(size, config), old(history), history, horizon);
    }

    /**
     * After d rounds over a fixed graph of live links, whatever a node held at the start is held by every node within
     * d hops of it, for any number of nodes and any schedule, as long as the caps fit everything composed and none of
     * it expires; nothing is lost and nothing is held that was never composed.
     */
    method RunSyncRounds(rounds: nat, ghost horizon: u64)
      requires Valid() && ClearUntil(horizon)
      modifies this`history
      ensures Valid() && ClearUntil(horizon) && QuietSince(old(history), history)
      ensures Grown(old(Stores()), Stores(), AllComposed(old(history)))
      ensures forall a: nat, b: nat :: a < size && b < size && WithinHops(network, a, b, rounds, size) ==>
                old(Stores())[a] <= Stores()[b]
    {
      for r := 0 to rounds
        invariant Valid() && ClearUntil(horizon) && QuietSince(old(history), history)
        invariant forall a: nat, b: nat :: a < size && b < size && WithinHops(network, a, b, r, size) ==>
                    old(Stores())[a] <= Stores()[b]
      {
        ghost var before := history;
        RunSyncRound(horizon);
        QuietTwice(old(history), before, history);
        OneMoreHop(network, Now(old(history)).held, Now(before).held, Stores(), r);
      }
      AllKeep(Agents(size, config), old(history), history, horizon);
      QuietComposesNothing(old(history), history);
    }
  }

  /** Three nodes in a line: what the first composes reaches the last in two rounds. */
  method AlongTheLine(config: RelayConfig, w: Wire, horizon: u64) returns (harness: SimHarness)
    requires Screen(w, 0).Ok? && ExpiryMs(w).value > horizon
    requires config.maxTotalBundles >= 1 && config.maxBundlesPerSession >= 1 && w.len <= config.maxTotalBytes
    ensures fresh(harness) && harness.Valid() && harness.size == 3 && !harness.network.Live(0, 2)
    ensures w in harness.Stores()[2]
  {
    harness := new SimHarness(3, config);
    ghost var empty := harness.Stores();
    assert empty[0] == {};
    harness.Sever(0, 2);
    assert harness.Stores() == empty;
    assert TotalLen({}) == 0 && HasRoom(config, {}, w);
    assert AfterAdmit({}, w, Admit(config, {}, w, None)) == {w};
    harness.AdmitOwn(0, w);
    ghost var composed := harness.Stores();
    assert composed[0] == {w};
    TotalLenAdd({}, w);
    assert harness.ClearUntil(horizon);
    LineHops(harness.network);
    harness.RunSyncRounds(2, horizon);
    assert WithinHops(harness.network, 0, 2, 2, harness.size) && composed[0] <= harness.Stores()[2];
  }

  lemma LineHops(net: SimNetwork)
    requires net.Live(0, 1) && net.Live(1, 2)
    ensures WithinHops(net, 0, 2, 2, 3)
  {
    assert WithinHops(net, 0, 0, 0, 3);
    assert WithinHops(net, 0, 1, 1, 3);
  }

  lemma OneMoreComposed(h: History, i: nat, bytes: Wire, later: History)
    requires |later.events| == |h.events| + 1 && later.events == h.events + [StoreOwn(i, bytes)]
    ensures AllComposed(later) == AllComposed(h) + {bytes}
  {
    var n := |h.events|;
    forall w ensures w in AllComposed(later) <==> w in AllComposed(h) || w == bytes {
      if w in AllComposed(h) {
        var t :| 0 <= t < n && h.events[t].StoreOwn? && h.events[t].bytes == w;
        assert later.events[t] == h.events[t];
      }
      assert later.events[n] == StoreOwn(i, bytes);
    }
  }

  lemma AllKeep(configs: seq<RelayConfig>, h: History, later: History, horizon: u64)
    requires Runs(configs, h) && Runs(configs, later) && QuietSince(h, later) && Clear(configs, later, horizon)
    ensures |Now(h).held| == |Now(later).held| == |configs|
    ensures Grown(Now(h).held, Now(later).held, AllComposed(later))
  {
    AlwaysWellFormed(configs, h.nets, h.events, |h.events|);
    AlwaysWellFormed(configs, later.nets, later.events, |later.events|);
    forall k | 0 <= k < |configs| ensures Now(h).held[k] <= Now(later).held[k] <= AllComposed(later) {
      QuietKeeps(configs, h, later, horizon, k);
    }
  }

  /** What one session of the harness brings, from the protocol's own guarantee. */
  lemma SessionPulls(
    configs: seq<RelayConfig>, wired: History, joined: History, later: History, horizon: u64, i: nat, j: nat)
    requires Runs(configs, wired) && Runs(configs, later) && QuietSince(wired, joined) && QuietSince(joined, later)
    requires joined.events == wired.events + [Connect(i, j)] && Clear(configs, later, horizon)
    requires var k := |Now(wired).links|; k < |Now(later).links| && Now(later).links[k].left.phase.Returned?
    ensures |Now(wired).held| == |Now(later).held| == |configs| && i < |configs| && j < |configs|
    ensures Now(wired).held[j] <= Now(later).held[i]
  {
    var c, n := |wired.events|, |later.events|;
    assert later.events[c] == joined.events[c] == Connect(i, j);
    assert later.nets[c] == joined.nets[c] == Now(wired);
    assert NoTakes(later.events, c, n) by {
      QuietTwice(wired, joined, later);
    }
    CoversFewer(configs, AllComposed(later), horizon, Composed(later.events, n), Now(later).clock);
    ReturnedHasPulled(configs, later.nets, later.events, c, n, |Now(wired).links|, i, j, Left);
  }

  lemma OneMoreHop(net: SimNetwork, start: seq<set<Wire>>, before: seq<set<Wire>>, after: seq<set<Wire>>, r: nat)
    requires |start| == |before| && Round(net, before, after)
    requires forall a: nat, b: nat :: a < |start| && b < |start| && WithinHops(net, a, b, r, |start|) ==>
            start[a] <= before[b]
    ensures forall a: nat, b: nat :: a < |start| && b < |start| && WithinHops(net, a, b, r + 1, |start|) ==>
            start[a] <= after[b]
  {
    forall a: nat, b: nat | a < |start| && b < |start| && WithinHops(net, a, b, r + 1, |start|)
      ensures start[a] <= after[b]
    {
      if WithinHops(net, a, b, r, |start|) {
        assert start[a] <= before[b] <= after[b];
      } else {
        var mid: nat :| mid < |start| && WithinHops(net, a, mid, r, |start|) && net.Live(mid, b);
        assert net.Live(b, mid);
        assert start[a] <= before[mid] <= after[b];
      }
    }
  }
}
