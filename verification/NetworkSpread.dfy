/**
 * Epidemic spreading on the message-level network (mesh/src/sim.rs:92-106, mesh/src/transport.rs:57-70): any number
 * of sessions interleaved step by step, local compositions and sweeps in between, a changing connectivity graph.
 *
 * A session between two agents is projected out of the network run as a run of the two-ended protocol in which
 * everything else is interference, and what that protocol guarantees is carried back.
 */
module NetworkSpread {
  import opened Wrappers
  import opened Bundle
  import opened Relay
  import opened SyncProtocol
  import opened SyncExchange
  import opened SyncTheorems
  import opened Network
  import opened NetworkTheorems

  // ---------------------------------------------------------------- caps and expiry

  /** Everything composed before event `n`. */
  ghost function Composed(events: seq<Event>, n: nat): set<Wire>
    requires n <= |events|
  {
    set t | 0 <= t < n && events[t].StoreOwn? :: events[t].bytes
  }

  /** Every agent's caps fit all of `all`, and none of it expires by `horizon`. */
  ghost predicate Covers(configs: seq<RelayConfig>, all: set<Wire>, horizon: u64) {
    && Lasting(all, horizon)
    && forall i :: 0 <= i < |configs| ==> Fits(configs[i], all) && |all| <= configs[i].maxBundlesPerSession
  }

  /** The run up to event `n` keeps within caps and expiry. */
  ghost predicate Ample(configs: seq<RelayConfig>, nets: seq<Net>, events: seq<Event>, n: nat)
    requires |nets| == |events| + 1 && n <= |events|
  {
    Covers(configs, Composed(events, n), nets[n].clock)
  }

  lemma {:induction false} TrailStartsComposed(nets: seq<Net>, events: seq<Event>, w: Wire, trail: Trail, n: nat)
    requires |nets| == |events| + 1 && n <= |events| && ValidTrail(nets, events, w, trail) && trail.at < n
    ensures w in Composed(events, n)
    decreases trail
  {
    match trail
    case Composed(node, at) => assert events[at].StoreOwn? && events[at].bytes == w;
    case Carried(previous, _, _, _, _) => TrailStartsComposed(nets, events, w, previous, n);
  }

  /** Only what was composed is held anywhere. */
  lemma HeldIsComposed(configs: seq<RelayConfig>, nets: seq<Net>, events: seq<Event>, n: nat, i: nat)
    requires NetRun(configs, nets, events) && n <= |events| && i < |nets[n].held|
    ensures nets[n].held[i] <= Composed(events, n)
  {
    EveryBundleHasATrail(configs, nets, events, n);
    assert TracedNode(nets, events, n, i);
    forall w | w in nets[n].held[i] ensures w in Composed(events, n) {
      var trail :| ValidTrail(nets, events, w, trail) && trail.node == i && trail.at < n;
      TrailStartsComposed(nets, events, w, trail, n);
    }
  }

  lemma {:induction false} ClockGrows(configs: seq<RelayConfig>, nets: seq<Net>, events: seq<Event>, m: nat, n: nat)
    requires NetRun(configs, nets, events) && m <= n <= |events|
    ensures nets[m].clock <= nets[n].clock && Composed(events, m) <= Composed(events, n)
    decreases n
  {
    if m < n {
      ClockGrows(configs, nets, events, m, n - 1);
      assert NetNextAt(configs, nets, events, n - 1);
    }
  }

  // ---------------------------------------------------------------- stores only grow

  lemma AlwaysWellFormed(configs: seq<RelayConfig>, nets: seq<Net>, events: seq<Event>, n: nat)
    requires NetRun(configs, nets, events) && n <= |events|
    ensures WellFormed(configs, nets[n])
  {
    RunSound(configs, nets, events, n);
  }

  /** Nobody picks up bundles between `m` and `n`. */
  predicate NoTakes(events: seq<Event>, m: nat, n: nat) {
    forall t :: m <= t < n && t < |events| ==> !events[t].Take?
  }

  lemma EndLosesNothing(config: RelayConfig, v: View, v': View, peerGone: bool, now: u64, horizon: u64)
    requires EndStep(config, v, v', peerGone, now) && Lasting(v.held, horizon) && now <= horizon
    ensures v.held <= v'.held
  {
  }

  /** While nothing expires, only picking up removes bundles. */
  lemma StepLosesNothing(configs: seq<RelayConfig>, net: Net, event: Event, net': Net, i: nat, horizon: u64)
    requires WellFormed(configs, net) && NetNext(configs, net, event, net') && !event.Take?
    requires i < |net.held| && net.clock <= horizon && Lasting(net.held[i], horizon)
    ensures |net'.held| == |net.held| && net.held[i] <= net'.held[i]
  {
    if event.Serve? && net.links[event.link].Node(event.side) == i {
      var l, l', side := net.links[event.link], net'.links[event.link], event.side;
      EndLosesNothing(configs[i], l.ViewOf(side, net.held[i]), l'.ViewOf(side, net'.held[i]),
                      Over(l.EndOf(Other(side))), net.clock, horizon);
    }
  }

  lemma LastingThen(configs: seq<RelayConfig>, nets: seq<Net>, events: seq<Event>, m: nat, n: nat, i: nat)
    requires NetRun(configs, nets, events) && m <= n <= |events| && Ample(configs, nets, events, n)
    requires i < |nets[m].held|
    ensures nets[m].clock <= nets[n].clock && Lasting(nets[m].held[i], nets[n].clock)
    ensures nets[m].held[i] <= Composed(events, n)
  {
    HeldIsComposed(configs, nets, events, m, i);
    ClockGrows(configs, nets, events, m, n);
  }

  lemma NextKeeps(configs: seq<RelayConfig>, nets: seq<Net>, events: seq<Event>, t: nat, n: nat, i: nat)
    requires NetRun(configs, nets, events) && t < n <= |events| && !events[t].Take?
    requires Ample(configs, nets, events, n) && i < |configs|
    ensures |nets[t].held| == |nets[t + 1].held| == |configs| && nets[t].held[i] <= nets[t + 1].held[i]
  {
    AlwaysWellFormed(configs, nets, events, t);
    LastingThen(configs, nets, events, t, n, i);
    assert NetNextAt(configs, nets, events, t);
    StepLosesNothing(configs, nets[t], events[t], nets[t + 1], i, nets[n].clock);
  }

  lemma {:induction false} StoresKeep(
    configs: seq<RelayConfig>, nets: seq<Net>, events: seq<Event>, m: nat, t: nat, n: nat, i: nat)
    requires NetRun(configs, nets, events) && m <= t <= n <= |events| && NoTakes(events, m, n)
    requires Ample(configs, nets, events, n) && i < |configs|
    ensures |nets[m].held| == |nets[t].held| == |configs| && nets[m].held[i] <= nets[t].held[i]
    decreases t
  {
    if m == t {
      AlwaysWellFormed(configs, nets, events, m);
    } else {
      StoresKeep(configs, nets, events, m, t - 1, n, i);
      NextKeeps(configs, nets, events, t - 1, n, i);
    }
  }

  // ---------------------------------------------------------------- one link as a session

  /** Link `k` and the stores at its two ends. */
  function Projected(net: Net, k: nat): Session
    requires k < |net.links| && net.links[k].a < |net.held| && net.links[k].b < |net.held|
  {
    net.links[k].AsSession(net.held[net.links[k].a], net.held[net.links[k].b])
  }

  /** What an event of the network is to the session on link `k`. */
  function ActOf(event: Event, k: nat, now: u64): Act {
    if event.Serve? && event.link == k then Move(event.side, now) else Interfere
  }

  /** The setting all sessions of an ample run share: either side may come to own everything composed. */
  ghost function SettingOf(configs: seq<RelayConfig>, a: nat, b: nat, all: set<Wire>, horizon: u64): Setting
    requires a < |configs| && b < |configs|
  {
    Setting(Configs(configs[a], configs[b]), horizon, Pair(all, all))
  }

  /** Link `k` joins `a` to `b`. */
  predicate Joins(configs: seq<RelayConfig>, net: Net, k: nat, a: nat, b: nat) {
    WellFormed(configs, net) && k < |net.links| && net.links[k].a == a && net.links[k].b == b
  }

  /** A step of another task leaves the ends and the queues of link `k` alone, and adds to the stores at most. */
  lemma OtherIsInterference(
    configs: seq<RelayConfig>, net: Net, event: Event, net': Net, k: nat, a: nat, b: nat, all: set<Wire>, horizon: u64)
    requires Joins(configs, net, k, a, b) && NetNext(configs, net, event, net') && !event.Take?
    requires !(event.Serve? && event.link == k)
    requires net.clock <= horizon && WellFormed(configs, net')
    requires net.held[a] <= net'.held[a] <= all && net.held[b] <= net'.held[b] <= all
    ensures Joins(configs, net', k, a, b)
    ensures CalmStep(SettingOf(configs, a, b, all, horizon), Projected(net, k), Interfere, Projected(net', k))
  {
    assert net'.links[k] == net.links[k];
  }

  /** A step of either end of link `k` is a step of the session. */
  lemma ServeIsMove(
    configs: seq<RelayConfig>, net: Net, side: Side, net': Net, k: nat, a: nat, b: nat, all: set<Wire>, horizon: u64)
    requires Joins(configs, net, k, a, b) && ServeStep(configs, net, k, side, net')
    requires net.clock <= horizon && WellFormed(configs, net')
    ensures Joins(configs, net', k, a, b)
    ensures CalmStep(SettingOf(configs, a, b, all, horizon), Projected(net, k), Move(side, net.clock),
            Projected(net', k))
  {
    var l, l' := net.links[k], net'.links[k];
    assert Projected(net, k).ViewOf(side) == l.ViewOf(side, net.held[l.Node(side)]);
    assert Projected(net', k).ViewOf(side) == l'.ViewOf(side, net'.held[l.Node(side)]);
  }

  lemma NextWithin(configs: seq<RelayConfig>, nets: seq<Net>, events: seq<Event>, t: nat, n: nat)
    requires NetRun(configs, nets, events) && t < n <= |events| && !events[t].Take? && Ample(configs, nets, events, n)
    ensures |nets[t].held| == |nets[t + 1].held| == |configs|
    ensures forall i :: 0 <= i < |configs| ==> nets[t].held[i] <= nets[t + 1].held[i] <= Composed(events, n)
  {
    AlwaysWellFormed(configs, nets, events, t);
    AlwaysWellFormed(configs, nets, events, t + 1);
    forall i | 0 <= i < |configs| ensures nets[t].held[i] <= nets[t + 1].held[i] <= Composed(events, n) {
      NextKeeps(configs, nets, events, t, n, i);
      LastingThen(configs, nets, events, t + 1, n, i);
    }
  }

  lemma ProjectedStep(
    configs: seq<RelayConfig>, nets: seq<Net>, events: seq<Event>, t: nat, n: nat, k: nat, a: nat, b: nat)
    requires NetRun(configs, nets, events) && t < n <= |events| && !events[t].Take?
    requires Ample(configs, nets, events, n) && Joins(configs, nets[t], k, a, b)
    ensures Joins(configs, nets[t + 1], k, a, b)
    ensures CalmStep(SettingOf(configs, a, b, Composed(events, n), nets[n].clock), Projected(nets[t], k),
                     ActOf(events[t], k, nets[t].clock), Projected(nets[t + 1], k))
  {
    AlwaysWellFormed(configs, nets, events, t + 1);
    ClockGrows(configs, nets, events, t, n);
    NextWithin(configs, nets, events, t, n);
    assert NetNextAt(configs, nets, events, t);
    var all, horizon := Composed(events, n), nets[n].clock;
    if events[t].Serve? && events[t].link == k {
      ServeIsMove(configs, nets[t], events[t].side, nets[t + 1], k, a, b, all, horizon);
    } else {
      OtherIsInterference(configs, nets[t], events[t], nets[t + 1], k, a, b, all, horizon);
    }
  }

  // ---------------------------------------------------------------- what a session pulls

  /** Event `c` opens link `k` from `a` to `b`, in a stretch up to event `n` that keeps within caps and expiry. */
  ghost predicate Opens(
    configs: seq<RelayConfig>, nets: seq<Net>, events: seq<Event>, c: nat, n: nat, k: nat, a: nat, b: nat)
  {
    && NetRun(configs, nets, events) && c < n <= |events| && NoTakes(events, c, n) && Ample(configs, nets, events, n)
    && events[c] == Connect(a, b) && k == |nets[c].links|
  }

  lemma {:induction false} LinkStays(
    configs: seq<RelayConfig>, nets: seq<Net>, events: seq<Event>, c: nat, t: nat, n: nat, k: nat, a: nat, b: nat)
    requires Opens(configs, nets, events, c, n, k, a, b) && c < t <= n
    ensures Joins(configs, nets[t], k, a, b)
    decreases t
  {
    if t == c + 1 {
      AlwaysWellFormed(configs, nets, events, t);
      assert NetNextAt(configs, nets, events, c);
    } else {
      LinkStays(configs, nets, events, c, t - 1, n, k, a, b);
      ProjectedStep(configs, nets, events, t - 1, n, k, a, b);
    }
  }

  /** The session on link `k` right after its opening, `j` events on. */
  ghost function StateAt(
    configs: seq<RelayConfig>, nets: seq<Net>, events: seq<Event>, c: nat, n: nat, k: nat, a: nat, b: nat, j: nat)
    : Session
    requires Opens(configs, nets, events, c, n, k, a, b) && j < n - c
  {
    LinkStays(configs, nets, events, c, c + 1 + j, n, k, a, b);
    Projected(nets[c + 1 + j], k)
  }

  function ActAt(nets: seq<Net>, events: seq<Event>, c: nat, k: nat, j: nat): Act
    requires |nets| == |events| + 1 && c + 1 + j < |events|
  {
    ActOf(events[c + 1 + j], k, nets[c + 1 + j].clock)
  }

  lemma CalmAfterOpening(
    configs: seq<RelayConfig>, nets: seq<Net>, events: seq<Event>, c: nat, n: nat, k: nat, a: nat, b: nat, j: nat)
    requires Opens(configs, nets, events, c, n, k, a, b) && j + 1 < n - c
    ensures a < |configs| && b < |configs|
    ensures CalmStep(SettingOf(configs, a, b, Composed(events, n), nets[n].clock),
                     StateAt(configs, nets, events, c, n, k, a, b, j), ActAt(nets, events, c, k, j),
                     StateAt(configs, nets, events, c, n, k, a, b, j + 1))
  {
    LinkStays(configs, nets, events, c, c + 1 + j, n, k, a, b);
    ProjectedStep(configs, nets, events, c + 1 + j, n, k, a, b);
  }

  lemma AtOpening(configs: seq<RelayConfig>, nets: seq<Net>, events: seq<Event>, c: nat, n: nat, k: nat, a: nat, b: nat)
    requires Opens(configs, nets, events, c, n, k, a, b)
    ensures |nets[c].held| == |configs| && a < |configs| && b < |configs|
    ensures var s := StateAt(configs, nets, events, c, n, k, a, b, 0);
            && Opening(s) && s.heldLeft == nets[c].held[a] && s.heldRight == nets[c].held[b]
            && s.heldLeft <= Composed(events, n) && s.heldRight <= Composed(events, n)
  {
    AlwaysWellFormed(configs, nets, events, c);
    LinkStays(configs, nets, events, c, c + 1, n, k, a, b);
    assert NetNextAt(configs, nets, events, c);
    LastingThen(configs, nets, events, c, n, a);
    LastingThen(configs, nets, events, c, n, b);
  }

  /** What happens to link `k` from its opening to event `n` is a calm run of the two-ended protocol. */
  lemma SessionIsCalm(
    configs: seq<RelayConfig>, nets: seq<Net>, events: seq<Event>, c: nat, n: nat, k: nat, a: nat, b: nat)
    returns (states: seq<Session>, acts: seq<Act>)
    requires Opens(configs, nets, events, c, n, k, a, b)
    ensures a < |configs| && b < |configs| && |acts| == n - c - 1
    ensures CalmRun(SettingOf(configs, a, b, Composed(events, n), nets[n].clock), states, acts)
    ensures states[0] == StateAt(configs, nets, events, c, n, k, a, b, 0)
    ensures states[|acts|] == StateAt(configs, nets, events, c, n, k, a, b, n - c - 1)
  {
    AtOpening(configs, nets, events, c, n, k, a, b);
    var t := SettingOf(configs, a, b, Composed(events, n), nets[n].clock);
    states := seq(n - c, j requires 0 <= j < n - c => StateAt(configs, nets, events, c, n, k, a, b, j));
    acts := seq(n - c - 1, j requires 0 <= j < n - c - 1 => ActAt(nets, events, c, k, j));
    forall j | 0 <= j < |acts| ensures CalmAt(t, states, acts, j) && NextAt(t.cs, states, acts, j) {
      CalmAfterOpening(configs, nets, events, c, n, k, a, b, j);
    }
  }

  lemma AmpleIsRoomy(configs: seq<RelayConfig>, a: nat, b: nat, all: set<Wire>, horizon: u64)
    requires Covers(configs, all, horizon) && a < |configs| && b < |configs|
    ensures SyncExchange.Roomy(SettingOf(configs, a, b, all, horizon))
    ensures |all| <= BatchCap(SettingOf(configs, a, b, all, horizon).cs)
  {
    assert all + all == all;
    UnionRoomy(Configs(configs[a], configs[b]), horizon, Pair(all, all));
  }

  /**
   * In any run, whatever else goes on: an end of a session that has returned holds everything its peer held when the
   * session was opened, as long as caps and expiry allow and nobody picks up.
   */
  lemma ReturnedHasPulled(
    configs: seq<RelayConfig>, nets: seq<Net>, events: seq<Event>, c: nat, n: nat, k: nat, a: nat, b: nat, side: Side)
    requires Opens(configs, nets, events, c, n, k, a, b)
    requires k < |nets[n].links| && nets[n].links[k].EndOf(side).phase.Returned?
    ensures |nets[c].held| == |nets[n].held| == |configs| && a < |configs| && b < |configs|
    ensures var me, peer := if side == Left then a else b, if side == Left then b else a;
            nets[c].held[peer] <= nets[n].held[me]
  {
    var states, acts := SessionIsCalm(configs, nets, events, c, n, k, a, b);
    AtOpening(configs, nets, events, c, n, k, a, b);
    LinkStays(configs, nets, events, c, n, n, k, a, b);
    AmpleIsRoomy(configs, a, b, Composed(events, n), nets[n].clock);
    PullsEverything(SettingOf(configs, a, b, Composed(events, n), nets[n].clock), states, acts, side);
    assert states[0].Held(Other(side)) <= states[|acts|].Held(side);
  }

  // ---------------------------------------------------------------- rounds

  lemma CoversFewer(configs: seq<RelayConfig>, all: set<Wire>, horizon: u64, fewer: set<Wire>, earlier: u64)
    requires Covers(configs, all, horizon) && fewer <= all && earlier <= horizon
    ensures Covers(configs, fewer, earlier)
  {
    TotalLenMonotone(fewer, all);
  }

  lemma AmpleBefore(configs: seq<RelayConfig>, nets: seq<Net>, events: seq<Event>, m: nat, n: nat)
    requires NetRun(configs, nets, events) && m <= n <= |events| && Ample(configs, nets, events, n)
    ensures Ample(configs, nets, events, m)
  {
    ClockGrows(configs, nets, events, m, n);
    CoversFewer(configs, Composed(events, n), nets[n].clock, Composed(events, m), nets[m].clock);
  }

  predicate LiveThroughout(nets: seq<Net>, m: nat, n: nat, i: nat, j: nat) {
    forall t :: m <= t <= n && t < |nets| ==> Reachable(nets[t], i, j)
  }

  /** Between `m` and `n` a session from `i` to `j` was opened, and its connecting end has returned. */
  predicate HasPulled(nets: seq<Net>, events: seq<Event>, m: nat, n: nat, i: nat, j: nat)
    requires |nets| == |events| + 1 && n <= |events|
  {
    exists c: nat :: m <= c < n && PulledSince(nets, events, c, n, i, j)
  }

  predicate PulledSince(nets: seq<Net>, events: seq<Event>, c: nat, n: nat, i: nat, j: nat)
    requires |nets| == |events| + 1 && c < n <= |events|
  {
    var k := |nets[c].links|;
    events[c] == Connect(i, j) && k < |nets[n].links| && nets[n].links[k].left.phase.Returned?
  }

  /** A round: every two agents that can reach each other all the while have synced, each connecting to the other. */
  predicate RoundOf(nets: seq<Net>, events: seq<Event>, m: nat, n: nat)
    requires |nets| == |events| + 1 && m <= n <= |events|
  {
    forall i: nat, j: nat :: i < |nets[m].held| && j < |nets[m].held| && LiveThroughout(nets, m, n, i, j) ==>
      HasPulled(nets, events, m, n, i, j)
  }

  /** The stretches between neighbouring `bounds` are rounds. */
  ghost predicate Rounds(nets: seq<Net>, events: seq<Event>, bounds: seq<nat>)
    requires |nets| == |events| + 1
  {
    forall r: nat :: r + 1 < |bounds| ==> RoundAt(nets, events, bounds, r)
  }

  predicate RoundAt(nets: seq<Net>, events: seq<Event>, bounds: seq<nat>, r: nat)
    requires |nets| == |events| + 1 && r + 1 < |bounds|
  {
    bounds[r] <= bounds[r + 1] <= |events| && RoundOf(nets, events, bounds[r], bounds[r + 1])
  }

  /** `b` can be reached from `a` in `d` rounds, each hop over a link that is live throughout its round. */
  ghost predicate Within(nets: seq<Net>, bounds: seq<nat>, a: nat, b: nat, d: nat)
    requires d < |bounds| && forall r :: 0 <= r < |bounds| ==> bounds[r] < |nets|
    decreases d
  {
    if d == 0 then a == b
    else
      var before := d - 1;
      || Within(nets, bounds, a, b, before)
      || exists mid: nat :: mid < |nets[bounds[before]].held| && Within(nets, bounds, a, mid, before)
                            && LiveThroughout(nets, bounds[before], bounds[d], b, mid)
  }

  /** In one round, what an agent holds reaches every agent that can reach it all the while. */
  lemma RoundPulls(configs: seq<RelayConfig>, nets: seq<Net>, events: seq<Event>, m: nat, n: nat, i: nat, j: nat)
    requires NetRun(configs, nets, events) && m <= n <= |events| && NoTakes(events, m, n)
    requires Ample(configs, nets, events, n) && RoundOf(nets, events, m, n)
    requires i < |configs| && j < |configs| && LiveThroughout(nets, m, n, i, j)
    ensures |nets[m].held| == |nets[n].held| == |configs| && nets[m].held[j] <= nets[n].held[i]
  {
    StoresKeep(configs, nets, events, m, n, n, i);
    var c: nat :| m <= c < n && PulledSince(nets, events, c, n, i, j);
    StoresKeep(configs, nets, events, m, c, n, j);
    ReturnedHasPulled(configs, nets, events, c, n, |nets[c].links|, i, j, Left);
  }

  /**
   * After d rounds, on a graph that may change between and during them, everything an agent held at the start is
   * held by every agent within d hops, as long as the caps fit and outlast what was composed and nobody picks up.
   */
  lemma {:induction false} SpreadsInRounds(
    configs: seq<RelayConfig>, nets: seq<Net>, events: seq<Event>, bounds: seq<nat>, a: nat, b: nat, d: nat, n: nat)
    requires NetRun(configs, nets, events) && d < |bounds| && Rounds(nets, events, bounds)
    requires forall r :: 0 <= r < |bounds| ==> bounds[r] <= n
    requires n <= |events| && NoTakes(events, bounds[0], n) && Ample(configs, nets, events, n)
    requires a < |configs| && b < |configs| && Within(nets, bounds, a, b, d)
    ensures bounds[0] <= bounds[d]
    ensures |nets[bounds[0]].held| == |nets[bounds[d]].held| == |configs|
    ensures nets[bounds[0]].held[a] <= nets[bounds[d]].held[b]
    decreases d
  {
    AlwaysWellFormed(configs, nets, events, bounds[0]);
    if d > 0 {
      assert RoundAt(nets, events, bounds, d - 1);
      var m, end := bounds[d - 1], bounds[d];
      AmpleBefore(configs, nets, events, end, n);
      AlwaysWellFormed(configs, nets, events, m);
      if Within(nets, bounds, a, b, d - 1) {
        SpreadsInRounds(configs, nets, events, bounds, a, b, d - 1, n);
        StoresKeep(configs, nets, events, m, end, end, b);
      } else {
        var mid: nat :| mid < |nets[m].held| && Within(nets, bounds, a, mid, d - 1)
                        && LiveThroughout(nets, m, end, b, mid);
        SpreadsInRounds(configs, nets, events, bounds, a, mid, d - 1, n);
        RoundPulls(configs, nets, events, m, end, b, mid);
      }
    }
  }

  /** `b` is at most `d` links away from `a` in the graph that is live all the way from `m` to `n`. */
  ghost predicate WithinLiveHops(nets: seq<Net>, m: nat, n: nat, a: nat, b: nat, d: nat, nodes: nat)
    decreases d
  {
    if d == 0 then a == b
    else
      var before := d - 1;
      || WithinLiveHops(nets, m, n, a, b, before, nodes)
      || exists mid: nat :: mid < nodes && WithinLiveHops(nets, m, n, a, mid, before, nodes)
                            && LiveThroughout(nets, m, n, b, mid)
  }

  /** "At most": who is within some number of rounds, or of hops, is within any larger number. */
  lemma {:induction false} MoreRounds(nets: seq<Net>, bounds: seq<nat>, a: nat, b: nat, d: nat, more: nat)
    requires d <= more < |bounds| && forall r :: 0 <= r < |bounds| ==> bounds[r] < |nets|
    requires Within(nets, bounds, a, b, d)
    ensures Within(nets, bounds, a, b, more)
    decreases more
  {
    if d < more {
      MoreRounds(nets, bounds, a, b, d, more - 1);
    }
  }

  lemma {:induction false} MoreLiveHops(
    nets: seq<Net>, m: nat, n: nat, a: nat, b: nat, d: nat, more: nat, nodes: nat)
    requires d <= more && WithinLiveHops(nets, m, n, a, b, d, nodes)
    ensures WithinLiveHops(nets, m, n, a, b, more, nodes)
    decreases more
  {
    if d < more {
      MoreLiveHops(nets, m, n, a, b, d, more - 1, nodes);
    }
  }

  lemma {:induction false} HopsAreWithin(
    configs: seq<RelayConfig>, nets: seq<Net>, events: seq<Event>, bounds: seq<nat>, a: nat, b: nat, d: nat, n: nat)
    requires NetRun(configs, nets, events) && d < |bounds| && n <= |events|
    requires forall r :: 0 <= r < |bounds| ==> bounds[0] <= bounds[r] <= n
    requires WithinLiveHops(nets, bounds[0], n, a, b, d, |configs|)
    ensures Within(nets, bounds, a, b, d)
    decreases d
  {
    if d > 0 {
      if WithinLiveHops(nets, bounds[0], n, a, b, d - 1, |configs|) {
        HopsAreWithin(configs, nets, events, bounds, a, b, d - 1, n);
      } else {
        var mid: nat :| mid < |configs| && WithinLiveHops(nets, bounds[0], n, a, mid, d - 1, |configs|)
                        && LiveThroughout(nets, bounds[0], n, b, mid);
        HopsAreWithin(configs, nets, events, bounds, a, mid, d - 1, n);
        AlwaysWellFormed(configs, nets, events, bounds[d - 1]);
        assert LiveThroughout(nets, bounds[d - 1], bounds[d], b, mid);
      }
    }
  }

  /** On a fixed graph: after d rounds every agent within d live hops of a holder holds the bundle. */
  lemma SpreadsByHops(
    configs: seq<RelayConfig>, nets: seq<Net>, events: seq<Event>, bounds: seq<nat>, a: nat, b: nat, d: nat)
    requires NetRun(configs, nets, events) && |bounds| == d + 1 && Rounds(nets, events, bounds)
    requires bounds[d] <= |events| && forall r :: 0 <= r < |bounds| ==> bounds[0] <= bounds[r] <= bounds[d]
    requires NoTakes(events, bounds[0], bounds[d]) && Ample(configs, nets, events, bounds[d])
    requires a < |configs| && b < |configs| && WithinLiveHops(nets, bounds[0], bounds[d], a, b, d, |configs|)
    ensures |nets[bounds[0]].held| == |nets[bounds[d]].held| == |configs|
    ensures nets[bounds[0]].held[a] <= nets[bounds[d]].held[b]
  {
    HopsAreWithin(configs, nets, events, bounds, a, b, d, bounds[d]);
    SpreadsInRounds(configs, nets, events, bounds, a, b, d, bounds[d]);
  }
}
