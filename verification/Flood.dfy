/**
 * Flood resistance (mesh/src/relay.rs): what peers that may send anything can do to one agent.
 *
 * One agent runs any number of sessions at once. Each peer may append any message to its link or
 * drop it at any time, and other tasks may change the store in any way between steps.
 */
module Flood {
  import opened Wrappers
  import opened Bundle
  import opened Relay
  import opened SyncProtocol
  import opened SyncWithPeer

  datatype Port = Port(end: End, inbox: seq<SyncMessage>, outbox: seq<SyncMessage>, peerGone: bool)

  datatype Agent = Agent(held: set<Wire>, ports: seq<Port>)

  datatype Act =
    | Open
    | PeerSends(port: nat, message: SyncMessage)
    | PeerDrops(port: nat)
    | Handle(port: nat, now: u64)
    | Elsewhere

  function ViewOf(a: Agent, p: Port): View {
    View(p.end, p.inbox, p.outbox, a.held)
  }

  ghost predicate Next(config: RelayConfig, a: Agent, act: Act, a': Agent) {
    match act
    case Open => a' == a.(ports := a.ports + [Port(FRESH, [], [], false)])
    case PeerSends(i, m) =>
      i < |a.ports| && !a.ports[i].peerGone &&
      a' == a.(ports := a.ports[i := a.ports[i].(inbox := a.ports[i].inbox + [m])])
    case PeerDrops(i) => i < |a.ports| && a' == a.(ports := a.ports[i := a.ports[i].(peerGone := true)])
    case Handle(i, now) =>
      && i < |a.ports| == |a'.ports|
      && EndStep(config, ViewOf(a, a.ports[i]), ViewOf(a', a'.ports[i]), a.ports[i].peerGone, now)
      && a'.ports[i].peerGone == a.ports[i].peerGone
      && a'.ports == a.ports[i := a'.ports[i]]
    case Elsewhere => a' == a.(held := a'.held)
  }

  ghost predicate NextAt(config: RelayConfig, states: seq<Agent>, acts: seq<Act>, i: nat)
    requires i < |acts| && i + 1 < |states|
  {
    Next(config, states[i], acts[i], states[i + 1])
  }

  ghost predicate Run(config: RelayConfig, states: seq<Agent>, acts: seq<Act>) {
    && |states| == |acts| + 1
    && states[0].ports == []
    && forall i :: 0 <= i < |acts| ==> NextAt(config, states, acts, i)
  }

  // ---------------------------------------------------------------- the session budget

  /** A session's insertions and its remaining budget together never exceed the cap. */
  predicate WithinBudget(config: RelayConfig, e: End) {
    match e.phase
    case Receiving => e.stored + e.budget <= config.maxBundlesPerSession
    case Admitting(_) => e.stored + e.budget <= config.maxBundlesPerSession
    case Returned => e.stored <= config.maxBundlesPerSession
    case Failed(_) => e.stored <= config.maxBundlesPerSession
    case _ => e.stored == 0
  }

  /** One step inserts at most one bundle, counts it, and drops nothing that has not expired. */
  lemma StepInserts(config: RelayConfig, v: View, v': View, peerGone: bool, now: u64)
    requires EndStep(config, v, v', peerGone, now) && WithinBudget(config, v.end)
    ensures WithinBudget(config, v'.end)
    ensures |v'.held - v.held| == v'.end.stored - v.end.stored
    ensures forall w :: w in v.held - v'.held ==> ExpiredAt(w, now)
  {
    if v.end.phase.Admitting? && v'.held != v.held {
      assert v'.held - v.held == {v.end.phase.bytes};
    } else {
      assert v'.held - v.held == {};
    }
  }

  predicate AllWithinBudget(config: RelayConfig, a: Agent) {
    forall i :: 0 <= i < |a.ports| ==> WithinBudget(config, a.ports[i].end)
  }

  function TotalStored(ports: seq<Port>): nat {
    if ports == [] then 0 else TotalStored(ports[..|ports| - 1]) + ports[|ports| - 1].end.stored
  }

  lemma {:induction false} TotalStoredUpdate(ports: seq<Port>, i: nat, p: Port)
    requires i < |ports|
    ensures TotalStored(ports[i := p]) == TotalStored(ports) - ports[i].end.stored + p.end.stored
    decreases |ports|
  {
    var last := |ports| - 1;
    if i == last {
      assert ports[i := p][..last] == ports[..last];
    } else {
      assert ports[i := p][..last] == ports[..last][i := p];
      TotalStoredUpdate(ports[..last], i, p);
    }
  }

  lemma {:induction false} TotalStoredBound(config: RelayConfig, ports: seq<Port>)
    requires forall i :: 0 <= i < |ports| ==> WithinBudget(config, ports[i].end)
    ensures TotalStored(ports) <= |ports| * config.maxBundlesPerSession
    decreases |ports|
  {
    if ports != [] {
      var last := |ports| - 1;
      TotalStoredBound(config, ports[..last]);
      assert WithinBudget(config, ports[last].end);
    }
  }

  /** How many bundles session steps put into the store over a run; what else goes on is not counted. */
  ghost function InsertedBySessions(states: seq<Agent>, acts: seq<Act>): nat
    requires |states| == |acts| + 1
  {
    if acts == [] then 0
    else
      var n := |acts| - 1;
      InsertedBySessions(states[..n + 1], acts[..n]) +
      if acts[n].Handle? then |states[n + 1].held - states[n].held| else 0
  }

  lemma RunPrefix(config: RelayConfig, states: seq<Agent>, acts: seq<Act>, n: nat)
    requires Run(config, states, acts) && n <= |acts|
    ensures Run(config, states[..n + 1], acts[..n])
  {
    var front, taken := states[..n + 1], acts[..n];
    forall i {:trigger NextAt(config, front, taken, i)} | 0 <= i < n ensures NextAt(config, front, taken, i) {
      assert NextAt(config, states, acts, i);
    }
  }

  lemma StepAccounts(config: RelayConfig, a: Agent, act: Act, a': Agent)
    requires AllWithinBudget(config, a) && Next(config, a, act, a')
    ensures AllWithinBudget(config, a')
    ensures TotalStored(a'.ports) == TotalStored(a.ports) + if act.Handle? then |a'.held - a.held| else 0
  {
    match act
    case Open => assert a'.ports[..|a.ports|] == a.ports;
    case PeerSends(i, m) => TotalStoredUpdate(a.ports, i, a'.ports[i]);
    case PeerDrops(i) => TotalStoredUpdate(a.ports, i, a'.ports[i]);
    case Handle(i, now) =>
      assert WithinBudget(config, a.ports[i].end);
      StepInserts(config, ViewOf(a, a.ports[i]), ViewOf(a', a'.ports[i]), a.ports[i].peerGone, now);
      TotalStoredUpdate(a.ports, i, a'.ports[i]);
    case Elsewhere =>
  }

  lemma {:induction false} RunAccounts(config: RelayConfig, states: seq<Agent>, acts: seq<Act>)
    requires Run(config, states, acts)
    ensures AllWithinBudget(config, states[|acts|])
    ensures TotalStored(states[|acts|].ports) == InsertedBySessions(states, acts)
    decreases |acts|
  {
    if acts != [] {
      var n := |acts| - 1;
      RunPrefix(config, states, acts, n);
      RunAccounts(config, states[..n + 1], acts[..n]);
      assert NextAt(config, states, acts, n);
      StepAccounts(config, states[n], acts[n], states[n + 1]);
    }
  }

  /** Against any peers, k sessions insert at most k times the session cap. */
  lemma {:induction false} FloodBound(config: RelayConfig, states: seq<Agent>, acts: seq<Act>)
    requires Run(config, states, acts)
    ensures InsertedBySessions(states, acts) <= |states[|acts|].ports| * config.maxBundlesPerSession
  {
    RunAccounts(config, states, acts);
    TotalStoredBound(config, states[|acts|].ports);
  }

  /** No session step, whatever the peer sent, evicts a bundle that has not expired. */
  lemma FloodEvictsNothingLive(config: RelayConfig, states: seq<Agent>, acts: seq<Act>, n: nat)
    requires Run(config, states, acts) && n < |acts| && acts[n].Handle?
    ensures forall w :: w in states[n].held && w !in states[n + 1].held ==> ExpiredAt(w, acts[n].now)
  {
    RunPrefix(config, states, acts, n);
    RunAccounts(config, states[..n + 1], acts[..n]);
    assert NextAt(config, states, acts, n);
    var a, a', i := states[n], states[n + 1], acts[n].port;
    assert WithinBudget(config, a.ports[i].end);
    StepInserts(config, ViewOf(a, a.ports[i]), ViewOf(a', a'.ports[i]), a.ports[i].peerGone, acts[n].now);
  }

  // ---------------------------------------------------------------- the returned count

  /** The step from `trace[i]` admits a bundle that is already held. */
  ghost predicate AdmitsHeld(trace: seq<View>, i: nat)
    requires i < |trace|
  {
    trace[i].end.phase.Admitting? && trace[i].end.phase.bytes in trace[i].held
  }

  /** How many steps of the trace admit a bundle that is already held. */
  ghost function HeldAdmissions(trace: seq<View>): nat {
    if |trace| <= 1 then 0
    else HeldAdmissions(trace[..|trace| - 1]) + if AdmitsHeld(trace, |trace| - 2) then 1 else 0
  }

  /** Before the receive loop starts, both counters stand at zero. */
  predicate CountersStarted(e: End) {
    e.phase.Receiving? || e.phase.Admitting? || Over(e) || (e.admitted == 0 && e.stored == 0)
  }

  lemma StepCounts(config: RelayConfig, v: View, v': View, peerGone: bool, now: u64)
    requires EndStep(config, v, v', peerGone, now) && CountersStarted(v.end)
    ensures CountersStarted(v'.end)
    ensures v'.end.admitted - v'.end.stored - (v.end.admitted - v.end.stored)
            == if v.end.phase.Admitting? && v.end.phase.bytes in v.held then 1 else 0
  {
  }

  /**
   * In every session, whatever its peer sends, the returned count is the insertions plus the admissions of bundles
   * already held; the two agree exactly when there were no such admissions.
   */
  lemma {:induction false} CountIsInsertionsPlusHeld(config: RelayConfig, peer: Peer, trace: seq<View>)
    requires Trace(config, peer, trace) && trace[0].end == FRESH
    ensures CountersStarted(Last(trace).end)
    ensures Last(trace).end.admitted == Last(trace).end.stored + HeldAdmissions(trace)
    decreases |trace|
  {
    var n := |trace| - 1;
    if n > 0 {
      var earlier := trace[..n];
      assert Trace(config, peer, earlier) by {
        forall i: nat {:trigger LegAt(config, peer, earlier, i)} | i + 1 < |earlier|
          ensures LegAt(config, peer, earlier, i)
        {
          assert LegAt(config, peer, trace, i);
        }
      }
      CountIsInsertionsPlusHeld(config, peer, earlier);
      assert LegAt(config, peer, trace, n - 1);
      var v := trace[n - 1];
      StepCounts(config, v, trace[n], Gone(v, peer), Reading(v, peer));
    }
  }

  function Repeat(m: SyncMessage, k: nat): (s: seq<SyncMessage>)
    ensures |s| == k
  {
    seq(k, _ => m)
  }

  /**
   * The returned count is not a count of insertions: a peer that pushes one already held bundle k times makes the
   * session return k, for any k and any cap, whatever the clock reads before the bundle's expiry, while nothing is
   * stored.
   */
  lemma {:induction false} DuplicatesAreCounted(config: RelayConfig, peer: Peer, v: View, w: Wire, k: nat)
    returns (trace: seq<View>)
    requires v.end.phase.Receiving? && v.inbox == Repeat(Push(w), k) + [Done] && |v.inbox| <= |peer.arrivals|
    requires w in v.held && forall i :: 0 <= i < |peer.arrivals| ==> Screen(w, peer.arrivals[i].now).Ok?
    ensures Trace(config, peer, trace) && trace[0] == v
    ensures var last := Last(trace);
            last.end.phase.Returned? && last.end.admitted == v.end.admitted + k && last.held == v.held &&
            last.end.stored == v.end.stored
    decreases k
  {
    var taken := OnMessage(config, v.(inbox := v.inbox[1..]), v.inbox[0], Gone(v, peer), Reading(v, peer));
    assert Leg(config, peer, v, taken);
    if k == 0 {
      assert v.inbox == [Done];
      trace := [v, taken];
      assert LegAt(config, peer, trace, 0);
    } else {
      assert v.inbox[0] == Push(w);
      var locked := OnLock(config, taken, w);
      assert Leg(config, peer, taken, locked);
      assert locked.inbox == Repeat(Push(w), k - 1) + [Done];
      var rest := DuplicatesAreCounted(config, peer, locked, w, k - 1);
      trace := Prepend(config, peer, v, taken, Prepend(config, peer, taken, locked, rest));
    }
  }

  ghost function Prepend(config: RelayConfig, peer: Peer, v: View, next: View, rest: seq<View>): (trace: seq<View>)
    requires Trace(config, peer, rest) && rest[0] == next && Leg(config, peer, v, next)
    ensures Trace(config, peer, trace) && trace[0] == v && Last(trace) == Last(rest)
  {
    var trace := [v] + rest;
    assert Trace(config, peer, trace) by {
      forall i: nat {:trigger LegAt(config, peer, trace, i)} | i + 1 < |trace| ensures LegAt(config, peer, trace, i) {
        if i > 0 {
          assert LegAt(config, peer, rest, i - 1);
        }
      }
    }
    trace
  }
}
