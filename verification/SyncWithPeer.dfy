/**
 * `MeshRelayAgent::sync_with_peer` as the loop it is, against a peer that may send anything.
 *
 * The method is proved to be an execution of one end of the state machine in `SyncProtocol`: it
 * returns the views it went through, each one step from the one before.
 */
module SyncWithPeer {
  import opened Wrappers
  import opened Bundle
  import opened Relay
  import opened SyncProtocol

  /** A message from the peer and the clock reading when this end handles it. */
  datatype Arrival = Arrival(message: SyncMessage, now: u64)

  function Messages(arrivals: seq<Arrival>): (messages: seq<SyncMessage>)
    ensures |messages| == |arrivals|
  {
    seq(|arrivals|, i requires 0 <= i < |arrivals| => arrivals[i].message)
  }

  /**
   * This end's link. `arrivals` is what the peer will have sent by the time it is asked for, and
   * `accepts` is how many sends go through before the peer is gone.
   */
  class MeshLink {
    var arrivals: seq<Arrival>
    var sent: seq<SyncMessage>
    var accepts: nat

    method Send(m: SyncMessage) returns (result: Result<(), MeshError>)
      modifies this
      ensures arrivals == old(arrivals)
      ensures result == if old(accepts) > 0 then Ok(()) else Err(LinkClosed)
      ensures accepts == if result.Ok? then old(accepts) - 1 else 0
      ensures sent == if result.Ok? then old(sent) + [m] else old(sent)
    {
      if accepts == 0 {
        return Err(LinkClosed);
      }
      accepts := accepts - 1;
      sent := sent + [m];
      return Ok(());
    }

    method Recv() returns (result: Result<Arrival, MeshError>)
      modifies this`arrivals
      ensures old(arrivals) == [] ==> result == Err(LinkClosed) && arrivals == []
      ensures old(arrivals) != [] ==> result == Ok(old(arrivals)[0]) && arrivals == old(arrivals)[1..]
    {
      if arrivals == [] {
        return Err(LinkClosed);
      }
      result := Ok(arrivals[0]);
      arrivals := arrivals[1..];
    }
  }

  /**
   * All the world this end meets: how long its outbox may get before the peer is gone, every message the peer sends
   * with the reading at its handling, and the reading at the start.
   */
  datatype Peer = Peer(limit: nat, arrivals: seq<Arrival>, start: u64)

  /** Whether the link fails this step: on a receive when nothing is left to come, on a send when the peer is gone. */
  predicate Gone(v: View, peer: Peer) {
    if AwaitsMessage(v.end) && v.inbox == [] then true else |v.outbox| >= peer.limit
  }

  /** What the clock reads at this step: the start's reading for the sweep, the message's when one is handled. */
  function Reading(v: View, peer: Peer): u64 {
    if 0 < |v.inbox| <= |peer.arrivals| && AwaitsMessage(v.end)
    then peer.arrivals[|peer.arrivals| - |v.inbox|].now else peer.start
  }

  /** The one step this end takes from `v` in that world, up to the order in which a store lists its keys. */
  ghost predicate Leg(config: RelayConfig, peer: Peer, v: View, v': View) {
    EndStep(config, v, v', Gone(v, peer), Reading(v, peer))
  }

  ghost predicate LegAt(config: RelayConfig, peer: Peer, trace: seq<View>, i: nat)
    requires i + 1 < |trace|
  {
    Leg(config, peer, trace[i], trace[i + 1])
  }

  ghost predicate Trace(config: RelayConfig, peer: Peer, trace: seq<View>) {
    |trace| > 0 && forall i: nat :: i + 1 < |trace| ==> LegAt(config, peer, trace, i)
  }

  ghost function Last(trace: seq<View>): View
    requires |trace| > 0
  {
    trace[|trace| - 1]
  }

  lemma Extend(config: RelayConfig, peer: Peer, trace: seq<View>, v: View)
    requires Trace(config, peer, trace) && Leg(config, peer, Last(trace), v)
    ensures Trace(config, peer, trace + [v]) && Last(trace + [v]) == v && (trace + [v])[0] == trace[0]
  {
    var longer := trace + [v];
    forall i: nat {:trigger LegAt(config, peer, longer, i)} | i + 1 < |longer|
      ensures LegAt(config, peer, longer, i)
    {
      if i + 1 < |trace| {
        assert LegAt(config, peer, trace, i);
      }
    }
  }

  /** The link is that of `peer`, as far as it has been used. */
  ghost predicate Linked(link: MeshLink, peer: Peer)
    reads link
  {
    && |link.sent| + link.accepts == peer.limit
    && |link.arrivals| <= |peer.arrivals|
    && link.arrivals == peer.arrivals[|peer.arrivals| - |link.arrivals|..]
  }

  /** The trace ends where the agent and the link stand now. */
  ghost predicate Current(agent: MeshRelayAgent, link: MeshLink, peer: Peer, trace: seq<View>)
    reads agent, link
  {
    && Trace(agent.config, peer, trace) && agent.Valid() && Linked(link, peer)
    && Last(trace).held == agent.Contents()
    && Last(trace).outbox == link.sent
    && Last(trace).inbox == Messages(link.arrivals)
  }

  method ListKeys(agent: MeshRelayAgent) returns (hashes: seq<BundleHash>)
    requires agent.Valid()
    ensures Lists(hashes, HashesOf(agent.Contents()))
  {
    var todo := agent.byHash.Keys;
    hashes := [];
    while todo != {}
      invariant todo <= agent.byHash.Keys
      invariant Lists(hashes, agent.byHash.Keys - todo)
      decreases todo
    {
      var h :| h in todo;
      ListsMore(hashes, agent.byHash.Keys - todo, h);
      assert agent.byHash.Keys - (todo - {h}) == agent.byHash.Keys - todo + {h};
      hashes := hashes + [h];
      todo := todo - {h};
    }
    forall h ensures h in HashesOf(agent.Contents()) <==> h in agent.byHash.Keys {
      assert h == Digest(h.of);
      InPreimages(agent.byHash.Keys, h.of);
    }
    assert agent.byHash.Keys - todo == agent.byHash.Keys;
  }

  function Collect(m: HashMap, hashes: seq<BundleHash>): seq<Wire> {
    if hashes == [] then []
    else if hashes[0] in m then [m[hashes[0]].bytes] + Collect(m, hashes[1..])
    else Collect(m, hashes[1..])
  }

  lemma {:induction false} CollectIsLookup(m: HashMap, hashes: seq<BundleHash>)
    requires Filed(m)
    ensures Collect(m, hashes) == Lookup(Preimages(m.Keys), hashes)
    decreases |hashes|
  {
    if hashes != [] {
      CollectIsLookup(m, hashes[1..]);
      InPreimages(m.Keys, hashes[0].of);
      assert hashes[0] == Digest(hashes[0].of);
    }
  }

  /** One message: a receive that, when it fails, ends the session with the link's error. */
  method Receive(agent: MeshRelayAgent, link: MeshLink, ghost peer: Peer, ghost trace: seq<View>)
    returns (got: Result<Arrival, MeshError>, ghost trace': seq<View>)
    requires Current(agent, link, peer, trace) && AwaitsMessage(Last(trace).end)
    modifies link`arrivals
    ensures Linked(link, peer)
    ensures got.Err? <==> Last(trace).inbox == []
    ensures got.Ok? ==> old(link.arrivals) != [] && got.value == old(link.arrivals)[0]
    ensures got.Err? ==> Current(agent, link, peer, trace') && trace'[0] == trace[0]
                         && Last(trace') == Fail(Last(trace), got.error)
    ensures got.Ok? ==> trace' == trace && Last(trace).inbox == [got.value.message] + Messages(link.arrivals)
                        && Reading(Last(trace), peer) == got.value.now
  {
    ghost var v := Last(trace);
    trace' := trace;
    got := link.Recv();
    if got.Err? {
      trace' := trace + [Fail(v, LinkClosed)];
      Extend(agent.config, peer, trace, Fail(v, LinkClosed));
    }
  }

  /** What a link has in store for a session that starts at `now`. */
  ghost function PeerOf(link: MeshLink, now: u64): Peer
    reads link
  {
    Peer(|link.sent| + link.accepts, link.arrivals, now)
  }

  method SyncWithPeer(agent: MeshRelayAgent, link: MeshLink, now: u64)
    returns (result: Result<nat, MeshError>, ghost trace: seq<View>)
    requires agent.Valid()
    modifies agent, link
    ensures Current(agent, link, old(PeerOf(link, now)), trace)
    ensures trace[0] == View(FRESH, Messages(old(link.arrivals)), old(link.sent), old(agent.Contents()))
    ensures match result
            case Ok(admitted) => Last(trace).end.phase.Returned? && Last(trace).end.admitted == admitted
            case Err(error) => Last(trace).end.phase == Failed(error)
    ensures old(link.accepts) > 0 && old(link.arrivals) != [] && !old(link.arrivals[0]).message.Have? ==>
              result == Err(if old(link.arrivals[0]).message.Undecodable? then SyncDecode else OutOfOrder)
  {
    var config := agent.config;
    ghost var peer := PeerOf(link, now);
    ghost var v := View(FRESH, Messages(link.arrivals), link.sent, agent.Contents());
    trace := [v];

    agent.SweepExpired(now);
    ghost var v' := v.(end := v.end.(phase := Listing), held := agent.Contents());
    Extend(config, peer, trace, v');
    trace, v := trace + [v'], v';

    var myHashes := ListKeys(agent);
    var sent := link.Send(Have(myHashes));
    v' := if sent.Ok? then v.(end := v.end.(phase := AwaitingHave, mine := myHashes), outbox := link.sent)
          else Fail(v, LinkClosed);
    Extend(config, peer, trace, v');
    trace, v := trace + [v'], v';
    if sent.Err? {
      return Err(sent.error), trace;
    }
    result, trace := Negotiate(agent, link, myHashes, peer, trace);
  }

  /** From the peer's `Have` on. */
  method Negotiate(
    agent: MeshRelayAgent, link: MeshLink, myHashes: seq<BundleHash>, ghost peer: Peer, ghost trace: seq<View>)
    returns (result: Result<nat, MeshError>, ghost trace': seq<View>)
    requires Current(agent, link, peer, trace)
    requires Last(trace).end.phase.AwaitingHave? && Last(trace).end.mine == myHashes
    modifies agent, link
    ensures Current(agent, link, peer, trace') && trace'[0] == trace[0]
    ensures match result
            case Ok(admitted) => Last(trace').end.phase.Returned? && Last(trace').end.admitted == admitted
            case Err(error) => Last(trace').end.phase == Failed(error)
    ensures old(link.arrivals) != [] && !old(link.arrivals[0]).message.Have? ==>
              result == Err(if old(link.arrivals[0]).message.Undecodable? then SyncDecode else OutOfOrder)
  {
    var config := agent.config;
    var got;
    ghost var v := Last(trace);
    got, trace' := Receive(agent, link, peer, trace);
    if got.Err? {
      return Err(got.error), trace';
    }
    v := v.(inbox := Messages(link.arrivals));
    if !got.value.message.Have? {
      ghost var failed := Fail(v, Unexpected(got.value.message));
      Extend(config, peer, trace', failed);
      return Err(Unexpected(got.value.message)), trace' + [failed];
    }
    var want := Truncate(Missing(got.value.message.hashes, myHashes), config.maxBundlesPerSession);
    var sent := link.Send(Want(want));
    ghost var v' := if sent.Ok? then v.(end := v.end.(phase := AwaitingWant, want := want), outbox := link.sent)
                    else Fail(v, LinkClosed);
    Extend(config, peer, trace', v');
    trace', v := trace' + [v'], v';
    if sent.Err? {
      return Err(sent.error), trace';
    }
    result, trace' := Serve(agent, link, peer, trace');
  }

  /** From the peer's `Want` on. */
  method Serve(agent: MeshRelayAgent, link: MeshLink, ghost peer: Peer, ghost trace: seq<View>)
    returns (result: Result<nat, MeshError>, ghost trace': seq<View>)
    requires Current(agent, link, peer, trace) && Last(trace).end.phase.AwaitingWant?
    modifies agent, link
    ensures Current(agent, link, peer, trace') && trace'[0] == trace[0]
    ensures match result
            case Ok(admitted) => Last(trace').end.phase.Returned? && Last(trace').end.admitted == admitted
            case Err(error) => Last(trace').end.phase == Failed(error)
  {
    var config := agent.config;
    var got;
    ghost var v := Last(trace);
    got, trace' := Receive(agent, link, peer, trace);
    if got.Err? {
      return Err(got.error), trace';
    }
    v := v.(inbox := Messages(link.arrivals));
    if !got.value.message.Want? {
      ghost var failed := Fail(v, Unexpected(got.value.message));
      Extend(config, peer, trace', failed);
      return Err(Unexpected(got.value.message)), trace' + [failed];
    }
    var theirWant := got.value.message.hashes;
    ghost var v' := v.(end := v.end.(phase := Collecting, theirWant := theirWant));
    Extend(config, peer, trace', v');
    trace', v := trace' + [v'], v';

    var toSend := Collect(agent.byHash, Truncate(theirWant, config.maxBundlesPerSession));
    CollectIsLookup(agent.byHash, Truncate(theirWant, config.maxBundlesPerSession));
    v' := v.(end := v.end.(phase := Sending, toSend := toSend));
    Extend(config, peer, trace', v');
    trace', v := trace' + [v'], v';

    var sent;
    sent, trace' := SendBatch(agent, link, toSend, peer, trace');
    if sent.Err? {
      return Err(sent.error), trace';
    }
    result, trace' := ReceiveBatch(agent, link, peer, trace');
  }

  /** The sending loop and the closing `Done`. */
  method SendBatch(agent: MeshRelayAgent, link: MeshLink, toSend: seq<Wire>, ghost peer: Peer, ghost trace: seq<View>)
    returns (result: Result<(), MeshError>, ghost trace': seq<View>)
    requires Current(agent, link, peer, trace) && Last(trace).end.phase.Sending? && Last(trace).end.toSend == toSend
    modifies link
    ensures Current(agent, link, peer, trace') && trace'[0] == trace[0]
    ensures match result
            case Ok(_) => Last(trace').end.phase.Receiving? && Last(trace').end.admitted == 0 &&
                          Last(trace').end.budget == agent.config.maxBundlesPerSession
            case Err(error) => Last(trace').end.phase == Failed(error)
  {
    var rest := toSend;
    trace' := trace;
    while rest != []
      invariant Current(agent, link, peer, trace') && trace'[0] == trace[0]
      invariant Last(trace').end.phase.Sending? && Last(trace').end.toSend == rest
      decreases |rest|
    {
      result := link.Send(Push(rest[0]));
      ghost var v := Last(trace');
      ghost var next := if result.Ok? then v.(end := v.end.(toSend := rest[1..]), outbox := link.sent)
                        else Fail(v, LinkClosed);
      Extend(agent.config, peer, trace', next);
      trace' := trace' + [next];
      if result.Err? {
        return;
      }
      rest := rest[1..];
    }
    result := link.Send(Done);
    ghost var v := Last(trace');
    ghost var ready := v.end.(phase := Receiving, admitted := 0, budget := agent.config.maxBundlesPerSession,
                              stored := 0);
    ghost var next := if result.Ok? then v.(end := ready, outbox := link.sent) else Fail(v, LinkClosed);
    Extend(agent.config, peer, trace', next);
    trace' := trace' + [next];
  }

  /** The last message of the receive loop, whatever it is, ends the session. */
  lemma CloseBatch(
    config: RelayConfig, peer: Peer, trace: seq<View>, message: SyncMessage, rest: seq<SyncMessage>, now: u64)
    returns (trace': seq<View>)
    requires Trace(config, peer, trace) && Last(trace).end.phase.Receiving? && !message.Push?
    requires Last(trace).inbox == [message] + rest && Reading(Last(trace), peer) == now
    ensures Trace(config, peer, trace') && trace'[0] == trace[0]
    ensures Last(trace') == if message.Done?
                            then Last(trace).(inbox := rest, end := Last(trace).end.(phase := Returned))
                            else Fail(Last(trace).(inbox := rest), Unexpected(message))
  {
    var next := OnMessage(config, Last(trace).(inbox := rest), message, Gone(Last(trace), peer), now);
    Extend(config, peer, trace, next);
    trace' := trace + [next];
  }

  /** The receive loop: admit each pushed bundle against the session budget until `Done`. */
  method ReceiveBatch(agent: MeshRelayAgent, link: MeshLink, ghost peer: Peer, ghost trace: seq<View>)
    returns (result: Result<nat, MeshError>, ghost trace': seq<View>)
    requires Current(agent, link, peer, trace) && Last(trace).end.phase.Receiving?
    requires Last(trace).end.admitted == 0 && Last(trace).end.budget == agent.config.maxBundlesPerSession
    modifies agent, link`arrivals
    ensures Current(agent, link, peer, trace') && trace'[0] == trace[0]
    ensures match result
            case Ok(admitted) => Last(trace').end.phase.Returned? && Last(trace').end.admitted == admitted
            case Err(error) => Last(trace').end.phase == Failed(error)
  {
    var admitted, budget := 0, agent.config.maxBundlesPerSession;
    trace' := trace;
    while true
      invariant Current(agent, link, peer, trace') && trace'[0] == trace[0]
      invariant Last(trace').end.phase.Receiving?
      invariant Last(trace').end.admitted == admitted && Last(trace').end.budget == budget
      decreases |link.arrivals|
    {
      var got;
      got, trace' := Receive(agent, link, peer, trace');
      if got.Err? {
        return Err(got.error), trace';
      }
      var message := got.value.message;
      if message.Push? {
        var ok;
        ok, trace' := AdmitPushed(agent, link, message.bytes, got.value.now, budget, peer, trace');
        if ok {
          admitted := admitted + 1;
          budget := if budget == 0 then 0 else budget - 1;
        }
      } else {
        trace' := CloseBatch(agent.config, peer, trace', message, Messages(link.arrivals), got.value.now);
        if message.Done? {
          return Ok(admitted), trace';
        }
        return Err(Unexpected(message)), trace';
      }
    }
  }

  /** The one or two steps of the machine for a pushed bundle. */
  lemma AdmitSteps(
    config: RelayConfig, peer: Peer, trace: seq<View>, bytes: Wire, rest: seq<SyncMessage>, now: u64, budget: nat)
    returns (trace': seq<View>)
    requires Trace(config, peer, trace) && Last(trace).end.phase.Receiving? && Last(trace).end.budget == budget
    requires Last(trace).inbox == [Push(bytes)] + rest && Reading(Last(trace), peer) == now
    ensures Trace(config, peer, trace') && trace'[0] == trace[0]
    ensures var v, v' := Last(trace), Last(trace');
            var decision := Admit(config, v.held, bytes, Some(budget));
            var ok := Screen(bytes, now).Ok? && !decision.Refused?;
            && v'.held == (if Screen(bytes, now).Ok? then AfterAdmit(v.held, bytes, decision) else v.held)
            && v'.inbox == rest && v'.outbox == v.outbox && v'.end.phase.Receiving?
            && v'.end.admitted == v.end.admitted + (if ok then 1 else 0)
            && v'.end.budget == if ok && budget > 0 then budget - 1 else budget
  {
    var next := OnMessage(config, Last(trace).(inbox := rest), Push(bytes), Gone(Last(trace), peer), now);
    Extend(config, peer, trace, next);
    trace' := trace + [next];
    if next.end.phase.Admitting? {
      var locked := OnLock(config, next, bytes);
      Extend(config, peer, trace', locked);
      trace' := trace' + [locked];
    }
  }

  /** The loop body for a pushed bundle: the pre-lock checks, then admission under the lock. */
  method AdmitPushed(
    agent: MeshRelayAgent, link: MeshLink, bytes: Wire, now: u64, budget: nat, ghost peer: Peer, ghost trace: seq<View>)
    returns (ok: bool, ghost trace': seq<View>)
    requires agent.Valid() && Trace(agent.config, peer, trace) && Linked(link, peer)
    requires var v := Last(trace);
             && v.end.phase.Receiving? && v.end.budget == budget
             && v.held == agent.Contents() && v.outbox == link.sent
             && v.inbox == [Push(bytes)] + Messages(link.arrivals) && Reading(v, peer) == now
    modifies agent
    ensures Current(agent, link, peer, trace') && trace'[0] == trace[0]
    ensures ok <==> Screen(bytes, now).Ok? && !Admit(agent.config, old(agent.Contents()), bytes, Some(budget)).Refused?
    ensures agent.Contents() == if Screen(bytes, now).Err? then old(agent.Contents())
                                else AfterAdmit(old(agent.Contents()), bytes,
                                                Admit(agent.config, old(agent.Contents()), bytes, Some(budget)))
    ensures var e, e' := Last(trace).end, Last(trace').end;
            && e'.phase.Receiving?
            && e'.admitted == e.admitted + (if ok then 1 else 0)
            && e'.budget == if ok && budget > 0 then budget - 1 else budget
  {
    trace' := AdmitSteps(agent.config, peer, trace, bytes, Messages(link.arrivals), now, budget);
    var outcome := agent.AdmitChecked(bytes, now, Some(budget));
    ok := outcome.Ok?;
  }
}
