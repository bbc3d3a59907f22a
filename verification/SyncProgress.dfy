/**
 * A sync session between two honest ends cannot violate its own protocol, cannot deadlock and
 * always ends, whatever other tasks do to the two stores meanwhile.
 */
module SyncProgress {
  import opened Wrappers
  import opened Bundle
  import opened Relay
  import opened SyncProtocol

  lemma {:induction false} RunOrderly(cs: Configs, states: seq<Session>, acts: seq<Act>, i: nat)
    requires Run(cs, states, acts) && i < |states|
    ensures Orderly(states[i])
    decreases i
  {
    if i > 0 {
      RunOrderly(cs, states, acts, i - 1);
      assert NextAt(cs, states, acts, i - 1);
      OrderlyStep(cs, states[i - 1], acts[i - 1], states[i]);
    }
  }

  /** No end ever sees a message out of order, and no send or receive ever finds a closed link. */
  lemma NeverFails(cs: Configs, states: seq<Session>, acts: seq<Act>, i: nat, side: Side)
    requires Run(cs, states, acts) && i < |states|
    ensures !states[i].EndOf(side).phase.Failed?
  {
    RunOrderly(cs, states, acts, i);
    assert InStep(states[i], side);
  }

  /**
   * An end returns, and so drops its link, only once its peer has sent its last message and the
   * end itself has taken it: nothing addressed to a returned end is lost.
   */
  lemma ClosesAfterLastSend(cs: Configs, states: seq<Session>, acts: seq<Act>, i: nat, side: Side)
    requires Run(cs, states, acts) && i < |states|
    requires states[i].EndOf(side).phase.Returned?
    ensures Sent(states[i].EndOf(Other(side))) == 3
    ensures states[i].Outbox(Other(side)) == []
  {
    RunOrderly(cs, states, acts, i);
    PeerStillThere(states[i], Other(side));
    assert Other(Other(side)) == side;
  }

  // ---------------------------------------------------------------- no deadlock

  lemma {:induction false} CanList<T(!new)>(all: set<T>) returns (listed: seq<T>)
    ensures Lists(listed, all)
    decreases |all|
  {
    if all == {} {
      listed := [];
    } else {
      var x :| x in all;
      var rest := CanList(all - {x});
      listed := rest + [x];
      ListsMore(rest, all - {x}, x);
      assert all - {x} + {x} == all;
    }
  }

  lemma CanStep(config: RelayConfig, v: View, peerGone: bool, now: u64) returns (v': View)
    requires !Over(v.end)
    requires AwaitsMessage(v.end) ==> v.inbox != []
    ensures EndStep(config, v, v', peerGone, now)
  {
    match v.end.phase
    case Sweeping => v' := v.(end := v.end.(phase := Listing), held := Swept(v.held, now));
    case Listing =>
      var mine := CanList(HashesOf(v.held));
      v' := if peerGone then Fail(v, LinkClosed)
            else v.(end := v.end.(phase := AwaitingHave, mine := mine), outbox := v.outbox + [Have(mine)]);
    case Collecting =>
      v' := v.(end := v.end.(phase := Sending,
                             toSend := Lookup(v.held, Truncate(v.end.theirWant, config.maxBundlesPerSession))));
    case Sending =>
      if peerGone {
        v' := Fail(v, LinkClosed);
      } else if v.end.toSend != [] {
        v' := v.(end := v.end.(toSend := v.end.toSend[1..]), outbox := v.outbox + [Push(v.end.toSend[0])]);
      } else {
        v' := v.(end := v.end.(phase := Receiving, admitted := 0, budget := config.maxBundlesPerSession, stored := 0),
                 outbox := v.outbox + [Done]);
      }
    case Admitting(bytes) => v' := OnLock(config, v, bytes);
    case AwaitingHave => v' := OnMessage(config, v.(inbox := v.inbox[1..]), v.inbox[0], peerGone, now);
    case AwaitingWant => v' := OnMessage(config, v.(inbox := v.inbox[1..]), v.inbox[0], peerGone, now);
    case Receiving => v' := OnMessage(config, v.(inbox := v.inbox[1..]), v.inbox[0], peerGone, now);
    case Returned => assert false;
    case Failed(_) => assert false;
  }

  /**
   * If both ends waited on empty queues, each would have consumed all the other sent, and so each
   * would be one message ahead of the other.
   */
  lemma SomeoneCanMove(s: Session) returns (side: Side)
    requires Orderly(s) && !(s.left.phase.Returned? && s.right.phase.Returned?)
    ensures !Over(s.EndOf(side))
    ensures AwaitsMessage(s.EndOf(side)) ==> s.ViewOf(side).inbox != []
  {
    assert InStep(s, Left) && InStep(s, Right);
    side := if Over(s.left) || (AwaitsMessage(s.left) && s.toLeft == []) then Right else Left;
  }

  /** In every reachable state that is not finished, some end can move, whatever the clock reads. */
  lemma NeverStuck(cs: Configs, states: seq<Session>, acts: seq<Act>, now: u64)
    returns (side: Side, s': Session)
    requires Run(cs, states, acts)
    requires var s := states[|states| - 1]; !(s.left.phase.Returned? && s.right.phase.Returned?)
    ensures Next(cs, states[|states| - 1], Move(side, now), s')
  {
    var s := states[|states| - 1];
    RunOrderly(cs, states, acts, |states| - 1);
    side := SomeoneCanMove(s);
    var v' := CanStep(cs.Of(side), s.ViewOf(side), Over(s.EndOf(Other(side))), now);
    s' := s.With(side, v');
    assert s'.ViewOf(side) == v';
  }

  // ---------------------------------------------------------------- termination

  /** Steps an end may still take, not counting the messages waiting in its inbox. */
  function OwnWork(config: RelayConfig, e: End): nat {
    var cap := config.maxBundlesPerSession;
    match e.phase
    case Sweeping => 11 + 3 * cap
    case Listing => 10 + 3 * cap
    case AwaitingHave => 7 + 3 * cap
    case AwaitingWant => 6 + 3 * cap
    case Collecting => 5 + 3 * cap
    case Sending => 4 + 3 * |e.toSend|
    case Receiving => 1
    case Admitting(_) => 2
    case _ => 0
  }

  function Work(cs: Configs, s: Session): nat {
    OwnWork(cs.left, s.left) + OwnWork(cs.right, s.right) + 2 * |s.toLeft| + 2 * |s.toRight|
  }

  lemma EndStepWorks(config: RelayConfig, v: View, v': View, peerGone: bool, now: u64)
    requires EndStep(config, v, v', peerGone, now)
    ensures OwnWork(config, v'.end) + 2 * |v'.inbox| + 2 * |v'.outbox|
            < OwnWork(config, v.end) + 2 * |v.inbox| + 2 * |v.outbox|
  {
  }

  lemma StepWorks(cs: Configs, s: Session, act: Act, s': Session)
    requires Next(cs, s, act, s')
    ensures if act.Move? then Work(cs, s') < Work(cs, s) else Work(cs, s') == Work(cs, s)
  {
    if act.Move? {
      EndStepWorks(cs.Of(act.side), s.ViewOf(act.side), s'.ViewOf(act.side), Over(s.EndOf(Other(act.side))), act.now);
    }
  }

  function Moves(acts: seq<Act>): nat {
    if acts == [] then 0 else Moves(acts[..|acts| - 1]) + if acts[|acts| - 1].Move? then 1 else 0
  }

  lemma RunPrefix(cs: Configs, states: seq<Session>, acts: seq<Act>, n: nat)
    requires Run(cs, states, acts) && n <= |acts|
    ensures Run(cs, states[..n + 1], acts[..n])
  {
    var front, taken := states[..n + 1], acts[..n];
    forall i {:trigger NextAt(cs, front, taken, i)} | 0 <= i < n ensures NextAt(cs, front, taken, i) {
      assert NextAt(cs, states, acts, i);
    }
  }

  lemma {:induction false} RunWorks(cs: Configs, states: seq<Session>, acts: seq<Act>)
    requires Run(cs, states, acts)
    ensures Moves(acts) + Work(cs, states[|acts|]) <= Work(cs, states[0])
    decreases |acts|
  {
    if acts != [] {
      var n := |acts| - 1;
      assert NextAt(cs, states, acts, n);
      RunPrefix(cs, states, acts, n);
      RunWorks(cs, states[..n + 1], acts[..n]);
      StepWorks(cs, states[n], acts[n], states[n + 1]);
    }
  }

  /** A session takes a bounded number of steps, in every run and for every schedule. */
  lemma AlwaysTerminates(cs: Configs, states: seq<Session>, acts: seq<Act>)
    requires Run(cs, states, acts)
    ensures Moves(acts) <= 22 + 3 * cs.left.maxBundlesPerSession + 3 * cs.right.maxBundlesPerSession
  {
    RunWorks(cs, states, acts);
  }
}
