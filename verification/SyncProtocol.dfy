/**
 * One sync session between two relay agents (mesh/src/relay.rs, `sync_with_peer`) over a pair of
 * FIFO links (mesh/src/radio/simulated.rs), as a state machine.
 *
 * Both ends run the same code. A step is one thing an end does between two points where another
 * task can run: take the store lock once, or send or receive once. Only the answer to `Have` is one
 * step with its receive: nothing is locked or looked up in between, so it can as well come at once.
 * Between steps other tasks may change either store in any way (`Interfere`). Dropping an end's link
 * on return makes the peer's sends fail, and its receives fail once the queue is empty.
 */
module SyncProtocol {
  import opened Wrappers
  import opened Bundle
  import opened Relay

  /** `Undecodable` is a frame that is no sync message at all; only a peer of another mind sends one. */
  datatype SyncMessage =
    | Have(hashes: seq<BundleHash>)
    | Want(hashes: seq<BundleHash>)
    | Push(bytes: Wire)
    | Done
    | Undecodable

  /** Where an end stands in `sync_with_peer`. `Admitting` is after the pre-lock checks passed. */
  datatype Phase =
    | Sweeping
    | Listing
    | AwaitingHave
    | AwaitingWant
    | Collecting
    | Sending
    | Receiving
    | Admitting(bytes: Wire)
    | Returned
    | Failed(error: MeshError)

  /** An end's locals. `stored` counts the insertions this session made; the code keeps no such count. */
  datatype End = End(
    phase: Phase,
    mine: seq<BundleHash>,
    want: seq<BundleHash>,
    theirWant: seq<BundleHash>,
    toSend: seq<Wire>,
    admitted: nat,
    budget: nat,
    stored: nat)

  const FRESH := End(Sweeping, [], [], [], [], 0, 0, 0)

  /** Everything one end can see: its locals, its two queues and its own store. */
  datatype View = View(end: End, inbox: seq<SyncMessage>, outbox: seq<SyncMessage>, held: set<Wire>)

  function Missing(theirs: seq<BundleHash>, mine: seq<BundleHash>): seq<BundleHash> {
    if theirs == [] then []
    else if theirs[0] in mine then Missing(theirs[1..], mine)
    else [theirs[0]] + Missing(theirs[1..], mine)
  }

  function Truncate<T>(s: seq<T>, cap: nat): (t: seq<T>)
    ensures |t| <= cap && t <= s
  {
    if |s| <= cap then s else s[..cap]
  }

  /** The bytes of those hashes in `hashes` that the store still holds, in order. */
  function Lookup(held: set<Wire>, hashes: seq<BundleHash>): (found: seq<Wire>)
    ensures |found| <= |hashes|
  {
    if hashes == [] then []
    else if hashes[0].of in held then [hashes[0].of] + Lookup(held, hashes[1..])
    else Lookup(held, hashes[1..])
  }

  ghost function HashesOf(held: set<Wire>): set<BundleHash> {
    set w | w in held :: Digest(w)
  }

  function Fail(v: View, error: MeshError): View {
    v.(end := v.end.(phase := Failed(error)))
  }

  /** Why a message that is not the one awaited ends the session. */
  function Unexpected(m: SyncMessage): MeshError {
    if m.Undecodable? then SyncDecode else OutOfOrder
  }

  predicate AwaitsMessage(e: End) {
    e.phase.AwaitingHave? || e.phase.AwaitingWant? || e.phase.Receiving?
  }

  predicate Over(e: End) {
    e.phase.Returned? || e.phase.Failed?
  }

  /** One end's step on `Have`, `Want` or the receive loop, with `m` just taken off its inbox. */
  function OnMessage(config: RelayConfig, v: View, m: SyncMessage, peerGone: bool, now: u64): View {
    match v.end.phase
    case AwaitingHave =>
      if !m.Have? then Fail(v, Unexpected(m))
      else
        var want := Truncate(Missing(m.hashes, v.end.mine), config.maxBundlesPerSession);
        if peerGone then Fail(v, LinkClosed)
        else v.(end := v.end.(phase := AwaitingWant, want := want), outbox := v.outbox + [Want(want)])
    case AwaitingWant =>
      if m.Want? then v.(end := v.end.(phase := Collecting, theirWant := m.hashes)) else Fail(v, Unexpected(m))
    case _ =>
      match m
      case Push(bytes) => if Screen(bytes, now).Ok? then v.(end := v.end.(phase := Admitting(bytes))) else v
      case Done => v.(end := v.end.(phase := Returned))
      case _ => Fail(v, Unexpected(m))
  }

  ghost function OnLock(config: RelayConfig, v: View, bytes: Wire): View {
    var decision := Admit(config, v.held, bytes, Some(v.end.budget));
    if decision.Refused? then v.(end := v.end.(phase := Receiving))
    else
      v.(held := AfterAdmit(v.held, bytes, decision),
         end := v.end.(phase := Receiving,
                       admitted := v.end.admitted + 1,
                       budget := if v.end.budget == 0 then 0 else v.end.budget - 1,
                       stored := v.end.stored + if decision.Inserted? then 1 else 0))
  }

  /** `v` becomes `v'` by one step of its end, which reads the clock as `now`. */
  ghost predicate EndStep(config: RelayConfig, v: View, v': View, peerGone: bool, now: u64) {
    match v.end.phase
    case Sweeping => v' == v.(end := v.end.(phase := Listing), held := Swept(v.held, now))
    case Listing =>
      if peerGone then v' == Fail(v, LinkClosed)
      else
        var mine := v'.end.mine;
        Lists(mine, HashesOf(v.held)) &&
        v' == v.(end := v.end.(phase := AwaitingHave, mine := mine), outbox := v.outbox + [Have(mine)])
    case Collecting =>
      var taken := Truncate(v.end.theirWant, config.maxBundlesPerSession);
      v' == v.(end := v.end.(phase := Sending, toSend := Lookup(v.held, taken)))
    case Sending =>
      if peerGone then v' == Fail(v, LinkClosed)
      else if v.end.toSend != [] then
        v' == v.(end := v.end.(toSend := v.end.toSend[1..]), outbox := v.outbox + [Push(v.end.toSend[0])])
      else
        v' == v.(end := v.end.(phase := Receiving, admitted := 0, budget := config.maxBundlesPerSession, stored := 0),
                 outbox := v.outbox + [Done])
    case Admitting(bytes) => v' == OnLock(config, v, bytes)
    case Returned => false
    case Failed(_) => false
    case _ =>
      if v.inbox != [] then v' == OnMessage(config, v.(inbox := v.inbox[1..]), v.inbox[0], peerGone, now)
      else peerGone && v' == Fail(v, LinkClosed)
  }

  // ---------------------------------------------------------------- two ends

  datatype Side = Left | Right

  function Other(side: Side): Side {
    if side == Left then Right else Left
  }

  datatype Configs = Configs(left: RelayConfig, right: RelayConfig) {
    function Of(side: Side): RelayConfig {
      if side == Left then left else right
    }
  }

  datatype Session = Session(
    left: End, right: End,
    toRight: seq<SyncMessage>, toLeft: seq<SyncMessage>,
    heldLeft: set<Wire>, heldRight: set<Wire>)
  {
    function EndOf(side: Side): End {
      if side == Left then left else right
    }

    function Outbox(side: Side): seq<SyncMessage> {
      if side == Left then toRight else toLeft
    }

    function Held(side: Side): set<Wire> {
      if side == Left then heldLeft else heldRight
    }

    function ViewOf(side: Side): View {
      View(EndOf(side), Outbox(Other(side)), Outbox(side), Held(side))
    }

    function With(side: Side, v: View): Session {
      if side == Left
      then Session(v.end, right, v.outbox, v.inbox, v.held, heldRight)
      else Session(left, v.end, v.inbox, v.outbox, heldLeft, v.held)
    }
  }

  datatype Act = Move(side: Side, now: u64) | Interfere

  ghost predicate Next(cs: Configs, s: Session, act: Act, s': Session) {
    match act
    case Interfere => s' == s.(heldLeft := s'.heldLeft, heldRight := s'.heldRight)
    case Move(side, now) =>
      && EndStep(cs.Of(side), s.ViewOf(side), s'.ViewOf(side), Over(s.EndOf(Other(side))), now)
      && s' == s.With(side, s'.ViewOf(side))
  }

  predicate Opening(s: Session) {
    s.left == FRESH && s.right == FRESH && s.toLeft == [] && s.toRight == []
  }

  ghost predicate NextAt(cs: Configs, states: seq<Session>, acts: seq<Act>, i: nat)
    requires i < |acts| && i + 1 < |states|
  {
    Next(cs, states[i], acts[i], states[i + 1])
  }

  ghost predicate Run(cs: Configs, states: seq<Session>, acts: seq<Act>) {
    && |states| == |acts| + 1
    && Opening(states[0])
    && forall i :: 0 <= i < |acts| ==> NextAt(cs, states, acts, i)
  }

  /**
   * A step fails with a closed link exactly when the peer has returned or failed and this end is about to send, or
   * waits with nothing left to receive; an end that waits for a peer at work cannot step.
   */
  lemma ClosedLinkIff(cs: Configs, s: Session, side: Side, now: u64, s': Session)
    requires Next(cs, s, Move(side, now), s')
    ensures var phase, peer, queue := s.EndOf(side).phase, s.EndOf(Other(side)).phase, s.Outbox(Other(side));
            var waits := phase.AwaitingHave? || phase.AwaitingWant? || phase.Receiving?;
            && (s'.EndOf(side).phase == Failed(LinkClosed) <==>
                (peer.Returned? || peer.Failed?) &&
                (phase.Listing? || phase.Sending? || (waits && queue == []) ||
                 (phase.AwaitingHave? && queue[0].Have?)))
            && (waits && queue == [] ==> peer.Returned? || peer.Failed?)
  {
  }

  // ---------------------------------------------------------------- order of messages

  /** How much of its script an end has sent: 1 after `Have`, 2 after `Want`, 3 after `Done`. */
  function Sent(e: End): int {
    match e.phase
    case Sweeping => 0
    case Listing => 0
    case AwaitingHave => 1
    case AwaitingWant => 2
    case Collecting => 2
    case Sending => 2
    case _ => 3
  }

  /** How much of the peer's script an end has taken off its inbox. */
  function Consumed(e: End): int {
    match e.phase
    case Sweeping => 0
    case Listing => 0
    case AwaitingHave => 0
    case AwaitingWant => 1
    case Returned => 3
    case _ => 2
  }

  /** The stage `m` leads to, or -1 when it is out of order. */
  function StageAfter(stage: int, m: SyncMessage): int {
    if stage == 0 && m.Have? then 1
    else if stage == 1 && m.Want? then 2
    else if stage == 2 && m.Push? then 2
    else if stage == 2 && m.Done? then 3
    else -1
  }

  function Advance(stage: int, queue: seq<SyncMessage>): int
    decreases |queue|
  {
    if queue == [] then stage else Advance(StageAfter(stage, queue[0]), queue[1..])
  }

  lemma {:induction false} AdvanceMore(stage: int, queue: seq<SyncMessage>, m: SyncMessage)
    ensures Advance(stage, queue + [m]) == StageAfter(Advance(stage, queue), m)
    decreases |queue|
  {
    if queue == [] {
      assert (queue + [m])[1..] == [];
    } else {
      assert (queue + [m])[1..] == queue[1..] + [m];
      AdvanceMore(StageAfter(stage, queue[0]), queue[1..], m);
    }
  }

  lemma {:induction false} AdvanceLost(queue: seq<SyncMessage>)
    ensures Advance(-1, queue) == -1
    decreases |queue|
  {
    if queue != [] {
      AdvanceLost(queue[1..]);
    }
  }

  lemma AdvanceHead(stage: int, queue: seq<SyncMessage>)
    requires queue != [] && Advance(stage, queue) != -1
    ensures StageAfter(stage, queue[0]) != -1
    ensures Advance(StageAfter(stage, queue[0]), queue[1..]) == Advance(stage, queue)
  {
    AdvanceLost(queue[1..]);
  }

  /** What is in flight from `side` is exactly the part of its script between the two ends. */
  predicate InStep(s: Session, side: Side) {
    && !s.EndOf(side).phase.Failed?
    && Advance(Consumed(s.EndOf(Other(side))), s.Outbox(side)) == Sent(s.EndOf(side))
  }

  predicate Orderly(s: Session) {
    InStep(s, Left) && InStep(s, Right)
  }

  /** What one step does to the two queues, seen as script positions. */
  lemma StepMovesScript(config: RelayConfig, v: View, v': View, peerGone: bool, now: u64)
    requires EndStep(config, v, v', peerGone, now)
    requires peerGone ==> Sent(v.end) == 3 && (v.inbox == [] ==> Over(v.end))
    requires AwaitsMessage(v.end) && v.inbox != [] ==> StageAfter(Consumed(v.end), v.inbox[0]) != -1
    ensures !v'.end.phase.Failed?
    ensures if AwaitsMessage(v.end)
            then v.inbox != [] && v'.inbox == v.inbox[1..] &&
                 Consumed(v'.end) == StageAfter(Consumed(v.end), v.inbox[0])
            else v'.inbox == v.inbox && Consumed(v'.end) == Consumed(v.end)
    ensures || (v'.outbox == v.outbox && Sent(v'.end) == Sent(v.end))
            || (v'.outbox != [] && v'.outbox == v.outbox + [v'.outbox[|v'.outbox| - 1]] &&
                Sent(v'.end) == StageAfter(Sent(v.end), v'.outbox[|v'.outbox| - 1]))
  {
  }

  lemma OrderlyStep(cs: Configs, s: Session, act: Act, s': Session)
    requires Orderly(s) && Next(cs, s, act, s')
    ensures Orderly(s')
  {
    if act.Move? {
      var me, peer := act.side, Other(act.side);
      assert InStep(s, me) && InStep(s, peer);
      var v, v' := s.ViewOf(me), s'.ViewOf(me);
      PeerStillThere(s, me);
      if AwaitsMessage(v.end) && v.inbox != [] {
        AdvanceHead(Consumed(v.end), v.inbox);
      }
      StepMovesScript(cs.Of(me), v, v', Over(s.EndOf(peer)), act.now);
      if v'.outbox != v.outbox {
        AdvanceMore(Consumed(s.EndOf(peer)), v.outbox, v'.outbox[|v'.outbox| - 1]);
      }
      assert InStep(s', me) && InStep(s', peer);
    }
  }

  /** While an end is still at work, its peer's link is open whenever it needs it. */
  lemma PeerStillThere(s: Session, me: Side)
    requires Orderly(s)
    ensures Over(s.EndOf(Other(me))) ==> Sent(s.EndOf(me)) == 3
    ensures Over(s.EndOf(Other(me))) && s.Outbox(Other(me)) == [] ==> Over(s.EndOf(me))
    ensures Over(s.EndOf(Other(me))) ==> s.Outbox(me) == []
  {
    assert InStep(s, me) && InStep(s, Other(me));
    if Over(s.EndOf(Other(me))) && s.Outbox(me) != [] {
      AdvanceLost(s.Outbox(me)[1..]);
    }
  }

  // ---------------------------------------------------------------- what one step moves

  /** Where the bundles at one end come from: each step only moves them along. */
  lemma StepMovesBundles(config: RelayConfig, v: View, v': View, peerGone: bool, now: u64)
    requires EndStep(config, v, v', peerGone, now)
    ensures forall w :: w in v'.held ==> w in v.held || v.end.phase == Admitting(w)
    ensures forall w :: v'.end.phase == Admitting(w) ==> v.inbox != [] && v.inbox[0] == Push(w) && Screen(w, now).Ok?
    ensures forall w :: w in v'.end.toSend ==> w in v.end.toSend || w in v.held
    ensures forall w :: Push(w) in v'.outbox ==> Push(w) in v.outbox || w in v.end.toSend
    ensures forall m :: m in v'.inbox ==> m in v.inbox
  {
    if v.end.phase.Collecting? {
      LookupHeld(v.held, Truncate(v.end.theirWant, config.maxBundlesPerSession));
    }
  }

  lemma {:induction false} LookupHeld(held: set<Wire>, hashes: seq<BundleHash>)
    ensures forall w :: w in Lookup(held, hashes) ==> w in held
    decreases |hashes|
  {
    if hashes != [] {
      LookupHeld(held, hashes[1..]);
    }
  }

  /** The caps hold through every session step, whatever the peer sent. */
  lemma StepAccounted(config: RelayConfig, v: View, v': View, peerGone: bool, now: u64)
    requires EndStep(config, v, v', peerGone, now) && Accounted(config, v.held)
    requires v.end.phase.Admitting? ==> Decodable(v.end.phase.bytes)
    ensures Accounted(config, v'.held)
  {
    match v.end.phase
    case Sweeping => AccountedSubset(config, v.held, v'.held);
    case Admitting(w) => AccountedAfterAdmit(config, v.held, w, Some(v.end.budget));
    case _ =>
  }
}
