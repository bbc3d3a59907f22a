/**
 * What a completed sync session between two honest ends moves, exactly, under every interleaving.
 *
 * The setting: both stores hold only decodable bundles that outlive the session, other tasks may
 * add bundles of their own to either store but remove none, and each store has room for whatever
 * batch the session caps let the peer send.
 */
module SyncExchange {
  import opened Wrappers
  import opened Bundle
  import opened Relay
  import opened SyncProtocol

  // ---------------------------------------------------------------- the batch a session moves

  function Wires(hashes: seq<BundleHash>): (wires: seq<Wire>)
    ensures |wires| == |hashes|
  {
    seq(|hashes|, i requires 0 <= i < |hashes| => hashes[i].of)
  }

  ghost predicate NoRepeats<T(!new)>(s: seq<T>) {
    forall i, j :: 0 <= i < j < |s| ==> s[i] != s[j]
  }

  lemma {:induction false} MissingIsDifference(theirs: seq<BundleHash>, mine: seq<BundleHash>)
    requires NoRepeats(theirs)
    ensures Lists(Missing(theirs, mine), Elements(theirs) - Elements(mine))
    decreases |theirs|
  {
    if theirs != [] {
      var rest := theirs[1..];
      MissingIsDifference(rest, mine);
      assert Elements(theirs) == Elements(rest) + {theirs[0]} && theirs[0] !in rest;
      if theirs[0] !in mine {
        var missing := Missing(theirs, mine);
        assert missing == [theirs[0]] + Missing(rest, mine);
        assert theirs[0] !in Missing(rest, mine);
        assert Elements(missing) == {theirs[0]} + Elements(Missing(rest, mine));
        assert forall h :: h in missing <==> h in Elements(missing);
      }
    }
  }

  lemma InWires(hashes: seq<BundleHash>, w: Wire)
    ensures w in Wires(hashes) <==> Digest(w) in hashes
  {
    assert forall h: BundleHash :: h == Digest(h.of);
    if Digest(w) in hashes {
      var i :| 0 <= i < |hashes| && hashes[i] == Digest(w);
      assert Wires(hashes)[i] == w;
    }
  }

  lemma WiresNoRepeats(hashes: seq<BundleHash>)
    requires NoRepeats(hashes)
    ensures NoRepeats(Wires(hashes))
  {
    assert forall h: BundleHash :: h == Digest(h.of);
    forall i, j | 0 <= i < j < |hashes| ensures Wires(hashes)[i] != Wires(hashes)[j] {
      assert hashes[i] != hashes[j] && hashes[i] == Digest(hashes[i].of) && hashes[j] == Digest(hashes[j].of);
    }
  }

  lemma {:induction false} LookupAll(held: set<Wire>, hashes: seq<BundleHash>)
    requires forall h :: h in hashes ==> h.of in held
    ensures Lookup(held, hashes) == Wires(hashes)
    decreases |hashes|
  {
    if hashes != [] {
      LookupAll(held, hashes[1..]);
      assert Wires(hashes) == [hashes[0].of] + Wires(hashes[1..]);
    }
  }

  /** The bundles the sender will push, once the receiver has settled what it wants. */
  ghost function Plan(receiver: End, senderCap: nat): seq<Wire> {
    if Consumed(receiver) >= 1 then Wires(Truncate(receiver.want, senderCap)) else []
  }

  // ---------------------------------------------------------------- one direction of the exchange

  /** The sender's script: `Have`, `Want`, the planned bundles, `Done`. */
  function MessageAt(sender: End, plan: seq<Wire>, k: nat): SyncMessage {
    if k == 0 then Have(sender.mine)
    else if k == 1 then Want(sender.want)
    else if k - 2 < |plan| then Push(plan[k - 2])
    else Done
  }

  /** How many messages of its script the sender has put on the link. */
  function SentPos(sender: End, planned: nat): int {
    if sender.phase.Sending? then 2 + planned - |sender.toSend|
    else if Sent(sender) == 3 then 3 + planned
    else Sent(sender)
  }

  /** How many messages of that script the receiver has taken off the link. */
  function TakenPos(receiver: End, planned: nat): int {
    match receiver.phase
    case Receiving => 2 + receiver.admitted
    case Admitting(_) => 3 + receiver.admitted
    case Returned => 3 + planned
    case _ => Consumed(receiver)
  }

  /** How many of the planned bundles the receiver has admitted. */
  function Got(receiver: End): nat {
    match receiver.phase
    case Receiving => receiver.admitted
    case Admitting(_) => receiver.admitted
    case Returned => receiver.admitted
    case _ => 0
  }

  /** Who knows what: the wants and the batch are computed from the snapshots that were exchanged. */
  ghost predicate Agreed(senderCap: nat, receiverCap: nat, sender: End, receiver: End) {
    var plan := Plan(receiver, senderCap);
    && (Consumed(receiver) >= 1 ==>
          Sent(sender) >= 1 && receiver.want == Truncate(Missing(sender.mine, receiver.mine), receiverCap))
    && (Consumed(sender) >= 2 ==> Consumed(receiver) >= 1 && sender.theirWant == receiver.want)
    && (sender.phase.Sending? ==> |sender.toSend| <= |plan| && sender.toSend == plan[|plan| - |sender.toSend|..])
  }

  /** What is in flight: the part of the sender's script between the two ends. */
  ghost predicate Flowing(sender: End, receiver: End, queue: seq<SyncMessage>, plan: seq<Wire>) {
    var taken, sent := TakenPos(receiver, |plan|), SentPos(sender, |plan|);
    && |queue| == sent - taken
    && forall i :: 0 <= i < |queue| ==> queue[i] == MessageAt(sender, plan, taken + i)
  }

  /** What has arrived: the admitted part of the plan, on top of what the receiver owns. */
  ghost predicate Arrived(receiverCap: nat, receiver: End, plan: seq<Wire>, own: set<Wire>, held: set<Wire>) {
    && Got(receiver) <= |plan|
    && held == own + Elements(plan[..Got(receiver)])
    && (receiver.phase.Receiving? || receiver.phase.Admitting? ==> receiver.budget == receiverCap - receiver.admitted)
    && (receiver.phase.Admitting? ==> receiver.admitted < |plan| && receiver.phase.bytes == plan[receiver.admitted])
    && (receiver.phase.Returned? ==> receiver.admitted == |plan|)
  }

  /** The whole exchange from `sender` to `receiver`. */
  ghost predicate Direction(
    senderCap: nat, receiverCap: nat, sender: End, receiver: End, queue: seq<SyncMessage>,
    receiverOwn: set<Wire>, receiverHeld: set<Wire>)
  {
    var plan := Plan(receiver, senderCap);
    && Agreed(senderCap, receiverCap, sender, receiver)
    && Flowing(sender, receiver, queue, plan)
    && Arrived(receiverCap, receiver, plan, receiverOwn, receiverHeld)
  }

  /** A snapshot once taken lists a store between what it held at the start and what it owns now. */
  ghost predicate Snapshot(e: End, start: set<Wire>, own: set<Wire>) {
    Sent(e) >= 1 ==> NoRepeats(e.mine) && start <= Elements(Wires(e.mine)) <= own
  }

  // ---------------------------------------------------------------- the setting

  datatype Pair = Pair(left: set<Wire>, right: set<Wire>) {
    ghost function Of(side: Side): set<Wire> {
      if side == Left then left else right
    }
  }

  /** `horizon` bounds every clock reading; `base` bounds what each side adds on its own. */
  datatype Setting = Setting(cs: Configs, horizon: u64, base: Pair)

  ghost predicate Lasting(held: set<Wire>, horizon: u64) {
    forall w :: w in held ==> ExpiryMs(w).Ok? && ExpiryMs(w).value > horizon && AddressOf(w).Ok?
  }

  ghost predicate Fits(config: RelayConfig, held: set<Wire>) {
    |held| <= config.maxTotalBundles && TotalLen(held) <= config.maxTotalBytes
  }

  /** Whatever batch of at most `batch` bundles arrives from `others`, it fits on top of `own`. */
  ghost predicate RoomFor(config: RelayConfig, own: set<Wire>, others: set<Wire>, batch: nat) {
    forall more: set<Wire> {:trigger Fits(config, own + more)} ::
      more <= others && |more| <= batch ==> Fits(config, own + more)
  }

  function BatchCap(cs: Configs): nat {
    Min(cs.left.maxBundlesPerSession, cs.right.maxBundlesPerSession)
  }

  ghost predicate RoomySide(t: Setting, side: Side) {
    && Lasting(t.base.Of(side), t.horizon)
    && RoomFor(t.cs.Of(side), t.base.Of(side), t.base.Of(Other(side)), BatchCap(t.cs))
  }

  ghost predicate Roomy(t: Setting) {
    RoomySide(t, Left) && RoomySide(t, Right)
  }

  /** What a side owns after a step: other tasks' additions count, the session's arrivals do not. */
  ghost function OwnAfter(own: Pair, s: Session, act: Act, s': Session): Pair {
    if act.Move? then own
    else Pair(own.left + (s'.heldLeft - s.heldLeft), own.right + (s'.heldRight - s.heldRight))
  }

  ghost predicate CalmStep(t: Setting, s: Session, act: Act, s': Session) {
    && Next(t.cs, s, act, s')
    && (act.Move? ==> act.now <= t.horizon)
    && (act.Interfere? ==>
          && s.heldLeft <= s'.heldLeft <= s.heldLeft + t.base.left
          && s.heldRight <= s'.heldRight <= s.heldRight + t.base.right)
  }

  /** One side's part of the exchange invariant: its own store and snapshot, and what it sends. */
  ghost predicate OneWay(t: Setting, start: Pair, own: Pair, s: Session, side: Side) {
    var peer := Other(side);
    && start.Of(side) <= own.Of(side) <= t.base.Of(side)
    && own.Of(side) <= s.Held(side)
    && Snapshot(s.EndOf(side), start.Of(side), own.Of(side))
    && Direction(t.cs.Of(side).maxBundlesPerSession, t.cs.Of(peer).maxBundlesPerSession,
                 s.EndOf(side), s.EndOf(peer), s.Outbox(side), own.Of(peer), s.Held(peer))
  }

  ghost predicate Exchange(t: Setting, start: Pair, own: Pair, s: Session) {
    Orderly(s) && OneWay(t, start, own, s, Left) && OneWay(t, start, own, s, Right)
  }

  /** The plan has no repeats, is new to the receiver, and is as long as the caps allow. */
  lemma PlanFacts(receiver: End, sender: End, senderCap: nat, receiverCap: nat)
    requires Consumed(receiver) >= 1 && NoRepeats(sender.mine)
    requires receiver.want == Truncate(Missing(sender.mine, receiver.mine), receiverCap)
    ensures var plan := Plan(receiver, senderCap);
            && NoRepeats(plan)
            && Elements(plan) <= Elements(Wires(sender.mine)) - Elements(Wires(receiver.mine))
            && |plan| == Min(|Elements(sender.mine) - Elements(receiver.mine)|, Min(senderCap, receiverCap))
  {
    var missing := Missing(sender.mine, receiver.mine);
    MissingIsDifference(sender.mine, receiver.mine);
    ListsCount(missing, Elements(sender.mine) - Elements(receiver.mine));
    var chosen := Truncate(receiver.want, senderCap);
    assert chosen <= missing;
    WiresNoRepeats(chosen);
    forall w | w in Wires(chosen) ensures w in Wires(sender.mine) && w !in Wires(receiver.mine) {
      InWires(chosen, w);
      InWires(sender.mine, w);
      InWires(receiver.mine, w);
      var i :| 0 <= i < |chosen| && chosen[i] == Digest(w);
      assert missing[i] in missing;
    }
  }

  // ---------------------------------------------------------------- every step keeps the exchange

  lemma SenderAgrees(config: RelayConfig, receiverCap: nat, v: View, v': View, receiver: End, peerGone: bool, now: u64)
    requires Agreed(config.maxBundlesPerSession, receiverCap, v.end, receiver)
    requires EndStep(config, v, v', peerGone, now) && !v'.end.phase.Failed?
    requires v.end.phase.AwaitingWant? ==> v.inbox != [] && v.inbox[0] == Want(receiver.want) && Consumed(receiver) >= 1
    requires v.end.phase.Collecting? ==>
               forall h :: h in Truncate(receiver.want, config.maxBundlesPerSession) ==> h.of in v.held
    ensures Agreed(config.maxBundlesPerSession, receiverCap, v'.end, receiver)
  {
    if v.end.phase.Collecting? {
      LookupAll(v.held, Truncate(receiver.want, config.maxBundlesPerSession));
    }
  }

  /** The sending loop sends the rest of the plan, then `Done`. */
  lemma LoopSends(config: RelayConfig, v: View, v': View, plan: seq<Wire>, peerGone: bool, now: u64)
    requires EndStep(config, v, v', peerGone, now) && !v'.end.phase.Failed?
    requires v.end.phase.Sending? && |v.end.toSend| <= |plan| && v.end.toSend == plan[|plan| - |v.end.toSend|..]
    ensures v'.outbox == v.outbox + [MessageAt(v'.end, plan, SentPos(v.end, |plan|))]
    ensures SentPos(v'.end, |plan|) == SentPos(v.end, |plan|) + 1
  {
  }

  /** One step sends at most one message, the next of the end's script. */
  lemma StepSends(config: RelayConfig, v: View, v': View, plan: seq<Wire>, peerGone: bool, now: u64)
    requires EndStep(config, v, v', peerGone, now) && !v'.end.phase.Failed?
    requires v.end.phase.Sending? ==> |v.end.toSend| <= |plan| && v.end.toSend == plan[|plan| - |v.end.toSend|..]
    requires v.end.phase.Collecting? ==>
            |Lookup(v.held, Truncate(v.end.theirWant, config.maxBundlesPerSession))| == |plan|
    ensures v'.end.mine == v.end.mine || SentPos(v.end, |plan|) == 0
    ensures v'.end.want == v.end.want || SentPos(v.end, |plan|) <= 1
    ensures || (v'.outbox == v.outbox && SentPos(v'.end, |plan|) == SentPos(v.end, |plan|))
            || (v'.outbox == v.outbox + [MessageAt(v'.end, plan, SentPos(v.end, |plan|))] &&
                SentPos(v'.end, |plan|) == SentPos(v.end, |plan|) + 1)
  {
    if v.end.phase.Sending? {
      LoopSends(config, v, v', plan, peerGone, now);
    }
  }

  lemma SenderFlows(v: View, v': View, receiver: End, plan: seq<Wire>)
    requires Flowing(v.end, receiver, v.outbox, plan)
    requires v'.end.mine == v.end.mine || SentPos(v.end, |plan|) == 0
    requires v'.end.want == v.end.want || SentPos(v.end, |plan|) <= 1
    requires || (v'.outbox == v.outbox && SentPos(v'.end, |plan|) == SentPos(v.end, |plan|))
             || (v'.outbox == v.outbox + [MessageAt(v'.end, plan, SentPos(v.end, |plan|))] &&
                 SentPos(v'.end, |plan|) == SentPos(v.end, |plan|) + 1)
    requires TakenPos(receiver, |plan|) >= 0
    ensures Flowing(v'.end, receiver, v'.outbox, plan)
  {
  }

  /** One step takes at most one message, and only when the end awaits one. */
  lemma StepTakes(config: RelayConfig, v: View, v': View, planned: nat, peerGone: bool, now: u64)
    requires EndStep(config, v, v', peerGone, now) && !v'.end.phase.Failed?
    requires AwaitsMessage(v.end) ==> v.inbox != []
    requires v.end.phase.Receiving? && v.inbox[0].Push? ==> Screen(v.inbox[0].bytes, now).Ok?
    requires v.end.phase.Receiving? && !v.inbox[0].Push? ==> v.end.admitted == planned
    requires v.end.phase.Admitting? ==> !Admit(config, v.held, v.end.phase.bytes, Some(v.end.budget)).Refused?
    ensures v'.inbox == if AwaitsMessage(v.end) then v.inbox[1..] else v.inbox
    ensures TakenPos(v'.end, planned) == TakenPos(v.end, planned) + if AwaitsMessage(v.end) then 1 else 0
  {
  }

  lemma ReceiverFlows(sender: End, v: View, v': View, plan: seq<Wire>, plan': seq<Wire>)
    requires Flowing(sender, v.end, v.inbox, plan)
    requires plan' == plan || (v.end.phase.AwaitingHave? && v'.end.phase.AwaitingWant? && plan == [] &&
                               !sender.phase.Sending? && Sent(sender) != 3)
    requires AwaitsMessage(v.end) ==> v.inbox != []
    requires v'.inbox == if AwaitsMessage(v.end) then v.inbox[1..] else v.inbox
    requires TakenPos(v'.end, |plan|) == TakenPos(v.end, |plan|) + if AwaitsMessage(v.end) then 1 else 0
    ensures Flowing(sender, v'.end, v'.inbox, plan')
  {
  }

  /** A step changes an end's snapshot, want or consumption only where the script says so. */
  lemma StepLearns(config: RelayConfig, v: View, v': View, peerGone: bool, now: u64)
    requires EndStep(config, v, v', peerGone, now) && !v'.end.phase.Failed?
    ensures v'.end.mine == v.end.mine || Consumed(v'.end) == 0
    ensures if v.end.phase.AwaitingHave?
            then v.inbox != [] && v.inbox[0].Have? && Consumed(v'.end) == 1 &&
                 v'.end.mine == v.end.mine &&
                 v'.end.want == Truncate(Missing(v.inbox[0].hashes, v.end.mine), config.maxBundlesPerSession)
            else v'.end.want == v.end.want && (Consumed(v.end) >= 1 <==> Consumed(v'.end) >= 1)
  {
  }

  lemma ReceiverAgrees(config: RelayConfig, senderCap: nat, v: View, v': View, sender: End, peerGone: bool, now: u64)
    requires Agreed(senderCap, config.maxBundlesPerSession, sender, v.end)
    requires EndStep(config, v, v', peerGone, now) && !v'.end.phase.Failed?
    requires v.end.phase.AwaitingHave? ==> Sent(sender) >= 1 && v.inbox != [] && v.inbox[0] == Have(sender.mine)
    ensures Agreed(senderCap, config.maxBundlesPerSession, sender, v'.end)
    ensures !v.end.phase.AwaitingHave? ==> Plan(v'.end, senderCap) == Plan(v.end, senderCap)
  {
    StepLearns(config, v, v', peerGone, now);
  }

  /** A step's effect on the receiving end's store and counters, when nothing is refused. */
  ghost predicate ArrivalStep(config: RelayConfig, v: View, v': View) {
    match v.end.phase
    case Receiving =>
      && v.inbox != [] && v'.held == v.held
      && v'.end.admitted == v.end.admitted && v'.end.budget == v.end.budget
      && v'.end.phase == if v.inbox[0].Push? then Admitting(v.inbox[0].bytes) else Returned
    case Admitting(w) =>
      && v'.end.phase.Receiving? && v'.held == v.held + {w}
      && v'.end.admitted == v.end.admitted + 1 && v'.end.budget == v.end.budget - 1
    case _ =>
      && v'.held == v.held && Got(v'.end) == 0
      && !v'.end.phase.Admitting? && !v'.end.phase.Returned?
      && (v'.end.phase.Receiving? ==> v'.end.budget == config.maxBundlesPerSession)
  }

  lemma StepArrives(config: RelayConfig, v: View, v': View, peerGone: bool, now: u64)
    requires EndStep(config, v, v', peerGone, now) && !v'.end.phase.Failed?
    requires AwaitsMessage(v.end) ==> v.inbox != []
    requires v.end.phase.Sweeping? ==> Swept(v.held, now) == v.held
    requires v.end.phase.Receiving? && v.inbox[0].Push? ==> Screen(v.inbox[0].bytes, now).Ok?
    requires v.end.phase.Admitting? ==>
               v.end.budget > 0 && !Admit(config, v.held, v.end.phase.bytes, Some(v.end.budget)).Refused?
    ensures ArrivalStep(config, v, v')
  {
    if v.end.phase.Admitting? {
      var w := v.end.phase.bytes;
      assert w in v.held ==> v.held + {w} == v.held;
    }
  }

  lemma ReceiverArrives(config: RelayConfig, v: View, v': View, plan: seq<Wire>, plan': seq<Wire>, own: set<Wire>)
    requires Arrived(config.maxBundlesPerSession, v.end, plan, own, v.held)
    requires plan' == plan || v.end.phase.AwaitingHave?
    requires !Over(v.end) && ArrivalStep(config, v, v')
    requires v.end.phase.Receiving? && v.inbox[0].Push? ==>
               v.end.admitted < |plan| && v.inbox[0] == Push(plan[v.end.admitted])
    requires v.end.phase.Receiving? && !v.inbox[0].Push? ==> v.end.admitted == |plan|
    ensures Arrived(config.maxBundlesPerSession, v'.end, plan', own, v'.held)
  {
    if v.end.phase.Admitting? {
      var n := v.end.admitted;
      assert plan[..n + 1] == plan[..n] + [plan[n]];
      assert Elements(plan[..n + 1]) == Elements(plan[..n]) + {plan[n]};
    } else if !v.end.phase.Receiving? {
      assert Elements(plan[..0]) == Elements(plan'[..0]);
    }
  }

  lemma DirectionSender(config: RelayConfig, receiverCap: nat, v: View, v': View, receiver: End,
                        own: set<Wire>, held: set<Wire>, peerGone: bool, now: u64)
    requires Direction(config.maxBundlesPerSession, receiverCap, v.end, receiver, v.outbox, own, held)
    requires EndStep(config, v, v', peerGone, now) && !v'.end.phase.Failed?
    requires v.end.phase.AwaitingWant? ==> v.inbox != [] && v.inbox[0] == Want(receiver.want) && Consumed(receiver) >= 1
    requires v.end.phase.Collecting? ==>
               forall h :: h in Truncate(receiver.want, config.maxBundlesPerSession) ==> h.of in v.held
    ensures Direction(config.maxBundlesPerSession, receiverCap, v'.end, receiver, v'.outbox, own, held)
  {
    if v.end.phase.Collecting? {
      LookupAll(v.held, Truncate(receiver.want, config.maxBundlesPerSession));
    }
    SenderAgrees(config, receiverCap, v, v', receiver, peerGone, now);
    StepSends(config, v, v', Plan(receiver, config.maxBundlesPerSession), peerGone, now);
    SenderFlows(v, v', receiver, Plan(receiver, config.maxBundlesPerSession));
  }

  lemma DirectionReceiver(config: RelayConfig, senderCap: nat, v: View, v': View, sender: End,
                          own: set<Wire>, peerGone: bool, now: u64)
    requires Direction(senderCap, config.maxBundlesPerSession, sender, v.end, v.inbox, own, v.held)
    requires EndStep(config, v, v', peerGone, now) && !v'.end.phase.Failed?
    requires AwaitsMessage(v.end) ==> v.inbox != []
    requires v.end.phase.Sweeping? ==> Swept(v.held, now) == v.held
    requires forall w :: w in Plan(v.end, senderCap) ==> Screen(w, now).Ok?
    requires v.end.phase.Admitting? ==> !Admit(config, v.held, v.end.phase.bytes, Some(v.end.budget)).Refused?
    requires |Plan(v.end, senderCap)| <= config.maxBundlesPerSession
    ensures Direction(senderCap, config.maxBundlesPerSession, sender, v'.end, v'.inbox, own, v'.held)
  {
    var plan, plan' := Plan(v.end, senderCap), Plan(v'.end, senderCap);
    ReceiverAgrees(config, senderCap, v, v', sender, peerGone, now);
    StepArrives(config, v, v', peerGone, now);
    StepTakes(config, v, v', |plan|, peerGone, now);
    ReceiverFlows(sender, v, v', plan, plan');
    ReceiverArrives(config, v, v', plan, plan', own);
  }

  lemma ExchangeStart(t: Setting, s: Session)
    requires Opening(s)
    requires s.heldLeft <= t.base.left && s.heldRight <= t.base.right
    ensures Exchange(t, Pair(s.heldLeft, s.heldRight), Pair(s.heldLeft, s.heldRight), s)
  {
    assert Elements<Wire>([]) == {};
  }

  /** Other tasks adding bundles of their own leave both directions of the exchange as they are. */
  lemma ExchangeInterfered(t: Setting, start: Pair, own: Pair, s: Session, s': Session, side: Side)
    requires OneWay(t, start, own, s, side) && CalmStep(t, s, Interfere, s')
    requires own.Of(Other(side)) <= s.Held(Other(side))
    ensures OneWay(t, start, OwnAfter(own, s, Interfere, s'), s', side)
  {
    var own', peer := OwnAfter(own, s, Interfere, s'), Other(side);
    assert s.Held(side) <= s'.Held(side) && s.Held(peer) <= s'.Held(peer);
    var got := Elements(Plan(s.EndOf(peer), t.cs.Of(side).maxBundlesPerSession)[..Got(s.EndOf(peer))]);
    assert s'.Held(peer) == own'.Of(peer) + got;
  }

  /** The plan towards `Other(side)` is owned by `side` and respects both session caps. */
  lemma PlanOwned(t: Setting, start: Pair, own: Pair, s: Session, side: Side)
    requires OneWay(t, start, own, s, side)
    ensures var plan := Plan(s.EndOf(Other(side)), t.cs.Of(side).maxBundlesPerSession);
            && Elements(plan) <= own.Of(side)
            && |plan| <= BatchCap(t.cs)
  {
    var peer := Other(side);
    if Consumed(s.EndOf(peer)) >= 1 {
      PlanFacts(s.EndOf(peer), s.EndOf(side), t.cs.Of(side).maxBundlesPerSession, t.cs.Of(peer).maxBundlesPerSession);
    }
  }

  lemma {:induction false} ElementsCount<T(!new)>(s: seq<T>)
    ensures |Elements(s)| <= |s|
    decreases |s|
  {
    if s != [] {
      ElementsCount(s[1..]);
      assert Elements(s) == Elements(s[1..]) + {s[0]};
    } else {
      assert Elements(s) == {};
    }
  }

  lemma RoomForOne(config: RelayConfig, own: set<Wire>, others: set<Wire>, batch: nat, more: set<Wire>,
                   held: set<Wire>, w: Wire)
    requires RoomFor(config, own, others, batch)
    requires more <= others && |more| <= batch
    requires held + {w} <= own + more && w !in held
    ensures HasRoom(config, held, w)
  {
    assert Fits(config, own + more);
    TotalLenMonotone(held + {w}, own + more);
    TotalLenAdd(held, w);
  }

  /** A planned bundle is never refused: the budget covers the plan and there is room for it. */
  lemma NeverRefused(config: RelayConfig, e: End, plan: seq<Wire>, own: set<Wire>, held: set<Wire>,
                     base: set<Wire>, others: set<Wire>, batch: nat)
    requires Arrived(config.maxBundlesPerSession, e, plan, own, held) && e.phase.Admitting?
    requires RoomFor(config, base, others, batch) && own <= base
    requires Elements(plan) <= others && |plan| <= batch <= config.maxBundlesPerSession
    ensures e.budget > 0
    ensures !Admit(config, held, e.phase.bytes, Some(e.budget)).Refused?
  {
    var w, more := e.phase.bytes, Elements(plan);
    ElementsCount(plan);
    assert w in plan;
    assert held + {w} <= base + more;
    if w !in held {
      RoomForOne(config, base, others, batch, more, held, w);
    }
  }

  lemma SnapshotTaken(
    config: RelayConfig, v: View, v': View, peerGone: bool, now: u64, start: set<Wire>, own: set<Wire>)
    requires EndStep(config, v, v', peerGone, now) && !v'.end.phase.Failed?
    requires Snapshot(v.end, start, own)
    requires v.end.phase.Listing? ==> start <= own == v.held
    ensures Snapshot(v'.end, start, own)
  {
    if v.end.phase.Listing? {
      var mine := v'.end.mine;
      forall w ensures w in Elements(Wires(mine)) <==> w in v.held {
        InWires(mine, w);
        assert Digest(w) in mine <==> Digest(w) in HashesOf(v.held);
        assert Digest(w) in HashesOf(v.held) <==> w in v.held by {
          assert forall x: Wire :: Digest(x).of == x;
        }
      }
    }
  }

  /** Messages waiting for an end that awaits one are the next messages of its peer's script. */
  lemma NextMessage(t: Setting, start: Pair, own: Pair, s: Session, me: Side)
    requires OneWay(t, start, own, s, Other(me))
    requires s.ViewOf(me).inbox != []
    ensures s.EndOf(me).phase.AwaitingWant? ==>
              s.ViewOf(me).inbox[0] == Want(s.EndOf(Other(me)).want) && Consumed(s.EndOf(Other(me))) >= 1
  {
  }

  lemma CollectedAreHeld(t: Setting, start: Pair, own: Pair, s: Session, me: Side)
    requires OneWay(t, start, own, s, me)
    requires s.EndOf(me).phase.Collecting?
    ensures forall h :: h in Truncate(s.EndOf(Other(me)).want, t.cs.Of(me).maxBundlesPerSession) ==> h.of in s.Held(me)
  {
    var hashes := Truncate(s.EndOf(Other(me)).want, t.cs.Of(me).maxBundlesPerSession);
    PlanOwned(t, start, own, s, me);
    forall h | h in hashes ensures h.of in s.Held(me) {
      assert h == Digest(h.of);
      InWires(hashes, h.of);
    }
  }

  /** What the mover's own direction needs: its outbox, its snapshot, its growing store. */
  lemma MovedSending(t: Setting, start: Pair, own: Pair, s: Session, me: Side, now: u64, s': Session)
    requires OneWay(t, start, own, s, me) && OneWay(t, start, own, s, Other(me))
    requires CalmStep(t, s, Move(me, now), s') && !s'.EndOf(me).phase.Failed?
    requires AwaitsMessage(s.EndOf(me)) ==> s.ViewOf(me).inbox != []
    requires own.Of(me) <= s'.Held(me)
    ensures OneWay(t, start, own, s', me)
  {
    var peer, v, v' := Other(me), s.ViewOf(me), s'.ViewOf(me);
    var gone := Over(s.EndOf(peer));
    if v.inbox != [] {
      NextMessage(t, start, own, s, me);
    }
    if v.end.phase.Collecting? {
      CollectedAreHeld(t, start, own, s, me);
    }
    if v.end.phase.Listing? {
      assert Plan(v.end, t.cs.Of(peer).maxBundlesPerSession)[..Got(v.end)] == [];
    }
    DirectionSender(t.cs.Of(me), t.cs.Of(peer).maxBundlesPerSession, v, v', s.EndOf(peer), own.Of(peer),
        s.Held(peer), gone, now);
    SnapshotTaken(t.cs.Of(me), v, v', gone, now, start.Of(me), own.Of(me));
  }

  lemma LastingScreened(t: Setting, side: Side, some: set<Wire>, now: u64)
    requires RoomySide(t, side) && some <= t.base.Of(side) && now <= t.horizon
    ensures Swept(some, now) == some
    ensures forall w :: w in some ==> Screen(w, now).Ok?
  {
    assert forall w :: w in some ==> w in t.base.Of(side);
  }

  /** What the peer's direction needs of the mover: it takes and admits the plan in order. */
  lemma MovedReceiving(t: Setting, start: Pair, own: Pair, s: Session, me: Side, peer: Side, now: u64, s': Session)
    requires me == Other(peer) && peer == Other(me)
    requires RoomySide(t, me) && RoomySide(t, peer)
    requires OneWay(t, start, own, s, peer) && own.Of(me) <= t.base.Of(me)
    requires CalmStep(t, s, Move(me, now), s') && !s'.EndOf(me).phase.Failed?
    requires AwaitsMessage(s.EndOf(me)) ==> s.ViewOf(me).inbox != []
    ensures OneWay(t, start, own, s', peer)
    ensures s.Held(me) <= s'.Held(me)
  {
    var v, v' := s.ViewOf(me), s'.ViewOf(me);
    var gone, cap := Over(s.EndOf(peer)), t.cs.Of(peer).maxBundlesPerSession;
    var plan := Plan(v.end, cap);
    PlanOwned(t, start, own, s, peer);
    if v.end.phase.Admitting? {
      NeverRefused(t.cs.Of(me), v.end, plan, own.Of(me), v.held, t.base.Of(me), t.base.Of(peer), BatchCap(t.cs));
    }
    if v.end.phase.Sweeping? {
      assert plan[..Got(v.end)] == [];
      LastingScreened(t, me, v.held, now);
    }
    LastingScreened(t, peer, Elements(plan), now);
    DirectionReceiver(t.cs.Of(me), cap, v, v', s.EndOf(peer), own.Of(me), gone, now);
    StepArrives(t.cs.Of(me), v, v', gone, now);
  }

  /** One end's step keeps both directions of the exchange. */
  lemma ExchangeMoved(t: Setting, start: Pair, own: Pair, s: Session, me: Side, peer: Side, now: u64, s': Session)
    requires me == Other(peer) && peer == Other(me)
    requires RoomySide(t, me) && RoomySide(t, peer)
    requires Orderly(s) && OneWay(t, start, own, s, me) && OneWay(t, start, own, s, peer)
    requires CalmStep(t, s, Move(me, now), s')
    ensures Orderly(s') && OneWay(t, start, own, s', me) && OneWay(t, start, own, s', peer)
  {
    OrderlyStep(t.cs, s, Move(me, now), s');
    assert InStep(s', me);
    PeerStillThere(s, me);
    MovedReceiving(t, start, own, s, me, peer, now, s');
    MovedSending(t, start, own, s, me, now, s');
  }
}
