/** Dead-drop delivery over the mesh (mesh/src/transport.rs): the send counter and the receive window. */
module Transport {
  import opened Wrappers
  import opened Bundle
  import opened DeadDrop
  import opened Relay

  datatype SendError = Unsealed | NoAddress | RelaySaid(error: MeshError)

  predicate Sealed(envelope: MessageEnvelope) {
    envelope.sealedSender && envelope.senderId == "" && envelope.recipientId == ""
  }

  /** The send counter after `k` accepted sends: it wraps at 2^64. */
  function IndexAfter(start: u64, k: nat): u64
    decreases k
  {
    if k == 0 then start
    else
      var before := IndexAfter(start, k - 1);
      if before + 1 == TWO_64 then 0 else before + 1
  }

  lemma NextIndex(start: u64)
    ensures IndexAfter(start, 1) == (start + 1) % 0x1_0000_0000_0000_0000
  {
  }

  /** The addresses of `k` consecutive message indices. */
  function Consecutive(tag: TagKey, start: u64, k: nat): (addresses: seq<Address>)
    ensures |addresses| == k
  {
    if k == 0 then [] else Consecutive(tag, start, k - 1) + [Derived(tag, IndexAfter(start, k - 1))]
  }

  lemma {:induction false} ConsecutiveFromZero(tag: TagKey, k: nat, i: nat)
    requires i < k <= TWO_64
    ensures Consecutive(tag, 0, k)[i] == Derived(tag, i) && IndexAfter(0, k - 1) == k - 1
    decreases k
  {
    if k > 1 {
      ConsecutiveFromZero(tag, k - 1, if i < k - 1 then i else 0);
    }
  }

  // ---------------------------------------------------------------- sending as values

  /** What `send` answers over a relay that holds `held`. */
  ghost function SendResult(
    config: RelayConfig, held: set<Wire>, envelope: MessageEnvelope, wrappedAt: u64, admittedAt: u64, len: nat)
    : Result<(), SendError>
  {
    if !Sealed(envelope) then Err(Unsealed)
    else if envelope.deadDropAddress.None? then Err(NoAddress)
    else
      var bytes := Wrap(envelope, envelope.deadDropAddress.value, wrappedAt, len);
      var screened, decision := Screen(bytes, admittedAt), Admit(config, held, bytes, None);
      if screened.Err? then Err(RelaySaid(screened.error))
      else if decision.Refused? then Err(RelaySaid(RelayRefused(decision.reason)))
      else Ok(())
  }

  lemma AdmittedIsSent(
    config: RelayConfig, held: set<Wire>, envelope: MessageEnvelope, wrappedAt: u64, admittedAt: u64, len: nat)
    requires Sealed(envelope) && envelope.deadDropAddress.Some?
    ensures var bytes := Wrap(envelope, envelope.deadDropAddress.value, wrappedAt, len);
            var sent := SendResult(config, held, envelope, wrappedAt, admittedAt, len);
            && (sent.Ok? <==> Screen(bytes, admittedAt).Ok? && !Admit(config, held, bytes, None).Refused?)
            && (sent.Ok? ==> AfterAdmit(held, bytes, Admit(config, held, bytes, None)) == held + {bytes})
  {
  }

  /** When `send` succeeds, in plain terms. */
  lemma SentIff(
    config: RelayConfig, held: set<Wire>, envelope: MessageEnvelope, wrappedAt: u64, admittedAt: u64, len: nat)
    ensures SendResult(config, held, envelope, wrappedAt, admittedAt, len).Ok? <==>
              && envelope.sealedSender && envelope.senderId == "" && envelope.recipientId == ""
              && envelope.deadDropAddress.Some?
              && var bytes := Wrap(envelope, envelope.deadDropAddress.value, wrappedAt, len);
                 && ExpiryMs(bytes).value > admittedAt
                 && (bytes in held ||
                     (|held| < config.maxTotalBundles && TotalLen(held) + len <= config.maxTotalBytes))
    ensures !envelope.sealedSender || envelope.senderId != "" || envelope.recipientId != "" ==>
              SendResult(config, held, envelope, wrappedAt, admittedAt, len) == Err(Unsealed)
  {
  }

  /** A message that names no deadline can be sent for seven days after it was wrapped. */
  lemma OrdinaryIsSent(
    config: RelayConfig, held: set<Wire>, envelope: MessageEnvelope, wrappedAt: u64, admittedAt: u64, len: nat)
    requires envelope.sealedSender && envelope.senderId == "" && envelope.recipientId == ""
    requires envelope.deadDropAddress.Some? && envelope.selfDestructAt.None?
    requires |held| < config.maxTotalBundles && TotalLen(held) + len <= config.maxTotalBytes
    requires wrappedAt + 604_800_000 < 0x1_0000_0000_0000_0000
    ensures SendResult(config, held, envelope, wrappedAt, admittedAt, len).Ok? <==>
              admittedAt < wrappedAt + 604_800_000
  {
    WrappedExpiry(envelope, envelope.deadDropAddress.value, wrappedAt, len);
    SentIff(config, held, envelope, wrappedAt, admittedAt, len);
  }

  /** An envelope to send, the clock readings at wrapping and at admission, and the length of its encoding. */
  datatype Attempt = Attempt(envelope: MessageEnvelope, wrappedAt: u64, admittedAt: u64, len: nat)

  /** The bundle an attempt puts under index `n`. */
  function BundleFor(tag: TagKey, n: u64, a: Attempt): Wire {
    var address := Derived(tag, n);
    Wrap(a.envelope.(deadDropAddress := Some(address)), address, a.wrappedAt, a.len)
  }

  /** Whether the relay takes the attempt under index `n`. */
  ghost predicate Accepted(config: RelayConfig, held: set<Wire>, tag: TagKey, n: u64, a: Attempt) {
    var addressed := a.envelope.(deadDropAddress := Some(Derived(tag, n)));
    SendResult(config, held, addressed, a.wrappedAt, a.admittedAt, a.len).Ok?
  }

  ghost function AfterAttempt(config: RelayConfig, held: set<Wire>, tag: TagKey, n: u64, a: Attempt): set<Wire> {
    if Accepted(config, held, tag, n, a) then held + {BundleFor(tag, n, a)} else held
  }

  /** What the relay holds and how many were accepted, after all the attempts from index `start` on. */
  ghost function Replay(config: RelayConfig, held: set<Wire>, tag: TagKey, start: u64, attempts: seq<Attempt>)
    : (set<Wire>, nat)
  {
    if attempts == [] then (held, 0)
    else
      var (before, accepted) := Replay(config, held, tag, start, attempts[..|attempts| - 1]);
      var a, n := attempts[|attempts| - 1], IndexAfter(start, accepted);
      (AfterAttempt(config, before, tag, n, a), accepted + if Accepted(config, before, tag, n, a) then 1 else 0)
  }

  /** Every index that was used has the bundle of a sealed attempt in the relay. */
  lemma {:induction false} ReplayFiles(
    config: RelayConfig, held: set<Wire>, tag: TagKey, start: u64, attempts: seq<Attempt>, k: nat)
    requires k < Replay(config, held, tag, start, attempts).1
    ensures var n, (after, _) := IndexAfter(start, k), Replay(config, held, tag, start, attempts);
            exists i :: 0 <= i < |attempts| && Sealed(attempts[i].envelope) && BundleFor(tag, n, attempts[i]) in after
    decreases |attempts|
  {
    var last := |attempts| - 1;
    var (before, accepted) := Replay(config, held, tag, start, attempts[..last]);
    if k < accepted {
      ReplayFiles(config, held, tag, start, attempts[..last], k);
      var i :| 0 <= i < last && Sealed(attempts[..last][i].envelope)
               && BundleFor(tag, IndexAfter(start, k), attempts[..last][i]) in before;
      assert attempts[i] == attempts[..last][i];
    } else {
      assert Sealed(attempts[last].envelope);
    }
  }

  // ---------------------------------------------------------------- the receive window as values

  /** The message index a taken bundle claims: it decodes, and its address is in the polled window. */
  function IndexOf(w: Wire, tag: TagKey, start: u64, window: u64): Option<u64> {
    match Unwrap(w)
    case Err(_) => None
    case Ok((address, _)) =>
      if address.Derived? && address.tag == tag && start <= address.n < WindowEnd(start, window)
      then Some(address.n) else None
  }

  /** In plain numbers: the window reaches `window` indices on, short of the last index there is. */
  lemma IndexOfIff(w: Wire, tag: TagKey, start: u64, window: u64, n: u64)
    ensures IndexOf(w, tag, start, window) == Some(n) <==>
              IsAt(w, tag, n) && start <= n < start + window && n < 0xFFFF_FFFF_FFFF_FFFF
  {
  }

  /** A bundle with an envelope, under the tag's address number `n`. */
  predicate IsAt(w: Wire, tag: TagKey, n: u64) {
    w.Cbor? && w.bundle.destination == DeadDrop(Derived(tag, n)) && w.bundle.payload.EnvelopeJson?
  }

  /** The envelopes `receive` returns for what it took, in the order it took them. */
  function Opened(taken: seq<Wire>, tag: TagKey, start: u64, window: u64): seq<MessageEnvelope> {
    if taken == [] then []
    else
      var last := |taken| - 1;
      Opened(taken[..last], tag, start, window) +
      if IndexOf(taken[last], tag, start, window).Some? then [Unwrap(taken[last]).value.1] else []
  }

  ghost predicate Claims(held: set<Wire>, tag: TagKey, start: u64, window: u64, n: u64) {
    exists w :: w in held && IndexOf(w, tag, start, window) == Some(n)
  }

  /** There is a decodable bundle for every index from `start` up to `upTo`. */
  ghost predicate AllThere(held: set<Wire>, tag: TagKey, start: u64, window: u64, upTo: u64) {
    forall n: u64 :: start <= n < upTo ==> Claims(held, tag, start, window, n)
  }

  lemma {:induction false} OpenedHasAll(taken: seq<Wire>, tag: TagKey, start: u64, window: u64, w: Wire)
    requires w in taken && IndexOf(w, tag, start, window).Some?
    ensures Unwrap(w).value.1 in Opened(taken, tag, start, window)
    decreases |taken|
  {
    var last := |taken| - 1;
    if w != taken[last] {
      assert w in taken[..last];
      OpenedHasAll(taken[..last], tag, start, window, w);
    }
  }

  /** Nothing is returned but what claims an index of the polled window. */
  lemma {:induction false} OpenedFromWindow(taken: seq<Wire>, tag: TagKey, start: u64, window: u64, e: MessageEnvelope)
    requires e in Opened(taken, tag, start, window)
    ensures exists w :: w in taken && IndexOf(w, tag, start, window).Some? && Unwrap(w).value.1 == e
    decreases |taken|
  {
    var last := |taken| - 1;
    if e in Opened(taken[..last], tag, start, window) {
      OpenedFromWindow(taken[..last], tag, start, window, e);
    }
  }

  /** What a poll takes: every decodable bundle of the window, and otherwise only decoy hits. */
  ghost predicate Polled(held: set<Wire>, took: seq<Wire>, draws: seq<Address>, tag: TagKey, start: u64, window: u64) {
    && Elements(took) <= held
    && (forall w :: w in held && IndexOf(w, tag, start, window).Some? ==> w in took)
    && (forall w :: w in took ==>
          AddressOf(w).Ok? && (AddressOf(w).value in draws || AddressOf(w).value in AddressWindow(tag, start, window)))
  }

  lemma PollTakes(held: set<Wire>, pollSet: seq<Address>, took: seq<Wire>, draws: seq<Address>,
                  tag: TagKey, start: u64, window: u64)
    requires multiset(pollSet) == multiset(AddressWindow(tag, start, window)) + multiset(draws)
    requires Lists(took, Matching(held, pollSet))
    ensures Polled(held, took, draws, tag, start, window)
    ensures Elements(took) == Matching(held, pollSet)
  {
    var windowAddresses := AddressWindow(tag, start, window);
    PollCovers(pollSet, windowAddresses, draws);
    forall w | w in held && IndexOf(w, tag, start, window).Some? ensures w in took {
      assert AddressOf(w) == Ok(Unwrap(w).value.0) && Unwrap(w).value.0 in windowAddresses;
    }
  }

  lemma PollCovers(pollSet: seq<Address>, windowAddresses: seq<Address>, draws: seq<Address>)
    requires multiset(pollSet) == multiset(windowAddresses) + multiset(draws)
    ensures forall a :: a in pollSet <==> a in windowAddresses || a in draws
  {
    forall a ensures a in pollSet <==> a in windowAddresses || a in draws {
      assert a in pollSet <==> a in multiset(pollSet);
      assert a in windowAddresses <==> a in multiset(windowAddresses);
      assert a in draws <==> a in multiset(draws);
    }
  }

  /** Of all the bundles held, exactly the claimed indices were found. */
  lemma ClaimsFound(held: set<Wire>, took: seq<Wire>, newlyClaimed: seq<u64>, draws: seq<Address>,
                    tag: TagKey, start: u64, window: u64)
    requires Polled(held, took, draws, tag, start, window)
    requires forall w :: w in took && IndexOf(w, tag, start, window).Some? ==>
               IndexOf(w, tag, start, window).value in newlyClaimed
    requires forall n :: n in newlyClaimed ==> exists w :: w in took && IndexOf(w, tag, start, window) == Some(n)
    ensures forall n: u64 :: n in Elements(newlyClaimed) <==> Claims(held, tag, start, window, n)
    ensures forall n: u64 :: n in Elements(newlyClaimed) ==> start <= n < WindowEnd(start, window)
  {
    forall n: u64 ensures n in newlyClaimed <==> Claims(held, tag, start, window, n) {
      if Claims(held, tag, start, window, n) {
        var w :| w in held && IndexOf(w, tag, start, window) == Some(n);
        assert w in took;
      }
      if n in newlyClaimed {
        var w :| w in took && IndexOf(w, tag, start, window) == Some(n);
        assert w in Elements(took);
      }
    }
  }

  // ---------------------------------------------------------------- a poll in plain numbers

  ghost predicate SomeAt(held: set<Wire>, tag: TagKey, n: u64) {
    exists w :: w in held && IsAt(w, tag, n)
  }

  /**
   * What a poll of `window` indices from `start` on must do, of bundles held before it, envelopes it returns, indices
   * claimed by then and the watermark it leaves: every bundle in the window is returned and claimed, nothing else is,
   * and when the next indices all have one the watermark moves past them.
   */
  ghost predicate PolledInNumbers(
    held: set<Wire>, tag: TagKey, start: nat, window: nat,
    envelopes: seq<MessageEnvelope>, claimedBefore: set<u64>, claimed: set<u64>, watermark: u64)
  {
    && (forall w, n: u64 :: w in held && IsAt(w, tag, n) && start <= n < start + window && n < 0xFFFF_FFFF_FFFF_FFFF
          ==> w.bundle.payload.envelope in envelopes && n in claimed)
    && (forall e :: e in envelopes ==> exists w, n: u64 ::
          w in held && IsAt(w, tag, n) && w.bundle.payload.envelope == e &&
          start <= n < start + window && n < 0xFFFF_FFFF_FFFF_FFFF)
    && (forall n: u64 :: n in claimed ==>
          n in claimedBefore || (start <= n < start + window && SomeAt(held, tag, n)))
    && (forall upTo: u64 :: AllAt(held, tag, start, upTo) && upTo <= start + window ==> upTo <= watermark)
  }

  ghost predicate AllAt(held: set<Wire>, tag: TagKey, from: nat, upTo: u64) {
    forall n: u64 :: from <= n < upTo ==> SomeAt(held, tag, n)
  }

  lemma ReturnedInNumbers(held: set<Wire>, took: seq<Wire>, envelopes: seq<MessageEnvelope>, claimed: set<u64>,
                          draws: seq<Address>, tag: TagKey, start: u64, window: u64)
    requires Polled(held, took, draws, tag, start, window) && envelopes == Opened(took, tag, start, window)
    requires forall n: u64 :: Claims(held, tag, start, window, n) ==> n in claimed
    ensures forall w, n: u64 :: w in held && IsAt(w, tag, n) && start <= n < start + window && n < 0xFFFF_FFFF_FFFF_FFFF
              ==> w.bundle.payload.envelope in envelopes && n in claimed
    ensures forall e :: e in envelopes ==> exists w, n: u64 ::
              w in held && IsAt(w, tag, n) && w.bundle.payload.envelope == e &&
              start <= n < start + window && n < 0xFFFF_FFFF_FFFF_FFFF
  {
    forall w, n: u64 | w in held && IsAt(w, tag, n) && start <= n < start + window && n < 0xFFFF_FFFF_FFFF_FFFF
      ensures w.bundle.payload.envelope in envelopes && n in claimed
    {
      IndexOfIff(w, tag, start, window, n);
      OpenedHasAll(took, tag, start, window, w);
      assert Claims(held, tag, start, window, n);
    }
    forall e | e in envelopes
      ensures exists w, n: u64 ::
                w in held && IsAt(w, tag, n) && w.bundle.payload.envelope == e &&
                start <= n < start + window && n < 0xFFFF_FFFF_FFFF_FFFF
    {
      OpenedFromWindow(took, tag, start, window, e);
      var w :| w in took && IndexOf(w, tag, start, window).Some? && Unwrap(w).value.1 == e;
      assert w in Elements(took);
      IndexOfIff(w, tag, start, window, IndexOf(w, tag, start, window).value);
    }
  }

  lemma ClaimsInNumbers(held: set<Wire>, tag: TagKey, start: u64, window: u64)
    ensures forall n: u64 :: Claims(held, tag, start, window, n) <==>
              start <= n < start + window && n < 0xFFFF_FFFF_FFFF_FFFF && SomeAt(held, tag, n)
  {
    forall n: u64 ensures Claims(held, tag, start, window, n) <==>
                    start <= n < start + window && n < 0xFFFF_FFFF_FFFF_FFFF && SomeAt(held, tag, n)
    {
      if Claims(held, tag, start, window, n) {
        var w :| w in held && IndexOf(w, tag, start, window) == Some(n);
        IndexOfIff(w, tag, start, window, n);
      }
      if start <= n < start + window && n < 0xFFFF_FFFF_FFFF_FFFF && SomeAt(held, tag, n) {
        var w :| w in held && IsAt(w, tag, n);
        IndexOfIff(w, tag, start, window, n);
      }
    }
  }

  lemma PolledPlainly(
    held: set<Wire>, took: seq<Wire>, draws: seq<Address>, tag: TagKey, start: u64, window: u64,
    envelopes: seq<MessageEnvelope>, claimedBefore: set<u64>, claimed: set<u64>, watermark: u64)
    requires Polled(held, took, draws, tag, start, window) && envelopes == Opened(took, tag, start, window)
    requires forall n: u64 :: n in claimed <==> n in claimedBefore || Claims(held, tag, start, window, n)
    requires forall upTo: u64 :: AllThere(held, tag, start, window, upTo) ==> upTo <= watermark
    ensures PolledInNumbers(held, tag, start, window, envelopes, claimedBefore, claimed, watermark)
  {
    ReturnedInNumbers(held, took, envelopes, claimed, draws, tag, start, window);
    ClaimsInNumbers(held, tag, start, window);
    forall upTo: u64 | AllAt(held, tag, start, upTo) && upTo <= start + window ensures upTo <= watermark {
      assert AllThere(held, tag, start, window, upTo);
    }
  }

  class MeshTransport {
    const relay: MeshRelayAgent
    const tagKey: TagKey
    const window: u64
    const decoysPerReal: nat
    var sendCounter: u64
    var lowWatermark: u64
    var claimedAhead: set<u64>
    /** Every index ever claimed. The program keeps only what the next two fields determine. */
    ghost var claimed: set<u64>

    /**
     * The watermark is the least unclaimed index: everything below it has been claimed, it has not,
     * and what was claimed out of order lies strictly inside the window above it.
     */
    ghost predicate Valid()
      reads this, relay
    {
      && relay.Valid()
      && (forall n: u64 :: n in claimed <==> n < lowWatermark || n in claimedAhead)
      && (forall n: u64 :: n in claimedAhead ==> lowWatermark < n < WindowEnd(lowWatermark, window))
    }

    constructor (relay: MeshRelayAgent, tagKey: TagKey, window: u64, decoysPerReal: nat)
      requires relay.Valid()
      ensures Valid() && claimed == {} && sendCounter == 0
      ensures this.relay == relay && this.tagKey == tagKey && this.window == window
    {
      this.relay, this.tagKey, this.window, this.decoysPerReal := relay, tagKey, window, decoysPerReal;
      sendCounter, lowWatermark, claimedAhead, claimed := 0, 0, {}, {};
    }

    method NextSendAddress() returns (address: Address)
      ensures address == Derived(tagKey, sendCounter)
    {
      address := Derived(tagKey, sendCounter);
    }

    /**
     * Fail-closed: only a sealed, addressed envelope is wrapped. It is sent exactly when the relay takes it, and only
     * that moves the counter.
     */
    method Send(envelope: MessageEnvelope, wrappedAt: u64, admittedAt: u64, len: nat)
      returns (result: Result<(), SendError>)
      requires Valid()
      modifies this`sendCounter, relay
      ensures Valid()
      ensures result == SendResult(relay.config, old(relay.Contents()), envelope, wrappedAt, admittedAt, len)
      ensures result.Err? ==> relay.Contents() == old(relay.Contents())
      ensures result.Ok? ==> envelope.deadDropAddress.Some?
      ensures result.Ok? ==>
                relay.Contents()
                == old(relay.Contents()) + {Wrap(envelope, envelope.deadDropAddress.value, wrappedAt, len)}
      ensures sendCounter == if result.Ok? then IndexAfter(old(sendCounter), 1) else old(sendCounter)
    {
      if !envelope.sealedSender || envelope.senderId != "" || envelope.recipientId != "" {
        return Err(Unsealed);
      }
      if envelope.deadDropAddress.None? {
        return Err(NoAddress);
      }
      var bytes := Wrap(envelope, envelope.deadDropAddress.value, wrappedAt, len);
      ghost var held := relay.Contents();
      var admitted := relay.AdmitOwn(bytes, admittedAt);
      AdmittedIsSent(relay.config, held, envelope, wrappedAt, admittedAt, len);
      if admitted.Err? {
        return Err(RelaySaid(admitted.error));
      }
      sendCounter := if sendCounter + 1 == TWO_64 then 0 else sendCounter + 1;
      return Ok(());
    }

    /** One composition: the next address, put into the envelope, and the send. */
    method SendNext(a: Attempt) returns (address: Address, ok: bool)
      requires Valid()
      modifies this`sendCounter, relay
      ensures Valid() && address == Derived(tagKey, old(sendCounter))
      ensures ok == Accepted(relay.config, old(relay.Contents()), tagKey, old(sendCounter), a)
      ensures relay.Contents() == AfterAttempt(relay.config, old(relay.Contents()), tagKey, old(sendCounter), a)
      ensures sendCounter == if ok then IndexAfter(old(sendCounter), 1) else old(sendCounter)
    {
      address := NextSendAddress();
      var sent := Send(a.envelope.(deadDropAddress := Some(address)), a.wrappedAt, a.admittedAt, a.len);
      ok := sent.Ok?;
    }

    /**
     * Composing each envelope with `next_send_address` and sending it: however many attempts are
     * refused in between, the accepted ones use consecutive indices with no gap and no repeat, and
     * each is in the relay under its index.
     */
    method SendAll(attempts: seq<Attempt>) returns (used: seq<Address>)
      requires Valid()
      modifies this`sendCounter, relay
      ensures Valid()
      ensures var (held, accepted) := Replay(relay.config, old(relay.Contents()), tagKey, old(sendCounter), attempts);
              relay.Contents() == held && |used| == accepted
      ensures sendCounter == IndexAfter(old(sendCounter), |used|)
      ensures used == Consecutive(tagKey, old(sendCounter), |used|)
    {
      used := [];
      for n := 0 to |attempts|
        invariant Valid()
        invariant (relay.Contents(), |used|)
                  == Replay(relay.config, old(relay.Contents()), tagKey, old(sendCounter), attempts[..n])
        invariant sendCounter == IndexAfter(old(sendCounter), |used|)
        invariant used == Consecutive(tagKey, old(sendCounter), |used|)
      {
        assert attempts[..n + 1][..n] == attempts[..n];
        var address, ok := SendNext(attempts[n]);
        if ok {
          used := used + [address];
        }
      }
      assert attempts[..|attempts|] == attempts;
    }

    /**
     * One poll. Whatever the decoys, it claims exactly the window indices for which the relay held a
     * well-formed bundle, returns those bundles' envelopes, and leaves the watermark at the least
     * index never claimed, so that no index below it can be returned again.
     */
    method Receive(draws: seq<Address>) returns (envelopes: seq<MessageEnvelope>, ghost taken: seq<Wire>)
      requires Valid() && |draws| == window * decoysPerReal
      modifies this`lowWatermark, this`claimedAhead, this`claimed, relay
      ensures Valid()
      ensures Polled(old(relay.Contents()), taken, draws, tagKey, old(lowWatermark), window)
      ensures relay.Contents() == old(relay.Contents()) - Elements(taken)
      ensures envelopes == Opened(taken, tagKey, old(lowWatermark), window)
      ensures forall w :: w in taken && IndexOf(w, tagKey, old(lowWatermark), window).Some? ==>
              Unwrap(w).value.1 in envelopes
      ensures forall e :: e in envelopes ==> exists w ::
                w in taken && IndexOf(w, tagKey, old(lowWatermark), window).Some? && Unwrap(w).value.1 == e
      ensures forall n: u64 :: n in claimed <==>
                n in old(claimed) || Claims(old(relay.Contents()), tagKey, old(lowWatermark), window, n)
      ensures PolledInNumbers(old(relay.Contents()), tagKey, old(lowWatermark), window, envelopes, old(claimed),
                              claimed, lowWatermark)
      ensures forall n: u64 :: n in claimed <==> n < lowWatermark || n in claimedAhead
      ensures old(lowWatermark) <= lowWatermark
      ensures forall upTo: u64 :: AllThere(old(relay.Contents()), tagKey, old(lowWatermark), window, upTo) ==>
                upTo <= lowWatermark
    {
      var start := lowWatermark;
      ghost var held := relay.Contents();
      var pollSet := BuildPollSet(tagKey, start, window, decoysPerReal, draws);
      var took := relay.TakeForAddresses(pollSet);
      PollTakes(held, pollSet, took, draws, tagKey, start, window);
      taken := took;
      var newlyClaimed;
      envelopes, newlyClaimed := OpenTaken(took, tagKey, start, window);
      ClaimsFound(held, took, newlyClaimed, draws, tagKey, start, window);
      forall e | e in envelopes
        ensures exists w :: w in taken && IndexOf(w, tagKey, start, window).Some? && Unwrap(w).value.1 == e
      {
        OpenedFromWindow(taken, tagKey, start, window, e);
      }
      ClaimAll(newlyClaimed);
      forall upTo: u64 | AllThere(held, tagKey, start, window, upTo) ensures upTo <= lowWatermark {
        WatermarkReaches(held, tagKey, start, window, lowWatermark, claimed, upTo);
      }
      PolledPlainly(held, taken, draws, tagKey, start, window, envelopes, old(claimed), claimed, lowWatermark);
    }

    /** The second locked block: remember the claims, then advance past the contiguous run. */
    method ClaimAll(newlyClaimed: seq<u64>)
      requires Valid()
      requires forall n: u64 :: n in Elements(newlyClaimed) ==> lowWatermark <= n < WindowEnd(lowWatermark, window)
      modifies this`lowWatermark, this`claimedAhead, this`claimed
      ensures Valid()
      ensures claimed == old(claimed) + Elements(newlyClaimed)
      ensures old(lowWatermark) <= lowWatermark
    {
      claimedAhead := claimedAhead + Elements(newlyClaimed);
      claimed := claimed + Elements(newlyClaimed);
      AdvanceWatermark();
    }

    /** Advance past the contiguous run of claimed indices, and no further. */
    method AdvanceWatermark()
      requires forall n: u64 :: n in claimed <==> n < lowWatermark || n in claimedAhead
      requires forall n: u64 :: n in claimedAhead ==> lowWatermark <= n < WindowEnd(lowWatermark, window)
      modifies this`lowWatermark, this`claimedAhead
      ensures forall n: u64 :: n in claimed <==> n < lowWatermark || n in claimedAhead
      ensures forall n: u64 :: n in claimedAhead ==> lowWatermark < n < WindowEnd(lowWatermark, window)
      ensures old(lowWatermark) <= lowWatermark
    {
      ghost var end := WindowEnd(lowWatermark, window);
      while lowWatermark in claimedAhead
        invariant old(lowWatermark) <= lowWatermark
        invariant end <= WindowEnd(lowWatermark, window)
        invariant forall n: u64 :: n in claimed <==> n < lowWatermark || n in claimedAhead
        invariant forall n: u64 :: n in claimedAhead ==> lowWatermark <= n < end
        decreases claimedAhead
      {
        claimedAhead := claimedAhead - {lowWatermark};
        lowWatermark := lowWatermark + 1;
      }
    }
  }

  /** The loop over what was taken: undecodable bundles and decoy hits are dropped. */
  method OpenTaken(took: seq<Wire>, tag: TagKey, start: u64, window: u64)
    returns (envelopes: seq<MessageEnvelope>, newlyClaimed: seq<u64>)
    ensures envelopes == Opened(took, tag, start, window)
    ensures forall w :: w in took && IndexOf(w, tag, start, window).Some? ==>
              IndexOf(w, tag, start, window).value in newlyClaimed && Unwrap(w).value.1 in envelopes
    ensures forall n :: n in newlyClaimed ==> exists w :: w in took && IndexOf(w, tag, start, window) == Some(n)
  {
    var windowAddresses := AddressWindow(tag, start, window);
    envelopes, newlyClaimed := [], [];
    for i := 0 to |took|
      invariant envelopes == Opened(took[..i], tag, start, window)
      invariant forall j :: 0 <= j < i && IndexOf(took[j], tag, start, window).Some? ==>
                  IndexOf(took[j], tag, start, window).value in newlyClaimed
      invariant forall n :: n in newlyClaimed ==> exists w :: w in took && IndexOf(w, tag, start, window) == Some(n)
    {
      assert took[..i + 1][..i] == took[..i];
      var unwrapped := Unwrap(took[i]);
      if unwrapped.Ok? {
        var offset := Position(windowAddresses, unwrapped.value.0);
        if offset < |windowAddresses| {
          assert IndexOf(took[i], tag, start, window) == Some(start + offset);
          newlyClaimed := newlyClaimed + [start + offset];
          envelopes := envelopes + [unwrapped.value.1];
        }
      }
    }
    assert took[..|took|] == took;
    forall w | w in took && IndexOf(w, tag, start, window).Some? ensures Unwrap(w).value.1 in envelopes {
      OpenedHasAll(took, tag, start, window, w);
    }
  }

  /** `iter().position(...)`: the first place `address` stands at, or the length. */
  method Position(addresses: seq<Address>, address: Address) returns (offset: nat)
    ensures offset <= |addresses|
    ensures offset < |addresses| ==> addresses[offset] == address
    ensures offset == |addresses| ==> address !in addresses
  {
    offset := 0;
    while offset < |addresses| && addresses[offset] != address
      invariant offset <= |addresses|
      invariant address !in addresses[..offset]
    {
      offset := offset + 1;
    }
  }

  /** An unclaimed watermark cannot stand below an index up to which everything was there to claim. */
  lemma WatermarkReaches(
    held: set<Wire>, tag: TagKey, start: u64, window: u64, after: u64, claimed: set<u64>, upTo: u64)
    requires start <= after && after !in claimed
    requires forall n: u64 :: Claims(held, tag, start, window, n) ==> n in claimed
    requires AllThere(held, tag, start, window, upTo)
    ensures upTo <= after
  {
    assert start <= after < upTo ==> Claims(held, tag, start, window, after);
  }
}
