/**
 * A message from end to end: `MeshTransport::send` at one agent, any number of relays in between, `receive` at
 * another (mesh/src/transport.rs:182-293 over the run of the mesh in `Network`).
 */
module Delivery {
  import opened Wrappers
  import opened Bundle
  import opened DeadDrop
  import opened Relay
  import opened SyncExchange
  import opened Network
  import opened NetworkSpread
  import opened Transport

  /** What the receiver gets of an attempt sent under index `n`: the envelope, with its address. */
  function Delivered(tag: TagKey, n: u64, a: Attempt): MessageEnvelope {
    a.envelope.(deadDropAddress := Some(Derived(tag, n)))
  }

  lemma NotRefused(config: RelayConfig, held: set<Wire>, w: Wire, all: set<Wire>)
    requires held <= all && w in all && Fits(config, all)
    ensures !Admit(config, held, w, None).Refused? && w in AfterAdmit(held, w, Admit(config, held, w, None))
  {
    if w !in held {
      var more := held + {w};
      assert all == more + (all - more);
      TotalLenAdd(held, w);
      TotalLenMonotone(more, all);
    }
  }

  /** A bundle that the caps and the expiry of the run allow for is stored where it is composed. */
  lemma ComposedIsStored(configs: seq<RelayConfig>, nets: seq<Net>, events: seq<Event>, s: nat, n: nat)
    requires NetRun(configs, nets, events) && s < n <= |events| && Ample(configs, nets, events, n)
    requires events[s].StoreOwn?
    ensures events[s].node < |configs| == |nets[s].held| == |nets[s + 1].held|
    ensures events[s].bytes in nets[s + 1].held[events[s].node]
    ensures !Admit(configs[events[s].node], nets[s].held[events[s].node], events[s].bytes, None).Refused?
  {
    AlwaysWellFormed(configs, nets, events, s);
    assert NetNextAt(configs, nets, events, s);
    var i := events[s].node;
    LastingThen(configs, nets, events, s, n, i);
    assert events[s].bytes in Composed(events, n);
    NotRefused(configs[i], nets[s].held[i], events[s].bytes, Composed(events, n));
  }

  /** The composing half of the run is what `send` does to the relay under that agent's transport. */
  lemma ComposedAsSent(
    configs: seq<RelayConfig>, nets: seq<Net>, events: seq<Event>, s: nat, i: nat, tag: TagKey, n: u64, a: Attempt)
    requires NetRun(configs, nets, events) && s < |events| && events[s] == StoreOwn(i, BundleFor(tag, n, a))
    requires Sealed(a.envelope) && Screen(BundleFor(tag, n, a), a.admittedAt).Ok?
    ensures i < |configs| == |nets[s].held| == |nets[s + 1].held|
    ensures nets[s + 1].held[i] == AfterAttempt(configs[i], nets[s].held[i], tag, n, a)
  {
    AlwaysWellFormed(configs, nets, events, s);
    assert NetNextAt(configs, nets, events, s);
    AdmittedIsSent(configs[i], nets[s].held[i], Delivered(tag, n, a), a.wrappedAt, a.admittedAt, a.len);
  }

  /** Whatever was composed before the first round is held within d hops, d rounds later. */
  lemma ReachesPoll(
    configs: seq<RelayConfig>, nets: seq<Net>, events: seq<Event>, bounds: seq<nat>, j: nat, d: nat, s: nat, t: nat)
    requires NetRun(configs, nets, events) && d < |bounds| && Rounds(nets, events, bounds)
    requires s < bounds[0] && t <= |events| && forall r :: 0 <= r < |bounds| ==> bounds[r] <= t
    requires NoTakes(events, s, t) && Ample(configs, nets, events, t) && events[s].StoreOwn?
    requires j < |configs| && Within(nets, bounds, events[s].node, j, d)
    ensures |nets[t].held| == |configs| && events[s].bytes in nets[t].held[j]
  {
    var i := events[s].node;
    ComposedIsStored(configs, nets, events, s, t);
    StoresKeep(configs, nets, events, s + 1, bounds[0], t, i);
    SpreadsInRounds(configs, nets, events, bounds, i, j, d, t);
    StoresKeep(configs, nets, events, bounds[d], t, t, j);
  }

  /**
   * A bundle composed at `i` under index `n` before the first round is held `d` rounds later by every agent within
   * d hops, and a poll there whose window covers `n` claims the index and returns the envelope.
   */
  lemma DeliveredInRounds(
    configs: seq<RelayConfig>, nets: seq<Net>, events: seq<Event>, bounds: seq<nat>, i: nat, j: nat, d: nat,
    s: nat, t: nat, tag: TagKey, n: u64, a: Attempt, start: u64, window: u64, draws: seq<Address>, took: seq<Wire>)
    requires NetRun(configs, nets, events) && d < |bounds| && Rounds(nets, events, bounds)
    requires s < bounds[0] && t <= |events| && forall r :: 0 <= r < |bounds| ==> bounds[r] <= t
    requires NoTakes(events, s, t) && Ample(configs, nets, events, t)
    requires events[s] == StoreOwn(i, BundleFor(tag, n, a)) && j < |configs| && Within(nets, bounds, i, j, d)
    requires start <= n < start + window && n < 0xFFFF_FFFF_FFFF_FFFF
    ensures |nets[t].held| == |configs| && BundleFor(tag, n, a) in nets[t].held[j]
    ensures Polled(nets[t].held[j], took, draws, tag, start, window) ==>
              Delivered(tag, n, a) in Opened(took, tag, start, window)
  {
    var w := BundleFor(tag, n, a);
    ReachesPoll(configs, nets, events, bounds, j, d, s, t);
    IndexOfIff(w, tag, start, window, n);
    if Polled(nets[t].held[j], took, draws, tag, start, window) {
      OpenedHasAll(took, tag, start, window, w);
    }
  }

  /** The bundle carries the envelope under one of the `window` addresses from index `start` on. */
  predicate Yields(w: Wire, tag: TagKey, start: nat, window: nat, e: MessageEnvelope) {
    && w.Cbor? && w.bundle.payload == EnvelopeJson(e)
    && w.bundle.destination.DeadDrop? && w.bundle.destination.address.Derived?
    && w.bundle.destination.address.tag == tag
    && start <= w.bundle.destination.address.n < start + window
    && w.bundle.destination.address.n < 0xFFFF_FFFF_FFFF_FFFF
  }

  lemma YieldsIff(w: Wire, tag: TagKey, start: u64, window: u64, e: MessageEnvelope)
    ensures Yields(w, tag, start, window, e) <==>
              IndexOf(w, tag, start, window).Some? && Unwrap(w).value.1 == e
  {
  }

  /** In any run at all: whatever a poll returns was composed by some agent, under an index of the window. */
  lemma OpenedWasComposed(
    configs: seq<RelayConfig>, nets: seq<Net>, events: seq<Event>, t: nat, j: nat,
    tag: TagKey, start: u64, window: u64, took: seq<Wire>, e: MessageEnvelope)
    requires NetRun(configs, nets, events) && t <= |events| && j < |nets[t].held|
    requires Elements(took) <= nets[t].held[j] && e in Opened(took, tag, start, window)
    ensures exists s :: 0 <= s < t && events[s].StoreOwn? && Yields(events[s].bytes, tag, start, window, e)
  {
    OpenedFromWindow(took, tag, start, window, e);
    var w :| w in took && IndexOf(w, tag, start, window).Some? && Unwrap(w).value.1 == e;
    HeldIsComposed(configs, nets, events, t, j);
    YieldsIff(w, tag, start, window, e);
    assert w in Elements(took) && w in Composed(events, t);
  }

  /**
   * Once everything was composed before the first round and the receiver is within d hops of every agent, a poll
   * after d rounds returns exactly the envelopes composed under the indices of its window, by whomever.
   */
  lemma DeliveredExactly(
    configs: seq<RelayConfig>, nets: seq<Net>, events: seq<Event>, bounds: seq<nat>, j: nat, d: nat, t: nat,
    tag: TagKey, start: u64, window: u64, draws: seq<Address>, took: seq<Wire>, e: MessageEnvelope)
    requires NetRun(configs, nets, events) && d < |bounds| && Rounds(nets, events, bounds)
    requires t <= |events| && forall r :: 0 <= r < |bounds| ==> bounds[r] <= t
    requires NoTakes(events, 0, t) && Ample(configs, nets, events, t)
    requires forall s :: 0 <= s < t && events[s].StoreOwn? ==> s < bounds[0]
    requires j < |configs| && forall i: nat :: i < |configs| ==> Within(nets, bounds, i, j, d)
    requires |nets[t].held| == |configs| && Polled(nets[t].held[j], took, draws, tag, start, window)
    ensures e in Opened(took, tag, start, window) <==>
              exists s :: 0 <= s < t && events[s].StoreOwn? && Yields(events[s].bytes, tag, start, window, e)
  {
    if e in Opened(took, tag, start, window) {
      OpenedWasComposed(configs, nets, events, t, j, tag, start, window, took, e);
    }
    forall s: nat | s < t && events[s].StoreOwn? && Yields(events[s].bytes, tag, start, window, e)
      ensures e in Opened(took, tag, start, window)
    {
      ComposedIsStored(configs, nets, events, s, t);
      ReachesPoll(configs, nets, events, bounds, j, d, s, t);
      YieldsIff(events[s].bytes, tag, start, window, e);
      OpenedHasAll(took, tag, start, window, events[s].bytes);
    }
  }

  lemma ReturnsAndClaims(
    held: set<Wire>, tag: TagKey, start: nat, window: nat, envelopes: seq<MessageEnvelope>, before: set<u64>,
    claimed: set<u64>, watermark: u64, w: Wire, n: u64)
    requires PolledInNumbers(held, tag, start, window, envelopes, before, claimed, watermark)
    requires w in held && IsAt(w, tag, n) && start <= n < start + window && n < 0xFFFF_FFFF_FFFF_FFFF
    ensures w.bundle.payload.envelope in envelopes && n in claimed
  {
  }

  /** The transport of the receiving agent, polling with its own window and decoys, gets the message. */
  method ReceiveAfterRounds(
    transport: MeshTransport, draws: seq<Address>, ghost configs: seq<RelayConfig>, ghost nets: seq<Net>,
    ghost events: seq<Event>, ghost bounds: seq<nat>, ghost i: nat, ghost j: nat, ghost d: nat, ghost s: nat,
    ghost n: u64, ghost a: Attempt)
    returns (envelopes: seq<MessageEnvelope>)
    requires transport.Valid() && |draws| == transport.window * transport.decoysPerReal
    requires NetRun(configs, nets, events) && d < |bounds| && Rounds(nets, events, bounds)
    requires s < bounds[0] && forall r :: 0 <= r < |bounds| ==> bounds[r] <= |events|
    requires NoTakes(events, s, |events|) && Ample(configs, nets, events, |events|)
    requires events[s] == StoreOwn(i, BundleFor(transport.tagKey, n, a)) && Within(nets, bounds, i, j, d)
    requires j < |configs| && |nets[|events|].held| == |configs| && transport.relay.Contents() == nets[|events|].held[j]
    requires transport.lowWatermark <= n < transport.lowWatermark + transport.window && n < 0xFFFF_FFFF_FFFF_FFFF
    modifies transport`lowWatermark, transport`claimedAhead, transport`claimed, transport.relay
    ensures transport.Valid() && Delivered(transport.tagKey, n, a) in envelopes && n in transport.claimed
  {
    ghost var w, held := BundleFor(transport.tagKey, n, a), transport.relay.Contents();
    ghost var start, before := transport.lowWatermark, transport.claimed;
    ReachesPoll(configs, nets, events, bounds, j, d, s, |events|);
    ghost var taken;
    envelopes, taken := transport.Receive(draws);
    ReturnsAndClaims(held, transport.tagKey, start, transport.window, envelopes, before, transport.claimed,
                     transport.lowWatermark, w, n);
  }
}
