/**
 * Bundle framing (mesh/src/bundle.rs) and dead-drop addresses (protocol/src/dead_drop.rs).
 *
 * Byte formats are symbolic: a byte string is either the encoding of a bundle or junk that no
 * decoder accepts. Key derivation is symbolic too: `Derived(tag, n)` stands for the HKDF output for
 * index `n`, so different indices give different addresses. A decoy is any address at all.
 */
module Bundle {
  import opened Wrappers

  datatype TagKey = TagKey(id: nat)

  datatype Address = Derived(tag: TagKey, n: u64) | Raw(bits: nat)

  datatype MessageEnvelope = MessageEnvelope(
    senderId: string,
    recipientId: string,
    ciphertext: seq<nat>,
    timestampMs: u64,
    sealedSender: bool,
    selfDestructAt: Option<u64>,
    readTriggeredDestruct: bool,
    deadDropAddress: Option<Address>)

  /** A bundle's destination endpoint: under the dead-drop prefix, or somebody else's. */
  datatype Endpoint = DeadDrop(address: Address) | Foreign(uri: string)

  datatype Payload = EnvelopeJson(envelope: MessageEnvelope) | OtherBytes(bytes: seq<nat>) | NoPayload

  datatype Bundle = Bundle(destination: Endpoint, createdMs: u64, lifetimeMs: u64, payload: Payload)

  /** A byte string of `len` bytes as the bundle decoder sees it. */
  datatype Wire = Cbor(bundle: Bundle, len: nat) | Junk(id: nat, len: nat)

  datatype MeshError = BundleCodec | RelayRefused(reason: string) | LinkClosed | OutOfOrder | SyncDecode

  /** SHA-256 as an ideal digest: two byte strings never share one. */
  datatype BundleHash = Digest(of: Wire)

  /** Ceiling on the lifetime of a message that names no deadline: seven days. */
  const DEFAULT_MAX_LIFETIME_MS: u64 := 7 * 24 * 60 * 60 * 1000

  function DestinationAddress(bundle: Bundle): Result<Address, MeshError> {
    match bundle.destination
    case DeadDrop(address) => Ok(address)
    case Foreign(_) => Err(BundleCodec)
  }

  /** Creation time plus lifetime, in wrapping `u64` arithmetic. */
  function ExpiryMs(bytes: Wire): Result<u64, MeshError> {
    match bytes
    case Cbor(bundle, _) => Ok((bundle.createdMs + bundle.lifetimeMs) % TWO_64)
    case Junk(_, _) => Err(BundleCodec)
  }

  function LifetimeMs(envelope: MessageEnvelope): u64 {
    match envelope.selfDestructAt
    case Some(deadline) => SaturatingSub(deadline, envelope.timestampMs)
    case None => DEFAULT_MAX_LIFETIME_MS
  }

  /** `wrap`, with the clock reading and the encoded length as parameters. */
  function Wrap(envelope: MessageEnvelope, address: Address, nowMs: u64, len: nat): Wire {
    Cbor(Bundle(DeadDrop(address), nowMs, LifetimeMs(envelope), EnvelopeJson(envelope)), len)
  }

  function Unwrap(bytes: Wire): Result<(Address, MessageEnvelope), MeshError> {
    match bytes
    case Junk(_, _) => Err(BundleCodec)
    case Cbor(bundle, _) =>
      match DestinationAddress(bundle)
      case Err(e) => Err(e)
      case Ok(address) =>
        match bundle.payload
        case EnvelopeJson(envelope) => Ok((address, envelope))
        case OtherBytes(_) => Err(BundleCodec)
        case NoPayload => Err(BundleCodec)
  }

  /** A bundle survives the wire: whatever was wrapped comes back, address and envelope. */
  lemma UnwrapWrap(envelope: MessageEnvelope, address: Address, nowMs: u64, len: nat)
    ensures Unwrap(Wrap(envelope, address, nowMs, len)) == Ok((address, envelope))
  {
  }

  /** `unwrap` accepts exactly an envelope under a dead-drop destination. */
  lemma UnwrapsIff(w: Wire, address: Address, envelope: MessageEnvelope)
    ensures Unwrap(w) == Ok((address, envelope)) <==>
            w.Cbor? && w.bundle.destination == DeadDrop(address) && w.bundle.payload == EnvelopeJson(envelope)
    ensures Unwrap(w).Err? ==> Unwrap(w).error == BundleCodec
  {
  }

  /** A wrapped bundle lives seven days from its wrapping, or as long as the envelope's deadline gives it. */
  lemma WrappedExpiry(envelope: MessageEnvelope, address: Address, nowMs: u64, len: nat)
    ensures envelope.selfDestructAt.None? && nowMs + 604_800_000 < 0x1_0000_0000_0000_0000 ==>
              ExpiryMs(Wrap(envelope, address, nowMs, len)) == Ok(nowMs + 604_800_000)
    ensures envelope.selfDestructAt.Some? ==>
              var left := envelope.selfDestructAt.value - envelope.timestampMs;
              && (left <= 0 ==> ExpiryMs(Wrap(envelope, address, nowMs, len)) == Ok(nowMs))
              && (0 < left && nowMs + left < 0x1_0000_0000_0000_0000 ==>
                  ExpiryMs(Wrap(envelope, address, nowMs, len)) == Ok(nowMs + left))
  {
  }

  /**
   * The bundle's own expiry against the deadline the envelope declares. The lifetime counts from
   * the envelope's timestamp, while the bundle is created when it is wrapped, so a carrier keeps the
   * bundle past the declared deadline exactly when wrapping happens after both the timestamp and
   * (for a timestamp beyond the deadline) the deadline itself, unless the sum leaves 64 bits.
   */
  lemma CarrierOutlivesDeadlineIff(envelope: MessageEnvelope, address: Address, nowMs: u64, len: nat)
    requires envelope.selfDestructAt.Some?
    ensures var deadline := envelope.selfDestructAt.value;
            ExpiryMs(Wrap(envelope, address, nowMs, len)).value > deadline <==>
            var from := Min(envelope.timestampMs, deadline);
            nowMs > from && nowMs + (deadline - from) < TWO_64
    ensures var deadline := envelope.selfDestructAt.value;
            nowMs == Min(envelope.timestampMs, deadline) ==>
            ExpiryMs(Wrap(envelope, address, nowMs, len)) == Ok(deadline)
  {
    var deadline := envelope.selfDestructAt.value;
    var sum := nowMs + LifetimeMs(envelope);
    if sum < TWO_64 {
      assert ExpiryMs(Wrap(envelope, address, nowMs, len)).value == sum;
    } else {
      assert ExpiryMs(Wrap(envelope, address, nowMs, len)).value == sum - TWO_64;
    }
  }

  /** A message wrapped five milliseconds late is carried five milliseconds past its deadline. */
  lemma CarrierOutlivesDeadlineExample(envelope: MessageEnvelope, address: Address)
    requires envelope.timestampMs == 0 && envelope.selfDestructAt == Some(10)
    ensures ExpiryMs(Wrap(envelope, address, 5, 100)) == Ok(15)
  {
  }
}
