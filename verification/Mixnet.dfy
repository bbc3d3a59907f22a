/**
 * Mix-network packets (protocol/src/mixnet.rs): address tokens, and the path of a packet through an ideal onion.
 *
 * The Sphinx layer is symbolic: a layer opens for the key it was made for and for no other, and its payload may be
 * damaged. A text is its UTF-8 bytes; which bytes are valid UTF-8 is a parameter.
 */
module Mixnet {
  import opened Wrappers
  import opened Hkdf

  datatype MixError = MixRouting

  const MIN_PATH_LENGTH: nat := 3

  /** The width of Sphinx's node and destination address tokens. */
  const TOKEN_LENGTH: nat := 32

  /** "PARDA-RELAY-V1", "PARDA-COVER-V1" and "PARDA-PULL-V1". */
  const RELAY_TAG: Bytes := [80, 65, 82, 68, 65, 45, 82, 69, 76, 65, 89, 45, 86, 49]
  const COVER_TAG: Bytes := [80, 65, 82, 68, 65, 45, 67, 79, 86, 69, 82, 45, 86, 49]
  const PULL_TAG: Bytes := [80, 65, 82, 68, 65, 45, 80, 85, 76, 76, 45, 86, 49]

  // ---------------------------------------------------------------- address tokens

  /** The token of `bytes`; the length byte is the low eight bits of the length. */
  function Token(bytes: Bytes, capacity: nat): (token: Bytes)
    requires |bytes| < capacity
    ensures |token| == capacity
  {
    [|bytes| % 256] + bytes + seq(capacity - 1 - |bytes|, _ => 0)
  }

  method EncodeFixed(bytes: Bytes, capacity: nat) returns (r: Result<array<u8>, MixError>)
    requires capacity >= 1
    ensures r.Ok? <==> |bytes| <= capacity - 1
    ensures r.Ok? ==> fresh(r.value) && r.value[..] == Token(bytes, capacity)
    ensures r.Ok? ==>
              && r.value.Length == capacity && r.value[0] == |bytes| % 256 && r.value[1..1 + |bytes|] == bytes
              && forall i :: 1 + |bytes| <= i < capacity ==> r.value[i] == 0
  {
    if |bytes| > capacity - 1 {
      return Err(MixRouting);
    }
    var buf := new u8[capacity](_ => 0);
    buf[0] := |bytes| % 256;
    forall i | 0 <= i < |bytes| {
      buf[1 + i] := bytes[i];
    }
    assert buf[..] == Token(bytes, capacity);
    r := Ok(buf);
  }

  function DecodeFixed(buf: Bytes): Result<Bytes, MixError>
    requires buf != []
  {
    if 1 + buf[0] > |buf| then Err(MixRouting) else Ok(buf[1..1 + buf[0]])
  }

  /** A token decodes to what was encoded exactly when the length fits its byte; wider tokens can outgrow it. */
  lemma DecodesBackIff(bytes: Bytes, capacity: nat)
    requires |bytes| < capacity
    ensures DecodeFixed(Token(bytes, capacity)) == Ok(bytes) <==> |bytes| <= 255
  {
    var token := Token(bytes, capacity);
    if |bytes| <= 255 {
      assert token[1..1 + |bytes|] == bytes;
    } else {
      assert token[0] < |bytes|;
      assert DecodeFixed(token).Ok? ==> |DecodeFixed(token).value| == token[0];
    }
  }

  // ---------------------------------------------------------------- the onion

  datatype PublicKey = PublicKey(secret: nat)

  datatype Payload = Plaintext(bytes: Bytes) | Damaged

  datatype Packet =
    | Layer(key: PublicKey, nextHop: Bytes, delay: nat, inner: Packet)
    | Core(key: PublicKey, destination: Bytes, payload: Payload)
    | Malformed

  /** A known mix node; its address is the bytes of a text. */
  datatype MixNode = MixNode(address: Bytes, key: PublicKey)

  /** What Sphinx itself refuses: more hops than a header holds, or more bytes than the payload size carries. */
  datatype Sphinx = Sphinx(maxHops: nat, maxPlaintext: nat)

  /** The packet that is `destination`'s for the last node, wrapped for the nodes before it, in order. */
  function Wrap(payload: Bytes, path: seq<MixNode>, destination: Bytes, delays: seq<nat>): Packet
    requires |path| >= 1 && |delays| == |path|
    requires forall i :: 0 <= i < |path| ==> |path[i].address| < TOKEN_LENGTH
    decreases |path|
  {
    if |path| == 1 then Core(path[0].key, destination, Plaintext(payload))
    else
      var inner := Wrap(payload, path[1..], destination, delays[1..]);
      Layer(path[0].key, Token(path[1].address, TOKEN_LENGTH), delays[0], inner)
  }

  predicate Buildable(sphinx: Sphinx, payload: Bytes, path: seq<MixNode>, tag: Bytes) {
    && MIN_PATH_LENGTH <= |path| <= sphinx.maxHops && |payload| <= sphinx.maxPlaintext
    && (forall i :: 0 <= i < |path| ==> |path[i].address| < TOKEN_LENGTH) && |tag| < TOKEN_LENGTH
  }

  method BuildPacketTo(sphinx: Sphinx, payload: Bytes, path: seq<MixNode>, delays: seq<nat>, tag: Bytes)
    returns (r: Result<Packet, MixError>)
    requires |delays| == |path|
    ensures r.Ok? <==> Buildable(sphinx, payload, path, tag)
    ensures r.Ok? <==>
              && 3 <= |path| <= sphinx.maxHops && |payload| <= sphinx.maxPlaintext && |tag| <= 31
              && forall i :: 0 <= i < |path| ==> |path[i].address| <= 31
    ensures r.Ok? ==> r.value == Wrap(payload, path, Token(tag, TOKEN_LENGTH), delays)
  {
    if |path| < MIN_PATH_LENGTH {
      return Err(MixRouting);
    }
    for i := 0 to |path|
      invariant forall j :: 0 <= j < i ==> |path[j].address| < TOKEN_LENGTH
    {
      var address := EncodeFixed(path[i].address, TOKEN_LENGTH);
      if address.Err? {
        return Err(MixRouting);
      }
    }
    var destination := EncodeFixed(tag, TOKEN_LENGTH);
    if destination.Err? || |path| > sphinx.maxHops || |payload| > sphinx.maxPlaintext {
      return Err(MixRouting);
    }
    r := Ok(Wrap(payload, path, destination.value[..], delays));
  }

  datatype UnwrapOutcome =
    | Forward(nextHop: Bytes, delay: nat, packet: Packet)
    | Deliver(envelope: Bytes)
    | PullRequest(request: Bytes)
    | DropCover

  /** `String::from_utf8` of a decoded token. */
  function DecodeAddress(utf8: Bytes -> bool, token: Bytes): Result<Bytes, MixError>
    requires token != []
  {
    var decoded := DecodeFixed(token);
    if decoded.Ok? && utf8(decoded.value) then decoded else Err(MixRouting)
  }

  /** The outcome a destination tag names; a damaged payload matters only where the payload is used. */
  function FinalOutcome(tag: Bytes, payload: Payload): Result<UnwrapOutcome, MixError> {
    if tag == RELAY_TAG then (if payload.Plaintext? then Ok(Deliver(payload.bytes)) else Err(MixRouting))
    else if tag == PULL_TAG then (if payload.Plaintext? then Ok(PullRequest(payload.bytes)) else Err(MixRouting))
    else if tag == COVER_TAG then Ok(DropCover)
    else Err(MixRouting)
  }

  function ProcessPacket(utf8: Bytes -> bool, packet: Packet, secret: nat): Result<UnwrapOutcome, MixError> {
    match packet
    case Malformed => Err(MixRouting)
    case Layer(key, nextHop, delay, inner) =>
      if key.secret != secret || |nextHop| != TOKEN_LENGTH then Err(MixRouting)
      else
        var address := DecodeAddress(utf8, nextHop);
        if address.Err? then Err(MixRouting) else Ok(Forward(address.value, delay, inner))
    case Core(key, destination, payload) =>
      if key.secret != secret || |destination| != TOKEN_LENGTH then Err(MixRouting)
      else
        var tag := DecodeFixed(destination);
        if tag.Err? then Err(MixRouting) else FinalOutcome(tag.value, payload)
  }

  /** The three tags, in letters. */
  lemma TagLetters(i: nat)
    ensures |RELAY_TAG| == 14 && (i < 14 ==> RELAY_TAG[i] as int == "PARDA-RELAY-V1"[i] as int)
    ensures |COVER_TAG| == 14 && (i < 14 ==> COVER_TAG[i] as int == "PARDA-COVER-V1"[i] as int)
    ensures |PULL_TAG| == 13 && (i < 13 ==> PULL_TAG[i] as int == "PARDA-PULL-V1"[i] as int)
  {
  }

  /** The text a token of 32 bytes holds, if its length byte fits. */
  predicate Holds(token: Bytes, text: Bytes) {
    |token| == 32 && token[0] == |text| && |text| <= 31 && token[1..1 + |text|] == text
  }

  /** What a node gets out of a packet, whatever the packet: a forward with the next address in it. */
  lemma ForwardsIff(utf8: Bytes -> bool, packet: Packet, secret: nat, nextHop: Bytes, delay: nat, inner: Packet)
    ensures ProcessPacket(utf8, packet, secret) == Ok(Forward(nextHop, delay, inner)) <==>
              && packet.Layer? && packet.key.secret == secret && packet.delay == delay && packet.inner == inner
              && Holds(packet.nextHop, nextHop) && utf8(nextHop)
  {
  }

  /** Or a delivery, for the tag that names it, of a payload that is whole; cover traffic is dropped unread. */
  lemma EndsIff(utf8: Bytes -> bool, packet: Packet, secret: nat, bytes: Bytes)
    ensures ProcessPacket(utf8, packet, secret) == Ok(Deliver(bytes)) <==>
              packet.Core? && packet.key.secret == secret && Holds(packet.destination, RELAY_TAG) &&
              packet.payload == Plaintext(bytes)
    ensures ProcessPacket(utf8, packet, secret) == Ok(PullRequest(bytes)) <==>
              packet.Core? && packet.key.secret == secret && Holds(packet.destination, PULL_TAG) &&
              packet.payload == Plaintext(bytes)
    ensures ProcessPacket(utf8, packet, secret) == Ok(DropCover) <==>
              packet.Core? && packet.key.secret == secret && Holds(packet.destination, COVER_TAG)
  {
    assert RELAY_TAG[6] != COVER_TAG[6] && |PULL_TAG| != |RELAY_TAG| && |PULL_TAG| != |COVER_TAG|;
  }

  // ---------------------------------------------------------------- the journey

  /** Where the packet goes when the nodes holding `secrets` unwrap it one after the other, and how it ends. */
  datatype Journey = Journey(hops: seq<Bytes>, delays: seq<nat>, end: Result<UnwrapOutcome, MixError>)

  /** It goes on as long as nodes are left to forward to; a packet still on its way then ends as that forward. */
  function Travel(utf8: Bytes -> bool, packet: Packet, secrets: seq<nat>): Journey
    requires secrets != []
    decreases |secrets|
  {
    var outcome := ProcessPacket(utf8, packet, secrets[0]);
    if outcome.Ok? && outcome.value.Forward? && |secrets| > 1 then
      var rest := Travel(utf8, outcome.value.packet, secrets[1..]);
      Journey([outcome.value.nextHop] + rest.hops, [outcome.value.delay] + rest.delays, rest.end)
    else Journey([], [], outcome)
  }

  function Secrets(path: seq<MixNode>): (secrets: seq<nat>)
    ensures |secrets| == |path| && forall i :: 0 <= i < |path| ==> secrets[i] == path[i].key.secret
  {
    seq(|path|, i requires 0 <= i < |path| => path[i].key.secret)
  }

  function Addresses(path: seq<MixNode>): (addresses: seq<Bytes>)
    ensures |addresses| == |path| && forall i :: 0 <= i < |path| ==> addresses[i] == path[i].address
  {
    seq(|path|, i requires 0 <= i < |path| => path[i].address)
  }

  predicate Addressable(utf8: Bytes -> bool, path: seq<MixNode>) {
    forall i :: 0 <= i < |path| ==> |path[i].address| < TOKEN_LENGTH && utf8(path[i].address)
  }

  lemma {:induction false} TravelsPath(
    utf8: Bytes -> bool, payload: Bytes, path: seq<MixNode>, tag: Bytes, delays: seq<nat>)
    requires |path| >= 1 && |delays| == |path| && Addressable(utf8, path) && |tag| < TOKEN_LENGTH
    ensures Travel(utf8, Wrap(payload, path, Token(tag, TOKEN_LENGTH), delays), Secrets(path))
            == Journey(Addresses(path[1..]), delays[..|path| - 1], FinalOutcome(tag, Plaintext(payload)))
    decreases |path|
  {
    DecodesBackIff(tag, TOKEN_LENGTH);
    if |path| > 1 {
      DecodesBackIff(path[1].address, TOKEN_LENGTH);
      TravelsPath(utf8, payload, path[1..], tag, delays[1..]);
      assert Secrets(path)[1..] == Secrets(path[1..]);
      assert Addresses(path[1..]) == [path[1].address] + Addresses(path[1..][1..]);
      assert delays[..|path| - 1] == [delays[0]] + delays[1..][..|path| - 2];
    }
  }

  /**
   * A built packet, unwrapped by the nodes of its path in order, is forwarded to exactly the rest of the path with
   * the delays sampled for it, and ends in the one outcome its tag names, the payload unchanged.
   */
  lemma DeliversAlongPath(
    utf8: Bytes -> bool, sphinx: Sphinx, payload: Bytes, path: seq<MixNode>, tag: Bytes, delays: seq<nat>)
    requires |delays| == |path| && Buildable(sphinx, payload, path, tag)
    requires forall i :: 0 <= i < |path| ==> utf8(path[i].address)
    ensures var journey := Travel(utf8, Wrap(payload, path, Token(tag, TOKEN_LENGTH), delays), Secrets(path));
            && journey.hops == Addresses(path)[1..] && journey.delays == delays[..|path| - 1]
            && (journey.end == Ok(Deliver(payload)) <==> tag == RELAY_TAG)
            && (journey.end == Ok(PullRequest(payload)) <==> tag == PULL_TAG)
            && (journey.end == Ok(DropCover) <==> tag == COVER_TAG)
            && (journey.end.Err? <==> tag !in {RELAY_TAG, PULL_TAG, COVER_TAG})
  {
    TravelsPath(utf8, payload, path, tag, delays);
    assert Addresses(path[1..]) == Addresses(path)[1..];
    assert RELAY_TAG[6] != COVER_TAG[6] && |PULL_TAG| != |RELAY_TAG| && |PULL_TAG| != |COVER_TAG|;
  }

  /** Nobody but the node a layer was made for gets anything out of it. */
  lemma OnlyItsNodeUnwraps(
    utf8: Bytes -> bool, payload: Bytes, path: seq<MixNode>, tag: Bytes, delays: seq<nat>, secret: nat)
    requires |path| >= 1 && |delays| == |path| && Addressable(utf8, path) && tag in {RELAY_TAG, PULL_TAG, COVER_TAG}
    ensures ProcessPacket(utf8, Wrap(payload, path, Token(tag, TOKEN_LENGTH), delays), secret).Ok?
            <==> secret == path[0].key.secret
  {
    DecodesBackIff(tag, TOKEN_LENGTH);
    if |path| > 1 {
      DecodesBackIff(path[1].address, TOKEN_LENGTH);
    }
  }
}
