/**
 * The store-and-forward relay agent (mesh/src/relay.rs).
 *
 * A store is specified by the set of byte strings it holds. `MeshRelayAgent` keeps the hash map and
 * the byte counter the program keeps, and every method is proved against that set.
 */
module Relay {
  import opened Wrappers
  import opened Bundle

  datatype RelayConfig = RelayConfig(maxTotalBundles: nat, maxTotalBytes: nat, maxBundlesPerSession: nat)

  datatype StoredBundle = StoredBundle(bytes: Wire, address: Address, expiryMs: u64)

  // ---------------------------------------------------------------- specification on sets

  /** Number of bytes a set of byte strings takes up. */
  ghost function TotalLen(held: set<Wire>): (total: nat)
    decreases |held|
  {
    if held == {} then 0 else var w :| w in held; w.len + TotalLen(held - {w})
  }

  lemma {:induction false} TotalLenRemove(held: set<Wire>, w: Wire)
    requires w in held
    ensures TotalLen(held) == w.len + TotalLen(held - {w})
    decreases |held|
  {
    var v :| v in held && TotalLen(held) == v.len + TotalLen(held - {v});
    if v != w {
      TotalLenRemove(held - {v}, w);
      TotalLenRemove(held - {w}, v);
      assert held - {v} - {w} == held - {w} - {v};
    }
  }

  lemma TotalLenAdd(held: set<Wire>, w: Wire)
    requires w !in held
    ensures TotalLen(held + {w}) == TotalLen(held) + w.len
  {
    TotalLenRemove(held + {w}, w);
    assert held + {w} - {w} == held;
  }

  lemma {:induction false} TotalLenMonotone(small: set<Wire>, large: set<Wire>)
    requires small <= large
    ensures TotalLen(small) <= TotalLen(large) && |small| <= |large|
    decreases |large|
  {
    if small != {} {
      var w :| w in small;
      TotalLenRemove(small, w);
      TotalLenRemove(large, w);
      TotalLenMonotone(small - {w}, large - {w});
    }
  }

  function AddressOf(w: Wire): Result<Address, MeshError> {
    match w
    case Junk(_, _) => Err(BundleCodec)
    case Cbor(bundle, _) => DestinationAddress(bundle)
  }

  predicate ExpiredAt(w: Wire, now: u64) {
    ExpiryMs(w).Ok? && ExpiryMs(w).value <= now
  }

  /** What admission checks before it takes the lock: decodable, unexpired, one of ours. */
  function Screen(w: Wire, now: u64): Result<StoredBundle, MeshError> {
    match ExpiryMs(w)
    case Err(e) => Err(e)
    case Ok(expiry) =>
      if expiry <= now then Err(RelayRefused("bundle already expired on arrival"))
      else match AddressOf(w)
        case Err(e) => Err(e)
        case Ok(address) => Ok(StoredBundle(w, address, expiry))
  }

  /** Everything a screened bundle is known to be later, when its clock reading is out of date. */
  predicate Decodable(w: Wire) {
    ExpiryMs(w).Ok? && AddressOf(w).Ok?
  }

  datatype Admission = Inserted | AlreadyHeld | Refused(reason: string)

  ghost predicate HasRoom(config: RelayConfig, held: set<Wire>, w: Wire) {
    |held| < config.maxTotalBundles && TotalLen(held) + w.len <= config.maxTotalBytes
  }

  /** What admission decides under the lock. `budget` is the session's remaining allowance, if any. */
  ghost function Admit(config: RelayConfig, held: set<Wire>, w: Wire, budget: Option<nat>): Admission {
    if w in held then AlreadyHeld
    else if budget == Some(0) then Refused("per-session admission cap reached")
    else if !HasRoom(config, held, w) then Refused("global storage cap reached")
    else Inserted
  }

  ghost function AfterAdmit(held: set<Wire>, w: Wire, decision: Admission): set<Wire> {
    if decision.Inserted? then held + {w} else held
  }

  /** When a bundle is admitted, in its fields, the caps and what is held; then it is held, and else nothing changes. */
  lemma AdmittedIff(config: RelayConfig, held: set<Wire>, w: Wire, now: u64, budget: Option<nat>)
    ensures Screen(w, now).Ok? && !Admit(config, held, w, budget).Refused? <==>
              && w.Cbor? && w.bundle.destination.DeadDrop?
              && (w.bundle.createdMs + w.bundle.lifetimeMs) % 0x1_0000_0000_0000_0000 > now
              && (w in held ||
                  (budget != Some(0) && |held| < config.maxTotalBundles &&
                   TotalLen(held) + w.len <= config.maxTotalBytes))
    ensures AfterAdmit(held, w, Admit(config, held, w, budget))
            == if Admit(config, held, w, budget).Refused? then held else held + {w}
  {
  }

  ghost function Matching(held: set<Wire>, addresses: seq<Address>): set<Wire> {
    set w | w in held && AddressOf(w).Ok? && AddressOf(w).value in addresses
  }

  ghost function Swept(held: set<Wire>, now: u64): set<Wire> {
    set w | w in held && !ExpiredAt(w, now)
  }

  /** A sweep drops what has expired by creation time plus lifetime, in 64 bits. */
  lemma SweptIff(held: set<Wire>, now: u64)
    requires forall w :: w in held ==> Decodable(w)
    ensures forall w :: w in Swept(held, now) ==> w in held
    ensures forall w :: w in held ==>
              w.Cbor? && (w in Swept(held, now) <==>
                          (w.bundle.createdMs + w.bundle.lifetimeMs) % 0x1_0000_0000_0000_0000 > now)
  {
  }

  /** The store invariant on sets: everything decodable, and within both caps. */
  ghost predicate Accounted(config: RelayConfig, held: set<Wire>) {
    && (forall w :: w in held ==> Decodable(w))
    && |held| <= config.maxTotalBundles
    && TotalLen(held) <= config.maxTotalBytes
  }

  lemma AccountedAfterAdmit(config: RelayConfig, held: set<Wire>, w: Wire, budget: Option<nat>)
    requires Accounted(config, held) && Decodable(w)
    ensures Accounted(config, AfterAdmit(held, w, Admit(config, held, w, budget)))
  {
    if Admit(config, held, w, budget).Inserted? {
      TotalLenAdd(held, w);
    }
  }

  lemma AccountedSubset(config: RelayConfig, held: set<Wire>, fewer: set<Wire>)
    requires Accounted(config, held) && fewer <= held
    ensures Accounted(config, fewer)
  {
    TotalLenMonotone(fewer, held);
  }

  // ---------------------------------------------------------------- lists of sets

  /** `listed` holds every element of `all` exactly once, in some order, and nothing else. */
  ghost predicate Lists<T(!new)>(listed: seq<T>, all: set<T>) {
    && (forall i, j :: 0 <= i < j < |listed| ==> listed[i] != listed[j])
    && (forall x :: x in listed <==> x in all)
  }

  lemma ListsMore<T(!new)>(listed: seq<T>, all: set<T>, x: T)
    requires Lists(listed, all) && x !in all
    ensures Lists(listed + [x], all + {x})
  {
  }

  lemma {:induction false} ListsCount<T(!new)>(listed: seq<T>, all: set<T>)
    requires Lists(listed, all)
    ensures |listed| == |all|
    decreases |listed|
  {
    if listed == [] {
      assert all == {};
    } else {
      var last := |listed| - 1;
      var rest := listed[..last];
      assert listed == rest + [listed[last]];
      assert Lists(rest, all - {listed[last]});
      ListsCount(rest, all - {listed[last]});
    }
  }

  // ---------------------------------------------------------------- the hash map as a value

  type HashMap = map<BundleHash, StoredBundle>

  /** Every key is the hash of the bytes it files, next to those bytes' own address and expiry. */
  ghost predicate Filed(m: HashMap) {
    forall h :: h in m ==>
      m[h].bytes == h.of && ExpiryMs(h.of) == Ok(m[h].expiryMs) && AddressOf(h.of) == Ok(m[h].address)
  }

  ghost function Preimages(hashes: set<BundleHash>): set<Wire> {
    set h | h in hashes :: h.of
  }

  lemma InPreimages(hashes: set<BundleHash>, w: Wire)
    ensures w in Preimages(hashes) <==> Digest(w) in hashes
  {
    assert forall h: BundleHash :: h == Digest(h.of);
  }

  lemma PreimagesWithout(hashes: set<BundleHash>, fewer: set<BundleHash>)
    ensures Preimages(hashes - fewer) == Preimages(hashes) - Preimages(fewer)
  {
    forall w ensures w in Preimages(hashes - fewer) <==> w in Preimages(hashes) - Preimages(fewer) {
      InPreimages(hashes - fewer, w);
      InPreimages(hashes, w);
      InPreimages(fewer, w);
    }
  }

  lemma PreimagesWith(hashes: set<BundleHash>, h: BundleHash)
    ensures Preimages(hashes + {h}) == Preimages(hashes) + {h.of}
  {
  }

  lemma {:induction false} PreimageCount(hashes: set<BundleHash>)
    ensures |Preimages(hashes)| == |hashes|
    decreases |hashes|
  {
    if hashes != {} {
      var h :| h in hashes;
      PreimageCount(hashes - {h});
      PreimagesWithout(hashes, {h});
      InPreimages(hashes, h.of);
      assert Preimages({h}) == {h.of} && h == Digest(h.of);
    }
  }

  /** Dropping one key frees exactly the bytes it filed. */
  lemma FreedByOne(m: HashMap, h: BundleHash)
    requires Filed(m) && h in m
    ensures TotalLen(Preimages(m.Keys)) == m[h].bytes.len + TotalLen(Preimages((m - {h}).Keys))
  {
    PreimagesWithout(m.Keys, {h});
    assert Preimages({h}) == {h.of} && (m - {h}).Keys == m.Keys - {h};
    assert h == Digest(h.of);
    InPreimages(m.Keys, h.of);
    TotalLenRemove(Preimages(m.Keys), h.of);
  }

  /** Filing one new bundle adds exactly its bytes. */
  lemma TakenByOne(m: HashMap, b: StoredBundle)
    requires Filed(m) && b.bytes !in Preimages(m.Keys)
    requires ExpiryMs(b.bytes) == Ok(b.expiryMs) && AddressOf(b.bytes) == Ok(b.address)
    ensures var after := m[Digest(b.bytes) := b];
            && Filed(after)
            && Preimages(after.Keys) == Preimages(m.Keys) + {b.bytes}
            && TotalLen(Preimages(after.Keys)) == TotalLen(Preimages(m.Keys)) + b.bytes.len
  {
    PreimagesWith(m.Keys, Digest(b.bytes));
    assert m[Digest(b.bytes) := b].Keys == m.Keys + {Digest(b.bytes)};
    TotalLenAdd(Preimages(m.Keys), b.bytes);
  }

  // ---------------------------------------------------------------- the agent

  class MeshRelayAgent {
    const config: RelayConfig
    var byHash: HashMap
    var totalBytes: nat

    ghost function Contents(): (held: set<Wire>)
      reads this
    {
      Preimages(byHash.Keys)
    }

    ghost predicate Valid()
      reads this
    {
      Filed(byHash) && totalBytes == TotalLen(Contents()) && Accounted(config, Contents())
    }

    constructor (config: RelayConfig)
      ensures Valid() && Contents() == {} && this.config == config
    {
      this.config := config;
      byHash := map[];
      totalBytes := 0;
    }

    method StoredCount() returns (count: nat)
      requires Valid()
      ensures count == |Contents()|
    {
      PreimageCount(byHash.Keys);
      count := |byHash|;
    }

    /** `admit`: a device's own bundle, with no session budget. */
    method AdmitOwn(bytes: Wire, now: u64) returns (result: Result<(), MeshError>)
      requires Valid()
      modifies this
      ensures Valid()
      ensures Screen(bytes, now).Err? ==> result == Err(Screen(bytes, now).error) && Contents() == old(Contents())
      ensures Screen(bytes, now).Ok? ==>
                var decision := Admit(config, old(Contents()), bytes, None);
                Contents() == AfterAdmit(old(Contents()), bytes, decision) &&
                result == if decision.Refused? then Err(RelayRefused(decision.reason)) else Ok(())
    {
      result := AdmitChecked(bytes, now, None);
    }

    method AdmitChecked(bytes: Wire, now: u64, budget: Option<nat>) returns (result: Result<(), MeshError>)
      requires Valid()
      modifies this
      ensures Valid()
      ensures Screen(bytes, now).Err? ==> result == Err(Screen(bytes, now).error) && Contents() == old(Contents())
      ensures Screen(bytes, now).Ok? ==>
                var decision := Admit(config, old(Contents()), bytes, budget);
                Contents() == AfterAdmit(old(Contents()), bytes, decision) &&
                result == if decision.Refused? then Err(RelayRefused(decision.reason)) else Ok(())
    {
      var expiry := ExpiryMs(bytes);
      if expiry.Err? {
        return Err(expiry.error);
      }
      if expiry.value <= now {
        return Err(RelayRefused("bundle already expired on arrival"));
      }
      var address := AddressOf(bytes);
      if address.Err? {
        return Err(address.error);
      }
      var hash := Digest(bytes);
      InPreimages(byHash.Keys, bytes);
      if hash in byHash {
        return Ok(());
      }
      if budget == Some(0) {
        return Err(RelayRefused("per-session admission cap reached"));
      }
      var count := StoredCount();
      if count >= config.maxTotalBundles || totalBytes + bytes.len > config.maxTotalBytes {
        return Err(RelayRefused("global storage cap reached"));
      }
      AccountedAfterAdmit(config, Contents(), bytes, budget);
      TakenByOne(byHash, StoredBundle(bytes, address.value, expiry.value));
      totalBytes := totalBytes + bytes.len;
      byHash := byHash[hash := StoredBundle(bytes, address.value, expiry.value)];
      return Ok(());
    }

    /** Non-destructive lookup, in whatever order the map yields. */
    method BundlesForAddresses(addresses: seq<Address>) returns (found: seq<Wire>)
      requires Valid()
      ensures Lists(found, Matching(Contents(), addresses))
      ensures forall w :: w in found <==> w in Contents() && w.Cbor? && w.bundle.destination.DeadDrop? &&
                                          w.bundle.destination.address in addresses
    {
      var wanted := set a | a in addresses;
      var hashes := set h | h in byHash && byHash[h].address in wanted;
      var todo := hashes;
      found := [];
      while todo != {}
        invariant todo <= hashes
        invariant Lists(found, Preimages(hashes - todo))
        decreases todo
      {
        var h :| h in todo;
        ListOne(found, hashes, todo, h);
        todo := todo - {h};
        found := found + [byHash[h].bytes];
      }
      assert hashes - todo == hashes;
      MatchingHashes(byHash, hashes, addresses);
    }

    /** Pick up the dead drop: exactly the matching bundles, each removed as it is returned. */
    method TakeForAddresses(addresses: seq<Address>) returns (taken: seq<Wire>)
      requires Valid()
      modifies this
      ensures Valid()
      ensures Lists(taken, Matching(old(Contents()), addresses))
      ensures Contents() == old(Contents()) - Matching(old(Contents()), addresses)
      ensures forall w :: w in taken <==> w in old(Contents()) && w.Cbor? && w.bundle.destination.DeadDrop? &&
                                          w.bundle.destination.address in addresses
      ensures forall w :: w in Contents() <==> w in old(Contents()) && w !in taken
    {
      var wanted := set a | a in addresses;
      var hashes := set h | h in byHash && byHash[h].address in wanted;
      MatchingHashes(byHash, hashes, addresses);
      ghost var start := byHash;
      var todo := hashes;
      taken := [];
      while todo != {}
        invariant todo <= hashes
        invariant byHash == start - (hashes - todo)
        invariant totalBytes == TotalLen(Preimages(byHash.Keys))
        invariant Lists(taken, Preimages(hashes - todo))
        decreases todo
      {
        var h :| h in todo;
        ListOne(taken, hashes, todo, h);
        FreedByOne(byHash, h);
        taken := taken + [byHash[h].bytes];
        totalBytes := totalBytes - byHash[h].bytes.len;
        byHash := byHash - {h};
        todo := todo - {h};
      }
      assert hashes - todo == hashes && byHash.Keys == start.Keys - hashes;
      PreimagesWithout(start.Keys, hashes);
      AccountedSubset(config, Preimages(start.Keys), Contents());
    }

    method SweepExpired(now: u64)
      requires Valid()
      modifies this
      ensures Valid()
      ensures Contents() == Swept(old(Contents()), now)
      ensures forall w :: w in Contents() ==> w in old(Contents())
      ensures forall w :: w in old(Contents()) ==>
                w.Cbor? && (w in Contents() <==>
                            (w.bundle.createdMs + w.bundle.lifetimeMs) % 0x1_0000_0000_0000_0000 > now)
    {
      var expired := set h | h in byHash && byHash[h].expiryMs <= now;
      ghost var start := byHash;
      var todo := expired;
      while todo != {}
        invariant todo <= expired
        invariant byHash == start - (expired - todo)
        invariant totalBytes == TotalLen(Preimages(byHash.Keys))
        decreases todo
      {
        var h :| h in todo;
        FreedByOne(byHash, h);
        totalBytes := totalBytes - byHash[h].bytes.len;
        byHash := byHash - {h};
        todo := todo - {h};
      }
      assert expired - todo == expired && byHash.Keys == start.Keys - expired;
      SweptHashes(start, expired, now);
      AccountedSubset(config, Preimages(start.Keys), Contents());
      SweptIff(Preimages(start.Keys), now);
    }
  }

  /** One turn of a collecting loop: `h` joins the list and leaves the to-do set. */
  lemma ListOne(listed: seq<Wire>, hashes: set<BundleHash>, todo: set<BundleHash>, h: BundleHash)
    requires todo <= hashes && h in todo && Lists(listed, Preimages(hashes - todo))
    ensures Lists(listed + [h.of], Preimages(hashes - (todo - {h})))
  {
    InPreimages(hashes - todo, h.of);
    assert h == Digest(h.of) && hashes - (todo - {h}) == (hashes - todo) + {h};
    PreimagesWith(hashes - todo, h);
    ListsMore(listed, Preimages(hashes - todo), h.of);
  }

  lemma MatchingHashes(m: HashMap, hashes: set<BundleHash>, addresses: seq<Address>)
    requires Filed(m)
    requires hashes == set h | h in m && m[h].address in addresses
    ensures Preimages(hashes) == Matching(Preimages(m.Keys), addresses)
  {
    forall w ensures w in Preimages(hashes) <==> w in Matching(Preimages(m.Keys), addresses) {
      InPreimages(hashes, w);
      InPreimages(m.Keys, w);
    }
  }

  lemma SweptHashes(m: HashMap, expired: set<BundleHash>, now: u64)
    requires Filed(m)
    requires expired == set h | h in m && m[h].expiryMs <= now
    ensures Preimages(m.Keys - expired) == Swept(Preimages(m.Keys), now)
  {
    forall w ensures w in Preimages(m.Keys - expired) <==> w in Swept(Preimages(m.Keys), now) {
      InPreimages(m.Keys - expired, w);
      InPreimages(m.Keys, w);
    }
  }
}
