/** Address windows and decoy polling (protocol/src/dead_drop.rs), over ideal address derivation. */
module DeadDrop {
  import opened Wrappers
  import opened Bundle

  /** One past the last index of the window, saturating at the top of `u64`. */
  function WindowEnd(start: u64, window: u64): u64 {
    SaturatingAdd(start, window)
  }

  function AddressWindow(tag: TagKey, start: u64, window: u64): (addresses: seq<Address>)
    ensures |addresses| == if start + window < 0x1_0000_0000_0000_0000 then window else 0xFFFF_FFFF_FFFF_FFFF - start
    ensures forall n: u64 :: Derived(tag, n) in addresses <==>
              start <= n < start + window && n < 0xFFFF_FFFF_FFFF_FFFF
    ensures forall i :: 0 <= i < |addresses| ==> addresses[i] == Derived(tag, start + i)
  {
    var addresses := seq(WindowEnd(start, window) - start,
                         i requires 0 <= i < WindowEnd(start, window) - start => Derived(tag, start + i));
    assert forall n: u64 :: start <= n < WindowEnd(start, window) ==> addresses[n - start] == Derived(tag, n);
    addresses
  }

  /** An in-place shuffle: each position swaps with an arbitrary later one. */
  method Shuffle(addresses: array<Address>)
    modifies addresses
    ensures multiset(addresses[..]) == multiset(old(addresses[..]))
  {
    var i := 0;
    while i < addresses.Length
      invariant multiset(addresses[..]) == multiset(old(addresses[..]))
    {
      var j :| i <= j < addresses.Length;
      addresses[i], addresses[j] := addresses[j], addresses[i];
      i := i + 1;
    }
  }

  /**
   * The poll set: the real window and `decoysPerReal` random draws for each unit of window, in an
   * order that says nothing. `draws` is what the random source yields.
   */
  method BuildPollSet(tag: TagKey, start: u64, window: u64, decoysPerReal: nat, draws: seq<Address>)
    returns (pollSet: seq<Address>)
    requires |draws| == window * decoysPerReal
    ensures multiset(pollSet) == multiset(AddressWindow(tag, start, window)) + multiset(draws)
    ensures forall n: u64 :: start <= n < start + window && n < 0xFFFF_FFFF_FFFF_FFFF ==> Derived(tag, n) in pollSet
  {
    var addresses := AddressWindow(tag, start, window);
    var n := 0;
    while n < window * decoysPerReal
      invariant 0 <= n <= |draws|
      invariant addresses == AddressWindow(tag, start, window) + draws[..n]
    {
      addresses := addresses + [draws[n]];
      n := n + 1;
    }
    assert draws[..n] == draws;
    var shuffled := new Address[|addresses|](i requires 0 <= i < |addresses| => addresses[i]);
    assert shuffled[..] == addresses;
    Shuffle(shuffled);
    pollSet := shuffled[..];
    forall n: u64 | start <= n < start + window && n < 0xFFFF_FFFF_FFFF_FFFF ensures Derived(tag, n) in pollSet {
      assert Derived(tag, n) in multiset(AddressWindow(tag, start, window));
      assert Derived(tag, n) in multiset(pollSet);
    }
  }
}
