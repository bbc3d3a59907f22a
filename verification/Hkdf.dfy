/**
 * HKDF-SHA256 as the Android plugin computes it (hkdfSha256 in SignalPlugin.kt) against sections 2.2 and 2.3 of
 * RFC 5869. HMAC-SHA256 is any function with a 32-byte output.
 */
module Hkdf {
  import opened Wrappers

  type u8 = n: nat | n < 256

  /** The JVM's signed bytes. */
  type i8 = n: int | -128 <= n < 128

  type Bytes = seq<u8>

  type Hmac = (Bytes, Bytes) -> Bytes

  const HASH_LEN: nat := 32

  ghost predicate HasHashLen(hmac: Hmac) {
    forall key, data :: |hmac(key, data)| == HASH_LEN
  }

  // ---------------------------------------------------------------- RFC 5869

  /** Section 2.2. */
  function Extract(hmac: Hmac, salt: Bytes, ikm: Bytes): Bytes {
    hmac(salt, ikm)
  }

  /** T(i) of section 2.3: T(0) is empty, and the counter is one octet. */
  function T(hmac: Hmac, prk: Bytes, info: Bytes, i: nat): Bytes
    requires i <= 255
  {
    if i == 0 then [] else hmac(prk, T(hmac, prk, info, i - 1) + info + [i])
  }

  /** T(1) | … | T(n). */
  function AllT(hmac: Hmac, prk: Bytes, info: Bytes, n: nat): Bytes
    requires n <= 255
  {
    if n == 0 then [] else AllT(hmac, prk, info, n - 1) + T(hmac, prk, info, n)
  }

  function Rounds(length: nat): nat {
    (length + HASH_LEN - 1) / HASH_LEN
  }

  lemma {:induction false} AllTLength(hmac: Hmac, prk: Bytes, info: Bytes, n: nat)
    requires HasHashLen(hmac) && n <= 255
    ensures |AllT(hmac, prk, info, n)| == n * HASH_LEN
  {
    if n > 0 {
      AllTLength(hmac, prk, info, n - 1);
    }
  }

  /** Section 2.3: the first `length` octets of T(1) | T(2) | …, which exist up to 255 rounds. */
  function Expand(hmac: Hmac, prk: Bytes, info: Bytes, length: nat): (okm: Bytes)
    requires HasHashLen(hmac) && length <= 255 * HASH_LEN
    ensures |okm| == length
  {
    AllTLength(hmac, prk, info, Rounds(length));
    AllT(hmac, prk, info, Rounds(length))[..length]
  }

  function Derive(hmac: Hmac, salt: Bytes, ikm: Bytes, info: Bytes, length: nat): (okm: Bytes)
    requires HasHashLen(hmac) && length <= 255 * HASH_LEN
    ensures |okm| == length
  {
    Expand(hmac, Extract(hmac, salt, ikm), info, length)
  }

  /** Up to two rounds, written out. */
  lemma DerivedBytes(hmac: Hmac, salt: Bytes, ikm: Bytes, info: Bytes, length: nat)
    requires HasHashLen(hmac) && length <= 64
    ensures var prk := hmac(salt, ikm);
            var first := hmac(prk, info + [1]);
            Derive(hmac, salt, ikm, info, length) == (first + hmac(prk, first + info + [2]))[..length]
  {
    var prk := hmac(salt, ikm);
    var first := hmac(prk, info + [1]);
    assert [] + info + [1] == info + [1];
    assert T(hmac, prk, info, 1) == first && T(hmac, prk, info, 2) == hmac(prk, first + info + [2]);
    assert AllT(hmac, prk, info, 1) == first;
    assert AllT(hmac, prk, info, 2) == first + hmac(prk, first + info + [2]);
    assert Rounds(length) == if length == 0 then 0 else if length <= 32 then 1 else 2;
    assert AllT(hmac, prk, info, Rounds(length))[..length] == AllT(hmac, prk, info, 2)[..length];
  }

  // ---------------------------------------------------------------- the JVM's bytes

  /** `b and 0xFF`. */
  function Unsigned(b: i8): u8 {
    if b < 0 then b + 256 else b
  }

  /** `Int.toByte`: the low eight bits, read as two's complement. */
  function ToByte(n: nat): i8 {
    if n % 256 < 128 then n % 256 else n % 256 - 256
  }

  function AsBytes(a: seq<i8>): (b: Bytes)
    ensures |b| == |a| && forall i :: 0 <= i < |a| ==> b[i] as int == a[i] as int + if a[i] < 0 then 256 else 0
  {
    seq(|a|, i requires 0 <= i < |a| => Unsigned(a[i]))
  }

  function AsSigned(a: Bytes): (b: seq<i8>)
    ensures |b| == |a| && forall i :: 0 <= i < |a| ==> b[i] as int == a[i] as int - if a[i] < 128 then 0 else 256
  {
    seq(|a|, i requires 0 <= i < |a| => ToByte(a[i]))
  }

  lemma SignedRoundTrip(a: Bytes)
    ensures AsBytes(AsSigned(a)) == a
  {
  }

  lemma AsBytesAppend(a: seq<i8>, b: seq<i8>)
    ensures AsBytes(a + b) == AsBytes(a) + AsBytes(b)
  {
  }

  /** `javax.crypto.Mac`: the same HMAC, on signed arrays. */
  function Mac(hmac: Hmac, key: seq<i8>, data: seq<i8>): (code: seq<i8>)
    ensures AsBytes(code) == hmac(AsBytes(key), AsBytes(data))
  {
    SignedRoundTrip(hmac(AsBytes(key), AsBytes(data)));
    AsSigned(hmac(AsBytes(key), AsBytes(data)))
  }

  // ---------------------------------------------------------------- the loop

  /** What round `i` of the loop computes, also beyond the rounds RFC 5869 has: the counter then repeats. */
  function Block(hmac: Hmac, prk: Bytes, info: Bytes, i: nat): Bytes {
    if i == 0 then [] else hmac(prk, Block(hmac, prk, info, i - 1) + info + [i % 256])
  }

  function Blocks(hmac: Hmac, prk: Bytes, info: Bytes, n: nat): (blocks: Bytes)
    requires HasHashLen(hmac)
    ensures |blocks| == n * HASH_LEN
  {
    if n == 0 then [] else Blocks(hmac, prk, info, n - 1) + Block(hmac, prk, info, n)
  }

  /** The loop fills any length with the blocks in order, cut off at the end. */
  method HkdfSha256(hmac: Hmac, salt: seq<i8>, ikm: seq<i8>, info: seq<i8>, length: nat) returns (out: array<i8>)
    requires HasHashLen(hmac) && salt != []
    ensures fresh(out) && out.Length == length
    ensures AsBytes(out[..])
            == Blocks(hmac, Extract(hmac, AsBytes(salt), AsBytes(ikm)), AsBytes(info), Rounds(length))[..length]
    ensures length <= 255 * HASH_LEN ==>
      AsBytes(out[..]) == Derive(hmac, AsBytes(salt), AsBytes(ikm), AsBytes(info), length)
    ensures length <= 64 ==>
      var prk := hmac(AsBytes(salt), AsBytes(ikm));
      var first := hmac(prk, AsBytes(info) + [1]);
      AsBytes(out[..]) == (first + hmac(prk, first + AsBytes(info) + [2]))[..length]
  {
    var prk := Mac(hmac, salt, ikm);
    out := new i8[length];
    var previous: seq<i8> := [];
    var offset, counter := 0, 1;
    ghost var key, context := AsBytes(prk), AsBytes(info);
    while offset < length
      invariant counter >= 1 && offset == Min(length, (counter - 1) * HASH_LEN)
      invariant offset < length ==> AsBytes(previous) == Block(hmac, key, context, counter - 1)
      invariant counter <= Rounds(length) + 1
      invariant AsBytes(out[..offset]) == Blocks(hmac, key, context, counter - 1)[..offset]
      decreases length - offset
    {
      ghost var filled := out[..offset];
      previous := NextBlock(hmac, prk, info, previous, counter);
      var n := Min(|previous|, length - offset);
      forall i | 0 <= i < n {
        out[offset + i] := previous[i];
      }
      FilledFurther(hmac, key, context, counter, filled, previous, n, out[..offset + n]);
      offset := offset + n;
      counter := counter + 1;
    }
    RoundsDone(length, counter);
    if length <= 255 * HASH_LEN {
      BlocksAreT(hmac, key, context, Rounds(length));
    }
    if length <= 64 {
      DerivedBytes(hmac, AsBytes(salt), AsBytes(ikm), AsBytes(info), length);
    }
    assert out[..offset] == out[..];
  }

  /** One `mac.init`, three `mac.update`s and `mac.doFinal`. */
  method NextBlock(hmac: Hmac, prk: seq<i8>, info: seq<i8>, previous: seq<i8>, counter: nat) returns (block: seq<i8>)
    requires HasHashLen(hmac) && counter >= 1
    requires AsBytes(previous) == Block(hmac, AsBytes(prk), AsBytes(info), counter - 1)
    ensures AsBytes(block) == Block(hmac, AsBytes(prk), AsBytes(info), counter) && |block| == HASH_LEN
  {
    block := Mac(hmac, prk, previous + info + [ToByte(counter)]);
    AsBytesAppend(previous, info);
    AsBytesAppend(previous + info, [ToByte(counter)]);
    assert AsBytes([ToByte(counter)]) == [counter % 256];
  }

  lemma FilledFurther(
    hmac: Hmac, key: Bytes, context: Bytes, counter: nat, filled: seq<i8>, block: seq<i8>, n: nat, now: seq<i8>)
    requires HasHashLen(hmac) && counter >= 1 && |filled| == (counter - 1) * HASH_LEN && n <= |block| == HASH_LEN
    requires AsBytes(filled) == Blocks(hmac, key, context, counter - 1)
    requires AsBytes(block) == Block(hmac, key, context, counter)
    requires now == filled + block[..n]
    ensures AsBytes(now) == Blocks(hmac, key, context, counter)[..|filled| + n]
  {
    AsBytesAppend(filled, block[..n]);
    assert AsBytes(block[..n]) == AsBytes(block)[..n];
  }

  lemma RoundsDone(length: nat, counter: nat)
    requires counter >= 1 && length <= (counter - 1) * HASH_LEN && counter <= Rounds(length) + 1
    ensures counter - 1 == Rounds(length)
  {
  }

  lemma {:induction false} BlockIsT(hmac: Hmac, prk: Bytes, info: Bytes, i: nat)
    requires i <= 255
    ensures Block(hmac, prk, info, i) == T(hmac, prk, info, i)
  {
    if i > 0 {
      BlockIsT(hmac, prk, info, i - 1);
    }
  }

  /** Up to 255 rounds the truncated counter is the octet of RFC 5869. */
  lemma {:induction false} BlocksAreT(hmac: Hmac, prk: Bytes, info: Bytes, n: nat)
    requires HasHashLen(hmac) && n <= 255
    ensures Blocks(hmac, prk, info, n) == AllT(hmac, prk, info, n)
  {
    if n > 0 {
      BlocksAreT(hmac, prk, info, n - 1);
      BlockIsT(hmac, prk, info, n);
    }
  }
}
