/**
 * Identity fingerprints, written twice: in Rust (protocol/src/trust.rs) and in the Android plugin
 * (fingerprintDigits and compareUnsigned in SignalPlugin.kt), on top of the HKDF both use.
 */
module Fingerprint {
  import opened Wrappers
  import opened Hkdf

  const FINGERPRINT_LEN: nat := 60

  /** The bytes of "PARDA-Fingerprint-v1". */
  const FINGERPRINT_CONTEXT: Bytes :=
    [80, 65, 82, 68, 65, 45, 70, 105, 110, 103, 101, 114, 112, 114, 105, 110, 116, 45, 118, 49]

  // ---------------------------------------------------------------- the Rust side

  /** `<=` on byte slices. */
  predicate LexLeq(a: Bytes, b: Bytes) {
    if a == [] then true
    else if b == [] then false
    else if a[0] != b[0] then a[0] < b[0]
    else LexLeq(a[1..], b[1..])
  }

  function Ikm(a: Bytes, b: Bytes): Bytes {
    if LexLeq(a, b) then a + b else b + a
  }

  method Compute(hmac: Hmac, local: Bytes, remote: Bytes) returns (fingerprint: Bytes)
    requires HasHashLen(hmac)
    ensures fingerprint == FingerprintOf(hmac, local, remote)
  {
    var first, second := remote, local;
    if LexLeq(local, remote) {
      first, second := local, remote;
    }
    var ikm: Bytes := [];
    ikm := ikm + first;
    ikm := ikm + second;
    assert ikm == Ikm(local, remote);
    fingerprint := Derive(hmac, FINGERPRINT_CONTEXT, ikm, FINGERPRINT_CONTEXT, FINGERPRINT_LEN);
  }

  function FingerprintOf(hmac: Hmac, local: Bytes, remote: Bytes): (fingerprint: Bytes)
    requires HasHashLen(hmac)
    ensures |fingerprint| == FINGERPRINT_LEN
  {
    Derive(hmac, FINGERPRINT_CONTEXT, Ikm(local, remote), FINGERPRINT_CONTEXT, FINGERPRINT_LEN)
  }

  /** A big-endian number, folded from the left. */
  function BigEndian(chunk: Bytes): nat {
    if chunk == [] then 0 else BigEndian(chunk[..|chunk| - 1]) * 256 + chunk[|chunk| - 1]
  }

  function Digit(d: nat): char
    requires d < 10
  {
    "0123456789"[d]
  }

  /** `{:05}` of a number below 100000. */
  function FiveDigits(n: nat): string
    requires n < 100000
  {
    [Digit(n / 10000), Digit(n / 1000 % 10), Digit(n / 100 % 10), Digit(n / 10 % 10), Digit(n % 10)]
  }

  function Group(okm: Bytes, g: nat): string
    requires 5 * g + 5 <= |okm|
  {
    FiveDigits(BigEndian(okm[5 * g..5 * g + 5]) % 100000)
  }

  /** The first `n` groups, separated by spaces. */
  function Groups(okm: Bytes, n: nat): string
    requires 5 * n <= |okm|
  {
    if n == 0 then "" else if n == 1 then Group(okm, 0) else Groups(okm, n - 1) + " " + Group(okm, n - 1)
  }

  /** The display form: as many groups of five digits as there are whole groups of five bytes. */
  function Digits(okm: Bytes): string {
    Groups(okm, |okm| / 5)
  }

  // ---------------------------------------------------------------- the Kotlin side

  method CompareUnsigned(a: seq<i8>, b: seq<i8>) returns (order: int)
    ensures order <= 0 <==> LexLeq(AsBytes(a), AsBytes(b))
    ensures order == 0 <==> a == b
  {
    var n := Min(|a|, |b|);
    for i := 0 to n
      invariant a[..i] == b[..i]
      invariant LexLeq(AsBytes(a), AsBytes(b)) <==> LexLeq(AsBytes(a)[i..], AsBytes(b)[i..])
    {
      var d := Unsigned(a[i]) - Unsigned(b[i]);
      if d != 0 {
        return d;
      }
      assert AsBytes(a)[i..][1..] == AsBytes(a)[i + 1..] && AsBytes(b)[i..][1..] == AsBytes(b)[i + 1..];
    }
    order := |a| - |b|;
    assert a[..n] == b[..n];
    if order == 0 {
      assert a == a[..n] && b == b[..n];
    }
  }

  method FingerprintDigits(hmac: Hmac, localKey: seq<i8>, remoteKey: seq<i8>) returns (digits: string)
    requires HasHashLen(hmac)
    ensures digits == Digits(FingerprintOf(hmac, AsBytes(localKey), AsBytes(remoteKey)))
  {
    var first, second := remoteKey, localKey;
    var order := CompareUnsigned(localKey, remoteKey);
    if order <= 0 {
      first, second := localKey, remoteKey;
    }
    AsBytesAppend(first, second);
    assert AsBytes(first + second) == Ikm(AsBytes(localKey), AsBytes(remoteKey));
    var okm := HashPair(hmac, first + second);
    digits := JoinGroups(okm);
  }

  method HashPair(hmac: Hmac, ikm: seq<i8>) returns (okm: array<i8>)
    requires HasHashLen(hmac)
    ensures okm.Length == FINGERPRINT_LEN
    ensures AsBytes(okm[..]) == Derive(hmac, FINGERPRINT_CONTEXT, AsBytes(ikm), FINGERPRINT_CONTEXT, FINGERPRINT_LEN)
  {
    var context := AsSigned(FINGERPRINT_CONTEXT);
    SignedRoundTrip(FINGERPRINT_CONTEXT);
    okm := HkdfSha256(hmac, context, ikm, context, FINGERPRINT_LEN);
  }

  method JoinGroups(okm: array<i8>) returns (digits: string)
    requires okm.Length == FINGERPRINT_LEN
    ensures digits == Digits(AsBytes(okm[..]))
  {
    digits := GroupOf(okm, 0);
    for g := 1 to 12
      invariant digits == Groups(AsBytes(okm[..]), g)
    {
      var group := GroupOf(okm, g);
      digits := digits + " " + group;
    }
  }

  /** One pass of the inner loop, `value` being a 64-bit accumulator that five bytes cannot overflow. */
  method GroupOf(okm: array<i8>, g: nat) returns (digits: string)
    requires 5 * g + 5 <= okm.Length
    ensures digits == Group(AsBytes(okm[..]), g)
  {
    ghost var chunk := AsBytes(okm[..])[5 * g..5 * g + 5];
    var value: nat := 0;
    for i := 0 to 5
      invariant value == BigEndian(chunk[..i])
    {
      assert chunk[..i + 1][..i] == chunk[..i];
      value := value * 256 + Unsigned(okm[g * 5 + i]);
    }
    assert chunk[..5] == chunk;
    digits := FiveDigits(value % 100000);
  }

  // ---------------------------------------------------------------- both sides of the screen

  lemma {:induction false} LexTotal(a: Bytes, b: Bytes)
    ensures LexLeq(a, b) || LexLeq(b, a)
    ensures LexLeq(a, b) && LexLeq(b, a) ==> a == b
  {
    if a != [] && b != [] && a[0] == b[0] {
      LexTotal(a[1..], b[1..]);
      assert a == [a[0]] + a[1..] && b == [b[0]] + b[1..];
    }
  }

  /** The order of byte strings is decided where they first differ, by the unsigned bytes; a prefix comes first. */
  lemma {:induction false} FirstDifference(a: Bytes, b: Bytes, k: nat)
    requires k <= |a| && k <= |b| && a[..k] == b[..k]
    ensures k == |a| ==> LexLeq(a, b)
    ensures k < |a| && k == |b| ==> !LexLeq(a, b)
    ensures k < |a| && k < |b| && a[k] != b[k] ==> (LexLeq(a, b) <==> a[k] < b[k])
    decreases k
  {
    if k > 0 {
      assert a[0] == a[..k][0] == b[..k][0] == b[0];
      assert a[1..][..k - 1] == a[..k][1..] && b[1..][..k - 1] == b[..k][1..];
      FirstDifference(a[1..], b[1..], k - 1);
    }
  }

  /** Written out: of two keys that first differ at `k`, the one with the smaller byte is hashed first. */
  lemma FingerprintBytes(hmac: Hmac, local: Bytes, remote: Bytes, k: nat)
    requires HasHashLen(hmac)
    requires k < |local| && k < |remote| && local[..k] == remote[..k] && local[k] != remote[k]
    ensures |FINGERPRINT_CONTEXT| == 20
    ensures forall i :: 0 <= i < 20 ==> FINGERPRINT_CONTEXT[i] as int == "PARDA-Fingerprint-v1"[i] as int
    ensures var context := FINGERPRINT_CONTEXT;
            var prk := hmac(context, if local[k] < remote[k] then local + remote else remote + local);
            var first := hmac(prk, context + [1]);
            FingerprintOf(hmac, local, remote) == (first + hmac(prk, first + context + [2]))[..60]
  {
    FirstDifference(local, remote, k);
    DerivedBytes(hmac, FINGERPRINT_CONTEXT, Ikm(local, remote), FINGERPRINT_CONTEXT, 60);
  }

  /** Which key is local and which is remote makes no difference. */
  lemma ComputeIsSymmetric(hmac: Hmac, local: Bytes, remote: Bytes)
    requires HasHashLen(hmac)
    ensures FingerprintOf(hmac, local, remote) == FingerprintOf(hmac, remote, local)
  {
    LexTotal(local, remote);
  }

  /** For keys of one length, what is hashed identifies the pair of keys and nothing but the pair. */
  lemma IkmIdentifiesPair(a: Bytes, b: Bytes, c: Bytes, d: Bytes)
    requires |a| == |b| == |c| == |d|
    ensures Ikm(a, b) == Ikm(c, d) <==> {a, b} == {c, d}
  {
    LexTotal(a, b);
    LexTotal(c, d);
    var n := |a|;
    assert (a + b)[..n] == a && (a + b)[n..] == b && (b + a)[..n] == b && (b + a)[n..] == a;
    assert (c + d)[..n] == c && (c + d)[n..] == d && (d + c)[..n] == d && (d + c)[n..] == c;
    if Ikm(a, b) == Ikm(c, d) {
      assert (a == c && b == d) || (a == d && b == c);
    }
    if {a, b} == {c, d} {
      assert a in {c, d} && b in {c, d} && c in {a, b} && d in {a, b};
    }
  }

  function DigitValue(c: char): nat {
    if '0' <= c <= '9' then c as int - '0' as int else 0
  }

  /** The number that five decimal digits stand for. */
  function ReadFive(s: string): nat
    requires |s| == 5
  {
    DigitValue(s[0]) * 10000 + DigitValue(s[1]) * 1000 + DigitValue(s[2]) * 100 + DigitValue(s[3]) * 10
    + DigitValue(s[4])
  }

  /** The five characters are the decimal digits of the number, leading zeros included. */
  lemma FiveDigitsReadBack(n: nat)
    requires n < 100000
    ensures ReadFive(FiveDigits(n)) == n && forall c :: c in FiveDigits(n) ==> '0' <= c <= '9'
  {
    DigitsValue(n / 10000);
    DigitsValue(n / 1000 % 10);
    DigitsValue(n / 100 % 10);
    DigitsValue(n / 10 % 10);
    DigitsValue(n % 10);
    Tens(n);
    Tens(n / 10);
    Tens(n / 100);
    Tens(n / 1000);
  }

  lemma Tens(n: nat)
    ensures n == n / 10 * 10 + n % 10
    ensures n / 10 / 10 == n / 100 && n / 100 / 10 == n / 1000 && n / 1000 / 10 == n / 10000
  {
  }

  lemma DigitsValue(d: nat)
    requires d < 10
    ensures DigitValue(Digit(d)) == d
  {
  }

  // ---------------------------------------------------------------- what is shown

  /** One more group behind what is there: it stands at the end, after a space, and the others stay. */
  lemma PartStands(earlier: string, part: string, at: nat)
    requires at + 5 <= |earlier| && |part| == 5
    ensures var joined, n := earlier + " " + part, |earlier|;
            && |joined| == n + 6 && joined[n] == ' ' && joined[n + 1..n + 6] == part
            && joined[at..at + 5] == earlier[at..at + 5] && (at + 5 < n ==> joined[at + 5] == earlier[at + 5])
  {
  }

  /** Group `g` stands at its place however many groups follow, and a space between it and the next. */
  ghost predicate Stands(okm: Bytes, s: string, n: nat, g: nat)
    requires g < n && 5 * n <= |okm|
  {
    |s| == 6 * n - 1 && s[6 * g..6 * g + 5] == Group(okm, g) && (g + 1 < n ==> s[6 * g + 5] == ' ')
  }

  lemma StandsOn(okm: Bytes, earlier: string, part: string, n: nat, g: nat)
    requires 1 <= n && g <= n && 5 * n + 5 <= |okm| && |earlier| == 6 * n - 1
    requires part == Group(okm, n) && |part| == 5
    requires g < n ==> Stands(okm, earlier, n, g)
    ensures Stands(okm, earlier + " " + part, n + 1, g)
  {
    PartStands(earlier, part, if g < n then 6 * g else 0);
  }

  lemma {:induction false} GroupStands(okm: Bytes, n: nat, g: nat)
    requires g < n && 5 * n <= |okm|
    ensures Stands(okm, Groups(okm, n), n, g)
    decreases n
  {
    if n > 1 {
      GroupStands(okm, n - 1, if g < n - 1 then g else 0);
      StandsOn(okm, Groups(okm, n - 1), Group(okm, n - 1), n - 1, g);
    }
  }

  /** The number that five bytes stand for, most significant first. */
  function FiveBytes(b: Bytes): nat
    requires |b| == 5
  {
    b[0] as int * 4294967296 + b[1] as int * 16777216 + b[2] as int * 65536 + b[3] as int * 256 + b[4] as int
  }

  lemma BigEndianOfFive(chunk: Bytes)
    requires |chunk| == 5
    ensures BigEndian(chunk) == FiveBytes(chunk)
  {
    assert chunk[..4][..3] == chunk[..3] && chunk[..3][..2] == chunk[..2] && chunk[..2][..1] == chunk[..1];
    assert BigEndian(chunk[..1]) == chunk[0];
    assert BigEndian(chunk[..2]) == chunk[0] as int * 256 + chunk[1];
    assert BigEndian(chunk[..3]) == BigEndian(chunk[..2]) * 256 + chunk[2];
    assert BigEndian(chunk[..4]) == BigEndian(chunk[..3]) * 256 + chunk[3];
  }

  lemma GroupReads(okm: Bytes, g: nat)
    requires 5 * g + 5 <= |okm|
    ensures |Group(okm, g)| == 5 && ReadFive(Group(okm, g)) == FiveBytes(okm[5 * g..5 * g + 5]) % 100000
  {
    var chunk := okm[5 * g..5 * g + 5];
    BigEndianOfFive(chunk);
    FiveDigitsReadBack(BigEndian(chunk) % 100000);
  }

  /**
   * Of a 60-byte fingerprint the screen shows 71 characters: twelve groups of five digits, each the decimal of its
   * own five bytes modulo 100000, with spaces between them.
   */
  lemma ShownDigits(okm: Bytes, g: nat)
    requires |okm| == 60 && g < 12
    ensures var shown := Digits(okm);
            && |shown| == 71 && (g < 11 ==> shown[6 * g + 5] == ' ')
            && ReadFive(shown[6 * g..6 * g + 5]) == FiveBytes(okm[5 * g..5 * g + 5]) % 100000
  {
    GroupStands(okm, 12, g);
    GroupReads(okm, g);
  }

  // ---------------------------------------------------------------- the trust check

  datatype TrustLevel = Tofu | Verified

  datatype TrustError = IdentityKeyChangedAfterVerification(peerId: string, verified: string, observed: string)

  class InMemoryTrustStore {
    var verified: map<string, Bytes>

    constructor ()
      ensures verified == map[]
    {
      verified := map[];
    }

    method RecordVerified(peerId: string, fingerprint: Bytes)
      modifies this
      ensures verified == old(verified)[peerId := fingerprint]
    {
      verified := verified[peerId := fingerprint];
    }

    method ForgetVerification(peerId: string)
      modifies this
      ensures verified == old(verified) - {peerId}
    {
      verified := verified - {peerId};
    }

    method LevelOf(peerId: string) returns (level: TrustLevel)
      ensures level == Verified <==> peerId in verified
    {
      level := if peerId in verified then Verified else Tofu;
    }

    /** First contact is never refused; afterwards only the verified pair of keys passes, from either side. */
    method CheckIdentity(
      hmac: Hmac, peerId: string, localKey: Bytes, remoteKey: Bytes)
      returns (r: Result<(), TrustError>)
      requires HasHashLen(hmac)
      ensures r.Ok? <==> peerId !in verified || verified[peerId] == FingerprintOf(hmac, remoteKey, localKey)
      ensures r.Err? ==> r.error == IdentityKeyChangedAfterVerification(
        peerId, Digits(verified[peerId]), Digits(FingerprintOf(hmac, localKey, remoteKey)))
    {
      ComputeIsSymmetric(hmac, localKey, remoteKey);
      if peerId !in verified {
        return Ok(());
      }
      var observed := Compute(hmac, localKey, remoteKey);
      if observed == verified[peerId] {
        r := Ok(());
      } else {
        r := Err(IdentityKeyChangedAfterVerification(peerId, Digits(verified[peerId]), Digits(observed)));
      }
    }
  }
}
