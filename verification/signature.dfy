/**
 Ed25519 signatures: key generation, signing and verification as sections 5.1.5 to
 5.1.7 of RFC 8032 describe them, over any group of points whose base point B
 satisfies L B = 0.
 */
module Signature {
  import opened Bits
  import opened Bytes
  import opened Compare
  import opened Groups
  import opened CurveAlgebra
  import opened Edwards
  import opened Residues
  import opened ScalarBytes
  import opened ScalarMult
  import opened PointCodec
  import opened Recode
  import opened SignatureChecks
  import opened StrictDecoding
  import opened Sha512Spec
  import opened Sha512Stream
  import Field25519
  import FieldBytes
  import Modular
  import Scalar

  // ---------------------------------------------------------------------
  // Octets for the hash, byte values for the arithmetic.

  function AsOctets(s: seq<byte>): (r: seq<bv8>)
    ensures |r| == |s|
  {
    seq(|s|, i requires 0 <= i < |s| => s[i] as bv8)
  }

  function AsBytes(s: seq<bv8>): (r: seq<byte>)
    ensures |r| == |s|
  {
    seq(|s|, i requires 0 <= i < |s| => s[i] as int)
  }

  lemma OctetsOfSum(s: seq<byte>, t: seq<byte>)
    ensures AsOctets(s + t) == AsOctets(s) + AsOctets(t)
  {
  }

  function Digest(m: seq<byte>): (d: seq<byte>)
    ensures |d| == 64
  {
    AsBytes(Sha512(AsOctets(m)))
  }

  // ---------------------------------------------------------------------
  // What the standard computes.

  /** The domain separation string of the prehashed variant. */
  function Dom2(prehashed: bool): seq<byte>
  {
    if prehashed then
      [0x53, 0x69, 0x67, 0x45, 0x64, 0x32, 0x35, 0x35, 0x31, 0x39, 0x20, 0x6e, 0x6f, 0x20, 0x45, 0x64, 0x32,
       0x35, 0x35, 0x31, 0x39, 0x20, 0x63, 0x6f, 0x6c, 0x6c, 0x69, 0x73, 0x69, 0x6f, 0x6e, 0x73, 0x01, 0x00]
    else []
  }

  const TWO254: int := 0x4000_0000_0000_0000_0000_0000_0000_0000_0000_0000_0000_0000_0000_0000_0000_0000

  /** Bits 0 to 2 cleared, bit 255 cleared, bit 254 set. */
  function Clamped(v: nat): nat { v % TWO254 - v % 8 + TWO254 }

  /** Clamping keeps bits 3 to 253 and fixes the others; no other number does. */
  lemma ClampedIs(v: nat, w: nat)
    ensures w == Clamped(v) <==> w % 8 == 0 && TWO254 <= w < 2 * TWO254 && (w - TWO254) / 8 == v % TWO254 / 8
  {
    var u := v % TWO254;
    LowBitsKept(v, u, TWO254 / 8, v / TWO254);
    assert u == 8 * (u / 8) + u % 8;
  }

  lemma LowBitsKept(v: nat, u: nat, t: nat, k: nat)
    requires v == 8 * t * k + u
    ensures v % 8 == u % 8
  {
    Modular.Assoc(8, t, k);
    DivModUnique(v, 8, t * k + u / 8, u % 8);
  }

  function Ascii(s: string): (b: seq<byte>)
    requires forall i :: 0 <= i < |s| ==> s[i] < 128 as char
    ensures |b| == |s|
  {
    seq(|s|, i requires 0 <= i < |s| => s[i] as int)
  }

  /** Section 2 of RFC 8032: the prefix string, the flag of the prehashed variant, and an empty context. */
  lemma Dom2Is()
    ensures Dom2(true) == Ascii("SigEd25519 no Ed25519 collisions") + [1, 0] && Dom2(false) == []
  {
  }

  ghost function SecretScalar(seed: seq<byte>): nat
  {
    Clamped(LeVal(Digest(seed)[..32]))
  }

  lemma SecretBytes(seed: seq<byte>)
    ensures SecretScalar(seed) == Clamped(LeVal(AsBytes(Sha512(AsOctets(seed)))[..32]))
  {
    hide LeVal, AsBytes, AsOctets, Sha512, Clamped;
  }

  ghost function Nonce(seed: seq<byte>, m: seq<byte>, prehashed: bool): nat
  {
    LeVal(Digest(Dom2(prehashed) + Digest(seed)[32..] + m)) % Scalar.L
  }

  /** Two messages under one key get the same nonce exactly if their digests behind the prefix agree modulo L. */
  lemma NoncesAgree(seed: seq<byte>, m: seq<byte>, m': seq<byte>, prehashed: bool)
    ensures var prefix := AsOctets(Dom2(prehashed)) + Sha512(AsOctets(seed))[32..];
            Nonce(seed, m, prehashed) == Nonce(seed, m', prehashed)
            <==> var d := LeVal(AsBytes(Sha512(prefix + AsOctets(m)))) - LeVal(AsBytes(Sha512(prefix + AsOctets(m'))));
                 d % Scalar.L == 0
  {
    hide AsOctets, Dom2, Sha512, LeVal;
    var x := Digest(seed)[32..];
    OctetsBack(Sha512(AsOctets(seed)));
    OctetsOfSum(Dom2(prehashed), x);
    OctetsOfSum(Dom2(prehashed) + x, m);
    OctetsOfSum(Dom2(prehashed) + x, m');
    SameResidue(LeVal(Digest(Dom2(prehashed) + x + m)), LeVal(Digest(Dom2(prehashed) + x + m')), Scalar.L);
  }

  lemma OctetsBack(s: seq<bv8>)
    requires |s| == 64
    ensures AsOctets(AsBytes(s)[32..]) == s[32..]
  {
  }

  lemma SameResidue(a: int, b: int, q: int)
    requires q > 0
    ensures a % q == b % q <==> (a - b) % q == 0
  {
    var k, l := a / q, b / q;
    if a % q == b % q {
      assert a - b == q * (k - l);
      DivModUnique(a - b, q, k - l, 0);
    }
    if (a - b) % q == 0 {
      var d := (a - b) / q;
      assert a == q * (l + d) + b % q;
      DivModUnique(a, q, l + d, b % q);
    }
  }

  ghost function Challenge(R: seq<byte>, pk: seq<byte>, m: seq<byte>, prehashed: bool): nat
  {
    LeVal(Digest(Dom2(prehashed) + R + pk + m)) % Scalar.L
  }

  /** The signature of m: R encodes r B, and S = (h a + r) mod L. */
  ghost predicate Signed<T>(c: Curve<T>, B: T, m: seq<byte>, sk: seq<byte>, prehashed: bool, sig: seq<byte>)
    requires |sk| == 64
  {
    var seed, pk, r := sk[..32], sk[32..], Nonce(sk[..32], m, prehashed);
    && |sig| == 64
    && LeVal(sig[..32]) == EncodedVal(c, Mul(c.group, r, B))
    && LeVal(sig[32..]) == (Challenge(sig[..32], pk, m, prehashed) * SecretScalar(seed) + r) % Scalar.L
  }

  /** R encodes h (-A) + S B. */
  ghost predicate Balanced<T>(c: Curve<T>, B: T, A: T, sig: seq<byte>, m: seq<byte>, pk: seq<byte>, prehashed: bool)
    requires |sig| == 64
  {
    LeVal(sig[..32])
    == EncodedVal(c, Combination(c.group, Challenge(sig[..32], pk, m, prehashed), c.group.neg(A), LeVal(sig[32..]), B))
  }

  predicate AllZero(s: seq<byte>) { forall i :: 0 <= i < |s| ==> s[i] == 0 }

  /** What verification accepts. */
  ghost predicate Accepts<T(!new)>(c: Curve<T>, B: T, sig: seq<byte>, m: seq<byte>, pk: seq<byte>, prehashed: bool)
    requires |sig| == 64 && |pk| == 32
  {
    && LeVal(sig[32..]) < Scalar.L
    && LeVal(sig[..32]) !in SmallOrderValues()
    && !AllZero(pk)
    && exists A :: Decodes(c, pk, A) && Balanced(c, B, A, sig, m, pk, prehashed)
  }

  // ---------------------------------------------------------------------
  // Hashing.

  /** hinit: an empty hash, or one that has absorbed the domain string. */
  method HashInit(prehashed: bool) returns (hs: Context)
    ensures fresh(hs) && fresh(hs.state) && fresh(hs.buf)
    ensures hs.Valid() && hs.msg == AsOctets(Dom2(prehashed))
  {
    hide AsOctets, Holding, Counted;
    hs := new Context();
    if prehashed {
      hs.Update(AsOctets(Dom2(true)));
      assert [] + AsOctets(Dom2(true)) == AsOctets(Dom2(true));
    } else {
      assert AsOctets([]) == [];
    }
  }

  /** init, two updates, final. */
  method HashTwo(prehashed: bool, x: seq<byte>, m: seq<byte>) returns (d: seq<byte>)
    requires |x| < TWO64 && |m| < TWO64
    ensures d == Digest(Dom2(prehashed) + x + m)
  {
    hide AsOctets, AsBytes, Dom2, Sha512, Counted, Holding;
    var hs := HashInit(prehashed);
    hs.Update(AsOctets(x));
    hs.Update(AsOctets(m));
    OctetsOfSum(Dom2(prehashed), x);
    OctetsOfSum(Dom2(prehashed) + x, m);
    var digest := hs.Final();
    d := AsBytes(digest);
  }

  /** init, three updates, final. */
  method HashThree(prehashed: bool, x: seq<byte>, y: seq<byte>, m: seq<byte>) returns (d: seq<byte>)
    requires |x| < TWO64 && |y| < TWO64 && |m| < TWO64
    ensures d == Digest(Dom2(prehashed) + x + y + m)
  {
    hide AsOctets, AsBytes, Dom2, Sha512, Counted, Holding;
    var hs := HashInit(prehashed);
    hs.Update(AsOctets(x));
    hs.Update(AsOctets(y));
    hs.Update(AsOctets(m));
    OctetsOfSum(Dom2(prehashed), x);
    OctetsOfSum(Dom2(prehashed) + x, y);
    OctetsOfSum(Dom2(prehashed) + x + y, m);
    var digest := hs.Final();
    d := AsBytes(digest);
  }

  /** The clamping of the first 32 bytes of the hashed seed. */
  method ExpandSeed(seed: seq<byte>) returns (az: seq<byte>)
    requires |seed| == 32
    ensures |az| == 64 && LeVal(az[..32]) == SecretScalar(seed) && az[31] <= 127
    ensures az[32..] == Digest(seed)[32..]
  {
    hide AsOctets, AsBytes, Sha512, LeVal, And, Or;
    var digest := Hash(AsOctets(seed));
    ghost var d := AsBytes(digest);
    az := AsBytes(digest);
    ClampBytes(az[0], az[31]);
    az := az[0 := And(az[0], 248)];
    az := az[31 := And(az[31], 63)];
    az := az[31 := Or(az[31], 64)];
    assert az[..32] == d[..32][0 := d[0] - d[0] % 8][31 := d[31] % 64 + 64];
    ClampVal(d[..32]);
    assert az[32..] == d[32..];
  }

  lemma ClampBytes(x: byte, y: byte)
    ensures And(x, 248) == x - x % 8 && And(y, 63) == y % 64 && Or(y % 64, 64) == y % 64 + 64
  {
    hide And, Or;
    Pow2Small();
    ClearLow(x);
    AndMask(y, 6);
    OrDisjoint(y % 64, 1, 6);
  }

  lemma Pow2Small()
    ensures Pow2(5) == 32 && Pow2(6) == 64
  {
    assert Pow2(3) == 8;
    assert Pow2(5) == 2 * (2 * Pow2(3));
  }

  lemma ClearLow(x: byte)
    ensures And(x, 248) == x - x % 8
  {
    hide And;
    AndEven(x, 124);
    AndEven(x / 2, 62);
    AndEven(x / 2 / 2, 31);
    Pow2Small();
    AndMask(x / 2 / 2 / 2, 5);
    Bit3(x);
  }

  lemma AndEven(x: nat, y: nat)
    requires y > 0
    ensures And(x, 2 * y) == 2 * And(x / 2, y)
  {
    hide Or;
    assert (2 * y) % 2 == 0 && (2 * y) / 2 == y;
  }

  lemma Bit3(x: byte)
    ensures 8 * (x / 2 / 2 / 2 % 32) == x - x % 8
  {
  }

  /** Clamping the first and the last of 32 bytes clamps the number. */
  lemma ClampVal(s: seq<byte>)
    requires |s| == 32
    ensures LeVal(s[0 := s[0] - s[0] % 8][31 := s[31] % 64 + 64]) == Clamped(LeVal(s))
  {
    hide Word;
    var t := s[0 := s[0] - s[0] % 8][31 := s[31] % 64 + 64];
    ClampWords(s, t);
    Le32(s);
    Le32(t);
    LowBits(s);
    HighBits(s);
  }

  lemma ClampWords(s: seq<byte>, t: seq<byte>)
    requires |s| == 32 && t == s[0 := s[0] - s[0] % 8][31 := s[31] % 64 + 64]
    ensures Word(t, 0) == Word(s, 0) - s[0] % 8
    ensures Word(t, 4) == Word(s, 4) && Word(t, 8) == Word(s, 8) && Word(t, 12) == Word(s, 12)
    ensures Word(t, 16) == Word(s, 16) && Word(t, 20) == Word(s, 20) && Word(t, 24) == Word(s, 24)
    ensures Word(t, 28) == Word(s, 28) - 0x4000_0000 * (s[31] / 64) as int + 0x4000_0000
  {
  }

  lemma LowBits(s: seq<byte>)
    requires |s| == 32
    ensures LeVal(s) % 8 == s[0] % 8
  {
    var rest := LeVal(s[1..]);
    assert LeVal(s) == s[0] + 256 * rest;
    DivModUnique(LeVal(s), 8, 32 * rest + s[0] / 8, s[0] % 8);
  }

  lemma HighBits(s: seq<byte>)
    requires |s| == 32
    ensures LeVal(s) % TWO254 == LeVal(s) - TWO254 * (s[31] / 64)
  {
    TopQuarter(s);
    hide Word;
    Le32(s);
    var low := LeVal(s) - TWO254 * (s[31] / 64);
    DivModUnique(LeVal(s), TWO254, s[31] / 64, low);
  }

  lemma TopQuarter(s: seq<byte>)
    requires |s| == 32
    ensures 0 <= Word(s, 28) - 0x4000_0000 * (s[31] / 64) as int < 0x4000_0000
  {
  }

  // ---------------------------------------------------------------------
  // Keys and signatures.

  /** crypto_sign_ed25519_seed_keypair. */
  method SeedKeypair<T(!new)>(seed: seq<byte>, base: seq<seq<GePrecomp>>, ghost c: Curve<T>, ghost B: T)
    returns (pk: seq<byte>, sk: seq<byte>)
    requires |seed| == 32 && IsEdwards(c) && BaseTable(c, base, B)
    ensures |pk| == 32 && sk == seed + pk && LeVal(pk) == EncodedVal(c, Mul(c.group, SecretScalar(seed), B))
    ensures SecretScalar(seed) == Clamped(LeVal(AsBytes(Sha512(AsOctets(seed)))[..32]))
  {
    hide *;
    SecretBytes(seed);
    var az := ExpandSeed(seed);
    var A := GeScalarmultBase(az[..32], base, c, B);
    pk := GeP3ToBytes(A, c, Mul(c.group, LeVal(az[..32]), B));
    sk := seed + pk;
  }

  /** _crypto_sign_ed25519_detached. */
  method Sign<T(!new)>(m: seq<byte>, sk: seq<byte>, prehashed: bool, base: seq<seq<GePrecomp>>,
                       ghost c: Curve<T>, ghost B: T) returns (sig: seq<byte>)
    requires |sk| == 64 && |m| < TWO64 && IsEdwards(c) && BaseTable(c, base, B)
    ensures Signed(c, B, m, sk, prehashed, sig)
    ensures var az := AsBytes(Sha512(AsOctets(sk[..32])));
            var r := LeVal(AsBytes(Sha512(AsOctets(Dom2(prehashed) + az[32..] + m)))) % Scalar.L;
            var h := LeVal(AsBytes(Sha512(AsOctets(Dom2(prehashed) + sig[..32] + sk[32..] + m)))) % Scalar.L;
            && LeVal(sig[..32]) == EncodedVal(c, Mul(c.group, r, B))
            && LeVal(sig[32..]) == (h * Clamped(LeVal(az[..32])) + r) % Scalar.L
  {
    hide LeVal, IsEdwards, BaseTable, Rep3, Mul, EncodedVal, Signed, Digest, Dom2, Sha512, SecretScalar;
    var az := ExpandSeed(sk[..32]);
    var n := HashTwo(prehashed, az[32..], m);
    var nonce := ScReduce(n);
    TopByte(nonce);
    var R := GeScalarmultBase(nonce, base, c, B);
    var r := GeP3ToBytes(R, c, Mul(c.group, LeVal(nonce), B));
    sig := r + sk[32..];
    var h := HashTwo(prehashed, sig, m);
    DomainThenKey(Dom2(prehashed), r, sk[32..], m);
    var hram := ScReduce(h);
    var s := ScMuladd(hram, az[..32], nonce);
    sig := r + s;
    SignedIs(c, B, m, sk, prehashed, r, s);
    SignedBytes(c, B, m, sk, prehashed, sig);
  }

  /** A signature in terms of SHA-512 alone. */
  lemma SignedBytes<T>(c: Curve<T>, B: T, m: seq<byte>, sk: seq<byte>, prehashed: bool, sig: seq<byte>)
    requires |sk| == 64 && Signed(c, B, m, sk, prehashed, sig)
    ensures var az := AsBytes(Sha512(AsOctets(sk[..32])));
            var r := LeVal(AsBytes(Sha512(AsOctets(Dom2(prehashed) + az[32..] + m)))) % Scalar.L;
            var h := LeVal(AsBytes(Sha512(AsOctets(Dom2(prehashed) + sig[..32] + sk[32..] + m)))) % Scalar.L;
            && |sig| == 64 && LeVal(sig[..32]) == EncodedVal(c, Mul(c.group, r, B))
            && LeVal(sig[32..]) == (h * Clamped(LeVal(az[..32])) + r) % Scalar.L
  {
    hide LeVal, EncodedVal, Mul, AsOctets, AsBytes, Sha512, Dom2, Clamped;
  }

  /** The two halves of a signature, as its definition reads them. */
  lemma SignedIs<T>(c: Curve<T>, B: T, m: seq<byte>, sk: seq<byte>, prehashed: bool, r: seq<byte>, s: seq<byte>)
    requires |sk| == 64 && |r| == 32 && |s| == 32
    requires LeVal(r) == EncodedVal(c, Mul(c.group, Nonce(sk[..32], m, prehashed), B))
    requires LeVal(s)
             == (Challenge(r, sk[32..], m, prehashed) * SecretScalar(sk[..32]) + Nonce(sk[..32], m, prehashed)) % Scalar.L
    ensures Signed(c, B, m, sk, prehashed, r + s)
  {
    hide LeVal, EncodedVal, Mul, Challenge, Nonce, SecretScalar;
    assert (r + s)[..32] == r && (r + s)[32..] == s;
  }

  lemma DomainThenKey(d: seq<byte>, r: seq<byte>, k: seq<byte>, m: seq<byte>)
    ensures d + (r + k) + m == d + r + k + m
  {
  }

  /** A reduced scalar is far below 2^255. */
  lemma TopByte(s: seq<byte>)
    requires |s| == 32 && LeVal(s) < Scalar.L
    ensures s[31] <= 127 && LeVal(s) < Pow2(255)
  {
    hide LeVal, Pow2;
    FieldBytes.TopBit(s);
    Two255();
  }

  /** What sc_reduce produces, and what the verifier lets through, is recoded by slide without loss. */
  lemma ReducedIsSafe(s: seq<byte>)
    requires |s| == 32 && LeVal(s) < Scalar.L
    ensures !Overflows(LeVal(s), 256)
  {
    hide LeVal, Overflows, Pow2;
    TopByte(s);
    HalfIsSafe(LeVal(s), 256);
  }

  lemma Two255()
    ensures Pow2(255) == FieldBytes.TWO255
  {
    hide Pow2;
    Pow2Of127();
    FieldBytes.Pow2Of128();
    Pow2Add(128, 127);
  }

  lemma Pow2Of127()
    ensures 2 * Pow2(127) == Pow2(128)
  {
  }

  /** _crypto_sign_ed25519_verify_detached: 0 exactly on what the definition accepts. */
  method Verify<T(!new)>(sig: seq<byte>, m: seq<byte>, pk: seq<byte>, prehashed: bool, Bi: seq<GePrecomp>,
                         ghost c: Curve<T>, ghost B: T) returns (result: int)
    requires |sig| == 64 && |pk| == 32 && |m| < TWO64
    requires IsEdwards(c) && AllPoints(c) && OddTable(c, Bi, B)
    ensures result == if Accepts(c, B, sig, m, pk, prehashed) then 0 else -1
  {
    hide LeVal, IsEdwards, AllPoints, OddTable, Rep3, Rep2, Accepts, Balanced, DecodesTo, Combination, EncodedVal, Mul,
         SmallOrderValues, OnCurve, YOf, SignOf, Negated, Field25519.Val, Field25519.Tight, Digest, Dom2, Fermat,
         AllZero, Pow2, Overflows;
    var low := CheckBelowOrder(sig[32..]);
    var small := SmallOrder(sig[..32]);
    if low != 0 || small != 0 {
      RejectedEarly(c, B, sig, m, pk, prehashed);
      return -1;
    }
    FermatOf(c);
    var ok, h := GeFromBytesNegateVartime(pk);
    if ok != 0 {
      NoPoint(c, B, sig, m, pk, prehashed);
      return -1;
    }
    ghost var A := PointOf(c, pk, Field25519.Val(h.X));
    DecodeIsNegation(c, A, YOf(pk), SignOf(pk), Field25519.Val(h.X), Field25519.Val(h.Y), Field25519.Val(h.T));
    WithOne(c, h, c.group.neg(A));
    AcceptsWith(c, B, sig, m, pk, prehashed, A);
    var zero := IsAllZero(pk);
    if zero {
      return -1;
    }
    var digest := HashThree(prehashed, sig[..32], pk, m);
    var k := ScReduce(digest);
    TopByte(k);
    TopByte(sig[32..]);
    ReducedIsSafe(k);
    ReducedIsSafe(sig[32..]);
    ghost var N := c.group.neg(A);
    var R := GeDoubleScalarmultVartime(k, h, sig[32..], Bi, c, N, B);
    var rcheck := GeToBytes(R, c, Combination(c.group, LeVal(k), N, LeVal(sig[32..]), B));
    BalancedIs(c, B, A, sig, m, pk, prehashed, LeVal(k), rcheck);
    // rcheck is a local array, so it is never the caller's buffer and the middle term is 0.
    var v := Verify32(rcheck, sig[..32]);
    result := if v == -1 then -1 else if sig[..32] == rcheck then 0 else 1;
  }

  /** The loop over the key: or-ing all bytes. */
  method IsAllZero(pk: seq<byte>) returns (zero: bool)
    requires |pk| == 32
    ensures zero == AllZero(pk)
  {
    hide Or;
    var d: byte := 0;
    for i := 0 to 32
      invariant d == 0 <==> forall k :: 0 <= k < i ==> pk[k] == 0
    {
      Pow2Of8();
      OrXorBelow(d, pk[i], 8);
      OrIsZero(d, pk[i]);
      d := Or(d, pk[i]);
    }
    zero := d == 0;
  }

  lemma RejectedEarly<T(!new)>(c: Curve<T>, B: T, sig: seq<byte>, m: seq<byte>, pk: seq<byte>, prehashed: bool)
    requires |sig| == 64 && |pk| == 32
    requires LeVal(sig[32..]) >= Scalar.L || LeVal(sig[..32]) in SmallOrderValues()
    ensures !Accepts(c, B, sig, m, pk, prehashed)
  {
    hide LeVal, SmallOrderValues, Decodes, Balanced;
  }

  lemma NoPoint<T(!new)>(c: Curve<T>, B: T, sig: seq<byte>, m: seq<byte>, pk: seq<byte>, prehashed: bool)
    requires |sig| == 64 && |pk| == 32 && IsEdwards(c) && !(exists x :: OnCurve(x, YOf(pk), D, Field25519.P))
    ensures !Accepts(c, B, sig, m, pk, prehashed)
  {
    hide LeVal, SmallOrderValues, DecodesTo, Balanced, IsEdwards, OnCurve, YOf;
    forall A | Decodes(c, pk, A)
      ensures false
    {
      DecodedIsOnCurve(c, YOf(pk), SignOf(pk), A);
    }
  }

  /** With the one point the key stands for, acceptance is a conjunction. */
  lemma AcceptsWith<T(!new)>(c: Curve<T>, B: T, sig: seq<byte>, m: seq<byte>, pk: seq<byte>, prehashed: bool, A: T)
    requires |sig| == 64 && |pk| == 32 && IsEdwards(c) && AllPoints(c) && Decodes(c, pk, A)
    ensures Accepts(c, B, sig, m, pk, prehashed)
            <==> LeVal(sig[32..]) < Scalar.L && LeVal(sig[..32]) !in SmallOrderValues() && !AllZero(pk)
                 && Balanced(c, B, A, sig, m, pk, prehashed)
  {
    hide LeVal, SmallOrderValues, Decodes, Balanced, IsEdwards, AllPoints, AllZero;
    forall A' | Decodes(c, pk, A')
      ensures A' == A
    {
      OnePoint(c, pk, A, A');
    }
  }

  lemma BalancedIs<T(!new)>(c: Curve<T>, B: T, A: T, sig: seq<byte>, m: seq<byte>, pk: seq<byte>, prehashed: bool,
                            k: nat, rcheck: seq<byte>)
    requires |sig| == 64 && |rcheck| == 32 && k == LeVal(Digest(Dom2(prehashed) + sig[..32] + pk + m)) % Scalar.L
    requires LeVal(rcheck) == EncodedVal(c, Combination(c.group, k, c.group.neg(A), LeVal(sig[32..]), B))
    ensures Balanced(c, B, A, sig, m, pk, prehashed) <==> rcheck == sig[..32]
  {
    hide LeVal, EncodedVal, Combination, Digest, Dom2;
    if LeVal(rcheck) == LeVal(sig[..32]) {
      LeInjective(rcheck, sig[..32]);
    }
  }

  // ---------------------------------------------------------------------
  // The equation.

  /** h (-(a B)) + ((h a + r) mod L) B = r B when L B = 0. */
  lemma EquationHolds<T(!new)>(g: Group<T>, B: T, h: nat, a: nat, r: nat)
    requires Abelian(g) && Mul(g, Scalar.L, B) == g.zero
    ensures Combination(g, h, g.neg(Mul(g, a, B)), (h * a + r) % Scalar.L, B) == Mul(g, r, B)
  {
    hide Abelian, Mul;
    var n, A := h * a + r, Mul(g, a, B);
    MulNeg(g, h, A);
    MulMul(g, h, a, B);
    MulNeg(g, h * a, B);
    Reduced(g, B, n);
    MulAdd(g, -(h * a), n, B);
  }

  /** Multiples of a point of order L depend on the factor modulo L only. */
  lemma Reduced<T(!new)>(g: Group<T>, B: T, n: nat)
    requires Abelian(g) && Mul(g, Scalar.L, B) == g.zero
    ensures Mul(g, n % Scalar.L, B) == Mul(g, n, B)
  {
    hide Abelian, Mul;
    var q := n / Scalar.L;
    MulMul(g, q, Scalar.L, B);
    MulZero(g, q);
    MulAdd(g, q * Scalar.L, n % Scalar.L, B);
    Neutral(g, Mul(g, n % Scalar.L, B));
  }

  /** A nonce that is zero gives the identity, which is on the list. */
  lemma ZeroNonceIsRejected<T(!new)>(c: Curve<T>, B: T, sig: seq<byte>, m: seq<byte>, pk: seq<byte>, prehashed: bool)
    requires IsEdwards(c) && |sig| == 64 && |pk| == 32 && LeVal(sig[..32]) == EncodedVal(c, Mul(c.group, 0, B))
    ensures !Accepts(c, B, sig, m, pk, prehashed)
  {
    hide LeVal, Decodes, Balanced, Abelian, Fermat, Laws;
    MulSmall(c.group, B);
    assert Listed(1) == 1;
  }

  // ---------------------------------------------------------------------
  // The check on S leaves one S for each R.

  ghost predicate HasOrderL<T>(g: Group<T>, B: T)
  {
    Mul(g, Scalar.L, B) == g.zero && forall n :: 0 < n < Scalar.L ==> Mul(g, n, B) != g.zero
  }

  lemma SmallerMultiple<T(!new)>(g: Group<T>, B: T, m: nat, n: nat)
    requires Abelian(g) && HasOrderL(g, B) && m < n < Scalar.L
    ensures Mul(g, m, B) != Mul(g, n, B)
  {
    hide Abelian, Mul;
    MulAdd(g, n - m, m, B);
    Neutral(g, Mul(g, m, B));
    if Mul(g, m, B) == Mul(g, n, B) {
      Cancel(g, Mul(g, n - m, B), g.zero, Mul(g, m, B));
    }
  }

  /** Equal encodings are encodings of one point. */
  lemma EncodingInjective<T(!new)>(c: Curve<T>, s: seq<byte>, a: T, b: T)
    requires IsEdwards(c) && AllPoints(c) && |s| == 32 && LeVal(s) == EncodedVal(c, a) == EncodedVal(c, b)
    ensures a == b
  {
    hide LeVal, EncodedVal, IsEdwards, AllPoints, Decodes;
    EncodingDecodes(c, a, s);
    EncodingDecodes(c, b, s);
    OnePoint(c, s, a, b);
  }

  lemma SameScalar<T(!new)>(g: Group<T>, X: T, B: T, m: nat, n: nat)
    requires Abelian(g) && HasOrderL(g, B) && m < Scalar.L && n < Scalar.L
    requires g.add(X, Mul(g, m, B)) == g.add(X, Mul(g, n, B))
    ensures m == n
  {
    hide Abelian, Mul, HasOrderL;
    Commutative(g, X, Mul(g, m, B));
    Commutative(g, X, Mul(g, n, B));
    Cancel(g, Mul(g, m, B), Mul(g, n, B), X);
    if m < n {
      SmallerMultiple(g, B, m, n);
    } else if n < m {
      SmallerMultiple(g, B, n, m);
    }
  }

  /** Two accepted signatures of one message under one key that share R are the same string. */
  lemma OneSignature<T(!new)>(c: Curve<T>, B: T, sig: seq<byte>, sig': seq<byte>, m: seq<byte>, pk: seq<byte>,
                              prehashed: bool)
    requires IsEdwards(c) && AllPoints(c) && HasOrderL(c.group, B)
    requires |sig| == 64 && |sig'| == 64 && |pk| == 32 && sig[..32] == sig'[..32]
    requires Accepts(c, B, sig, m, pk, prehashed) && Accepts(c, B, sig', m, pk, prehashed)
    ensures sig == sig'
  {
    hide LeVal, IsEdwards, AllPoints, HasOrderL, Mul, EncodedVal, Challenge, SmallOrderValues, Decodes, Balanced;
    var A :| Decodes(c, pk, A) && Balanced(c, B, A, sig, m, pk, prehashed);
    AcceptsWith(c, B, sig', m, pk, prehashed, A);
    SameS(c, B, A, sig, sig', m, pk, prehashed);
    LeInjective(sig[32..], sig'[32..]);
    assert sig == sig[..32] + sig[32..] && sig' == sig'[..32] + sig'[32..];
  }

  lemma SameS<T(!new)>(c: Curve<T>, B: T, A: T, sig: seq<byte>, sig': seq<byte>, m: seq<byte>, pk: seq<byte>,
                       prehashed: bool)
    requires IsEdwards(c) && AllPoints(c) && HasOrderL(c.group, B)
    requires |sig| == 64 && |sig'| == 64 && sig[..32] == sig'[..32]
    requires LeVal(sig[32..]) < Scalar.L && LeVal(sig'[32..]) < Scalar.L
    requires Balanced(c, B, A, sig, m, pk, prehashed) && Balanced(c, B, A, sig', m, pk, prehashed)
    ensures LeVal(sig[32..]) == LeVal(sig'[32..])
  {
    hide LeVal, IsEdwards, AllPoints, HasOrderL, Mul, EncodedVal, Challenge, Combination;
    var g, h := c.group, Challenge(sig[..32], pk, m, prehashed);
    var n, n' := LeVal(sig[32..]), LeVal(sig'[32..]);
    EncodingInjective(c, sig[..32], Combination(g, h, g.neg(A), n, B), Combination(g, h, g.neg(A), n', B));
    CombinationIs(g, h, g.neg(A), n, B);
    CombinationIs(g, h, g.neg(A), n', B);
    AbelianCurve(c);
    SameScalar(g, Mul(g, h, g.neg(A)), B, n, n');
  }

  lemma CombinationIs<T>(g: Group<T>, m: int, A: T, n: int, B: T)
    ensures Combination(g, m, A, n, B) == g.add(Mul(g, m, A), Mul(g, n, B))
  {
  }

  // ---------------------------------------------------------------------
  // Verification and section 5.1.7 of RFC 8032.

  /**
   Section 5.1.7, with the equation without the cofactor and the challenge reduced
   modulo L: S below L, strict decodings A of the key and R of the first half, and
   S B = R + h A.
   */
  ghost predicate RfcAccepts<T(!new)>(c: Curve<T>, B: T, sig: seq<byte>, m: seq<byte>, pk: seq<byte>, prehashed: bool)
    requires |sig| == 64 && |pk| == 32
  {
    && LeVal(sig[32..]) < Scalar.L
    && exists A, R ::
         && StrictlyDecodes(c, pk, A) && StrictlyDecodes(c, sig[..32], R)
         && Equation(c.group, B, A, R, Challenge(sig[..32], pk, m, prehashed), LeVal(sig[32..]))
  }

  ghost predicate Equation<T>(g: Group<T>, B: T, A: T, R: T, h: nat, s: nat)
  {
    Mul(g, s, B) == g.add(R, Mul(g, h, A))
  }

  /** The equation has one solution R, and it is h (-A) + s B. */
  lemma EquationSolved<T(!new)>(g: Group<T>, B: T, A: T, R: T, h: nat, s: nat)
    requires Abelian(g)
    ensures Equation(g, B, A, R, h, s) <==> R == Combination(g, h, g.neg(A), s, B)
  {
    hide Abelian, Mul;
    var x, y := Mul(g, h, A), Mul(g, s, B);
    MulNeg(g, h, A);
    var z := g.add(g.neg(x), y);
    assert g.add(z, x) == y by {
      Commutative(g, g.neg(x), y);
      Associative(g, y, g.neg(x), x);
      Inverse(g, x);
      Neutral(g, y);
    }
    if Equation(g, B, A, R, h, s) {
      Cancel(g, R, z, x);
    }
  }

  /** Comparing bytes with the computed point is decoding R strictly and testing the equation. */
  lemma BalancedIsEquation<T(!new)>(c: Curve<T>, B: T, A: T, sig: seq<byte>, m: seq<byte>, pk: seq<byte>,
                                    prehashed: bool)
    requires IsEdwards(c) && |sig| == 64
    ensures Balanced(c, B, A, sig, m, pk, prehashed)
            <==> exists R :: && StrictlyDecodes(c, sig[..32], R)
                             && Equation(c.group, B, A, R, Challenge(sig[..32], pk, m, prehashed), LeVal(sig[32..]))
  {
    hide LeVal, IsEdwards, EncodedVal, Challenge, Combination, StrictlyDecodes, Equation;
    var h, s := Challenge(sig[..32], pk, m, prehashed), LeVal(sig[32..]);
    var R0 := Combination(c.group, h, c.group.neg(A), s, B);
    AbelianCurve(c);
    StrictIsEncoding(c, sig[..32], R0);
    EquationSolved(c.group, B, A, R0, h, s);
    if R :| StrictlyDecodes(c, sig[..32], R) && Equation(c.group, B, A, R, h, s) {
      EquationSolved(c.group, B, A, R, h, s);
    }
  }

  /**
   On canonical keys verification accepts what section 5.1.7 accepts, short of the
   listed R and the zero key; the keys that are not canonical are the only others.
   */
  lemma VerifyAndRfc<T(!new)>(c: Curve<T>, B: T, sig: seq<byte>, m: seq<byte>, pk: seq<byte>, prehashed: bool)
    requires IsEdwards(c) && |sig| == 64 && |pk| == 32
    ensures Accepts(c, B, sig, m, pk, prehashed) && CanonicalKey(pk)
            <==> RfcAccepts(c, B, sig, m, pk, prehashed) && LeVal(sig[..32]) !in SmallOrderValues() && !AllZero(pk)
  {
    hide LeVal, IsEdwards, Decodes, StrictlyDecodes, CanonicalKey, Balanced, Equation, Challenge, SmallOrderValues,
         AllZero;
    forall A
      ensures StrictlyDecodes(c, pk, A) <==> Decodes(c, pk, A) && CanonicalKey(pk)
    {
      DecodingsAgree(c, pk, A);
    }
    forall A
      ensures Balanced(c, B, A, sig, m, pk, prehashed)
              <==> exists R :: StrictlyDecodes(c, sig[..32], R)
                               && Equation(c.group, B, A, R, Challenge(sig[..32], pk, m, prehashed), LeVal(sig[32..]))
    {
      BalancedIsEquation(c, B, A, sig, m, pk, prehashed);
    }
  }

  /**
   The key p + 1 stands for the identity to the source, for which any S with its R passes;
   section 5.1.3 refuses it.
   */
  lemma LooseKeyIsAccepted<T(!new)>(c: Curve<T>, B: T, sig: seq<byte>, m: seq<byte>, pk: seq<byte>, prehashed: bool)
    requires IsEdwards(c) && |sig| == 64 && |pk| == 32 && LeVal(pk) == Field25519.P + 1
    requires LeVal(sig[32..]) < Scalar.L && LeVal(sig[..32]) !in SmallOrderValues()
    requires LeVal(sig[..32]) == EncodedVal(c, Mul(c.group, LeVal(sig[32..]), B))
    ensures Accepts(c, B, sig, m, pk, prehashed) && !CanonicalKey(pk) && !RfcAccepts(c, B, sig, m, pk, prehashed)
  {
    hide LeVal, Abelian, Fermat, Laws, Mul, EncodedVal, Challenge, SmallOrderValues, Decodes, StrictlyDecodes, Equation,
         AllZero, RfcAccepts, Modular.Cong;
    var O, h, s := c.group.zero, Challenge(sig[..32], pk, m, prehashed), LeVal(sig[32..]);
    LooseKey(c, pk);
    NotAllZero(pk);
    NegZero(c.group);
    MulZero(c.group, h);
    Neutral(c.group, Mul(c.group, s, B));
    assert Balanced(c, B, O, sig, m, pk, prehashed);
    VerifyAndRfc(c, B, sig, m, pk, prehashed);
  }

  lemma LooseKey<T(!new)>(c: Curve<T>, pk: seq<byte>)
    requires IsEdwards(c) && |pk| == 32 && LeVal(pk) == Field25519.P + 1
    ensures Decodes(c, pk, c.group.zero) && !CanonicalKey(pk)
  {
    hide LeVal, Abelian, Fermat, Laws, Modular.Cong;
    FieldBytes.Remainder(LeVal(pk), 0, Field25519.P + 1);
    Modular.CongBy(Field25519.P + 1, 1, 1, Field25519.P);
    Modular.CongSym(Field25519.P + 1, 1, Field25519.P);
  }

  lemma {:induction false} NotAllZero(s: seq<byte>)
    requires LeVal(s) != 0
    ensures !AllZero(s)
  {
    if AllZero(s) {
      assert s[0] == 0;
      NotAllZero(s[1..]);
    }
  }

  // ---------------------------------------------------------------------
  // Signing and verifying fit together.

  /**
   A signature made with a key pair is accepted exactly when the public key is not
   the all-zero string and R is not on the small-order list.
   */
  lemma SignedIsAccepted<T(!new)>(c: Curve<T>, B: T, m: seq<byte>, sk: seq<byte>, prehashed: bool, sig: seq<byte>)
    requires IsEdwards(c) && AllPoints(c) && Mul(c.group, Scalar.L, B) == c.group.zero
    requires |sk| == 64 && |sig| == 64 && LeVal(sk[32..]) == EncodedVal(c, Mul(c.group, SecretScalar(sk[..32]), B))
    requires Signed(c, B, m, sk, prehashed, sig)
    ensures Accepts(c, B, sig, m, sk[32..], prehashed)
            <==> !AllZero(sk[32..]) && LeVal(sig[..32]) !in SmallOrderValues()
  {
    hide LeVal, IsEdwards, AllPoints, Mul, EncodedVal, SecretScalar, Nonce, Challenge, SmallOrderValues, Accepts,
         Decodes, Combination;
    var pk, a, r := sk[32..], SecretScalar(sk[..32]), Nonce(sk[..32], m, prehashed);
    var A, h := Mul(c.group, a, B), Challenge(sig[..32], pk, m, prehashed);
    EncodingDecodes(c, A, pk);
    AcceptsWith(c, B, sig, m, pk, prehashed, A);
    AbelianCurve(c);
    EquationHolds(c.group, B, h, a, r);
  }
}
