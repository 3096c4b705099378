/** fe_invert and fe_pow22523: fixed addition chains of squarings and products. */
module FieldPow {
  import opened Bits
  import opened Bytes
  import opened Field25519
  import opened Modular

  /** h holds z^e modulo p, in multiplication's output bounds. */
  ghost predicate IsPow(h: Fe, z: int, e: nat)
  {
    Tight(h) && Cong(Val(h), Pow(z, e), P)
  }

  lemma PowersMultiply(f: int, g: int, h: int, z: int, e: nat, k: nat)
    requires Cong(f, Pow(z, e), P) && Cong(g, Pow(z, k), P) && Cong(h, f * g, P)
    ensures Cong(h, Pow(z, e + k), P)
  {
    hide Pow, Cong;
    CongMul(f, Pow(z, e), g, Pow(z, k), P);
    PowAdd(z, e, k);
    CongTrans(h, f * g, Pow(z, e) * Pow(z, k), P);
  }

  /** fe_mul of two powers. */
  method MulPow(f: Fe, g: Fe, ghost z: int, ghost e: nat, ghost k: nat) returns (h: Fe)
    requires IsPow(f, z, e) && IsPow(g, z, k)
    ensures IsPow(h, z, e + k)
  {
    hide Val, Pow, Tight, Loose, Fits, Cong;
    LooseFromTight(f);
    LooseFromTight(g);
    h := FeMul(f, g);
    PowersMultiply(Val(f), Val(g), Val(h), z, e, k);
  }

  /** fe_sq of a power. */
  method SqPow(f: Fe, ghost z: int, ghost e: nat) returns (h: Fe)
    requires IsPow(f, z, e)
    ensures IsPow(h, z, 2 * e)
  {
    hide Val, Pow, Tight, Loose, Fits, Cong;
    LooseFromTight(f);
    h := FeSq(f);
    PowersMultiply(Val(f), Val(f), Val(h), z, e, e);
  }

  /** e * 2^n: the exponent after n squarings. */
  function Doubled(e: nat, n: nat): nat
  {
    MulMono(e, 0, Pow2(n));
    e * Pow2(n)
  }

  lemma DoubledOnce(e: nat, n: nat)
    ensures Doubled(e, 0) == e && 2 * Doubled(e, n) == Doubled(e, n + 1)
  {
    assert 2 * (e * Pow2(n)) == e * (2 * Pow2(n));
  }

  /** One squaring, then a loop of n - 1 more. */
  method SqTimes(f: Fe, n: nat, ghost z: int, ghost e: nat) returns (h: Fe)
    requires n >= 1
    requires IsPow(f, z, e)
    ensures IsPow(h, z, Doubled(e, n))
  {
    hide IsPow, Doubled;
    h := SqPow(f, z, e);
    DoubledOnce(e, 0);
    for i := 1 to n
      invariant IsPow(h, z, Doubled(e, i))
    {
      h := SqPow(h, z, Doubled(e, i));
      DoubledOnce(e, i);
    }
  }

  /** From z^(2^a - 1) and z^(2^b - 1) to z^(2^(a+b) - 1): b squarings and a product. */
  method Repunit(f: Fe, g: Fe, a: nat, b: nat, ghost z: int) returns (h: Fe)
    requires b >= 1
    requires IsPow(f, z, Pow2(a) - 1) && IsPow(g, z, Pow2(b) - 1)
    ensures IsPow(h, z, Pow2(a + b) - 1)
  {
    hide IsPow;
    var t := SqTimes(f, b, z, Pow2(a) - 1);
    h := MulPow(t, g, z, Doubled(Pow2(a) - 1, b), Pow2(b) - 1);
    Pow2Add(a, b);
    assert (Pow2(a) - 1) * Pow2(b) == Pow2(a) * Pow2(b) - Pow2(b);
  }

  /** The common start: z^11 and z^(2^250 - 1). */
  method Prefix(f: Fe) returns (t0: Fe, t1: Fe)
    requires Loose(f)
    ensures IsPow(t0, Val(f), 11) && IsPow(t1, Val(f), Pow2(250) - 1)
  {
    ghost var z := Val(f);
    hide Val, Tight, IsPow, Pow2;
    var t2;
    t0, t1 := Start(f);
    t2 := SqPow(t0, z, 11);
    t1 := MulPow(t1, t2, z, 9, 22);
    SmallPowers();
    t1 := Repunit(t1, t1, 5, 5, z);
    t2 := Repunit(t1, t1, 10, 10, z);
    t2 := Repunit(t2, t2, 20, 20, z);
    t1 := Repunit(t2, t1, 40, 10, z);
    t2 := Repunit(t1, t1, 50, 50, z);
    t2 := Repunit(t2, t2, 100, 100, z);
    t1 := Repunit(t2, t1, 200, 50, z);
  }

  /** z^11 and z^9 from the first five operations. */
  method Start(f: Fe) returns (t0: Fe, t1: Fe)
    requires Loose(f)
    ensures IsPow(t0, Val(f), 11) && IsPow(t1, Val(f), 9)
  {
    ghost var z := Val(f);
    hide Val, Tight, Loose, Cong;
    FirstPower(z);
    t0 := FeSq(f);
    PowersMultiply(Val(f), Val(f), Val(t0), z, 1, 1);
    LooseFromTight(t0);
    t1 := SqPow(t0, z, 2);
    t1 := SqPow(t1, z, 4);
    LooseFromTight(t1);
    var t := FeMul(f, t1);
    PowersMultiply(Val(f), Val(t1), Val(t), z, 1, 8);
    t1 := t;
    t0 := MulPow(t0, t1, z, 2, 9);
  }

  lemma FirstPower(z: int)
    ensures Cong(z, Pow(z, 1), P)
  {
  }

  /** fe_invert: z^(2^255 - 21) = z^(p - 2). */
  method FeInvert(f: Fe) returns (h: Fe)
    requires Loose(f)
    ensures IsPow(h, Val(f), P - 2)
  {
    ghost var z := Val(f);
    hide Val, Tight, IsPow, Pow2, Doubled;
    var t0, t1 := Prefix(f);
    t1 := SqTimes(t1, 5, z, Pow2(250) - 1);
    h := MulPow(t1, t0, z, Doubled(Pow2(250) - 1, 5), 11);
    ExponentInvert();
  }

  /** fe_pow22523: z^(2^252 - 3) = z^((p - 5) / 8). */
  method FePow22523(f: Fe) returns (h: Fe)
    requires Loose(f)
    ensures IsPow(h, Val(f), (P - 5) / 8)
  {
    ghost var z := Val(f);
    hide Val, Tight, Loose, Pow2, Cong, Pow;
    var _, t := Prefix(f);
    t := SqPow(t, z, Pow2(250) - 1);
    t := SqPow(t, z, 2 * (Pow2(250) - 1));
    LooseFromTight(t);
    h := FeMul(t, f);
    FirstPower(z);
    PowersMultiply(Val(t), Val(f), Val(h), z, 4 * (Pow2(250) - 1), 1);
    ExponentInvert();
  }

  lemma ExponentInvert()
    ensures Doubled(Pow2(250) - 1, 5) + 11 == P - 2 && 4 * (Pow2(250) - 1) + 1 == (P - 5) / 8
  {
    hide Pow2;
    Pow2Of8();
    SmallPowers();
    Pow2Add(8, 8);
    Pow2Add(16, 16);
    Pow2Add(32, 32);
    Pow2Add(64, 64);
    Pow2Add(128, 64);
    Pow2Add(192, 32);
    Pow2Add(224, 16);
    Pow2Add(240, 8);
    Pow2Add(248, 2);
  }
}
