/** ge_select, ge_scalarmult_base and ge_double_scalarmult_vartime. */
module ScalarMult {
  import opened Bits
  import opened Bytes
  import opened Compare
  import opened CurveAlgebra
  import opened Edwards
  import opened Field25519
  import opened Groups
  import opened Modular
  import opened Residues
  import opened Recode

  // ---------------------------------------------------------------------
  // Branch-free selection.

  function Unsigned32(x: int): nat { x % 0x1_0000_0000 }

  function Signed32(u: nat): int { if u < 0x8000_0000 then u else u - 0x1_0000_0000 }

  lemma Pow2Of32()
    ensures Pow2(32) == 0x1_0000_0000
  {
    hide Pow2;
    Pow2Of8();
    Pow2Add(8, 8);
    Pow2Add(16, 16);
  }

  /** f ^ ((f ^ g) & -b), on 32-bit words: g when b is 1, f when b is 0. */
  function CmovLimb(f: int, g: int, b: int): (r: int)
    requires Int32(f) && Int32(g) && (b == 0 || b == 1)
    ensures r == if b == 1 then g else f
  {
    hide Xor, And;
    CmovBits(Unsigned32(f), Unsigned32(g));
    Signed32(Xor(Unsigned32(f), And(Xor(Unsigned32(f), Unsigned32(g)), Unsigned32(-b))))
  }

  lemma CmovBits(x: nat, y: nat)
    requires x < 0x1_0000_0000 && y < 0x1_0000_0000
    ensures Xor(x, And(Xor(x, y), 0)) == x && Xor(x, And(Xor(x, y), 0xffff_ffff)) == y
  {
    hide Xor, And, Pow2;
    Pow2Of32();
    OrXorBelow(x, y, 32);
    AndMask(Xor(x, y), 32);
    AndZero(Xor(x, y));
    XorZero(x);
    XorSelf(x, y);
  }

  predicate Int32Limbs(f: Fe)
  {
    && Int32(f.l0) && Int32(f.l1) && Int32(f.l2) && Int32(f.l3) && Int32(f.l4)
    && Int32(f.l5) && Int32(f.l6) && Int32(f.l7) && Int32(f.l8) && Int32(f.l9)
  }

  /** fe_cmov. */
  function FeCmov(f: Fe, g: Fe, b: int): (r: Fe)
    requires Int32Limbs(f) && Int32Limbs(g) && (b == 0 || b == 1)
    ensures r == if b == 1 then g else f
  {
    Fe(CmovLimb(f.l0, g.l0, b), CmovLimb(f.l1, g.l1, b), CmovLimb(f.l2, g.l2, b), CmovLimb(f.l3, g.l3, b),
       CmovLimb(f.l4, g.l4, b), CmovLimb(f.l5, g.l5, b), CmovLimb(f.l6, g.l6, b), CmovLimb(f.l7, g.l7, b),
       CmovLimb(f.l8, g.l8, b), CmovLimb(f.l9, g.l9, b))
  }

  predicate TightPrecomp(t: GePrecomp) { Tight(t.yplusx) && Tight(t.yminusx) && Tight(t.xy2d) }

  /** cmov on a table entry. */
  function Cmov(t: GePrecomp, u: GePrecomp, b: int): (r: GePrecomp)
    requires TightPrecomp(t) && TightPrecomp(u) && (b == 0 || b == 1)
    ensures r == if b == 1 then u else t
  {
    GePrecomp(FeCmov(t.yplusx, u.yplusx, b), FeCmov(t.yminusx, u.yminusx, b), FeCmov(t.xy2d, u.xy2d, b))
  }

  /** equal: subtracting one from the difference of two bytes borrows into bit 31 exactly when it is zero. */
  function Equal(x: byte, y: byte): (r: int)
    ensures r == if x == y then 1 else 0
  {
    hide Xor;
    Pow2Of8();
    OrXorBelow(x, y, 8);
    XorIsZero(x, y);
    BorrowBit(Xor(x, y));
    (Xor(x, y) - 1) % 0x1_0000_0000 / 0x8000_0000
  }

  lemma BorrowBit(d: nat)
    requires d < 256
    ensures (d - 1) % 0x1_0000_0000 / 0x8000_0000 == if d == 0 then 1 else 0
  {
    if d == 0 {
      assert (d - 1) % 0x1_0000_0000 == 0xffff_ffff;
    } else {
      assert (d - 1) % 0x1_0000_0000 == d - 1;
    }
  }

  /** negative: the sign bit of a signed char widened to 64 bits. */
  function Negative(b: int): (r: int)
    requires -128 <= b < 128
    ensures r == if b < 0 then 1 else 0
  {
    b % 0x1_0000_0000_0000_0000 / 0x8000_0000_0000_0000
  }

  /** The absolute value of a digit, by masking: b - ((-negative & b) * 2). */
  function Magnitude(b: int): (r: byte)
    requires -8 <= b <= 8
    ensures r == if b < 0 then -b else b
  {
    hide And;
    MaskDigit(Unsigned32(b));
    (b - Signed32(And(Unsigned32(b), Unsigned32(-Negative(b)))) * 2) % 256
  }

  lemma MaskDigit(x: nat)
    requires x < 0x1_0000_0000
    ensures And(x, 0xffff_ffff) == x && And(x, 0) == 0
  {
    hide And, Pow2;
    Pow2Of32();
    AndMask(x, 32);
    AndZero(x);
  }

  const PrecompZero := GePrecomp(One, One, Zero)

  /** base[i][j] represents (j + 1) 256^i B. */
  ghost predicate BaseTable<T>(c: Curve<T>, base: seq<seq<GePrecomp>>, B: T)
  {
    && |base| == 32
    && (forall i :: 0 <= i < 32 ==> |base[i]| == 8)
    && (forall i, j :: 0 <= i < 32 && 0 <= j < 8 ==> RepPrecomp(c, base[i][j], Mul(c.group, (j + 1) * Pow256(i), B)))
  }

  /** The eight conditional moves pick the entry of the digit's absolute value. */
  method Pick(row: seq<GePrecomp>, babs: byte) returns (t: GePrecomp)
    requires |row| == 8 && babs <= 8 && forall j :: 0 <= j < 8 ==> TightPrecomp(row[j])
    ensures t == if babs == 0 then PrecompZero else row[babs - 1]
  {
    hide Tight, Cmov, Equal;
    assert TightPrecomp(PrecompZero) by { ConstantsTight(); }
    t := PrecompZero;
    t := Cmov(t, row[0], Equal(babs, 1));
    t := Cmov(t, row[1], Equal(babs, 2));
    t := Cmov(t, row[2], Equal(babs, 3));
    t := Cmov(t, row[3], Equal(babs, 4));
    t := Cmov(t, row[4], Equal(babs, 5));
    t := Cmov(t, row[5], Equal(babs, 6));
    t := Cmov(t, row[6], Equal(babs, 7));
    t := Cmov(t, row[7], Equal(babs, 8));
  }

  lemma ConstantsTight()
    ensures Tight(One) && Tight(Zero) && Val(One) == 1 && Val(Zero) == 0
  {
    hide Val;
    ValIs(One);
    ValIs(Zero);
  }

  lemma ZeroAddend<T(!new)>(c: Curve<T>)
    requires IsEdwards(c)
    ensures RepPrecomp(c, PrecompZero, c.group.zero)
  {
    hide Val, Tight, Abelian, Fermat, Laws, Cong;
    ConstantsTight();
    TwoIsNotZero();
    CongReflexive(1, P);
    CongReflexive(0, P);
  }

  /** ge_select: the table entry of a signed digit. */
  method GeSelect<T(!new)>(base: seq<seq<GePrecomp>>, pos: nat, b: int, ghost c: Curve<T>, ghost B: T)
    returns (t: GePrecomp)
    requires IsEdwards(c) && BaseTable(c, base, B) && pos < 32 && -8 <= b <= 8
    ensures RepPrecomp(c, t, Mul(c.group, b * Pow256(pos), B))
  {
    hide Val, Tight, IsEdwards, Mul, Pow256, Cmov, FeCmov, Addend, Magnitude, Negative;
    forall j | 0 <= j < 8
      ensures TightPrecomp(base[pos][j])
    {
      assert RepPrecomp(c, base[pos][j], Mul(c.group, (j + 1) * Pow256(pos), B));
    }
    var babs := Magnitude(b);
    t := Pick(base[pos], babs);
    ghost var n := babs as int * Pow256(pos);
    assert RepPrecomp(c, t, Mul(c.group, n, B)) by {
      if babs == 0 {
        ZeroAddend(c);
        AbelianCurve(c);
        MulSmall(c.group, B);
      } else {
        assert RepPrecomp(c, base[pos][babs - 1], Mul(c.group, (babs - 1 + 1) * Pow256(pos), B));
      }
    }
    LooseFromTight(t.xy2d);
    var minust := GePrecomp(t.yminusx, t.yplusx, FeNeg(t.xy2d));
    NegPrecomp(c, t, minust, n, B);
    assert b < 0 ==> b * Pow256(pos) == -n;
    t := Cmov(t, minust, Negative(b));
  }

  lemma AbelianCurve<T(!new)>(c: Curve<T>)
    requires IsEdwards(c)
    ensures Abelian(c.group) && Fermat(P)
  {
  }

  lemma NegPrecomp<T(!new)>(c: Curve<T>, t: GePrecomp, u: GePrecomp, n: int, B: T)
    requires IsEdwards(c) && RepPrecomp(c, t, Mul(c.group, n, B))
    requires u.yplusx == t.yminusx && u.yminusx == t.yplusx && Tight(u.xy2d) && Val(u.xy2d) == -Val(t.xy2d)
    ensures RepPrecomp(c, u, Mul(c.group, -n, B))
  {
    hide Val, Tight, Abelian, Fermat, AddLaw, OnCurve, Mul, Cong, Addend;
    MulNeg(c.group, n, B);
    ghost var a, b := Mul(c.group, n, B), Mul(c.group, -n, B);
    LawsAt(c, a, a);
    NegAddend(c.x(a), c.y(a), c.x(b), c.y(b), 1, Val(t.yplusx), Val(t.yminusx), Val(t.xy2d), D, P);
  }

  // ---------------------------------------------------------------------
  // ge_scalarmult_base

  /** The digits at positions off, off + 2, ... with weights 1, 256, ... */
  function Strided(s: seq<int>, off: nat, n: nat): int
    requires off <= 1 && 2 * n <= |s|
  {
    if n == 0 then 0 else Strided(s, off, n - 1) + s[2 * (n - 1) + off] * Pow256(n - 1)
  }

  lemma {:induction false} HexSplit(s: seq<int>, i: nat)
    requires i <= |s|
    ensures HexVal(s) == HexVal(s[..i]) + Pow16(i) * HexVal(s[i..])
  {
    if i == 0 {
      assert s[0..] == s;
    } else {
      assert s[..i][1..] == s[1..][..i - 1] && s[1..][i - 1..] == s[i..];
      HexSplit(s[1..], i - 1);
      var p, v := Pow16(i - 1), HexVal(s[i..]);
      assert 16 * (p * v) == (16 * p) * v;
    }
  }

  /** Even positions plus sixteen times odd positions. */
  lemma {:induction false} EvenAndOdd(s: seq<int>, n: nat)
    requires 2 * n <= |s|
    ensures HexVal(s[..2 * n]) == Strided(s, 0, n) + 16 * Strided(s, 1, n) && Pow16(2 * n) == Pow256(n)
  {
    if n > 0 {
      EvenAndOdd(s, n - 1);
      var k := 2 * (n - 1);
      var t := s[..2 * n];
      HexSplit(t, k);
      assert t[..k] == s[..k] && t[k..] == [s[k], s[k + 1]];
      TwoDigits(s[k], s[k + 1]);
      assert Pow16(2 * n) == 16 * Pow16(2 * n - 1);
      var p := Pow256(n - 1);
      assert p * (s[k] + 16 * s[k + 1]) == s[k] * p + 16 * (s[k + 1] * p);
    }
  }

  lemma TwoDigits(x: int, y: int)
    ensures HexVal([x, y]) == x + 16 * y
  {
    assert [x, y][1..] == [y] && [y][1..] == [];
    assert HexVal([y]) == y;
  }

  const P3Zero := GeP3(Zero, One, One, Zero)

  lemma P3ZeroRep<T(!new)>(c: Curve<T>, B: T)
    requires IsEdwards(c)
    ensures Rep3(c, P3Zero, Mul(c.group, 0, B))
  {
    hide Val, Tight, Abelian, Fermat, Laws, Cong, Extended;
    ConstantsTight();
    TwoIsNotZero();
    MulSmall(c.group, B);
    CongReflexive(1, P);
    CongReflexive(0, P);
    ExtendedIs(0, 1, 0, 1, 1, 0, P);
  }

  /** One table addition: h + b 256^pos B. */
  method AddDigit<T(!new)>(h: GeP3, base: seq<seq<GePrecomp>>, pos: nat, b: int, ghost c: Curve<T>, ghost B: T,
                           ghost n: int)
    returns (h': GeP3)
    requires IsEdwards(c) && BaseTable(c, base, B) && pos < 32 && -8 <= b <= 8
    requires Rep3(c, h, Mul(c.group, n, B))
    ensures Rep3(c, h', Mul(c.group, n + b * Pow256(pos), B))
  {
    hide IsEdwards, BaseTable, Rep3, RepPrecomp, Rep11, Mul, Pow256;
    var t := GeSelect(base, pos, b, c, B);
    var r := GeMadd(h, t, c, Mul(c.group, n, B), Mul(c.group, b * Pow256(pos), B));
    AbelianCurve(c);
    MulAdd(c.group, n, b * Pow256(pos), B);
    h' := GeP1P1ToP3(r, c, Mul(c.group, n + b * Pow256(pos), B));
  }

  /** Four doublings, three of them through the projective form. */
  method SixteenTimes<T(!new)>(h: GeP3, ghost c: Curve<T>, ghost B: T, ghost n: int) returns (h': GeP3)
    requires IsEdwards(c) && Rep3(c, h, Mul(c.group, n, B))
    ensures Rep3(c, h', Mul(c.group, 16 * n, B))
  {
    hide IsEdwards, Rep3, Rep2, Rep11, Mul;
    AbelianCurve(c);
    MulDouble(c.group, n, B);
    MulDouble(c.group, 2 * n, B);
    MulDouble(c.group, 4 * n, B);
    MulDouble(c.group, 8 * n, B);
    var r := GeP3Dbl(h, c, Mul(c.group, n, B));
    var s := GeP1P1ToP2(r, c, Mul(c.group, 2 * n, B));
    r := GeP2Dbl(s, c, Mul(c.group, 2 * n, B));
    s := GeP1P1ToP2(r, c, Mul(c.group, 4 * n, B));
    r := GeP2Dbl(s, c, Mul(c.group, 4 * n, B));
    s := GeP1P1ToP2(r, c, Mul(c.group, 8 * n, B));
    r := GeP2Dbl(s, c, Mul(c.group, 8 * n, B));
    h' := GeP1P1ToP3(r, c, Mul(c.group, 16 * n, B));
  }

  /** A loop over every second digit: adds them with weights 1, 256, 256^2, ... */
  method AddPass<T(!new)>(h: GeP3, base: seq<seq<GePrecomp>>, e: seq<int>, off: nat, ghost c: Curve<T>, ghost B: T,
                          ghost n: int)
    returns (h': GeP3)
    requires IsEdwards(c) && BaseTable(c, base, B) && off <= 1
    requires |e| == 64 && (forall k :: 0 <= k < 64 ==> -8 <= e[k] <= 8) && Rep3(c, h, Mul(c.group, n, B))
    ensures Rep3(c, h', Mul(c.group, n + Strided(e, off, 32), B))
  {
    hide IsEdwards, BaseTable, Rep3, Mul, Pow256;
    h' := h;
    var i := off;
    while i < 64
      invariant off <= i <= 64 + off && i % 2 == off
      invariant Rep3(c, h', Mul(c.group, n + Strided(e, off, i / 2), B))
    {
      h' := AddDigit(h', base, i / 2, e[i], c, B, n + Strided(e, off, i / 2));
      assert i == 2 * (i / 2) + off && (i + 2) / 2 == i / 2 + 1;
      i := i + 2;
    }
  }

  /** ge_scalarmult_base: a B, for a below 2^255. */
  method GeScalarmultBase<T(!new)>(a: seq<byte>, base: seq<seq<GePrecomp>>, ghost c: Curve<T>, ghost B: T)
    returns (h: GeP3)
    requires IsEdwards(c) && BaseTable(c, base, B) && |a| == 32 && a[31] <= 127
    ensures Rep3(c, h, Mul(c.group, LeVal(a), B))
  {
    hide IsEdwards, BaseTable, Rep3, Mul, HexVal, LeVal, Strided, Pow256, Pow16;
    var e := new int[64];
    Radix16(e, a);
    var s := e[..];
    EvenAndOdd(s, 32);
    assert s[..64] == s;
    P3ZeroRep(c, B);
    h := AddPass(P3Zero, base, s, 1, c, B, 0);
    h := SixteenTimes(h, c, B, Strided(s, 1, 32));
    h := AddPass(h, base, s, 0, c, B, 16 * Strided(s, 1, 32));
  }

  // ---------------------------------------------------------------------
  // ge_double_scalarmult_vartime

  /** Entry k represents (2 k + 1) A. */
  ghost predicate OddMultiples<T>(c: Curve<T>, table: seq<GeCached>, A: T)
  {
    forall k :: 0 <= k < |table| ==> RepCached(c, table[k], Mul(c.group, 2 * k + 1, A))
  }

  ghost predicate OddTable<T>(c: Curve<T>, table: seq<GePrecomp>, B: T)
  {
    |table| == 8 && forall k :: 0 <= k < 8 ==> RepPrecomp(c, table[k], Mul(c.group, 2 * k + 1, B))
  }

  /** 2 A added to the last odd multiple. */
  method NextOdd<T(!new)>(A2: GeP3, table: seq<GeCached>, ghost c: Curve<T>, ghost A: T) returns (t: seq<GeCached>)
    requires IsEdwards(c) && |table| >= 1 && OddMultiples(c, table, A) && Rep3(c, A2, Mul(c.group, 2, A))
    ensures |t| == |table| + 1 && OddMultiples(c, t, A)
  {
    hide IsEdwards, Rep3, RepCached, Rep11, Mul;
    var k := |table| - 1;
    AbelianCurve(c);
    MulAdd(c.group, 2, 2 * k + 1, A);
    var r := GeAdd(A2, table[k], c, Mul(c.group, 2, A), Mul(c.group, 2 * k + 1, A));
    var u := GeP1P1ToP3(r, c, Mul(c.group, 2 * (k + 1) + 1, A));
    var q := GeP3ToCached(u, c, Mul(c.group, 2 * (k + 1) + 1, A));
    t := table + [q];
  }

  /** A, 3A, 5A, ..., 15A. */
  method OddMultiplesOf<T(!new)>(p: GeP3, ghost c: Curve<T>, ghost A: T) returns (t: seq<GeCached>)
    requires IsEdwards(c) && Rep3(c, p, A)
    ensures |t| == 8 && OddMultiples(c, t, A)
  {
    hide IsEdwards, Rep3, RepCached, Rep11, Mul;
    AbelianCurve(c);
    MulSmall(c.group, A);
    MulAdd(c.group, 1, 1, A);
    var q := GeP3ToCached(p, c, A);
    var r := GeP3Dbl(p, c, A);
    var A2 := GeP1P1ToP3(r, c, Mul(c.group, 2, A));
    t := [q];
    t := NextOdd(A2, t, c, A);
    t := NextOdd(A2, t, c, A);
    t := NextOdd(A2, t, c, A);
    t := NextOdd(A2, t, c, A);
    t := NextOdd(A2, t, c, A);
    t := NextOdd(A2, t, c, A);
    t := NextOdd(A2, t, c, A);
  }

  /** The middle of the main loop: adds or subtracts the odd multiple of A that a nonzero digit asks for. */
  method AddOddA<T(!new)>(t: GeP1P1, d: int, Ai: seq<GeCached>, ghost c: Curve<T>, ghost A: T, ghost v: T)
    returns (t': GeP1P1)
    requires IsEdwards(c) && |Ai| == 8 && OddMultiples(c, Ai, A) && Sparse(d) && Rep11(c, t, v)
    ensures Rep11(c, t', c.group.add(v, Mul(c.group, d, A)))
  {
    hide IsEdwards, Rep3, RepCached, Rep11, Mul, Abelian;
    AbelianCurve(c);
    t' := t;
    if d > 0 {
      var u := GeP1P1ToP3(t, c, v);
      t' := GeAdd(u, Ai[d / 2], c, v, Mul(c.group, 2 * (d / 2) + 1, A));
    } else if d < 0 {
      var u := GeP1P1ToP3(t, c, v);
      MulNeg(c.group, -d, A);
      t' := GeSub(u, Ai[(-d) / 2], c, v, Mul(c.group, 2 * ((-d) / 2) + 1, A));
    } else {
      MulSmall(c.group, A);
      Neutral(c.group, v);
    }
  }

  method AddOddB<T(!new)>(t: GeP1P1, d: int, Bi: seq<GePrecomp>, ghost c: Curve<T>, ghost B: T, ghost v: T)
    returns (t': GeP1P1)
    requires IsEdwards(c) && OddTable(c, Bi, B) && Sparse(d) && Rep11(c, t, v)
    ensures Rep11(c, t', c.group.add(v, Mul(c.group, d, B)))
  {
    hide IsEdwards, Rep3, RepPrecomp, Rep11, Mul, Abelian;
    AbelianCurve(c);
    t' := t;
    if d > 0 {
      var u := GeP1P1ToP3(t, c, v);
      t' := GeMadd(u, Bi[d / 2], c, v, Mul(c.group, 2 * (d / 2) + 1, B));
    } else if d < 0 {
      var u := GeP1P1ToP3(t, c, v);
      MulNeg(c.group, -d, B);
      t' := GeMsub(u, Bi[(-d) / 2], c, v, Mul(c.group, 2 * ((-d) / 2) + 1, B));
    } else {
      MulSmall(c.group, B);
      Neutral(c.group, v);
    }
  }

  /** m A + n B. */
  ghost function Combination<T>(g: Group<T>, m: int, A: T, n: int, B: T): T
  {
    g.add(Mul(g, m, A), Mul(g, n, B))
  }

  /** Doubling m A + n B and adding x A and y B gives (x + 2 m) A + (y + 2 n) B. */
  lemma CombinationStep<T(!new)>(g: Group<T>, m: int, A: T, n: int, B: T, x: int, y: int)
    requires Abelian(g)
    ensures var v := Combination(g, m, A, n, B);
            g.add(g.add(g.add(v, v), Mul(g, x, A)), Mul(g, y, B)) == Combination(g, x + 2 * m, A, y + 2 * n, B)
  {
    hide Abelian, Mul;
    var a, b, p, q := Mul(g, m, A), Mul(g, n, B), Mul(g, x, A), Mul(g, y, B);
    Interchange(g, a, b, a, b);
    MulDouble(g, m, A);
    MulDouble(g, n, B);
    var a2, b2 := Mul(g, 2 * m, A), Mul(g, 2 * n, B);
    Associative(g, g.add(a2, b2), p, q);
    Interchange(g, a2, b2, p, q);
    MulAdd(g, 2 * m, x, A);
    MulAdd(g, 2 * n, y, B);
  }

  const P2Zero := GeP2(Zero, One, One)

  lemma P2ZeroRep<T(!new)>(c: Curve<T>, A: T, B: T)
    requires IsEdwards(c)
    ensures Rep2(c, P2Zero, Combination(c.group, 0, A, 0, B))
  {
    hide Val, Tight, Abelian, Fermat, Laws, Cong, Projective;
    ConstantsTight();
    TwoIsNotZero();
    MulSmall(c.group, A);
    MulSmall(c.group, B);
    Neutral(c.group, c.group.zero);
    CongReflexive(1, P);
    CongReflexive(0, P);
    ProjectiveIs(0, 1, 0, 1, 1, P);
  }

  /** One iteration of the main loop. */
  method DoubleAndAdd<T(!new)>(r: GeP2, x: int, y: int, Ai: seq<GeCached>, Bi: seq<GePrecomp>,
                               ghost c: Curve<T>, ghost A: T, ghost B: T, ghost m: int, ghost n: int) returns (r': GeP2)
    requires IsEdwards(c) && |Ai| == 8 && OddMultiples(c, Ai, A) && OddTable(c, Bi, B) && Sparse(x) && Sparse(y)
    requires Rep2(c, r, Combination(c.group, m, A, n, B))
    ensures Rep2(c, r', Combination(c.group, x + 2 * m, A, y + 2 * n, B))
  {
    hide IsEdwards, Rep2, Rep11, Mul, Combination, OddMultiples, OddTable;
    AbelianCurve(c);
    ghost var v := Combination(c.group, m, A, n, B);
    var t := GeP2Dbl(r, c, v);
    ghost var v2 := c.group.add(v, v);
    t := AddOddA(t, x, Ai, c, A, v2);
    ghost var v3 := c.group.add(v2, Mul(c.group, x, A));
    t := AddOddB(t, y, Bi, c, B, v3);
    CombinationStep(c.group, m, A, n, B, x, y);
    r' := GeP1P1ToP2(t, c, c.group.add(v3, Mul(c.group, y, B)));
  }

  lemma {:induction false} ZeroTail(s: seq<int>, i: nat)
    requires i <= |s| && forall k :: i <= k < |s| ==> s[k] == 0
    ensures BitVal(s[i..]) == 0
  {
    AllZeros(s[i..]);
  }

  /** The highest place at which one of the digits is not zero. */
  method LastDigit(s: seq<int>, t: seq<int>) returns (i: int)
    requires |s| == 256 && |t| == 256
    ensures -1 <= i <= 255 && (i >= 0 ==> s[i] != 0 || t[i] != 0)
    ensures forall k :: i < k < 256 ==> s[k] == 0 && t[k] == 0
  {
    i := 255;
    while i >= 0
      invariant -1 <= i <= 255
      invariant forall k :: i < k < 256 ==> s[k] == 0 && t[k] == 0
    {
      if s[i] != 0 || t[i] != 0 {
        break;
      }
      i := i - 1;
    }
  }

  /** Skips leading zero digits, then doubles and adds down to digit 0. */
  method MainLoop<T(!new)>(s: seq<int>, t: seq<int>, Ai: seq<GeCached>, Bi: seq<GePrecomp>,
                           ghost c: Curve<T>, ghost A: T, ghost B: T) returns (r: GeP2)
    requires IsEdwards(c) && |Ai| == 8 && OddMultiples(c, Ai, A) && OddTable(c, Bi, B)
    requires |s| == 256 && |t| == 256 && AllSparse(s) && AllSparse(t)
    ensures Rep2(c, r, Combination(c.group, BitVal(s), A, BitVal(t), B))
  {
    hide IsEdwards, Rep2, Combination, OddMultiples, OddTable, BitVal, AllSparse;
    P2ZeroRep(c, A, B);
    var i := LastDigit(s, t);
    ZeroTail(s, i + 1);
    ZeroTail(t, i + 1);
    r := DownFrom(i, P2Zero, s, t, Ai, Bi, c, A, B);
  }

  method DownFrom<T(!new)>(start: int, r0: GeP2, s: seq<int>, t: seq<int>, Ai: seq<GeCached>, Bi: seq<GePrecomp>,
                           ghost c: Curve<T>, ghost A: T, ghost B: T) returns (r: GeP2)
    requires IsEdwards(c) && |Ai| == 8 && OddMultiples(c, Ai, A) && OddTable(c, Bi, B)
    requires |s| == 256 && |t| == 256 && AllSparse(s) && AllSparse(t) && -1 <= start <= 255
    requires Rep2(c, r0, Combination(c.group, BitVal(s[start + 1..]), A, BitVal(t[start + 1..]), B))
    ensures Rep2(c, r, Combination(c.group, BitVal(s), A, BitVal(t), B))
  {
    hide IsEdwards, Rep2, Combination, OddMultiples, OddTable, BitVal, AllSparse, Sparse;
    r := r0;
    var i := start;
    ghost var m, n := BitVal(s[start + 1..]), BitVal(t[start + 1..]);
    while i >= 0
      invariant -1 <= i <= 255 && m == BitVal(s[i + 1..]) && n == BitVal(t[i + 1..])
      invariant Rep2(c, r, Combination(c.group, m, A, n, B))
    {
      DropBit(s, i);
      DropBit(t, i);
      SparseAt(s, i);
      SparseAt(t, i);
      r := DoubleAndAdd(r, s[i], t[i], Ai, Bi, c, A, B, m, n);
      m, n := s[i] + 2 * m, t[i] + 2 * n;
      i := i - 1;
    }
    AllBits(s);
    AllBits(t);
  }

  lemma AllBits(s: seq<int>)
    ensures BitVal(s[0..]) == BitVal(s)
  {
    hide BitVal;
    assert s[0..] == s;
  }

  ghost predicate AllSparse(s: seq<int>)
  {
    forall k :: 0 <= k < |s| ==> Sparse(s[k])
  }

  lemma SparseAt(s: seq<int>, i: nat)
    requires AllSparse(s) && i < |s|
    ensures Sparse(s[i])
  {
  }

  /** ge_double_scalarmult_vartime: a A + b B, for the numbers that slide makes of a and b. */
  method GeDoubleScalarmultVartime<T(!new)>(a: seq<byte>, p: GeP3, b: seq<byte>, Bi: seq<GePrecomp>,
                                            ghost c: Curve<T>, ghost A: T, ghost B: T) returns (r: GeP2)
    requires IsEdwards(c) && Rep3(c, p, A) && OddTable(c, Bi, B)
    requires |a| == 32 && |b| == 32
    ensures Rep2(c, r, Combination(c.group, Slid(LeVal(a)), A, Slid(LeVal(b)), B))
  {
    hide IsEdwards, Rep2, Rep3, Combination, OddMultiples, OddTable, LeVal, BitVal, Pow2, Sparse, Slid;
    var aslide, bslide := new int[256], new int[256];
    Slide(aslide, a);
    Slide(bslide, b);
    var Ai := OddMultiplesOf(p, c, A);
    r := MainLoop(aslide[..], bslide[..], Ai, Bi, c, A, B);
  }
}
