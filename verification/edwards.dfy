/**
 Group elements of the twisted Edwards curve -x^2 + y^2 = 1 + d x^2 y^2 in the
 projective forms of the source. Each form represents a point of an abstract
 commutative group whose affine coordinates obey the addition law of section
 5.1.4 of RFC 8032; every operation is proved to represent the group operation
 and to stay within the limb bounds that field multiplication accepts.
 */
module Edwards {
  import opened Bits
  import opened CurveAlgebra
  import opened Field25519
  import opened Groups
  import opened Modular
  import opened Residues

  const D: int := 37095705934669439343138083508754565189542113879843219016388785533085940283555

  predicate Eq(a: int, b: int) { Cong(a, b, P) }

  // ---------------------------------------------------------------------
  // The abstract curve.

  datatype Curve<!T> = Curve(group: Group<T>, x: T -> int, y: T -> int)

  predicate Pair<T>(a: T, b: T) { true }

  /** The affine addition law with no exceptions, the curve equation, and negation. */
  ghost predicate Laws<T>(c: Curve<T>, a: T, b: T)
  {
    var x1, y1, x2, y2, s := c.x(a), c.y(a), c.x(b), c.y(b), c.group.add(a, b);
    && 0 <= x1 < P && 0 <= y1 < P
    && OnCurve(x1, y1, D, P)
    && Eq(c.x(c.group.neg(a)), -x1) && Eq(c.y(c.group.neg(a)), y1)
    && AddLaw(x1, y1, x2, y2, c.x(s), c.y(s), D, P)
  }

  ghost predicate IsEdwards<T(!new)>(c: Curve<T>)
  {
    && Abelian(c.group)
    && Fermat(P)
    && c.x(c.group.zero) == 0 && c.y(c.group.zero) == 1
    && forall a: T, b: T {:trigger Pair(a, b)} :: Laws(c, a, b)
  }

  lemma LawsAt<T(!new)>(c: Curve<T>, a: T, b: T)
    requires IsEdwards(c)
    ensures Laws(c, a, b)
  {
    hide Laws;
    assert Pair(a, b);
  }

  // ---------------------------------------------------------------------
  // The representations.

  datatype GeP2 = GeP2(X: Fe, Y: Fe, Z: Fe)
  datatype GeP3 = GeP3(X: Fe, Y: Fe, Z: Fe, T: Fe)
  datatype GeP1P1 = GeP1P1(X: Fe, Y: Fe, Z: Fe, T: Fe)
  datatype GePrecomp = GePrecomp(yplusx: Fe, yminusx: Fe, xy2d: Fe)
  datatype GeCached = GeCached(YplusX: Fe, YminusX: Fe, Z: Fe, T2d: Fe)

  ghost predicate Rep2<T>(c: Curve<T>, p: GeP2, a: T)
  {
    && Tight(p.X) && Tight(p.Y) && Tight(p.Z)
    && Projective(c.x(a), c.y(a), Val(p.X), Val(p.Y), Val(p.Z), P)
  }

  /** As Rep2, with T = x y Z; hence X Y = Z T. */
  ghost predicate Rep3<T>(c: Curve<T>, p: GeP3, a: T)
  {
    && Tight(p.X) && Tight(p.Y) && Tight(p.Z) && Tight(p.T)
    && Extended(c.x(a), c.y(a), Val(p.X), Val(p.Y), Val(p.Z), Val(p.T), P)
  }

  /** x = X / Z and y = Y / T, with limbs still in multiplication's input bounds. */
  ghost predicate Rep11<T>(c: Curve<T>, r: GeP1P1, a: T)
  {
    && Loose(r.X) && Loose(r.Y) && Loose(r.Z) && Loose(r.T)
    && Ratios(c.x(a), c.y(a), Val(r.X), Val(r.Y), Val(r.Z), Val(r.T), P)
  }

  ghost predicate RepCached<T>(c: Curve<T>, q: GeCached, a: T)
  {
    && Loose(q.YplusX) && Loose(q.YminusX) && Loose(q.Z) && Loose(q.T2d)
    && Addend(c.x(a), c.y(a), Val(q.Z), Val(q.YplusX), Val(q.YminusX), Val(q.T2d), D, P)
  }

  ghost predicate RepPrecomp<T>(c: Curve<T>, q: GePrecomp, a: T)
  {
    && Tight(q.yplusx) && Tight(q.yminusx) && Tight(q.xy2d)
    && Addend(c.x(a), c.y(a), 1, Val(q.yplusx), Val(q.yminusx), Val(q.xy2d), D, P)
  }

  lemma TwoIsNotZero()
    ensures !Eq(2, 0) && !Eq(1, 0)
  {
  }

  // ---------------------------------------------------------------------
  // Limb bounds of sums and differences.

  /** 2.02 * 2^25 and 2.02 * 2^24. */
  predicate Twice(h: Fe) { Within(h, 67_779_952, 33_889_976) }

  lemma SumBounds(f: Fe, g: Fe)
    requires Tight(f) && Tight(g)
    ensures Fits(f) && Fits(g) && Fits(Plus(f, g)) && Fits(Minus(f, g))
    ensures Twice(Plus(f, g)) && Twice(Minus(f, g)) && Loose(Plus(f, g)) && Loose(Minus(f, g))
  {
  }

  /** fe_add and fe_sub on operands beyond their documented 1.1 bounds still fit multiplication. */
  lemma WideSumBounds(f: Fe, g: Fe)
    requires Twice(f) && Tight(g)
    ensures Fits(f) && Fits(g) && Fits(Plus(f, g)) && Fits(Minus(f, g)) && Fits(Minus(g, f))
    ensures Loose(Plus(f, g)) && Loose(Minus(f, g)) && Loose(Minus(g, f))
  {
  }

  // ---------------------------------------------------------------------
  // The group operations.

  /** ge_add: p + q. */
  method GeAdd<T(!new)>(p: GeP3, q: GeCached, ghost c: Curve<T>, ghost a: T, ghost b: T) returns (r: GeP1P1)
    requires IsEdwards(c) && Rep3(c, p, a) && RepCached(c, q, b)
    ensures Rep11(c, r, c.group.add(a, b))
  {
    hide Val, Cong, Abelian, Fermat, Tight, Loose, Twice, Fits, Plus, Minus, Addend, Extended, Ratios, AddLaw, OnCurve;
    ExtendedIs(c.x(a), c.y(a), Val(p.X), Val(p.Y), Val(p.Z), Val(p.T), P);
    ghost var s := c.group.add(a, b);
    LawsAt(c, a, b);
    TwoIsNotZero();
    AddendIs(c.x(b), c.y(b), Val(q.Z), Val(q.YplusX), Val(q.YminusX), Val(q.T2d), D, P);
    SumBounds(p.Y, p.X);
    var sum := FeAdd(p.Y, p.X);
    var diff := FeSub(p.Y, p.X);
    LooseFromTight(p.T);
    var u := FeMul(sum, q.YplusX);
    var v := FeMul(diff, q.YminusX);
    var w := FeMul(q.T2d, p.T);
    LooseFromTight(p.Z);
    var zz := FeMul(p.Z, q.Z);
    SumBounds(zz, zz);
    var t := FeAdd(zz, zz);
    SumBounds(u, v);
    WideSumBounds(t, w);
    r := GeP1P1(FeSub(u, v), FeAdd(u, v), FeAdd(t, w), FeSub(t, w));
    CrossProducts(c.x(a), c.y(a), Val(p.Z), Val(p.X), Val(p.Y), Val(p.T),
                  c.x(b), c.y(b), Val(q.Z), Val(q.YplusX), Val(q.YminusX), Val(q.T2d), Val(u), Val(v), Val(w), D, P);
    CongAdd(Val(zz), Val(p.Z) * Val(q.Z), Val(zz), Val(p.Z) * Val(q.Z), P);
    Completed(c.x(a), c.y(a), Val(p.Z), c.x(b), c.y(b), Val(q.Z), c.x(s), c.y(s), Val(u), Val(v), Val(w), Val(t), D, P);
  }

  /** ge_sub: p - q. */
  method GeSub<T(!new)>(p: GeP3, q: GeCached, ghost c: Curve<T>, ghost a: T, ghost b: T) returns (r: GeP1P1)
    requires IsEdwards(c) && Rep3(c, p, a) && RepCached(c, q, b)
    ensures Rep11(c, r, c.group.add(a, c.group.neg(b)))
  {
    hide Val, Cong, Abelian, Fermat, Tight, Loose, Twice, Fits, Plus, Minus, Addend, Extended, Ratios, AddLaw, OnCurve;
    ExtendedIs(c.x(a), c.y(a), Val(p.X), Val(p.Y), Val(p.Z), Val(p.T), P);
    ghost var n := c.group.neg(b);
    ghost var s := c.group.add(a, n);
    LawsAt(c, a, n);
    TwoIsNotZero();
    AddendIs(c.x(b), c.y(b), Val(q.Z), Val(q.YplusX), Val(q.YminusX), Val(q.T2d), D, P);
    SumBounds(p.Y, p.X);
    var sum := FeAdd(p.Y, p.X);
    var diff := FeSub(p.Y, p.X);
    LooseFromTight(p.T);
    var u := FeMul(sum, q.YminusX);
    var v := FeMul(diff, q.YplusX);
    var w := FeMul(q.T2d, p.T);
    LooseFromTight(p.Z);
    var zz := FeMul(p.Z, q.Z);
    SumBounds(zz, zz);
    var t := FeAdd(zz, zz);
    SumBounds(u, v);
    WideSumBounds(t, w);
    r := GeP1P1(FeSub(u, v), FeAdd(u, v), FeSub(t, w), FeAdd(t, w));
    LawsAt(c, b, b);
    NegAddend(c.x(b), c.y(b), c.x(n), c.y(n), Val(q.Z), Val(q.YplusX), Val(q.YminusX), Val(q.T2d), D, P);
    NegFactor(Val(w), Val(q.T2d), Val(p.T), P);
    CrossProducts(c.x(a), c.y(a), Val(p.Z), Val(p.X), Val(p.Y), Val(p.T),
                  c.x(n), c.y(n), Val(q.Z), Val(q.YminusX), Val(q.YplusX), -Val(q.T2d), Val(u), Val(v), -Val(w), D, P);
    CongAdd(Val(zz), Val(p.Z) * Val(q.Z), Val(zz), Val(p.Z) * Val(q.Z), P);
    Completed(c.x(a), c.y(a), Val(p.Z), c.x(n), c.y(n), Val(q.Z), c.x(s), c.y(s), Val(u), Val(v), -Val(w), Val(t), D,
              P);
  }

  /** ge_madd: p + q for a precomputed affine q. */
  method GeMadd<T(!new)>(p: GeP3, q: GePrecomp, ghost c: Curve<T>, ghost a: T, ghost b: T) returns (r: GeP1P1)
    requires IsEdwards(c) && Rep3(c, p, a) && RepPrecomp(c, q, b)
    ensures Rep11(c, r, c.group.add(a, b))
  {
    hide Val, Cong, Abelian, Fermat, Tight, Loose, Twice, Fits, Plus, Minus, Addend, Extended, Ratios, AddLaw, OnCurve;
    ExtendedIs(c.x(a), c.y(a), Val(p.X), Val(p.Y), Val(p.Z), Val(p.T), P);
    ghost var s := c.group.add(a, b);
    LawsAt(c, a, b);
    TwoIsNotZero();
    AddendIs(c.x(b), c.y(b), 1, Val(q.yplusx), Val(q.yminusx), Val(q.xy2d), D, P);
    SumBounds(p.Y, p.X);
    var sum := FeAdd(p.Y, p.X);
    var diff := FeSub(p.Y, p.X);
    LooseFromTight(p.T);
    LooseFromTight(q.yplusx);
    LooseFromTight(q.yminusx);
    LooseFromTight(q.xy2d);
    var u := FeMul(sum, q.yplusx);
    var v := FeMul(diff, q.yminusx);
    var w := FeMul(q.xy2d, p.T);
    SumBounds(p.Z, p.Z);
    var t := FeAdd(p.Z, p.Z);
    SumBounds(u, v);
    WideSumBounds(t, w);
    r := GeP1P1(FeSub(u, v), FeAdd(u, v), FeAdd(t, w), FeSub(t, w));
    CrossProducts(c.x(a), c.y(a), Val(p.Z), Val(p.X), Val(p.Y), Val(p.T),
                  c.x(b), c.y(b), 1, Val(q.yplusx), Val(q.yminusx), Val(q.xy2d), Val(u), Val(v), Val(w), D, P);
    CongReflexive(Val(t), P);
    Completed(c.x(a), c.y(a), Val(p.Z), c.x(b), c.y(b), 1, c.x(s), c.y(s), Val(u), Val(v), Val(w), Val(t), D, P);
  }

  /** ge_msub: p - q for a precomputed affine q. */
  method GeMsub<T(!new)>(p: GeP3, q: GePrecomp, ghost c: Curve<T>, ghost a: T, ghost b: T) returns (r: GeP1P1)
    requires IsEdwards(c) && Rep3(c, p, a) && RepPrecomp(c, q, b)
    ensures Rep11(c, r, c.group.add(a, c.group.neg(b)))
  {
    hide Val, Cong, Abelian, Fermat, Tight, Loose, Twice, Fits, Plus, Minus, Addend, Extended, Ratios, AddLaw, OnCurve;
    ExtendedIs(c.x(a), c.y(a), Val(p.X), Val(p.Y), Val(p.Z), Val(p.T), P);
    ghost var n := c.group.neg(b);
    ghost var s := c.group.add(a, n);
    LawsAt(c, a, n);
    TwoIsNotZero();
    AddendIs(c.x(b), c.y(b), 1, Val(q.yplusx), Val(q.yminusx), Val(q.xy2d), D, P);
    SumBounds(p.Y, p.X);
    var sum := FeAdd(p.Y, p.X);
    var diff := FeSub(p.Y, p.X);
    LooseFromTight(p.T);
    LooseFromTight(q.yplusx);
    LooseFromTight(q.yminusx);
    LooseFromTight(q.xy2d);
    var u := FeMul(sum, q.yminusx);
    var v := FeMul(diff, q.yplusx);
    var w := FeMul(q.xy2d, p.T);
    SumBounds(p.Z, p.Z);
    var t := FeAdd(p.Z, p.Z);
    SumBounds(u, v);
    WideSumBounds(t, w);
    r := GeP1P1(FeSub(u, v), FeAdd(u, v), FeSub(t, w), FeAdd(t, w));
    LawsAt(c, b, b);
    NegAddend(c.x(b), c.y(b), c.x(n), c.y(n), 1, Val(q.yplusx), Val(q.yminusx), Val(q.xy2d), D, P);
    NegFactor(Val(w), Val(q.xy2d), Val(p.T), P);
    CrossProducts(c.x(a), c.y(a), Val(p.Z), Val(p.X), Val(p.Y), Val(p.T),
                  c.x(n), c.y(n), 1, Val(q.yminusx), Val(q.yplusx), -Val(q.xy2d), Val(u), Val(v), -Val(w), D, P);
    CongReflexive(Val(t), P);
    Completed(c.x(a), c.y(a), Val(p.Z), c.x(n), c.y(n), 1, c.x(s), c.y(s), Val(u), Val(v), -Val(w), Val(t), D, P);
  }

  /** ge_p2_dbl: 2 p. */
  method GeP2Dbl<T(!new)>(p: GeP2, ghost c: Curve<T>, ghost a: T) returns (r: GeP1P1)
    requires IsEdwards(c) && Rep2(c, p, a)
    ensures Rep11(c, r, c.group.add(a, a))
  {
    hide Val, Cong, Abelian, Fermat, Tight, Loose, Twice, Fits, Plus, Minus, Projective, Ratios, AddLaw, OnCurve;
    ProjectiveIs(c.x(a), c.y(a), Val(p.X), Val(p.Y), Val(p.Z), P);
    LawsAt(c, a, a);
    LooseFromTight(p.X);
    LooseFromTight(p.Y);
    LooseFromTight(p.Z);
    var xx := FeSq(p.X);
    var yy := FeSq(p.Y);
    var zz2 := FeSq2(p.Z);
    SumBounds(p.X, p.Y);
    var sum := FeAdd(p.X, p.Y);
    var sq := FeSq(sum);
    SumBounds(yy, xx);
    var y3 := FeAdd(yy, xx);
    var z3 := FeSub(yy, xx);
    WideSumBounds(y3, sq);
    WideSumBounds(z3, zz2);
    r := GeP1P1(FeSub(sq, y3), y3, z3, FeSub(zz2, z3));
    var x, y, z := c.x(a), c.y(a), Val(p.Z);
    CongProduct(Val(xx), Val(p.X), x * z, Val(p.X), x * z, P);
    CongProduct(Val(yy), Val(p.Y), y * z, Val(p.Y), y * z, P);
    CongAdd(Val(p.X), x * z, Val(p.Y), y * z, P);
    assert x * z + y * z == (x + y) * z;
    CongProduct(Val(sq), Val(sum), (x + y) * z, Val(sum), (x + y) * z, P);
    ghost var s := c.group.add(a, a);
    CompletedDouble(x, y, z, c.x(s), c.y(s), Val(xx), Val(yy), Val(zz2), Val(sq), D, P);
  }

  /** ge_p3_dbl: 2 p, forgetting T. */
  method GeP3Dbl<T(!new)>(p: GeP3, ghost c: Curve<T>, ghost a: T) returns (r: GeP1P1)
    requires IsEdwards(c) && Rep3(c, p, a)
    ensures Rep11(c, r, c.group.add(a, a))
  {
    hide Val, Cong, IsEdwards, Tight, Projective, Rep11;
    var q := GeP3ToP2(p);
    r := GeP2Dbl(q, c, a);
  }

  /** ge_p3_to_p2. */
  function GeP3ToP2(p: GeP3): GeP2
  {
    GeP2(p.X, p.Y, p.Z)
  }

  /** ge_p1p1_to_p2. */
  method GeP1P1ToP2<T(!new)>(r: GeP1P1, ghost c: Curve<T>, ghost a: T) returns (p: GeP2)
    requires IsEdwards(c) && Rep11(c, r, a)
    ensures Rep2(c, p, a)
  {
    hide Val, Cong, Abelian, Fermat, Laws, Tight, Loose, Ratios, Projective;
    var X := FeMul(r.X, r.T);
    var Y := FeMul(r.Y, r.Z);
    var Z := FeMul(r.Z, r.T);
    p := GeP2(X, Y, Z);
    CommonDenominator(c.x(a), c.y(a), Val(r.X), Val(r.Y), Val(r.Z), Val(r.T), Val(X), Val(Y), Val(Z), P);
  }

  /** ge_p1p1_to_p3. */
  method GeP1P1ToP3<T(!new)>(r: GeP1P1, ghost c: Curve<T>, ghost a: T) returns (p: GeP3)
    requires IsEdwards(c) && Rep11(c, r, a)
    ensures Rep3(c, p, a)
  {
    hide Val, Cong, Abelian, Fermat, Laws, Tight, Loose, Ratios, Projective, Product3;
    var X := FeMul(r.X, r.T);
    var Y := FeMul(r.Y, r.Z);
    var Z := FeMul(r.Z, r.T);
    var T := FeMul(r.X, r.Y);
    p := GeP3(X, Y, Z, T);
    ghost var x, y := c.x(a), c.y(a);
    CommonDenominator(x, y, Val(r.X), Val(r.Y), Val(r.Z), Val(r.T), Val(X), Val(Y), Val(Z), P);
    CommonProduct(x, y, Val(r.X), Val(r.Y), Val(r.Z), Val(r.T), Val(Z), Val(T), P);
    Product3Is(x, y, Val(Z));
  }

  /** 2 d, as the source's ten limbs. */
  const D2 := Fe(-21827239, -5839606, -30745221, 13898782, 229458, 15978800, -12551817, -6495438, 29715968, 9444199)

  lemma D2Limbs()
    ensures Tight(D2) && Eq(Val(D2), 2 * D)
  {
    hide Val, Cong;
    ValIs(D2);
    CongBy(Val(D2), 2 * D, (Val(D2) - 2 * D) / P, P);
  }

  /** ge_p3_to_cached. */
  method GeP3ToCached<T(!new)>(p: GeP3, ghost c: Curve<T>, ghost a: T) returns (q: GeCached)
    requires IsEdwards(c) && Rep3(c, p, a)
    ensures RepCached(c, q, a)
  {
    hide Val, Cong, IsEdwards, Tight, Loose, Twice, Fits, Plus, Minus, Extended, Addend;
    ExtendedIs(c.x(a), c.y(a), Val(p.X), Val(p.Y), Val(p.Z), Val(p.T), P);
    SumBounds(p.Y, p.X);
    D2Limbs();
    LooseFromTight(p.T);
    LooseFromTight(p.Z);
    LooseFromTight(D2);
    var t2d := FeMul(p.T, D2);
    LooseFromTight(t2d);
    q := GeCached(FeAdd(p.Y, p.X), FeSub(p.Y, p.X), p.Z, t2d);
    var x, y, z := c.x(a), c.y(a), Val(p.Z);
    CongAdd(Val(p.Y), y * z, Val(p.X), x * z, P);
    assert y * z + x * z == (y + x) * z && y * z - x * z == (y - x) * z;
    CongProduct(Val(t2d), Val(p.T), (x * y) * z, Val(D2), 2 * D, P);
    AddendIs(x, y, z, Val(q.YplusX), Val(q.YminusX), Val(q.T2d), D, P);
  }
}
