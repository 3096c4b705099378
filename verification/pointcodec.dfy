/** ge_tobytes, ge_p3_tobytes and ge_frombytes_negate_vartime. */
module PointCodec {
  import opened Bits
  import opened Bytes
  import opened CurveAlgebra
  import opened Edwards
  import opened Field25519
  import opened FieldBytes
  import opened FieldPow
  import opened Groups
  import opened Modular
  import opened Residues

  // ---------------------------------------------------------------------
  // Encoding: y, with the parity of x in the top bit.

  ghost function EncodedVal<T>(c: Curve<T>, a: T): int
  {
    c.y(a) + TWO255 * (c.x(a) % 2)
  }

  lemma {:induction false} XorDisjoint(x: nat, y: nat, k: nat)
    requires x < Pow2(k)
    ensures Xor(x, Pow2(k) * y) == x + Pow2(k) * y
    decreases k
  {
    if k == 0 {
      XorZeroLeft(y);
    } else {
      var m := Pow2(k - 1);
      assert Pow2(k) * y == 2 * (m * y);
      assert (Pow2(k) * y) / 2 == m * y && (Pow2(k) * y) % 2 == 0;
      XorDisjoint(x / 2, y, k - 1);
    }
  }

  lemma XorZeroLeft(y: nat)
    ensures Xor(0, y) == y
  {
  }

  /** Setting the top bit of a string that stands for less than 2^255. */
  lemma SetTopBit(s: seq<byte>, bit: int)
    requires |s| == 32 && LeVal(s) < TWO255 && (bit == 0 || bit == 1)
    ensures s[31] < 128 && Xor(s[31], 128 * bit) == s[31] + 128 * bit
    ensures LeVal(s[31 := (s[31] + 128 * bit) as byte]) == LeVal(s) + TWO255 * bit
  {
    hide LeVal, Xor, Word;
    Le32(s);
    TopWord(s);
    assert s[31] < 128;
    SmallPowers();
    XorDisjoint(s[31], bit, 7);
    var t := s[31 := (s[31] + 128 * bit) as byte];
    Le32(t);
    SameWords(s, t, bit);
  }

  lemma SameWords(s: seq<byte>, t: seq<byte>, bit: int)
    requires |s| == 32 && s[31] < 128 && (bit == 0 || bit == 1) && t == s[31 := (s[31] + 128 * bit) as byte]
    ensures Word(t, 0) == Word(s, 0) && Word(t, 4) == Word(s, 4) && Word(t, 8) == Word(s, 8)
            && Word(t, 12) == Word(s, 12)
    ensures Word(t, 16) == Word(s, 16) && Word(t, 20) == Word(s, 20) && Word(t, 24) == Word(s, 24)
    ensures Word(t, 28) == Word(s, 28) + 0x8000_0000 * bit
  {
  }

  /** A congruent value in range is the residue itself. */
  lemma ResidueIs(v: int, x: int)
    requires Eq(v, x) && 0 <= x < P
    ensures v % P == x
  {
    CongUnique(v, x, P);
  }

  /** ge_tobytes: the encoding of the represented point. */
  method GeToBytes<T(!new)>(h: GeP2, ghost c: Curve<T>, ghost a: T) returns (s: seq<byte>)
    requires IsEdwards(c) && Rep2(c, h, a)
    ensures |s| == 32 && LeVal(s) == EncodedVal(c, a)
  {
    hide Val, LeVal, Tight, Loose, Cong, Pow, Abelian, Fermat, Xor, Projective, OnCurve, AddLaw;
    LawsAt(c, a, a);
    ProjectiveIs(c.x(a), c.y(a), Val(h.X), Val(h.Y), Val(h.Z), P);
    LooseFromTight(h.X);
    LooseFromTight(h.Y);
    LooseFromTight(h.Z);
    var recip := FeInvert(h.Z);
    LooseFromTight(recip);
    var x := FeMul(h.X, recip);
    var y := FeMul(h.Y, recip);
    DivideByZ(c.x(a), Val(h.X), Val(h.Z), Val(recip), Val(x), P);
    DivideByZ(c.y(a), Val(h.Y), Val(h.Z), Val(recip), Val(y), P);
    ResidueIs(Val(x), c.x(a));
    ResidueIs(Val(y), c.y(a));
    TightIsJudged(x);
    TightIsJudged(y);
    s := FeToBytes(y);
    var bit := FeIsNegative(x);
    SetTopBit(s, bit);
    s := s[31 := Xor(s[31], 128 * bit)];
  }

  /** ge_p3_tobytes. */
  method GeP3ToBytes<T(!new)>(h: GeP3, ghost c: Curve<T>, ghost a: T) returns (s: seq<byte>)
    requires IsEdwards(c) && Rep3(c, h, a)
    ensures |s| == 32 && LeVal(s) == EncodedVal(c, a)
  {
    hide Val, LeVal, Tight, Cong, IsEdwards, Projective, Product3, EncodedVal;
    s := GeToBytes(GeP3ToP2(h), c, a);
  }

  // ---------------------------------------------------------------------
  // Decoding: a square root of u / v, for u = y^2 - 1 and v = d y^2 + 1.

  /** d and a square root of -1, as the source's ten limbs. */
  const DLimbs := Fe(-10913610, 13857413, -15372611, 6949391, 114729, -8787816, -6275908, -3247719, -18696448,
                     -12055116)
  const SqrtM1 := Fe(-32595792, -7943725, 9377950, 3500415, 12389472, -272473, -25146209, -2005654, 326686, 11406482)

  lemma ConstantLimbs()
    ensures Tight(DLimbs) && Eq(Val(DLimbs), D) && Tight(SqrtM1) && Eq(Val(SqrtM1) * Val(SqrtM1), -1)
    ensures Tight(One) && Val(One) == 1
  {
    hide Val, Cong;
    ValIs(One);
    LimbValues();
    CongBy(Val(DLimbs), D, (Val(DLimbs) - D) / P, P);
    var i := Val(SqrtM1);
    CongBy(i * i, -1, (i * i + 1) / P, P);
  }

  lemma LimbValues()
    ensures Val(DLimbs) == D + P * ((Val(DLimbs) - D) / P)
    ensures var i := Val(SqrtM1); i * i == -1 + P * ((i * i + 1) / P)
  {
    hide Val;
    ValIs(DLimbs);
    ValIs(SqrtM1);
  }

  /** Tight limbs with one added or subtracted at the bottom. */
  predicate NearTight(h: Fe) { Within(h, 33_889_977, 16_944_988) }

  lemma NearTightBounds(f: Fe, g: Fe)
    requires Tight(f) && NearTight(g)
    ensures Loose(g) && Fits(f) && Fits(g) && Fits(Minus(f, g)) && Fits(Plus(f, g)) && Broad(Minus(f, g))
            && Broad(Plus(f, g))
  {
  }

  lemma PlusMinusOne(f: Fe)
    requires Tight(f)
    ensures Fits(f) && Fits(One) && Fits(Plus(f, One)) && Fits(Minus(f, One)) && NearTight(Plus(f, One))
            && NearTight(Minus(f, One))
  {
  }

  method Fraction(Y: Fe) returns (u: Fe, v: Fe)
    requires Tight(Y)
    ensures NearTight(u) && NearTight(v) && Loose(u) && Loose(v)
    ensures IsFraction(Val(u), Val(v), Val(Y), D, P)
  {
    hide Val, Tight, Loose, NearTight, Fits, Plus, Minus, Cong, IsFraction;
    ConstantLimbs();
    LooseFromTight(Y);
    LooseFromTight(DLimbs);
    var sq := FeSq(Y);
    LooseFromTight(sq);
    var dsq := FeMul(sq, DLimbs);
    PlusMinusOne(sq);
    PlusMinusOne(dsq);
    u := FeSub(sq, One);
    v := FeAdd(dsq, One);
    NearTightBounds(One, u);
    NearTightBounds(One, v);
    CongReflexive(1, P);
    CongAdd(Val(sq), Val(Y) * Val(Y), 1, 1, P);
    CongProduct(Val(dsq), Val(sq), Val(Y) * Val(Y), Val(DLimbs), D, P);
    CongAdd(Val(dsq), D * (Val(Y) * Val(Y)), 1, 1, P);
    FractionIs(Val(u), Val(v), Val(Y), D, P);
  }

  /** The candidate u v^3 (u v^7)^((p-5)/8). */
  method Candidate(u: Fe, v: Fe) returns (X: Fe, ghost p: int)
    requires Loose(u) && Loose(v)
    ensures Tight(X) && IsCandidate(Val(u), Val(v), p, Val(X), P)
  {
    hide Val, Tight, Loose, Cong, Pow, Cube, U7, Prod;
    ghost var a, b := Val(u), Val(v);
    var v3 := FeSq(v);
    LooseFromTight(v3);
    CongReflexive(a, P);
    CongReflexive(b, P);
    var v2 := v3;
    v3 := FeMul(v3, v);
    LooseFromTight(v3);
    CubeOf(b, Val(v2), Val(v3), P);
    X := FeSq(v3);
    ghost var x1 := Val(X);
    CongProduct(x1, Val(v3), Cube(b), Val(v3), Cube(b), P);
    LooseFromTight(X);
    X := FeMul(X, v);
    ghost var x2 := Val(X);
    CongProduct(x2, x1, Cube(b) * Cube(b), b, b, P);
    LooseFromTight(X);
    X := FeMul(X, u);
    ghost var x3 := Val(X);
    CongProduct(x3, x2, (Cube(b) * Cube(b)) * b, a, a, P);
    LooseFromTight(X);
    X := FePow22523(X);
    p := Val(X);
    U7Is(a, b);
    PowCong(x3, U7(a, b), (P - 5) / 8, P);
    CongTrans(p, Pow(x3, (P - 5) / 8), Pow(U7(a, b), (P - 5) / 8), P);
    LooseFromTight(X);
    X := FeMul(X, v3);
    ghost var x4 := Val(X);
    CongReflexive(p, P);
    CongProduct(x4, p, p, Val(v3), Cube(b), P);
    LooseFromTight(X);
    X := FeMul(X, u);
    CongProduct(Val(X), x4, p * Cube(b), a, a, P);
    ProdIs(p, Cube(b));
    ProdIs(p * Cube(b), a);
  }

  /** A square root of u / v if there is one: the candidate, or the candidate times the root of -1. */
  method SquareRoot(u: Fe, v: Fe) returns (ok: bool, X: Fe)
    requires Fermat(P) && NearTight(u) && NearTight(v) && Loose(u) && Loose(v)
    ensures Tight(X) && (ok ==> Root(Val(u), Val(v), Val(X), P))
    ensures !ok && !Eq(Val(v), 0) ==> forall x :: !Root(Val(u), Val(v), x, P)
  {
    hide Val, Tight, Loose, NearTight, Fits, Plus, Minus, Broad, Cong, Pow, IsCandidate, Fermat, Root;
    ghost var a, b := Val(u), Val(v);
    ghost var p;
    X, p := Candidate(u, v);
    ghost var x1 := Val(X);
    LooseFromTight(X);
    var vxx := FeSq(X);
    ghost var x2 := Val(vxx);
    LooseFromTight(vxx);
    vxx := FeMul(vxx, v);
    Square(b, x1, x2, Val(vxx), P);
    NearTightBounds(vxx, u);
    var check := FeSub(vxx, u);
    var nonzero := FeIsNonzero(check);
    DifferenceZero(Val(vxx), a, b * (x1 * x1), P);
    RootIs(a, b, x1, P);
    if nonzero != 0 {
      check := FeAdd(vxx, u);
      nonzero := FeIsNonzero(check);
      SumZero(Val(vxx), a, b * (x1 * x1), P);
      if nonzero != 0 {
        if !Eq(b, 0) {
          forall x
            ensures !Root(a, b, x, P)
          {
            if Root(a, b, x, P) {
              CandidateIs(a, b, x, p, x1, P);
              CandidateSquares(a, b, x, x1, P);
            }
          }
        }
        return false, X;
      }
      ConstantLimbs();
      LooseFromTight(SqrtM1);
      X := FeMul(X, SqrtM1);
      Rotated(a, b, x1, Val(SqrtM1), Val(X), P);
    }
    ok := true;
  }

  // ---------------------------------------------------------------------
  // ge_frombytes_negate_vartime

  /** The y coordinate and the sign bit of an encoding. */
  function YOf(s: seq<byte>): int
    requires |s| == 32
  {
    LeVal(s) % TWO255
  }

  function SignOf(s: seq<byte>): (b: int)
    requires |s| == 32
    ensures b == 0 || b == 1
  {
    s[31] / 128
  }

  lemma DPlusOne()
    ensures !Eq(D + 1, 0)
  {
  }

  /** The sign step: of a nonzero x the representative whose parity differs from the sign bit. */
  ghost predicate Negated(X: int, sign: int) { Eq(X, 0) || X % P % 2 != sign }

  /** The point over y whose x has the parity that the sign does not ask for, in extended coordinates with Z = 1. */
  ghost predicate NegatedPoint(y: int, sign: int, h: GeP3)
  {
    && Tight(h.X) && Tight(h.Y) && h.Z == One && Tight(h.T)
    && OnCurve(Val(h.X), y, D, P) && Eq(Val(h.Y), y) && Eq(Val(h.T), Prod(Val(h.X), Val(h.Y)))
    && Negated(Val(h.X), sign)
  }

  /**
   ge_frombytes_negate_vartime: accepts exactly the strings whose y belongs to a
   curve point, and yields the point with that y and the other sign.
   */
  method GeFromBytesNegateVartime(s: seq<byte>) returns (r: int, h: GeP3)
    requires |s| == 32 && Fermat(P)
    ensures r == 0 || r == -1
    ensures r == 0 <==> exists x :: OnCurve(x, YOf(s), D, P)
    ensures r == 0 ==> NegatedPoint(YOf(s), SignOf(s), h)
  {
    hide Val, LeVal, Tight, Loose, NearTight, Fits, Cong, Fermat, Root, OnCurve, IsFraction, Prod;
    var Y := FeFromBytes(s);
    h := GeP3(Zero, Y, One, Zero);
    var u, v := Fraction(Y);
    var ok, X := SquareRoot(u, v);
    if !ok {
      forall x
        ensures !OnCurve(x, YOf(s), D, P)
      {
        RootsAreCoordinates(Val(u), Val(v), Val(Y), YOf(s), x, D, P);
        if Root(Val(u), Val(v), x, P) {
          DPlusOne();
          DenominatorNonzero(Val(u), Val(v), x, Val(Y), D, P);
        }
      }
      return -1, h;
    }
    RootsAreCoordinates(Val(u), Val(v), Val(Y), YOf(s), Val(X), D, P);
    TightIsJudged(X);
    var negative := FeIsNegative(X);
    if negative == SignOf(s) {
      LooseFromTight(X);
      NegOnCurve(Val(X), YOf(s), D, P);
      NegResidue(Val(X));
      X := FeNeg(X);
    }
    LooseFromTight(X);
    LooseFromTight(Y);
    var T := FeMul(X, Y);
    ProdIs(Val(X), Val(Y));
    h := GeP3(X, Y, One, T);
    r := 0;
  }

  /** Negating changes the parity of a nonzero residue. */
  lemma NegResidue(x: int)
    ensures (-x) % P == if x % P == 0 then 0 else P - x % P
    ensures Eq(-x, 0) || (-x) % P % 2 != x % P % 2
  {
    hide Cong;
    var q, r := x / P, x % P;
    if r == 0 {
      DivModUnique(-x, P, -q, 0);
      CongIs(-x, 0, P);
    } else {
      DivModUnique(-x, P, -q - 1, P - r);
    }
  }

  // ---------------------------------------------------------------------
  // Decoding inverts encoding, up to the negation.

  lemma EncodingParts<T(!new)>(c: Curve<T>, a: T, s: seq<byte>)
    requires IsEdwards(c) && |s| == 32 && LeVal(s) == EncodedVal(c, a)
    ensures YOf(s) == c.y(a) && SignOf(s) == c.x(a) % 2 && OnCurve(c.x(a), YOf(s), D, P)
  {
    hide LeVal, Abelian, Fermat, AddLaw, Cong, OnCurve;
    LawsAt(c, a, a);
    TopBit(s);
    Remainder(LeVal(s), c.x(a) % 2, c.y(a));
  }

  lemma NegatedCoordinate(X: int, x: int, sign: int)
    requires 0 <= x < P && (Eq(X, x) || Eq(X, -x)) && Negated(X, sign) && (x == 0 || x % 2 == sign)
    ensures Eq(X, -x)
  {
    hide Cong;
    NegResidue(x);
    CongIs(X, 0, P);
    CongIs(X, x, P);
    CongIs(X, -x, P);
    if Eq(X, x) && X % P != 0 {
      ResidueIs(X, x);
    }
  }

  /** a is the point s stands for: its y, and its x by parity unless x is zero. */
  ghost predicate Decodes<T>(c: Curve<T>, s: seq<byte>, a: T)
    requires |s| == 32
  {
    DecodesTo(c, YOf(s), SignOf(s), a)
  }

  ghost predicate DecodesTo<T>(c: Curve<T>, y: int, sign: int, a: T)
  {
    Eq(c.y(a), y) && (c.x(a) == 0 || c.x(a) % 2 == sign)
  }

  lemma DecodedIsOnCurve<T(!new)>(c: Curve<T>, y: int, sign: int, a: T)
    requires IsEdwards(c) && DecodesTo(c, y, sign, a)
    ensures OnCurve(c.x(a), y, D, P) && 0 <= c.x(a) < P && 0 <= c.y(a) < P
  {
    hide Abelian, Fermat, AddLaw, Cong, OnCurve;
    LawsAt(c, a, a);
    CongReflexive(c.x(a), P);
    OnCurveEq(c.x(a), c.x(a), c.y(a), y, D, P);
  }

  /** An encoding stands for the point it encodes. */
  lemma EncodingDecodes<T(!new)>(c: Curve<T>, a: T, s: seq<byte>)
    requires IsEdwards(c) && |s| == 32 && LeVal(s) == EncodedVal(c, a)
    ensures Decodes(c, s, a)
  {
    hide IsEdwards, LeVal, Cong, YOf, SignOf, OnCurve;
    EncodingParts(c, a, s);
    CongReflexive(c.y(a), P);
  }

  /** The coordinates that ge_frombytes_negate_vartime yields are those of the negated point. */
  lemma DecodeIsNegation<T(!new)>(c: Curve<T>, a: T, y: int, sign: int, X: int, Y: int, t: int)
    requires IsEdwards(c) && DecodesTo(c, y, sign, a)
    requires OnCurve(X, y, D, P) && Eq(Y, y) && Eq(t, Prod(X, Y)) && Negated(X, sign)
    ensures Extended(c.x(c.group.neg(a)), c.y(c.group.neg(a)), X, Y, 1, t, P)
  {
    hide Abelian, Fermat, Cong, OnCurve, AddLaw, Extended, Prod;
    var n := c.group.neg(a);
    ProdIs(X, Y);
    DecodedIsOnCurve(c, y, sign, a);
    LawsAt(c, a, a);
    DPlusOne();
    SameUpToSign(X, c.x(a), y, D, P);
    NegatedCoordinate(X, c.x(a), sign);
    CongSym(c.x(n), -c.x(a), P);
    CongSym(c.y(n), c.y(a), P);
    CongSym(c.y(a), y, P);
    CongTrans(X, -c.x(a), c.x(n), P);
    CongTrans(Y, y, c.y(a), P);
    CongTrans(Y, c.y(a), c.y(n), P);
    CongProduct(t, X, c.x(n), Y, c.y(n), P);
    TwoIsNotZero();
    ExtendedIs(c.x(n), c.y(n), X, Y, 1, t, P);
  }

  lemma WithOne<T>(c: Curve<T>, h: GeP3, n: T)
    requires Tight(h.X) && Tight(h.Y) && h.Z == One && Tight(h.T)
    requires Extended(c.x(n), c.y(n), Val(h.X), Val(h.Y), 1, Val(h.T), P)
    ensures Rep3(c, h, n)
  {
    hide Val, Extended;
    ConstantLimbs();
  }

  /** The group elements are the points of the curve. */
  ghost predicate AllPoints<T(!new)>(c: Curve<T>)
  {
    && (forall x, y {:trigger OnCurve(x, y, D, P)} ::
          0 <= x < P && 0 <= y < P && OnCurve(x, y, D, P) ==> exists a :: c.x(a) == x && c.y(a) == y)
    && (forall a, b {:trigger Pair(a, b)} :: c.x(a) == c.x(b) && c.y(a) == c.y(b) ==> a == b)
  }

  /** A string that lies over the curve stands for a point. */
  lemma PointOf<T(!new)>(c: Curve<T>, s: seq<byte>, X: int) returns (a: T)
    requires AllPoints(c) && |s| == 32 && OnCurve(X, YOf(s), D, P) && Negated(X, SignOf(s))
    ensures Decodes(c, s, a)
  {
    hide Cong, YOf, SignOf, OnCurve, Negated;
    var x, y := (-X) % P, YOf(s) % P;
    ReducedOnCurve(X, YOf(s));
    ReducedParity(X, SignOf(s));
    a := PointAt(c, x, y);
  }

  lemma PointAt<T(!new)>(c: Curve<T>, x: int, y: int) returns (a: T)
    requires AllPoints(c) && 0 <= x < P && 0 <= y < P && OnCurve(x, y, D, P)
    ensures c.x(a) == x && c.y(a) == y
  {
    hide OnCurve;
    a :| c.x(a) == x && c.y(a) == y;
  }

  lemma ReducedOnCurve(X: int, Y: int)
    requires OnCurve(X, Y, D, P)
    ensures OnCurve((-X) % P, Y % P, D, P) && Eq(Y % P, Y)
  {
    hide Cong;
    CongModulo(-X, P);
    hide OnCurve;
    CongModulo(Y, P);
    NegOnCurve(X, Y, D, P);
    CongSym((-X) % P, -X, P);
    CongSym(Y % P, Y, P);
    OnCurveEq(-X, (-X) % P, Y, Y % P, D, P);
  }

  lemma ReducedParity(X: int, sign: int)
    requires Negated(X, sign) && (sign == 0 || sign == 1)
    ensures (-X) % P == 0 || (-X) % P % 2 == sign
  {
    hide Cong;
    NegResidue(X);
    if Eq(X, 0) {
      EqZero(X);
    } else if Eq(-X, 0) {
      EqZero(-X);
    }
  }

  lemma EqZero(x: int)
    requires Eq(x, 0)
    ensures x % P == 0
  {
    ResidueIs(x, 0);
  }

  /** and for only one. */
  lemma OnePoint<T(!new)>(c: Curve<T>, s: seq<byte>, a: T, b: T)
    requires IsEdwards(c) && AllPoints(c) && |s| == 32 && Decodes(c, s, a) && Decodes(c, s, b)
    ensures a == b
  {
    hide Cong, YOf, SignOf, OnCurve, IsEdwards, Fermat;
    DecodedIsOnCurve(c, YOf(s), SignOf(s), a);
    DecodedIsOnCurve(c, YOf(s), SignOf(s), b);
    CongSym(c.y(b), YOf(s), P);
    CongTrans(c.y(a), YOf(s), c.y(b), P);
    SameResidue(c.y(a), c.y(b));
    FermatOf(c);
    DPlusOne();
    SameUpToSign(c.x(a), c.x(b), YOf(s), D, P);
    SameParity(c.x(a), c.x(b), SignOf(s));
    assert Pair(a, b);
  }

  lemma FermatOf<T(!new)>(c: Curve<T>)
    requires IsEdwards(c)
    ensures Fermat(P)
  {
  }

  lemma SameResidue(x: int, y: int)
    requires Eq(x, y) && 0 <= x < P && 0 <= y < P
    ensures x == y
  {
    ResidueIs(x, y);
  }

  lemma SameParity(x: int, y: int, sign: int)
    requires 0 <= x < P && 0 <= y < P && (Eq(x, y) || Eq(x, -y))
    requires (x == 0 || x % 2 == sign) && (y == 0 || y % 2 == sign)
    ensures x == y
  {
    hide Cong;
    if Eq(x, y) {
      SameResidue(x, y);
    } else if y == 0 {
      SameResidue(x, y);
    } else {
      SameResidueNeg(x, y);
    }
  }

  lemma SameResidueNeg(x: int, y: int)
    requires 0 <= x < P && 0 < y < P && Eq(x, -y)
    ensures x == P - y
  {
    hide Cong;
    NegResidue(y);
    CongModulo(-y, P);
    CongSym((-y) % P, -y, P);
    CongTrans(x, -y, P - y, P);
    SameResidue(x, P - y);
  }
}
