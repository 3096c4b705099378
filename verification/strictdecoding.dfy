/**
 The decoding of section 5.1.3 of RFC 8032, which refuses a y from p on and a zero
 x with the sign bit set, beside the decoding of the source, which does not.
 */
module StrictDecoding {
  import opened Bits
  import opened Bytes
  import opened CurveAlgebra
  import opened Edwards
  import opened Field25519
  import opened FieldBytes
  import opened Groups
  import opened Modular
  import opened PointCodec
  import opened Residues

  /** s decodes to a as section 5.1.3 has it. */
  ghost predicate StrictlyDecodes<T>(c: Curve<T>, s: seq<byte>, a: T)
    requires |s| == 32
  {
    YOf(s) < P && c.y(a) == YOf(s) && c.x(a) % 2 == SignOf(s)
  }

  /** On the bytes: y below p, and no sign bit on the two y whose x is zero. */
  predicate CanonicalKey(s: seq<byte>)
    requires |s| == 32
  {
    YOf(s) < P && !(SignOf(s) == 1 && (YOf(s) == 1 || YOf(s) == P - 1))
  }

  /** Strict decoding inverts encoding. */
  lemma StrictIsEncoding<T(!new)>(c: Curve<T>, s: seq<byte>, a: T)
    requires IsEdwards(c) && |s| == 32
    ensures StrictlyDecodes(c, s, a) <==> LeVal(s) == EncodedVal(c, a)
  {
    hide LeVal, Abelian, Fermat, Cong, OnCurve, AddLaw;
    LawsAt(c, a, a);
    TopBit(s);
    if LeVal(s) == EncodedVal(c, a) {
      EncodingParts(c, a, s);
    }
  }

  /** The square of a number is 1 exactly for 1 and -1. */
  lemma UnitSquares(y: int, q: int)
    requires q > 1 && Fermat(q)
    ensures Cong(y * y, 1, q) <==> Cong(y, 1, q) || Cong(y, -1, q)
  {
    hide Cong, Fermat;
    if Cong(y * y, 1, q) {
      SquareRootOfOne(y, q);
    }
    if Cong(y, 1, q) {
      CongMul(y, 1, y, 1, q);
    }
    if Cong(y, -1, q) {
      CongMul(y, -1, y, -1, q);
    }
  }

  /** A curve point has x = 0 exactly if y^2 = 1. */
  lemma ZeroX(x: int, y: int, d: int, q: int)
    requires q > 1 && Fermat(q) && !Cong(d + 1, 0, q) && OnCurve(x, y, d, q)
    ensures Cong(x, 0, q) <==> Cong(y * y, 1, q)
  {
    hide Cong, Fermat, OnCurve;
    OnCurveIs(x, y, d, q);
    if Cong(x, 0, q) {
      ZeroXOne(x, y, d, q);
    }
    if Cong(y * y, 1, q) {
      OneZeroX(x, y, d, q);
    }
  }

  lemma ZeroXOne(x: int, y: int, d: int, q: int)
    requires q > 1 && Cong(x, 0, q) && Cong(y * y - x * x, 1 + d * ((x * y) * (x * y)), q)
    ensures Cong(y * y, 1, q)
  {
    hide Cong;
    var e := (x * y) * (x * y);
    CongReflexive(y, q);
    CongReflexive(d, q);
    CongReflexive(1, q);
    CongMul(x, 0, x, 0, q);
    CongMul(x, 0, y, y, q);
    CongMul(x * y, 0, x * y, 0, q);
    CongMul(d, d, e, 0, q);
    CongAdd(1, 1, d * e, 0, q);
    CongTrans(y * y - x * x, 1 + d * e, 1, q);
    CongAdd(y * y - x * x, 1, x * x, 0, q);
  }

  lemma OneZeroX(x: int, y: int, d: int, q: int)
    requires q > 1 && Fermat(q) && !Cong(d + 1, 0, q) && Cong(y * y, 1, q)
    requires Cong(y * y - x * x, 1 + d * ((x * y) * (x * y)), q)
    ensures Cong(x, 0, q)
  {
    hide Cong, Fermat;
    var w, e := x * x, (x * y) * (x * y);
    Swap(x, y, x, y);
    CongReflexive(w, q);
    CongReflexive(d, q);
    CongReflexive(1, q);
    CongMul(w, w, y * y, 1, q);
    CongMul(d, d, e, w, q);
    CongAdd(1, 1, d * e, d * w, q);
    CongTrans(y * y - w, 1 + d * e, 1 + d * w, q);
    CongSym(y * y, 1, q);
    CongAdd(1, y * y, w, w, q);
    CongTrans(1 - w, y * y - w, 1 + d * w, q);
    CongSym(1 - w, 1 + d * w, q);
    CongReflexive(1 - w, q);
    CongAdd(1 + d * w, 1 - w, 1 - w, 1 - w, q);
    assert (1 + d * w) - (1 - w) == (d + 1) * w;
    if !Cong(x, 0, q) {
      NoZeroDivisors(x, x, q);
      NoZeroDivisors(d + 1, w, q);
    }
  }

  /** The x of the point a string stands for is zero exactly for two values of its y. */
  lemma ZeroXByBytes<T(!new)>(c: Curve<T>, s: seq<byte>, a: T)
    requires IsEdwards(c) && |s| == 32 && Decodes(c, s, a)
    ensures c.x(a) == 0 <==> YOf(s) % P == 1 || YOf(s) % P == P - 1
    ensures YOf(s) % P == c.y(a)
  {
    hide LeVal, IsEdwards, Cong, OnCurve, YOf, SignOf, Fermat;
    var x, y := c.x(a), c.y(a);
    DecodedIsOnCurve(c, YOf(s), SignOf(s), a);
    FermatOf(c);
    DPlusOne();
    CongSym(y, YOf(s), P);
    CongUnique(YOf(s), y, P);
    CongReflexive(x, P);
    OnCurveEq(x, x, YOf(s), y, D, P);
    ZeroX(x, y, D, P);
    UnitSquares(y, P);
    SmallResidues(x, y);
  }

  lemma SmallResidues(x: int, y: int)
    requires 0 <= x < P && 0 <= y < P
    ensures (Eq(x, 0) <==> x == 0) && (Eq(y, 1) <==> y == 1) && (Eq(y, -1) <==> y == P - 1)
  {
    hide Cong;
    CongIs(x, 0, P);
    CongIs(y, 1, P);
    CongIs(y, -1, P);
    DivModUnique(x, P, 0, x);
    DivModUnique(y, P, 0, y);
    DivModUnique(-1, P, -1, P - 1);
  }

  /** The source accepts what section 5.1.3 accepts, and beyond that exactly the strings that are not canonical. */
  lemma DecodingsAgree<T(!new)>(c: Curve<T>, s: seq<byte>, a: T)
    requires IsEdwards(c) && |s| == 32
    ensures StrictlyDecodes(c, s, a) <==> Decodes(c, s, a) && CanonicalKey(s)
  {
    hide LeVal, Cong, IsEdwards, OnCurve, YOf, SignOf;
    YInRange(s);
    if StrictlyDecodes(c, s, a) {
      CongReflexive(YOf(s), P);
    }
    if Decodes(c, s, a) {
      ZeroXByBytes(c, s, a);
      if YOf(s) < P {
        DivModUnique(YOf(s), P, 0, YOf(s));
      }
    }
  }

  lemma YInRange(s: seq<byte>)
    requires |s| == 32
    ensures 0 <= YOf(s) < TWO255
  {
    hide LeVal;
  }
}
