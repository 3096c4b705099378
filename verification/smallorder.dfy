/**
 What the list of small_order is: the y coordinates of the points a with 8 a = 0, each plus
 every multiple of p that fits 256 bits.
 */
module SmallOrderPoints {
  import opened CurveAlgebra
  import opened Edwards
  import opened Groups
  import opened Modular
  import opened PointCodec
  import opened Residues
  import opened SignatureChecks
  import opened Torsion
  import Field25519
  import FieldBytes

  const P := Field25519.P

  /** An x that belongs to the y coordinate ORDER8_LOW, and one that belongs to y = 0. */
  const ORDER8_X: int := 14399317868200118260347934320527232580618823971194345261214217575416788799818
  const ORDER4_X: int := 19681161376707505956807079304988542015446066515923890162744021073123829784752

  lemma ZeroIs(v: int)
    requires 0 <= v < P
    ensures (Zero(v, P) <==> v == 0) && (Zero(v - 1, P) <==> v == 1) && (Zero(v + 1, P) <==> v == P - 1)
  {
    hide Cong;
    CongIs(v, 0, P);
    CongIs(v - 1, 0, P);
    CongIs(v + 1, 0, P);
  }

  lemma FieldFacts()
    ensures !Zero(2, P) && !Zero(1 + D, P)
  {
    hide Cong;
    CongIs(2, 0, P);
    CongIs(1 + D, 0, P);
  }

  // ---------------------------------------------------------------------
  // Doubling.

  lemma TwiceIs<T(!new)>(c: Curve<T>, a: T)
    requires IsEdwards(c)
    ensures var t := c.group.add(a, a);
            && 0 <= c.x(t) < P && 0 <= c.y(t) < P && 0 <= c.x(a) < P && 0 <= c.y(a) < P
            && OnCurve(c.x(t), c.y(t), D, P) && Doubled(c.x(a), c.y(a), c.x(t), c.y(t), D, P)
  {
    hide IsEdwards, OnCurve, AddLaw, Cong;
    LawsAt(c, a, a);
    LawsAt(c, c.group.add(a, a), a);
  }

  lemma NeutralIs<T(!new)>(c: Curve<T>, a: T)
    requires IsEdwards(c) && AllPoints(c)
    ensures a == c.group.zero <==> c.x(a) == 0 && c.y(a) == 1
  {
    hide Abelian, Fermat, Laws, OnCurve;
    assert Pair(a, c.group.zero);
  }

  lemma FermatOf<T(!new)>(c: Curve<T>)
    requires IsEdwards(c)
    ensures Fermat(P) && Abelian(c.group)
  {
    hide Fermat, Abelian, Laws;
  }

  lemma TwiceNeutral<T(!new)>(c: Curve<T>, a: T)
    requires IsEdwards(c) && AllPoints(c)
    ensures c.group.add(a, a) == c.group.zero <==> c.x(a) == 0
  {
    hide IsEdwards, AllPoints, OnCurve, Doubled, Zero, Fermat, Abelian;
    var t := c.group.add(a, a);
    FermatOf(c);
    FieldFacts();
    TwiceIs(c, a);
    NeutralIs(c, t);
    ZeroIs(c.x(t));
    ZeroIs(c.y(t));
    ZeroIs(c.x(a));
    DoubledNeutral(c.x(a), c.y(a), c.x(t), c.y(t), D, P);
  }

  lemma TwiceZeros<T(!new)>(c: Curve<T>, a: T)
    requires IsEdwards(c)
    ensures var t := c.group.add(a, a);
            && (c.x(t) == 0 <==> c.x(a) == 0 || c.y(a) == 0)
            && (c.y(t) == 0 <==> Cancels(c.x(a), c.y(a), P))
  {
    hide IsEdwards, OnCurve, Doubled, Zero, Fermat, Abelian, Cancels;
    var t := c.group.add(a, a);
    FermatOf(c);
    FieldFacts();
    TwiceIs(c, a);
    ZeroIs(c.x(t));
    ZeroIs(c.y(t));
    ZeroIs(c.x(a));
    ZeroIs(c.y(a));
    DoubledAt(c.x(a), c.y(a), c.x(t), c.y(t), D, P);
  }

  /** x^2 + y^2 = 0. */
  ghost predicate Cancels(x: int, y: int, q: int)
    requires q > 1
  {
    Zero(Prod(x, x) + Prod(y, y), q)
  }

  lemma CancelsIs(x: int, y: int, q: int)
    requires q > 1
    ensures Cancels(x, y, q) <==> Zero(x * x + y * y, q)
  {
    hide Zero, Prod;
    ProdIs(x, x);
    ProdIs(y, y);
  }

  lemma DoubledAt(x: int, y: int, X: int, Y: int, d: int, q: int)
    requires q > 1 && Fermat(q) && !Zero(2, q) && Doubled(x, y, X, Y, d, q)
    ensures (Zero(X, q) <==> Zero(x, q) || Zero(y, q)) && (Zero(Y, q) <==> Cancels(x, y, q))
  {
    hide Zero, Fermat, Doubled, Cancels;
    DoubledZeros(x, y, X, Y, d, q);
    CancelsIs(x, y, q);
  }

  /** 8 a = 0 exactly if a coordinate of a is 0 or its squares cancel. */
  lemma EightTimes<T(!new)>(c: Curve<T>, a: T)
    requires IsEdwards(c) && AllPoints(c)
    ensures Mul(c.group, 8, a) == c.group.zero <==> c.x(a) == 0 || c.y(a) == 0 || Cancels(c.x(a), c.y(a), P)
  {
    hide IsEdwards, AllPoints, Cancels, Abelian, Fermat, Mul;
    FermatOf(c);
    MulSmall(c.group, a);
    MulDouble(c.group, 1, a);
    MulDouble(c.group, 2, a);
    MulDouble(c.group, 4, a);
    TwiceNeutral(c, Mul(c.group, 4, a));
    TwiceZeros(c, Mul(c.group, 2, a));
    TwiceZeros(c, a);
  }

  // ---------------------------------------------------------------------
  // The points of order 4 and 8.

  lemma RootFacts()
    ensures ORDER8_LOW + ORDER8_HIGH == P && 0 < ORDER8_LOW < P && 0 < ORDER8_X < P
    ensures Zero(Quartic(ORDER8_LOW * ORDER8_LOW, D), P) && !Zero(1 + D * (ORDER8_LOW * ORDER8_LOW), P)
  {
    hide Cong;
    CongIs(Quartic(ORDER8_LOW * ORDER8_LOW, D), 0, P);
    CongIs(1 + D * (ORDER8_LOW * ORDER8_LOW), 0, P);
  }

  lemma Order8Point()
    ensures OnCurve(ORDER8_X, ORDER8_LOW, D, P) && Zero(ORDER8_X * ORDER8_X + ORDER8_LOW * ORDER8_LOW, P)
  {
    hide Cong, OnCurve;
    var x, y := ORDER8_X, ORDER8_LOW;
    EquationOf(x, y, D, P);
    CongIs(Equation(x * x, y * y, D), 0, P);
    CongIs(x * x + y * y, 0, P);
  }

  lemma Order4Point()
    ensures 0 < ORDER4_X < P && OnCurve(ORDER4_X, 0, D, P)
  {
    hide Cong, OnCurve;
    EquationOf(ORDER4_X, 0, D, P);
    CongIs(Equation(ORDER4_X * ORDER4_X, 0, D), 0, P);
  }

  lemma UpToSign(v: int)
    requires 0 <= v < P
    ensures (Zero(v - ORDER8_LOW, P) <==> v == ORDER8_LOW) && (Zero(v + ORDER8_LOW, P) <==> v == ORDER8_HIGH)
  {
    hide Cong;
    CongIs(v - ORDER8_LOW, 0, P);
    CongIs(v + ORDER8_LOW, 0, P);
  }

  /** The squares of a point cancel exactly for two values of y. */
  lemma Order8Is<T(!new)>(c: Curve<T>, a: T)
    requires IsEdwards(c) && AllPoints(c)
    ensures Cancels(c.x(a), c.y(a), P) <==> c.y(a) == ORDER8_LOW || c.y(a) == ORDER8_HIGH
  {
    hide IsEdwards, AllPoints, OnCurve, AddLaw, Zero, Fermat, Abelian, Cancels, Quartic;
    var x, y := c.x(a), c.y(a);
    FermatOf(c);
    RootFacts();
    Order8Point();
    var b := PointAt(c, ORDER8_X, ORDER8_LOW);
    LawsAt(c, a, b);
    UpToSign(y);
    CancelsIs(ORDER8_X, ORDER8_LOW, P);
    if Cancels(x, y, P) {
      var t := c.group.add(a, b);
      CancelBoth(x, y, ORDER8_X, ORDER8_LOW, c.x(t), c.y(t), D, P);
    }
    if y == ORDER8_LOW || y == ORDER8_HIGH {
      CancelSame(x, y, ORDER8_LOW, D, P);
    }
  }

  lemma CancelBoth(x: int, y: int, v: int, w: int, X: int, Y: int, d: int, q: int)
    requires q > 1 && Fermat(q) && OnCurve(x, y, d, q) && OnCurve(v, w, d, q) && AddLaw(x, y, v, w, X, Y, d, q)
    requires Cancels(x, y, q) && Cancels(v, w, q)
    ensures Zero(y - w, q) || Zero(y + w, q)
  {
    hide Fermat, OnCurve, AddLaw, Zero, Cancels;
    CancelsIs(x, y, q);
    CancelsIs(v, w, q);
    CancelTwice(x, y, v, w, X, Y, d, q);
  }

  lemma CancelSame(x: int, y: int, w: int, d: int, q: int)
    requires q > 1 && Fermat(q) && OnCurve(x, y, d, q) && Zero(Quartic(w * w, d), q) && !Zero(1 + d * (w * w), q)
    requires Zero(y - w, q) || Zero(y + w, q)
    ensures Cancels(x, y, q)
  {
    hide Fermat, OnCurve, Zero, Cancels, Quartic;
    SameCancel(x, y, w, d, q);
    CancelsIs(x, y, q);
  }

  // ---------------------------------------------------------------------
  // The list.

  /** The five values of y. */
  predicate SmallY(y: int) { y == 0 || y == 1 || y == P - 1 || y == ORDER8_LOW || y == ORDER8_HIGH }

  /** 8 a = 0 exactly for five values of y. */
  lemma TorsionIs<T(!new)>(c: Curve<T>, a: T)
    requires IsEdwards(c) && AllPoints(c)
    ensures Mul(c.group, 8, a) == c.group.zero <==> SmallY(c.y(a))
  {
    hide IsEdwards, AllPoints, OnCurve, AddLaw, Zero, Fermat, Abelian, Cancels, Mul;
    FermatOf(c);
    FieldFacts();
    EightTimes(c, a);
    Order8Is(c, a);
    LawsAt(c, a, a);
    ZeroIs(c.x(a));
    ZeroIs(c.y(a));
    AxisIs(c.x(a), c.y(a), D, P);
  }

  /** Each of the five is the y of some point. */
  lemma SmallPoint<T(!new)>(c: Curve<T>, y: int) returns (a: T)
    requires IsEdwards(c) && AllPoints(c) && SmallY(y)
    ensures c.y(a) == y
  {
    hide IsEdwards, AllPoints, OnCurve, Zero, Fermat, Abelian, Laws;
    RootFacts();
    Order4Point();
    Order8Point();
    NegatedY(ORDER8_X, ORDER8_LOW, D, P);
    NeutralIs(c, c.group.zero);
    AxisPoint();
    if y == 0 {
      a := PointAt(c, ORDER4_X, 0);
    } else if y == 1 {
      a := c.group.zero;
    } else if y == P - 1 {
      a := PointAt(c, 0, P - 1);
    } else if y == ORDER8_LOW {
      a := PointAt(c, ORDER8_X, ORDER8_LOW);
    } else {
      a := PointAt(c, ORDER8_X, ORDER8_HIGH);
    }
  }

  lemma AxisPoint()
    ensures OnCurve(0, P - 1, D, P)
  {
    hide Cong, OnCurve;
    EquationOf(0, P - 1, D, P);
    CongIs(Equation(0, (P - 1) * (P - 1), D), 0, P);
  }

  lemma NegatedY(x: int, y: int, d: int, q: int)
    requires q > 1 && OnCurve(x, y, d, q)
    ensures OnCurve(x, q - y, d, q)
  {
    hide Cong, OnCurve;
    CongReflexive(x, q);
    CongBy(q - y, -y, 1, q);
    CongSym(q - y, -y, q);
    EquationOf(x, y, d, q);
    EquationOf(x, -y, d, q);
    assert (-y) * (-y) == y * y;
    OnCurveEq(x, x, -y, q - y, d, q);
  }

  /** The listed numbers are the 256-bit numbers with one of the five residues. */
  lemma ListedResidues(v: int)
    requires 0 <= v < 2 * FieldBytes.TWO255
    ensures v in SmallOrderValues() <==> SmallY(v % P)
  {
    assert v % P == if v < P then v else if v < 2 * P then v - P else v - 2 * P;
    assert v in SmallOrderValues() <==> exists i: nat :: i < 12 && v == Listed(i);
    if SmallY(v % P) {
      assert v in {0, 1, ORDER8_LOW, ORDER8_HIGH, P + ORDER8_LOW, P + ORDER8_HIGH,
                   P - 1, P, P + 1, 2 * P - 1, 2 * P, 2 * P + 1};
      assert Listed(0) == 0 && Listed(1) == 1 && Listed(2) == ORDER8_LOW && Listed(3) == ORDER8_HIGH;
      assert Listed(4) == P + ORDER8_LOW && Listed(5) == P + ORDER8_HIGH && Listed(6) == P - 1 && Listed(7) == P;
      assert Listed(8) == P + 1 && Listed(9) == 2 * P - 1 && Listed(10) == 2 * P && Listed(11) == 2 * P + 1;
    }
  }

  /** A number is listed exactly if it is, modulo p, the y of a point a with 8 a = 0. */
  lemma ListedIsTorsion<T(!new)>(c: Curve<T>, v: int)
    requires IsEdwards(c) && AllPoints(c) && 0 <= v < 2 * FieldBytes.TWO255
    ensures v in SmallOrderValues() <==> exists a :: c.y(a) == v % P && Mul(c.group, 8, a) == c.group.zero
  {
    hide IsEdwards, AllPoints, SmallOrderValues, SmallY, Mul;
    ListedResidues(v);
    if SmallY(v % P) {
      var a := SmallPoint(c, v % P);
      TorsionIs(c, a);
    }
    forall a | c.y(a) == v % P && Mul(c.group, 8, a) == c.group.zero
      ensures SmallY(v % P)
    {
      TorsionIs(c, a);
    }
  }

  /** The test knows the encoding of such a point exactly if its sign bit is clear. */
  lemma TorsionListed<T(!new)>(c: Curve<T>, a: T)
    requires IsEdwards(c) && AllPoints(c) && Mul(c.group, 8, a) == c.group.zero
    ensures EncodedVal(c, a) in SmallOrderValues() <==> c.x(a) % 2 == 0
  {
    hide IsEdwards, AllPoints, OnCurve, AddLaw, Zero, Fermat, Abelian, Mul, SmallOrderValues;
    TorsionIs(c, a);
    FermatOf(c);
    FieldFacts();
    LawsAt(c, a, a);
    ZeroIs(c.x(a));
    ZeroIs(c.y(a));
    AxisIs(c.x(a), c.y(a), D, P);
    ListedResidues(EncodedVal(c, a));
  }
}
