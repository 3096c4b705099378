/**
 The points of order 1, 2, 4 and 8, first as algebra modulo an arbitrary q: doubling a point
 of the curve, and the coordinates that become those of the neutral element.
 */
module Torsion {
  import opened CurveAlgebra
  import opened Modular
  import opened Residues

  predicate Zero(a: int, q: int)
    requires q > 0
  {
    Cong(a, 0, q)
  }

  lemma ZeroSum(a: int, b: int, q: int)
    requires q > 0 && Zero(a, q) && Zero(b, q)
    ensures Zero(a + b, q) && Zero(a - b, q)
  {
    hide Cong;
    CongAdd(a, 0, b, 0, q);
  }

  lemma ZeroTimes(a: int, b: int, q: int)
    requires q > 0 && Zero(a, q)
    ensures Zero(a * b, q) && Zero(b * a, q)
  {
    hide Cong;
    CongReflexive(b, q);
    CongMul(a, 0, b, b, q);
  }

  lemma ZeroDifference(a: int, b: int, q: int)
    requires q > 0
    ensures Cong(a, b, q) <==> Zero(a - b, q)
  {
    hide Cong;
    CongReflexive(b, q);
    if Cong(a, b, q) {
      CongAdd(a, b, b, b, q);
    }
    if Zero(a - b, q) {
      CongAdd(a - b, 0, b, b, q);
    }
  }

  lemma ZeroProduct(a: int, b: int, q: int)
    requires q > 1 && Fermat(q)
    ensures Zero(a * b, q) <==> Zero(a, q) || Zero(b, q)
  {
    hide Cong, Fermat;
    if Zero(a, q) {
      ZeroTimes(a, b, q);
    } else if Zero(b, q) {
      ZeroTimes(b, a, q);
    } else {
      NoZeroDivisors(a, b, q);
    }
  }

  // ---------------------------------------------------------------------
  // The curve equation in u = x^2 and s = y^2.

  function Equation(u: int, s: int, d: int): int { s - u - 1 - d * (u * s) }

  lemma EquationOf(x: int, y: int, d: int, q: int)
    requires q > 1
    ensures OnCurve(x, y, d, q) <==> Zero(Equation(x * x, y * y, d), q)
  {
    hide Cong, OnCurve;
    OnCurveIs(x, y, d, q);
    var k := d * ((x * y) * (x * y));
    assert (x * y) * (x * y) == (x * x) * (y * y) by {
      Swap(x, y, x, y);
    }
    ZeroDifference(y * y - x * x, 1 + k, q);
  }

  lemma OnAxis(u: int, s: int, d: int)
    ensures Equation(u, s, d) == (s - 1) * (1 - d * u) - u * (1 + d)
    ensures Equation(u, s, d) == (s - 1) - u * (1 + d * s)
  {
  }

  /** x = 0 exactly for y = 1 and y = -1. */
  lemma AxisIs(x: int, y: int, d: int, q: int)
    requires q > 1 && Fermat(q) && !Zero(1 + d, q) && OnCurve(x, y, d, q)
    ensures Zero(x, q) <==> Zero(y - 1, q) || Zero(y + 1, q)
  {
    hide Cong, Fermat, OnCurve, Zero, Equation;
    var u, s := x * x, y * y;
    EquationOf(x, y, d, q);
    OnAxis(u, s, d);
    ZeroProduct(y - 1, y + 1, q);
    assert (y - 1) * (y + 1) == s - 1;
    ZeroProduct(x, x, q);
    if Zero(x, q) {
      ZeroTimes(u, 1 + d * s, q);
      ZeroSum(Equation(u, s, d), u * (1 + d * s), q);
    }
    if Zero(s - 1, q) {
      ZeroTimes(s - 1, 1 - d * u, q);
      ZeroSum((s - 1) * (1 - d * u), Equation(u, s, d), q);
      ZeroProduct(u, 1 + d, q);
    }
  }

  // ---------------------------------------------------------------------
  // Doubling.

  /** (X, Y) is twice (x, y). */
  ghost predicate Doubled(x: int, y: int, X: int, Y: int, d: int, q: int)
    requires q > 1
  {
    OnCurve(x, y, d, q) && AddLaw(x, y, x, y, X, Y, d, q)
  }

  lemma DoubledParts(x: int, y: int, X: int, Y: int, d: int, q: int) returns (k: int)
    requires q > 1 && Doubled(x, y, X, Y, d, q)
    ensures k == d * ((x * x) * (y * y)) && !Zero(1 + k, q) && !Zero(1 - k, q)
    ensures Zero(X * (1 + k) - 2 * (x * y), q) && Zero(Y * (1 - k) - (x * x + y * y), q)
    ensures Zero(Equation(x * x, y * y, d), q)
  {
    hide Cong, OnCurve, AddLaw, Equation;
    AddLawIs(x, y, x, y, X, Y, d, q);
    k := d * ((x * y) * (x * y));
    Swap(x, y, x, y);
    assert x * y + y * x == 2 * (x * y);
    ZeroDifference(X * (1 + k), 2 * (x * y), q);
    ZeroDifference(Y * (1 - k), x * x + y * y, q);
    EquationOf(x, y, d, q);
  }

  /** A ratio is zero exactly if its numerator is. */
  lemma ZeroRatio(Z: int, den: int, num: int, q: int)
    requires q > 1 && Fermat(q) && !Zero(den, q) && Zero(Z * den - num, q)
    ensures Zero(Z, q) <==> Zero(num, q)
  {
    hide Cong, Fermat, Zero;
    ZeroProduct(Z, den, q);
    if Zero(Z, q) {
      ZeroSum(Z * den, Z * den - num, q);
    }
    if Zero(num, q) {
      ZeroSum(Z * den - num, num, q);
    }
  }

  /** Twice a point has x = 0 exactly if a coordinate of it is 0, and y = 0 exactly if its squares cancel. */
  lemma DoubledZeros(x: int, y: int, X: int, Y: int, d: int, q: int)
    requires q > 1 && Fermat(q) && !Zero(2, q) && Doubled(x, y, X, Y, d, q)
    ensures Zero(X, q) <==> Zero(x, q) || Zero(y, q)
    ensures Zero(Y, q) <==> Zero(x * x + y * y, q)
  {
    hide Cong, Fermat, Zero, Doubled, Equation;
    var k := DoubledParts(x, y, X, Y, d, q);
    ZeroRatio(X, 1 + k, 2 * (x * y), q);
    ZeroRatio(Y, 1 - k, x * x + y * y, q);
    ZeroProduct(2, x * y, q);
    ZeroProduct(x, y, q);
  }

  /** Twice a point is neutral exactly if its x is 0. */
  lemma DoubledNeutral(x: int, y: int, X: int, Y: int, d: int, q: int)
    requires q > 1 && Fermat(q) && !Zero(2, q) && Doubled(x, y, X, Y, d, q)
    ensures Zero(X, q) && Zero(Y - 1, q) <==> Zero(x, q)
  {
    hide Cong, Fermat, Zero, Doubled, Equation;
    DoubledZeros(x, y, X, Y, d, q);
    var k := DoubledParts(x, y, X, Y, d, q);
    var u, s := x * x, y * y;
    ZeroProduct(x, x, q);
    ZeroProduct(y, y, q);
    OnAxis(u, s, d);
    if Zero(x, q) {
      XIsZero(Y, u, s, d, k, q);
    } else if Zero(y, q) {
      YIsZero(Y, u, s, d, k, q);
    }
  }

  lemma XIsZero(Y: int, u: int, s: int, d: int, k: int, q: int)
    requires q > 1 && Fermat(q) && Zero(u, q) && Zero(Equation(u, s, d), q) && k == d * (u * s) && !Zero(1 - k, q)
    requires Zero(Y * (1 - k) - (u + s), q)
    ensures Zero(Y - 1, q)
  {
    hide Cong, Fermat, Zero;
    ZeroTimes(u, s, q);
    ZeroTimes(u * s, d, q);
    ZeroSum(Equation(u, s, d), u, q);
    ZeroSum(Equation(u, s, d) + u, k, q);
    assert Equation(u, s, d) + u + k == s - 1;
    ZeroSum(Y * (1 - k) - (u + s), u, q);
    ZeroSum(Y * (1 - k) - s, s - 1, q);
    ZeroSum(Y * (1 - k) - 1, k, q);
    assert Y * (1 - k) - 1 + k == (Y - 1) * (1 - k);
    ZeroProduct(Y - 1, 1 - k, q);
  }

  lemma YIsZero(Y: int, u: int, s: int, d: int, k: int, q: int)
    requires q > 1 && Fermat(q) && Zero(s, q) && Zero(Equation(u, s, d), q) && k == d * (u * s) && !Zero(1 - k, q)
    requires Zero(Y * (1 - k) - (u + s), q) && !Zero(2, q)
    ensures !Zero(Y - 1, q)
  {
    hide Cong, Fermat, Zero;
    ZeroTimes(s, u, q);
    ZeroTimes(u * s, d, q);
    ZeroSum(Equation(u, s, d), s, q);
    ZeroSum(Equation(u, s, d) - s, k, q);
    assert Equation(u, s, d) - s + k == -u - 1;
    ZeroSum(Y * (1 - k) - (u + s), s, q);
    ZeroSum(Y * (1 - k) - u, -u - 1, q);
    ZeroSum(Y * (1 - k) + 1, k, q);
    assert Y * (1 - k) + 1 - k == (Y + 1) * (1 - k);
    ZeroProduct(Y + 1, 1 - k, q);
    if Zero(Y - 1, q) {
      ZeroSum(Y + 1, Y - 1, q);
    }
  }

  // ---------------------------------------------------------------------
  // Points whose squares cancel.

  function Quartic(s: int, d: int): int { d * (s * s) + 2 * s - 1 }

  lemma Combined(u: int, s: int, d: int)
    ensures Quartic(s, d) == Equation(u, s, d) + (u + s) * (1 + d * s)
  {
  }

  lemma CancelRoot(u: int, s: int, d: int, q: int)
    requires q > 1 && Zero(Equation(u, s, d), q) && Zero(u + s, q)
    ensures Zero(Quartic(s, d), q)
  {
    hide Cong, Zero, Equation, Quartic;
    Combined(u, s, d);
    ZeroTimes(u + s, 1 + d * s, q);
    ZeroSum(Equation(u, s, d), (u + s) * (1 + d * s), q);
  }

  /** On the curve the squares cancel exactly if y^2 is a root of d s^2 + 2 s - 1. */
  lemma CancelIs(u: int, s: int, d: int, q: int)
    requires q > 1 && Fermat(q) && Zero(Equation(u, s, d), q) && !Zero(1 + d * s, q)
    ensures Zero(u + s, q) <==> Zero(Quartic(s, d), q)
  {
    hide Cong, Fermat, Zero, Equation, Quartic;
    Combined(u, s, d);
    ZeroProduct(u + s, 1 + d * s, q);
    if Zero(u + s, q) {
      CancelRoot(u, s, d, q);
    }
    if Zero(Quartic(s, d), q) {
      ZeroSum(Quartic(s, d), Equation(u, s, d), q);
    }
  }

  lemma QuarticFactors(s: int, r: int, d: int)
    ensures Quartic(s, d) - Quartic(r, d) == (s - r) * (d * (s + r) + 2)
    ensures s * (d * (s + r) + 2) - Quartic(s, d) == d * (s * r) + 1
  {
    var ss, sr, rr := s * s, s * r, r * r;
    assert s * (d * (s + r)) == d * (ss + sr) by {
      Turned(s, d, s, r);
    }
    assert r * (d * (s + r)) == d * (sr + rr) by {
      Turned(r, d, s, r);
    }
    Spread(s, r, d * (s + r));
    Distribute(d, ss, sr, rr);
  }

  lemma Turned(a: int, d: int, s: int, r: int)
    ensures a * (d * (s + r)) == d * (a * s + a * r)
  {
    Assoc(a, d, s + r);
    Assoc(d, a, s + r);
  }

  lemma Spread(s: int, r: int, e: int)
    ensures (s - r) * (e + 2) == s * e - r * e + 2 * s - 2 * r && s * (e + 2) == s * e + 2 * s
  {
  }

  lemma Distribute(d: int, a: int, b: int, c: int)
    ensures d * (a + b) == d * a + d * b && d * (b + c) == d * b + d * c
  {
  }

  /** Two roots are equal, or -1 / d is their product. */
  lemma TwoRoots(s: int, r: int, d: int, q: int)
    requires q > 1 && Fermat(q) && Zero(Quartic(s, d), q) && Zero(Quartic(r, d), q)
    ensures Zero(s - r, q) || Zero(d * (s * r) + 1, q)
  {
    hide Cong, Fermat, Zero, Quartic;
    QuarticFactors(s, r, d);
    ZeroSum(Quartic(s, d), Quartic(r, d), q);
    ZeroProduct(s - r, d * (s + r) + 2, q);
    if Zero(d * (s + r) + 2, q) {
      ZeroTimes(d * (s + r) + 2, s, q);
      ZeroSum(s * (d * (s + r) + 2), Quartic(s, d), q);
    }
  }

  lemma SquareOf(d: int, u: int, s: int, v: int, r: int)
    ensures (d * d) * ((u * s) * (v * r)) - 1
            == (d * d) * (s * r) * (u * (v + r) - r * (u + s)) + (d * (s * r) - 1) * (d * (s * r) + 1)
  {
    var m, e := s * r, d * d;
    assert (u * s) * (v * r) == m * (u * v) by {
      Swap(u, s, v, r);
    }
    assert u * (v + r) - r * (u + s) == u * v - m;
    assert e * m * (u * v - m) == e * (m * (u * v)) - e * (m * m) by {
      Assoc(e, m, u * v);
      Assoc(e, m, m);
    }
    assert (d * m) * (d * m) == e * (m * m) by {
      Swap(d, m, d, m);
    }
  }

  /** With the second kind of roots the addition law would have an exception. */
  lemma NoSecondRoot(x: int, y: int, v: int, w: int, X: int, Y: int, d: int, q: int)
    requires q > 1 && Fermat(q) && AddLaw(x, y, v, w, X, Y, d, q)
    requires Zero(x * x + y * y, q) && Zero(v * v + w * w, q)
    ensures !Zero(d * ((y * y) * (w * w)) + 1, q)
  {
    hide Cong, Fermat, Zero, AddLaw;
    AddLawIs(x, y, v, w, X, Y, d, q);
    var k := d * ((x * y) * (v * w));
    assert !Zero(1 + k, q) && !Zero(1 - k, q) by {
      NotZero(1 + k, q);
      NotZero(1 - k, q);
    }
    var a, b, e, f := x * x, y * y, v * v, w * w;
    if Zero(d * (b * f) + 1, q) {
      ZeroTimes(e + f, a, q);
      ZeroTimes(a + b, f, q);
      ZeroSum(a * (e + f), f * (a + b), q);
      ZeroTimes(a * (e + f) - f * (a + b), (d * d) * (b * f), q);
      ZeroTimes(d * (b * f) + 1, d * (b * f) - 1, q);
      ZeroSum((d * d) * (b * f) * (a * (e + f) - f * (a + b)), (d * (b * f) - 1) * (d * (b * f) + 1), q);
      SquareOf(d, a, b, e, f);
      assert k * k == (d * d) * ((a * b) * (e * f)) by {
        KSquared(d, x, y, v, w);
      }
      assert (1 + k) * (1 - k) == -(k * k - 1);
      ZeroTimes(k * k - 1, -1, q);
      ZeroProduct(1 + k, 1 - k, q);
    }
  }

  /** Two points whose squares cancel, and to which the law applies, have the same y up to sign. */
  lemma CancelTwice(x: int, y: int, v: int, w: int, X: int, Y: int, d: int, q: int)
    requires q > 1 && Fermat(q) && OnCurve(x, y, d, q) && OnCurve(v, w, d, q) && AddLaw(x, y, v, w, X, Y, d, q)
    requires Zero(x * x + y * y, q) && Zero(v * v + w * w, q)
    ensures Zero(y - w, q) || Zero(y + w, q)
  {
    hide Cong, Fermat, Zero, AddLaw, OnCurve, Equation, Quartic;
    EquationOf(x, y, d, q);
    EquationOf(v, w, d, q);
    CancelRoot(x * x, y * y, d, q);
    CancelRoot(v * v, w * w, d, q);
    TwoRoots(y * y, w * w, d, q);
    NoSecondRoot(x, y, v, w, X, Y, d, q);
    assert (y - w) * (y + w) == y * y - w * w;
    ZeroProduct(y - w, y + w, q);
  }

  /** A point with such a y has squares that cancel. */
  lemma SameCancel(x: int, y: int, w: int, d: int, q: int)
    requires q > 1 && Fermat(q) && OnCurve(x, y, d, q) && Zero(Quartic(w * w, d), q) && !Zero(1 + d * (w * w), q)
    requires Zero(y - w, q) || Zero(y + w, q)
    ensures Zero(x * x + y * y, q)
  {
    hide Cong, Fermat, Zero, OnCurve, Equation, Quartic;
    var s, r := y * y, w * w;
    EquationOf(x, y, d, q);
    assert (y - w) * (y + w) == s - r;
    ZeroProduct(y - w, y + w, q);
    QuarticFactors(s, r, d);
    ZeroTimes(s - r, d * (s + r) + 2, q);
    ZeroSum(Quartic(s, d) - Quartic(r, d), Quartic(r, d), q);
    ZeroTimes(s - r, d, q);
    assert 1 + d * s - d * (s - r) == 1 + d * r;
    if Zero(1 + d * s, q) {
      ZeroSum(1 + d * s, d * (s - r), q);
    }
    CancelIs(x * x, s, d, q);
  }

  lemma NotZero(a: int, q: int)
    requires q > 0 && !Cong(a, 0, q)
    ensures !Zero(a, q)
  {
    hide Cong;
  }

  lemma KSquared(d: int, x: int, y: int, v: int, w: int)
    ensures (d * ((x * y) * (v * w))) * (d * ((x * y) * (v * w)))
            == (d * d) * (((x * x) * (y * y)) * ((v * v) * (w * w)))
  {
    var g, h := x * y, v * w;
    Swap(d, g * h, d, g * h);
    Swap(g, h, g, h);
    Swap(x, y, x, y);
    Swap(v, w, v, w);
  }
}
