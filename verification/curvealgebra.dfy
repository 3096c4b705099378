/**
 The twisted Edwards curve -x^2 + y^2 = 1 + d x^2 y^2 over the residues modulo q:
 the identities behind the point formulas, for every d and q.
 */
module CurveAlgebra {
  import opened Modular
  import opened Residues

  /** x = X / Z and y = Y / Z. */
  ghost predicate Projective(x: int, y: int, X: int, Y: int, Z: int, q: int)
    requires q > 1
  {
    Cong(X, Prod(x, Z), q) && Cong(Y, Prod(y, Z), q) && !Cong(Z, 0, q)
  }

  lemma ProjectiveIs(x: int, y: int, X: int, Y: int, Z: int, q: int)
    requires q > 1
    ensures Projective(x, y, X, Y, Z, q) <==> Cong(X, x * Z, q) && Cong(Y, y * Z, q) && !Cong(Z, 0, q)
  {
    hide Cong, Prod;
    ProdIs(x, Z);
    ProdIs(y, Z);
  }

  /** x y z. */
  function Product3(x: int, y: int, z: int): int { Prod(Prod(x, y), z) }

  lemma Product3Is(x: int, y: int, z: int)
    ensures Product3(x, y, z) == (x * y) * z
  {
    hide Prod;
    ProdIs(x, y);
    ProdIs(x * y, z);
  }

  /** Projective coordinates with T = x y Z. */
  ghost predicate Extended(x: int, y: int, X: int, Y: int, Z: int, T: int, q: int)
    requires q > 1
  {
    Projective(x, y, X, Y, Z, q) && Cong(T, Product3(x, y, Z), q)
  }

  lemma ExtendedIs(x: int, y: int, X: int, Y: int, Z: int, T: int, q: int)
    requires q > 1
    ensures Extended(x, y, X, Y, Z, T, q)
            <==> Cong(X, x * Z, q) && Cong(Y, y * Z, q) && !Cong(Z, 0, q) && Cong(T, (x * y) * Z, q)
  {
    hide Cong, Projective, Product3;
    ProjectiveIs(x, y, X, Y, Z, q);
    Product3Is(x, y, Z);
  }

  /** x = X / Z and y = Y / T. */
  ghost predicate Ratios(x: int, y: int, X: int, Y: int, Z: int, T: int, q: int)
    requires q > 1
  {
    Cong(X, Prod(x, Z), q) && Cong(Y, Prod(y, T), q) && !Cong(Z, 0, q) && !Cong(T, 0, q)
  }

  lemma RatiosAre(x: int, y: int, X: int, Y: int, Z: int, T: int, q: int)
    requires q > 1
    ensures Ratios(x, y, X, Y, Z, T, q) <==> Cong(X, x * Z, q) && Cong(Y, y * T, q) && !Cong(Z, 0, q) && !Cong(T, 0, q)
  {
    hide Cong, Prod;
    ProdIs(x, Z);
    ProdIs(y, T);
  }

  /** The second operand of an addition, scaled by z: y + x, y - x and 2 d x y. */
  ghost predicate Addend(x: int, y: int, z: int, yp: int, ym: int, t2d: int, d: int, q: int)
    requires q > 1
  {
    && !Cong(z, 0, q)
    && Cong(yp, Prod(y + x, z), q) && Cong(ym, Prod(y - x, z), q) && Cong(t2d, Prod(2 * d, Product3(x, y, z)), q)
  }

  lemma AddendIs(x: int, y: int, z: int, yp: int, ym: int, t2d: int, d: int, q: int)
    requires q > 1
    ensures Addend(x, y, z, yp, ym, t2d, d, q)
            <==> && !Cong(z, 0, q) && Cong(yp, (y + x) * z, q) && Cong(ym, (y - x) * z, q)
                 && Cong(t2d, (2 * d) * ((x * y) * z), q)
  {
    hide Cong, Prod, Product3;
    ProdIs(y + x, z);
    ProdIs(y - x, z);
    Product3Is(x, y, z);
    ProdIs(2 * d, (x * y) * z);
  }

  /** X = u - v, Y = u + v, Z = t + w, T = t - w for the four products u, v, w, t. */
  ghost predicate Products(x1: int, y1: int, z1: int, x2: int, y2: int, z2: int, u: int, v: int, w: int, t: int, d: int,
                           q: int)
    requires q > 1
  {
    && Cong(u, ((y1 + x1) * z1) * ((y2 + x2) * z2), q)
    && Cong(v, ((y1 - x1) * z1) * ((y2 - x2) * z2), q)
    && Cong(w, ((2 * d) * ((x2 * y2) * z2)) * ((x1 * y1) * z1), q)
    && Cong(t, 2 * (z1 * z2), q)
  }

  lemma SumNumerators(x1: int, y1: int, z1: int, x2: int, y2: int, z2: int)
    ensures ((y1 + x1) * z1) * ((y2 + x2) * z2) - ((y1 - x1) * z1) * ((y2 - x2) * z2)
            == (2 * (z1 * z2)) * (x1 * y2 + y1 * x2)
    ensures ((y1 + x1) * z1) * ((y2 + x2) * z2) + ((y1 - x1) * z1) * ((y2 - x2) * z2)
            == (2 * (z1 * z2)) * (y1 * y2 + x1 * x2)
  {
    Swap(y1 + x1, z1, y2 + x2, z2);
    Swap(y1 - x1, z1, y2 - x2, z2);
    Foil(x1, y1, x2, y2, z1 * z2);
  }

  lemma Foil(x1: int, y1: int, x2: int, y2: int, w: int)
    ensures ((y1 + x1) * (y2 + x2)) * w - ((y1 - x1) * (y2 - x2)) * w == (2 * w) * (x1 * y2 + y1 * x2)
    ensures ((y1 + x1) * (y2 + x2)) * w + ((y1 - x1) * (y2 - x2)) * w == (2 * w) * (y1 * y2 + x1 * x2)
  {
    var a, b := (y1 + x1) * (y2 + x2), (y1 - x1) * (y2 - x2);
    assert a == y1 * y2 + y1 * x2 + x1 * y2 + x1 * x2;
    assert b == y1 * y2 - y1 * x2 - x1 * y2 + x1 * x2;
    assert a * w - b * w == (a - b) * w && a * w + b * w == (a + b) * w;
  }

  lemma SumDenominators(x1: int, y1: int, z1: int, x2: int, y2: int, z2: int, d: int)
    ensures ((2 * d) * ((x2 * y2) * z2)) * ((x1 * y1) * z1) == (2 * (z1 * z2)) * (d * ((x1 * y1) * (x2 * y2)))
  {
    var a, b := x1 * y1, x2 * y2;
    Swap(b, z2, a, z1);
    assert ((2 * d) * (b * z2)) * (a * z1) == (2 * d) * ((b * z2) * (a * z1)) by { Assoc(2 * d, b * z2, a * z1); }
    assert (b * z2) * (a * z1) == (a * b) * (z1 * z2);
    Scaled(d, a * b, z1 * z2);
  }

  lemma Scaled(d: int, m: int, w: int)
    ensures (2 * d) * (m * w) == (2 * w) * (d * m)
  {
    assert d * (m * w) == w * (d * m);
  }

  /** num = x den, up to the common factor m, when x times the law's denominator is its numerator. */
  lemma OneCoordinate(m: int, x: int, e: int, n: int, num: int, den: int, den': int, q: int)
    requires q > 1 && Fermat(q) && !Cong(m, 0, q) && !Cong(e, 0, q) && Cong(x * e, n, q)
    requires Cong(num, m * n, q) && Cong(den, den', q) && den' == m * e
    ensures Cong(num, x * den, q) && !Cong(den, 0, q)
  {
    hide Cong, Fermat;
    CongReflexive(m, q);
    CongReflexive(x, q);
    CongMul(m, m, x * e, n, q);
    assert m * (x * e) == x * (m * e) by { Assoc(m, x, e); Assoc(x, m, e); }
    CongMul(x, x, den, den', q);
    CongTrans(x * den, x * (m * e), m * n, q);
    CongTrans(num, m * n, x * den, q);
    NoZeroDivisors(m, e, q);
    CongSym(den, den', q);
    if Cong(den, 0, q) {
      CongTrans(den', den, 0, q);
    }
  }

  predicate OnCurve(x: int, y: int, d: int, q: int)
    requires q > 1
  {
    Cong(Prod(y, y) - Prod(x, x), 1 + Prod(d, Prod(Prod(x, y), Prod(x, y))), q)
  }

  /** y^2 - x^2 = 1 + d x^2 y^2. */
  lemma OnCurveIs(x: int, y: int, d: int, q: int)
    requires q > 1
    ensures OnCurve(x, y, d, q) <==> Cong(y * y - x * x, 1 + d * ((x * y) * (x * y)), q)
  {
    hide Cong, Prod;
    ProdIs(y, y);
    ProdIs(x, x);
    ProdIs(x, y);
    ProdIs(x * y, x * y);
    ProdIs(d, (x * y) * (x * y));
  }

  /** (x3, y3) is the sum of (x1, y1) and (x2, y2), and the law has no exception there. */
  ghost predicate AddLaw(x1: int, y1: int, x2: int, y2: int, x3: int, y3: int, d: int, q: int)
    requires q > 1
  {
    var k := Prod(d, Prod(Prod(x1, y1), Prod(x2, y2)));
    && !Cong(1 + k, 0, q) && !Cong(1 - k, 0, q)
    && Cong(Prod(x3, 1 + k), Prod(x1, y2) + Prod(y1, x2), q)
    && Cong(Prod(y3, 1 - k), Prod(y1, y2) + Prod(x1, x2), q)
  }

  lemma AddLawIs(x1: int, y1: int, x2: int, y2: int, x3: int, y3: int, d: int, q: int)
    requires q > 1
    ensures var k := d * ((x1 * y1) * (x2 * y2));
            AddLaw(x1, y1, x2, y2, x3, y3, d, q)
            <==> && !Cong(1 + k, 0, q) && !Cong(1 - k, 0, q)
                 && Cong(x3 * (1 + k), x1 * y2 + y1 * x2, q) && Cong(y3 * (1 - k), y1 * y2 + x1 * x2, q)
  {
    hide Cong, Prod;
    var k := d * ((x1 * y1) * (x2 * y2));
    ProdIs(x1, y1);
    ProdIs(x2, y2);
    ProdIs(x1 * y1, x2 * y2);
    ProdIs(d, (x1 * y1) * (x2 * y2));
    ProdIs(x3, 1 + k);
    ProdIs(y3, 1 - k);
    ProdIs(x1, y2);
    ProdIs(y1, x2);
    ProdIs(y1, y2);
    ProdIs(x1, x2);
  }

  /** The completed sum: X / Z and Y / T are the coordinates of the sum. */
  lemma Completed(x1: int, y1: int, z1: int, x2: int, y2: int, z2: int, x3: int, y3: int,
                  u: int, v: int, w: int, t: int, d: int, q: int)
    requires q > 1 && Fermat(q) && !Cong(2, 0, q) && !Cong(z1, 0, q) && !Cong(z2, 0, q)
    requires AddLaw(x1, y1, x2, y2, x3, y3, d, q) && Products(x1, y1, z1, x2, y2, z2, u, v, w, t, d, q)
    ensures Ratios(x3, y3, u - v, u + v, t + w, t - w, q)
  {
    hide Cong, Fermat, AddLaw, Ratios, Products;
    CompletedParts(x1, y1, z1, x2, y2, z2, x3, y3, u, v, w, t, d, q);
    RatiosAre(x3, y3, u - v, u + v, t + w, t - w, q);
  }

  lemma CompletedParts(x1: int, y1: int, z1: int, x2: int, y2: int, z2: int, x3: int, y3: int,
                       u: int, v: int, w: int, t: int, d: int, q: int)
    requires q > 1 && Fermat(q) && !Cong(2, 0, q) && !Cong(z1, 0, q) && !Cong(z2, 0, q)
    requires AddLaw(x1, y1, x2, y2, x3, y3, d, q) && Products(x1, y1, z1, x2, y2, z2, u, v, w, t, d, q)
    ensures Cong(u - v, x3 * (t + w), q) && Cong(u + v, y3 * (t - w), q)
    ensures !Cong(t + w, 0, q) && !Cong(t - w, 0, q)
  {
    hide Cong, Fermat, AddLaw;
    AddLawIs(x1, y1, x2, y2, x3, y3, d, q);
    var k, m := d * ((x1 * y1) * (x2 * y2)), 2 * (z1 * z2);
    var u', v' := ((y1 + x1) * z1) * ((y2 + x2) * z2), ((y1 - x1) * z1) * ((y2 - x2) * z2);
    CongAdd(u, u', v, v', q);
    SumNumerators(x1, y1, z1, x2, y2, z2);
    SumDenominators(x1, y1, z1, x2, y2, z2, d);
    CongAdd(t, m, w, m * k, q);
    NoZeroDivisors(z1, z2, q);
    NoZeroDivisors(2, z1 * z2, q);
    OneCoordinate(m, x3, 1 + k, x1 * y2 + y1 * x2, u - v, t + w, m + m * k, q);
    OneCoordinate(m, y3, 1 - k, y1 * y2 + x1 * x2, u + v, t - w, m - m * k, q);
  }

  lemma DoubleNumerators(x: int, y: int, z: int)
    ensures (y * z) * (y * z) - (x * z) * (x * z) == (z * z) * (y * y - x * x)
    ensures (y * z) * (y * z) + (x * z) * (x * z) == (z * z) * (y * y + x * x)
    ensures ((x + y) * z) * ((x + y) * z) - (z * z) * (y * y + x * x) == (z * z) * (x * y + y * x)
  {
    Swap(y, z, y, z);
    Swap(x, z, x, z);
    Swap(x + y, z, x + y, z);
    var w := z * z;
    assert (x + y) * (x + y) == (y * y + x * x) + (x * y + y * x);
    assert (y * y) * w - (x * x) * w == w * (y * y - x * x);
    assert (y * y) * w + (x * x) * w == w * (y * y + x * x);
    assert ((x + y) * (x + y)) * w == w * (y * y + x * x) + w * (x * y + y * x);
  }

  /** The same for a doubling, with the curve equation. */
  lemma CompletedDouble(x: int, y: int, z: int, x3: int, y3: int, xx: int, yy: int, zz2: int, sq: int, d: int, q: int)
    requires q > 1 && Fermat(q) && !Cong(z, 0, q) && AddLaw(x, y, x, y, x3, y3, d, q) && OnCurve(x, y, d, q)
    requires Cong(xx, (x * z) * (x * z), q) && Cong(yy, (y * z) * (y * z), q)
    requires Cong(zz2, 2 * (z * z), q) && Cong(sq, ((x + y) * z) * ((x + y) * z), q)
    ensures Ratios(x3, y3, sq - (yy + xx), yy + xx, yy - xx, zz2 - (yy - xx), q)
  {
    hide Cong, Fermat, AddLaw, OnCurve, Ratios;
    RatiosAre(x3, y3, sq - (yy + xx), yy + xx, yy - xx, zz2 - (yy - xx), q);
    AddLawIs(x, y, x, y, x3, y3, d, q);
    OnCurveIs(x, y, d, q);
    var k, w := d * ((x * y) * (x * y)), z * z;
    DoubleNumerators(x, y, z);
    CongAdd(yy, (y * z) * (y * z), xx, (x * z) * (x * z), q);
    CongAdd(sq, ((x + y) * z) * ((x + y) * z), yy + xx, w * (y * y + x * x), q);
    NoZeroDivisors(z, z, q);
    // On the curve y^2 - x^2 is 1 + k, and 2 - (1 + k) is 1 - k.
    CongReflexive(w, q);
    CongMul(w, w, y * y - x * x, 1 + k, q);
    CongTrans(yy - xx, w * (y * y - x * x), w * (1 + k), q);
    CongAdd(zz2, 2 * w, yy - xx, w * (1 + k), q);
    assert 2 * w - w * (1 + k) == w * (1 - k);
    OneCoordinate(w, x3, 1 + k, x * y + y * x, sq - (yy + xx), yy - xx, w * (1 + k), q);
    OneCoordinate(w, y3, 1 - k, y * y + x * x, yy + xx, zz2 - (yy - xx), w * (1 - k), q);
  }

  /** The three cross products of an addition, in terms of the represented coordinates. */
  lemma CrossProducts(x1: int, y1: int, z1: int, X: int, Y: int, T: int,
                      x2: int, y2: int, z2: int, yp: int, ym: int, t2d: int, u: int, v: int, w: int, d: int, q: int)
    requires q > 1 && Extended(x1, y1, X, Y, z1, T, q) && Addend(x2, y2, z2, yp, ym, t2d, d, q)
    requires Cong(u, (Y + X) * yp, q) && Cong(v, (Y - X) * ym, q) && Cong(w, t2d * T, q)
    ensures Cong(u, ((y1 + x1) * z1) * ((y2 + x2) * z2), q) && Cong(v, ((y1 - x1) * z1) * ((y2 - x2) * z2), q)
    ensures Cong(w, ((2 * d) * ((x2 * y2) * z2)) * ((x1 * y1) * z1), q)
  {
    hide Cong, Extended, Addend;
    ExtendedIs(x1, y1, X, Y, z1, T, q);
    AddendIs(x2, y2, z2, yp, ym, t2d, d, q);
    CongAdd(Y, y1 * z1, X, x1 * z1, q);
    assert y1 * z1 + x1 * z1 == (y1 + x1) * z1 && y1 * z1 - x1 * z1 == (y1 - x1) * z1;
    CongProduct(u, Y + X, (y1 + x1) * z1, yp, (y2 + x2) * z2, q);
    CongProduct(v, Y - X, (y1 - x1) * z1, ym, (y2 - x2) * z2, q);
    CongProduct(w, t2d, (2 * d) * ((x2 * y2) * z2), T, (x1 * y1) * z1, q);
  }

  /** Swapping y + x with y - x and negating 2 d x y negates the point. */
  lemma NegAddend(x: int, y: int, x': int, y': int, z: int, yp: int, ym: int, t2d: int, d: int, q: int)
    requires q > 1 && Cong(x', -x, q) && Cong(y', y, q) && Addend(x, y, z, yp, ym, t2d, d, q)
    ensures Addend(x', y', z, ym, yp, -t2d, d, q)
  {
    hide Cong, Addend;
    AddendIs(x, y, z, yp, ym, t2d, d, q);
    AddendIs(x', y', z, ym, yp, -t2d, d, q);
    CongSym(x', -x, q);
    CongSym(y', y, q);
    CongReflexive(z, q);
    CongReflexive(0, q);
    CongReflexive(2 * d, q);
    CongAdd(y, y', -x, x', q);
    CongMul(y + (-x), y' + x', z, z, q);
    CongTrans(ym, (y - x) * z, (y' + x') * z, q);
    CongMul(y - (-x), y' - x', z, z, q);
    CongTrans(yp, (y + x) * z, (y' - x') * z, q);
    CongMul(-x, x', y, y', q);
    CongMul((-x) * y, x' * y', z, z, q);
    CongMul(2 * d, 2 * d, ((-x) * y) * z, (x' * y') * z, q);
    NegScaled(2 * d, x, y, z);
    CongAdd(0, 0, t2d, (2 * d) * ((x * y) * z), q);
    CongTrans(-t2d, (2 * d) * (((-x) * y) * z), (2 * d) * ((x' * y') * z), q);
  }

  lemma NegFactor(w: int, a: int, b: int, q: int)
    requires q > 1 && Cong(w, a * b, q)
    ensures Cong(-w, (-a) * b, q)
  {
    hide Cong;
    CongReflexive(0, q);
    CongAdd(0, 0, w, a * b, q);
    assert -(a * b) == (-a) * b;
  }

  lemma NegScaled(k: int, x: int, y: int, z: int)
    ensures k * (((-x) * y) * z) == -(k * ((x * y) * z))
  {
    assert (-x) * y == -(x * y);
    assert (-(x * y)) * z == -((x * y) * z);
  }

  /** X = x Z and Y = y T give X T = x (Z T) and Y Z = y (Z T). */
  lemma CommonDenominator(x: int, y: int, X: int, Y: int, Z: int, T: int, X': int, Y': int, Z': int, q: int)
    requires q > 1 && Fermat(q) && Ratios(x, y, X, Y, Z, T, q)
    requires Cong(X', X * T, q) && Cong(Y', Y * Z, q) && Cong(Z', Z * T, q)
    ensures Projective(x, y, X', Y', Z', q)
  {
    hide Cong, Fermat, Projective, Ratios;
    RatiosAre(x, y, X, Y, Z, T, q);
    ProjectiveIs(x, y, X', Y', Z', q);
    CongReflexive(T, q);
    CongReflexive(Z, q);
    CongReflexive(x, q);
    CongReflexive(y, q);
    CongSym(Z', Z * T, q);
    CongProduct(X', X, x * Z, T, T, q);
    Assoc(x, Z, T);
    CongMul(x, x, Z * T, Z', q);
    CongTrans(X', x * (Z * T), x * Z', q);
    CongProduct(Y', Y, y * T, Z, Z, q);
    assert (y * T) * Z == y * (Z * T) by { Assoc(y, T, Z); }
    CongMul(y, y, Z * T, Z', q);
    CongTrans(Y', y * (Z * T), y * Z', q);
    NoZeroDivisors(Z, T, q);
    if Cong(Z', 0, q) {
      CongTrans(Z * T, Z', 0, q);
    }
  }

  /** and X Y = x y (Z T). */
  lemma CommonProduct(x: int, y: int, X: int, Y: int, Z: int, T: int, Z': int, T': int, q: int)
    requires q > 1 && Ratios(x, y, X, Y, Z, T, q) && Cong(Z', Z * T, q) && Cong(T', X * Y, q)
    ensures Cong(T', (x * y) * Z', q)
  {
    hide Cong, Ratios;
    RatiosAre(x, y, X, Y, Z, T, q);
    CongProduct(T', X, x * Z, Y, y * T, q);
    Swap(x, Z, y, T);
    CongReflexive(x * y, q);
    CongSym(Z', Z * T, q);
    CongMul(x * y, x * y, Z * T, Z', q);
    CongTrans(T', (x * y) * (Z * T), (x * y) * Z', q);
  }

  /** X Y = Z T for extended coordinates. */
  lemma ExtendedProduct(x: int, y: int, X: int, Y: int, Z: int, T: int, q: int)
    requires q > 1 && Extended(x, y, X, Y, Z, T, q)
    ensures Cong(X * Y, Z * T, q)
  {
    hide Cong, Extended;
    ExtendedIs(x, y, X, Y, Z, T, q);
    CongMul(X, x * Z, Y, y * Z, q);
    CongReflexive(Z, q);
    CongMul(Z, Z, T, (x * y) * Z, q);
    Rearranged(x, y, Z);
    CongSym(Z * T, Z * ((x * y) * Z), q);
    CongTrans(X * Y, Z * ((x * y) * Z), Z * T, q);
  }

  lemma Rearranged(x: int, y: int, z: int)
    ensures (x * z) * (y * z) == z * ((x * y) * z)
  {
    Swap(x, z, y, z);
    Assoc(x * y, z, z);
  }

  /** x^2 (d y^2 + 1) = y^2 - 1 is the curve equation. */
  lemma RootIsOnCurve(x: int, y: int, d: int, q: int)
    requires q > 1
    ensures Root(y * y - 1, d * (y * y) + 1, x, q) <==> Cong(y * y - x * x, 1 + d * ((x * y) * (x * y)), q)
  {
    hide Cong, Root;
    RootIs(y * y - 1, d * (y * y) + 1, x, q);
    var l, r := (d * (y * y) + 1) * (x * x), y * y - 1;
    Swap(x, y, x, y);
    assert l == d * ((x * y) * (x * y)) + x * x by {
      assert (d * (y * y)) * (x * x) == d * ((x * x) * (y * y)) by { Assoc(d, y * y, x * x); }
    }
    CongReflexive(x * x - 1, q);
    if Cong(l, r, q) {
      CongAdd(l, r, x * x - 1, x * x - 1, q);
      CongSym(l - (x * x - 1), r - (x * x - 1), q);
    }
    if Cong(y * y - x * x, 1 + d * ((x * y) * (x * y)), q) {
      CongSym(y * y - x * x, 1 + d * ((x * y) * (x * y)), q);
      CongAdd(1 + d * ((x * y) * (x * y)), y * y - x * x, x * x - 1, x * x - 1, q);
    }
  }

  /** u = y^2 - 1 and v = d y^2 + 1. */
  ghost predicate IsFraction(u: int, v: int, y: int, d: int, q: int)
    requires q > 1
  {
    Cong(u, Prod(y, y) - 1, q) && Cong(v, Prod(d, Prod(y, y)) + 1, q)
  }

  lemma FractionIs(u: int, v: int, y: int, d: int, q: int)
    requires q > 1
    ensures IsFraction(u, v, y, d, q) <==> Cong(u, y * y - 1, q) && Cong(v, d * (y * y) + 1, q)
  {
    hide Cong, Prod;
    ProdIs(y, y);
    ProdIs(d, y * y);
  }

  /** No curve point has d y^2 + 1 = 0. */
  lemma DenominatorNonzero(u: int, v: int, x: int, y: int, d: int, q: int)
    requires q > 1 && !Cong(d + 1, 0, q) && IsFraction(u, v, y, d, q) && Root(u, v, x, q)
    ensures !Cong(v, 0, q)
  {
    hide Cong, IsFraction, Root;
    RootIs(u, v, x, q);
    FractionIs(u, v, y, d, q);
    if Cong(v, 0, q) {
      CongReflexive(x * x, q);
      CongMul(v, 0, x * x, x * x, q);
      CongSym(v * (x * x), u, q);
      CongTrans(u, v * (x * x), 0, q);
      CongSym(u, y * y - 1, q);
      CongTrans(y * y - 1, u, 0, q);
      CongReflexive(1, q);
      CongAdd(y * y - 1, 0, 1, 1, q);
      CongReflexive(d, q);
      CongMul(d, d, y * y, 1, q);
      CongAdd(d * (y * y), d, 1, 1, q);
      CongTrans(v, d * (y * y) + 1, d + 1, q);
      CongTrans(d + 1, v, 0, q);
    }
  }

  /** Roots of the computed fraction are the x coordinates over y. */
  lemma RootsAreCoordinates(u: int, v: int, Y: int, y: int, x: int, d: int, q: int)
    requires q > 1 && Cong(Y, y, q) && IsFraction(u, v, Y, d, q)
    ensures Root(u, v, x, q) <==> OnCurve(x, y, d, q)
  {
    hide Cong, OnCurve, IsFraction, Root;
    RootIs(u, v, x, q);
    RootIs(y * y - 1, d * (y * y) + 1, x, q);
    FractionIs(u, v, Y, d, q);
    OnCurveIs(x, y, d, q);
    RootIsOnCurve(x, y, d, q);
    CongMul(Y, y, Y, y, q);
    CongReflexive(1, q);
    CongReflexive(d, q);
    CongReflexive(x * x, q);
    CongAdd(Y * Y, y * y, 1, 1, q);
    CongTrans(u, Y * Y - 1, y * y - 1, q);
    CongMul(d, d, Y * Y, y * y, q);
    CongAdd(d * (Y * Y), d * (y * y), 1, 1, q);
    CongTrans(v, d * (Y * Y) + 1, d * (y * y) + 1, q);
    CongMul(v, d * (y * y) + 1, x * x, x * x, q);
    if Root(u, v, x, q) {
      CongSym(v * (x * x), (d * (y * y) + 1) * (x * x), q);
      CongTrans((d * (y * y) + 1) * (x * x), v * (x * x), u, q);
      CongTrans((d * (y * y) + 1) * (x * x), u, y * y - 1, q);
    }
    if Root(y * y - 1, d * (y * y) + 1, x, q) {
      CongSym(u, y * y - 1, q);
      CongTrans(v * (x * x), (d * (y * y) + 1) * (x * x), y * y - 1, q);
      CongTrans(v * (x * x), y * y - 1, u, q);
    }
  }

  /** Two x coordinates over one y agree up to sign. */
  lemma SameUpToSign(x: int, x': int, y: int, d: int, q: int)
    requires q > 1 && Fermat(q) && !Cong(d + 1, 0, q) && OnCurve(x, y, d, q) && OnCurve(x', y, d, q)
    ensures Cong(x, x', q) || Cong(x, -x', q)
  {
    hide Cong, Fermat, OnCurve, IsFraction, Root;
    var u, v := y * y - 1, d * (y * y) + 1;
    CongReflexive(y, q);
    CongReflexive(u, q);
    CongReflexive(v, q);
    FractionIs(u, v, y, d, q);
    RootsAreCoordinates(u, v, y, y, x, d, q);
    RootsAreCoordinates(u, v, y, y, x', d, q);
    DenominatorNonzero(u, v, x, y, d, q);
    SameRoot(u, v, x, x', q);
  }

  /** Congruent coordinates give congruent sides of the equation. */
  lemma SidesEq(x: int, x': int, y: int, y': int, d: int, q: int)
    requires q > 1 && Cong(x, x', q) && Cong(y, y', q)
    ensures Cong(y' * y' - x' * x', y * y - x * x, q)
    ensures Cong(1 + d * ((x * y) * (x * y)), 1 + d * ((x' * y') * (x' * y')), q)
  {
    hide Cong;
    CongMul(x, x', x, x', q);
    CongMul(y, y', y, y', q);
    CongMul(x, x', y, y', q);
    CongMul(x * y, x' * y', x * y, x' * y', q);
    CongReflexive(d, q);
    CongReflexive(1, q);
    CongMul(d, d, (x * y) * (x * y), (x' * y') * (x' * y'), q);
    CongAdd(y * y, y' * y', x * x, x' * x', q);
    CongAdd(1, 1, d * ((x * y) * (x * y)), d * ((x' * y') * (x' * y')), q);
    CongSym(y * y - x * x, y' * y' - x' * x', q);
  }

  lemma OnCurveEq(x: int, x': int, y: int, y': int, d: int, q: int)
    requires q > 1 && Cong(x, x', q) && Cong(y, y', q) && OnCurve(x, y, d, q)
    ensures OnCurve(x', y', d, q)
  {
    hide Cong, OnCurve;
    OnCurveIs(x, y, d, q);
    OnCurveIs(x', y', d, q);
    SidesEq(x, x', y, y', d, q);
    CongTrans(y' * y' - x' * x', y * y - x * x, 1 + d * ((x * y) * (x * y)), q);
    CongTrans(y' * y' - x' * x', 1 + d * ((x * y) * (x * y)), 1 + d * ((x' * y') * (x' * y')), q);
  }

  lemma NegOnCurve(x: int, y: int, d: int, q: int)
    requires q > 1 && OnCurve(x, y, d, q)
    ensures OnCurve(-x, y, d, q)
  {
    hide Cong, OnCurve;
    OnCurveIs(x, y, d, q);
    OnCurveIs(-x, y, d, q);
    assert (-x) * (-x) == x * x;
    assert (-x) * y == -(x * y);
    assert (-(x * y)) * (-(x * y)) == (x * y) * (x * y);
  }
}
