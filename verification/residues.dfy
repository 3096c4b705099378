/**
 Arithmetic modulo an arbitrary q. That q is prime is used only through
 Fermat's little theorem.
 */
module Residues {
  import opened Modular

  /** A product computed modulo q, with each factor replaced by a congruent one. */
  lemma CongProduct(h: int, a: int, a': int, b: int, b': int, q: int)
    requires q > 0 && Cong(h, a * b, q) && Cong(a, a', q) && Cong(b, b', q)
    ensures Cong(h, a' * b', q)
  {
    hide Cong;
    CongMul(a, a', b, b', q);
    CongTrans(h, a * b, a' * b', q);
  }

  predicate Element(z: int) { true }

  /** Fermat's little theorem for q; it is what makes the residues a field. */
  ghost predicate Fermat(q: int)
    requires q > 1
  {
    forall z: int {:trigger Element(z)} :: !Cong(z, 0, q) ==> Cong(Pow(z, q - 1), 1, q)
  }

  lemma FermatAt(z: int, q: int)
    requires q > 1 && Fermat(q) && !Cong(z, 0, q)
    ensures Cong(Pow(z, q - 1), 1, q)
  {
    hide Cong, Pow;
    assert Element(z);
  }

  lemma NoZeroDivisors(a: int, b: int, q: int)
    requires q > 1 && Fermat(q) && !Cong(a, 0, q) && !Cong(b, 0, q)
    ensures !Cong(a * b, 0, q)
  {
    hide Cong, Pow, Fermat;
    if Cong(a * b, 0, q) {
      var i := Pow(a, q - 2);
      PowAdd(a, q - 2, 1);
      assert Pow(a, q - 1) == i * a by { OnePower(a); }
      CongReflexive(i, q);
      CongReflexive(b, q);
      CongMul(i, i, a * b, 0, q);
      assert i * (a * b) == (i * a) * b by { Assoc(i, a, b); }
      FermatAt(a, q);
      CongMul(i * a, 1, b, b, q);
      CongTrans((i * a) * b, 1 * b, 1 * b, q);
      CongTrans(b, (i * a) * b, 0, q);
    }
  }

  lemma OnePower(a: int)
    ensures Pow(a, 1) == a
  {
    PowStep(a, 1);
  }

  // ---------------------------------------------------------------------
  // Inverses and square roots.

  /** Multiplying by Z^(q-2) divides by Z. */
  lemma DivideByZ(x: int, X: int, Z: int, r: int, h: int, q: int)
    requires q > 1 && Fermat(q) && !Cong(Z, 0, q) && Cong(X, x * Z, q) && Cong(r, Pow(Z, q - 2), q) && Cong(h, X * r, q)
    ensures Cong(h, x, q)
  {
    hide Cong, Fermat, Pow;
    var i := Pow(Z, q - 2);
    CongProduct(h, X, x * Z, r, i, q);
    PowAdd(Z, 1, q - 2);
    OnePower(Z);
    assert (x * Z) * i == x * Pow(Z, q - 1) by { Assoc(x, Z, i); }
    FermatAt(Z, q);
    CongReflexive(x, q);
    CongMul(x, x, Pow(Z, q - 1), 1, q);
    CongTrans(h, x * Pow(Z, q - 1), x * 1, q);
  }

  /** x is a root: v x^2 = u. */
  predicate Root(u: int, v: int, x: int, q: int)
    requires q > 1
  {
    Cong(Prod(v, Prod(x, x)), u, q)
  }

  lemma RootIs(u: int, v: int, x: int, q: int)
    requires q > 1
    ensures Root(u, v, x, q) <==> Cong(v * (x * x), u, q)
  {
    hide Cong, Prod;
    ProdIs(x, x);
    ProdIs(v, x * x);
  }

  /** The powers of v in the source's order: v^3, and u v^7. */
  function Cube(v: int): int { Prod(Prod(v, v), v) }

  function U7(u: int, v: int): int { Prod(Prod(Prod(Cube(v), Cube(v)), v), u) }

  lemma CubeIs(v: int)
    ensures Cube(v) == (v * v) * v
  {
    hide Prod;
    ProdIs(v, v);
    ProdIs(v * v, v);
  }

  lemma U7Is(u: int, v: int)
    ensures U7(u, v) == ((Cube(v) * Cube(v)) * v) * u
  {
    hide Prod, Cube;
    ProdIs(Cube(v), Cube(v));
    ProdIs(Cube(v) * Cube(v), v);
    ProdIs((Cube(v) * Cube(v)) * v, u);
  }

  /** p is (u v^7)^((q-5)/8) and r is u v^3 times that. */
  ghost predicate IsCandidate(u: int, v: int, p: int, r: int, q: int)
    requires q > 5 && q % 8 == 5
  {
    Cong(p, Pow(U7(u, v), (q - 5) / 8), q) && Cong(r, Prod(Prod(p, Cube(v)), u), q)
  }

  lemma SeventhPower(v: int, x: int)
    ensures ((Cube(v) * Cube(v)) * v) * (v * (x * x)) == (x * ((v * v) * (v * v))) * (x * ((v * v) * (v * v)))
  {
    hide Cube;
    CubeIs(v);
    var q := v * v;
    var z := q * q;
    assert Cube(v) * Cube(v) == (q * q) * (v * v) by { Swap(q, v, q, v); }
    assert ((z * q) * v) * (v * (x * x)) == (z * q) * (q * (x * x)) by {
      Assoc(z * q, v, v * (x * x));
      Assoc(v, v, x * x);
    }
    assert (z * q) * (q * (x * x)) == (z * z) * (x * x) by {
      Assoc(z, q, q * (x * x));
      Assoc(q, q, x * x);
      Assoc(z, z, x * x);
    }
    Swap(x, z, x, z);
  }

  lemma FourthPower(p: int, v: int, x: int)
    ensures (p * Cube(v)) * (v * (x * x)) == x * ((x * ((v * v) * (v * v))) * p)
  {
    hide Cube;
    CubeIs(v);
    var q := v * v;
    var z := q * q;
    assert Cube(v) * (v * (x * x)) == z * (x * x) by { Assoc(Cube(v), v, x * x); Assoc(q, v, v); }
    assert (p * Cube(v)) * (v * (x * x)) == p * (z * (x * x)) by { Assoc(p, Cube(v), v * (x * x)); }
    assert z * (x * x) == x * (x * z) by { Assoc(x, x, z); }
    assert p * (x * (x * z)) == x * ((x * z) * p) by { Assoc(x, x * z, p); }
  }

  /** With a root x, u v^7 is the square of w = x v^4, so the candidate is x w^((q-1)/4). */
  lemma CandidateIs(u: int, v: int, x: int, p: int, r: int, q: int)
    requires q > 5 && q % 8 == 5 && Root(u, v, x, q) && IsCandidate(u, v, p, r, q)
    ensures Cong(r, x * Pow(x * ((v * v) * (v * v)), (q - 1) / 4), q)
  {
    hide Cong, Pow, Cube, U7, Prod, Root;
    RootIs(u, v, x, q);
    U7Is(u, v);
    ProdIs(p, Cube(v));
    ProdIs(p * Cube(v), u);
    var w, e, m := x * ((v * v) * (v * v)), (q - 5) / 8, v * (x * x);
    CongSym(m, u, q);
    CongReflexive((Cube(v) * Cube(v)) * v, q);
    CongMul((Cube(v) * Cube(v)) * v, (Cube(v) * Cube(v)) * v, u, m, q);
    SeventhPower(v, x);
    PowCong(U7(u, v), w * w, e, q);
    PowProduct(w, w, e);
    PowAdd(w, e, e);
    CongTrans(p, Pow(U7(u, v), e), Pow(w, 2 * e), q);
    CongReflexive(Cube(v), q);
    CongMul(p, Pow(w, 2 * e), Cube(v), Cube(v), q);
    CongProduct(r, p * Cube(v), Pow(w, 2 * e) * Cube(v), u, m, q);
    FourthPower(Pow(w, 2 * e), v, x);
    PowAdd(w, 1, 2 * e);
    OnePower(w);
  }

  /** A number whose square is 1 is 1 or -1. */
  lemma SquareRootOfOne(s: int, q: int)
    requires q > 1 && Fermat(q) && Cong(s * s, 1, q)
    ensures Cong(s, 1, q) || Cong(s, -1, q)
  {
    hide Cong, Fermat;
    CongReflexive(1, q);
    CongAdd(s * s, 1, 1, 1, q);
    assert s * s - 1 == (s - 1) * (s + 1);
    if Cong(s - 1, 0, q) {
      CongAdd(s - 1, 0, 1, 1, q);
    } else if Cong(s + 1, 0, q) {
      CongAdd(s + 1, 0, 1, 1, q);
    } else {
      NoZeroDivisors(s - 1, s + 1, q);
    }
  }

  /** v r^2 is u or -u for the candidate r, whenever some root exists. */
  lemma CandidateSquares(u: int, v: int, x: int, r: int, q: int)
    requires q > 5 && q % 8 == 5 && Fermat(q) && Root(u, v, x, q) && !Cong(v, 0, q)
    requires Cong(r, x * Pow(x * ((v * v) * (v * v)), (q - 1) / 4), q)
    ensures Cong(v * (r * r), u, q) || Cong(v * (r * r), -u, q)
  {
    hide Cong, Pow, Fermat, Root;
    RootIs(u, v, x, q);
    var w := x * ((v * v) * (v * v));
    var t := Pow(w, (q - 1) / 4);
    var s := t * t;
    CongMul(r, x * t, r, x * t, q);
    CongReflexive(v, q);
    CongMul(v, v, r * r, (x * t) * (x * t), q);
    assert v * ((x * t) * (x * t)) == (v * (x * x)) * s by { Swap(x, t, x, t); Assoc(v, x * x, s); }
    CongReflexive(s, q);
    CongMul(v * (x * x), u, s, s, q);
    CongTrans(v * (r * r), (v * (x * x)) * s, u * s, q);
    CongReflexive(u, q);
    if Cong(w, 0, q) {
      ZeroFactor(x, v, w, q);
      RootOfZero(u, v, x, s, q);
      CongTrans(v * (r * r), u * s, u, q);
    } else {
      FourthRoot(w, t, q);
      SquareRootOfOne(s, q);
      if Cong(s, 1, q) {
        CongMul(u, u, s, 1, q);
        CongTrans(v * (r * r), u * s, u * 1, q);
      } else {
        CongMul(u, u, s, -1, q);
        CongTrans(v * (r * r), u * s, u * -1, q);
      }
    }
  }

  /** If x v^4 is zero then x is. */
  lemma ZeroFactor(x: int, v: int, w: int, q: int)
    requires q > 1 && Fermat(q) && !Cong(v, 0, q) && w == x * ((v * v) * (v * v)) && Cong(w, 0, q)
    ensures Cong(x, 0, q)
  {
    hide Cong, Fermat;
    NoZeroDivisors(v, v, q);
    NoZeroDivisors(v * v, v * v, q);
    if !Cong(x, 0, q) {
      NoZeroDivisors(x, (v * v) * (v * v), q);
    }
  }

  lemma RootOfZero(u: int, v: int, x: int, s: int, q: int)
    requires q > 1 && Root(u, v, x, q) && Cong(x, 0, q)
    ensures Cong(u * s, u, q)
  {
    hide Cong, Root;
    RootIs(u, v, x, q);
    CongReflexive(v, q);
    CongReflexive(s, q);
    CongMul(x, 0, x, 0, q);
    CongMul(v, v, x * x, 0, q);
    CongSym(v * (x * x), u, q);
    CongTrans(u, v * (x * x), 0, q);
    CongMul(u, 0, s, s, q);
    CongTrans(u * s, 0, u, q);
  }

  /** t = w^((q-1)/4) has t^4 = 1. */
  lemma FourthRoot(w: int, t: int, q: int)
    requires q > 5 && q % 8 == 5 && Fermat(q) && !Cong(w, 0, q) && t == Pow(w, (q - 1) / 4)
    ensures Cong((t * t) * (t * t), 1, q)
  {
    hide Cong, Fermat, Pow;
    var e := (q - 1) / 4;
    PowAdd(w, e, e);
    PowAdd(w, 2 * e, 2 * e);
    FermatAt(w, q);
  }

  lemma CubeOf(v: int, v2: int, v3: int, q: int)
    requires q > 1 && Cong(v2, v * v, q) && Cong(v3, v2 * v, q)
    ensures Cong(v3, Cube(v), q)
  {
    hide Cong, Cube;
    CubeIs(v);
    CongReflexive(v, q);
    CongProduct(v3, v2, v * v, v, v, q);
  }

  lemma Square(b: int, x: int, x2: int, r: int, q: int)
    requires q > 1 && Cong(x2, x * x, q) && Cong(r, x2 * b, q)
    ensures Cong(r, b * (x * x), q)
  {
    hide Cong;
    CongReflexive(b, q);
    CongProduct(r, x2, x * x, b, b, q);
  }

  lemma DifferenceZero(m: int, a: int, k: int, q: int)
    requires q > 1 && Cong(m, k, q)
    ensures Cong(m - a, 0, q) <==> Cong(k, a, q)
  {
    hide Cong;
    CongReflexive(a, q);
    CongSym(m, k, q);
    if Cong(m - a, 0, q) {
      CongAdd(m - a, 0, a, a, q);
      CongTrans(k, m, a, q);
    }
    if Cong(k, a, q) {
      CongTrans(m, k, a, q);
      CongAdd(m, a, a, a, q);
    }
  }

  lemma SumZero(m: int, a: int, k: int, q: int)
    requires q > 1 && Cong(m, k, q)
    ensures Cong(m + a, 0, q) <==> Cong(k, -a, q)
  {
    hide Cong;
    DifferenceZero(m, -a, k, q);
  }

  /** Multiplying by a root of -1 turns v x^2 = -u into v x^2 = u. */
  lemma Rotated(a: int, b: int, x: int, i: int, r: int, q: int)
    requires q > 1 && Cong(b * (x * x), -a, q) && Cong(i * i, -1, q) && Cong(r, x * i, q)
    ensures Root(a, b, r, q)
  {
    hide Cong, Root;
    RootIs(a, b, r, q);
    CongMul(r, x * i, r, x * i, q);
    Swap(x, i, x, i);
    CongReflexive(b, q);
    CongMul(b, b, r * r, (x * x) * (i * i), q);
    Assoc(b, x * x, i * i);
    CongMul(b * (x * x), -a, i * i, -1, q);
    CongTrans(b * (r * r), (b * (x * x)) * (i * i), (-a) * -1, q);
  }

  lemma DifferenceOfSquares(v: int, x: int, x': int)
    ensures v * (x * x) - v * (x' * x') == v * ((x - x') * (x + x'))
  {
    assert x * x - x' * x' == (x - x') * (x + x');
    assert v * (x * x) - v * (x' * x') == v * (x * x - x' * x');
  }

  /** Two roots of one fraction agree up to sign. */
  lemma SameRoot(u: int, v: int, x: int, x': int, q: int)
    requires q > 1 && Fermat(q) && Root(u, v, x, q) && Root(u, v, x', q) && !Cong(v, 0, q)
    ensures Cong(x, x', q) || Cong(x, -x', q)
  {
    hide Cong, Fermat, Root;
    RootIs(u, v, x, q);
    RootIs(u, v, x', q);
    CongAdd(v * (x * x), u, v * (x' * x'), u, q);
    DifferenceOfSquares(v, x, x');
    CongReflexive(x', q);
    if Cong(x - x', 0, q) {
      CongAdd(x - x', 0, x', x', q);
    } else if Cong(x + x', 0, q) {
      CongAdd(x + x', 0, x', x', q);
    } else {
      NoZeroDivisors(x - x', x + x', q);
      NoZeroDivisors(v, (x - x') * (x + x'), q);
    }
  }
}
