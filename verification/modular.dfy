/**
 Congruence modulo a positive integer, by explicit multiples, and integer
 powers. Residues are Euclidean: a % m lies in [0, m) for every a.
 */
module Modular {
  import opened Bits

  /** a and b have the same residue: by steps of m, one reaches the other. */
  predicate Cong(a: int, b: int, m: int)
    requires m > 0
    decreases if a >= b then a - b else b - a + m
  {
    if 0 <= a - b < m then a == b else if a < b then Cong(a + m, b, m) else Cong(a - m, b, m)
  }

  lemma {:induction false} CongIs(a: int, b: int, m: int)
    requires m > 0
    ensures Cong(a, b, m) <==> a % m == b % m
    decreases if a >= b then a - b else b - a + m
  {
    if 0 <= a - b < m {
      if a % m == b % m {
        SmallDifference(a, b, m);
      }
    } else if a < b {
      CongIs(a + m, b, m);
      DivModUnique(a + m, m, a / m + 1, a % m);
    } else {
      CongIs(a - m, b, m);
      DivModUnique(a - m, m, a / m - 1, a % m);
    }
  }

  lemma SmallDifference(a: int, b: int, m: int)
    requires 0 <= a - b < m && a % m == b % m
    ensures a == b
  {
    var k := a / m - b / m;
    assert a - b == m * k by { assert m * k == m * (a / m) - m * (b / m); }
    if k >= 1 {
      MulMono(m, 1, k);
    }
    if k <= -1 {
      MulMono(m, k, -1);
    }
  }

  /** Adding a multiple of the modulus does not change the residue. */
  lemma CongBy(a: int, b: int, k: int, m: int)
    requires m > 0 && a == b + m * k
    ensures Cong(a, b, m)
  {
    hide Cong;
    assert a == m * (b / m + k) + b % m;
    DivModUnique(a, m, b / m + k, b % m);
    CongIs(a, b, m);
  }

  /** Congruent integers differ by an explicit multiple. */
  lemma CongMultiple(a: int, b: int, m: int) returns (k: int)
    requires m > 0 && Cong(a, b, m)
    ensures a == b + m * k
  {
    hide Cong;
    CongIs(a, b, m);
    k := a / m - b / m;
    assert m * k == m * (a / m) - m * (b / m);
  }

  lemma CongTrans(a: int, b: int, c: int, m: int)
    requires m > 0 && Cong(a, b, m) && Cong(b, c, m)
    ensures Cong(a, c, m) && Cong(c, a, m)
  {
    hide Cong;
    CongIs(a, b, m);
    CongIs(b, c, m);
    CongIs(a, c, m);
    CongIs(c, a, m);
  }

  lemma CongReflexive(a: int, m: int)
    requires m > 0
    ensures Cong(a, a, m)
  {
  }

  lemma CongSym(a: int, b: int, m: int)
    requires m > 0 && Cong(a, b, m)
    ensures Cong(b, a, m)
  {
    hide Cong;
    CongIs(a, b, m);
    CongIs(b, a, m);
  }

  lemma CongAdd(a: int, b: int, c: int, d: int, m: int)
    requires m > 0 && Cong(a, b, m) && Cong(c, d, m)
    ensures Cong(a + c, b + d, m) && Cong(a - c, b - d, m)
  {
    var k := CongMultiple(a, b, m);
    var l := CongMultiple(c, d, m);
    assert m * (k + l) == m * k + m * l && m * (k - l) == m * k - m * l;
    CongBy(a + c, b + d, k + l, m);
    CongBy(a - c, b - d, k - l, m);
  }

  lemma CongMul(a: int, b: int, c: int, d: int, m: int)
    requires m > 0 && Cong(a, b, m) && Cong(c, d, m)
    ensures Cong(a * c, b * d, m)
  {
    var k := CongMultiple(a, b, m);
    var l := CongMultiple(c, d, m);
    MulExpand(b, m * k, d, m * l);
    var j := k * d + b * l + k * (m * l);
    assert m * j == (m * k) * d + b * (m * l) + (m * k) * (m * l) by { Regroup(m, k, d, b, l); }
    CongBy(a * c, b * d, j, m);
  }

  lemma MulExpand(b: int, x: int, d: int, y: int)
    ensures (b + x) * (d + y) == b * d + x * d + b * y + x * y
  {
  }

  lemma Regroup(m: int, k: int, d: int, b: int, l: int)
    ensures m * (k * d + b * l + k * (m * l)) == (m * k) * d + b * (m * l) + (m * k) * (m * l)
  {
  }

  lemma CongModulo(a: int, m: int)
    requires m > 0
    ensures Cong(a % m, a, m) && 0 <= a % m < m
  {
    hide Cong;
    CongBy(a, a % m, a / m, m);
    CongSym(a, a % m, m);
  }

  /** A congruent value in [0, m) is the residue. */
  lemma CongUnique(a: int, r: int, m: int)
    requires m > 0 && 0 <= r < m && Cong(a, r, m)
    ensures a % m == r
  {
    hide Cong;
    CongIs(a, r, m);
    DivModUnique(r, m, 0, r);
  }

  /**
   The product, by repeated addition. Predicates about several products are stated with
   it, so that a proof that does not ask for the products does not expand them.
   */
  function Prod(x: int, y: int): int
    decreases if y >= 0 then y else -y
  {
    if y == 0 then 0 else if y > 0 then Prod(x, y - 1) + x else Prod(x, y + 1) - x
  }

  lemma {:induction false} ProdIs(x: int, y: int)
    ensures Prod(x, y) == x * y
    decreases if y >= 0 then y else -y
  {
    if y > 0 {
      ProdIs(x, y - 1);
      assert x * y == x * (y - 1) + x;
    } else if y < 0 {
      ProdIs(x, y + 1);
      assert x * y == x * (y + 1) - x;
    }
  }

  function Pow(z: int, n: nat): int
  {
    if n == 0 then 1 else Prod(z, Pow(z, n - 1))
  }

  lemma PowStep(z: int, n: nat)
    requires n > 0
    ensures Pow(z, n) == z * Pow(z, n - 1)
  {
    ProdIs(z, Pow(z, n - 1));
  }

  lemma {:induction false} PowAdd(z: int, n: nat, k: nat)
    ensures Pow(z, n + k) == Pow(z, n) * Pow(z, k)
  {
    hide Prod;
    if n > 0 {
      PowAdd(z, n - 1, k);
      PowStep(z, n);
      PowStep(z, n + k);
      assert (z * Pow(z, n - 1)) * Pow(z, k) == z * (Pow(z, n - 1) * Pow(z, k)) by {
        Assoc(z, Pow(z, n - 1), Pow(z, k));
      }
    }
  }

  lemma Assoc(a: int, b: int, c: int)
    ensures (a * b) * c == a * (b * c)
  {
  }

  lemma {:induction false} PowMul(z: int, n: nat, k: nat)
    ensures n * k >= 0 && Pow(Pow(z, n), k) == Pow(z, n * k)
  {
    if k > 0 {
      PowMul(z, n, k - 1);
      PowStep(Pow(z, n), k);
      assert n * k == n + n * (k - 1);
      PowAdd(z, n, n * (k - 1));
    }
  }

  lemma {:induction false} PowProduct(x: int, y: int, n: nat)
    ensures Pow(x * y, n) == Pow(x, n) * Pow(y, n)
  {
    hide Prod;
    if n > 0 {
      PowProduct(x, y, n - 1);
      PowStep(x, n);
      PowStep(y, n);
      PowStep(x * y, n);
      Swap(x, y, Pow(x, n - 1), Pow(y, n - 1));
    }
  }

  lemma Swap(a: int, b: int, c: int, d: int)
    ensures (a * b) * (c * d) == (a * c) * (b * d)
  {
    Assoc(a, b, c * d);
    Assoc(b, c, d);
    Assoc(c, b, d);
    Assoc(a, c, b * d);
  }

  lemma {:induction false} PowCong(x: int, y: int, n: nat, m: int)
    requires m > 0 && Cong(x, y, m)
    ensures Cong(Pow(x, n), Pow(y, n), m)
  {
    hide Cong, Prod;
    if n > 0 {
      PowCong(x, y, n - 1, m);
      PowStep(x, n);
      PowStep(y, n);
      CongMul(x, y, Pow(x, n - 1), Pow(y, n - 1), m);
    } else {
      CongReflexive(1, m);
    }
  }
}
