/**
 Machine words as mathematical integers: bytes, the C integer ranges, and the
 bitwise operators of the source on non-negative operands, with the facts that
 let shifted and or-ed pieces be read as sums.
 */
module Bits {

  type byte = x: int | 0 <= x < 256

  const TWO64: nat := 0x1_0000_0000_0000_0000
  const TWO128: nat := 0x1_0000_0000_0000_0000_0000_0000_0000_0000

  /** The absolute value of x is at most b. */
  predicate Abs(x: int, b: int) { -b <= x <= b }

  predicate Int32(x: int) { -0x8000_0000 <= x < 0x8000_0000 }

  predicate Int64(x: int) { -0x8000_0000_0000_0000 <= x < 0x8000_0000_0000_0000 }

  function Pow2(n: nat): (p: nat)
    ensures p > 0
  {
    if n == 0 then 1 else 2 * Pow2(n - 1)
  }

  function Pow256(n: nat): nat
  {
    if n == 0 then 1 else 256 * Pow256(n - 1)
  }

  function Or(x: nat, y: nat): nat
    decreases x + y
  {
    if x == 0 && y == 0 then 0
    else (if x % 2 == 1 || y % 2 == 1 then 1 else 0) + 2 * Or(x / 2, y / 2)
  }

  function And(x: nat, y: nat): nat
    decreases x + y
  {
    if x == 0 && y == 0 then 0
    else (if x % 2 == 1 && y % 2 == 1 then 1 else 0) + 2 * And(x / 2, y / 2)
  }

  function Xor(x: nat, y: nat): nat
    decreases x + y
  {
    if x == 0 && y == 0 then 0
    else (if x % 2 != y % 2 then 1 else 0) + 2 * Xor(x / 2, y / 2)
  }

  /** Or-ing a value below 2^k with a multiple of 2^k adds them. */
  lemma {:induction false} OrDisjoint(x: nat, y: nat, k: nat)
    requires x < Pow2(k)
    ensures Or(x, Pow2(k) * y) == x + Pow2(k) * y
    decreases k
  {
    if k == 0 {
      OrZero(y);
    } else {
      var m := Pow2(k - 1);
      assert Pow2(k) * y == 2 * (m * y);
      assert (Pow2(k) * y) / 2 == m * y && (Pow2(k) * y) % 2 == 0;
      OrDisjoint(x / 2, y, k - 1);
    }
  }

  lemma OrZero(y: nat)
    ensures Or(0, y) == y && Or(y, 0) == y
  {
  }

  lemma {:induction false} XorSelf(x: nat, y: nat)
    ensures Xor(x, Xor(x, y)) == y
    decreases x + y
  {
    if !(x == 0 && y == 0) {
      hide Xor;
      XorSelf(x / 2, y / 2);
      XorStep(x, y);
      XorStep(x, Xor(x, y));
    }
  }

  lemma XorStep(x: nat, y: nat)
    ensures Xor(x, y) % 2 == (if x % 2 != y % 2 then 1 else 0) && Xor(x, y) / 2 == Xor(x / 2, y / 2)
  {
    var b, z := if x % 2 != y % 2 then 1 else 0, Xor(x / 2, y / 2);
    assert Xor(x, y) == b + 2 * z by {
      assert Xor(0, 0) == 0;
    }
    hide Xor;
    DivModUnique(Xor(x, y), 2, z, b);
  }

  lemma XorZero(x: nat)
    ensures Xor(x, 0) == x && Xor(x, x) == 0
  {
  }

  lemma AndZero(x: nat)
    ensures And(x, 0) == 0
  {
  }

  /** Masking with k one bits keeps the low k bits. */
  lemma {:induction false} AndMask(x: nat, k: nat)
    ensures And(x, Pow2(k) - 1) == x % Pow2(k)
    decreases k
  {
    if k == 0 {
      AndZero(x);
    } else {
      var m := Pow2(k - 1);
      AndMask(x / 2, k - 1);
      assert (Pow2(k) - 1) % 2 == 1 && (Pow2(k) - 1) / 2 == m - 1;
      HalfMod(x, m);
    }
  }

  lemma HalfMod(x: nat, m: nat)
    requires m > 0
    ensures x % (2 * m) == x % 2 + 2 * ((x / 2) % m)
  {
    var q, r := (x / 2) / m, (x / 2) % m;
    assert x == 2 * (m * q + r) + x % 2;
    var low := x % 2 + 2 * r;
    assert x == (2 * m) * q + low && 0 <= low < 2 * m;
    DivModUnique(x, 2 * m, q, low);
  }

  lemma MulAtLeast(m: int, a: int)
    requires m > 0 && a >= 1
    ensures m * a >= m
  {
  }

  /** Euclidean division is the only way to write x as m*q + r with 0 <= r < m. */
  lemma DivModUnique(x: int, m: int, q: int, r: int)
    requires m > 0 && 0 <= r < m && x == m * q + r
    ensures x / m == q && x % m == r
  {
    var q', r' := x / m, x % m;
    assert x == m * q' + r';
    assert m * (q' - q) == r - r' && m * (q - q') == r' - r;
    if q < q' {
      MulAtLeast(m, q' - q);
    } else if q > q' {
      MulAtLeast(m, q - q');
    }
  }

  lemma MulMono(a: int, x: int, y: int)
    requires a >= 0 && x <= y
    ensures a * x <= a * y
  {
  }

  lemma MulSplit(a: int, b: int, q: int, r: int)
    ensures a * (b * q + r) == (a * b) * q + a * r
  {
    assert a * (b * q) == (a * b) * q;
  }

  /** Dividing twice is dividing by the product. */
  lemma DivDiv(h: int, a: int, b: int)
    requires a > 0 && b > 0
    ensures a * b > 0 && h / (a * b) == h / a / b
    ensures h % (a * b) == a * (h / a % b) + h % a
  {
    var x, r1 := h / a, h % a;
    var q, r2 := x / b, x % b;
    MulAtLeast(a, b);
    MulSplit(a, b, q, r2);
    MulMono(a, r2 + 1, b);
    DivModUnique(h, a * b, q, a * r2 + r1);
  }
}
