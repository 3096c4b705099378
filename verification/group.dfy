/**
 Commutative groups as values, and integer multiples of an element. The laws are
 quantified over a marker predicate, so that the verifier applies them only
 where one of the law lemmas below asks for them.
 */
module Groups {

  datatype Group<!T> = Group(zero: T, add: (T, T) -> T, neg: T -> T)

  predicate Triple<T>(a: T, b: T, c: T) { true }

  ghost predicate Abelian<T(!new)>(g: Group<T>)
  {
    forall a, b, c {:trigger Triple(a, b, c)} ::
      && g.add(g.add(a, b), c) == g.add(a, g.add(b, c))
      && g.add(a, b) == g.add(b, a)
      && g.add(a, g.zero) == a
      && g.add(a, g.neg(a)) == g.zero
  }

  lemma Associative<T(!new)>(g: Group<T>, a: T, b: T, c: T)
    requires Abelian(g)
    ensures g.add(g.add(a, b), c) == g.add(a, g.add(b, c))
  {
    assert Triple(a, b, c);
  }

  lemma Commutative<T(!new)>(g: Group<T>, a: T, b: T)
    requires Abelian(g)
    ensures g.add(a, b) == g.add(b, a)
  {
    assert Triple(a, b, b);
  }

  lemma Neutral<T(!new)>(g: Group<T>, a: T)
    requires Abelian(g)
    ensures g.add(a, g.zero) == a && g.add(g.zero, a) == a
  {
    assert Triple(a, g.zero, a);
  }

  lemma Inverse<T(!new)>(g: Group<T>, a: T)
    requires Abelian(g)
    ensures g.add(a, g.neg(a)) == g.zero && g.add(g.neg(a), a) == g.zero
  {
    assert Triple(a, g.neg(a), a);
  }

  /** (a + b) + (c + d) = (a + c) + (b + d). */
  lemma Interchange<T(!new)>(g: Group<T>, a: T, b: T, c: T, d: T)
    requires Abelian(g)
    ensures g.add(g.add(a, b), g.add(c, d)) == g.add(g.add(a, c), g.add(b, d))
  {
    Associative(g, a, b, g.add(c, d));
    Associative(g, b, c, d);
    Commutative(g, b, c);
    Associative(g, c, b, d);
    Associative(g, a, c, g.add(b, d));
  }

  /** Two elements with the same sum with c are equal. */
  lemma Cancel<T(!new)>(g: Group<T>, a: T, b: T, c: T)
    requires Abelian(g) && g.add(a, c) == g.add(b, c)
    ensures a == b
  {
    Associative(g, a, c, g.neg(c));
    Associative(g, b, c, g.neg(c));
    Inverse(g, c);
    Neutral(g, a);
    Neutral(g, b);
  }

  lemma NegZero<T(!new)>(g: Group<T>)
    requires Abelian(g)
    ensures g.neg(g.zero) == g.zero
  {
    Inverse(g, g.zero);
    Neutral(g, g.neg(g.zero));
  }

  lemma NegAdd<T(!new)>(g: Group<T>, a: T, b: T)
    requires Abelian(g)
    ensures g.neg(g.add(a, b)) == g.add(g.neg(a), g.neg(b))
  {
    Inverse(g, a);
    Inverse(g, b);
    Inverse(g, g.add(a, b));
    Interchange(g, g.neg(a), g.neg(b), a, b);
    Neutral(g, g.zero);
    Cancel(g, g.neg(g.add(a, b)), g.add(g.neg(a), g.neg(b)), g.add(a, b));
  }

  /** n times a, for a natural number n. */
  function Times<T>(g: Group<T>, n: nat, a: T): T
  {
    if n == 0 then g.zero else g.add(Times(g, n - 1, a), a)
  }

  /** n times a, for any integer n. */
  function Mul<T>(g: Group<T>, n: int, a: T): T
  {
    if n >= 0 then Times(g, n, a) else g.neg(Times(g, -n, a))
  }

  lemma MulStep<T(!new)>(g: Group<T>, n: int, a: T)
    requires Abelian(g)
    ensures Mul(g, n + 1, a) == g.add(Mul(g, n, a), a)
  {
    if n < 0 {
      var t := Times(g, -n - 1, a);
      NegAdd(g, t, a);
      Associative(g, g.neg(t), g.neg(a), a);
      Inverse(g, a);
      Neutral(g, g.neg(t));
      NegZero(g);
    }
  }

  /** Multiples add up. */
  lemma {:induction false} MulAdd<T(!new)>(g: Group<T>, m: int, n: int, a: T)
    requires Abelian(g)
    ensures Mul(g, m + n, a) == g.add(Mul(g, m, a), Mul(g, n, a))
    decreases if n >= 0 then n else -n
  {
    hide Abelian, Mul;
    if n == 0 {
      MulSmall(g, a);
      Neutral(g, Mul(g, m, a));
    } else if n > 0 {
      MulAdd(g, m, n - 1, a);
      MulStep(g, m + n - 1, a);
      MulStep(g, n - 1, a);
      Associative(g, Mul(g, m, a), Mul(g, n - 1, a), a);
    } else {
      MulAdd(g, m, n + 1, a);
      MulStep(g, m + n, a);
      MulStep(g, n, a);
      Associative(g, Mul(g, m, a), Mul(g, n, a), a);
      Cancel(g, Mul(g, m + n, a), g.add(Mul(g, m, a), Mul(g, n, a)), a);
    }
  }

  lemma MulSmall<T(!new)>(g: Group<T>, a: T)
    requires Abelian(g)
    ensures Mul(g, 0, a) == g.zero && Mul(g, 1, a) == a && Mul(g, -1, a) == g.neg(a)
  {
    assert Times(g, 0, a) == g.zero;
    assert Times(g, 1, a) == g.add(g.zero, a);
    Neutral(g, a);
  }

  lemma MulDouble<T(!new)>(g: Group<T>, n: int, a: T)
    requires Abelian(g)
    ensures g.add(Mul(g, n, a), Mul(g, n, a)) == Mul(g, 2 * n, a)
  {
    hide Abelian, Mul;
    MulAdd(g, n, n, a);
  }

  lemma MulNeg<T(!new)>(g: Group<T>, n: int, a: T)
    requires Abelian(g)
    ensures Mul(g, -n, a) == g.neg(Mul(g, n, a)) && Mul(g, n, g.neg(a)) == g.neg(Mul(g, n, a))
  {
    hide Abelian, Mul;
    MulAdd(g, -n, n, a);
    MulSmall(g, a);
    Inverse(g, Mul(g, n, a));
    Cancel(g, Mul(g, -n, a), g.neg(Mul(g, n, a)), Mul(g, n, a));
    MulOver(g, n, a, g.neg(a));
    Inverse(g, a);
    MulZero(g, n);
    Commutative(g, Mul(g, n, a), Mul(g, n, g.neg(a)));
    Cancel(g, Mul(g, n, g.neg(a)), g.neg(Mul(g, n, a)), Mul(g, n, a));
  }

  lemma {:induction false} MulOver<T(!new)>(g: Group<T>, n: int, a: T, b: T)
    requires Abelian(g)
    ensures Mul(g, n, g.add(a, b)) == g.add(Mul(g, n, a), Mul(g, n, b))
    decreases if n >= 0 then n else 1 - n
  {
    hide Abelian, Mul;
    if n == 0 {
      MulSmall(g, a);
      MulSmall(g, b);
      MulSmall(g, g.add(a, b));
      Neutral(g, g.zero);
    } else if n > 0 {
      MulOver(g, n - 1, a, b);
      MulStep(g, n - 1, a);
      MulStep(g, n - 1, b);
      MulStep(g, n - 1, g.add(a, b));
      Interchange(g, Mul(g, n - 1, a), Mul(g, n - 1, b), a, b);
    } else {
      MulOver(g, n + 1, a, b);
      MulStep(g, n, a);
      MulStep(g, n, b);
      MulStep(g, n, g.add(a, b));
      Interchange(g, Mul(g, n, a), Mul(g, n, b), a, b);
      Cancel(g, Mul(g, n, g.add(a, b)), g.add(Mul(g, n, a), Mul(g, n, b)), g.add(a, b));
    }
  }

  lemma {:induction false} MulZero<T(!new)>(g: Group<T>, n: int)
    requires Abelian(g)
    ensures Mul(g, n, g.zero) == g.zero
  {
    hide Abelian, Mul;
    MulOver(g, n, g.zero, g.zero);
    Neutral(g, g.zero);
    Neutral(g, Mul(g, n, g.zero));
    Cancel(g, Mul(g, n, g.zero), g.zero, Mul(g, n, g.zero));
  }

  /** A multiple of a multiple. */
  lemma {:induction false} MulMul<T(!new)>(g: Group<T>, m: int, n: int, a: T)
    requires Abelian(g)
    ensures Mul(g, m, Mul(g, n, a)) == Mul(g, m * n, a)
    decreases if m >= 0 then m else -m
  {
    hide Abelian, Mul;
    if m == 0 {
      MulSmall(g, Mul(g, n, a));
      MulSmall(g, a);
    } else if m > 0 {
      MulMul(g, m - 1, n, a);
      MulStep(g, m - 1, Mul(g, n, a));
      MulAdd(g, (m - 1) * n, n, a);
      assert (m - 1) * n + n == m * n;
    } else {
      MulMul(g, m + 1, n, a);
      MulStep(g, m, Mul(g, n, a));
      MulAdd(g, m * n, n, a);
      assert (m + 1) * n == m * n + n;
      Cancel(g, Mul(g, m, Mul(g, n, a)), Mul(g, m * n, a), Mul(g, n, a));
    }
  }
}
