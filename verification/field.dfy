/**
 Field elements modulo p = 2^255 - 19 in ten signed limbs of alternately 26 and
 25 bits. A limb vector is passed by value: every function of the source copies
 its whole input into locals before it writes its output, so an output that
 overlaps an input is not visible. Preconditions on the machine-level helpers
 are exactly what keeps each int32 and int64 step from overflowing.
 */
module Field25519 {
  import opened Bits
  import opened Modular

  const P: int := 0x7fff_ffff_ffff_ffff_ffff_ffff_ffff_ffff_ffff_ffff_ffff_ffff_ffff_ffff_ffff_ffed

  datatype Fe = Fe(l0: int, l1: int, l2: int, l3: int, l4: int, l5: int, l6: int, l7: int, l8: int, l9: int)

  const Zero := Fe(0, 0, 0, 0, 0, 0, 0, 0, 0, 0)

  const One := Fe(1, 0, 0, 0, 0, 0, 0, 0, 0, 0)

  /** Digits from the lowest, of alternately 26 and 25 bits. */
  function Radix(s: seq<int>): int
  {
    if |s| < 2 then 0 else s[0] + 0x400_0000 * s[1] + 0x8_0000_0000_0000 * Radix(s[2..])
  }

  /** The integer a limb vector stands for. */
  function Val(h: Fe): int { Radix([h.l0, h.l1, h.l2, h.l3, h.l4, h.l5, h.l6, h.l7, h.l8, h.l9]) }

  lemma RadixStep(a: int, b: int, s: seq<int>)
    ensures Radix([a, b] + s) == a + 0x400_0000 * b + 0x8_0000_0000_0000 * Radix(s)
  {
    assert ([a, b] + s)[2..] == s;
  }

  lemma ValIs(h: Fe)
    ensures Val(h) == h.l0
                      + 0x400_0000 * h.l1
                      + 0x8_0000_0000_0000 * h.l2
                      + 0x2000_0000_0000_0000_0000 * h.l3
                      + 0x40_0000_0000_0000_0000_0000_0000 * h.l4
                      + 0x1_0000_0000_0000_0000_0000_0000_0000_0000 * h.l5
                      + 0x200_0000_0000_0000_0000_0000_0000_0000_0000_0000 * h.l6
                      + 0x8_0000_0000_0000_0000_0000_0000_0000_0000_0000_0000_0000 * h.l7
                      + 0x1000_0000_0000_0000_0000_0000_0000_0000_0000_0000_0000_0000_0000 * h.l8
                      + 0x40_0000_0000_0000_0000_0000_0000_0000_0000_0000_0000_0000_0000_0000_0000 * h.l9
  {
    hide Radix;
    RadixStep(h.l0, h.l1, [h.l2, h.l3, h.l4, h.l5, h.l6, h.l7, h.l8, h.l9]);
    RadixStep(h.l2, h.l3, [h.l4, h.l5, h.l6, h.l7, h.l8, h.l9]);
    RadixStep(h.l4, h.l5, [h.l6, h.l7, h.l8, h.l9]);
    RadixStep(h.l6, h.l7, [h.l8, h.l9]);
    RadixStep(h.l8, h.l9, []);
    RadixEmpty([]);
    assert [h.l0, h.l1] + [h.l2, h.l3, h.l4, h.l5, h.l6, h.l7, h.l8, h.l9]
        == [h.l0, h.l1, h.l2, h.l3, h.l4, h.l5, h.l6, h.l7, h.l8, h.l9];
    assert [h.l2, h.l3] + [h.l4, h.l5, h.l6, h.l7, h.l8, h.l9] == [h.l2, h.l3, h.l4, h.l5, h.l6, h.l7, h.l8, h.l9];
    assert [h.l4, h.l5] + [h.l6, h.l7, h.l8, h.l9] == [h.l4, h.l5, h.l6, h.l7, h.l8, h.l9];
    assert [h.l6, h.l7] + [h.l8, h.l9] == [h.l6, h.l7, h.l8, h.l9];
    assert [h.l8, h.l9] + [] == [h.l8, h.l9];
  }

  lemma RadixEmpty(s: seq<int>)
    requires s == []
    ensures Radix(s) == 0
  {
  }

  predicate Within(h: Fe, even: int, odd: int)
  {
    && Abs(h.l0, even) && Abs(h.l1, odd) && Abs(h.l2, even) && Abs(h.l3, odd) && Abs(h.l4, even)
    && Abs(h.l5, odd) && Abs(h.l6, even) && Abs(h.l7, odd) && Abs(h.l8, even) && Abs(h.l9, odd)
  }

  /** 1.01 * 2^25 and 1.01 * 2^24: what multiplication guarantees. */
  predicate Tight(h: Fe) { Within(h, 33_889_976, 16_944_988) }

  /** 1.1 * 2^26 and 1.1 * 2^25: what serialisation documents. */
  predicate Broad(h: Fe) { Within(h, 73_819_750, 36_909_875) }

  /** 1.65 * 2^26 and 1.65 * 2^25: what multiplication accepts. */
  predicate Loose(h: Fe) { Within(h, 110_729_625, 55_364_812) }

  // ---------------------------------------------------------------------
  // Addition, subtraction, negation: limb by limb, no carries.

  predicate Fits(h: Fe) { Within(h, 0x7fff_ffff, 0x7fff_ffff) }

  lemma LooseFromTight(h: Fe)
    requires Tight(h)
    ensures Loose(h) && Fits(h)
  {
  }

  function Plus(f: Fe, g: Fe): Fe
  {
    Fe(f.l0 + g.l0, f.l1 + g.l1, f.l2 + g.l2, f.l3 + g.l3, f.l4 + g.l4,
       f.l5 + g.l5, f.l6 + g.l6, f.l7 + g.l7, f.l8 + g.l8, f.l9 + g.l9)
  }

  function Minus(f: Fe, g: Fe): Fe
  {
    Fe(f.l0 - g.l0, f.l1 - g.l1, f.l2 - g.l2, f.l3 - g.l3, f.l4 - g.l4,
       f.l5 - g.l5, f.l6 - g.l6, f.l7 - g.l7, f.l8 - g.l8, f.l9 - g.l9)
  }

  function FeAdd(f: Fe, g: Fe): (h: Fe)
    requires Fits(f) && Fits(g) && Fits(Plus(f, g))
    ensures Val(h) == Val(f) + Val(g)
  {
    PlusVal(f, g);
    Plus(f, g)
  }

  function FeSub(f: Fe, g: Fe): (h: Fe)
    requires Fits(f) && Fits(g) && Fits(Minus(f, g))
    ensures Val(h) == Val(f) - Val(g)
  {
    MinusVal(f, g);
    Minus(f, g)
  }

  function FeNeg(f: Fe): (h: Fe)
    requires Fits(f)
    ensures Val(h) == -Val(f) && (Tight(f) ==> Tight(h))
  {
    ZeroIs(Zero);
    MinusVal(Zero, f);
    Minus(Zero, f)
  }

  // ---------------------------------------------------------------------
  // The schoolbook product as a Horner scheme over pairs of limbs: 2^51 is
  // exactly two limb positions, 2^26 one position up to the factor 2 that the
  // half-bit of the 25.5-bit radix leaves on odd limbs.

  function Scale(x: int, g: Fe): Fe
  {
    Fe(x * g.l0, x * g.l1, x * g.l2, x * g.l3, x * g.l4, x * g.l5, x * g.l6, x * g.l7, x * g.l8, x * g.l9)
  }

  function Times2To26(g: Fe): Fe
  {
    Fe(38 * g.l9, g.l0, 2 * g.l1, g.l2, 2 * g.l3, g.l4, 2 * g.l5, g.l6, 2 * g.l7, g.l8)
  }

  function Times2To51(g: Fe): Fe
  {
    Fe(19 * g.l8, 19 * g.l9, g.l0, g.l1, g.l2, g.l3, g.l4, g.l5, g.l6, g.l7)
  }

  function Horner(lo: int, hi: int, g: Fe, rest: Fe): Fe
  {
    Plus(Plus(Scale(lo, g), Scale(hi, Times2To26(g))), Times2To51(rest))
  }

  function Product(f: Fe, g: Fe): Fe
  {
    Horner(f.l0, f.l1, g,
           Horner(f.l2, f.l3, g, Horner(f.l4, f.l5, g, Horner(f.l6, f.l7, g, Horner(f.l8, f.l9, g, Zero)))))
  }

  lemma ScaleVal(x: int, g: Fe)
    ensures Val(Scale(x, g)) == x * Val(g)
  {
    hide Val;
    ValIs(g);
    ValIs(Scale(x, g));
  }

  lemma PlusVal(f: Fe, g: Fe)
    ensures Val(Plus(f, g)) == Val(f) + Val(g)
  {
    hide Val;
    ValIs(f);
    ValIs(g);
    ValIs(Plus(f, g));
  }

  lemma MinusVal(f: Fe, g: Fe)
    ensures Val(Minus(f, g)) == Val(f) - Val(g)
  {
    hide Val;
    ValIs(f);
    ValIs(g);
    ValIs(Minus(f, g));
  }

  lemma Times2To26Val(g: Fe)
    ensures Val(Times2To26(g)) == 0x400_0000 * Val(g) - P * (2 * g.l9)
  {
    hide Val;
    ValIs(g);
    ValIs(Times2To26(g));
  }

  lemma Times2To51Val(g: Fe)
    ensures Val(Times2To51(g)) == 0x8_0000_0000_0000 * Val(g) - P * (g.l8 + 0x400_0000 * g.l9)
  {
    hide Val;
    ValIs(g);
    ValIs(Times2To51(g));
  }

  function Acc(p: int, v: int, w: int): int
  {
    p * v + 0x8_0000_0000_0000 * w
  }

  lemma HornerVal(lo: int, hi: int, g: Fe, rest: Fe, w: int)
    requires Cong(Val(rest), w, P)
    ensures Cong(Val(Horner(lo, hi, g, rest)), Acc(lo + 0x400_0000 * hi, Val(g), w), P)
  {
    hide Val;
    var a, b, c := Scale(lo, g), Scale(hi, Times2To26(g)), Times2To51(rest);
    assert Val(Horner(lo, hi, g, rest)) == Val(a) + Val(b) + Val(c) by {
      PlusVal(a, b);
      PlusVal(Plus(a, b), c);
    }
    assert Val(a) == lo * Val(g) by { ScaleVal(lo, g); }
    assert Val(b) == hi * (0x400_0000 * Val(g) - P * (2 * g.l9)) by { ScaleVal(hi, Times2To26(g)); Times2To26Val(g); }
    Times2To51Val(rest);
    HornerArith(lo, hi, Val(g), 2 * g.l9, Val(rest), rest.l8 + 0x400_0000 * rest.l9, w, P);
  }

  lemma HornerArith(lo: int, hi: int, v: int, x: int, r: int, y: int, w: int, q: int)
    requires q > 0 && Cong(r, w, q)
    ensures Cong(lo * v + hi * (0x400_0000 * v - q * x) + (0x8_0000_0000_0000 * r - q * y),
                 (lo + 0x400_0000 * hi) * v + 0x8_0000_0000_0000 * w, q)
  {
    hide Cong;
    var k := CongMultiple(r, w, q);
    var m := 0x8_0000_0000_0000 * k - hi * x - y;
    assert hi * (0x400_0000 * v - q * x) == 0x400_0000 * (hi * v) - q * (hi * x) by {
      assert hi * (q * x) == q * (hi * x);
    }
    assert (lo + 0x400_0000 * hi) * v == lo * v + 0x400_0000 * (hi * v);
    assert q * m == 0x8_0000_0000_0000 * (q * k) - q * (hi * x) - q * y;
    CongBy(lo * v + hi * (0x400_0000 * v - q * x) + (0x8_0000_0000_0000 * r - q * y),
           (lo + 0x400_0000 * hi) * v + 0x8_0000_0000_0000 * w, m, q);
  }

  /** The schoolbook product stands for the product of the values, modulo p. */
  lemma ProductVal(f: Fe, g: Fe)
    ensures Cong(Val(Product(f, g)), Val(f) * Val(g), P)
  {
    hide Val, Horner, Cong, Acc;
    var v := Val(g);
    var p4, p3, p2, p1, p0 := f.l8 + 0x400_0000 * f.l9, f.l6 + 0x400_0000 * f.l7, f.l4 + 0x400_0000 * f.l5,
      f.l2 + 0x400_0000 * f.l3, f.l0 + 0x400_0000 * f.l1;
    var h4 := Horner(f.l8, f.l9, g, Zero);
    var h3 := Horner(f.l6, f.l7, g, h4);
    var h2 := Horner(f.l4, f.l5, g, h3);
    var h1 := Horner(f.l2, f.l3, g, h2);
    var w4 := Acc(p4, v, 0);
    var w3 := Acc(p3, v, w4);
    var w2 := Acc(p2, v, w3);
    var w1 := Acc(p1, v, w2);
    assert Cong(Val(h4), w4, P) by {
      ZeroIs(Zero);
      CongBy(Val(Zero), 0, 0, P);
      HornerVal(f.l8, f.l9, g, Zero, 0);
    }
    assert Cong(Val(h3), w3, P) by { HornerVal(f.l6, f.l7, g, h4, w4); }
    assert Cong(Val(h2), w2, P) by { HornerVal(f.l4, f.l5, g, h3, w3); }
    assert Cong(Val(h1), w1, P) by { HornerVal(f.l2, f.l3, g, h2, w2); }
    HornerVal(f.l0, f.l1, g, h1, w1);
    PairsVal(f);
    Distribute5(p0, p1, p2, p3, p4, v);
  }

  lemma PairsVal(f: Fe)
    ensures Val(f) == (f.l0 + 0x400_0000 * f.l1) + 0x8_0000_0000_0000 * (f.l2 + 0x400_0000 * f.l3)
                      + 0x40_0000_0000_0000_0000_0000_0000 * (f.l4 + 0x400_0000 * f.l5)
                      + 0x200_0000_0000_0000_0000_0000_0000_0000_0000_0000 * (f.l6 + 0x400_0000 * f.l7)
                      + 0x1000_0000_0000_0000_0000_0000_0000_0000_0000_0000_0000_0000_0000 * (f.l8 + 0x400_0000 * f.l9)
  {
    hide Val;
    ValIs(f);
  }

  lemma ZeroIs(z: Fe)
    requires z == Zero
    ensures Val(z) == 0
  {
    hide Val;
    ValIs(z);
  }

  lemma Distribute5(p0: int, p1: int, p2: int, p3: int, p4: int, v: int)
    ensures Acc(p0, v, Acc(p1, v, Acc(p2, v, Acc(p3, v, Acc(p4, v, 0)))))
         == (p0 + 0x8_0000_0000_0000 * p1 + 0x40_0000_0000_0000_0000_0000_0000 * p2
             + 0x200_0000_0000_0000_0000_0000_0000_0000_0000_0000 * p3
             + 0x1000_0000_0000_0000_0000_0000_0000_0000_0000_0000_0000_0000_0000 * p4) * v
  {
  }

  // ---------------------------------------------------------------------
  // fe_mul, fe_sq, fe_sq2: ten columns of 64-bit products, then one carry chain.

  const TERM: int := 465_919_894_400_343_750

  /** (int64) x * y for two int32 operands that already carry their factor 2, 19 or 38. */
  function Wide(x: int, y: int): (z: int)
    requires Abs(x, 221_459_250) && Abs(y, 2_103_862_875)
    ensures Abs(z, TERM)
  {
    x * y
  }

  function Sum10(t0: int, t1: int, t2: int, t3: int, t4: int, t5: int, t6: int, t7: int, t8: int, t9: int): (s: int)
    requires Abs(t0, TERM) && Abs(t1, TERM) && Abs(t2, TERM) && Abs(t3, TERM) && Abs(t4, TERM)
    requires Abs(t5, TERM) && Abs(t6, TERM) && Abs(t7, TERM) && Abs(t8, TERM) && Abs(t9, TERM)
    ensures Abs(s, 10 * TERM) && Int64(s)
  {
    t0 + t1 + t2 + t3 + t4 + t5 + t6 + t7 + t8 + t9
  }

  function Sum6(t0: int, t1: int, t2: int, t3: int, t4: int, t5: int): (s: int)
    requires Abs(t0, TERM) && Abs(t1, TERM) && Abs(t2, TERM) && Abs(t3, TERM) && Abs(t4, TERM) && Abs(t5, TERM)
    ensures Abs(s, 6 * TERM) && Int64(s)
  {
    t0 + t1 + t2 + t3 + t4 + t5
  }

  function Columns(f: Fe, g: Fe): Fe
  {
    var Fe(f0, f1, f2, f3, f4, f5, f6, f7, f8, f9) := f;
    var Fe(g0, g1, g2, g3, g4, g5, g6, g7, g8, g9) := g;
    var g1_19, g2_19, g3_19, g4_19, g5_19, g6_19, g7_19, g8_19, g9_19 :=
      19 * g1, 19 * g2, 19 * g3, 19 * g4, 19 * g5, 19 * g6, 19 * g7, 19 * g8, 19 * g9;
    var f1_2, f3_2, f5_2, f7_2, f9_2 := 2 * f1, 2 * f3, 2 * f5, 2 * f7, 2 * f9;
    Fe(f0 * g0 + f1_2 * g9_19 + f2 * g8_19 + f3_2 * g7_19 + f4 * g6_19 + f5_2 * g5_19 + f6 * g4_19 + f7_2 * g3_19 + f8 * g2_19 + f9_2 * g1_19,
       f0 * g1 + f1 * g0 + f2 * g9_19 + f3 * g8_19 + f4 * g7_19 + f5 * g6_19 + f6 * g5_19 + f7 * g4_19 + f8 * g3_19 + f9 * g2_19,
       f0 * g2 + f1_2 * g1 + f2 * g0 + f3_2 * g9_19 + f4 * g8_19 + f5_2 * g7_19 + f6 * g6_19 + f7_2 * g5_19 + f8 * g4_19 + f9_2 * g3_19,
       f0 * g3 + f1 * g2 + f2 * g1 + f3 * g0 + f4 * g9_19 + f5 * g8_19 + f6 * g7_19 + f7 * g6_19 + f8 * g5_19 + f9 * g4_19,
       f0 * g4 + f1_2 * g3 + f2 * g2 + f3_2 * g1 + f4 * g0 + f5_2 * g9_19 + f6 * g8_19 + f7_2 * g7_19 + f8 * g6_19 + f9_2 * g5_19,
       f0 * g5 + f1 * g4 + f2 * g3 + f3 * g2 + f4 * g1 + f5 * g0 + f6 * g9_19 + f7 * g8_19 + f8 * g7_19 + f9 * g6_19,
       f0 * g6 + f1_2 * g5 + f2 * g4 + f3_2 * g3 + f4 * g2 + f5_2 * g1 + f6 * g0 + f7_2 * g9_19 + f8 * g8_19 + f9_2 * g7_19,
       f0 * g7 + f1 * g6 + f2 * g5 + f3 * g4 + f4 * g3 + f5 * g2 + f6 * g1 + f7 * g0 + f8 * g9_19 + f9 * g8_19,
       f0 * g8 + f1_2 * g7 + f2 * g6 + f3_2 * g5 + f4 * g4 + f5_2 * g3 + f6 * g2 + f7_2 * g1 + f8 * g0 + f9_2 * g9_19,
       f0 * g9 + f1 * g8 + f2 * g7 + f3 * g6 + f4 * g5 + f5 * g4 + f6 * g3 + f7 * g2 + f8 * g1 + f9 * g0)
  }

  lemma ColumnsAreProduct(f: Fe, g: Fe)
    ensures Columns(f, g) == Product(f, g)
  {
    hide Columns, Product;
    Columns01(f, g);
    Columns23(f, g);
    Columns45(f, g);
    Columns67(f, g);
    Columns89(f, g);
  }

  lemma Columns01(f: Fe, g: Fe)
    ensures Columns(f, g).l0 == Product(f, g).l0 && Columns(f, g).l1 == Product(f, g).l1
  {
  }

  lemma Columns23(f: Fe, g: Fe)
    ensures Columns(f, g).l2 == Product(f, g).l2 && Columns(f, g).l3 == Product(f, g).l3
  {
  }

  lemma Columns45(f: Fe, g: Fe)
    ensures Columns(f, g).l4 == Product(f, g).l4 && Columns(f, g).l5 == Product(f, g).l5
  {
  }

  lemma Columns67(f: Fe, g: Fe)
    ensures Columns(f, g).l6 == Product(f, g).l6 && Columns(f, g).l7 == Product(f, g).l7
  {
  }

  lemma Columns89(f: Fe, g: Fe)
    ensures Columns(f, g).l8 == Product(f, g).l8 && Columns(f, g).l9 == Product(f, g).l9
  {
  }

  method MulColumns(f: Fe, g: Fe) returns (h: Fe)
    requires Loose(f) && Loose(g)
    ensures h == Columns(f, g)
    ensures Within(h, 10 * TERM, 10 * TERM)
  {
    var Fe(f0, f1, f2, f3, f4, f5, f6, f7, f8, f9) := f;
    var Fe(g0, g1, g2, g3, g4, g5, g6, g7, g8, g9) := g;
    var g1_19, g2_19, g3_19, g4_19, g5_19, g6_19, g7_19, g8_19, g9_19 :=
      19 * g1, 19 * g2, 19 * g3, 19 * g4, 19 * g5, 19 * g6, 19 * g7, 19 * g8, 19 * g9;
    var f1_2, f3_2, f5_2, f7_2, f9_2 := 2 * f1, 2 * f3, 2 * f5, 2 * f7, 2 * f9;
    var h0 := Sum10(Wide(f0, g0), Wide(f1_2, g9_19), Wide(f2, g8_19), Wide(f3_2, g7_19), Wide(f4, g6_19),
                    Wide(f5_2, g5_19), Wide(f6, g4_19), Wide(f7_2, g3_19), Wide(f8, g2_19), Wide(f9_2, g1_19));
    var h1 := Sum10(Wide(f0, g1), Wide(f1, g0), Wide(f2, g9_19), Wide(f3, g8_19), Wide(f4, g7_19),
                    Wide(f5, g6_19), Wide(f6, g5_19), Wide(f7, g4_19), Wide(f8, g3_19), Wide(f9, g2_19));
    var h2 := Sum10(Wide(f0, g2), Wide(f1_2, g1), Wide(f2, g0), Wide(f3_2, g9_19), Wide(f4, g8_19),
                    Wide(f5_2, g7_19), Wide(f6, g6_19), Wide(f7_2, g5_19), Wide(f8, g4_19), Wide(f9_2, g3_19));
    var h3 := Sum10(Wide(f0, g3), Wide(f1, g2), Wide(f2, g1), Wide(f3, g0), Wide(f4, g9_19),
                    Wide(f5, g8_19), Wide(f6, g7_19), Wide(f7, g6_19), Wide(f8, g5_19), Wide(f9, g4_19));
    var h4 := Sum10(Wide(f0, g4), Wide(f1_2, g3), Wide(f2, g2), Wide(f3_2, g1), Wide(f4, g0),
                    Wide(f5_2, g9_19), Wide(f6, g8_19), Wide(f7_2, g7_19), Wide(f8, g6_19), Wide(f9_2, g5_19));
    var h5 := Sum10(Wide(f0, g5), Wide(f1, g4), Wide(f2, g3), Wide(f3, g2), Wide(f4, g1),
                    Wide(f5, g0), Wide(f6, g9_19), Wide(f7, g8_19), Wide(f8, g7_19), Wide(f9, g6_19));
    var h6 := Sum10(Wide(f0, g6), Wide(f1_2, g5), Wide(f2, g4), Wide(f3_2, g3), Wide(f4, g2),
                    Wide(f5_2, g1), Wide(f6, g0), Wide(f7_2, g9_19), Wide(f8, g8_19), Wide(f9_2, g7_19));
    var h7 := Sum10(Wide(f0, g7), Wide(f1, g6), Wide(f2, g5), Wide(f3, g4), Wide(f4, g3),
                    Wide(f5, g2), Wide(f6, g1), Wide(f7, g0), Wide(f8, g9_19), Wide(f9, g8_19));
    var h8 := Sum10(Wide(f0, g8), Wide(f1_2, g7), Wide(f2, g6), Wide(f3_2, g5), Wide(f4, g4),
                    Wide(f5_2, g3), Wide(f6, g2), Wide(f7_2, g1), Wide(f8, g0), Wide(f9_2, g9_19));
    var h9 := Sum10(Wide(f0, g9), Wide(f1, g8), Wide(f2, g7), Wide(f3, g6), Wide(f4, g5),
                    Wide(f5, g4), Wide(f6, g3), Wide(f7, g2), Wide(f8, g1), Wide(f9, g0));
    h := Fe(h0, h1, h2, h3, h4, h5, h6, h7, h8, h9);
  }

  function SquareColumns(f: Fe): Fe
  {
    var Fe(f0, f1, f2, f3, f4, f5, f6, f7, f8, f9) := f;
    var f0_2, f1_2, f2_2, f3_2, f4_2, f5_2, f6_2, f7_2 :=
      2 * f0, 2 * f1, 2 * f2, 2 * f3, 2 * f4, 2 * f5, 2 * f6, 2 * f7;
    var f5_38, f6_19, f7_38, f8_19, f9_38 := 38 * f5, 19 * f6, 38 * f7, 19 * f8, 38 * f9;
    Fe(f0 * f0 + f1_2 * f9_38 + f2_2 * f8_19 + f3_2 * f7_38 + f4_2 * f6_19 + f5 * f5_38,
       f0_2 * f1 + f2 * f9_38 + f3_2 * f8_19 + f4 * f7_38 + f5_2 * f6_19,
       f0_2 * f2 + f1_2 * f1 + f3_2 * f9_38 + f4_2 * f8_19 + f5_2 * f7_38 + f6 * f6_19,
       f0_2 * f3 + f1_2 * f2 + f4 * f9_38 + f5_2 * f8_19 + f6 * f7_38,
       f0_2 * f4 + f1_2 * f3_2 + f2 * f2 + f5_2 * f9_38 + f6_2 * f8_19 + f7 * f7_38,
       f0_2 * f5 + f1_2 * f4 + f2_2 * f3 + f6 * f9_38 + f7_2 * f8_19,
       f0_2 * f6 + f1_2 * f5_2 + f2_2 * f4 + f3_2 * f3 + f7_2 * f9_38 + f8 * f8_19,
       f0_2 * f7 + f1_2 * f6 + f2_2 * f5 + f3_2 * f4 + f8 * f9_38,
       f0_2 * f8 + f1_2 * f7_2 + f2_2 * f6 + f3_2 * f5_2 + f4 * f4 + f9 * f9_38,
       f0_2 * f9 + f1_2 * f8 + f2_2 * f7 + f3_2 * f6 + f4_2 * f5)
  }

  lemma SquareColumns01(f: Fe)
    ensures SquareColumns(f).l0 == Columns(f, f).l0 && SquareColumns(f).l1 == Columns(f, f).l1
  {
  }

  lemma SquareColumns23(f: Fe)
    ensures SquareColumns(f).l2 == Columns(f, f).l2 && SquareColumns(f).l3 == Columns(f, f).l3
  {
  }

  lemma SquareColumns45(f: Fe)
    ensures SquareColumns(f).l4 == Columns(f, f).l4 && SquareColumns(f).l5 == Columns(f, f).l5
  {
  }

  lemma SquareColumns67(f: Fe)
    ensures SquareColumns(f).l6 == Columns(f, f).l6 && SquareColumns(f).l7 == Columns(f, f).l7
  {
  }

  lemma SquareColumns89(f: Fe)
    ensures SquareColumns(f).l8 == Columns(f, f).l8 && SquareColumns(f).l9 == Columns(f, f).l9
  {
  }

  /** Symmetry halves the products of a square: the columns are those of the product. */
  lemma SquareColumnsAreProduct(f: Fe)
    ensures SquareColumns(f) == Columns(f, f)
  {
    hide SquareColumns, Columns;
    SquareColumns01(f);
    SquareColumns23(f);
    SquareColumns45(f);
    SquareColumns67(f);
    SquareColumns89(f);
  }

  method SqColumns(f: Fe) returns (h: Fe)
    requires Loose(f)
    ensures h == SquareColumns(f)
    ensures Within(h, 6 * TERM, 6 * TERM)
  {
    var Fe(f0, f1, f2, f3, f4, f5, f6, f7, f8, f9) := f;
    var f0_2, f1_2, f2_2, f3_2, f4_2, f5_2, f6_2, f7_2 :=
      2 * f0, 2 * f1, 2 * f2, 2 * f3, 2 * f4, 2 * f5, 2 * f6, 2 * f7;
    var f5_38, f6_19, f7_38, f8_19, f9_38 := 38 * f5, 19 * f6, 38 * f7, 19 * f8, 38 * f9;
    var h0 := Sum6(Wide(f0, f0), Wide(f1_2, f9_38), Wide(f2_2, f8_19), Wide(f3_2, f7_38), Wide(f4_2, f6_19),
                   Wide(f5, f5_38));
    var h1 := Sum6(Wide(f0_2, f1), Wide(f2, f9_38), Wide(f3_2, f8_19), Wide(f4, f7_38), Wide(f5_2, f6_19), 0);
    var h2 := Sum6(Wide(f0_2, f2), Wide(f1_2, f1), Wide(f3_2, f9_38), Wide(f4_2, f8_19), Wide(f5_2, f7_38),
                   Wide(f6, f6_19));
    var h3 := Sum6(Wide(f0_2, f3), Wide(f1_2, f2), Wide(f4, f9_38), Wide(f5_2, f8_19), Wide(f6, f7_38), 0);
    var h4 := Sum6(Wide(f0_2, f4), Wide(f1_2, f3_2), Wide(f2, f2), Wide(f5_2, f9_38), Wide(f6_2, f8_19),
                   Wide(f7, f7_38));
    var h5 := Sum6(Wide(f0_2, f5), Wide(f1_2, f4), Wide(f2_2, f3), Wide(f6, f9_38), Wide(f7_2, f8_19), 0);
    var h6 := Sum6(Wide(f0_2, f6), Wide(f1_2, f5_2), Wide(f2_2, f4), Wide(f3_2, f3), Wide(f7_2, f9_38),
                   Wide(f8, f8_19));
    var h7 := Sum6(Wide(f0_2, f7), Wide(f1_2, f6), Wide(f2_2, f5), Wide(f3_2, f4), Wide(f8, f9_38), 0);
    var h8 := Sum6(Wide(f0_2, f8), Wide(f1_2, f7_2), Wide(f2_2, f6), Wide(f3_2, f5_2), Wide(f4, f4), Wide(f9, f9_38));
    var h9 := Sum6(Wide(f0_2, f9), Wide(f1_2, f8), Wide(f2_2, f7), Wide(f3_2, f6), Wide(f4_2, f5), 0);
    h := Fe(h0, h1, h2, h3, h4, h5, h6, h7, h8, h9);
  }

  const ROOM: int := 6_000_000_000_000_000_000

  /** One rounding carry out of a 26-bit limb: lo += 2^25, the quotient by 2^26 moves to hi. */
  method Carry26(lo: int, hi: int) returns (lo': int, hi': int)
    requires Abs(lo, ROOM + 0x100_0000_0000) && Abs(hi, ROOM + 0x100_0000_0000)
    ensures lo' + 0x400_0000 * hi' == lo + 0x400_0000 * hi
    ensures -0x200_0000 <= lo' < 0x200_0000
  {
    var carry := (lo + 0x200_0000) / 0x400_0000;
    hi' := hi + carry;
    lo' := lo - carry * 0x400_0000;
    assert Int64(lo + 0x200_0000) && Int64(hi');
  }

  method Carry25(lo: int, hi: int) returns (lo': int, hi': int)
    requires Abs(lo, ROOM + 0x100_0000_0000) && Abs(hi, ROOM + 0x100_0000_0000)
    ensures lo' + 0x200_0000 * hi' == lo + 0x200_0000 * hi
    ensures -0x100_0000 <= lo' < 0x100_0000
  {
    var carry := (lo + 0x100_0000) / 0x200_0000;
    hi' := hi + carry;
    lo' := lo - carry * 0x200_0000;
    assert Int64(lo + 0x100_0000) && Int64(hi');
  }

  /** The carry out of the top limb re-enters at the bottom times 19: 2^255 = 19 mod p. */
  method CarryTop(h9: int, h0: int) returns (h9': int, h0': int, ghost carry: int)
    requires Abs(h9, ROOM + 0x100_0000_0000) && Abs(h0, 0x2_0000_0000)
    ensures h9' == h9 - carry * 0x200_0000 && h0' == h0 + carry * 19
    ensures -0x100_0000 <= h9' < 0x100_0000
  {
    var c := (h9 + 0x100_0000) / 0x200_0000;
    h0' := h0 + c * 19;
    h9' := h9 - c * 0x200_0000;
    assert Int64(h9 + 0x100_0000) && Int64(h0');
    carry := c;
  }

  /** The first eight carries: two interleaved chains from limbs 0 and 4. */
  method CarryForward(h: Fe) returns (r: Fe)
    requires Within(h, ROOM, ROOM)
    ensures Val(r) == Val(h)
    ensures Abs(r.l0, 0x200_0000) && Abs(r.l1, 0x100_0000) && Abs(r.l2, 0x200_0000) && Abs(r.l3, 0x100_0000)
    ensures Abs(r.l4, 0x40_0000_0000) && Abs(r.l5, 0x100_0000) && Abs(r.l6, 0x200_0000) && Abs(r.l7, 0x100_0000)
    ensures Abs(r.l8, ROOM + 0x40_0000_0000) && Abs(r.l9, ROOM)
  {
    hide Val;
    var Fe(h0, h1, h2, h3, h4, h5, h6, h7, h8, h9) := h;
    h0, h1 := Carry26(h0, h1);
    h4, h5 := Carry26(h4, h5);
    h1, h2 := Carry25(h1, h2);
    h5, h6 := Carry25(h5, h6);
    h2, h3 := Carry26(h2, h3);
    h6, h7 := Carry26(h6, h7);
    h3, h4 := Carry25(h3, h4);
    h7, h8 := Carry25(h7, h8);
    r := Fe(h0, h1, h2, h3, h4, h5, h6, h7, h8, h9);
    ValIs(h);
    ValIs(r);
  }

  /** The last four carries: 4, 8, the wrap from 9 to 0, and 0 again. */
  method CarryWrap(h: Fe) returns (r: Fe)
    requires Abs(h.l0, 0x200_0000) && Abs(h.l1, 0x100_0000) && Abs(h.l2, 0x200_0000) && Abs(h.l3, 0x100_0000)
    requires Abs(h.l4, 0x40_0000_0000) && Abs(h.l5, 0x100_0000) && Abs(h.l6, 0x200_0000) && Abs(h.l7, 0x100_0000)
    requires Abs(h.l8, ROOM + 0x40_0000_0000) && Abs(h.l9, ROOM)
    ensures Cong(Val(r), Val(h), P)
    ensures Tight(r)
  {
    hide Val;
    var Fe(h0, h1, h2, h3, h4, h5, h6, h7, h8, h9) := h;
    h4, h5 := Carry26(h4, h5);
    h8, h9 := Carry26(h8, h9);
    ghost var c;
    h9, h0, c := CarryTop(h9, h0);
    h0, h1 := Carry26(h0, h1);
    r := Fe(h0, h1, h2, h3, h4, h5, h6, h7, h8, h9);
    ValIs(h);
    ValIs(r);
    CongBy(Val(r), Val(h), -c, P);
  }

  /** fe_mul. */
  method FeMul(f: Fe, g: Fe) returns (h: Fe)
    requires Loose(f) && Loose(g)
    ensures Cong(Val(h), Val(f) * Val(g), P)
    ensures Tight(h)
  {
    hide Cong, Val, Columns, Product;
    var columns := MulColumns(f, g);
    var r := CarryForward(columns);
    h := CarryWrap(r);
    ColumnsAreProduct(f, g);
    ProductVal(f, g);
    CongTrans(Val(h), Val(columns), Val(f) * Val(g), P);
  }

  /** fe_sq. */
  method FeSq(f: Fe) returns (h: Fe)
    requires Loose(f)
    ensures Cong(Val(h), Val(f) * Val(f), P)
    ensures Tight(h)
  {
    hide Cong, Val, Columns, SquareColumns, Product;
    var columns := SqColumns(f);
    var r := CarryForward(columns);
    h := CarryWrap(r);
    SquareColumnsAreProduct(f);
    ColumnsAreProduct(f, f);
    ProductVal(f, f);
    CongTrans(Val(h), Val(columns), Val(f) * Val(f), P);
  }

  /** fe_sq2: the squared columns are doubled before the carries. */
  method FeSq2(f: Fe) returns (h: Fe)
    requires Loose(f)
    ensures Cong(Val(h), 2 * (Val(f) * Val(f)), P)
    ensures Tight(h)
  {
    hide Cong, Val, Columns, SquareColumns, Product;
    var columns := SqColumns(f);
    var doubled := Plus(columns, columns);
    var r := CarryForward(doubled);
    h := CarryWrap(r);
    PlusVal(columns, columns);
    SquareColumnsAreProduct(f);
    ColumnsAreProduct(f, f);
    ProductVal(f, f);
    CongAdd(Val(columns), Val(f) * Val(f), Val(columns), Val(f) * Val(f), P);
    CongTrans(Val(h), Val(doubled), 2 * (Val(f) * Val(f)), P);
  }
}
