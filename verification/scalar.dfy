/**
 sc_reduce and sc_muladd: arithmetic modulo the group order L in signed 21-bit
 limbs. The straight-line carry code of the source is grouped into passes: a
 rounding pass carries out of every second limb, a floor pass out of every limb
 in turn, and a fold replaces the top limb by its multiple of 2^252 mod L.
 Preconditions keep every int64 step of every pass in range.
 */
module Scalar {
  import opened Bits
  import opened Bytes
  import opened Modular

  const L: int := 0x1000_0000_0000_0000_0000_0000_0000_0000_14de_f9de_a2f7_9cd6_5812_631a_5cf5_d3ed

  /** 2^(21 i). */
  function Weight(i: nat): (w: nat)
    ensures w > 0
  {
    if i == 0 then 1 else 0x20_0000 * Weight(i - 1)
  }

  /** The integer a limb vector stands for. */
  function Val(s: seq<int>): int
  {
    if |s| == 0 then 0 else s[0] + 0x20_0000 * Val(s[1..])
  }

  /** Multiplication under a name, so that a proof can treat products as atoms. */
  function Mul(x: int, y: int): int
  {
    x * y
  }

  function Add(s: seq<int>, i: nat, d: int): (r: seq<int>)
    requires i < |s|
    ensures |r| == |s|
  {
    s[i := s[i] + d]
  }

  lemma {:induction false} AddAt(s: seq<int>, i: nat, d: int)
    requires i < |s|
    ensures Val(Add(s, i, d)) == Val(s) + Mul(d, Weight(i))
  {
    if i == 0 {
      assert s[i := s[i] + d][1..] == s[1..];
    } else {
      assert s[i := s[i] + d][1..] == s[1..][i - 1 := s[i] + d];
      AddAt(s[1..], i - 1, d);
      var w := Weight(i - 1);
      assert 0x20_0000 * (d * w) == d * (0x20_0000 * w);
    }
  }

  lemma {:induction false} SplitVal(s: seq<int>, i: nat)
    requires i <= |s|
    ensures Val(s) == Val(s[..i]) + Weight(i) * Val(s[i..])
  {
    if i == 0 {
      assert s[0..] == s;
    } else {
      assert s[..i][1..] == s[1..][..i - 1] && s[1..][i - 1..] == s[i..];
      SplitVal(s[1..], i - 1);
      var w, v := Weight(i - 1), Val(s[i..]);
      assert 0x20_0000 * (w * v) == (0x20_0000 * w) * v;
    }
  }

  // ---------------------------------------------------------------------
  // Carries.

  /** c moves from limb i to limb i + 1. */
  function Move(s: seq<int>, i: nat, c: int): (r: seq<int>)
    requires i + 1 < |s|
    ensures |r| == |s|
  {
    s[i := s[i] - c * 0x20_0000][i + 1 := s[i + 1] + c]
  }

  lemma MoveVal(s: seq<int>, i: nat, c: int)
    requires i + 1 < |s|
    ensures Val(Move(s, i, c)) == Val(s)
  {
    hide Val, Weight, Move, Add, Mul;
    var d := -(c * 0x20_0000);
    var t := Add(s, i, d);
    AddAt(s, i, d);
    AddAt(t, i + 1, c);
    MoveTwice(s, i, c);
    MoveArith(c, i);
  }

  lemma MoveTwice(s: seq<int>, i: nat, c: int)
    requires i + 1 < |s|
    ensures Move(s, i, c) == Add(Add(s, i, -(c * 0x20_0000)), i + 1, c)
  {
  }

  lemma MoveArith(c: int, i: nat)
    ensures Mul(-(c * 0x20_0000), Weight(i)) + Mul(c, Weight(i + 1)) == 0
  {
    var w := Weight(i);
    assert c * (0x20_0000 * w) == (c * 0x20_0000) * w;
  }

  const ROOM: int := 0x4000_0000_0000_0000
  const HALF: int := 0x2000_0000_0000_0000

  /** The quotient of x by 2^21, rounded to nearest. */
  function Rounded(x: int): (c: int)
    requires Abs(x, ROOM)
    ensures Abs(x - c * 0x20_0000, 0x10_0000)
  {
    (x + 0x10_0000) / 0x20_0000
  }

  /** Rounding carries out of limbs i, i + 2, ... up to last. */
  function RoundPass(s: seq<int>, i: nat, last: nat): (r: seq<int>)
    requires last + 1 < |s|
    requires forall k :: i <= k <= last + 1 ==> Abs(s[k], ROOM)
    ensures |r| == |s|
    decreases last + 2 - i
  {
    if i > last then s else RoundPass(Move(s, i, Rounded(s[i])), i + 2, last)
  }

  lemma {:induction false} RoundPassVal(s: seq<int>, i: nat, last: nat)
    requires last + 1 < |s|
    requires forall k :: i <= k <= last + 1 ==> Abs(s[k], ROOM)
    ensures Val(RoundPass(s, i, last)) == Val(s)
    decreases last + 2 - i
  {
    if i <= last {
      MoveVal(s, i, Rounded(s[i]));
      RoundPassVal(Move(s, i, Rounded(s[i])), i + 2, last);
    }
  }

  /** Limbs that carry are bounded by b, those that receive by d, the last receiver by e; a carry by c. */
  predicate RoundBounds(s: seq<int>, i: nat, last: nat, b: int, d: int, e: int, c: int)
  {
    && last + 1 < |s| && (last - i) % 2 == 0 && i <= last
    && 0 <= b <= ROOM && 0 <= d && 0 <= e && d + c <= ROOM && e + c <= ROOM && b + 0x10_0000 <= 0x20_0000 * c
    && (forall k :: i <= k <= last ==> Abs(s[k], if (k - i) % 2 == 0 then b else d))
    && Abs(s[last + 1], e)
  }

  /** Limbs that carried are rounded; receivers grew by at most one carry; the rest is untouched. */
  lemma {:induction false} RoundPassBounds(s: seq<int>, i: nat, last: nat, b: int, d: int, e: int, c: int)
    requires RoundBounds(s, i, last, b, d, e, c)
    requires forall k :: i <= k <= last + 1 ==> Abs(s[k], ROOM)
    ensures var r := RoundPass(s, i, last);
            && (forall k :: i <= k <= last ==> Abs(r[k], if (k - i) % 2 == 0 then 0x10_0000 else d + c))
            && Abs(r[last + 1], e + c)
            && (forall k :: 0 <= k < |s| && !(i <= k <= last + 1) ==> r[k] == s[k])
    decreases last - i
  {
    var t := Move(s, i, Rounded(s[i]));
    assert Abs(s[i], b);
    if i == last {
      assert RoundPass(t, i + 2, last) == t;
    } else {
      assert Abs(s[i + 1], d);
      forall k | i + 2 <= k <= last
        ensures Abs(t[k], if (k - (i + 2)) % 2 == 0 then b else d)
      {
        assert t[k] == s[k] && (k - (i + 2)) % 2 == (k - i) % 2;
      }
      RoundPassBounds(t, i + 2, last, b, d, e, c);
    }
  }

  /** The quotient of x by 2^21, rounded down: an arithmetic right shift. */
  function Floored(x: int): (c: int)
    ensures 0 <= x - c * 0x20_0000 < 0x20_0000
  {
    x / 0x20_0000
  }

  /** Floor carries out of limbs i, i + 1, ... up to last. */
  function FloorPass(s: seq<int>, i: nat, last: nat): (r: seq<int>)
    requires last + 1 < |s| && i <= last + 1
    requires Abs(s[i], ROOM) && forall k :: i < k <= last + 1 ==> Abs(s[k], HALF)
    ensures |r| == |s|
    decreases last + 1 - i
  {
    if i > last then s
    else
      var t := Move(s, i, Floored(s[i]));
      assert Abs(s[i + 1], HALF);
      assert forall k :: i + 1 < k <= last + 1 ==> t[k] == s[k];
      FloorPass(t, i + 1, last)
  }

  lemma {:induction false} FloorPassVal(s: seq<int>, i: nat, last: nat)
    requires last + 1 < |s| && i <= last + 1
    requires Abs(s[i], ROOM) && forall k :: i < k <= last + 1 ==> Abs(s[k], HALF)
    ensures Val(FloorPass(s, i, last)) == Val(s)
    decreases last + 1 - i
  {
    if i <= last {
      MoveVal(s, i, Floored(s[i]));
      FloorPassVal(Move(s, i, Floored(s[i])), i + 1, last);
    }
  }

  /** Every limb that carried is a 21-bit digit; the others are untouched. */
  lemma {:induction false} FloorPassDigits(s: seq<int>, i: nat, last: nat)
    requires last + 1 < |s| && i <= last + 1
    requires Abs(s[i], ROOM) && forall k :: i < k <= last + 1 ==> Abs(s[k], HALF)
    ensures var r := FloorPass(s, i, last);
            && (forall k :: i <= k <= last ==> 0 <= r[k] < 0x20_0000)
            && (forall k :: 0 <= k < i || last + 1 < k < |s| ==> r[k] == s[k])
    decreases last + 1 - i
  {
    if i <= last {
      assert Abs(s[i + 1], HALF);
      FloorPassDigits(Move(s, i, Floored(s[i])), i + 1, last);
    }
  }

  // ---------------------------------------------------------------------
  // Folding the top limb down: 2^252 = 666643 + 470296 * 2^21 + ... modulo L.

  predicate Bounded(s: seq<int>, lo: nat, hi: nat, b: int)
    requires hi <= |s|
  {
    forall i :: lo <= i < hi ==> Abs(s[i], b)
  }

  /** The six products and sums of a fold fit in an int64. */
  predicate Foldable(s: seq<int>)
  {
    |s| >= 13 && Abs(s[|s| - 1], 0x40_0000_0000) && Bounded(s, 0, |s| - 1, ROOM)
  }

  function Fold(s: seq<int>): (r: seq<int>)
    requires Foldable(s)
    ensures |r| == |s| - 1
  {
    var k := |s| - 1;
    var t, j := s[k], k - 12;
    Add(Add(Add(Add(Add(Add(s[..k], j, t * 666643), j + 1, t * 470296), j + 2, t * 654183),
                j + 3, t * -997805), j + 4, t * 136657), j + 5, t * -683901)
  }

  lemma WeightSteps(j: nat)
    ensures Weight(j + 1) == 0x20_0000 * Weight(j) && Weight(j + 2) == 0x400_0000_0000 * Weight(j)
    ensures Weight(j + 3) == 0x8000_0000_0000_0000 * Weight(j)
            && Weight(j + 4) == 0x10_0000_0000_0000_0000_0000 * Weight(j)
    ensures Weight(j + 5) == 0x200_0000_0000_0000_0000_0000_0000 * Weight(j)
    ensures Weight(j + 6) == 0x4000_0000_0000_0000_0000_0000_0000_0000 * Weight(j)
  {
    assert Weight(j + 2) == 0x20_0000 * Weight(j + 1);
    assert Weight(j + 4) == 0x20_0000 * Weight(j + 3);
    assert Weight(j + 6) == 0x20_0000 * Weight(j + 5);
  }

  lemma FoldSteps(s: seq<int>, k: nat, j: nat, t: int)
    requires Foldable(s) && k == |s| - 1 && j == k - 12 && t == s[k]
    ensures Val(Fold(s)) == Val(s[..k]) + Mul(t * 666643, Weight(j)) + Mul(t * 470296, Weight(j + 1))
                            + Mul(t * 654183, Weight(j + 2)) + Mul(t * -997805, Weight(j + 3))
                            + Mul(t * 136657, Weight(j + 4)) + Mul(t * -683901, Weight(j + 5))
  {
    hide Val, Weight, Add, Mul;
    var s0 := s[..k];
    var s1 := Add(s0, j, t * 666643);
    var s2 := Add(s1, j + 1, t * 470296);
    var s3 := Add(s2, j + 2, t * 654183);
    var s4 := Add(s3, j + 3, t * -997805);
    var s5 := Add(s4, j + 4, t * 136657);
    AddAt(s0, j, t * 666643);
    AddAt(s1, j + 1, t * 470296);
    AddAt(s2, j + 2, t * 654183);
    AddAt(s3, j + 3, t * -997805);
    AddAt(s4, j + 4, t * 136657);
    AddAt(s5, j + 5, t * -683901);
  }

  /** A fold subtracts a multiple of L. */
  lemma FoldVal(s: seq<int>)
    requires Foldable(s)
    ensures Val(Fold(s)) == Val(s) - L * Mul(s[|s| - 1], Weight(|s| - 13))
  {
    hide Val, Weight, Fold, Mul;
    var k := |s| - 1;
    var t, j := s[k], k - 12;
    TopVal(s);
    FoldSteps(s, k, j, t);
    WeightSteps(j);
    WeightSteps(j + 6);
    FoldArith(t, Weight(j), Weight(j + 1), Weight(j + 2), Weight(j + 3), Weight(j + 4), Weight(j + 5), Weight(j + 12));
  }

  lemma TopVal(s: seq<int>)
    requires |s| >= 1
    ensures Val(s) == Val(s[..|s| - 1]) + Mul(s[|s| - 1], Weight(|s| - 1))
  {
    hide Val, Weight;
    var k := |s| - 1;
    SplitVal(s, k);
    assert s[k..] == [s[k]];
    SingleVal(s[k]);
  }

  lemma SingleVal(x: int)
    ensures Val([x]) == x
  {
    assert [x][1..] == [];
  }

  lemma FoldArith(t: int, w: int, w1: int, w2: int, w3: int, w4: int, w5: int, w12: int)
    requires w1 == 0x20_0000 * w && w2 == 0x400_0000_0000 * w && w3 == 0x8000_0000_0000_0000 * w
    requires w4 == 0x10_0000_0000_0000_0000_0000 * w && w5 == 0x200_0000_0000_0000_0000_0000_0000 * w
    requires w12 == 0x1000_0000_0000_0000_0000_0000_0000_0000_0000_0000_0000_0000_0000_0000_0000_0000 * w
    ensures Mul(t * 666643, w) + Mul(t * 470296, w1) + Mul(t * 654183, w2) + Mul(t * -997805, w3) + Mul(t * 136657, w4)
            + Mul(t * -683901, w5) == Mul(t, w12) - L * Mul(t, w)
  {
  }

  /** A fold adds less than 2^20 times the top limb to six limbs and leaves the others alone. */
  lemma FoldBounds(s: seq<int>, e: int)
    requires Foldable(s) && Abs(s[|s| - 1], e)
    ensures forall i :: 0 <= i < |s| - 1 ==> Abs(Fold(s)[i] - s[i], 0x10_0000 * e)
    ensures forall i :: |s| - 7 <= i < |s| - 1 ==> Fold(s)[i] == s[i]
  {
    var r, t := Fold(s), s[|s| - 1];
    forall i | 0 <= i < |s| - 1
      ensures Abs(r[i] - s[i], 0x10_0000 * e)
    {
      Coefficient(t, e);
    }
  }

  lemma Coefficient(t: int, e: int)
    requires Abs(t, e)
    ensures Abs(t * 666643, 0x10_0000 * e) && Abs(t * 470296, 0x10_0000 * e) && Abs(t * 654183, 0x10_0000 * e)
    ensures Abs(t * -997805, 0x10_0000 * e) && Abs(t * 136657, 0x10_0000 * e) && Abs(t * -683901, 0x10_0000 * e)
  {
  }

  predicate FoldableTo(s: seq<int>, n: nat)
  {
    && 12 <= n <= |s| <= n + 6
    && Bounded(s, n, |s|, 0x40_0000_0000) && Bounded(s, 0, n, ROOM - (|s| - n) * 0x400_0000_0000_0000)
  }

  lemma FoldStep(s: seq<int>, n: nat)
    requires FoldableTo(s, n) && |s| > n
    ensures Foldable(s) && FoldableTo(Fold(s), n)
  {
    assert Foldable(s) by {
      assert forall i :: 0 <= i < |s| - 1 ==> Abs(s[i], ROOM);
    }
    FoldBounds(s, 0x40_0000_0000);
    var r := Fold(s);
    forall i | n <= i < |r|
      ensures Abs(r[i], 0x40_0000_0000)
    {
      assert r[i] == s[i];
    }
    forall i | 0 <= i < n
      ensures Abs(r[i], ROOM - (|r| - n) * 0x400_0000_0000_0000)
    {
      assert Abs(s[i], ROOM - (|s| - n) * 0x400_0000_0000_0000);
    }
  }

  /** Folds until n limbs are left; at most six, so that no folded limb has been folded into. */
  function FoldTo(s: seq<int>, n: nat): (r: seq<int>)
    requires FoldableTo(s, n)
    ensures |r| == n
    decreases |s|
  {
    if |s| == n then s
    else
      FoldStep(s, n);
      FoldTo(Fold(s), n)
  }

  lemma {:induction false} FoldToVal(s: seq<int>, n: nat)
    requires FoldableTo(s, n)
    ensures Cong(Val(FoldTo(s, n)), Val(s), L)
    decreases |s|
  {
    hide Val, Weight, Mul, Fold, Cong;
    if |s| > n {
      FoldStep(s, n);
      FoldVal(s);
      CongBy(Val(Fold(s)), Val(s), -Mul(s[|s| - 1], Weight(|s| - 13)), L);
      FoldToVal(Fold(s), n);
      CongTrans(Val(FoldTo(s, n)), Val(Fold(s)), Val(s), L);
    } else {
      CongBy(Val(s), Val(s), 0, L);
    }
  }

  /** Up to six folds of limbs below e add less than 6 * 2^20 e to a limb; the last ones stay as they are. */
  lemma {:induction false} FoldToBounds(s: seq<int>, n: nat, b: int, e: int)
    requires FoldableTo(s, n) && 0 <= e
    requires Bounded(s, 0, n, b) && Bounded(s, n, |s|, e)
    ensures Bounded(FoldTo(s, n), 0, n, b + (|s| - n) * (0x10_0000 * e))
    ensures forall i :: |s| - 7 <= i < n ==> FoldTo(s, n)[i] == s[i]
    decreases |s|
  {
    hide Fold;
    if |s| > n {
      FoldStep(s, n);
      FoldBounds(s, e);
      var t, d := Fold(s), 0x10_0000 * e;
      assert Bounded(t, 0, n, b + d);
      FoldToBounds(t, n, b + d, e);
      assert b + d + (|t| - n) * d == b + (|s| - n) * d;
    }
  }

  // ---------------------------------------------------------------------
  // The reduction of 24 limbs, shared by sc_reduce and sc_muladd.

  /** From 24 limbs to 18: six folds, then two rounding passes over the middle limbs. */
  method FoldHigh(l: seq<int>) returns (r: seq<int>)
    requires |l| == 24 && Bounded(l, 0, 24, 0x8000_0000)
    ensures |r| == 18 && Cong(Val(r), Val(l), L)
    ensures Bounded(r, 0, 11, 0x40_0000_0000_0000) && Abs(r[11], 0x10_0000) && Bounded(r, 12, 18, 0x4_0000_0000)
  {
    hide Val, Cong, Fold, FoldTo, RoundPass;
    FoldToVal(l, 18);
    FoldToBounds(l, 18, 0x8000_0000, 0x8000_0000);
    var r0 := FoldTo(l, 18);
    var r1 := RoundPass(r0, 6, 16);
    RoundPassVal(r0, 6, 16);
    RoundPassBounds(r0, 6, 16, 0x40_0000_0000_0000, 0x40_0000_0000_0000, 0x8000_0000, 0x2_0000_0001);
    r := RoundPass(r1, 7, 15);
    RoundPassVal(r1, 7, 15);
    RoundPassBounds(r1, 7, 15, 0x40_0002_0000_0001, 0x10_0000, 0x10_0000, 0x2_0000_1001);
  }

  lemma {:induction false} AppendZero(s: seq<int>)
    ensures Val(s + [0]) == Val(s)
  {
    if |s| > 0 {
      assert (s + [0])[1..] == s[1..] + [0];
      AppendZero(s[1..]);
    }
  }

  /** From 18 limbs to 12 in rounded form: six folds, two rounding passes into a thirteenth limb, and its fold. */
  method FoldMiddle(l: seq<int>) returns (r: seq<int>)
    requires |l| == 18
    requires Bounded(l, 0, 11, 0x40_0000_0000_0000) && Abs(l[11], 0x10_0000) && Bounded(l, 12, 18, 0x4_0000_0000)
    ensures |r| == 12 && Cong(Val(r), Val(l), L)
    ensures Bounded(r, 0, 6, 0x400_0000_0000_0000) && Bounded(r, 6, 11, 0x20_0000_0000) && Abs(r[11], 0x10_0000)
  {
    hide Val, Cong, Fold, FoldTo, RoundPass;
    FoldToVal(l, 12);
    FoldToBounds(l, 12, 0x40_0000_0000_0000, 0x4_0000_0000);
    var r0 := FoldTo(l, 12);
    AppendZero(r0);
    var r1 := RoundTwice(r0 + [0]);
    FoldToVal(r1, 12);
    FoldToBounds(r1, 12, 0x20_0000_0000, 0x20_0000_0000);
    r := FoldTo(r1, 12);
    CongTrans(Val(r), Val(r1), Val(l), L);
    forall i | 6 <= i < 12
      ensures r[i] == r1[i]
    {
    }
  }

  method RoundTwice(l: seq<int>) returns (r: seq<int>)
    requires |l| == 13 && Bounded(l, 0, 11, 0x200_0000_0000_0000) && Abs(l[11], 0x10_0000) && l[12] == 0
    ensures |r| == 13 && Val(r) == Val(l)
    ensures Bounded(r, 0, 13, 0x20_0000_0000) && Abs(r[11], 0x10_0000)
  {
    hide Val, RoundPass;
    var r1 := RoundPass(l, 0, 10);
    RoundPassVal(l, 0, 10);
    RoundPassBounds(l, 0, 10, 0x200_0000_0000_0000, 0x200_0000_0000_0000, 0x10_0000, 0x10_0000_0001);
    r := RoundPass(r1, 1, 11);
    RoundPassVal(r1, 1, 11);
    assert Abs(r1[11], 0x10_0010_0001);
    RoundPassBounds(r1, 1, 11, 0x200_0010_0000_0001, 0x10_0000, 0, 0x10_0000_8001);
  }

  lemma {:induction false} ValBound(s: seq<int>, b: nat)
    requires |s| >= 1 && Bounded(s, 0, |s|, b)
    ensures Abs(Val(s), b * (2 * Weight(|s| - 1) - 1))
  {
    if |s| == 1 {
      assert Val(s[1..]) == 0;
    } else {
      forall i | 0 <= i < |s| - 1
        ensures Abs(s[1..][i], b)
      {
        assert s[1..][i] == s[i + 1];
      }
      ValBound(s[1..], b);
      var w := Weight(|s| - 2);
      assert b + 0x20_0000 * (b * (2 * w - 1)) == b * (2 * (0x20_0000 * w) - 1) - b * 0x1f_fffe by { BoundArith(b, w); }
    }
  }

  lemma BoundArith(b: nat, w: nat)
    ensures b + 0x20_0000 * (b * (2 * w - 1)) == b * (2 * (0x20_0000 * w) - 1) - b * 0x1f_fffe
  {
  }

  lemma {:induction false} DigitsBound(s: seq<int>)
    requires forall i :: 0 <= i < |s| ==> 0 <= s[i] < 0x20_0000
    ensures 0 <= Val(s) < Weight(|s|)
  {
    if |s| > 0 {
      DigitsBound(s[1..]);
    }
  }

  const TWO252: int := 0x1000_0000_0000_0000_0000_0000_0000_0000_0000_0000_0000_0000_0000_0000_0000_0000

  lemma WeightValues()
    ensures Weight(0) == 1 && Weight(4) == 0x10_0000_0000_0000_0000_0000
    ensures Weight(5) == 0x200_0000_0000_0000_0000_0000_0000 && Weight(6) == 0x4000_0000_0000_0000_0000_0000_0000_0000
    ensures Weight(11) == 0x80_0000_0000_0000_0000_0000_0000_0000_0000_0000_0000_0000_0000_0000_0000
            && Weight(12) == TWO252
  {
    hide Weight;
    assert Weight(0) == 1 by { WeightZero(); }
    WeightSteps(0);
    WeightSteps(6);
  }

  lemma WeightZero()
    ensures Weight(0) == 1
  {
  }

  /** The rounded form stands for a number between -2^252 and 2^252. */
  lemma RoundedRange(l: seq<int>)
    requires |l| == 12
    requires Bounded(l, 0, 6, 0x400_0000_0000_0000) && Bounded(l, 6, 11, 0x20_0000_0000) && Abs(l[11], 0x10_0000)
    ensures -TWO252 < Val(l) < TWO252
  {
    hide Val, Weight;
    var low, mid := l[..6], l[6..11];
    TopVal(l);
    SplitVal(l[..11], 6);
    assert l[..11][..6] == low && l[..11][6..] == mid;
    assert Bounded(low, 0, 6, 0x400_0000_0000_0000);
    ValBound(low, 0x400_0000_0000_0000);
    forall i | 0 <= i < 5
      ensures Abs(mid[i], 0x20_0000_0000)
    {
      assert mid[i] == l[6 + i];
    }
    ValBound(mid, 0x20_0000_0000);
    WeightValues();
  }

  /** One floor pass, one fold of -1 or 0, and a last floor pass give the residue itself. */
  method Canonical(l: seq<int>) returns (r: seq<int>)
    requires |l| == 12
    requires Bounded(l, 0, 6, 0x400_0000_0000_0000) && Bounded(l, 6, 11, 0x20_0000_0000) && Abs(l[11], 0x10_0000)
    ensures |r| == 12 && Val(r) == Val(l) % L
    ensures (forall i :: 0 <= i < 11 ==> 0 <= r[i] < 0x20_0000) && 0 <= r[11] <= 0x20_0000
  {
    hide Val, Weight, Fold, FloorPass, Mul;
    RoundedRange(l);
    var l1 := l + [0];
    AppendZero(l);
    assert forall k :: 0 <= k < 13 ==> Abs(l1[k], HALF);
    var l2 := FloorPass(l1, 0, 11);
    FloorPassVal(l1, 0, 11);
    FloorPassDigits(l1, 0, 11);
    TopLimb(l2);
    assert Foldable(l2);
    FoldBounds(l2, 1);
    FoldVal(l2);
    var l3 := Fold(l2);
    MulByTop(l2[12]);
    assert forall k :: 0 <= k < 12 ==> Abs(l3[k], HALF) by {
      assert forall k :: 0 <= k < 12 ==> Abs(l3[k] - l2[k], 0x10_0000);
    }
    r := FloorPass(l3, 0, 10);
    FloorPassVal(l3, 0, 10);
    FloorPassDigits(l3, 0, 10);
    Residue(Val(l), l2[12], Val(r));
    LastLimb(r);
  }

  lemma TopLimb(s: seq<int>)
    requires |s| == 13 && forall i :: 0 <= i < 12 ==> 0 <= s[i] < 0x20_0000
    requires -TWO252 < Val(s) < TWO252
    ensures s[12] == if Val(s) < 0 then -1 else 0
  {
    hide Val, Weight;
    TopVal(s);
    DigitsBound(s[..12]);
    WeightValues();
  }

  lemma MulByTop(t: int)
    ensures Mul(t, Weight(0)) == t
  {
  }

  lemma Residue(v: int, t: int, r: int)
    requires -TWO252 < v < TWO252 && t == (if v < 0 then -1 else 0) && r == v - L * t
    ensures r == v % L && 0 <= r < L
  {
  }

  lemma LastLimb(r: seq<int>)
    requires |r| == 12 && (forall i :: 0 <= i < 11 ==> 0 <= r[i] < 0x20_0000) && 0 <= Val(r) < L
    ensures 0 <= r[11] <= 0x20_0000
  {
    hide Val, Weight;
    TopVal(r);
    DigitsBound(r[..11]);
    WeightValues();
  }
}
