/** sc_reduce and sc_muladd on byte strings: loading 21-bit windows, the product columns, packing. */
module ScalarBytes {
  import opened Bits
  import opened Bytes
  import opened Modular
  import opened Scalar

  // ---------------------------------------------------------------------
  // Loading. Limb i is the 21-bit window that starts at bit 21 i, read with a
  // three-byte load when the window fits and a four-byte load otherwise.

  function Low21(x: nat): (r: nat)
    ensures r == x % 0x20_0000
  {
    Pow2Of21();
    AndMask(x, 21);
    And(x, 2097151)
  }

  lemma Pow2Of21()
    ensures Pow2(21) == 0x20_0000
  {
    hide Pow2;
    SmallPowers();
    Pow2Add(8, 8);
    Pow2Add(16, 5);
  }

  /** A logical right shift. */
  function Shr(x: nat, k: nat): nat
  {
    DivNonNegative(x, Pow2(k));
    x / Pow2(k)
  }

  lemma DivNonNegative(x: nat, d: nat)
    requires d > 0
    ensures x / d >= 0
  {
  }

  predicate Readable(n: nat, i: nat) { 21 * i / 8 + (if 21 * i % 8 <= 3 then 3 else 4) <= n }

  function LimbAt(s: seq<byte>, i: nat): nat
    requires Readable(|s|, i)
  {
    var o, sh := 21 * i / 8, 21 * i % 8;
    Low21(Shr(if sh <= 3 then Load3(s, o) else Load4(s, o), sh))
  }

  lemma DropBytes(s: seq<byte>, o: nat)
    requires o <= |s|
    ensures LeVal(s) / Pow2(8 * o) == LeVal(s[o..])
  {
    hide LeVal, Pow2;
    assert s == s[..o] + s[o..];
    LeConcat(s[..o], s[o..]);
    LeValBound(s[..o]);
    DivModUnique(LeVal(s), Pow2(8 * o), LeVal(s[o..]), LeVal(s[..o]));
  }

  /** An n-bit window of w is one of w + 2^m rest when it ends at bit m or below. */
  lemma WindowOfLow(w: nat, rest: nat, m: nat, sh: nat, n: nat)
    requires sh + n <= m
    ensures (w + Pow2(m) * rest) / Pow2(sh) % Pow2(n) == w / Pow2(sh) % Pow2(n)
  {
    hide Pow2;
    var a, b, d := Pow2(sh), Pow2(m - sh - n), Pow2(n);
    Pow2Add(sh, m - sh);
    Pow2Add(n, m - sh - n);
    ShiftedSum(w, a, d, b, rest);
    hide Cong;
    CongBy(w / a + d * (b * rest), w / a, b * rest, d);
    CongIs(w / a + d * (b * rest), w / a, d);
  }

  /** (w + a d b r) / a = w / a + d b r. */
  lemma ShiftedSum(w: nat, a: nat, d: nat, b: nat, r: nat)
    requires a > 0
    ensures (w + (a * (d * b)) * r) / a == w / a + d * (b * r)
  {
    var k := d * (b * r);
    assert (a * (d * b)) * r == a * k by { Assoc(a, d * b, r); Assoc(d, b, r); }
    var q := w / a;
    assert a * (q + k) == a * q + a * k;
    DivModUnique(w + a * k, a, q + k, w % a);
  }

  lemma LimbWindow(s: seq<byte>, i: nat)
    requires Readable(|s|, i)
    ensures LimbAt(s, i) == LeVal(s) / Pow2(21 * i) % 0x20_0000
  {
    hide LeVal, Pow2, Load3, Load4, Low21;
    var o, sh := 21 * i / 8, 21 * i % 8;
    Pow2Of21();
    DropBytes(s, o);
    Pow2Add(8 * o, sh);
    DivDiv(LeVal(s), Pow2(8 * o), Pow2(sh));
    if sh <= 3 {
      LeThree(s, o);
      Pow2Of24();
      WindowOfLow(Load3(s, o), LeVal(s[o + 3..]), 24, sh, 21);
    } else {
      LeWord(s, o);
      Pow2Of24();
      WindowOfLow(Load4(s, o), LeVal(s[o + 4..]), 32, sh, 21);
    }
  }

  lemma LeThree(s: seq<byte>, k: nat)
    requires k + 3 <= |s|
    ensures LeVal(s[k..]) == Load3(s, k) + 0x100_0000 * LeVal(s[k + 3..])
  {
    hide Load3;
    assert s[k..][1..] == s[k + 1..] && s[k + 1..][1..] == s[k + 2..] && s[k + 2..][1..] == s[k + 3..];
    assert LeVal(s[k..]) == s[k] + 256 * LeVal(s[k + 1..]);
  }

  lemma Pow2Of24()
    ensures Pow2(24) == 0x100_0000 && Pow2(32) == 0x1_0000_0000
  {
    hide Pow2;
    Pow2Of8();
    Pow2Add(8, 8);
    Pow2Add(16, 8);
    Pow2Add(16, 16);
  }

  /** The limbs of a string of n bytes that end in an unmasked four-byte load. */
  function Limbs(s: seq<byte>, count: nat, shift: nat): (l: seq<int>)
    requires |s| >= 4 && forall i :: 0 <= i < count ==> Readable(|s|, i)
    requires shift > 0
    ensures |l| == count + 1
  {
    seq(count, i requires 0 <= i < count => LimbAt(s, i)) + [Load4(s, |s| - 4) / shift]
  }

  lemma {:induction false} WindowsVal(n: nat, l: seq<int>)
    requires |l| >= 1 && l[|l| - 1] == n / Pow2(21 * (|l| - 1))
    requires forall i :: 0 <= i < |l| - 1 ==> l[i] == n / Pow2(21 * i) % 0x20_0000
    ensures Val(l) == n
    decreases |l|
  {
    hide Pow2;
    assert Pow2(0) == 1 by { SmallPowers(); }
    if |l| == 1 {
      assert Val(l[1..]) == 0;
    } else {
      NextWindow(n, l);
      WindowsVal(n / 0x20_0000, l[1..]);
      assert l[0] == n / Pow2(21 * 0) % 0x20_0000;
    }
  }

  /** The windows of n / 2^21 are those of n but the first. */
  lemma NextWindow(n: nat, l: seq<int>)
    requires |l| >= 2 && l[|l| - 1] == n / Pow2(21 * (|l| - 1))
    requires forall i :: 0 <= i < |l| - 1 ==> l[i] == n / Pow2(21 * i) % 0x20_0000
    ensures var m, t := n / 0x20_0000, l[1..];
            && t[|t| - 1] == m / Pow2(21 * (|t| - 1))
            && forall i :: 0 <= i < |t| - 1 ==> t[i] == m / Pow2(21 * i) % 0x20_0000
  {
    hide Pow2;
    var m, t := n / 0x20_0000, l[1..];
    WindowBelow(n, |t| - 1);
    forall i | 0 <= i < |t| - 1
      ensures t[i] == m / Pow2(21 * i) % 0x20_0000
    {
      WindowBelow(n, i);
      assert t[i] == l[i + 1];
    }
  }

  lemma WindowBelow(n: nat, i: nat)
    ensures n / 0x20_0000 / Pow2(21 * i) == n / Pow2(21 * (i + 1))
  {
    hide Pow2;
    Pow2Of21();
    Pow2Add(21, 21 * i);
    DivDiv(n, 0x20_0000, Pow2(21 * i));
  }

  lemma LimbsVal(s: seq<byte>, count: nat, sh: nat)
    requires |s| >= 4 && (forall i :: 0 <= i < count ==> Readable(|s|, i)) && 21 * count == 8 * (|s| - 4) + sh
    ensures Val(Limbs(s, count, Pow2(sh))) == LeVal(s)
  {
    hide Pow2, LeVal, Load4, LimbAt, Val;
    var l := Limbs(s, count, Pow2(sh));
    forall i | 0 <= i < count
      ensures l[i] == LeVal(s) / Pow2(21 * i) % 0x20_0000
    {
      LimbWindow(s, i);
    }
    var o := |s| - 4;
    DropBytes(s, o);
    LeWord(s, o);
    EmptyVal(s[o + 4..]);
    Pow2Add(8 * o, sh);
    DivDiv(LeVal(s), Pow2(8 * o), Pow2(sh));
    WindowsVal(LeVal(s), l);
  }

  // ---------------------------------------------------------------------
  // Packing. Byte j holds bits 8 j to 8 j + 7, from one limb or from two.

  predicate Digits(l: seq<int>)
  {
    |l| == 12 && (forall i :: 0 <= i < 11 ==> 0 <= l[i] < 0x20_0000) && 0 <= l[11] <= 0x20_0000
  }

  function PackedByte(l: seq<int>, j: nat): byte
    requires Digits(l) && j < 32
  {
    var i, sh := 8 * j / 21, 8 * j % 21;
    assert i < 11 ==> 0 <= l[i] && 0 <= l[i + 1];
    if sh + 8 <= 21 || i == 11 then ByteAt(l[i], Pow2(sh)) else Join(l[i], Pow2(sh), Pow2(21 - sh), l[i + 1])
  }

  lemma {:induction false} WeightIsPow2(i: nat)
    ensures Weight(i) == Pow2(21 * i)
  {
    hide Pow2;
    if i == 0 {
      assert Pow2(0) == 1 by { SmallPowers(); }
    } else {
      WeightIsPow2(i - 1);
      Pow2Of21();
      Pow2Add(21, 21 * i - 21);
    }
  }

  /** Dropping i digits divides the value by 2^(21 i). */
  lemma DropLimbs(l: seq<int>, i: nat)
    requires Digits(l) && i <= 11
    ensures Val(l) / Pow2(21 * i) == Val(l[i..])
  {
    hide Val, Pow2, Weight;
    SplitVal(l, i);
    DigitsBound(l[..i]);
    WeightIsPow2(i);
    DivModUnique(Val(l), Pow2(21 * i), Val(l[i..]), Val(l[..i]));
  }

  lemma {:induction false} ValNonNegative(l: seq<int>)
    requires forall i :: 0 <= i < |l| ==> l[i] >= 0
    ensures Val(l) >= 0
  {
    if |l| > 0 {
      ValNonNegative(l[1..]);
    }
  }

  lemma HeadVal(l: seq<int>, i: nat)
    requires i < |l|
    ensures Val(l[i..]) == l[i] + 0x20_0000 * Val(l[i + 1..])
  {
    assert l[i..][1..] == l[i + 1..];
  }

  lemma PackedByteVal(l: seq<int>, j: nat)
    requires Digits(l) && j < 32
    ensures PackedByte(l, j) == Val(l) / Pow2(8 * j) % 256
  {
    hide Val, Pow2, Join;
    var i, sh := 8 * j / 21, 8 * j % 21;
    Pow2Of21();
    Pow2Of8();
    DropLimbs(l, i);
    Pow2Add(21 * i, sh);
    DivDiv(Val(l), Pow2(21 * i), Pow2(sh));
    HeadVal(l, i);
    ValNonNegative(l[i + 1..]);
    if i == 11 {
      assert l[12..] == [];
      EmptyLimbs();
    } else if sh + 8 <= 21 {
      WindowOfLow(l[i], Val(l[i + 1..]), 21, sh, 8);
    } else {
      TwoLimbByte(l, i, sh);
    }
  }

  lemma EmptyLimbs()
    ensures Val([]) == 0
  {
  }

  lemma TwoLimbByte(l: seq<int>, i: nat, sh: nat)
    requires Digits(l) && i < 11 && sh < 21 < sh + 8
    ensures 0 <= l[i + 1] && Join(l[i], Pow2(sh), Pow2(21 - sh), l[i + 1]) == Val(l[i..]) / Pow2(sh) % 256
  {
    hide Val, Pow2, Or;
    var lo, hi, a, c := l[i], l[i + 1], Pow2(sh), Pow2(21 - sh);
    HeadVal(l, i);
    HeadVal(l, i + 1);
    ValNonNegative(l[i + 2..]);
    Pow2Of21();
    Pow2Of8();
    Pow2Add(sh, 21 - sh);
    Pow2Add(21, 21);
    var w := lo + 0x20_0000 * hi;
    assert Val(l[i..]) == w + Pow2(42) * Val(l[i + 2..]);
    WindowOfLow(w, Val(l[i + 2..]), 42, sh, 8);
    ShiftedSum(lo, a, c, 1, hi);
    DivBelow(lo, a, c);
    OrDisjoint(lo / a, hi, 21 - sh);
  }

  lemma DivBelow(x: nat, a: nat, c: nat)
    requires a > 0 && x < a * c
    ensures 0 <= x / a < c
  {
    var q := x / a;
    if q >= c {
      MulMono(a, c, q);
    }
  }

  function Pack(l: seq<int>): (s: seq<byte>)
    requires Digits(l)
    ensures |s| == 32
  {
    seq(32, j requires 0 <= j < 32 => PackedByte(l, j))
  }

  lemma {:induction false} BytesVal(n: nat, s: seq<byte>)
    requires n < Pow2(8 * |s|)
    requires forall j :: 0 <= j < |s| ==> s[j] == n / Pow2(8 * j) % 256
    ensures LeVal(s) == n
  {
    hide Pow2;
    assert Pow2(0) == 1 by { SmallPowers(); }
    if |s| > 0 {
      var m, t := n / 256, s[1..];
      Pow2Of8();
      Pow2Add(8, 8 * |t|);
      forall j | 0 <= j < |t|
        ensures t[j] == m / Pow2(8 * j) % 256
      {
        assert t[j] == s[j + 1];
        Pow2Add(8, 8 * j);
        DivDiv(n, 256, Pow2(8 * j));
      }
      BytesVal(m, t);
      assert s[0] == n / Pow2(8 * 0) % 256;
    }
  }

  lemma PackVal(l: seq<int>)
    requires Digits(l) && Val(l) < L
    ensures LeVal(Pack(l)) == Val(l)
  {
    hide Val, LeVal, Pow2, PackedByte;
    ValNonNegative(l);
    forall j | 0 <= j < 32
      ensures Pack(l)[j] == Val(l) / Pow2(8 * j) % 256
    {
      PackedByteVal(l, j);
    }
    Pow2Of256();
    BytesVal(Val(l), Pack(l));
  }

  lemma Pow2Of256()
    ensures Pow2(256) > L
  {
    hide Pow2;
    Pow2Of8();
    Pow2Add(8, 8);
    Pow2Add(16, 16);
    Pow2Add(32, 32);
    Pow2Add(64, 64);
    Pow2Add(128, 128);
  }

  lemma LimbsRange(s: seq<byte>, count: nat, shift: nat)
    requires |s| >= 4 && (forall i :: 0 <= i < count ==> Readable(|s|, i)) && (shift == 8 || shift == 128)
    ensures forall i :: 0 <= i < count ==> 0 <= Limbs(s, count, shift)[i] < 0x20_0000
    ensures 0 <= Limbs(s, count, shift)[count] < (if shift == 8 then 0x2000_0000 else 0x200_0000)
  {
    hide Load3, Load4, Shr, Word;
    var l := Limbs(s, count, shift);
    forall i | 0 <= i < count
      ensures 0 <= l[i] < 0x20_0000
    {
      assert l[i] == LimbAt(s, i);
    }
  }

  // ---------------------------------------------------------------------
  // sc_reduce

  lemma SameResidue(a: int, b: int, c: int)
    requires Cong(a, b, L) && Cong(b, c, L)
    ensures a % L == c % L
  {
    hide Cong;
    CongTrans(a, b, c, L);
    CongIs(a, c, L);
  }

  /** The residue modulo L of a 64-byte number, in its unique 32-byte form. */
  method ScReduce(s: seq<byte>) returns (r: seq<byte>)
    requires |s| == 64
    ensures |r| == 32 && LeVal(r) == LeVal(s) % L
  {
    hide Cong, Val, LeVal, Limbs, Pow2, Pack;
    var l := Limbs(s, 23, 8);
    LimbsVal(s, 23, 3);
    SmallPowers();
    LimbsRange(s, 23, 8);
    ghost var v := Val(l);
    var high := FoldHigh(l);
    var middle := FoldMiddle(high);
    SameResidue(Val(middle), Val(high), v);
    l := Canonical(middle);
    r := Pack(l);
    PackVal(l);
  }

  // ---------------------------------------------------------------------
  // sc_muladd

  /** The first m terms a_i b_(k-i) of column k, added up from the left. */
  function Column(a: seq<int>, b: seq<int>, k: nat, m: nat): int
    requires |a| == 12 && |b| == 12 && m <= 12
  {
    if m == 0 then 0
    else Column(a, b, k, m - 1) + (if m - 1 <= k < m + 11 then a[m - 1] * b[k - (m - 1)] else 0)
  }

  function Rows(a: seq<int>, b: seq<int>, m: nat): (r: seq<int>)
    requires |a| == 12 && |b| == 12 && m <= 12
    ensures |r| == 24
  {
    seq(24, k requires 0 <= k < 24 => Column(a, b, k, m))
  }

  lemma {:induction false} SumVal(u: seq<int>, v: seq<int>, w: seq<int>)
    requires |u| == |v| == |w| && forall i :: 0 <= i < |u| ==> w[i] == u[i] + v[i]
    ensures Val(w) == Val(u) + Val(v)
  {
    if |u| > 0 {
      SumVal(u[1..], v[1..], w[1..]);
    }
  }

  /** b scaled by x and shifted up m limbs. */
  lemma {:induction false} RowVal(x: int, b: seq<int>, m: nat, r: seq<int>)
    requires |r| >= m + |b|
    requires forall k :: 0 <= k < |r| ==> r[k] == if m <= k < m + |b| then x * b[k - m] else 0
    ensures Val(r) == Mul(x, Mul(Weight(m), Val(b)))
    decreases |r|
  {
    if |r| == 0 {
      assert Val(b) == 0;
    } else if m > 0 {
      assert r[0] == 0;
      RowVal(x, b, m - 1, r[1..]);
      var w, v := Weight(m - 1), Val(b);
      ShiftRow(x, w, v);
    } else if |b| == 0 {
      RowVal(x, b, 0, r[1..]);
    } else {
      RowVal(x, b[1..], 0, r[1..]);
      var v := Val(b[1..]);
      assert 0x20_0000 * (x * v) + x * b[0] == x * (b[0] + 0x20_0000 * v);
    }
  }

  lemma ShiftRow(x: int, w: int, v: int)
    ensures 0x20_0000 * (x * (w * v)) == x * ((0x20_0000 * w) * v)
  {
    assert (0x20_0000 * w) * v == 0x20_0000 * (w * v);
    assert x * (0x20_0000 * (w * v)) == 0x20_0000 * (x * (w * v));
  }

  /** Row by row, the columns add up to the product. */
  lemma {:induction false} RowsVal(a: seq<int>, b: seq<int>, m: nat)
    requires |a| == 12 && |b| == 12 && m <= 12
    ensures Val(Rows(a, b, m)) == Mul(Val(a[..m]), Val(b))
  {
    hide Val, Weight, Mul;
    if m == 0 {
      NoRows(a, b);
    } else {
      RowsVal(a, b, m - 1);
      var x := a[m - 1];
      var row := seq(24, k requires 0 <= k < 24 => if m - 1 <= k < m + 11 then x * b[k - (m - 1)] else 0);
      SumVal(Rows(a, b, m - 1), row, Rows(a, b, m));
      RowVal(x, b, m - 1, row);
      TopVal(a[..m]);
      assert a[..m][..m - 1] == a[..m - 1];
      AddRow(Val(a[..m - 1]), x, Weight(m - 1), Val(b));
    }
  }

  lemma AddRow(v: int, x: int, w: int, b: int)
    ensures Mul(v, b) + Mul(x, Mul(w, b)) == Mul(v + Mul(x, w), b)
  {
    assert x * (w * b) == (x * w) * b by { Assoc(x, w, b); }
  }

  lemma NoRows(a: seq<int>, b: seq<int>)
    requires |a| == 12 && |b| == 12
    ensures Val(Rows(a, b, 0)) == Mul(Val(a[..0]), Val(b))
  {
    ZeroVal(Rows(a, b, 0));
    assert Val(a[..0]) == 0;
  }

  lemma {:induction false} ZeroVal(r: seq<int>)
    requires forall k :: 0 <= k < |r| ==> r[k] == 0
    ensures Val(r) == 0
  {
    if |r| > 0 {
      ZeroVal(r[1..]);
    }
  }

  predicate Scalars(l: seq<int>)
  {
    |l| == 12 && (forall i :: 0 <= i < 11 ==> 0 <= l[i] < 0x20_0000) && 0 <= l[11] < 0x200_0000
  }

  /** Columns below 22 hold at most 12 terms below 2^46; column 22 is the single term below 2^50. */
  lemma {:induction false} ColumnBound(a: seq<int>, b: seq<int>, k: nat, m: nat)
    requires Scalars(a) && Scalars(b) && m <= 12 && k < 24
    ensures 0 <= Column(a, b, k, m)
    ensures if k < 22 then Column(a, b, k, m) <= m * 0x4000_0000_0000 else Column(a, b, k, m) <= 0x4_0000_0000_0000
    ensures k >= 22 && m <= 11 ==> Column(a, b, k, m) == 0
  {
    if m > 0 {
      ColumnBound(a, b, k, m - 1);
      if m - 1 <= k < m + 11 {
        var i, j := m - 1, k - (m - 1);
        TermBound(a[i], b[j], if i == 11 then 0x200_0000 else 0x20_0000, if j == 11 then 0x200_0000 else 0x20_0000);
      }
    }
  }

  lemma TermBound(x: int, y: int, p: int, q: int)
    requires 0 <= x <= p && 0 <= y <= q
    ensures 0 <= x * y <= p * q
  {
    MulMono(x, 0, y);
    MulMono(x, y, q);
    MulMono(q, x, p);
  }

  /** The 24 columns of a b + c. */
  function Columns(a: seq<int>, b: seq<int>, c: seq<int>): (l: seq<int>)
    requires |a| == 12 && |b| == 12 && |c| == 12
    ensures |l| == 24
  {
    seq(24, k requires 0 <= k < 24 => (if k < 12 then c[k] else 0) + Column(a, b, k, 12))
  }

  lemma ColumnsVal(a: seq<int>, b: seq<int>, c: seq<int>)
    requires |a| == 12 && |b| == 12 && |c| == 12
    ensures Val(Columns(a, b, c)) == Val(a) * Val(b) + Val(c)
  {
    hide Val, Weight, Column;
    var c' := seq(24, k requires 0 <= k < 24 => if k < 12 then c[k] else 0);
    SumVal(c', Rows(a, b, 12), Columns(a, b, c));
    RowsVal(a, b, 12);
    assert a[..12] == a;
    RowVal(1, c, 0, c');
    WeightZero();
  }

  /** The two rounding passes over all 24 columns. */
  method RoundColumns(l: seq<int>) returns (r: seq<int>)
    requires |l| == 24 && Bounded(l, 0, 23, 0x8_0000_0000_0000) && l[23] == 0
    ensures |r| == 24 && Val(r) == Val(l) && Bounded(r, 0, 24, 0x8000_0000)
  {
    hide Val, RoundPass;
    var r1 := RoundPass(l, 0, 22);
    RoundPassVal(l, 0, 22);
    RoundPassBounds(l, 0, 22, 0x8_0000_0000_0000, 0x8_0000_0000_0000, 0, 0x4000_0001);
    r := RoundPass(r1, 1, 21);
    RoundPassVal(r1, 1, 21);
    RoundPassBounds(r1, 1, 21, 0x8_0000_4000_0001, 0x10_0000, 0x10_0000, 0x4000_0201);
  }

  /** (a b + c) mod L for any three 32-byte numbers. */
  method ScMuladd(a: seq<byte>, b: seq<byte>, c: seq<byte>) returns (r: seq<byte>)
    requires |a| == 32 && |b| == 32 && |c| == 32
    ensures |r| == 32 && LeVal(r) == (LeVal(a) * LeVal(b) + LeVal(c)) % L
  {
    hide Cong, Val, LeVal, Limbs, Pow2, Pack, Column, Columns;
    var la, lb, lc := Load(a), Load(b), Load(c);
    var l := Columns(la, lb, lc);
    ColumnsVal(la, lb, lc);
    ColumnsRange(la, lb, lc);
    l := RoundColumns(l);
    ghost var v := Val(l);
    var high := FoldHigh(l);
    var middle := FoldMiddle(high);
    SameResidue(Val(middle), Val(high), v);
    l := Canonical(middle);
    r := Pack(l);
    PackVal(l);
  }

  function Load(s: seq<byte>): (l: seq<int>)
    requires |s| == 32
    ensures Scalars(l) && Val(l) == LeVal(s)
  {
    LimbsVal(s, 11, 7);
    SmallPowers();
    LimbsRange(s, 11, 128);
    Limbs(s, 11, 128)
  }

  lemma ColumnsRange(a: seq<int>, b: seq<int>, c: seq<int>)
    requires Scalars(a) && Scalars(b) && Scalars(c)
    ensures Bounded(Columns(a, b, c), 0, 23, 0x8_0000_0000_0000) && Columns(a, b, c)[23] == 0
  {
    var l := Columns(a, b, c);
    forall k | 0 <= k < 23
      ensures Abs(l[k], 0x8_0000_0000_0000)
    {
      ColumnBound(a, b, k, 12);
    }
    LastColumn(a, b, 12);
  }

  lemma {:induction false} LastColumn(a: seq<int>, b: seq<int>, m: nat)
    requires |a| == 12 && |b| == 12 && m <= 12
    ensures Column(a, b, 23, m) == 0
  {
    if m > 0 {
      LastColumn(a, b, m - 1);
    }
  }
}
