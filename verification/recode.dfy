/**
 The two signed recodings of a scalar: slide's sparse odd digits and the radix-16
 digits of ge_scalarmult_base. Both work in place on a digit array.
 */
module Recode {
  import opened Bits
  import opened Bytes
  import opened Modular
  import opened ScalarBytes

  // ---------------------------------------------------------------------
  // Signed binary digits.

  function BitVal(s: seq<int>): int
  {
    if |s| == 0 then 0 else s[0] + 2 * BitVal(s[1..])
  }

  lemma {:induction false} BitSplit(s: seq<int>, i: nat)
    requires i <= |s|
    ensures BitVal(s) == BitVal(s[..i]) + Pow2(i) * BitVal(s[i..])
  {
    if i == 0 {
      assert s[0..] == s;
    } else {
      assert s[..i][1..] == s[1..][..i - 1] && s[1..][i - 1..] == s[i..];
      BitSplit(s[1..], i - 1);
      var p, v := Pow2(i - 1), BitVal(s[i..]);
      assert 2 * (p * v) == (2 * p) * v;
    }
  }

  lemma {:induction false} LeadingZeros(s: seq<int>, n: nat)
    requires n <= |s| && forall k :: 0 <= k < n ==> s[k] == 0
    ensures BitVal(s) == Pow2(n) * BitVal(s[n..])
  {
    BitSplit(s, n);
    AllZeros(s[..n]);
  }

  lemma {:induction false} AllZeros(s: seq<int>)
    requires forall k :: 0 <= k < |s| ==> s[k] == 0
    ensures BitVal(s) == 0
  {
    if |s| > 0 {
      AllZeros(s[1..]);
    }
  }

  predicate Bit(x: int) { x == 0 || x == 1 }

  /** A sparse digit: zero, or odd between -15 and 15. */
  predicate Sparse(x: int) { x == 0 || (x % 2 == 1 && -15 <= x <= 15) }

  lemma {:induction false} BitsNonNegative(s: seq<int>)
    requires forall k :: 0 <= k < |s| ==> Bit(s[k])
    ensures 0 <= BitVal(s) < Pow2(|s|)
  {
    if |s| > 0 {
      assert Bit(s[0]);
      BitsNonNegative(s[1..]);
    }
  }

  /** Adding one to a run of ones followed by a zero. */
  lemma {:induction false} Increment(s: seq<int>, t: seq<int>, n: nat)
    requires n < |s| == |t|
    requires (forall k :: 0 <= k < n ==> s[k] == 1 && t[k] == 0) && s[n] == 0 && t[n] == 1
    requires s[n + 1..] == t[n + 1..]
    ensures BitVal(t) == BitVal(s) + 1
  {
    if n == 0 {
      assert s[1..] == t[1..];
    } else {
      assert s[1..][n..] == s[n + 1..] && t[1..][n..] == t[n + 1..];
      Increment(s[1..], t[1..], n - 1);
    }
  }

  lemma {:induction false} AllOnes(s: seq<int>)
    requires forall k :: 0 <= k < |s| ==> s[k] == 1
    ensures BitVal(s) == Pow2(|s|) - 1
  {
    if |s| > 0 {
      AllOnes(s[1..]);
    }
  }

  /**
   The carry loop of slide: adds one to the number whose bits start at index from; e is the
   carry that falls off the end.
   */
  method AddBit(r: array<int>, from: nat) returns (ghost e: int)
    requires r.Length == 256 && from < 256
    requires (forall k :: from <= k < 256 ==> Bit(r[k])) && r[from] == 1
    modifies r
    ensures r[..from] == old(r[..from]) && r[from] == 0
    ensures forall k :: from <= k < 256 ==> Bit(r[k])
    ensures (e == 0 || e == 1) && BitVal(r[from..]) == old(BitVal(r[from..])) + 1 - e * Pow2(256 - from)
    ensures e == 1 ==> forall k :: from <= k < 256 ==> r[k] == 0
  {
    ghost var s := r[..];
    var k := from;
    while k < 256
      invariant from <= k <= 256
      invariant forall j :: 0 <= j < from ==> r[j] == s[j]
      invariant forall j :: from <= j < k ==> s[j] == 1 && r[j] == 0
      invariant forall j :: k <= j < 256 ==> r[j] == s[j]
    {
      if r[k] == 0 {
        r[k] := 1;
        break;
      }
      assert Bit(s[k]);
      r[k] := 0;
      k := k + 1;
    }
    assert r[from..] == r[..][from..] && s[from..] == old(r[from..]);
    if k < 256 {
      e := 0;
      Increment(s[from..], r[from..], k - from);
    } else {
      e := 1;
      AllOnes(s[from..]);
      AllZeros(r[from..]);
    }
  }

  /** The digit under construction before bit b is looked at: below 2^b, or negative once bit 4 borrowed. */
  predicate Partial(x: int, b: nat)
  {
    x % 2 == 1 && (if x > 0 then x <= 15 && x < Pow2(b) else -15 <= x && b >= 5)
  }

  /** What the two branches of slide do to the digit; a borrow happens only from a positive digit at bit 4. */
  lemma PartialStep(x: int, b: nat)
    requires Partial(x, b) && 1 <= b <= 6
    ensures Partial(x, b + 1)
    ensures x + Pow2(b) <= 15 ==> Partial(x + Pow2(b), b + 1)
    ensures x + Pow2(b) > 15 && x - Pow2(b) >= -15 ==> b == 4 && x > 0 && x - Pow2(b) < 0 && Partial(x - Pow2(b), b + 1)
    ensures x + Pow2(b) > 15 && x - Pow2(b) < -15 ==> b >= 5
  {
    hide Pow2;
    SmallPowers();
  }

  /** The state of slide inside digit i, before bit b: the digit and the bits from i + b on make up total. */
  predicate Building(s: seq<int>, i: nat, b: nat, total: int)
  {
    && |s| == 256 && i < 256 && 1 <= b <= 7 && i + b <= 256
    && Partial(s[i], b)
    && (forall k :: i < k < i + b ==> s[k] == 0)
    && (forall k :: i < k < 256 ==> Bit(s[k]))
    && s[i] + Pow2(b) * BitVal(s[i + b..]) == total
  }

  lemma DropBit(s: seq<int>, n: nat)
    requires n < |s|
    ensures BitVal(s[n..]) == s[n] + 2 * BitVal(s[n + 1..])
  {
    assert s[n..][1..] == s[n + 1..];
  }

  lemma DoublePow(b: nat, v: int)
    ensures Pow2(b) * (2 * v) == Pow2(b + 1) * v && Pow2(b) * (1 + 2 * v) == Pow2(b) + Pow2(b + 1) * v
  {
    var p := Pow2(b);
    assert p * (1 + 2 * v) == p + p * (2 * v);
    assert p * (2 * v) == (2 * p) * v;
  }

  lemma BuildingStart(s: seq<int>, i: nat)
    requires |s| == 256 && i < 256 && s[i] == 1
    requires forall k :: i <= k < 256 ==> Bit(s[k])
    ensures Building(s, i, 1, BitVal(s[i..]))
  {
    assert Pow2(1) == 2;
    DropBit(s, i);
  }

  lemma SkipStep(s: seq<int>, i: nat, b: nat, total: int)
    requires Building(s, i, b, total) && b <= 6 && i + b < 256 && s[i + b] == 0
    ensures Building(s, i, b + 1, total)
  {
    hide Pow2, BitVal, Partial;
    PartialStep(s[i], b);
    DropBit(s, i + b);
    DoublePow(b, BitVal(s[i + b + 1..]));
  }

  lemma AbsorbStep(s: seq<int>, t: seq<int>, i: nat, b: nat, total: int)
    requires Building(s, i, b, total) && b <= 6 && i + b < 256 && s[i + b] == 1 && s[i] + Pow2(b) <= 15
    requires t == s[i := s[i] + Pow2(b)][i + b := 0]
    ensures Building(t, i, b + 1, total)
  {
    hide Pow2, BitVal;
    PartialStep(s[i], b);
    DropBit(s, i + b);
    assert t[i + b + 1..] == s[i + b + 1..];
    DoublePow(b, BitVal(s[i + b + 1..]));
  }

  lemma BorrowStep(s: seq<int>, t: seq<int>, i: nat, b: nat, total: int, e: int)
    requires Building(s, i, b, total) && b <= 6 && i + b < 256
    requires s[i] + Pow2(b) > 15 && s[i] - Pow2(b) >= -15
    requires |t| == 256 && t[i] == s[i] - Pow2(b) && (forall k :: i < k < i + b ==> t[k] == 0) && t[i + b] == 0
    requires forall k :: i + b <= k < 256 ==> Bit(t[k])
    requires BitVal(t[i + b..]) == BitVal(s[i + b..]) + 1 - e * Pow2(256 - i - b)
    ensures Building(t, i, b + 1, total - e * Pow2(256 - i))
  {
    hide Pow2, BitVal, Partial;
    PartialStep(s[i], b);
    DropBit(t, i + b);
    var u, v := BitVal(s[i + b..]), BitVal(t[i + b + 1..]);
    DoublePow(b, v);
    Pow2Add(b, 256 - i - b);
    BorrowArith(Pow2(b), u, e, Pow2(256 - i - b));
    forall k | i < k < 256
      ensures Bit(t[k])
    {
    }
  }

  lemma BorrowArith(p: int, u: int, e: int, w: int)
    ensures p * (u + 1 - e * w) == p * u + p - e * (p * w)
  {
    assert p * (e * w) == e * (p * w);
  }

  /** When the inner loop ends, digit and bits still make up total. */
  lemma BuildingEnd(s: seq<int>, i: nat, b: nat, total: int)
    requires Building(s, i, b, total)
    ensures Sparse(s[i]) && BitVal(s[i..]) == total
  {
    hide Pow2, BitVal;
    var u, tail := BitVal(s[i + b..]), s[i + 1..];
    DropBit(s, i);
    LeadingZeros(tail, b - 1);
    assert tail[b - 1..] == s[i + b..];
    DoublePow(b - 1, u);
  }

  /** The signed window digit of an odd number with n bits left. */
  function WindowDigit(v: nat, n: nat): int
  {
    if n < 5 then v else if v % 32 < 16 then v % 32 else v % 32 - 32
  }

  /** An odd digit that agrees with v up to multiples of 32 is the window digit. */
  lemma Window32(x: int, u: int, v: nat, n: nat)
    requires n >= 5 && x % 2 == 1 && -15 <= x <= 15 && v == 32 * u + x
    ensures x == WindowDigit(v, n)
  {
    if x > 0 {
      DivModUnique(v, 32, u, x);
    } else {
      DivModUnique(v, 32, u - 1, x + 32);
    }
  }

  /** A carry is lost exactly from the top fifteen numbers. */
  lemma DigitIs(x: int, u: int, v: nat, n: nat, e: int)
    requires n >= 5 && x % 2 == 1 && -15 <= x <= 15 && 0 <= v < Pow2(n) && (e == 0 || e == 1)
    requires x + 32 * u == v - e * Pow2(n) && u >= 0 && 32 * u <= Pow2(n) - 32 && (e == 1 ==> u == 0)
    ensures x == WindowDigit(v, n) && (e == 1 <==> v >= Pow2(n) - 15)
  {
    hide Pow2, WindowDigit;
    SmallPowers();
    Pow2Add(5, n - 5);
    if e == 1 {
      assert v == 32 * Pow2(n - 5) + x;
      Window32(x, Pow2(n - 5), v, n);
    } else {
      assert v == 32 * u + x;
      Window32(x, u, v, n);
    }
  }

  /**
   The body of slide's outer loop: absorbs up to six following bits into digit i; e says
   whether a carry fell off the end.
   */
  method SlideDigit(r: array<int>, i: nat) returns (ghost e: int)
    requires r.Length == 256 && i < 256 && r[i] == 1
    requires forall k :: i <= k < 256 ==> Bit(r[k])
    modifies r
    ensures r[..i] == old(r[..i]) && Sparse(r[i])
    ensures forall k :: i < k < 256 ==> Bit(r[k])
    ensures (e == 0 || e == 1) && BitVal(r[i..]) == old(BitVal(r[i..])) - e * Pow2(256 - i)
    ensures e == 1 ==> i <= 251 && forall k :: i < k < 256 ==> r[k] == 0
    ensures forall k :: i < k < 256 && k < i + 5 ==> r[k] == 0
  {
    hide Pow2, BitVal, Partial, Sparse;
    ghost var total := BitVal(r[i..]);
    var b := 1;
    e := 0;
    BuildingStart(r[..], i);
    assert r[..][i..] == r[i..];
    while b <= 6 && i + b < 256
      invariant (e == 0 || e == 1) && Building(r[..], i, b, total - e * Pow2(256 - i))
      invariant e == 1 ==> i <= 251 && forall k :: i < k < 256 ==> r[k] == 0
      invariant r[..i] == old(r[..i])
    {
      ghost var s, t := r[..], total - e * Pow2(256 - i);
      if r[i + b] != 0 {
        assert Bit(s[i + b]);
        PartialStep(r[i], b);
        if r[i] + r[i + b] * Pow2(b) <= 15 {
          r[i] := r[i] + r[i + b] * Pow2(b);
          r[i + b] := 0;
          AbsorbStep(s, r[..], i, b, t);
        } else if r[i] - r[i + b] * Pow2(b) >= -15 {
          r[i] := r[i] - r[i + b] * Pow2(b);
          assert r[i + b..] == s[i + b..];
          e := AddBit(r, i + b);
          assert r[..][i + b..] == r[i + b..];
          BorrowStep(s, r[..], i, b, t, e);
        } else {
          break;
        }
      } else {
        SkipStep(s, i, b, t);
      }
      b := b + 1;
    }
    BuildingEnd(r[..], i, b, total - e * Pow2(256 - i));
    assert r[..][i..] == r[i..];
  }

  /** Bit i of a string. */
  lemma BitWindow(a: seq<byte>, i: nat)
    requires i < 8 * |a|
    ensures a[i / 8] / Pow2(i % 8) % 2 == LeVal(a) / Pow2(i) % 2
  {
    hide LeVal, Pow2;
    var o, sh := i / 8, i % 8;
    DropBytes(a, o);
    Pow2Add(8 * o, sh);
    DivDiv(LeVal(a), Pow2(8 * o), Pow2(sh));
    HeadByte(a, o);
    SmallPowers();
    WindowOfLow(a[o], LeVal(a[o + 1..]), 8, sh, 1);
  }

  lemma HeadByte(a: seq<byte>, o: nat)
    requires o < |a|
    ensures LeVal(a[o..]) == a[o] + 256 * LeVal(a[o + 1..])
  {
    assert a[o..][1..] == a[o + 1..];
  }

  lemma {:induction false} BinaryVal(n: nat, s: seq<int>)
    requires n < Pow2(|s|)
    requires forall i :: 0 <= i < |s| ==> s[i] == n / Pow2(i) % 2
    ensures BitVal(s) == n
  {
    hide Pow2;
    assert Pow2(0) == 1 && Pow2(1) == 2 by { SmallPowers(); }
    if |s| > 0 {
      var m, t := n / 2, s[1..];
      Pow2Add(1, |t|);
      forall i | 0 <= i < |t|
        ensures t[i] == m / Pow2(i) % 2
      {
        assert t[i] == s[i + 1];
        Pow2Add(1, i);
        DivDiv(n, 2, Pow2(i));
      }
      BinaryVal(m, t);
      assert s[0] == n / Pow2(0) % 2;
    }
  }

  /** The first loop of slide: the bits of the scalar. */
  method Unpack(r: array<int>, a: seq<byte>)
    requires r.Length == 256 && |a| == 32
    modifies r
    ensures forall k :: 0 <= k < 256 ==> Bit(r[k])
    ensures BitVal(r[..]) == LeVal(a)
  {
    hide LeVal, Pow2, BitVal;
    for i := 0 to 256
      invariant forall k :: 0 <= k < i ==> r[k] == LeVal(a) / Pow2(k) % 2
    {
      BitWindow(a, i);
      r[i] := a[i / 8] / Pow2(i % 8) % 2;
    }
    LeValBound(a);
    BinaryVal(LeVal(a), r[..]);
  }

  /** On numbers: taking window digits off v, with n bits of room, carries out of the top. */
  predicate Overflows(v: nat, n: nat)
    decreases n
  {
    n > 0 && if v % 2 == 0 then Overflows(v / 2, n - 1)
             else n >= 5 && (v >= Pow2(n) - 15 || Overflows((v - WindowDigit(v, n)) / 2, n - 1))
  }

  /** The number slide's digits stand for. */
  function Slid(v: nat): int { if Overflows(v, 256) then v - Pow2(256) else v }

  /** Up to half the range no carry is lost. */
  lemma {:induction false} HalfIsSafe(v: nat, n: nat)
    requires n > 0 && v <= Pow2(n - 1)
    ensures !Overflows(v, n)
    decreases n
  {
    if v % 2 == 0 {
      if n > 1 {
        HalfIsSafe(v / 2, n - 1);
      }
    } else if n >= 5 {
      HalfStep(v, n);
      HalfIsSafe((v - WindowDigit(v, n)) / 2, n - 1);
    }
  }

  lemma HalfStep(v: nat, n: nat)
    requires n >= 5 && v <= Pow2(n - 1) && v % 2 == 1
    ensures v < Pow2(n) - 15 && 0 <= v - WindowDigit(v, n) <= Pow2(n - 1)
  {
    hide Pow2;
    SmallPowers();
    Pow2Add(5, n - 5);
    Pow2Add(1, n - 1);
    if n >= 6 {
      Pow2Add(5, n - 6);
    }
  }

  /** Shifting a number up leaves it as safe as it was. */
  lemma {:induction false} ShiftedOverflow(v: nat, n: nat, k: nat)
    ensures Overflows(v * Pow2(k), n + k) <==> Overflows(v, n)
  {
    hide Overflows;
    if k > 0 {
      ShiftedOverflow(v, n, k - 1);
      var w := v * Pow2(k - 1);
      assert v * Pow2(k) == 2 * w;
      EvenStep(w, n + k);
    } else {
      assert v * Pow2(0) == v;
    }
  }

  lemma EvenStep(w: nat, n: nat)
    requires n > 0
    ensures Overflows(2 * w, n) <==> Overflows(w, n - 1)
  {
  }

  /** 2^255 + 2^251 loses a carry: its digits stand for a negative number. */
  lemma TooLarge()
    ensures Pow2(255) + Pow2(251) == 17 * Pow2(251) && Overflows(17 * Pow2(251), 256) && Slid(17 * Pow2(251)) < 0
  {
    hide Pow2;
    SmallPowers();
    Pow2Add(4, 251);
    Pow2Add(5, 251);
    SeventeenOverflows();
    ShiftedOverflow(17, 5, 251);
  }

  lemma SeventeenOverflows()
    ensures Overflows(17, 5)
  {
    SmallPowers();
  }

  /** One digit of slide is one step of the recoding of numbers. */
  lemma DigitStep(s: seq<int>, t: seq<int>, i: nat, e: int)
    requires |s| == |t| == 256 && i < 256 && s[i] == 1 && (forall k :: i <= k < 256 ==> Bit(s[k]))
    requires Sparse(t[i]) && (forall k :: i < k < 256 ==> Bit(t[k])) && (e == 0 || e == 1)
    requires BitVal(t[i..]) == BitVal(s[i..]) - e * Pow2(256 - i)
    requires e == 1 ==> i <= 251 && forall k :: i < k < 256 ==> t[k] == 0
    requires forall k :: i < k < 256 && k < i + 5 ==> t[k] == 0
    ensures BitVal(s[i..]) >= 0 && BitVal(t[i + 1..]) >= 0
    ensures Overflows(BitVal(s[i..]), 256 - i) <==> e == 1 || Overflows(BitVal(t[i + 1..]), 255 - i)
    ensures e == 1 ==> BitVal(t[i + 1..]) == 0
  {
    hide Pow2, BitVal, Overflows;
    var n, v, w := 256 - i, BitVal(s[i..]), BitVal(t[i + 1..]);
    BitsNonNegative(s[i..]);
    BitsNonNegative(t[i + 1..]);
    DropBit(s, i);
    DropBit(t, i);
    NothingOverflows(n - 1);
    if e == 1 {
      AllZeros(t[i + 1..]);
    }
    if n >= 5 {
      var tail := t[i + 1..];
      LeadingZeros(tail, 4);
      assert tail[4..] == t[i + 5..];
      BitsNonNegative(t[i + 5..]);
      WindowRoom(t[i], BitVal(t[i + 5..]), v, w, n, e);
    } else {
      AllZeros(t[i + 1..]);
    }
    OverflowStep(v, n);
  }

  lemma WindowRoom(x: int, u: int, v: int, w: int, n: nat, e: int)
    requires n >= 5 && Sparse(x) && 0 <= u < Pow2(n - 5) && w == Pow2(4) * u && 0 <= v < Pow2(n) && v % 2 == 1
             && (e == 0 || e == 1)
    requires x + 2 * w == v - e * Pow2(n) && (e == 1 ==> w == 0)
    ensures x == WindowDigit(v, n) && (e == 1 <==> v >= Pow2(n) - 15) && (e == 0 ==> w == (v - WindowDigit(v, n)) / 2)
  {
    hide Pow2;
    SmallPowers();
    Pow2Add(5, n - 5);
    assert x % 2 == 1 by { assert Pow2(n) == 2 * (16 * Pow2(n - 5)); }
    DigitIs(x, u, v, n, e);
  }

  lemma OverflowStep(v: nat, n: nat)
    requires n > 0 && v % 2 == 1
    ensures Overflows(v, n) <==> n >= 5 && (v >= Pow2(n) - 15 || Overflows((v - WindowDigit(v, n)) / 2, n - 1))
  {
  }

  lemma {:induction false} NothingOverflows(n: nat)
    ensures !Overflows(0, n)
  {
    if n > 0 {
      NothingOverflows(n - 1);
    }
  }

  /** A zero bit. */
  lemma ZeroStep(s: seq<int>, i: nat)
    requires |s| == 256 && i < 256 && s[i] == 0 && forall k :: i <= k < 256 ==> Bit(s[k])
    ensures BitVal(s[i..]) >= 0 && BitVal(s[i + 1..]) >= 0 && BitVal(s[i..]) == 2 * BitVal(s[i + 1..])
    ensures Overflows(BitVal(s[i..]), 256 - i) <==> Overflows(BitVal(s[i + 1..]), 255 - i)
  {
    hide Pow2;
    BitsNonNegative(s[i..]);
    BitsNonNegative(s[i + 1..]);
    DropBit(s, i);
  }

  lemma LowerArith(p: int, v: int, e: int, w: int)
    ensures p * (v - e * w) == p * v - e * (p * w)
  {
    BorrowArith(p, v - 1, e, w);
    assert p * (v - 1) == p * v - p;
  }

  lemma LowerVal(s: seq<int>, t: seq<int>, i: nat, e: int)
    requires |s| == |t| == 256 && i <= 256 && s[..i] == t[..i] && BitVal(t[i..]) == BitVal(s[i..]) - e * Pow2(256 - i)
    ensures BitVal(t) == BitVal(s) - e * Pow2(256)
  {
    hide Pow2, BitVal;
    BitSplit(s, i);
    BitSplit(t, i);
    Pow2Add(i, 256 - i);
    LowerArith(Pow2(i), BitVal(s[i..]), e, Pow2(256 - i));
  }

  /**
   slide: 256 digits that are zero or odd in [-15, 15] and stand for the scalar, unless a carry
   is lost at the top.
   */
  method Slide(r: array<int>, a: seq<byte>)
    requires r.Length == 256 && |a| == 32
    modifies r
    ensures forall k :: 0 <= k < 256 ==> Sparse(r[k])
    ensures BitVal(r[..]) == Slid(LeVal(a))
  {
    hide LeVal, Pow2, BitVal, Overflows, Sparse, Bit;
    Unpack(r, a);
    assert r[..] == r[0..];
    ghost var lost := 0;
    for i := 0 to 256
      invariant forall k :: 0 <= k < i ==> Sparse(r[k])
      invariant forall k :: i <= k < 256 ==> Bit(r[k])
      invariant (lost == 0 || lost == 1) && BitVal(r[..]) == LeVal(a) - lost * Pow2(256) && BitVal(r[i..]) >= 0
      invariant Overflows(LeVal(a), 256) <==> lost == 1 || Overflows(BitVal(r[i..]), 256 - i)
      invariant lost == 1 ==> BitVal(r[i..]) == 0
    {
      ghost var s := r[..];
      assert s[i..] == r[i..] && s[i + 1..] == r[i + 1..];
      BitIs(s[i]);
      if r[i] != 0 {
        OneIsPositive(s, i);
        ghost var e := SlideDigit(r, i);
        assert r[..][i..] == r[i..] && r[..][i + 1..] == r[i + 1..];
        DigitStep(s, r[..], i, e);
        LowerVal(s, r[..], i, e);
        lost := lost + e;
        assert forall k :: 0 <= k < i ==> r[k] == s[k];
      } else {
        ZeroStep(s, i);
        ZeroIsSparse();
      }
    }
    assert r[256..] == [];
    NothingOverflows(0);
    AllZeros([]);
  }

  lemma BitIs(x: int)
    ensures Bit(x) <==> x == 0 || x == 1
  {
  }

  lemma ZeroIsSparse()
    ensures Sparse(0)
  {
  }

  lemma OneIsPositive(s: seq<int>, i: nat)
    requires |s| == 256 && i < 256 && s[i] == 1 && forall k :: i <= k < 256 ==> Bit(s[k])
    ensures BitVal(s[i..]) > 0
  {
    hide Pow2, BitVal;
    DropBit(s, i);
    BitsNonNegative(s[i + 1..]);
  }

  // ---------------------------------------------------------------------
  // Signed radix-16 digits.

  function HexVal(s: seq<int>): int
  {
    if |s| == 0 then 0 else s[0] + 16 * HexVal(s[1..])
  }

  function Pow16(i: nat): nat
  {
    if i == 0 then 1 else 16 * Pow16(i - 1)
  }

  lemma {:induction false} HexAddAt(s: seq<int>, i: nat, d: int)
    requires i < |s|
    ensures HexVal(s[i := s[i] + d]) == HexVal(s) + d * Pow16(i)
  {
    if i == 0 {
      assert s[i := s[i] + d][1..] == s[1..];
    } else {
      assert s[i := s[i] + d][1..] == s[1..][i - 1 := s[i] + d];
      HexAddAt(s[1..], i - 1, d);
      var p := Pow16(i - 1);
      assert 16 * (d * p) == d * (16 * p);
    }
  }

  /** Two hexadecimal digits per byte. */
  lemma {:induction false} NibblesVal(a: seq<byte>, s: seq<int>)
    requires |s| == 2 * |a|
    requires forall i :: 0 <= i < |a| ==> s[2 * i] == a[i] % 16 && s[2 * i + 1] == a[i] / 16
    ensures HexVal(s) == LeVal(a)
  {
    if |a| > 0 {
      var t := s[2..];
      forall i | 0 <= i < |a[1..]|
        ensures t[2 * i] == a[1..][i] % 16 && t[2 * i + 1] == a[1..][i] / 16
      {
        assert t[2 * i] == s[2 * (i + 1)] && t[2 * i + 1] == s[2 * (i + 1) + 1];
      }
      NibblesVal(a[1..], t);
      assert s[1..][1..] == t;
      assert HexVal(s) == s[0] + 16 * (s[1] + 16 * HexVal(t));
      assert s[2 * 0] == a[0] % 16 && s[2 * 0 + 1] == a[0] / 16;
    }
  }

  method Nibbles(e: array<int>, a: seq<byte>)
    requires e.Length == 64 && |a| == 32
    modifies e
    ensures HexVal(e[..]) == LeVal(a)
    ensures (forall k :: 0 <= k < 64 ==> 0 <= e[k] <= 15) && e[63] == a[31] / 16
  {
    hide HexVal, LeVal;
    for i := 0 to 32
      invariant forall k :: 0 <= k < i ==> e[2 * k] == a[k] % 16 && e[2 * k + 1] == a[k] / 16
      invariant forall k :: 0 <= k < 2 * i ==> 0 <= e[k] <= 15
    {
      e[2 * i] := a[i] % 16;
      e[2 * i + 1] := a[i] / 16 % 16;
    }
    NibblesVal(a, e[..]);
    assert e[2 * 31 + 1] == a[31] / 16;
  }

  lemma CarryDigit(s: seq<int>, t: seq<int>, i: nat, carry: int, carry': int)
    requires i < |s| && t == s[i := s[i] + (carry - 16 * carry')]
    ensures HexVal(t) + carry' * Pow16(i + 1) == HexVal(s) + carry * Pow16(i)
  {
    hide HexVal;
    HexAddAt(s, i, carry - 16 * carry');
    var p := Pow16(i);
    assert (carry - 16 * carry') * p + carry' * (16 * p) == carry * p;
  }

  /** The signed digits of ge_scalarmult_base: the same value, every digit between -8 and 8. */
  method Radix16(e: array<int>, a: seq<byte>)
    requires e.Length == 64 && |a| == 32 && a[31] <= 127
    modifies e
    ensures HexVal(e[..]) == LeVal(a)
    ensures forall k :: 0 <= k < 64 ==> -8 <= e[k] <= 8
  {
    hide HexVal, LeVal, Pow16;
    Nibbles(e, a);
    var carry := 0;
    ghost var s := e[..];
    for i := 0 to 63
      invariant 0 <= carry <= 1
      invariant forall k :: 0 <= k < i ==> -8 <= e[k] <= 8
      invariant forall k :: i <= k < 64 ==> e[k] == s[k]
      invariant HexVal(e[..]) + carry * Pow16(i) == LeVal(a)
    {
      ghost var before, c := e[..], carry;
      e[i] := e[i] + carry;
      carry := (e[i] + 8) / 16;
      e[i] := e[i] - carry * 16;
      CarryDigit(before, e[..], i, c, carry);
    }
    HexAddAt(e[..], 63, carry);
    ghost var before := e[..];
    e[63] := e[63] + carry;
    assert e[..] == before[63 := before[63] + carry];
  }
}
