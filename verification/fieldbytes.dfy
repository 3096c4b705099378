/** fe_frombytes, fe_tobytes and the two tests built on it. */
module FieldBytes {
  import opened Bits
  import opened Bytes
  import opened Compare
  import opened Field25519
  import opened Modular

  const TWO255: int := 0x8000_0000_0000_0000_0000_0000_0000_0000_0000_0000_0000_0000_0000_0000_0000_0000

  // ---------------------------------------------------------------------
  // fe_frombytes

  lemma Mask23(x: nat)
    ensures And(x, 8388607) == x % 0x80_0000
  {
    Pow2Of8();
    Pow2Add(8, 8);
    Pow2Add(8, 15);
    AndMask(x, 23);
  }

  lemma TopThree(a: byte, b: byte, c: byte)
    ensures (a + 0x100 * b as int + 0x1_0000 * c as int) % 0x80_0000 == a + 0x100 * b as int + 0x1_0000 * (c % 128)
  {
  }

  /** The ten windows of the string, before any carry. */
  function Windows(s: seq<byte>): Fe
    requires |s| == 32
  {
    Fe(Load4(s, 0), Load3(s, 4) * 0x40, Load3(s, 7) * 0x20, Load3(s, 10) * 8, Load3(s, 13) * 4,
       Load4(s, 16), Load3(s, 20) * 0x80, Load3(s, 23) * 0x20, Load3(s, 26) * 0x10, And(Load3(s, 29), 8388607) * 4)
  }

  lemma WindowsLow(s: seq<byte>)
    requires |s| == 32
    ensures var w := Windows(s);
            w.l0 + 0x400_0000 * w.l1 + 0x8_0000_0000_0000 * w.l2 + 0x2000_0000_0000_0000_0000 * w.l3
                + 0x40_0000_0000_0000_0000_0000_0000 * w.l4
            == Word(s, 0) + 0x1_0000_0000 * Word(s, 4) + 0x1_0000_0000_0000_0000 * Word(s, 8)
                + 0x1_0000_0000_0000_0000_0000_0000 * Word(s, 12)
  {
    hide Load3, Load4, And;
  }

  lemma WindowsHigh(s: seq<byte>)
    requires |s| == 32
    ensures var w := Windows(s);
            w.l5 + 0x200_0000 * w.l6 + 0x8_0000_0000_0000 * w.l7 + 0x1000_0000_0000_0000_0000 * w.l8
                + 0x40_0000_0000_0000_0000_0000_0000 * w.l9
            == Word(s, 16) + 0x1_0000_0000 * Word(s, 20) + 0x1_0000_0000_0000_0000 * Word(s, 24)
                + 0x1_0000_0000_0000_0000_0000_0000 * Word(s, 28)
            - 0x8000_0000_0000_0000_0000_0000_0000_0000 * (s[31] / 128) as int
  {
    hide Load3, Load4, And;
    Mask23(Load3(s, 29));
    TopThree(s[29], s[30], s[31]);
  }

  lemma WindowsVal(s: seq<byte>)
    requires |s| == 32
    ensures Val(Windows(s)) == LeVal(s) - TWO255 * (s[31] / 128)
  {
    hide Val, Windows, Word;
    ValIs(Windows(s));
    WindowsLow(s);
    WindowsHigh(s);
    Le32(s);
  }

  lemma WindowsRange(s: seq<byte>)
    requires |s| == 32
    ensures Within(Windows(s), 0x1_0000_0000, 0x1_0000_0000) && 0 <= Windows(s).l9 < 0x200_0000
  {
    hide Load3, Load4, And;
    Mask23(Load3(s, 29));
  }

  /** The value of the string with its top bit ignored, modulo p, in multiplication's output bounds. */
  method FeFromBytes(s: seq<byte>) returns (h: Fe)
    requires |s| == 32
    ensures Cong(Val(h), LeVal(s) % TWO255, P)
    ensures Tight(h)
  {
    hide Val, Windows, LeVal, Cong;
    var w := Windows(s);
    WindowsRange(s);
    var Fe(h0, h1, h2, h3, h4, h5, h6, h7, h8, h9) := w;
    ghost var c;
    h9, h0, c := CarryTop(h9, h0);
    h1, h2 := Carry25(h1, h2);
    h3, h4 := Carry25(h3, h4);
    h5, h6 := Carry25(h5, h6);
    h7, h8 := Carry25(h7, h8);
    h0, h1 := Carry26(h0, h1);
    h2, h3 := Carry26(h2, h3);
    h4, h5 := Carry26(h4, h5);
    h6, h7 := Carry26(h6, h7);
    h8, h9 := Carry26(h8, h9);
    h := Fe(h0, h1, h2, h3, h4, h5, h6, h7, h8, h9);
    ValIs(w);
    ValIs(h);
    CongBy(Val(h), Val(w), -c, P);
    WindowsVal(s);
    TopBit(s);
  }

  lemma TopBit(s: seq<byte>)
    requires |s| == 32
    ensures LeVal(s) % TWO255 == LeVal(s) - TWO255 * (s[31] / 128)
  {
    hide Word;
    TopWord(s);
    Le32(s);
    var low := LeVal(s) - TWO255 * (s[31] / 128);
    assert 0 <= low < TWO255;
  }

  lemma TopWord(s: seq<byte>)
    requires |s| == 32
    ensures 0 <= Word(s, 28) - 0x8000_0000 * (s[31] / 128) as int < 0x8000_0000
  {
  }

  // ---------------------------------------------------------------------
  // fe_tobytes

  /** An arithmetic right shift by 26, with the bits shifted out. */
  method Shr26(x: int) returns (q: int, ghost r: int)
    requires Int32(x)
    ensures x == 0x400_0000 * q + r && 0 <= r < 0x400_0000
  {
    q := x / 0x400_0000;
    r := x % 0x400_0000;
  }

  method Shr25(x: int) returns (q: int, ghost r: int)
    requires Int32(x)
    ensures x == 0x200_0000 * q + r && 0 <= r < 0x200_0000
  {
    q := x / 0x200_0000;
    r := x % 0x200_0000;
  }

  /**
   The first quotient step. The constant is an unsigned 32-bit number, so the
   sum is one too: it wraps, and the shift brings in zero bits.
   */
  function Estimate(h9: int): (q: int)
    requires Abs(h9, 36_909_875)
    ensures 0 <= q < 128
    ensures var t := 19 * h9 + 0x100_0000;
            var q' := if t < 0 then q - 128 else q;
            0x200_0000 * q' <= t < 0x200_0000 * (q' + 1)
  {
    (19 * h9 + 0x100_0000) % 0x1_0000_0000 / 0x200_0000
  }

  /** The eleven shifts compute one floor division of the whole value plus the estimate. */
  method Quotient(h: Fe) returns (q: int)
    requires Broad(h)
    ensures TWO255 * q <= Val(h) + Estimate(h.l9) < TWO255 * (q + 1)
  {
    hide Val, Estimate;
    var Fe(h0, h1, h2, h3, h4, h5, h6, h7, h8, h9) := h;
    ghost var r0, r1, r2, r3, r4, r5, r6, r7, r8, r9;
    q := Estimate(h9);
    q, r0 := Shr26(h0 + q);
    q, r1 := Shr25(h1 + q);
    q, r2 := Shr26(h2 + q);
    q, r3 := Shr25(h3 + q);
    q, r4 := Shr26(h4 + q);
    q, r5 := Shr25(h5 + q);
    q, r6 := Shr26(h6 + q);
    q, r7 := Shr25(h7 + q);
    q, r8 := Shr26(h8 + q);
    q, r9 := Shr25(h9 + q);
    ghost var r := Fe(r0, r1, r2, r3, r4, r5, r6, r7, r8, r9);
    ValIs(h);
    ValIs(r);
    assert Val(h) + Estimate(h9) == TWO255 * q + Val(r);
    assert 0 <= Val(r) < TWO255;
  }

  /** The values on which the wrapped estimate is one quotient too high. */
  predicate Misjudged(v: int) { -P - 128 <= v < -P }

  lemma LowPart(h: Fe)
    requires Broad(h)
    ensures Abs(Val(h) - 0x40_0000_0000_0000_0000_0000_0000_0000_0000_0000_0000_0000_0000_0000_0000 * h.l9,
                0x80_0000_0000_0000_0000_0000_0000_0000_0000_0000_0000_0000_0000_0000_0000)
  {
    hide Val;
    ValIs(h);
  }

  /** The quotient is floor(v / p), except on Misjudged values. */
  lemma QuotientExact(v: int, h9: int, q: int)
    requires Abs(h9, 36_909_875)
    requires Abs(v - 0x40_0000_0000_0000_0000_0000_0000_0000_0000_0000_0000_0000_0000_0000_0000 * h9,
                 0x80_0000_0000_0000_0000_0000_0000_0000_0000_0000_0000_0000_0000_0000_0000)
    requires TWO255 * q <= v + Estimate(h9) < TWO255 * (q + 1)
    ensures if Misjudged(v) then q == -1 else P * q <= v < P * (q + 1)
  {
    hide Estimate;
    assert -2 <= q <= 1;
  }

  /** One floor carry: lo keeps its low 26 bits. */
  method FloorCarry26(lo: int, hi: int) returns (lo': int, hi': int)
    requires Abs(lo, 0x1000_0000) && Abs(hi, 0x1000_0000)
    ensures lo' + 0x400_0000 * hi' == lo + 0x400_0000 * hi && 0 <= lo' < 0x400_0000
  {
    var carry := lo / 0x400_0000;
    hi' := hi + carry;
    lo' := lo - carry * 0x400_0000;
  }

  method FloorCarry25(lo: int, hi: int) returns (lo': int, hi': int)
    requires Abs(lo, 0x1000_0000) && Abs(hi, 0x1000_0000)
    ensures lo' + 0x200_0000 * hi' == lo + 0x200_0000 * hi && 0 <= lo' < 0x200_0000
  {
    var carry := lo / 0x200_0000;
    hi' := hi + carry;
    lo' := lo - carry * 0x200_0000;
  }

  predicate Digits(h: Fe)
  {
    && 0 <= h.l0 < 0x400_0000 && 0 <= h.l1 < 0x200_0000 && 0 <= h.l2 < 0x400_0000 && 0 <= h.l3 < 0x200_0000
    && 0 <= h.l4 < 0x400_0000 && 0 <= h.l5 < 0x200_0000 && 0 <= h.l6 < 0x400_0000 && 0 <= h.l7 < 0x200_0000
    && 0 <= h.l8 < 0x400_0000 && 0 <= h.l9 < 0x200_0000
  }

  method NormaliseLow(h: Fe) returns (r: Fe)
    requires Within(h, 0x800_0000, 0x800_0000)
    ensures Val(r) == Val(h)
    ensures 0 <= r.l0 < 0x400_0000 && 0 <= r.l1 < 0x200_0000 && 0 <= r.l2 < 0x400_0000 && 0 <= r.l3 < 0x200_0000
    ensures 0 <= r.l4 < 0x400_0000 && Abs(r.l5, 0x900_0000)
    ensures r.l6 == h.l6 && r.l7 == h.l7 && r.l8 == h.l8 && r.l9 == h.l9
  {
    hide Val;
    var Fe(h0, h1, h2, h3, h4, h5, h6, h7, h8, h9) := h;
    h0, h1 := FloorCarry26(h0, h1);
    h1, h2 := FloorCarry25(h1, h2);
    h2, h3 := FloorCarry26(h2, h3);
    h3, h4 := FloorCarry25(h3, h4);
    h4, h5 := FloorCarry26(h4, h5);
    r := Fe(h0, h1, h2, h3, h4, h5, h6, h7, h8, h9);
    ValIs(h);
    ValIs(r);
  }

  /** The ten floor carries; the carry out of the top limb is dropped. */
  method Normalise(h: Fe) returns (r: Fe)
    requires Within(h, 0x800_0000, 0x800_0000)
    ensures Digits(r)
    ensures Val(r) == Val(h) % TWO255
  {
    hide Val;
    var low := NormaliseLow(h);
    var Fe(h0, h1, h2, h3, h4, h5, h6, h7, h8, h9) := low;
    h5, h6 := FloorCarry25(h5, h6);
    h6, h7 := FloorCarry26(h6, h7);
    h7, h8 := FloorCarry25(h7, h8);
    h8, h9 := FloorCarry26(h8, h9);
    var h10: int;
    h9, h10 := FloorCarry25(h9, 0);
    r := Fe(h0, h1, h2, h3, h4, h5, h6, h7, h8, h9);
    ValIs(low);
    ValIs(r);
    assert Val(low) == TWO255 * h10 + Val(r);
    DigitsRange(r);
    Remainder(Val(low), h10, Val(r));
  }

  lemma DigitsRange(r: Fe)
    requires Digits(r)
    ensures 0 <= Val(r) < TWO255
  {
    hide Val;
    ValIs(r);
  }

  lemma Remainder(v: int, q: int, r: int)
    requires v == TWO255 * q + r && 0 <= r < TWO255
    ensures v % TWO255 == r
  {
  }

  /** The 16 bytes of five digits. */
  function PackLow(h0: nat, h1: nat, h2: nat, h3: nat, h4: nat): seq<byte>
  {
    [ByteAt(h0, 1), ByteAt(h0, 0x100), ByteAt(h0, 0x1_0000), Join(h0, 0x100_0000, 4, h1),
          ByteAt(h1, 0x40), ByteAt(h1, 0x4000), Join(h1, 0x40_0000, 8, h2), ByteAt(h2, 0x20),
          ByteAt(h2, 0x2000), Join(h2, 0x20_0000, 0x20, h3), ByteAt(h3, 8), ByteAt(h3, 0x800),
          Join(h3, 0x8_0000, 0x40, h4), ByteAt(h4, 4), ByteAt(h4, 0x400), ByteAt(h4, 0x4_0000)]
  }

  /** Low bits, two whole bytes and the bits above them: the pieces packing cuts a digit into. */
  ghost predicate Cuts(h: nat, a: nat, l: nat, m: nat, n: nat, t: nat)
  {
    l < a && m < 256 && n < 256 && h == l + a * m + 256 * a * n + 0x1_0000 * a * t
  }

  lemma Cut(h: nat, a: nat, d: nat, c: nat) returns (l: nat, m: nat, n: nat, t: nat)
    requires 0 < a && d == 0x1_0000 * a && h < d * c
    ensures Cuts(h, a, l, m, n, t) && m == ByteAt(h, a) && n == ByteAt(h, 256 * a) && t == Top(h, d) && t < c
    ensures a == 256 ==> l == ByteAt(h, 1)
    ensures c <= 256 ==> t == ByteAt(h, d)
  {
    hide ByteAt, Top;
    l, m, n, t := Cut2(h, a);
    var low := l + a * m + 256 * a * n;
    assert 0x1_0000 * a * t == d * t;
    TopBelow(h, d, low, t, c);
  }

  lemma TopBelow(h: nat, d: nat, low: nat, t: nat, c: nat)
    requires d > 0 && h == low + d * t && h < d * c
    ensures t < c
  {
    if t >= c {
      MulMono(d, c, t);
    }
  }

  /** The byte that two neighbouring digits share. */
  lemma Border(h: nat, d: nat, t: nat, c: nat, k: nat, next: nat, a: nat, l: nat, m: nat, n: nat, u: nat)
    requires d > 0 && t == Top(h, d) && t < c && k <= 8 && c == Pow2(k) && a == Pow2(8 - k) && Cuts(next, a, l, m, n, u)
    ensures Join(h, d, c, next) == t + c * l
  {
    hide Top, Join, Pow2;
    var rest := m + 256 * n + 0x1_0000 * u;
    assert a * rest == a * m + 256 * a * n + 0x1_0000 * a * u by { Distributes(a, m, n, u); }
    Shared(h, d, t, c, k, next, l, rest);
  }

  lemma Distributes(a: int, m: int, n: int, u: int)
    ensures a * (m + 256 * n + 0x1_0000 * u) == a * m + 256 * a * n + 0x1_0000 * a * u
  {
    var x, y, z := a * m, a * n, a * u;
    assert a * (m + 256 * n + 0x1_0000 * u) == x + 256 * y + 0x1_0000 * z;
    assert 256 * a * n == 256 * y && 0x1_0000 * a * u == 0x1_0000 * z;
  }

  lemma PackLowBytes(h0: nat, h1: nat, h2: nat, h3: nat, h4: nat)
    returns (l0: nat, m0: nat, n0: nat, t0: nat, l1: nat, m1: nat, n1: nat, t1: nat, l2: nat, m2: nat, n2: nat, t2: nat,
             l3: nat, m3: nat, n3: nat, t3: nat, l4: nat, m4: nat, n4: nat, t4: nat)
    requires h0 < 0x400_0000 && h1 < 0x200_0000 && h2 < 0x400_0000 && h3 < 0x200_0000 && h4 < 0x400_0000
    ensures Cuts(h0, 256, l0, m0, n0, t0) && Cuts(h1, 64, l1, m1, n1, t1) && Cuts(h2, 32, l2, m2, n2, t2)
    ensures Cuts(h3, 8, l3, m3, n3, t3) && Cuts(h4, 4, l4, m4, n4, t4)
    ensures PackLow(h0, h1, h2, h3, h4)
            == [l0, m0, n0, t0 + 4 * l1, m1, n1, t1 + 8 * l2, m2, n2, t2 + 32 * l3, m3, n3, t3 + 64 * l4, m4, n4, t4]
  {
    hide ByteAt, Top, Join, Pow2, Cuts;
    SmallPowers();
    l0, m0, n0, t0 := Cut(h0, 256, 0x1000000, 4);
    l1, m1, n1, t1 := Cut(h1, 64, 0x400000, 8);
    l2, m2, n2, t2 := Cut(h2, 32, 0x200000, 32);
    l3, m3, n3, t3 := Cut(h3, 8, 0x80000, 64);
    l4, m4, n4, t4 := Cut(h4, 4, 0x40000, 256);
    Border(h0, 0x100_0000, t0, 4, 2, h1, 64, l1, m1, n1, t1);
    Border(h1, 0x40_0000, t1, 8, 3, h2, 32, l2, m2, n2, t2);
    Border(h2, 0x20_0000, t2, 32, 5, h3, 8, l3, m3, n3, t3);
    Border(h3, 0x8_0000, t3, 64, 6, h4, 4, l4, m4, n4, t4);
  }

  lemma PackLowVal(h0: nat, h1: nat, h2: nat, h3: nat, h4: nat)
    requires h0 < 0x400_0000 && h1 < 0x200_0000 && h2 < 0x400_0000 && h3 < 0x200_0000 && h4 < 0x400_0000
    ensures |PackLow(h0, h1, h2, h3, h4)| == 16
    ensures LeVal(PackLow(h0, h1, h2, h3, h4))
            == h0 + 0x400_0000 * h1 + 0x8_0000_0000_0000 * h2 + 0x2000_0000_0000_0000_0000 * h3
                + 0x40_0000_0000_0000_0000_0000_0000 * h4
  {
    hide PackLow, LeVal;
    var l0, m0, n0, t0, l1, m1, n1, t1, l2, m2, n2, t2, l3, m3, n3, t3, l4, m4, n4, t4 :=
        PackLowBytes(h0, h1, h2, h3, h4);
    AssembleLow(PackLow(h0, h1, h2, h3, h4), l0, m0, n0, t0, l1, m1, n1, t1, l2, m2, n2, t2, l3, m3, n3, t3, l4, m4, n4,
                t4);
  }

  lemma AssembleLow(s: seq<byte>,
      l0: nat, m0: nat, n0: nat, t0: nat, l1: nat, m1: nat, n1: nat, t1: nat, l2: nat, m2: nat, n2: nat, t2: nat,
      l3: nat, m3: nat, n3: nat, t3: nat, l4: nat, m4: nat, n4: nat, t4: nat)
    requires |s| == 16
    requires s[0] as int == l0 && s[1] as int == m0 && s[2] as int == n0 && s[3] as int == t0 + 4 * l1
    requires s[4] as int == m1 && s[5] as int == n1 && s[6] as int == t1 + 8 * l2 && s[7] as int == m2
    requires s[8] as int == n2 && s[9] as int == t2 + 32 * l3 && s[10] as int == m3 && s[11] as int == n3
    requires s[12] as int == t3 + 64 * l4 && s[13] as int == m4 && s[14] as int == n4 && s[15] as int == t4
    ensures LeVal(s) == (l0 + 0x100 * m0 + 0x10000 * n0 + 0x1000000 * t0)
                        + 0x400_0000 * (l1 + 0x40 * m1 + 0x4000 * n1 + 0x400000 * t1)
                        + 0x8_0000_0000_0000 * (l2 + 0x20 * m2 + 0x2000 * n2 + 0x200000 * t2)
                        + 0x2000_0000_0000_0000_0000 * (l3 + 0x8 * m3 + 0x800 * n3 + 0x80000 * t3)
                        + 0x40_0000_0000_0000_0000_0000_0000 * (l4 + 0x4 * m4 + 0x400 * n4 + 0x40000 * t4)
  {
    hide LeVal;
    LeBlock(s, 0);
    assert s[0..] == s && LeVal(s[16..]) == 0 by { EmptyVal(s[16..]); }
  }

  /** The 16 bytes of five digits. */
  function PackHigh(h5: nat, h6: nat, h7: nat, h8: nat, h9: nat): seq<byte>
  {
    [ByteAt(h5, 1), ByteAt(h5, 0x100), ByteAt(h5, 0x1_0000), Join(h5, 0x100_0000, 2, h6),
          ByteAt(h6, 0x80), ByteAt(h6, 0x8000), Join(h6, 0x80_0000, 8, h7), ByteAt(h7, 0x20),
          ByteAt(h7, 0x2000), Join(h7, 0x20_0000, 0x10, h8), ByteAt(h8, 0x10), ByteAt(h8, 0x1000),
          Join(h8, 0x10_0000, 0x40, h9), ByteAt(h9, 4), ByteAt(h9, 0x400), ByteAt(h9, 0x4_0000)]
  }

  lemma PackHighBytes(h5: nat, h6: nat, h7: nat, h8: nat, h9: nat)
    returns (l5: nat, m5: nat, n5: nat, t5: nat, l6: nat, m6: nat, n6: nat, t6: nat, l7: nat, m7: nat, n7: nat, t7: nat,
             l8: nat, m8: nat, n8: nat, t8: nat, l9: nat, m9: nat, n9: nat, t9: nat)
    requires h5 < 0x200_0000 && h6 < 0x400_0000 && h7 < 0x200_0000 && h8 < 0x400_0000 && h9 < 0x200_0000
    ensures Cuts(h5, 256, l5, m5, n5, t5) && Cuts(h6, 128, l6, m6, n6, t6) && Cuts(h7, 32, l7, m7, n7, t7)
    ensures Cuts(h8, 16, l8, m8, n8, t8) && Cuts(h9, 4, l9, m9, n9, t9)
    ensures PackHigh(h5, h6, h7, h8, h9)
            == [l5, m5, n5, t5 + 2 * l6, m6, n6, t6 + 8 * l7, m7, n7, t7 + 16 * l8, m8, n8, t8 + 64 * l9, m9, n9, t9]
  {
    hide ByteAt, Top, Join, Pow2, Cuts;
    SmallPowers();
    l5, m5, n5, t5 := Cut(h5, 256, 0x1000000, 2);
    l6, m6, n6, t6 := Cut(h6, 128, 0x800000, 8);
    l7, m7, n7, t7 := Cut(h7, 32, 0x200000, 16);
    l8, m8, n8, t8 := Cut(h8, 16, 0x100000, 64);
    l9, m9, n9, t9 := Cut(h9, 4, 0x40000, 256);
    Border(h5, 0x100_0000, t5, 2, 1, h6, 128, l6, m6, n6, t6);
    Border(h6, 0x80_0000, t6, 8, 3, h7, 32, l7, m7, n7, t7);
    Border(h7, 0x20_0000, t7, 16, 4, h8, 16, l8, m8, n8, t8);
    Border(h8, 0x10_0000, t8, 64, 6, h9, 4, l9, m9, n9, t9);
  }

  lemma PackHighVal(h5: nat, h6: nat, h7: nat, h8: nat, h9: nat)
    requires h5 < 0x200_0000 && h6 < 0x400_0000 && h7 < 0x200_0000 && h8 < 0x400_0000 && h9 < 0x200_0000
    ensures |PackHigh(h5, h6, h7, h8, h9)| == 16
    ensures LeVal(PackHigh(h5, h6, h7, h8, h9))
            == h5 + 0x200_0000 * h6 + 0x8_0000_0000_0000 * h7 + 0x1000_0000_0000_0000_0000 * h8
                + 0x40_0000_0000_0000_0000_0000_0000 * h9
  {
    hide PackHigh, LeVal;
    var l5, m5, n5, t5, l6, m6, n6, t6, l7, m7, n7, t7, l8, m8, n8, t8, l9, m9, n9, t9 :=
        PackHighBytes(h5, h6, h7, h8, h9);
    AssembleHigh(PackHigh(h5, h6, h7, h8, h9), l5, m5, n5, t5, l6, m6, n6, t6, l7, m7, n7, t7, l8, m8, n8, t8, l9, m9,
                 n9, t9);
  }

  lemma AssembleHigh(s: seq<byte>,
      l5: nat, m5: nat, n5: nat, t5: nat, l6: nat, m6: nat, n6: nat, t6: nat, l7: nat, m7: nat, n7: nat, t7: nat,
      l8: nat, m8: nat, n8: nat, t8: nat, l9: nat, m9: nat, n9: nat, t9: nat)
    requires |s| == 16
    requires s[0] as int == l5 && s[1] as int == m5 && s[2] as int == n5 && s[3] as int == t5 + 2 * l6
    requires s[4] as int == m6 && s[5] as int == n6 && s[6] as int == t6 + 8 * l7 && s[7] as int == m7
    requires s[8] as int == n7 && s[9] as int == t7 + 16 * l8 && s[10] as int == m8 && s[11] as int == n8
    requires s[12] as int == t8 + 64 * l9 && s[13] as int == m9 && s[14] as int == n9 && s[15] as int == t9
    ensures LeVal(s) == (l5 + 0x100 * m5 + 0x10000 * n5 + 0x1000000 * t5)
                        + 0x200_0000 * (l6 + 0x80 * m6 + 0x8000 * n6 + 0x800000 * t6)
                        + 0x8_0000_0000_0000 * (l7 + 0x20 * m7 + 0x2000 * n7 + 0x200000 * t7)
                        + 0x1000_0000_0000_0000_0000 * (l8 + 0x10 * m8 + 0x1000 * n8 + 0x100000 * t8)
                        + 0x40_0000_0000_0000_0000_0000_0000 * (l9 + 0x4 * m9 + 0x400 * n9 + 0x40000 * t9)
  {
    hide LeVal;
    LeBlock(s, 0);
    assert s[0..] == s && LeVal(s[16..]) == 0 by { EmptyVal(s[16..]); }
  }

  /**
   fe_tobytes under its documented bounds: the canonical residue, except on the
   values just below -p, where the wrapped estimate yields the residue plus 19.
   */
  method FeToBytes(h: Fe) returns (s: seq<byte>)
    requires Broad(h)
    ensures |s| == 32
    ensures LeVal(s) == Val(h) % P + (if Misjudged(Val(h)) then 19 else 0)
  {
    hide Val, PackLow, PackHigh, LeVal, Estimate;
    var q := Quotient(h);
    LowPart(h);
    QuotientExact(Val(h), h.l9, q);
    AddToLow(h, 19 * q);
    QuotientSmall(Val(h), q);
    var shifted := h.(l0 := h.l0 + 19 * q);
    var r := Normalise(shifted);
    s := PackLow(r.l0, r.l1, r.l2, r.l3, r.l4) + PackHigh(r.l5, r.l6, r.l7, r.l8, r.l9);
    PackVal(r);
    Reduced(Val(h), q);
  }

  lemma AddToLow(h: Fe, x: int)
    ensures Val(h.(l0 := h.l0 + x)) == Val(h) + x
  {
    hide Val;
    ValIs(h);
    ValIs(h.(l0 := h.l0 + x));
  }

  lemma QuotientSmall(v: int, q: int)
    requires Abs(v, 0x1_0000_0000_0000_0000_0000_0000_0000_0000_0000_0000_0000_0000_0000_0000_0000_0000)
    requires if Misjudged(v) then q == -1 else P * q <= v < P * (q + 1)
    ensures -3 <= q <= 3
  {
  }

  /** Adding 19 q and dropping multiples of 2^255 subtracts q times p. */
  lemma Reduced(v: int, q: int)
    requires if Misjudged(v) then q == -1 else P * q <= v < P * (q + 1)
    ensures (v + 19 * q) % TWO255 == v % P + (if Misjudged(v) then 19 else 0)
  {
    if Misjudged(v) {
      DivModUnique(v, P, -2, v + 2 * P);
      Remainder(v - 19, -2, v - 19 + 2 * TWO255);
    } else {
      DivModUnique(v, P, q, v - P * q);
      Remainder(v + 19 * q, q, v - P * q);
    }
  }

  lemma PackVal(r: Fe)
    requires Digits(r)
    ensures var s := PackLow(r.l0, r.l1, r.l2, r.l3, r.l4) + PackHigh(r.l5, r.l6, r.l7, r.l8, r.l9);
            |s| == 32 && LeVal(s) == Val(r)
  {
    hide Val, PackLow, PackHigh, LeVal;
    ValIs(r);
    PackLowVal(r.l0, r.l1, r.l2, r.l3, r.l4);
    PackHighVal(r.l5, r.l6, r.l7, r.l8, r.l9);
    LeConcat(PackLow(r.l0, r.l1, r.l2, r.l3, r.l4), PackHigh(r.l5, r.l6, r.l7, r.l8, r.l9));
    Pow2Of128();
  }

  lemma Pow2Of128()
    ensures Pow2(128) == 0x1_0000_0000_0000_0000_0000_0000_0000_0000
  {
    hide Pow2;
    Pow2Of8();
    Pow2Add(8, 8);
    Pow2Add(16, 16);
    Pow2Add(32, 32);
    Pow2Add(64, 64);
  }

  /** Multiplication's outputs are never misjudged, so their bytes are canonical. */
  lemma TightIsJudged(h: Fe)
    requires Tight(h)
    ensures Broad(h) && !Misjudged(Val(h))
  {
    hide Val;
    ValIs(h);
  }

  /** The documented bounds do admit a misjudged input: limb 9 = -2^25 and limb 0 = 18 is -p - 1. */
  lemma MisjudgedWithinBounds()
    ensures var h := Fe(18, 0, 0, 0, 0, 0, 0, 0, 0, -0x200_0000); Broad(h) && Val(h) == -P - 1 && Misjudged(Val(h))
  {
    hide Val;
    ValIs(Fe(18, 0, 0, 0, 0, 0, 0, 0, 0, -0x200_0000));
  }

  /** Serialising a parsed string: the identity on canonical strings, reduction of the low 255 bits on all. */
  method RoundTrip(s: seq<byte>) returns (t: seq<byte>)
    requires |s| == 32
    ensures |t| == 32 && LeVal(t) == LeVal(s) % TWO255 % P
    ensures LeVal(s) < P ==> t == s
  {
    hide Val, LeVal, Cong;
    var h := FeFromBytes(s);
    CongIs(Val(h), LeVal(s) % TWO255, P);
    TightIsJudged(h);
    t := FeToBytes(h);
    if LeVal(s) < P {
      LeInjective(t, s);
    }
  }

  /** fe_isnegative: the parity of the residue, flipped on misjudged values. */
  method FeIsNegative(f: Fe) returns (bit: int)
    requires Broad(f)
    ensures bit == (Val(f) % P + (if Misjudged(Val(f)) then 1 else 0)) % 2
  {
    hide Val, And;
    var s := FeToBytes(f);
    LowBit(s[0]);
    bit := And(s[0], 1);
  }

  lemma LowBit(b: byte)
    ensures And(b, 1) == b % 2
  {
    AndMask(b, 1);
  }

  /** fe_isnonzero: right on all of the documented bounds, misjudged values included. */
  method FeIsNonzero(f: Fe) returns (r: int)
    requires Broad(f)
    ensures r == 0 <==> Cong(Val(f), 0, P)
    ensures r == 0 || r == -1
  {
    hide Val, Cong;
    CongIs(Val(f), 0, P);
    var s := FeToBytes(f);
    var zero := seq(32, _ => 0 as byte);
    ZeroString(s, zero);
    r := Verify32(s, zero);
  }

  lemma {:induction false} ZeroString(s: seq<byte>, zero: seq<byte>)
    requires |s| == |zero| && forall i :: 0 <= i < |zero| ==> zero[i] == 0
    ensures LeVal(s) == 0 <==> s == zero
  {
    if |s| > 0 {
      ZeroString(s[1..], zero[1..]);
      assert s == [s[0]] + s[1..] && zero == [zero[0]] + zero[1..];
    }
  }
}
