/** Little-endian byte strings and the multi-byte loads of the curve code. */
module Bytes {
  import opened Bits

  /** The number a byte string stands for, least significant byte first. */
  function LeVal(s: seq<byte>): nat
  {
    if |s| == 0 then 0 else s[0] + 256 * LeVal(s[1..])
  }

  lemma {:induction false} LeValBound(s: seq<byte>)
    ensures LeVal(s) < Pow2(8 * |s|)
  {
    if |s| > 0 {
      LeValBound(s[1..]);
      Pow2Add(8, 8 * |s| - 8);
      Pow2Of8();
    }
  }

  lemma Pow2Of8()
    ensures Pow2(8) == 256
  {
    assert Pow2(4) == 16;
    assert Pow2(8) == 2 * (2 * (2 * (2 * Pow2(4))));
  }

  lemma {:induction false} Pow2Add(n: nat, k: nat)
    ensures Pow2(n + k) == Pow2(n) * Pow2(k)
  {
    if n > 0 {
      Pow2Add(n - 1, k);
      assert Pow2(n) * Pow2(k) == 2 * (Pow2(n - 1) * Pow2(k));
    }
  }

  lemma {:induction false} LeConcat(s: seq<byte>, t: seq<byte>)
    ensures LeVal(s + t) == LeVal(s) + Pow2(8 * |s|) * LeVal(t)
  {
    if |s| == 0 {
      assert s + t == t;
    } else {
      assert (s + t)[1..] == s[1..] + t;
      LeConcat(s[1..], t);
      Pow2Add(8, 8 * |s| - 8);
      Pow2Of8();
      var m, v := Pow2(8 * |s| - 8), LeVal(t);
      assert Pow2(8 * |s|) * v == 256 * (m * v);
    }
  }

  /** Byte strings of one length are equal when they stand for the same number. */
  lemma {:induction false} LeInjective(s: seq<byte>, t: seq<byte>)
    requires |s| == |t| && LeVal(s) == LeVal(t)
    ensures s == t
  {
    if |s| > 0 {
      LeInjective(s[1..], t[1..]);
      assert s == [s[0]] + s[1..] && t == [t[0]] + t[1..];
    }
  }

  /** Four bytes from offset k, as a number. */
  function Word(s: seq<byte>, k: nat): (w: nat)
    requires k + 4 <= |s|
    ensures w < 0x1_0000_0000
  {
    s[k] + 0x100 * s[k + 1] as int + 0x1_0000 * s[k + 2] as int + 0x100_0000 * s[k + 3] as int
  }

  lemma LeWord(s: seq<byte>, k: nat)
    requires k + 4 <= |s|
    ensures LeVal(s[k..]) == Word(s, k) + 0x1_0000_0000 * LeVal(s[k + 4..])
  {
    assert s[k..][1..] == s[k + 1..] && s[k + 1..][1..] == s[k + 2..];
    assert s[k + 2..][1..] == s[k + 3..] && s[k + 3..][1..] == s[k + 4..];
    assert LeVal(s[k..]) == s[k] + 256 * LeVal(s[k + 1..]);
    assert LeVal(s[k + 2..]) == s[k + 2] + 256 * LeVal(s[k + 3..]);
  }

  /** A 16-byte block as four words. */
  lemma LeBlock(s: seq<byte>, k: nat)
    requires k + 16 <= |s|
    ensures LeVal(s[k..]) == Word(s, k) + 0x1_0000_0000 * Word(s, k + 4) + 0x1_0000_0000_0000_0000 * Word(s, k + 8)
                             + 0x1_0000_0000_0000_0000_0000_0000 * Word(s, k + 12)
                             + 0x1_0000_0000_0000_0000_0000_0000_0000_0000 * LeVal(s[k + 16..])
  {
    hide Word, LeVal;
    LeWord(s, k);
    LeWord(s, k + 4);
    LeWord(s, k + 8);
    LeWord(s, k + 12);
  }

  lemma Le32(s: seq<byte>)
    requires |s| == 32
    ensures LeVal(s) == Word(s, 0)
                        + 0x1_0000_0000 * Word(s, 4)
                        + 0x1_0000_0000_0000_0000 * Word(s, 8)
                        + 0x1_0000_0000_0000_0000_0000_0000 * Word(s, 12)
                        + 0x1_0000_0000_0000_0000_0000_0000_0000_0000 * Word(s, 16)
                        + 0x1_0000_0000_0000_0000_0000_0000_0000_0000_0000_0000 * Word(s, 20)
                        + 0x1_0000_0000_0000_0000_0000_0000_0000_0000_0000_0000_0000_0000 * Word(s, 24)
                        + 0x1_0000_0000_0000_0000_0000_0000_0000_0000_0000_0000_0000_0000_0000_0000 * Word(s, 28)
  {
    hide Word;
    LeBlock(s, 0);
    LeBlock(s, 16);
    assert s[0..] == s;
  }

  function Load3(s: seq<byte>, k: nat): (r: nat)
    requires k + 3 <= |s|
    ensures r == s[k] + 0x100 * s[k + 1] as int + 0x1_0000 * s[k + 2] as int
  {
    OrBytes(s[k], s[k + 1], s[k + 2], 0);
    Or(Or(s[k], 0x100 * s[k + 1] as int), 0x1_0000 * s[k + 2] as int)
  }

  function Load4(s: seq<byte>, k: nat): (r: nat)
    requires k + 4 <= |s|
    ensures r == Word(s, k)
  {
    OrBytes(s[k], s[k + 1], s[k + 2], s[k + 3]);
    Or(Or(Or(s[k], 0x100 * s[k + 1] as int), 0x1_0000 * s[k + 2] as int), 0x100_0000 * s[k + 3] as int)
  }

  lemma OrBytes(a: byte, b: byte, c: byte, d: byte)
    ensures Or(a, 0x100 * b) == a + 0x100 * b
    ensures Or(a + 0x100 * b, 0x1_0000 * c) == a + 0x100 * b + 0x1_0000 * c
    ensures Or(a + 0x100 * b + 0x1_0000 * c, 0x100_0000 * d) == a + 0x100 * b + 0x1_0000 * c + 0x100_0000 * d
  {
    hide Or;
    Pow2Of8();
    Pow2Add(8, 8);
    Pow2Add(8, 16);
    OrDisjoint(a, b, 8);
    OrDisjoint(a + 0x100 * b, c, 16);
    OrDisjoint(a + 0x100 * b + 0x1_0000 * c, d, 24);
  }

  // ---------------------------------------------------------------------
  // Packing limbs into bytes: the byte at a shift, the bits above it, and the
  // byte that the top of one limb shares with the bottom of the next.

  function ByteAt(h: nat, d: nat): byte
    requires d > 0
  {
    h / d % 256
  }

  function Top(h: nat, d: nat): nat
    requires d > 0
  {
    h / d
  }

  function Join(h: nat, d: nat, c: nat, next: nat): byte
    requires d > 0
  {
    Or(h / d, c * next) % 256
  }

  /** One whole byte above the low part of a limb. */
  lemma Cut1(h: nat, a: nat) returns (lo: nat, b: nat, top: nat)
    requires a > 0
    ensures b == ByteAt(h, a) && top == Top(h, 256 * a) && (a == 256 ==> lo == ByteAt(h, 1))
    ensures top < 256 ==> top == ByteAt(h, 256 * a)
    ensures lo < a && b < 256 && h == lo + a * b + 256 * a * top
  {
    DivDiv(h, a, 256);
    lo, b, top := h % a, h / a % 256, h / a / 256;
    MulSplit(a, 256, top, b);
  }

  /** Two whole bytes above the low part of a limb. */
  lemma Cut2(h: nat, a: nat) returns (lo: nat, b1: nat, b2: nat, top: nat)
    requires a > 0
    ensures b1 == ByteAt(h, a) && b2 == ByteAt(h, 256 * a) && top == Top(h, 0x1_0000 * a)
    ensures a == 256 ==> lo == ByteAt(h, 1)
    ensures top < 256 ==> top == ByteAt(h, 0x1_0000 * a)
    ensures lo < a && b1 < 256 && b2 < 256 && h == lo + a * b1 + 256 * a * b2 + 0x1_0000 * a * top
  {
    var rest;
    lo, b1, rest := Cut1(h, a);
    DivDiv(h, 256 * a, 256);
    b2, top := rest % 256, rest / 256;
    MulSplit(256 * a, 256, top, b2);
  }

  lemma Shared(h: nat, d: nat, top: nat, c: nat, k: nat, next: nat, lo: nat, rest: nat)
    requires d > 0 && top == Top(h, d)
    requires k <= 8 && c == Pow2(k) && top < c && next == lo + Pow2(8 - k) * rest && lo < Pow2(8 - k)
    ensures Join(h, d, c, next) == top + c * lo
  {
    hide Or;
    OrDisjoint(top, next, k);
    Pow2Add(k, 8 - k);
    Pow2Of8();
    var e := Pow2(8 - k);
    assert c * next == c * lo + 256 * rest by { Spread(c, e, rest, lo); }
    MulBelow(c, lo, e);
    DivModUnique(top + c * next, 256, rest, top + c * lo);
  }

  lemma Spread(a: nat, b: nat, q: nat, r: nat)
    requires a * b == 256
    ensures a * (r + b * q) == a * r + 256 * q
  {
    assert a * (b * q) == (a * b) * q;
  }

  lemma MulBelow(a: nat, r: nat, b: nat)
    requires r < b && a * b == 256
    ensures a * r + a <= 256
  {
    assert a * (r + 1) <= a * b;
  }

  lemma SmallPowers()
    ensures Pow2(0) == 1 && Pow2(1) == 2 && Pow2(2) == 4 && Pow2(3) == 8 && Pow2(4) == 16
    ensures Pow2(5) == 32 && Pow2(6) == 64 && Pow2(7) == 128 && Pow2(8) == 256
  {
    assert Pow2(3) == 8;
    assert Pow2(5) == 32;
    assert Pow2(7) == 128;
  }

  lemma EmptyVal(s: seq<byte>)
    requires s == []
    ensures LeVal(s) == 0
  {
  }
}
