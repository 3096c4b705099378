/** The two checks on the encoded signature: S is below the group order, R is not on the small-order list. */
module SignatureChecks {
  import opened Bits
  import opened Bytes
  import opened Compare
  import Field25519
  import Scalar

  function OrderBytes(): (b: seq<byte>)
    ensures |b| == 32
  {
    [0xed, 0xd3, 0xf5, 0x5c, 0x1a, 0x63, 0x12, 0x58, 0xd6, 0x9c, 0xf7, 0xa2, 0xde, 0xf9, 0xde, 0x14,
     0x00, 0x00, 0x00, 0x00, 0x00, 0x00, 0x00, 0x00, 0x00, 0x00, 0x00, 0x00, 0x00, 0x00, 0x00, 0x10]
  }

  lemma OrderIs()
    ensures LeVal(OrderBytes()) == Scalar.L
  {
    hide LeVal;
    Le32(OrderBytes());
  }

  /** A mask of all ones or all zeros, as an arithmetic shift right by 8 of a difference of bytes leaves it. */
  function Masked(mask: int, n: byte): byte
    requires mask == 0 || mask == -1
  {
    if mask == -1 then n else 0
  }

  /** One more leading byte decides the comparison. */
  lemma LeadingByte(s: seq<byte>, t: seq<byte>, i: nat)
    requires i < |s| == |t|
    ensures LeVal(s[i..]) < LeVal(t[i..])
            <==> LeVal(s[i + 1..]) < LeVal(t[i + 1..]) || (LeVal(s[i + 1..]) == LeVal(t[i + 1..]) && s[i] < t[i])
    ensures LeVal(s[i..]) == LeVal(t[i..]) <==> LeVal(s[i + 1..]) == LeVal(t[i + 1..]) && s[i] == t[i]
  {
    assert s[i..][1..] == s[i + 1..] && t[i..][1..] == t[i + 1..];
    var a, b := LeVal(s[i + 1..]), LeVal(t[i + 1..]);
    assert LeVal(s[i..]) == s[i] + 256 * a && LeVal(t[i..]) == t[i] + 256 * b;
  }

  /** crypto_sign_check_S_lt_L, from the most significant byte down. */
  method CheckBelowOrder(S: seq<byte>) returns (r: int)
    requires |S| == 32
    ensures r == if LeVal(S) < Scalar.L then 0 else -1
  {
    hide LeVal, Xor, Or, OrderBytes;
    var c: byte, n: byte, i := 0, 1, 32;
    assert S[32..] == OrderBytes()[32..];
    while i != 0
      invariant 0 <= i <= 32 && (c == 0 || c == 1) && (n == 0 || n == 1)
      invariant c == 1 <==> LeVal(S[i..]) < LeVal(OrderBytes()[i..])
      invariant n == 1 <==> LeVal(S[i..]) == LeVal(OrderBytes()[i..])
      decreases i
    {
      i := i - 1;
      LeadingByte(S, OrderBytes(), i);
      c := OrBit(c, Masked((S[i] as int - OrderBytes()[i] as int) / 0x100, n));
      XorIsZero(S[i], OrderBytes()[i]);
      XorBelow(S[i], OrderBytes()[i]);
      n := Masked((Xor(S[i], OrderBytes()[i]) - 1) / 0x100, n);
    }
    assert S[0..] == S && OrderBytes()[0..] == OrderBytes();
    OrderIs();
    r := if c == 0 then -1 else 0;
  }

  method OrBit(c: byte, b: byte) returns (r: byte)
    requires (c == 0 || c == 1) && (b == 0 || b == 1)
    ensures r == if c == 0 && b == 0 then 0 else 1
  {
    assert Or(0, 0) == 0 && Or(0, 1) == 1 && Or(1, 0) == 1 && Or(1, 1) == 1;
    r := Or(c, b);
  }

  lemma XorBelow(x: byte, y: byte)
    ensures Xor(x, y) < 256
  {
    hide Xor;
    Pow2Of8();
    OrXorBelow(x, y, 8);
  }

  // ---------------------------------------------------------------------
  // small_order

  const ORDER8_LOW: int := 2707385501144840649318225287225658788936804267575313519463743609750303402022
  const ORDER8_HIGH: int := 55188659117513257062467267217118295137698188065244968500265048394206261417927

  /** Thirty equal bytes between a first and a last one. */
  function Between(first: byte, middle: byte, last: byte): (b: seq<byte>)
    ensures |b| == 32 && b[0] == first && b[31] == last && forall i :: 1 <= i < 31 ==> b[i] == middle
  {
    [first] + seq(30, _ => middle) + [last]
  }

  const Order8A: seq<byte> :=
    [0x26, 0xe8, 0x95, 0x8f, 0xc2, 0xb2, 0x27, 0xb0, 0x45, 0xc3, 0xf4, 0x89, 0xf2, 0xef, 0x98, 0xf0,
     0xd5, 0xdf, 0xac, 0x05, 0xd3, 0xc6, 0x33, 0x39, 0xb1, 0x38, 0x02, 0x88, 0x6d, 0x53, 0xfc, 0x05]

  const Order8B: seq<byte> :=
    [0xc7, 0x17, 0x6a, 0x70, 0x3d, 0x4d, 0xd8, 0x4f, 0xba, 0x3c, 0x0b, 0x76, 0x0d, 0x10, 0x67, 0x0f,
     0x2a, 0x20, 0x53, 0xfa, 0x2c, 0x39, 0xcc, 0xc6, 0x4e, 0xc7, 0xfd, 0x77, 0x92, 0xac, 0x03, 0x7a]

  const Order8C: seq<byte> :=
    [0x13, 0xe8, 0x95, 0x8f, 0xc2, 0xb2, 0x27, 0xb0, 0x45, 0xc3, 0xf4, 0x89, 0xf2, 0xef, 0x98, 0xf0,
     0xd5, 0xdf, 0xac, 0x05, 0xd3, 0xc6, 0x33, 0x39, 0xb1, 0x38, 0x02, 0x88, 0x6d, 0x53, 0xfc, 0x85]

  const Order8D: seq<byte> :=
    [0xb4, 0x17, 0x6a, 0x70, 0x3d, 0x4d, 0xd8, 0x4f, 0xba, 0x3c, 0x0b, 0x76, 0x0d, 0x10, 0x67, 0x0f,
     0x2a, 0x20, 0x53, 0xfa, 0x2c, 0x39, 0xcc, 0xc6, 0x4e, 0xc7, 0xfd, 0x77, 0x92, 0xac, 0x03, 0xfa]

  /** The i-th entry of the list. */
  function Blacklist(i: nat): (b: seq<byte>)
    requires i < 12
    ensures |b| == 32
  {
    match i
    case 0 => Between(0x00, 0x00, 0x00)
    case 1 => Between(0x01, 0x00, 0x00)
    case 2 => Order8A
    case 3 => Order8B
    case 4 => Order8C
    case 5 => Order8D
    case 6 => Between(0xec, 0xff, 0x7f)
    case 7 => Between(0xed, 0xff, 0x7f)
    case 8 => Between(0xee, 0xff, 0x7f)
    case 9 => Between(0xd9, 0xff, 0xff)
    case 10 => Between(0xda, 0xff, 0xff)
    case _ => Between(0xdb, 0xff, 0xff)
  }

  /** The number at each place of the list. */
  function Listed(i: nat): int
    requires i < 12
  {
    var p := Field25519.P;
    [0, 1, ORDER8_LOW, ORDER8_HIGH, p + ORDER8_LOW, p + ORDER8_HIGH, p - 1, p, p + 1, 2 * p - 1, 2 * p, 2 * p + 1][i]
  }

  /** Five y coordinates of points of small order, and those plus p or 2 p that fit 256 bits. */
  ghost function SmallOrderValues(): set<int>
  {
    set i: nat | i < 12 :: Listed(i)
  }

  lemma BetweenVal(first: byte, middle: byte, last: byte)
    ensures LeVal(Between(first, middle, last))
            == first + 0x1_0101_0101_0101_0101_0101_0101_0101_0101_0101_0101_0101_0101_0101_0101_0100 * middle as int
               + 0x100_0000_0000_0000_0000_0000_0000_0000_0000_0000_0000_0000_0000_0000_0000_0000 * last as int
  {
    hide LeVal, Between, Word;
    var b := Between(first, middle, last);
    BetweenEnds(first, middle, last);
    BetweenWord(first, middle, last, 4);
    BetweenWord(first, middle, last, 8);
    BetweenWord(first, middle, last, 12);
    BetweenWord(first, middle, last, 16);
    BetweenWord(first, middle, last, 20);
    BetweenWord(first, middle, last, 24);
    Le32(b);
  }

  lemma BetweenWord(first: byte, middle: byte, last: byte, k: nat)
    requires 4 <= k <= 24
    ensures Word(Between(first, middle, last), k) == 0x101_0101 * middle as int
  {
    hide Between;
  }

  lemma BetweenEnds(first: byte, middle: byte, last: byte)
    ensures Word(Between(first, middle, last), 0) == first + 0x101_0100 * middle as int
    ensures Word(Between(first, middle, last), 28) == 0x1_0101 * middle as int + 0x100_0000 * last as int
  {
    hide Between;
  }

  lemma Order8Values()
    ensures LeVal(Order8A) == ORDER8_LOW && LeVal(Order8B) == ORDER8_HIGH
  {
    hide LeVal;
    Le32(Order8A);
    Le32(Order8B);
  }

  lemma Order8ShiftedValues()
    ensures LeVal(Order8C) == Field25519.P + ORDER8_LOW && LeVal(Order8D) == Field25519.P + ORDER8_HIGH
  {
    hide LeVal;
    Le32(Order8C);
    Le32(Order8D);
  }

  lemma ListedAt(i: nat)
    requires i < 12
    ensures LeVal(Blacklist(i)) == Listed(i)
  {
    hide LeVal, Between;
    if 2 <= i < 6 {
      Order8Values();
      Order8ShiftedValues();
    } else if i < 2 {
      BetweenVal(i, 0, 0);
    } else if i < 9 {
      BetweenVal(0xec + i - 6, 0xff, 0x7f);
    } else {
      BetweenVal(0xd9 + i - 9, 0xff, 0xff);
    }
  }

  lemma BlacklistValues(R: seq<byte>)
    requires |R| == 32
    ensures (exists i :: 0 <= i < 12 && R == Blacklist(i)) <==> LeVal(R) in SmallOrderValues()
  {
    hide LeVal, Blacklist, Listed;
    forall i: nat | i < 12
      ensures R == Blacklist(i) <==> LeVal(R) == Listed(i)
    {
      ListedAt(i);
      if LeVal(R) == Listed(i) {
        LeInjective(R, Blacklist(i));
      }
    }
  }

  /** small_order: 1 exactly on the listed numbers. */
  method SmallOrder(R: seq<byte>) returns (r: int)
    requires |R| == 32
    ensures r == if LeVal(R) in SmallOrderValues() then 1 else 0
  {
    hide SmallOrderValues, LeVal, Blacklist;
    BlacklistValues(R);
    for i := 0 to 12
      invariant forall k :: 0 <= k < i ==> R != Blacklist(k)
    {
      var b := Blacklist(i);
      var c: byte := 0;
      for j := 0 to 32
        invariant c == 0 <==> R[..j] == b[..j]
      {
        assert R[..j + 1] == R[..j] + [R[j]] && b[..j + 1] == b[..j] + [b[j]];
        c := Differ(c, R[j], b[j]);
      }
      assert R[..32] == R && b[..32] == b;
      if c == 0 {
        return 1;
      }
    }
    return 0;
  }
}
