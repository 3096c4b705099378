/**
 The Sigma functions of section 4.1.3 of FIPS 180-4: linear over exclusive or, the big ones
 commute with rotation, and the images of two bits.
 */
module Sha512Sigma {
  import opened Sha512Spec

  lemma XorOfXors(a: bv64, b: bv64, c: bv64)
    ensures Xor(a ^ b, c) == Xor(a, b ^ c)
  {
  }

  lemma XorIs(a: bv64, b: bv64)
    ensures Xor(a, b) == a ^ b
  {
  }

  lemma XorAssoc(a: bv64, b: bv64, c: bv64)
    ensures Xor(Xor(a, b), c) == Xor(a, Xor(b, c))
  {
    hide Xor;
    XorIs(a, b);
    XorIs(b, c);
    XorOfXors(a, b, c);
  }

  lemma XorComm(a: bv64, b: bv64)
    ensures Xor(a, b) == Xor(b, a)
  {
  }

  lemma XorPairs(a: bv64, b: bv64, c: bv64, d: bv64)
    ensures Xor(Xor(a, b), Xor(c, d)) == Xor(Xor(a, c), Xor(b, d))
  {
    hide Xor;
    XorAssoc(a, b, Xor(c, d));
    XorAssoc(b, c, d);
    XorComm(b, c);
    XorAssoc(c, b, d);
    XorAssoc(a, c, Xor(b, d));
  }

  lemma XorTriples(a: bv64, b: bv64, c: bv64, d: bv64, e: bv64, f: bv64)
    ensures Xor(Xor(Xor(a, b), Xor(c, d)), Xor(e, f)) == Xor(Xor(Xor(a, c), e), Xor(Xor(b, d), f))
  {
    hide Xor;
    XorPairs(a, b, c, d);
    XorPairs(Xor(a, c), Xor(b, d), e, f);
  }

  lemma Rotr1(x: bv64, y: bv64)
    ensures Rotr(Xor(x, y), 1) == Xor(Rotr(x, 1), Rotr(y, 1))
  {
  }

  lemma Rotr8(x: bv64, y: bv64)
    ensures Rotr(Xor(x, y), 8) == Xor(Rotr(x, 8), Rotr(y, 8))
  {
  }

  lemma Rotr14(x: bv64, y: bv64)
    ensures Rotr(Xor(x, y), 14) == Xor(Rotr(x, 14), Rotr(y, 14))
  {
  }

  lemma Turn14(x: bv64)
    ensures Rotr(Rotr(x, 1), 14) == Rotr(Rotr(x, 14), 1)
  {
    assert Rotr(Rotr(x, 1), 14) == Rotr((x >> 1) | (x << 63), 14);
    assert Rotr((x >> 1) | (x << 63), 14) == Rotr((x >> 14) | (x << 50), 1);
    assert Rotr((x >> 14) | (x << 50), 1) == Rotr(Rotr(x, 14), 1);
  }

  lemma Rotr18(x: bv64, y: bv64)
    ensures Rotr(Xor(x, y), 18) == Xor(Rotr(x, 18), Rotr(y, 18))
  {
  }

  lemma Turn18(x: bv64)
    ensures Rotr(Rotr(x, 1), 18) == Rotr(Rotr(x, 18), 1)
  {
    assert Rotr(Rotr(x, 1), 18) == Rotr((x >> 1) | (x << 63), 18);
    assert Rotr((x >> 1) | (x << 63), 18) == Rotr((x >> 18) | (x << 46), 1);
    assert Rotr((x >> 18) | (x << 46), 1) == Rotr(Rotr(x, 18), 1);
  }

  lemma Rotr19(x: bv64, y: bv64)
    ensures Rotr(Xor(x, y), 19) == Xor(Rotr(x, 19), Rotr(y, 19))
  {
  }

  lemma Rotr28(x: bv64, y: bv64)
    ensures Rotr(Xor(x, y), 28) == Xor(Rotr(x, 28), Rotr(y, 28))
  {
  }

  lemma Turn28(x: bv64)
    ensures Rotr(Rotr(x, 1), 28) == Rotr(Rotr(x, 28), 1)
  {
    assert Rotr(Rotr(x, 1), 28) == Rotr((x >> 1) | (x << 63), 28);
    assert Rotr((x >> 1) | (x << 63), 28) == Rotr((x >> 28) | (x << 36), 1);
    assert Rotr((x >> 28) | (x << 36), 1) == Rotr(Rotr(x, 28), 1);
  }

  lemma Rotr34(x: bv64, y: bv64)
    ensures Rotr(Xor(x, y), 34) == Xor(Rotr(x, 34), Rotr(y, 34))
  {
  }

  lemma Turn34(x: bv64)
    ensures Rotr(Rotr(x, 1), 34) == Rotr(Rotr(x, 34), 1)
  {
    assert Rotr(Rotr(x, 1), 34) == Rotr((x >> 1) | (x << 63), 34);
    assert Rotr((x >> 1) | (x << 63), 34) == Rotr((x >> 34) | (x << 30), 1);
    assert Rotr((x >> 34) | (x << 30), 1) == Rotr(Rotr(x, 34), 1);
  }

  lemma Rotr39(x: bv64, y: bv64)
    ensures Rotr(Xor(x, y), 39) == Xor(Rotr(x, 39), Rotr(y, 39))
  {
  }

  lemma Turn39(x: bv64)
    ensures Rotr(Rotr(x, 1), 39) == Rotr(Rotr(x, 39), 1)
  {
    assert Rotr(Rotr(x, 1), 39) == Rotr((x >> 1) | (x << 63), 39);
    assert Rotr((x >> 1) | (x << 63), 39) == Rotr((x >> 39) | (x << 25), 1);
    assert Rotr((x >> 39) | (x << 25), 1) == Rotr(Rotr(x, 39), 1);
  }

  lemma Rotr41(x: bv64, y: bv64)
    ensures Rotr(Xor(x, y), 41) == Xor(Rotr(x, 41), Rotr(y, 41))
  {
  }

  lemma Turn41(x: bv64)
    ensures Rotr(Rotr(x, 1), 41) == Rotr(Rotr(x, 41), 1)
  {
    assert Rotr(Rotr(x, 1), 41) == Rotr((x >> 1) | (x << 63), 41);
    assert Rotr((x >> 1) | (x << 63), 41) == Rotr((x >> 41) | (x << 23), 1);
    assert Rotr((x >> 41) | (x << 23), 1) == Rotr(Rotr(x, 41), 1);
  }

  lemma Rotr61(x: bv64, y: bv64)
    ensures Rotr(Xor(x, y), 61) == Xor(Rotr(x, 61), Rotr(y, 61))
  {
  }

  lemma Shr7(x: bv64, y: bv64)
    ensures Shr(Xor(x, y), 7) == Xor(Shr(x, 7), Shr(y, 7))
  {
  }

  lemma Shr6(x: bv64, y: bv64)
    ensures Shr(Xor(x, y), 6) == Xor(Shr(x, 6), Shr(y, 6))
  {
  }

  lemma BigSigma0Linear(x: bv64, y: bv64)
    ensures BigSigma0(Xor(x, y)) == Xor(BigSigma0(x), BigSigma0(y))
  {
    hide Rotr, Shr, Xor;
    Rotr28(x, y);
    Rotr34(x, y);
    Rotr39(x, y);
    XorTriples(Rotr(x, 28), Rotr(y, 28), Rotr(x, 34), Rotr(y, 34), Rotr(x, 39), Rotr(y, 39));
  }

  lemma BigSigma0Turns(x: bv64)
    ensures BigSigma0(Rotr(x, 1)) == Rotr(BigSigma0(x), 1)
  {
    hide Rotr, Xor;
    Turn28(x);
    Turn34(x);
    Turn39(x);
    Rotr1(Rotr(x, 28), Rotr(x, 34));
    Rotr1(Xor(Rotr(x, 28), Rotr(x, 34)), Rotr(x, 39));
  }

  lemma BigSigma1Linear(x: bv64, y: bv64)
    ensures BigSigma1(Xor(x, y)) == Xor(BigSigma1(x), BigSigma1(y))
  {
    hide Rotr, Shr, Xor;
    Rotr14(x, y);
    Rotr18(x, y);
    Rotr41(x, y);
    XorTriples(Rotr(x, 14), Rotr(y, 14), Rotr(x, 18), Rotr(y, 18), Rotr(x, 41), Rotr(y, 41));
  }

  lemma BigSigma1Turns(x: bv64)
    ensures BigSigma1(Rotr(x, 1)) == Rotr(BigSigma1(x), 1)
  {
    hide Rotr, Xor;
    Turn14(x);
    Turn18(x);
    Turn41(x);
    Rotr1(Rotr(x, 14), Rotr(x, 18));
    Rotr1(Xor(Rotr(x, 14), Rotr(x, 18)), Rotr(x, 41));
  }

  lemma SmallSigma0Linear(x: bv64, y: bv64)
    ensures SmallSigma0(Xor(x, y)) == Xor(SmallSigma0(x), SmallSigma0(y))
  {
    hide Rotr, Shr, Xor;
    Rotr1(x, y);
    Rotr8(x, y);
    Shr7(x, y);
    XorTriples(Rotr(x, 1), Rotr(y, 1), Rotr(x, 8), Rotr(y, 8), Shr(x, 7), Shr(y, 7));
  }

  lemma SmallSigma1Linear(x: bv64, y: bv64)
    ensures SmallSigma1(Xor(x, y)) == Xor(SmallSigma1(x), SmallSigma1(y))
  {
    hide Rotr, Shr, Xor;
    Rotr19(x, y);
    Rotr61(x, y);
    Shr6(x, y);
    XorTriples(Rotr(x, 19), Rotr(y, 19), Rotr(x, 61), Rotr(y, 61), Shr(x, 6), Shr(y, 6));
  }

  /** Section 4.1.3: where the lowest and the highest bit go. A rotation keeps the lowest, a shift drops it. */
  lemma BitImages()
    ensures BigSigma0(1) == 0x0000_0010_4200_0000 && BigSigma0(0x8000_0000_0000_0000) == 0x0000_0008_2100_0000
    ensures BigSigma1(1) == 0x0004_4000_0080_0000 && BigSigma1(0x8000_0000_0000_0000) == 0x0002_2000_0040_0000
    ensures SmallSigma0(1) == 0x8100_0000_0000_0000 && SmallSigma0(0x8000_0000_0000_0000) == 0x4180_0000_0000_0000
    ensures SmallSigma1(1) == 0x0000_2000_0000_0008 && SmallSigma1(0x8000_0000_0000_0000) == 0x0200_1000_0000_0004
  {
  }
}
