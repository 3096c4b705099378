/**
 The digest of "abc", the one-block example that NIST publishes with FIPS 180-4, worked out
 from the definition: padding, schedule, rounds, feed-forward and output.
 */
module Sha512Example {
  import opened Sha512Spec
  import opened Sha512Impl

  function Abc(): seq<bv8> { [0x61, 0x62, 0x63] }

  function AbcBlock(): Block { Abc() + [0x80] + Zeros(123) + [0x18] }

  lemma PadAbc()
    ensures Pad(Abc()) == AbcBlock()
  {
    hide Zeros, BigEndian;
    LengthOfAbc();
    ZeroOctets(15);
    TwoRuns(108, 15);
  }

  lemma LengthOfAbc()
    ensures BigEndian(24, 16) == BigEndian(0, 15) + [0x18]
  {
    hide BigEndian;
    LastOctet(24, 16);
  }

  lemma LastOctet(x: nat, n: nat)
    requires x < 256 && n > 0
    ensures BigEndian(x, n) == BigEndian(0, n - 1) + [(x % 256) as bv8]
  {
  }

  lemma TwoRuns(n: nat, k: nat)
    ensures Zeros(n) + Zeros(k) == Zeros(n + k)
  {
  }

  lemma {:induction false} ZeroOctets(n: nat)
    ensures BigEndian(0, n) == Zeros(n)
  {
    if n > 0 {
      ZeroOctets(n - 1);
    }
  }

  ghost function Word(t: nat): bv64
    requires t < 80
  {
    Schedule(AbcBlock(), 80)[t]
  }

  lemma WordIs(t: nat)
    requires t < 80
    ensures t < 16 ==> Word(t) == WordAt(AbcBlock(), t)
    ensures t >= 16 ==>
              Word(t) == Add(Add(Add(SmallSigma1(Word(t - 2)), Word(t - 7)), SmallSigma0(Word(t - 15))), Word(t - 16))
  {
    hide SmallSigma0, SmallSigma1, WordAt, Add, AbcBlock;
    var b := AbcBlock();
    SchedulePrefix(b, t + 1, 80);
    SchedulePrefix(b, t, 80);
    assert Schedule(b, 80)[t] == Schedule(b, 80)[..t + 1][t];
    if t >= 16 {
      ScheduleNext(b, Schedule(b, 80), t);
    }
  }

  lemma NextWord(t: nat, w2: bv64, w7: bv64, w15: bv64, w16: bv64, w: bv64)
    requires 16 <= t < 80 && Word(t - 2) == w2 && Word(t - 7) == w7 && Word(t - 15) == w15 && Word(t - 16) == w16
    requires Add(Add(Add(SmallSigma1(w2), w7), SmallSigma0(w15)), w16) == w
    ensures Word(t) == w
  {
    hide Word, SmallSigma0, SmallSigma1, Add;
    WordIs(t);
  }

  ghost predicate After(t: nat, v: Working)
    requires t <= 80
  {
    Rounds(InitialState(), AbcBlock(), t) == v
  }

  /** Four rounds from round t on, with the a and e that each of them makes. */
  lemma FourRounds(t: nat, a: bv64, b: bv64, c: bv64, d: bv64, e: bv64, f: bv64, g: bv64, h: bv64,
                   k0: bv64, k1: bv64, k2: bv64, k3: bv64, w0: bv64, w1: bv64, w2: bv64, w3: bv64,
                   a0: bv64, a1: bv64, a2: bv64, a3: bv64, e0: bv64, e1: bv64, e2: bv64, e3: bv64)
    requires t + 4 <= 80 && After(t, Working(a, b, c, d, e, f, g, h))
    requires KTable()[t] == k0 && KTable()[t + 1] == k1 && KTable()[t + 2] == k2 && KTable()[t + 3] == k3
    requires Word(t) == w0 && Word(t + 1) == w1 && Word(t + 2) == w2 && Word(t + 3) == w3
    requires Round(Working(a, b, c, d, e, f, g, h), k0, w0) == Working(a0, a, b, c, e0, e, f, g)
    requires Round(Working(a0, a, b, c, e0, e, f, g), k1, w1) == Working(a1, a0, a, b, e1, e0, e, f)
    requires Round(Working(a1, a0, a, b, e1, e0, e, f), k2, w2) == Working(a2, a1, a0, a, e2, e1, e0, e)
    requires Round(Working(a2, a1, a0, a, e2, e1, e0, e), k3, w3) == Working(a3, a2, a1, a0, e3, e2, e1, e0)
    ensures After(t + 4, Working(a3, a2, a1, a0, e3, e2, e1, e0))
  {
    hide KTable, Schedule, Round, AbcBlock, InitialState;
    assert After(t + 1, Working(a0, a, b, c, e0, e, f, g));
    assert After(t + 2, Working(a1, a0, a, b, e1, e0, e, f));
    assert After(t + 3, Working(a2, a1, a0, a, e2, e1, e0, e));
  }

  lemma NoRound()
    ensures After(0, Working(0x6a09e667f3bcc908, 0xbb67ae8584caa73b, 0x3c6ef372fe94f82b, 0xa54ff53a5f1d36f1,
                             0x510e527fade682d1, 0x9b05688c2b3e6c1f, 0x1f83d9abfb41bd6b, 0x5be0cd19137e2179))
  {
  }

  lemma BlockWords(b: Block)
    requires b == AbcBlock()
    ensures WordAt(b, 0) == 0x6162638000000000 && WordAt(b, 15) == 0x18
    ensures forall t :: 1 <= t < 15 ==> WordAt(b, t) == 0
  {
  }

  lemma Words0()
    ensures Word(0) == 0x6162638000000000 && Word(1) == 0x0000000000000000 && Word(2) == 0x0000000000000000
            && Word(3) == 0x0000000000000000
    ensures Word(4) == 0x0000000000000000 && Word(5) == 0x0000000000000000 && Word(6) == 0x0000000000000000
            && Word(7) == 0x0000000000000000
    ensures Word(8) == 0x0000000000000000 && Word(9) == 0x0000000000000000 && Word(10) == 0x0000000000000000
            && Word(11) == 0x0000000000000000
    ensures Word(12) == 0x0000000000000000 && Word(13) == 0x0000000000000000 && Word(14) == 0x0000000000000000
            && Word(15) == 0x0000000000000018
  {
    hide Word;
    BlockWords(AbcBlock());
    forall t: nat | t < 16
      ensures Word(t) == WordAt(AbcBlock(), t)
    {
      WordIs(t);
    }
  }

  lemma Words16()
    ensures Word(16) == 0x6162638000000000 && Word(17) == 0x00030000000000c0 && Word(18) == 0x0a9699a24c700003
            && Word(19) == 0x00000c0060000603
    ensures Word(20) == 0x549ef62639858996 && Word(21) == 0x00c0003300003c00 && Word(22) == 0x1497007a8a0e9dbc
            && Word(23) == 0x62e56500cc0780f0
  {
    hide Word;
    Words0();
    NextWord(16, 0x0000000000000000, 0x0000000000000000, 0x0000000000000000, 0x6162638000000000, 0x6162638000000000);
    NextWord(17, 0x0000000000000018, 0x0000000000000000, 0x0000000000000000, 0x0000000000000000, 0x00030000000000c0);
    NextWord(18, 0x6162638000000000, 0x0000000000000000, 0x0000000000000000, 0x0000000000000000, 0x0a9699a24c700003);
    NextWord(19, 0x00030000000000c0, 0x0000000000000000, 0x0000000000000000, 0x0000000000000000, 0x00000c0060000603);
    NextWord(20, 0x0a9699a24c700003, 0x0000000000000000, 0x0000000000000000, 0x0000000000000000, 0x549ef62639858996);
    NextWord(21, 0x00000c0060000603, 0x0000000000000000, 0x0000000000000000, 0x0000000000000000, 0x00c0003300003c00);
    NextWord(22, 0x549ef62639858996, 0x0000000000000018, 0x0000000000000000, 0x0000000000000000, 0x1497007a8a0e9dbc);
    NextWord(23, 0x00c0003300003c00, 0x6162638000000000, 0x0000000000000000, 0x0000000000000000, 0x62e56500cc0780f0);
  }

  lemma Words24()
    ensures Word(24) == 0x7760dd475a538797 && Word(25) == 0xf1554b711c1c0003 && Word(26) == 0xca2993a4345d9ff2
            && Word(27) == 0x5e0e66b5c783dd32
    ensures Word(28) == 0xe25a625d00494b62 && Word(29) == 0x9f44486fb1e4fbd2 && Word(30) == 0xb31b8c2b06085f2f
            && Word(31) == 0x0e987660934142f6
  {
    hide Word;
    Words0();
    Words16();
    NextWord(24, 0x1497007a8a0e9dbc, 0x00030000000000c0, 0x0000000000000000, 0x0000000000000000, 0x7760dd475a538797);
    NextWord(25, 0x62e56500cc0780f0, 0x0a9699a24c700003, 0x0000000000000000, 0x0000000000000000, 0xf1554b711c1c0003);
    NextWord(26, 0x7760dd475a538797, 0x00000c0060000603, 0x0000000000000000, 0x0000000000000000, 0xca2993a4345d9ff2);
    NextWord(27, 0xf1554b711c1c0003, 0x549ef62639858996, 0x0000000000000000, 0x0000000000000000, 0x5e0e66b5c783dd32);
    NextWord(28, 0xca2993a4345d9ff2, 0x00c0003300003c00, 0x0000000000000000, 0x0000000000000000, 0xe25a625d00494b62);
    NextWord(29, 0x5e0e66b5c783dd32, 0x1497007a8a0e9dbc, 0x0000000000000000, 0x0000000000000000, 0x9f44486fb1e4fbd2);
    NextWord(30, 0xe25a625d00494b62, 0x62e56500cc0780f0, 0x0000000000000018, 0x0000000000000000, 0xb31b8c2b06085f2f);
    NextWord(31, 0x9f44486fb1e4fbd2, 0x7760dd475a538797, 0x6162638000000000, 0x0000000000000018, 0x0e987660934142f6);
  }

  lemma Words32()
    ensures Word(32) == 0xa4af2cfd09fbb924 && Word(33) == 0xad289e2e0bd53186 && Word(34) == 0x3c74563aa2f9673e
            && Word(35) == 0x6ccdcd14cc14b53f
    ensures Word(36) == 0xc3f925b337f22bde && Word(37) == 0x5bcc77a75ad95b54 && Word(38) == 0x3ec2257adca09a52
            && Word(39) == 0x28246960001fc5eb
  {
    hide Word;
    Words16();
    Words24();
    NextWord(32, 0xb31b8c2b06085f2f, 0xf1554b711c1c0003, 0x00030000000000c0, 0x6162638000000000, 0xa4af2cfd09fbb924);
    NextWord(33, 0x0e987660934142f6, 0xca2993a4345d9ff2, 0x0a9699a24c700003, 0x00030000000000c0, 0xad289e2e0bd53186);
    NextWord(34, 0xa4af2cfd09fbb924, 0x5e0e66b5c783dd32, 0x00000c0060000603, 0x0a9699a24c700003, 0x3c74563aa2f9673e);
    NextWord(35, 0xad289e2e0bd53186, 0xe25a625d00494b62, 0x549ef62639858996, 0x00000c0060000603, 0x6ccdcd14cc14b53f);
    NextWord(36, 0x3c74563aa2f9673e, 0x9f44486fb1e4fbd2, 0x00c0003300003c00, 0x549ef62639858996, 0xc3f925b337f22bde);
    NextWord(37, 0x6ccdcd14cc14b53f, 0xb31b8c2b06085f2f, 0x1497007a8a0e9dbc, 0x00c0003300003c00, 0x5bcc77a75ad95b54);
    NextWord(38, 0xc3f925b337f22bde, 0x0e987660934142f6, 0x62e56500cc0780f0, 0x1497007a8a0e9dbc, 0x3ec2257adca09a52);
    NextWord(39, 0x5bcc77a75ad95b54, 0xa4af2cfd09fbb924, 0x7760dd475a538797, 0x62e56500cc0780f0, 0x28246960001fc5eb);
  }

  lemma Words40()
    ensures Word(40) == 0x04e33a75ce2be88a && Word(41) == 0x7d5314b3c359e0e7 && Word(42) == 0xaef7a285ff251266
            && Word(43) == 0x0b8472581deea04f
    ensures Word(44) == 0xb174e26eddc7b033 && Word(45) == 0x5d63bae58ddd88de && Word(46) == 0x4c044007b744ccbb
            && Word(47) == 0xe6a9aa4d74dc7d43
  {
    hide Word;
    Words24();
    Words32();
    NextWord(40, 0x3ec2257adca09a52, 0xad289e2e0bd53186, 0xf1554b711c1c0003, 0x7760dd475a538797, 0x04e33a75ce2be88a);
    NextWord(41, 0x28246960001fc5eb, 0x3c74563aa2f9673e, 0xca2993a4345d9ff2, 0xf1554b711c1c0003, 0x7d5314b3c359e0e7);
    NextWord(42, 0x04e33a75ce2be88a, 0x6ccdcd14cc14b53f, 0x5e0e66b5c783dd32, 0xca2993a4345d9ff2, 0xaef7a285ff251266);
    NextWord(43, 0x7d5314b3c359e0e7, 0xc3f925b337f22bde, 0xe25a625d00494b62, 0x5e0e66b5c783dd32, 0x0b8472581deea04f);
    NextWord(44, 0xaef7a285ff251266, 0x5bcc77a75ad95b54, 0x9f44486fb1e4fbd2, 0xe25a625d00494b62, 0xb174e26eddc7b033);
    NextWord(45, 0x0b8472581deea04f, 0x3ec2257adca09a52, 0xb31b8c2b06085f2f, 0x9f44486fb1e4fbd2, 0x5d63bae58ddd88de);
    NextWord(46, 0xb174e26eddc7b033, 0x28246960001fc5eb, 0x0e987660934142f6, 0xb31b8c2b06085f2f, 0x4c044007b744ccbb);
    NextWord(47, 0x5d63bae58ddd88de, 0x04e33a75ce2be88a, 0xa4af2cfd09fbb924, 0x0e987660934142f6, 0xe6a9aa4d74dc7d43);
  }

  lemma Words48()
    ensures Word(48) == 0xebeaf1237248019c && Word(49) == 0x361e80b2d00f3193 && Word(50) == 0x2e9839125df3b175
            && Word(51) == 0x3319629293ad5363
    ensures Word(52) == 0x9cbc5d89ac1b89d5 && Word(53) == 0x275e23ffeeca50b7 && Word(54) == 0x3b80d680bf69ef58
            && Word(55) == 0x0d0696933945a125
  {
    hide Word;
    Words32();
    Words40();
    NextWord(48, 0x4c044007b744ccbb, 0x7d5314b3c359e0e7, 0xad289e2e0bd53186, 0xa4af2cfd09fbb924, 0xebeaf1237248019c);
    NextWord(49, 0xe6a9aa4d74dc7d43, 0xaef7a285ff251266, 0x3c74563aa2f9673e, 0xad289e2e0bd53186, 0x361e80b2d00f3193);
    NextWord(50, 0xebeaf1237248019c, 0x0b8472581deea04f, 0x6ccdcd14cc14b53f, 0x3c74563aa2f9673e, 0x2e9839125df3b175);
    NextWord(51, 0x361e80b2d00f3193, 0xb174e26eddc7b033, 0xc3f925b337f22bde, 0x6ccdcd14cc14b53f, 0x3319629293ad5363);
    NextWord(52, 0x2e9839125df3b175, 0x5d63bae58ddd88de, 0x5bcc77a75ad95b54, 0xc3f925b337f22bde, 0x9cbc5d89ac1b89d5);
    NextWord(53, 0x3319629293ad5363, 0x4c044007b744ccbb, 0x3ec2257adca09a52, 0x5bcc77a75ad95b54, 0x275e23ffeeca50b7);
    NextWord(54, 0x9cbc5d89ac1b89d5, 0xe6a9aa4d74dc7d43, 0x28246960001fc5eb, 0x3ec2257adca09a52, 0x3b80d680bf69ef58);
    NextWord(55, 0x275e23ffeeca50b7, 0xebeaf1237248019c, 0x04e33a75ce2be88a, 0x28246960001fc5eb, 0x0d0696933945a125);
  }

  lemma Words56()
    ensures Word(56) == 0x7533eabcb786ff00 && Word(57) == 0xb89826cee6fbf0e5 && Word(58) == 0x249b4fbcad623e9f
            && Word(59) == 0x4aea9df2b02d6f1e
    ensures Word(60) == 0x2cc57475a55e8d8f && Word(61) == 0xb2574ae938d8be89 && Word(62) == 0xc1b35a57b16d6aea
            && Word(63) == 0xcc4918b5949206bb
  {
    hide Word;
    Words40();
    Words48();
    NextWord(56, 0x3b80d680bf69ef58, 0x361e80b2d00f3193, 0x7d5314b3c359e0e7, 0x04e33a75ce2be88a, 0x7533eabcb786ff00);
    NextWord(57, 0x0d0696933945a125, 0x2e9839125df3b175, 0xaef7a285ff251266, 0x7d5314b3c359e0e7, 0xb89826cee6fbf0e5);
    NextWord(58, 0x7533eabcb786ff00, 0x3319629293ad5363, 0x0b8472581deea04f, 0xaef7a285ff251266, 0x249b4fbcad623e9f);
    NextWord(59, 0xb89826cee6fbf0e5, 0x9cbc5d89ac1b89d5, 0xb174e26eddc7b033, 0x0b8472581deea04f, 0x4aea9df2b02d6f1e);
    NextWord(60, 0x249b4fbcad623e9f, 0x275e23ffeeca50b7, 0x5d63bae58ddd88de, 0xb174e26eddc7b033, 0x2cc57475a55e8d8f);
    NextWord(61, 0x4aea9df2b02d6f1e, 0x3b80d680bf69ef58, 0x4c044007b744ccbb, 0x5d63bae58ddd88de, 0xb2574ae938d8be89);
    NextWord(62, 0x2cc57475a55e8d8f, 0x0d0696933945a125, 0xe6a9aa4d74dc7d43, 0x4c044007b744ccbb, 0xc1b35a57b16d6aea);
    NextWord(63, 0xb2574ae938d8be89, 0x7533eabcb786ff00, 0xebeaf1237248019c, 0xe6a9aa4d74dc7d43, 0xcc4918b5949206bb);
  }

  lemma Words64()
    ensures Word(64) == 0x5099c3add79f90ec && Word(65) == 0x5ea81d78e7660bf1 && Word(66) == 0xebee6267405ac2a9
            && Word(67) == 0xb01f21926108a4ab
    ensures Word(68) == 0x786433dd2fe65556 && Word(69) == 0xc54a6eaa24a0552c && Word(70) == 0xb3c8f1530bdbaa9e
            && Word(71) == 0xbb8abfe56f469338
  {
    hide Word;
    Words48();
    Words56();
    NextWord(64, 0xc1b35a57b16d6aea, 0xb89826cee6fbf0e5, 0x361e80b2d00f3193, 0xebeaf1237248019c, 0x5099c3add79f90ec);
    NextWord(65, 0xcc4918b5949206bb, 0x249b4fbcad623e9f, 0x2e9839125df3b175, 0x361e80b2d00f3193, 0x5ea81d78e7660bf1);
    NextWord(66, 0x5099c3add79f90ec, 0x4aea9df2b02d6f1e, 0x3319629293ad5363, 0x2e9839125df3b175, 0xebee6267405ac2a9);
    NextWord(67, 0x5ea81d78e7660bf1, 0x2cc57475a55e8d8f, 0x9cbc5d89ac1b89d5, 0x3319629293ad5363, 0xb01f21926108a4ab);
    NextWord(68, 0xebee6267405ac2a9, 0xb2574ae938d8be89, 0x275e23ffeeca50b7, 0x9cbc5d89ac1b89d5, 0x786433dd2fe65556);
    NextWord(69, 0xb01f21926108a4ab, 0xc1b35a57b16d6aea, 0x3b80d680bf69ef58, 0x275e23ffeeca50b7, 0xc54a6eaa24a0552c);
    NextWord(70, 0x786433dd2fe65556, 0xcc4918b5949206bb, 0x0d0696933945a125, 0x3b80d680bf69ef58, 0xb3c8f1530bdbaa9e);
    NextWord(71, 0xc54a6eaa24a0552c, 0x5099c3add79f90ec, 0x7533eabcb786ff00, 0x0d0696933945a125, 0xbb8abfe56f469338);
  }

  lemma Words72()
    ensures Word(72) == 0xf63d4265cc1c5a78 && Word(73) == 0xbe8355ea73129afb && Word(74) == 0x49e2db8ebdcfbeb5
            && Word(75) == 0x82269d4a883a3d99
    ensures Word(76) == 0xfdf53df3011f362b && Word(77) == 0x464af5671d71c12e && Word(78) == 0xe449b68198ec611c
            && Word(79) == 0x92aeeed1a7bcf7d2
  {
    hide Word;
    Words56();
    Words64();
    NextWord(72, 0xb3c8f1530bdbaa9e, 0x5ea81d78e7660bf1, 0xb89826cee6fbf0e5, 0x7533eabcb786ff00, 0xf63d4265cc1c5a78);
    NextWord(73, 0xbb8abfe56f469338, 0xebee6267405ac2a9, 0x249b4fbcad623e9f, 0xb89826cee6fbf0e5, 0xbe8355ea73129afb);
    NextWord(74, 0xf63d4265cc1c5a78, 0xb01f21926108a4ab, 0x4aea9df2b02d6f1e, 0x249b4fbcad623e9f, 0x49e2db8ebdcfbeb5);
    NextWord(75, 0xbe8355ea73129afb, 0x786433dd2fe65556, 0x2cc57475a55e8d8f, 0x4aea9df2b02d6f1e, 0x82269d4a883a3d99);
    NextWord(76, 0x49e2db8ebdcfbeb5, 0xc54a6eaa24a0552c, 0xb2574ae938d8be89, 0x2cc57475a55e8d8f, 0xfdf53df3011f362b);
    NextWord(77, 0x82269d4a883a3d99, 0xb3c8f1530bdbaa9e, 0xc1b35a57b16d6aea, 0xb2574ae938d8be89, 0x464af5671d71c12e);
    NextWord(78, 0xfdf53df3011f362b, 0xbb8abfe56f469338, 0xcc4918b5949206bb, 0xc1b35a57b16d6aea, 0xe449b68198ec611c);
    NextWord(79, 0x464af5671d71c12e, 0xf63d4265cc1c5a78, 0x5099c3add79f90ec, 0xcc4918b5949206bb, 0x92aeeed1a7bcf7d2);
  }

  lemma Rounds4()
    ensures After(4, Working(0x5a83cb3e80050e82, 0xebcffc07203d91f3, 0x1320f8c9fb872cc0, 0xf6afceb8bcfcddf5,
                             0x0b47b4bb1928990e, 0xdfa9b239f2697812, 0xc3d4ebfd48650ffa, 0x58cb02347ab51f91))
  {
    hide After, Word;
    NoRound();
    Words0();
    FourRounds(0, 0x6a09e667f3bcc908, 0xbb67ae8584caa73b, 0x3c6ef372fe94f82b, 0xa54ff53a5f1d36f1,
               0x510e527fade682d1, 0x9b05688c2b3e6c1f, 0x1f83d9abfb41bd6b, 0x5be0cd19137e2179,
               0x428a2f98d728ae22, 0x7137449123ef65cd, 0xb5c0fbcfec4d3b2f, 0xe9b5dba58189dbbc,
               0x6162638000000000, 0x0000000000000000, 0x0000000000000000, 0x0000000000000000,
               0xf6afceb8bcfcddf5, 0x1320f8c9fb872cc0, 0xebcffc07203d91f3, 0x5a83cb3e80050e82,
               0x58cb02347ab51f91, 0xc3d4ebfd48650ffa, 0xdfa9b239f2697812, 0x0b47b4bb1928990e);
  }

  lemma Rounds8()
    ensures After(8, Working(0x8093d195e0054fa3, 0xc4875b0c7abc076b, 0xaf573b02403e89cd, 0xb680953951604860,
                             0x86f67263a0f0ec0a, 0x5a6c781f54dcc00c, 0x96f60209b6dc35ba, 0x745aca4a342ed2e2))
  {
    hide After, Word;
    Rounds4();
    Words0();
    FourRounds(4, 0x5a83cb3e80050e82, 0xebcffc07203d91f3, 0x1320f8c9fb872cc0, 0xf6afceb8bcfcddf5,
               0x0b47b4bb1928990e, 0xdfa9b239f2697812, 0xc3d4ebfd48650ffa, 0x58cb02347ab51f91,
               0x3956c25bf348b538, 0x59f111f1b605d019, 0x923f82a4af194f9b, 0xab1c5ed5da6d8118,
               0x0000000000000000, 0x0000000000000000, 0x0000000000000000, 0x0000000000000000,
               0xb680953951604860, 0xaf573b02403e89cd, 0xc4875b0c7abc076b, 0x8093d195e0054fa3,
               0x745aca4a342ed2e2, 0x96f60209b6dc35ba, 0x5a6c781f54dcc00c, 0x86f67263a0f0ec0a);
  }

  lemma Rounds12()
    ensures After(12, Working(0xdb0a9963f80c2eaa, 0x69854c4aa0f25b59, 0x81782d4a5db48f03, 0xf1eca5544cb89225,
                             0x475975b91a7a462c, 0xd375471bde1ba3f4, 0x00091f460be46c52, 0xd0403c398fc40002))
  {
    hide After, Word;
    Rounds8();
    Words0();
    FourRounds(8, 0x8093d195e0054fa3, 0xc4875b0c7abc076b, 0xaf573b02403e89cd, 0xb680953951604860,
               0x86f67263a0f0ec0a, 0x5a6c781f54dcc00c, 0x96f60209b6dc35ba, 0x745aca4a342ed2e2,
               0xd807aa98a3030242, 0x12835b0145706fbe, 0x243185be4ee4b28c, 0x550c7dc3d5ffb4e2,
               0x0000000000000000, 0x0000000000000000, 0x0000000000000000, 0x0000000000000000,
               0xf1eca5544cb89225, 0x81782d4a5db48f03, 0x69854c4aa0f25b59, 0xdb0a9963f80c2eaa,
               0xd0403c398fc40002, 0x00091f460be46c52, 0xd375471bde1ba3f4, 0x475975b91a7a462c);
  }

  lemma Rounds16()
    ensures After(16, Working(0x0ae07c86b1181c75, 0xfa967eed85a08028, 0x44249631255d2ca0, 0x5e41214388186c14,
                             0xa77b7c035dd4c161, 0x874bfe5f6aae9f2f, 0x860acf9effba6f61, 0xcdf3bff2883fc9d9))
  {
    hide After, Word;
    Rounds12();
    Words0();
    FourRounds(12, 0xdb0a9963f80c2eaa, 0x69854c4aa0f25b59, 0x81782d4a5db48f03, 0xf1eca5544cb89225,
               0x475975b91a7a462c, 0xd375471bde1ba3f4, 0x00091f460be46c52, 0xd0403c398fc40002,
               0x72be5d74f27b896f, 0x80deb1fe3b1696b1, 0x9bdc06a725c71235, 0xc19bf174cf692694,
               0x0000000000000000, 0x0000000000000000, 0x0000000000000000, 0x0000000000000018,
               0x5e41214388186c14, 0x44249631255d2ca0, 0xfa967eed85a08028, 0x0ae07c86b1181c75,
               0xcdf3bff2883fc9d9, 0x860acf9effba6f61, 0x874bfe5f6aae9f2f, 0xa77b7c035dd4c161);
  }

  lemma Rounds20()
    ensures After(20, Working(0x9a3fb4d38ab6cf06, 0x3c4b4104168e3edb, 0x4725be249ad19e6b, 0xcaf81a425d800537,
                             0xf14998dd5f70767e, 0x29695fd88d81dbd0, 0xf47e8353f8047455, 0x2deecc6b39d64d78))
  {
    hide After, Word;
    Rounds16();
    Words16();
    FourRounds(16, 0x0ae07c86b1181c75, 0xfa967eed85a08028, 0x44249631255d2ca0, 0x5e41214388186c14,
               0xa77b7c035dd4c161, 0x874bfe5f6aae9f2f, 0x860acf9effba6f61, 0xcdf3bff2883fc9d9,
               0xe49b69c19ef14ad2, 0xefbe4786384f25e3, 0x0fc19dc68b8cd5b5, 0x240ca1cc77ac9c65,
               0x6162638000000000, 0x00030000000000c0, 0x0a9699a24c700003, 0x00000c0060000603,
               0xcaf81a425d800537, 0x4725be249ad19e6b, 0x3c4b4104168e3edb, 0x9a3fb4d38ab6cf06,
               0x2deecc6b39d64d78, 0xf47e8353f8047455, 0x29695fd88d81dbd0, 0xf14998dd5f70767e);
  }

  lemma Rounds24()
    ensures After(24, Working(0x4f6877b58fe55484, 0x3e2644567b709a78, 0xda34d6673d452dcf, 0x8dc5ae65569d3855,
                             0xc66005f87db55233, 0x0ac2b11da8f571c6, 0x8e30ff09ad488753, 0x4bb9e66d1145bfdc))
  {
    hide After, Word;
    Rounds20();
    Words16();
    FourRounds(20, 0x9a3fb4d38ab6cf06, 0x3c4b4104168e3edb, 0x4725be249ad19e6b, 0xcaf81a425d800537,
               0xf14998dd5f70767e, 0x29695fd88d81dbd0, 0xf47e8353f8047455, 0x2deecc6b39d64d78,
               0x2de92c6f592b0275, 0x4a7484aa6ea6e483, 0x5cb0a9dcbd41fbd4, 0x76f988da831153b5,
               0x549ef62639858996, 0x00c0003300003c00, 0x1497007a8a0e9dbc, 0x62e56500cc0780f0,
               0x8dc5ae65569d3855, 0xda34d6673d452dcf, 0x3e2644567b709a78, 0x4f6877b58fe55484,
               0x4bb9e66d1145bfdc, 0x8e30ff09ad488753, 0x0ac2b11da8f571c6, 0xc66005f87db55233);
  }

  lemma Rounds28()
    ensures After(28, Working(0xeab4a9e5771b8d09, 0x884c3bc27bc4f941, 0x0bc5f791f8e6816b, 0x9aff71163fa3a940,
                             0x09068a4e255a0dac, 0xe6e48c9a8e948365, 0x6ddf1fd7edcce336, 0xd3ecf13769180e6f))
  {
    hide After, Word;
    Rounds24();
    Words24();
    FourRounds(24, 0x4f6877b58fe55484, 0x3e2644567b709a78, 0xda34d6673d452dcf, 0x8dc5ae65569d3855,
               0xc66005f87db55233, 0x0ac2b11da8f571c6, 0x8e30ff09ad488753, 0x4bb9e66d1145bfdc,
               0x983e5152ee66dfab, 0xa831c66d2db43210, 0xb00327c898fb213f, 0xbf597fc7beef0ee4,
               0x7760dd475a538797, 0xf1554b711c1c0003, 0xca2993a4345d9ff2, 0x5e0e66b5c783dd32,
               0x9aff71163fa3a940, 0x0bc5f791f8e6816b, 0x884c3bc27bc4f941, 0xeab4a9e5771b8d09,
               0xd3ecf13769180e6f, 0x6ddf1fd7edcce336, 0xe6e48c9a8e948365, 0x09068a4e255a0dac);
  }

  lemma Rounds32()
    ensures After(32, Working(0xff4d3f1f0d46a736, 0x4c4fbbb75f1873a6, 0x74bf40f869094c63, 0xe62349090f47d30a,
                             0x3cd388e119e8162e, 0x73e025d91b9efea3, 0xf0aec2fe1437f085, 0x0fcdf99710f21584))
  {
    hide After, Word;
    Rounds28();
    Words24();
    FourRounds(28, 0xeab4a9e5771b8d09, 0x884c3bc27bc4f941, 0x0bc5f791f8e6816b, 0x9aff71163fa3a940,
               0x09068a4e255a0dac, 0xe6e48c9a8e948365, 0x6ddf1fd7edcce336, 0xd3ecf13769180e6f,
               0xc6e00bf33da88fc2, 0xd5a79147930aa725, 0x06ca6351e003826f, 0x142929670a0e6e70,
               0xe25a625d00494b62, 0x9f44486fb1e4fbd2, 0xb31b8c2b06085f2f, 0x0e987660934142f6,
               0xe62349090f47d30a, 0x74bf40f869094c63, 0x4c4fbbb75f1873a6, 0xff4d3f1f0d46a736,
               0x0fcdf99710f21584, 0xf0aec2fe1437f085, 0x73e025d91b9efea3, 0x3cd388e119e8162e);
  }

  lemma Rounds36()
    ensures After(36, Working(0x1a081afc59fdbc2c, 0x2c59ec7743632621, 0x60d4e6995ed91fe6, 0xa0509015ca08c8d4,
                             0xf098082f502b44cd, 0x0fbae670fa780fd3, 0xefabbd8bf47c041a, 0xe1034573654a106f))
  {
    hide After, Word;
    Rounds32();
    Words32();
    FourRounds(32, 0xff4d3f1f0d46a736, 0x4c4fbbb75f1873a6, 0x74bf40f869094c63, 0xe62349090f47d30a,
               0x3cd388e119e8162e, 0x73e025d91b9efea3, 0xf0aec2fe1437f085, 0x0fcdf99710f21584,
               0x27b70a8546d22ffc, 0x2e1b21385c26c926, 0x4d2c6dfc5ac42aed, 0x53380d139d95b3df,
               0xa4af2cfd09fbb924, 0xad289e2e0bd53186, 0x3c74563aa2f9673e, 0x6ccdcd14cc14b53f,
               0xa0509015ca08c8d4, 0x60d4e6995ed91fe6, 0x2c59ec7743632621, 0x1a081afc59fdbc2c,
               0xe1034573654a106f, 0xefabbd8bf47c041a, 0x0fbae670fa780fd3, 0xf098082f502b44cd);
  }

  lemma Rounds40()
    ensures After(40, Working(0x8e01e125b855d225, 0xb3bb8542b3376de5, 0x002bb8e4cd989567, 0x88df85b0bbe77514,
                             0x0c710a47ba6a567b, 0xb49596c20feba7de, 0x66adcfa249ac7bbd, 0x8fbfd0162bbf4675))
  {
    hide After, Word;
    Rounds36();
    Words32();
    FourRounds(36, 0x1a081afc59fdbc2c, 0x2c59ec7743632621, 0x60d4e6995ed91fe6, 0xa0509015ca08c8d4,
               0xf098082f502b44cd, 0x0fbae670fa780fd3, 0xefabbd8bf47c041a, 0xe1034573654a106f,
               0x650a73548baf63de, 0x766a0abb3c77b2a8, 0x81c2c92e47edaee6, 0x92722c851482353b,
               0xc3f925b337f22bde, 0x5bcc77a75ad95b54, 0x3ec2257adca09a52, 0x28246960001fc5eb,
               0x88df85b0bbe77514, 0x002bb8e4cd989567, 0xb3bb8542b3376de5, 0x8e01e125b855d225,
               0x8fbfd0162bbf4675, 0x66adcfa249ac7bbd, 0xb49596c20feba7de, 0x0c710a47ba6a567b);
  }

  lemma Rounds44()
    ensures After(44, Working(0x35d7e7f41defcbd5, 0xbc05ba8de5d3c480, 0xe96f89dd48cbd851, 0xb01521dd6a6be12c,
                             0xcc5100997f5710f2, 0x639cb938e14dc190, 0xf0996439e7b50cb1, 0x169008b3a4bb170b))
  {
    hide After, Word;
    Rounds40();
    Words40();
    FourRounds(40, 0x8e01e125b855d225, 0xb3bb8542b3376de5, 0x002bb8e4cd989567, 0x88df85b0bbe77514,
               0x0c710a47ba6a567b, 0xb49596c20feba7de, 0x66adcfa249ac7bbd, 0x8fbfd0162bbf4675,
               0xa2bfe8a14cf10364, 0xa81a664bbc423001, 0xc24b8b70d0f89791, 0xc76c51a30654be30,
               0x04e33a75ce2be88a, 0x7d5314b3c359e0e7, 0xaef7a285ff251266, 0x0b8472581deea04f,
               0xb01521dd6a6be12c, 0xe96f89dd48cbd851, 0xbc05ba8de5d3c480, 0x35d7e7f41defcbd5,
               0x169008b3a4bb170b, 0xf0996439e7b50cb1, 0x639cb938e14dc190, 0xcc5100997f5710f2);
  }

  lemma Rounds48()
    ensures After(48, Working(0x6b69fc1bb482feac, 0xf61e672694de2d67, 0x021fbadbabab5ac6, 0xc47c9d5c7ea8a234,
                             0x35264334c03ac8ad, 0xc6bc35740d8daa9a, 0xe95c2a57572d64d9, 0x858d832ae0e8911c))
  {
    hide After, Word;
    Rounds44();
    Words40();
    FourRounds(44, 0x35d7e7f41defcbd5, 0xbc05ba8de5d3c480, 0xe96f89dd48cbd851, 0xb01521dd6a6be12c,
               0xcc5100997f5710f2, 0x639cb938e14dc190, 0xf0996439e7b50cb1, 0x169008b3a4bb170b,
               0xd192e819d6ef5218, 0xd69906245565a910, 0xf40e35855771202a, 0x106aa07032bbd1b8,
               0xb174e26eddc7b033, 0x5d63bae58ddd88de, 0x4c044007b744ccbb, 0xe6a9aa4d74dc7d43,
               0xc47c9d5c7ea8a234, 0x021fbadbabab5ac6, 0xf61e672694de2d67, 0x6b69fc1bb482feac,
               0x858d832ae0e8911c, 0xe95c2a57572d64d9, 0xc6bc35740d8daa9a, 0x35264334c03ac8ad);
  }

  lemma Rounds52()
    ensures After(52, Working(0xd43f83727325dd77, 0x813a43dd2c502043, 0xca9bd862c5050918, 0x571f323d96b3a047,
                             0x483f80a82eaee23e, 0x07a0d8ef821c5e1a, 0xdfe091dab182e645, 0x271580ed6c3e5650))
  {
    hide After, Word;
    Rounds48();
    Words48();
    FourRounds(48, 0x6b69fc1bb482feac, 0xf61e672694de2d67, 0x021fbadbabab5ac6, 0xc47c9d5c7ea8a234,
               0x35264334c03ac8ad, 0xc6bc35740d8daa9a, 0xe95c2a57572d64d9, 0x858d832ae0e8911c,
               0x19a4c116b8d2d0c8, 0x1e376c085141ab53, 0x2748774cdf8eeb99, 0x34b0bcb5e19b48a8,
               0xebeaf1237248019c, 0x361e80b2d00f3193, 0x2e9839125df3b175, 0x3319629293ad5363,
               0x571f323d96b3a047, 0xca9bd862c5050918, 0x813a43dd2c502043, 0xd43f83727325dd77,
               0x271580ed6c3e5650, 0xdfe091dab182e645, 0x07a0d8ef821c5e1a, 0x483f80a82eaee23e);
  }

  lemma Rounds56()
    ensures After(56, Working(0x63b460e42748817e, 0xf650857b5babda4d, 0xd63f68037ddf06aa, 0x03df11b32d42e203,
                             0xc6b4dd2a9931c509, 0x9ccfb31a86df0f86, 0xa6781efe1aa1ce02, 0x504f94e40591cffa))
  {
    hide After, Word;
    Rounds52();
    Words48();
    FourRounds(52, 0xd43f83727325dd77, 0x813a43dd2c502043, 0xca9bd862c5050918, 0x571f323d96b3a047,
               0x483f80a82eaee23e, 0x07a0d8ef821c5e1a, 0xdfe091dab182e645, 0x271580ed6c3e5650,
               0x391c0cb3c5c95a63, 0x4ed8aa4ae3418acb, 0x5b9cca4f7763e373, 0x682e6ff3d6b2b8a3,
               0x9cbc5d89ac1b89d5, 0x275e23ffeeca50b7, 0x3b80d680bf69ef58, 0x0d0696933945a125,
               0x03df11b32d42e203, 0xd63f68037ddf06aa, 0xf650857b5babda4d, 0x63b460e42748817e,
               0x504f94e40591cffa, 0xa6781efe1aa1ce02, 0x9ccfb31a86df0f86, 0xc6b4dd2a9931c509);
  }

  lemma Rounds60()
    ensures After(60, Working(0x2c074484ef1eac8c, 0x581ecb3355dcd9b8, 0x4b81c3aec976ea4b, 0x7a52912943d52b05,
                             0x4797cde4ed370692, 0x6a3c9b0f71c8bf36, 0x70505988124351ac, 0xd2e89bbd91e00be0))
  {
    hide After, Word;
    Rounds56();
    Words56();
    FourRounds(56, 0x63b460e42748817e, 0xf650857b5babda4d, 0xd63f68037ddf06aa, 0x03df11b32d42e203,
               0xc6b4dd2a9931c509, 0x9ccfb31a86df0f86, 0xa6781efe1aa1ce02, 0x504f94e40591cffa,
               0x748f82ee5defb2fc, 0x78a5636f43172f60, 0x84c87814a1f0ab72, 0x8cc702081a6439ec,
               0x7533eabcb786ff00, 0xb89826cee6fbf0e5, 0x249b4fbcad623e9f, 0x4aea9df2b02d6f1e,
               0x7a52912943d52b05, 0x4b81c3aec976ea4b, 0x581ecb3355dcd9b8, 0x2c074484ef1eac8c,
               0xd2e89bbd91e00be0, 0x70505988124351ac, 0x6a3c9b0f71c8bf36, 0x4797cde4ed370692);
  }

  lemma Rounds64()
    ensures After(64, Working(0xab44e86276478d85, 0xa81dedbb9f19e643, 0xcfcd928c5424e2b6, 0x3857dfd2fc37d3ba,
                             0xcd881ee59ca6bc53, 0x84058865d60a05fa, 0x09aee5bda1644de5, 0xa6af4e9c9f807e51))
  {
    hide After, Word;
    Rounds60();
    Words56();
    FourRounds(60, 0x2c074484ef1eac8c, 0x581ecb3355dcd9b8, 0x4b81c3aec976ea4b, 0x7a52912943d52b05,
               0x4797cde4ed370692, 0x6a3c9b0f71c8bf36, 0x70505988124351ac, 0xd2e89bbd91e00be0,
               0x90befffa23631e28, 0xa4506cebde82bde9, 0xbef9a3f7b2c67915, 0xc67178f2e372532b,
               0x2cc57475a55e8d8f, 0xb2574ae938d8be89, 0xc1b35a57b16d6aea, 0xcc4918b5949206bb,
               0x3857dfd2fc37d3ba, 0xcfcd928c5424e2b6, 0xa81dedbb9f19e643, 0xab44e86276478d85,
               0xa6af4e9c9f807e51, 0x09aee5bda1644de5, 0x84058865d60a05fa, 0xcd881ee59ca6bc53);
  }

  lemma Rounds68()
    ensures After(68, Working(0x54ba35cf56a0340e, 0x46c4210ab2cc155d, 0xeeb9c21bb0102598, 0x5a806d7e9821a501,
                             0x1c66f46d95690bcf, 0x29fab5a7bff53366, 0x3b5fed0d6a1f96e1, 0xaa84b086688a5c45))
  {
    hide After, Word;
    Rounds64();
    Words64();
    FourRounds(64, 0xab44e86276478d85, 0xa81dedbb9f19e643, 0xcfcd928c5424e2b6, 0x3857dfd2fc37d3ba,
               0xcd881ee59ca6bc53, 0x84058865d60a05fa, 0x09aee5bda1644de5, 0xa6af4e9c9f807e51,
               0xca273eceea26619c, 0xd186b8c721c0c207, 0xeada7dd6cde0eb1e, 0xf57d4f7fee6ed178,
               0x5099c3add79f90ec, 0x5ea81d78e7660bf1, 0xebee6267405ac2a9, 0xb01f21926108a4ab,
               0x5a806d7e9821a501, 0xeeb9c21bb0102598, 0x46c4210ab2cc155d, 0x54ba35cf56a0340e,
               0xaa84b086688a5c45, 0x3b5fed0d6a1f96e1, 0x29fab5a7bff53366, 0x1c66f46d95690bcf);
  }

  lemma Rounds72()
    ensures After(72, Working(0xf15e9664b2803575, 0x7652c579cb60f19c, 0xfb6aaae5d0b6a447, 0x181839d609c79748,
                             0x947c3dfafee570ef, 0xaff62c9665ff80fa, 0xe3711cb6564d112d, 0x0ada78ba2d446140))
  {
    hide After, Word;
    Rounds68();
    Words64();
    FourRounds(68, 0x54ba35cf56a0340e, 0x46c4210ab2cc155d, 0xeeb9c21bb0102598, 0x5a806d7e9821a501,
               0x1c66f46d95690bcf, 0x29fab5a7bff53366, 0x3b5fed0d6a1f96e1, 0xaa84b086688a5c45,
               0x06f067aa72176fba, 0x0a637dc5a2c898a6, 0x113f9804bef90dae, 0x1b710b35131c471b,
               0x786433dd2fe65556, 0xc54a6eaa24a0552c, 0xb3c8f1530bdbaa9e, 0xbb8abfe56f469338,
               0x181839d609c79748, 0xfb6aaae5d0b6a447, 0x7652c579cb60f19c, 0xf15e9664b2803575,
               0x0ada78ba2d446140, 0xe3711cb6564d112d, 0xaff62c9665ff80fa, 0x947c3dfafee570ef);
  }

  lemma Rounds76()
    ensures After(76, Working(0xc8960e6be864b916, 0x33d48dabb5521de2, 0x20878dcd29cdfaf5, 0x358406d165aee9ab,
                             0x995019a6ff3ba3de, 0x2ba18245b50de4cf, 0x054d3536539948d0, 0x8c7b5fd91a794ca0))
  {
    hide After, Word;
    Rounds72();
    Words72();
    FourRounds(72, 0xf15e9664b2803575, 0x7652c579cb60f19c, 0xfb6aaae5d0b6a447, 0x181839d609c79748,
               0x947c3dfafee570ef, 0xaff62c9665ff80fa, 0xe3711cb6564d112d, 0x0ada78ba2d446140,
               0x28db77f523047d84, 0x32caab7b40c72493, 0x3c9ebe0a15c9bebc, 0x431d67c49c100d4c,
               0xf63d4265cc1c5a78, 0xbe8355ea73129afb, 0x49e2db8ebdcfbeb5, 0x82269d4a883a3d99,
               0x358406d165aee9ab, 0x20878dcd29cdfaf5, 0x33d48dabb5521de2, 0xc8960e6be864b916,
               0x8c7b5fd91a794ca0, 0x054d3536539948d0, 0x2ba18245b50de4cf, 0x995019a6ff3ba3de);
  }

  lemma Rounds80()
    ensures After(80, Working(0x73a54f399fa4b1b2, 0x10d9c4c4295599f6, 0xd67806db8b148677, 0x654ef9abec389ca9,
                             0xd08446aa79693ed7, 0x9bb4d39778c07f9e, 0x25c96a7768fb2aa3, 0xceb9fc3691ce8326))
  {
    hide After, Word;
    Rounds76();
    Words72();
    FourRounds(76, 0xc8960e6be864b916, 0x33d48dabb5521de2, 0x20878dcd29cdfaf5, 0x358406d165aee9ab,
               0x995019a6ff3ba3de, 0x2ba18245b50de4cf, 0x054d3536539948d0, 0x8c7b5fd91a794ca0,
               0x4cc5d4becb3e42b6, 0x597f299cfc657e2a, 0x5fcb6fab3ad6faec, 0x6c44198c4a475817,
               0xfdf53df3011f362b, 0x464af5671d71c12e, 0xe449b68198ec611c, 0x92aeeed1a7bcf7d2,
               0x654ef9abec389ca9, 0xd67806db8b148677, 0x10d9c4c4295599f6, 0x73a54f399fa4b1b2,
               0xceb9fc3691ce8326, 0x25c96a7768fb2aa3, 0x9bb4d39778c07f9e, 0xd08446aa79693ed7);
  }

  lemma Compressed()
    ensures Compress(InitialState(), AbcBlock()) == AbcState()
  {
    hide Rounds, AbcBlock;
    Rounds80();
  }

  /** The state after the block. */
  function AbcState(): (h: seq<bv64>)
    ensures |h| == 8
  {
    [0xddaf35a193617aba, 0xcc417349ae204131, 0x12e6fa4e89a97ea2, 0x0a9eeee64b55d39a,
     0x2192992a274fc1a8, 0x36ba3c23a3feebbd, 0x454d4423643ce80e, 0x2a9ac94fa54ca49f]
  }

  /** The words of an output are the words it was made from. */
  lemma {:induction false} OutputWords(h: seq<bv64>, i: nat)
    requires i < |h|
    ensures WordAt(Output(h), i) == h[i]
  {
    hide Octets, WordAt;
    var n := |h| - 1;
    var front, last := Output(h[..n]), Octets(h[n]);
    if i < n {
      OutputWords(h[..n], i);
      SameWord(Output(h), i, front, i);
    } else {
      WordRoundTrip(h[n]);
      SameWord(Output(h), i, last, 0);
    }
  }

  lemma SameWord(x: seq<bv8>, i: nat, y: seq<bv8>, j: nat)
    requires 8 * i + 8 <= |x| && 8 * j + 8 <= |y|
    requires x[8 * i] == y[8 * j] && x[8 * i + 1] == y[8 * j + 1] && x[8 * i + 2] == y[8 * j + 2]
    requires x[8 * i + 3] == y[8 * j + 3] && x[8 * i + 4] == y[8 * j + 4] && x[8 * i + 5] == y[8 * j + 5]
    requires x[8 * i + 6] == y[8 * j + 6] && x[8 * i + 7] == y[8 * j + 7]
    ensures WordAt(x, i) == WordAt(y, j)
  {
  }

  /** SHA-512("abc"), word by word. */
  lemma Example(i: nat)
    requires i < 8
    ensures WordAt(Sha512(Abc()), i) == AbcState()[i]
  {
    hide AbcBlock, AbcState, Abc, Compress, Output, WordAt;
    PadAbc();
    var b := AbcBlock();
    assert b[..|b| - 128] == [] && b[|b| - 128..] == b;
    assert Absorb([]) == InitialState();
    Compressed();
    OutputWords(AbcState(), i);
  }
}
