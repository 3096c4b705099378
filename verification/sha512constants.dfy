/**
 Where the constants of SHA-512 come from: sections 4.2.3 and 5.3.5 of FIPS 180-4 take the
 first 64 bits of the fractional parts of the cube roots of the first eighty primes, and of
 the square roots of the first eight.
 */
module Sha512Constants {
  import opened Bits
  import opened Modular
  import opened Sha512Spec

  // ---------------------------------------------------------------------
  // Primes.

  ghost predicate IsPrime(n: nat)
  {
    n >= 2 && forall d :: 2 <= d < n ==> n % d != 0
  }

  /** How many primes are below n. */
  ghost function PrimesBelow(n: nat): nat
  {
    if n == 0 then 0 else PrimesBelow(n - 1) + if IsPrime(n - 1) then 1 else 0
  }

  /** p is the prime with i primes below it. */
  ghost predicate NthPrime(p: nat, i: nat)
  {
    IsPrime(p) && PrimesBelow(p) == i
  }

  lemma {:induction false} BelowGrows(n: nat, m: nat)
    requires n <= m
    ensures PrimesBelow(n) <= PrimesBelow(m)
  {
    if n < m {
      BelowGrows(n, m - 1);
    }
  }

  lemma OnePrime(p: nat, q: nat, i: nat)
    requires NthPrime(p, i) && NthPrime(q, i)
    ensures p == q
  {
    hide IsPrime;
    if p < q {
      BelowGrows(p + 1, q);
    } else if q < p {
      BelowGrows(q + 1, p);
    }
  }

  /** No prime below 20 divides n. */
  predicate Rough(n: nat)
  {
    && n % 2 != 0 && n % 3 != 0 && n % 5 != 0 && n % 7 != 0
    && n % 11 != 0 && n % 13 != 0 && n % 17 != 0 && n % 19 != 0
  }

  /** A factor below 21 shows a prime factor below 20. */
  lemma SmallFactor(d: nat, e: nat)
    requires 2 <= d <= 20
    ensures !Rough(d * e)
  {
    var q := if d % 2 == 0 then 2 else if d % 3 == 0 then 3 else d;
    var k := d / q;
    assert d == q * k && q in {2, 3, 5, 7, 11, 13, 17, 19};
    Assoc(q, k, e);
    DivModUnique(d * e, q, k * e, 0);
  }

  lemma RoughIsPrime(n: nat)
    requires 19 < n < 441 && Rough(n)
    ensures IsPrime(n)
  {
    hide Rough;
    forall d | 2 <= d < n
      ensures n % d != 0
    {
      var e := n / d;
      if n % d == 0 {
        assert n == d * e;
        if d <= 20 {
          SmallFactor(d, e);
        } else {
          Cofactor(n, d, e);
          SmallFactor(e, d);
        }
      }
    }
  }

  lemma Cofactor(n: nat, d: nat, e: nat)
    requires n == d * e && 21 <= d < n < 441
    ensures 2 <= e <= 20
  {
  }

  /** No number strictly between p and q is rough. */
  predicate NoneRough(p: nat, q: nat)
    decreases q - p
  {
    p + 1 < q ==> !Rough(p + 1) && NoneRough(p + 1, q)
  }

  /** Between 19 and 441 the primes are the rough numbers. */
  lemma NextPrime(p: nat, q: nat, i: nat)
    requires NthPrime(p, i) && 19 <= p < q < 441 && Rough(q) && NoneRough(p, q)
    ensures NthPrime(q, i + 1)
  {
    hide IsPrime, Rough;
    RoughIsPrime(q);
    for n := p + 1 to q
      invariant PrimesBelow(n) == i + 1 && NoneRough(n - 1, q)
    {
      PrimeIsRough(n);
    }
  }

  lemma PrimeIsRough(n: nat)
    requires n > 19
    ensures IsPrime(n) ==> Rough(n)
  {
  }

  lemma FirstPrimes()
    ensures NthPrime(2, 0) && NthPrime(3, 1) && NthPrime(5, 2) && NthPrime(7, 3)
    ensures NthPrime(11, 4) && NthPrime(13, 5) && NthPrime(17, 6) && NthPrime(19, 7)
  {
    hide PrimesBelow;
    assert !IsPrime(0) && !IsPrime(1) && IsPrime(2) && IsPrime(3);
    assert IsPrime(5) && IsPrime(7) && IsPrime(11) && IsPrime(13) && IsPrime(17) && IsPrime(19);
    NotPrime(4, 2);
    NotPrime(6, 2);
    NotPrime(8, 2);
    NotPrime(9, 3);
    NotPrime(10, 2);
    NotPrime(12, 2);
    NotPrime(14, 2);
    NotPrime(15, 3);
    NotPrime(16, 2);
    NotPrime(18, 2);
    CountFirst();
  }

  lemma NotPrime(n: nat, d: nat)
    requires 2 <= d < n && n % d == 0
    ensures !IsPrime(n)
  {
  }

  lemma CountFirst()
    requires !IsPrime(0) && !IsPrime(1) && IsPrime(2) && IsPrime(3) && !IsPrime(4) && IsPrime(5) && !IsPrime(6)
    requires IsPrime(7) && !IsPrime(8) && !IsPrime(9) && !IsPrime(10) && IsPrime(11) && !IsPrime(12) && IsPrime(13)
    requires !IsPrime(14) && !IsPrime(15) && !IsPrime(16) && IsPrime(17) && !IsPrime(18)
    ensures PrimesBelow(2) == 0 && PrimesBelow(3) == 1 && PrimesBelow(5) == 2 && PrimesBelow(7) == 3
    ensures PrimesBelow(11) == 4 && PrimesBelow(13) == 5 && PrimesBelow(17) == 6 && PrimesBelow(19) == 7
  {
    hide IsPrime;
    assert PrimesBelow(4) == 2 && PrimesBelow(6) == 3 && PrimesBelow(8) == 4 && PrimesBelow(9) == 4;
    assert PrimesBelow(10) == 4 && PrimesBelow(12) == 5 && PrimesBelow(14) == 6 && PrimesBelow(15) == 6;
    assert PrimesBelow(16) == 6 && PrimesBelow(18) == 7;
  }

  // ---------------------------------------------------------------------
  // The words of the tables.

  const TWO192: nat := 0x1_0000_0000_0000_0000_0000_0000_0000_0000_0000_0000_0000_0000

  /** r is the integer part of the cube root of x. */
  predicate CubeFloor(r: nat, x: nat) { r * r * r <= x < (r + 1) * (r + 1) * (r + 1) }

  /** r is the integer part of the square root of x. */
  predicate SquareFloor(r: nat, x: nat) { r * r <= x < (r + 1) * (r + 1) }

  /** k is the first 64 bits of the fraction of the cube root of p. */
  ghost predicate CubeRootBits(p: nat, k: nat)
  {
    k < TWO64 && exists n: nat :: CubeFloor(TWO64 * n + k, TWO192 * p)
  }

  ghost predicate SquareRootBits(p: nat, k: nat)
  {
    k < TWO64 && exists n: nat :: SquareFloor(TWO64 * n + k, TWO128 * p)
  }

  lemma IsCubeRoot(p: nat, n: nat, k: nat)
    requires CubeFloor(TWO64 * n + k, TWO192 * p) && k < TWO64
    ensures CubeRootBits(p, k)
  {
  }

  lemma IsSquareRoot(p: nat, n: nat, k: nat)
    requires SquareFloor(TWO64 * n + k, TWO128 * p) && k < TWO64
    ensures SquareRootBits(p, k)
  {
  }

  lemma Row0(j: nat, p: nat)
    requires j < 8 && NthPrime(p, j)
    ensures CubeRootBits(p, KRow(0)[j] as nat)
  {
    hide NthPrime, CubeRootBits;
    FirstPrimes();
    match j
    case 0 =>
      OnePrime(p, 2, 0);
      IsCubeRoot(2, 1, 0x428a_2f98_d728_ae22);
    case 1 =>
      OnePrime(p, 3, 1);
      IsCubeRoot(3, 1, 0x7137_4491_23ef_65cd);
    case 2 =>
      OnePrime(p, 5, 2);
      IsCubeRoot(5, 1, 0xb5c0_fbcf_ec4d_3b2f);
    case 3 =>
      OnePrime(p, 7, 3);
      IsCubeRoot(7, 1, 0xe9b5_dba5_8189_dbbc);
    case 4 =>
      OnePrime(p, 11, 4);
      IsCubeRoot(11, 2, 0x3956_c25b_f348_b538);
    case 5 =>
      OnePrime(p, 13, 5);
      IsCubeRoot(13, 2, 0x59f1_11f1_b605_d019);
    case 6 =>
      OnePrime(p, 17, 6);
      IsCubeRoot(17, 2, 0x923f_82a4_af19_4f9b);
    case _ =>
      OnePrime(p, 19, 7);
      IsCubeRoot(19, 2, 0xab1c_5ed5_da6d_8118);
  }

  lemma Primes8()
    ensures NthPrime(23, 8) && NthPrime(29, 9) && NthPrime(31, 10) && NthPrime(37, 11)
  {
    hide NthPrime;
    FirstPrimes();
    NextPrime(19, 23, 7);
    NextPrime(23, 29, 8);
    NextPrime(29, 31, 9);
    NextPrime(31, 37, 10);
  }

  lemma Primes12()
    ensures NthPrime(41, 12) && NthPrime(43, 13) && NthPrime(47, 14) && NthPrime(53, 15)
  {
    hide NthPrime;
    Primes8();
    NextPrime(37, 41, 11);
    NextPrime(41, 43, 12);
    NextPrime(43, 47, 13);
    NextPrime(47, 53, 14);
  }

  lemma Row1(j: nat, p: nat)
    requires j < 8 && NthPrime(p, 8 + j)
    ensures CubeRootBits(p, KRow(1)[j] as nat)
  {
    hide NthPrime, CubeRootBits;
    Primes8();
    Primes12();
    match j
    case 0 =>
      OnePrime(p, 23, 8);
      IsCubeRoot(23, 2, 0xd807_aa98_a303_0242);
    case 1 =>
      OnePrime(p, 29, 9);
      IsCubeRoot(29, 3, 0x1283_5b01_4570_6fbe);
    case 2 =>
      OnePrime(p, 31, 10);
      IsCubeRoot(31, 3, 0x2431_85be_4ee4_b28c);
    case 3 =>
      OnePrime(p, 37, 11);
      IsCubeRoot(37, 3, 0x550c_7dc3_d5ff_b4e2);
    case 4 =>
      OnePrime(p, 41, 12);
      IsCubeRoot(41, 3, 0x72be_5d74_f27b_896f);
    case 5 =>
      OnePrime(p, 43, 13);
      IsCubeRoot(43, 3, 0x80de_b1fe_3b16_96b1);
    case 6 =>
      OnePrime(p, 47, 14);
      IsCubeRoot(47, 3, 0x9bdc_06a7_25c7_1235);
    case _ =>
      OnePrime(p, 53, 15);
      IsCubeRoot(53, 3, 0xc19b_f174_cf69_2694);
  }

  lemma Primes16()
    ensures NthPrime(59, 16) && NthPrime(61, 17) && NthPrime(67, 18) && NthPrime(71, 19)
  {
    hide NthPrime;
    Primes12();
    NextPrime(53, 59, 15);
    NextPrime(59, 61, 16);
    NextPrime(61, 67, 17);
    NextPrime(67, 71, 18);
  }

  lemma Primes20()
    ensures NthPrime(73, 20) && NthPrime(79, 21) && NthPrime(83, 22) && NthPrime(89, 23)
  {
    hide NthPrime;
    Primes16();
    NextPrime(71, 73, 19);
    NextPrime(73, 79, 20);
    NextPrime(79, 83, 21);
    NextPrime(83, 89, 22);
  }

  lemma Row2(j: nat, p: nat)
    requires j < 8 && NthPrime(p, 16 + j)
    ensures CubeRootBits(p, KRow(2)[j] as nat)
  {
    hide NthPrime, CubeRootBits;
    Primes16();
    Primes20();
    match j
    case 0 =>
      OnePrime(p, 59, 16);
      IsCubeRoot(59, 3, 0xe49b_69c1_9ef1_4ad2);
    case 1 =>
      OnePrime(p, 61, 17);
      IsCubeRoot(61, 3, 0xefbe_4786_384f_25e3);
    case 2 =>
      OnePrime(p, 67, 18);
      IsCubeRoot(67, 4, 0x0fc1_9dc6_8b8c_d5b5);
    case 3 =>
      OnePrime(p, 71, 19);
      IsCubeRoot(71, 4, 0x240c_a1cc_77ac_9c65);
    case 4 =>
      OnePrime(p, 73, 20);
      IsCubeRoot(73, 4, 0x2de9_2c6f_592b_0275);
    case 5 =>
      OnePrime(p, 79, 21);
      IsCubeRoot(79, 4, 0x4a74_84aa_6ea6_e483);
    case 6 =>
      OnePrime(p, 83, 22);
      IsCubeRoot(83, 4, 0x5cb0_a9dc_bd41_fbd4);
    case _ =>
      OnePrime(p, 89, 23);
      IsCubeRoot(89, 4, 0x76f9_88da_8311_53b5);
  }

  lemma Primes24()
    ensures NthPrime(97, 24) && NthPrime(101, 25) && NthPrime(103, 26) && NthPrime(107, 27)
  {
    hide NthPrime;
    Primes20();
    NextPrime(89, 97, 23);
    NextPrime(97, 101, 24);
    NextPrime(101, 103, 25);
    NextPrime(103, 107, 26);
  }

  lemma Primes28()
    ensures NthPrime(109, 28) && NthPrime(113, 29) && NthPrime(127, 30) && NthPrime(131, 31)
  {
    hide NthPrime;
    Primes24();
    NextPrime(107, 109, 27);
    NextPrime(109, 113, 28);
    NextPrime(113, 127, 29);
    NextPrime(127, 131, 30);
  }

  lemma Row3(j: nat, p: nat)
    requires j < 8 && NthPrime(p, 24 + j)
    ensures CubeRootBits(p, KRow(3)[j] as nat)
  {
    hide NthPrime, CubeRootBits;
    Primes24();
    Primes28();
    match j
    case 0 =>
      OnePrime(p, 97, 24);
      IsCubeRoot(97, 4, 0x983e_5152_ee66_dfab);
    case 1 =>
      OnePrime(p, 101, 25);
      IsCubeRoot(101, 4, 0xa831_c66d_2db4_3210);
    case 2 =>
      OnePrime(p, 103, 26);
      IsCubeRoot(103, 4, 0xb003_27c8_98fb_213f);
    case 3 =>
      OnePrime(p, 107, 27);
      IsCubeRoot(107, 4, 0xbf59_7fc7_beef_0ee4);
    case 4 =>
      OnePrime(p, 109, 28);
      IsCubeRoot(109, 4, 0xc6e0_0bf3_3da8_8fc2);
    case 5 =>
      OnePrime(p, 113, 29);
      IsCubeRoot(113, 4, 0xd5a7_9147_930a_a725);
    case 6 =>
      OnePrime(p, 127, 30);
      IsCubeRoot(127, 5, 0x06ca_6351_e003_826f);
    case _ =>
      OnePrime(p, 131, 31);
      IsCubeRoot(131, 5, 0x1429_2967_0a0e_6e70);
  }

  lemma Primes32()
    ensures NthPrime(137, 32) && NthPrime(139, 33) && NthPrime(149, 34) && NthPrime(151, 35)
  {
    hide NthPrime;
    Primes28();
    NextPrime(131, 137, 31);
    NextPrime(137, 139, 32);
    NextPrime(139, 149, 33);
    NextPrime(149, 151, 34);
  }

  lemma Primes36()
    ensures NthPrime(157, 36) && NthPrime(163, 37) && NthPrime(167, 38) && NthPrime(173, 39)
  {
    hide NthPrime;
    Primes32();
    NextPrime(151, 157, 35);
    NextPrime(157, 163, 36);
    NextPrime(163, 167, 37);
    NextPrime(167, 173, 38);
  }

  lemma Row4(j: nat, p: nat)
    requires j < 8 && NthPrime(p, 32 + j)
    ensures CubeRootBits(p, KRow(4)[j] as nat)
  {
    hide NthPrime, CubeRootBits;
    Primes32();
    Primes36();
    match j
    case 0 =>
      OnePrime(p, 137, 32);
      IsCubeRoot(137, 5, 0x27b7_0a85_46d2_2ffc);
    case 1 =>
      OnePrime(p, 139, 33);
      IsCubeRoot(139, 5, 0x2e1b_2138_5c26_c926);
    case 2 =>
      OnePrime(p, 149, 34);
      IsCubeRoot(149, 5, 0x4d2c_6dfc_5ac4_2aed);
    case 3 =>
      OnePrime(p, 151, 35);
      IsCubeRoot(151, 5, 0x5338_0d13_9d95_b3df);
    case 4 =>
      OnePrime(p, 157, 36);
      IsCubeRoot(157, 5, 0x650a_7354_8baf_63de);
    case 5 =>
      OnePrime(p, 163, 37);
      IsCubeRoot(163, 5, 0x766a_0abb_3c77_b2a8);
    case 6 =>
      OnePrime(p, 167, 38);
      IsCubeRoot(167, 5, 0x81c2_c92e_47ed_aee6);
    case _ =>
      OnePrime(p, 173, 39);
      IsCubeRoot(173, 5, 0x9272_2c85_1482_353b);
  }

  lemma Primes40()
    ensures NthPrime(179, 40) && NthPrime(181, 41) && NthPrime(191, 42) && NthPrime(193, 43)
  {
    hide NthPrime;
    Primes36();
    NextPrime(173, 179, 39);
    NextPrime(179, 181, 40);
    NextPrime(181, 191, 41);
    NextPrime(191, 193, 42);
  }

  lemma Primes44()
    ensures NthPrime(197, 44) && NthPrime(199, 45) && NthPrime(211, 46) && NthPrime(223, 47)
  {
    hide NthPrime;
    Primes40();
    NextPrime(193, 197, 43);
    NextPrime(197, 199, 44);
    NextPrime(199, 211, 45);
    NextPrime(211, 223, 46);
  }

  lemma Row5(j: nat, p: nat)
    requires j < 8 && NthPrime(p, 40 + j)
    ensures CubeRootBits(p, KRow(5)[j] as nat)
  {
    hide NthPrime, CubeRootBits;
    Primes40();
    Primes44();
    match j
    case 0 =>
      OnePrime(p, 179, 40);
      IsCubeRoot(179, 5, 0xa2bf_e8a1_4cf1_0364);
    case 1 =>
      OnePrime(p, 181, 41);
      IsCubeRoot(181, 5, 0xa81a_664b_bc42_3001);
    case 2 =>
      OnePrime(p, 191, 42);
      IsCubeRoot(191, 5, 0xc24b_8b70_d0f8_9791);
    case 3 =>
      OnePrime(p, 193, 43);
      IsCubeRoot(193, 5, 0xc76c_51a3_0654_be30);
    case 4 =>
      OnePrime(p, 197, 44);
      IsCubeRoot(197, 5, 0xd192_e819_d6ef_5218);
    case 5 =>
      OnePrime(p, 199, 45);
      IsCubeRoot(199, 5, 0xd699_0624_5565_a910);
    case 6 =>
      OnePrime(p, 211, 46);
      IsCubeRoot(211, 5, 0xf40e_3585_5771_202a);
    case _ =>
      OnePrime(p, 223, 47);
      IsCubeRoot(223, 6, 0x106a_a070_32bb_d1b8);
  }

  lemma Primes48()
    ensures NthPrime(227, 48) && NthPrime(229, 49) && NthPrime(233, 50) && NthPrime(239, 51)
  {
    hide NthPrime;
    Primes44();
    NextPrime(223, 227, 47);
    NextPrime(227, 229, 48);
    NextPrime(229, 233, 49);
    NextPrime(233, 239, 50);
  }

  lemma Primes52()
    ensures NthPrime(241, 52) && NthPrime(251, 53) && NthPrime(257, 54) && NthPrime(263, 55)
  {
    hide NthPrime;
    Primes48();
    NextPrime(239, 241, 51);
    NextPrime(241, 251, 52);
    NextPrime(251, 257, 53);
    NextPrime(257, 263, 54);
  }

  lemma Row6(j: nat, p: nat)
    requires j < 8 && NthPrime(p, 48 + j)
    ensures CubeRootBits(p, KRow(6)[j] as nat)
  {
    hide NthPrime, CubeRootBits;
    Primes48();
    Primes52();
    match j
    case 0 =>
      OnePrime(p, 227, 48);
      IsCubeRoot(227, 6, 0x19a4_c116_b8d2_d0c8);
    case 1 =>
      OnePrime(p, 229, 49);
      IsCubeRoot(229, 6, 0x1e37_6c08_5141_ab53);
    case 2 =>
      OnePrime(p, 233, 50);
      IsCubeRoot(233, 6, 0x2748_774c_df8e_eb99);
    case 3 =>
      OnePrime(p, 239, 51);
      IsCubeRoot(239, 6, 0x34b0_bcb5_e19b_48a8);
    case 4 =>
      OnePrime(p, 241, 52);
      IsCubeRoot(241, 6, 0x391c_0cb3_c5c9_5a63);
    case 5 =>
      OnePrime(p, 251, 53);
      IsCubeRoot(251, 6, 0x4ed8_aa4a_e341_8acb);
    case 6 =>
      OnePrime(p, 257, 54);
      IsCubeRoot(257, 6, 0x5b9c_ca4f_7763_e373);
    case _ =>
      OnePrime(p, 263, 55);
      IsCubeRoot(263, 6, 0x682e_6ff3_d6b2_b8a3);
  }

  lemma Primes56()
    ensures NthPrime(269, 56) && NthPrime(271, 57) && NthPrime(277, 58) && NthPrime(281, 59)
  {
    hide NthPrime;
    Primes52();
    NextPrime(263, 269, 55);
    NextPrime(269, 271, 56);
    NextPrime(271, 277, 57);
    NextPrime(277, 281, 58);
  }

  lemma Primes60()
    ensures NthPrime(283, 60) && NthPrime(293, 61) && NthPrime(307, 62) && NthPrime(311, 63)
  {
    hide NthPrime;
    Primes56();
    NextPrime(281, 283, 59);
    NextPrime(283, 293, 60);
    NextPrime(293, 307, 61);
    NextPrime(307, 311, 62);
  }

  lemma Row7(j: nat, p: nat)
    requires j < 8 && NthPrime(p, 56 + j)
    ensures CubeRootBits(p, KRow(7)[j] as nat)
  {
    hide NthPrime, CubeRootBits;
    Primes56();
    Primes60();
    match j
    case 0 =>
      OnePrime(p, 269, 56);
      IsCubeRoot(269, 6, 0x748f_82ee_5def_b2fc);
    case 1 =>
      OnePrime(p, 271, 57);
      IsCubeRoot(271, 6, 0x78a5_636f_4317_2f60);
    case 2 =>
      OnePrime(p, 277, 58);
      IsCubeRoot(277, 6, 0x84c8_7814_a1f0_ab72);
    case 3 =>
      OnePrime(p, 281, 59);
      IsCubeRoot(281, 6, 0x8cc7_0208_1a64_39ec);
    case 4 =>
      OnePrime(p, 283, 60);
      IsCubeRoot(283, 6, 0x90be_fffa_2363_1e28);
    case 5 =>
      OnePrime(p, 293, 61);
      IsCubeRoot(293, 6, 0xa450_6ceb_de82_bde9);
    case 6 =>
      OnePrime(p, 307, 62);
      IsCubeRoot(307, 6, 0xbef9_a3f7_b2c6_7915);
    case _ =>
      OnePrime(p, 311, 63);
      IsCubeRoot(311, 6, 0xc671_78f2_e372_532b);
  }

  lemma Primes64()
    ensures NthPrime(313, 64) && NthPrime(317, 65) && NthPrime(331, 66) && NthPrime(337, 67)
  {
    hide NthPrime;
    Primes60();
    NextPrime(311, 313, 63);
    NextPrime(313, 317, 64);
    NextPrime(317, 331, 65);
    NextPrime(331, 337, 66);
  }

  lemma Primes68()
    ensures NthPrime(347, 68) && NthPrime(349, 69) && NthPrime(353, 70) && NthPrime(359, 71)
  {
    hide NthPrime;
    Primes64();
    NextPrime(337, 347, 67);
    NextPrime(347, 349, 68);
    NextPrime(349, 353, 69);
    NextPrime(353, 359, 70);
  }

  lemma Row8(j: nat, p: nat)
    requires j < 8 && NthPrime(p, 64 + j)
    ensures CubeRootBits(p, KRow(8)[j] as nat)
  {
    hide NthPrime, CubeRootBits;
    Primes64();
    Primes68();
    match j
    case 0 =>
      OnePrime(p, 313, 64);
      IsCubeRoot(313, 6, 0xca27_3ece_ea26_619c);
    case 1 =>
      OnePrime(p, 317, 65);
      IsCubeRoot(317, 6, 0xd186_b8c7_21c0_c207);
    case 2 =>
      OnePrime(p, 331, 66);
      IsCubeRoot(331, 6, 0xeada_7dd6_cde0_eb1e);
    case 3 =>
      OnePrime(p, 337, 67);
      IsCubeRoot(337, 6, 0xf57d_4f7f_ee6e_d178);
    case 4 =>
      OnePrime(p, 347, 68);
      IsCubeRoot(347, 7, 0x06f0_67aa_7217_6fba);
    case 5 =>
      OnePrime(p, 349, 69);
      IsCubeRoot(349, 7, 0x0a63_7dc5_a2c8_98a6);
    case 6 =>
      OnePrime(p, 353, 70);
      IsCubeRoot(353, 7, 0x113f_9804_bef9_0dae);
    case _ =>
      OnePrime(p, 359, 71);
      IsCubeRoot(359, 7, 0x1b71_0b35_131c_471b);
  }

  lemma Primes72()
    ensures NthPrime(367, 72) && NthPrime(373, 73) && NthPrime(379, 74) && NthPrime(383, 75)
  {
    hide NthPrime;
    Primes68();
    NextPrime(359, 367, 71);
    NextPrime(367, 373, 72);
    NextPrime(373, 379, 73);
    NextPrime(379, 383, 74);
  }

  lemma Primes76()
    ensures NthPrime(389, 76) && NthPrime(397, 77) && NthPrime(401, 78) && NthPrime(409, 79)
  {
    hide NthPrime;
    Primes72();
    NextPrime(383, 389, 75);
    NextPrime(389, 397, 76);
    NextPrime(397, 401, 77);
    NextPrime(401, 409, 78);
  }

  lemma Row9(j: nat, p: nat)
    requires j < 8 && NthPrime(p, 72 + j)
    ensures CubeRootBits(p, KRow(9)[j] as nat)
  {
    hide NthPrime, CubeRootBits;
    Primes72();
    Primes76();
    match j
    case 0 =>
      OnePrime(p, 367, 72);
      IsCubeRoot(367, 7, 0x28db_77f5_2304_7d84);
    case 1 =>
      OnePrime(p, 373, 73);
      IsCubeRoot(373, 7, 0x32ca_ab7b_40c7_2493);
    case 2 =>
      OnePrime(p, 379, 74);
      IsCubeRoot(379, 7, 0x3c9e_be0a_15c9_bebc);
    case 3 =>
      OnePrime(p, 383, 75);
      IsCubeRoot(383, 7, 0x431d_67c4_9c10_0d4c);
    case 4 =>
      OnePrime(p, 389, 76);
      IsCubeRoot(389, 7, 0x4cc5_d4be_cb3e_42b6);
    case 5 =>
      OnePrime(p, 397, 77);
      IsCubeRoot(397, 7, 0x597f_299c_fc65_7e2a);
    case 6 =>
      OnePrime(p, 401, 78);
      IsCubeRoot(401, 7, 0x5fcb_6fab_3ad6_faec);
    case _ =>
      OnePrime(p, 409, 79);
      IsCubeRoot(409, 7, 0x6c44_198c_4a47_5817);
  }

  /** Section 4.2.3: word i is the first 64 bits of the fraction of the cube root of the i-th prime. */
  lemma RoundConstants(i: nat, p: nat)
    requires i < 80 && NthPrime(p, i)
    ensures CubeRootBits(p, KTable()[i] as nat)
  {
    hide NthPrime, CubeRootBits, KRow;
    var j := i % 8;
    match i / 8
    case 0 => Row0(j, p);
    case 1 => Row1(j, p);
    case 2 => Row2(j, p);
    case 3 => Row3(j, p);
    case 4 => Row4(j, p);
    case 5 => Row5(j, p);
    case 6 => Row6(j, p);
    case 7 => Row7(j, p);
    case 8 => Row8(j, p);
    case _ => Row9(j, p);
  }

  /** Section 5.3.5: word i is the first 64 bits of the fraction of the square root of the i-th prime. */
  lemma InitialWords(i: nat, p: nat)
    requires i < 8 && NthPrime(p, i)
    ensures SquareRootBits(p, InitialState()[i] as nat)
  {
    hide NthPrime, SquareRootBits;
    FirstPrimes();
    match i
    case 0 =>
      OnePrime(p, 2, 0);
      IsSquareRoot(2, 1, 0x6a09_e667_f3bc_c908);
    case 1 =>
      OnePrime(p, 3, 1);
      IsSquareRoot(3, 1, 0xbb67_ae85_84ca_a73b);
    case 2 =>
      OnePrime(p, 5, 2);
      IsSquareRoot(5, 2, 0x3c6e_f372_fe94_f82b);
    case 3 =>
      OnePrime(p, 7, 3);
      IsSquareRoot(7, 2, 0xa54f_f53a_5f1d_36f1);
    case 4 =>
      OnePrime(p, 11, 4);
      IsSquareRoot(11, 3, 0x510e_527f_ade6_82d1);
    case 5 =>
      OnePrime(p, 13, 5);
      IsSquareRoot(13, 3, 0x9b05_688c_2b3e_6c1f);
    case 6 =>
      OnePrime(p, 17, 6);
      IsSquareRoot(17, 4, 0x1f83_d9ab_fb41_bd6b);
    case _ =>
      OnePrime(p, 19, 7);
      IsSquareRoot(19, 4, 0x5be0_cd19_137e_2179);
  }

  lemma CubeMono(a: nat, b: nat)
    requires a <= b
    ensures a * a <= b * b && a * a * a <= b * b * b
  {
    MulMono(a, a, b);
    MulMono(b, a, b);
    MulMono(a, a * a, b * b);
    MulMono(b * b, a, b);
  }

  lemma OneCubeFloor(a: nat, b: nat, x: nat)
    requires CubeFloor(a, x) && CubeFloor(b, x)
    ensures a == b
  {
    if a < b {
      CubeMono(a + 1, b);
    } else if b < a {
      CubeMono(b + 1, a);
    }
  }

  lemma OneSquareFloor(a: nat, b: nat, x: nat)
    requires SquareFloor(a, x) && SquareFloor(b, x)
    ensures a == b
  {
    if a < b {
      CubeMono(a + 1, b);
    } else if b < a {
      CubeMono(b + 1, a);
    }
  }

  lemma SameLow(n: nat, k: nat, m: nat, l: nat)
    requires TWO64 * n + k == TWO64 * m + l && k < TWO64 && l < TWO64
    ensures k == l
  {
  }

  /** Each prime gives one word only, so the two statements determine the tables. */
  lemma OneCubeRoot(p: nat, k: nat, l: nat)
    requires CubeRootBits(p, k) && CubeRootBits(p, l)
    ensures k == l
  {
    hide CubeFloor;
    var n: nat :| CubeFloor(TWO64 * n + k, TWO192 * p);
    var m: nat :| CubeFloor(TWO64 * m + l, TWO192 * p);
    OneCubeFloor(TWO64 * n + k, TWO64 * m + l, TWO192 * p);
    SameLow(n, k, m, l);
  }

  lemma OneSquareRoot(p: nat, k: nat, l: nat)
    requires SquareRootBits(p, k) && SquareRootBits(p, l)
    ensures k == l
  {
    hide SquareFloor;
    var n: nat :| SquareFloor(TWO64 * n + k, TWO128 * p);
    var m: nat :| SquareFloor(TWO64 * m + l, TWO128 * p);
    OneSquareFloor(TWO64 * n + k, TWO64 * m + l, TWO128 * p);
    SameLow(n, k, m, l);
  }
}
