/**
 SHA-512 as section 6.4 of FIPS 180-4 defines it: the padded message, its 1024-bit
 blocks, the 80-word schedule and the 80 rounds on eight working variables.
 */
module Sha512Spec {

  /** Eight of the round constants. */
  function KRow(r: nat): (k: seq<bv64>)
    requires r < 10
    ensures |k| == 8
  {
    match r
    case 0 =>
      [0x428a_2f98_d728_ae22, 0x7137_4491_23ef_65cd, 0xb5c0_fbcf_ec4d_3b2f, 0xe9b5_dba5_8189_dbbc,
       0x3956_c25b_f348_b538, 0x59f1_11f1_b605_d019, 0x923f_82a4_af19_4f9b, 0xab1c_5ed5_da6d_8118]
    case 1 =>
      [0xd807_aa98_a303_0242, 0x1283_5b01_4570_6fbe, 0x2431_85be_4ee4_b28c, 0x550c_7dc3_d5ff_b4e2,
       0x72be_5d74_f27b_896f, 0x80de_b1fe_3b16_96b1, 0x9bdc_06a7_25c7_1235, 0xc19b_f174_cf69_2694]
    case 2 =>
      [0xe49b_69c1_9ef1_4ad2, 0xefbe_4786_384f_25e3, 0x0fc1_9dc6_8b8c_d5b5, 0x240c_a1cc_77ac_9c65,
       0x2de9_2c6f_592b_0275, 0x4a74_84aa_6ea6_e483, 0x5cb0_a9dc_bd41_fbd4, 0x76f9_88da_8311_53b5]
    case 3 =>
      [0x983e_5152_ee66_dfab, 0xa831_c66d_2db4_3210, 0xb003_27c8_98fb_213f, 0xbf59_7fc7_beef_0ee4,
       0xc6e0_0bf3_3da8_8fc2, 0xd5a7_9147_930a_a725, 0x06ca_6351_e003_826f, 0x1429_2967_0a0e_6e70]
    case 4 =>
      [0x27b7_0a85_46d2_2ffc, 0x2e1b_2138_5c26_c926, 0x4d2c_6dfc_5ac4_2aed, 0x5338_0d13_9d95_b3df,
       0x650a_7354_8baf_63de, 0x766a_0abb_3c77_b2a8, 0x81c2_c92e_47ed_aee6, 0x9272_2c85_1482_353b]
    case 5 =>
      [0xa2bf_e8a1_4cf1_0364, 0xa81a_664b_bc42_3001, 0xc24b_8b70_d0f8_9791, 0xc76c_51a3_0654_be30,
       0xd192_e819_d6ef_5218, 0xd699_0624_5565_a910, 0xf40e_3585_5771_202a, 0x106a_a070_32bb_d1b8]
    case 6 =>
      [0x19a4_c116_b8d2_d0c8, 0x1e37_6c08_5141_ab53, 0x2748_774c_df8e_eb99, 0x34b0_bcb5_e19b_48a8,
       0x391c_0cb3_c5c9_5a63, 0x4ed8_aa4a_e341_8acb, 0x5b9c_ca4f_7763_e373, 0x682e_6ff3_d6b2_b8a3]
    case 7 =>
      [0x748f_82ee_5def_b2fc, 0x78a5_636f_4317_2f60, 0x84c8_7814_a1f0_ab72, 0x8cc7_0208_1a64_39ec,
       0x90be_fffa_2363_1e28, 0xa450_6ceb_de82_bde9, 0xbef9_a3f7_b2c6_7915, 0xc671_78f2_e372_532b]
    case 8 =>
      [0xca27_3ece_ea26_619c, 0xd186_b8c7_21c0_c207, 0xeada_7dd6_cde0_eb1e, 0xf57d_4f7f_ee6e_d178,
       0x06f0_67aa_7217_6fba, 0x0a63_7dc5_a2c8_98a6, 0x113f_9804_bef9_0dae, 0x1b71_0b35_131c_471b]
    case _ =>
      [0x28db_77f5_2304_7d84, 0x32ca_ab7b_40c7_2493, 0x3c9e_be0a_15c9_bebc, 0x431d_67c4_9c10_0d4c,
       0x4cc5_d4be_cb3e_42b6, 0x597f_299c_fc65_7e2a, 0x5fcb_6fab_3ad6_faec, 0x6c44_198c_4a47_5817]
  }

  function KTable(): (k: seq<bv64>)
    ensures |k| == 80
  {
    seq(80, t requires 0 <= t < 80 => KRow(t / 8)[t % 8])
  }

  function InitialState(): (h: seq<bv64>)
    ensures |h| == 8
  {
    [0x6a09_e667_f3bc_c908, 0xbb67_ae85_84ca_a73b, 0x3c6e_f372_fe94_f82b, 0xa54f_f53a_5f1d_36f1,
     0x510e_527f_ade6_82d1, 0x9b05_688c_2b3e_6c1f, 0x1f83_d9ab_fb41_bd6b, 0x5be0_cd19_137e_2179]
  }

  /** Rotation and shift to the right, section 3.2. */
  function Rotr(x: bv64, n: bv7): bv64
    requires 0 < n < 64
  {
    (x >> n) | (x << (64 - n))
  }

  function Shr(x: bv64, n: bv7): bv64
    requires n < 64
  {
    x >> n
  }

  /** Addition modulo 2^64. */
  function Add(x: bv64, y: bv64): bv64 { x + y }

  function Xor(x: bv64, y: bv64): bv64 { x ^ y }

  function Ch(x: bv64, y: bv64, z: bv64): bv64 { (x & y) ^ (!x & z) }
  function Maj(x: bv64, y: bv64, z: bv64): bv64 { (x & y) ^ (x & z) ^ (y & z) }
  function BigSigma0(x: bv64): bv64 { Xor(Xor(Rotr(x, 28), Rotr(x, 34)), Rotr(x, 39)) }
  function BigSigma1(x: bv64): bv64 { Xor(Xor(Rotr(x, 14), Rotr(x, 18)), Rotr(x, 41)) }
  function SmallSigma0(x: bv64): bv64 { Xor(Xor(Rotr(x, 1), Rotr(x, 8)), Shr(x, 7)) }
  function SmallSigma1(x: bv64): bv64 { Xor(Xor(Rotr(x, 19), Rotr(x, 61)), Shr(x, 6)) }

  type Block = b: seq<bv8> | |b| == 128 witness seq(128, _ => 0)

  /** The big-endian word of eight octets. */
  function WordAt(b: seq<bv8>, i: nat): bv64
    requires 8 * i + 8 <= |b|
  {
    (b[8 * i] as bv64 << 56) | (b[8 * i + 1] as bv64 << 48) | (b[8 * i + 2] as bv64 << 40) | (b[8 * i + 3] as bv64 << 32)
    | (b[8 * i + 4] as bv64 << 24) | (b[8 * i + 5] as bv64 << 16) | (b[8 * i + 6] as bv64 << 8) | (b[8 * i + 7] as bv64)
  }

  /** The eight big-endian octets of a word. */
  function Octets(w: bv64): (b: seq<bv8>)
    ensures |b| == 8
  {
    [((w >> 56) & 0xff) as bv8, ((w >> 48) & 0xff) as bv8, ((w >> 40) & 0xff) as bv8, ((w >> 32) & 0xff) as bv8,
     ((w >> 24) & 0xff) as bv8, ((w >> 16) & 0xff) as bv8, ((w >> 8) & 0xff) as bv8, (w & 0xff) as bv8]
  }

  /** The first n words of the message schedule. */
  function Schedule(b: Block, n: nat): (w: seq<bv64>)
    requires n <= 80
    ensures |w| == n
  {
    if n == 0 then []
    else
      var w := Schedule(b, n - 1);
      var t := n - 1;
      w + [if t < 16 then WordAt(b, t)
           else Add(Add(Add(SmallSigma1(w[t - 2]), w[t - 7]), SmallSigma0(w[t - 15])), w[t - 16])]
  }

  datatype Working = Working(a: bv64, b: bv64, c: bv64, d: bv64, e: bv64, f: bv64, g: bv64, h: bv64)

  function Round(v: Working, k: bv64, w: bv64): Working
  {
    var t1 := Add(Add(Add(Add(v.h, BigSigma1(v.e)), Ch(v.e, v.f, v.g)), k), w);
    var t2 := Add(BigSigma0(v.a), Maj(v.a, v.b, v.c));
    Working(Add(t1, t2), v.a, v.b, v.c, Add(v.d, t1), v.e, v.f, v.g)
  }

  function Start(h: seq<bv64>): Working
    requires |h| == 8
  {
    Working(h[0], h[1], h[2], h[3], h[4], h[5], h[6], h[7])
  }

  function Rounds(h: seq<bv64>, b: Block, t: nat): Working
    requires |h| == 8 && t <= 80
  {
    hide KTable, Schedule, Round;
    if t == 0 then Start(h) else Round(Rounds(h, b, t - 1), KTable()[t - 1], Schedule(b, 80)[t - 1])
  }

  function AllRounds(h: seq<bv64>, b: Block): Working
    requires |h| == 8
  {
    hide Rounds;
    Rounds(h, b, 80)
  }

  function Compress(h: seq<bv64>, b: Block): (r: seq<bv64>)
    requires |h| == 8
    ensures |r| == 8
  {
    hide AllRounds;
    var v := AllRounds(h, b);
    [Add(h[0], v.a), Add(h[1], v.b), Add(h[2], v.c), Add(h[3], v.d), Add(h[4], v.e), Add(h[5], v.f), Add(h[6], v.g),
     Add(h[7], v.h)]
  }

  /** The state after all 128-octet blocks of m, a whole number of them. */
  function Absorb(m: seq<bv8>): (h: seq<bv64>)
    ensures |h| == 8
    decreases |m|
  {
    hide Compress;
    if |m| < 128 then InitialState() else Compress(Absorb(m[..|m| - 128]), m[|m| - 128..])
  }

  /** The n low octets of x, most significant first. */
  function BigEndian(x: nat, n: nat): (b: seq<bv8>)
    ensures |b| == n
  {
    if n == 0 then [] else BigEndian(x / 256, n - 1) + [(x % 256) as bv8]
  }

  function Zeros(n: nat): (z: seq<bv8>)
    ensures |z| == n && forall i :: 0 <= i < n ==> z[i] == 0
  {
    seq(n, _ => 0)
  }

  lemma PadLength(n: nat)
    ensures (n + 1 + (239 - n % 128) % 128 + 16) % 128 == 0
  {
    var q, r := n / 128, n % 128;
    if r < 112 {
      assert (239 - r) % 128 == 111 - r;
      Multiple(q + 1);
      assert n + 1 + (111 - r) + 16 == 128 * (q + 1);
    } else {
      assert (239 - r) % 128 == 239 - r;
      Multiple(q + 2);
      assert n + 1 + (239 - r) + 16 == 128 * (q + 2);
    }
  }

  lemma Multiple(k: nat)
    ensures 128 * k % 128 == 0
  {
  }

  /** Section 5.1.2: a one bit, zeros up to 112 mod 128, and the 128-bit message length. */
  function Pad(m: seq<bv8>): (p: seq<bv8>)
    ensures |p| % 128 == 0
  {
    PadLength(|m|);
    m + [0x80] + Zeros((239 - |m| % 128) % 128) + BigEndian(8 * |m| % 0x1_0000_0000_0000_0000_0000_0000_0000_0000, 16)
  }

  /** The padded message: the fewest whole blocks that hold it, the one bit and the length, zeros between them. */
  lemma PadIs(m: seq<bv8>)
    ensures |m| + 17 <= |Pad(m)| < |m| + 17 + 128 && m + [0x80] <= Pad(m)
    ensures forall i :: |m| < i < |Pad(m)| - 16 ==> Pad(m)[i] == 0
    ensures Pad(m)[|Pad(m)| - 16..] == BigEndian(8 * |m| % 0x1_0000_0000_0000_0000_0000_0000_0000_0000, 16)
  {
    hide BigEndian;
  }

  function Output(h: seq<bv64>): (d: seq<bv8>)
    ensures |d| == 8 * |h|
  {
    if h == [] then [] else Output(h[..|h| - 1]) + Octets(h[|h| - 1])
  }

  function Sha512(m: seq<bv8>): (d: seq<bv8>)
    ensures |d| == 64
  {
    Output(Absorb(Pad(m)))
  }

  /** Storing a word and loading it again. */
  lemma WordRoundTrip(w: bv64)
    ensures WordAt(Octets(w), 0) == w
  {
  }
}
