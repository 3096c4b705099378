/** crypto_hash_sha512_init, _update, _final and the one-shot hash. */
module Sha512Stream {
  import opened Bits
  import opened Sha512Impl
  import opened Sha512Spec

  // ---------------------------------------------------------------------
  // The two-word bit count.

  /** The buffered length is recovered from the low count word. */
  lemma Buffered(n: nat, low: nat)
    requires low == 8 * n % TWO64
    ensures low / 8 % 128 == n % 128
  {
    var m := 0x2000_0000_0000_0000;
    assert n == m * (n / m) + n % m;
    DivModUnique(8 * n, TWO64, n / m, 8 * (n % m));
    var k := n % m;
    assert n == 128 * (0x40_0000_0000_0000 * (n / m) + k / 128) + k % 128;
    DivModUnique(n, 128, 0x40_0000_0000_0000 * (n / m) + k / 128, k % 128);
  }

  /** high and low hold the bit length of n octets, modulo 2^128. */
  predicate Counted(hi: nat, low: nat, n: nat)
  {
    hi < TWO64 && low < TWO64 && TWO64 * hi + low == 8 * n % TWO128
  }

  lemma CountLow(hi: nat, low: nat, n: nat)
    requires Counted(hi, low, n)
    ensures low == 8 * n % TWO64
  {
    var q := 8 * n / TWO128;
    assert 8 * n == TWO64 * (TWO64 * q + hi) + low;
    DivModUnique(8 * n, TWO64, TWO64 * q + hi, low);
  }

  /** Adding 8 k to the count in two wrapping words is adding it modulo 2^128. */
  lemma CountAdd(hi: nat, low: nat, n: nat, k: nat, hi': nat, low': nat)
    requires Counted(hi, low, n) && k < TWO64
    requires low' == (low + 8 * k % TWO64) % TWO64
    requires hi' == (hi + (if low' < 8 * k % TWO64 then 1 else 0) + k / 0x2000_0000_0000_0000) % TWO64
    ensures Counted(hi', low', n + k)
  {
    var b1, b0 := 8 * k % TWO64, k / 0x2000_0000_0000_0000;
    var r := k % 0x2000_0000_0000_0000;
    DivModUnique(8 * k, TWO64, b0, 8 * r);
    assert 8 * k == TWO64 * b0 + b1;
    var c := if low' < b1 then 1 else 0;
    assert low + b1 == TWO64 * c + low';
    var s := hi + c + b0;
    assert TWO64 * s + low' == TWO64 * hi + low + 8 * k;
    var q, p := 8 * n / TWO128, s / TWO64;
    assert 8 * (n + k) == TWO128 * (q + p) + (TWO64 * hi' + low');
    DivModUnique(8 * (n + k), TWO128, q + p, TWO64 * hi' + low');
  }

  // ---------------------------------------------------------------------
  // Absorbing whole blocks.

  /** One more block. */
  lemma AbsorbBlock(m: seq<bv8>, b: Block)
    requires |m| % 128 == 0
    ensures |m + b| % 128 == 0 && Absorb(m + b) == Compress(Absorb(m), b)
  {
    hide Compress;
    assert (m + b)[..|m|] == m && (m + b)[|m|..] == b;
  }

  /** Copies in[from..to] into the buffer at offset at. */
  method Copy(buf: array<bv8>, at: nat, src: seq<bv8>)
    requires at + |src| <= buf.Length
    modifies buf
    ensures buf[..] == old(buf[..at]) + src + old(buf[at + |src|..])
  {
    for i := 0 to |src|
      invariant forall k :: 0 <= k < at ==> buf[k] == old(buf[k])
      invariant forall k :: 0 <= k < i ==> buf[at + k] == src[k]
      invariant forall k :: at + i <= k < buf.Length ==> buf[k] == old(buf[k])
    {
      buf[at + i] := src[i];
    }
    ghost var want := old(buf[..at]) + src + old(buf[at + |src|..]);
    assert |want| == buf.Length;
    forall k | 0 <= k < buf.Length
      ensures buf[k] == want[k]
    {
      if at <= k < at + |src| {
        assert buf[at + (k - at)] == src[k - at];
      }
    }
  }

  class Context {
    const state: array<bv64>
    var high: nat
    var low: nat
    const buf: array<bv8>
    ghost var msg: seq<bv8>

    /** The state is the fold over the full blocks, the buffer holds the tail, the count is 8 |msg| mod 2^128. */
    ghost predicate Valid()
      reads this, state, buf
    {
      && state.Length == 8 && buf.Length == 128
      && Counted(high, low, |msg|)
      && Holding(state[..], buf[..], msg)
    }

    /** Nothing of the message is left. */
    ghost predicate Wiped()
      reads this, state, buf
    {
      && high == 0 && low == 0
      && (forall i :: 0 <= i < state.Length ==> state[i] == 0)
      && (forall i :: 0 <= i < buf.Length ==> buf[i] == 0)
    }

    /** crypto_hash_sha512_init. */
    constructor ()
      ensures Valid() && msg == [] && fresh(state) && fresh(buf)
    {
      hide InitialState, Absorb, Counted;
      state := new bv64[8](i requires 0 <= i < 8 => InitialState()[i]);
      high, low := 0, 0;
      buf := new bv8[128];
      msg := [];
      new;
      assert state[..] == InitialState();
      EmptyMessage(state[..], buf[..], msg);
      ZeroCounted();
    }

    /** Adds the bit length of n octets to the count, with the carry between the words. */
    method Count(n: nat, ghost before: nat)
      requires Counted(high, low, before) && n < TWO64
      modifies this`high, this`low
      ensures Counted(high, low, before + n)
    {
      hide Counted;
      var bit1, bit0 := 8 * n % TWO64, n / 0x2000_0000_0000_0000;
      low := (low + bit1) % TWO64;
      if low < bit1 {
        high := (high + 1) % TWO64;
      }
      high := (high + bit0) % TWO64;
      WrapTwice(old(high), if low < bit1 then 1 else 0, bit0);
      CountAdd(old(high), old(low), before, n, high, low);
    }

    /** crypto_hash_sha512_update: appends to the message, however it is split. */
    method Update(src: seq<bv8>)
      requires Valid() && |src| < TWO64
      modifies this, state, buf
      ensures Valid() && msg == old(msg) + src
    {
      hide Counted, Holding, Absorb, Compress;
      if |src| == 0 {
        assert msg + src == msg;
        return;
      }
      CountLow(high, low, |msg|);
      Buffered(|msg|, low);
      var r := low / 8 % 128;
      Count(|src|, |msg|);
      if |src| < 128 - r {
        Copy(buf, r, src);
        StayBuffered(state[..], old(buf[..]), buf[..], msg, src, r);
        msg := msg + src;
        return;
      }
      Copy(buf, r, src[..128 - r]);
      FillBuffer(state[..], old(buf[..]), buf[..], msg, src[..128 - r], r);
      Transform(state, buf[..]);
      ghost var done := msg + src[..128 - r];
      var rest := src[128 - r..];
      while |rest| >= 128
        modifies state
        invariant |done| % 128 == 0 && state[..] == Absorb(done)
        invariant done + rest == msg + src
      {
        AbsorbBlock(done, rest[..128]);
        Transform(state, rest[..128]);
        done := done + rest[..128];
        rest := rest[128..];
      }
      Copy(buf, 0, rest);
      Tail(state[..], buf[..], done, rest);
      msg := msg + src;
    }

    /** SHA512_Pad: one or two more blocks. */
    method PadBuffer()
      requires Valid()
      modifies state, buf
      ensures state[..] == Absorb(Pad(msg))
    {
      hide Counted, Absorb, Compress, BigEndian, Pad, Zeros, PadOctets, Whole;
      CountLow(high, low, |msg|);
      Buffered(|msg|, low);
      LengthOctets(high, low, |msg|);
      ghost var h := state[..];
      var r := low / 8 % 128;
      ghost var a, t := msg[..Whole(|msg|)], msg[Whole(|msg|)..];
      assert msg == a + t;
      if r < 112 {
        Copy(buf, r, PadOctets(112 - r));
        Copy(buf, 112, BigEndian(high, 8) + BigEndian(low, 8));
        PadOneBlock(h, buf[..], a, t);
      } else {
        Copy(buf, r, PadOctets(128 - r));
        ghost var first := buf[..];
        Transform(state, buf[..]);
        Copy(buf, 0, Zeros(112));
        Copy(buf, 112, BigEndian(high, 8) + BigEndian(low, 8));
        PadTwoBlocks(h, first, buf[..], a, t);
      }
      Transform(state, buf[..]);
    }

    /** crypto_hash_sha512_final: the digest of everything absorbed; the context is wiped. */
    method Final() returns (digest: seq<bv8>)
      requires Valid()
      modifies this, state, buf
      ensures digest == Sha512(old(msg)) && Wiped()
    {
      hide Counted, Absorb, Pad, Octets, Holding;
      PadBuffer();
      digest := [];
      for i := 0 to 8
        invariant digest == Output(state[..i])
      {
        digest := digest + Octets(state[i]);
        assert state[..i + 1][..i] == state[..i];
      }
      assert state[..8] == state[..];
      for i := 0 to 8
        modifies state
        invariant forall k :: 0 <= k < i ==> state[k] == 0
      {
        state[i] := 0;
      }
      for i := 0 to 128
        modifies buf
        invariant forall k :: 0 <= k < i ==> buf[k] == 0
      {
        buf[i] := 0;
      }
      high, low := 0, 0;
    }
  }

  /** crypto_hash_sha512. */
  method Hash(src: seq<bv8>) returns (digest: seq<bv8>)
    requires |src| < TWO64
    ensures digest == Sha512(src)
  {
    hide Sha512, Holding, Counted;
    var c := new Context();
    c.Update(src);
    assert [] + src == src;
    digest := c.Final();
  }

  // ---------------------------------------------------------------------
  // Padding and the invariant's lemmas.

  /** The source's PAD: 0x80, then zeros. */
  function PadOctets(n: nat): (p: seq<bv8>)
    requires 1 <= n
    ensures |p| == n
  {
    [0x80] + Zeros(n - 1)
  }

  lemma {:induction false} BigEndianSplit(hi: nat, low: nat, n: nat, k: nat, w: nat)
    requires w == Pow256(n) && low < w
    ensures BigEndian(w * hi + low, k + n) == BigEndian(hi, k) + BigEndian(low, n)
    decreases n
  {
    if n == 0 {
      assert BigEndian(hi, k) + BigEndian(low, 0) == BigEndian(hi, k);
    } else {
      var v := Pow256(n - 1);
      var x := w * hi + low;
      assert x == 256 * (v * hi + low / 256) + low % 256;
      DivModUnique(x, 256, v * hi + low / 256, low % 256);
      BigEndianSplit(hi, low / 256, n - 1, k, v);
      assert BigEndian(hi, k) + BigEndian(low / 256, n - 1) + [(low % 256) as bv8]
             == BigEndian(hi, k) + (BigEndian(low / 256, n - 1) + [(low % 256) as bv8]);
    }
  }

  lemma Pow256Of8()
    ensures Pow256(8) == TWO64
  {
    assert Pow256(2) == 0x1_0000;
    assert Pow256(4) == 256 * (256 * Pow256(2));
    assert Pow256(6) == 256 * (256 * Pow256(4));
    assert Pow256(8) == 256 * (256 * Pow256(6));
  }

  lemma LengthOctets(hi: nat, low: nat, n: nat)
    requires Counted(hi, low, n)
    ensures BigEndian(hi, 8) + BigEndian(low, 8) == BigEndian(8 * n % TWO128, 16)
  {
    Pow256Of8();
    BigEndianSplit(hi, low, 8, 8, TWO64);
  }

  /** With room for the length, padding completes the buffered tail to one block. */
  lemma PadOneBlock(state: seq<bv64>, buf: seq<bv8>, a: seq<bv8>, t: seq<bv8>)
    requires |a| % 128 == 0 && |t| < 112 && state == Absorb(a)
    requires buf == t + PadOctets(112 - |t|) + BigEndian(8 * |a + t| % TWO128, 16)
    ensures |buf| == 128 && Absorb(Pad(a + t)) == Compress(state, buf)
  {
    hide *;
    PadOne(a, t);
    AbsorbBlock(a, buf);
  }

  lemma WholeBlocks(n: nat)
    ensures (n - n % 128) % 128 == 0
  {
    DivModUnique(n - n % 128, 128, n / 128, 0);
  }

  lemma PadOne(a: seq<bv8>, t: seq<bv8>)
    requires |a| % 128 == 0 && |t| < 112
    ensures Pad(a + t) == a + (t + PadOctets(112 - |t|) + BigEndian(8 * |a + t| % TWO128, 16))
  {
    hide BigEndian, Zeros;
    var n := |a + t|;
    assert n % 128 == |t|;
    assert (239 - |t|) % 128 == 111 - |t|;
    Concat(a, t, [0x80], Zeros(111 - |t|), BigEndian(8 * n % TWO128, 16));
  }

  lemma Concat(a: seq<bv8>, t: seq<bv8>, p: seq<bv8>, z: seq<bv8>, l: seq<bv8>)
    ensures (a + t) + p + z + l == a + (t + (p + z) + l)
  {
  }

  /** Otherwise the tail and the first padding fill one block, and a second one holds the length. */
  lemma PadTwoBlocks(state: seq<bv64>, first: seq<bv8>, second: seq<bv8>, a: seq<bv8>, t: seq<bv8>)
    requires |a| % 128 == 0 && 112 <= |t| < 128 && state == Absorb(a)
    requires first == t + PadOctets(128 - |t|) && second == Zeros(112) + BigEndian(8 * |a + t| % TWO128, 16)
    ensures |first| == 128 && |second| == 128 && Absorb(Pad(a + t)) == Compress(Compress(state, first), second)
  {
    hide *;
    PadTwo(a, t);
    AbsorbBlock(a, first);
    AbsorbBlock(a + first, second);
  }

  lemma PadTwo(a: seq<bv8>, t: seq<bv8>)
    requires |a| % 128 == 0 && 112 <= |t| < 128
    ensures Pad(a + t) == a + (t + PadOctets(128 - |t|)) + (Zeros(112) + BigEndian(8 * |a + t| % TWO128, 16))
  {
    hide BigEndian, Zeros;
    var n := |a + t|;
    assert n % 128 == |t|;
    assert (239 - |t|) % 128 == 239 - |t|;
    assert Zeros(239 - |t|) == Zeros(127 - |t|) + Zeros(112);
    Concat2(a, t, [0x80], Zeros(127 - |t|), Zeros(112), BigEndian(8 * n % TWO128, 16));
  }

  lemma Concat2(a: seq<bv8>, t: seq<bv8>, p: seq<bv8>, y: seq<bv8>, z: seq<bv8>, l: seq<bv8>)
    ensures (a + t) + p + (y + z) + l == (a + (t + (p + y))) + (z + l)
  {
  }

  /** The octets of n that fill whole blocks. */
  function Whole(n: nat): (w: nat)
    ensures w <= n < w + 128 && w % 128 == 0 && n - w == n % 128
  {
    WholeBlocks(n);
    n - n % 128
  }

  ghost predicate Holding(state: seq<bv64>, buf: seq<bv8>, msg: seq<bv8>)
  {
    var w := Whole(|msg|);
    |buf| == 128 && buf[..|msg| - w] == msg[w..] && state == Absorb(msg[..w])
  }

  lemma EmptyMessage(state: seq<bv64>, buf: seq<bv8>, msg: seq<bv8>)
    requires |buf| == 128 && state == InitialState() && msg == []
    ensures Holding(state, buf, msg)
  {
    hide InitialState, Whole, Absorb;
    assert Whole(|msg|) == 0 && msg[..0] == [] && buf[..0] == [];
    AbsorbNothing(msg[..0]);
  }

  lemma AbsorbNothing(m: seq<bv8>)
    requires m == []
    ensures Absorb(m) == InitialState()
  {
    hide InitialState, Compress;
  }

  lemma ZeroCounted()
    ensures Counted(0, 0, 0)
  {
  }

  lemma WrapTwice(h: nat, c: nat, b: nat)
    ensures ((h + c) % TWO64 + b) % TWO64 == (h + c + b) % TWO64
  {
    var q := (h + c) / TWO64;
    var x := (h + c) % TWO64 + b;
    DivModUnique(h + c + b, TWO64, q + x / TWO64, x % TWO64);
  }

  lemma StayBuffered(state: seq<bv64>, before: seq<bv8>, buf: seq<bv8>, msg: seq<bv8>, src: seq<bv8>, r: nat)
    requires r + |src| < 128 == |before| && buf == before[..r] + src + before[r + |src|..]
    requires r == |msg| % 128 && Holding(state, before, msg)
    ensures Holding(state, buf, msg + src)
  {
    hide Absorb, Whole;
    var n := Whole(|msg|);
    NextLength(|msg|, |src|);
    var all := msg + src;
    assert all[..n] == msg[..n];
    assert all[n..] == msg[n..] + src;
    assert buf[..r + |src|] == before[..r] + src;
  }

  lemma NextLength(n: nat, k: nat)
    requires n % 128 + k < 128
    ensures (n + k) % 128 == n % 128 + k
  {
  }

  /** A full buffer and the message up to here end on a block boundary. */
  lemma FillBuffer(state: seq<bv64>, before: seq<bv8>, buf: seq<bv8>, msg: seq<bv8>, src: seq<bv8>, r: nat)
    requires r + |src| == 128 == |before| && buf == before[..r] + src + before[r + |src|..]
    requires r == |msg| % 128 && Holding(state, before, msg)
    ensures |buf| == 128 && |msg + src| % 128 == 0 && Absorb(msg + src) == Compress(state, buf)
  {
    hide Absorb, Compress, Whole;
    var n := Whole(|msg|);
    assert buf == msg[n..] + src;
    assert msg + src == msg[..n] + buf;
    AbsorbBlock(msg[..n], buf);
  }

  lemma Tail(state: seq<bv64>, buf: seq<bv8>, done: seq<bv8>, rest: seq<bv8>)
    requires |done| % 128 == 0 && |rest| < 128 && |buf| == 128 && state == Absorb(done) && buf[..|rest|] == rest
    ensures Holding(state, buf, done + rest)
  {
    hide Absorb, Whole;
    NextLength(|done|, |rest|);
    assert (done + rest)[..|done|] == done && (done + rest)[|done|..] == rest;
  }
}
