/**
 The streaming SHA-512 of the source: an eight-word state, a 128-bit bit count in
 two words and a 128-octet buffer, all updated in place. The scratch arrays for
 the schedule and the working variables are local to the transform.
 */
module Sha512Impl {
  import opened Bits
  import opened Sha512Spec

  // ---------------------------------------------------------------------
  // The transform.

  /** The source's forms of Ch and Maj. */
  function ChMacro(x: bv64, y: bv64, z: bv64): bv64 { (x & (y ^ z)) ^ z }

  function MajMacro(x: bv64, y: bv64, z: bv64): bv64 { (x & (y | z)) | (y & z) }

  lemma ChBits(x: bv64, y: bv64, z: bv64)
    ensures (x & (y ^ z)) ^ z == (x & y) ^ (!x & z)
  {
  }

  lemma MajBits(x: bv64, y: bv64, z: bv64)
    ensures (x & (y | z)) | (y & z) == (x & y) ^ (x & z) ^ (y & z)
  {
  }

  lemma MacrosAgree(x: bv64, y: bv64, z: bv64)
    ensures ChMacro(x, y, z) == Ch(x, y, z) && MajMacro(x, y, z) == Maj(x, y, z)
  {
    ChBits(x, y, z);
    MajBits(x, y, z);
  }

  lemma AddAssoc(x: bv64, y: bv64, z: bv64)
    ensures Add(Add(x, y), z) == Add(x, Add(y, z))
  {
    calc {
      Add(Add(x, y), z);
      Add(x + y, z);
      x + (y + z);
      Add(x, y + z);
      Add(x, Add(y, z));
    }
  }

  lemma AddComm(x: bv64, y: bv64)
    ensures Add(x, y) == Add(y, x)
  {
  }

  lemma Regroup(h: bv64, s: bv64, c: bv64, w: bv64, k: bv64)
    ensures Add(h, Add(Add(s, c), Add(w, k))) == Add(Add(Add(Add(h, s), c), k), w)
  {
    hide Add;
    AddAssoc(h, Add(s, c), Add(w, k));
    AddAssoc(h, s, c);
    AddComm(w, k);
    AddAssoc(Add(Add(h, s), c), k, w);
  }

  /** The slot that holds working variable j before round t. */
  function Slot(t: nat, j: nat): (i: nat)
    requires t <= 80
    ensures i < 8
  {
    (80 - t + j) % 8
  }

  ghost predicate Holds(s: seq<bv64>, t: nat, v: Working)
    requires |s| == 8 && t <= 80
  {
    && s[Slot(t, 0)] == v.a && s[Slot(t, 1)] == v.b && s[Slot(t, 2)] == v.c && s[Slot(t, 3)] == v.d
    && s[Slot(t, 4)] == v.e && s[Slot(t, 5)] == v.f && s[Slot(t, 6)] == v.g && s[Slot(t, 7)] == v.h
  }

  lemma SlotsRotate(t: nat)
    requires t < 80
    ensures Slot(t + 1, 0) == Slot(t, 7) && Slot(t + 1, 1) == Slot(t, 0) && Slot(t + 1, 2) == Slot(t, 1)
    ensures Slot(t + 1, 3) == Slot(t, 2) && Slot(t + 1, 4) == Slot(t, 3) && Slot(t + 1, 5) == Slot(t, 4)
    ensures Slot(t + 1, 6) == Slot(t, 5) && Slot(t + 1, 7) == Slot(t, 6)
  {
  }

  lemma SlotsDiffer(t: nat)
    requires t <= 80
    ensures Slot(t, 3) != Slot(t, 0) && Slot(t, 3) != Slot(t, 1) && Slot(t, 3) != Slot(t, 2) && Slot(t, 3) != Slot(t, 4)
    ensures Slot(t, 3) != Slot(t, 5) && Slot(t, 3) != Slot(t, 6) && Slot(t, 3) != Slot(t, 7)
    ensures Slot(t, 7) != Slot(t, 0) && Slot(t, 7) != Slot(t, 1) && Slot(t, 7) != Slot(t, 2) && Slot(t, 7) != Slot(t, 4)
    ensures Slot(t, 7) != Slot(t, 5) && Slot(t, 7) != Slot(t, 6)
  {
    hide Slot;
    SlotsApart(t, 3, 0);
    SlotsApart(t, 3, 1);
    SlotsApart(t, 3, 2);
    SlotsApart(t, 3, 4);
    SlotsApart(t, 3, 5);
    SlotsApart(t, 3, 6);
    SlotsApart(t, 3, 7);
    SlotsApart(t, 7, 0);
    SlotsApart(t, 7, 1);
    SlotsApart(t, 7, 2);
    SlotsApart(t, 7, 4);
    SlotsApart(t, 7, 5);
    SlotsApart(t, 7, 6);
  }

  lemma SlotsApart(t: nat, i: nat, j: nat)
    requires t <= 80 && i < 8 && j < 8 && i != j
    ensures Slot(t, i) != Slot(t, j)
  {
    var a, b := (80 - t + i) / 8, (80 - t + j) / 8;
    assert 80 - t + i == 8 * a + Slot(t, i) && 80 - t + j == 8 * b + Slot(t, j);
  }

  /** Writing t1 + t2 into the slot of h and d + t1 into that of d is one round, seen with the slots rotated. */
  lemma RoundHolds(s: seq<bv64>, t: nat, v: Working, k: bv64, w: bv64)
    requires |s| == 8 && t < 80 && Holds(s, t, v)
    ensures Slot(t, 3) != Slot(t, 7)
    ensures var v' := Round(v, k, w); Holds(s[Slot(t, 7) := v'.a][Slot(t, 3) := v'.e], t + 1, v')
  {
    hide Slot, BigSigma0, BigSigma1, Ch, Maj, Add;
    SlotsRotate(t);
    SlotsDiffer(t);
  }

  /** RND: the new values of d and h. */
  method Rnd(a: bv64, b: bv64, c: bv64, d: bv64, e: bv64, f: bv64, g: bv64, h: bv64, w: bv64, k: bv64)
    returns (d': bv64, h': bv64)
    ensures var v := Round(Working(a, b, c, d, e, f, g, h), k, w); d' == v.e && h' == v.a
  {
    hide ChMacro, MajMacro, BigSigma0, BigSigma1, Ch, Maj, Add;
    MacrosAgree(e, f, g);
    MacrosAgree(a, b, c);
    Regroup(h, BigSigma1(e), Ch(e, f, g), w, k);
    h' := Add(h, Add(Add(BigSigma1(e), ChMacro(e, f, g)), Add(w, k)));
    d' := Add(d, h');
    h' := Add(h', Add(BigSigma0(a), MajMacro(a, b, c)));
  }

  /** RNDr: RND on the rotated slots; only the slots of d and h are written. */
  method RndAt(S: array<bv64>, t: nat, w: bv64, k: bv64, ghost v: Working)
    requires S.Length == 8 && t < 80 && Holds(S[..], t, v)
    modifies S
    ensures Holds(S[..], t + 1, Round(v, k, w))
  {
    hide Slot, Round;
    ghost var s := S[..];
    RoundHolds(s, t, v, k, w);
    assert v == Working(S[Slot(t, 0)], S[Slot(t, 1)], S[Slot(t, 2)], S[Slot(t, 3)], S[Slot(t, 4)], S[Slot(t, 5)],
                        S[Slot(t, 6)], S[Slot(t, 7)]);
    hide Holds;
    var d, h := Rnd(S[Slot(t, 0)], S[Slot(t, 1)], S[Slot(t, 2)], S[Slot(t, 3)],
                    S[Slot(t, 4)], S[Slot(t, 5)], S[Slot(t, 6)], S[Slot(t, 7)], w, k);
    S[Slot(t, 7)] := h;
    S[Slot(t, 3)] := d;
    assert S[..] == s[Slot(t, 7) := h][Slot(t, 3) := d];
  }

  lemma {:induction false} SchedulePrefix(b: Block, n: nat, m: nat)
    requires n <= m <= 80
    ensures Schedule(b, m)[..n] == Schedule(b, n)
    decreases m
  {
    hide SmallSigma0, SmallSigma1, WordAt, Add;
    if n < m {
      SchedulePrefix(b, n, m - 1);
      assert Schedule(b, m)[..m - 1] == Schedule(b, m - 1);
      assert Schedule(b, m)[..n] == Schedule(b, m)[..m - 1][..n];
    }
  }

  lemma ScheduleNext(b: Block, w: seq<bv64>, t: nat)
    requires 16 <= t < 80 && |w| == 80 && w[..t] == Schedule(b, t)
    ensures Schedule(b, t + 1) == Schedule(b, t)
                                  + [Add(Add(Add(SmallSigma1(w[t - 2]), w[t - 7]), SmallSigma0(w[t - 15])), w[t - 16])]
  {
    hide SmallSigma0, SmallSigma1, WordAt, Add;
    assert w[t - 2] == w[..t][t - 2] && w[t - 7] == w[..t][t - 7] && w[t - 15] == w[..t][t - 15]
           && w[t - 16] == w[..t][t - 16];
  }

  /** be64dec_vect: the first sixteen schedule words. */
  method LoadBlock(W: array<bv64>, b: Block)
    requires W.Length == 80
    modifies W
    ensures W[..16] == Schedule(b, 16)
  {
    hide WordAt, SmallSigma0, SmallSigma1, Add;
    for i := 0 to 16
      invariant W[..i] == Schedule(b, i)
    {
      W[i] := WordAt(b, i);
      assert W[..i + 1] == W[..i] + [WordAt(b, i)];
    }
  }

  /** MSCH for sixteen words: extends the schedule from n to n + 16. */
  method Extend(W: array<bv64>, n: nat, ghost b: Block)
    requires W.Length == 80 && 16 <= n <= 64 && W[..n] == Schedule(b, n)
    modifies W
    ensures W[..n + 16] == Schedule(b, n + 16)
  {
    hide SmallSigma0, SmallSigma1, Add, Schedule;
    for j := 0 to 16
      invariant W[..n + j] == Schedule(b, n + j)
    {
      var t := n + j;
      ScheduleNext(b, W[..], t);
      assert W[..][..t] == W[..t];
      W[t] := Add(Add(Add(SmallSigma1(W[t - 2]), W[t - 7]), SmallSigma0(W[t - 15])), W[t - 16]);
      assert W[..t + 1] == W[..t] + [W[t]];
    }
  }

  /** Sixteen rounds. */
  method SixteenRounds(S: array<bv64>, W: array<bv64>, n: nat, ghost h: seq<bv64>, ghost b: Block)
    requires S.Length == 8 && W.Length == 80 && S != W && n <= 64 && |h| == 8
    requires W[..n + 16] == Schedule(b, n + 16) && Holds(S[..], n, Rounds(h, b, n))
    modifies S
    ensures Holds(S[..], n + 16, Rounds(h, b, n + 16))
  {
    hide Schedule, KTable, Holds, Round;
    var K := KTable();
    ghost var w := W[..n + 16];
    for j := 0 to 16
      invariant W[..n + 16] == w
      invariant Holds(S[..], n + j, Rounds(h, b, n + j))
    {
      var t := n + j;
      SchedulePrefix(b, n + 16, 80);
      assert W[t] == w[t] == Schedule(b, 80)[..n + 16][t];
      RndAt(S, t, W[t], K[t], Rounds(h, b, t));
    }
  }

  /** The working variables in their own slots. */
  function Slots(v: Working): (s: seq<bv64>)
    ensures |s| == 8
  {
    [v.a, v.b, v.c, v.d, v.e, v.f, v.g, v.h]
  }

  /** The block-wise loop: sixteen rounds, then sixteen more schedule words, five times. */
  method EightyRounds(S: array<bv64>, W: array<bv64>, b: Block, ghost h: seq<bv64>)
    requires S.Length == 8 && W.Length == 80 && S != W && |h| == 8
    requires S[..] == h && W[..16] == Schedule(b, 16)
    modifies S, W
    ensures S[..] == Slots(AllRounds(h, b))
  {
    hide Schedule, KTable, Round, Holds, Slot;
    StartHolds(S[..], h);
    var i := 0;
    while i < 80
      invariant i % 16 == 0 && 0 <= i <= 64
      invariant W[..i + 16] == Schedule(b, i + 16)
      invariant Holds(S[..], i, Rounds(h, b, i))
      decreases 80 - i
    {
      SixteenRounds(S, W, i, h, b);
      if i == 64 {
        break;
      }
      Extend(W, i + 16, b);
      i := i + 16;
    }
    FinalSlots(S[..], AllRounds(h, b));
  }

  /** SHA512_Transform: one application of the compression function. */
  method Transform(state: array<bv64>, b: Block)
    requires state.Length == 8
    modifies state
    ensures state[..] == Compress(old(state[..]), b)
  {
    hide Schedule, AllRounds, Add, Compress;
    ghost var h := state[..];
    var W, S := new bv64[80], new bv64[8];
    LoadBlock(W, b);
    CopyState(S, state);
    EightyRounds(S, W, b, h);
    AddInto(state, S);
    AddedIs(h, b, S[..], state[..]);
  }

  /** S[i] = state[i]. */
  method CopyState(S: array<bv64>, state: array<bv64>)
    requires S.Length == 8 && state.Length == 8 && S != state
    modifies S
    ensures S[..] == state[..]
  {
    for i := 0 to 8
      invariant S[..i] == state[..i]
    {
      S[i] := state[i];
    }
  }

  lemma AddedIs(h: seq<bv64>, b: Block, s: seq<bv64>, r: seq<bv64>)
    requires |h| == 8 && |r| == 8 && s == Slots(AllRounds(h, b)) && forall k :: 0 <= k < 8 ==> r[k] == Add(h[k], s[k])
    ensures r == Compress(h, b)
  {
    hide AllRounds, Add;
    var v := AllRounds(h, b);
    assert s[0] == v.a && s[1] == v.b && s[2] == v.c && s[3] == v.d && s[4] == v.e && s[5] == v.f && s[6] == v.g
           && s[7] == v.h;
    hide Slots;
    assert r == [r[0], r[1], r[2], r[3], r[4], r[5], r[6], r[7]];
  }

  /** The last loop of the transform: state[i] += S[i]. */
  method AddInto(state: array<bv64>, S: array<bv64>)
    requires state.Length == 8 && S.Length == 8 && state != S
    modifies state
    ensures forall k :: 0 <= k < 8 ==> state[k] == Add(old(state[k]), S[k])
  {
    hide Add;
    for j := 0 to 8
      invariant forall k :: 0 <= k < j ==> state[k] == Add(old(state[k]), S[k])
      invariant forall k :: j <= k < 8 ==> state[k] == old(state[k])
    {
      state[j] := Add(state[j], S[j]);
    }
  }

  lemma StartHolds(s: seq<bv64>, h: seq<bv64>)
    requires |s| == 8 && |h| == 8
    ensures s == h ==> Holds(s, 0, Start(h))
  {
  }

  /** After 80 rounds the slots are back in place. */
  lemma FinalSlots(s: seq<bv64>, v: Working)
    requires |s| == 8 && Holds(s, 80, v)
    ensures s == Slots(v)
  {
  }
}
