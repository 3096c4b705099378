/** The accumulator loops that compare byte strings without branching on them. */
module Compare {
  import opened Bits
  import opened Bytes

  lemma {:induction false} OrIsZero(x: nat, y: nat)
    ensures Or(x, y) == 0 <==> x == 0 && y == 0
    decreases x + y
  {
    if !(x == 0 && y == 0) {
      OrIsZero(x / 2, y / 2);
    }
  }

  lemma {:induction false} XorIsZero(x: nat, y: nat)
    ensures Xor(x, y) == 0 <==> x == y
    decreases x + y
  {
    if !(x == 0 && y == 0) {
      XorIsZero(x / 2, y / 2);
    }
  }

  lemma {:induction false} OrXorBelow(x: nat, y: nat, k: nat)
    requires x < Pow2(k) && y < Pow2(k)
    ensures Or(x, y) < Pow2(k) && Xor(x, y) < Pow2(k)
    decreases k
  {
    if k > 0 {
      OrXorBelow(x / 2, y / 2, k - 1);
    }
  }

  /** c |= x ^ y, on bytes: zero exactly when it was zero and the bytes agree. */
  method Differ(c: byte, x: byte, y: byte) returns (c': byte)
    ensures c' == 0 <==> c == 0 && x == y
  {
    hide Or, Xor;
    Pow2Of8();
    OrXorBelow(x, y, 8);
    OrXorBelow(c, Xor(x, y), 8);
    OrIsZero(c, Xor(x, y));
    XorIsZero(x, y);
    c' := Or(c, Xor(x, y));
  }

  /** crypto_verify_32: 0 when the strings agree, -1 when they do not. */
  method Verify32(x: seq<byte>, y: seq<byte>) returns (r: int)
    requires |x| == 32 && |y| == 32
    ensures r == if x == y then 0 else -1
  {
    var d: byte := 0;
    for i := 0 to 32
      invariant d == 0 <==> x[..i] == y[..i]
    {
      assert x[..i + 1] == x[..i] + [x[i]] && y[..i + 1] == y[..i] + [y[i]];
      d := Differ(d, x[i], y[i]);
    }
    assert x[..32] == x && y[..32] == y;
    // d - 1 is an unsigned 64-bit number: zero wraps to all ones.
    var below := (d as int - 1) % 0x1_0000_0000_0000_0000;
    r := below / 0x100 % 2 - 1;
  }
}
