/**
 The numbers behind Ed25519, by the definitions of section 5.1 of RFC 8032 instead of their
 digits: p, the order L, d = -121665 / 121666, and the base point with y = 4 / 5 and even x.
 */
module Parameters {
  import opened Bits
  import opened Bytes
  import opened CurveAlgebra
  import opened Edwards
  import opened Modular
  import opened PointCodec
  import opened SignatureChecks
  import opened Torsion
  import Field25519
  import FieldBytes
  import Scalar
  import Signature

  const P := Field25519.P

  const BASE_X: int := 15112221349535400772501151409588531511454012693041857206046113283949847762202
  const BASE_Y: int := 46316835694926478169428394003475163141307993866256225615783033603165251855960

  lemma Orders()
    ensures P == Pow2(255) - 19 && Scalar.L == Pow2(252) + 27742317777372353535851937790883648493
  {
    hide Pow2;
    Signature.Two255();
    SmallPowers();
    Pow2Add(252, 3);
  }

  /** d is the one residue with 121666 d = -121665. */
  lemma CurveConstant(d: int)
    requires 0 <= d < P
    ensures d == D <==> (121666 * d + 121665) % P == 0
  {
    assert (121666 * D + 121665) % P == 0 && 0 <= D < P;
    if (121666 * d + 121665) % P == 0 {
      var k := (121666 * d + 121665) / P - (121666 * D + 121665) / P;
      assert 121666 * (d - D) == P * k;
      Coprime(d - D, k);
    }
  }

  /** p is prime to 121666. */
  lemma Coprime(e: int, k: int)
    requires 121666 * e == P * k && -P < e < P
    ensures e == 0
  {
    assert 121666 * (e - (P / 121666) * k) == (P % 121666) * k;
  }

  lemma BasePoint()
    ensures 0 <= BASE_X < P && 0 <= BASE_Y < P && BASE_X % 2 == 0 && (5 * BASE_Y) % P == 4
    ensures OnCurve(BASE_X, BASE_Y, D, P)
  {
    hide Cong, OnCurve;
    EquationOf(BASE_X, BASE_Y, D, P);
    CongIs(Equation(BASE_X * BASE_X, BASE_Y * BASE_Y, D), 0, P);
  }

  /** The base point is encoded as 58 66 ... 66, and the y of that string has an x. */
  lemma BaseEncoding<T>(c: Curve<T>, a: T, s: seq<byte>)
    requires s == Between(0x58, 0x66, 0x66) && c.x(a) == BASE_X && c.y(a) == BASE_Y
    ensures LeVal(s) == EncodedVal(c, a) && YOf(s) == BASE_Y && exists x :: OnCurve(x, YOf(s), D, P)
  {
    hide LeVal, Between, OnCurve;
    BetweenVal(0x58, 0x66, 0x66);
    BasePoint();
  }
}
