/**
 Where the constants of SHA-256 come from, apart from their table (sections 4.2.2 and 5.3.3 of FIPS 180-4).
 */
module Sha256Constants {
  import opened Sha256

  const ONE := 0x1_0000_0000

  /** k is the first 32 bits behind the point of the cube root of p, and c stands before it. */
  predicate CubeRoot(p: nat, c: nat, k: Word) {
    var r := c * ONE + k;
    r * r * r <= p * (ONE * ONE * ONE) < (r + 1) * (r + 1) * (r + 1)
  }

  predicate SquareRoot(p: nat, c: nat, h: Word) {
    var r := c * ONE + h;
    r * r <= p * (ONE * ONE) < (r + 1) * (r + 1)
  }

  ghost predicate CubeFraction(p: nat, k: Word) {
    exists c: nat :: CubeRoot(p, c, k)
  }

  ghost predicate SquareFraction(p: nat, h: Word) {
    exists c: nat :: SquareRoot(p, c, h)
  }

  ghost predicate CubeFractions(primes: seq<nat>, ks: seq<Word>) {
    |primes| == |ks| && forall i | 0 <= i < |ks| :: CubeFraction(primes[i], ks[i])
  }

  const P0: seq<nat> := [2, 3, 5, 7, 11, 13, 17, 19]
  const P1: seq<nat> := [23, 29, 31, 37, 41, 43, 47, 53]
  const P2: seq<nat> := [59, 61, 67, 71, 73, 79, 83, 89]
  const P3: seq<nat> := [97, 101, 103, 107, 109, 113, 127, 131]
  const P4: seq<nat> := [137, 139, 149, 151, 157, 163, 167, 173]
  const P5: seq<nat> := [179, 181, 191, 193, 197, 199, 211, 223]
  const P6: seq<nat> := [227, 229, 233, 239, 241, 251, 257, 263]
  const P7: seq<nat> := [269, 271, 277, 281, 283, 293, 307, 311]

  /** The first 64 primes. */
  const PRIMES: seq<nat> := P0 + P1 + P2 + P3 + P4 + P5 + P6 + P7

  lemma Row0()
    ensures CubeFractions(P0, K0)
  {
    assert CubeRoot(P0[0], 1, K0[0]);
    assert CubeRoot(P0[1], 1, K0[1]);
    assert CubeRoot(P0[2], 1, K0[2]);
    assert CubeRoot(P0[3], 1, K0[3]);
    assert CubeRoot(P0[4], 2, K0[4]);
    assert CubeRoot(P0[5], 2, K0[5]);
    assert CubeRoot(P0[6], 2, K0[6]);
    assert CubeRoot(P0[7], 2, K0[7]);
  }

  lemma Row1()
    ensures CubeFractions(P1, K1)
  {
    assert CubeRoot(P1[0], 2, K1[0]);
    assert CubeRoot(P1[1], 3, K1[1]);
    assert CubeRoot(P1[2], 3, K1[2]);
    assert CubeRoot(P1[3], 3, K1[3]);
    assert CubeRoot(P1[4], 3, K1[4]);
    assert CubeRoot(P1[5], 3, K1[5]);
    assert CubeRoot(P1[6], 3, K1[6]);
    assert CubeRoot(P1[7], 3, K1[7]);
  }

  lemma Row2()
    ensures CubeFractions(P2, K2)
  {
    assert CubeRoot(P2[0], 3, K2[0]);
    assert CubeRoot(P2[1], 3, K2[1]);
    assert CubeRoot(P2[2], 4, K2[2]);
    assert CubeRoot(P2[3], 4, K2[3]);
    assert CubeRoot(P2[4], 4, K2[4]);
    assert CubeRoot(P2[5], 4, K2[5]);
    assert CubeRoot(P2[6], 4, K2[6]);
    assert CubeRoot(P2[7], 4, K2[7]);
  }

  lemma Row3()
    ensures CubeFractions(P3, K3)
  {
    assert CubeRoot(P3[0], 4, K3[0]);
    assert CubeRoot(P3[1], 4, K3[1]);
    assert CubeRoot(P3[2], 4, K3[2]);
    assert CubeRoot(P3[3], 4, K3[3]);
    assert CubeRoot(P3[4], 4, K3[4]);
    assert CubeRoot(P3[5], 4, K3[5]);
    assert CubeRoot(P3[6], 5, K3[6]);
    assert CubeRoot(P3[7], 5, K3[7]);
  }

  lemma Row4()
    ensures CubeFractions(P4, K4)
  {
    assert CubeRoot(P4[0], 5, K4[0]);
    assert CubeRoot(P4[1], 5, K4[1]);
    assert CubeRoot(P4[2], 5, K4[2]);
    assert CubeRoot(P4[3], 5, K4[3]);
    assert CubeRoot(P4[4], 5, K4[4]);
    assert CubeRoot(P4[5], 5, K4[5]);
    assert CubeRoot(P4[6], 5, K4[6]);
    assert CubeRoot(P4[7], 5, K4[7]);
  }

  lemma Row5()
    ensures CubeFractions(P5, K5)
  {
    assert CubeRoot(P5[0], 5, K5[0]);
    assert CubeRoot(P5[1], 5, K5[1]);
    assert CubeRoot(P5[2], 5, K5[2]);
    assert CubeRoot(P5[3], 5, K5[3]);
    assert CubeRoot(P5[4], 5, K5[4]);
    assert CubeRoot(P5[5], 5, K5[5]);
    assert CubeRoot(P5[6], 5, K5[6]);
    assert CubeRoot(P5[7], 6, K5[7]);
  }

  lemma Row6()
    ensures CubeFractions(P6, K6)
  {
    assert CubeRoot(P6[0], 6, K6[0]);
    assert CubeRoot(P6[1], 6, K6[1]);
    assert CubeRoot(P6[2], 6, K6[2]);
    assert CubeRoot(P6[3], 6, K6[3]);
    assert CubeRoot(P6[4], 6, K6[4]);
    assert CubeRoot(P6[5], 6, K6[5]);
    assert CubeRoot(P6[6], 6, K6[6]);
    assert CubeRoot(P6[7], 6, K6[7]);
  }

  lemma Row7()
    ensures CubeFractions(P7, K7)
  {
    assert CubeRoot(P7[0], 6, K7[0]);
    assert CubeRoot(P7[1], 6, K7[1]);
    assert CubeRoot(P7[2], 6, K7[2]);
    assert CubeRoot(P7[3], 6, K7[3]);
    assert CubeRoot(P7[4], 6, K7[4]);
    assert CubeRoot(P7[5], 6, K7[5]);
    assert CubeRoot(P7[6], 6, K7[6]);
    assert CubeRoot(P7[7], 6, K7[7]);
  }

  lemma MoreFractions(primes: seq<nat>, ks: seq<Word>, more: seq<nat>, ls: seq<Word>)
    requires CubeFractions(primes, ks) && CubeFractions(more, ls)
    ensures CubeFractions(primes + more, ks + ls)
  {
  }

  /** The constants of the rounds are the fractions of the cube roots of the first 64 primes ... */
  lemma RoundConstants()
    ensures CubeFractions(PRIMES, K)
  {
    Row0();
    Row1();
    Row2();
    Row3();
    Row4();
    Row5();
    Row6();
    Row7();
    hide CubeFractions;
    MoreFractions(P0, K0, P1, K1);
    MoreFractions(P0 + P1, K0 + K1, P2, K2);
    MoreFractions(P0 + P1 + P2, K0 + K1 + K2, P3, K3);
    MoreFractions(P0 + P1 + P2 + P3, K0 + K1 + K2 + K3, P4, K4);
    MoreFractions(P0 + P1 + P2 + P3 + P4, K0 + K1 + K2 + K3 + K4, P5, K5);
    MoreFractions(P0 + P1 + P2 + P3 + P4 + P5, K0 + K1 + K2 + K3 + K4 + K5, P6, K6);
    MoreFractions(P0 + P1 + P2 + P3 + P4 + P5 + P6, K0 + K1 + K2 + K3 + K4 + K5 + K6, P7, K7);
  }

  /** ... and the first hash value is those of the square roots of the first eight. */
  lemma FirstHashValue()
    ensures |H0| == 8 && forall i | 0 <= i < 8 :: SquareFraction(P0[i], H0[i])
  {
    assert SquareRoot(P0[0], 1, H0[0]);
    assert SquareRoot(P0[1], 1, H0[1]);
    assert SquareRoot(P0[2], 2, H0[2]);
    assert SquareRoot(P0[3], 2, H0[3]);
    assert SquareRoot(P0[4], 3, H0[4]);
    assert SquareRoot(P0[5], 3, H0[5]);
    assert SquareRoot(P0[6], 4, H0[6]);
    assert SquareRoot(P0[7], 4, H0[7]);
  }
}
