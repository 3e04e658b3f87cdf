/** The constants of SHA-256 are the ones sections 4.2.2 and 5.3.3 of FIPS 180-4 define: the first
    32 bits of the fractional parts of the cube roots and the square roots of the first primes. */
module Sha256Constants {
  import opened Bytes
  import opened Fips180

  // The first 64 primes, eight at a time
  const P0: seq<nat> := [2, 3, 5, 7, 11, 13, 17, 19]
  const P1: seq<nat> := [23, 29, 31, 37, 41, 43, 47, 53]
  const P2: seq<nat> := [59, 61, 67, 71, 73, 79, 83, 89]
  const P3: seq<nat> := [97, 101, 103, 107, 109, 113, 127, 131]
  const P4: seq<nat> := [137, 139, 149, 151, 157, 163, 167, 173]
  const P5: seq<nat> := [179, 181, 191, 193, 197, 199, 211, 223]
  const P6: seq<nat> := [227, 229, 233, 239, 241, 251, 257, 263]
  const P7: seq<nat> := [269, 271, 277, 281, 283, 293, 307, 311]
  const PRIMES: seq<seq<nat>> := [P0, P1, P2, P3, P4, P5, P6, P7]

  const U32: nat := 0x1_0000_0000

  function Cube(n: nat): nat { n * n * n }
  function Square(n: nat): nat { n * n }

  /** w is the first 32 bits after the point of the cube root of p, whose whole part is q. */
  predicate CubeRoot(p: nat, q: nat, w: Word) {
    Cube(q * U32 + w as nat) <= p * Cube(U32) < Cube(q * U32 + w as nat + 1)
  }

  predicate SquareRoot(p: nat, q: nat, w: Word) {
    Square(q * U32 + w as nat) <= p * Square(U32) < Square(q * U32 + w as nat + 1)
  }

  lemma Row0()
    ensures CubeRoot(2, 1, K0[0]) && CubeRoot(3, 1, K0[1]) && CubeRoot(5, 1, K0[2]) && CubeRoot(7, 1, K0[3])
    ensures CubeRoot(11, 2, K0[4]) && CubeRoot(13, 2, K0[5]) && CubeRoot(17, 2, K0[6]) && CubeRoot(19, 2, K0[7])
  {
  }

  lemma Row1()
    ensures CubeRoot(23, 2, K1[0]) && CubeRoot(29, 3, K1[1]) && CubeRoot(31, 3, K1[2]) && CubeRoot(37, 3, K1[3])
    ensures CubeRoot(41, 3, K1[4]) && CubeRoot(43, 3, K1[5]) && CubeRoot(47, 3, K1[6]) && CubeRoot(53, 3, K1[7])
  {
  }

  lemma Row2()
    ensures CubeRoot(59, 3, K2[0]) && CubeRoot(61, 3, K2[1]) && CubeRoot(67, 4, K2[2]) && CubeRoot(71, 4, K2[3])
    ensures CubeRoot(73, 4, K2[4]) && CubeRoot(79, 4, K2[5]) && CubeRoot(83, 4, K2[6]) && CubeRoot(89, 4, K2[7])
  {
  }

  lemma Row3()
    ensures CubeRoot(97, 4, K3[0]) && CubeRoot(101, 4, K3[1]) && CubeRoot(103, 4, K3[2]) && CubeRoot(107, 4, K3[3])
    ensures CubeRoot(109, 4, K3[4]) && CubeRoot(113, 4, K3[5]) && CubeRoot(127, 5, K3[6]) && CubeRoot(131, 5, K3[7])
  {
  }

  lemma Row4()
    ensures CubeRoot(137, 5, K4[0]) && CubeRoot(139, 5, K4[1]) && CubeRoot(149, 5, K4[2]) && CubeRoot(151, 5, K4[3])
    ensures CubeRoot(157, 5, K4[4]) && CubeRoot(163, 5, K4[5]) && CubeRoot(167, 5, K4[6]) && CubeRoot(173, 5, K4[7])
  {
  }

  lemma Row5()
    ensures CubeRoot(179, 5, K5[0]) && CubeRoot(181, 5, K5[1]) && CubeRoot(191, 5, K5[2]) && CubeRoot(193, 5, K5[3])
    ensures CubeRoot(197, 5, K5[4]) && CubeRoot(199, 5, K5[5]) && CubeRoot(211, 5, K5[6]) && CubeRoot(223, 6, K5[7])
  {
  }

  lemma Row6()
    ensures CubeRoot(227, 6, K6[0]) && CubeRoot(229, 6, K6[1]) && CubeRoot(233, 6, K6[2]) && CubeRoot(239, 6, K6[3])
    ensures CubeRoot(241, 6, K6[4]) && CubeRoot(251, 6, K6[5]) && CubeRoot(257, 6, K6[6]) && CubeRoot(263, 6, K6[7])
  {
  }

  lemma Row7()
    ensures CubeRoot(269, 6, K7[0]) && CubeRoot(271, 6, K7[1]) && CubeRoot(277, 6, K7[2]) && CubeRoot(281, 6, K7[3])
    ensures CubeRoot(283, 6, K7[4]) && CubeRoot(293, 6, K7[5]) && CubeRoot(307, 6, K7[6]) && CubeRoot(311, 6, K7[7])
  {
  }

  ghost predicate CubeRootBits(p: nat, w: Word) {
    exists q: nat :: CubeRoot(p, q, w)
  }

  function PrimeAt(t: nat): nat
    requires t < 64
  {
    PRIMES[t / 8][t % 8]
  }

  /** Section 4.2.2: every constant of a round. */
  lemma RoundConstants(t: nat)
    requires t < 64
    ensures CubeRootBits(PrimeAt(t), KAt(t))
  {
    hide CubeRoot;
    Row0(); Row1(); Row2(); Row3(); Row4(); Row5(); Row6(); Row7();
    assert t / 8 in {0, 1, 2, 3, 4, 5, 6, 7} && t % 8 in {0, 1, 2, 3, 4, 5, 6, 7};
  }

  /** Section 5.3.3: the initial hash value. */
  lemma InitialValue()
    ensures SquareRoot(2, 1, H0.a) && SquareRoot(3, 1, H0.b) && SquareRoot(5, 2, H0.c) && SquareRoot(7, 2, H0.d)
    ensures SquareRoot(11, 3, H0.e) && SquareRoot(13, 3, H0.f) && SquareRoot(17, 4, H0.g) && SquareRoot(19, 4, H0.h)
  {
  }
}
