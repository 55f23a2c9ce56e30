/** The constants of SHA-256 against their definition in sections 4.2.2 and 5.3.3 of FIPS 180-4:
    the first 32 bits of the fractional parts of the cube roots of the first 64 primes, and of
    the square roots of the first eight. */
module Sha256Constants {
  import opened MachineWords
  import opened Sha256
  import Sha256Stream

  const WORD96: nat := 0x1_0000_0000_0000_0000_0000_0000

  const PRIMES0: seq<nat> := [2, 3, 5, 7, 11, 13, 17, 19, 23, 29, 31, 37, 41, 43, 47, 53]
  const PRIMES1: seq<nat> := [59, 61, 67, 71, 73, 79, 83, 89, 97, 101, 103, 107, 109, 113, 127, 131]
  const PRIMES2: seq<nat> := [137, 139, 149, 151, 157, 163, 167, 173, 179, 181, 191, 193, 197, 199, 211, 223]
  const PRIMES3: seq<nat> := [227, 229, 233, 239, 241, 251, 257, 263, 269, 271, 277, 281, 283, 293, 307, 311]

  /** The t-th prime, from 0. */
  function NthPrime(t: nat): nat
    requires t < 64
  {
    match t / 16
    case 0 => PRIMES0[t % 16]
    case 1 => PRIMES1[t % 16]
    case 2 => PRIMES2[t % 16]
    case _ => PRIMES3[t % 16]
  }

  /** whole and the 32 bits after the point are the cube root of p, rounded down. */
  predicate CubeRoot(p: nat, whole: nat, fraction: word) {
    var c := whole * WORD32 + fraction;
    c * c * c <= p * WORD96 < (c + 1) * (c + 1) * (c + 1)
  }

  predicate SquareRoot(p: nat, whole: nat, fraction: word) {
    var c := whole * WORD32 + fraction;
    c * c <= p * WORD64 < (c + 1) * (c + 1)
  }

  /** The whole parts. */
  function WholeCube(p: nat): nat {
    if p < 8 then 1 else if p < 27 then 2 else if p < 64 then 3 else if p < 125 then 4 else if p < 216 then 5 else 6
  }

  function WholeSquare(p: nat): nat {
    if p < 4 then 1 else if p < 9 then 2 else if p < 16 then 3 else 4
  }

  lemma {:induction false} CubeRoots0Low(i: nat)
    requires i < 8
    ensures CubeRoot(PRIMES0[i], WholeCube(PRIMES0[i]), RoundConstants0()[i])
  {
    var k := RoundConstants0();
    assert CubeRoot(2, 1, k[0]);
    assert CubeRoot(3, 1, k[1]);
    assert CubeRoot(5, 1, k[2]);
    assert CubeRoot(7, 1, k[3]);
    assert CubeRoot(11, 2, k[4]);
    assert CubeRoot(13, 2, k[5]);
    assert CubeRoot(17, 2, k[6]);
    assert CubeRoot(19, 2, k[7]);
  }

  lemma {:induction false} CubeRoots0High(i: nat)
    requires 8 <= i < 16
    ensures CubeRoot(PRIMES0[i], WholeCube(PRIMES0[i]), RoundConstants0()[i])
  {
    var k := RoundConstants0();
    assert CubeRoot(23, 2, k[8]);
    assert CubeRoot(29, 3, k[9]);
    assert CubeRoot(31, 3, k[10]);
    assert CubeRoot(37, 3, k[11]);
    assert CubeRoot(41, 3, k[12]);
    assert CubeRoot(43, 3, k[13]);
    assert CubeRoot(47, 3, k[14]);
    assert CubeRoot(53, 3, k[15]);
  }

  lemma {:induction false} CubeRoots1Low(i: nat)
    requires i < 8
    ensures CubeRoot(PRIMES1[i], WholeCube(PRIMES1[i]), RoundConstants1()[i])
  {
    var k := RoundConstants1();
    assert CubeRoot(59, 3, k[0]);
    assert CubeRoot(61, 3, k[1]);
    assert CubeRoot(67, 4, k[2]);
    assert CubeRoot(71, 4, k[3]);
    assert CubeRoot(73, 4, k[4]);
    assert CubeRoot(79, 4, k[5]);
    assert CubeRoot(83, 4, k[6]);
    assert CubeRoot(89, 4, k[7]);
  }

  lemma {:induction false} CubeRoots1High(i: nat)
    requires 8 <= i < 16
    ensures CubeRoot(PRIMES1[i], WholeCube(PRIMES1[i]), RoundConstants1()[i])
  {
    var k := RoundConstants1();
    assert CubeRoot(97, 4, k[8]);
    assert CubeRoot(101, 4, k[9]);
    assert CubeRoot(103, 4, k[10]);
    assert CubeRoot(107, 4, k[11]);
    assert CubeRoot(109, 4, k[12]);
    assert CubeRoot(113, 4, k[13]);
    assert CubeRoot(127, 5, k[14]);
    assert CubeRoot(131, 5, k[15]);
  }

  lemma {:induction false} CubeRoots2Low(i: nat)
    requires i < 8
    ensures CubeRoot(PRIMES2[i], WholeCube(PRIMES2[i]), RoundConstants2()[i])
  {
    var k := RoundConstants2();
    assert CubeRoot(137, 5, k[0]);
    assert CubeRoot(139, 5, k[1]);
    assert CubeRoot(149, 5, k[2]);
    assert CubeRoot(151, 5, k[3]);
    assert CubeRoot(157, 5, k[4]);
    assert CubeRoot(163, 5, k[5]);
    assert CubeRoot(167, 5, k[6]);
    assert CubeRoot(173, 5, k[7]);
  }

  lemma {:induction false} CubeRoots2High(i: nat)
    requires 8 <= i < 16
    ensures CubeRoot(PRIMES2[i], WholeCube(PRIMES2[i]), RoundConstants2()[i])
  {
    var k := RoundConstants2();
    assert CubeRoot(179, 5, k[8]);
    assert CubeRoot(181, 5, k[9]);
    assert CubeRoot(191, 5, k[10]);
    assert CubeRoot(193, 5, k[11]);
    assert CubeRoot(197, 5, k[12]);
    assert CubeRoot(199, 5, k[13]);
    assert CubeRoot(211, 5, k[14]);
    assert CubeRoot(223, 6, k[15]);
  }

  lemma {:induction false} CubeRoots3Low(i: nat)
    requires i < 8
    ensures CubeRoot(PRIMES3[i], WholeCube(PRIMES3[i]), RoundConstants3()[i])
  {
    var k := RoundConstants3();
    assert CubeRoot(227, 6, k[0]);
    assert CubeRoot(229, 6, k[1]);
    assert CubeRoot(233, 6, k[2]);
    assert CubeRoot(239, 6, k[3]);
    assert CubeRoot(241, 6, k[4]);
    assert CubeRoot(251, 6, k[5]);
    assert CubeRoot(257, 6, k[6]);
    assert CubeRoot(263, 6, k[7]);
  }

  lemma {:induction false} CubeRoots3High(i: nat)
    requires 8 <= i < 16
    ensures CubeRoot(PRIMES3[i], WholeCube(PRIMES3[i]), RoundConstants3()[i])
  {
    var k := RoundConstants3();
    assert CubeRoot(269, 6, k[8]);
    assert CubeRoot(271, 6, k[9]);
    assert CubeRoot(277, 6, k[10]);
    assert CubeRoot(281, 6, k[11]);
    assert CubeRoot(283, 6, k[12]);
    assert CubeRoot(293, 6, k[13]);
    assert CubeRoot(307, 6, k[14]);
    assert CubeRoot(311, 6, k[15]);
  }

  /** Every round constant is what the standard defines. */
  lemma {:induction false} RoundConstantsAreCubeRoots(t: nat)
    requires t < 64
    ensures CubeRoot(NthPrime(t), WholeCube(NthPrime(t)), RoundConstants()[t])
  {
    var i := t % 16;
    if i < 8 {
      CubeRoots0Low(i);
      CubeRoots1Low(i);
      CubeRoots2Low(i);
      CubeRoots3Low(i);
    } else {
      CubeRoots0High(i);
      CubeRoots1High(i);
      CubeRoots2High(i);
      CubeRoots3High(i);
    }
  }

  /** And so is every word of the initial hash value. */
  lemma {:induction false} InitialIsSquareRoots(j: nat)
    requires j < 8
    ensures SquareRoot(NthPrime(j), WholeSquare(NthPrime(j)), Sha256Stream.HashWord(Initial(), j))
  {
    var s := Initial();
    assert SquareRoot(2, 1, s.a) && SquareRoot(3, 1, s.b) && SquareRoot(5, 2, s.c) && SquareRoot(7, 2, s.d);
    assert SquareRoot(11, 3, s.e) && SquareRoot(13, 3, s.f) && SquareRoot(17, 4, s.g) && SquareRoot(19, 4, s.h);
  }
}
