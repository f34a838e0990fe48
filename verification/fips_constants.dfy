/** Where the constants of FIPS 180-4 come from, sections 4.2.2 and 5.3.3: fractional bits
    of the roots of the first primes. */
module FipsConstants {
  import opened Words
  import opened Fips180

  // The first 64 primes.
  const PRIMES: seq<seq<nat>> := [
    [2, 3, 5, 7, 11, 13, 17, 19],
    [23, 29, 31, 37, 41, 43, 47, 53],
    [59, 61, 67, 71, 73, 79, 83, 89],
    [97, 101, 103, 107, 109, 113, 127, 131],
    [137, 139, 149, 151, 157, 163, 167, 173],
    [179, 181, 191, 193, 197, 199, 211, 223],
    [227, 229, 233, 239, 241, 251, 257, 263],
    [269, 271, 277, 281, 283, 293, 307, 311]
  ]

  function PrimeAt(t: nat): (p: nat)
    requires t < 64
  {
    PRIMES[t / 8][t % 8]
  }

  function Cube(x: nat): nat {
    x * x * x
  }

  /** The cube root of p has integer part n, and k is the first 32 bits of its fractional
      part. */
  predicate CubeRootBits(p: nat, n: nat, k: Word) {
    && Cube(n) <= p < Cube(n + 1)
    && Cube(n * 0x1_0000_0000 + k) <= p * 0x1_0000_0000_0000_0000_0000_0000 < Cube(n * 0x1_0000_0000 + k + 1)
  }

  function Square(x: nat): nat {
    x * x
  }

  /** The same of square roots. */
  predicate SquareRootBits(p: nat, n: nat, h: Word) {
    && Square(n) <= p < Square(n + 1)
    && Square(n * 0x1_0000_0000 + h) <= p * 0x1_0000_0000_0000_0000 < Square(n * 0x1_0000_0000 + h + 1)
  }

  lemma Row0() returns (ns: seq<nat>)
    ensures |ns| == 8 && forall j :: 0 <= j < 8 ==> CubeRootBits(PRIMES[0][j], ns[j], ROUND_CONSTANTS[0][j])
  {
    ns := [1, 1, 1, 1, 2, 2, 2, 2];
    assert CubeRootBits(2, 1, 0x428a2f98);
    assert CubeRootBits(3, 1, 0x71374491);
    assert CubeRootBits(5, 1, 0xb5c0fbcf);
    assert CubeRootBits(7, 1, 0xe9b5dba5);
    assert CubeRootBits(11, 2, 0x3956c25b);
    assert CubeRootBits(13, 2, 0x59f111f1);
    assert CubeRootBits(17, 2, 0x923f82a4);
    assert CubeRootBits(19, 2, 0xab1c5ed5);
    hide CubeRootBits;
  }

  lemma Row1() returns (ns: seq<nat>)
    ensures |ns| == 8 && forall j :: 0 <= j < 8 ==> CubeRootBits(PRIMES[1][j], ns[j], ROUND_CONSTANTS[1][j])
  {
    ns := [2, 3, 3, 3, 3, 3, 3, 3];
    assert CubeRootBits(23, 2, 0xd807aa98);
    assert CubeRootBits(29, 3, 0x12835b01);
    assert CubeRootBits(31, 3, 0x243185be);
    assert CubeRootBits(37, 3, 0x550c7dc3);
    assert CubeRootBits(41, 3, 0x72be5d74);
    assert CubeRootBits(43, 3, 0x80deb1fe);
    assert CubeRootBits(47, 3, 0x9bdc06a7);
    assert CubeRootBits(53, 3, 0xc19bf174);
    hide CubeRootBits;
  }

  lemma Row2() returns (ns: seq<nat>)
    ensures |ns| == 8 && forall j :: 0 <= j < 8 ==> CubeRootBits(PRIMES[2][j], ns[j], ROUND_CONSTANTS[2][j])
  {
    ns := [3, 3, 4, 4, 4, 4, 4, 4];
    assert CubeRootBits(59, 3, 0xe49b69c1);
    assert CubeRootBits(61, 3, 0xefbe4786);
    assert CubeRootBits(67, 4, 0x0fc19dc6);
    assert CubeRootBits(71, 4, 0x240ca1cc);
    assert CubeRootBits(73, 4, 0x2de92c6f);
    assert CubeRootBits(79, 4, 0x4a7484aa);
    assert CubeRootBits(83, 4, 0x5cb0a9dc);
    assert CubeRootBits(89, 4, 0x76f988da);
    hide CubeRootBits;
  }

  lemma Row3() returns (ns: seq<nat>)
    ensures |ns| == 8 && forall j :: 0 <= j < 8 ==> CubeRootBits(PRIMES[3][j], ns[j], ROUND_CONSTANTS[3][j])
  {
    ns := [4, 4, 4, 4, 4, 4, 5, 5];
    assert CubeRootBits(97, 4, 0x983e5152);
    assert CubeRootBits(101, 4, 0xa831c66d);
    assert CubeRootBits(103, 4, 0xb00327c8);
    assert CubeRootBits(107, 4, 0xbf597fc7);
    assert CubeRootBits(109, 4, 0xc6e00bf3);
    assert CubeRootBits(113, 4, 0xd5a79147);
    assert CubeRootBits(127, 5, 0x06ca6351);
    assert CubeRootBits(131, 5, 0x14292967);
    hide CubeRootBits;
  }

  lemma Row4() returns (ns: seq<nat>)
    ensures |ns| == 8 && forall j :: 0 <= j < 8 ==> CubeRootBits(PRIMES[4][j], ns[j], ROUND_CONSTANTS[4][j])
  {
    ns := [5, 5, 5, 5, 5, 5, 5, 5];
    assert CubeRootBits(137, 5, 0x27b70a85);
    assert CubeRootBits(139, 5, 0x2e1b2138);
    assert CubeRootBits(149, 5, 0x4d2c6dfc);
    assert CubeRootBits(151, 5, 0x53380d13);
    assert CubeRootBits(157, 5, 0x650a7354);
    assert CubeRootBits(163, 5, 0x766a0abb);
    assert CubeRootBits(167, 5, 0x81c2c92e);
    assert CubeRootBits(173, 5, 0x92722c85);
    hide CubeRootBits;
  }

  lemma Row5() returns (ns: seq<nat>)
    ensures |ns| == 8 && forall j :: 0 <= j < 8 ==> CubeRootBits(PRIMES[5][j], ns[j], ROUND_CONSTANTS[5][j])
  {
    ns := [5, 5, 5, 5, 5, 5, 5, 6];
    assert CubeRootBits(179, 5, 0xa2bfe8a1);
    assert CubeRootBits(181, 5, 0xa81a664b);
    assert CubeRootBits(191, 5, 0xc24b8b70);
    assert CubeRootBits(193, 5, 0xc76c51a3);
    assert CubeRootBits(197, 5, 0xd192e819);
    assert CubeRootBits(199, 5, 0xd6990624);
    assert CubeRootBits(211, 5, 0xf40e3585);
    assert CubeRootBits(223, 6, 0x106aa070);
    hide CubeRootBits;
  }

  lemma Row6() returns (ns: seq<nat>)
    ensures |ns| == 8 && forall j :: 0 <= j < 8 ==> CubeRootBits(PRIMES[6][j], ns[j], ROUND_CONSTANTS[6][j])
  {
    ns := [6, 6, 6, 6, 6, 6, 6, 6];
    assert CubeRootBits(227, 6, 0x19a4c116);
    assert CubeRootBits(229, 6, 0x1e376c08);
    assert CubeRootBits(233, 6, 0x2748774c);
    assert CubeRootBits(239, 6, 0x34b0bcb5);
    assert CubeRootBits(241, 6, 0x391c0cb3);
    assert CubeRootBits(251, 6, 0x4ed8aa4a);
    assert CubeRootBits(257, 6, 0x5b9cca4f);
    assert CubeRootBits(263, 6, 0x682e6ff3);
    hide CubeRootBits;
  }

  lemma Row7() returns (ns: seq<nat>)
    ensures |ns| == 8 && forall j :: 0 <= j < 8 ==> CubeRootBits(PRIMES[7][j], ns[j], ROUND_CONSTANTS[7][j])
  {
    ns := [6, 6, 6, 6, 6, 6, 6, 6];
    assert CubeRootBits(269, 6, 0x748f82ee);
    assert CubeRootBits(271, 6, 0x78a5636f);
    assert CubeRootBits(277, 6, 0x84c87814);
    assert CubeRootBits(281, 6, 0x8cc70208);
    assert CubeRootBits(283, 6, 0x90befffa);
    assert CubeRootBits(293, 6, 0xa4506ceb);
    assert CubeRootBits(307, 6, 0xbef9a3f7);
    assert CubeRootBits(311, 6, 0xc67178f2);
    hide CubeRootBits;
  }

  /** Section 4.2.2: round constant t is the first 32 bits of the fractional part of the
      cube root of the t-th prime. */
  lemma RoundConstants(t: nat) returns (n: nat)
    requires t < 64
    ensures CubeRootBits(PrimeAt(t), n, K(t))
  {
    hide CubeRootBits;
    var ns: seq<nat>;
    match t / 8 {
      case 0 => ns := Row0();
      case 1 => ns := Row1();
      case 2 => ns := Row2();
      case 3 => ns := Row3();
      case 4 => ns := Row4();
      case 5 => ns := Row5();
      case 6 => ns := Row6();
      case 7 => ns := Row7();
    }
    n := ns[t % 8];
  }

  /** Section 5.3.3: the initial hash value is the first 32 bits of the fractional parts of
      the square roots of the first eight primes. */
  lemma InitialValue()
    ensures var h := INITIAL;
      && SquareRootBits(2, 1, h.a) && SquareRootBits(3, 1, h.b) && SquareRootBits(5, 2, h.c) && SquareRootBits(7, 2, h.d)
      && SquareRootBits(11, 3, h.e) && SquareRootBits(13, 3, h.f) && SquareRootBits(17, 4, h.g) && SquareRootBits(19, 4, h.h)
  {
  }

  /** Section 4.1.2: where the sigma functions send a single bit shows their three rotations
      or shifts. */
  lemma SingleBits()
    ensures BigSigma0(1) == 0x4008_0400 && BigSigma1(1) == 0x0420_0080
    ensures SmallSigma0(0x8000_0000) == 0x1100_2000 && SmallSigma1(0x8000_0000) == 0x0020_5000
  {
  }
}
