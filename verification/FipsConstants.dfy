/** What FIPS 180-4 says its numbers are (sections 4.2.2 and 5.3.3):
    the fractional parts of roots of the first primes. */
module FipsConstants {
  import opened CTypes
  import opened Fips180

  // ---------- the first 64 primes ----------

  const PRIMES: seq<nat> := FIRST_PRIMES + MORE_PRIMES

  const FIRST_PRIMES: seq<nat> :=
    [2, 3, 5, 7, 11, 13, 17, 19, 23, 29, 31, 37, 41, 43, 47, 53,
     59, 61, 67, 71, 73, 79, 83, 89, 97, 101, 103, 107, 109, 113, 127, 131]

  const MORE_PRIMES: seq<nat> :=
    [137, 139, 149, 151, 157, 163, 167, 173, 179, 181, 191, 193, 197, 199, 211, 223,
     227, 229, 233, 239, 241, 251, 257, 263, 269, 271, 277, 281, 283, 293, 307, 311]

  ghost predicate Prime(n: nat)
  {
    n >= 2 && forall d :: 2 <= d < n ==> n % d != 0
  }

  /** The primes up to `n`, in order. */
  ghost function PrimesTo(n: nat): seq<nat>
  {
    if n == 0 then [] else PrimesTo(n - 1) + if Prime(n) then [n] else []
  }

  /** Not divisible by a prime below 18, unless it is one. */
  predicate Sieved(n: nat)
  {
    && n >= 2 && (n % 2 != 0 || n == 2) && (n % 3 != 0 || n == 3) && (n % 5 != 0 || n == 5) && (n % 7 != 0 || n == 7)
    && (n % 11 != 0 || n == 11) && (n % 13 != 0 || n == 13) && (n % 17 != 0 || n == 17)
  }

  /** Below 18^2 that is enough. */
  lemma SievedIsPrime(n: nat)
    requires n < 324
    ensures Sieved(n) <==> Prime(n)
  {
    if Sieved(n) {
      forall d | 2 <= d < n
        ensures n % d != 0
      {
        if n % d == 0 {
          Composite(n, d);
        }
      }
    }
  }

  lemma Composite(n: nat, d: nat)
    requires n < 324 && 2 <= d < n && n % d == 0
    ensures !Sieved(n)
  {
    hide Sieved;
    var q := n / d;
    assert n == d * q && 2 <= q;
    if d < 18 {
      SmallDivisor(n, d, q);
    } else {
      BothLarge(d, q);
      SmallDivisor(n, q, d);
    }
  }

  lemma BothLarge(d: nat, q: nat)
    requires d >= 18 && d * q < 324
    ensures q < 18
  {}

  lemma SmallDivisor(n: nat, d: nat, q: nat)
    requires n == d * q && 2 <= d < 18 && 2 <= q
    ensures !Sieved(n)
  {
    var p := if d % 2 == 0 then 2 else if d % 3 == 0 then 3 else d;
    var k := d / p;
    assert d == p * k;
    Multiple(n, p, k, q);
  }

  lemma Multiple(n: nat, p: nat, k: nat, q: nat)
    requires n == p * k * q && p > 0 && k > 0 && q >= 2
    ensures n % p == 0 && n != p
  {
    assert n == p * (k * q);
    assert k * q >= 2;
    QuotientIs(n, p, k * q, 0);
  }

  predicate NoneBetween(lo: nat, hi: nat)
    decreases hi - lo
  {
    lo + 1 < hi ==> !Sieved(lo + 1) && NoneBetween(lo + 1, hi)
  }

  lemma {:induction false} NoneBetweenAll(lo: nat, hi: nat)
    requires NoneBetween(lo, hi)
    ensures forall n :: lo < n < hi ==> !Sieved(n)
    decreases hi - lo
  {
    if lo + 1 < hi {
      NoneBetweenAll(lo + 1, hi);
    }
  }

  lemma {:induction false} SamePrimes(lo: nat, hi: nat)
    requires lo <= hi && forall n :: lo < n <= hi ==> !Prime(n)
    ensures PrimesTo(hi) == PrimesTo(lo)
  {
    if lo < hi {
      SamePrimes(lo, hi - 1);
    }
  }

  lemma NextPrime(lo: nat, hi: nat)
    requires lo < hi < 324 && Sieved(hi) && NoneBetween(lo, hi)
    ensures PrimesTo(hi) == PrimesTo(lo) + [hi]
  {
    NoneBetweenAll(lo, hi);
    forall n | lo < n <= hi
      ensures Prime(n) <==> n == hi
    {
      SievedIsPrime(n);
    }
    SamePrimes(lo, hi - 1);
  }

  lemma PrimesFrom1()
    ensures PrimesTo(19) == PrimesTo(1) + [2, 3, 5, 7, 11, 13, 17, 19]
  {
    hide PrimesTo;
    NextPrime(1, 2); NextPrime(2, 3); NextPrime(3, 5); NextPrime(5, 7);
    NextPrime(7, 11); NextPrime(11, 13); NextPrime(13, 17); NextPrime(17, 19);
  }

  lemma PrimesFrom19()
    ensures PrimesTo(53) == PrimesTo(19) + [23, 29, 31, 37, 41, 43, 47, 53]
  {
    hide PrimesTo;
    NextPrime(19, 23); NextPrime(23, 29); NextPrime(29, 31); NextPrime(31, 37);
    NextPrime(37, 41); NextPrime(41, 43); NextPrime(43, 47); NextPrime(47, 53);
  }

  lemma PrimesFrom53()
    ensures PrimesTo(89) == PrimesTo(53) + [59, 61, 67, 71, 73, 79, 83, 89]
  {
    hide PrimesTo;
    NextPrime(53, 59); NextPrime(59, 61); NextPrime(61, 67); NextPrime(67, 71);
    NextPrime(71, 73); NextPrime(73, 79); NextPrime(79, 83); NextPrime(83, 89);
  }

  lemma PrimesFrom89()
    ensures PrimesTo(131) == PrimesTo(89) + [97, 101, 103, 107, 109, 113, 127, 131]
  {
    hide PrimesTo;
    NextPrime(89, 97); NextPrime(97, 101); NextPrime(101, 103); NextPrime(103, 107);
    NextPrime(107, 109); NextPrime(109, 113); NextPrime(113, 127); NextPrime(127, 131);
  }

  lemma PrimesFrom131()
    ensures PrimesTo(173) == PrimesTo(131) + [137, 139, 149, 151, 157, 163, 167, 173]
  {
    hide PrimesTo;
    NextPrime(131, 137); NextPrime(137, 139); NextPrime(139, 149); NextPrime(149, 151);
    NextPrime(151, 157); NextPrime(157, 163); NextPrime(163, 167); NextPrime(167, 173);
  }

  lemma PrimesFrom173()
    ensures PrimesTo(223) == PrimesTo(173) + [179, 181, 191, 193, 197, 199, 211, 223]
  {
    hide PrimesTo;
    NextPrime(173, 179); NextPrime(179, 181); NextPrime(181, 191); NextPrime(191, 193);
    NextPrime(193, 197); NextPrime(197, 199); NextPrime(199, 211); NextPrime(211, 223);
  }

  lemma PrimesFrom223()
    ensures PrimesTo(263) == PrimesTo(223) + [227, 229, 233, 239, 241, 251, 257, 263]
  {
    hide PrimesTo;
    NextPrime(223, 227); NextPrime(227, 229); NextPrime(229, 233); NextPrime(233, 239);
    NextPrime(239, 241); NextPrime(241, 251); NextPrime(251, 257); NextPrime(257, 263);
  }

  lemma PrimesFrom263()
    ensures PrimesTo(311) == PrimesTo(263) + [269, 271, 277, 281, 283, 293, 307, 311]
  {
    hide PrimesTo;
    NextPrime(263, 269); NextPrime(269, 271); NextPrime(271, 277); NextPrime(277, 281);
    NextPrime(281, 283); NextPrime(283, 293); NextPrime(293, 307); NextPrime(307, 311);
  }

  lemma NoPrimes()
    ensures PrimesTo(1) == []
  {}

  lemma FirstHalf()
    ensures PrimesTo(131) == FIRST_PRIMES
  {
    hide PrimesTo;
    NoPrimes();
    PrimesFrom1();
    PrimesFrom19();
    PrimesFrom53();
    PrimesFrom89();
  }

  lemma SecondHalf()
    ensures PrimesTo(311) == PrimesTo(131) + MORE_PRIMES
  {
    hide PrimesTo;
    PrimesFrom131();
    PrimesFrom173();
    PrimesFrom223();
    PrimesFrom263();
  }

  /** The table is the primes up to 311: its i-th entry is the i-th prime. */
  lemma TableOfPrimes()
    ensures PrimesTo(311) == PRIMES && |PRIMES| == 64
  {
    hide PrimesTo;
    FirstHalf();
    SecondHalf();
  }

  // ---------- the roots ----------

  /** `k` is the first 32 bits of the fractional part of the cube root of `p`, whose whole
      part is `q`. */
  predicate CubeRoot(p: nat, q: nat, k: bv32)
  {
    var root := 0x1_0000_0000 * q + k as nat;
    && q * q * q <= p < (q + 1) * (q + 1) * (q + 1)
    && root * root * root <= p * 0x1_0000_0000_0000_0000_0000_0000 < (root + 1) * (root + 1) * (root + 1)
  }

  /** The same for the square root. */
  predicate SquareRoot(p: nat, q: nat, k: bv32)
  {
    var root := 0x1_0000_0000 * q + k as nat;
    && q * q <= p < (q + 1) * (q + 1)
    && root * root <= p * 0x1_0000_0000_0000_0000 < (root + 1) * (root + 1)
  }

  ghost predicate HasCubeRoot(i: nat)
    requires i < 64
  {
    exists q: nat :: CubeRoot(PRIMES[i], q, K()[i])
  }

  lemma Root(i: nat, p: nat, q: nat, k: bv32)
    requires i < 64 && PRIMES[i] == p && K()[i] == k && CubeRoot(p, q, k)
    ensures HasCubeRoot(i)
  {
    hide K, CubeRoot;
  }

  lemma RootsFrom0()
    ensures forall i :: 0 <= i < 4 ==> HasCubeRoot(i)
  {
    hide HasCubeRoot;
    Root(0, 2, 1, 0x428a2f98); Root(1, 3, 1, 0x71374491);
    Root(2, 5, 1, 0xb5c0fbcf); Root(3, 7, 1, 0xe9b5dba5);
  }

  lemma RootsFrom4()
    ensures forall i :: 4 <= i < 8 ==> HasCubeRoot(i)
  {
    hide HasCubeRoot;
    Root(4, 11, 2, 0x3956c25b); Root(5, 13, 2, 0x59f111f1);
    Root(6, 17, 2, 0x923f82a4); Root(7, 19, 2, 0xab1c5ed5);
  }

  lemma RootsFrom8()
    ensures forall i :: 8 <= i < 12 ==> HasCubeRoot(i)
  {
    hide HasCubeRoot;
    Root(8, 23, 2, 0xd807aa98); Root(9, 29, 3, 0x12835b01);
    Root(10, 31, 3, 0x243185be); Root(11, 37, 3, 0x550c7dc3);
  }

  lemma RootsFrom12()
    ensures forall i :: 12 <= i < 16 ==> HasCubeRoot(i)
  {
    hide HasCubeRoot;
    Root(12, 41, 3, 0x72be5d74); Root(13, 43, 3, 0x80deb1fe);
    Root(14, 47, 3, 0x9bdc06a7); Root(15, 53, 3, 0xc19bf174);
  }

  lemma RootsFrom16()
    ensures forall i :: 16 <= i < 20 ==> HasCubeRoot(i)
  {
    hide HasCubeRoot;
    Root(16, 59, 3, 0xe49b69c1); Root(17, 61, 3, 0xefbe4786);
    Root(18, 67, 4, 0x0fc19dc6); Root(19, 71, 4, 0x240ca1cc);
  }

  lemma RootsFrom20()
    ensures forall i :: 20 <= i < 24 ==> HasCubeRoot(i)
  {
    hide HasCubeRoot;
    Root(20, 73, 4, 0x2de92c6f); Root(21, 79, 4, 0x4a7484aa);
    Root(22, 83, 4, 0x5cb0a9dc); Root(23, 89, 4, 0x76f988da);
  }

  lemma RootsFrom24()
    ensures forall i :: 24 <= i < 28 ==> HasCubeRoot(i)
  {
    hide HasCubeRoot;
    Root(24, 97, 4, 0x983e5152); Root(25, 101, 4, 0xa831c66d);
    Root(26, 103, 4, 0xb00327c8); Root(27, 107, 4, 0xbf597fc7);
  }

  lemma RootsFrom28()
    ensures forall i :: 28 <= i < 32 ==> HasCubeRoot(i)
  {
    hide HasCubeRoot;
    Root(28, 109, 4, 0xc6e00bf3); Root(29, 113, 4, 0xd5a79147);
    Root(30, 127, 5, 0x06ca6351); Root(31, 131, 5, 0x14292967);
  }

  lemma RootsFrom32()
    ensures forall i :: 32 <= i < 36 ==> HasCubeRoot(i)
  {
    hide HasCubeRoot;
    Root(32, 137, 5, 0x27b70a85); Root(33, 139, 5, 0x2e1b2138);
    Root(34, 149, 5, 0x4d2c6dfc); Root(35, 151, 5, 0x53380d13);
  }

  lemma RootsFrom36()
    ensures forall i :: 36 <= i < 40 ==> HasCubeRoot(i)
  {
    hide HasCubeRoot;
    Root(36, 157, 5, 0x650a7354); Root(37, 163, 5, 0x766a0abb);
    Root(38, 167, 5, 0x81c2c92e); Root(39, 173, 5, 0x92722c85);
  }

  lemma RootsFrom40()
    ensures forall i :: 40 <= i < 44 ==> HasCubeRoot(i)
  {
    hide HasCubeRoot;
    Root(40, 179, 5, 0xa2bfe8a1); Root(41, 181, 5, 0xa81a664b);
    Root(42, 191, 5, 0xc24b8b70); Root(43, 193, 5, 0xc76c51a3);
  }

  lemma RootsFrom44()
    ensures forall i :: 44 <= i < 48 ==> HasCubeRoot(i)
  {
    hide HasCubeRoot;
    Root(44, 197, 5, 0xd192e819); Root(45, 199, 5, 0xd6990624);
    Root(46, 211, 5, 0xf40e3585); Root(47, 223, 6, 0x106aa070);
  }

  lemma RootsFrom48()
    ensures forall i :: 48 <= i < 52 ==> HasCubeRoot(i)
  {
    hide HasCubeRoot;
    Root(48, 227, 6, 0x19a4c116); Root(49, 229, 6, 0x1e376c08);
    Root(50, 233, 6, 0x2748774c); Root(51, 239, 6, 0x34b0bcb5);
  }

  lemma RootsFrom52()
    ensures forall i :: 52 <= i < 56 ==> HasCubeRoot(i)
  {
    hide HasCubeRoot;
    Root(52, 241, 6, 0x391c0cb3); Root(53, 251, 6, 0x4ed8aa4a);
    Root(54, 257, 6, 0x5b9cca4f); Root(55, 263, 6, 0x682e6ff3);
  }

  lemma RootsFrom56()
    ensures forall i :: 56 <= i < 60 ==> HasCubeRoot(i)
  {
    hide HasCubeRoot;
    Root(56, 269, 6, 0x748f82ee); Root(57, 271, 6, 0x78a5636f);
    Root(58, 277, 6, 0x84c87814); Root(59, 281, 6, 0x8cc70208);
  }

  lemma RootsFrom60()
    ensures forall i :: 60 <= i < 64 ==> HasCubeRoot(i)
  {
    hide HasCubeRoot;
    Root(60, 283, 6, 0x90befffa); Root(61, 293, 6, 0xa4506ceb);
    Root(62, 307, 6, 0xbef9a3f7); Root(63, 311, 6, 0xc67178f2);
  }

  /** The round constants are the fractional parts of the cube roots of the first 64 primes
      (section 4.2.2). */
  lemma ConstantsAreCubeRoots()
    ensures PrimesTo(311) == PRIMES && |PRIMES| == 64
    ensures forall i :: 0 <= i < 64 ==> HasCubeRoot(i)
  {
    hide HasCubeRoot, K, CubeRoot, PRIMES;
    TableOfPrimes();
    RootsFrom0();
    RootsFrom4();
    RootsFrom8();
    RootsFrom12();
    RootsFrom16();
    RootsFrom20();
    RootsFrom24();
    RootsFrom28();
    RootsFrom32();
    RootsFrom36();
    RootsFrom40();
    RootsFrom44();
    RootsFrom48();
    RootsFrom52();
    RootsFrom56();
    RootsFrom60();
  }

  /** The initial value is that of the square roots of the first eight (section 5.3.3). */
  lemma InitialValueIsSquareRoots()
    ensures SquareRoot(2, 1, IV.a) && SquareRoot(3, 1, IV.b)
    ensures SquareRoot(5, 2, IV.c) && SquareRoot(7, 2, IV.d)
    ensures SquareRoot(11, 3, IV.e) && SquareRoot(13, 3, IV.f)
    ensures SquareRoot(17, 4, IV.g) && SquareRoot(19, 4, IV.h)
  {}

}
