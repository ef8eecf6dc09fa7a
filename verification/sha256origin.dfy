/** Where the numbers and functions of SHA-256 come from, sections 4.1.2, 4.2.2 and 5.3.3 of FIPS 180-4. */
module Sha256Origin {
  import opened Bytes
  import opened BlockStream
  import opened Sha256Spec
  import opened Modular

  const PRIMES_FIRST: seq<nat> := [2, 3, 5, 7, 11, 13, 17, 19, 23, 29, 31, 37, 41, 43, 47, 53]
  const PRIMES_SECOND: seq<nat> := [59, 61, 67, 71, 73, 79, 83, 89, 97, 101, 103, 107, 109, 113, 127, 131]
  const PRIMES_THIRD: seq<nat> := [137, 139, 149, 151, 157, 163, 167, 173, 179, 181, 191, 193, 197, 199, 211, 223]
  const PRIMES_FOURTH: seq<nat> := [227, 229, 233, 239, 241, 251, 257, 263, 269, 271, 277, 281, 283, 293, 307, 311]
  const PRIMES: seq<nat> := PRIMES_FIRST + PRIMES_SECOND + PRIMES_THIRD + PRIMES_FOURTH

  predicate Prime(n: nat) { n >= 2 && forall d :: 2 <= d < n ==> n % d != 0 }

  /** None of the first seven primes divides `n`. */
  predicate Sifted(n: nat) {
    n % 2 != 0 && n % 3 != 0 && n % 5 != 0 && n % 7 != 0 && n % 11 != 0 && n % 13 != 0 && n % 17 != 0
  }

  predicate Gap(lo: nat, hi: nat)
    decreases hi - lo
  {
    lo >= hi || (!Sifted(lo) && Gap(lo + 1, hi))
  }

  lemma {:induction false} GapEmpty(lo: nat, hi: nat, n: nat)
    requires Gap(lo, hi) && lo <= n < hi
    ensures !Sifted(n)
    decreases hi - lo
  {
    if lo < n { GapEmpty(lo + 1, hi, n); }
  }

  /** A number divisible by another is divisible by what divides that. */
  lemma Divides(n: nat, d: nat, p: nat)
    requires d > 0 && p > 0 && n % d == 0 && d % p == 0
    ensures n % p == 0
  {
    var k, j := n / d, d / p;
    assert n == k * d && d == j * p;
    assert n == (k * j) * p by { assert k * (j * p) == (k * j) * p; }
    DivModUnique(n, p, k * j, 0);
  }

  /** The sieve is enough below 19 * 19. */
  lemma SiftedPrime(n: nat)
    requires 17 < n < 361 && Sifted(n)
    ensures Prime(n)
  {
    forall d | 2 <= d < n ensures n % d != 0 {
      if n % d == 0 {
        var e := n / d;
        assert n == d * e;
        if d < 19 {
          NoSmallDivisor(n, d);
        } else {
          SmallCofactor(n, d, e);
          DivModUnique(n, e, d, 0);
          NoSmallDivisor(n, e);
        }
      }
    }
  }

  lemma SmallCofactor(n: nat, d: nat, e: nat)
    requires n == d * e && n < 361 && 19 <= d < n
    ensures 1 < e < 19
  {
  }

  lemma NoSmallDivisor(n: nat, d: nat)
    requires Sifted(n) && 2 <= d < 19
    ensures n % d != 0
  {
    if n % d == 0 {
      if d % 2 == 0 { Divides(n, d, 2); }
      else if d % 3 == 0 { Divides(n, d, 3); }
      else if d == 5 || d == 7 || d == 11 || d == 13 || d == 17 { assert false; }
    }
  }

  /** A multiple of one of the seven that is none of them is no prime. */
  lemma SiftedOut(n: nat)
    requires n > 17 && !Sifted(n)
    ensures !Prime(n)
  {
  }

  /** `q` is prime, and no number from `lo` up to it is. */
  /** `q` is prime, and no number from `lo` up to it is. */
  /** `q` is prime, and no number from `lo` up to it is. */
  /** `q` is prime, and no number from `lo` up to it is. */
  /** `q` is prime, and no number from `lo` up to it is. */
  lemma NextPrime(lo: nat, q: nat)
    requires 17 < lo <= q < 361 && Sifted(q) && Gap(lo, q)
    ensures Prime(q) && forall n :: lo <= n < q ==> !Prime(n)
  {
    SiftedPrime(q);
    forall n | lo <= n < q ensures !Prime(n) {
      GapEmpty(lo, q, n);
      SiftedOut(n);
    }
  }

  /** Prime number `t + 1` is the next after prime number `t`. */
  ghost predicate Successive(t: nat)
    requires t < 63
  {
    Prime(PRIMES[t + 1]) && forall n :: PRIMES[t] < n < PRIMES[t + 1] ==> !Prime(n)
  }

  lemma SmallComposite(n: nat)
    requires 2 < n <= 18 && (n % 2 == 0 || n == 9 || n == 15)
    ensures !Prime(n)
  {
    assert n % 2 == 0 || n % 3 == 0;
  }

  lemma SmallPrime(n: nat)
    requires n == 2 || n == 3 || n == 5 || n == 7 || n == 11 || n == 13 || n == 17 || n == 19
    ensures Prime(n)
  {
  }

  lemma PrimesLow()
    ensures forall t :: 0 <= t < 7 ==> Successive(t)
  {
    hide Prime;
    forall t | 0 <= t < 7 ensures Successive(t) {
      SmallPrime(PRIMES[t + 1]);
      forall n | PRIMES[t] < n < PRIMES[t + 1] ensures !Prime(n) {
        SmallComposite(n);
      }
    }
  }

  lemma Primes7To15()
    ensures forall t :: 7 <= t < 15 ==> Successive(t)
  {
    hide Prime;
    NextPrime(20, 23); NextPrime(24, 29); NextPrime(30, 31); NextPrime(32, 37);
    NextPrime(38, 41); NextPrime(42, 43); NextPrime(44, 47); NextPrime(48, 53);
  }

  lemma Primes15To23()
    ensures forall t :: 15 <= t < 23 ==> Successive(t)
  {
    hide Prime;
    NextPrime(54, 59); NextPrime(60, 61); NextPrime(62, 67); NextPrime(68, 71);
    NextPrime(72, 73); NextPrime(74, 79); NextPrime(80, 83); NextPrime(84, 89);
  }

  lemma Primes23To31()
    ensures forall t :: 23 <= t < 31 ==> Successive(t)
  {
    hide Prime;
    NextPrime(90, 97); NextPrime(98, 101); NextPrime(102, 103); NextPrime(104, 107);
    NextPrime(108, 109); NextPrime(110, 113); NextPrime(114, 127); NextPrime(128, 131);
  }

  lemma Primes31To39()
    ensures forall t :: 31 <= t < 39 ==> Successive(t)
  {
    hide Prime;
    NextPrime(132, 137); NextPrime(138, 139); NextPrime(140, 149); NextPrime(150, 151);
    NextPrime(152, 157); NextPrime(158, 163); NextPrime(164, 167); NextPrime(168, 173);
  }

  lemma Primes39To47()
    ensures forall t :: 39 <= t < 47 ==> Successive(t)
  {
    hide Prime;
    NextPrime(174, 179); NextPrime(180, 181); NextPrime(182, 191); NextPrime(192, 193);
    NextPrime(194, 197); NextPrime(198, 199); NextPrime(200, 211); NextPrime(212, 223);
  }

  lemma Primes47To55()
    ensures forall t :: 47 <= t < 55 ==> Successive(t)
  {
    hide Prime;
    NextPrime(224, 227); NextPrime(228, 229); NextPrime(230, 233); NextPrime(234, 239);
    NextPrime(240, 241); NextPrime(242, 251); NextPrime(252, 257); NextPrime(258, 263);
  }

  lemma Primes55To63()
    ensures forall t :: 55 <= t < 63 ==> Successive(t)
  {
    hide Prime;
    NextPrime(264, 269); NextPrime(270, 271); NextPrime(272, 277); NextPrime(278, 281);
    NextPrime(282, 283); NextPrime(284, 293); NextPrime(294, 307); NextPrime(308, 311);
  }

  /** PRIMES are the first 64 prime numbers, in order. */
  lemma FirstPrimes()
    ensures |PRIMES| == 64 && PRIMES[0] == 2 && Prime(2) && forall t :: 0 <= t < 63 ==> Successive(t)
  {
    hide Successive;
    PrimesLow();
    Primes7To15();
    Primes15To23();
    Primes23To31();
    Primes31To39();
    Primes39To47();
    Primes47To55();
    Primes55To63();
    SmallPrime(2);
  }

  /** The integer part of a cube root, and of a square root. */
  function CubeFloor(p: nat): (c: nat)
    requires 1 <= p < 343
    ensures c * c * c <= p < (c + 1) * (c + 1) * (c + 1)
  {
    if p < 8 then 1 else if p < 27 then 2 else if p < 64 then 3 else if p < 125 then 4 else if p < 216 then 5 else 6
  }

  function SquareFloor(p: nat): (c: nat)
    requires 1 <= p < 25
    ensures c * c <= p < (c + 1) * (c + 1)
  {
    if p < 4 then 1 else if p < 9 then 2 else if p < 16 then 3 else 4
  }

  const TWO64: nat := TWO32 * TWO32
  const TWO96: nat := TWO32 * TWO32 * TWO32

  function Cube(x: nat): nat { x * x * x }
  function Square(x: nat): nat { x * x }

  /** `k` holds the first 32 bits of the fractional part of the cube root of `p`. */
  predicate OfCubeRoot(p: nat, k: word)
    requires 1 <= p < 343
  {
    var r := CubeFloor(p) * TWO32 + k as nat;
    Cube(r) <= p * TWO96 < Cube(r + 1)
  }

  /** And of the square root. */
  predicate OfSquareRoot(p: nat, k: word)
    requires 1 <= p < 25
  {
    var r := SquareFloor(p) * TWO32 + k as nat;
    Square(r) <= p * TWO64 < Square(r + 1)
  }

  lemma Constants0To4()
    ensures forall t :: 0 <= t < 4 ==> 1 <= PRIMES[t] < 343 && OfCubeRoot(PRIMES[t], K[t])
  {
    assert OfCubeRoot(2, 0x428a2f98) && OfCubeRoot(3, 0x71374491);
    assert OfCubeRoot(5, 0xb5c0fbcf) && OfCubeRoot(7, 0xe9b5dba5);
  }

  lemma Constants4To8()
    ensures forall t :: 4 <= t < 8 ==> 1 <= PRIMES[t] < 343 && OfCubeRoot(PRIMES[t], K[t])
  {
    assert OfCubeRoot(11, 0x3956c25b) && OfCubeRoot(13, 0x59f111f1);
    assert OfCubeRoot(17, 0x923f82a4) && OfCubeRoot(19, 0xab1c5ed5);
  }

  lemma Constants8To12()
    ensures forall t :: 8 <= t < 12 ==> 1 <= PRIMES[t] < 343 && OfCubeRoot(PRIMES[t], K[t])
  {
    assert OfCubeRoot(23, 0xd807aa98) && OfCubeRoot(29, 0x12835b01);
    assert OfCubeRoot(31, 0x243185be) && OfCubeRoot(37, 0x550c7dc3);
  }

  lemma Constants12To16()
    ensures forall t :: 12 <= t < 16 ==> 1 <= PRIMES[t] < 343 && OfCubeRoot(PRIMES[t], K[t])
  {
    assert OfCubeRoot(41, 0x72be5d74) && OfCubeRoot(43, 0x80deb1fe);
    assert OfCubeRoot(47, 0x9bdc06a7) && OfCubeRoot(53, 0xc19bf174);
  }

  lemma Constants16To20()
    ensures forall t :: 16 <= t < 20 ==> 1 <= PRIMES[t] < 343 && OfCubeRoot(PRIMES[t], K[t])
  {
    assert OfCubeRoot(59, 0xe49b69c1) && OfCubeRoot(61, 0xefbe4786);
    assert OfCubeRoot(67, 0x0fc19dc6) && OfCubeRoot(71, 0x240ca1cc);
  }

  lemma Constants20To24()
    ensures forall t :: 20 <= t < 24 ==> 1 <= PRIMES[t] < 343 && OfCubeRoot(PRIMES[t], K[t])
  {
    assert OfCubeRoot(73, 0x2de92c6f) && OfCubeRoot(79, 0x4a7484aa);
    assert OfCubeRoot(83, 0x5cb0a9dc) && OfCubeRoot(89, 0x76f988da);
  }

  lemma Constants24To28()
    ensures forall t :: 24 <= t < 28 ==> 1 <= PRIMES[t] < 343 && OfCubeRoot(PRIMES[t], K[t])
  {
    assert OfCubeRoot(97, 0x983e5152) && OfCubeRoot(101, 0xa831c66d);
    assert OfCubeRoot(103, 0xb00327c8) && OfCubeRoot(107, 0xbf597fc7);
  }

  lemma Constants28To32()
    ensures forall t :: 28 <= t < 32 ==> 1 <= PRIMES[t] < 343 && OfCubeRoot(PRIMES[t], K[t])
  {
    assert OfCubeRoot(109, 0xc6e00bf3) && OfCubeRoot(113, 0xd5a79147);
    assert OfCubeRoot(127, 0x06ca6351) && OfCubeRoot(131, 0x14292967);
  }

  lemma Constants32To36()
    ensures forall t :: 32 <= t < 36 ==> 1 <= PRIMES[t] < 343 && OfCubeRoot(PRIMES[t], K[t])
  {
    assert OfCubeRoot(137, 0x27b70a85) && OfCubeRoot(139, 0x2e1b2138);
    assert OfCubeRoot(149, 0x4d2c6dfc) && OfCubeRoot(151, 0x53380d13);
  }

  lemma Constants36To40()
    ensures forall t :: 36 <= t < 40 ==> 1 <= PRIMES[t] < 343 && OfCubeRoot(PRIMES[t], K[t])
  {
    assert OfCubeRoot(157, 0x650a7354) && OfCubeRoot(163, 0x766a0abb);
    assert OfCubeRoot(167, 0x81c2c92e) && OfCubeRoot(173, 0x92722c85);
  }

  lemma Constants40To44()
    ensures forall t :: 40 <= t < 44 ==> 1 <= PRIMES[t] < 343 && OfCubeRoot(PRIMES[t], K[t])
  {
    assert OfCubeRoot(179, 0xa2bfe8a1) && OfCubeRoot(181, 0xa81a664b);
    assert OfCubeRoot(191, 0xc24b8b70) && OfCubeRoot(193, 0xc76c51a3);
  }

  lemma Constants44To48()
    ensures forall t :: 44 <= t < 48 ==> 1 <= PRIMES[t] < 343 && OfCubeRoot(PRIMES[t], K[t])
  {
    assert OfCubeRoot(197, 0xd192e819) && OfCubeRoot(199, 0xd6990624);
    assert OfCubeRoot(211, 0xf40e3585) && OfCubeRoot(223, 0x106aa070);
  }

  lemma Constants48To52()
    ensures forall t :: 48 <= t < 52 ==> 1 <= PRIMES[t] < 343 && OfCubeRoot(PRIMES[t], K[t])
  {
    assert OfCubeRoot(227, 0x19a4c116) && OfCubeRoot(229, 0x1e376c08);
    assert OfCubeRoot(233, 0x2748774c) && OfCubeRoot(239, 0x34b0bcb5);
  }

  lemma Constants52To56()
    ensures forall t :: 52 <= t < 56 ==> 1 <= PRIMES[t] < 343 && OfCubeRoot(PRIMES[t], K[t])
  {
    assert OfCubeRoot(241, 0x391c0cb3) && OfCubeRoot(251, 0x4ed8aa4a);
    assert OfCubeRoot(257, 0x5b9cca4f) && OfCubeRoot(263, 0x682e6ff3);
  }

  lemma Constants56To60()
    ensures forall t :: 56 <= t < 60 ==> 1 <= PRIMES[t] < 343 && OfCubeRoot(PRIMES[t], K[t])
  {
    assert OfCubeRoot(269, 0x748f82ee) && OfCubeRoot(271, 0x78a5636f);
    assert OfCubeRoot(277, 0x84c87814) && OfCubeRoot(281, 0x8cc70208);
  }

  lemma Constants60To64()
    ensures forall t :: 60 <= t < 64 ==> 1 <= PRIMES[t] < 343 && OfCubeRoot(PRIMES[t], K[t])
  {
    assert OfCubeRoot(283, 0x90befffa) && OfCubeRoot(293, 0xa4506ceb);
    assert OfCubeRoot(307, 0xbef9a3f7) && OfCubeRoot(311, 0xc67178f2);
  }

  /** Section 4.2.2. */
  lemma RoundConstants()
    ensures forall t :: 0 <= t < 64 ==> 1 <= PRIMES[t] < 343 && OfCubeRoot(PRIMES[t], K[t])
  {
    hide OfCubeRoot;
    Constants0To4();
    Constants4To8();
    Constants8To12();
    Constants12To16();
    Constants16To20();
    Constants20To24();
    Constants24To28();
    Constants28To32();
    Constants32To36();
    Constants36To40();
    Constants40To44();
    Constants44To48();
    Constants48To52();
    Constants52To56();
    Constants56To60();
    Constants60To64();
  }

  /** Section 5.3.3. */
  lemma InitialHash()
    ensures OfSquareRoot(2, H0.a) && OfSquareRoot(3, H0.b) && OfSquareRoot(5, H0.c) && OfSquareRoot(7, H0.d)
    ensures OfSquareRoot(11, H0.e) && OfSquareRoot(13, H0.f) && OfSquareRoot(17, H0.g) && OfSquareRoot(19, H0.h)
  {
  }

  /** A word with a single bit, as a place in another. */
  predicate OneBit(m: word) { m != 0 && m & (m - 1) == 0 }

  /** What `x` has at that place. */
  function Place(x: word, m: word): word { x & m }
  predicate Has(x: word, m: word) { Place(x, m) != 0 }

  /** The place `n` bits higher, around the end of the word. */
  function Around(m: word, n: nat): word
    requires 0 < n < 32
  {
    (m << n) | (m >> (32 - n))
  }

  lemma HasOrNot(x: word, m: word)
    requires OneBit(m)
    ensures m != 0 && (Place(x, m) == 0 || Place(x, m) == m)
  {
  }

  lemma XorAt(x: word, y: word, m: word)
    ensures Place(Xor(x, y), m) == Xor(Place(x, m), Place(y, m))
  {
  }

  lemma AndAt(x: word, y: word, m: word)
    ensures Place(And(x, y), m) == And(Place(x, m), Place(y, m))
  {
  }

  lemma RawFlips(a: word, b: word, m: word)
    requires m != 0 && (a == 0 || a == m) && (b == 0 || b == m)
    ensures (a ^ b != 0) == ((a != 0) != (b != 0)) && (a & b != 0) == (a != 0 && b != 0)
  {
  }

  lemma NotAt(x: word, m: word)
    requires m != 0 && (x & m == 0 || x & m == m)
    ensures (!x & m != 0) == (x & m == 0)
  {
  }

  lemma NotBit(x: word, m: word)
    requires OneBit(m)
    ensures Has(Not(x), m) == !Has(x, m)
  {
    HasOrNot(x, m);
    NotAt(x, m);
  }

  lemma Flips(a: word, b: word, m: word)
    requires m != 0 && (a == 0 || a == m) && (b == 0 || b == m)
    ensures (Xor(a, b) != 0) == ((a != 0) != (b != 0)) && (And(a, b) != 0) == (a != 0 && b != 0)
  {
    RawFlips(a, b, m);
  }

  /** Each operation works on each bit alone. */
  lemma Bitwise(x: word, y: word, m: word)
    requires OneBit(m)
    ensures Has(Xor(x, y), m) == (Has(x, m) != Has(y, m))
    ensures Has(And(x, y), m) == (Has(x, m) && Has(y, m))
    ensures Has(Not(x), m) == !Has(x, m)
  {
    hide OneBit, Xor, And, Not, Place;
    HasOrNot(x, m);
    HasOrNot(y, m);
    XorAt(x, y, m);
    AndAt(x, y, m);
    NotBit(x, m);
    Flips(Place(x, m), Place(y, m), m);
  }

  /** `Ch` chooses: where the first has a one it takes the second's bit, elsewhere the third's. */
  lemma ChooseBits(x: word, y: word, z: word, m: word)
    requires OneBit(m)
    ensures Has(Ch(x, y, z), m) == if Has(x, m) then Has(y, m) else Has(z, m)
  {
    hide Has, OneBit, Xor, And, Not;
    Bitwise(x, y, m);
    Bitwise(Not(x), z, m);
    Bitwise(And(x, y), And(Not(x), z), m);
  }

  /** `Maj` takes the bit that at least two of the three have. */
  lemma MajorityBits(x: word, y: word, z: word, m: word)
    requires OneBit(m)
    ensures Has(Maj(x, y, z), m) <==>
              (Has(x, m) && Has(y, m)) || (Has(x, m) && Has(z, m)) || (Has(y, m) && Has(z, m))
  {
    hide Has, OneBit, Xor, And;
    Bitwise(x, y, m);
    Bitwise(x, z, m);
    Bitwise(y, z, m);
    Bitwise(And(x, y), And(x, z), m);
    Bitwise(Xor(And(x, y), And(x, z)), And(y, z), m);
  }

  predicate Amount(n: nat) {
    n == 2 || n == 6 || n == 7 || n == 11 || n == 13 || n == 17 || n == 18 || n == 19 || n == 22 || n == 25
  }

  lemma RotatedBy2(x: word, m: word)
    ensures Has(RotR(x, 2), m) == Has(x, Around(m, 2))
  {
  }

  lemma RotatedBy6(x: word, m: word)
    ensures Has(RotR(x, 6), m) == Has(x, Around(m, 6))
  {
  }

  lemma RotatedBy7(x: word, m: word)
    ensures Has(RotR(x, 7), m) == Has(x, Around(m, 7))
  {
  }

  lemma RotatedBy11(x: word, m: word)
    ensures Has(RotR(x, 11), m) == Has(x, Around(m, 11))
  {
  }

  lemma RotatedBy13(x: word, m: word)
    ensures Has(RotR(x, 13), m) == Has(x, Around(m, 13))
  {
  }

  lemma RotatedBy17(x: word, m: word)
    ensures Has(RotR(x, 17), m) == Has(x, Around(m, 17))
  {
  }

  lemma RotatedBy18(x: word, m: word)
    ensures Has(RotR(x, 18), m) == Has(x, Around(m, 18))
  {
  }

  lemma RotatedBy19(x: word, m: word)
    ensures Has(RotR(x, 19), m) == Has(x, Around(m, 19))
  {
  }

  lemma RotatedBy22(x: word, m: word)
    ensures Has(RotR(x, 22), m) == Has(x, Around(m, 22))
  {
  }

  lemma RotatedBy25(x: word, m: word)
    ensures Has(RotR(x, 25), m) == Has(x, Around(m, 25))
  {
  }

  /** Where a bit of a rotated word comes from. */
  lemma RotatedBit(x: word, m: word, n: nat)
    requires Amount(n)
    ensures Has(RotR(x, n), m) == Has(x, Around(m, n))
  {
    hide Has, RotR, Around;
    match n
    case 2 => RotatedBy2(x, m);
    case 6 => RotatedBy6(x, m);
    case 7 => RotatedBy7(x, m);
    case 11 => RotatedBy11(x, m);
    case 13 => RotatedBy13(x, m);
    case 17 => RotatedBy17(x, m);
    case 18 => RotatedBy18(x, m);
    case 19 => RotatedBy19(x, m);
    case 22 => RotatedBy22(x, m);
    case _ => RotatedBy25(x, m);
  }

  /** A shifted word has nothing at its top. */
  lemma ShiftedBit(x: word, m: word)
    ensures Has(ShR(x, 3), m) == Has(x, m << 3) && Has(ShR(x, 10), m) == Has(x, m << 10)
  {
  }

  /** Which three bits each of the four functions adds up. */
  lemma SigmaBits(x: word, m: word)
    requires OneBit(m)
    ensures Has(BigSigma0(x), m) == ((Has(x, Around(m, 2)) != Has(x, Around(m, 13))) != Has(x, Around(m, 22)))
    ensures Has(BigSigma1(x), m) == ((Has(x, Around(m, 6)) != Has(x, Around(m, 11))) != Has(x, Around(m, 25)))
    ensures Has(SmallSigma0(x), m) == ((Has(x, Around(m, 7)) != Has(x, Around(m, 18))) != Has(x, m << 3))
    ensures Has(SmallSigma1(x), m) == ((Has(x, Around(m, 17)) != Has(x, Around(m, 19))) != Has(x, m << 10))
  {
    hide Has, OneBit, RotR, ShR, Xor, Around;
    ParityBit(x, m, 2, 13, RotR(x, 22));
    ParityBit(x, m, 6, 11, RotR(x, 25));
    ParityBit(x, m, 7, 18, ShR(x, 3));
    ParityBit(x, m, 17, 19, ShR(x, 10));
    RotatedBit(x, m, 22);
    RotatedBit(x, m, 25);
    ShiftedBit(x, m);
  }

  lemma ParityBit(x: word, m: word, i: nat, j: nat, z: word)
    requires OneBit(m) && Amount(i) && Amount(j)
    ensures Has(Xor(Xor(RotR(x, i), RotR(x, j)), z), m)
            == ((Has(x, Around(m, i)) != Has(x, Around(m, j))) != Has(z, m))
  {
    hide Has, OneBit, RotR, Xor, Around;
    RotatedBit(x, m, i);
    RotatedBit(x, m, j);
    Bitwise(RotR(x, i), RotR(x, j), m);
    Bitwise(Xor(RotR(x, i), RotR(x, j)), z, m);
  }

  /** Words are read and written with their first byte most significant, section 3.1. */
  lemma WordOrder(m: seq<byte>, i: nat, x: word)
    requires 4 * i + 4 <= |m|
    ensures BlockWord(m, i) >> 24 == m[4 * i] as word && (BlockWord(m, i) >> 16) & 0xff == m[4 * i + 1] as word
    ensures (BlockWord(m, i) >> 8) & 0xff == m[4 * i + 2] as word && BlockWord(m, i) & 0xff == m[4 * i + 3] as word
    ensures BlockWord(WordBytes(x), 0) == x
  {
  }
}
