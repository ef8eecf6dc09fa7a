/** How long the remainder buffer of `bigint_div` gets, crypto/bigint.c, and exactly when it overflows. */
module DivWidth {
  import opened Binary
  import opened Modular
  import opened Bigints

  /** `a` without its last `k` bits. */
  function Part(a: nat, k: nat): nat {
    hide *;
    var m := Pow2(k);
    a / m
  }

  /** Quotient and remainder of that. */
  function Quo(a: nat, k: nat, b: nat): nat
    requires b > 0
  {
    Part(a, k) / b
  }

  function Rem(a: nat, k: nat, b: nat): (r: nat)
    requires b > 0
    ensures r < b
  {
    Part(a, k) % b
  }

  /** The room that a buffer of `n` bits has before it overflows. */
  function Room(n: nat): nat
    requires n <= MAX_BITS
  {
    MAX_BITS - n
  }

  /**
   * With `k` bits of the dividend left, the divisor is subtracted and a remainder stays that reaches into the last byte
   * of the buffer; then the remainder is doubled until the buffer is full, without another subtraction and
   * with a bit of the dividend still to come.
   */
  predicate OverrunAt(a: nat, la: nat, b: nat, lb: nat, k: nat)
    requires b > 0
  {
    lb < MAX_BITS && Room(lb) < k < la && Quo(a, k, b) % 2 == 1 && Rem(a, k, b) >= Pow2(MAX_BITS - 7)
    && Quo(a, k - Room(lb), b) == Quo(a, k, b) * Pow2(Room(lb))
  }

  /** A division of `a`, stored in `la` bits, by `b`, stored in `lb` bits, fills the remainder buffer. */
  ghost predicate Overruns(a: nat, la: nat, b: nat, lb: nat)
    requires b > 0
  {
    exists k: nat :: k < la && OverrunAt(a, la, b, lb, k)
  }

  /**
   * With `i` bits left the buffer holds `bits` bits: one for each bit read since the last subtraction, at `k`, and
   * those that `normalize` left then; at `k == la` nothing was subtracted yet.
   */
  ghost predicate Since(a: nat, i: nat, k: nat, la: nat, b: nat, lb: nat, bits: nat)
    requires b > 0
  {
    i <= k <= la && bits >= k - i && Quo(a, i, b) == Quo(a, k, b) * Pow2(k - i)
    && var w := bits - (k - i);
       if k == la then w == 1 && Quo(a, k, b) == 0 else Quo(a, k, b) % 2 == 1 && IsCut(w, Rem(a, k, b), lb)
  }

  lemma SinceStart(a: nat, la: nat, b: nat, lb: nat)
    requires b > 0 && a < Pow2(la)
    ensures Since(a, la, la, la, b, lb, 1)
  {
    DivModUnique(a, Pow2(la), 0, a);
    DivModUnique(0, b, 0, 0);
  }

  lemma SinceShift(a: nat, i: nat, k: nat, la: nat, b: nat, lb: nat, bits: nat)
    requires b > 0 && Since(a, i + 1, k, la, b, lb, bits) && Quo(a, i, b) == 2 * Quo(a, i + 1, b)
    ensures Since(a, i, k, la, b, lb, bits + 1)
  {
    DoubleRight(Quo(a, k, b), Pow2(k - i - 1));
  }

  lemma SinceCut(a: nat, i: nat, la: nat, b: nat, lb: nat, w: nat)
    requires b > 0 && i < la && Quo(a, i, b) == 2 * Quo(a, i + 1, b) + 1 && IsCut(w, Rem(a, i, b), lb)
    ensures Since(a, i, i, la, b, lb, w)
  {
    assert Pow2(0) == 1;
  }

  /** A factor of two more on one side only is impossible between odd numbers. */
  lemma {:induction false} OddUnique(p: nat, x: nat, q: nat, y: nat)
    requires p % 2 == 1 && q % 2 == 1 && p * Pow2(x) == q * Pow2(y)
    ensures x == y
    decreases x
  {
    if x > 0 && y > 0 {
      DoubleRight(p, Pow2(x - 1));
      DoubleRight(q, Pow2(y - 1));
      OddUnique(p, x - 1, q, y - 1);
    } else if x > 0 {
      DoubleRight(p, Pow2(x - 1));
    } else if y > 0 {
      DoubleRight(q, Pow2(y - 1));
    }
  }

  /** Where the condition says so, the buffer is full. */
  lemma MustStop(a: nat, la: nat, b: nat, lb: nat, k: nat, k': nat, bits: nat)
    requires b > 0 && b < Pow2(lb) && OverrunAt(a, la, b, lb, k)
    requires Since(a, k - Room(lb), k', la, b, lb, bits)
    ensures bits == MAX_BITS
  {
    hide Quo, Rem, Pow2;
    var j := k - Room(lb);
    PowPositive(Quo(a, k, b), Room(lb));
    if k' < la {
      OddUnique(Quo(a, k, b), k - j, Quo(a, k', b), k' - j);
      PartialByte(Rem(a, k, b), b, lb);
    }
  }

  lemma PowPositive(q: nat, n: nat)
    requires q > 0
    ensures q * Pow2(n) > 0
  {
    MulAtLeast(q, Pow2(n));
  }

  /** A remainder that reaches the last byte of the buffer keeps the length of its divisor. */
  lemma PartialByte(r: nat, b: nat, lb: nat)
    requires Pow2(MAX_BITS - 7) <= r < b < Pow2(lb) && lb < MAX_BITS
    ensures lb % 8 != 0 && lb - lb % 8 == MAX_BITS - 7
  {
    if lb <= MAX_BITS - 7 { Pow2Monotone(lb, MAX_BITS - 7); }
  }

  lemma DivAtLeast(x: nat, c: nat, q: nat)
    requires c > 0 && x >= q * c
    ensures x / c >= q
  {
    var d := x / c;
    assert x == d * c + x % c;
    Spread(q, d, c);
    MulAtLeast(q - d, c);
  }

  lemma Spread(q: int, d: int, c: int)
    ensures (q - d) * c == q * c - d * c
  {
  }

  lemma DivTimes(x: nat, c: nat)
    requires c > 0
    ensures (x / c) * c <= x
  {
  }

  lemma MulAtMost(x: nat, y: nat, z: nat)
    requires x <= y
    ensures x * z <= y * z
  {
  }

  lemma Scale(q: nat, b: nat, r: nat, p: nat)
    ensures (q * b + r) * p == (q * p) * b + r * p
  {
    assert (q * b) * p == (q * p) * b;
  }

  /** Reading the bits from `k` down to `j` at least multiplies. */
  lemma PartGrows(a: nat, j: nat, k: nat)
    requires j <= k
    ensures Part(a, j) >= Part(a, k) * Pow2(k - j)
  {
    var q := Part(a, k);
    DivTimes(a, Pow2(k));
    Pow2Add(k - j, j);
    MulAssoc(q, Pow2(k - j), Pow2(j));
    DivAtLeast(a, Pow2(j), q * Pow2(k - j));
  }

  /** Without a subtraction in between the remainder at least doubles with every bit. */
  lemma RemGrows(a: nat, j: nat, k: nat, b: nat)
    requires b > 0 && j <= k && Quo(a, j, b) == Quo(a, k, b) * Pow2(k - j)
    ensures Rem(a, j, b) >= Rem(a, k, b) * Pow2(k - j)
  {
    hide Pow2, Part;
    PartGrows(a, j, k);
    QuoRem(a, j, b);
    QuoRem(a, k, b);
    Scale(Quo(a, k, b), b, Rem(a, k, b), Pow2(k - j));
  }

  lemma QuoRem(a: nat, k: nat, b: nat)
    requires b > 0
    ensures Part(a, k) == Quo(a, k, b) * b + Rem(a, k, b)
  {
  }

  lemma RemAtLeast(a: nat, j: nat, k: nat, b: nat, e: nat)
    requires b > 0 && j <= k && Quo(a, j, b) == Quo(a, k, b) * Pow2(k - j) && Rem(a, k, b) >= Pow2(e)
    ensures b > Pow2(e + k - j)
  {
    hide Pow2, Quo, Rem;
    RemGrows(a, j, k, b);
    Pow2Add(e, k - j);
    MulAtMost(Pow2(e), Rem(a, k, b), Pow2(k - j));
  }

  lemma PartBelow(a: nat, la: nat, k: nat)
    requires a < Pow2(la) && k <= la
    ensures Part(a, k) < Pow2(la - k)
  {
    hide Pow2;
    DivTimes(a, Pow2(k));
    Pow2Add(la - k, k);
    if Part(a, k) >= Pow2(la - k) {
      MulAtMost(Pow2(la - k), Part(a, k), Pow2(k));
    }
  }

  /** A subtraction takes as many bits of the dividend as the divisor has. */
  lemma Reached(a: nat, la: nat, b: nat, k: nat, e: nat)
    requires b >= Pow2(e) && a < Pow2(la) && k <= la && Quo(a, k, b) >= 1
    ensures la - k > e && b < Pow2(la - k)
  {
    hide Pow2, Part, Quo, Rem;
    QuoRem(a, k, b);
    MulAtLeast(Quo(a, k, b), b);
    PartBelow(a, la, k);
    if la - k <= e { Pow2Monotone(la - k, e); }
  }

  /** The buffer is full before the last bit only where the condition says so. */
  lemma StopsOnlyIf(a: nat, i: nat, k: nat, la: nat, b: nat, lb: nat)
    requires b > 0 && b < Pow2(lb) && a < Pow2(la) && la < MAX_BITS && lb < MAX_BITS && i < la
    requires Since(a, i + 1, k, la, b, lb, MAX_BITS)
    ensures Overruns(a, la, b, lb)
  {
    hide Quo, Rem, Pow2;
    var w := MAX_BITS - (k - (i + 1));
    assert k < la && w > 1;
    if lb % 8 == 0 || Rem(a, k, b) < Pow2(lb - lb % 8) {
      WholeTooLate(a, i, k, la, b, lb, w);
      assert false;
    }
    RemAtLeast(a, i + 1, k, b, lb - lb % 8);
    Reached(a, la, b, k, lb - lb % 8 + k - (i + 1));
    LongDivisor(la, lb, k, i);
    assert OverrunAt(a, la, b, lb, k);
  }

  lemma LongDivisor(la: nat, lb: nat, k: nat, i: nat)
    requires la < MAX_BITS && lb < MAX_BITS && k - (i + 1) == MAX_BITS - lb && la - k > lb - lb % 8 + k - (i + 1)
    ensures lb - lb % 8 == MAX_BITS - 7
  {
  }

  /** A remainder cut to whole bytes leaves too few bits of the dividend to fill the buffer. */
  lemma WholeTooLate(a: nat, i: nat, k: nat, la: nat, b: nat, lb: nat, w: nat)
    requires b > 0 && a < Pow2(la) && lb < MAX_BITS && i + 1 <= k < la
    requires Quo(a, i + 1, b) == Quo(a, k, b) * Pow2(k - (i + 1)) && Quo(a, k, b) >= 1
    requires w == MAX_BITS - (k - (i + 1)) && w % 8 == 0 && 0 < w <= lb - lb % 8 && Rem(a, k, b) >= Pow2(w - 8)
    ensures la >= MAX_BITS
  {
    hide Quo, Rem, Pow2;
    RemAtLeast(a, i + 1, k, b, w - 8);
    Reached(a, la, b, k, w - 8 + k - (i + 1));
  }

  /** Only divisors stored in 1189 or 1190 bits with at least two leading zeros can do it. */
  lemma OverrunNeeds(a: nat, la: nat, b: nat, lb: nat)
    requires b > 0 && b < Pow2(lb) && a < Pow2(la) && la < MAX_BITS && Overruns(a, la, b, lb)
    ensures MAX_BITS - 2 <= lb < MAX_BITS && b < Pow2(lb - 2)
  {
    hide Quo, Rem, Pow2;
    var k: nat :| k < la && OverrunAt(a, la, b, lb, k);
    RemAtLeast(a, k - Room(lb), k, b, MAX_BITS - 7);
    Reached(a, la, b, k, MAX_BITS - 7 + Room(lb));
    Pow2Monotone(la - k, lb - 2);
  }

  /** A divisor that was never subtracted leaves one bit for each bit read. */
  lemma FirstStretch(a: nat, i: nat, k: nat, la: nat, b: nat, lb: nat)
    requires b > 0 && Since(a, i + 1, k, la, b, lb, MAX_BITS) && k == la
    ensures la >= MAX_BITS
  {
  }

  lemma SinceBound(a: nat, i: nat, k: nat, la: nat, b: nat, lb: nat, bits: nat)
    requires b > 0 && Since(a, i, k, la, b, lb, bits)
    ensures i <= k
  {
  }

  /** A partial quotient that is not zero means that the dividend is not below the divisor. */
  lemma QuotientNeeds(a: nat, i: nat, b: nat)
    requires b > 0 && Quo(a, i, b) >= 1
    ensures a >= b
  {
    hide Pow2, Quo;
    QuoRem(a, i, b);
    MulAtLeast(Quo(a, i, b), b);
    PartAtMost(a, i);
  }

  lemma PartAtMost(a: nat, i: nat)
    ensures Part(a, i) <= a
  {
    DivTimes(a, Pow2(i));
    MulAtMost(1, Pow2(i), Part(a, i));
  }

  /** Nothing subtracted up to the end: the dividend is below the divisor. */
  lemma NoneSubtracted(a: nat, k: nat, la: nat, b: nat, lb: nat, bits: nat)
    requires b > 0 && Since(a, 0, k, la, b, lb, bits)
    ensures k == la ==> a < b
  {
    if k == la {
      assert Pow2(0) == 1;
      DivModUnique(a, 1, a, 0);
      if a >= b { DivAtLeast(a, b, 1); }
    }
  }
}
