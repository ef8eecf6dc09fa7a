/** Arithmetic on quotients, remainders and powers. */
module Modular {

  function Pow(a: nat, n: nat): nat {
    if n == 0 then 1 else a * Pow(a, n - 1)
  }

  lemma MulAssoc(x: int, y: int, z: int)
    ensures x * (y * z) == (x * y) * z
  {
  }

  lemma MulAtLeast(d: int, c: int)
    requires c > 0
    ensures d >= 1 ==> d * c >= c
    ensures d <= -1 ==> d * c <= -c
  {
    if d >= 1 { assert (d - 1) * c >= 0; }
    if d <= -1 { assert (-1 - d) * c >= 0; }
  }

  /** Quotient and remainder are unique. */
  lemma DivModUnique(x: int, c: int, q: int, r: int)
    requires c > 0 && x == q * c + r && 0 <= r < c
    ensures x / c == q && x % c == r
  {
    assert (x / c - q) * c == r - x % c;
    MulAtLeast(x / c - q, c);
  }

  lemma ModAddMul(x: int, k: int, c: int)
    requires c > 0
    ensures (x + k * c) % c == x % c
  {
    DivModUnique(x + k * c, c, x / c + k, x % c);
  }

  lemma ModMul(x: int, y: int, c: int)
    requires c > 0
    ensures ((x % c) * y) % c == (x * y) % c
    ensures (y * (x % c)) % c == (y * x) % c
  {
    var q := x / c;
    assert x == q * c + x % c;
    assert x * y == (x % c) * y + (q * y) * c;
    ModAddMul((x % c) * y, q * y, c);
  }

  lemma ModMulBoth(x: int, y: int, c: int)
    requires c > 0
    ensures ((x % c) * (y % c)) % c == (x * y) % c
  {
    ModMul(x, y % c, c);
    ModMul(y, x, c);
  }

  lemma ModMulCong(x: int, x': int, y: int, y': int, c: int)
    requires c > 0 && x % c == x' % c && y % c == y' % c
    ensures (x * y) % c == (x' * y') % c
  {
    ModMulBoth(x, y, c);
    ModMulBoth(x', y', c);
  }

  lemma {:induction false} PowAdd(a: nat, m: nat, n: nat)
    ensures Pow(a, m + n) == Pow(a, m) * Pow(a, n)
  {
    if m > 0 {
      PowAdd(a, m - 1, n);
      MulAssoc(a, Pow(a, m - 1), Pow(a, n));
    }
  }

  lemma {:induction false} PowMul(a: nat, m: nat, n: nat)
    ensures Pow(Pow(a, m), n) == Pow(a, m * n)
  {
    if n == 0 {
      assert m * n == 0;
    } else {
      PowMul(a, m, n - 1);
      PowAdd(a, m, m * (n - 1));
      assert m + m * (n - 1) == m * n;
    }
  }

  lemma {:induction false} PowCong(a: nat, b: nat, n: nat, c: nat)
    requires c > 0 && a % c == b % c
    ensures Pow(a, n) % c == Pow(b, n) % c
  {
    if n > 0 {
      PowCong(a, b, n - 1, c);
      ModMulCong(a, b, Pow(a, n - 1), Pow(b, n - 1), c);
    }
  }

  lemma PowMod(a: nat, n: nat, c: nat)
    requires c > 0
    ensures Pow(a % c, n) % c == Pow(a, n) % c
  {
    DivModUnique(a % c, c, 0, a % c);
    PowCong(a % c, a, n, c);
  }
}
