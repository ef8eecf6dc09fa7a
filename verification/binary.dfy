/** Binary notation: powers of two and little-endian bit sequences. */
module Binary {

  function Pow2(n: nat): (r: nat)
    ensures r >= 1
  {
    if n == 0 then 1 else 2 * Pow2(n - 1)
  }

  /** The number written by `b`, least significant bit first. */
  function Nat(b: seq<bool>): nat {
    if |b| == 0 then 0
    else Nat(b[..|b| - 1]) + if b[|b| - 1] then Pow2(|b| - 1) else 0
  }

  lemma {:induction false} Pow2Add(m: nat, n: nat)
    ensures Pow2(m + n) == Pow2(m) * Pow2(n)
  {
    if n > 0 {
      Pow2Add(m, n - 1);
      DoubleRight(Pow2(m), Pow2(n - 1));
    }
  }

  lemma DoubleRight(x: int, y: int)
    ensures x * (2 * y) == 2 * (x * y)
  {
  }

  lemma {:induction false} Pow2Monotone(m: nat, n: nat)
    requires m <= n
    ensures Pow2(m) <= Pow2(n)
  {
    if m < n { Pow2Monotone(m, n - 1); }
  }

  lemma {:induction false} NatBound(b: seq<bool>)
    ensures Nat(b) < Pow2(|b|)
  {
    if |b| > 0 { NatBound(b[..|b| - 1]); }
  }

  lemma NatStep(b: seq<bool>, i: nat)
    requires i < |b|
    ensures Nat(b[..i + 1]) == Nat(b[..i]) + if b[i] then Pow2(i) else 0
  {
    assert b[..i + 1][..i] == b[..i];
  }

  /** Bits that are all zero above `n` do not count. */
  lemma {:induction false} NatTrim(b: seq<bool>, n: nat)
    requires n <= |b|
    requires forall k :: n <= k < |b| ==> !b[k]
    ensures Nat(b) == Nat(b[..n])
  {
    if n < |b| {
      var c := b[..|b| - 1];
      NatTrim(c, n);
      assert c[..n] == b[..n];
    } else {
      assert b[..n] == b;
    }
  }

  lemma {:induction false} NatZeros(b: seq<bool>)
    requires forall k :: 0 <= k < |b| ==> !b[k]
    ensures Nat(b) == 0
  {
    NatTrim(b, 0);
  }

  /** Changing one bit from false to true adds its weight. */
  lemma {:induction false} NatSetBit(b: seq<bool>, n: nat)
    requires n < |b| && !b[n]
    ensures Nat(b[n := true]) == Nat(b) + Pow2(n)
  {
    var m := |b| - 1;
    var c := b[n := true];
    if n == m {
      assert c[..m] == b[..m];
    } else {
      NatSetBit(b[..m], n);
      assert c[..m] == b[..m][n := true];
    }
  }

  lemma {:induction false} NatShift(b: seq<bool>)
    ensures Nat([false] + b) == 2 * Nat(b)
  {
    var s := [false] + b;
    if |b| == 0 {
      assert s == [false] && s[..0] == [];
    } else {
      NatShift(b[..|b| - 1]);
      assert s[..|s| - 1] == [false] + b[..|b| - 1];
    }
  }

  /** Low part plus shifted high part. */
  lemma {:induction false} NatSplit(b: seq<bool>, k: nat)
    requires k <= |b|
    ensures Nat(b) == Nat(b[..k]) + Pow2(k) * Nat(b[k..])
  {
    if k == |b| {
      assert b[..k] == b;
    } else {
      var m := |b| - 1;
      var t := b[k..];
      NatSplit(b[..m], k);
      assert b[..m][..k] == b[..k];
      assert b[..m][k..] == t[..|t| - 1];
      Pow2Add(k, m - k);
      MulAdd(Pow2(k), Nat(t[..|t| - 1]), if b[m] then Pow2(m - k) else 0);
    }
  }

  lemma MulAdd(x: int, y: int, z: int)
    ensures x * (y + z) == x * y + x * z
  {
  }

  /** A number with bit `k` set is at least 2^k. */
  lemma {:induction false} NatHighBit(b: seq<bool>, k: nat)
    requires k < |b| && b[k]
    ensures Nat(b) >= Pow2(k)
  {
    NatStep(b, k);
    NatSplit(b, k + 1);
    Multiples(Pow2(k + 1), Nat(b[k + 1..]));
  }

  /** Two numbers that agree above bit `k` and differ at `k` are ordered by that bit. */
  lemma {:induction false} NatCompare(a: seq<bool>, b: seq<bool>, k: nat)
    requires |a| == |b| && k < |a|
    requires a[k] && !b[k]
    requires forall n :: k < n < |a| ==> a[n] == b[n]
    ensures Nat(a) > Nat(b)
  {
    var m := |a| - 1;
    if k == m {
      NatBound(b[..m]);
    } else {
      NatCompare(a[..m], b[..m], k);
    }
  }

  lemma {:induction false} NatExt(a: seq<bool>, b: seq<bool>)
    requires |a| == |b|
    requires Nat(a) == Nat(b)
    ensures a == b
  {
    if |a| > 0 {
      var m := |a| - 1;
      NatBound(a[..m]);
      NatBound(b[..m]);
      NatExt(a[..m], b[..m]);
      assert a == a[..m] + [a[m]] && b == b[..m] + [b[m]];
    }
  }

  /** Prepending a bit doubles and adds. */
  lemma {:induction false} NatCons(x: bool, b: seq<bool>)
    ensures Nat([x] + b) == 2 * Nat(b) + if x then 1 else 0
  {
    NatShift(b);
    if x {
      NatSetBit([false] + b, 0);
      assert ([false] + b)[0 := true] == [x] + b;
    }
  }

  /** A number of exactly n + 1 bits loses 2^n when cut to n bits. */
  lemma NatCut(b: seq<bool>, n: nat)
    requires n <= |b| && Pow2(n) <= Nat(b) < Pow2(n + 1)
    ensures Nat(b[..n]) == Nat(b) - Pow2(n)
  {
    NatSplit(b, n);
    NatBound(b[..n]);
    Multiples(Pow2(n), Nat(b[n..]));
  }

  lemma Multiples(p: nat, h: nat)
    ensures h == 0 ==> p * h == 0
    ensures h == 1 ==> p * h == p
    ensures h >= 2 ==> p * h >= 2 * p
  {
    if h >= 2 { assert p * (h - 2) >= 0; }
  }

  /** The complement on `n` bits. */
  lemma {:induction false} NatComplement(a: seq<bool>, b: seq<bool>, n: nat)
    requires |a| == |b| && n <= |a|
    requires forall k :: 0 <= k < n ==> b[k] == !a[k]
    ensures Nat(a[..n]) + Nat(b[..n]) == Pow2(n) - 1
  {
    if n > 0 {
      NatComplement(a, b, n - 1);
      NatStep(a, n - 1);
      NatStep(b, n - 1);
    }
  }

  lemma {:induction false} NatOnes(b: seq<bool>)
    requires forall k :: 0 <= k < |b| ==> b[k]
    ensures Nat(b) == Pow2(|b|) - 1
  {
    if |b| > 0 { NatOnes(b[..|b| - 1]); }
  }

  /** Adding one clears the trailing ones and sets the lowest zero. */
  lemma NatIncrement(b: seq<bool>, c: seq<bool>, k: nat)
    requires |b| == |c| && k < |b| && !b[k] && c[k]
    requires forall n :: 0 <= n < k ==> b[n] && !c[n]
    requires forall n :: k < n < |b| ==> b[n] == c[n]
    ensures Nat(c) == Nat(b) + 1
  {
    assert b[k + 1..] == c[k + 1..];
    NatSplit(b, k + 1);
    NatSplit(c, k + 1);
    NatStep(b, k);
    NatStep(c, k);
    NatOnes(b[..k]);
    NatZeros(c[..k]);
  }
}
