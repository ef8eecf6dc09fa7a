/** The signer, crypto/rsasign.py: right-to-left exponentiation through a table of squares. */
module RsaSign {
  import opened Binary
  import opened Modular

  /** `bin(b)[2:]`, most significant digit first. */
  function Bin(b: nat): seq<bool>
    requires b > 0
  {
    if b == 1 then [true] else Bin(b / 2) + [b % 2 == 1]
  }

  function BinVal(s: seq<bool>): nat {
    if s == [] then 0 else 2 * BinVal(s[..|s| - 1]) + if s[|s| - 1] then 1 else 0
  }

  lemma {:induction false} BinRoundTrip(b: nat)
    requires b > 0
    ensures BinVal(Bin(b)) == b && |Bin(b)| > 0
  {
    if b == 1 {
      assert BinVal([]) == 0;
    } else {
      BinRoundTrip(b / 2);
      assert Bin(b)[..|Bin(b)| - 1] == Bin(b / 2);
    }
  }

  /** The exponent made of the first `p` digits, in place. */
  ghost function Read(bs: seq<bool>, p: nat): nat
    requires p <= |bs|
  {
    BinVal(bs[..p]) * Pow2(|bs| - p)
  }

  ghost function PowRem(a: nat, n: nat, c: nat): nat
    requires c > 0
  {
    Pow(a, n) % c
  }

  /** `expmod` */
  method ExpMod(a: nat, b: nat, c: nat) returns (r: nat)
    requires b > 0 && c > 0
    ensures r == Pow(a, b) % c
  {
    hide Read, PowRem, Pow2, Pow, Bin, BinVal;
    var bs := Bin(b);
    BinRoundTrip(b);
    Ends(a, b, c);
    var xs := [a % c];
    while |xs| < |bs|
      invariant 0 < |xs| <= |bs|
      invariant forall k :: 0 <= k < |xs| ==> xs[k] == PowRem(a, Pow2(k), c)
    {
      SquareEntry(a, |xs| - 1, c);
      xs := xs + [(xs[|xs| - 1] * xs[|xs| - 1]) % c];
    }
    var rv: nat := 1;
    for p := 0 to |bs|
      invariant rv % c == PowRem(a, Read(bs, p), c)
    {
      TakeDigit(a, bs, p, c, rv);
      if bs[p] {
        rv := rv * xs[|xs| - 1 - p];
      }
    }
    r := rv % c;
  }

  lemma Ends(a: nat, b: nat, c: nat)
    requires b > 0 && c > 0
    ensures PowRem(a, Pow2(0), c) == a % c
    ensures 1 % c == PowRem(a, Read(Bin(b), 0), c)
    ensures PowRem(a, Read(Bin(b), |Bin(b)|), c) == Pow(a, b) % c
  {
    var bs := Bin(b);
    BinRoundTrip(b);
    assert Pow(a, 1) == a * Pow(a, 0);
    assert bs[..0] == [] && bs[..|bs|] == bs;
    assert Read(bs, 0) == 0;
  }

  lemma SquareEntry(a: nat, k: nat, c: nat)
    requires c > 0
    ensures var x := PowRem(a, Pow2(k), c); (x * x) % c == PowRem(a, Pow2(k + 1), c)
  {
    ModMulBoth(Pow(a, Pow2(k)), Pow(a, Pow2(k)), c);
    PowAdd(a, Pow2(k), Pow2(k));
  }

  lemma TakeDigit(a: nat, bs: seq<bool>, p: nat, c: nat, rv: nat)
    requires p < |bs| && c > 0
    requires rv % c == PowRem(a, Read(bs, p), c)
    ensures var w := if bs[p] then rv * PowRem(a, Pow2(|bs| - 1 - p), c) else rv;
            w % c == PowRem(a, Read(bs, p + 1), c)
  {
    var q := Pow2(|bs| - 1 - p);
    var e := Read(bs, p);
    ReadStep(bs, p);
    if bs[p] {
      PowAdd(a, e, q);
      DivModUnique(Pow(a, q) % c, c, 0, Pow(a, q) % c);
      ModMulCong(rv, Pow(a, e), Pow(a, q) % c, Pow(a, q), c);
    }
  }

  lemma ReadStep(bs: seq<bool>, p: nat)
    requires p < |bs|
    ensures Read(bs, p + 1) == Read(bs, p) + if bs[p] then Pow2(|bs| - 1 - p) else 0
  {
    assert bs[..p + 1][..p] == bs[..p];
    DoubleRight(BinVal(bs[..p]), Pow2(|bs| - 1 - p));
  }
}
