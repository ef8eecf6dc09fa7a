/** A division that reports an overflow although everything fits, crypto/bigint.c. */
module DivCase {
  import opened Binary
  import opened Modular
  import opened Bigints
  import opened BigArith
  import DW = DivWidth

  /** 2^1185 + 1, to be stored with four leading zeros, and (2^1185 + 2^1184 + 1) * 4. */
  const DIVISOR: seq<nat> := [0, 1185]
  const DIVIDEND: seq<nat> := [2, 1186, 1187]

  lemma CaseValues()
    ensures var p := Pow2(1184); Ones(DIVISOR) == 2 * p + 1 && Ones(DIVIDEND) == 12 * p + 4
  {
    hide Pow2;
    assert DIVISOR[..1] == [0] && [0][..0] == [];
    assert DIVIDEND[..2] == [2, 1186] && [2, 1186][..1] == [2] && [2][..0] == [];
    PowFacts();
  }

  lemma PowFacts()
    ensures Pow2(0) == 1 && Pow2(1) == 2 && Pow2(2) == 4
    ensures Pow2(1185) == 2 * Pow2(1184) && Pow2(1186) == 4 * Pow2(1184) && Pow2(1187) == 8 * Pow2(1184)
  {
  }

  /** The remainder buffer fills up with two bits of the dividend left. */
  lemma CaseOverruns()
    ensures Ones(DIVISOR) > 0 && DW.Overruns(Ones(DIVIDEND), 1188, Ones(DIVISOR), 1190)
  {
    hide Pow2;
    CaseValues();
    PowFacts();
    var p, a, b := Pow2(1184), Ones(DIVIDEND), Ones(DIVISOR);
    DivModUnique(a, 4, 3 * p + 1, 0);
    DivModUnique(3 * p + 1, b, 1, p);
    DivModUnique(a, 2, 6 * p + 2, 0);
    DivModUnique(6 * p + 2, b, 2, 2 * p);
    assert DW.OverrunAt(a, 1188, b, 1190, 2);
  }

  /** Stored in 1190 bits the divisor makes the division fail. */
  method PaddedDivisorFails() returns (rc: int)
    ensures rc == 1
  {
    hide DataBits, Nat, Pow2, DW.Overruns, Bigint.Valid, Ones;
    CaseOverruns();
    var ar := new Arith();
    var a := Number(1188, DIVIDEND);
    var b := Number(1190, DIVISOR);
    var r := new Bigint();
    rc := ar.Div(null, r, a, b);
  }

  /** The same numbers with the divisor stored in 1186 bits are divided. */
  method TightDivisorDivides() returns (rc: int)
    ensures rc == 0
  {
    hide DataBits, Nat, Pow2, DW.Overruns, Bigint.Valid, Ones, DivFails;
    CaseOverruns();
    var ar := new Arith();
    var a := Number(1188, DIVIDEND);
    var b := Number(1186, DIVISOR);
    var r := new Bigint();
    DivFailsIff(a, b);
    rc := ar.Div(null, r, a, b);
  }
}
