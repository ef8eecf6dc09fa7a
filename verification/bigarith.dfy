/** Multiplication, division and modular exponentiation of crypto/bigint.c, on its global temporaries. */
module BigArith {
  import opened Binary
  import opened Bigints
  import opened Modular
  import DW = DivWidth

  /** With a modulus of at most this many bits an exponentiation never runs out of buffer. */
  const MAX_MODULUS := 592

  class Arith {
    const mulPt: Bigint
    const mulAt: Bigint
    const divQt: Bigint
    const divRt: Bigint
    const divBc: Bigint
    const expXt: Bigint
    const expR: Bigint

    constructor ()
      ensures Valid()
      ensures fresh(Temps()) && forall t :: t in Temps() ==> fresh(t.data)
    {
      mulPt := new Bigint();
      mulAt := new Bigint();
      divQt := new Bigint();
      divRt := new Bigint();
      divBc := new Bigint();
      expXt := new Bigint();
      expR := new Bigint();
    }

    ghost function Temps(): set<Bigint> {
      {mulPt, mulAt, divQt, divRt, divBc, expXt, expR}
    }

    /** The seven globals are seven structures. */
    ghost predicate Valid() {
      && mulPt.data.Length == mulAt.data.Length == DATA_MAXLEN
      && divQt.data.Length == divRt.data.Length == divBc.data.Length == DATA_MAXLEN
      && expXt.data.Length == expR.data.Length == DATA_MAXLEN
      && Other(mulPt, mulAt) && Other(divQt, divRt) && Other(divQt, divBc) && Other(divRt, divBc)
      && Other(expXt, expR) && MulOther(expXt) && MulOther(expR) && DivOther(expXt) && DivOther(expR)
    }

    /** `x` is none of the temporaries of `bigint_mul`. */
    ghost predicate MulOther(x: Bigint) {
      Other(x, mulPt) && Other(x, mulAt)
    }

    /** `x` is none of the temporaries of `bigint_div`. */
    ghost predicate DivOther(x: Bigint) {
      Other(x, divQt) && Other(x, divRt) && Other(x, divBc)
    }

    /** `bigint_mul`; any of the three may be the same structure. */
    method Mul(p: Bigint, a: Bigint, b: Bigint) returns (rc: int)
      requires Valid() && a.Valid() && b.Valid() && p.data.Length == DATA_MAXLEN
      requires Apart(p, a) && Apart(p, b)
      requires MulOther(p) && MulOther(a) && MulOther(b)
      modifies p, p.data, mulPt, mulPt.data, mulAt, mulAt.data
      ensures rc == 0 || rc == 1
      ensures rc == 0 <==> old(b.BITS()) == 0 || old(a.BITS()) + old(b.BITS()) <= MAX_BITS
      ensures rc == 0 ==> p.Valid() && p.Val() == old(a.Val()) * old(b.Val())
      ensures rc == 0 ==> p.BITS() <= old(a.BITS()) + old(b.BITS()) + 1
    {
      hide DataBits, Nat;
      rc := Product(a, b);
      if rc == 0 {
        Copy(p, mulPt);
      }
    }

    /** The loop of `bigint_mul`: shift and add into `mulPt`. */
    method Product(a: Bigint, b: Bigint) returns (rc: int)
      requires Valid() && a.Valid() && b.Valid() && MulOther(a) && MulOther(b)
      modifies mulPt, mulPt.data, mulAt, mulAt.data
      ensures rc == 0 || rc == 1
      ensures rc == 0 <==> b.BITS() == 0 || a.BITS() + b.BITS() <= MAX_BITS
      ensures rc == 0 ==> mulPt.Valid() && mulPt.Val() == a.Val() * b.Val()
      ensures rc == 0 ==> mulPt.BITS() <= a.BITS() + b.BITS() + 1
    {
      hide DataBits, Nat, Pow2, Bigint.Valid;
      b.InRange();
      b.ValBelow();
      mulPt.Zero();
      Copy(mulAt, a);
      MulStart(a.Val(), b.All());
      var i := 0;
      while i < b.BITS()
        invariant i <= b.BITS()
        invariant ProdInv(a, b, i)
      {
        rc := ProductStep(a, b, i);
        if rc > 0 {
          return;
        }
        i := i + 1;
      }
      mulAt.InRange();
      return 0;
    }

    ghost predicate ProdInv(a: Bigint, b: Bigint, i: nat)
      reads a, a.data, b, b.data, mulPt, mulPt.data, mulAt, mulAt.data
    {
      a.Valid() && b.Valid() && mulPt.Valid() && mulAt.Valid() && i <= |b.All()|
      && mulPt.Val() == a.Val() * Nat(b.All()[..i]) && mulAt.Val() == a.Val() * Pow2(i)
      && mulPt.BITS() <= a.BITS() + i + 1 && mulAt.BITS() == a.BITS() + i
    }

    method ProductStep(a: Bigint, b: Bigint, i: nat) returns (rc: int)
      requires Valid() && MulOther(a) && MulOther(b) && ProdInv(a, b, i) && i < b.BITS()
      modifies mulPt, mulPt.data, mulAt, mulAt.data
      ensures rc == 0 || rc == 1
      ensures rc == 1 ==> a.BITS() + i >= MAX_BITS
      ensures rc == 0 ==> ProdInv(a, b, i + 1)
    {
      hide DataBits, Nat, Pow2, Bigint.Valid;
      b.InRange();
      MulStep(a.Val(), b.All(), i);
      b.BitIsStored(i);
      if b.Bit(i) {
        a.ValBelow();
        MulFits(a.Val(), b.All(), i, a.BITS());
        rc := Add(mulPt, mulPt, mulAt);
        if rc > 0 {
          return;
        }
      }
      rc := mulAt.LeftShift();
    }

    /** `bigint_div`; `q` or `r` may be null, and either may be the same structure as `a` or `b`. */
    method Div(q: Bigint?, r: Bigint?, a: Bigint, b: Bigint) returns (rc: int)
      requires Valid() && a.Valid() && b.Valid() && DivOther(a) && DivOther(b)
      requires q != null ==> DivOther(q) && q.data.Length == DATA_MAXLEN
      requires r != null ==> DivOther(r) && r.data.Length == DATA_MAXLEN
      requires q != null && r != null ==> Apart(q, r)
      modifies Cells(q), Cells(r), Cells(divQt), Cells(divRt), Cells(divBc)
      ensures rc == 0 || rc == 1 || rc == 2
      ensures rc == 2 <==> old(b.Val()) == 0 || q == r
      ensures rc != 2 ==> (rc == 1 <==> old(DivFails(a.Val(), a.BITS(), b.Val(), b.BITS())))
      ensures rc == 0 && r != null ==> r.Valid() && r.Tight() && r.Val() == old(a.Val()) % old(b.Val())
      ensures rc == 0 && q != null ==>
                q.Valid() && q.Val() == (old(a.Val()) / old(b.Val())) % Pow2(old(a.BITS()) / 2 + 1)
    {
      hide DataBits, Nat, Pow2, Bigint.Valid, Bigint.Tight;
      var z := b.IsZero();
      if z || q == r {
        return 2;
      }
      rc := LongDivide(a, b);
      if rc > 0 {
        return;
      }
      Output(q, divQt);
      Output(r, divRt);
    }

    /** Hand a result out, unless nobody wants it. */
    static method Output(d: Bigint?, s: Bigint)
      requires s.Valid() && (d != null ==> Other(d, s) && d.data.Length == DATA_MAXLEN)
      modifies Cells(d), Cells(s)
      ensures d != null ==> d.Valid() && d.Tight() && d.Val() == old(s.Val())
    {
      hide DataBits, Nat;
      if d != null {
        s.ValBelow();
        s.Normalize();
        Copy(d, s);
      }
    }

    /** The loop of `bigint_div`, which leaves the remainder in `divRt` and the quotient in `divQt`. */
    method LongDivide(a: Bigint, b: Bigint) returns (rc: int)
      requires Valid() && a.Valid() && b.Valid() && DivOther(a) && DivOther(b)
      requires b.Val() > 0
      modifies Cells(divQt), Cells(divRt), Cells(divBc)
      ensures rc == 0 || rc == 1
      ensures rc == 1 <==> DivFails(a.Val(), a.BITS(), b.Val(), b.BITS())
      ensures rc == 0 ==> divRt.Valid() && divRt.Val() == a.Val() % b.Val()
      ensures rc == 0 ==> divQt.Valid() && divQt.Val() == (a.Val() / b.Val()) % Pow2(a.BITS() / 2 + 1)
    {
      hide RemInv, QuotInv, Passed, DivFails;
      DivInit(a, b);
      var i: nat := a.BITS();
      ghost var k: nat := i;
      NothingPassed(a, b);
      while i > 0
        invariant i <= a.BITS() && (i == a.BITS() || a.BITS() - i < MAX_BITS)
        invariant RemInv(a, b, i, k) && QuotInv(a, b, i) && Passed(a, b, i)
      {
        i := i - 1;
        rc, k := DivStep(a, b, i, k);
        if rc > 0 {
          return;
        }
      }
      DivDone(a, b, k);
      return 0;
    }

    /** No place where the buffer must overflow has been passed with `i` bits left. */
    ghost predicate Passed(a: Bigint, b: Bigint, i: nat)
      reads a, a.data, b, b.data
    {
      b.Val() > 0 && b.BITS() <= MAX_BITS
      && forall k: nat {:trigger DW.OverrunAt(a.Val(), a.BITS(), b.Val(), b.BITS(), k)} ::
           k < a.BITS() && DW.OverrunAt(a.Val(), a.BITS(), b.Val(), b.BITS(), k) ==> i >= k - DW.Room(b.BITS())
    }

    lemma NothingPassed(a: Bigint, b: Bigint)
      requires a.Valid() && b.Valid() && b.Val() > 0
      ensures Passed(a, b, a.BITS())
    {
      hide DataBits, Nat, DW.OverrunAt;
      b.InRange();
    }

    /** A step that succeeds starts where the buffer is not full. */
    lemma StepPasses(a: Bigint, b: Bigint, i: nat, k: nat)
      requires RemInv(a, b, i + 1, k) && Passed(a, b, i + 1) && divRt.BITS() < MAX_BITS
      ensures Passed(a, b, i)
    {
      hide DataBits, Nat, Pow2, DW.Since;
      b.ValBelow();
      forall n: nat | n < a.BITS() && DW.OverrunAt(a.Val(), a.BITS(), b.Val(), b.BITS(), n)
        ensures i >= n - DW.Room(b.BITS())
      {
        if i + 1 == n - DW.Room(b.BITS()) {
          DW.MustStop(a.Val(), a.BITS(), b.Val(), b.BITS(), n, k, divRt.BITS());
        }
      }
    }

    /** A buffer that is full with a bit still to read: the division fails. */
    lemma FullFails(a: Bigint, b: Bigint, i: nat, k: nat)
      requires RemInv(a, b, i + 1, k) && i < a.BITS() && divRt.BITS() == MAX_BITS
      ensures DivFails(a.Val(), a.BITS(), b.Val(), b.BITS())
    {
      hide DataBits, Nat, Pow2, DW.Since, DW.OverrunAt;
      a.InRange();
      b.InRange();
      a.ValBelow();
      b.ValBelow();
      if a.BITS() < MAX_BITS {
        if b.BITS() < MAX_BITS {
          DW.StopsOnlyIf(a.Val(), i, k, a.BITS(), b.Val(), b.BITS());
        } else {
          DW.FirstStretch(a.Val(), i, k, a.BITS(), b.Val(), b.BITS());
        }
      }
    }

    lemma DigitFails(a: Bigint, b: Bigint, i: nat)
      requires a.Valid() && b.Valid() && b.Val() > 0 && i < a.BITS() && b.BITS() == MAX_BITS
      requires DW.Quo(a.Val(), i, b.Val()) >= 1
      ensures DivFails(a.Val(), a.BITS(), b.Val(), b.BITS())
    {
      hide DataBits, Nat, Pow2;
      DW.QuotientNeeds(a.Val(), i, b.Val());
    }

    lemma DivDone(a: Bigint, b: Bigint, k: nat)
      requires RemInv(a, b, 0, k) && QuotInv(a, b, 0) && Passed(a, b, 0) && a.BITS() < MAX_BITS
      ensures divRt.Valid() && divRt.Val() == a.Val() % b.Val()
      ensures divQt.Valid() && divQt.Val() == (a.Val() / b.Val()) % Pow2(a.BITS() / 2 + 1)
      ensures !DivFails(a.Val(), a.BITS(), b.Val(), b.BITS())
    {
      hide DataBits, Nat, Pow2, PartRem, PartQuo, Kept, DW.Since;
      DivEnd(a.All(), b.Val(), a.BITS());
      DW.NoneSubtracted(a.Val(), k, a.BITS(), b.Val(), b.BITS(), divRt.BITS());
    }

    method DivInit(a: Bigint, b: Bigint)
      requires Valid() && a.Valid() && b.Valid() && DivOther(a) && DivOther(b)
      requires b.Val() > 0
      modifies Cells(divQt), Cells(divRt), Cells(divBc)
      ensures RemInv(a, b, a.BITS(), a.BITS()) && QuotInv(a, b, a.BITS())
    {
      hide DataBits, Nat, Pow2, PartRem, PartQuo, Kept, Bigint.Valid, DW.Since;
      a.InRange();
      a.Clean();
      a.ValBelow();
      DivStart(a.All(), b.Val(), a.BITS());
      DW.SinceStart(a.Val(), a.BITS(), b.Val(), b.BITS());
      divQt.Zero();
      divRt.Zero();
      Copy(divBc, b);
      divBc.TwosComp();
    }

    /**
     * The remainder buffer and the complemented divisor after reading the bits of `a` from `i` on; `k` is where the
     * divisor was last subtracted. A divisor as long as the buffer was never subtracted.
     */
    ghost predicate RemInv(a: Bigint, b: Bigint, i: nat, k: nat)
      reads a, a.data, b, b.data, divRt, divRt.data, divBc, divBc.data
    {
      a.Valid() && b.Valid() && b.Val() > 0 && i <= a.BITS()
      && divBc.Valid() && divBc.BITS() == b.BITS() && divBc.Val() == Pow2(b.BITS()) - b.Val()
      && divRt.Valid() && divRt.Val() == PartRem(a.All(), i, b.Val()) && divRt.BITS() > 0
      && DW.Since(a.Val(), i, k, a.BITS(), b.Val(), b.BITS(), divRt.BITS())
      && (b.BITS() == MAX_BITS ==> k == a.BITS())
    }

    /** The quotient buffer at the same point. */
    ghost predicate QuotInv(a: Bigint, b: Bigint, i: nat)
      reads a, a.data, b, b.data, divQt, divQt.data
    {
      a.Valid() && b.Valid() && b.Val() > 0 && i <= a.BITS()
      && divQt.Valid() && divQt.BITS() == 1 + a.BITS() - i
      && divQt.Val() == Kept(PartQuo(a.All(), i, b.Val()), i, a.BITS() / 2 + 1)
      && forall n :: 0 <= n < i ==> !divQt.All()[n]
    }

    /** One round of the loop of `bigint_div`. */
    method DivStep(a: Bigint, b: Bigint, i: nat, ghost k: nat) returns (rc: int, ghost k': nat)
      requires Valid() && DivOther(a) && DivOther(b)
      requires RemInv(a, b, i + 1, k) && QuotInv(a, b, i + 1) && Passed(a, b, i + 1)
      modifies Cells(divQt), Cells(divRt)
      ensures rc == 0 || rc == 1
      ensures rc == 1 ==> DivFails(a.Val(), a.BITS(), b.Val(), b.BITS())
      ensures a.BITS() - i == MAX_BITS ==> rc == 1
      ensures rc == 0 ==> RemInv(a, b, i, k') && QuotInv(a, b, i) && Passed(a, b, i)
    {
      hide DataBits, Nat, PartQuo, RemInv, RemShifted, QuotInv, QuotGrown, Bigint.Valid, Passed, DW.Overruns;
      k' := k;
      if divRt.BITS() < MAX_BITS { StepPasses(a, b, i, k); }
      rc := ShiftIn(a, b, i, k);
      if rc > 0 {
        return;
      }
      var full := GrowQuotient(a, b, i);
      if full {
        return 1, k;
      }
      var ge: bool;
      rc, ge, k' := NextRemainder(a, b, i, k);
      if rc > 0 {
        return;
      }
      PutDigit(a, b, i, ge);
    }

    /** The remainder buffer after reading bit `i` and before subtracting. */
    ghost predicate RemShifted(a: Bigint, b: Bigint, i: nat, k: nat)
      reads a, a.data, b, b.data, divRt, divRt.data, divBc, divBc.data
    {
      a.Valid() && b.Valid() && b.Val() > 0 && i < a.BITS()
      && divBc.Valid() && divBc.BITS() == b.BITS() && divBc.Val() == Pow2(b.BITS()) - b.Val()
      && divRt.Valid() && divRt.BITS() > 0 && i < k
      && DW.Since(a.Val(), i + 1, k, a.BITS(), b.Val(), b.BITS(), divRt.BITS() - 1)
      && (b.BITS() == MAX_BITS ==> k == a.BITS())
      && divRt.Val() == 2 * PartRem(a.All(), i + 1, b.Val()) + if a.All()[i] then 1 else 0
    }

    /** Subtract if possible; `ge` is the quotient digit. */
    method NextRemainder(a: Bigint, b: Bigint, i: nat, ghost k: nat) returns (rc: int, ge: bool, ghost k': nat)
      requires Valid() && DivOther(a) && DivOther(b) && RemShifted(a, b, i, k)
      modifies Cells(divRt)
      ensures rc == 0 || rc == 1
      ensures rc == 1 ==> DivFails(a.Val(), a.BITS(), b.Val(), b.BITS())
      ensures rc == 0 ==> RemInv(a, b, i, k')
      ensures PartQuo(a.All(), i, b.Val()) == 2 * PartQuo(a.All(), i + 1, b.Val()) + if ge then 1 else 0
    {
      hide DataBits, Nat, Pow2, PartRem, PartQuo, Bigint.Valid, DW.Since, DivFails;
      a.InRange();
      HighStep(a.All(), i, b.Val());
      PartsAre(a.All(), i, b.Val());
      PartsAre(a.All(), i + 1, b.Val());
      k' := k;
      rc, ge := Reduce(b);
      if rc > 0 {
        DigitFails(a, b, i);
      } else if ge {
        k' := i;
        DW.SinceCut(a.Val(), i, a.BITS(), b.Val(), b.BITS(), divRt.BITS());
      } else {
        DW.SinceShift(a.Val(), i, k, a.BITS(), b.Val(), b.BITS(), divRt.BITS() - 1);
      }
    }

    /** The quotient buffer, one bit longer, before digit `i` is known. */
    ghost predicate QuotGrown(a: Bigint, b: Bigint, i: nat)
      reads a, a.data, b, b.data, divQt, divQt.data
    {
      a.Valid() && b.Valid() && b.Val() > 0 && i < a.BITS()
      && divQt.Valid() && divQt.BITS() == 1 + a.BITS() - i
      && divQt.Val() == Kept(PartQuo(a.All(), i + 1, b.Val()), i + 1, a.BITS() / 2 + 1)
      && forall n :: 0 <= n <= i ==> !divQt.All()[n]
    }

    /** `++div_qt.bits` with its carry into `bytes`. */
    method GrowQuotient(a: Bigint, b: Bigint, i: nat) returns (full: bool)
      requires Valid() && DivOther(a) && DivOther(b) && QuotInv(a, b, i + 1)
      modifies divQt
      ensures a.BITS() <= MAX_BITS && (full <==> a.BITS() - i == MAX_BITS)
      ensures !full ==> QuotGrown(a, b, i)
    {
      hide DataBits, Nat, PartQuo, Kept;
      full := Grow(divQt, divQt.BITS() + 1);
    }

    /** `if (r >= b) SET_BIT(&div_qt, i)` */
    method PutDigit(a: Bigint, b: Bigint, i: nat, ge: bool)
      requires Valid() && DivOther(a) && DivOther(b) && QuotGrown(a, b, i)
      requires PartQuo(a.All(), i, b.Val()) == 2 * PartQuo(a.All(), i + 1, b.Val()) + if ge then 1 else 0
      modifies divQt.data
      ensures QuotInv(a, b, i)
    {
      hide DataBits, Nat, PartQuo, Kept;
      KeptStep(PartQuo(a.All(), i + 1, b.Val()), i, a.BITS() / 2 + 1, ge);
      if ge {
        if i < divQt.BITS() {
          NatSetBit(divQt.All(), i);
        }
        divQt.SetBit(i);
      }
    }

    /** `LEFT_SHIFT(&div_rt)` and `div_rt.data[0] |= BIT(a, i)`. */
    method ShiftIn(a: Bigint, b: Bigint, i: nat, ghost k: nat) returns (rc: int)
      requires Valid() && DivOther(a) && DivOther(b)
      requires RemInv(a, b, i + 1, k)
      modifies Cells(divRt)
      ensures rc == 0 || rc == 1
      ensures rc == 1 ==> DivFails(a.Val(), a.BITS(), b.Val(), b.BITS())
      ensures rc == 0 ==> old(divRt.BITS()) < MAX_BITS && RemShifted(a, b, i, k)
    {
      hide DataBits, Nat, PartRem, DW.Since, DivFails;
      divRt.InRange();
      DW.SinceBound(a.Val(), i + 1, k, a.BITS(), b.Val(), b.BITS(), divRt.BITS());
      if divRt.BITS() == MAX_BITS { FullFails(a, b, i, k); }
      rc := divRt.LeftShift();
      if rc > 0 {
        return;
      }
      a.BitIsStored(i);
      divRt.OrLow(a.Bit(i));
    }

    /** Restoring step: subtract `b` by adding its two's complement and cutting to its length. */
    method Reduce(b: Bigint) returns (rc: int, ge: bool)
      requires Valid() && b.Valid() && DivOther(b)
      requires divRt.Valid() && divBc.Valid()
      requires divBc.BITS() == b.BITS() && divBc.Val() == Pow2(b.BITS()) - b.Val()
      requires divRt.Val() < 2 * b.Val()
      modifies Cells(divRt)
      ensures rc == 0 || rc == 1
      ensures ge <==> old(divRt.Val()) >= b.Val()
      ensures rc == 1 <==> ge && b.BITS() == MAX_BITS
      ensures rc == 0 ==> divRt.Valid() && divRt.Val() == old(divRt.Val()) - if ge then b.Val() else 0
      ensures rc == 0 ==> if ge then IsCut(divRt.BITS(), divRt.Val(), b.BITS()) && divRt.BITS() > 0
                          else divRt.BITS() == old(divRt.BITS())
    {
      hide DataBits, Nat, Bigint.Valid;
      var c := Cmp(divRt, b);
      ge := c >= 0;
      rc := 0;
      if ge {
        b.InRange();
        b.ValBelow();
        if b.BITS() < MAX_BITS { Pow2Monotone(b.BITS() + 1, MAX_BITS); }
        assert b.BITS() <= MAX_BITS;
        rc := Add(divRt, divRt, divBc);
        if rc > 0 {
          return;
        }
        CutTo(b);
        c := Cmp(divRt, b);
        if c >= 0 {
          assert false;
        }
      }
    }

    /** Cut the remainder buffer to the length of `b`, which takes away exactly 2^BITS(b). */
    method CutTo(b: Bigint)
      requires Valid() && b.Valid() && DivOther(b) && divRt.Valid()
      requires Pow2(b.BITS()) <= divRt.Val() < Pow2(b.BITS() + 1)
      modifies Cells(divRt)
      ensures divRt.Valid() && divRt.Val() == old(divRt.Val()) - Pow2(b.BITS())
      ensures IsCut(divRt.BITS(), divRt.Val(), b.BITS()) && divRt.BITS() > 0
    {
      hide DataBits, Nat, IsCut;
      divRt.ValBelow();
      NatCut(divRt.All(), b.BITS());
      if divRt.BITS() <= b.BITS() { Pow2Monotone(divRt.BITS(), b.BITS()); }
      if divRt.BITS() > b.BITS() {
        divRt.bytes := b.bytes;
        divRt.bits := b.bits;
        divRt.Normalize();
        CutPositive(divRt.BITS(), divRt.Val(), b.BITS());
      }
    }

    /** `x` is none of the globals. */
    ghost predicate Foreign(x: Bigint) {
      MulOther(x) && DivOther(x) && Other(x, expXt) && Other(x, expR)
    }

    /** `bigint_expmod`; `x` may be the same structure as any operand. */
    method ExpMod(x: Bigint, a: Bigint, b: Bigint, c: Bigint) returns (rc: int)
      requires Valid() && a.Valid() && b.Valid() && c.Valid() && x.data.Length == DATA_MAXLEN
      requires Foreign(x) && Foreign(a) && Foreign(b) && Foreign(c)
      modifies Cells(x), Cells(mulPt), Cells(mulAt), Cells(divQt), Cells(divRt), Cells(divBc), Cells(expXt), Cells(expR)
      ensures rc == 0 || rc == 1 || rc == 2
      ensures rc == 2 <==> old(c.Val()) == 0
      ensures old(c.Val()) > 0 && old(c.BITS()) <= MAX_MODULUS && old(a.BITS()) < MAX_BITS ==> rc == 0
      ensures rc == 0 && old(b.BITS()) > 0 ==>
                x.Valid() && x.Tight() && x.Val() == Pow(old(a.Val()), old(b.Val())) % old(c.Val())
      ensures rc == 0 && old(b.BITS()) == 0 ==> x.Valid() && x.Val() == 1
    {
      hide DataBits, Nat, Pow, Bigint.Valid;
      rc := Power(a, b, c);
      if rc == 0 {
        Copy(x, expXt);
      }
    }

    /** The loop of `bigint_expmod`, which leaves the power in `expXt`. */
    method Power(a: Bigint, b: Bigint, c: Bigint) returns (rc: int)
      requires Valid() && a.Valid() && b.Valid() && c.Valid()
      requires Foreign(a) && Foreign(b) && Foreign(c)
      modifies Cells(mulPt), Cells(mulAt), Cells(divQt), Cells(divRt), Cells(divBc), Cells(expXt), Cells(expR)
      ensures rc == 0 || rc == 1 || rc == 2
      ensures rc == 2 <==> c.Val() == 0
      ensures c.Val() > 0 && c.BITS() <= MAX_MODULUS && a.BITS() < MAX_BITS ==> rc == 0
      ensures rc == 0 ==> expXt.Valid()
      ensures rc == 0 && b.BITS() > 0 ==> expXt.Tight() && expXt.Val() == Pow(a.Val(), b.Val()) % c.Val()
      ensures rc == 0 && b.BITS() == 0 ==> expXt.Val() == 1
    {
      hide DataBits, Nat, Pow, PowInv, Bigint.Valid, Bigint.Tight;
      rc := PowerInit(a, b, c);
      if rc > 0 {
        return;
      }
      var i: nat := b.BITS();
      while i > 0
        invariant i <= b.BITS()
        invariant PowInv(a, b, c, i)
      {
        i := i - 1;
        rc := PowerStep(a, b, c, i);
        if rc > 0 {
          return;
        }
      }
      PowDone(a, b, c);
      return 0;
    }

    /** `x = 1` and `r = a % c`. */
    method PowerInit(a: Bigint, b: Bigint, c: Bigint) returns (rc: int)
      requires Valid() && a.Valid() && b.Valid() && c.Valid()
      requires Foreign(a) && Foreign(b) && Foreign(c)
      modifies Cells(divQt), Cells(divRt), Cells(divBc), Cells(expXt), Cells(expR)
      ensures rc == 0 || rc == 1 || rc == 2
      ensures rc == 2 <==> c.Val() == 0
      ensures c.Val() > 0 && c.BITS() <= MAX_MODULUS && a.BITS() < MAX_BITS ==> rc == 0
      ensures rc == 0 ==> PowInv(a, b, c, b.BITS())
    {
      hide DataBits, Nat, Pow, Pow2, High, PowInv, Bigint.Valid, Bigint.Tight, DivFails;
      if c.Val() > 0 && c.BITS() <= MAX_MODULUS { DivFailsIff(a, c); }
      One();
      rc := Div(null, expR, a, c);
      if rc == 0 {
        PowStart(a, b, c);
      }
    }

    /** `bigint_zero(&expmod_xt)` and `SET_BIT(&expmod_xt, 0)`. */
    method One()
      requires Valid()
      modifies Cells(expXt)
      ensures expXt.Valid() && expXt.BITS() == 1 && expXt.Val() == 1
    {
      hide DataBits, Nat;
      expXt.Zero();
      expXt.OrLow(true);
    }

    /** After reading the exponent bits from `i` on. */
    ghost predicate PowInv(a: Bigint, b: Bigint, c: Bigint, i: nat)
      reads a, a.data, b, b.data, c, c.data, expXt, expXt.data, expR, expR.data
    {
      a.Valid() && b.Valid() && c.Valid() && c.Val() > 0 && i <= b.BITS()
      && expR.Valid() && expR.Tight() && expR.Val() == a.Val() % c.Val()
      && expXt.Valid() && expXt.Tight() && (if i < b.BITS() then expXt.Val() < c.Val() else expXt.Val() == 1)
      && expXt.Val() % c.Val() == Pow(a.Val(), High(b.All(), i)) % c.Val()
    }

    lemma PowStart(a: Bigint, b: Bigint, c: Bigint)
      requires a.Valid() && b.Valid() && c.Valid() && c.Val() > 0
      requires expR.Valid() && expR.Tight() && expR.Val() == a.Val() % c.Val()
      requires expXt.Valid() && expXt.BITS() == 1 && expXt.Val() == 1
      ensures PowInv(a, b, c, b.BITS())
    {
      NatZeros(b.All()[b.BITS()..]);
    }

    lemma PowDone(a: Bigint, b: Bigint, c: Bigint)
      requires PowInv(a, b, c, 0)
      ensures expXt.Valid() && expXt.Tight()
      ensures expXt.Val() == if b.BITS() > 0 then Pow(a.Val(), b.Val()) % c.Val() else 1
    {
      assert b.All()[0..] == b.All();
      if b.BITS() > 0 {
        DivModUnique(expXt.Val(), c.Val(), 0, expXt.Val());
      }
    }

    /** One round: square, and multiply by the base when the exponent bit is set. */
    method PowerStep(a: Bigint, b: Bigint, c: Bigint, i: nat) returns (rc: int)
      requires Valid() && Foreign(a) && Foreign(b) && Foreign(c)
      requires PowInv(a, b, c, i + 1)
      modifies Cells(mulPt), Cells(mulAt), Cells(divQt), Cells(divRt), Cells(divBc), Cells(expXt)
      ensures rc == 0 || rc == 1
      ensures c.BITS() <= MAX_MODULUS ==> rc == 0
      ensures rc == 0 ==> PowInv(a, b, c, i)
    {
      hide DataBits, Nat, Pow, High, Bigint.Valid, Bigint.Tight;
      ghost var x0 := expXt.Val();
      b.InRange();
      rc := MulMod(expXt, c);
      if rc > 0 {
        return;
      }
      ghost var x1 := expXt.Val();
      b.BitIsStored(i);
      if b.Bit(i) {
        rc := MulMod(expR, c);
        if rc > 0 {
          return;
        }
      }
      PowerDigit(a.Val(), b.All(), i, c.Val(), x0, x1, expXt.Val());
    }

    /** `x = (x * y) % c` on `expXt`, in place; `y` may be `expXt` itself. */
    method MulMod(y: Bigint, c: Bigint) returns (rc: int)
      requires Valid() && (y == expXt || y == expR) && Foreign(c)
      requires expXt.Valid() && y.Valid() && c.Valid() && c.Val() > 0
      requires expXt.Tight() && y.Tight()
      modifies Cells(mulPt), Cells(mulAt), Cells(divQt), Cells(divRt), Cells(divBc), Cells(expXt)
      ensures rc == 0 || rc == 1
      ensures c.BITS() <= MAX_MODULUS && Short(old(expXt.Val()), c.Val()) && Short(old(y.Val()), c.Val()) ==> rc == 0
      ensures rc == 0 ==> expXt.Valid() && expXt.Tight()
      ensures rc == 0 ==> expXt.Val() == (old(expXt.Val()) * old(y.Val())) % c.Val()
    {
      hide DataBits, Nat, Bigint.Valid, Bigint.Tight, DivFails;
      ghost var ok := c.BITS() <= MAX_MODULUS && Short(expXt.Val(), c.Val()) && Short(y.Val(), c.Val());
      if ok {
        c.ValBelow();
        ShortBits(expXt, c);
        ShortBits(y, c);
      }
      rc := Mul(expXt, expXt, y);
      if rc > 0 {
        return;
      }
      if c.BITS() <= MAX_MODULUS { DivFailsIff(expXt, c); }
      rc := Div(null, expXt, expXt, c);
    }
  }

  /**
   * When `bigint_div` reports an overflow: the dividend is as long as the buffer, or the divisor is and has to be
   * subtracted, or the remainder buffer overruns.
   */
  ghost predicate DivFails(a: nat, la: nat, b: nat, lb: nat)
    requires b > 0
  {
    la == MAX_BITS || (lb == MAX_BITS && a >= b) || DW.Overruns(a, la, b, lb)
  }

  /**
   * Which leaves few cases: only a divisor stored in 1189 or 1190 bits with two or more leading zeros can fail for
   * a dividend that is not as long as the buffer and a divisor that is not.
   */
  lemma DivFailsIff(a: Bigint, b: Bigint)
    requires a.Valid() && b.Valid() && b.Val() > 0
    requires b.BITS() <= MAX_BITS - 3 || b.BITS() == MAX_BITS || b.Val() >= Pow2(b.BITS() - 2)
    ensures DivFails(a.Val(), a.BITS(), b.Val(), b.BITS()) <==>
              a.BITS() == MAX_BITS || (b.BITS() == MAX_BITS && a.Val() >= b.Val())
  {
    hide DataBits, Nat, Pow2, DW.Overruns;
    a.InRange();
    a.ValBelow();
    b.ValBelow();
    if a.BITS() < MAX_BITS && DW.Overruns(a.Val(), a.BITS(), b.Val(), b.BITS()) {
      DW.OverrunNeeds(a.Val(), a.BITS(), b.Val(), b.BITS());
    }
  }

  lemma CutPositive(w: nat, v: nat, n: nat)
    requires IsCut(w, v, n)
    ensures w > 0
  {
  }

  /** Below the modulus, or the initial 1. */
  ghost predicate Short(v: nat, c: nat) {
    v < c || v == 1
  }

  /** A tight number below 2^592 takes at most 592 bits. */
  lemma ShortBits(x: Bigint, c: Bigint)
    requires x.Valid() && x.Tight() && Short(x.Val(), c.Val())
    requires 0 < c.Val() < Pow2(c.BITS()) && c.BITS() <= MAX_MODULUS
    ensures x.BITS() <= MAX_MODULUS
  {
    Pow2Monotone(c.BITS(), MAX_MODULUS);
    Pow2Monotone(1, MAX_MODULUS);
    assert Pow2(1) == 2;
    TightBytes(x, MAX_MODULUS / 8);
  }

  /** A tight number below 256^k uses at most k bytes. */
  lemma TightBytes(x: Bigint, k: nat)
    requires x.Valid() && x.Tight() && k > 0 && x.Val() < Pow2(8 * k)
    ensures x.Used() <= k && x.BITS() <= 8 * k
  {
    if x.Used() > k { Pow2Monotone(8 * k, 8 * (x.Used() - 1)); }
  }

  /** Square-and-multiply on remainders follows the exponent read so far. */
  lemma PowerDigit(a: nat, B: seq<bool>, i: nat, c: nat, x0: nat, x1: nat, x2: nat)
    requires i < |B| && c > 0
    requires x0 % c == Pow(a, High(B, i + 1)) % c
    requires x1 == (x0 * x0) % c
    requires x2 == if B[i] then (x1 * (a % c)) % c else x1
    ensures x2 < c && x2 % c == Pow(a, High(B, i)) % c
  {
    var h := High(B, i + 1);
    assert B[i..] == [B[i]] + B[i + 1..];
    NatCons(B[i], B[i + 1..]);
    assert High(B, i) == 2 * h + if B[i] then 1 else 0;
    PowAdd(a, h, h);
    ModMulCong(x0, Pow(a, h), x0, Pow(a, h), c);
    DivModUnique(x1, c, 0, x1);
    if B[i] {
      DivModUnique(a % c, c, 0, a % c);
      ModMulCong(x1, Pow(a, h + h), a % c, a, c);
      PowAdd(a, h + h, 1);
      assert Pow(a, 1) == a * Pow(a, 0);
      DivModUnique(x2, c, 0, x2);
    }
  }

  ghost function Cells(x: Bigint?): set<object> {
    if x == null then {} else {x, x.data}
  }

  /** The number formed by the bits of `A` from `k` on. */
  ghost function High(A: seq<bool>, k: nat): nat
    requires k <= |A|
  {
    Nat(A[k..])
  }

  ghost function PartRem(A: seq<bool>, k: nat, B: nat): (r: nat)
    requires k <= |A| && B > 0
    ensures r < B
  {
    High(A, k) % B
  }

  ghost function PartQuo(A: seq<bool>, k: nat, B: nat): nat
    requires k <= |A| && B > 0
  {
    High(A, k) / B
  }

  /** What the quotient buffer holds of the quotient digits t: only those below bit K. */
  ghost function Kept(t: nat, i: nat, K: nat): nat {
    if i >= K then 0 else (t % Pow2(K - i)) * Pow2(i)
  }

  /** Two different structures, with different storage. */
  predicate Other(x: Bigint, y: Bigint) {
    x != y && x.data != y.data
  }

  lemma MulStart(A: nat, B: seq<bool>)
    ensures A * Nat(B[..0]) == 0 && A * Pow2(0) == A
  {
  }

  lemma MulStep(A: nat, B: seq<bool>, i: nat)
    requires i < |B|
    ensures A * Nat(B[..i + 1]) == A * Nat(B[..i]) + if B[i] then A * Pow2(i) else 0
    ensures A * Pow2(i + 1) == 2 * (A * Pow2(i))
  {
    NatStep(B, i);
    MulAdd(A, Nat(B[..i]), if B[i] then Pow2(i) else 0);
    DoubleRight(A, Pow2(i));
  }

  /** A partial product of an n-bit number by i + 1 bits fits n + i + 1 bits. */
  lemma MulFits(A: nat, B: seq<bool>, i: nat, n: nat)
    requires i < |B|
    ensures A < Pow2(n) && n + i + 1 <= MAX_BITS ==> A * Nat(B[..i + 1]) < Pow2(MAX_BITS)
  {
    if A < Pow2(n) && n + i + 1 <= MAX_BITS {
      var y := Nat(B[..i + 1]);
      NatBound(B[..i + 1]);
      MulMonotone(A, Pow2(n), y, Pow2(i + 1));
      Pow2Add(n, i + 1);
      Pow2Monotone(n + i + 1, MAX_BITS);
    }
  }

  lemma MulMonotone(x: nat, x': nat, y: nat, y': nat)
    requires x < x' && y < y'
    ensures x * y < x' * y'
  {
    assert x * y <= x * y';
    assert x * y' < x' * y';
  }

  lemma DivStart(A: seq<bool>, B: nat, L: nat)
    requires B > 0 && L <= |A|
    requires forall n :: L <= n < |A| ==> !A[n]
    ensures PartRem(A, L, B) == 0 && Kept(PartQuo(A, L, B), L, L / 2 + 1) == 0
  {
    NatZeros(A[L..]);
    DivModUnique(0, B, 0, 0);
    if L < L / 2 + 1 {
      DivModUnique(0, Pow2(L / 2 + 1 - L), 0, 0);
    }
  }

  /** The two ways to write the partial quotient. */
  lemma PartsAre(A: seq<bool>, k: nat, B: nat)
    requires B > 0 && k <= |A|
    ensures PartQuo(A, k, B) == DW.Quo(Nat(A), k, B) && PartRem(A, k, B) == DW.Rem(Nat(A), k, B)
  {
    HighIsPart(A, k);
  }

  lemma HighIsPart(A: seq<bool>, k: nat)
    requires k <= |A|
    ensures High(A, k) == DW.Part(Nat(A), k)
  {
    hide Nat, Pow2;
    NatSplit(A, k);
    NatBound(A[..k]);
    DivModUnique(Nat(A), Pow2(k), High(A, k), Nat(A[..k]));
  }

  /** Long division, one digit: reading bit i doubles the partial remainder and quotient. */
  lemma HighStep(A: seq<bool>, i: nat, B: nat)
    requires B > 0 && i < |A|
    ensures var r := 2 * PartRem(A, i + 1, B) + (if A[i] then 1 else 0);
            r < 2 * B && PartRem(A, i, B) == (if r >= B then r - B else r)
            && PartQuo(A, i, B) == 2 * PartQuo(A, i + 1, B) + (if r >= B then 1 else 0)
  {
    assert A[i..] == [A[i]] + A[i + 1..];
    NatCons(A[i], A[i + 1..]);
    DigitStep(High(A, i + 1), B, if A[i] then 1 else 0);
  }

  lemma DigitStep(h: nat, B: nat, x: nat)
    requires B > 0 && x <= 1
    ensures var r := 2 * (h % B) + x;
            if r >= B then (2 * h + x) % B == r - B && (2 * h + x) / B == 2 * (h / B) + 1
            else (2 * h + x) % B == r && (2 * h + x) / B == 2 * (h / B)
  {
    var t, m := h / B, h % B;
    assert h == t * B + m;
    if 2 * m + x >= B {
      assert (2 * t + 1) * B == 2 * (t * B) + B;
      DivModUnique(2 * h + x, B, 2 * t + 1, 2 * m + x - B);
    } else {
      assert (2 * t) * B == 2 * (t * B);
      DivModUnique(2 * h + x, B, 2 * t, 2 * m + x);
    }
  }

  lemma KeptStep(t: nat, i: nat, K: nat, bit: bool)
    ensures Kept(2 * t + (if bit then 1 else 0), i, K) == Kept(t, i + 1, K) + (if bit && i < K then Pow2(i) else 0)
  {
    if i < K {
      var d := if bit then 1 else 0;
      var m := Pow2(K - i - 1);
      DoubleMod(t, d, m);
      Distribute(t % m, d, Pow2(i));
      if i + 1 == K {
        DivModUnique(t, 1, t, 0);
        assert (t % m) * Pow2(i + 1) == 0;
      }
    }
  }

  lemma DoubleMod(t: nat, d: nat, m: nat)
    requires m > 0 && d <= 1
    ensures (2 * t + d) % (2 * m) == 2 * (t % m) + d
  {
    var q, r := t / m, t % m;
    assert t == q * m + r;
    assert q * (2 * m) == 2 * (q * m);
    DivModUnique(2 * t + d, 2 * m, q, 2 * r + d);
  }

  lemma Distribute(r: nat, d: nat, p: nat)
    requires d <= 1
    ensures (2 * r + d) * p == r * (2 * p) + d * p
    ensures d * p == if d == 1 then p else 0
  {
  }

  lemma DivEnd(A: seq<bool>, B: nat, L: nat)
    requires B > 0
    ensures PartRem(A, 0, B) == Nat(A) % B
    ensures Kept(PartQuo(A, 0, B), 0, L / 2 + 1) == (Nat(A) / B) % Pow2(L / 2 + 1)
  {
    assert A[0..] == A;
  }

  /** The number with ones at the given places. */
  function Ones(at: seq<nat>): nat {
    if at == [] then 0 else Ones(at[..|at| - 1]) + Pow2(at[|at| - 1])
  }

  /** A number stored in `n` bits, with ones at the given places. */
  method Number(n: nat, at: seq<nat>) returns (x: Bigint)
    requires n <= MAX_BITS
    requires forall i :: 0 <= i < |at| ==> at[i] < n
    requires forall i, j :: 0 <= i < j < |at| ==> at[i] != at[j]
    ensures fresh(x) && fresh(x.data) && x.Valid() && x.BITS() == n && x.Val() == Ones(at)
  {
    hide DataBits, Nat, Pow2;
    x := new Bigint();
    x.Zero();
    x.bytes, x.bits := n / 8, n % 8;
    for i := 0 to |at|
      invariant x.Valid() && x.BITS() == n && x.Val() == Ones(at[..i])
      invariant forall k :: 0 <= k < CAPACITY && k !in at[..i] ==> !x.All()[k]
    {
      assert at[..i + 1][..i] == at[..i];
      NatSetBit(x.All(), at[i]);
      x.SetBit(at[i]);
    }
    assert at[..|at|] == at;
  }
}
