/** The emitted run loop in place: `dp`, `rp` and `ip` move over two stacks and the code block. */
module T0Loop {
  import opened SevenE
  import opened T0Vm
  import M = T0Machine

  datatype Status = Go | Left | Gone | Fault

  class Context {
    const img: Image
    const prims: map<string, M.Prim>
    const dstack: array<u32>
    const rstack: array<u32>
    var dp: nat
    var rp: nat
    var ip: nat

    ghost predicate Valid()
      reads this
    {
      dp <= dstack.Length && dstack != rstack
    }

    ghost function Abs(): Vm
      reads this, dstack, rstack
      requires Valid()
    {
      VRun(ip, dstack[..dp], rstack[..], rp)
    }

    constructor (img: Image, prims: map<string, M.Prim>, dcap: nat, rcap: nat)
      ensures Valid() && fresh(dstack) && fresh(rstack) && this.img == img && this.prims == prims
      ensures dp == rp == ip == 0 && dstack.Length == dcap && rstack.Length == rcap
    {
      this.img := img;
      this.prims := prims;
      dstack := new u32[dcap];
      rstack := new u32[rcap];
      dp, rp, ip := 0, 0, 0;
    }

    /** What a status says about the specified state `v`. */
    ghost predicate Shows(st: Status, v: Vm)
      reads this, dstack, rstack
      requires Valid()
    {
      match st
      case Go => v == Abs()
      case Left => v == VExit(dstack[..dp])
      case Gone => v == VNoReturn
      case Fault => v == VFault
    }

    /** T0_PUSH */
    method PushData(x: u32) returns (st: Status)
      requires Valid()
      modifies this`dp, dstack
      ensures Valid() && Shows(st, Push(dstack.Length, ip, old(Abs()), x))
    {
      if dp >= dstack.Length {
        return Fault;
      }
      dstack[dp] := x;
      dp := dp + 1;
      st := Go;
    }

    /** T0_ENTER */
    method Enter(slot: nat) returns (st: Status)
      requires Valid() && slot >= img.slotInterpreted
      modifies this`rp, this`ip, rstack
      ensures Valid() && Shows(st, VEnter(img, old(Abs()), old(ip), slot))
    {
      var k := slot - img.slotInterpreted;
      if k >= |img.caddr| {
        return Fault;
      }
      var a := DecodeUnsigned(img.code, img.caddr[k], 0);
      if a.Overrun? || a.value < 0 || rp + a.value >= rstack.Length {
        return Fault;
      }
      rp := rp + a.value;
      rstack[rp] := PackWord(ip, a.value);
      rp := rp + 1;
      ip := a.next;
      st := Go;
    }

    /** Slot 0. */
    method Return() returns (st: Status)
      requires Valid()
      modifies this`rp, this`ip
      ensures Valid() && Shows(st, VRet(old(Abs())))
    {
      if rp == 0 || rp > rstack.Length {
        return Fault;
      }
      rp := rp - 1;
      var x := rstack[rp];
      if x / PACK > rp {
        return Fault;
      }
      rp := rp - x / PACK;
      if x % PACK == 0 {
        return Left;
      }
      ip := x % PACK;
      st := Go;
    }

    method Leap(k: int) returns (st: Status)
      requires Valid()
      modifies this`ip
      ensures Valid() && Shows(st, VJump(old(ip) + k, old(Abs())))
    {
      if ip + k < 0 {
        return Fault;
      }
      ip := ip + k;
      st := Go;
    }

    /** Slots 1 to 6; `ip` is just past the opcode. */
    method Builtin(x: nat) returns (st: Status)
      requires Valid() && 1 <= x <= 6
      modifies this, dstack, rstack
      ensures Valid() && Shows(st, VBuiltin(img, dstack.Length, old(Abs()), x, old(ip)))
    {
      hide ParseU, ParseS;
      var a: Parsed;
      if x == 2 || x == 3 {
        a := DecodeUnsigned(img.code, ip, 0);
      } else {
        a := DecodeSigned(img.code, ip);
      }
      if a.Overrun? {
        return Fault;
      }
      ip := a.next;
      match x
      case 1 => st := PushData(ToU32(a.value));
      case 2 => st := ReadLocal(a.value);
      case 3 => st := WriteLocal(a.value);
      case 4 => st := Leap(a.value);
      case _ => st := Branch(x == 5, a.value);
    }

    /** T0_PUSH(T0_LOCAL(k)) */
    method ReadLocal(k: int) returns (st: Status)
      requires Valid()
      modifies this`dp, dstack
      ensures Valid()
      ensures var v := old(Abs());
              var cell := v.rp - 2 - k;
              Shows(st, if 0 <= cell < |v.rmem| then Push(dstack.Length, ip, v, v.rmem[cell]) else VFault)
    {
      var cell := rp - 2 - k;
      if !(0 <= cell < rstack.Length) {
        return Fault;
      }
      st := PushData(rstack[cell]);
    }

    /** T0_LOCAL(k) = T0_POP() */
    method WriteLocal(k: int) returns (st: Status)
      requires Valid()
      modifies this`dp, rstack
      ensures Valid()
      ensures var v := old(Abs());
              var cell := v.rp - 2 - k;
              Shows(st, if 0 <= cell < |v.rmem| && v.ds != []
                        then VRun(ip, v.ds[..|v.ds| - 1], v.rmem[cell := v.ds[|v.ds| - 1]], v.rp) else VFault)
    {
      var cell := rp - 2 - k;
      if !(0 <= cell < rstack.Length) || dp == 0 {
        return Fault;
      }
      dp := dp - 1;
      rstack[cell] := dstack[dp];
      st := Go;
    }

    method Branch(onTrue: bool, k: int) returns (st: Status)
      requires Valid()
      modifies this`dp, this`ip
      ensures Valid()
      ensures var v := old(Abs());
              var d := |v.ds| - 1;
              Shows(st, if v.ds == [] then VFault
                        else if (v.ds[d] != 0) == onTrue then VJump(v.ip + k, v.(ds := v.ds[..d]))
                        else v.(ds := v.ds[..d]))
    {
      if dp == 0 {
        return Fault;
      }
      dp := dp - 1;
      assert dstack[..dp] == old(dstack[..dp])[..dp];
      if (dstack[dp] != 0) == onTrue {
        st := Leap(k);
      } else {
        st := Go;
      }
    }

    /** A C-coded word. */
    method Apply(q: M.Prim) returns (st: Status)
      requires Valid()
      modifies this`dp, dstack
      ensures Valid() && Shows(st, VPrim(dstack.Length, q, old(Abs()), ip))
    {
      if dp < q.din {
        return Fault;
      }
      if q.dout < 0 {
        return Gone;
      }
      ghost var ds := dstack[..dp];
      var base := dp - q.din;
      var res := q.run(dstack[base..dp]);
      assert dstack[base..dp] == ds[base..];
      if base + |res| > dstack.Length {
        return Fault;
      }
      dp := base;
      var i := 0;
      while i < |res|
        invariant 0 <= i <= |res| && dp == base + i && Valid()
        invariant dstack[..dp] == ds[..base] + res[..i]
      {
        dstack[dp] := res[i];
        dp := dp + 1;
        i := i + 1;
      }
      assert res[..i] == res;
      st := Go;
    }

    /** T0_NEXT */
    method Fetch() returns (a: Parsed)
      ensures a == NextOp(img, ip)
    {
      if !img.ob {
        a := DecodeUnsigned(img.code, ip, 0);
      } else if ip < |img.code| {
        a := Parsed(img.code[ip], ip + 1);
      } else {
        a := Overrun;
      }
    }

    /** One turn of the loop. */
    method Turn() returns (st: Status)
      requires Valid()
      modifies this, dstack, rstack
      ensures Valid() && Shows(st, VStep(img, prims, dstack.Length, old(Abs())))
    {
      hide VBuiltin, VPrim, VRet, VEnter, NextOp;
      var a := Fetch();
      if a.Overrun? || a.value < 0 {
        return Fault;
      }
      var x := a.value;
      ghost var v := Abs();
      IpOnly(img, prims, dstack.Length, v, x, a.next);
      ip := a.next;
      if x >= img.slotInterpreted {
        st := Enter(x);
      } else if x == 0 {
        st := Return();
      } else if x < FIRST_SLOT {
        st := Builtin(x);
      } else if x - FIRST_SLOT < |img.natives| && img.natives[x - FIRST_SLOT] in prims {
        st := Apply(prims[img.natives[x - FIRST_SLOT]]);
      } else {
        st := Fault;
      }
    }

    /** The loop, for at most `n` turns. */
    method Loop(n: nat) returns (st: Status)
      requires Valid()
      modifies this, dstack, rstack
      ensures Valid() && Shows(st, VRunN(img, prims, dstack.Length, old(Abs()), n))
    {
      hide VStep;
      st := Go;
      var i := 0;
      while i < n && st == Go
        invariant 0 <= i <= n && Valid()
        invariant Shows(st, VRunN(img, prims, dstack.Length, old(Abs()), i))
      {
        VRunStep(img, prims, dstack.Length, old(Abs()), i);
        st := Turn();
        i := i + 1;
      }
      if i < n {
        VRunStays(img, prims, dstack.Length, old(Abs()), i, n);
      }
    }
  }

  /** The pieces of a turn take the new `ip` from their argument, not from the state. */
  lemma IpOnly(img: Image, prims: map<string, M.Prim>, dcap: nat, v: Vm, x: nat, ip: nat)
    requires v.VRun?
    ensures x >= img.slotInterpreted ==> VEnter(img, v.(ip := ip), ip, x) == VEnter(img, v, ip, x)
    ensures VRet(v.(ip := ip)) == VRet(v)
    ensures 1 <= x <= 6 ==> VBuiltin(img, dcap, v.(ip := ip), x, ip) == VBuiltin(img, dcap, v, x, ip)
    ensures forall q :: VPrim(dcap, q, v.(ip := ip), ip) == VPrim(dcap, q, v, ip)
  {
    hide ParseU, ParseS;
  }

  lemma {:induction false} VRunStep(img: Image, prims: map<string, M.Prim>, dcap: nat, v: Vm, n: nat)
    ensures VRunN(img, prims, dcap, v, n + 1) == VStep(img, prims, dcap, VRunN(img, prims, dcap, v, n))
    decreases n
  {
    hide VStep;
    if n > 0 { VRunStep(img, prims, dcap, VStep(img, prims, dcap, v), n - 1); }
  }

  lemma {:induction false} VRunStays(img: Image, prims: map<string, M.Prim>, dcap: nat, v: Vm, i: nat, n: nat)
    requires i <= n && !VRunN(img, prims, dcap, v, i).VRun?
    ensures VRunN(img, prims, dcap, v, n) == VRunN(img, prims, dcap, v, i)
    decreases n
  {
    if i < n {
      VRunStays(img, prims, dcap, v, i, n - 1);
      VRunStep(img, prims, dcap, v, n - 1);
    }
  }
}
