/** The virtual CPU in place, bearssl-0.5/T0/CPU.cs: it does what the specification machine says. */
module T0Cpu {
  import opened T0Machine
  import opened SevenE
  import opened Rotation

  datatype Status = Go | Finished | Gone | Broken

  class Cpu {
    const p: Program
    var ipBuf: nat
    var ipOff: nat
    var stackBuf: array<u32>
    var stackPtr: int
    var rsp: seq<Frame>

    ghost predicate Valid()
      reads this, stackBuf
    {
      -1 <= stackPtr < stackBuf.Length
    }

    /** The data stack. */
    ghost function Ds(): seq<u32>
      reads this, stackBuf
      requires Valid()
    {
      stackBuf[..stackPtr + 1]
    }

    ghost function Abs(): State
      reads this, stackBuf
      requires Valid()
    {
      Running(ipBuf, ipOff, Ds(), rsp)
    }

    constructor (p: Program)
      ensures this.p == p && Valid() && Ds() == [] && rsp == [] && fresh(stackBuf)
    {
      this.p := p;
      stackBuf := new u32[16];
      stackPtr := -1;
      rsp := [];
      ipBuf, ipOff := 0, 0;
    }

    method Push(v: u32)
      requires Valid()
      modifies this`stackBuf, this`stackPtr, stackBuf
      ensures Valid() && (stackBuf == old(stackBuf) || fresh(stackBuf)) && Ds() == old(Ds()) + [v]
    {
      var len := stackBuf.Length;
      stackPtr := stackPtr + 1;
      if stackPtr == len {
        var nbuf := new u32[if len == 0 then 1 else 2 * len];
        forall i | 0 <= i < len { nbuf[i] := stackBuf[i]; }
        stackBuf := nbuf;
      }
      stackBuf[stackPtr] := v;
    }

    /** Fails on an empty stack. */
    method Pop() returns (ok: bool, v: u32)
      requires Valid()
      modifies this`stackPtr
      ensures Valid() && (ok <==> old(Ds()) != [])
      ensures if ok then Ds() + [v] == old(Ds()) else Ds() == old(Ds())
    {
      if stackPtr < 0 {
        return false, 0;
      }
      v := stackBuf[stackPtr];
      stackPtr := stackPtr - 1;
      ok := true;
    }

    method Rot(depth: nat) returns (ok: bool)
      requires Valid()
      modifies stackBuf
      ensures Valid() && (ok <==> depth < |old(Ds())|)
      ensures Ds() == if ok then Rolled(old(Ds()), depth) else old(Ds())
    {
      hide Rolled;
      if depth > stackPtr {
        return false;
      }
      ghost var was := stackBuf[..];
      var v := stackBuf[stackPtr - depth];
      ShiftDown(stackBuf, stackPtr - depth, stackPtr);
      stackBuf[stackPtr] := v;
      RolledIs(was, stackBuf[..], stackPtr, depth);
      assert Ds() == stackBuf[..][..stackPtr + 1] && old(Ds()) == was[..stackPtr + 1];
      ok := true;
    }

    method NRot(depth: nat) returns (ok: bool)
      requires Valid()
      modifies stackBuf
      ensures Valid() && (ok <==> depth < |old(Ds())|)
      ensures Ds() == if ok then Unrolled(old(Ds()), depth) else old(Ds())
    {
      hide Unrolled;
      if depth > stackPtr {
        return false;
      }
      ghost var was := stackBuf[..];
      var v := stackBuf[stackPtr];
      ShiftUp(stackBuf, stackPtr - depth, stackPtr);
      stackBuf[stackPtr - depth] := v;
      UnrolledIs(was, stackBuf[..], stackPtr, depth);
      assert Ds() == stackBuf[..][..stackPtr + 1] && old(Ds()) == was[..stackPtr + 1];
      ok := true;
    }

    /** `Enter`: the frame keeps where to come back to. */
    method Enter(t: nat, back: Back)
      requires Valid() && t < |p.words| && p.words[t].Interpreted?
      modifies this`rsp, this`ipBuf, this`ipOff
      ensures Valid() && Abs() == T0Machine.Enter(p, t, back, old(Ds()), old(rsp))
    {
      rsp := rsp + [Frame(back, Zeros(p.words[t].numLocals), {})];
      ipBuf, ipOff := t, 0;
    }

    /** `Exit`: back to the caller, or out of the run loop. */
    method Exit() returns (out: bool)
      requires Valid() && rsp != []
      modifies this`rsp, this`ipBuf, this`ipOff
      ensures Valid() && rsp == old(rsp)[..|old(rsp)| - 1] && (out <==> old(rsp)[|old(rsp)| - 1].back.Top?)
      ensures !out ==> var b := old(rsp)[|old(rsp)| - 1].back; ipBuf == b.w && ipOff == b.off
    {
      var f := rsp[|rsp| - 1];
      rsp := rsp[..|rsp| - 1];
      out := f.back.Top?;
      if !out {
        ipBuf, ipOff := f.back.w, f.back.off;
      }
    }

    /** What a status says about the specification state `s`. */
    ghost predicate Shows(st: Status, s: State)
      reads this, stackBuf
      requires Valid()
    {
      match st
      case Go => s == Abs()
      case Finished => s == Done(Ds())
      case Gone => s == NoReturn
      case Broken => s == Stuck
    }

    /** One turn of the run loop. */
    method Turn() returns (st: Status)
      requires Valid()
      modifies this, stackBuf
      ensures Valid() && (stackBuf == old(stackBuf) || fresh(stackBuf))
      ensures Shows(st, Step(p, old(Abs())))
    {
      if ipBuf >= |p.words| || !p.words[ipBuf].Interpreted? || ipOff >= |p.words[ipBuf].code| || rsp == [] {
        return Broken;
      }
      var op := p.words[ipBuf].code[ipOff];
      ipOff := ipOff + 1;
      match op
      case Ret =>
        var out := Exit();
        st := if out then Finished else Go;
      case Const(v) =>
        Push(ToU32(v));
        st := Go;
      case GetLocal(n) => st := GetLocal(n);
      case PutLocal(n) => st := PutLocal(n);
      case Jump(d) => st := Leap(d);
      case JumpIf(d) => st := Branch(true, d);
      case JumpIfNot(d) => st := Branch(false, d);
      case Call(t) => st := Invoke(t);
    }

    method GetLocal(n: nat) returns (st: Status)
      requires Valid() && rsp != []
      modifies this, stackBuf
      ensures Valid() && (stackBuf == old(stackBuf) || fresh(stackBuf))
      ensures Shows(st, Exec(p, T0Machine.GetLocal(n), old(ipBuf), old(ipOff), old(Ds()), old(rsp)))
    {
      var f := rsp[|rsp| - 1];
      if n >= |f.locals| {
        return Broken;
      }
      Push(f.locals[n]);
      st := Go;
    }

    method PutLocal(n: nat) returns (st: Status)
      requires Valid() && rsp != []
      modifies this, stackBuf
      ensures Valid() && stackBuf == old(stackBuf)
      ensures Shows(st, Exec(p, T0Machine.PutLocal(n), old(ipBuf), old(ipOff), old(Ds()), old(rsp)))
    {
      var f := rsp[|rsp| - 1];
      var ok, v := Pop();
      if !ok || n >= |f.locals| {
        return Broken;
      }
      assert Ds() == old(Ds())[..|old(Ds())| - 1] && v == old(Ds())[|old(Ds())| - 1];
      rsp := rsp[|rsp| - 1 := f.(locals := f.locals[n := v], written := f.written + {n})];
      st := Go;
    }

    /** `ipOff += disp`; an offset below zero makes the next fetch fail. */
    method Leap(d: int) returns (st: Status)
      requires Valid()
      modifies this`ipOff
      ensures Valid() && Shows(st, JumpTo(old(ipBuf), old(ipOff) + d, old(Ds()), old(rsp)))
    {
      if ipOff + d < 0 {
        return Broken;
      }
      ipOff := ipOff + d;
      st := Go;
    }

    method Branch(onTrue: bool, d: int) returns (st: Status)
      requires Valid() && rsp != []
      modifies this, stackBuf
      ensures Valid() && stackBuf == old(stackBuf)
      ensures var op := if onTrue then JumpIf(d) else JumpIfNot(d);
              Shows(st, Exec(p, op, old(ipBuf), old(ipOff), old(Ds()), old(rsp)))
    {
      var ok, v := Pop();
      if !ok {
        return Broken;
      }
      assert Ds() == old(Ds())[..|old(Ds())| - 1] && v == old(Ds())[|old(Ds())| - 1];
      if (v != 0) == onTrue {
        st := Leap(d);
      } else {
        st := Go;
      }
    }

    method Invoke(t: nat) returns (st: Status)
      requires Valid() && rsp != []
      modifies this, stackBuf
      ensures Valid() && (stackBuf == old(stackBuf) || fresh(stackBuf))
      ensures Shows(st, Exec(p, Call(t), old(ipBuf), old(ipOff), old(Ds()), old(rsp)))
    {
      if t >= |p.words| {
        return Broken;
      }
      match p.words[t]
      case Interpreted(_, _, _) =>
        Enter(t, To(ipBuf, ipOff));
        st := Go;
      case Native(cc, _) =>
        if cc !in p.prims {
          return Broken;
        }
        st := Apply(p.prims[cc]);
    }

    /** A native word: arguments off the stack, results on. */
    method Apply(q: Prim) returns (st: Status)
      requires Valid()
      modifies this`stackBuf, this`stackPtr, stackBuf
      ensures Valid() && (stackBuf == old(stackBuf) || fresh(stackBuf))
      ensures Shows(st, RunPrim(q, ipBuf, ipOff, old(Ds()), rsp))
    {
      if stackPtr + 1 < q.din {
        return Broken;
      }
      if q.dout < 0 {
        return Gone;
      }
      ghost var ds := Ds();
      var res := q.run(stackBuf[stackPtr + 1 - q.din..stackPtr + 1]);
      assert stackBuf[stackPtr + 1 - q.din..stackPtr + 1] == ds[|ds| - q.din..];
      stackPtr := stackPtr - q.din;
      ghost var base := Ds();
      assert base == ds[..|ds| - q.din];
      var i := 0;
      while i < |res|
        invariant 0 <= i <= |res| && Valid() && (stackBuf == old(stackBuf) || fresh(stackBuf))
        invariant Ds() == base + res[..i]
      {
        Push(res[i]);
        assert res[..i + 1] == res[..i] + [res[i]];
        i := i + 1;
      }
      assert res[..i] == res;
      st := Go;
    }

    /** The run loop, for at most `n` turns. */
    method Loop(n: nat) returns (st: Status)
      requires Valid()
      modifies this, stackBuf
      ensures Valid() && Shows(st, Run(p, old(Abs()), n))
    {
      hide Step;
      st := Go;
      var i := 0;
      while i < n && st == Go
        invariant 0 <= i <= n && Valid() && (stackBuf == old(stackBuf) || fresh(stackBuf))
        invariant Shows(st, Run(p, old(Abs()), i))
      {
        ghost var s := Abs();
        st := Turn();
        RunStep(p, old(Abs()), i);
        i := i + 1;
      }
      if i < n {
        FinalOnce(p, old(Abs()), i, n);
      }
    }
  }
}
