/** The run loop that T0Comp.cs emits as C text, and its agreement with the opcode-level CPU. */
module T0Vm {
  import opened SevenE
  import opened T0Layout
  import M = T0Machine
  type u32 = M.u32

  /** The generated tables: code block, entry addresses, C pieces by slot. */
  datatype Image = Image(code: seq<octet>, caddr: seq<nat>, slotInterpreted: nat, ob: bool, natives: seq<string>)

  /** Context of a run: `ds` is what lies below dp, `rmem` the return stack memory, `rp` its pointer. */
  datatype Vm =
    | VRun(ip: nat, ds: seq<u32>, rmem: seq<u32>, rp: nat)
    | VExit(result: seq<u32>)
    | VNoReturn
    | VFault

  /** First slot of a C-coded word. */
  const FIRST_SLOT := 7
  /** Factor of the local count in a return word. */
  const PACK: int := 65536

  /** The macro T0_NEXT. */
  function NextOp(img: Image, ip: nat): Parsed {
    if !img.ob then ParseU(img.code, ip, 0)
    else if ip < |img.code| then Parsed(img.code[ip], ip + 1)
    else Overrun
  }

  /** The macro T0_PUSH, with the data stack limited to `dcap` cells. */
  function Push(dcap: nat, ip: nat, v: Vm, x: u32): Vm
    requires v.VRun?
  {
    if |v.ds| < dcap then v.(ip := ip, ds := v.ds + [x]) else VFault
  }

  /** The return word: address in the low half, local count in the high half, 32 bits in all. */
  function PackWord(a: nat, n: nat): u32 {
    (a + n * PACK) % TWO32
  }

  /** The macro T0_ENTER. */
  function VEnter(img: Image, v: Vm, ip: nat, slot: nat): Vm
    requires v.VRun? && slot >= img.slotInterpreted
  {
    var k := slot - img.slotInterpreted;
    if k >= |img.caddr| then VFault
    else match ParseU(img.code, img.caddr[k], 0)
      case Overrun => VFault
      case Parsed(n, newip) =>
        if n < 0 || v.rp + n >= |v.rmem| then VFault
        else VRun(newip, v.ds, v.rmem[v.rp + n := PackWord(ip, n)], v.rp + n + 1)
  }

  /** Slot 0. */
  function VRet(v: Vm): Vm
    requires v.VRun?
  {
    if v.rp == 0 || v.rp > |v.rmem| then VFault
    else
      var x := v.rmem[v.rp - 1];
      var n := x / PACK;
      if n > v.rp - 1 then VFault
      else if x % PACK == 0 then VExit(v.ds)
      else VRun(x % PACK, v.ds, v.rmem, v.rp - 1 - n)
  }

  function VJump(ip: int, v: Vm): Vm
    requires v.VRun?
  {
    if ip < 0 then VFault else v.(ip := ip)
  }

  /** Slots 1 to 6. */
  function VBuiltin(img: Image, dcap: nat, v: Vm, x: nat, ip: nat): Vm
    requires v.VRun? && 1 <= x <= 6
  {
    var a := if x == 2 || x == 3 then ParseU(img.code, ip, 0) else ParseS(img.code, ip);
    match a
    case Overrun => VFault
    case Parsed(k, next) =>
      var d := |v.ds| - 1;
      var cell := v.rp - 2 - k;
      if x == 1 then Push(dcap, next, v, ToU32(k))
      else if x == 2 then
        if 0 <= cell < |v.rmem| then Push(dcap, next, v, v.rmem[cell]) else VFault
      else if x == 3 then
        if 0 <= cell < |v.rmem| && v.ds != []
        then VRun(next, v.ds[..d], v.rmem[cell := v.ds[d]], v.rp) else VFault
      else if x == 4 then VJump(next + k, v)
      else if v.ds == [] then VFault
      else if (v.ds[d] != 0) == (x == 5) then VJump(next + k, v.(ds := v.ds[..d]))
      else v.(ip := next, ds := v.ds[..d])
  }

  /** A C-coded word. */
  function VPrim(dcap: nat, q: M.Prim, v: Vm, ip: nat): Vm
    requires v.VRun?
  {
    if |v.ds| < q.din then VFault
    else if q.dout < 0 then VNoReturn
    else
      var ds := v.ds[..|v.ds| - q.din] + q.run(v.ds[|v.ds| - q.din..]);
      if |ds| <= dcap then v.(ip := ip, ds := ds) else VFault
  }

  /** One turn of the emitted loop. */
  function VStep(img: Image, prims: map<string, M.Prim>, dcap: nat, v: Vm): Vm {
    if !v.VRun? then v
    else match NextOp(img, v.ip)
      case Overrun => VFault
      case Parsed(x, ip) =>
        if x < 0 then VFault
        else if x >= img.slotInterpreted then VEnter(img, v, ip, x)
        else if x == 0 then VRet(v)
        else if x < FIRST_SLOT then VBuiltin(img, dcap, v, x, ip)
        else if x - FIRST_SLOT < |img.natives| && img.natives[x - FIRST_SLOT] in prims
        then VPrim(dcap, prims[img.natives[x - FIRST_SLOT]], v, ip)
        else VFault
  }

  function VRunN(img: Image, prims: map<string, M.Prim>, dcap: nat, v: Vm, n: nat): Vm
    decreases n
  {
    if n == 0 then v else VRunN(img, prims, dcap, VStep(img, prims, dcap, v), n - 1)
  }

  /** Everything `Generate` computes for a program. */
  datatype Gen = Gen(slots: seq<nat>, entry: seq<nat>, elems: seq<Elem>, L: seq<nat>, img: Image)

  /** `ToCodeElement` and `FixUp` of the opcode at `off` of word `w`. */
  function ToElem(slots: seq<nat>, entry: nat, op: M.Opcode, off: nat): Elem
    requires op.Call? ==> op.target < |slots|
    requires op.IsJump() ==> 0 <= off + 1 + op.disp
    requires op.Const? ==> IsI32(op.v)
  {
    match op
    case Ret => UInt(0)
    case Const(v) => UIntInt(1, v)
    case GetLocal(n) => UIntUInt(2, n)
    case PutLocal(n) => UIntUInt(3, n)
    case Jump(d) => Elem.Jump(4, entry + 1 + off + 1 + d)
    case JumpIf(d) => Elem.Jump(5, entry + 1 + off + 1 + d)
    case JumpIfNot(d) => Elem.Jump(6, entry + 1 + off + 1 + d)
    case Call(t) => UInt(slots[t])
  }

  /** The elements of word `w` stand in the list from its entry on. */
  ghost predicate WordPlaced(p: M.Program, slots: seq<nat>, entry: seq<nat>, elems: seq<Elem>, w: nat)
    requires M.ProgramOk(p) && |slots| == |entry| == |p.words| && w < |p.words| && p.words[w].Interpreted?
  {
    var code := p.words[w].code;
    entry[w] + |code| < |elems|
    && elems[entry[w]] == UInt(p.words[w].numLocals)
    && forall o :: 0 <= o < |code| ==> OpPlaced(p, slots, entry, elems, w, o)
  }

  ghost predicate OpPlaced(p: M.Program, slots: seq<nat>, entry: seq<nat>, elems: seq<Elem>, w: nat, o: nat)
    requires M.ProgramOk(p) && |slots| == |entry| == |p.words| && w < |p.words| && p.words[w].Interpreted?
    requires o < |p.words[w].code| && entry[w] + |p.words[w].code| < |elems|
  {
    assert M.WordOk(p, p.words[w]);
    elems[entry[w] + 1 + o] == ToElem(slots, entry[w], p.words[w].code[o], o)
  }

  /** Slots tell words apart: C pieces from 7 on, interpreted words after them. */
  ghost predicate SlotOk(p: M.Program, slots: seq<nat>, entry: seq<nat>, L: seq<nat>, img: Image, w: nat)
    requires |slots| == |entry| == |p.words| && w < |p.words|
  {
    IsU32(slots[w]) && match p.words[w]
    case Native(cc, _) =>
      FIRST_SLOT <= slots[w] < img.slotInterpreted && slots[w] - FIRST_SLOT < |img.natives|
      && img.natives[slots[w] - FIRST_SLOT] == cc
    case Interpreted(nl, _, _) =>
      FIRST_SLOT <= img.slotInterpreted <= slots[w] && slots[w] - img.slotInterpreted < |img.caddr|
      && entry[w] < |L| && img.caddr[slots[w] - img.slotInterpreted] == Addr(L, entry[w])
      && nl < (if img.ob then 128 else PACK)
  }

  /** The image is a faithful translation of the program, within the 64 kB that return words can address. */
  ghost predicate Compiled(p: M.Program, g: Gen) {
    M.ProgramOk(p) && |g.slots| == |g.entry| == |p.words|
    && Laid(g.elems, g.img.ob, g.L, g.img.code) && NextLens(g.elems, g.img.ob, g.L) == g.L
    && (forall i :: 0 <= i < |g.L| ==> 1 <= g.L[i] <= MAX_ELEM)
    && Sum(g.L) < PACK
    && (forall w :: 0 <= w < |p.words| ==> SlotOk(p, g.slots, g.entry, g.L, g.img, w))
    && (forall w :: 0 <= w < |p.words| && p.words[w].Interpreted? ==> WordPlaced(p, g.slots, g.entry, g.elems, w))
  }

  /** Byte address of the opcode at `off` of word `w`. */
  ghost function OpAddr(g: Gen, w: nat, off: nat): nat
    requires w < |g.entry| && g.entry[w] + 1 + off <= |g.L|
  {
    Addr(g.L, g.entry[w] + 1 + off)
  }

  /** An opcode position of the program. */
  predicate InCode(p: M.Program, w: nat, off: nat) {
    w < |p.words| && p.words[w].Interpreted? && off < |p.words[w].code|
  }

  /** The return address stored for a frame; 0 leaves the run loop. */
  ghost function BackAddr(p: M.Program, g: Gen, b: M.Back): nat
    requires Compiled(p, g) && (b.To? ==> InCode(p, b.w, b.off))
  {
    if b.Top? then 0
    else
      assert WordPlaced(p, g.slots, g.entry, g.elems, b.w);
      OpAddr(g, b.w, b.off)
  }

  /** The return stack cells below `rp` are the frames: locals, then the packed return word. */
  ghost predicate FramesMatch(p: M.Program, g: Gen, frames: seq<M.Frame>, rmem: seq<u32>, rp: nat)
    requires Compiled(p, g)
    decreases |frames|
  {
    if frames == [] then rp == 0
    else
      var top := |frames| - 1;
      (frames[top].back.Top? <==> top == 0)
      && FrameMatch(p, g, frames[top], rmem, rp)
      && FramesMatch(p, g, frames[..top], rmem, rp - 1 - |frames[top].locals|)
  }

  ghost predicate FrameMatch(p: M.Program, g: Gen, f: M.Frame, rmem: seq<u32>, rp: nat)
    requires Compiled(p, g)
  {
    var n := |f.locals|;
    n < PACK && 1 + n <= rp <= |rmem|
    && (f.back.To? ==> InCode(p, f.back.w, f.back.off))
    && rmem[rp - 1] == BackAddr(p, g, f.back) + n * PACK
    && (forall i :: i in f.written ==> i < n)
    && forall i :: i in f.written ==> rmem[rp - 2 - i] == f.locals[i]
  }

  /** The two machines are at the same place with the same data. */
  ghost predicate Sim(p: M.Program, g: Gen, s: M.State, v: Vm)
    requires Compiled(p, g)
  {
    match s
    case Running(w, off, ds, frames) =>
      v.VRun? && InCode(p, w, off) && frames != [] && v.ds == ds
      && g.entry[w] + 1 + off <= |g.L| && v.ip == OpAddr(g, w, off)
      && FramesMatch(p, g, frames, v.rmem, v.rp)
    case Done(ds) => v == VExit(ds)
    case NoReturn => v == VNoReturn
    case Stuck => false
  }

  /** Cells of the return stack that the frames take. */
  function ReturnUse(frames: seq<M.Frame>): nat {
    if frames == [] then 0 else ReturnUse(frames[..|frames| - 1]) + 1 + |frames[|frames| - 1].locals|
  }

  /** The stacks of a state fit the memory of the run. */
  predicate Fits(s: M.State, dcap: nat, rcap: nat) {
    s.Running? ==> |s.ds| <= dcap && ReturnUse(s.frames) <= rcap
  }

  /** The next opcode does not read a local that was never written. */
  predicate Defined(p: M.Program, s: M.State) {
    (s.Running? && InCode(p, s.w, s.off) && s.frames != [] && p.words[s.w].code[s.off].GetLocal?)
    ==> p.words[s.w].code[s.off].num in s.frames[|s.frames| - 1].written
  }

  lemma HeadDecode(img: Image, ip: nat, v: nat)
    requires IsU32(v) && (img.ob ==> v < 256) && At(img.code, ip, Head(v, img.ob))
    ensures NextOp(img, ip) == Parsed(v, ip + HeadLen(v, img.ob))
  {
    if img.ob {
      assert img.code[ip] == img.code[ip..ip + 1][0];
    } else {
      UnsignedRoundTrip(img.code, ip, v);
    }
  }

  lemma AtSplit(code: seq<octet>, ip: nat, a: seq<octet>, b: seq<octet>)
    requires At(code, ip, a + b)
    ensures At(code, ip, a) && At(code, ip + |a|, b)
  {
    var s := code[ip..ip + |a + b|];
    assert s[..|a|] == a && s[|a|..] == b;
    assert code[ip..ip + |a|] == s[..|a|];
    assert code[ip + |a|..ip + |a| + |b|] == s[|a|..];
  }

  /** What the loop reads at `a` is element `e`, and its argument `arg` ends at `next`. */
  predicate Reads(img: Image, a: nat, e: Elem, arg: int, next: nat) {
    var b := a + HeadLen(HeadVal(e), img.ob);
    NextOp(img, a) == Parsed(HeadVal(e), b)
    && if e.UInt? then b == next
       else if e.UIntUInt? then ParseU(img.code, b, 0) == Parsed(arg, next)
       else ParseS(img.code, b) == Parsed(arg, next)
  }

  function Arg(g: seq<Elem>, L: seq<nat>, i: nat): int
    requires Wf(g) && |L| == |g| && i < |g|
  {
    match g[i]
    case UInt(_) => 0
    case UIntInt(_, n) => n
    case UIntUInt(_, n) => n
    case Jump(_, t) => Disp(L, i, t)
  }

  /** The loop reads back every element with its argument, and a jump offset that leads to its target. */
  lemma DecodeElem(img: Image, g: seq<Elem>, L: seq<nat>, i: nat)
    requires Laid(g, img.ob, L, img.code) && NextLens(g, img.ob, L) == L && i < |g|
    requires forall k :: 0 <= k < |L| ==> L[k] <= MAX_ELEM
    ensures Reads(img, Addr(L, i), g[i], Arg(g, L, i), Addr(L, i + 1))
    ensures g[i].Jump? ==> Addr(L, i + 1) + Arg(g, L, i) == Addr(L, g[i].target)
  {
    hide ParseU, ParseS, At, NextOp, Emit, ULen, SLen, Reads, Sum, LaidUpTo;
    LaidEach(g, img.ob, L, img.code, i);
    assert L[i] == NextLens(g, img.ob, L)[i];
    AddrStep(L, i);
    if g[i].Jump? { DispInt(L, i, g[i].target); }
    DecodeBytes(img, Addr(L, i), g[i], |g|, Arg(g, L, i), EncodeElem(g, img.ob, L, i));
  }

  lemma LaidEach(g: seq<Elem>, ob: bool, L: seq<nat>, code: seq<octet>, i: nat)
    requires Wf(g) && |L| == |g| && i < |g| && LaidUpTo(g, ob, L, code, |g|)
    ensures LaidAt(g, ob, L, code, i)
  {
  }

  lemma DecodeBytes(img: Image, a: nat, e: Elem, n: nat, arg: int, bytes: seq<octet>)
    requires ElemOk(e, n) && Encodable(e, img.ob) && At(img.code, a, bytes)
    requires var h := Head(HeadVal(e), img.ob);
             match e
             case UInt(_) => bytes == h
             case UIntUInt(_, k) => arg == k && bytes == h + Emit(k, ULen(k))
             case UIntInt(_, k) => arg == k && bytes == h + Emit(k, SLen(k))
             case Jump(_, _) => IsI32(arg) && bytes == h + Emit(arg, SLen(arg))
    ensures Reads(img, a, e, arg, a + |bytes|)
  {
    hide ParseU, ParseS, At, NextOp, Emit, ULen, SLen;
    var v := HeadVal(e);
    var h := Head(v, img.ob);
    if !e.UInt? {
      AtSplit(img.code, a, h, if e.UIntUInt? then Emit(arg, ULen(arg)) else Emit(arg, SLen(arg)));
    }
    HeadDecode(img, a, v);
    if e.UIntUInt? {
      UnsignedRoundTrip(img.code, a + |h|, arg);
    } else if !e.UInt? {
      SignedRoundTrip(img.code, a + |h|, arg);
    }
  }

  /** The raw local count of one-byte mode reads back as 7E exactly when it is below 128. */
  lemma OneByteLocals(code: seq<octet>, ip: nat, n: octet)
    requires ip < |code| && code[ip] == n
    ensures ParseU(code, ip, 0) == Parsed(n, ip + 1) <==> n < 128
  {
    if n >= 128 {
      ParseAdvances(code, ip + 1, n % 128);
    }
  }

  lemma {:induction false} ParseAdvances(code: seq<octet>, ip: nat, x: nat)
    ensures var r := ParseU(code, ip, x); r.Parsed? ==> r.next > ip
    decreases |code| - ip
  {
    if ip < |code| && code[ip] >= 0x80 {
      ParseAdvances(code, ip + 1, (x * 128 + code[ip] % 128) % TWO32);
    }
  }

  /** `rp` counts exactly the cells of the frames. */
  lemma {:induction false} FramesUse(p: M.Program, g: Gen, frames: seq<M.Frame>, rmem: seq<u32>, rp: nat)
    requires Compiled(p, g) && FramesMatch(p, g, frames, rmem, rp)
    ensures rp == ReturnUse(frames)
    decreases |frames|
  {
    hide Compiled, FrameMatch;
    if frames != [] {
      var top := |frames| - 1;
      FrameRoom(p, g, frames[top], rmem, rp);
      FramesUse(p, g, frames[..top], rmem, rp - 1 - |frames[top].locals|);
    }
  }

  lemma FrameRoom(p: M.Program, g: Gen, f: M.Frame, rmem: seq<u32>, rp: nat)
    requires Compiled(p, g) && FrameMatch(p, g, f, rmem, rp)
    ensures 1 + |f.locals| <= rp <= |rmem| && |f.locals| < PACK
  {
  }

  /** Cells at or above `rp` do not matter. */
  lemma {:induction false} FramesKeep(p: M.Program, g: Gen, frames: seq<M.Frame>, rmem: seq<u32>, rmem': seq<u32>,
      rp: nat)
    requires Compiled(p, g) && FramesMatch(p, g, frames, rmem, rp)
    requires |rmem| == |rmem'| && rp <= |rmem| && rmem[..rp] == rmem'[..rp]
    ensures FramesMatch(p, g, frames, rmem', rp)
    decreases |frames|
  {
    hide Compiled;
    if frames != [] {
      var top := |frames| - 1;
      var rp' := rp - 1 - |frames[top].locals|;
      FrameKeep(p, g, frames[top], rmem, rmem', rp);
      assert rmem[..rp'] == rmem[..rp][..rp'] && rmem'[..rp'] == rmem'[..rp][..rp'];
      FramesKeep(p, g, frames[..top], rmem, rmem', rp');
    }
  }

  lemma FrameKeep(p: M.Program, g: Gen, f: M.Frame, rmem: seq<u32>, rmem': seq<u32>, rp: nat)
    requires Compiled(p, g) && FrameMatch(p, g, f, rmem, rp)
    requires |rmem| == |rmem'| && rp <= |rmem| && rmem[..rp] == rmem'[..rp]
    ensures FrameMatch(p, g, f, rmem', rp)
  {
    hide Compiled;
    assert forall i :: 0 <= i < rp ==> rmem[i] == rmem[..rp][i] && rmem'[i] == rmem'[..rp][i];
  }

  /** Control that falls through stays inside the word. */
  lemma FallThrough(p: M.Program, w: nat, off: nat)
    requires M.ProgramOk(p) && InCode(p, w, off) && p.words[w].code[off].MayFallThrough()
    ensures InCode(p, w, off + 1)
  {
    assert M.WordOk(p, p.words[w]);
  }

  /** What the loop finds at the address of an opcode. */
  lemma DecodeOp(p: M.Program, g: Gen, w: nat, off: nat)
    requires Compiled(p, g) && InCode(p, w, off)
    ensures var op := p.words[w].code[off];
            var i := g.entry[w] + 1 + off;
            i < |g.elems| == |g.L| && M.OpcodeOk(p, p.words[w].numLocals, op, off, |p.words[w].code|)
            && g.elems[i] == ToElem(g.slots, g.entry[w], op, off)
            && Reads(g.img, OpAddr(g, w, off), g.elems[i], Arg(g.elems, g.L, i), OpAddr(g, w, off + 1))
            && (op.IsJump() ==>
                  OpAddr(g, w, off + 1) + Arg(g.elems, g.L, i) == OpAddr(g, w, off + 1 + op.disp))
  {
    hide ParseU, ParseS, NextOp, Reads, Laid, NextLens, Sum, LaidUpTo;
    assert M.WordOk(p, p.words[w]);
    assert WordPlaced(p, g.slots, g.entry, g.elems, w);
    assert OpPlaced(p, g.slots, g.entry, g.elems, w, off);
    LaidShape(g.elems, g.img.ob, g.L, g.img.code);
    DecodeElem(g.img, g.elems, g.L, g.entry[w] + 1 + off);
  }

  lemma LaidShape(g: seq<Elem>, ob: bool, L: seq<nat>, code: seq<octet>)
    requires Laid(g, ob, L, code)
    ensures Wf(g) && |L| == |g|
  {
  }

  function Op(p: M.Program, s: M.State): M.Opcode
    requires s.Running? && InCode(p, s.w, s.off)
  {
    p.words[s.w].code[s.off]
  }

  lemma SimConst(p: M.Program, g: Gen, dcap: nat, s: M.State, v: Vm)
    requires Compiled(p, g) && s.Running? && Sim(p, g, s, v) && Op(p, s).Const?
    requires Fits(M.Step(p, s), dcap, |v.rmem|)
    ensures Sim(p, g, M.Step(p, s), VStep(g.img, p.prims, dcap, v))
  {
    hide Compiled, FramesMatch, ParseU, ParseS, NextOp, Addr;
    SlotBase(p, g, s.w);
    DecodeOp(p, g, s.w, s.off);
    Following(p, g, s.w, s.off);
  }

  lemma SimGetLocal(p: M.Program, g: Gen, dcap: nat, s: M.State, v: Vm)
    requires Compiled(p, g) && s.Running? && Sim(p, g, s, v) && Op(p, s).GetLocal?
    requires Defined(p, s) && M.Step(p, s) != M.Stuck && Fits(M.Step(p, s), dcap, |v.rmem|)
    ensures Sim(p, g, M.Step(p, s), VStep(g.img, p.prims, dcap, v))
  {
    hide Compiled, ParseU, ParseS, NextOp, Addr;
    SlotBase(p, g, s.w);
    DecodeOp(p, g, s.w, s.off);
    Following(p, g, s.w, s.off);
  }

  lemma SimPutLocal(p: M.Program, g: Gen, dcap: nat, s: M.State, v: Vm)
    requires Compiled(p, g) && s.Running? && Sim(p, g, s, v) && Op(p, s).PutLocal?
    requires M.Step(p, s) != M.Stuck
    ensures Sim(p, g, M.Step(p, s), VStep(g.img, p.prims, dcap, v))
  {
    hide Compiled, ParseU, ParseS, NextOp, Addr;
    SlotBase(p, g, s.w);
    DecodeOp(p, g, s.w, s.off);
    Following(p, g, s.w, s.off);
    var top := |s.frames| - 1;
    var n := Op(p, s).num;
    var s' := M.Step(p, s);
    var rmem' := v.rmem[v.rp - 2 - n := s.ds[|s.ds| - 1]];
    var rp' := v.rp - 1 - |s.frames[top].locals|;
    assert s'.frames[..top] == s.frames[..top];
    assert rmem'[..rp'] == v.rmem[..rp'];
    FramesKeep(p, g, s.frames[..top], v.rmem, rmem', rp');
    FrameWrite(p, g, s.frames[top], v.rmem, v.rp, n, s.ds[|s.ds| - 1]);
  }

  lemma FrameWrite(p: M.Program, g: Gen, f: M.Frame, rmem: seq<u32>, rp: nat, n: nat, x: u32)
    requires Compiled(p, g) && FrameMatch(p, g, f, rmem, rp) && n < |f.locals|
    ensures FrameMatch(p, g, f.(locals := f.locals[n := x], written := f.written + {n}), rmem[rp - 2 - n := x], rp)
  {
    hide Compiled;
  }

  lemma SimJumps(p: M.Program, g: Gen, dcap: nat, s: M.State, v: Vm)
    requires Compiled(p, g) && s.Running? && Sim(p, g, s, v) && Op(p, s).IsJump()
    requires M.Step(p, s) != M.Stuck
    ensures Sim(p, g, M.Step(p, s), VStep(g.img, p.prims, dcap, v))
  {
    hide Compiled, FramesMatch, ParseU, ParseS, NextOp, Addr;
    SlotBase(p, g, s.w);
    DecodeOp(p, g, s.w, s.off);
    if Op(p, s).MayFallThrough() {
      Following(p, g, s.w, s.off);
    }
    Placing(p, g, s.w);
  }

  lemma SimRet(p: M.Program, g: Gen, dcap: nat, s: M.State, v: Vm)
    requires Compiled(p, g) && s.Running? && Sim(p, g, s, v) && Op(p, s).Ret?
    ensures Sim(p, g, M.Step(p, s), VStep(g.img, p.prims, dcap, v))
  {
    hide Compiled, ParseU, ParseS, NextOp, Addr;
    SlotBase(p, g, s.w);
    DecodeOp(p, g, s.w, s.off);
    var f := s.frames[|s.frames| - 1];
    BackRange(p, g, f.back);
    Unpack(BackAddr(p, g, f.back), |f.locals|);
    if f.back.To? {
      Placing(p, g, f.back.w);
    }
  }

  /** A return word splits into the address and the local count. */
  lemma Unpack(a: nat, n: nat)
    requires a < PACK
    ensures (a + n * PACK) / PACK == n && (a + n * PACK) % PACK == a
  {
  }

  lemma SimNative(p: M.Program, g: Gen, dcap: nat, s: M.State, v: Vm)
    requires Compiled(p, g) && s.Running? && Sim(p, g, s, v) && Op(p, s).Call?
    requires Op(p, s).target < |p.words| && p.words[Op(p, s).target].Native?
    requires M.Step(p, s) != M.Stuck && Fits(M.Step(p, s), dcap, |v.rmem|)
    ensures Sim(p, g, M.Step(p, s), VStep(g.img, p.prims, dcap, v))
  {
    hide Compiled, FramesMatch, ParseU, ParseS, NextOp, Addr;
    DecodeOp(p, g, s.w, s.off);
    Following(p, g, s.w, s.off);
    NativeSlot(p, g, Op(p, s).target);
  }

  lemma SimEnter(p: M.Program, g: Gen, dcap: nat, s: M.State, v: Vm)
    requires Compiled(p, g) && s.Running? && Sim(p, g, s, v) && Op(p, s).Call?
    requires Op(p, s).target < |p.words| && p.words[Op(p, s).target].Interpreted?
    requires Fits(M.Step(p, s), dcap, |v.rmem|)
    ensures Sim(p, g, M.Step(p, s), VStep(g.img, p.prims, dcap, v))
  {
    hide Compiled, ParseU, ParseS, NextOp, Addr;
    var t := Op(p, s).target;
    DecodeOp(p, g, s.w, s.off);
    Following(p, g, s.w, s.off);
    EntryRead(p, g, t);
    var n := p.words[t].numLocals;
    var back := M.To(s.w, s.off + 1);
    FramesUse(p, g, s.frames, v.rmem, v.rp);
    UseEnter(s.frames, M.Frame(back, M.Zeros(n), {}));
    BackRange(p, g, back);
    NoWrap(BackAddr(p, g, back), n);
    EnterFrame(p, g, s.frames, v.rmem, v.rp, back, n, PackWord(BackAddr(p, g, back), n));
  }

  /** Entering pushes the locals, uninitialised, and the return word. */
  lemma EnterFrame(p: M.Program, g: Gen, frames: seq<M.Frame>, rmem: seq<u32>, rp: nat, back: M.Back, n: nat, x: u32)
    requires Compiled(p, g) && FramesMatch(p, g, frames, rmem, rp)
    requires (back.Top? <==> frames == []) && (back.To? ==> InCode(p, back.w, back.off))
    requires n < PACK && x == BackAddr(p, g, back) + n * PACK
    requires rp + n < |rmem|
    ensures FramesMatch(p, g, frames + [M.Frame(back, M.Zeros(n), {})], rmem[rp + n := x], rp + n + 1)
  {
    hide Compiled, BackAddr, FrameMatch, FramesMatch;
    var rmem' := rmem[rp + n := x];
    assert rmem'[..rp] == rmem[..rp];
    FramesKeep(p, g, frames, rmem, rmem', rp);
    NewFrame(p, g, back, n, rmem', rp + n + 1);
    PushFrame(p, g, frames, M.Frame(back, M.Zeros(n), {}), rmem', rp);
  }

  lemma PushFrame(p: M.Program, g: Gen, frames: seq<M.Frame>, f: M.Frame, rmem: seq<u32>, rp: nat)
    requires Compiled(p, g) && FramesMatch(p, g, frames, rmem, rp)
    requires (f.back.Top? <==> frames == []) && FrameMatch(p, g, f, rmem, rp + |f.locals| + 1)
    ensures FramesMatch(p, g, frames + [f], rmem, rp + |f.locals| + 1)
  {
    hide Compiled, FrameMatch;
    assert (frames + [f])[..|frames|] == frames;
  }

  lemma UseEnter(frames: seq<M.Frame>, f: M.Frame)
    ensures ReturnUse(frames + [f]) == ReturnUse(frames) + 1 + |f.locals|
  {
    assert (frames + [f])[..|frames|] == frames;
  }

  lemma NewFrame(p: M.Program, g: Gen, back: M.Back, n: nat, rmem: seq<u32>, rp: nat)
    requires Compiled(p, g) && (back.To? ==> InCode(p, back.w, back.off))
    requires n < PACK && 1 + n <= rp <= |rmem| && rmem[rp - 1] == BackAddr(p, g, back) + n * PACK
    ensures FrameMatch(p, g, M.Frame(back, M.Zeros(n), {}), rmem, rp)
  {
  }

  lemma NoWrap(a: nat, n: nat)
    requires a < PACK && n < PACK
    ensures PackWord(a, n) == a + n * PACK
  {
  }

  /** Return addresses are nonzero and below 64 kB. */
  lemma BackRange(p: M.Program, g: Gen, b: M.Back)
    requires Compiled(p, g) && (b.To? ==> InCode(p, b.w, b.off))
    ensures BackAddr(p, g, b) < PACK && (b.To? ==> BackAddr(p, g, b) > 0)
  {
    if b.To? {
      Placing(p, g, b.w);
      assert Laid(g.elems, g.img.ob, g.L, g.img.code);
      var i := g.entry[b.w] + 1 + b.off;
      AddrLe(g.L, g.L, 0, i);
      AddrLe(g.L, g.L, i, |g.L|);
      assert g.L[..|g.L|] == g.L && g.L[..0] == [];
    }
  }

  lemma SlotBase(p: M.Program, g: Gen, w: nat)
    requires Compiled(p, g) && w < |p.words|
    ensures g.img.slotInterpreted >= FIRST_SLOT
  {
    assert SlotOk(p, g.slots, g.entry, g.L, g.img, w);
  }

  lemma Placing(p: M.Program, g: Gen, w: nat)
    requires Compiled(p, g) && w < |p.words| && p.words[w].Interpreted?
    ensures |g.entry| == |p.words| && |g.L| == |g.elems| && g.entry[w] + |p.words[w].code| < |g.elems|
  {
    assert WordPlaced(p, g.slots, g.entry, g.elems, w);
    LaidShape(g.elems, g.img.ob, g.L, g.img.code);
  }

  lemma Following(p: M.Program, g: Gen, w: nat, off: nat)
    requires Compiled(p, g) && InCode(p, w, off) && p.words[w].code[off].MayFallThrough()
    ensures InCode(p, w, off + 1) && |g.entry| == |p.words| && g.entry[w] + 1 + off + 1 <= |g.L|
  {
    FallThrough(p, w, off);
    Placing(p, g, w);
  }

  lemma NativeSlot(p: M.Program, g: Gen, t: nat)
    requires Compiled(p, g) && t < |p.words| && p.words[t].Native?
    ensures |g.slots| == |p.words| && FIRST_SLOT <= g.slots[t] < g.img.slotInterpreted
    ensures g.slots[t] - FIRST_SLOT < |g.img.natives|
    ensures g.img.natives[g.slots[t] - FIRST_SLOT] == p.words[t].ccode
  {
    assert SlotOk(p, g.slots, g.entry, g.L, g.img, t);
  }

  /** The entry of a word: its slot leads to its local count, and the first opcode follows. */
  lemma EntryRead(p: M.Program, g: Gen, t: nat)
    requires Compiled(p, g) && t < |p.words| && p.words[t].Interpreted?
    ensures |g.slots| == |g.entry| == |p.words| && g.slots[t] >= g.img.slotInterpreted
    ensures g.slots[t] - g.img.slotInterpreted < |g.img.caddr|
    ensures InCode(p, t, 0) && g.entry[t] + 1 <= |g.L| && p.words[t].numLocals < PACK
    ensures ParseU(g.img.code, g.img.caddr[g.slots[t] - g.img.slotInterpreted], 0)
            == Parsed(p.words[t].numLocals, OpAddr(g, t, 0))
  {
    assert M.WordOk(p, p.words[t]);
    assert SlotOk(p, g.slots, g.entry, g.L, g.img, t);
    Placing(p, g, t);
    assert WordPlaced(p, g.slots, g.entry, g.elems, t);
    DecodeElem(g.img, g.elems, g.L, g.entry[t]);
    if g.img.ob {
      OneByteLocals(g.img.code, Addr(g.L, g.entry[t]), p.words[t].numLocals);
    }
  }

  /** One step of the CPU is one turn of the emitted loop. */
  lemma StepSim(p: M.Program, g: Gen, dcap: nat, s: M.State, v: Vm)
    requires Compiled(p, g) && Sim(p, g, s, v)
    requires Defined(p, s) && M.Step(p, s) != M.Stuck
    requires v.VRun? ==> Fits(M.Step(p, s), dcap, |v.rmem|)
    ensures Sim(p, g, M.Step(p, s), VStep(g.img, p.prims, dcap, v))
  {
    hide M.Step, VStep, Compiled, Fits, Defined;
    if s.Running? {
      match Op(p, s)
      case Ret => SimRet(p, g, dcap, s, v);
      case Const(_) => SimConst(p, g, dcap, s, v);
      case GetLocal(_) => SimGetLocal(p, g, dcap, s, v);
      case PutLocal(_) => SimPutLocal(p, g, dcap, s, v);
      case Call(t) =>
        DecodeOp(p, g, s.w, s.off);
        if p.words[t].Native? {
          SimNative(p, g, dcap, s, v);
        } else {
          SimEnter(p, g, dcap, s, v);
        }
      case _ => SimJumps(p, g, dcap, s, v);
    } else {
      Halted(p, g, dcap, s, v);
    }
  }

  lemma Halted(p: M.Program, g: Gen, dcap: nat, s: M.State, v: Vm)
    requires Compiled(p, g) && Sim(p, g, s, v) && !s.Running?
    ensures M.Step(p, s) == s && VStep(g.img, p.prims, dcap, v) == v
  {
  }

  /** The two machines read a local alike exactly when the cell holds the CPU's value: sure only after a write. */
  lemma GetLocalExact(p: M.Program, g: Gen, dcap: nat, s: M.State, v: Vm)
    requires Compiled(p, g) && s.Running? && Sim(p, g, s, v) && Op(p, s).GetLocal?
    requires M.Step(p, s) != M.Stuck && Fits(M.Step(p, s), dcap, |v.rmem|)
    ensures var n := Op(p, s).num;
            var f := s.frames[|s.frames| - 1];
            n < |f.locals| && v.rp >= 2 + n
            && (Sim(p, g, M.Step(p, s), VStep(g.img, p.prims, dcap, v)) <==> v.rmem[v.rp - 2 - n] == f.locals[n])
  {
    hide Compiled, ParseU, ParseS, NextOp, Addr;
    SlotBase(p, g, s.w);
    DecodeOp(p, g, s.w, s.off);
    Following(p, g, s.w, s.off);
    var ds := s.ds;
    assert forall x: u32, y: u32 :: ds + [x] == ds + [y] ==> x == y by {
      forall x: u32, y: u32 | ds + [x] == ds + [y] ensures x == y {
        assert (ds + [x])[|ds|] == (ds + [y])[|ds|];
      }
    }
  }

  /** A run of `n` steps that stays defined, never underflows and fits the stacks. */
  ghost predicate GoodRun(p: M.Program, s: M.State, n: nat, dcap: nat, rcap: nat) {
    forall k :: 0 <= k < n ==> GoodStep(p, M.Run(p, s, k), dcap, rcap)
  }

  ghost predicate GoodStep(p: M.Program, s: M.State, dcap: nat, rcap: nat) {
    Defined(p, s) && M.Step(p, s) != M.Stuck && Fits(M.Step(p, s), dcap, rcap)
  }

  /** Running n opcodes on the CPU and n turns of the emitted loop ends in the same place. */
  lemma {:induction false} RunSim(p: M.Program, g: Gen, dcap: nat, rcap: nat, s: M.State, v: Vm, n: nat)
    requires Compiled(p, g) && Sim(p, g, s, v) && (v.VRun? ==> |v.rmem| == rcap)
    requires GoodRun(p, s, n, dcap, rcap)
    ensures Sim(p, g, M.Run(p, s, n), VRunN(g.img, p.prims, dcap, v, n))
    decreases n
  {
    hide Compiled, Sim, VStep, M.Step, GoodStep;
    if n > 0 {
      assert M.Run(p, s, 0) == s;
      assert GoodStep(p, M.Run(p, s, 0), dcap, rcap);
      OneStep(p, g, dcap, rcap, s, v);
      forall k | 0 <= k < n - 1
        ensures GoodStep(p, M.Run(p, M.Step(p, s), k), dcap, rcap)
      {
        assert M.Run(p, s, k + 1) == M.Run(p, M.Step(p, s), k);
        assert GoodStep(p, M.Run(p, s, k + 1), dcap, rcap);
      }
      RunSim(p, g, dcap, rcap, M.Step(p, s), VStep(g.img, p.prims, dcap, v), n - 1);
    }
  }

  lemma OneStep(p: M.Program, g: Gen, dcap: nat, rcap: nat, s: M.State, v: Vm)
    requires Compiled(p, g) && Sim(p, g, s, v) && (v.VRun? ==> |v.rmem| == rcap)
    requires GoodStep(p, s, dcap, rcap)
    ensures var v' := VStep(g.img, p.prims, dcap, v);
            Sim(p, g, M.Step(p, s), v') && (v'.VRun? ==> |v'.rmem| == rcap)
  {
    hide Compiled, Sim, M.Step, ParseU, ParseS, NextOp;
    StepSim(p, g, dcap, s, v);
  }

  /** The macro T0_DEFENTRY: enter with return address 0, on an empty return stack. */
  function VStart(img: Image, slot: nat, ds: seq<u32>, rmem: seq<u32>): Vm
    requires slot >= img.slotInterpreted
  {
    VEnter(img, VRun(0, ds, rmem, 0), 0, slot)
  }

  lemma StartSim(p: M.Program, g: Gen, t: nat, ds: seq<u32>, rmem: seq<u32>)
    requires Compiled(p, g) && t < |p.words| && p.words[t].Interpreted?
    requires 1 + p.words[t].numLocals <= |rmem|
    ensures |g.slots| == |p.words| && g.slots[t] >= g.img.slotInterpreted
    ensures Sim(p, g, M.Start(p, t, ds), VStart(g.img, g.slots[t], ds, rmem))
  {
    hide Compiled, ParseU, ParseS, NextOp, Addr;
    EntryRead(p, g, t);
    var n := p.words[t].numLocals;
    NoWrap(0, n);
    EnterFrame(p, g, [], rmem, 0, M.Top, n, PackWord(0, n));
  }

  /** Code generation preserves meaning: from an entry point, every number of steps agrees. */
  lemma ImagePreservesMeaning(p: M.Program, g: Gen, t: nat, ds: seq<u32>, rmem: seq<u32>, dcap: nat, n: nat)
    requires Compiled(p, g) && t < |p.words| && p.words[t].Interpreted?
    requires 1 + p.words[t].numLocals <= |rmem|
    requires GoodRun(p, M.Start(p, t, ds), n, dcap, |rmem|)
    ensures |g.slots| == |p.words| && g.slots[t] >= g.img.slotInterpreted
    ensures Sim(p, g, M.Run(p, M.Start(p, t, ds), n),
                VRunN(g.img, p.prims, dcap, VStart(g.img, g.slots[t], ds, rmem), n))
  {
    hide Compiled, Sim, GoodRun;
    StartSim(p, g, t, ds, rmem);
    RunSim(p, g, dcap, |rmem|, M.Start(p, t, ds), VStart(g.img, g.slots[t], ds, rmem), n);
  }
}
