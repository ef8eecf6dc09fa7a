/** Construction of interpreted words, bearssl-0.5/T0/WordBuilder.cs. */
module T0Builder {
  import opened T0Machine
  import opened T0Structured
  import opened Rotation
  import opened StackEffects
  import SevenE

  /** The displacement of a forward jump that was not resolved yet. */
  const UNRESOLVED := -0x8000_0000

  /** Local names are numbered 0, 1, 2, ... */
  predicate LocalsOk(locals: map<string, nat>) {
    (forall s :: s in locals ==> locals[s] < |locals|)
    && (forall s, t :: s in locals && t in locals && locals[s] == locals[t] ==> s == t)
  }

  /** A jump at `i` leads to one of the first `n` opcodes. */
  predicate Landed(op: Opcode, i: nat, n: nat) {
    op.IsJump() ==> 0 <= i + 1 + op.disp < n
  }

  predicate LeafOk(op: Opcode, nl: nat) {
    match op
    case Const(v) => SevenE.IsI32(v)
    case GetLocal(k) => k < nl
    case PutLocal(k) => k < nl
    case _ => true
  }

  /**
   * An element of the control-flow stack: an origin is a jump, a destination an offset up to the end. The zeros of a
   * new array look like the origin 0, which need not be a jump.
   */
  predicate CfOk(code: seq<Opcode>, x: int) {
    if x > 0 then x < |code| && code[x].IsJump() else -x - 1 <= |code|
  }

  /** The whole array, the elements above the top included: a negative depth of `cs-pick` copies one of those. */
  ghost predicate Stored(code: seq<Opcode>, elements: seq<int>) {
    forall x :: x in elements ==> CfOk(code, x)
  }

  lemma StoredAt(code: seq<Opcode>, elements: seq<int>, k: nat)
    requires Stored(code, elements) && k < |elements|
    ensures CfOk(code, elements[k])
  {
    assert elements[k] in elements;
  }

  lemma StoredKept(code: seq<Opcode>, code': seq<Opcode>, elements: seq<int>, elements': seq<int>)
    requires Stored(code, elements) && |code'| >= |code|
    requires forall i :: 0 <= i < |code| && code[i].IsJump() ==> code'[i].IsJump()
    requires forall x :: x in elements' ==> x in elements || CfOk(code', x)
    ensures Stored(code', elements')
  {
    forall x | x in elements' ensures CfOk(code', x) {
      if x in elements {
        assert CfOk(code, x);
      }
    }
  }

  /**
   * What any use of the builder keeps: a jump that leads nowhere yet is an origin on the stack, and unless
   * `jumpToLast` no jump leads past the last opcode.
   */
  ghost predicate Sound(code: seq<Opcode>, cf: seq<int>, nl: nat, jumpToLast: bool) {
    (code == [] ==> jumpToLast)
    && (forall i :: 0 <= i < |code| ==>
          LeafOk(code[i], nl) && (i in cf || Landed(code[i], i, |code| + if jumpToLast then 1 else 0)))
  }

  function SetDisp(op: Opcode, d: int): Opcode
    requires op.IsJump()
  {
    match op
    case Jump(_) => Jump(d)
    case JumpIf(_) => JumpIf(d)
    case JumpIfNot(_) => JumpIfNot(d)
  }

  /** A new opcode keeps the invariant; a forward jump does so once its origin is on the stack. */
  lemma AddSound(code: seq<Opcode>, cf: seq<int>, cf': seq<int>, nl: nat, jumpToLast: bool, op: Opcode)
    requires Sound(code, cf, nl, jumpToLast) && LeafOk(op, nl)
    requires cf' == cf || (cf' == cf + [|code|] && op.IsJump())
             || (cf != [] && cf' == cf[..|cf| - 1] && cf[|cf| - 1] < 0)
    requires |code| in cf' || Landed(op, |code|, |code| + 1)
    ensures Sound(code + [op], cf', nl, false)
  {
    var code' := code + [op];
    forall i | 0 <= i < |code'|
      ensures LeafOk(code'[i], nl) && (i in cf' || Landed(code'[i], i, |code'|))
    {
      if i < |code| {
        assert code'[i] == code[i];
        if i in cf {
          KeepOrigin(cf, i);
        }
      }
    }
  }

  /** Taking a destination off the stack keeps every origin. */
  lemma KeepOrigin(cf: seq<int>, i: nat)
    requires i in cf
    ensures cf[|cf| - 1] < 0 ==> i in cf[..|cf| - 1]
  {
    var k :| 0 <= k < |cf| && cf[k] == i;
    if cf[|cf| - 1] < 0 {
      assert cf[..|cf| - 1][k] == i;
    }
  }

  /** Resolving the jump at the top of the stack to the current end keeps the invariant. */
  lemma ThenSound(code: seq<Opcode>, cf: seq<int>, nl: nat, jumpToLast: bool, x: nat)
    requires Sound(code, cf, nl, jumpToLast) && cf != [] && cf[|cf| - 1] == x && x < |code| && code[x].IsJump()
    ensures Sound(code[x := SetDisp(code[x], |code| - x - 1)], cf[..|cf| - 1], nl, true)
  {
    var code' := code[x := SetDisp(code[x], |code| - x - 1)];
    var cf' := cf[..|cf| - 1];
    forall i | 0 <= i < |code'|
      ensures LeafOk(code'[i], nl) && (i in cf' || Landed(code'[i], i, |code'| + 1))
    {
      if i != x {
        assert code'[i] == code[i];
        if i in cf {
          var k :| 0 <= k < |cf| && cf[k] == i;
          assert cf'[k] == i;
        }
      }
    }
  }

  lemma PermuteSound(code: seq<Opcode>, cf: seq<int>, cf': seq<int>, nl: nat, jumpToLast: bool)
    requires Sound(code, cf, nl, jumpToLast)
    requires forall k :: 0 <= k < |cf'| ==> cf'[k] in cf
    requires forall k :: 0 <= k < |cf| ==> cf[k] in cf'
    ensures Sound(code, cf', nl, jumpToLast)
  {
  }

  lemma GrowSound(code: seq<Opcode>, cf: seq<int>, x: int, nl: nat, jumpToLast: bool)
    requires Sound(code, cf, nl, jumpToLast)
    ensures Sound(code, cf + [x], nl, jumpToLast)
  {
  }

  lemma LocalsSound(code: seq<Opcode>, cf: seq<int>, nl: nat, nl': nat, jumpToLast: bool)
    requires Sound(code, cf, nl, jumpToLast) && nl <= nl'
    ensures Sound(code, cf, nl', jumpToLast)
  {
  }

  lemma RollOne(cf: seq<int>, a: int, b: int)
    ensures Rolled(cf + [a] + [b], 1) == cf + [b] + [a]
  {
  }

  class WordBuilder {
    var cfStack: array<int>
    var cfPtr: int
    var code: seq<Opcode>
    var locals: map<string, nat>
    var jumpToLast: bool

    ghost predicate Shape()
      reads this, cfStack
    {
      -1 <= cfPtr < cfStack.Length && cfStack.Length >= 1
    }

    ghost function Cf(): seq<int>
      reads this, cfStack
      requires Shape()
    {
      cfStack[..cfPtr + 1]
    }

    ghost predicate Valid()
      reads this, cfStack
    {
      Shape() && LocalsOk(locals) && Sound(code, Cf(), |locals|, jumpToLast) && Stored(code, cfStack[..])
    }

    constructor ()
      ensures Valid() && fresh(cfStack) && Cf() == [] && code == [] && locals == map[] && jumpToLast
    {
      cfStack := new int[16](_ => 0);
      cfPtr := -1;
      code := [];
      locals := map[];
      jumpToLast := true;
    }

    method CSPush(x: int)
      requires Shape()
      modifies this`cfStack, this`cfPtr, cfStack
      ensures Shape() && Cf() == old(Cf()) + [x] && (cfStack == old(cfStack) || fresh(cfStack))
      ensures forall y :: y in cfStack[..] ==> y == x || y == 0 || y in old(cfStack[..])
    {
      var len := cfStack.Length;
      cfPtr := cfPtr + 1;
      if cfPtr == len {
        var ncf := new int[2 * len](_ => 0);
        forall i | 0 <= i < len { ncf[i] := cfStack[i]; }
        cfStack := ncf;
      }
      cfStack[cfPtr] := x;
    }

    /** Fails on an empty stack. */
    method CSPop() returns (ok: bool, x: int)
      requires Shape()
      modifies this`cfPtr
      ensures ok <==> old(Cf()) != []
      ensures Shape()
      ensures ok ==> Cf() + [x] == old(Cf())
      ensures !ok ==> cfPtr == old(cfPtr)
    {
      if cfPtr < 0 {
        return false, 0;
      }
      x := cfStack[cfPtr];
      cfPtr := cfPtr - 1;
      ok := true;
    }

    method CSPopOrig() returns (ok: bool, x: int)
      requires Shape()
      modifies this`cfPtr
      ensures ok <==> old(Cf()) != [] && old(Cf())[|old(Cf())| - 1] >= 0
      ensures Shape()
      ensures ok ==> x >= 0 && Cf() + [x] == old(Cf())
    {
      ok, x := CSPop();
      if ok && x < 0 {
        ok := false;
      }
    }

    method CSPopDest() returns (ok: bool, x: int)
      requires Shape()
      modifies this`cfPtr
      ensures ok <==> old(Cf()) != [] && old(Cf())[|old(Cf())| - 1] < 0
      ensures Shape()
      ensures ok ==> x >= 0 && Cf() + [-x - 1] == old(Cf())
    {
      ok, x := CSPop();
      if ok && x >= 0 {
        ok := false;
      }
      x := -x - 1;
    }

    method CSRoll(depth: int) returns (ok: bool)
      requires Valid()
      modifies cfStack
      ensures ok <==> 0 <= depth < |old(Cf())|
      ensures Valid()
      ensures Cf() == if ok then Rolled(old(Cf()), depth) else old(Cf())
    {
      hide Sound, Stored, LocalsOk, Rolled;
      if depth < 0 || depth > cfPtr {
        return false;
      }
      ghost var was := cfStack[..];
      var x := cfStack[cfPtr - depth];
      ShiftDown(cfStack, cfPtr - depth, cfPtr);
      cfStack[cfPtr] := x;
      RolledIs(was, cfStack[..], cfPtr, depth);
      assert Cf() == cfStack[..][..cfPtr + 1] && old(Cf()) == was[..cfPtr + 1];
      RolledSame(old(Cf()), depth);
      PermuteSound(code, old(Cf()), Cf(), |locals|, jumpToLast);
      StoredKept(code, code, was, cfStack[..]);
      ok := true;
    }

    /** A depth in use copies that element; a negative one, as far as the array goes, a stale element. */
    method CSPick(depth: int) returns (ok: bool)
      requires Valid()
      modifies this`cfStack, this`cfPtr, cfStack
      ensures ok <==> 0 <= |old(Cf())| - 1 - depth < old(cfStack.Length)
      ensures Valid() && (cfStack == old(cfStack) || fresh(cfStack))
      ensures Cf() == if ok then old(Cf()) + [old(cfStack[cfPtr - depth])] else old(Cf())
      ensures 0 <= depth < |old(Cf())| ==> ok && Cf() == old(Cf()) + [old(Cf())[|old(Cf())| - 1 - depth]]
    {
      hide Sound, Stored, LocalsOk;
      if cfPtr - depth < 0 || cfPtr - depth >= cfStack.Length {
        return false;
      }
      ghost var all := cfStack[..];
      var x := cfStack[cfPtr - depth];
      assert x == all[cfPtr - depth];
      CSPush(x);
      GrowSound(code, old(Cf()), x, |locals|, jumpToLast);
      StoredKept(code, code, all, cfStack[..]);
      ok := true;
    }

    method Add(op: Opcode)
      requires Valid() && !op.IsJump() && LeafOk(op, |locals|)
      modifies this`code, this`jumpToLast
      ensures Valid() && code == old(code) + [op] && !jumpToLast
    {
      AddSound(code, Cf(), Cf(), |locals|, jumpToLast, op);
      StoredKept(code, code + [op], cfStack[..], cfStack[..]);
      code := code + [op];
      jumpToLast := false;
    }

    method Literal(v: int)
      requires Valid() && SevenE.IsI32(v)
      modifies this`code, this`jumpToLast
      ensures Valid() && code == old(code) + [Const(v)] && !jumpToLast
    {
      Add(Const(v));
    }

    /** A name is a local, a `>local`, or the word that `index` stands for. */
    method Name(target: string, index: nat)
      requires Valid()
      modifies this`code, this`jumpToLast
      ensures Valid() && !jumpToLast
      ensures code == old(code) + [Resolve(locals, target, index)]
    {
      var write := |target| > 0 && target[0] == '>';
      var lname := if write then target[1..] else target;
      if lname in locals {
        if write {
          Add(PutLocal(locals[lname]));
        } else {
          Add(GetLocal(locals[lname]));
        }
      } else {
        Add(Call(index));
      }
    }

    method DefLocal(lname: string) returns (ok: bool)
      requires Valid()
      modifies this`locals
      ensures ok <==> lname !in old(locals)
      ensures Valid() && locals == if ok then old(locals)[lname := |old(locals)|] else old(locals)
    {
      if lname in locals {
        return false;
      }
      LocalsSound(code, Cf(), |locals|, |locals| + 1, jumpToLast);
      locals := locals[lname := |locals|];
      ok := true;
    }

    /** `Ahead`, `AheadIf` and `AheadIfNot`: a jump to be resolved later. */
    method Forward(op: Opcode)
      requires Valid() && op.IsJump() && op.disp == UNRESOLVED
      modifies this, cfStack
      ensures Valid() && (cfStack == old(cfStack) || fresh(cfStack)) && locals == old(locals) && !jumpToLast
      ensures code == old(code) + [op] && Cf() == old(Cf()) + [|old(code)|]
    {
      ghost var was, all := Cf(), cfStack[..];
      CSPush(|code|);
      StoredKept(code, code + [op], all, cfStack[..]);
      AddSound(code, was, Cf(), |locals|, jumpToLast, op);
      code := code + [op];
      jumpToLast := false;
    }

    /** Resolves the forward jump on top of the stack; fails unless there is one and it is still unresolved. */
    method Then() returns (ok: bool)
      requires Valid()
      modifies this`cfPtr, this`code, this`jumpToLast
      ensures ok <==> var cf := old(Cf());
                      cf != [] && 0 <= cf[|cf| - 1] < |old(code)| && old(code)[cf[|cf| - 1]].IsJump()
                      && old(code)[cf[|cf| - 1]].disp == UNRESOLVED
      ensures ok ==> var cf := old(Cf());
                     var x := cf[|cf| - 1];
                     Valid() && Cf() == cf[..|cf| - 1] && jumpToLast
                     && code == old(code)[x := SetDisp(old(code)[x], |old(code)| - x - 1)]
    {
      hide Sound, Stored, LocalsOk;
      ghost var cf := Cf();
      var x: int;
      ok, x := CSPopOrig();
      if !ok {
        return;
      }
      assert cf[|cf| - 1] == x;
      if x >= |code| || !code[x].IsJump() || code[x].disp != UNRESOLVED {
        return false;
      }
      ThenSound(code, cf, |locals|, jumpToLast, x);
      ghost var was := code;
      code := code[x := SetDisp(code[x], |code| - x - 1)];
      StoredKept(was, code, cfStack[..], cfStack[..]);
      jumpToLast := true;
      assert Cf() == cf[..|cf| - 1];
    }

    method Begin()
      requires Valid()
      modifies this`cfStack, this`cfPtr, cfStack
      ensures Valid() && (cfStack == old(cfStack) || fresh(cfStack)) && Cf() == old(Cf()) + [-|code| - 1]
    {
      ghost var all := cfStack[..];
      GrowSound(code, Cf(), -|code| - 1, |locals|, jumpToLast);
      CSPush(-|code| - 1);
      StoredKept(code, code, all, cfStack[..]);
    }

    /** `Again`, `AgainIf` and `AgainIfNot`: a jump back to the destination on top of the stack. */
    method Backward(op: Opcode) returns (ok: bool)
      requires Valid() && op.IsJump()
      modifies this`cfPtr, this`code, this`jumpToLast
      ensures ok <==> old(Cf()) != [] && old(Cf())[|old(Cf())| - 1] < 0
      ensures ok ==> var cf := old(Cf());
                     var x := -cf[|cf| - 1] - 1;
                     Valid() && Cf() == cf[..|cf| - 1] && !jumpToLast
                     && code == old(code) + [SetDisp(op, x - |old(code)| - 1)]
    {
      hide Sound, Stored, LocalsOk;
      ghost var cf := Cf();
      var x: int;
      ok, x := CSPopDest();
      if !ok {
        return;
      }
      assert cf[|cf| - 1] == -x - 1;
      StoredAt(code, cfStack[..], cfPtr + 1);
      assert Cf() == cf[..|cf| - 1];
      var op' := SetDisp(op, x - |code| - 1);
      AddSound(code, cf, Cf(), |locals|, jumpToLast, op');
      StoredKept(code, code + [op'], cfStack[..], cfStack[..]);
      code := code + [op'];
      jumpToLast := false;
    }

    /**
     * `Build`: however the builder was used, success means that every jump leads to an opcode and that control
     * cannot run past the last one.
     */
    method Build() returns (ok: bool)
      requires Valid()
      modifies this`code, this`jumpToLast
      ensures ok <==> old(Cf()) == []
      ensures ok ==> code == old(code) + if old(jumpToLast || code[|code| - 1].MayFallThrough()) then [Ret] else []
      ensures ok ==> forall p: Program :: Known(p, code) ==> CodeOk(p, |locals|, code)
    {
      if cfPtr != -1 {
        return false;
      }
      if jumpToLast || code[|code| - 1].MayFallThrough() {
        Add(Ret);
      }
      assert Cf() == [];
      forall p: Program | Known(p, code) ensures CodeOk(p, |locals|, code) {
        forall i | 0 <= i < |code| ensures OpcodeOk(p, |locals|, code[i], i, |code|) {
          assert LeafOk(code[i], |locals|) && Landed(code[i], i, |code|);
        }
      }
      ok := true;
    }
  }

  /** Calls refer to words that exist. */
  predicate Known(p: Program, code: seq<Opcode>) {
    forall i :: 0 <= i < |code| && code[i].Call? ==> code[i].target < |p.words|
  }

  function Resolve(locals: map<string, nat>, target: string, index: nat): Opcode {
    var write := |target| > 0 && target[0] == '>';
    var lname := if write then target[1..] else target;
    if lname !in locals then Call(index) else if write then PutLocal(locals[lname]) else GetLocal(locals[lname])
  }

  /** The word of a name alone is what runs, for a local, for a store to it, and for anything else. */
  lemma NamesRun(p: Program, locals: map<string, nat>, x: string, index: nat, w: nat, next: nat, ds: seq<u32>,
                 frames: seq<Frame>)
    requires frames != [] && |frames[|frames| - 1].locals| == |locals| && LocalsOk(locals)
    ensures x in locals && (x == "" || x[0] != '>') ==>
              Exec(p, Resolve(locals, x, index), w, next, ds, frames)
              == Running(w, next, ds + [frames[|frames| - 1].locals[locals[x]]], frames)
    ensures x in locals && ds != [] ==>
              var t := Exec(p, Resolve(locals, ">" + x, index), w, next, ds, frames);
              t.Running? && t.w == w && t.off == next && t.ds == ds[..|ds| - 1] && |t.frames| == |frames|
              && t.frames[..|frames| - 1] == frames[..|frames| - 1]
              && t.frames[|frames| - 1].back == frames[|frames| - 1].back
              && t.frames[|frames| - 1].locals == frames[|frames| - 1].locals[locals[x] := ds[|ds| - 1]]
    ensures x !in locals && (x != "" && x[0] == '>' ==> x[1..] !in locals) ==>
              Exec(p, Resolve(locals, x, index), w, next, ds, frames) == Exec(p, Call(index), w, next, ds, frames)
  {
    assert (">" + x)[0] == '>' && (">" + x)[1..] == x;
  }

  /** A store and then a read of the same local leave the stack as it was, with its top in that local. */
  lemma StoreThenRead(p: Program, locals: map<string, nat>, x: string, index: nat, s: State)
    requires x in locals && (x == "" || x[0] != '>') && LocalsOk(locals)
    requires s.Running? && s.frames != [] && |s.frames[|s.frames| - 1].locals| == |locals| && s.ds != []
    requires s.w < |p.words| && p.words[s.w].Interpreted? && s.off + 2 <= |p.words[s.w].code|
    requires p.words[s.w].code[s.off..s.off + 2] == [Resolve(locals, ">" + x, index), Resolve(locals, x, index)]
    ensures var t := Run(p, s, 2);
            t.Running? && t.w == s.w && t.off == s.off + 2 && t.ds == s.ds && |t.frames| == |s.frames|
            && t.frames[|s.frames| - 1].locals == s.frames[|s.frames| - 1].locals[locals[x] := s.ds[|s.ds| - 1]]
  {
    hide Exec, Resolve;
    var code := p.words[s.w].code;
    assert code[s.off] == code[s.off..s.off + 2][0] && code[s.off + 1] == code[s.off..s.off + 2][1];
    NamesRun(p, locals, x, index, s.w, s.off + 1, s.ds, s.frames);
    var m := Step(p, s);
    NamesRun(p, locals, x, index, s.w, s.off + 2, m.ds, m.frames);
    assert Run(p, s, 2) == Run(p, m, 1) == Run(p, Step(p, m), 0);
    assert s.ds == s.ds[..|s.ds| - 1] + [s.ds[|s.ds| - 1]];
  }

  predicate LeavesFit(s: Stmt, nl: nat) {
    match s
    case Skip => true
    case Basic(op) => !op.IsJump() && LeafOk(op, nl)
    case Then(a, b) => LeavesFit(a, nl) && LeavesFit(b, nl)
    case IfElse(a, b) => LeavesFit(a, nl) && LeavesFit(b, nl)
    case While(a, b) => LeavesFit(a, nl) && LeavesFit(b, nl)
    case _ => LeavesFit(s.body, nl)
  }

  /** The builder after a piece of code was added: nothing else differs. */
  twostate predicate Added(b: WordBuilder, c: seq<Opcode>, ends: bool)
    reads b, b.cfStack
  {
    old(b.Valid()) && b.Valid() && (b.cfStack == old(b.cfStack) || fresh(b.cfStack))
    && b.code == old(b.code) + c && b.Cf() == old(b.Cf()) && b.locals == old(b.locals) && b.jumpToLast == ends
  }

  lemma Patch(pre: seq<Opcode>, op: Opcode, mid: seq<Opcode>, op': Opcode)
    ensures (pre + [op] + mid)[|pre|] == op && (pre + [op] + mid)[|pre| := op'] == pre + [op'] + mid
  {
  }

  /** Source text of a statement, word by word, through the builder: it never fails and yields the compiled form. */
  method Compile(b: WordBuilder, s: Stmt)
    requires b.Valid() && LeavesFit(s, |b.locals|)
    modifies b, b.cfStack
    ensures Added(b, Comp(s), EndsAtTarget(s, old(b.jumpToLast)))
    decreases s, 1
  {
    hide Sound, Stored, LocalsOk, Comp;
    CompTwo(s);
    match s
    case Skip =>
    case Basic(op) => b.Add(op);
    case Then(x, y) => CompileThen(b, s);
    case If(_) => CompileIf(b, s);
    case IfNot(_) => CompileIf(b, s);
    case Ahead(_) => CompileIf(b, s);
    case IfElse(_, _) => CompileIfElse(b, s);
    case While(_, _) => CompileWhile(b, s);
    case _ => CompileLoop(b, s);
  }

  method CompileThen(b: WordBuilder, s: Stmt)
    requires b.Valid() && LeavesFit(s, |b.locals|) && s.Then?
    modifies b, b.cfStack
    ensures Added(b, Comp(s), EndsAtTarget(s, old(b.jumpToLast)))
    decreases s, 0
  {
    hide Sound, Stored, LocalsOk, Comp;
    CompTwo(s);
    Compile(b, s.first);
    Compile(b, s.next);
  }

  /** `if`, `ifnot` or `ahead`, the body, `then`. */
  method CompileIf(b: WordBuilder, s: Stmt)
    requires b.Valid() && LeavesFit(s, |b.locals|) && (s.If? || s.IfNot? || s.Ahead?)
    modifies b, b.cfStack
    ensures Added(b, Comp(s), true)
    decreases s, 0
  {
    hide Sound, Stored, LocalsOk, Comp;
    CompTwo(s);
    ghost var pre, mid := b.code, Comp(s.body);
    var op := if s.If? then JumpIfNot(UNRESOLVED) else if s.IfNot? then JumpIf(UNRESOLVED) else Jump(UNRESOLVED);
    b.Forward(op);
    Compile(b, s.body);
    Patch(pre, op, mid, SetDisp(op, |mid|));
    var ok := b.Then();
  }

  /** `begin`, the body, `until`, `untilnot` or `again`. */
  method CompileLoop(b: WordBuilder, s: Stmt)
    requires b.Valid() && LeavesFit(s, |b.locals|) && (s.Until? || s.UntilNot? || s.Again?)
    modifies b, b.cfStack
    ensures Added(b, Comp(s), false)
    decreases s, 0
  {
    hide Sound, Stored, LocalsOk, Comp;
    CompTwo(s);
    b.Begin();
    Compile(b, s.body);
    var ok := b.Backward(if s.Until? then JumpIfNot(0) else if s.UntilNot? then JumpIf(0) else Jump(0));
  }

  /** `if`, the one branch, `else` (which is `ahead 1 cs-roll then`), the other branch, `then`. */
  method CompileIfElse(b: WordBuilder, s: Stmt)
    requires b.Valid() && LeavesFit(s, |b.locals|) && s.IfElse?
    modifies b, b.cfStack
    ensures Added(b, Comp(s), true)
    decreases s, 0
  {
    hide Sound, Stored, LocalsOk, Comp;
    CompFour(s);
    ghost var pre, ca, cb := b.code, Comp(s.yes), Comp(s.no);
    var jump := Jump(UNRESOLVED);
    CompileElse(b, s.yes);
    ghost var pre2 := pre + ([JumpIfNot(|ca| + 1)] + ca);
    assert b.code == pre2 + [jump];
    Compile(b, s.no);
    Patch(pre2, jump, cb, Jump(|cb|));
    var ok := b.Then();
    assert pre2 + [Jump(|cb|)] + cb == pre + Comp(s);
  }

  /** `if`, the body, `else`. */
  method CompileElse(b: WordBuilder, s: Stmt)
    requires b.Valid() && LeavesFit(s, |b.locals|)
    modifies b, b.cfStack
    ensures b.Valid() && (b.cfStack == old(b.cfStack) || fresh(b.cfStack)) && b.locals == old(b.locals)
    ensures b.code == old(b.code) + [JumpIfNot(|Comp(s)| + 1)] + Comp(s) + [Jump(UNRESOLVED)]
    ensures b.Cf() == old(b.Cf()) + [|old(b.code)| + 1 + |Comp(s)|]
    decreases s, 2
  {
    hide Sound, Stored, LocalsOk, Comp, Rolled, LeavesFit;
    ghost var pre, ca := b.code, Comp(s);
    var cond := JumpIfNot(UNRESOLVED);
    b.Forward(cond);
    Compile(b, s);
    Patch(pre, cond, ca, JumpIfNot(|ca| + 1));
    Else(b, b.Cf()[..b.cfPtr], |pre|);
  }

  /** `else`: `ahead 1 cs-roll then`. The jump at `x`, on top of the stack, is resolved to just past a new jump. */
  method Else(b: WordBuilder, ghost cf: seq<int>, ghost x: nat)
    requires b.Valid() && b.Cf() == cf + [x] && x < |b.code| && b.code[x].IsJump() && b.code[x].disp == UNRESOLVED
    modifies b, b.cfStack
    ensures b.Valid() && (b.cfStack == old(b.cfStack) || fresh(b.cfStack)) && b.locals == old(b.locals)
    ensures b.code == old(b.code)[x := SetDisp(old(b.code[x]), |old(b.code)| - x)] + [Jump(UNRESOLVED)]
    ensures b.Cf() == cf + [|old(b.code)|]
  {
    hide Sound, Stored, LocalsOk, Rolled;
    RollOne(cf, x, |b.code|);
    b.Forward(Jump(UNRESOLVED));
    var ok := b.CSRoll(1);
    ok := b.Then();
  }

  /** `begin`, the test, `while` (which is `if 1 cs-roll`), the body, `repeat` (which is `again then`). */
  method CompileWhile(b: WordBuilder, s: Stmt)
    requires b.Valid() && LeavesFit(s, |b.locals|) && s.While?
    modifies b, b.cfStack
    ensures Added(b, Comp(s), true)
    decreases s, 0
  {
    hide Sound, Stored, LocalsOk, Comp;
    CompFour(s);
    ghost var pre, cc, cb := b.code, Comp(s.test), Comp(s.body);
    CompileTest(b, s.test);
    CompileRepeat(b, s.body, pre, cc);
    assert pre + cc + [JumpIfNot(|cb| + 1)] + cb + [Jump(-|cc| - |cb| - 2)] == pre + Comp(s);
  }

  /** `begin`, the test, `while`. */
  method CompileTest(b: WordBuilder, s: Stmt)
    requires b.Valid() && LeavesFit(s, |b.locals|)
    modifies b, b.cfStack
    ensures b.Valid() && (b.cfStack == old(b.cfStack) || fresh(b.cfStack)) && b.locals == old(b.locals)
    ensures b.code == old(b.code) + Comp(s) + [JumpIfNot(UNRESOLVED)]
    ensures b.Cf() == old(b.Cf()) + [|old(b.code)| + |Comp(s)|] + [-|old(b.code)| - 1]
    decreases s, 2
  {
    hide Sound, Stored, LocalsOk, Comp, Rolled, LeavesFit;
    RollOne(b.Cf(), -|b.code| - 1, |b.code| + |Comp(s)|);
    b.Begin();
    Compile(b, s);
    b.Forward(JumpIfNot(UNRESOLVED));
    var ok := b.CSRoll(1);
  }

  /** The body, `repeat`. */
  method CompileRepeat(b: WordBuilder, s: Stmt, ghost pre: seq<Opcode>, ghost cc: seq<Opcode>)
    requires b.Valid() && LeavesFit(s, |b.locals|) && b.code == pre + cc + [JumpIfNot(UNRESOLVED)]
    requires |b.Cf()| >= 2 && b.Cf()[|b.Cf()| - 2..] == [|pre| + |cc|, -|pre| - 1]
    modifies b, b.cfStack
    ensures b.Valid() && (b.cfStack == old(b.cfStack) || fresh(b.cfStack)) && b.locals == old(b.locals) && b.jumpToLast
    ensures b.code == pre + cc + [JumpIfNot(|Comp(s)| + 1)] + Comp(s) + [Jump(-|cc| - |Comp(s)| - 2)]
    ensures b.Cf() == old(b.Cf())[..|old(b.Cf())| - 2]
    decreases s, 2
  {
    hide Sound, Stored, LocalsOk, Comp;
    ghost var cb, cf := Comp(s), b.Cf();
    Compile(b, s);
    assert b.Cf()[|cf| - 1] == cf[|cf| - 2..][1] && b.Cf()[|cf| - 2] == cf[|cf| - 2..][0];
    var ok := b.Backward(Jump(0));
    ghost var back := Jump(-|cc| - |cb| - 2);
    assert b.code == pre + cc + [JumpIfNot(UNRESOLVED)] + (cb + [back]);
    Patch(pre + cc, JumpIfNot(UNRESOLVED), cb + [back], JumpIfNot(|cb| + 1));
    ok := b.Then();
  }

  predicate Distinct(names: seq<string>) {
    forall i, j :: 0 <= i < j < |names| ==> names[i] != names[j]
  }

  /** Local names in order; a repeated name fails. */
  method DefLocals(b: WordBuilder, names: seq<string>) returns (ok: bool)
    requires b.Valid() && b.locals == map[]
    modifies b`locals
    ensures ok <==> Distinct(names)
    ensures b.Valid()
    ensures ok ==> |b.locals| == |names|
                   && forall i :: 0 <= i < |names| ==> names[i] in b.locals && b.locals[names[i]] == i
  {
    hide Sound, Stored;
    for i := 0 to |names|
      invariant b.Valid() && |b.locals| == i
      invariant forall n :: n in b.locals ==> b.locals[n] < i && names[b.locals[n]] == n
      invariant forall j :: 0 <= j < i ==> names[j] in b.locals && b.locals[names[j]] == j
    {
      ok := b.DefLocal(names[i]);
      if !ok {
        return;
      }
    }
    ok := true;
  }

  /** A whole word from its structured body and its local names. */
  method BuildWord(names: seq<string>, s: Stmt, effect: SType) returns (ok: bool, w: Word)
    requires LeavesFit(s, |names|)
    ensures ok <==> Distinct(names)
    ensures ok ==> w == Interpreted(|names|, Built(s), effect)
  {
    hide Sound, Stored, LocalsOk, Comp, LeavesFit, Distinct, Known;
    var b := new WordBuilder();
    w := Interpreted(0, [], effect);
    ok := DefLocals(b, names);
    if !ok {
      return;
    }
    Compile(b, s);
    assert b.code == Comp(s);
    if Comp(s) == [] {
      EmptyKeeps(s, true);
    }
    ok := b.Build();
    w := Interpreted(|b.locals|, b.code, effect);
  }
}
