/** Opcodes and the virtual CPU that runs them (bearssl-0.5/T0/CPU.cs and the Opcode classes). */
module T0Machine {
  import opened SevenE
  import opened StackEffects

  type u32 = x: int | 0 <= x < 0x1_0000_0000

  datatype Opcode =
    | Ret
    | Const(v: int)
    | GetLocal(num: nat)
    | PutLocal(num: nat)
    | Jump(disp: int)
    | JumpIf(disp: int)
    | JumpIfNot(disp: int)
    | Call(target: nat)
  {
    predicate IsJump() { Jump? || JumpIf? || JumpIfNot? }

    function JumpDisp(): int {
      if IsJump() then disp else 0
    }

    predicate MayFallThrough() {
      match this
      case Ret => false
      case Jump(d) => d == 0
      case _ => true
    }

    function StackAction(): int {
      match this
      case Const(_) => 1
      case GetLocal(_) => 1
      case PutLocal(_) => -1
      case JumpIf(_) => -1
      case JumpIfNot(_) => -1
      case _ => 0
    }
  }

  /** What a piece of C code does to the top of the data stack; a negative `dout` means it never comes back. */
  datatype Prim = Prim(din: nat, dout: int, run: seq<u32> -> seq<u32>)

  datatype Word =
    | Native(ccode: string, effect: SType)
    | Interpreted(numLocals: nat, code: seq<Opcode>, effect: SType)

  datatype Program = Program(words: seq<Word>, prims: map<string, Prim>)

  ghost predicate PrimOk(q: Prim) {
    q.dout >= 0 ==> forall a: seq<u32> :: |a| == q.din ==> |q.run(a)| == q.dout
  }

  predicate OpcodeOk(p: Program, numLocals: nat, op: Opcode, off: nat, n: nat) {
    match op
    case Const(v) => IsI32(v)
    case GetLocal(k) => k < numLocals
    case PutLocal(k) => k < numLocals
    case Call(t) => t < |p.words|
    case Ret => true
    case _ => 0 <= off + 1 + op.JumpDisp() < n
  }

  /** Every target exists and control cannot run past the last opcode. */
  predicate CodeOk(p: Program, numLocals: nat, code: seq<Opcode>) {
    |code| > 0 && !code[|code| - 1].MayFallThrough()
    && forall i :: 0 <= i < |code| ==> OpcodeOk(p, numLocals, code[i], i, |code|)
  }

  ghost predicate ProgramOk(p: Program) {
    forall w :: 0 <= w < |p.words| ==> WordOk(p, p.words[w])
  }

  ghost predicate WordOk(p: Program, w: Word) {
    match w
    case Native(cc, _) => cc in p.prims && PrimOk(p.prims[cc])
    case Interpreted(nl, code, _) => CodeOk(p, nl, code)
  }

  /** A call frame: where to go back to, and the locals. `written` records which locals were assigned. */
  datatype Frame = Frame(back: Back, locals: seq<u32>, written: set<nat>)

  datatype Back = Top | To(w: nat, off: nat)

  datatype State =
    | Running(w: nat, off: nat, ds: seq<u32>, frames: seq<Frame>)
    | Done(result: seq<u32>)
    | NoReturn
    | Stuck

  function Zeros(n: nat): (s: seq<u32>)
    ensures |s| == n && forall i :: 0 <= i < n ==> s[i] == 0
  {
    seq(n, _ => 0)
  }

  /** `Enter` */
  function Enter(p: Program, t: nat, back: Back, ds: seq<u32>, frames: seq<Frame>): State
    requires t < |p.words| && p.words[t].Interpreted?
  {
    Running(t, 0, ds, frames + [Frame(back, Zeros(p.words[t].numLocals), {})])
  }

  /** A word implemented in C, applied to the top of the stack. */
  function RunPrim(q: Prim, w: nat, off: nat, ds: seq<u32>, frames: seq<Frame>): State {
    if |ds| < q.din then Stuck
    else if q.dout < 0 then NoReturn
    else Running(w, off, ds[..|ds| - q.din] + q.run(ds[|ds| - q.din..]), frames)
  }

  function JumpTo(w: nat, off: int, ds: seq<u32>, frames: seq<Frame>): State {
    if off < 0 then Stuck else Running(w, off, ds, frames)
  }

  /** One turn of the run loop: `op = ipBuf[ipOff ++]; op.Run(cpu)`. */
  function Step(p: Program, s: State): State {
    match s
    case Running(w, off, ds, frames) =>
      if w >= |p.words| || !p.words[w].Interpreted? || off >= |p.words[w].code| || frames == [] then Stuck
      else Exec(p, p.words[w].code[off], w, off + 1, ds, frames)
    case _ => s
  }

  function Exec(p: Program, op: Opcode, w: nat, next: nat, ds: seq<u32>, frames: seq<Frame>): State
    requires frames != []
  {
    var top := |frames| - 1;
    var f := frames[top];
    var d := |ds| - 1;
    match op
    case Ret =>
      if f.back.Top? then Done(ds) else Running(f.back.w, f.back.off, ds, frames[..top])
    case Const(v) => Running(w, next, ds + [ToU32(v)], frames)
    case GetLocal(n) =>
      if n < |f.locals| then Running(w, next, ds + [f.locals[n]], frames) else Stuck
    case PutLocal(n) =>
      if n < |f.locals| && ds != []
      then Running(w, next, ds[..d], frames[top := f.(locals := f.locals[n := ds[d]], written := f.written + {n})])
      else Stuck
    case Jump(j) => JumpTo(w, next + j, ds, frames)
    case JumpIf(j) =>
      if ds == [] then Stuck
      else if ds[d] != 0 then JumpTo(w, next + j, ds[..d], frames) else Running(w, next, ds[..d], frames)
    case JumpIfNot(j) =>
      if ds == [] then Stuck
      else if ds[d] == 0 then JumpTo(w, next + j, ds[..d], frames) else Running(w, next, ds[..d], frames)
    case Call(t) =>
      if t >= |p.words| then Stuck
      else match p.words[t]
        case Interpreted(_, _, _) => Enter(p, t, To(w, next), ds, frames)
        case Native(cc, _) => if cc in p.prims then RunPrim(p.prims[cc], w, next, ds, frames) else Stuck
  }

  function Run(p: Program, s: State, n: nat): State
    decreases n
  {
    if n == 0 then s else Run(p, Step(p, s), n - 1)
  }

  lemma {:induction false} RunAdd(p: Program, s: State, m: nat, n: nat)
    ensures Run(p, Run(p, s, m), n) == Run(p, s, m + n)
    decreases m
  {
    if m > 0 { RunAdd(p, Step(p, s), m - 1, n); }
  }

  lemma {:induction false} RunStep(p: Program, s: State, n: nat)
    ensures Run(p, s, n + 1) == Step(p, Run(p, s, n))
    decreases n
  {
    if n > 0 { RunStep(p, Step(p, s), n - 1); }
  }

  lemma {:induction false} StaysThere(p: Program, s: State, n: nat)
    requires !s.Running?
    ensures Run(p, s, n) == s
    decreases n
  {
    if n > 0 { StaysThere(p, s, n - 1); }
  }

  lemma FinalOnce(p: Program, s: State, m: nat, n: nat)
    requires !Run(p, s, m).Running? && m <= n
    ensures Run(p, s, n) == Run(p, s, m)
  {
    RunAdd(p, s, m, n - m);
    StaysThere(p, Run(p, s, m), n - m);
  }

  /** Entering an entry point from outside. */
  function Start(p: Program, t: nat, ds: seq<u32>): State
    requires t < |p.words| && p.words[t].Interpreted?
  {
    Enter(p, t, Top, ds, [])
  }
}
