/** Structured control flow of T0 source: what the words if/else/then, begin/until/while/repeat/again mean. */
module T0Structured {
  import opened T0Machine
  import opened SevenE

  datatype Stmt =
    | Skip
    | Basic(op: Opcode)
    | Then(first: Stmt, next: Stmt)
    | If(body: Stmt)                    // if body then
    | IfNot(body: Stmt)                 // ifnot body then
    | IfElse(yes: Stmt, no: Stmt)       // if yes else no then
    | Ahead(body: Stmt)                 // ahead body then
    | Until(body: Stmt)                 // begin body until
    | UntilNot(body: Stmt)              // begin body untilnot
    | Again(body: Stmt)                 // begin body again
    | While(test: Stmt, body: Stmt)     // begin test while body repeat
  {
    predicate Plain() {
      match this
      case Skip => true
      case Basic(op) => !op.IsJump()
      case Then(a, b) => a.Plain() && b.Plain()
      case IfElse(a, b) => a.Plain() && b.Plain()
      case While(a, b) => a.Plain() && b.Plain()
      case _ => body.Plain()
    }
  }

  function Cat(a: seq<Opcode>, b: seq<Opcode>, c: seq<Opcode>, d: seq<Opcode>): (r: seq<Opcode>)
    ensures |r| == |a| + |b| + |c| + |d|
  {
    a + b + c + d
  }

  /** Compiled form: jumps are relative, so the place does not matter. */
  function Comp(s: Stmt): seq<Opcode> {
    match s
    case Skip => []
    case Basic(op) => [op]
    case Then(a, b) => Comp(a) + Comp(b)
    case If(b) => [JumpIfNot(|Comp(b)|)] + Comp(b)
    case IfNot(b) => [JumpIf(|Comp(b)|)] + Comp(b)
    case IfElse(a, b) => Cat([JumpIfNot(|Comp(a)| + 1)], Comp(a), [Jump(|Comp(b)|)], Comp(b))
    case Ahead(b) => [Jump(|Comp(b)|)] + Comp(b)
    case Until(b) => Comp(b) + [JumpIfNot(-|Comp(b)| - 1)]
    case UntilNot(b) => Comp(b) + [JumpIf(-|Comp(b)| - 1)]
    case Again(b) => Comp(b) + [Jump(-|Comp(b)| - 1)]
    case While(c, b) => Cat(Comp(c), [JumpIfNot(|Comp(b)| + 1)], Comp(b), [Jump(-|Comp(c)| - |Comp(b)| - 2)])
  }

  /** Whether a jump may lead to the end of the compiled form; `before` is the answer for what precedes. */
  predicate EndsAtTarget(s: Stmt, before: bool) {
    match s
    case Skip => before
    case Basic(_) => false
    case Then(a, b) => EndsAtTarget(b, EndsAtTarget(a, before))
    case Until(_) => false
    case UntilNot(_) => false
    case Again(_) => false
    case _ => true
  }

  /** `Build`: a final `ret` unless control cannot get there. */
  predicate NeedsRet(s: Stmt) {
    EndsAtTarget(s, true) || Comp(s) == [] || Comp(s)[|Comp(s)| - 1].MayFallThrough()
  }

  function Built(s: Stmt): seq<Opcode> {
    Comp(s) + if NeedsRet(s) then [Ret] else []
  }

  datatype Outcome =
    | Timeout
    | Fell(ds: seq<u32>, vals: seq<u32>)
    | Returned(ds: seq<u32>)
    | Never
    | Wrong

  /** The words of a program with the structured bodies of the interpreted ones. */
  datatype World = World(p: Program, bodies: seq<Stmt>)

  /** The meaning of a statement, without any jump. `fuel` bounds iterations and the depth of calls. */
  function Eval(x: World, s: Stmt, fuel: nat, ds: seq<u32>, vals: seq<u32>): Outcome
    decreases fuel, s
  {
    match s
    case Skip => Fell(ds, vals)
    case Basic(op) => EvalBasic(x, s, op, fuel, ds, vals)
    case Then(a, b) =>
      var r := Eval(x, a, fuel, ds, vals);
      if r.Fell? then Eval(x, b, fuel, r.ds, r.vals) else r
    case If(b) =>
      if ds == [] then Wrong
      else if Top1(ds) != 0 then Eval(x, b, fuel, Pop1(ds), vals) else Fell(Pop1(ds), vals)
    case IfNot(b) =>
      if ds == [] then Wrong
      else if Top1(ds) == 0 then Eval(x, b, fuel, Pop1(ds), vals) else Fell(Pop1(ds), vals)
    case IfElse(a, b) =>
      if ds == [] then Wrong
      else if Top1(ds) != 0 then Eval(x, a, fuel, Pop1(ds), vals) else Eval(x, b, fuel, Pop1(ds), vals)
    case Ahead(b) => Fell(ds, vals)
    case Until(b) =>
      var r := Eval(x, b, fuel, ds, vals);
      if !r.Fell? then r
      else if r.ds == [] then Wrong
      else if Top1(r.ds) != 0 then Fell(Pop1(r.ds), r.vals)
      else if fuel == 0 then Timeout else Eval(x, s, fuel - 1, Pop1(r.ds), r.vals)
    case UntilNot(b) =>
      var r := Eval(x, b, fuel, ds, vals);
      if !r.Fell? then r
      else if r.ds == [] then Wrong
      else if Top1(r.ds) == 0 then Fell(Pop1(r.ds), r.vals)
      else if fuel == 0 then Timeout else Eval(x, s, fuel - 1, Pop1(r.ds), r.vals)
    case Again(b) =>
      var r := Eval(x, b, fuel, ds, vals);
      if !r.Fell? then r
      else if fuel == 0 then Timeout else Eval(x, s, fuel - 1, r.ds, r.vals)
    case While(c, b) =>
      var r := Eval(x, c, fuel, ds, vals);
      if !r.Fell? then r
      else if r.ds == [] then Wrong
      else if Top1(r.ds) == 0 then Fell(Pop1(r.ds), r.vals)
      else
        var r2 := Eval(x, b, fuel, Pop1(r.ds), r.vals);
        if !r2.Fell? then r2
        else if fuel == 0 then Timeout else Eval(x, s, fuel - 1, r2.ds, r2.vals)
  }

  function Top1(ds: seq<u32>): u32
    requires ds != []
  {
    ds[|ds| - 1]
  }

  function Pop1(ds: seq<u32>): seq<u32>
    requires ds != []
  {
    ds[..|ds| - 1]
  }

  function EvalBasic(x: World, s: Stmt, op: Opcode, fuel: nat, ds: seq<u32>, vals: seq<u32>): Outcome
    requires s == Basic(op)
    decreases fuel, s, 0
  {
    match op
    case Ret => Returned(ds)
    case Const(v) => Fell(ds + [ToU32(v)], vals)
    case GetLocal(n) => if n < |vals| then Fell(ds + [vals[n]], vals) else Wrong
    case PutLocal(n) => if n < |vals| && ds != [] then Fell(Pop1(ds), vals[n := Top1(ds)]) else Wrong
    case Call(t) => EvalCall(x, s, t, fuel, ds, vals)
    case _ => Wrong
  }

  function EvalCall(x: World, s: Stmt, t: nat, fuel: nat, ds: seq<u32>, vals: seq<u32>): Outcome
    requires s == Basic(Call(t))
    decreases fuel, s, 0, 0
  {
    if t >= |x.p.words| || t >= |x.bodies| then Wrong
    else match x.p.words[t]
      case Native(cc, _) => if cc in x.p.prims then EvalPrim(x.p.prims[cc], ds, vals) else Wrong
      case Interpreted(n, _, _) =>
        if fuel == 0 then Timeout
        else
          var r := Eval(x, x.bodies[t], fuel - 1, ds, Zeros(n));
          if r.Fell? || r.Returned? then Fell(r.ds, vals) else r
  }

  function EvalPrim(q: Prim, ds: seq<u32>, vals: seq<u32>): Outcome {
    if |ds| < q.din then Wrong
    else if q.dout < 0 then Never
    else Fell(ds[..|ds| - q.din] + q.run(ds[|ds| - q.din..]), vals)
  }

  /** Every interpreted word was built from its body. */
  ghost predicate WorldOk(x: World) {
    |x.bodies| == |x.p.words|
    && forall w :: 0 <= w < |x.p.words| && x.p.words[w].Interpreted? ==>
         x.bodies[w].Plain() && x.p.words[w].code == Built(x.bodies[w])
  }

  /** `c` stands at offset `off` of word `w`. */
  ghost predicate Stands(p: Program, w: nat, off: nat, c: seq<Opcode>) {
    w < |p.words| && p.words[w].Interpreted? && off + |c| <= |p.words[w].code| && p.words[w].code[off..off + |c|] == c
  }

  /** The CPU is at `off` in `w`, with these locals in the top frame. */
  ghost predicate At(st: State, w: nat, off: nat, ds: seq<u32>, frames: seq<Frame>, back: Back, vals: seq<u32>) {
    st.Running? && st.w == w && st.off == off && st.ds == ds
    && |st.frames| == |frames| + 1 && st.frames[..|frames|] == frames
    && st.frames[|frames|].back == back && st.frames[|frames|].locals == vals
  }

  /** Where the CPU goes when a word returns. */
  function BackTo(ds: seq<u32>, frames: seq<Frame>, back: Back): State {
    if back.Top? then Done(ds) else Running(back.w, back.off, ds, frames)
  }

  /** The CPU state that an outcome announces; a timeout announces at least `fuel` steps. */
  ghost predicate Lands(r: Outcome, st: State, w: nat, off: nat, frames: seq<Frame>, back: Back, n: nat, fuel: nat) {
    match r
    case Timeout => n >= fuel && st.Running?
    case Fell(ds, vals) => At(st, w, off, ds, frames, back, vals)
    case Returned(ds) => st == BackTo(ds, frames, back)
    case Never => st == NoReturn
    case Wrong => st == Stuck
  }

  /** Where a statement stands: word, offset, and what surrounds the current frame. */
  datatype Place = Place(w: nat, off: nat, frames: seq<Frame>, back: Back)

  ghost predicate Here(st: State, l: Place, ds: seq<u32>, vals: seq<u32>) {
    At(st, l.w, l.off, ds, l.frames, l.back, vals)
  }

  /** `n` steps from `st` the CPU is where the outcome `r` says; falling through leads to `off`. */
  ghost predicate Ends(p: Program, r: Outcome, st: State, n: nat, l: Place, off: nat, fuel: nat) {
    Lands(r, Run(p, st, n), l.w, off, l.frames, l.back, n, fuel)
  }

  /** `st` starts `s` at `l`, and `n` steps later the CPU is where `Eval` says. */
  ghost predicate Agrees(x: World, s: Stmt, fuel: nat, l: Place, ds: seq<u32>, vals: seq<u32>, st: State, n: nat) {
    Ends(x.p, Eval(x, s, fuel, ds, vals), st, n, l, l.off + |Comp(s)|, fuel)
  }

  ghost predicate Starts(x: World, s: Stmt, l: Place, ds: seq<u32>, vals: seq<u32>, st: State) {
    WorldOk(x) && s.Plain() && Stands(x.p, l.w, l.off, Comp(s)) && Here(st, l, ds, vals)
  }

  lemma StandsParts(p: Program, w: nat, off: nat, a: seq<Opcode>, b: seq<Opcode>)
    requires Stands(p, w, off, a + b)
    ensures Stands(p, w, off, a) && Stands(p, w, off + |a|, b)
  {
    var c := p.words[w].code[off..off + |a + b|];
    assert c[..|a|] == a && c[|a|..] == b;
  }

  lemma StandsFour(p: Program, w: nat, off: nat, a: seq<Opcode>, b: seq<Opcode>, c: seq<Opcode>, d: seq<Opcode>)
    requires Stands(p, w, off, Cat(a, b, c, d))
    ensures Stands(p, w, off, a) && Stands(p, w, off + |a|, b) && Stands(p, w, off + |a| + |b|, c)
    ensures Stands(p, w, off + |a| + |b| + |c|, d)
  {
    hide Stands;
    StandsParts(p, w, off, a + b + c, d);
    StandsParts(p, w, off, a + b, c);
    StandsParts(p, w, off, a, b);
  }

  lemma OpAt(p: Program, l: Place, op: Opcode, ds: seq<u32>, vals: seq<u32>, st: State)
    requires Stands(p, l.w, l.off, [op]) && Here(st, l, ds, vals)
    ensures st.frames != [] && Step(p, st) == Exec(p, op, l.w, l.off + 1, ds, st.frames)
  {
    assert p.words[l.w].code[l.off..l.off + 1][0] == op;
  }

  /** One step of a conditional jump. */
  lemma Branch(p: Program, l: Place, op: Opcode, ds: seq<u32>, vals: seq<u32>, st: State, n: nat)
    requires Stands(p, l.w, l.off, [op]) && Here(Run(p, st, n), l, ds, vals) && (op.JumpIf? || op.JumpIfNot?)
    requires l.off + 1 + op.disp >= 0
    ensures ds == [] ==> Run(p, st, n + 1) == Stuck
    ensures ds != [] ==>
              Here(Run(p, st, n + 1),
                   l.(off := if (Top1(ds) != 0) == op.JumpIf? then l.off + 1 + op.disp else l.off + 1), Pop1(ds), vals)
  {
    OpAt(p, l, op, ds, vals, Run(p, st, n));
    RunStep(p, st, n);
  }

  lemma Leap(p: Program, l: Place, disp: int, ds: seq<u32>, vals: seq<u32>, st: State, n: nat)
    requires Stands(p, l.w, l.off, [Jump(disp)]) && Here(Run(p, st, n), l, ds, vals) && l.off + 1 + disp >= 0
    ensures Here(Run(p, st, n + 1), l.(off := l.off + 1 + disp), ds, vals)
  {
    OpAt(p, l, Jump(disp), ds, vals, Run(p, st, n));
    RunStep(p, st, n);
  }

  /** Runs follow one another; every step pays for one unit of fuel. */
  lemma After(p: Program, r: Outcome, st: State, n: nat, m: nat, l: Place, off: nat, less: nat, fuel: nat)
    requires Ends(p, r, Run(p, st, n), m, l, off, less) && fuel <= less + n
    ensures Ends(p, r, st, n + m, l, off, fuel)
  {
    RunAdd(p, st, n, m);
  }

  /** An outcome other than falling through does not depend on what follows. */
  lemma Exits(p: Program, r: Outcome, st: State, n: nat, l: Place, off: nat, off': nat, fuel: nat)
    requires Ends(p, r, st, n, l, off, fuel) && !r.Fell?
    ensures Ends(p, r, st, n, l, off', fuel)
  {
  }

  lemma Falls(p: Program, r: Outcome, st: State, n: nat, l: Place, off: nat, fuel: nat)
    requires r.Fell?
    ensures Ends(p, r, st, n, l, off, fuel) <==> Here(Run(p, st, n), l.(off := off), r.ds, r.vals)
  {
  }

  lemma OutOfFuel(p: Program, st: State, n: nat, l: Place, off: nat, ds: seq<u32>, vals: seq<u32>)
    requires Here(Run(p, st, n), l, ds, vals)
    ensures Ends(p, Timeout, st, n, l, off, 0)
  {
  }

  lemma GoesWrong(p: Program, st: State, n: nat, l: Place, off: nat, fuel: nat)
    requires Run(p, st, n) == Stuck
    ensures Ends(p, Wrong, st, n, l, off, fuel)
  {
  }

  /** Compiled code does what the statement means. */
  lemma {:induction false} Runs(x: World, s: Stmt, fuel: nat, l: Place, ds: seq<u32>, vals: seq<u32>,
      st: State) returns (n: nat)
    requires Starts(x, s, l, ds, vals, st)
    ensures Agrees(x, s, fuel, l, ds, vals, st, n)
    decreases fuel, s, 1
  {
    hide WorldOk, Stands, Step;
    match s
    case Skip => n := 0;
    case Basic(op) => n := RunsBasic(x, s, fuel, l, ds, vals, st);
    case Then(a, b) => n := RunsThen(x, s, fuel, l, ds, vals, st);
    case If(b) => n := RunsIf(x, s, fuel, l, ds, vals, st);
    case IfNot(b) => n := RunsIf(x, s, fuel, l, ds, vals, st);
    case IfElse(a, b) => n := RunsIfElse(x, s, fuel, l, ds, vals, st);
    case Ahead(b) =>
      StandsParts(x.p, l.w, l.off, [Jump(|Comp(b)|)], Comp(b));
      Leap(x.p, l, |Comp(b)|, ds, vals, st, 0);
      n := 1;
    case Until(b) => n := RunsUntil(x, s, fuel, l, ds, vals, st);
    case UntilNot(b) => n := RunsUntil(x, s, fuel, l, ds, vals, st);
    case Again(b) => n := RunsAgain(x, s, fuel, l, ds, vals, st);
    case While(c, b) => n := RunsWhile(x, s, fuel, l, ds, vals, st);
  }

  /** Run `s` from where the CPU is after `n` steps. */
  lemma {:induction false} Continue(x: World, s: Stmt, fuel: nat, l: Place, ds: seq<u32>, vals: seq<u32>, st: State,
      n: nat, more: nat)
    returns (n': nat)
    requires WorldOk(x) && s.Plain() && Stands(x.p, l.w, l.off, Comp(s)) && Here(Run(x.p, st, n), l, ds, vals)
    requires more <= fuel + n
    ensures Ends(x.p, Eval(x, s, fuel, ds, vals), st, n', l, l.off + |Comp(s)|, more)
    ensures n' >= n
    decreases fuel, s, 2
  {
    hide WorldOk, Stands, Step, Run, At, Lands, Eval;
    var m := Runs(x, s, fuel, l, ds, vals, Run(x.p, st, n));
    n' := n + m;
    After(x.p, Eval(x, s, fuel, ds, vals), st, n, m, l, l.off + |Comp(s)|, fuel, more);
  }

  lemma ThenShape(x: World, s: Stmt, l: Place)
    requires s.Then? && s.Plain() && Stands(x.p, l.w, l.off, Comp(s))
    ensures Stands(x.p, l.w, l.off, Comp(s.first)) && Stands(x.p, l.w, l.off + |Comp(s.first)|, Comp(s.next))
    ensures |Comp(s)| == |Comp(s.first)| + |Comp(s.next)|
    ensures s.first.Plain() && s.next.Plain()
  {
    hide Stands, Comp;
    CompTwo(s);
    StandsParts(x.p, l.w, l.off, Comp(s.first), Comp(s.next));
  }

  function IfOp(s: Stmt): Opcode
    requires s.If? || s.IfNot?
  {
    if s.If? then JumpIfNot(|Comp(s.body)|) else JumpIf(|Comp(s.body)|)
  }

  lemma IfShape(x: World, s: Stmt, l: Place)
    requires (s.If? || s.IfNot?) && s.Plain() && Stands(x.p, l.w, l.off, Comp(s))
    ensures Stands(x.p, l.w, l.off, [IfOp(s)]) && Stands(x.p, l.w, l.off + 1, Comp(s.body))
    ensures |Comp(s)| == 1 + |Comp(s.body)| && s.body.Plain()
  {
    hide Stands, Comp;
    CompTwo(s);
    StandsParts(x.p, l.w, l.off, [IfOp(s)], Comp(s.body));
  }

  lemma IfElseShape(x: World, s: Stmt, l: Place)
    requires s.IfElse? && s.Plain() && Stands(x.p, l.w, l.off, Comp(s))
    ensures var na, nb := |Comp(s.yes)|, |Comp(s.no)|;
            Stands(x.p, l.w, l.off, [JumpIfNot(na + 1)]) && Stands(x.p, l.w, l.off + 1, Comp(s.yes))
            && Stands(x.p, l.w, l.off + 1 + na, [Jump(nb)]) && Stands(x.p, l.w, l.off + 2 + na, Comp(s.no))
            && |Comp(s)| == na + nb + 2 && s.yes.Plain() && s.no.Plain()
  {
    hide Stands, Cat, Comp;
    CompFour(s);
    var ca, cb := Comp(s.yes), Comp(s.no);
    StandsFour(x.p, l.w, l.off, [JumpIfNot(|ca| + 1)], ca, [Jump(|cb|)], cb);
  }

  function LoopOp(s: Stmt): Opcode
    requires s.Until? || s.UntilNot? || s.Again?
  {
    var d := -|Comp(s.body)| - 1;
    if s.Until? then JumpIfNot(d) else if s.UntilNot? then JumpIf(d) else Jump(d)
  }

  lemma LoopShape(x: World, s: Stmt, l: Place)
    requires (s.Until? || s.UntilNot? || s.Again?) && s.Plain() && Stands(x.p, l.w, l.off, Comp(s))
    ensures Stands(x.p, l.w, l.off, Comp(s.body)) && Stands(x.p, l.w, l.off + |Comp(s.body)|, [LoopOp(s)])
    ensures |Comp(s)| == |Comp(s.body)| + 1 && s.body.Plain()
  {
    hide Stands, Comp;
    CompTwo(s);
    StandsParts(x.p, l.w, l.off, Comp(s.body), [LoopOp(s)]);
  }

  lemma CompFour(s: Stmt)
    ensures s.IfElse? ==> Comp(s) == Cat([JumpIfNot(|Comp(s.yes)| + 1)], Comp(s.yes), [Jump(|Comp(s.no)|)], Comp(s.no))
    ensures s.While? ==>
              Comp(s) == Cat(Comp(s.test), [JumpIfNot(|Comp(s.body)| + 1)], Comp(s.body),
                             [Jump(-|Comp(s.test)| - |Comp(s.body)| - 2)])
  {
  }

  lemma CompTwo(s: Stmt)
    ensures s.Skip? ==> Comp(s) == []
    ensures s.Basic? ==> Comp(s) == [s.op]
    ensures s.Then? ==> Comp(s) == Comp(s.first) + Comp(s.next)
    ensures s.If? || s.IfNot? ==> Comp(s) == [IfOp(s)] + Comp(s.body)
    ensures s.Ahead? ==> Comp(s) == [Jump(|Comp(s.body)|)] + Comp(s.body)
    ensures s.Until? || s.UntilNot? || s.Again? ==> Comp(s) == Comp(s.body) + [LoopOp(s)]
  {
  }

  lemma WhileShape(x: World, s: Stmt, l: Place)
    requires s.While? && s.Plain() && Stands(x.p, l.w, l.off, Comp(s))
    ensures var nc, nb := |Comp(s.test)|, |Comp(s.body)|;
            Stands(x.p, l.w, l.off, Comp(s.test)) && Stands(x.p, l.w, l.off + nc, [JumpIfNot(nb + 1)])
            && Stands(x.p, l.w, l.off + nc + 1, Comp(s.body))
            && Stands(x.p, l.w, l.off + nc + 1 + nb, [Jump(-nc - nb - 2)])
            && |Comp(s)| == nc + nb + 2 && s.test.Plain() && s.body.Plain()
  {
    hide Stands, Cat, Comp;
    CompFour(s);
    var cc, cb := Comp(s.test), Comp(s.body);
    var op, jump := JumpIfNot(|cb| + 1), Jump(-|cc| - |cb| - 2);
    StandsFour(x.p, l.w, l.off, cc, [op], cb, [jump]);
  }

  lemma {:induction false} RunsThen(x: World, s: Stmt, fuel: nat, l: Place, ds: seq<u32>, vals: seq<u32>,
      st: State) returns (n: nat)
    requires Starts(x, s, l, ds, vals, st) && s.Then?
    ensures Agrees(x, s, fuel, l, ds, vals, st, n)
    decreases fuel, s, 0
  {
    hide WorldOk, Stands, Step, Run, At, Ends, Comp, Stmt.Plain;
    var off := l.off + |Comp(s.first)|;
    ThenShape(x, s, l);
    n := Runs(x, s.first, fuel, l, ds, vals, st);
    var r := Eval(x, s.first, fuel, ds, vals);
    if r.Fell? {
      Falls(x.p, r, st, n, l, off, fuel);
      n := Continue(x, s.next, fuel, l.(off := off), r.ds, r.vals, st, n, fuel);
      EndsPlace(x.p, Eval(x, s.next, fuel, r.ds, r.vals), st, n, l, off, off + |Comp(s.next)|, fuel);
    } else {
      Exits(x.p, r, st, n, l, off, l.off + |Comp(s)|, fuel);
    }
  }

  /** The offset of the place itself plays no part. */
  lemma EndsPlace(p: Program, r: Outcome, st: State, n: nat, l: Place, off: nat, off': nat, fuel: nat)
    ensures Ends(p, r, st, n, l.(off := off), off', fuel) <==> Ends(p, r, st, n, l, off', fuel)
  {
  }

  lemma Begin(p: Program, l: Place, ds: seq<u32>, vals: seq<u32>, st: State)
    requires Here(st, l, ds, vals)
    ensures Here(Run(p, st, 0), l, ds, vals)
  {
  }

  lemma {:induction false} RunsIf(x: World, s: Stmt, fuel: nat, l: Place, ds: seq<u32>, vals: seq<u32>,
      st: State) returns (n: nat)
    requires Starts(x, s, l, ds, vals, st) && (s.If? || s.IfNot?)
    ensures Agrees(x, s, fuel, l, ds, vals, st, n)
    decreases fuel, s, 0
  {
    hide WorldOk, Stands, Step, Run, At, Ends, Comp, Stmt.Plain;
    var b := s.body;
    var end := l.off + |Comp(s)|;
    var op := IfOp(s);
    IfShape(x, s, l);
    Begin(x.p, l, ds, vals, st);
    Branch(x.p, l, op, ds, vals, st, 0);
    n := 1;
    if ds == [] {
      GoesWrong(x.p, st, n, l, end, fuel);
    } else if (Top1(ds) != 0) == s.If? {
      n := Continue(x, b, fuel, l.(off := l.off + 1), Pop1(ds), vals, st, n, fuel);
      EndsPlace(x.p, Eval(x, b, fuel, Pop1(ds), vals), st, n, l, l.off + 1, end, fuel);
    } else {
      Falls(x.p, Fell(Pop1(ds), vals), st, n, l, end, fuel);
    }
  }

  lemma {:induction false} RunsIfElse(x: World, s: Stmt, fuel: nat, l: Place, ds: seq<u32>, vals: seq<u32>,
      st: State) returns (n: nat)
    requires Starts(x, s, l, ds, vals, st) && s.IfElse?
    ensures Agrees(x, s, fuel, l, ds, vals, st, n)
    decreases fuel, s, 0
  {
    hide WorldOk, Stands, Step, Run, At, Ends, Comp, Stmt.Plain;
    var ca, cb := Comp(s.yes), Comp(s.no);
    var end := l.off + |Comp(s)|;
    IfElseShape(x, s, l);
    Begin(x.p, l, ds, vals, st);
    Branch(x.p, l, JumpIfNot(|ca| + 1), ds, vals, st, 0);
    n := 1;
    if ds == [] {
      GoesWrong(x.p, st, n, l, end, fuel);
    } else if Top1(ds) == 0 {
      n := Continue(x, s.no, fuel, l.(off := l.off + 2 + |ca|), Pop1(ds), vals, st, n, fuel);
      EndsPlace(x.p, Eval(x, s.no, fuel, Pop1(ds), vals), st, n, l, l.off + 2 + |ca|, end, fuel);
    } else {
      var mid := l.off + 1 + |ca|;
      n := Continue(x, s.yes, fuel, l.(off := l.off + 1), Pop1(ds), vals, st, n, fuel);
      var r := Eval(x, s.yes, fuel, Pop1(ds), vals);
      EndsPlace(x.p, r, st, n, l, l.off + 1, mid, fuel);
      if r.Fell? {
        Falls(x.p, r, st, n, l, mid, fuel);
        Leap(x.p, l.(off := mid), |cb|, r.ds, r.vals, st, n);
        n := n + 1;
        Falls(x.p, r, st, n, l, end, fuel);
      } else {
        Exits(x.p, r, st, n, l, mid, end, fuel);
      }
    }
  }

  lemma {:induction false} RunsUntil(x: World, s: Stmt, fuel: nat, l: Place, ds: seq<u32>, vals: seq<u32>,
      st: State) returns (n: nat)
    requires Starts(x, s, l, ds, vals, st) && (s.Until? || s.UntilNot?)
    ensures Agrees(x, s, fuel, l, ds, vals, st, n)
    decreases fuel, s, 0
  {
    hide WorldOk, Stands, Step, Run, At, Ends, Comp, Stmt.Plain;
    var b := s.body;
    var cb := Comp(b);
    var end := l.off + |Comp(s)|;
    var op := LoopOp(s);
    LoopShape(x, s, l);
    n := Runs(x, b, fuel, l, ds, vals, st);
    var r := Eval(x, b, fuel, ds, vals);
    if !r.Fell? {
      Exits(x.p, r, st, n, l, l.off + |cb|, end, fuel);
    } else {
      Falls(x.p, r, st, n, l, l.off + |cb|, fuel);
      Branch(x.p, l.(off := l.off + |cb|), op, r.ds, r.vals, st, n);
      n := n + 1;
      if r.ds == [] {
        GoesWrong(x.p, st, n, l, end, fuel);
      } else if (Top1(r.ds) != 0) == s.Until? {
        Falls(x.p, Fell(Pop1(r.ds), r.vals), st, n, l, end, fuel);
      } else {
        n := Repeat(x, s, fuel, l, Pop1(r.ds), r.vals, st, n);
      }
    }
  }

  /** Back at the start of a loop after at least one step. */
  lemma {:induction false} Repeat(x: World, s: Stmt, fuel: nat, l: Place, ds: seq<u32>, vals: seq<u32>, st: State,
      n: nat) returns (n': nat)
    requires WorldOk(x) && s.Plain() && Stands(x.p, l.w, l.off, Comp(s)) && Here(Run(x.p, st, n), l, ds, vals) && n >= 1
    ensures var r := if fuel == 0 then Timeout else Eval(x, s, fuel - 1, ds, vals);
            Ends(x.p, r, st, n', l, l.off + |Comp(s)|, fuel)
    decreases fuel, s, 0, 0
  {
    hide WorldOk, Stands, Step, Run, At, Ends, Eval, Comp, Stmt.Plain;
    if fuel == 0 {
      n' := n;
      OutOfFuel(x.p, st, n, l, l.off + |Comp(s)|, ds, vals);
    } else {
      n' := Continue(x, s, fuel - 1, l, ds, vals, st, n, fuel);
    }
  }

  lemma {:induction false} RunsAgain(x: World, s: Stmt, fuel: nat, l: Place, ds: seq<u32>, vals: seq<u32>,
      st: State) returns (n: nat)
    requires Starts(x, s, l, ds, vals, st) && s.Again?
    ensures Agrees(x, s, fuel, l, ds, vals, st, n)
    decreases fuel, s, 0
  {
    hide WorldOk, Stands, Step, Run, At, Ends, Comp, Stmt.Plain;
    var cb := Comp(s.body);
    LoopShape(x, s, l);
    n := Runs(x, s.body, fuel, l, ds, vals, st);
    var r := Eval(x, s.body, fuel, ds, vals);
    if !r.Fell? {
      Exits(x.p, r, st, n, l, l.off + |cb|, l.off + |Comp(s)|, fuel);
    } else {
      Falls(x.p, r, st, n, l, l.off + |cb|, fuel);
      Leap(x.p, l.(off := l.off + |cb|), -|cb| - 1, r.ds, r.vals, st, n);
      n := Repeat(x, s, fuel, l, r.ds, r.vals, st, n + 1);
    }
  }

  lemma {:induction false} RunsWhile(x: World, s: Stmt, fuel: nat, l: Place, ds: seq<u32>, vals: seq<u32>,
      st: State) returns (n: nat)
    requires Starts(x, s, l, ds, vals, st) && s.While?
    ensures Agrees(x, s, fuel, l, ds, vals, st, n)
    decreases fuel, s, 0
  {
    hide WorldOk, Stands, Step, Run, At, Ends, Comp, Stmt.Plain;
    var cc, cb := Comp(s.test), Comp(s.body);
    var end := l.off + |Comp(s)|;
    var op, jump := JumpIfNot(|cb| + 1), Jump(-|cc| - |cb| - 2);
    WhileShape(x, s, l);
    n := Runs(x, s.test, fuel, l, ds, vals, st);
    var r := Eval(x, s.test, fuel, ds, vals);
    if !r.Fell? {
      Exits(x.p, r, st, n, l, l.off + |cc|, end, fuel);
    } else {
      Falls(x.p, r, st, n, l, l.off + |cc|, fuel);
      Branch(x.p, l.(off := l.off + |cc|), op, r.ds, r.vals, st, n);
      n := n + 1;
      if r.ds == [] {
        GoesWrong(x.p, st, n, l, end, fuel);
      } else if Top1(r.ds) == 0 {
        Falls(x.p, Fell(Pop1(r.ds), r.vals), st, n, l, end, fuel);
      } else {
        n := RunsRest(x, s, fuel, l, Pop1(r.ds), r.vals, st, n);
      }
    }
  }

  /** The body of a while loop and what follows it. */
  lemma {:induction false} RunsRest(x: World, s: Stmt, fuel: nat, l: Place, ds: seq<u32>, vals: seq<u32>, st: State,
      n: nat) returns (n': nat)
    requires WorldOk(x) && s.Plain() && Stands(x.p, l.w, l.off, Comp(s)) && s.While? && n >= 1
    requires Here(Run(x.p, st, n), l.(off := l.off + |Comp(s.test)| + 1), ds, vals)
    ensures var r2 := Eval(x, s.body, fuel, ds, vals);
            var r3 := if !r2.Fell? then r2 else if fuel == 0 then Timeout else Eval(x, s, fuel - 1, r2.ds, r2.vals);
            Ends(x.p, r3, st, n', l, l.off + |Comp(s)|, fuel)
    decreases fuel, s, 0, 1
  {
    hide WorldOk, Stands, Step, Run, At, Ends, Eval, Comp, Stmt.Plain;
    var cc, cb := Comp(s.test), Comp(s.body);
    var op, jump := JumpIfNot(|cb| + 1), Jump(-|cc| - |cb| - 2);
    WhileShape(x, s, l);
    var mid := l.off + |cc| + 1;
    n' := Continue(x, s.body, fuel, l.(off := mid), ds, vals, st, n, fuel);
    var r := Eval(x, s.body, fuel, ds, vals);
    EndsPlace(x.p, r, st, n', l, mid, mid + |cb|, fuel);
    if !r.Fell? {
      Exits(x.p, r, st, n', l, mid + |cb|, l.off + |Comp(s)|, fuel);
    } else {
      Falls(x.p, r, st, n', l, mid + |cb|, fuel);
      Leap(x.p, l.(off := mid + |cb|), jump.disp, r.ds, r.vals, st, n');
      n' := Repeat(x, s, fuel, l, r.ds, r.vals, st, n' + 1);
    }
  }

  lemma {:induction false} RunsBasic(x: World, s: Stmt, fuel: nat, l: Place, ds: seq<u32>, vals: seq<u32>,
      st: State) returns (n: nat)
    requires Starts(x, s, l, ds, vals, st) && s.Basic?
    ensures Agrees(x, s, fuel, l, ds, vals, st, n)
    decreases fuel, s, 0
  {
    OpAt(x.p, l, s.op, ds, vals, st);
    if s.op.Call? && s.op.target < |x.p.words| && x.p.words[s.op.target].Interpreted? {
      n := RunsCall(x, s, fuel, l, ds, vals, st);
    } else {
      n := 1;
      assert Run(x.p, st, 1) == Run(x.p, Step(x.p, st), 0);
      assert Eval(x, s, fuel, ds, vals) == EvalBasic(x, s, s.op, fuel, ds, vals);
      if s.op.Call? {
        assert EvalBasic(x, s, s.op, fuel, ds, vals) == EvalCall(x, s, s.op.target, fuel, ds, vals);
      } else if s.op.PutLocal? && ds != [] && s.op.num < |vals| {
        assert Step(x.p, st).frames[..|l.frames|] == st.frames[..|l.frames|];
      }
    }
  }

  lemma {:induction false} RunsCall(x: World, s: Stmt, fuel: nat, l: Place, ds: seq<u32>, vals: seq<u32>,
      st: State) returns (n: nat)
    requires Starts(x, s, l, ds, vals, st) && s.Basic? && s.op.Call?
    requires s.op.target < |x.p.words| && x.p.words[s.op.target].Interpreted?
    ensures Agrees(x, s, fuel, l, ds, vals, st, n)
    decreases fuel, s, 0, 0
  {
    var t := s.op.target;
    var body := x.bodies[t];
    var frames := st.frames;
    OpAt(x.p, l, s.op, ds, vals, st);
    assert Eval(x, s, fuel, ds, vals) == EvalBasic(x, s, s.op, fuel, ds, vals) == EvalCall(x, s, t, fuel, ds, vals);
    if fuel == 0 {
      n := 0;
    } else {
      var l2 := Place(t, 0, frames, To(l.w, l.off + 1));
      var zeros := Zeros(x.p.words[t].numLocals);
      var st2 := Step(x.p, st);
      assert Here(st2, l2, ds, zeros) by {
        assert st2.frames[..|frames|] == frames;
      }
      var m := RunsWord(x, t, fuel - 1, l2, ds, zeros, st2);
      assert Run(x.p, st, 1) == Run(x.p, st2, 0) == st2;
      RunAdd(x.p, st, 1, m);
      n := 1 + m;
    }
  }

  /** A whole word: falling off the end of the body is returning. */
  lemma {:induction false} RunsWord(x: World, t: nat, fuel: nat, l: Place, ds: seq<u32>, vals: seq<u32>,
      st: State) returns (n: nat)
    requires WorldOk(x) && t < |x.p.words| && x.p.words[t].Interpreted? && l.w == t && l.off == 0
             && Here(st, l, ds, vals)
    ensures var r := Eval(x, x.bodies[t], fuel, ds, vals);
            if r.Fell? || r.Returned? then Run(x.p, st, n) == BackTo(r.ds, l.frames, l.back)
            else Ends(x.p, r, st, n, l, 0, fuel)
    decreases fuel, x.bodies[t], 2
  {
    var s := x.bodies[t];
    var r := Eval(x, s, fuel, ds, vals);
    var c := Comp(s);
    assert Stands(x.p, t, 0, c) by { assert Built(s)[..|c|] == c; }
    n := Runs(x, s, fuel, l, ds, vals, st);
    if r.Fell? {
      NeverFalls(x, s, fuel, ds, vals, true);
      assert x.p.words[t].code[|c|..|c| + 1] == [Ret];
      var st2 := Run(x.p, st, n);
      OpAt(x.p, l.(off := |c|), Ret, r.ds, r.vals, st2);
      assert Run(x.p, st2, 1) == Run(x.p, Step(x.p, st2), 0);
      RunAdd(x.p, st, n, 1);
      n := n + 1;
    }
  }

  lemma {:induction false} EmptyKeeps(s: Stmt, before: bool)
    requires Comp(s) == []
    ensures EndsAtTarget(s, before) == before
  {
    if s.Then? {
      EmptyKeeps(s.first, before);
      EmptyKeeps(s.next, before);
    }
  }

  lemma {:induction false} AgainNeverFalls(x: World, s: Stmt, fuel: nat, ds: seq<u32>, vals: seq<u32>)
    requires s.Again?
    ensures !Eval(x, s, fuel, ds, vals).Fell?
    decreases fuel
  {
    var r := Eval(x, s.body, fuel, ds, vals);
    if r.Fell? && fuel > 0 {
      AgainNeverFalls(x, s, fuel - 1, r.ds, r.vals);
    }
  }

  /** `Build` leaves out the final `ret` only where control never gets. */
  lemma {:induction false} NeverFalls(x: World, s: Stmt, fuel: nat, ds: seq<u32>, vals: seq<u32>, before: bool)
    requires s.Plain() && Eval(x, s, fuel, ds, vals).Fell?
    ensures EndsAtTarget(s, before) || Comp(s) == [] || Comp(s)[|Comp(s)| - 1].MayFallThrough()
    decreases s
  {
    if s.Then? {
      var r := Eval(x, s.first, fuel, ds, vals);
      NeverFalls(x, s.first, fuel, ds, vals, before);
      NeverFalls(x, s.next, fuel, r.ds, r.vals, EndsAtTarget(s.first, before));
      if Comp(s.next) == [] {
        EmptyKeeps(s.next, EndsAtTarget(s.first, before));
      }
    } else if s.Again? {
      AgainNeverFalls(x, s, fuel, ds, vals);
    }
  }

  /** The final states that a run of a whole word can reach. */
  function Final(r: Outcome): State
    requires !r.Timeout?
  {
    match r
    case Fell(ds, _) => Done(ds)
    case Returned(ds) => Done(ds)
    case Never => NoReturn
    case Wrong => Stuck
  }

  ghost predicate Reaches(x: World, t: nat, ds: seq<u32>, z: State)
    requires t < |x.p.words| && x.p.words[t].Interpreted?
  {
    exists n: nat :: Run(x.p, Start(x.p, t, ds), n) == z
  }

  ghost predicate Means(x: World, t: nat, ds: seq<u32>, z: State)
    requires t < |x.p.words| == |x.bodies| && x.p.words[t].Interpreted?
  {
    exists fuel: nat :: MeansIn(x, t, ds, z, fuel)
  }

  predicate MeansIn(x: World, t: nat, ds: seq<u32>, z: State, fuel: nat)
    requires t < |x.p.words| == |x.bodies| && x.p.words[t].Interpreted?
  {
    var r := Eval(x, x.bodies[t], fuel, ds, Zeros(x.p.words[t].numLocals));
    !r.Timeout? && Final(r) == z
  }

  /** A bounded evaluation of the word is matched by a run: the same end, or at least as many steps as fuel. */
  lemma RunsEntry(x: World, t: nat, fuel: nat, ds: seq<u32>) returns (n: nat)
    requires WorldOk(x) && t < |x.p.words| && x.p.words[t].Interpreted?
    ensures var r := Eval(x, x.bodies[t], fuel, ds, Zeros(x.p.words[t].numLocals));
            var z := Run(x.p, Start(x.p, t, ds), n);
            if r.Timeout? then n >= fuel && z.Running? else z == Final(r)
  {
    var l := Place(t, 0, [], Top);
    n := RunsWord(x, t, fuel, l, ds, Zeros(x.p.words[t].numLocals), Start(x.p, t, ds));
  }

  /** Compilation of control flow is correct both ways: the CPU ends where the structured program ends. */
  lemma ControlFlowPreservesMeaning(x: World, t: nat, ds: seq<u32>, z: State)
    requires WorldOk(x) && t < |x.p.words| && x.p.words[t].Interpreted? && !z.Running?
    ensures Reaches(x, t, ds, z) <==> Means(x, t, ds, z)
  {
    var s := Start(x.p, t, ds);
    if Reaches(x, t, ds, z) {
      var n: nat :| Run(x.p, s, n) == z;
      var m := RunsEntry(x, t, n, ds);
      FinalOnce(x.p, s, n, if m < n then n else m);
      if m < n { FinalOnce(x.p, s, m, n); }
      assert MeansIn(x, t, ds, z, n);
    }
    if Means(x, t, ds, z) {
      var fuel: nat :| MeansIn(x, t, ds, z, fuel);
      var m := RunsEntry(x, t, fuel, ds);
      assert Run(x.p, s, m) == z;
    }
  }

  /** The leaves are acceptable opcodes: known words, known locals, 32-bit constants. */
  predicate LeavesOk(p: Program, nl: nat, s: Stmt) {
    match s
    case Skip => true
    case Basic(op) => !op.IsJump() && OpcodeOk(p, nl, op, 0, 0)
    case Then(a, b) => LeavesOk(p, nl, a) && LeavesOk(p, nl, b)
    case IfElse(a, b) => LeavesOk(p, nl, a) && LeavesOk(p, nl, b)
    case While(a, b) => LeavesOk(p, nl, a) && LeavesOk(p, nl, b)
    case _ => LeavesOk(p, nl, s.body)
  }

  /** Every opcode is acceptable in a piece of code of which `hi` is the last offset that a jump may reach. */
  predicate Fine(p: Program, nl: nat, c: seq<Opcode>, hi: int) {
    forall i :: 0 <= i < |c| ==> OpcodeOk(p, nl, c[i], i, if hi >= 0 then hi + 1 else 0)
  }

  lemma FineCat(p: Program, nl: nat, a: seq<Opcode>, ha: int, b: seq<Opcode>, hb: int, h: int)
    requires Fine(p, nl, a, ha) && Fine(p, nl, b, hb) && ha <= h && |a| + hb <= h
    ensures Fine(p, nl, a + b, h)
  {
    forall i | 0 <= i < |a + b| ensures OpcodeOk(p, nl, (a + b)[i], i, if h >= 0 then h + 1 else 0) {
      if i < |a| {
        assert (a + b)[i] == a[i] && OpcodeOk(p, nl, a[i], i, if ha >= 0 then ha + 1 else 0);
      } else {
        assert (a + b)[i] == b[i - |a|] && OpcodeOk(p, nl, b[i - |a|], i - |a|, if hb >= 0 then hb + 1 else 0);
      }
    }
  }

  lemma {:induction false} EndsMonotone(s: Stmt, a: bool, b: bool)
    requires EndsAtTarget(s, a) && (a ==> b)
    ensures EndsAtTarget(s, b)
  {
    if s.Then? {
      if EndsAtTarget(s.first, a) { EndsMonotone(s.first, a, b); }
      EndsMonotone(s.next, EndsAtTarget(s.first, a), EndsAtTarget(s.first, b));
    }
  }

  /** The last offset that a jump inside the compiled form may reach. */
  function Reach(s: Stmt): int {
    |Comp(s)| - if EndsAtTarget(s, false) then 0 else 1
  }

  lemma {:induction false} CompFine(p: Program, nl: nat, s: Stmt)
    requires LeavesOk(p, nl, s)
    ensures Fine(p, nl, Comp(s), Reach(s))
  {
    hide Fine, Comp;
    match s
    case Skip => LeafFine(p, nl, s);
    case Basic(op) => LeafFine(p, nl, s);
    case Then(a, b) =>
      CompFine(p, nl, a);
      CompFine(p, nl, b);
      ThenFine(p, nl, s);
    case IfElse(a, b) =>
      CompFine(p, nl, a);
      CompFine(p, nl, b);
      FourFine(p, nl, s);
    case While(a, b) =>
      CompFine(p, nl, a);
      CompFine(p, nl, b);
      FourFine(p, nl, s);
    case _ =>
      CompFine(p, nl, s.body);
      OneFine(p, nl, s);
  }

  lemma LeafFine(p: Program, nl: nat, s: Stmt)
    requires LeavesOk(p, nl, s) && (s.Skip? || s.Basic?)
    ensures Fine(p, nl, Comp(s), Reach(s))
  {
  }

  lemma ThenFine(p: Program, nl: nat, s: Stmt)
    requires s.Then? && Fine(p, nl, Comp(s.first), Reach(s.first)) && Fine(p, nl, Comp(s.next), Reach(s.next))
    ensures Fine(p, nl, Comp(s), Reach(s))
  {
    hide Fine, Comp;
    CompTwo(s);
    var a, b := s.first, s.next;
    if Comp(b) == [] {
      EmptyKeeps(b, EndsAtTarget(a, false));
      assert Comp(s) == Comp(a);
    } else {
      if EndsAtTarget(b, false) { EndsMonotone(b, false, EndsAtTarget(a, false)); }
      FineCat(p, nl, Comp(a), Reach(a), Comp(b), Reach(b), Reach(s));
    }
  }

  lemma OpFine(p: Program, nl: nat, op: Opcode, hi: int)
    requires op.IsJump() && 0 <= 1 + op.disp <= hi
    ensures Fine(p, nl, [op], hi)
  {
  }

  lemma BackFine(p: Program, nl: nat, c: seq<Opcode>, hi: int, op: Opcode, h: nat)
    requires Fine(p, nl, c, hi) && hi <= h && op.IsJump() && 0 <= |c| + 1 + op.disp <= h
    ensures Fine(p, nl, c + [op], h)
  {
    forall i | 0 <= i < |c + [op]| ensures OpcodeOk(p, nl, (c + [op])[i], i, h + 1) {
      if i < |c| {
        assert (c + [op])[i] == c[i] && OpcodeOk(p, nl, c[i], i, if hi >= 0 then hi + 1 else 0);
      }
    }
  }

  lemma OneFine(p: Program, nl: nat, s: Stmt)
    requires s.If? || s.IfNot? || s.Ahead? || s.Until? || s.UntilNot? || s.Again?
    requires Fine(p, nl, Comp(s.body), Reach(s.body))
    ensures Fine(p, nl, Comp(s), Reach(s))
  {
    hide Fine, Comp;
    CompTwo(s);
    var cb := Comp(s.body);
    if s.Until? || s.UntilNot? || s.Again? {
      BackFine(p, nl, cb, Reach(s.body), LoopOp(s), |cb|);
    } else {
      var op := if s.Ahead? then Jump(|cb|) else IfOp(s);
      OpFine(p, nl, op, |cb| + 1);
      FineCat(p, nl, [op], |cb| + 1, cb, Reach(s.body), |cb| + 1);
    }
  }

  lemma FourFine(p: Program, nl: nat, s: Stmt)
    requires s.IfElse? || s.While?
    requires s.IfElse? ==> Fine(p, nl, Comp(s.yes), Reach(s.yes)) && Fine(p, nl, Comp(s.no), Reach(s.no))
    requires s.While? ==> Fine(p, nl, Comp(s.test), Reach(s.test)) && Fine(p, nl, Comp(s.body), Reach(s.body))
    ensures Fine(p, nl, Comp(s), Reach(s))
  {
    hide Fine, Comp;
    CompFour(s);
    if s.IfElse? {
      var ca, cb := Comp(s.yes), Comp(s.no);
      var n := |ca| + |cb| + 2;
      var op, jump := JumpIfNot(|ca| + 1), Jump(|cb|);
      OpFine(p, nl, op, |ca| + 2);
      FineCat(p, nl, [op], |ca| + 2, ca, Reach(s.yes), |ca| + 2);
      OpFine(p, nl, jump, |cb| + 1);
      FineCat(p, nl, [op] + ca, |ca| + 2, [jump], |cb| + 1, n);
      FineCat(p, nl, [op] + ca + [jump], n, cb, Reach(s.no), n);
    } else {
      var cc, cb := Comp(s.test), Comp(s.body);
      var op, jump := JumpIfNot(|cb| + 1), Jump(-|cc| - |cb| - 2);
      OpFine(p, nl, op, |cb| + 2);
      var n := |cc| + |cb| + 2;
      FineCat(p, nl, cc, Reach(s.test), [op], |cb| + 2, n);
      FineCat(p, nl, cc + [op], n, cb, Reach(s.body), n);
      BackFine(p, nl, cc + [op] + cb, n, jump, n);
    }
  }

  /** Built code is acceptable: every jump was resolved to an existing opcode and control never runs off the end. */
  lemma BuiltOk(p: Program, nl: nat, s: Stmt)
    requires LeavesOk(p, nl, s)
    ensures CodeOk(p, nl, Built(s))
  {
    hide Comp;
    CompFine(p, nl, s);
    var c := Comp(s);
    if EndsAtTarget(s, false) { EndsMonotone(s, false, true); }
    if NeedsRet(s) {
      assert Fine(p, nl, [Ret], 0);
      FineCat(p, nl, c, Reach(s), [Ret], 0, |c|);
    } else {
      assert Built(s) == c;
    }
  }
}
