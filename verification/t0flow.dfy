/** Flow analysis, bearssl-0.5/T0/WordInterpreted.cs: stack depths by abstract interpretation. */
module T0Flow {
  import opened StackEffects
  import opened T0Machine
  import V = T0Vm
  import SevenE

  /** Depth relative to the entry of the word; unknown until the offset is reached. */
  datatype Depth = Unknown | Known(d: int)

  function Min(a: int, b: int): int { if a < b then a else b }
  function Max(a: int, b: int): int { if a > b then a else b }

  /** The properties of words that the analysis reads and sets. */
  datatype Props = Props(effect: seq<SType>, maxData: seq<int>, maxRet: seq<int>)

  /** Net growth of a call. */
  function Delta(se: SType): int { se.dout - se.din }

  /** `MaxDataStack` of a word without code: the source takes the minimum. */
  function NativeMaxData(se: SType): int {
    if !se.IsKnown() then -1 else if se.NoExit() then 0 else Min(0, Delta(se))
  }

  ghost predicate PropsOk(p: Program, q: Props) {
    |q.effect| == |q.maxData| == |q.maxRet| == |p.words|
    && forall w :: 0 <= w < |p.words| && p.words[w].Native? ==>
         q.effect[w] == p.words[w].effect && q.maxData[w] == NativeMaxData(q.effect[w]) && q.maxRet[w] == 0
  }

  /** What the analysis establishes about a word: depths, lowest depth, exit depth and the two maxima. */
  datatype Summary = Summary(sa: seq<Depth>, floor: int, exit: Depth, mds: int, mrs: int)

  predicate SaIs(sa: seq<Depth>, j: int, c: int) {
    0 <= j < |sa| && sa[j] == Known(c)
  }

  /** The opcode at `off`, entered at the recorded depth, leaves every successor at its recorded depth. */
  ghost predicate OpOk(p: Program, q: Props, code: seq<Opcode>, m: Summary, off: nat)
    requires PropsOk(p, q) && off < |code| == |m.sa| && m.sa[off].Known?
  {
    var c := m.sa[off].d;
    var op := code[off];
    if op.Call? then
      op.target < |p.words| && var se := q.effect[op.target];
      se.IsKnown() && m.floor <= c - se.din
      && c + q.maxData[op.target] <= m.mds && q.maxRet[op.target] <= m.mrs
      && (!se.NoExit() ==> SaIs(m.sa, off + 1, c + Delta(se)) && m.floor <= c + Delta(se))
    else if op.Ret? then m.exit == Known(c)
    else
      var c' := c + op.StackAction();
      m.floor <= c' <= m.mds
      && (op.JumpDisp() != 0 ==> SaIs(m.sa, off + 1 + op.JumpDisp(), c'))
      && (op.MayFallThrough() ==> SaIs(m.sa, off + 1, c'))
  }

  ghost predicate SummaryOk(p: Program, q: Props, code: seq<Opcode>, m: Summary)
    requires PropsOk(p, q)
  {
    |m.sa| == |code| && SaIs(m.sa, 0, 0) && m.floor <= 0 <= m.mds && 0 <= m.mrs
    && (m.exit.Known? ==> m.floor <= m.exit.d)
    && (forall off :: 0 <= off < |code| && m.sa[off].Known? ==> m.floor <= m.sa[off].d && OpOk(p, q, code, m, off))
  }

  /**
   * A stack effect fits what a word does: it takes at least what the word reaches down to, and if the word returns,
   * it leaves what is there then. A word that never returns may announce any number of results.
   */
  predicate EffectFits(se: SType, floor: int, exit: Depth) {
    se.din >= 0 && -se.din <= floor && (exit.Known? ==> se.dout >= 0 && exit.d == se.dout - se.din)
  }

  /** A sub-effect is one whose every word the other fits too. */
  lemma SubEffectMeans(a: SType, b: SType)
    ensures a.IsSubOf(b) <==>
              a.IsKnown() && forall floor: int, exit: Depth :: EffectFits(a, floor, exit) ==> EffectFits(b, floor, exit)
  {
    if a.IsKnown() && forall floor: int, exit: Depth :: EffectFits(a, floor, exit) ==> EffectFits(b, floor, exit) {
      var exit := if a.dout < 0 then Unknown else Known(a.dout - a.din);
      assert EffectFits(a, -a.din, exit);
      assert EffectFits(b, -a.din, exit);
    }
  }

  /** A word without code is counted with the lower of the depths before and after it. */
  lemma NativeLower(se: SType)
    requires se.IsKnown() && !se.NoExit()
    ensures NativeMaxData(se) <= 0 && NativeMaxData(se) <= se.dout - se.din
    ensures NativeMaxData(se) == 0 || NativeMaxData(se) == se.dout - se.din
  {
  }

  /** An accepted word: its summary holds and its properties follow from it. */
  ghost predicate Accepted(p: Program, q: Props, w: nat, m: Summary)
    requires PropsOk(p, q)
  {
    w < |p.words| && p.words[w].Interpreted?
    && SummaryOk(p, q, p.words[w].code, m)
    && q.maxData[w] == m.mds && q.maxRet[w] == 1 + p.words[w].numLocals + m.mrs
    && EffectFits(q.effect[w], m.floor, m.exit)
  }

  /** Every interpreted word called at a reached offset is among `before`. */
  ghost predicate CalleesIn(p: Program, code: seq<Opcode>, m: Summary, before: seq<nat>) {
    |m.sa| == |code|
    && forall off :: 0 <= off < |code| && m.sa[off].Known? && code[off].Call? ==>
         code[off].target < |p.words| && (p.words[code[off].target].Interpreted? ==> code[off].target in before)
  }

  /** Accepted words in the order they were finished: each calls only words finished before it. */
  ghost predicate AllAccepted(p: Program, q: Props, order: seq<nat>, sums: map<nat, Summary>) {
    PropsOk(p, q)
    && forall k :: 0 <= k < |order| ==> AcceptedAt(p, q, order, sums, k)
  }

  ghost predicate AcceptedAt(p: Program, q: Props, order: seq<nat>, sums: map<nat, Summary>, k: nat)
    requires PropsOk(p, q) && k < |order|
  {
    var w := order[k];
    w in sums && Accepted(p, q, w, sums[w]) && CalleesIn(p, p.words[w].code, sums[w], order[..k])
  }

  /** C-coded words respect their declared effect, and none grows the stack by more than `G`. */
  ghost predicate NativesRespect(p: Program, G: nat) {
    forall w :: 0 <= w < |p.words| && p.words[w].Native? ==> NativeRespects(p, p.words[w], G)
  }

  ghost predicate NativeRespects(p: Program, w: Word, G: nat)
    requires w.Native?
  {
    w.ccode in p.prims && PrimOk(p.prims[w.ccode])
    && (w.effect.IsKnown() ==>
          MakeSType(p.prims[w.ccode].din, p.prims[w.ccode].dout).IsSubOf(w.effect)
          && (!w.effect.NoExit() ==> Delta(w.effect) <= G))
  }

  /** What stays fixed while a word runs: the facts, the entry word, and the three limits. */
  datatype Run0 = Run0(p: Program, q: Props, order: seq<nat>, sums: map<nat, Summary>, t0: nat, lo: nat, D: int,
      R: int, G: nat)

  ghost predicate Setting(e: Run0) {
    ProgramOk(e.p) && AllAccepted(e.p, e.q, e.order, e.sums) && NativesRespect(e.p, e.G)
    && e.t0 in e.order && e.t0 < |e.p.words|
  }

  /** The word at (w, off) with `depth` elements on the stack is where its summary says, and so are its callers. */
  ghost predicate Typed(e: Run0, frames: seq<Frame>, w: nat, off: nat, depth: int)
    requires Setting(e)
    decreases |frames|
  {
    frames != [] && w in e.order && w in e.sums && V.InCode(e.p, w, off)
    && |e.sums[w].sa| == |e.p.words[w].code| && e.sums[w].sa[off].Known?
    && var base := depth - e.sums[w].sa[off].d;
       var top := |frames| - 1;
       var f := frames[top];
       var se := e.q.effect[w];
       e.lo <= base - se.din && base + e.q.maxData[w] <= e.D
       && |f.locals| == e.p.words[w].numLocals && V.ReturnUse(frames[..top]) + e.q.maxRet[w] <= e.R
       && (f.back.Top? <==> top == 0)
       && if top == 0 then w == e.t0 && base == e.lo + se.din
          else se.NoExit() || Typed(e, frames[..top], f.back.w, f.back.off, base + Delta(se))
  }

  /** A state of the run: typed and within limits, or finished with the announced result size. */
  ghost predicate StateOk(e: Run0, s: State)
    requires Setting(e)
  {
    match s
    case Running(w, off, ds, frames) =>
      Typed(e, frames, w, off, |ds|) && |ds| <= e.D + e.G && e.lo <= |ds| && V.ReturnUse(frames) <= e.R
    case Done(ds) => !e.q.effect[e.t0].NoExit() && |ds| == e.lo + e.q.effect[e.t0].dout
    case NoReturn => true
    case Stuck => false
  }

  lemma AcceptedWord(e: Run0, w: nat)
    requires Setting(e) && w in e.order
    ensures w in e.sums && Accepted(e.p, e.q, w, e.sums[w])
    ensures CalleesIn(e.p, e.p.words[w].code, e.sums[w], e.order)
  {
    var k :| 0 <= k < |e.order| && e.order[k] == w;
    assert AcceptedAt(e.p, e.q, e.order, e.sums, k);
  }

  /** The computed effect and the declared one agree on what matters. */
  lemma EffectCovers(e: Run0, w: nat)
    requires Setting(e) && w in e.order
    ensures w < |e.p.words| && w in e.sums && -e.sums[w].floor <= e.q.effect[w].din
    ensures e.sums[w].exit.Known? ==> !e.q.effect[w].NoExit() && e.sums[w].exit.d == Delta(e.q.effect[w])
  {
    AcceptedWord(e, w);
  }

  /** The current opcode and its facts. */
  lemma Here(e: Run0, frames: seq<Frame>, w: nat, off: nat, depth: int)
    requires Setting(e) && Typed(e, frames, w, off, depth)
    ensures frames != [] && w in e.sums && V.InCode(e.p, w, off)
    ensures |e.sums[w].sa| == |e.p.words[w].code| && e.sums[w].sa[off].Known? && PropsOk(e.p, e.q)
    ensures depth - e.sums[w].sa[off].d + e.sums[w].mds <= e.D
    ensures var m := e.sums[w];
            var code := e.p.words[w].code;
            OpOk(e.p, e.q, code, m, off) && m.floor <= m.sa[off].d
            && OpcodeOk(e.p, e.p.words[w].numLocals, code[off], off, |code|)
            && e.q.maxData[w] == m.mds && e.q.maxRet[w] == 1 + e.p.words[w].numLocals + m.mrs
            && e.lo <= depth - m.sa[off].d + m.floor
  {
    AcceptedWord(e, w);
    EffectCovers(e, w);
    assert WordOk(e.p, e.p.words[w]);
  }

  /** Moving inside a word keeps the typing when the new offset has its recorded depth. */
  lemma Move(e: Run0, frames: seq<Frame>, frames': seq<Frame>, w: nat, off: nat, depth: int, off': nat, depth': int)
    requires Setting(e) && Typed(e, frames, w, off, depth)
    requires |frames'| == |frames| > 0 && frames'[..|frames| - 1] == frames[..|frames| - 1]
    requires frames'[|frames| - 1].back == frames[|frames| - 1].back
    requires |frames'[|frames| - 1].locals| == |frames[|frames| - 1].locals|
    requires w in e.sums && off < |e.sums[w].sa| && e.sums[w].sa[off].Known?
    requires SaIs(e.sums[w].sa, off', e.sums[w].sa[off].d + depth' - depth)
    ensures Typed(e, frames', w, off', depth')
  {
  }

  lemma UseSame(frames: seq<Frame>, frames': seq<Frame>)
    requires |frames'| == |frames| > 0 && frames'[..|frames| - 1] == frames[..|frames| - 1]
    requires |frames'[|frames| - 1].locals| == |frames[|frames| - 1].locals|
    ensures V.ReturnUse(frames') == V.ReturnUse(frames)
  {
  }

  /** Two stacks that differ only in what lies below: `a` under the one, `b` under the other. */
  predicate Twin(x: seq<u32>, y: seq<u32>, a: seq<u32>, b: seq<u32>) {
    |a| <= |x| && |b| <= |y| && x[..|a|] == a && y[..|b|] == b && x[|a|..] == y[|b|..]
  }

  /** Two runs that differ only in what lies below. */
  predicate TwinStates(s: State, s': State, a: seq<u32>, b: seq<u32>) {
    match s
    case Running(w, off, ds, frames) =>
      s'.Running? && s'.w == w && s'.off == off && s'.frames == frames && Twin(ds, s'.ds, a, b)
    case Done(ds) => s'.Done? && Twin(ds, s'.result, a, b)
    case NoReturn => s' == NoReturn
    case Stuck => s' == Stuck
  }

  lemma TwinPush(x: seq<u32>, y: seq<u32>, a: seq<u32>, b: seq<u32>, v: seq<u32>)
    requires Twin(x, y, a, b)
    ensures Twin(x + v, y + v, a, b)
  {
    assert (x + v)[..|a|] == a && (y + v)[..|b|] == b;
    assert (x + v)[|a|..] == x[|a|..] + v && (y + v)[|b|..] == y[|b|..] + v;
  }

  /** Popping at most the elements above leaves equal tops and twins. */
  lemma TwinPop(x: seq<u32>, y: seq<u32>, a: seq<u32>, b: seq<u32>, k: nat)
    requires Twin(x, y, a, b) && k <= |x| - |a|
    ensures |y| - |b| == |x| - |a| && Twin(x[..|x| - k], y[..|y| - k], a, b)
    ensures x[|x| - k..] == y[|y| - k..]
  {
    var u := x[|a|..];
    assert |u| == |y[|b|..]|;
    assert x[..|x| - k][..|a|] == a && y[..|y| - k][..|b|] == b;
    assert x[..|x| - k][|a|..] == u[..|u| - k] && y[..|y| - k][|b|..] == u[..|u| - k];
    assert x[|x| - k..] == u[|u| - k..] && y[|y| - k..] == u[|u| - k..];
  }

  /** One step keeps the typing, the limits and the twins: nothing below `lo` is read or written. */
  ghost predicate StepKeeps(e: Run0, s: State, s': State, a: seq<u32>, b: seq<u32>)
    requires Setting(e)
  {
    StateOk(e, Step(e.p, s)) && TwinStates(Step(e.p, s), Step(e.p, s'), a, b)
  }

  ghost predicate Ready(e: Run0, s: State, s': State, a: seq<u32>, b: seq<u32>) {
    Setting(e) && s.Running? && StateOk(e, s) && TwinStates(s, s', a, b) && |a| == e.lo
    && V.InCode(e.p, s.w, s.off)
  }

  lemma SoundRet(e: Run0, s: State, s': State, a: seq<u32>, b: seq<u32>)
    requires Ready(e, s, s', a, b) && V.Op(e.p, s).Ret?
    ensures StepKeeps(e, s, s', a, b)
  {
    hide Setting;
    Here(e, s.frames, s.w, s.off, |s.ds|);
    EffectCovers(e, s.w);
    var top := |s.frames| - 1;
    var f := s.frames[top];
    if f.back.To? {
      EntryInLo(e, s.frames[..top], f.back.w, f.back.off, |s.ds|);
    }
  }

  /** A typed state has its floor above `lo`, so the stack is at least that deep. */
  lemma EntryInLo(e: Run0, frames: seq<Frame>, w: nat, off: nat, depth: int)
    requires Setting(e) && Typed(e, frames, w, off, depth)
    ensures e.lo <= depth && V.ReturnUse(frames) <= e.R
  {
    Here(e, frames, w, off, depth);
    AcceptedWord(e, w);
  }

  lemma SoundPush(e: Run0, s: State, s': State, a: seq<u32>, b: seq<u32>)
    requires Ready(e, s, s', a, b) && (V.Op(e.p, s).Const? || V.Op(e.p, s).GetLocal?)
    ensures StepKeeps(e, s, s', a, b)
  {
    hide Setting, OpcodeOk, Typed, PropsOk;
    Here(e, s.frames, s.w, s.off, |s.ds|);
    LocalsThere(e, s);
    var x := if V.Op(e.p, s).Const? then SevenE.ToU32(V.Op(e.p, s).v)
             else s.frames[|s.frames| - 1].locals[V.Op(e.p, s).num];
    TwinPush(s.ds, s'.ds, a, b, [x]);
    Move(e, s.frames, s.frames, s.w, s.off, |s.ds|, s.off + 1, |s.ds| + 1);
  }

  lemma LocalsThere(e: Run0, s: State)
    requires Setting(e) && s.Running? && Typed(e, s.frames, s.w, s.off, |s.ds|)
    ensures V.Op(e.p, s).GetLocal? ==> V.Op(e.p, s).num < |s.frames[|s.frames| - 1].locals|
    ensures V.Op(e.p, s).PutLocal? ==> V.Op(e.p, s).num < |s.frames[|s.frames| - 1].locals|
  {
    Here(e, s.frames, s.w, s.off, |s.ds|);
  }

  lemma SoundPut(e: Run0, s: State, s': State, a: seq<u32>, b: seq<u32>)
    requires Ready(e, s, s', a, b) && V.Op(e.p, s).PutLocal?
    ensures StepKeeps(e, s, s', a, b)
  {
    hide Setting, OpcodeOk, Typed, PropsOk;
    Here(e, s.frames, s.w, s.off, |s.ds|);
    LocalsThere(e, s);
    TwinPop(s.ds, s'.ds, a, b, 1);
    assert s.ds[|s.ds| - 1] == s.ds[|s.ds| - 1..][0] == s'.ds[|s'.ds| - 1];
    var t := Step(e.p, s);
    UseSame(s.frames, t.frames);
    Move(e, s.frames, t.frames, s.w, s.off, |s.ds|, s.off + 1, |s.ds| - 1);
  }

  lemma SoundJump(e: Run0, s: State, s': State, a: seq<u32>, b: seq<u32>)
    requires Ready(e, s, s', a, b) && V.Op(e.p, s).Jump?
    ensures StepKeeps(e, s, s', a, b)
  {
    hide Setting, Typed, PropsOk;
    Here(e, s.frames, s.w, s.off, |s.ds|);
    Move(e, s.frames, s.frames, s.w, s.off, |s.ds|, s.off + 1 + V.Op(e.p, s).disp, |s.ds|);
  }

  lemma SoundBranch(e: Run0, s: State, s': State, a: seq<u32>, b: seq<u32>)
    requires Ready(e, s, s', a, b) && (V.Op(e.p, s).JumpIf? || V.Op(e.p, s).JumpIfNot?)
    ensures StepKeeps(e, s, s', a, b)
  {
    hide Setting, Typed, PropsOk;
    BranchFacts(e, s);
    TwinPop(s.ds, s'.ds, a, b, 1);
    assert s.ds[|s.ds| - 1] == s.ds[|s.ds| - 1..][0] == s'.ds[|s'.ds| - 1];
  }

  lemma BranchFacts(e: Run0, s: State)
    requires Setting(e) && s.Running? && StateOk(e, s) && V.InCode(e.p, s.w, s.off)
    requires V.Op(e.p, s).JumpIf? || V.Op(e.p, s).JumpIfNot?
    ensures s.frames != [] && e.lo < |s.ds| && s.off + 1 + V.Op(e.p, s).disp >= 0
    ensures Typed(e, s.frames, s.w, s.off + 1, |s.ds| - 1)
    ensures Typed(e, s.frames, s.w, s.off + 1 + V.Op(e.p, s).disp, |s.ds| - 1)
  {
    hide Setting, Typed, PropsOk;
    Here(e, s.frames, s.w, s.off, |s.ds|);
    Move(e, s.frames, s.frames, s.w, s.off, |s.ds|, s.off + 1 + V.Op(e.p, s).disp, |s.ds| - 1);
    Move(e, s.frames, s.frames, s.w, s.off, |s.ds|, s.off + 1, |s.ds| - 1);
  }

  lemma SoundNative(e: Run0, s: State, s': State, a: seq<u32>, b: seq<u32>)
    requires Ready(e, s, s', a, b) && V.Op(e.p, s).Call?
    requires V.Op(e.p, s).target < |e.p.words| && e.p.words[V.Op(e.p, s).target].Native?
    ensures StepKeeps(e, s, s', a, b)
  {
    hide Setting, Typed, PropsOk, NativesRespect;
    var cc := e.p.words[V.Op(e.p, s).target].ccode;
    NativeFacts(e, s, V.Op(e.p, s).target);
    var q := e.p.prims[cc];
    TwinPop(s.ds, s'.ds, a, b, q.din);
    if q.dout >= 0 {
      TwinPush(s.ds[..|s.ds| - q.din], s'.ds[..|s'.ds| - q.din], a, b, q.run(s.ds[|s.ds| - q.din..]));
    }
  }

  /** A C-coded word finds its arguments above `lo` and leaves the depth its caller expects. */
  lemma NativeFacts(e: Run0, s: State, t: nat)
    requires Setting(e) && s.Running? && StateOk(e, s) && V.InCode(e.p, s.w, s.off) && V.Op(e.p, s) == Call(t)
    requires t < |e.p.words| && e.p.words[t].Native?
    ensures s.frames != [] && e.p.words[t].ccode in e.p.prims
    ensures var q := e.p.prims[e.p.words[t].ccode];
            q.din <= |s.ds| - e.lo
            && (q.dout >= 0 ==>
                  |q.run(s.ds[|s.ds| - q.din..])| == q.dout
                  && |s.ds| - q.din + q.dout <= e.D + e.G && e.lo <= |s.ds| - q.din + q.dout
                  && Typed(e, s.frames, s.w, s.off + 1, |s.ds| - q.din + q.dout))
  {
    assert NativeRespects(e.p, e.p.words[t], e.G);
    hide Setting, NativesRespect, Typed;
    Here(e, s.frames, s.w, s.off, |s.ds|);
    var q := e.p.prims[e.p.words[t].ccode];
    if q.dout >= 0 {
      Move(e, s.frames, s.frames, s.w, s.off, |s.ds|, s.off + 1, |s.ds| - q.din + q.dout);
    }
  }

  lemma SoundEnter(e: Run0, s: State, s': State, a: seq<u32>, b: seq<u32>)
    requires Ready(e, s, s', a, b) && V.Op(e.p, s).Call?
    requires V.Op(e.p, s).target < |e.p.words| && e.p.words[V.Op(e.p, s).target].Interpreted?
    ensures StepKeeps(e, s, s', a, b)
  {
    hide Setting, Typed, PropsOk;
    Here(e, s.frames, s.w, s.off, |s.ds|);
    EnterTyped(e, s.frames, s.w, s.off, |s.ds|, V.Op(e.p, s).target);
  }

  lemma EnterTyped(e: Run0, frames: seq<Frame>, w: nat, off: nat, depth: nat, t: nat)
    requires Setting(e) && Typed(e, frames, w, off, depth) && e.p.words[w].code[off] == Call(t)
    requires t < |e.p.words| && e.p.words[t].Interpreted?
    ensures var frames' := frames + [Frame(To(w, off + 1), Zeros(e.p.words[t].numLocals), {})];
            Typed(e, frames', t, 0, depth) && V.ReturnUse(frames') <= e.R
  {
    hide Setting, PropsOk;
    CallFacts(e, frames, w, off, depth, t);
    var f := Frame(To(w, off + 1), Zeros(e.p.words[t].numLocals), {});
    assert (frames + [f])[..|frames|] == frames;
    V.UseEnter(frames, f);
  }

  lemma EntryFacts(e: Run0, t: nat)
    requires Setting(e) && t in e.order
    ensures |e.q.effect| == |e.q.maxData| == |e.q.maxRet| == |e.p.words|
    ensures t in e.sums && SaIs(e.sums[t].sa, 0, 0) && V.InCode(e.p, t, 0) && |e.sums[t].sa| == |e.p.words[t].code|
    ensures e.q.maxRet[t] >= 1 + e.p.words[t].numLocals && e.q.maxData[t] >= 0 && e.q.effect[t].din >= 0
  {
    AcceptedWord(e, t);
  }

  /** The summary of the caller covers the needs of the callee. */
  lemma CallFacts(e: Run0, frames: seq<Frame>, w: nat, off: nat, depth: nat, t: nat)
    requires Setting(e) && Typed(e, frames, w, off, depth) && e.p.words[w].code[off] == Call(t)
    requires t < |e.p.words| && e.p.words[t].Interpreted?
    ensures |e.q.effect| == |e.q.maxData| == |e.q.maxRet| == |e.p.words|
    ensures frames != [] && t in e.order && t in e.sums && SaIs(e.sums[t].sa, 0, 0) && V.InCode(e.p, t, 0)
    ensures |e.sums[t].sa| == |e.p.words[t].code|
    ensures e.lo <= depth - e.q.effect[t].din && depth + e.q.maxData[t] <= e.D
    ensures V.ReturnUse(frames) + e.q.maxRet[t] <= e.R && e.q.maxRet[t] >= 1 + e.p.words[t].numLocals
    ensures !e.q.effect[t].NoExit() ==> Typed(e, frames, w, off + 1, depth + Delta(e.q.effect[t]))
  {
    hide Setting, SummaryOk, Accepted, PropsOk;
    Here(e, frames, w, off, depth);
    AcceptedWord(e, w);
    EntryFacts(e, t);
    if !e.q.effect[t].NoExit() {
      Move(e, frames, frames, w, off, depth, off + 1, depth + Delta(e.q.effect[t]));
    }
  }

  lemma StepSound(e: Run0, s: State, s': State, a: seq<u32>, b: seq<u32>)
    requires Setting(e) && StateOk(e, s) && TwinStates(s, s', a, b) && |a| == e.lo
    ensures StepKeeps(e, s, s', a, b)
  {
    hide Setting;
    if s.Running? {
      Here(e, s.frames, s.w, s.off, |s.ds|);
      match V.Op(e.p, s)
      case Ret => SoundRet(e, s, s', a, b);
      case Const(_) => SoundPush(e, s, s', a, b);
      case GetLocal(_) => SoundPush(e, s, s', a, b);
      case PutLocal(_) => SoundPut(e, s, s', a, b);
      case Call(t) =>
        if e.p.words[t].Native? { SoundNative(e, s, s', a, b); } else { SoundEnter(e, s, s', a, b); }
      case Jump(_) => SoundJump(e, s, s', a, b);
      case _ => SoundBranch(e, s, s', a, b);
    }
  }

  lemma {:induction false} RunSound(e: Run0, s: State, s': State, a: seq<u32>, b: seq<u32>, n: nat)
    requires Setting(e) && StateOk(e, s) && TwinStates(s, s', a, b) && |a| == e.lo
    ensures StateOk(e, Run(e.p, s, n)) && TwinStates(Run(e.p, s, n), Run(e.p, s', n), a, b)
    decreases n
  {
    hide Setting, StateOk, TwinStates, Step;
    if n > 0 {
      StepSound(e, s, s', a, b);
      RunSound(e, Step(e.p, s), Step(e.p, s'), a, b, n - 1);
    }
  }

  /** The limits that the analysis announces for a run of word `t` above `lo` elements. */
  function Limits(p: Program, q: Props, order: seq<nat>, sums: map<nat, Summary>, t: nat, lo: nat, G: nat): Run0
    requires |q.effect| == |q.maxData| == |q.maxRet| == |p.words| && t < |p.words|
  {
    Run0(p, q, order, sums, t, lo, lo + q.effect[t].din + q.maxData[t], q.maxRet[t], G)
  }

  lemma StartOk(p: Program, q: Props, order: seq<nat>, sums: map<nat, Summary>, t: nat, G: nat, a: seq<u32>,
      args: seq<u32>)
    requires ProgramOk(p) && AllAccepted(p, q, order, sums) && NativesRespect(p, G)
    requires t in order && t < |p.words| && p.words[t].Interpreted? && |args| == q.effect[t].din
    ensures Setting(Limits(p, q, order, sums, t, |a|, G))
    ensures StateOk(Limits(p, q, order, sums, t, |a|, G), Start(p, t, a + args))
  {
    var e := Limits(p, q, order, sums, t, |a|, G);
    EntryFacts(e, t);
    assert Start(p, t, a + args).frames[..0] == [];
    V.UseEnter([], Start(p, t, a + args).frames[0]);
    assert [] + Start(p, t, a + args).frames == Start(p, t, a + args).frames;
  }

  /**
   * Soundness of `AnalyseFlow`: an accepted word, started above any elements `a` with its announced number of
   * arguments, never underflows, never reads or writes below its arguments (the run above `b` is the same),
   * stays within the announced stack sizes (up to the growth G of one C-coded word on the data stack), is at
   * each offset of its own at exactly the recorded depth, and leaves its announced number of results.
   */
  lemma FlowSound(p: Program, q: Props, order: seq<nat>, sums: map<nat, Summary>, t: nat, G: nat,
                  a: seq<u32>, b: seq<u32>, args: seq<u32>, n: nat)
    requires ProgramOk(p) && AllAccepted(p, q, order, sums) && NativesRespect(p, G)
    requires t in order && t < |p.words| && p.words[t].Interpreted? && |args| == q.effect[t].din
    ensures var s := Run(p, Start(p, t, a + args), n);
            s != Stuck && TwinStates(s, Run(p, Start(p, t, b + args), n), a, b)
            && (s.Running? ==>
                  |s.ds| <= |a| + |args| + q.maxData[t] + G && V.ReturnUse(s.frames) <= q.maxRet[t])
            && (s.Running? && |s.frames| == 1 ==>
                  t in sums && s.w == t && s.off < |sums[t].sa| && sums[t].sa[s.off] == Known(|s.ds| - |a| - |args|))
            && (s.Done? ==> !q.effect[t].NoExit() && |s.result| == |a| + q.effect[t].dout)
  {
    var e := Limits(p, q, order, sums, t, |a|, G);
    StartOk(p, q, order, sums, t, G, a, args);
    assert TwinStates(Start(p, t, a + args), Start(p, t, b + args), a, b);
    RunSound(e, Start(p, t, a + args), Start(p, t, b + args), a, b, n);
  }

  /** Word `u` reaches a call to the interpreted word `v`. */
  ghost predicate Calls(p: Program, sums: map<nat, Summary>, u: nat, v: nat) {
    u in sums && u < |p.words| && p.words[u].Interpreted? && v < |p.words| && p.words[v].Interpreted?
    && |sums[u].sa| == |p.words[u].code|
    && exists off :: 0 <= off < |sums[u].sa| && sums[u].sa[off].Known? && p.words[u].code[off] == Call(v)
  }

  /** A chain of calls. */
  ghost predicate CallPath(p: Program, sums: map<nat, Summary>, path: seq<nat>) {
    forall i :: 0 <= i < |path| - 1 ==> Calls(p, sums, path[i], path[i + 1])
  }

  /** Position of the first occurrence. */
  function First(order: seq<nat>, w: nat): (k: nat)
    requires w in order
    ensures k < |order| && order[k] == w && w !in order[..k]
  {
    if order[0] == w then 0
    else
      assert order == [order[0]] + order[1..];
      var k := 1 + First(order[1..], w);
      assert order[..k] == [order[0]] + order[1..][..k - 1];
      k
  }

  lemma CalleeFirst(p: Program, q: Props, order: seq<nat>, sums: map<nat, Summary>, u: nat, v: nat)
    requires AllAccepted(p, q, order, sums) && u in order && Calls(p, sums, u, v)
    ensures v in order && First(order, v) < First(order, u)
  {
    var k := First(order, u);
    assert AcceptedAt(p, q, order, sums, k);
    assert v in order[..k];
  }

  /** The call graph below an accepted word has no cycle: every chain of calls finds a new word at each step. */
  lemma {:induction false} CallsAcyclic(p: Program, q: Props, order: seq<nat>, sums: map<nat, Summary>, path: seq<nat>,
                                        i: nat, j: nat)
    requires AllAccepted(p, q, order, sums) && CallPath(p, sums, path) && i < j < |path| && path[0] in order
    ensures path[i] in order && path[j] in order && First(order, path[j]) < First(order, path[i])
    decreases i + j
  {
    hide AllAccepted;
    if i + 1 < j {
      CallsAcyclic(p, q, order, sums, path, i, j - 1);
      CalleeFirst(p, q, order, sums, path[j - 1], path[j]);
    } else {
      if i > 0 { CallsAcyclic(p, q, order, sums, path, i - 1, i); }
      CalleeFirst(p, q, order, sums, path[i], path[j]);
    }
  }

  /** A word that calls a C-coded word pushing one element. */
  function PushOne(f: seq<u32> -> seq<u32>): Program {
    Program([Native("one", SType(0, 1)), Interpreted(0, [Call(0), Ret], UNKNOWN)], map["one" := Prim(0, 1, f)])
  }

  const PUSH_ONE_PROPS := Props([SType(0, 1), SType(0, 1)], [0, 0], [0, 1])
  const PUSH_ONE_SUMMARY := Summary([Known(0), Known(1)], 0, Known(1), 0, 0)

  /** The announced data stack size alone is no bound: it counts the growth of a C-coded word as zero. */
  lemma NativeGrowthMissed(f: seq<u32> -> seq<u32>)
    requires f([]) == [7]
    ensures AllAccepted(PushOne(f), PUSH_ONE_PROPS, [1], map[1 := PUSH_ONE_SUMMARY])
    ensures PUSH_ONE_PROPS.maxData[1] == 0 && ProgramOk(PushOne(f)) && NativesRespect(PushOne(f), 1)
    ensures Step(PushOne(f), Start(PushOne(f), 1, [])) == Running(1, 1, [7], [Frame(Top, [], {})])
  {
    hide OpOk, SummaryOk, CalleesIn, PropsOk, Step;
    var p, q, m := PushOne(f), PUSH_ONE_PROPS, PUSH_ONE_SUMMARY;
    PushOneSummary(f);
    PushOneOk(f);
    assert AcceptedAt(p, q, [1], map[1 := m], 0) by { assert [1][..0] == []; }
    PushOneStep(f);
  }

  lemma PushOneSummary(f: seq<u32> -> seq<u32>)
    ensures PropsOk(PushOne(f), PUSH_ONE_PROPS)
    ensures SummaryOk(PushOne(f), PUSH_ONE_PROPS, PushOne(f).words[1].code, PUSH_ONE_SUMMARY)
    ensures CalleesIn(PushOne(f), PushOne(f).words[1].code, PUSH_ONE_SUMMARY, [])
  {
    var p, q, m := PushOne(f), PUSH_ONE_PROPS, PUSH_ONE_SUMMARY;
    assert PropsOk(p, q);
    assert OpOk(p, q, p.words[1].code, m, 0) && OpOk(p, q, p.words[1].code, m, 1);
  }

  lemma PushOneOk(f: seq<u32> -> seq<u32>)
    requires f([]) == [7]
    ensures ProgramOk(PushOne(f)) && NativesRespect(PushOne(f), 1)
  {
    var p := PushOne(f);
    assert forall a: seq<u32> :: |a| == 0 ==> a == [];
    assert WordOk(p, p.words[0]) && WordOk(p, p.words[1]) && NativeRespects(p, p.words[0], 1);
  }

  lemma PushOneStep(f: seq<u32> -> seq<u32>)
    requires f([]) == [7]
    ensures Step(PushOne(f), Start(PushOne(f), 1, [])) == Running(1, 1, [7], [Frame(Top, [], {})])
  {
    var s := Start(PushOne(f), 1, []);
    assert s.ds[..0] == [] && s.ds[0..] == [];
    assert s.frames == [Frame(Top, [], {})] && [] + f([]) == [7];
    assert Step(PushOne(f), s) == RunPrim(Prim(0, 1, f), 1, 1, s.ds, s.frames);
  }
}
