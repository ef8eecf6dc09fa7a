/** What flow analysis finds has its cause in a path of control, bearssl-0.5/T0/WordInterpreted.cs. */
module T0Exact {
  import opened StackEffects
  import opened T0Machine
  import opened T0Flow
  import opened T0Chains

  /** The change of depth that an opcode makes. */
  function Gain(q: Props, op: Opcode): int {
    if !op.Call? then op.StackAction()
    else if op.target >= |q.effect| || q.effect[op.target].NoExit() then 0
    else Delta(q.effect[op.target])
  }

  /** The depth at the end of a path that starts at depth 0. */
  function Along(q: Props, code: seq<Opcode>, path: seq<nat>): int {
    var n := |path|;
    if n <= 1 then 0
    else Along(q, code, path[..n - 1]) + if path[n - 2] < |code| then Gain(q, code[path[n - 2]]) else 0
  }

  /** A path of control from the start of the word, through offsets in `done`, comes to `o` at depth `d`. */
  ghost predicate Leads(q: Props, code: seq<Opcode>, path: seq<nat>, o: nat, d: int, done: set<nat>) {
    FlowPath(q, code, path) && path[|path| - 1] == o && Along(q, code, path) == d
    && forall i :: 0 <= i < |path| - 1 ==> path[i] in done
  }

  ghost predicate Reach(q: Props, code: seq<Opcode>, o: nat, d: int, done: set<nat>) {
    exists path :: Leads(q, code, path, o, d, done)
  }

  lemma ReachStart(q: Props, code: seq<Opcode>, done: set<nat>)
    ensures Reach(q, code, 0, 0, done)
  {
    assert Leads(q, code, [0], 0, 0, done);
  }

  lemma ReachNext(q: Props, code: seq<Opcode>, o: nat, d: int, done: set<nat>, o': nat)
    requires Reach(q, code, o, d, done) && Flows(q, code, o, o')
    ensures Reach(q, code, o', d + Gain(q, code[o]), done + {o})
  {
    hide Gain;
    var path :| Leads(q, code, path, o, d, done);
    var more := path + [o'];
    assert more[..|path|] == path && o < |code|;
    assert FlowPath(q, code, more) by {
      hide Flows;
      forall i | 0 <= i < |more| - 1 ensures Flows(q, code, more[i], more[i + 1]) {
        if i < |path| - 1 {
          assert more[i] == path[i] && more[i + 1] == path[i + 1];
        }
      }
    }
    assert Leads(q, code, more, o', d + Gain(q, code[o]), done + {o});
  }

  /** The words called from `done` have the same properties. */
  ghost predicate SameCallees(q: Props, q': Props, code: seq<Opcode>, done: set<nat>) {
    |q.effect| == |q.maxData| == |q.maxRet| == |q'.effect| == |q'.maxData| == |q'.maxRet|
    && forall o :: o in done && o < |code| && code[o].Call? && code[o].target < |q.effect| ==>
         var t := code[o].target;
         q'.effect[t] == q.effect[t] && q'.maxData[t] == q.maxData[t] && q'.maxRet[t] == q.maxRet[t]
  }

  lemma {:induction false} AlongKeeps(q: Props, q': Props, code: seq<Opcode>, path: seq<nat>, done: set<nat>)
    requires SameCallees(q, q', code, done) && forall i :: 0 <= i < |path| - 1 ==> path[i] in done
    ensures Along(q', code, path) == Along(q, code, path)
  {
    if |path| > 1 { AlongKeeps(q, q', code, path[..|path| - 1], done); }
  }

  lemma ReachKeeps(q: Props, q': Props, code: seq<Opcode>, o: nat, d: int, done: set<nat>, done': set<nat>)
    requires Reach(q, code, o, d, done) && SameCallees(q, q', code, done) && done <= done'
    ensures Reach(q', code, o, d, done')
  {
    var path :| Leads(q, code, path, o, d, done);
    AlongKeeps(q, q', code, path, done);
    assert Leads(q', code, path, o, d, done');
  }

  /** The word comes down to `low` at `o`: there, after it, or below the arguments of what it calls. */
  predicate Touches(q: Props, code: seq<Opcode>, m: Summary, o: nat, low: int) {
    o < |code| == |m.sa| && m.sa[o].Known?
    && (low == m.sa[o].d || (!code[o].Ret? && low == m.sa[o].d + Gain(q, code[o]))
        || (code[o].Call? && code[o].target < |q.effect| && low == m.sa[o].d - q.effect[code[o].target].din))
  }

  /** At `o` the data stack grows to `high`. */
  predicate Peaks(q: Props, code: seq<Opcode>, m: Summary, o: nat, high: int) {
    o < |code| == |m.sa| && m.sa[o].Known?
    && if code[o].Call? then code[o].target < |q.maxData| && high == m.sa[o].d + q.maxData[code[o].target]
       else high == m.sa[o].d + code[o].StackAction()
  }

  /** What is called at `o` needs `ret` on the return stack. */
  predicate Nests(q: Props, code: seq<Opcode>, m: Summary, o: nat, ret: int) {
    o < |code| == |m.sa| && m.sa[o].Known? && code[o].Call? && code[o].target < |q.maxRet|
    && ret == q.maxRet[code[o].target]
  }

  predicate ReturnsAt(code: seq<Opcode>, m: Summary, o: nat) {
    o < |code| == |m.sa| && code[o].Ret? && m.sa[o] == m.exit
  }

  /** Nothing in the summary is without a cause at the offsets in `done`. */
  ghost predicate Tight(q: Props, code: seq<Opcode>, m: Summary, done: set<nat>) {
    (forall o :: 0 <= o < |m.sa| && m.sa[o].Known? ==> Reach(q, code, o, m.sa[o].d, done))
    && (m.floor == 0 || exists o :: o in done && Touches(q, code, m, o, m.floor))
    && (m.mds == 0 || exists o :: o in done && Peaks(q, code, m, o, m.mds))
    && (m.mrs == 0 || exists o :: o in done && Nests(q, code, m, o, m.mrs))
    && (m.exit.Unknown? || exists o :: o in done && ReturnsAt(code, m, o))
  }

  lemma TightKeeps(q: Props, q': Props, code: seq<Opcode>, m: Summary, done: set<nat>, done': set<nat>)
    requires Tight(q, code, m, done) && SameCallees(q, q', code, done) && done <= done'
    ensures Tight(q', code, m, done')
  {
    hide Reach;
    forall o | 0 <= o < |m.sa| && m.sa[o].Known? ensures Reach(q', code, o, m.sa[o].d, done') {
      ReachKeeps(q, q', code, o, m.sa[o].d, done, done');
    }
  }

  /** Every reached offset. */
  function Known0(m: Summary): set<nat> {
    set o: nat | o < |m.sa| && m.sa[o].Known?
  }

  /** A summary that is all cause. */
  ghost predicate Exact(q: Props, code: seq<Opcode>, m: Summary) {
    Tight(q, code, m, Known0(m))
  }

  /** And for a word whose effect was not declared, the effect is the one found. */
  ghost predicate ExactAt(p: Program, q: Props, order: seq<nat>, sums: map<nat, Summary>, k: nat)
    requires k < |order|
  {
    var w := order[k];
    w in sums && w < |p.words| && p.words[w].Interpreted? && w < |q.effect| && Exact(q, p.words[w].code, sums[w])
    && (!p.words[w].effect.IsKnown() ==>
          q.effect[w].din == -sums[w].floor && (sums[w].exit.Unknown? ==> q.effect[w].NoExit()))
  }

  ghost predicate AllExact(p: Program, q: Props, order: seq<nat>, sums: map<nat, Summary>) {
    forall k :: 0 <= k < |order| ==> ExactAt(p, q, order, sums, k)
  }

  /** Control can come to `o` at depth `d`. */
  ghost predicate Comes(q: Props, code: seq<Opcode>, o: nat, d: int) {
    exists path :: FlowPath(q, code, path) && path[|path| - 1] == o && Along(q, code, path) == d
  }

  /** Control comes only where the depth is known, and at that depth. */
  lemma {:induction false} ComesKnown(p: Program, q: Props, code: seq<Opcode>, m: Summary, path: seq<nat>)
    requires PropsOk(p, q) && SummaryOk(p, q, code, m) && FlowPath(q, code, path)
    ensures var o := path[|path| - 1]; o < |m.sa| && m.sa[o] == Known(Along(q, code, path))
  {
    hide PropsOk, OpOk, Flows, Gain;
    var n := |path|;
    if n > 1 {
      var before := path[..n - 1];
      assert FlowPath(q, code, before);
      ComesKnown(p, q, code, m, before);
      FlowKnown(p, q, code, m, path[n - 2], path[n - 1]);
    }
  }

  lemma FlowKnown(p: Program, q: Props, code: seq<Opcode>, m: Summary, o: nat, o': nat)
    requires PropsOk(p, q) && SummaryOk(p, q, code, m) && o < |m.sa| && m.sa[o].Known? && Flows(q, code, o, o')
    ensures o < |code| && SaIs(m.sa, o', m.sa[o].d + Gain(q, code[o]))
  {
    assert OpOk(p, q, code, m, o);
  }

  /** The depths recorded are exactly those that the paths of control give. */
  lemma DepthsExact(p: Program, q: Props, code: seq<Opcode>, m: Summary, o: nat, d: int)
    requires PropsOk(p, q) && SummaryOk(p, q, code, m) && Exact(q, code, m)
    ensures o < |m.sa| && m.sa[o] == Known(d) <==> Comes(q, code, o, d)
  {
    if o < |m.sa| && m.sa[o] == Known(d) {
      var path :| Leads(q, code, path, o, d, Known0(m));
    }
    if Comes(q, code, o, d) {
      var path :| FlowPath(q, code, path) && path[|path| - 1] == o && Along(q, code, path) == d;
      ComesKnown(p, q, code, m, path);
    }
  }

  /** Arguments that the opcode at `o` needs: those of a word that it calls. */
  function Needs(q: Props, code: seq<Opcode>, o: nat): int {
    if o < |code| && code[o].Call? && code[o].target < |q.effect| then q.effect[code[o].target].din else 0
  }

  /** Wherever control comes, `din` elements are enough, for what it calls too. */
  ghost predicate Enough(q: Props, code: seq<Opcode>, din: int) {
    forall o: nat, d: int :: Comes(q, code, o, d) ==> -din <= d && -din <= d - Needs(q, code, o)
  }

  /** A word is accepted with arguments that are enough, and with results that are left at every return. */
  lemma EffectMeans(p: Program, q: Props, order: seq<nat>, sums: map<nat, Summary>, k: nat)
    requires AllAccepted(p, q, order, sums) && k < |order|
    ensures order[k] < |p.words| && p.words[order[k]].Interpreted? && order[k] < |q.effect|
    ensures var code, se := p.words[order[k]].code, q.effect[order[k]];
            Enough(q, code, se.din)
            && forall o: nat, d: int :: Comes(q, code, o, d) && o < |code| && code[o].Ret? ==>
                 se.dout >= 0 && d == se.dout - se.din
  {
    assert AcceptedAt(p, q, order, sums, k);
    var w := order[k];
    var code, m, se := p.words[w].code, sums[w], q.effect[w];
    forall o: nat, d: int | Comes(q, code, o, d)
      ensures -se.din <= d && -se.din <= d - Needs(q, code, o)
      ensures o < |code| && code[o].Ret? ==> se.dout >= 0 && d == se.dout - se.din
    {
      var path :| FlowPath(q, code, path) && path[|path| - 1] == o && Along(q, code, path) == d;
      ComesKnown(p, q, code, m, path);
      assert OpOk(p, q, code, m, o);
    }
  }

  /** A lowest depth may be chosen after the arguments: whatever is enough everywhere can serve. */
  lemma FloorServes(p: Program, q: Props, code: seq<Opcode>, m: Summary, se: SType)
    requires PropsOk(p, q) && SummaryOk(p, q, code, m) && se.din >= 0
    requires forall o :: 0 <= o < |code| && m.sa[o].Known? ==>
               -se.din <= m.sa[o].d && -se.din <= m.sa[o].d - Needs(q, code, o)
    requires m.exit.Known? ==> se.dout >= 0 && m.exit.d == se.dout - se.din
    ensures var m' := m.(floor := -se.din); SummaryOk(p, q, code, m') && EffectFits(se, m'.floor, m'.exit)
  {
    var m' := m.(floor := -se.din);
    forall o | 0 <= o < |code| && m.sa[o].Known? ensures OpOk(p, q, code, m', o) {
      assert OpOk(p, q, code, m, o);
    }
  }

  /** The lowest point is one that control comes to, or what is called there needs it. */
  lemma LowestComes(p: Program, q: Props, code: seq<Opcode>, m: Summary) returns (o: nat, d: int)
    requires PropsOk(p, q) && SummaryOk(p, q, code, m) && Exact(q, code, m)
    ensures Comes(q, code, o, d) && (m.floor == d || m.floor == d - Needs(q, code, o))
  {
    hide Reach;
    if m.floor == 0 {
      o, d := 0, 0;
    } else {
      o :| o in Known0(m) && Touches(q, code, m, o, m.floor);
      d := m.sa[o].d;
      assert OpOk(p, q, code, m, o);
      if m.floor != d && m.floor != d - Needs(q, code, o) {
        o := if code[o].JumpDisp() != 0 then o + 1 + code[o].JumpDisp() else o + 1;
        d := m.floor;
      }
    }
    DepthsExact(p, q, code, m, o, d);
  }

  /**
   * The effect found for a word that declares none: its arguments are the least that are enough, and it is one that
   * never exits exactly when control comes to no return.
   */
  lemma EffectLeast(p: Program, q: Props, order: seq<nat>, sums: map<nat, Summary>, k: nat)
    requires AllAccepted(p, q, order, sums) && AllExact(p, q, order, sums) && k < |order|
    requires order[k] < |p.words| && !p.words[order[k]].effect.IsKnown()
    ensures p.words[order[k]].Interpreted? && order[k] < |q.effect|
    ensures var code, se := p.words[order[k]].code, q.effect[order[k]];
            Enough(q, code, se.din) && (forall n: int :: 0 <= n < se.din ==> !Enough(q, code, n))
            && (se.NoExit() <==> !exists o: nat, d: int :: Comes(q, code, o, d) && o < |code| && code[o].Ret?)
  {
    EffectMeans(p, q, order, sums, k);
    assert AcceptedAt(p, q, order, sums, k) && ExactAt(p, q, order, sums, k);
    var w := order[k];
    var code, m, se := p.words[w].code, sums[w], q.effect[w];
    hide Comes, Reach, AllAccepted, AllExact, OpOk, PropsOk;
    var o, d := LowestComes(p, q, code, m);
    assert Comes(q, code, o, d);
    if m.exit.Known? {
      var r :| r in Known0(m) && ReturnsAt(code, m, r);
      DepthsExact(p, q, code, m, r, m.exit.d);
    } else {
      forall o: nat, d: int | Comes(q, code, o, d) && o < |code| ensures !code[o].Ret? {
        DepthsExact(p, q, code, m, o, d);
        NoReturnThere(p, q, code, m, o);
      }
    }
  }

  lemma NoReturnThere(p: Program, q: Props, code: seq<Opcode>, m: Summary, o: nat)
    requires PropsOk(p, q) && SummaryOk(p, q, code, m) && m.exit.Unknown? && o < |code| && m.sa[o].Known?
    ensures !code[o].Ret?
  {
    assert OpOk(p, q, code, m, o);
  }

  /** The frames of a chain of calls, each with its locals and a return word. */
  function Frames(p: Program, chain: seq<nat>): nat {
    if chain == [] then 0
    else Frames(p, chain[1..])
         + if chain[0] < |p.words| && p.words[chain[0]].Interpreted? then 1 + p.words[chain[0]].numLocals else 0
  }

  lemma CalledFits(p: Program, q: Props, order: seq<nat>, sums: map<nat, Summary>, u: nat, v: nat)
    requires AllAccepted(p, q, order, sums) && u in order && Calls(p, sums, u, v)
    ensures v in order && u < |q.maxRet| && v < |q.maxRet|
    ensures q.maxRet[v] + 1 + p.words[u].numLocals <= q.maxRet[u]
  {
    CalleeFirst(p, q, order, sums, u, v);
    assert AcceptedAt(p, q, order, sums, First(order, u));
    var off :| 0 <= off < |sums[u].sa| && sums[u].sa[off].Known? && p.words[u].code[off] == Call(v);
    assert OpOk(p, q, p.words[u].code, sums[u], off);
  }

  /** No chain of calls needs more return stack than announced. */
  lemma {:induction false} ReturnEnough(p: Program, q: Props, order: seq<nat>, sums: map<nat, Summary>, chain: seq<nat>)
    requires AllAccepted(p, q, order, sums) && chain != [] && chain[0] in order && CallPath(p, sums, chain)
    ensures chain[0] < |q.maxRet| && Frames(p, chain) <= q.maxRet[chain[0]]
  {
    assert AcceptedAt(p, q, order, sums, First(order, chain[0]));
    if |chain| > 1 {
      assert Calls(p, sums, chain[0], chain[1]);
      CalledFits(p, q, order, sums, chain[0], chain[1]);
      forall i | 0 <= i < |chain[1..]| - 1 ensures Calls(p, sums, chain[1..][i], chain[1..][i + 1]) {
        assert Calls(p, sums, chain[i + 1], chain[i + 2]);
      }
      ReturnEnough(p, q, order, sums, chain[1..]);
    } else {
      assert chain[1..] == [];
    }
  }

  /** And some chain of calls needs all of it. */
  lemma {:induction false} ReturnNeeded(p: Program, q: Props, order: seq<nat>, sums: map<nat, Summary>, k: nat)
    returns (chain: seq<nat>)
    requires AllAccepted(p, q, order, sums) && AllExact(p, q, order, sums) && k < |order|
    ensures chain != [] && chain[0] == order[k] && CallPath(p, sums, chain)
    ensures order[k] < |q.maxRet| && Frames(p, chain) == q.maxRet[order[k]]
    decreases k
  {
    assert AcceptedAt(p, q, order, sums, k) && ExactAt(p, q, order, sums, k);
    var w := order[k];
    var code, m := p.words[w].code, sums[w];
    chain := [w];
    assert chain[1..] == [];
    if m.mrs != 0 {
      var o :| o in Known0(m) && Nests(q, code, m, o, m.mrs);
      var t := code[o].target;
      assert t in order[..k] && Calls(p, sums, w, t);
      var j :| 0 <= j < k && order[..k][j] == t;
      var rest := ReturnNeeded(p, q, order, sums, j);
      chain := [w] + rest;
      assert chain[1..] == rest;
      forall i | 0 <= i < |chain| - 1 ensures Calls(p, sums, chain[i], chain[i + 1]) {
        if i > 0 { assert Calls(p, sums, rest[i - 1], rest[i]); }
      }
    }
  }

  /** What the data stack holds at most while the opcode at `o`, entered at depth `d`, runs. */
  function High(q: Props, code: seq<Opcode>, o: nat, d: int): int {
    if o >= |code| then d
    else if code[o].Call? then d + (if code[o].target < |q.maxData| then q.maxData[code[o].target] else 0)
    else d + code[o].StackAction()
  }

  /** The announced data stack is the greatest of these, counting the word's own start. */
  lemma DataExact(p: Program, q: Props, order: seq<nat>, sums: map<nat, Summary>, k: nat)
    requires AllAccepted(p, q, order, sums) && AllExact(p, q, order, sums) && k < |order|
    ensures order[k] < |p.words| && p.words[order[k]].Interpreted? && order[k] < |q.maxData|
    ensures var code, high := p.words[order[k]].code, q.maxData[order[k]];
            high >= 0
            && (forall o: nat, d: int :: Comes(q, code, o, d) && o < |code| && !code[o].Ret? ==>
                  High(q, code, o, d) <= high)
            && (high == 0 || exists o: nat, d: int :: Comes(q, code, o, d) && High(q, code, o, d) == high)
  {
    assert AcceptedAt(p, q, order, sums, k) && ExactAt(p, q, order, sums, k);
    var w := order[k];
    var code, m := p.words[w].code, sums[w];
    hide Comes, Reach, AllAccepted, AllExact, PropsOk;
    forall o: nat, d: int | Comes(q, code, o, d) && o < |code| && !code[o].Ret? ensures High(q, code, o, d) <= m.mds {
      DepthsExact(p, q, code, m, o, d);
      assert OpOk(p, q, code, m, o);
    }
    if m.mds != 0 {
      var o :| o in Known0(m) && Peaks(q, code, m, o, m.mds);
      DepthsExact(p, q, code, m, o, m.sa[o].d);
      assert High(q, code, o, m.sa[o].d) == m.mds;
    }
  }
}
