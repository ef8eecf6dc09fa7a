/** The worklist loop of `AnalyseFlow`, bearssl-0.5/T0/WordInterpreted.cs. */
module T0Analyse {
  import opened StackEffects
  import opened T0Machine
  import opened T0Flow
  import opened T0Chains
  import opened T0Exact

  /** The local variables of the loop: what is known so far, and the queue of offsets to explore. */
  datatype Work = Work(m: Summary, queue: seq<nat>, tX: nat)

  /** `m'` knows at least what `m` knows. */
  ghost predicate Extends(m: Summary, m': Summary) {
    |m.sa| == |m'.sa| && (forall o :: 0 <= o < |m.sa| && m.sa[o].Known? ==> m'.sa[o] == m.sa[o])
    && m'.floor <= m.floor && m.mds <= m'.mds && m.mrs <= m'.mrs && (m.exit.Known? ==> m'.exit == m.exit)
  }

  /** The properties of `t` are the same. */
  ghost predicate Same(q: Props, q': Props, t: nat) {
    t < |q.effect| == |q.maxData| == |q.maxRet| == |q'.effect| == |q'.maxData| == |q'.maxRet|
    && q.effect[t] == q'.effect[t] && q.maxData[t] == q'.maxData[t] && q.maxRet[t] == q'.maxRet[t]
  }

  /** Offset `o` is done: its successors agree, and what it calls has been accepted or is C-coded. */
  ghost predicate Settled(p: Program, q: Props, order: seq<nat>, code: seq<Opcode>, m: Summary, o: nat)
    requires PropsOk(p, q)
  {
    o < |code| == |m.sa| && m.sa[o].Known? && OpOk(p, q, code, m, o)
    && (code[o].Call? ==> p.words[code[o].target].Interpreted? ==> code[o].target in order)
  }

  lemma SettledKeeps(p: Program, q: Props, q': Props, order: seq<nat>, order': seq<nat>, code: seq<Opcode>,
                     m: Summary, m': Summary, o: nat)
    requires PropsOk(p, q) && PropsOk(p, q') && Settled(p, q, order, code, m, o) && Extends(m, m')
    requires forall t :: t in order ==> t in order' && Same(q, q', t)
    ensures Settled(p, q', order', code, m', o)
  {
    if code[o].Call? && p.words[code[o].target].Native? {
      assert Same(q, q', code[o].target);
    }
  }

  /** The loop invariant: every reached offset is done, current, or queued. */
  ghost predicate WorkOk(p: Program, q: Props, order: seq<nat>, code: seq<Opcode>, k: Work, done: set<nat>,
      cur: set<nat>)
    requires PropsOk(p, q)
  {
    var m := k.m;
    |m.sa| == |code| && SaIs(m.sa, 0, 0) && m.floor <= 0 <= m.mds && 0 <= m.mrs
    && (m.exit.Known? ==> m.floor <= m.exit.d)
    && k.tX <= |k.queue| <= |code|
    && (forall o :: 0 <= o < |code| && m.sa[o].Known? ==>
          m.floor <= m.sa[o].d && (o in done || o in cur || o in k.queue[k.tX..]))
    && (forall o :: o in k.queue ==> o < |code| && m.sa[o].Known?)
    && (forall o :: o in done ==> Settled(p, q, order, code, m, o))
  }

  /** Number of offsets not reached yet. */
  function Unreached(sa: seq<Depth>): nat {
    if sa == [] then 0 else Unreached(sa[..|sa| - 1]) + if sa[|sa| - 1].Unknown? then 1 else 0
  }

  lemma {:induction false} UnreachedSet(sa: seq<Depth>, j: nat, c: int)
    requires j < |sa| && sa[j].Unknown?
    ensures Unreached(sa[j := Known(c)]) == Unreached(sa) - 1
  {
    var n := |sa| - 1;
    var sa' := sa[j := Known(c)];
    if j == n {
      assert sa'[..n] == sa[..n];
    } else {
      UnreachedSet(sa[..n], j, c);
      assert sa'[..n] == sa[..n][j := Known(c)];
    }
  }

  lemma {:induction false} UnreachedMax(sa: seq<Depth>)
    ensures Unreached(sa) <= |sa|
  {
    if sa != [] { UnreachedMax(sa[..|sa| - 1]); }
  }

  /** `MergeSA`: set an unknown depth, or insist on the known one. An offset outside the code fails. */
  method MergeSA(sa: seq<Depth>, j: int, c: int) returns (ok: bool, isNew: bool, sa': seq<Depth>)
    ensures ok ==> 0 <= j < |sa| && sa' == sa[j := Known(c)] && (sa[j].Known? ==> sa[j] == Known(c))
    ensures ok ==> (isNew <==> sa[j].Unknown?)
    ensures ok ==> Unreached(sa') == Unreached(sa) - if isNew then 1 else 0
    ensures !ok ==> !(0 <= j < |sa|) || (sa[j].Known? && sa[j].d != c)
  {
    sa' := sa;
    isNew := false;
    if j < 0 || j >= |sa| {
      return false, false, sa;
    }
    if sa[j].Unknown? {
      UnreachedSet(sa, j, c);
      return true, true, sa[j := Known(c)];
    } else if sa[j].d != c {
      return false, false, sa;
    } else {
      assert sa[j := Known(c)] == sa;
      return true, false, sa;
    }
  }

  /** The invariant at the top of the loop, with `off` in hand. */
  ghost predicate WorkAt(p: Program, q: Props, order: seq<nat>, code: seq<Opcode>, k: Work, done: set<nat>, off: nat)
    requires PropsOk(p, q)
  {
    WorkOk(p, q, order, code, k, done, {off}) && off < |k.m.sa| && k.m.sa[off].Known?
  }

  /** At the start a calm word has room. */
  lemma CalmRoom(p: Program, w: nat, k: Work)
    requires Calm(p) && w < |p.words| && p.words[w].Interpreted? && p.words[w].code != []
    requires k.m.sa == seq(|p.words[w].code|, _ => Unknown)[0 := Known(0)] && k.queue == [] && k.tX == 0
    ensures Room(p.words[w].code, k.m.sa, k.queue, k.tX, 0)
  {
    RoomBegin(p.words[w].code);
  }

  /** The invariant between two offsets. */
  ghost predicate WorkRest(p: Program, q: Props, order: seq<nat>, code: seq<Opcode>, k: Work, done: set<nat>)
    requires PropsOk(p, q)
  {
    WorkOk(p, q, order, code, k, done, {})
  }

  lemma WorkBegin(p: Program, q: Props, order: seq<nat>, code: seq<Opcode>, k: Work, done: set<nat>, cur: set<nat>)
    requires PropsOk(p, q) && |code| > 0 && k.m == Summary(seq(|code|, _ => Unknown), 0, Unknown, 0, 0)
    requires k.queue == [] && k.tX == 0 && done == {} && cur == {0}
    ensures WorkAt(p, q, order, code, k.(m := k.m.(sa := k.m.sa[0 := Known(0)])), {}, 0)
    ensures Unreached(k.m.sa[0 := Known(0)]) <= |code| - 1
  {
    UnreachedMax(k.m.sa);
    UnreachedSet(k.m.sa, 0, 0);
  }

  lemma WorkDequeue(p: Program, q: Props, order: seq<nat>, code: seq<Opcode>, k: Work, done: set<nat>)
    requires PropsOk(p, q) && WorkRest(p, q, order, code, k, done) && k.tX < |k.queue|
    ensures k.queue[k.tX] < |code| && k.tX < |code|
    ensures WorkAt(p, q, order, code, k.(tX := k.tX + 1), done, k.queue[k.tX])
  {
    hide Settled;
    var o := k.queue[k.tX];
    assert o in k.queue;
    forall j | j in k.queue[k.tX..] ensures j == o || j in k.queue[k.tX + 1..] {}
  }

  /** With nothing left to explore, every reached offset is done. */
  lemma WorkDone(p: Program, q: Props, order: seq<nat>, code: seq<Opcode>, k: Work, done: set<nat>)
    requires PropsOk(p, q) && WorkRest(p, q, order, code, k, done) && k.tX >= |k.queue| && Free(code, done)
    ensures NoCircle(code, k.m)
  {
    hide Settled, Endless, PropsOk;
    assert k.queue[k.tX..] == [];
  }

  /** With nothing left to explore, every reached offset is settled. */
  lemma WorkFinish(p: Program, q: Props, order: seq<nat>, code: seq<Opcode>, k: Work, done: set<nat>)
    requires PropsOk(p, q) && WorkRest(p, q, order, code, k, done) && k.tX >= |k.queue|
    ensures SummaryOk(p, q, code, k.m) && CalleesIn(p, code, k.m, order)
  {
    forall o | 0 <= o < |code| && k.m.sa[o].Known?
      ensures Settled(p, q, order, code, k.m, o)
    {
      assert k.queue[k.tX..] == [];
    }
  }

  /** What the first half of a round leaves: everything `OpOk` asks except the depths of the successors. */
  ghost predicate Accounted(p: Program, q: Props, order: seq<nat>, code: seq<Opcode>, m0: Summary, m: Summary,
                            off: nat, a: int, mft: bool)
    requires PropsOk(p, q)
  {
    off < |code| == |m0.sa| && m0.sa[off].Known? && Extends(m0, m)
    && var c := m0.sa[off].d;
       var op := code[off];
       if op.Call? then
         op.target < |p.words| && var se := q.effect[op.target];
         se.IsKnown()
         && m == m0.(mds := Max(m0.mds, c + q.maxData[op.target]), mrs := Max(m0.mrs, q.maxRet[op.target]),
                     floor := Min(Min(m0.floor, c - se.din), c + a))
         && (if se.NoExit() then !mft && a == 0 else mft && a == Delta(se))
         && (p.words[op.target].Interpreted? ==> op.target in order)
       else if op.Ret? then m == m0.(exit := Known(c), floor := Min(m0.floor, c)) && !mft && a == 0
       else a == op.StackAction() && mft == op.MayFallThrough()
            && m == m0.(mds := Max(m0.mds, c + a), floor := Min(m0.floor, c + a))
  }

  lemma WorkShape(p: Program, q: Props, order: seq<nat>, code: seq<Opcode>, k: Work, done: set<nat>, off: nat)
    requires PropsOk(p, q) && WorkAt(p, q, order, code, k, done, off)
    ensures off < |code| == |k.m.sa| && k.m.sa[off].Known? && k.tX <= |k.queue| <= |code|
  {
  }

  /** The depth table after the merges of a round. */
  ghost predicate Merged(code: seq<Opcode>, m: Summary, k0: Work, k: Work, off: nat, c: int, mft: bool, isNew: bool)
    requires off < |code|
  {
    var j := off + 1 + code[off].JumpDisp();
    var jumps := code[off].JumpDisp() != 0;
    |k.m.sa| == |m.sa| == |code|
    && k.m == m.(sa := k.m.sa) && k.tX == k0.tX
    && (if jumps then 0 <= j < |code| && k.queue == k0.queue + [j] && |k0.queue| < |code| else k.queue == k0.queue)
    && (jumps ==> k.m.sa[j] == Known(c)) && (mft ==> SaIs(k.m.sa, off + 1, c))
    && (isNew ==> mft)
    && (forall o :: 0 <= o < |code| && m.sa[o].Known? ==> k.m.sa[o] == m.sa[o])
    && (forall o :: 0 <= o < |code| && m.sa[o].Unknown? && k.m.sa[o].Known? ==>
          (jumps && o == j) || (isNew && o == off + 1))
    && (forall o :: 0 <= o < |code| && k.m.sa[o].Known? && m.sa[o].Unknown? ==> k.m.sa[o] == Known(c))
  }

  /** The facts of a round that its later steps use. */
  lemma AccountedShape(p: Program, q: Props, order: seq<nat>, code: seq<Opcode>, m0: Summary, m: Summary,
                       off: nat, a: int, mft: bool)
    requires PropsOk(p, q) && Accounted(p, q, order, code, m0, m, off, a, mft)
    ensures off < |code| == |m.sa| && m.sa[off].Known? && m.sa == m0.sa && Extends(m0, m)
    ensures m.floor <= m.sa[off].d + a && (m0.exit.Known? || m.exit.Unknown? || m.exit == m.sa[off])
  {
  }

  lemma MergedExtends(code: seq<Opcode>, m: Summary, k0: Work, k: Work, off: nat, c: int, mft: bool, isNew: bool)
    requires off < |code| && Merged(code, m, k0, k, off, c, mft, isNew)
    ensures Extends(m, k.m)
  {
  }

  /** The opcode of the round is settled by it. */
  lemma SettledNow(p: Program, q: Props, order: seq<nat>, code: seq<Opcode>, k0: Work, m: Summary, k: Work,
                   off: nat, a: int, mft: bool, isNew: bool)
    requires PropsOk(p, q) && off < |code|
    requires Accounted(p, q, order, code, k0.m, m, off, a, mft)
    requires Merged(code, m, k0, k, off, m.sa[off].d + a, mft, isNew)
    ensures Settled(p, q, order, code, k.m, off)
  {
    hide PropsOk;
  }

  /** Nothing reached is forgotten: what a round reaches is queued or comes next. */
  lemma CoveredNow(code: seq<Opcode>, k0: Work, m: Summary, k: Work, done: set<nat>, off: nat, c: int, mft: bool,
                   isNew: bool)
    requires off < |code| && Merged(code, m, k0, k, off, c, mft, isNew)
    requires m.sa == k0.m.sa && k0.tX <= |k0.queue| <= |code| && m.floor <= c && m.floor <= k0.m.floor
    requires forall o :: 0 <= o < |code| && k0.m.sa[o].Known? ==>
               k0.m.floor <= k0.m.sa[o].d && (o in done || o == off || o in k0.queue[k0.tX..])
    requires forall o :: o in k0.queue ==> o < |code| && k0.m.sa[o].Known?
    ensures forall o :: 0 <= o < |code| && k.m.sa[o].Known? ==>
              k.m.floor <= k.m.sa[o].d
              && (o in done + {off} || o in k.queue[k.tX..] || (isNew && o == off + 1))
    ensures forall o :: o in k.queue ==> o < |code| && k.m.sa[o].Known?
    ensures k.tX <= |k.queue| <= |code|
  {
    assert k.queue[k.tX..] == k0.queue[k0.tX..] + k.queue[|k0.queue|..];
    var j := off + 1 + code[off].JumpDisp();
    assert code[off].JumpDisp() != 0 ==> k.queue[|k0.queue|] == j;
    forall o | 0 <= o < |code| && k.m.sa[o].Known?
      ensures k.m.floor <= k.m.sa[o].d
      ensures o in done + {off} || o in k.queue[k.tX..] || (isNew && o == off + 1)
    {
      if m.sa[o].Unknown? && !(isNew && o == off + 1) {
        assert k.queue[k.tX..][|k0.queue| - k0.tX] == o;
      }
    }
  }

  lemma WorkVisited(p: Program, q0: Props, q: Props, order0: seq<nat>, order: seq<nat>, code: seq<Opcode>,
                    k0: Work, m: Summary, k: Work, done: set<nat>, off: nat, a: int, mft: bool, isNew: bool)
    requires PropsOk(p, q0) && PropsOk(p, q) && off < |code|
    requires forall t :: t in order0 ==> t in order && Same(q0, q, t)
    requires WorkAt(p, q0, order0, code, k0, done, off)
    requires Accounted(p, q, order, code, k0.m, m, off, a, mft)
    requires Merged(code, m, k0, k, off, m.sa[off].d + a, mft, isNew)
    ensures isNew ==> off + 1 < |code| && WorkAt(p, q, order, code, k, done + {off}, off + 1)
    ensures !isNew ==> WorkRest(p, q, order, code, k, done + {off})
  {
    hide PropsOk, Settled, Accounted;
    AccountedShape(p, q, order, code, k0.m, m, off, a, mft);
    forall o | o in done + {off}
      ensures Settled(p, q, order, code, k.m, o)
    {
      if o != off {
        MergedExtends(code, m, k0, k, off, m.sa[off].d + a, mft, isNew);
        assert Extends(k0.m, k.m);
        SettledKeeps(p, q0, q, order0, order, code, k0.m, k.m, o);
      } else {
        SettledNow(p, q, order, code, k0, m, k, off, a, mft, isNew);
      }
    }
    CoveredNow(code, k0, m, k, done, off, m.sa[off].d + a, mft, isNew);
  }

  /** Every successor is recorded at depth `c`. */
  ghost predicate Successors(m: Summary, code: seq<Opcode>, off: nat, c: int, mft: bool)
    requires off < |code|
  {
    (code[off].JumpDisp() != 0 ==> SaIs(m.sa, off + 1 + code[off].JumpDisp(), c)) && (mft ==> SaIs(m.sa, off + 1, c))
  }

  /** Depth `c` cannot be recorded at `x`. */
  predicate Clash(sa: seq<Depth>, x: int, c: int) {
    !(0 <= x < |sa|) || (sa[x].Known? && sa[x].d != c)
  }

  /** The depth table after recording `c` at the jump target `j`, if any, and at the next offset, if reached. */
  ghost predicate Recorded(sa: seq<Depth>, sa': seq<Depth>, off: nat, jumps: bool, j: int, c: int, mft: bool) {
    (jumps ==> !Clash(sa, j, c)) && (mft ==> !Clash(sa, off + 1, c))
    && var one := if jumps then sa[j := Known(c)] else sa;
       sa' == if mft then one[off + 1 := Known(c)] else one
  }

  /** The second half of a round: the depth reached is merged into the jump target and the next offset. */
  method MergeSuccessors(code: seq<Opcode>, m: Summary, k0: Work, off: nat, c: int, mft: bool)
    returns (ok: bool, full: bool, k: Work, isNew: bool)
    requires off < |code| == |m.sa| && |k0.queue| <= |code|
    ensures ok ==> Merged(code, m, k0, k, off, c, mft, isNew)
    ensures ok ==> k.tX == k0.tX && Unreached(k.m.sa) <= Unreached(m.sa) - if isNew then 1 else 0
    ensures ok ==> Queued(code, off, k0.queue, k.queue) && Fewer(m.sa, k.m.sa, off, isNew)
    ensures full ==> !ok && JumpAt(code, off) && |k0.queue| == |code|
    ensures !ok && !full ==>
              (code[off].JumpDisp() != 0 && Clash(m.sa, off + 1 + code[off].JumpDisp(), c))
              || (mft && Clash(m.sa, off + 1, c))
  {
    hide Merged;
    k, isNew, ok, full := k0.(m := m), false, true, false;
    var j := code[off].JumpDisp();
    if j != 0 {
      j := j + off + 1;
      if |k.queue| == |code| {
        return false, true, k, false;
      }
      var first: bool, sa: seq<Depth>;
      ok, first, sa := MergeSA(k.m.sa, j, c);
      if !ok {
        return;
      }
      k := Work(k.m.(sa := sa), k.queue + [j], k.tX);
    }
    if mft {
      var sa: seq<Depth>;
      ok, isNew, sa := MergeSA(k.m.sa, off + 1, c);
      if !ok {
        return;
      }
      k := k.(m := k.m.(sa := sa));
    }
    MergedBy(code, m, k0, k, off, c, mft, isNew);
  }

  lemma MergedBy(code: seq<Opcode>, m: Summary, k0: Work, k: Work, off: nat, c: int, mft: bool, isNew: bool)
    requires off < |code| == |m.sa| && |k0.queue| <= |code|
    requires var j := off + 1 + code[off].JumpDisp();
             var jumps := code[off].JumpDisp() != 0;
             Recorded(m.sa, k.m.sa, off, jumps, j, c, mft)
             && k == Work(m.(sa := k.m.sa), if jumps && j >= 0 then k0.queue + [j] else k0.queue, k0.tX)
             && (jumps ==> |k0.queue| < |code|)
    requires isNew <==> mft && off + 1 < |code| && m.sa[off + 1].Unknown?
    ensures Merged(code, m, k0, k, off, c, mft, isNew)
  {
  }

  /** A table that records every successor at depth `c` never clashes. */
  lemma NoClash(code: seq<Opcode>, m: Summary, off: nat, c: int, mft: bool, best: Summary)
    requires off < |code| && Extends(m, best) && Successors(best, code, off, c, mft)
    ensures code[off].JumpDisp() != 0 ==> !Clash(m.sa, off + 1 + code[off].JumpDisp(), c)
    ensures mft ==> !Clash(m.sa, off + 1, c)
  {
  }

  lemma MergedBelow(code: seq<Opcode>, m: Summary, k0: Work, k: Work, off: nat, c: int, mft: bool, isNew: bool,
      best: Summary)
    requires off < |code| && Merged(code, m, k0, k, off, c, mft, isNew)
    requires Extends(m, best) && Successors(best, code, off, c, mft)
    ensures Extends(k.m, best)
  {
  }

  /** What was done before stays without change while callees are analysed. */
  lemma TightMoves(p: Program, q0: Props, q: Props, order0: seq<nat>, order: seq<nat>, code: seq<Opcode>, k: Work,
                   done: set<nat>, off: nat)
    requires PropsOk(p, q0) && PropsOk(p, q) && WorkAt(p, q0, order0, code, k, done, off)
    requires forall t :: t in order0 ==> t in order && Same(q0, q, t)
    requires Tight(q0, code, k.m, done)
    ensures Tight(q, code, k.m, done)
  {
    hide Tight;
    forall o | o in done && o < |code| && code[o].Call?
      ensures code[o].target < |q0.effect| == |q.effect| && Same(q0, q, code[o].target)
    {
      assert Settled(p, q0, order0, code, k.m, o);
      if p.words[code[o].target].Native? {
        assert q0.effect[code[o].target] == q.effect[code[o].target];
      }
    }
    TightKeeps(q0, q, code, k.m, done, done);
  }

  /** Control passes on from the opcode of a round to what it reaches, with the change that was counted. */
  lemma RoundFlows(p: Program, q: Props, order: seq<nat>, code: seq<Opcode>, m0: Summary, m: Summary, off: nat,
                   a: int, mft: bool, o: nat)
    requires PropsOk(p, q) && Accounted(p, q, order, code, m0, m, off, a, mft)
    requires (code[off].JumpDisp() != 0 && o == off + 1 + code[off].JumpDisp()) || (mft && o == off + 1)
    ensures Flows(q, code, off, o) && Gain(q, code[off]) == a
  {
  }

  /** A round reaches, touches and counts nothing without a cause. */
  lemma TightRound(p: Program, q: Props, order: seq<nat>, code: seq<Opcode>, k0: Work, m: Summary, k: Work,
                   done: set<nat>, off: nat, a: int, mft: bool, isNew: bool)
    requires PropsOk(p, q) && Accounted(p, q, order, code, k0.m, m, off, a, mft) && Tight(q, code, k0.m, done)
    requires Merged(code, m, k0, k, off, m.sa[off].d + a, mft, isNew)
    ensures Tight(q, code, k.m, done + {off})
  {
    hide PropsOk, Reach, Flows;
    TightPaths(p, q, order, code, k0, m, k, done, off, a, mft, isNew);
    TightBounds(p, q, order, code, k0, m, k, done, off, a, mft, isNew);
  }

  lemma TightPaths(p: Program, q: Props, order: seq<nat>, code: seq<Opcode>, k0: Work, m: Summary, k: Work,
                   done: set<nat>, off: nat, a: int, mft: bool, isNew: bool)
    requires PropsOk(p, q) && Accounted(p, q, order, code, k0.m, m, off, a, mft) && Tight(q, code, k0.m, done)
    requires Merged(code, m, k0, k, off, m.sa[off].d + a, mft, isNew)
    ensures forall o :: 0 <= o < |k.m.sa| && k.m.sa[o].Known? ==> Reach(q, code, o, k.m.sa[o].d, done + {off})
  {
    AccountedShape(p, q, order, code, k0.m, m, off, a, mft);
    assert SameCallees(q, q, code, done);
    hide PropsOk, Reach, Flows, SameCallees, Accounted, Gain, Touches, Peaks, Nests, ReturnsAt;
    forall o | 0 <= o < |k.m.sa| && k.m.sa[o].Known? ensures Reach(q, code, o, k.m.sa[o].d, done + {off}) {
      if m.sa[o].Known? {
        ReachKeeps(q, q, code, o, m.sa[o].d, done, done + {off});
      } else {
        RoundFlows(p, q, order, code, k0.m, m, off, a, mft, o);
        ReachNext(q, code, off, m.sa[off].d, done, o);
      }
    }
  }

  lemma TightBegin(q: Props, code: seq<Opcode>, m: Summary)
    requires |code| > 0 && m == Summary(seq(|code|, _ => Unknown)[0 := Known(0)], 0, Unknown, 0, 0)
    ensures Tight(q, code, m, {})
  {
    ReachStart(q, code, {});
  }

  lemma TightFinish(p: Program, q: Props, order: seq<nat>, code: seq<Opcode>, k: Work, done: set<nat>)
    requires PropsOk(p, q) && WorkRest(p, q, order, code, k, done) && Tight(q, code, k.m, done)
    ensures Exact(q, code, k.m)
  {
    hide Tight;
    forall o | o in done ensures o in Known0(k.m) {
      assert Settled(p, q, order, code, k.m, o);
    }
    assert SameCallees(q, q, code, done);
    TightKeeps(q, q, code, k.m, done, Known0(k.m));
  }

  lemma TightBounds(p: Program, q: Props, order: seq<nat>, code: seq<Opcode>, k0: Work, m: Summary, k: Work,
                    done: set<nat>, off: nat, a: int, mft: bool, isNew: bool)
    requires PropsOk(p, q) && Accounted(p, q, order, code, k0.m, m, off, a, mft) && Tight(q, code, k0.m, done)
    requires Merged(code, m, k0, k, off, m.sa[off].d + a, mft, isNew)
    ensures k.m.floor == 0 || exists o :: o in done + {off} && Touches(q, code, k.m, o, k.m.floor)
    ensures k.m.mds == 0 || exists o :: o in done + {off} && Peaks(q, code, k.m, o, k.m.mds)
    ensures k.m.mrs == 0 || exists o :: o in done + {off} && Nests(q, code, k.m, o, k.m.mrs)
    ensures k.m.exit.Unknown? || exists o :: o in done + {off} && ReturnsAt(code, k.m, o)
  {
    hide Reach;
    MergedExtends(code, m, k0, k, off, m.sa[off].d + a, mft, isNew);
    BoundsStay(q, code, k0.m, k.m, done);
    var c := m.sa[off].d;
    assert k.m.floor != k0.m.floor ==> Touches(q, code, k.m, off, k.m.floor);
    assert k.m.mds != k0.m.mds ==> Peaks(q, code, k.m, off, k.m.mds);
    assert k.m.mrs != k0.m.mrs ==> Nests(q, code, k.m, off, k.m.mrs);
    assert k.m.exit != k0.m.exit ==> ReturnsAt(code, k.m, off);
  }

  /** Causes stay causes while more is learnt. */
  lemma BoundsStay(q: Props, code: seq<Opcode>, m0: Summary, m: Summary, done: set<nat>)
    requires Extends(m0, m) && |m0.sa| == |code|
    ensures forall o, x :: o in done && Touches(q, code, m0, o, x) ==> Touches(q, code, m, o, x)
    ensures forall o, x :: o in done && Peaks(q, code, m0, o, x) ==> Peaks(q, code, m, o, x)
    ensures forall o, x :: o in done && Nests(q, code, m0, o, x) ==> Nests(q, code, m, o, x)
    ensures forall o :: o in done && ReturnsAt(code, m0, o) && m.exit == m0.exit && m0.exit.Known? ==>
              ReturnsAt(code, m, o)
  {
  }

  datatype Snap = Snap(marks: seq<int>, q: Props, order: seq<nat>)

  /** Mark 1 is "accepted", mark 2 "under analysis"; effects of other words are the declared ones. */
  ghost predicate Consistent(p: Program, s: Snap, sums: map<nat, Summary>) {
    AllAccepted(p, s.q, s.order, sums) && AllExact(p, s.q, s.order, sums)
    && PropsOk(p, s.q) && |s.marks| == |p.words|
    && (forall w :: 0 <= w < |p.words| ==> (s.marks[w] == 1 <==> w in s.order))
    && (forall w :: w in s.order ==> w < |p.words|)
    && (forall w :: 0 <= w < |p.words| ==> 0 <= s.marks[w] <= 2)
    && (forall w :: 0 <= w < |p.words| && s.marks[w] != 1 ==> s.q.effect[w] == p.words[w].effect)
  }

  lemma ConsistentAt(p: Program, s: Snap, sums: map<nat, Summary>, w: nat)
    requires Consistent(p, s, sums) && w < |p.words|
    ensures |s.marks| == |p.words| && 0 <= s.marks[w] <= 2 && (s.marks[w] == 1 <==> w in s.order) && PropsOk(p, s.q)
    ensures s.marks[w] != 1 ==> s.q.effect[w] == p.words[w].effect
    ensures p.words[w].Native? ==> s.q.effect[w] == p.words[w].effect
    ensures forall t :: t in s.order ==> t < |p.words|
  {
    hide AllAccepted;
  }

  lemma ConsistentMark(p: Program, s: Snap, sums: map<nat, Summary>, w: nat)
    requires Consistent(p, s, sums) && w < |p.words| == |s.marks| && s.marks[w] == 0
    ensures Consistent(p, s.(marks := s.marks[w := 2]), sums)
  {
    hide AllAccepted;
  }

  /** What an analysis in between may change: nothing about words already looked at. */
  ghost predicate Grown(a: Snap, b: Snap) {
    |a.marks| == |b.marks|
    && a.order <= b.order
    && (forall w :: 0 <= w < |a.marks| && a.marks[w] != 0 ==> b.marks[w] == a.marks[w])
    && (forall w :: 0 <= w < |a.marks| && b.marks[w] == 2 ==> a.marks[w] == 2)
    && (forall w :: w in a.order ==> w in b.order && Same(a.q, b.q, w))
  }

  lemma ConsistentShape(p: Program, s: Snap, sums: map<nat, Summary>)
    requires Consistent(p, s, sums)
    ensures |s.marks| == |s.q.effect| == |s.q.maxData| == |s.q.maxRet| == |p.words| && PropsOk(p, s.q)
    ensures Grown(s, s)
  {
    hide AllAccepted;
  }

  /** Nothing is under analysis. */
  ghost predicate AtRest(s: Snap) {
    forall w :: 0 <= w < |s.marks| ==> s.marks[w] != 2
  }

  lemma RestKeeps(a: Snap, b: Snap)
    requires AtRest(a) && Grown(a, b)
    ensures AtRest(b)
  {
  }

  lemma GrownTransitive(a: Snap, b: Snap, c: Snap)
    requires Grown(a, b) && Grown(b, c)
    ensures Grown(a, c)
  {
  }

  /** From before a word is marked to after it is accepted. */
  lemma GrownRound(p: Program, a: Snap, b: Snap, c: Snap, w: nat)
    requires w < |a.marks| == |p.words| && a.marks[w] == 0 && Grown(a.(marks := a.marks[w := 2]), b)
    requires c.marks == b.marks[w := 1] && c.order == b.order + [w] && w !in a.order
    requires forall t :: 0 <= t < |p.words| && t != w ==> Same(b.q, c.q, t)
    requires forall t :: t in a.order ==> t < |p.words|
    ensures Grown(a, c)
  {
    forall t | t in a.order ensures t in c.order && Same(a.q, c.q, t) {
      assert Same(a.q, b.q, t) && Same(b.q, c.q, t);
    }
  }

  /** Properties of other words may change without harm to what was accepted. */
  lemma AcceptedKeeps(p: Program, q: Props, q': Props, order: seq<nat>, sums: map<nat, Summary>, w: nat, m: Summary,
      k: nat)
    requires AllAccepted(p, q, order, sums) && PropsOk(p, q') && w !in order && k < |order|
    requires forall t :: 0 <= t < |p.words| && t != w ==> Same(q, q', t)
    ensures AcceptedAt(p, q', order + [w], sums[w := m], k)
  {
    assert AcceptedAt(p, q, order, sums, k);
    var t := order[k];
    var code := p.words[t].code;
    assert (order + [w])[..k] == order[..k];
    assert Same(q, q', t);
    forall o | 0 <= o < |code| && sums[t].sa[o].Known?
      ensures OpOk(p, q', code, sums[t], o)
    {
      assert Settled(p, q, order, code, sums[t], o);
      forall u | u in order ensures Same(q, q', u) {
        var i :| 0 <= i < |order| && order[i] == u;
        assert AcceptedAt(p, q, order, sums, i);
      }
      SettledKeeps(p, q, q', order, order, code, sums[t], sums[t], o);
    }
  }

  /** Finishing a word changes its own properties only. */
  lemma OthersSame(p: Program, q: Props, q': Props, w: nat, se: SType, mds: int, mrs: int)
    requires PropsOk(p, q) && w < |p.words| && p.words[w].Interpreted?
    requires q' == Props(q.effect[w := se], q.maxData[w := mds], q.maxRet[w := mrs])
    ensures PropsOk(p, q') && q'.effect[w] == se && q'.maxData[w] == mds && q'.maxRet[w] == mrs
    ensures forall t :: 0 <= t < |p.words| && t != w ==> Same(q, q', t)
  {
  }

  /** The stack effect at the end of `AnalyseFlow`. */
  function Computed(m: Summary): SType {
    if m.exit.Unknown? then MakeSType(-m.floor, -1) else MakeSType(-m.floor, -m.floor + m.exit.d)
  }

  /** It fits, and a declared effect fits exactly when it is a sub-effect of that. */
  lemma ComputedFits(p: Program, q: Props, code: seq<Opcode>, m: Summary, se: SType)
    requires PropsOk(p, q) && SummaryOk(p, q, code, m)
    ensures Computed(m).IsKnown() && EffectFits(Computed(m), m.floor, m.exit)
    ensures Computed(m).IsSubOf(se) <==> EffectFits(se, m.floor, m.exit)
    ensures Computed(m).din == -m.floor && (m.exit.Unknown? ==> Computed(m).NoExit())
  {
  }

  lemma AddAccepted(p: Program, q: Props, q': Props, order: seq<nat>, sums: map<nat, Summary>, w: nat, m: Summary)
    requires AllAccepted(p, q, order, sums) && PropsOk(p, q') && w !in order
    requires forall t :: 0 <= t < |p.words| && t != w ==> Same(q, q', t)
    requires w < |p.words| && p.words[w].Interpreted?
    requires SummaryOk(p, q, p.words[w].code, m) && CalleesIn(p, p.words[w].code, m, order)
    requires q'.maxData[w] == m.mds && q'.maxRet[w] == 1 + p.words[w].numLocals + m.mrs
    requires EffectFits(q'.effect[w], m.floor, m.exit)
    ensures AllAccepted(p, q', order + [w], sums[w := m])
  {
    var order', sums' := order + [w], sums[w := m];
    forall k | 0 <= k < |order'|
      ensures AcceptedAt(p, q', order', sums', k)
    {
      if k < |order| {
        AcceptedKeeps(p, q, q', order, sums, w, m, k);
      } else {
        assert (order + [w])[..k] == order;
        SummaryKeeps(p, q, q', order, sums, w, m);
      }
    }
  }

  lemma SummaryKeeps(p: Program, q: Props, q': Props, order: seq<nat>, sums: map<nat, Summary>, w: nat, m: Summary)
    requires AllAccepted(p, q, order, sums) && PropsOk(p, q') && w !in order
    requires forall t :: 0 <= t < |p.words| && t != w ==> Same(q, q', t)
    requires w < |p.words| && p.words[w].Interpreted?
    requires SummaryOk(p, q, p.words[w].code, m) && CalleesIn(p, p.words[w].code, m, order)
    ensures SummaryOk(p, q', p.words[w].code, m)
  {
    var code := p.words[w].code;
    forall o | 0 <= o < |code| && m.sa[o].Known?
      ensures OpOk(p, q', code, m, o)
    {
      assert Settled(p, q, order, code, m, o);
      forall u | u in order ensures Same(q, q', u) {
        var i :| 0 <= i < |order| && order[i] == u;
        assert AcceptedAt(p, q, order, sums, i);
      }
      SettledKeeps(p, q, q', order, order, code, m, m, o);
    }
  }

  lemma ConsistentAdd(p: Program, s: Snap, s': Snap, sums: map<nat, Summary>, w: nat, m: Summary)
    requires Consistent(p, s, sums) && w < |p.words| == |s.marks| && s.marks[w] == 2 && p.words[w].Interpreted?
    requires s'.marks == s.marks[w := 1] && s'.order == s.order + [w]
    requires |s.q.effect| == |s.q.maxData| == |s.q.maxRet| == |p.words| == |s'.q.effect|
    requires s'.q == Props(s.q.effect[w := s'.q.effect[w]], s.q.maxData[w := m.mds],
                           s.q.maxRet[w := 1 + p.words[w].numLocals + m.mrs])
    requires PropsOk(p, s.q) && SummaryOk(p, s.q, p.words[w].code, m) && CalleesIn(p, p.words[w].code, m, s.order)
    requires EffectFits(s'.q.effect[w], m.floor, m.exit)
    requires Exact(s.q, p.words[w].code, m)
    requires !p.words[w].effect.IsKnown() ==>
               s'.q.effect[w].din == -m.floor && (m.exit.Unknown? ==> s'.q.effect[w].NoExit())
    ensures Consistent(p, s', sums[w := m])
    ensures forall t :: 0 <= t < |p.words| && t != w ==> Same(s.q, s'.q, t)
  {
    hide AllAccepted, PropsOk, SummaryOk, CalleesIn, AllExact;
    OthersSame(p, s.q, s'.q, w, s'.q.effect[w], m.mds, 1 + p.words[w].numLocals + m.mrs);
    AddAccepted(p, s.q, s'.q, s.order, sums, w, m);
    AddExact(p, s.q, s'.q, s.order, sums, w, m);
  }

  lemma AddExact(p: Program, q: Props, q': Props, order: seq<nat>, sums: map<nat, Summary>, w: nat, m: Summary)
    requires AllAccepted(p, q, order, sums) && AllExact(p, q, order, sums)
    requires PropsOk(p, q) && PropsOk(p, q') && w !in order
    requires forall t :: 0 <= t < |p.words| && t != w ==> Same(q, q', t)
    requires w < |p.words| && p.words[w].Interpreted? && CalleesIn(p, p.words[w].code, m, order)
    requires Exact(q, p.words[w].code, m)
    requires !p.words[w].effect.IsKnown() ==>
               q'.effect[w].din == -m.floor && (m.exit.Unknown? ==> q'.effect[w].NoExit())
    ensures AllExact(p, q', order + [w], sums[w := m])
  {
    hide Tight, SameCallees, AllAccepted;
    var order', sums' := order + [w], sums[w := m];
    forall k | 0 <= k < |order'|
      ensures ExactAt(p, q', order', sums', k)
    {
      if k < |order| {
        assert ExactAt(p, q, order, sums, k);
        AcceptedCallees(p, q, order, sums, k);
        assert Same(q, q', order[k]);
        SameBelow(p, q, q', order, w, p.words[order[k]].code, sums[order[k]]);
        TightKeeps(q, q', p.words[order[k]].code, sums[order[k]], Known0(sums[order[k]]), Known0(sums[order[k]]));
      } else {
        SameBelow(p, q, q', order, w, p.words[w].code, m);
        TightKeeps(q, q', p.words[w].code, m, Known0(m), Known0(m));
      }
    }
  }

  lemma AcceptedCallees(p: Program, q: Props, order: seq<nat>, sums: map<nat, Summary>, k: nat)
    requires AllAccepted(p, q, order, sums) && k < |order|
    ensures order[k] in sums && order[k] < |p.words| && p.words[order[k]].Interpreted?
    ensures CalleesIn(p, p.words[order[k]].code, sums[order[k]], order)
  {
    assert AcceptedAt(p, q, order, sums, k);
  }

  lemma SameBelow(p: Program, q: Props, q': Props, order: seq<nat>, w: nat, code: seq<Opcode>, m: Summary)
    requires PropsOk(p, q) && PropsOk(p, q') && w !in order && CalleesIn(p, code, m, order)
    requires w < |p.words| && p.words[w].Interpreted?
    requires forall t :: 0 <= t < |p.words| && t != w ==> Same(q, q', t)
    ensures SameCallees(q, q', code, Known0(m))
  {
    forall o | o in Known0(m) && o < |code| && code[o].Call?
      ensures code[o].target != w && Same(q, q', code[o].target)
    {
    }
  }

  /** Any certificate of acceptability for words of the program, and the place of one word in it. */
  datatype Goal = Goal(q: Props, order: seq<nat>, sums: map<nat, Summary>, k: nat)

  ghost predicate Certificate(p: Program, g: Goal) {
    AllAccepted(p, g.q, g.order, g.sums)
    && forall w :: w in g.order && w < |p.words| && p.words[w].effect.IsKnown() ==> g.q.effect[w] == p.words[w].effect
  }

  /** What was found about `t` is at least as good as what the certificate says. */
  ghost predicate Within(q: Props, g: Props, t: nat) {
    t < |q.effect| == |q.maxData| == |q.maxRet| && t < |g.effect| == |g.maxData| == |g.maxRet|
    && q.effect[t].IsSubOf(g.effect[t]) && q.maxData[t] <= g.maxData[t] && q.maxRet[t] <= g.maxRet[t]
  }

  ghost predicate Least(s: Snap, g: Goal) {
    forall t :: t in s.order && t in g.order ==> Within(s.q, g.q, t)
  }

  /** The certificate covers `w`, and no word under analysis comes before `w` in it. */
  ghost predicate Led(p: Program, s: Snap, g: Goal, w: nat) {
    Certificate(p, g) && Least(s, g) && g.k < |g.order| && g.order[g.k] == w && w !in g.order[..g.k]
    && forall u :: 0 <= u < |s.marks| && s.marks[u] == 2 ==> u !in g.order[..g.k]
  }

  lemma LedKeeps(p: Program, s: Snap, s': Snap, g: Goal, w: nat)
    requires Led(p, s, g, w) && Grown(s, s') && Least(s', g)
    ensures Led(p, s', g, w)
  {
    hide Certificate;
  }

  /** The certificate's own view of the opcode at a reached offset. */
  lemma LedHere(p: Program, s: Snap, g: Goal, w: nat)
    requires Led(p, s, g, w)
    ensures PropsOk(p, g.q) && w in g.sums && Accepted(p, g.q, w, g.sums[w])
    ensures CalleesIn(p, p.words[w].code, g.sums[w], g.order[..g.k])
    ensures p.words[w].effect.IsKnown() ==> g.q.effect[w] == p.words[w].effect
  {
    assert AcceptedAt(p, g.q, g.order, g.sums, g.k);
  }

  /** The callee comes earlier in the certificate. */
  lemma LedCallee(p: Program, s: Snap, g: Goal, w: nat, t: nat) returns (g': Goal)
    requires g.k <= |g.order| && Led(p, s, g, w) && t in g.order[..g.k]
    ensures g' == g.(k := g'.k) && Led(p, s, g', t) && (t < |s.marks| ==> s.marks[t] != 2)
  {
    hide AllAccepted;
    var k := First(g.order[..g.k], t);
    g' := g.(k := k);
    assert g.order[..k] == g.order[..g.k][..k];
  }

  lemma LedReturn(p: Program, s: Snap, s': Snap, g: Goal, g': Goal, w: nat, t: nat)
    requires Led(p, s, g, w) && Grown(s, s') && g' == g.(k := g'.k) && Least(s', g')
    requires g.k <= |g.order| && t in g.order[..g.k] && t in s'.order
    ensures Led(p, s', g, w) && t < |s'.q.effect| && s'.q.effect[t].IsKnown()
  {
    LedKeeps(p, s, s', g, w);
    assert t in g.order && Within(s'.q, g.q, t);
  }

  /** Whatever the opcode at `off` does, the certificate allows it. */
  lemma LedAccount(p: Program, s: Snap, g: Goal, w: nat, m0: Summary, off: nat, m: Summary, a: int, mft: bool)
    requires PropsOk(p, s.q) && Led(p, s, g, w) && w in g.sums && w < |p.words| && p.words[w].Interpreted?
    requires Extends(m0, g.sums[w]) && off < |m0.sa|
    requires Accounted(p, s.q, s.order, p.words[w].code, m0, m, off, a, mft)
    ensures Extends(m, g.sums[w]) && Successors(g.sums[w], p.words[w].code, off, m.sa[off].d + a, mft)
  {
    LedHere(p, s, g, w);
    hide Certificate;
    var code := p.words[w].code;
    assert OpOk(p, g.q, code, g.sums[w], off);
    if code[off].Call? {
      LedCall(p, s, g, w, code[off].target);
    }
  }

  lemma LedCall(p: Program, s: Snap, g: Goal, w: nat, t: nat)
    requires PropsOk(p, s.q) && Led(p, s, g, w) && t < |p.words|
    requires if p.words[t].Native? then s.q.effect[t].IsKnown() else t in s.order && t in g.order
    ensures Within(s.q, g.q, t)
  {
    LedHere(p, s, g, w);
  }

  lemma ExtendsBy(m: Summary, m': Summary)
    requires m'.sa == m.sa && m'.floor <= m.floor && m.mds <= m'.mds && m.mrs <= m'.mrs
    requires m.exit.Known? ==> m'.exit == m.exit
    ensures Extends(m, m')
  {
  }

  lemma NoNative(p: Program, s: Snap, g: Goal, w: nat)
    requires w < |p.words| && p.words[w].Native?
    ensures !Led(p, s, g, w)
  {
    if Led(p, s, g, w) { LedHere(p, s, g, w); }
  }

  lemma LedLeast(p: Program, s: Snap, g: Goal, w: nat)
    ensures Led(p, s, g, w) ==> Least(s, g)
  {
  }

  /** Marking `w` itself disturbs nothing. */
  lemma LedMark(p: Program, s: Snap, s': Snap, g: Goal, w: nat)
    requires Led(p, s, g, w) && w < |s.marks| && s' == s.(marks := s.marks[w := 2])
    ensures Led(p, s', g, w)
  {
    hide Certificate;
  }

  lemma LedBegin(p: Program, s: Snap, g: Goal, w: nat, m: Summary)
    requires Led(p, s, g, w) && w < |p.words| && p.words[w].Interpreted?
    requires m == Summary(seq(|p.words[w].code|, _ => Unknown), 0, Unknown, 0, 0)
    ensures |p.words[w].code| > 0 && w in g.sums && Extends(m.(sa := m.sa[0 := Known(0)]), g.sums[w])
  {
    LedHere(p, s, g, w);
  }

  lemma LedOp(p: Program, s: Snap, g: Goal, w: nat, m0: Summary, off: nat)
    requires Led(p, s, g, w) && w in g.sums && w < |p.words| && p.words[w].Interpreted?
    requires Extends(m0, g.sums[w]) && off < |m0.sa| == |p.words[w].code| && m0.sa[off].Known?
    ensures PropsOk(p, g.q) && g.k <= |g.order|
    ensures var op := p.words[w].code[off];
            (op.Call? ==> op.target < |p.words| && g.q.effect[op.target].IsKnown()
                          && (p.words[op.target].Interpreted? ==> op.target in g.order[..g.k])
                          && (p.words[op.target].Native? ==> p.words[op.target].effect.IsKnown()))
            && (op.Ret? ==> m0.exit.Known? ==> m0.exit == m0.sa[off])
  {
    LedHere(p, s, g, w);
    assert OpOk(p, g.q, p.words[w].code, g.sums[w], off);
  }

  /** What the loop computes is a sub-effect of what the certificate declares. */
  lemma LedComputed(p: Program, s: Snap, g: Goal, w: nat, m: Summary)
    requires Led(p, s, g, w) && w in g.sums && Extends(m, g.sums[w]) && PropsOk(p, s.q)
    requires w < |p.words| && p.words[w].Interpreted? && SummaryOk(p, s.q, p.words[w].code, m)
    ensures PropsOk(p, g.q) && EffectFits(g.q.effect[w], m.floor, m.exit)
    ensures p.words[w].effect.IsKnown() ==> g.q.effect[w] == p.words[w].effect
    ensures m.mds <= g.q.maxData[w] && 1 + p.words[w].numLocals + m.mrs <= g.q.maxRet[w]
  {
    LedHere(p, s, g, w);
  }

  lemma LedAdd(p: Program, s: Snap, s': Snap, g: Goal, w: nat, m: Summary)
    requires Led(p, s, g, w) && s'.order == s.order + [w] && Within(s'.q, g.q, w)
    requires forall t :: 0 <= t < |p.words| && t != w ==> Same(s.q, s'.q, t)
    ensures Least(s', g)
  {
    forall t | t in s'.order && t in g.order
      ensures Within(s'.q, g.q, t)
    {
      if t != w {
        assert Within(s.q, g.q, t);
        var i :| 0 <= i < |g.order| && g.order[i] == t;
        assert AcceptedAt(p, g.q, g.order, g.sums, i);
        assert Same(s.q, s'.q, t);
      }
    }
  }

  class Analyser {
    const p: Program
    var flowAnalysis: seq<int>
    var effect: seq<SType>
    var maxDataStack: seq<int>
    var maxReturnStack: seq<int>

    /** Words accepted so far, oldest first, with what was found about each. */
    ghost var order: seq<nat>
    ghost var sums: map<nat, Summary>

    constructor (p: Program)
      ensures this.p == p && Valid() && order == []
      ensures forall w :: 0 <= w < |p.words| ==> flowAnalysis[w] == 0
    {
      this.p := p;
      flowAnalysis := seq(|p.words|, _ => 0);
      effect := seq(|p.words|, i requires 0 <= i < |p.words| => p.words[i].effect);
      maxDataStack := seq(|p.words|, i requires 0 <= i < |p.words| =>
                          if p.words[i].Native? then NativeMaxData(p.words[i].effect) else 0);
      maxReturnStack := seq(|p.words|, _ => 0);
      order := [];
      sums := map[];
    }

    ghost function Q(): Props
      reads this
    {
      Props(effect, maxDataStack, maxReturnStack)
    }

    ghost predicate Valid()
      reads this
    {
      Consistent(p, Now(), sums)
    }

    /** Words not yet looked at. */
    ghost function Untouched(): set<nat>
      reads this
    {
      set w: nat | w < |flowAnalysis| && flowAnalysis[w] == 0
    }

    ghost function Now(): Snap
      reads this
    {
      Snap(flowAnalysis, Q(), order)
    }

    /**
     * `AnalyseFlow`; failure stands for the exceptions, and `full` tells an overflow of the queue from the others.
     * A word that any certificate `g` covers is accepted, unless a queue overflows, and what is found is at least as
     * good.
     */
    method AnalyseFlow(w: nat, ghost g: Goal) returns (ok: bool, full: bool)
      requires Valid() && w < |p.words|
      modifies this
      ensures ok ==> Valid() && Grown(old(Now()), Now()) && (p.words[w].Interpreted? ==> flowAnalysis[w] == 1)
      ensures old(Led(p, Now(), g, w) && flowAnalysis[w] != 2) ==> if ok then Least(Now(), g) else full
      ensures p.words[w].Native? ==> ok && Now() == old(Now())
      ensures full ==> !ok && !Calm(p)
      ensures ok && p.words[w].Interpreted? && old(flowAnalysis[w]) == 0 ==>
                w in sums && NoCircle(p.words[w].code, sums[w])
      decreases Untouched(), 0
    {
      hide Consistent, SummaryOk, CalleesIn, PropsOk, Led, Least, Exact;
      ConsistentAt(p, Now(), sums, w);
      ConsistentShape(p, Now(), sums);
      full := false;
      if p.words[w].Native? {
        NoNative(p, Now(), g, w);
        return true, false;
      }
      if flowAnalysis[w] == 1 {
        LedLeast(p, Now(), g, w);
        return true, false;
      } else if flowAnalysis[w] != 0 {
        return false, false;
      }
      ghost var led := Led(p, Now(), g, w);
      ghost var entry := Now();
      ConsistentMark(p, entry, sums, w);
      flowAnalysis := flowAnalysis[w := 2];
      assert w in old(Untouched()) && w !in Untouched();
      if led { LedMark(p, entry, Now(), g, w); }
      var m: Summary, rounds: nat;
      ok, full, m, rounds := Explore(w, g);
      if !ok {
        return;
      }
      ghost var found := Now();
      ok := Conclude(w, m, g);
      if ok { GrownRound(p, entry, found, Now(), w); }
    }

    /** The end of `AnalyseFlow`: the properties of the word follow from what the loop found. */
    method Conclude(w: nat, m: Summary, ghost g: Goal) returns (ok: bool)
      requires Valid() && w < |p.words| && p.words[w].Interpreted? && flowAnalysis[w] == 2
      requires SummaryOk(p, Q(), p.words[w].code, m) && CalleesIn(p, p.words[w].code, m, order)
      requires Exact(Q(), p.words[w].code, m)
      modifies this
      ensures ok ==> Valid() && flowAnalysis == old(flowAnalysis)[w := 1] && order == old(order) + [w]
      ensures ok ==> sums == old(sums)[w := m]
      ensures ok ==> forall t :: 0 <= t < |p.words| && t != w ==> Same(old(Q()), Q(), t)
      ensures old(Led(p, Now(), g, w)) && w in g.sums && Extends(m, g.sums[w]) ==> ok && Least(Now(), g)
    {
      hide Consistent, SummaryOk, CalleesIn, PropsOk, Led, Least, Extends, Same, Computed, Exact;
      ConsistentAt(p, Now(), sums, w);
      ConsistentShape(p, Now(), sums);
      ghost var before, found := Now(), sums;
      maxDataStack := maxDataStack[w := m.mds];
      maxReturnStack := maxReturnStack[w := 1 + p.words[w].numLocals + m.mrs];
      var computed := Computed(m);
      ComputedFits(p, before.q, p.words[w].code, m, effect[w]);
      ghost var led := Led(p, before, g, w) && w in g.sums && Extends(m, g.sums[w]);
      if led {
        LedComputed(p, before, g, w, m);
        ComputedFits(p, before.q, p.words[w].code, m, g.q.effect[w]);
      }
      if effect[w].IsKnown() {
        if !computed.IsSubOf(effect[w]) {
          return false;
        }
      } else {
        effect := effect[w := computed];
      }
      flowAnalysis := flowAnalysis[w := 1];
      order := order + [w];
      sums := sums[w := m];
      ConsistentAdd(p, before, Now(), found, w, m);
      if led { LedAdd(p, before, Now(), g, w, m); }
      ok := true;
    }

    /** The loop. It takes at most two rounds per opcode, and never ends where control gets into a circle of jumps. */
    method Explore(w: nat, ghost g: Goal) returns (ok: bool, full: bool, m: Summary, rounds: nat)
      requires Valid() && w < |p.words| && p.words[w].Interpreted? && flowAnalysis[w] == 2
      modifies this
      ensures rounds <= 2 * |p.words[w].code|
      ensures ok ==> Valid() && Grown(old(Now()), Now())
      ensures ok ==> SummaryOk(p, Q(), p.words[w].code, m) && CalleesIn(p, p.words[w].code, m, order)
      ensures old(Led(p, Now(), g, w)) ==>
                if ok then Led(p, Now(), g, w) && w in g.sums && Extends(m, g.sums[w]) else full
      ensures full ==> !ok && !Calm(p)
      ensures ok ==> NoCircle(p.words[w].code, m) && Exact(Q(), p.words[w].code, m)
      decreases Untouched(), 4
    {
      hide Consistent, WorkOk, SummaryOk, CalleesIn, PropsOk, Led, Extends, Room, Calm, Queued, Trapped, Free, Fewer,
           Tight, Exact;
      ConsistentShape(p, Now(), sums);
      var code := p.words[w].code;
      var n := |code|;
      rounds := 0;
      var k := Work(Summary(seq(n, _ => Unknown), 0, Unknown, 0, 0), [], 0);
      m := k.m;
      full := false;
      ghost var led := Led(p, Now(), g, w);
      if led { LedBegin(p, Now(), g, w, k.m); }
      if n == 0 {
        return false, false, m, rounds;
      }
      WorkBegin(p, Q(), order, code, k, {}, {0});
      k := k.(m := k.m.(sa := k.m.sa[0 := Known(0)]));
      if Calm(p) { CalmRoom(p, w, k); }
      var off: nat := 0;
      ghost var done: set<nat> := {};
      TrapBegin(code, k.queue, k.tX, off);
      TightBegin(Q(), code, k.m);
      while true
        invariant Valid() && Grown(old(Now()), Now()) && PropsOk(p, Q())
        invariant off < n && WorkAt(p, Q(), order, code, k, done, off)
        invariant rounds + Unreached(k.m.sa) + n - k.tX <= 2 * n - 1 && k.tX <= n && k.tX <= |k.queue|
        invariant Calm(p) ==> Room(code, k.m.sa, k.queue, k.tX, off)
        invariant Trapped(code, k.queue, k.tX, off, done) && Tight(Q(), code, k.m, done)
        invariant led ==> Led(p, Now(), g, w) && w in g.sums && Extends(k.m, g.sums[w])
        decreases Unreached(k.m.sa) + n - k.tX
      {
        rounds := rounds + 1;
        var isNew: bool;
        ghost var before := Now();
        ghost var k0 := k;
        ok, full, k, isNew := Visit(w, off, k, done, g);
        if !ok {
          if full && Calm(p) { RoomLeft(code, k0.m.sa, k0.queue, k0.tX, off); }
          return;
        }
        GrownTransitive(old(Now()), before, Now());
        ConsistentShape(p, Now(), sums);
        TrapNext(code, k0.queue, k.queue, k.tX, off, done);
        if Calm(p) { RoomNext(code, k0.m.sa, k.m.sa, k0.queue, k.queue, k.tX, off, isNew); }
        done := done + {off};
        if isNew {
          off := off + 1;
        } else if k.tX < |k.queue| {
          WorkDequeue(p, Q(), order, code, k, done);
          off := k.queue[k.tX];
          k := k.(tX := k.tX + 1);
        } else {
          break;
        }
      }
      WorkFinish(p, Q(), order, code, k, done);
      TightFinish(p, Q(), order, code, k, done);
      WorkDone(p, Q(), order, code, k, done);
      m := k.m;
      ok := true;
    }

    /** One round: the opcode at `off`, up to the merge with the next offset. */
    method Visit(w: nat, off: nat, k0: Work, ghost done: set<nat>, ghost g: Goal)
      returns (ok: bool, full: bool, k: Work, isNew: bool)
      requires Valid() && w < |p.words| && p.words[w].Interpreted? && flowAnalysis[w] == 2
      requires off < |p.words[w].code| && WorkAt(p, Q(), order, p.words[w].code, k0, done, off)
      requires Tight(Q(), p.words[w].code, k0.m, done)
      modifies this
      ensures ok ==> Valid() && Grown(old(Now()), Now())
      ensures ok ==> k.tX == k0.tX && Unreached(k.m.sa) <= Unreached(k0.m.sa) - if isNew then 1 else 0
      ensures ok ==> Queued(p.words[w].code, off, k0.queue, k.queue) && |k0.queue| <= |k.queue|
      ensures ok ==> Fewer(k0.m.sa, k.m.sa, off, isNew) && |k.m.sa| == |p.words[w].code|
      ensures full ==> !ok && (Calm(p) ==> JumpAt(p.words[w].code, off) && |k0.queue| == |p.words[w].code|)
      ensures ok && isNew ==>
                off + 1 < |p.words[w].code| && WorkAt(p, Q(), order, p.words[w].code, k, done + {off}, off + 1)
      ensures ok && !isNew ==> WorkRest(p, Q(), order, p.words[w].code, k, done + {off})
      ensures ok ==> Tight(Q(), p.words[w].code, k.m, done + {off})
      ensures old(Led(p, Now(), g, w)) && w in g.sums && Extends(k0.m, g.sums[w]) ==>
                if ok then Led(p, Now(), g, w) && Extends(k.m, g.sums[w]) else full
      decreases Untouched(), 3
    {
      hide Consistent, PropsOk, WorkOk, Accounted, Merged, Led, Extends, Successors, Tight;
      ConsistentShape(p, Now(), sums);
      var code := p.words[w].code;
      ghost var before := Now();
      ghost var led := Led(p, Now(), g, w) && w in g.sums && Extends(k0.m, g.sums[w]);
      WorkShape(p, Q(), order, code, k0, done, off);
      var m: Summary, a: int, mft: bool;
      ok, full, m, a, mft := Account(w, off, k0.m, g);
      k, isNew := k0.(m := m), false;
      if !ok {
        return;
      }
      ConsistentShape(p, Now(), sums);
      AccountedShape(p, Q(), order, code, k0.m, m, off, a, mft);
      ok, full, k, isNew := MergeSuccessors(code, m, k0, off, m.sa[off].d + a, mft);
      if led {
        NoClash(code, m, off, m.sa[off].d + a, mft, g.sums[w]);
      }
      if !ok {
        return;
      }
      if led {
        MergedBelow(code, m, k0, k, off, m.sa[off].d + a, mft, isNew, g.sums[w]);
      }
      TightMoves(p, before.q, Q(), before.order, order, code, k0, done, off);
      TightRound(p, Q(), order, code, k0, m, k, done, off, a, mft, isNew);
      WorkVisited(p, before.q, Q(), before.order, order, code, k0, m, k, done, off, a, mft, isNew);
    }

    /** The first half of a round: the effect of the opcode on the depth, with the callee analysed first. */
    method Account(w: nat, off: nat, m0: Summary, ghost g: Goal)
      returns (ok: bool, full: bool, m: Summary, a: int, mft: bool)
      requires Valid() && w < |p.words| && p.words[w].Interpreted? && flowAnalysis[w] == 2
      requires off < |p.words[w].code| == |m0.sa| && m0.sa[off].Known?
      modifies this
      ensures ok ==> Valid() && Grown(old(Now()), Now())
      ensures ok ==> Accounted(p, Q(), order, p.words[w].code, m0, m, off, a, mft)
      ensures old(Led(p, Now(), g, w)) && w in g.sums && Extends(m0, g.sums[w]) ==>
                if ok then Led(p, Now(), g, w) && Extends(m, g.sums[w])
                           && Successors(g.sums[w], p.words[w].code, off, m.sa[off].d + a, mft)
                else full
      ensures full ==> !ok && !Calm(p)
      decreases Untouched(), 2
    {
      hide Consistent, PropsOk, Led, Successors, Extends, Grown;
      ConsistentShape(p, Now(), sums);
      var op := p.words[w].code[off];
      var c := m0.sa[off].d;
      m, a, mft := m0, 0, op.MayFallThrough();
      ok, full := true, false;
      ghost var entry := Now();
      ghost var led := Led(p, entry, g, w) && w in g.sums && Extends(m0, g.sums[w]);
      if led { LedOp(p, entry, g, w, m0, off); }
      if op.Call? {
        var t := op.target;
        if t >= |p.words| {
          return false, false, m, a, mft;
        }
        ok, full := Callee(w, t, g);
        if !ok {
          return;
        }
        ConsistentShape(p, Now(), sums);
        var se := effect[t];
        if !se.IsKnown() {
          return false, false, m, a, mft;
        }
        if se.NoExit() {
          mft := false;
        } else {
          a := Delta(se);
        }
        m := m.(mds := Max(m.mds, c + maxDataStack[t]), mrs := Max(m.mrs, maxReturnStack[t]),
                floor := Min(m.floor, c - se.din));
      } else if op.Ret? {
        if m.exit.Unknown? {
          m := m.(exit := Known(c));
        } else if m.exit.d != c {
          return false, false, m, a, mft;
        }
      } else {
        a := op.StackAction();
        m := m.(mds := Max(m.mds, c + a));
      }
      m := m.(floor := Min(m.floor, c + a));
      ExtendsBy(m0, m);
      if led { LedAccount(p, Now(), g, w, m0, off, m, a, mft); }
    }

    /** The callee is analysed first. */
    method Callee(w: nat, t: nat, ghost g: Goal) returns (ok: bool, full: bool)
      requires Valid() && w < |p.words| && t < |p.words|
      modifies this
      ensures ok ==> Valid() && Grown(old(Now()), Now()) && (p.words[t].Interpreted? ==> t in order)
      ensures old(Led(p, Now(), g, w)) && (p.words[t].Interpreted? ==> g.k <= |g.order| && t in g.order[..g.k]) ==>
                if ok then Led(p, Now(), g, w) else full
      ensures ok && old(Led(p, Now(), g, w))
                && (p.words[t].Interpreted? ==> g.k <= |g.order| && t in g.order[..g.k]) ==>
                (p.words[t].effect.IsKnown() || p.words[t].Interpreted? ==> effect[t].IsKnown())
      ensures full ==> !ok && !Calm(p)
      decreases Untouched(), 1
    {
      hide Consistent, PropsOk, Led, Least;
      ConsistentAt(p, Now(), sums, t);
      ghost var entry := Now();
      ghost var led := Led(p, entry, g, w) && (p.words[t].Interpreted? ==> g.k <= |g.order| && t in g.order[..g.k]);
      ghost var g' := g;
      if led && p.words[t].Interpreted? {
        g' := LedCallee(p, entry, g, w, t);
      }
      ok, full := AnalyseFlow(t, g');
      if ok { ConsistentAt(p, Now(), sums, t); }
      if ok && led && p.words[t].Interpreted? {
        LedReturn(p, entry, Now(), g, g', w, t);
      }
    }
  }

  const SPIN := Program([Interpreted(0, [Jump(-1)], UNKNOWN)], map[])
  const SPIN_PROPS := Props([SType(0, -1)], [0], [1])
  const SPIN_SUMMARY := Summary([Known(0)], 0, Unknown, 0, 0)

  /**
   * `begin again` has a certificate, so it is safe to run, yet `AnalyseFlow` refuses it: the queue overflows,
   * since a jump that is met again queues its target again.
   */
  lemma SpinIsSafe()
    ensures Certificate(SPIN, Goal(SPIN_PROPS, [0], map[0 := SPIN_SUMMARY], 0)) && Circle(SPIN.words[0].code, [0])
  {
    assert PropsOk(SPIN, SPIN_PROPS);
    assert OpOk(SPIN, SPIN_PROPS, SPIN.words[0].code, SPIN_SUMMARY, 0);
    assert AcceptedAt(SPIN, SPIN_PROPS, [0], map[0 := SPIN_SUMMARY], 0);
  }

  method SpinRefused() returns (ok: bool, full: bool)
    ensures !ok && full
  {
    SpinIsSafe();
    var g := Goal(SPIN_PROPS, [0], map[0 := SPIN_SUMMARY], 0);
    var a := new Analyser(SPIN);
    ok, full := a.AnalyseFlow(0, g);
    if ok {
      StartReached(SPIN, a.Now(), a.sums, 0);
      CircleEndless(SPIN.words[0].code, [0], 0);
    }
  }

  /** `: foo drop ;`, with or without the declaration `( a -- )`. */
  function DropWord(declared: bool): Program {
    Program([Native("drop", SType(1, 0)), Interpreted(0, [Call(0), Ret], if declared then SType(1, 0) else UNKNOWN)],
            map[])
  }

  const DROP_PROPS := Props([SType(1, 0), SType(1, 0)], [-1, 0], [0, 1])
  const DROP_SUMMARY := Summary([Known(0), Known(-1)], -1, Known(-1), 0, 0)

  lemma DropCovered(declared: bool)
    ensures Certificate(DropWord(declared), Goal(DROP_PROPS, [1], map[1 := DROP_SUMMARY], 0))
    ensures Calm(DropWord(declared))
  {
    var p := DropWord(declared);
    assert PropsOk(p, DROP_PROPS);
    assert OpOk(p, DROP_PROPS, p.words[1].code, DROP_SUMMARY, 0);
    assert OpOk(p, DROP_PROPS, p.words[1].code, DROP_SUMMARY, 1);
    assert AcceptedAt(p, DROP_PROPS, [1], map[1 := DROP_SUMMARY], 0);
    DirectCalm(p);
  }

  /** Control comes to both its opcodes. */
  lemma DropComes(declared: bool, q: Props)
    requires |q.effect| == 2 && q.effect[0] == SType(1, 0)
    ensures Comes(q, DropWord(declared).words[1].code, 0, 0) && Comes(q, DropWord(declared).words[1].code, 1, -1)
  {
    var code := DropWord(declared).words[1].code;
    assert FlowPath(q, code, [0]) && Along(q, code, [0]) == 0;
    assert FlowPath(q, code, [0, 1]) && [0, 1][..1] == [0] && Along(q, code, [0, 1]) == -1;
  }

  /** It is accepted, and its effect is to take one and leave nothing, whether that was declared or found. */
  method DropAccepted(declared: bool) returns (ok: bool, se: SType)
    ensures ok && se == SType(1, 0)
  {
    DropCovered(declared);
    var p := DropWord(declared);
    var g := Goal(DROP_PROPS, [1], map[1 := DROP_SUMMARY], 0);
    var a := new Analyser(p);
    var full: bool;
    ok, full := a.AnalyseFlow(1, g);
    ConsistentShape(p, a.Now(), a.sums);
    ConsistentAt(p, a.Now(), a.sums, 0);
    ConsistentAt(p, a.Now(), a.sums, 1);
    se := a.effect[1];
    assert Within(a.Q(), DROP_PROPS, 1);
    EffectMeans(p, a.Q(), a.order, a.sums, First(a.order, 1));
    DropComes(declared, a.Q());
  }

  /** Control gets to the first opcode of an accepted word. */
  lemma StartReached(p: Program, s: Snap, sums: map<nat, Summary>, w: nat)
    requires Consistent(p, s, sums) && w in s.order
    ensures w in sums && |sums[w].sa| > 0 && sums[w].sa[0].Known?
  {
    assert AcceptedAt(p, s.q, s.order, sums, First(s.order, w));
  }
}
