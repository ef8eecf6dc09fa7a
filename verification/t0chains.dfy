/** Jumps that lead to jumps, and the queue of `AnalyseFlow`, bearssl-0.5/T0/WordInterpreted.cs. */
module T0Chains {
  import opened T0Machine
  import opened T0Flow

  predicate JumpAt(code: seq<Opcode>, o: int) {
    0 <= o < |code| && code[o].JumpDisp() != 0
  }

  function Target(code: seq<Opcode>, o: int): int
    requires JumpAt(code, o)
  {
    o + 1 + code[o].JumpDisp()
  }

  /** The number of jumps met by following targets from `o`, up to `f` of them. */
  function Chain(code: seq<Opcode>, o: int, f: nat): (c: nat)
    ensures c <= f
    decreases f
  {
    if f == 0 || !JumpAt(code, o) then 0 else 1 + Chain(code, Target(code, o), f - 1)
  }

  /** A chain shorter than its bound is whole. */
  lemma {:induction false} ChainWhole(code: seq<Opcode>, o: int, f: nat)
    requires Chain(code, o, f) < f
    ensures Chain(code, o, f + 1) == Chain(code, o, f)
    decreases f
  {
    if JumpAt(code, o) { ChainWhole(code, Target(code, o), f - 1); }
  }

  /** What the offset `o` can add to the queue: one entry for each jump on its chain. */
  function Weight(code: seq<Opcode>, o: int): nat {
    Chain(code, o, |code| + 1)
  }

  /** A jump weighs one more than what it leads to, unless it weighs more than the queue can hold. */
  lemma WeightStep(code: seq<Opcode>, o: int)
    requires JumpAt(code, o) && Weight(code, o) <= |code|
    ensures Weight(code, o) == 1 + Weight(code, Target(code, o))
  {
    ChainWhole(code, Target(code, o), |code|);
  }

  /** The weights of the offsets not reached yet. */
  function Left(code: seq<Opcode>, sa: seq<Depth>): nat {
    if sa == [] then 0
    else Left(code, sa[..|sa| - 1]) + if sa[|sa| - 1].Unknown? then Weight(code, |sa| - 1) else 0
  }

  /** The weight of a whole word. */
  function TotalWeight(code: seq<Opcode>): nat {
    Left(code, seq(|code|, _ => Unknown))
  }

  /** The queue has room for all the jumps of every word, counted with the chains that they start. */
  predicate Calm(p: Program) {
    forall w :: 0 <= w < |p.words| && p.words[w].Interpreted? ==> TotalWeight(p.words[w].code) <= |p.words[w].code|
  }

  /** A round reaches more offsets, among them the next one if it is new. */
  ghost predicate Fewer(sa: seq<Depth>, sa': seq<Depth>, off: nat, isNew: bool) {
    |sa| == |sa'| && (forall o :: 0 <= o < |sa| && sa[o].Known? ==> sa'[o].Known?)
    && (isNew ==> off + 1 < |sa| && sa[off + 1].Unknown? && sa'[off + 1].Known?)
  }

  lemma {:induction false} LeftDrops(code: seq<Opcode>, sa: seq<Depth>, sa': seq<Depth>, x: nat)
    requires |sa| == |sa'| && forall o :: 0 <= o < |sa| && sa[o].Known? ==> sa'[o].Known?
    requires x < |sa| ==> sa[x].Unknown? && sa'[x].Known?
    ensures Left(code, sa') + (if x < |sa| then Weight(code, x) else 0) <= Left(code, sa)
  {
    if sa != [] {
      var n := |sa| - 1;
      LeftDrops(code, sa[..n], sa'[..n], if x < n then x else n);
    }
  }

  /** The weights of the queue entries still to be explored. */
  function Waiting(code: seq<Opcode>, queue: seq<nat>, tX: nat): nat
    requires tX <= |queue|
    decreases |queue| - tX
  {
    if tX == |queue| then 0 else Weight(code, queue[tX]) + Waiting(code, queue, tX + 1)
  }

  lemma {:induction false} WaitingMore(code: seq<Opcode>, queue: seq<nat>, tX: nat, j: nat)
    requires tX <= |queue|
    ensures Waiting(code, queue + [j], tX) == Waiting(code, queue, tX) + Weight(code, j)
    decreases |queue| - tX
  {
    if tX < |queue| {
      WaitingMore(code, queue, tX + 1, j);
    } else {
      assert (queue + [j])[tX] == j && Waiting(code, queue + [j], tX + 1) == 0;
    }
  }

  /** A round at `off` queues the target of a jump, and nothing else. */
  ghost predicate Queued(code: seq<Opcode>, off: nat, queue: seq<nat>, queue': seq<nat>) {
    if JumpAt(code, off) then 0 <= Target(code, off) < |code| && queue' == queue + [Target(code, off)]
    else queue' == queue
  }

  /** The queue has room for what is still to come: from the offset in hand, the queue, and the offsets not reached. */
  ghost predicate Room(code: seq<Opcode>, sa: seq<Depth>, queue: seq<nat>, tX: nat, off: nat) {
    off < |code| && tX <= |queue|
    && |queue| + Waiting(code, queue, tX) + Left(code, sa) + Weight(code, off) <= |code|
  }

  lemma RoomBegin(code: seq<Opcode>)
    requires |code| > 0 && TotalWeight(code) <= |code|
    ensures Room(code, seq(|code|, _ => Unknown)[0 := Known(0)], [], 0, 0)
  {
    var none: seq<Depth> := seq(|code|, _ => Unknown);
    LeftDrops(code, none, none[0 := Known(0)], 0);
  }

  lemma RoomNext(code: seq<Opcode>, sa0: seq<Depth>, sa: seq<Depth>, queue0: seq<nat>, queue: seq<nat>, tX: nat,
                 off: nat, isNew: bool)
    requires Room(code, sa0, queue0, tX, off) && Queued(code, off, queue0, queue) && Fewer(sa0, sa, off, isNew)
    requires |sa| == |code|
    ensures isNew ==> Room(code, sa, queue, tX, off + 1)
    ensures !isNew && tX < |queue| && queue[tX] < |code| ==> Room(code, sa, queue, tX + 1, queue[tX])
  {
    LeftDrops(code, sa0, sa, if isNew then off + 1 else |sa|);
    if JumpAt(code, off) {
      WeightStep(code, off);
      WaitingMore(code, queue0, tX, Target(code, off));
    }
  }

  lemma RoomLeft(code: seq<Opcode>, sa: seq<Depth>, queue: seq<nat>, tX: nat, off: nat)
    requires Room(code, sa, queue, tX, off) && JumpAt(code, off)
    ensures |queue| < |code|
  {
  }

  /** Following targets from `o` never ends. */
  ghost predicate Endless(code: seq<Opcode>, o: int) {
    forall f: nat :: Chain(code, o, f) == f
  }

  lemma EndlessStep(code: seq<Opcode>, o: int)
    requires Endless(code, o)
    ensures JumpAt(code, o) && Endless(code, Target(code, o))
  {
    assert Chain(code, o, 1) == 1;
    forall f: nat ensures Chain(code, Target(code, o), f) == f {
      assert Chain(code, o, f + 1) == f + 1;
    }
  }

  /** Jumps that lead to one another in a circle. */
  predicate Circle(code: seq<Opcode>, c: seq<nat>) {
    c != [] && forall i :: 0 <= i < |c| ==>
      JumpAt(code, c[i]) && Target(code, c[i]) == c[if i + 1 < |c| then i + 1 else 0]
  }

  lemma {:induction false} CircleChain(code: seq<Opcode>, c: seq<nat>, i: nat, f: nat)
    requires Circle(code, c) && i < |c|
    ensures Chain(code, c[i], f) == f
    decreases f
  {
    if f > 0 { CircleChain(code, c, if i + 1 < |c| then i + 1 else 0, f - 1); }
  }

  lemma CircleEndless(code: seq<Opcode>, c: seq<nat>, i: nat)
    requires Circle(code, c) && i < |c|
    ensures Endless(code, c[i])
  {
    forall f: nat ensures Chain(code, c[i], f) == f {
      CircleChain(code, c, i, f);
    }
  }

  /** An endless chain waits in the queue. */
  ghost predicate Stuck(code: seq<Opcode>, queue: seq<nat>, tX: nat) {
    exists i :: tX <= i < |queue| && Endless(code, queue[i])
  }

  /** Once an endless chain was met, one is in hand or waits in the queue. */
  ghost predicate Trapped(code: seq<Opcode>, queue: seq<nat>, tX: nat, off: nat, done: set<nat>) {
    forall o :: o in done && Endless(code, o) ==> Endless(code, off) || Stuck(code, queue, tX)
  }

  /** Nothing met so far leads into a circle of jumps. */
  ghost predicate Free(code: seq<Opcode>, done: set<nat>) {
    forall o :: o in done ==> !Endless(code, o)
  }

  lemma TrapBegin(code: seq<Opcode>, queue: seq<nat>, tX: nat, off: nat)
    ensures Trapped(code, queue, tX, off, {})
  {
  }

  lemma TrapNext(code: seq<Opcode>, queue0: seq<nat>, queue: seq<nat>, tX: nat, off: nat, done: set<nat>)
    requires Trapped(code, queue0, tX, off, done) && Queued(code, off, queue0, queue) && tX <= |queue0|
    ensures Trapped(code, queue, tX, off + 1, done + {off})
    ensures tX < |queue| ==> Trapped(code, queue, tX + 1, queue[tX], done + {off})
    ensures tX >= |queue| ==> Free(code, done + {off})
  {
    hide Endless;
    if o :| o in done + {off} && Endless(code, o) {
      assert Endless(code, off) || Stuck(code, queue0, tX);
      if Endless(code, off) {
        EndlessStep(code, off);
        assert queue[|queue0|] == Target(code, off);
      } else {
        var i :| tX <= i < |queue0| && Endless(code, queue0[i]);
        assert queue[i] == queue0[i];
      }
      assert Stuck(code, queue, tX);
    }
  }

  /** From `o` control can pass to `o'` within the word: along a jump, or past an opcode or a call that returns. */
  predicate Flows(q: Props, code: seq<Opcode>, o: nat, o': nat) {
    o < |code|
    && if code[o].Call? then
         o' == o + 1 && code[o].target < |q.effect| && q.effect[code[o].target].IsKnown()
         && !q.effect[code[o].target].NoExit()
       else !code[o].Ret?
            && ((code[o].JumpDisp() != 0 && o' == o + 1 + code[o].JumpDisp())
                 || (code[o].MayFallThrough() && o' == o + 1))
  }

  predicate FlowPath(q: Props, code: seq<Opcode>, path: seq<nat>) {
    path != [] && path[0] == 0 && forall i :: 0 <= i < |path| - 1 ==> Flows(q, code, path[i], path[i + 1])
  }

  /** Wherever control can get, the depth is known. */
  lemma {:induction false} FlowReached(p: Program, q: Props, code: seq<Opcode>, m: Summary, path: seq<nat>, i: nat)
    requires PropsOk(p, q) && SummaryOk(p, q, code, m) && FlowPath(q, code, path) && i < |path|
    ensures path[i] < |m.sa| && m.sa[path[i]].Known?
    decreases i
  {
    if i > 0 {
      FlowReached(p, q, code, m, path, i - 1);
      assert OpOk(p, q, code, m, path[i - 1]) && Flows(q, code, path[i - 1], path[i]);
    }
  }

  /** No reached offset leads into a circle of jumps. */
  ghost predicate NoCircle(code: seq<Opcode>, m: Summary) {
    forall o :: 0 <= o < |m.sa| && m.sa[o].Known? ==> !Endless(code, o)
  }

  /** So a word whose control can get into a circle of jumps is not among those that the loop finishes. */
  lemma CircleUnreachable(p: Program, q: Props, code: seq<Opcode>, m: Summary, path: seq<nat>, c: seq<nat>)
    requires PropsOk(p, q) && SummaryOk(p, q, code, m) && NoCircle(code, m)
    requires FlowPath(q, code, path) && Circle(code, c)
    ensures path[|path| - 1] !in c
  {
    FlowReached(p, q, code, m, path, |path| - 1);
    if path[|path| - 1] in c {
      var i :| 0 <= i < |c| && c[i] == path[|path| - 1];
      CircleEndless(code, c, i);
    }
  }

  lemma {:induction false} DirectLight(code: seq<Opcode>, sa: seq<Depth>)
    requires |sa| <= |code| && forall o :: JumpAt(code, o) ==> !JumpAt(code, Target(code, o))
    ensures Left(code, sa) <= |sa|
    decreases |sa|
  {
    if sa != [] {
      DirectLight(code, sa[..|sa| - 1]);
      if JumpAt(code, |sa| - 1) { assert Chain(code, Target(code, |sa| - 1), |code|) == 0; }
    }
  }

  /** A program in which no jump leads to a jump is calm. */
  lemma DirectCalm(p: Program)
    requires forall w, o :: 0 <= w < |p.words| && p.words[w].Interpreted? && JumpAt(p.words[w].code, o) ==>
               !JumpAt(p.words[w].code, Target(p.words[w].code, o))
    ensures Calm(p)
  {
    forall w | 0 <= w < |p.words| && p.words[w].Interpreted?
      ensures TotalWeight(p.words[w].code) <= |p.words[w].code|
    {
      var code := p.words[w].code;
      DirectLight(code, seq(|code|, _ => Unknown));
    }
  }
}
