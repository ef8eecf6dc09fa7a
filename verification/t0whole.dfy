/** The first half and the second half of `Generate` together: what was analysed is what runs. */
module T0Whole {
  import opened T0Machine
  import opened T0Flow
  import A = T0Analyse
  import X = T0Exact
  import T = T0Chains
  import G = T0Gen
  import V = T0Vm
  import C = T0Structured

  /** No run of the given length reads a local that was never written. */
  ghost predicate DefinedRun(p: Program, s: State, n: nat) {
    forall k :: 0 <= k < n ==> V.Defined(p, Run(p, s, k))
  }

  lemma AcceptedGoodStep(p: Program, q: Props, order: seq<nat>, sums: map<nat, Summary>, t: nat, G: nat,
                         a: seq<u32>, args: seq<u32>, dcap: nat, rcap: nat, k: nat)
    requires ProgramOk(p) && AllAccepted(p, q, order, sums) && NativesRespect(p, G)
    requires t in order && t < |p.words| && p.words[t].Interpreted? && |args| == q.effect[t].din
    requires q.maxRet[t] <= rcap && |a| + |args| + q.maxData[t] + G <= dcap
    requires V.Defined(p, Run(p, Start(p, t, a + args), k))
    ensures V.GoodStep(p, Run(p, Start(p, t, a + args), k), dcap, rcap)
  {
    hide Step, V.ReturnUse, AllAccepted, NativesRespect, ProgramOk, V.Defined;
    FlowSound(p, q, order, sums, t, G, a, a, args, k + 1);
    RunStep(p, Start(p, t, a + args), k);
  }

  /**
   * An accepted word, compiled, never faults: given the stack sizes that the analysis announces, the emitted loop
   * goes wherever the CPU goes, for any number of steps, and never reaches below its arguments.
   */
  lemma AcceptedImageRuns(p: Program, q: Props, order: seq<nat>, sums: map<nat, Summary>, t: nat, G: nat, g: V.Gen,
                          a: seq<u32>, args: seq<u32>, rmem: seq<u32>, dcap: nat, n: nat)
    requires ProgramOk(p) && AllAccepted(p, q, order, sums) && NativesRespect(p, G) && V.Compiled(p, g)
    requires t in order && t < |p.words| && p.words[t].Interpreted? && |args| == q.effect[t].din
    requires q.maxRet[t] <= |rmem| && |a| + |args| + q.maxData[t] + G <= dcap
    requires DefinedRun(p, Start(p, t, a + args), n)
    ensures |g.slots| == |p.words| && g.slots[t] >= g.img.slotInterpreted
    ensures var v := V.VRunN(g.img, p.prims, dcap, V.VStart(g.img, g.slots[t], a + args, rmem), n);
            V.Sim(p, g, Run(p, Start(p, t, a + args), n), v) && v != V.VFault
            && (v.VRun? ==> |a| <= |v.ds| && v.ds[..|a|] == a)
            && (v.VExit? ==> |a| <= |v.result| == |a| + q.effect[t].dout && v.result[..|a|] == a)
  {
    hide AllAccepted, NativesRespect, ProgramOk, V.Compiled, V.Defined, V.GoodStep, V.VStep, Step, V.FramesMatch,
         V.ReturnUse;
    var s := Start(p, t, a + args);
    forall k | 0 <= k < n ensures V.GoodStep(p, Run(p, s, k), dcap, |rmem|) {
      AcceptedGoodStep(p, q, order, sums, t, G, a, args, dcap, |rmem|, k);
    }
    RoomForFrame(p, q, order, sums, t, G);
    V.ImagePreservesMeaning(p, g, t, a + args, rmem, dcap, n);
    FlowSound(p, q, order, sums, t, G, a, a, args, n);
  }

  lemma RoomForFrame(p: Program, q: Props, order: seq<nat>, sums: map<nat, Summary>, t: nat, G: nat)
    requires ProgramOk(p) && AllAccepted(p, q, order, sums) && NativesRespect(p, G)
    requires t in order && t < |p.words| && p.words[t].Interpreted?
    ensures 1 + p.words[t].numLocals <= q.maxRet[t]
  {
    EntryFacts(Limits(p, q, order, sums, t, 0, G), t);
  }

  /** A certificate for the entry points, within the limits. */
  ghost predicate Wanted(p: Program, want: A.Goal, entries: seq<nat>, dsLimit: int, rsLimit: int) {
    A.Certificate(p, want)
    && forall i :: 0 <= i < |entries| ==> Checked(want.q, want.order, entries[i], dsLimit, rsLimit)
  }

  /**
   * `Generate`: analyse the entry points, check the limits, refuse entry points in C, then emit the code. Whatever
   * has a certificate within the limits is compiled, unless the queue is short of room or a local count does not fit.
   */
  method Compile(p: Program, entries: seq<nat>, dsLimit: int, rsLimit: int, ghost want: A.Goal)
    returns (ok: bool, img: V.Image, ghost g: V.Gen, ghost cert: A.Goal)
    requires ProgramOk(p) && G.Fair(p) && forall i :: 0 <= i < |entries| ==> entries[i] < |p.words|
    ensures ok ==> AllAccepted(p, cert.q, cert.order, cert.sums) && X.AllExact(p, cert.q, cert.order, cert.sums)
    ensures ok ==> forall i :: 0 <= i < |entries| ==>
                     p.words[entries[i]].Interpreted? && Checked(cert.q, cert.order, entries[i], dsLimit, rsLimit)
    ensures ok && |img.code| < V.PACK && G.LocalsFit(p, img.ob) ==> V.Compiled(p, g)
    ensures ok ==> g.img == img
    ensures Wanted(p, want, entries, dsLimit, rsLimit) && T.Calm(p) && G.LocalsFitByte(p) ==> ok
  {
    hide ProgramOk, V.Compiled, AllAccepted, X.AllExact, PropsOk, A.Certificate, T.Calm, G.LocalsFitByte, G.Fair;
    img := V.Image([], [], 0, false, []);
    g := V.Gen([], [], [], [], img);
    ok, cert := Analyse(p, entries, dsLimit, rsLimit, want);
    if !ok {
      return;
    }
    for i := 0 to |entries|
      invariant forall j :: 0 <= j < i ==> p.words[entries[j]].Interpreted?
    {
      if p.words[entries[i]].Native? {
        if Wanted(p, want, entries, dsLimit, rsLimit) { WantedInterpreted(p, want, entries[i]); }
        return false, img, g, cert;
      }
    }
    ok, img, g := G.Generate(p);
  }

  /** The loop over the entry points. */
  method Analyse(p: Program, entries: seq<nat>, dsLimit: int, rsLimit: int, ghost want: A.Goal)
    returns (ok: bool, ghost cert: A.Goal)
    requires forall i :: 0 <= i < |entries| ==> entries[i] < |p.words|
    ensures ok ==> AllAccepted(p, cert.q, cert.order, cert.sums) && X.AllExact(p, cert.q, cert.order, cert.sums)
    ensures ok ==> forall i :: 0 <= i < |entries| && p.words[entries[i]].Interpreted? ==>
                     Checked(cert.q, cert.order, entries[i], dsLimit, rsLimit)
    ensures Wanted(p, want, entries, dsLimit, rsLimit) && T.Calm(p) ==> ok
  {
    hide AllAccepted, X.AllExact, PropsOk, A.Certificate, T.Calm, A.Grown, A.Least, A.Consistent;
    var an := new A.Analyser(p);
    ok := true;
    ghost var wanted := Wanted(p, want, entries, dsLimit, rsLimit);
    cert := A.Goal(an.Q(), an.order, an.sums, 0);
    LeastAtFirst(an.Now(), want);
    A.ConsistentShape(p, an.Now(), an.sums);
    var i := 0;
    while i < |entries|
      invariant 0 <= i <= |entries| && ok
      invariant an.Valid() && an.p == p
      invariant A.AtRest(an.Now())
      invariant wanted ==> A.Least(an.Now(), want)
      invariant forall j :: 0 <= j < i && p.words[entries[j]].Interpreted? ==>
                  Checked(an.Q(), an.order, entries[j], dsLimit, rsLimit)
    {
      ghost var before := an.Now();
      var e := entries[i];
      ghost var goal := want;
      A.ConsistentShape(p, an.Now(), an.sums);
      if wanted {
        WantedInterpreted(p, want, e);
        goal := WantedHere(p, before, want, e, dsLimit, rsLimit);
      }
      var full: bool;
      ok, full := an.AnalyseFlow(e, goal);
      if !ok {
        return;
      }
      A.ConsistentShape(p, an.Now(), an.sums);
      A.ConsistentAt(p, an.Now(), an.sums, e);
      A.RestKeeps(before, an.Now());
      if wanted {
        WithinLimits(p, an.Now(), want, goal, e, dsLimit, rsLimit);
      }
      forall j | 0 <= j < i && p.words[entries[j]].Interpreted?
        ensures Checked(an.Q(), an.order, entries[j], dsLimit, rsLimit)
      {
        CheckedKeeps(before, an.Now(), entries[j], dsLimit, rsLimit);
      }
      if an.maxDataStack[e] > dsLimit || an.maxReturnStack[e] > rsLimit {
        return false, cert;
      }
      i := i + 1;
    }
    AcceptedNow(p, an.Now(), an.sums);
    cert := A.Goal(an.Q(), an.order, an.sums, 0);
  }

  lemma LeastAtFirst(s: A.Snap, want: A.Goal)
    requires s.order == []
    ensures A.Least(s, want)
  {
  }

  lemma AcceptedNow(p: Program, s: A.Snap, sums: map<nat, Summary>)
    requires A.Consistent(p, s, sums)
    ensures AllAccepted(p, s.q, s.order, sums) && X.AllExact(p, s.q, s.order, sums)
  {
  }

  lemma WantedInterpreted(p: Program, want: A.Goal, e: nat)
    requires A.Certificate(p, want) && e in want.order
    ensures e < |p.words| && p.words[e].Interpreted?
  {
    assert AcceptedAt(p, want.q, want.order, want.sums, First(want.order, e));
  }

  /** The place of an entry point in the certificate. */
  lemma WantedHere(p: Program, s: A.Snap, want: A.Goal, e: nat, dsLimit: int, rsLimit: int) returns (g: A.Goal)
    requires A.Certificate(p, want) && A.Least(s, want) && A.AtRest(s)
             && Checked(want.q, want.order, e, dsLimit, rsLimit)
    ensures g == want.(k := g.k) && A.Led(p, s, g, e) && (e < |s.marks| ==> s.marks[e] != 2)
  {
    hide AllAccepted;
    g := want.(k := First(want.order, e));
  }

  /** What the analysis finds is within the limits if the certificate is. */
  lemma WithinLimits(p: Program, s: A.Snap, want: A.Goal, g: A.Goal, e: nat, dsLimit: int, rsLimit: int)
    requires g == want.(k := g.k) && A.Least(s, g) && e in s.order && Checked(want.q, want.order, e, dsLimit, rsLimit)
    ensures A.Least(s, want)
    ensures e < |s.q.maxData| && e < |s.q.maxRet| && s.q.maxData[e] <= dsLimit && s.q.maxRet[e] <= rsLimit
  {
    assert A.Within(s.q, g.q, e);
  }

  lemma CheckedKeeps(s: A.Snap, s': A.Snap, e: nat, dsLimit: int, rsLimit: int)
    requires A.Grown(s, s') && Checked(s.q, s.order, e, dsLimit, rsLimit)
    ensures Checked(s'.q, s'.order, e, dsLimit, rsLimit)
  {
  }

  ghost predicate Checked(q: Props, order: seq<nat>, e: nat, dsLimit: int, rsLimit: int) {
    e in order && e < |q.maxData| && e < |q.maxRet| && q.maxData[e] <= dsLimit && q.maxRet[e] <= rsLimit
  }

  /** Bodies whose leaves make sense give acceptable words. */
  ghost predicate BodiesOk(x: C.World) {
    C.WorldOk(x)
    && forall w :: 0 <= w < |x.p.words| ==>
         match x.p.words[w]
         case Native(cc, _) => cc in x.p.prims && PrimOk(x.p.prims[cc])
         case Interpreted(nl, _, _) => C.LeavesOk(x.p, nl, x.bodies[w])
  }

  lemma BodiesGiveProgram(x: C.World)
    requires BodiesOk(x)
    ensures ProgramOk(x.p)
  {
    forall w | 0 <= w < |x.p.words| ensures WordOk(x.p, x.p.words[w]) {
      if x.p.words[w].Interpreted? {
        C.BuiltOk(x.p, x.p.words[w].numLocals, x.bodies[w]);
      }
    }
  }

  /** The emitted loop ends with `r` after some number of turns. */
  ghost predicate Exits(p: Program, g: V.Gen, dcap: nat, v: V.Vm, r: seq<u32>) {
    exists n: nat :: V.VRunN(g.img, p.prims, dcap, v, n) == V.VExit(r)
  }

  /**
   * From source to bytes: for an accepted entry point, the emitted code run by the emitted loop ends with result
   * `r` exactly when the structured source, evaluated without any jump, does.
   */
  lemma SourceToBytes(x: C.World, q: Props, order: seq<nat>, sums: map<nat, Summary>, t: nat, G: nat, g: V.Gen,
                      args: seq<u32>, rmem: seq<u32>, dcap: nat, r: seq<u32>)
    requires BodiesOk(x) && AllAccepted(x.p, q, order, sums) && NativesRespect(x.p, G) && V.Compiled(x.p, g)
    requires t in order && t < |x.p.words| && x.p.words[t].Interpreted? && |args| == q.effect[t].din
    requires q.maxRet[t] <= |rmem| && |args| + q.maxData[t] + G <= dcap
    requires forall n: nat :: DefinedRun(x.p, Start(x.p, t, args), n)
    ensures |g.slots| == |x.p.words| && g.slots[t] >= g.img.slotInterpreted
    ensures Exits(x.p, g, dcap, V.VStart(g.img, g.slots[t], args, rmem), r) <==> C.Means(x, t, args, Done(r))
  {
    BodiesGiveProgram(x);
    hide BodiesOk, AllAccepted, NativesRespect, ProgramOk, V.Compiled, V.VStep, Step, DefinedRun;
    InStep(x.p, q, order, sums, t, G, g, args, rmem, dcap, 0, r);
    ghost var v := V.VStart(g.img, g.slots[t], args, rmem);
    if Exits(x.p, g, dcap, v, r) {
      var n: nat :| V.VRunN(g.img, x.p.prims, dcap, v, n) == V.VExit(r);
      InStep(x.p, q, order, sums, t, G, g, args, rmem, dcap, n, r);
      assert C.Reaches(x, t, args, Done(r));
    }
    if C.Reaches(x, t, args, Done(r)) {
      var n: nat :| Run(x.p, Start(x.p, t, args), n) == Done(r);
      InStep(x.p, q, order, sums, t, G, g, args, rmem, dcap, n, r);
    }
    World(x);
    C.ControlFlowPreservesMeaning(x, t, args, Done(r));
  }

  lemma World(x: C.World)
    requires BodiesOk(x)
    ensures C.WorldOk(x)
  {
  }

  lemma InStep(p: Program, q: Props, order: seq<nat>, sums: map<nat, Summary>, t: nat, G: nat, g: V.Gen,
               args: seq<u32>, rmem: seq<u32>, dcap: nat, n: nat, r: seq<u32>)
    requires ProgramOk(p) && AllAccepted(p, q, order, sums) && NativesRespect(p, G) && V.Compiled(p, g)
    requires t in order && t < |p.words| && p.words[t].Interpreted? && |args| == q.effect[t].din
    requires q.maxRet[t] <= |rmem| && |args| + q.maxData[t] + G <= dcap
    requires DefinedRun(p, Start(p, t, args), n)
    ensures |g.slots| == |p.words| && g.slots[t] >= g.img.slotInterpreted
    ensures V.VRunN(g.img, p.prims, dcap, V.VStart(g.img, g.slots[t], args, rmem), n) == V.VExit(r)
            <==> Run(p, Start(p, t, args), n) == Done(r)
  {
    hide AllAccepted, NativesRespect, ProgramOk, V.Compiled, V.VStep, Step, DefinedRun;
    assert [] + args == args;
    AcceptedImageRuns(p, q, order, sums, t, G, g, [], args, rmem, dcap, n);
  }
}
