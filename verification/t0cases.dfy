/** Concrete programs on which the CPU and the emitted code part. */
module T0Cases {
  import opened SevenE
  import opened StackEffects
  import opened T0Layout
  import opened T0Vm
  import M = T0Machine
  import A = T0Analyse
  import C = T0Structured
  import F = T0Flow
  import G = T0Gen
  import T = T0Chains
  import W = T0Whole

  /** A word that returns a local it never wrote. */
  const READS_LOCAL := M.Program([M.Interpreted(1, [M.GetLocal(0), M.Ret], UNKNOWN)], map[])

  /** What `Generate` makes of it. */
  const IMAGE := Image([1, 2, 0, 0], [0], 7, true, [])
  const LENGTHS: seq<nat> := [1, 2, 1]
  const ELEMS := [UInt(1), UIntUInt(2, 0), UInt(0)]

  lemma Addresses()
    ensures Addr(LENGTHS, 0) == 0 && Addr(LENGTHS, 1) == 1 && Addr(LENGTHS, 2) == 3 && Sum(LENGTHS) == 4
  {
    assert LENGTHS[..0] == [] && LENGTHS[..1][..0] == [] && LENGTHS[..1] == [1];
    assert LENGTHS[..2] == [1, 2] && LENGTHS[..2][..1] == [1];
  }

  lemma Chunks()
    ensures ULen(0) == 1 && Emit(0, 1) == [0]
  {
    ShrZero(0);
    assert Emit(0, 0) == [];
  }

  lemma ImageLaid()
    ensures Laid(ELEMS, true, LENGTHS, IMAGE.code) && NextLens(ELEMS, true, LENGTHS) == LENGTHS
  {
    Addresses();
    Chunks();
    assert EncodeElem(ELEMS, true, LENGTHS, 0) == [1];
    assert EncodeElem(ELEMS, true, LENGTHS, 1) == [2] + [0];
    assert EncodeElem(ELEMS, true, LENGTHS, 2) == [0];
    assert LaidAt(ELEMS, true, LENGTHS, IMAGE.code, 0) && LaidAt(ELEMS, true, LENGTHS, IMAGE.code, 1)
        && LaidAt(ELEMS, true, LENGTHS, IMAGE.code, 2);
  }

  /** The image is the faithful translation. */
  lemma ImageCompiled()
    ensures Compiled(READS_LOCAL, Gen([7], [0], ELEMS, LENGTHS, IMAGE))
  {
    hide Laid, NextLens;
    ImageLaid();
    Addresses();
    var p := READS_LOCAL;
    assert M.WordOk(p, p.words[0]);
    assert OpPlaced(p, [7], [0], ELEMS, 0, 0) && OpPlaced(p, [7], [0], ELEMS, 0, 1);
    assert WordPlaced(p, [7], [0], ELEMS, 0);
  }

  /** The CPU clears the local. */
  lemma CpuReturnsZero()
    ensures M.Run(READS_LOCAL, M.Start(READS_LOCAL, 0, []), 2) == M.Done([0])
  {
    var p := READS_LOCAL;
    var f := M.Frame(M.Top, [0], {});
    var s0 := M.Start(p, 0, []);
    assert M.Zeros(1) == [0] && [] + [f] == [f];
    assert s0 == M.Running(0, 0, [], [f]);
    var s1 := M.Step(p, s0);
    assert s1 == M.Running(0, 1, [0], [f]);
    assert M.Step(p, s1) == M.Done([0]);
    assert M.Run(p, s0, 2) == M.Run(p, s1, 1) == M.Run(p, M.Step(p, s1), 0);
  }

  /** The emitted code returns what the return stack happened to hold. */
  lemma LoopReturnsCell(rmem: seq<u32>, dcap: nat)
    requires |rmem| >= 2 && dcap >= 1
    ensures VRunN(IMAGE, map[], dcap, VStart(IMAGE, 7, [], rmem), 2) == VExit([rmem[0]])
  {
    var code := IMAGE.code;
    var packed := rmem[1 := PACK];
    var v0 := VRun(1, [], packed, 2);
    assert ParseU(code, 0, 0) == Parsed(1, 1);
    assert PackWord(0, 1) == PACK;
    assert VStart(IMAGE, 7, [], rmem) == v0;
    assert ParseU(code, 2, 0) == Parsed(0, 3);
    var v1 := VStep(IMAGE, map[], dcap, v0);
    assert v1 == VRun(3, [rmem[0]], packed, 2);
    assert VStep(IMAGE, map[], dcap, v1) == VExit([rmem[0]]);
    assert VRunN(IMAGE, map[], dcap, v0, 2) == VRunN(IMAGE, map[], dcap, v1, 1);
    assert VRunN(IMAGE, map[], dcap, v1, 1) == VRunN(IMAGE, map[], dcap, VExit([rmem[0]]), 0);
  }

  /** So the two machines end alike exactly when that cell was zero. */
  lemma DirtyCellSeen(rmem: seq<u32>, dcap: nat)
    requires |rmem| >= 2 && dcap >= 1
    ensures Compiled(READS_LOCAL, Gen([7], [0], ELEMS, LENGTHS, IMAGE))
    ensures var s := M.Run(READS_LOCAL, M.Start(READS_LOCAL, 0, []), 2);
            var v := VRunN(IMAGE, map[], dcap, VStart(IMAGE, 7, [], rmem), 2);
            s == M.Done([0]) && v == VExit([rmem[0]])
            && (Sim(READS_LOCAL, Gen([7], [0], ELEMS, LENGTHS, IMAGE), s, v) <==> rmem[0] == 0)
  {
    hide Compiled, VStep, M.Step;
    ImageCompiled();
    CpuReturnsZero();
    LoopReturnsCell(rmem, dcap);
    assert [rmem[0]][0] == rmem[0] && [0][0] == 0;
  }

  /** A count of 128 locals, written as a raw byte before a zero, is read back as no locals at all. */
  lemma CountMisread()
    ensures ParseU([128, 0], 0, 0) == Parsed(0, 2)
  {
    assert ParseU([128, 0], 0, 0) == ParseU([128, 0], 1, 0);
  }

  /** The numbers of the built-in words and how the return word is packed. */
  lemma OpcodeNumbers(slots: seq<nat>, entry: nat, off: nat, a: nat, n: nat)
    requires a < 0x1_0000 && n < 0x1_0000
    ensures ToElem(slots, entry, M.Ret, off) == UInt(0) && ToElem(slots, entry, M.Const(-3), off) == UIntInt(1, -3)
    ensures ToElem(slots, entry, M.GetLocal(4), off) == UIntUInt(2, 4)
    ensures ToElem(slots, entry, M.PutLocal(4), off) == UIntUInt(3, 4)
    ensures ToElem(slots, entry, M.Jump(7), off) == Elem.Jump(4, entry + off + 9)
    ensures ToElem(slots, entry, M.JumpIf(7), off) == Elem.Jump(5, entry + off + 9)
    ensures ToElem(slots, entry, M.JumpIfNot(7), off) == Elem.Jump(6, entry + off + 9)
    ensures PackWord(a, n) % 0x1_0000 == a && PackWord(a, n) / 0x1_0000 == n
  {
  }

  /** `: seven 7 ;` */
  const SEVEN := M.Program([M.Interpreted(0, [M.Const(7), M.Ret], UNKNOWN)], map[])
  const SEVEN_SOURCE := C.World(SEVEN, [C.Basic(M.Const(7))])
  const SEVEN_PROPS := F.Props([SType(0, 1)], [1], [1])
  const SEVEN_SUMMARY := F.Summary([F.Known(0), F.Known(1)], 0, F.Known(1), 1, 0)

  lemma SevenFits()
    ensures W.BodiesOk(SEVEN_SOURCE) && F.NativesRespect(SEVEN, 0) && G.Fair(SEVEN) && G.LocalsFit(SEVEN, true)
    ensures F.AllAccepted(SEVEN, SEVEN_PROPS, [0], map[0 := SEVEN_SUMMARY])
  {
    var q, m := SEVEN_PROPS, SEVEN_SUMMARY;
    assert F.PropsOk(SEVEN, q);
    assert F.OpOk(SEVEN, q, SEVEN.words[0].code, m, 0) && F.OpOk(SEVEN, q, SEVEN.words[0].code, m, 1);
    assert F.AcceptedAt(SEVEN, q, [0], map[0 := m], 0);
    assert C.Comp(C.Basic(M.Const(7))) == [M.Const(7)];
    assert G.Size(SEVEN, 1) == G.Size(SEVEN, 0) + 3;
  }

  lemma SevenDefined(n: nat)
    ensures W.DefinedRun(SEVEN, M.Start(SEVEN, 0, []), n)
  {
    var s0 := M.Start(SEVEN, 0, []);
    var s1 := M.Step(SEVEN, s0);
    var s2 := M.Step(SEVEN, s1);
    assert s0.frames != [] && s0.w == 0 && s0.off == 0 && s1 == M.Running(0, 1, [7], s0.frames) && s2.Done?;
    forall k | 0 <= k < n ensures Defined(SEVEN, M.Run(SEVEN, s0, k)) {
      if k == 1 {
        assert M.Run(SEVEN, s0, 1) == M.Run(SEVEN, s1, 0);
      } else if k >= 2 {
        assert M.Run(SEVEN, s0, 2) == M.Run(SEVEN, s1, 1) == M.Run(SEVEN, s2, 0);
        M.FinalOnce(SEVEN, s0, 2, k);
      }
    }
  }

  /** All the way: whatever bytes it is compiled to, they end with 7. */
  lemma SevenRuns(g: Gen, rmem: seq<u32>, dcap: nat)
    requires Compiled(SEVEN, g) && |rmem| >= 1 && dcap >= 1
    ensures |g.slots| == 1 && g.slots[0] >= g.img.slotInterpreted
    ensures W.Exits(SEVEN, g, dcap, VStart(g.img, g.slots[0], [], rmem), [7])
  {
    hide Compiled, W.BodiesOk, W.DefinedRun, W.Exits, F.AllAccepted, F.NativesRespect;
    SevenFits();
    forall n: nat ensures W.DefinedRun(SEVEN, M.Start(SEVEN, 0, []), n) {
      SevenDefined(n);
    }
    W.SourceToBytes(SEVEN_SOURCE, SEVEN_PROPS, [0], map[0 := SEVEN_SUMMARY], 0, 0, g, [], rmem, dcap, [7]);
    assert C.MeansIn(SEVEN_SOURCE, 0, [], M.Done([7]), 0);
  }

  /** And it is compiled, for any limits of at least one element each. */
  method SevenCompiled(dsLimit: nat, rsLimit: nat, ghost rmem: seq<u32>, ghost dcap: nat)
    returns (ok: bool, img: Image, ghost g: Gen)
    requires dsLimit >= 1 && rsLimit >= 1 && |rmem| >= 1 && dcap >= 1
    ensures ok && g.img == img
    ensures |img.code| < PACK ==> |g.slots| == 1 && g.slots[0] >= img.slotInterpreted
    ensures |img.code| < PACK ==> W.Exits(SEVEN, g, dcap, VStart(img, g.slots[0], [], rmem), [7])
  {
    hide Compiled, W.BodiesOk, W.Exits, F.AllAccepted, F.NativesRespect;
    SevenFits();
    SevenWanted(dsLimit, rsLimit);
    ghost var cert: A.Goal;
    ok, img, g, cert := W.Compile(SEVEN, [0], dsLimit, rsLimit, SEVEN_GOAL);
    if |img.code| < PACK {
      SevenRuns(g, rmem, dcap);
    }
  }

  const SEVEN_GOAL := A.Goal(SEVEN_PROPS, [0], map[0 := SEVEN_SUMMARY], 0)

  lemma SevenWanted(dsLimit: int, rsLimit: int)
    requires dsLimit >= 1 && rsLimit >= 1
    ensures W.Wanted(SEVEN, SEVEN_GOAL, [0], dsLimit, rsLimit) && T.Calm(SEVEN) && G.LocalsFitByte(SEVEN)
    ensures M.ProgramOk(SEVEN) && G.LocalsFit(SEVEN, true) && G.LocalsFit(SEVEN, false)
  {
    hide F.AllAccepted;
    SevenFits();
    T.DirectCalm(SEVEN);
    assert M.WordOk(SEVEN, SEVEN.words[0]);
  }
}
