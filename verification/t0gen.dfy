/** `Generate` of bearssl-0.5/T0/T0Comp.cs: slots, code elements, addresses, bytes. */
module T0Gen {
  import opened SevenE
  import opened T0Layout
  import opened T0Vm
  import M = T0Machine

  /** Code elements of the first `k` words. */
  function Size(p: M.Program, k: nat): nat
    requires k <= |p.words|
  {
    if k == 0 then 0
    else Size(p, k - 1) + if p.words[k - 1].Interpreted? then 1 + |p.words[k - 1].code| else 0
  }

  lemma {:induction false} SizeLe(p: M.Program, j: nat, k: nat)
    requires j <= k <= |p.words|
    ensures Size(p, j) <= Size(p, k)
  {
    if j < k { SizeLe(p, j, k - 1); }
  }

  /** The program fits the int arithmetic of the compiler. */
  predicate Fair(p: M.Program) {
    MAX_ELEM * Size(p, |p.words|) < TWO31 && |p.words| < TWO31 - FIRST_SLOT
    && forall w :: 0 <= w < |p.words| && p.words[w].Interpreted? ==> p.words[w].numLocals < TWO31
  }

  /** The natives have their slots: one for each distinct text, from FIRST_SLOT on. */
  predicate NativesOk(p: M.Program, slots: seq<nat>, natives: seq<string>, k: nat)
    requires |slots| == |p.words| && k <= |p.words|
  {
    forall w :: 0 <= w < k && p.words[w].Native? ==>
      FIRST_SLOT <= slots[w] < FIRST_SLOT + |natives| && natives[slots[w] - FIRST_SLOT] == p.words[w].ccode
  }

  /** C-coded words get the slots from 7 on, equal C text sharing one; interpreted words follow in order. */
  ghost predicate SlotsOk(p: M.Program, slots: seq<nat>, natives: seq<string>, base: nat, k: nat, rank: seq<nat>) {
    |slots| == |p.words| && k <= |p.words| && base == FIRST_SLOT + |natives|
    && |rank| <= |p.words| && |natives| <= |p.words|
    && NativesOk(p, slots, natives, |p.words|)
    && (forall w :: 0 <= w < k && p.words[w].Interpreted? ==>
          base <= slots[w] < base + |rank| && rank[slots[w] - base] == w)
    && (forall r :: 0 <= r < |rank| ==> rank[r] < k && p.words[rank[r]].Interpreted?)
  }

  /** The first slot loop. */
  method NativeSlots(p: M.Program) returns (slots: seq<nat>, natives: seq<string>)
    ensures |slots| == |p.words| && |natives| <= |p.words| && NativesOk(p, slots, natives, |p.words|)
    ensures forall i, j :: 0 <= i < j < |natives| ==> natives[i] != natives[j]
  {
    var n := |p.words|;
    slots := seq(n, _ => 0);
    natives := [];
    var ccodeUni: map<string, nat> := map[];
    var cur := FIRST_SLOT;
    for w := 0 to n
      invariant |slots| == n && cur == FIRST_SLOT + |natives| && |natives| <= w
      invariant forall c :: c in ccodeUni ==> FIRST_SLOT <= ccodeUni[c] < cur && natives[ccodeUni[c] - FIRST_SLOT] == c
      invariant forall i :: 0 <= i < |natives| ==> natives[i] in ccodeUni
      invariant forall i, j :: 0 <= i < j < |natives| ==> natives[i] != natives[j]
      invariant NativesOk(p, slots, natives, w)
    {
      if p.words[w].Native? {
        var cc := p.words[w].ccode;
        if cc !in ccodeUni {
          ccodeUni := ccodeUni[cc := cur];
          natives := natives + [cc];
          cur := cur + 1;
        }
        slots := slots[w := ccodeUni[cc]];
      }
    }
  }

  /** The next word, interpreted, gets the next slot. */
  lemma SlotNext(p: M.Program, slots: seq<nat>, natives: seq<string>, base: nat, w: nat, rank: seq<nat>)
    requires w < |p.words| && |rank| <= w && p.words[w].Interpreted? && SlotsOk(p, slots, natives, base, w, rank)
    ensures SlotsOk(p, slots[w := base + |rank|], natives, base, w + 1, rank + [w])
  {
  }

  /** The two slot loops. `rank` lists the interpreted words in slot order. */
  method AssignSlots(p: M.Program) returns (slots: seq<nat>, natives: seq<string>, base: nat, rank: seq<nat>)
    ensures SlotsOk(p, slots, natives, base, |p.words|, rank)
    ensures forall i, j :: 0 <= i < j < |natives| ==> natives[i] != natives[j]
    ensures forall i, j :: 0 <= i < j < |rank| ==> rank[i] < rank[j]
  {
    hide NativesOk;
    var n := |p.words|;
    slots, natives := NativeSlots(p);
    base := FIRST_SLOT + |natives|;
    var cur := base;
    rank := [];
    for w := 0 to n
      invariant |rank| <= w && cur == base + |rank|
      invariant forall i, j :: 0 <= i < j < |rank| ==> rank[i] < rank[j]
      invariant SlotsOk(p, slots, natives, base, w, rank)
    {
      if p.words[w].Interpreted? {
        SlotNext(p, slots, natives, base, w, rank);
        slots := slots[w := cur];
        rank := rank + [w];
        cur := cur + 1;
      }
    }
  }

  /** The words below `k` have their elements in the list. */
  ghost predicate ElemsOk(p: M.Program, slots: seq<nat>, entry: seq<nat>, elems: seq<Elem>, k: nat)
    requires M.ProgramOk(p) && |slots| == |entry| == |p.words|
  {
    (forall w :: 0 <= w < k && w < |p.words| && p.words[w].Interpreted? ==> WordPlaced(p, slots, entry, elems, w))
    && forall i :: 0 <= i < |elems| ==> ElemOk(elems[i], |elems|) && Origin(p, slots, elems[i])
  }

  /** Where the opcode byte of an element comes from. */
  ghost predicate Origin(p: M.Program, slots: seq<nat>, e: Elem)
    requires |slots| == |p.words|
  {
    if e.UInt? then
      e.val == 0 || (exists w :: 0 <= w < |slots| && slots[w] == e.val)
      || exists w :: 0 <= w < |p.words| && p.words[w].Interpreted? && p.words[w].numLocals == e.val
    else e.op < FIRST_SLOT
  }

  /** `GenerateCodeElements` for every interpreted word, in order. */
  method BuildElems(p: M.Program, slots: seq<nat>) returns (entry: seq<nat>, elems: seq<Elem>)
    requires M.ProgramOk(p) && Fair(p) && |slots| == |p.words|
    requires forall w :: 0 <= w < |p.words| ==> IsU32(slots[w])
    ensures |entry| == |p.words| && Wf(elems) && ElemsOk(p, slots, entry, elems, |p.words|)
  {
    hide WordPlaced, M.ProgramOk;
    entry := seq(|p.words|, _ => 0);
    elems := [];
    for w := 0 to |p.words|
      invariant |entry| == |p.words| && |elems| == Size(p, w)
      invariant ElemsOk(p, slots, entry, elems, w)
    {
      if p.words[w].Interpreted? {
        var part := WordElems(p, slots, w, |elems|);
        PlaceWord(p, slots, entry, elems, w, part);
        entry := entry[w := |elems|];
        elems := elems + part;
      }
    }
  }

  /** The elements of one word: its local count, then one element per opcode. */
  ghost predicate IsWordElems(p: M.Program, slots: seq<nat>, w: nat, n: nat, part: seq<Elem>)
    requires M.ProgramOk(p) && |slots| == |p.words| && w < |p.words| && p.words[w].Interpreted?
  {
    assert M.WordOk(p, p.words[w]);
    var code := p.words[w].code;
    |part| == 1 + |code| && part[0] == UInt(p.words[w].numLocals)
    && forall o :: 0 <= o < |code| ==>
         M.OpcodeOk(p, p.words[w].numLocals, code[o], o, |code|) && part[1 + o] == ToElem(slots, n, code[o], o)
  }

  method WordElems(p: M.Program, slots: seq<nat>, w: nat, n: nat) returns (part: seq<Elem>)
    requires M.ProgramOk(p) && |slots| == |p.words| && w < |p.words| && p.words[w].Interpreted?
    ensures IsWordElems(p, slots, w, n, part)
  {
    assert M.WordOk(p, p.words[w]);
    var code := p.words[w].code;
    part := [UInt(p.words[w].numLocals)];
    for o := 0 to |code|
      invariant |part| == 1 + o && part[0] == UInt(p.words[w].numLocals)
      invariant forall k :: 0 <= k < o ==> part[1 + k] == ToElem(slots, n, code[k], k)
    {
      part := part + [ToElem(slots, n, code[o], o)];
    }
  }

  lemma PlaceWord(p: M.Program, slots: seq<nat>, entry: seq<nat>, elems: seq<Elem>, w: nat, part: seq<Elem>)
    requires M.ProgramOk(p) && Fair(p) && |slots| == |entry| == |p.words|
    requires w < |p.words| && p.words[w].Interpreted?
    requires forall k :: 0 <= k < |slots| ==> IsU32(slots[k])
    requires ElemsOk(p, slots, entry, elems, w) && IsWordElems(p, slots, w, |elems|, part)
    ensures ElemsOk(p, slots, entry[w := |elems|], elems + part, w + 1)
  {
    hide M.ProgramOk;
    var entry', elems' := entry[w := |elems|], elems + part;
    forall k | 0 <= k < w && p.words[k].Interpreted?
      ensures WordPlaced(p, slots, entry', elems', k)
    {
      KeepWord(p, slots, entry, entry', elems, part, k);
    }
    NewWord(p, slots, entry', elems, part, w);
    forall i | 0 <= i < |elems'|
      ensures ElemOk(elems'[i], |elems'|) && Origin(p, slots, elems'[i])
    {
      if i >= |elems| {
        NewElemOk(p, slots, w, |elems|, part, i - |elems|);
      }
    }
  }

  lemma KeepWord(p: M.Program, slots: seq<nat>, entry: seq<nat>, entry': seq<nat>, elems: seq<Elem>, part: seq<Elem>,
      k: nat)
    requires M.ProgramOk(p) && |slots| == |entry| == |entry'| == |p.words| && k < |p.words| && p.words[k].Interpreted?
    requires entry'[k] == entry[k] && WordPlaced(p, slots, entry, elems, k)
    ensures WordPlaced(p, slots, entry', elems + part, k)
  {
    forall o | 0 <= o < |p.words[k].code|
      ensures OpPlaced(p, slots, entry', elems + part, k, o)
    {
      assert OpPlaced(p, slots, entry, elems, k, o);
    }
  }

  lemma NewWord(p: M.Program, slots: seq<nat>, entry: seq<nat>, elems: seq<Elem>, part: seq<Elem>, w: nat)
    requires M.ProgramOk(p) && |slots| == |entry| == |p.words| && w < |p.words| && p.words[w].Interpreted?
    requires entry[w] == |elems| && IsWordElems(p, slots, w, |elems|, part)
    ensures WordPlaced(p, slots, entry, elems + part, w)
  {
  }

  lemma NewElemOk(p: M.Program, slots: seq<nat>, w: nat, n: nat, part: seq<Elem>, i: nat)
    requires M.ProgramOk(p) && Fair(p) && |slots| == |p.words| && w < |p.words| && p.words[w].Interpreted?
    requires forall k :: 0 <= k < |slots| ==> IsU32(slots[k])
    requires IsWordElems(p, slots, w, n, part) && i < |part|
    ensures ElemOk(part[i], n + |part|) && Origin(p, slots, part[i])
  {
    if i > 0 {
      var code := p.words[w].code;
      assert M.OpcodeOk(p, p.words[w].numLocals, code[i - 1], i - 1, |code|)
             && part[1 + (i - 1)] == ToElem(slots, n, code[i - 1], i - 1);
    }
  }

  /** The table of entry addresses, in slot order. */
  method EntryTable(p: M.Program, entry: seq<nat>, rank: seq<nat>, address: array<int>, lastLength: array<int>,
      ghost L: seq<nat>)
    returns (caddr: seq<nat>)
    requires Placed(address, lastLength, L) && |entry| == |p.words|
    requires forall r :: 0 <= r < |rank| ==> rank[r] < |p.words| && entry[rank[r]] < |L|
    ensures |caddr| == |rank| && forall r :: 0 <= r < |rank| ==> caddr[r] == Addr(L, entry[rank[r]])
  {
    caddr := [];
    for r := 0 to |rank|
      invariant |caddr| == r && forall k :: 0 <= k < r ==> caddr[k] == Addr(L, entry[rank[k]])
    {
      caddr := caddr + [address[entry[rank[r]]]];
    }
  }

  /** What the decoder relies on: local counts below 128 in one-byte mode, below 64 k otherwise. */
  predicate LocalsFit(p: M.Program, ob: bool) {
    forall w :: 0 <= w < |p.words| && p.words[w].Interpreted? ==> p.words[w].numLocals < if ob then 128 else PACK
  }

  predicate LocalsFitByte(p: M.Program) {
    forall w :: 0 <= w < |p.words| && p.words[w].Interpreted? ==> p.words[w].numLocals < 256
  }

  /**
   * The whole back end. It fails only when one-byte mode meets a local count above 255; otherwise the image
   * is a faithful translation whenever it stays below 64 kB and its local counts are readable.
   */
  method Generate(p: M.Program) returns (ok: bool, img: Image, ghost g: Gen)
    requires M.ProgramOk(p) && Fair(p)
    ensures g.img == img && |g.slots| == |p.words|
    ensures ok <==> (img.ob ==> LocalsFitByte(p))
    ensures ok && |img.code| < PACK && LocalsFit(p, img.ob) ==> Compiled(p, g)
  {
    hide WordPlaced, M.ProgramOk, Laid, NextLens, Wf;
    var slots, natives, base, rank := AssignSlots(p);
    SlotsU32(p, slots, natives, base, rank);
    var entry, elems := BuildElems(p, slots);
    var ob := base + |rank| < 256;
    var address, lastLength, L := Relax(elems, ob);
    var code;
    ok, code := EncodeAll(elems, ob, address, lastLength, L);
    EntriesIn(p, slots, entry, elems);
    var caddr := EntryTable(p, entry, rank, address, lastLength, L);
    img := Image(code, caddr, base, ob, natives);
    g := Gen(slots, entry, elems, L, img);
    EncodableIff(p, slots, natives, base, rank, entry, elems);
    if ok && |img.code| < PACK && LocalsFit(p, ob) {
      ImageOk(p, g, natives, base, rank);
    }
  }

  lemma SlotsU32(p: M.Program, slots: seq<nat>, natives: seq<string>, base: nat, rank: seq<nat>)
    requires Fair(p) && SlotsOk(p, slots, natives, base, |p.words|, rank)
    ensures forall w :: 0 <= w < |p.words| ==> IsU32(slots[w]) && slots[w] < base + |rank|
  {
    forall w | 0 <= w < |p.words| ensures IsU32(slots[w]) && slots[w] < base + |rank| {
      if p.words[w].Native? {} else {}
    }
  }

  lemma EntriesIn(p: M.Program, slots: seq<nat>, entry: seq<nat>, elems: seq<Elem>)
    requires M.ProgramOk(p) && |slots| == |entry| == |p.words| && ElemsOk(p, slots, entry, elems, |p.words|)
    ensures forall w :: 0 <= w < |p.words| && p.words[w].Interpreted? ==> entry[w] < |elems|
  {
    forall w | 0 <= w < |p.words| && p.words[w].Interpreted? ensures entry[w] < |elems| {
      assert WordPlaced(p, slots, entry, elems, w);
    }
  }

  lemma EncodableIff(p: M.Program, slots: seq<nat>, natives: seq<string>, base: nat, rank: seq<nat>,
                     entry: seq<nat>, elems: seq<Elem>)
    requires M.ProgramOk(p) && Fair(p) && |slots| == |entry| == |p.words|
    requires SlotsOk(p, slots, natives, base, |p.words|, rank) && ElemsOk(p, slots, entry, elems, |p.words|)
    ensures var ob := base + |rank| < 256;
            (forall i :: 0 <= i < |elems| ==> Encodable(elems[i], ob)) <==> (ob ==> LocalsFitByte(p))
  {
    SlotsU32(p, slots, natives, base, rank);
    var ob := base + |rank| < 256;
    if ob && LocalsFitByte(p) {
      forall i | 0 <= i < |elems| ensures Encodable(elems[i], ob) {
        assert Origin(p, slots, elems[i]);
      }
    }
    if ob && forall i :: 0 <= i < |elems| ==> Encodable(elems[i], ob) {
      forall w | 0 <= w < |p.words| && p.words[w].Interpreted? ensures p.words[w].numLocals < 256 {
        assert WordPlaced(p, slots, entry, elems, w);
        assert Encodable(elems[entry[w]], ob);
      }
    }
  }

  lemma ImageOk(p: M.Program, g: Gen, natives: seq<string>, base: nat, rank: seq<nat>)
    requires M.ProgramOk(p) && Fair(p) && |g.slots| == |g.entry| == |p.words|
    requires SlotsOk(p, g.slots, natives, base, |p.words|, rank) && ElemsOk(p, g.slots, g.entry, g.elems, |p.words|)
    requires g.img.slotInterpreted == base && g.img.natives == natives && |g.img.caddr| == |rank|
    requires Laid(g.elems, g.img.ob, g.L, g.img.code) && NextLens(g.elems, g.img.ob, g.L) == g.L
    requires forall i :: 0 <= i < |g.L| ==> 1 <= g.L[i] <= MAX_ELEM
    requires forall w :: 0 <= w < |p.words| && p.words[w].Interpreted? ==> g.entry[w] < |g.L|
    requires forall r :: 0 <= r < |rank| ==> g.img.caddr[r] == Addr(g.L, g.entry[rank[r]])
    requires |g.img.code| < PACK && LocalsFit(p, g.img.ob)
    ensures Compiled(p, g)
  {
    hide WordPlaced, M.ProgramOk, NextLens;
    SlotsU32(p, g.slots, natives, base, rank);
    forall w | 0 <= w < |p.words|
      ensures SlotOk(p, g.slots, g.entry, g.L, g.img, w)
    {
      if p.words[w].Interpreted? {
        assert rank[g.slots[w] - base] == w;
      }
    }
  }
}
