/** Code elements and their addresses: the relaxation loop of `Generate` in bearssl-0.5/T0/T0Comp.cs. */
module T0Layout {
  import opened SevenE

  /** Instances of the CodeElement classes; a jump names the element it goes to. */
  datatype Elem =
    | UInt(val: nat)
    | UIntInt(op: nat, num: int)
    | UIntUInt(op: nat, arg: nat)
    | Jump(op: nat, target: nat)

  /** Longest encoding of one element: two 7E values of five bytes. */
  const MAX_ELEM := 10

  predicate ElemOk(e: Elem, n: nat) {
    match e
    case UInt(v) => IsU32(v)
    case UIntInt(v1, v2) => IsU32(v1) && IsI32(v2)
    case UIntUInt(v1, v2) => IsU32(v1) && IsU32(v2)
    case Jump(v, t) => IsU32(v) && t < n
  }

  /** All values fit 32 bits, all jumps have a target, and addresses fit an int. */
  predicate Wf(g: seq<Elem>) {
    MAX_ELEM * |g| < TWO31 && forall i :: 0 <= i < |g| ==> ElemOk(g[i], |g|)
  }

  function HeadLen(v: nat, ob: bool): (n: nat)
    ensures n >= 1
  {
    if ob then 1 else ULen(v)
  }

  /** The part of the length that does not depend on addresses. */
  function FixedLen(e: Elem, ob: bool): (n: nat)
    ensures n >= 1
  {
    match e
    case UInt(v) => HeadLen(v, ob)
    case UIntInt(v1, v2) => HeadLen(v1, ob) + SLen(v2)
    case UIntUInt(v1, v2) => HeadLen(v1, ob) + ULen(v2)
    case Jump(v, _) => HeadLen(v, ob)
  }

  function Sum(L: seq<nat>): nat {
    if L == [] then 0 else Sum(L[..|L| - 1]) + L[|L| - 1]
  }

  /** Where element `i` starts when the lengths are `L`. */
  function Addr(L: seq<nat>, i: nat): nat
    requires i <= |L|
  {
    Sum(L[..i])
  }

  /** The offset a jump at `i` to `t` has to encode: it counts from the end of the jump. */
  function Disp(L: seq<nat>, i: nat, t: nat): int
    requires i < |L| && t < |L|
  {
    Addr(L, t) - Addr(L, i + 1)
  }

  function LenIn(g: seq<Elem>, ob: bool, L: seq<nat>, i: nat): (n: nat)
    requires Wf(g) && |L| == |g| && i < |g|
    ensures n >= 1
  {
    FixedLen(g[i], ob) + if g[i].Jump? then SLen(Disp(L, i, g[i].target)) else 0
  }

  /** One round: the lengths computed from the addresses that `L` gives. */
  function NextLens(g: seq<Elem>, ob: bool, L: seq<nat>): (M: seq<nat>)
    requires Wf(g) && |L| == |g|
    ensures |M| == |g|
  {
    seq(|g|, i requires 0 <= i < |g| => LenIn(g, ob, L, i))
  }

  /** The first round, when no address is known: every offset is taken to be one byte. */
  function FirstLens(g: seq<Elem>, ob: bool): (M: seq<nat>)
    ensures |M| == |g|
  {
    seq(|g|, i requires 0 <= i < |g| => FixedLen(g[i], ob) + if g[i].Jump? then 1 else 0)
  }

  predicate Le(L: seq<nat>, M: seq<nat>) {
    |L| == |M| && forall i :: 0 <= i < |L| ==> L[i] <= M[i]
  }

  lemma {:induction false} SumLe(L: seq<nat>, M: seq<nat>)
    requires Le(L, M)
    ensures Sum(L) <= Sum(M)
    ensures Sum(L) == Sum(M) ==> L == M
  {
    if L != [] {
      var n := |L| - 1;
      SumLe(L[..n], M[..n]);
      assert L == L[..n] + [L[n]] && M == M[..n] + [M[n]];
    }
  }

  lemma AddrStep(L: seq<nat>, i: nat)
    requires i < |L|
    ensures Addr(L, i + 1) == Addr(L, i) + L[i]
  {
    assert L[..i + 1][..i] == L[..i];
  }

  /** Distances grow with the lengths, and are positive when the lengths are. */
  lemma {:induction false} AddrLe(L: seq<nat>, M: seq<nat>, i: nat, j: nat)
    requires Le(L, M) && i <= j <= |L|
    requires forall k :: 0 <= k < |L| ==> L[k] >= 1
    ensures j - i <= Addr(L, j) - Addr(L, i) <= Addr(M, j) - Addr(M, i)
    decreases j - i
  {
    if i < j {
      AddrLe(L, M, i, j - 1);
      AddrStep(L, j - 1);
      AddrStep(M, j - 1);
    }
  }

  lemma {:induction false} SLenLe(a: int, b: int)
    requires 0 <= a <= b || b <= a < 0
    ensures SLen(a) <= SLen(b)
    decreases if b < 0 then -b else b
  {
    if !(-64 <= b < 64) && !(-64 <= a < 64) {
      SLenLe(a / 128, b / 128);
    }
  }

  /** Longer elements make longer offsets, hence longer elements. */
  lemma NextLensLe(g: seq<Elem>, ob: bool, L: seq<nat>, M: seq<nat>)
    requires Wf(g) && |L| == |g| && Le(L, M)
    requires forall k :: 0 <= k < |L| ==> L[k] >= 1
    ensures Le(NextLens(g, ob, L), NextLens(g, ob, M))
  {
    forall i | 0 <= i < |g|
      ensures LenIn(g, ob, L, i) <= LenIn(g, ob, M, i)
    {
      if g[i].Jump? {
        var t := g[i].target;
        if t > i {
          AddrLe(L, M, i + 1, t);
        } else {
          AddrLe(L, M, t, i + 1);
        }
        SLenLe(Disp(L, i, t), Disp(M, i, t));
      }
    }
  }

  lemma FirstLensLe(g: seq<Elem>, ob: bool, L: seq<nat>)
    requires Wf(g) && |L| == |g|
    ensures Le(FirstLens(g, ob), NextLens(g, ob, L))
  {
  }

  /** Five bytes always suffice. */
  lemma ULenAtMost5(v: nat)
    requires IsU32(v)
    ensures ULen(v) <= 5
  {
    assert v / 128 / 128 / 128 / 128 < 128;
    assert ULen(v / 128 / 128 / 128 / 128) == 1;
    assert ULen(v / 128 / 128 / 128) <= 2;
    assert ULen(v / 128 / 128) <= 3;
    assert ULen(v / 128) <= 4;
  }

  lemma SLenAtMost5(v: int)
    requires IsI32(v)
    ensures SLen(v) <= 5
  {
    assert -64 <= v / 128 / 128 / 128 / 128 < 64;
    assert SLen(v / 128 / 128 / 128 / 128) == 1;
    assert SLen(v / 128 / 128 / 128) <= 2;
    assert SLen(v / 128 / 128) <= 3;
    assert SLen(v / 128) <= 4;
  }

  lemma {:induction false} SumAtMost(L: seq<nat>)
    requires forall i :: 0 <= i < |L| ==> L[i] <= MAX_ELEM
    ensures Sum(L) <= MAX_ELEM * |L|
  {
    if L != [] { SumAtMost(L[..|L| - 1]); }
  }

  /** Every length stays at most ten bytes. */
  lemma NextLensAtMost(g: seq<Elem>, ob: bool, L: seq<nat>)
    requires Wf(g) && |L| == |g| && forall i :: 0 <= i < |L| ==> 1 <= L[i] <= MAX_ELEM
    ensures forall i :: 0 <= i < |g| ==> 1 <= NextLens(g, ob, L)[i] <= MAX_ELEM
  {
    forall i | 0 <= i < |g|
      ensures LenIn(g, ob, L, i) <= MAX_ELEM
    {
      FixedLenAtMost(g[i], |g|, ob);
      if g[i].Jump? {
        DispInt(L, i, g[i].target);
        SLenAtMost5(Disp(L, i, g[i].target));
      }
    }
  }

  lemma FixedLenAtMost(e: Elem, n: nat, ob: bool)
    requires ElemOk(e, n)
    ensures FixedLen(e, ob) <= if e.Jump? then 5 else MAX_ELEM
  {
    match e
    case UInt(v) => ULenAtMost5(v);
    case UIntInt(v1, v2) => ULenAtMost5(v1); SLenAtMost5(v2);
    case UIntUInt(v1, v2) => ULenAtMost5(v1); ULenAtMost5(v2);
    case Jump(v, _) => ULenAtMost5(v);
  }

  /** Offsets fit an int. */
  lemma DispInt(L: seq<nat>, i: nat, t: nat)
    requires i < |L| && t < |L| && MAX_ELEM * |L| < TWO31
    requires forall k :: 0 <= k < |L| ==> L[k] <= MAX_ELEM
    ensures IsI32(Disp(L, i, t))
  {
    SumAtMost(L[..t]);
    SumAtMost(L[..i + 1]);
  }

  /** The Address and LastLength properties of the elements hold the layout given by `L`. */
  ghost predicate Placed(address: array<int>, lastLength: array<int>, L: seq<nat>)
    reads address, lastLength
  {
    address.Length == lastLength.Length == |L|
    && forall i :: 0 <= i < |L| ==> address[i] == Addr(L, i) && lastLength[i] == L[i]
  }

  /** `GetLength` of element `i`; an unknown address makes the offset count for one byte. */
  method GetLength(g: seq<Elem>, ob: bool, address: array<int>, lastLength: array<int>, i: nat) returns (len: nat)
    requires Wf(g) && i < |g| == address.Length == lastLength.Length
    ensures (forall k :: 0 <= k < |g| ==> address[k] == -1) ==> len == FirstLens(g, ob)[i]
    ensures forall L :: Placed(address, lastLength, L) ==> len == LenIn(g, ob, L, i)
  {
    len := FixedLen(g[i], ob);
    if g[i].Jump? {
      var t := g[i].target;
      if address[i] < 0 || address[t] < 0 {
        len := len + 1;
      } else {
        forall L | Placed(address, lastLength, L)
          ensures address[t] - (address[i] + lastLength[i]) == Disp(L, i, t)
        {
          AddrStep(L, i);
        }
        len := len + SLen(address[t] - (address[i] + lastLength[i]));
      }
    }
  }

  /** The address loop of `Generate`: repeat until the total length no longer changes. */
  method Relax(g: seq<Elem>, ob: bool) returns (address: array<int>, lastLength: array<int>, ghost L: seq<nat>)
    requires Wf(g)
    ensures |L| == |g| && Placed(address, lastLength, L)
    ensures forall i :: 0 <= i < |L| ==> 1 <= L[i] <= MAX_ELEM
    ensures NextLens(g, ob, L) == L
  {
    address := new int[|g|](_ => -1);
    lastLength := new int[|g|](_ => 0);
    var totalLen: int := -1;
    L := [];
    while true
      invariant totalLen == -1 ==> forall k :: 0 <= k < |g| ==> address[k] == -1
      invariant totalLen != -1 ==>
                  |L| == |g| && Placed(address, lastLength, L) && totalLen == Sum(L) && Le(L, NextLens(g, ob, L))
                  && (forall i :: 0 <= i < |L| ==> 1 <= L[i] <= MAX_ELEM)
      invariant address.Length == lastLength.Length == |g| && fresh(address) && fresh(lastLength)
      invariant address != lastLength && totalLen <= MAX_ELEM * |g|
      decreases MAX_ELEM * |g| - totalLen
    {
      ghost var M := if totalLen == -1 then FirstLens(g, ob) else NextLens(g, ob, L);
      RoundGrows(g, ob, L, M, totalLen == -1);
      var gcodeLen := Measure(g, ob, address, lastLength, M, L);
      var off := Place(gcodeLen, address, lastLength);
      if off == totalLen {
        SumLe(L, M);
        return;
      }
      if totalLen != -1 {
        SumLe(L, M);
      }
      SumAtMost(M);
      totalLen := off;
      L := M;
    }
  }

  /** What a round keeps: lengths never shrink, and the next round would not shrink them either. */
  lemma RoundGrows(g: seq<Elem>, ob: bool, L: seq<nat>, M: seq<nat>, first: bool)
    requires Wf(g)
    requires if first then M == FirstLens(g, ob)
             else |L| == |g| && M == NextLens(g, ob, L) && Le(L, M)
                  && forall i :: 0 <= i < |L| ==> 1 <= L[i] <= MAX_ELEM
    ensures |M| == |g| && Le(M, NextLens(g, ob, M))
    ensures forall i :: 0 <= i < |M| ==> 1 <= M[i] <= MAX_ELEM
  {
    if first {
      FirstLensLe(g, ob, M);
      forall i | 0 <= i < |M| ensures M[i] <= MAX_ELEM { FixedLenAtMost(g[i], |g|, ob); }
    } else {
      NextLensLe(g, ob, L, M);
      NextLensAtMost(g, ob, L);
    }
  }

  /** The first inner loop: `gcodeLen[i] = gcode[i].GetLength(oneByteCode)`. */
  method Measure(g: seq<Elem>, ob: bool, address: array<int>, lastLength: array<int>, ghost M: seq<nat>,
      ghost L: seq<nat>)
    returns (gcodeLen: array<nat>)
    requires Wf(g) && |g| == address.Length == lastLength.Length
    requires (M == FirstLens(g, ob) && forall k :: 0 <= k < |g| ==> address[k] == -1)
             || (|L| == |g| && M == NextLens(g, ob, L) && Placed(address, lastLength, L))
    ensures fresh(gcodeLen) && gcodeLen[..] == M
  {
    gcodeLen := new nat[|g|];
    for i := 0 to |g|
      invariant forall k :: 0 <= k < i ==> gcodeLen[k] == M[k]
    {
      gcodeLen[i] := GetLength(g, ob, address, lastLength, i);
    }
  }

  /** The second inner loop: lay the elements out one after the other. */
  method Place(gcodeLen: array<nat>, address: array<int>, lastLength: array<int>) returns (off: nat)
    requires gcodeLen.Length == address.Length == lastLength.Length && address != lastLength
    modifies address, lastLength
    ensures Placed(address, lastLength, gcodeLen[..]) && off == Sum(gcodeLen[..])
  {
    off := 0;
    ghost var M := gcodeLen[..];
    for i := 0 to gcodeLen.Length
      invariant off == Addr(M, i) && gcodeLen[..] == M
      invariant forall k :: 0 <= k < i ==> address[k] == Addr(M, k) && lastLength[k] == M[k]
    {
      AddrStep(M, i);
      address[i] := off;
      lastLength[i] := gcodeLen[i];
      off := off + gcodeLen[i];
    }
    assert M[..|M|] == M;
  }

  /** The opcode part: one raw byte, or a 7E value. */
  function Head(v: nat, ob: bool): (s: seq<octet>)
    requires ob ==> v < 256
    ensures |s| == HeadLen(v, ob)
  {
    if ob then [v] else Emit(v, ULen(v))
  }

  function HeadVal(e: Elem): nat {
    if e.UInt? then e.val else e.op
  }

  /** `EncodeOneByte` takes the element. */
  predicate Encodable(e: Elem, ob: bool) {
    ob ==> HeadVal(e) < 256
  }

  /** `Encode` of element `i` once the addresses are those of `L`. */
  function EncodeElem(g: seq<Elem>, ob: bool, L: seq<nat>, i: nat): (s: seq<octet>)
    requires Wf(g) && |L| == |g| && i < |g| && Encodable(g[i], ob)
    ensures |s| == LenIn(g, ob, L, i)
  {
    match g[i]
    case UInt(v) => Head(v, ob)
    case UIntInt(v1, v2) => Head(v1, ob) + Emit(v2, SLen(v2))
    case UIntUInt(v1, v2) => Head(v1, ob) + Emit(v2, ULen(v2))
    case Jump(v, t) => Head(v, ob) + Emit(Disp(L, i, t), SLen(Disp(L, i, t)))
  }

  /** The first `n` elements are in the code block, each at its address. */
  ghost predicate LaidUpTo(g: seq<Elem>, ob: bool, L: seq<nat>, code: seq<octet>, n: nat)
    requires Wf(g) && |L| == |g| && n <= |g|
  {
    forall i :: 0 <= i < n ==> LaidAt(g, ob, L, code, i)
  }

  ghost predicate LaidAt(g: seq<Elem>, ob: bool, L: seq<nat>, code: seq<octet>, i: nat)
    requires Wf(g) && |L| == |g| && i < |g|
  {
    Encodable(g[i], ob) && At(code, Addr(L, i), EncodeElem(g, ob, L, i))
  }

  /** The code block holds every element at its address. */
  ghost predicate Laid(g: seq<Elem>, ob: bool, L: seq<nat>, code: seq<octet>) {
    Wf(g) && |L| == |g| && |code| == Sum(L) && LaidUpTo(g, ob, L, code, |g|)
  }

  /** Emit all elements in order; the address and length the jumps use are the final ones. */
  method EncodeAll(g: seq<Elem>, ob: bool, address: array<int>, lastLength: array<int>, ghost L: seq<nat>)
    returns (ok: bool, code: seq<octet>)
    requires Wf(g) && |L| == |g| && Placed(address, lastLength, L) && NextLens(g, ob, L) == L
    requires forall i :: 0 <= i < |L| ==> L[i] <= MAX_ELEM
    ensures ok <==> forall i :: 0 <= i < |g| ==> Encodable(g[i], ob)
    ensures ok ==> Laid(g, ob, L, code)
  {
    hide Placed, EncodeElem, At, LenIn;
    code := [];
    for i := 0 to |g|
      invariant |code| == Addr(L, i) && LaidUpTo(g, ob, L, code, i)
    {
      if !Encodable(g[i], ob) {
        return false, code;
      }
      var s := EncodeOne(g, ob, address, lastLength, L, i);
      AppendElem(g, ob, L, code, s, i);
      code := code + s;
    }
    assert L[..|L|] == L;
    forall i | 0 <= i < |g| ensures Encodable(g[i], ob) { assert LaidAt(g, ob, L, code, i); }
    ok := true;
  }

  lemma AtAppend(code: seq<octet>, s: seq<octet>, ip: nat, e: seq<octet>)
    requires At(code, ip, e)
    ensures At(code + s, ip, e)
  {
    assert (code + s)[ip..ip + |e|] == code[ip..ip + |e|];
  }

  lemma AppendElem(g: seq<Elem>, ob: bool, L: seq<nat>, code: seq<octet>, s: seq<octet>, i: nat)
    requires Wf(g) && |L| == |g| && i < |g| && |code| == Addr(L, i) && NextLens(g, ob, L) == L
    requires LaidUpTo(g, ob, L, code, i) && Encodable(g[i], ob) && s == EncodeElem(g, ob, L, i)
    ensures LaidUpTo(g, ob, L, code + s, i + 1) && |code + s| == Addr(L, i + 1)
  {
    hide EncodeElem, At;
    AddrStep(L, i);
    assert L[i] == NextLens(g, ob, L)[i];
    forall k | 0 <= k < i
      ensures LaidAt(g, ob, L, code + s, k)
    {
      assert LaidAt(g, ob, L, code, k);
      AtAppend(code, s, Addr(L, k), EncodeElem(g, ob, L, k));
    }
    AtEnd(code, s);
  }

  lemma AtEnd(code: seq<octet>, s: seq<octet>)
    ensures At(code + s, |code|, s)
  {
  }

  method EncodeOne(g: seq<Elem>, ob: bool, address: array<int>, lastLength: array<int>, ghost L: seq<nat>, i: nat)
    returns (s: seq<octet>)
    requires Wf(g) && |L| == |g| && i < |g| && Encodable(g[i], ob) && Placed(address, lastLength, L)
    requires forall i :: 0 <= i < |L| ==> L[i] <= MAX_ELEM
    ensures s == EncodeElem(g, ob, L, i)
  {
    var v := HeadVal(g[i]);
    var len: nat;
    if ob {
      s := [v];
    } else {
      len, s := EncodeUnsigned(v);
    }
    match g[i]
    case UInt(_) =>
    case UIntInt(_, n) =>
      var t;
      len, t := EncodeSigned(n);
      s := s + t;
    case UIntUInt(_, n) =>
      var t;
      len, t := EncodeUnsigned(n);
      s := s + t;
    case Jump(_, target) =>
      AddrStep(L, i);
      DispInt(L, i, target);
      var t;
      len, t := EncodeSigned(address[target] - (address[i] + lastLength[i]));
      s := s + t;
  }
}
