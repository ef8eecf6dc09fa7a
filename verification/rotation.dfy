/** Moving one element of a stack to the top and back, in place. */
module Rotation {

  /** The element at `depth` moves to the top. */
  function Rolled<T>(s: seq<T>, depth: nat): seq<T>
    requires depth < |s|
  {
    var k := |s| - 1 - depth;
    s[..k] + s[k + 1..] + [s[k]]
  }

  /** The top moves down to `depth`. */
  function Unrolled<T>(s: seq<T>, depth: nat): seq<T>
    requires depth < |s|
  {
    var k := |s| - 1 - depth;
    s[..k] + [s[|s| - 1]] + s[k..|s| - 1]
  }

  lemma RolledParts<T>(a: seq<T>, x: T, b: seq<T>)
    ensures Rolled(a + [x] + b, |b|) == a + b + [x] && Unrolled(a + b + [x], |b|) == a + [x] + b
  {
    var s, r := a + [x] + b, a + b + [x];
    assert s[..|a|] == a && s[|a| + 1..] == b;
    assert r[..|a|] == a && r[|a|..|r| - 1] == b;
  }

  /** The two rotations undo each other. */
  lemma RollInverse<T>(s: seq<T>, depth: nat)
    requires depth < |s|
    ensures |Rolled(s, depth)| == |Unrolled(s, depth)| == |s|
    ensures Unrolled(Rolled(s, depth), depth) == s && Rolled(Unrolled(s, depth), depth) == s
  {
    var k := |s| - 1 - depth;
    RolledParts(s[..k], s[k], s[k + 1..]);
    assert s == s[..k] + [s[k]] + s[k + 1..];
    RolledParts(s[..k], s[|s| - 1], s[k..|s| - 1]);
    assert s == s[..k] + s[k..|s| - 1] + [s[|s| - 1]];
  }

  lemma RolledIs<T>(was: seq<T>, now: seq<T>, top: nat, depth: nat)
    requires |was| == |now| && depth <= top < |was| && now[top] == was[top - depth]
    requires forall i :: 0 <= i < top - depth ==> now[i] == was[i]
    requires forall i :: top - depth <= i < top ==> now[i] == was[i + 1]
    ensures now[..top + 1] == Rolled(was[..top + 1], depth)
  {
  }

  lemma UnrolledIs<T>(was: seq<T>, now: seq<T>, top: nat, depth: nat)
    requires |was| == |now| && depth <= top < |was| && now[top - depth] == was[top]
    requires forall i :: 0 <= i < top - depth ==> now[i] == was[i]
    requires forall i :: top - depth < i <= top ==> now[i] == was[i - 1]
    ensures now[..top + 1] == Unrolled(was[..top + 1], depth)
  {
  }

  lemma RolledSame<T>(s: seq<T>, depth: nat)
    requires depth < |s|
    ensures forall k :: 0 <= k < |s| ==> s[k] in Rolled(s, depth)
    ensures forall k :: 0 <= k < |Rolled(s, depth)| ==> Rolled(s, depth)[k] in s
  {
    var k := |s| - 1 - depth;
    assert s == s[..k] + [s[k]] + s[k + 1..];
  }

  /** A copy onto itself, one place down. */
  method ShiftDown<T>(a: array<T>, lo: nat, hi: nat)
    requires lo <= hi < a.Length
    modifies a
    ensures forall i :: 0 <= i < lo ==> a[i] == old(a[i])
    ensures forall i :: lo <= i < hi ==> a[i] == old(a[i + 1])
    ensures forall i :: hi <= i < a.Length ==> a[i] == old(a[i])
  {
    var k := lo;
    while k < hi
      invariant lo <= k <= hi
      invariant forall i :: 0 <= i < lo ==> a[i] == old(a[i])
      invariant forall i :: lo <= i < k ==> a[i] == old(a[i + 1])
      invariant forall i :: k <= i < a.Length ==> a[i] == old(a[i])
    {
      a[k] := a[k + 1];
      k := k + 1;
    }
  }

  /** A copy onto itself, one place up. */
  method ShiftUp<T>(a: array<T>, lo: nat, hi: nat)
    requires lo <= hi < a.Length
    modifies a
    ensures forall i :: 0 <= i <= lo ==> a[i] == old(a[i])
    ensures forall i :: lo < i <= hi ==> a[i] == old(a[i - 1])
    ensures forall i :: hi < i < a.Length ==> a[i] == old(a[i])
  {
    var k := hi;
    while k > lo
      invariant lo <= k <= hi
      invariant forall i :: 0 <= i <= k ==> a[i] == old(a[i])
      invariant forall i :: k < i <= hi ==> a[i] == old(a[i - 1])
      invariant forall i :: hi < i < a.Length ==> a[i] == old(a[i])
    {
      a[k] := a[k - 1];
      k := k - 1;
    }
  }
}
