/** Big integers of crypto/bigint.c: a fixed buffer of 150 bytes with a bit length. */
module Bigints {
  import opened Binary
  import opened Bytes

  const DATA_MAXLEN := 150
  /** All bits of the buffer. */
  const CAPACITY := 8 * DATA_MAXLEN
  /** The longest bit length the code lets a number have: `bytes` stays below DATA_MAXLEN - 1. */
  const MAX_BITS := 8 * (DATA_MAXLEN - 1) - 1

  function Max(a: nat, b: nat): nat {
    if a > b then a else b
  }

  function DataBits(d: seq<byte>): (b: seq<bool>)
    ensures |b| == 8 * |d|
  {
    seq(8 * |d|, n requires 0 <= n < 8 * |d| => ByteBit(d[n / 8], n % 8))
  }

  /** The bit shifted into byte `k`. */
  predicate Carry(d: seq<byte>, k: nat)
    requires k <= |d|
  {
    k > 0 && ByteBit(d[k - 1], 7)
  }

  ghost predicate ByteShifted(d: seq<byte>, e: seq<byte>, m: nat) {
    |d| == |e| && m < |d|
    && (forall k {:trigger e[k]} :: 0 <= k <= m ==> e[k] == ByteShift(d[k], Carry(d, k)))
    && (forall k :: m < k < |d| ==> e[k] == d[k])
  }

  lemma ShiftedBits(d: seq<byte>, e: seq<byte>, m: nat)
    requires |d| == DATA_MAXLEN && ByteShifted(d, e, m) && m < |d| - 1
    requires forall n :: 8 * m + 7 <= n < CAPACITY ==> !DataBits(d)[n]
    ensures DataBits(e) == [false] + DataBits(d)[..CAPACITY - 1]
  {
    hide DataBits;
    forall n | 0 <= n < CAPACITY
      ensures DataBits(e)[n] == (n > 0 && DataBits(d)[n - 1])
    {
      ShiftedBit(d, e, m, n / 8, n % 8);
    }
  }

  lemma ShiftedBit(d: seq<byte>, e: seq<byte>, m: nat, k: nat, j: nat)
    requires |d| == DATA_MAXLEN && ByteShifted(d, e, m) && m < |d| - 1
    requires forall n :: 8 * m + 7 <= n < CAPACITY ==> !DataBits(d)[n]
    requires k < |d| && j < 8
    ensures DataBits(e)[8 * k + j] == (8 * k + j > 0 && DataBits(d)[8 * k + j - 1])
  {
    hide DataBits, Bytes.ByteBit, Bytes.ByteShift;
    BitAt(e, k, j);
    if k <= m {
      assert e[k] == ByteShift(d[k], Carry(d, k));
      assert ByteBit(e[k], j) == if j == 0 then Carry(d, k) else ByteBit(d[k], j - 1);
    } else {
      BitAt(d, k, j);
    }
    if j > 0 {
      BitAt(d, k, j - 1);
    } else if k > 0 {
      BitAt(d, k - 1, 7);
    }
  }

  lemma ComplementedBits(d: seq<byte>, e: seq<byte>, m: nat, r: nat)
    requires |d| == |e| == DATA_MAXLEN && m < |d| && r < 8
    requires forall k :: 0 <= k < m ==> e[k] == ByteNot(d[k])
    requires e[m] == if r > 0 then ByteMask(ByteNot(d[m]), r) else d[m]
    requires forall k :: m < k < |d| ==> e[k] == d[k]
    requires forall n :: 8 * m + r <= n < CAPACITY ==> !DataBits(d)[n]
    ensures forall n :: 0 <= n < CAPACITY ==> DataBits(e)[n] == (n < 8 * m + r && !DataBits(d)[n])
  {
    forall n | 0 <= n < CAPACITY
      ensures DataBits(e)[n] == (n < 8 * m + r && !DataBits(d)[n])
    {
      var k, j := n / 8, n % 8;
      BitAt(d, k, j);
      BitAt(e, k, j);
      if k == m && r > 0 {
        assert ByteBit(e[m], j) == (j < r && ByteBit(ByteNot(d[m]), j));
      }
    }
  }

  lemma BitAt(d: seq<byte>, k: nat, j: nat)
    requires k < |d| && j < 8
    ensures DataBits(d)[8 * k + j] == ByteBit(d[k], j)
  {
    assert (8 * k + j) / 8 == k && (8 * k + j) % 8 == j;
  }

  /** Distinct structures have distinct storage. */
  predicate Apart(x: Bigint, y: Bigint) {
    x != y ==> x.data != y.data
  }

  /**
   * How long `normalize` leaves a number of `n` bits and value `v`: as it is if a bit of a last, partial byte is set,
   * else cut to whole bytes, the highest of them nonzero; zero takes one bit.
   */
  ghost predicate IsCut(w: nat, v: nat, n: nat) {
    if n % 8 != 0 && v >= Pow2(n - n % 8) then w == n
    else (w == 1 && v == 0) || (w % 8 == 0 && 0 < w <= n - n % 8 && v >= Pow2(w - 8))
  }

  lemma CutKept(v: nat, n: nat)
    requires n % 8 != 0 && v >= Pow2(n - n % 8)
    ensures IsCut(n, v, n)
  {
  }

  lemma CutWhole(w: nat, v: nat, n: nat, r: nat)
    requires r == n % 8 && IsCut(w, v, n - r) && v < Pow2(n - r)
    ensures IsCut(w, v, n)
  {
  }

  class Bigint {
    var bytes: nat
    var bits: nat
    const data: array<byte>

    /** The macro BITS. */
    function BITS(): nat
      reads this
    {
      bytes * 8 + bits
    }

    /** Every bit of the buffer, used or not. */
    ghost function All(): (b: seq<bool>)
      reads data
      ensures |b| == 8 * data.Length
    {
      DataBits(data[..])
    }

    /** The stored lengths are in range. */
    ghost predicate Sized()
      reads this
    {
      data.Length == DATA_MAXLEN && bits < 8 && bytes < DATA_MAXLEN - 1
    }

    /** In range, and clean: every bit at or above BITS is zero. */
    ghost predicate Valid()
      reads this, data
    {
      Sized() && forall n :: BITS() <= n < CAPACITY ==> !DataBits(data[..])[n]
    }

    ghost function Val(): nat
      reads data
    {
      Nat(All())
    }

    constructor ()
      ensures data.Length == DATA_MAXLEN && fresh(data)
    {
      data := new byte[DATA_MAXLEN];
      bytes, bits := 0, 0;
    }

    /** The macro BIT. */
    predicate Bit(n: nat)
      requires Sized()
      reads this, data
    {
      n < BITS() && ByteBit(data[n / 8], n % 8)
    }

    lemma InRange()
      requires Valid()
      ensures Sized() && BITS() <= MAX_BITS && |All()| == CAPACITY
    {
    }

    lemma Clean()
      requires Valid()
      ensures forall n :: BITS() <= n < CAPACITY ==> !All()[n]
    {
    }

    lemma BitIsStored(n: nat)
      requires Valid() && n < CAPACITY
      ensures Bit(n) == All()[n]
    {
      BitAt(data[..], n / 8, n % 8);
    }

    lemma ValBelow()
      requires Valid()
      ensures Val() == Nat(All()[..BITS()]) < Pow2(BITS())
    {
      NatTrim(All(), BITS());
      NatBound(All()[..BITS()]);
    }

    /** The macro SET_BIT: silently does nothing beyond BITS. */
    method SetBit(n: nat)
      requires Sized()
      modifies data
      ensures All() == if n < BITS() then old(All())[n := true] else old(All())
    {
      if n < BITS() {
        data[n / 8] := ByteSet(data[n / 8], n % 8);
        assert All() == old(All())[n := true];
      }
    }

    /** The macro CLR_BIT. */
    method ClrBit(n: nat)
      requires Sized()
      modifies data
      ensures All() == if n < BITS() then old(All())[n := false] else old(All())
    {
      if n < BITS() {
        data[n / 8] := ByteClear(data[n / 8], n % 8);
        assert All() == old(All())[n := false];
      }
    }

    method Zero()
      requires data.Length == DATA_MAXLEN
      modifies this, data
      ensures Valid() && Val() == 0 && BITS() == 1 && forall n :: 0 <= n < CAPACITY ==> !All()[n]
    {
      bytes, bits := 0, 1;
      Bzero(0);
      ZeroBits(data[..], 0);
      NatZeros(All());
    }

    /** `bzero(data + u, DATA_MAXLEN - u)` */
    method Bzero(u: nat)
      requires data.Length == DATA_MAXLEN && u <= DATA_MAXLEN
      modifies data
      ensures forall k :: 0 <= k < DATA_MAXLEN ==> data[k] == if k < u then old(data[k]) else 0
    {
      for j := u to DATA_MAXLEN
        invariant forall k :: 0 <= k < u ==> data[k] == old(data[k])
        invariant forall k :: u <= k < j ==> data[k] == 0
      {
        data[j] := 0;
      }
    }

    /** The macro LEFT_SHIFT; the code 1 is the macro's early return. */
    method LeftShift() returns (rc: int)
      requires Valid()
      modifies this, data
      ensures rc == 0 || rc == 1
      ensures rc == 0 <==> old(BITS()) < MAX_BITS
      ensures rc == 0 ==> Valid() && BITS() == old(BITS()) + 1 && Val() == 2 * old(Val()) && !All()[0]
    {
      hide DataBits, Nat;
      ghost var before := data[..];
      ShiftBytes();
      ShiftedBits(before, data[..], bytes);
      NatTrim(DataBits(before), CAPACITY - 1);
      NatShift(DataBits(before)[..CAPACITY - 1]);
      bits := bits + 1;
      if bits == 8 {
        bytes := bytes + 1;
        bits := 0;
        if bytes >= DATA_MAXLEN - 1 {
          return 1;
        }
      }
      return 0;
    }

    /** The loop of LEFT_SHIFT and the statement after it. */
    method ShiftBytes()
      requires Sized()
      modifies data
      ensures ByteShifted(old(data[..]), data[..], bytes)
    {
      var lb := false;
      var j := 0;
      while j < bytes
        invariant j <= bytes
        invariant lb == Carry(old(data[..]), j)
        invariant forall k {:trigger data[k]} :: 0 <= k < j ==>
                    data[k] == ByteShift(old(data[..])[k], Carry(old(data[..]), k))
        invariant forall k :: j <= k < DATA_MAXLEN ==> data[k] == old(data[..])[k]
      {
        var b := ByteBit(data[j], 7);
        data[j] := ByteShift(data[j], lb);
        lb := b;
        j := j + 1;
      }
      data[j] := ByteShift(data[j], lb);
    }

    /** The macro TWOS_COMP: complement, then add one by flipping up to the lowest zero bit. */
    method TwosComp()
      requires Valid()
      modifies data
      ensures Valid()
      ensures old(Val()) != 0 ==> Val() == Pow2(BITS()) - old(Val())
    {
      ghost var before := All();
      ValBelow();
      Complement();
      ValBelow();
      NatComplement(before, All(), BITS());
      AddOne();
    }

    /** The second loop of TWOS_COMP. */
    method AddOne()
      requires Valid()
      modifies data
      ensures Valid()
      ensures old(Val()) + 1 < Pow2(BITS()) ==> Val() == old(Val()) + 1
    {
      hide DataBits, Nat, Bytes.ByteBit;
      ghost var before := All();
      var b := BITS();
      var k := 0;
      while k < b
        invariant k <= b && All() == before
        invariant forall n :: 0 <= n < k ==> before[n]
      {
        BitIsStored(k);
        if !Bit(k) {
          SetBit(k);
          ClearBelow(k);
          NatIncrement(before, All(), k);
          return;
        }
        k := k + 1;
      }
      ValBelow();
      NatOnes(before[..b]);
    }

    method ClearBelow(k: nat)
      requires Sized() && k < BITS()
      modifies data
      ensures forall n :: 0 <= n < CAPACITY ==> All()[n] == (n >= k && old(All())[n])
    {
      var l := k;
      while l > 0
        invariant l <= k
        invariant forall n :: 0 <= n < CAPACITY ==> All()[n] == (!(l <= n < k) && old(All())[n])
      {
        l := l - 1;
        ClrBit(l);
      }
    }

    method Complement()
      requires Valid()
      modifies data
      ensures Valid()
      ensures forall n :: 0 <= n < BITS() ==> All()[n] == !old(All())[n]
    {
      var j := 0;
      while j < bytes
        invariant j <= bytes
        invariant forall k :: 0 <= k < j ==> data[k] == ByteNot(old(data[k]))
        invariant forall k :: j <= k < DATA_MAXLEN ==> data[k] == old(data[k])
      {
        data[j] := ByteNot(data[j]);
        j := j + 1;
      }
      if bits > 0 {
        data[j] := ByteMask(ByteNot(data[j]), bits);
      }
      ComplementedBits(old(data[..]), data[..], bytes, bits);
    }

    /** Drop the unused bits, then shorten to the highest nonzero byte. */
    method Normalize()
      requires Sized()
      modifies this, data
      ensures Valid() && Tight()
      ensures Val() == Nat(old(All())[..old(BITS())])
      ensures BITS() <= Max(1, old(BITS())) && IsCut(BITS(), Val(), old(BITS()))
    {
      hide DataBits, Bytes.ByteBit, Pow2, Nat, IsCut;
      ghost var n := BITS();
      Cleanup();
      ValBelow();
      if bits > 0 {
        if ByteMask(data[bytes], bits) != 0 {
          ByteZero(data[bytes]);
          ByteZero(ByteMask(data[bytes], bits));
          NonzeroByte(data[..], bytes);
          CutKept(Val(), n);
          return;
        }
        ZeroTail(data[..], bytes, bits);
        bits := 0;
        ValBelow();
      }
      Shrink();
      CutWhole(BITS(), Val(), n, n % 8);
    }

    /** The first half of `normalize`: clear the unused bits and bytes. */
    method Cleanup()
      requires Sized()
      modifies data
      ensures Valid()
      ensures All()[..BITS()] == old(All())[..BITS()]
    {
      if bits > 0 {
        data[bytes] := ByteMask(data[bytes], bits);
      }
      var u := bytes + if bits > 0 then 1 else 0;
      Bzero(u);
      CutBits(old(data[..]), data[..], bytes, bits);
    }

    /** The second half of `normalize`, on whole bytes. */
    method Shrink()
      requires Valid() && bits == 0
      modifies this
      ensures Valid() && Tight()
      ensures BITS() <= Max(1, old(BITS())) && IsCut(BITS(), Val(), old(BITS()))
    {
      hide DataBits, Nat;
      var j := bytes;
      while j > 0 && data[j - 1] == 0
        invariant 0 <= j <= bytes == old(bytes) && bits == 0
        invariant forall n :: 8 * j <= n < CAPACITY ==> !DataBits(data[..])[n]
      {
        ZeroTail(data[..], j - 1, 0);
        j := j - 1;
      }
      bytes := j;
      if bytes == 0 {
        bits := 1;
        NatZeros(All());
      } else {
        NonzeroByte(data[..], bytes - 1);
      }
    }

    /** The number of bytes in use. */
    function Used(): nat
      reads this
    {
      bytes + if bits > 0 then 1 else 0
    }

    /** No zero byte is kept on top; zero itself is stored in one bit. */
    ghost predicate Tight()
      reads this, data
    {
      BITS() == 1 || (Used() > 0 && Val() >= Pow2(8 * (Used() - 1)))
    }

    /** `data[0] |= b` */
    method OrLow(b: bool)
      requires Valid() && BITS() > 0 && !All()[0]
      modifies data
      ensures Valid() && Val() == old(Val()) + (if b then 1 else 0)
    {
      if b {
        data[0] := ByteSet(data[0], 0);
        OrLowBits(old(data[..]), data[..]);
        NatSetBit(old(All()), 0);
      }
    }

    method IsZero() returns (z: bool)
      requires Valid()
      ensures z <==> Val() == 0
    {
      hide DataBits, Bytes.ByteBit;
      var j := 0;
      while j < bytes
        invariant j <= bytes
        invariant forall k :: 0 <= k < j ==> data[k] == 0
      {
        if data[j] > 0 {
          NonzeroByte(data[..], j);
          return false;
        }
        j := j + 1;
      }
      if bits > 0 {
        ByteZero(data[bytes]);
        ByteZero(ByteMask(data[bytes], bits));
        if ByteMask(data[bytes], bits) > 0 {
          NonzeroByte(data[..], bytes);
          return false;
        }
        ZeroTail(data[..], bytes, bits);
      }
      ZeroHead(data[..], bytes);
      NatZeros(All());
      return true;
    }
  }

  lemma NonzeroByte(d: seq<byte>, k: nat)
    requires k < |d| && d[k] != 0
    ensures Nat(DataBits(d)) >= Pow2(8 * k)
  {
    ByteZero(d[k]);
    var j :| 0 <= j < 8 && ByteBit(d[k], j);
    BitAt(d, k, j);
    NatHighBit(DataBits(d), 8 * k + j);
    Pow2Monotone(8 * k, 8 * k + j);
  }

  lemma OrLowBits(d: seq<byte>, e: seq<byte>)
    requires |d| > 0 && e == d[0 := ByteSet(d[0], 0)]
    ensures DataBits(e) == DataBits(d)[0 := true]
  {
    forall n | 0 <= n < 8 * |d|
      ensures DataBits(e)[n] == (n == 0 || DataBits(d)[n])
    {
      BitAt(d, n / 8, n % 8);
      BitAt(e, n / 8, n % 8);
    }
  }

  lemma ZeroHead(d: seq<byte>, u: nat)
    requires u <= |d| && forall k :: 0 <= k < u ==> d[k] == 0
    ensures forall n :: 0 <= n < 8 * u ==> !DataBits(d)[n]
  {
    forall n | 0 <= n < 8 * u
      ensures !DataBits(d)[n]
    {
      BitAt(d, n / 8, n % 8);
      ByteZero(d[n / 8]);
    }
  }

  /** `bigint_copy`: the bytes in use, with the unused bits of the last one cleared. */
  method Copy(d: Bigint, s: Bigint)
    requires d != s && Apart(d, s) && s.Valid() && d.data.Length == DATA_MAXLEN
    modifies d, d.data
    ensures d.Valid() && d.All() == s.All() && d.BITS() == s.BITS()
    ensures d.bytes == s.bytes && d.bits == s.bits && d.Used() == s.Used() && d.Val() == s.Val()
  {
    d.bytes := s.bytes;
    d.bits := s.bits;
    d.Bzero(0);
    var n := d.bytes + if d.bits > 0 then 1 else 0;
    for k := 0 to n
      invariant d.bytes == s.bytes && d.bits == s.bits
      invariant forall i :: 0 <= i < k ==> d.data[i] == s.data[i]
      invariant forall i :: k <= i < DATA_MAXLEN ==> d.data[i] == 0
    {
      d.data[k] := s.data[k];
    }
    if d.bits > 0 {
      d.data[d.bytes] := ByteMask(d.data[d.bytes], d.bits);
    }
    CutBits(s.data[..], d.data[..], s.bytes, s.bits);
    assert d.All() == s.All();
  }

  /** Cutting a buffer to 8m + r bits, as the mask and the cleared tail do. */
  lemma CutBits(d: seq<byte>, e: seq<byte>, m: nat, r: nat)
    requires |d| == |e| == DATA_MAXLEN && m < |d| && r < 8
    requires forall k :: 0 <= k < m ==> e[k] == d[k]
    requires e[m] == if r > 0 then ByteMask(d[m], r) else 0
    requires forall k :: m < k < |d| ==> e[k] == 0
    ensures forall n :: 0 <= n < CAPACITY ==> DataBits(e)[n] == (n < 8 * m + r && DataBits(d)[n])
  {
    forall n | 0 <= n < CAPACITY
      ensures DataBits(e)[n] == (n < 8 * m + r && DataBits(d)[n])
    {
      var k, j := n / 8, n % 8;
      BitAt(d, k, j);
      BitAt(e, k, j);
      if k == m && r > 0 {
        assert ByteBit(e[m], j) == (j < r && ByteBit(d[m], j));
      } else if k >= m {
        ByteZero(e[k]);
      }
    }
  }

  lemma ZeroBits(d: seq<byte>, u: nat)
    requires u <= |d| && forall k :: u <= k < |d| ==> d[k] == 0
    ensures forall n :: 8 * u <= n < 8 * |d| ==> !DataBits(d)[n]
  {
    forall n | 8 * u <= n < 8 * |d|
      ensures !DataBits(d)[n]
    {
      BitAt(d, n / 8, n % 8);
      ByteZero(d[n / 8]);
    }
  }

  /** A zero top byte can be dropped. */
  lemma ZeroTail(d: seq<byte>, m: nat, r: nat)
    requires |d| == DATA_MAXLEN && m < |d| && r < 8
    requires if r > 0 then ByteMask(d[m], r) == 0 else d[m] == 0
    requires forall n :: 8 * m + (if r > 0 then r else 8) <= n < CAPACITY ==> !DataBits(d)[n]
    ensures forall n :: 8 * m <= n < CAPACITY ==> !DataBits(d)[n]
  {
    forall n | 8 * m <= n < 8 * m + 8
      ensures !DataBits(d)[n]
    {
      BitAt(d, m, n - 8 * m);
      ByteZero(if r > 0 then ByteMask(d[m], r) else d[m]);
    }
  }

  /** `bigint_cmp` */
  method Cmp(i: Bigint, j: Bigint) returns (r: int)
    requires i.Valid() && j.Valid()
    ensures r == if i.Val() < j.Val() then -1 else if i.Val() == j.Val() then 0 else 1
  {
    hide DataBits, Nat, AgreeFrom, Bigint.Valid;
    var k: int;
    i.InRange();
    j.InRange();
    AgreeBeyond(i, j);
    if i.BITS() > j.BITS() {
      k := i.BITS() - 1;
      while k >= j.BITS()
        invariant j.BITS() - 1 <= k < i.BITS()
        invariant AgreeFrom(i, j, k + 1)
      {
        AgreeBit(i, j, k);
        if i.Bit(k) {
          return 1;
        }
        k := k - 1;
      }
    } else if i.BITS() < j.BITS() {
      k := j.BITS() - 1;
      while k >= i.BITS()
        invariant i.BITS() - 1 <= k < j.BITS()
        invariant AgreeFrom(i, j, k + 1)
      {
        AgreeBit(i, j, k);
        if j.Bit(k) {
          return -1;
        }
        k := k - 1;
      }
    } else {
      k := i.BITS() - 1;
    }

    r, k := CmpBits(i, j, k);
    if r == 0 {
      r := CmpBytes(i, j, k);
    }
  }

  /** The loop over the leading bits, down to a whole number of bytes; 0 if they are the same. */
  method CmpBits(i: Bigint, j: Bigint, k0: int) returns (r: int, k: int)
    requires i.Valid() && j.Valid() && -1 <= k0 < MAX_BITS && AgreeFrom(i, j, k0 + 1)
    ensures r != 0 ==> r == if i.Val() < j.Val() then -1 else if i.Val() == j.Val() then 0 else 1
    ensures r == 0 ==> -1 <= k < MAX_BITS && (k >= 0 ==> k % 8 == 0) && AgreeFrom(i, j, k + 1)
  {
    hide DataBits, Nat, AgreeFrom, Bigint.Valid;
    i.InRange();
    j.InRange();
    k := k0;
    while k % 8 != 0 && k >= 0
      invariant -1 <= k < MAX_BITS
      invariant AgreeFrom(i, j, k + 1)
    {
      AgreeBit(i, j, k);
      if i.Bit(k) && !j.Bit(k) {
        return 1, k;
      } else if !i.Bit(k) && j.Bit(k) {
        return -1, k;
      }
      k := k - 1;
    }
    r := 0;
  }

  /** The last loop of `bigint_cmp`, over whole bytes; the division truncates toward zero. */
  method CmpBytes(i: Bigint, j: Bigint, k0: int) returns (r: int)
    requires i.Valid() && j.Valid()
    requires -1 <= k0 < MAX_BITS && (k0 >= 0 ==> k0 % 8 == 0)
    requires AgreeFrom(i, j, k0 + 1)
    ensures r == if i.Val() < j.Val() then -1 else if i.Val() == j.Val() then 0 else 1
  {
    var k := k0;
    while Quot8(k) >= 0
      invariant k in {-9, -8, -1} || (0 <= k < MAX_BITS && k % 8 == 0)
      invariant AgreeFrom(i, j, if k >= 0 then k + 8 else 0)
      decreases k + 9
    {
      var b := Quot8(k);
      assert b < DATA_MAXLEN && (k >= 0 ==> 8 * b == k);
      if i.data[b] > j.data[b] {
        LargerByte(i, j, b);
        return 1;
      } else if i.data[b] < j.data[b] {
        LargerByte(j, i, b);
        return -1;
      }
      EqualByte(i, j, b);
      k := k - 8;
    }
    assert i.All() == j.All();
    return 0;
  }

  lemma AgreeBeyond(i: Bigint, j: Bigint)
    requires i.Valid() && j.Valid()
    ensures AgreeFrom(i, j, Max(i.BITS(), j.BITS()))
  {
  }

  /** Two numbers that agree above bit `k` either agree from `k` on or are ordered by bit `k`. */
  lemma AgreeBit(i: Bigint, j: Bigint, k: nat)
    requires i.Valid() && j.Valid() && k < CAPACITY
    requires AgreeFrom(i, j, k + 1)
    ensures i.Bit(k) == j.Bit(k) ==> AgreeFrom(i, j, k)
    ensures i.Bit(k) && !j.Bit(k) ==> i.Val() > j.Val()
    ensures !i.Bit(k) && j.Bit(k) ==> i.Val() < j.Val()
  {
    i.BitIsStored(k);
    j.BitIsStored(k);
    if i.Bit(k) && !j.Bit(k) {
      NatCompare(i.All(), j.All(), k);
    } else if !i.Bit(k) && j.Bit(k) {
      NatCompare(j.All(), i.All(), k);
    }
  }

  lemma LargerByte(i: Bigint, j: Bigint, b: nat)
    requires i.Valid() && j.Valid() && b < DATA_MAXLEN
    requires AgreeFrom(i, j, 8 * b + 8) && i.data[b] > j.data[b]
    ensures i.Val() > j.Val()
  {
    var k := ByteLess(i.data[b], j.data[b]);
    BitAt(i.data[..], b, k);
    BitAt(j.data[..], b, k);
    forall n | 8 * b + k < n < CAPACITY
      ensures i.All()[n] == j.All()[n]
    {
      if n < 8 * b + 8 {
        BitAt(i.data[..], b, n - 8 * b);
        BitAt(j.data[..], b, n - 8 * b);
      }
    }
    NatCompare(i.All(), j.All(), 8 * b + k);
  }

  lemma EqualByte(i: Bigint, j: Bigint, b: nat)
    requires i.Valid() && j.Valid() && b < DATA_MAXLEN
    requires AgreeFrom(i, j, 8 * b + 8) && i.data[b] == j.data[b]
    ensures AgreeFrom(i, j, 8 * b)
  {
    forall n | 8 * b <= n < 8 * b + 8
      ensures i.All()[n] == j.All()[n]
    {
      BitAt(i.data[..], b, n - 8 * b);
      BitAt(j.data[..], b, n - 8 * b);
    }
  }

  /** `k / 8` as C computes it. */
  function Quot8(k: int): int {
    if k >= 0 then k / 8 else -((-k) / 8)
  }

  ghost predicate AgreeFrom(i: Bigint, j: Bigint, k: int)
    reads i, j, i.data, j.data
    requires i.Valid() && j.Valid()
  {
    forall n :: k <= n < CAPACITY && n >= 0 ==> i.All()[n] == j.All()[n]
  }

  /** `bigint_add`; `s` may be the same structure as `a` or `b`. */
  method Add(s: Bigint, a: Bigint, b: Bigint) returns (rc: int)
    requires s.Valid() && a.Valid() && b.Valid()
    requires Apart(s, a) && Apart(s, b)
    modifies s, s.data
    ensures rc == 0 || rc == 1
    ensures rc == 0 <==> old(a.Val()) + old(b.Val()) < Pow2(MAX_BITS)
    ensures rc == 0 ==> s.Valid() && s.Val() == old(a.Val()) + old(b.Val())
    ensures rc == 0 ==> s.BITS() <= Max(old(a.BITS()), old(b.BITS())) + 1
  {
    hide DataBits, Bytes.ByteBit, Nat, SumSoFar;
    var m := Max(a.BITS(), b.BITS());
    ghost var A, B := a.All(), b.All();
    var c := AddLoop(s, a, b, m);
    SumWidth(A, B, s.All(), m, c);
    if c {
      if m >= s.BITS() {
        var full := Grow(s, m + 1);
        if full {
          return 1;
        }
      }
      s.SetBit(m);
    }
    Finish(s, m + if c then 1 else 0);
    return 0;
  }

  /** The end of `bigint_add`: cut a longer destination to `w` bits. */
  method Finish(s: Bigint, w: nat)
    requires s.Valid() && w <= s.BITS()
    modifies s, s.data
    ensures s.Valid() && s.Val() == Nat(old(s.All())[..w]) && s.BITS() <= Max(1, w)
  {
    if s.BITS() > w {
      var _ := Grow(s, w);
      s.Normalize();
    } else {
      s.ValBelow();
    }
  }

  /** The loop of `bigint_add`; its overflow exit is never taken. */
  method AddLoop(s: Bigint, a: Bigint, b: Bigint, m: nat) returns (c: bool)
    requires s.Valid() && a.Valid() && b.Valid() && m <= MAX_BITS
    requires Apart(s, a) && Apart(s, b)
    modifies s, s.data
    ensures s.Valid() && s.BITS() == Max(old(s.BITS()), m)
    ensures SumSoFar(old(a.All()), old(b.All()), s.All(), m, c)
  {
    hide DataBits;
    ghost var A, B, S := a.All(), b.All(), s.All();
    c := false;
    var i := 0;
    while i < m
      invariant i <= m
      invariant s.Sized() && s.BITS() == Max(old(s.BITS()), i)
      invariant Pending(S, s.All(), i)
      invariant SumSoFar(A, B, s.All(), i, c)
    {
      if i >= s.BITS() {
        var full := Grow(s, i + 1);
        if full {
          assert false;
        }
      }
      ghost var T, v := s.All(), false;
      ghost var c0 := c;
      c, v := AddBit(s, a, b, i, c);
      SumStep(A, B, T, i, c0, v, c);
      i := i + 1;
    }
  }

  /** Set the length to `n` bits and tell whether that is too long. */
  method Grow(s: Bigint, n: nat) returns (full: bool)
    modifies s`bytes, s`bits
    ensures s.bits < 8 && s.BITS() == n
    ensures full <==> n > MAX_BITS
  {
    s.bytes := n / 8;
    s.bits := n % 8;
    full := s.bytes >= DATA_MAXLEN - 1;
  }

  /** One round of the loop of `bigint_add`: a full adder at bit `i`. */
  method AddBit(s: Bigint, a: Bigint, b: Bigint, i: nat, c: bool) returns (c': bool, ghost v: bool)
    requires s.Sized() && a.Sized() && b.Sized() && i < s.BITS()
    requires Apart(s, a) && Apart(s, b)
    modifies s.data
    ensures s.All() == old(s.All())[i := v]
    ensures Count(v, c', c') == Count(i < a.BITS() && old(a.All())[i], i < b.BITS() && old(b.All())[i], c)
  {
    hide DataBits, Bytes.ByteBit;
    BitAt(a.data[..], i / 8, i % 8);
    BitAt(b.data[..], i / 8, i % 8);
    var n := Count(a.Bit(i), b.Bit(i), c);
    v := n % 2 == 1;
    if n == 3 {
      s.SetBit(i);
      c' := true;
    } else if n == 2 {
      s.ClrBit(i);
      c' := true;
    } else if n == 1 {
      s.SetBit(i);
      c' := false;
    } else {
      s.ClrBit(i);
      c' := false;
    }
  }

  /** What is left to do after the loop: the sum fits `m` bits and the carry. */
  lemma SumWidth(A: seq<bool>, B: seq<bool>, T: seq<bool>, m: nat, c: bool)
    requires SumSoFar(A, B, T, m, c) && m <= MAX_BITS && |A| == CAPACITY
    requires forall n :: m <= n < CAPACITY ==> !A[n] && !B[n]
    ensures Nat(T[..m]) + (if c then Pow2(m) else 0) == Nat(A) + Nat(B)
    ensures Nat(A) + Nat(B) < Pow2(MAX_BITS) <==> (c ==> m < MAX_BITS)
    ensures c ==> Nat(T[m := true][..m + 1]) == Nat(A) + Nat(B)
  {
    NatTrim(A, m);
    NatTrim(B, m);
    NatBound(T[..m]);
    NatStep(T[m := true], m);
    assert T[m := true][..m] == T[..m];
    Pow2Monotone(m, MAX_BITS);
    if m < MAX_BITS { Pow2Monotone(m + 1, MAX_BITS); }
  }

  function Count(x: bool, y: bool, c: bool): nat {
    (if x then 1 else 0) + (if y then 1 else 0) + if c then 1 else 0
  }

  /** Bits from `i` on are still those of `S`. */
  ghost predicate Pending(S: seq<bool>, T: seq<bool>, i: nat) {
    |S| == |T| == CAPACITY && forall n :: i <= n < CAPACITY ==> T[n] == S[n]
  }

  /** The low `i` bits of `T` and the carry are the sum of the low `i` bits. */
  ghost predicate SumSoFar(A: seq<bool>, B: seq<bool>, T: seq<bool>, i: nat, c: bool) {
    |A| == |B| == |T| && i <= |A|
    && Nat(T[..i]) + (if c then Pow2(i) else 0) == Nat(A[..i]) + Nat(B[..i])
  }

  lemma SumStep(A: seq<bool>, B: seq<bool>, T: seq<bool>, i: nat, c: bool, v: bool, c': bool)
    requires SumSoFar(A, B, T, i, c) && i < |A|
    requires Count(v, c', c') == Count(A[i], B[i], c)
    ensures SumSoFar(A, B, T[i := v], i + 1, c')
  {
    NatStep(A, i);
    NatStep(B, i);
    NatStep(T[i := v], i);
    assert T[i := v][..i] == T[..i];
  }
}
