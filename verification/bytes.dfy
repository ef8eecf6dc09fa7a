/** Bytes as bits: what the bit macros of crypto/bigint.c do to one byte. */
module Bytes {

  type byte = bv8

  /** `1 << k` */
  function Mask(k: nat): (m: byte)
    requires k < 8
  {
    if k == 0 then 0x01 else if k == 1 then 0x02 else if k == 2 then 0x04 else if k == 3 then 0x08
    else if k == 4 then 0x10 else if k == 5 then 0x20 else if k == 6 then 0x40 else 0x80
  }

  /** `(x >> k) & 1` */
  predicate ByteBit(x: byte, k: nat)
    requires k < 8
  {
    x & Mask(k) != 0
  }

  /** `x | (1 << k)` */
  function ByteSet(x: byte, k: nat): (y: byte)
    requires k < 8
    ensures forall j :: 0 <= j < 8 ==> ByteBit(y, j) == (j == k || ByteBit(x, j))
  {
    x | Mask(k)
  }

  /** `x & ~(1 << k)` */
  function ByteClear(x: byte, k: nat): (y: byte)
    requires k < 8
    ensures forall j :: 0 <= j < 8 ==> ByteBit(y, j) == (j != k && ByteBit(x, j))
  {
    x & !Mask(k)
  }

  /** `(x << 1) | low` */
  function ByteShift(x: byte, low: bool): (y: byte)
    ensures forall j :: 0 <= j < 8 ==> ByteBit(y, j) == if j == 0 then low else ByteBit(x, j - 1)
  {
    (x << 1) | if low then 1 else 0
  }

  /** `~x` */
  function ByteNot(x: byte): (y: byte)
    ensures forall j :: 0 <= j < 8 ==> ByteBit(y, j) == !ByteBit(x, j)
  {
    !x
  }

  /** `x & ((1 << n) - 1)` */
  function ByteMask(x: byte, n: nat): (y: byte)
    requires 0 < n < 8
    ensures forall j :: 0 <= j < 8 ==> ByteBit(y, j) == (j < n && ByteBit(x, j))
  {
    x & (Mask(n) - 1)
  }

  /** The larger byte has the highest bit in which the two differ. */
  lemma ByteLess(x: byte, y: byte) returns (k: nat)
    requires x > y
    ensures k < 8 && ByteBit(x, k) && !ByteBit(y, k)
    ensures forall j :: k < j < 8 ==> ByteBit(x, j) == ByteBit(y, j)
  {
    HighestDifference(x, y);
    k := if x & 0x80 != y & 0x80 then 7 else if x & 0xC0 != y & 0xC0 then 6
         else if x & 0xE0 != y & 0xE0 then 5 else if x & 0xF0 != y & 0xF0 then 4
         else if x & 0xF8 != y & 0xF8 then 3 else if x & 0xFC != y & 0xFC then 2
         else if x & 0xFE != y & 0xFE then 1 else 0;
  }

  lemma HighestDifference(x: byte, y: byte)
    requires x > y
    ensures (x & 0x80 != 0 && y & 0x80 == 0)
            || (x & 0x80 == y & 0x80 && x & 0x40 != 0 && y & 0x40 == 0)
            || (x & 0xC0 == y & 0xC0 && x & 0x20 != 0 && y & 0x20 == 0)
            || (x & 0xE0 == y & 0xE0 && x & 0x10 != 0 && y & 0x10 == 0)
            || (x & 0xF0 == y & 0xF0 && x & 0x08 != 0 && y & 0x08 == 0)
            || (x & 0xF8 == y & 0xF8 && x & 0x04 != 0 && y & 0x04 == 0)
            || (x & 0xFC == y & 0xFC && x & 0x02 != 0 && y & 0x02 == 0)
            || (x & 0xFE == y & 0xFE && x & 0x01 != 0 && y & 0x01 == 0)
  {
  }

  lemma ByteZero(x: byte)
    ensures x == 0 <==> forall j :: 0 <= j < 8 ==> !ByteBit(x, j)
  {
    if forall j :: 0 <= j < 8 ==> !ByteBit(x, j) {
      assert !ByteBit(x, 0) && !ByteBit(x, 1) && !ByteBit(x, 2) && !ByteBit(x, 3);
      assert !ByteBit(x, 4) && !ByteBit(x, 5) && !ByteBit(x, 6) && !ByteBit(x, 7);
    }
  }
}
