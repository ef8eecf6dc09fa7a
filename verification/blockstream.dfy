/** What the streaming hashes share: 64-byte blocks, padding, and a buffer for the block not yet full. */
module BlockStream {
  import opened Bytes

  const TWO32: nat := 0x1_0000_0000

  type word = bv32

  /** Addition modulo 2^32. */
  function Add(x: word, y: word): word { x + y }
  function Sum4(x: word, y: word, z: word, u: word): word { x + y + z + u }

  function ZeroBytes(n: nat): (s: seq<byte>)
    ensures |s| == n && forall i :: 0 <= i < n ==> s[i] == 0
  {
    seq(n, _ => 0)
  }

  /** The whole blocks of a message, in order. */
  function Chop(m: seq<byte>): (bs: seq<seq<byte>>)
    ensures forall i :: 0 <= i < |bs| ==> |bs[i]| == 64
    decreases |m|
  {
    if |m| < 64 then [] else [m[..64]] + Chop(m[64..])
  }

  lemma {:induction false} ChopAppend(a: seq<byte>, b: seq<byte>)
    requires |a| % 64 == 0
    ensures Chop(a + b) == Chop(a) + Chop(b)
    decreases |a|
  {
    if a == [] {
      assert a + b == b;
    } else {
      assert (a + b)[..64] == a[..64] && (a + b)[64..] == a[64..] + b;
      ChopAppend(a[64..], b);
    }
  }

  lemma ChopOne(b: seq<byte>)
    requires |b| == 64
    ensures Chop(b) == [b]
  {
    assert b[..64] == b && b[64..] == [];
  }

  /** The part of a message in whole blocks, and what is left. */
  function Whole(m: seq<byte>): (w: seq<byte>)
    ensures |w| == |m| - |m| % 64
  {
    m[..|m| - |m| % 64]
  }

  function Tail(m: seq<byte>): (t: seq<byte>)
    ensures |t| == |m| % 64
  {
    m[|m| - |m| % 64..]
  }

  lemma WholeTail(m: seq<byte>)
    ensures m == Whole(m) + Tail(m) && |Whole(m)| % 64 == 0
  {
    AlignedPart(|m|);
  }

  lemma AlignedPart(n: nat)
    ensures (n - n % 64) % 64 == 0
  {
  }

  /** Taking apart a message from its parts. */
  lemma Parts(w: seq<byte>, t: seq<byte>)
    requires |w| % 64 == 0 && |t| < 64
    ensures Whole(w + t) == w && Tail(w + t) == t
  {
    AlignedSum(|w|, |t|);
  }

  lemma AlignedSum(a: nat, b: nat)
    requires a % 64 == 0 && b < 64
    ensures (a + b) % 64 == b
  {
  }

  /** The bookkeeping of a state after the bytes of `msg`; `totallen` is a 32-bit counter of whole blocks. */
  ghost predicate Streamed(buf: seq<byte>, buflen: nat, totallen: nat, msg: seq<byte>) {
    |buf| == 64 && buflen == |Tail(msg)| && buf[..buflen] == Tail(msg) && totallen == |Whole(msg)| % TWO32
  }

  lemma Room(buf: seq<byte>, buflen: nat, totallen: nat, msg: seq<byte>)
    requires Streamed(buf, buflen, totallen, msg)
    ensures buflen < 64
  {
  }

  lemma StreamedEmpty(buf: seq<byte>)
    requires |buf| == 64
    ensures Streamed(buf, 0, 0, []) && Chop(Whole([])) == []
  {
    hide Whole, Tail;
    var none: seq<byte> := [];
    Parts(none, none);
    assert none + none == none;
  }

  /** More bytes that do not fill the block just wait. */
  lemma StreamedMore(buf: seq<byte>, buf': seq<byte>, buflen: nat, totallen: nat, msg: seq<byte>, d: seq<byte>)
    requires Streamed(buf, buflen, totallen, msg) && buflen + |d| < 64 && |buf'| == 64
    requires buf'[..buflen + |d|] == buf[..buflen] + d
    ensures Streamed(buf', buflen + |d|, totallen, msg + d) && Whole(msg + d) == Whole(msg)
  {
    hide Whole, Tail;
    WholeTail(msg);
    assert msg + d == Whole(msg) + (Tail(msg) + d);
    Parts(Whole(msg), Tail(msg) + d);
  }

  /** Bytes that fill the block complete it. */
  lemma StreamedFull(buf: seq<byte>, buf': seq<byte>, buflen: nat, totallen: nat, msg: seq<byte>, d: seq<byte>)
    requires Streamed(buf, buflen, totallen, msg) && buflen + |d| == 64 == |buf'|
    requires buf' == buf[..buflen] + d
    ensures Streamed(buf', 0, (totallen + 64) % TWO32, msg + d)
    ensures Chop(Whole(msg + d)) == Chop(Whole(msg)) + [buf']
  {
    hide Whole, Tail, Chop;
    WholeTail(msg);
    assert msg + d == (Whole(msg) + buf') + [];
    AlignedSum(|Whole(msg)| + 64, 0);
    AlignedNext(|Whole(msg)|);
    Parts(Whole(msg) + buf', []);
    ChopAppend(Whole(msg), buf');
    ChopOne(buf');
    AddWraps(|Whole(msg)|, 64);
  }

  lemma AlignedNext(a: nat)
    requires a % 64 == 0
    ensures (a + 64) % 64 == 0
  {
  }

  lemma AddWraps(a: nat, b: nat)
    ensures (a % TWO32 + b) % TWO32 == (a + b) % TWO32
  {
  }

  /** The padding: the bit 1, zeros, and eight bytes of length. */
  function Padding(len: nat, field: seq<byte>): seq<byte>
    requires |field| == 8
  {
    [0x80 as byte] + ZeroBytes((119 - len % 64) % 64) + field
  }

  /** The blocks that padding adds: one if the rest of the message leaves room for it, two if not. */
  function LastBlocks(tail: seq<byte>, field: seq<byte>): (bs: seq<seq<byte>>)
    requires |tail| < 64 && |field| == 8
    ensures forall i :: 0 <= i < |bs| ==> |bs[i]| == 64
  {
    if |tail| < 56 then [tail + [0x80] + ZeroBytes(55 - |tail|) + field]
    else [tail + [0x80] + ZeroBytes(63 - |tail|), ZeroBytes(56) + field]
  }

  lemma ChopPadded(msg: seq<byte>, field: seq<byte>)
    requires |field| == 8
    ensures Chop(msg + Padding(|msg|, field)) == Chop(Whole(msg)) + LastBlocks(Tail(msg), field)
  {
    hide Chop, Padding, LastBlocks, Whole, Tail;
    WholeTail(msg);
    ChopRest(|msg|, Tail(msg), field);
    ChopJoined(Whole(msg), Tail(msg), Padding(|msg|, field));
  }

  lemma ChopJoined(w: seq<byte>, t: seq<byte>, pad: seq<byte>)
    requires |w| % 64 == 0
    ensures Chop(w + t + pad) == Chop(w) + Chop(t + pad)
  {
    hide Chop;
    assert w + t + pad == w + (t + pad);
    ChopAppend(w, t + pad);
  }

  lemma ChopRest(len: nat, tail: seq<byte>, field: seq<byte>)
    requires |field| == 8 && |tail| == len % 64
    ensures Chop(tail + Padding(len, field)) == LastBlocks(tail, field)
  {
    hide Chop;
    var bs := LastBlocks(tail, field);
    if |tail| < 56 {
      assert tail + Padding(len, field) == bs[0];
      ChopOne(bs[0]);
    } else {
      assert ZeroBytes(119 - |tail|) == ZeroBytes(63 - |tail|) + ZeroBytes(56);
      assert tail + Padding(len, field) == bs[0] + bs[1];
      ChopAppend(bs[0], bs[1]);
      ChopOne(bs[0]);
      ChopOne(bs[1]);
    }
  }

  /** The length in bits, as the 32-bit counter gives it. */
  lemma FieldOf(len: nat)
    ensures len % TWO32 * 8 % TWO32 == 8 * len % TWO32
  {
    var q, r := len / TWO32, len % TWO32;
    assert 8 * len == 8 * q * TWO32 + 8 * r;
  }

  function ToByte(x: nat): byte { (x % 256) as byte }

  /** `n` bytes, least significant first. */
  function LittleEndianBytes(x: nat, n: nat): (s: seq<byte>)
    ensures |s| == n
  {
    if n == 0 then [] else [ToByte(x)] + LittleEndianBytes(x / 256, n - 1)
  }

  /** `n` bytes, most significant first. */
  function BigEndianBytes(x: nat, n: nat): (s: seq<byte>)
    ensures |s| == n
  {
    if n == 0 then [] else BigEndianBytes(x / 256, n - 1) + [ToByte(x)]
  }

  lemma {:induction false} EndianMirror(x: nat, n: nat, i: nat)
    requires i < n
    ensures LittleEndianBytes(x, n)[i] == BigEndianBytes(x, n)[n - 1 - i]
  {
    if i > 0 { EndianMirror(x / 256, n - 1, i - 1); }
  }

  /** The low half of an eight-byte number, as the shifts give it. */
  lemma FieldBytes(x: nat)
    ensures BigEndianBytes(x, 8)
            == BigEndianBytes(x / TWO32, 4)
               + [ToByte(x / 0x100_0000), ToByte(x / 0x1_0000), ToByte(x / 0x100), ToByte(x)]
  {
    hide ToByte;
    var a, b, c := x / 256, x / 256 / 256, x / 256 / 256 / 256;
    assert b == x / 0x1_0000 && c == x / 0x100_0000 && c / 256 == x / TWO32;
    assert BigEndianBytes(c, 5) == BigEndianBytes(c / 256, 4) + [ToByte(c)];
    assert BigEndianBytes(b, 6) == BigEndianBytes(c, 5) + [ToByte(b)];
    assert BigEndianBytes(a, 7) == BigEndianBytes(b, 6) + [ToByte(a)];
    assert BigEndianBytes(x, 8) == BigEndianBytes(a, 7) + [ToByte(x)];
  }

  lemma ByteNonZero(x: int)
    requires 0 < x < 256
    ensures x as byte != 0
  {
  }

  lemma {:induction false} ZeroField(n: nat)
    ensures BigEndianBytes(0, n) == ZeroBytes(n)
  {
    if n > 0 {
      ZeroField(n - 1);
      assert ToByte(0) == 0;
    }
  }

  lemma {:induction false} NonZeroField(x: nat, n: nat)
    requires 0 < x < Pow256(n)
    ensures BigEndianBytes(x, n) != ZeroBytes(n)
  {
    var s := BigEndianBytes(x, n);
    assert s[n - 1] == ToByte(x) && s[..n - 1] == BigEndianBytes(x / 256, n - 1);
    hide BigEndianBytes;
    if x % 256 != 0 {
      ByteNonZero(x % 256);
    } else {
      NonZeroField(x / 256, n - 1);
      assert ZeroBytes(n)[..n - 1] == ZeroBytes(n - 1);
    }
  }

  function Pow256(n: nat): nat { if n == 0 then 1 else 256 * Pow256(n - 1) }

  /** The field that the code writes is the right one exactly below 2^29 bytes, among the lengths that fit the field. */
  lemma FieldCorrectIff(len: nat)
    requires 8 * len < TWO32 * TWO32
    ensures BigEndianBytes(8 * len % TWO32, 8) == BigEndianBytes(8 * len, 8) <==> len < 0x2000_0000
  {
    hide BigEndianBytes, ToByte;
    if len >= 0x2000_0000 {
      var x, y := 8 * len % TWO32, 8 * len;
      FieldBytes(x);
      FieldBytes(y);
      ZeroField(4);
      assert Pow256(2) == 0x1_0000 && Pow256(4) == TWO32;
      NonZeroField(y / TWO32, 4);
      assert BigEndianBytes(x, 8)[..4] == ZeroBytes(4) && BigEndianBytes(y, 8)[..4] == BigEndianBytes(y / TWO32, 4);
    }
  }

  /** The same for the field with its least significant byte first. */
  lemma LittleFieldCorrectIff(len: nat)
    requires 8 * len < TWO32 * TWO32
    ensures LittleEndianBytes(8 * len % TWO32, 8) == LittleEndianBytes(8 * len, 8) <==> len < 0x2000_0000
  {
    FieldCorrectIff(len);
    SameEitherWay(8 * len % TWO32, 8 * len, 8);
  }

  lemma SameEitherWay(x: nat, y: nat, n: nat)
    ensures LittleEndianBytes(x, n) == LittleEndianBytes(y, n) <==> BigEndianBytes(x, n) == BigEndianBytes(y, n)
  {
    forall i | 0 <= i < n
      ensures LittleEndianBytes(x, n)[i] == BigEndianBytes(x, n)[n - 1 - i]
      ensures LittleEndianBytes(y, n)[i] == BigEndianBytes(y, n)[n - 1 - i]
    {
      EndianMirror(x, n, i);
      EndianMirror(y, n, i);
    }
    hide LittleEndianBytes, BigEndianBytes;
    var lx, ly := LittleEndianBytes(x, n), LittleEndianBytes(y, n);
    var ux, uy := BigEndianBytes(x, n), BigEndianBytes(y, n);
    if lx == ly {
      forall i | 0 <= i < n ensures ux[i] == uy[i] {
        assert lx[n - 1 - i] == ux[i] && ly[n - 1 - i] == uy[i];
      }
    }
  }

  /** The first wrong length: 2^29 bytes are 2^32 bits, and the field says none. */
  lemma FirstWrongField()
    ensures 8 * 0x2000_0000 % TWO32 == 0
    ensures BigEndianBytes(0, 8) == ZeroBytes(8) != BigEndianBytes(8 * 0x2000_0000, 8)
  {
    FieldCorrectIff(0x2000_0000);
    ZeroField(8);
  }

  /** `os_bzero` */
  method Clear(buf: array<byte>, from: nat, to: nat)
    requires from <= to <= buf.Length
    modifies buf
    ensures buf[..] == old(buf[..from]) + ZeroBytes(to - from) + old(buf[to..])
  {
    var i := from;
    while i < to
      invariant from <= i <= to
      invariant forall k :: 0 <= k < buf.Length ==> buf[k] == if from <= k < i then 0 else old(buf[k])
    {
      buf[i] := 0;
      i := i + 1;
    }
  }

  /** `os_memcpy` */
  method CopyIn(buf: array<byte>, at: nat, d: seq<byte>)
    requires at + |d| <= buf.Length
    modifies buf
    ensures buf[..] == old(buf[..at]) + d + old(buf[at + |d|..])
  {
    var i := 0;
    while i < |d|
      invariant 0 <= i <= |d|
      invariant forall k :: 0 <= k < buf.Length ==> buf[k] == if at <= k < at + i then d[k - at] else old(buf[k])
    {
      buf[at + i] := d[i];
      i := i + 1;
    }
  }
}
