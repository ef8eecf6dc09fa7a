/** MD5 as sections 3.1 to 3.5 of RFC 1321 define it. */
module Md5Spec {
  import opened Bytes
  import opened BlockStream

  /** Rotation to the left, section 2. */
  function RotL(x: word, n: nat): word
    requires 1 <= n <= 31
  {
    (x << n) | (x >> (32 - n))
  }

  /** The auxiliary functions of section 3.4. */
  function F(x: word, y: word, z: word): word { (x & y) | (!x & z) }
  function G(x: word, y: word, z: word): word { (x & z) | (y & !z) }
  function H(x: word, y: word, z: word): word { x ^ y ^ z }
  function I(x: word, y: word, z: word): word { y ^ (x | !z) }

  /** The table of section 3.4: T[i] is the integer part of 4294967296 times abs(sin(i + 1)). */
  const T_FIRST: seq<word> := [
    0xd76aa478, 0xe8c7b756, 0x242070db, 0xc1bdceee, 0xf57c0faf, 0x4787c62a, 0xa8304613, 0xfd469501,
    0x698098d8, 0x8b44f7af, 0xffff5bb1, 0x895cd7be, 0x6b901122, 0xfd987193, 0xa679438e, 0x49b40821]
  const T_SECOND: seq<word> := [
    0xf61e2562, 0xc040b340, 0x265e5a51, 0xe9b6c7aa, 0xd62f105d, 0x02441453, 0xd8a1e681, 0xe7d3fbc8,
    0x21e1cde6, 0xc33707d6, 0xf4d50d87, 0x455a14ed, 0xa9e3e905, 0xfcefa3f8, 0x676f02d9, 0x8d2a4c8a]
  const T_THIRD: seq<word> := [
    0xfffa3942, 0x8771f681, 0x6d9d6122, 0xfde5380c, 0xa4beea44, 0x4bdecfa9, 0xf6bb4b60, 0xbebfbc70,
    0x289b7ec6, 0xeaa127fa, 0xd4ef3085, 0x04881d05, 0xd9d4d039, 0xe6db99e5, 0x1fa27cf8, 0xc4ac5665]
  const T_FOURTH: seq<word> := [
    0xf4292244, 0x432aff97, 0xab9423a7, 0xfc93a039, 0x655b59c3, 0x8f0ccc92, 0xffeff47d, 0x85845dd1,
    0x6fa87e4f, 0xfe2ce6e0, 0xa3014314, 0x4e0811a1, 0xf7537e82, 0xbd3af235, 0x2ad7d2bb, 0xeb86d391]
  const T: seq<word> := T_FIRST + T_SECOND + T_THIRD + T_FOURTH

  datatype H4 = H4(a: word, b: word, c: word, d: word)

  const H0 := H4(0x67452301, 0xefcdab89, 0x98badcfe, 0x10325476)

  /** Little-endian word `i` of a block. */
  function BlockWord(m: seq<byte>, i: nat): word
    requires 4 * i + 4 <= |m|
  {
    ((m[4 * i + 3] as word) << 24) | ((m[4 * i + 2] as word) << 16) | ((m[4 * i + 1] as word) << 8) | (m[4 * i] as word)
  }

  /** The function and the word of the block that operation `i` uses, rounds 1 to 4 of section 3.4. */
  function Mix(i: nat, v: H4): word {
    if i < 16 then F(v.b, v.c, v.d) else if i < 32 then G(v.b, v.c, v.d)
    else if i < 48 then H(v.b, v.c, v.d) else I(v.b, v.c, v.d)
  }

  function Index(i: nat): (k: nat)
    ensures k < 16
  {
    if i < 16 then i else if i < 32 then (5 * i + 1) % 16 else if i < 48 then (3 * i + 5) % 16 else 7 * i % 16
  }

  type shift = n: nat | 1 <= n <= 31 witness 1

  const SHIFTS_FIRST: seq<shift> := [
    7, 12, 17, 22, 7, 12, 17, 22, 7, 12, 17, 22, 7, 12, 17, 22]
  const SHIFTS_SECOND: seq<shift> := [
    5, 9, 14, 20, 5, 9, 14, 20, 5, 9, 14, 20, 5, 9, 14, 20]
  const SHIFTS_THIRD: seq<shift> := [
    4, 11, 16, 23, 4, 11, 16, 23, 4, 11, 16, 23, 4, 11, 16, 23]
  const SHIFTS_FOURTH: seq<shift> := [
    6, 10, 15, 21, 6, 10, 15, 21, 6, 10, 15, 21, 6, 10, 15, 21]
  const SHIFTS: seq<shift> := SHIFTS_FIRST + SHIFTS_SECOND + SHIFTS_THIRD + SHIFTS_FOURTH

  /** One operation: a = b + ((a + f + X[k] + T[i]) <<< s), after which the registers change places. */
  function Operation(v: H4, i: nat, xk: word): H4
    requires i < 64
  {
    H4(v.d, Add(v.b, RotL(Sum4(v.a, Mix(i, v), xk, T[i]), SHIFTS[i])), v.b, v.c)
  }

  function Operations(v: H4, m: seq<byte>, n: nat): H4
    requires |m| == 64 && n <= 64
  {
    if n == 0 then v else Operation(Operations(v, m, n - 1), n - 1, BlockWord(m, Index(n - 1)))
  }

  function Plus(x: H4, y: H4): H4 { H4(Add(x.a, y.a), Add(x.b, y.b), Add(x.c, y.c), Add(x.d, y.d)) }

  function Compress(v: H4, m: seq<byte>): H4
    requires |m| == 64
  {
    Plus(v, Operations(v, m, 64))
  }

  /** The blocks in order, starting from `v`. */
  function Fold(v: H4, bs: seq<seq<byte>>): H4
    requires forall i :: 0 <= i < |bs| ==> |bs[i]| == 64
  {
    if bs == [] then v else Compress(Fold(v, bs[..|bs| - 1]), bs[|bs| - 1])
  }

  lemma FoldOne(v: H4, bs: seq<seq<byte>>, b: seq<byte>)
    requires |b| == 64 && forall i :: 0 <= i < |bs| ==> |bs[i]| == 64
    ensures Fold(v, bs + [b]) == Compress(Fold(v, bs), b)
  {
    assert (bs + [b])[..|bs|] == bs;
  }

  /** Low-order byte first. */
  function WordBytes(x: word): (s: seq<byte>)
    ensures |s| == 4
  {
    [(x & 0xff) as byte, ((x >> 8) & 0xff) as byte, ((x >> 16) & 0xff) as byte, (x >> 24) as byte]
  }

  function Digest(v: H4): (s: seq<byte>)
    ensures |s| == 16
  {
    WordBytes(v.a) + WordBytes(v.b) + WordBytes(v.c) + WordBytes(v.d)
  }

  /** The hash of a message padded (sections 3.1 and 3.2) with a given number in the length field. */
  function HashWith(m: seq<byte>, bits: nat): (s: seq<byte>)
    ensures |s| == 16
  {
    Digest(Fold(H0, Chop(m + Padding(|m|, LittleEndianBytes(bits, 8)))))
  }

  /** MD5 of a message of fewer than 2^61 bytes. */
  function MD5(m: seq<byte>): (s: seq<byte>)
    ensures |s| == 16
  {
    HashWith(m, 8 * |m|)
  }
}

/** Streaming MD5, crypto/md5.c. */
module Md5 {
  import opened Bytes
  import opened BlockStream
  import opened Md5Spec

  ghost function Four(a: array<word>): H4
    reads a
    requires a.Length == 4
  {
    H4(a[0], a[1], a[2], a[3])
  }

  /** The functions as the code writes them: the second is the first with its arguments moved. */
  function CodeMix(i: nat, h1: word, h2: word, h3: word): word {
    if i <= 15 then F(h1, h2, h3) else if i <= 31 then F(h3, h1, h2)
    else if i <= 47 then H(h1, h2, h3) else I(h1, h2, h3)
  }

  lemma GIsF(x: word, y: word, z: word)
    ensures F(z, x, y) == G(x, y, z)
  {
  }

  lemma MixAgrees(i: nat, v: H4)
    ensures CodeMix(i, v.b, v.c, v.d) == Mix(i, v)
  {
    hide F, G, H, I;
    GIsF(v.b, v.c, v.d);
  }

  lemma SumOrder(a: word, f: word, k: word, x: word)
    ensures Sum4(f, a, k, x) == Sum4(a, f, x, k)
  {
  }

  /** One turn of the loop of `md5_consume`, in place. */
  method OperationInPlace(hh: array<word>, i: nat, mg: word)
    requires hh.Length == 4 && i < 64
    modifies hh
    ensures Four(hh) == Operation(old(Four(hh)), i, mg)
  {
    hide Mix, CodeMix, Sum4, RotL, Add;
    MixAgrees(i, Four(hh));
    var f := CodeMix(i, hh[1], hh[2], hh[3]);
    SumOrder(hh[0], f, T[i], mg);
    f := Sum4(f, hh[0], T[i], mg);
    hh[0] := hh[3];
    hh[3] := hh[2];
    hh[2] := hh[1];
    hh[1] := Add(hh[1], RotL(f, SHIFTS[i]));
  }

  /** `md5_consume` */
  method Consume(h: array<word>, chunk: seq<byte>)
    requires h.Length == 4 && |chunk| == 64
    modifies h
    ensures Four(h) == Compress(old(Four(h)), chunk)
  {
    hide Operation, BlockWord, Plus, Index;
    var m := new word[16](i requires 0 <= i < 16 => BlockWord(chunk, i));
    var hh := new word[4](i requires 0 <= i < 4 reads h => h[i]);
    assert Four(hh) == old(Four(h));
    for i := 0 to 64
      invariant Four(hh) == Operations(old(Four(h)), chunk, i) && Four(h) == old(Four(h))
      invariant forall k :: 0 <= k < 16 ==> m[k] == BlockWord(chunk, k)
    {
      OperationInPlace(hh, i, m[Index(i)]);
    }
    AddInPlace(h, hh);
  }

  method AddInPlace(h: array<word>, g: array<word>)
    requires h.Length == 4 && g.Length == 4 && h != g
    modifies h
    ensures Four(h) == Plus(old(Four(h)), old(Four(g)))
  {
    hide Add;
    for i := 0 to 4
      invariant forall j :: 0 <= j < 4 ==> h[j] == if j < i then Add(old(h[j]), g[j]) else old(h[j])
      invariant forall j :: 0 <= j < 4 ==> g[j] == old(g[j])
    {
      h[i] := Add(h[i], g[i]);
    }
  }

  class Md5State {
    const buf: array<byte>
    const h: array<word>
    var buflen: nat
    var totallen: nat

    ghost predicate Holds(msg: seq<byte>)
      reads this, buf, h
    {
      buf.Length == 64 && h.Length == 4 && Streamed(buf[..], buflen, totallen, msg)
      && Four(h) == Fold(H0, Chop(Whole(msg)))
    }

    constructor ()
      ensures fresh(buf) && fresh(h) && buf.Length == 64 && h.Length == 4
    {
      buf := new byte[64](_ => 0);
      h := new word[4](_ => 0);
      buflen, totallen := 0, 0;
    }

    /** `md5_init` */
    method Init()
      requires buf.Length == 64 && h.Length == 4
      modifies this, h
      ensures Holds([])
    {
      hide Streamed, Chop, Whole;
      StreamedEmpty(buf[..]);
      h[0], h[1], h[2], h[3] := 0x67452301, 0xefcdab89, 0x98badcfe, 0x10325476;
      buflen, totallen := 0, 0;
    }

    /** `md5_proc`: however the message is cut into calls, the state depends on the bytes alone. */
    method Proc(data: seq<byte>, ghost msg: seq<byte>)
      requires Holds(msg)
      modifies this, buf, h
      ensures Holds(msg + data)
    {
      hide Streamed, Chop, Whole, Fold;
      var used := 0;
      assert msg + data[..0] == msg;
      while |data| - used > 0
        invariant 0 <= used <= |data| && Holds(msg + data[..used])
      {
        ghost var done := msg + data[..used];
        Room(buf[..], buflen, totallen, done);
        var len2 := if 64 - buflen < |data| - used then 64 - buflen else |data| - used;
        Feed(data[used..used + len2], done);
        assert done + data[used..used + len2] == msg + data[..used + len2];
        used := used + len2;
      }
      assert data[..used] == data;
    }

    /** One turn of the loop: bytes that fit the buffer. */
    method Feed(d: seq<byte>, ghost msg: seq<byte>)
      requires Holds(msg) && buflen + |d| <= 64 && |d| > 0
      modifies this, buf, h
      ensures Holds(msg + d)
    {
      hide Streamed, Compress, Chop, Whole, Fold;
      ghost var was := buf[..];
      CopyIn(buf, buflen, d);
      assert buf[..buflen + |d|] == was[..buflen] + d;
      assert buf[..][..buflen + |d|] == was[..buflen] + d;
      buflen := buflen + |d|;
      if buflen == 64 {
        assert buf[..] == was[..64 - |d|] + d;
        StreamedFull(was, buf[..], 64 - |d|, totallen, msg, d);
        FoldOne(H0, Chop(Whole(msg)), buf[..]);
        Consume(h, buf[..]);
        buflen := 0;
        totallen := (totallen + 64) % TWO32;
      } else {
        StreamedMore(was, buf[..], buflen - |d|, totallen, msg, d);
      }
    }

    /** `md5_done`: the length field is computed in 32 bits. */
    method Done(hash: array<byte>, at: nat, ghost msg: seq<byte>)
      requires Holds(msg) && at + 16 <= hash.Length && hash != buf
      modifies this, buf, h, hash
      ensures hash[..] == old(hash[..at]) + HashWith(msg, 8 * |msg| % TWO32) + old(hash[at + 16..])
    {
      hide Fold, Chop, Compress, Digest, Padding, LittleEndianBytes, Whole;
      ghost var tail, field := Tail(msg), LittleEndianBytes(8 * |msg| % TWO32, 8);
      ChopPadded(msg, field);
      ghost var bs := Chop(Whole(msg));
      FieldOf(|msg|);
      AddWraps(|Whole(msg)|, buflen);
      totallen := (totallen + buflen) % TWO32;
      buf[buflen] := 0x80;
      buflen := buflen + 1;
      assert buf[..buflen] == tail + [0x80];
      PadBuffer(tail);
      if |tail| < 56 {
        FoldOne(H0, bs, LastBlocks(tail, field)[0]);
      } else {
        ghost var last := LastBlocks(tail, field);
        FoldOne(H0, bs, last[0]);
        FoldOne(H0, bs + [last[0]], last[1]);
        assert bs + [last[0]] + [last[1]] == bs + last;
      }
      Finish(hash, at, totallen * 8 % TWO32);
    }

    /** Zeros up to the length field, after another block if there is no room for it in this one. */
    method PadBuffer(ghost tail: seq<byte>)
      requires buf.Length == 64 && h.Length == 4 && |tail| < 64 && buflen == |tail| + 1
               && buf[..buflen] == tail + [0x80]
      modifies buf, h
      ensures |tail| < 56 ==> buf[..56] == tail + [0x80] + ZeroBytes(55 - |tail|) && Four(h) == old(Four(h))
      ensures |tail| >= 56 ==>
                buf[..56] == ZeroBytes(56) && Four(h) == Compress(old(Four(h)), tail + [0x80] + ZeroBytes(63 - |tail|))
    {
      hide Compress;
      if buflen <= 56 {
        Clear(buf, buflen, 56);
        assert buf[..56] == tail + [0x80] + ZeroBytes(55 - |tail|);
      } else {
        Clear(buf, buflen, 64);
        assert buf[..] == tail + [0x80] + ZeroBytes(63 - |tail|);
        Consume(h, buf[..]);
        Clear(buf, 0, 56);
        assert buf[..56] == ZeroBytes(56);
      }
    }

    /** The length field, the last block, the output. */
    method Finish(hash: array<byte>, at: nat, total: nat)
      requires buf.Length == 64 && h.Length == 4 && at + 16 <= hash.Length && hash != buf && total < TWO32
      modifies buf, h, hash
      ensures hash[..] == old(hash[..at])
                          + Digest(Compress(old(Four(h)), old(buf[..56]) + LittleEndianBytes(total, 8)))
                          + old(hash[at + 16..])
    {
      hide Compress, Digest, LittleEndianBytes, LengthField;
      LengthFieldIs(total);
      CopyIn(buf, 56, LengthField(total));
      assert buf[..] == old(buf[..56]) + LittleEndianBytes(total, 8);
      Consume(h, buf[..]);
      Output(hash, at);
    }

    method Output(hash: array<byte>, at: nat)
      requires h.Length == 4 && at + 16 <= hash.Length
      modifies hash
      ensures hash[..] == old(hash[..at]) + Digest(Four(h)) + old(hash[at + 16..])
    {
      hide WordBytes, Words;
      ghost var pre, post := hash[..at], hash[at..];
      NoWords(h);
      assert hash[..] == pre + Words(h, 0) + post[0..];
      for i := 0 to 4
        invariant hash[..] == pre + Words(h, i) + post[4 * i..]
      {
        MoreWords(h, i);
        Splice(pre, Words(h, i), post, 4 * i, WordBytes(h[i]));
        CopyIn(hash, at + 4 * i, WordBytes(h[i]));
      }
      FourWords(h);
      assert post[16..] == old(hash[at + 16..]);
    }
  }

  lemma Splice(pre: seq<byte>, ws: seq<byte>, post: seq<byte>, k: nat, w: seq<byte>)
    requires |ws| == k && k + |w| <= |post|
    ensures var s := pre + ws + post[k..];
            s[..|pre| + k] + w + s[|pre| + k + |w|..] == pre + (ws + w) + post[k + |w|..]
  {
    var s := pre + ws + post[k..];
    assert s[..|pre| + k] == pre + ws;
    assert s[|pre| + k + |w|..] == post[k + |w|..];
  }

  lemma NoWords(h: array<word>)
    ensures Words(h, 0) == []
  {
  }

  lemma MoreWords(h: array<word>, i: nat)
    requires i < h.Length
    ensures Words(h, i + 1) == Words(h, i) + WordBytes(h[i])
  {
  }

  /** The first `n` words as bytes. */
  ghost function Words(h: array<word>, n: nat): (s: seq<byte>)
    reads h
    requires n <= h.Length
    ensures |s| == 4 * n
  {
    if n == 0 then [] else Words(h, n - 1) + WordBytes(h[n - 1])
  }

  lemma FourWords(h: array<word>)
    requires h.Length == 4
    ensures Words(h, 4) == Digest(Four(h))
  {
    hide WordBytes;
    assert Words(h, 1) == WordBytes(h[0]);
    assert Words(h, 2) == WordBytes(h[0]) + WordBytes(h[1]);
  }

  /** The length field: a 32-bit number of bits in eight bytes. */
  function LengthField(total: nat): seq<byte> {
    [ToByte(total), ToByte(total / 0x100), ToByte(total / 0x1_0000), ToByte(total / 0x100_0000)] + ZeroBytes(4)
  }

  lemma LengthFieldIs(total: nat)
    requires total < TWO32
    ensures LengthField(total) == LittleEndianBytes(total, 8)
  {
    hide ToByte, LittleEndianBytes, BigEndianBytes;
    FieldBytes(total);
    ZeroField(4);
    assert total / TWO32 == 0;
    var s, t := LengthField(total), LittleEndianBytes(total, 8);
    forall i | 0 <= i < 8 ensures s[i] == t[i] {
      EndianMirror(total, 8, i);
    }
  }

  /** Below 2^29 bytes the code computes MD5. */
  lemma StreamingIsMD5(msg: seq<byte>)
    requires |msg| < 0x2000_0000
    ensures HashWith(msg, 8 * |msg| % TWO32) == MD5(msg)
  {
    hide HashWith;
  }

  /** `md5`, with the result put in the buffer that held the message. */
  method HashInPlace(a: array<byte>, len: nat, at: nat)
    requires len <= a.Length && at + 16 <= a.Length && len < 0x2000_0000
    modifies a
    ensures a[..] == old(a[..at]) + MD5(old(a[..len])) + old(a[at + 16..])
  {
    hide MD5, HashWith, Streamed, Fold, Chop, Whole;
    var s := new Md5State();
    s.Init();
    ghost var msg := a[..len];
    s.Proc(a[..len], []);
    assert [] + msg == msg;
    StreamingIsMD5(msg);
    s.Done(a, at, msg);
  }
}
