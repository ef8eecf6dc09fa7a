/** SHA-256 as sections 2 to 6 of FIPS 180-4 define it. */
module Sha256Spec {
  import opened Bytes
  import opened BlockStream

  /** The operations of sections 2.2.2 and 3.2 on 32-bit words. */
  function Xor(x: word, y: word): word { x ^ y }
  function And(x: word, y: word): word { x & y }
  function Not(x: word): word { !x }
  function ShR(x: word, n: nat): word
    requires n <= 32
  {
    x >> n
  }

  /** ROTR of section 3.2. */
  function RotR(x: word, n: nat): word
    requires 1 <= n <= 31
  {
    (x >> n) | (x << (32 - n))
  }

  /** The functions of section 4.1.2. */
  function Ch(x: word, y: word, z: word): word { Xor(And(x, y), And(Not(x), z)) }
  function Maj(x: word, y: word, z: word): word { Xor(Xor(And(x, y), And(x, z)), And(y, z)) }
  function BigSigma0(x: word): word { Xor(Xor(RotR(x, 2), RotR(x, 13)), RotR(x, 22)) }
  function BigSigma1(x: word): word { Xor(Xor(RotR(x, 6), RotR(x, 11)), RotR(x, 25)) }
  function SmallSigma0(x: word): word { Xor(Xor(RotR(x, 7), RotR(x, 18)), ShR(x, 3)) }
  function SmallSigma1(x: word): word { Xor(Xor(RotR(x, 17), RotR(x, 19)), ShR(x, 10)) }

  /** The constants of section 4.2.2. */
  const K_FIRST: seq<word> := [
    0x428a2f98, 0x71374491, 0xb5c0fbcf, 0xe9b5dba5, 0x3956c25b, 0x59f111f1, 0x923f82a4, 0xab1c5ed5,
    0xd807aa98, 0x12835b01, 0x243185be, 0x550c7dc3, 0x72be5d74, 0x80deb1fe, 0x9bdc06a7, 0xc19bf174]
  const K_SECOND: seq<word> := [
    0xe49b69c1, 0xefbe4786, 0x0fc19dc6, 0x240ca1cc, 0x2de92c6f, 0x4a7484aa, 0x5cb0a9dc, 0x76f988da,
    0x983e5152, 0xa831c66d, 0xb00327c8, 0xbf597fc7, 0xc6e00bf3, 0xd5a79147, 0x06ca6351, 0x14292967]
  const K_THIRD: seq<word> := [
    0x27b70a85, 0x2e1b2138, 0x4d2c6dfc, 0x53380d13, 0x650a7354, 0x766a0abb, 0x81c2c92e, 0x92722c85,
    0xa2bfe8a1, 0xa81a664b, 0xc24b8b70, 0xc76c51a3, 0xd192e819, 0xd6990624, 0xf40e3585, 0x106aa070]
  const K_FOURTH: seq<word> := [
    0x19a4c116, 0x1e376c08, 0x2748774c, 0x34b0bcb5, 0x391c0cb3, 0x4ed8aa4a, 0x5b9cca4f, 0x682e6ff3,
    0x748f82ee, 0x78a5636f, 0x84c87814, 0x8cc70208, 0x90befffa, 0xa4506ceb, 0xbef9a3f7, 0xc67178f2]
  const K: seq<word> := K_FIRST + K_SECOND + K_THIRD + K_FOURTH

  /** The eight words of the hash value, or the working variables a to h. */
  datatype H8 = H8(a: word, b: word, c: word, d: word, e: word, f: word, g: word, h: word)

  const H0 := H8(0x6a09e667, 0xbb67ae85, 0x3c6ef372, 0xa54ff53a, 0x510e527f, 0x9b05688c, 0x1f83d9ab, 0x5be0cd19)

  /** Big-endian word `i` of a block. */
  function BlockWord(m: seq<byte>, i: nat): word
    requires 4 * i + 4 <= |m|
  {
    ((m[4 * i] as word) << 24) | ((m[4 * i + 1] as word) << 16) | ((m[4 * i + 2] as word) << 8) | (m[4 * i + 3] as word)
  }

  /** The message schedule of section 6.2.2, step 1. */
  function W(m: seq<byte>, t: nat): word
    requires |m| == 64 && t < 64
  {
    if t < 16 then BlockWord(m, t)
    else Sum4(SmallSigma1(W(m, t - 2)), W(m, t - 7), SmallSigma0(W(m, t - 15)), W(m, t - 16))
  }

  /** Step 3: one round. */
  function Round(v: H8, k: word, w: word): H8 {
    var t1 := Add(Add(Add(Add(v.h, BigSigma1(v.e)), Ch(v.e, v.f, v.g)), k), w);
    var t2 := Add(BigSigma0(v.a), Maj(v.a, v.b, v.c));
    H8(Add(t1, t2), v.a, v.b, v.c, Add(v.d, t1), v.e, v.f, v.g)
  }

  function Rounds(v: H8, m: seq<byte>, t: nat): H8
    requires |m| == 64 && t <= 64
  {
    if t == 0 then v else Round(Rounds(v, m, t - 1), K[t - 1], W(m, t - 1))
  }

  function Plus(x: H8, y: H8): H8 {
    H8(Add(x.a, y.a), Add(x.b, y.b), Add(x.c, y.c), Add(x.d, y.d), Add(x.e, y.e), Add(x.f, y.f), Add(x.g, y.g),
       Add(x.h, y.h))
  }

  /** Step 4: the new hash value. */
  function Compress(v: H8, m: seq<byte>): H8
    requires |m| == 64
  {
    Plus(v, Rounds(v, m, 64))
  }

  /** The blocks in order, starting from `v`. */
  function Fold(v: H8, bs: seq<seq<byte>>): H8
    requires forall i :: 0 <= i < |bs| ==> |bs[i]| == 64
  {
    if bs == [] then v else Compress(Fold(v, bs[..|bs| - 1]), bs[|bs| - 1])
  }

  function WordBytes(x: word): (s: seq<byte>)
    ensures |s| == 4
  {
    [(x >> 24) as byte, ((x >> 16) & 0xff) as byte, ((x >> 8) & 0xff) as byte, (x & 0xff) as byte]
  }

  function Digest(v: H8): (s: seq<byte>)
    ensures |s| == 32
  {
    WordBytes(v.a) + WordBytes(v.b) + WordBytes(v.c) + WordBytes(v.d)
    + WordBytes(v.e) + WordBytes(v.f) + WordBytes(v.g) + WordBytes(v.h)
  }

  /** The hash of a message padded (section 5.1.1) with a given number in the length field. */
  function HashWith(m: seq<byte>, bits: nat): (s: seq<byte>)
    ensures |s| == 32
  {
    Digest(Fold(H0, Chop(m + Padding(|m|, BigEndianBytes(bits, 8)))))
  }

  /** SHA-256 of a message of fewer than 2^61 bytes. */
  function SHA256(m: seq<byte>): (s: seq<byte>)
    ensures |s| == 32
  {
    HashWith(m, 8 * |m|)
  }

  lemma FoldOne(v: H8, bs: seq<seq<byte>>, b: seq<byte>)
    requires |b| == 64 && forall i :: 0 <= i < |bs| ==> |bs[i]| == 64
    ensures Fold(v, bs + [b]) == Compress(Fold(v, bs), b)
  {
    assert (bs + [b])[..|bs|] == bs;
  }
}

/** Streaming SHA-256 in a buffer of one block, crypto/sha256.c. */
module Sha256 {
  import opened Bytes
  import opened BlockStream
  import opened Sha256Spec

  /** `rrotate`: the mask keeps one bit too many, which the shift then drops. */
  function Rrotate(x: word, n: nat): word
    requires 1 <= n <= 29
  {
    var left := x >> n;
    var right := x & ((1 << (n + 1)) - 1);
    (right << (32 - n)) | left
  }

  /** It is a true rotation. */
  lemma RotationLow(x: word, n: nat)
    requires 1 <= n <= 10
    ensures Rrotate(x, n) == RotR(x, n)
  {
    if n == 1 {
      assert Rrotate(x, 1) == RotR(x, 1);
    } else if n == 2 {
      assert Rrotate(x, 2) == RotR(x, 2);
    } else if n == 3 {
      assert Rrotate(x, 3) == RotR(x, 3);
    } else if n == 4 {
      assert Rrotate(x, 4) == RotR(x, 4);
    } else if n == 5 {
      assert Rrotate(x, 5) == RotR(x, 5);
    } else if n == 6 {
      assert Rrotate(x, 6) == RotR(x, 6);
    } else if n == 7 {
      assert Rrotate(x, 7) == RotR(x, 7);
    } else if n == 8 {
      assert Rrotate(x, 8) == RotR(x, 8);
    } else if n == 9 {
      assert Rrotate(x, 9) == RotR(x, 9);
    } else if n == 10 {
      assert Rrotate(x, 10) == RotR(x, 10);
    }
  }

  lemma RotationMiddle(x: word, n: nat)
    requires 11 <= n <= 20
    ensures Rrotate(x, n) == RotR(x, n)
  {
    if n == 11 {
      assert Rrotate(x, 11) == RotR(x, 11);
    } else if n == 12 {
      assert Rrotate(x, 12) == RotR(x, 12);
    } else if n == 13 {
      assert Rrotate(x, 13) == RotR(x, 13);
    } else if n == 14 {
      assert Rrotate(x, 14) == RotR(x, 14);
    } else if n == 15 {
      assert Rrotate(x, 15) == RotR(x, 15);
    } else if n == 16 {
      assert Rrotate(x, 16) == RotR(x, 16);
    } else if n == 17 {
      assert Rrotate(x, 17) == RotR(x, 17);
    } else if n == 18 {
      assert Rrotate(x, 18) == RotR(x, 18);
    } else if n == 19 {
      assert Rrotate(x, 19) == RotR(x, 19);
    } else if n == 20 {
      assert Rrotate(x, 20) == RotR(x, 20);
    }
  }

  lemma RotationHigh(x: word, n: nat)
    requires 21 <= n <= 29
    ensures Rrotate(x, n) == RotR(x, n)
  {
    if n == 21 {
      assert Rrotate(x, 21) == RotR(x, 21);
    } else if n == 22 {
      assert Rrotate(x, 22) == RotR(x, 22);
    } else if n == 23 {
      assert Rrotate(x, 23) == RotR(x, 23);
    } else if n == 24 {
      assert Rrotate(x, 24) == RotR(x, 24);
    } else if n == 25 {
      assert Rrotate(x, 25) == RotR(x, 25);
    } else if n == 26 {
      assert Rrotate(x, 26) == RotR(x, 26);
    } else if n == 27 {
      assert Rrotate(x, 27) == RotR(x, 27);
    } else if n == 28 {
      assert Rrotate(x, 28) == RotR(x, 28);
    } else if n == 29 {
      assert Rrotate(x, 29) == RotR(x, 29);
    }
  }

  lemma RrotateRotates(x: word, n: nat)
    requires 1 <= n <= 29
    ensures Rrotate(x, n) == RotR(x, n)
  {
    hide Rrotate, RotR;
    if n <= 10 { RotationLow(x, n); } else if n <= 20 { RotationMiddle(x, n); } else { RotationHigh(x, n); }
  }

  /** The code adds the terms of the schedule in the opposite order. */
  lemma SumOrder(a: word, b: word, c: word, d: word)
    ensures Sum4(a, b, c, d) == Sum4(d, c, b, a)
  {
  }

  lemma WStep(m: seq<byte>, t: nat)
    requires |m| == 64 && t < 64
    ensures t < 16 ==> W(m, t) == BlockWord(m, t)
    ensures t >= 16 ==>
              W(m, t) == Sum4(SmallSigma1(W(m, t - 2)), W(m, t - 7), SmallSigma0(W(m, t - 15)), W(m, t - 16))
  {
    hide BlockWord, SmallSigma0, SmallSigma1, Sum4;
  }

  /** The mixing functions as the code writes them. */
  function CodeS0(x: word): word { Xor(Xor(Rrotate(x, 7), Rrotate(x, 18)), ShR(x, 3)) }
  function CodeS1(x: word): word { Xor(Xor(Rrotate(x, 17), Rrotate(x, 19)), ShR(x, 10)) }
  function CodeBig0(x: word): word { Xor(Xor(Rrotate(x, 2), Rrotate(x, 13)), Rrotate(x, 22)) }
  function CodeBig1(x: word): word { Xor(Xor(Rrotate(x, 6), Rrotate(x, 11)), Rrotate(x, 25)) }

  lemma MixingAgrees(x: word)
    ensures CodeS0(x) == SmallSigma0(x) && CodeS1(x) == SmallSigma1(x)
    ensures CodeBig0(x) == BigSigma0(x) && CodeBig1(x) == BigSigma1(x)
  {
    hide Rrotate, RotR, Xor, ShR;
    RrotateRotates(x, 7);
    RrotateRotates(x, 18);
    RrotateRotates(x, 17);
    RrotateRotates(x, 19);
    RrotateRotates(x, 2);
    RrotateRotates(x, 13);
    RrotateRotates(x, 22);
    RrotateRotates(x, 6);
    RrotateRotates(x, 11);
    RrotateRotates(x, 25);
  }

  /** The eight words held in an array. */
  ghost function Eight(a: array<word>): H8
    reads a
    requires a.Length == 8
  {
    H8(a[0], a[1], a[2], a[3], a[4], a[5], a[6], a[7])
  }

  /** The first two loops of `sha256_consume`. */
  method Schedule(chunk: seq<byte>) returns (w: array<word>)
    requires |chunk| == 64
    ensures fresh(w) && w.Length == 64 && forall t :: 0 <= t < 64 ==> w[t] == W(chunk, t)
  {
    hide BlockWord, SmallSigma0, SmallSigma1, CodeS0, CodeS1, Sum4, W;
    w := new word[64](_ => 0);
    for i := 0 to 16
      invariant forall t :: 0 <= t < i ==> w[t] == W(chunk, t)
    {
      WStep(chunk, i);
      w[i] := BlockWord(chunk, i);
    }
    for i := 16 to 64
      invariant forall t :: 0 <= t < i ==> w[t] == W(chunk, t)
    {
      var s0 := CodeS0(w[i - 15]);
      var s1 := CodeS1(w[i - 2]);
      WStep(chunk, i);
      MixingAgrees(w[i - 15]);
      MixingAgrees(w[i - 2]);
      SumOrder(w[i - 16], s0, w[i - 7], s1);
      w[i] := Sum4(w[i - 16], s0, w[i - 7], s1);
    }
  }

  /** One turn of the round loop, in place. */
  method RoundInPlace(g: array<word>, k: word, w: word)
    requires g.Length == 8
    modifies g
    ensures Eight(g) == Round(old(Eight(g)), k, w)
  {
    hide BigSigma0, BigSigma1, CodeBig0, CodeBig1, Add, Xor, And, Not;
    MixingAgrees(g[0]);
    MixingAgrees(g[4]);
    var s1 := CodeBig1(g[4]);
    var ch := Xor(And(g[4], g[5]), And(Not(g[4]), g[6]));
    var temp1 := Add(Add(Add(Add(g[7], s1), ch), k), w);
    var s0 := CodeBig0(g[0]);
    var maj := Xor(Xor(And(g[0], g[1]), And(g[0], g[2])), And(g[1], g[2]));
    var temp2 := Add(s0, maj);
    g[7] := g[6];
    g[6] := g[5];
    g[5] := g[4];
    g[4] := Add(g[3], temp1);
    g[3] := g[2];
    g[2] := g[1];
    g[1] := g[0];
    g[0] := Add(temp1, temp2);
  }

  /** `sha256_consume` */
  method Consume(h: array<word>, chunk: seq<byte>)
    requires h.Length == 8 && |chunk| == 64
    modifies h
    ensures Eight(h) == Compress(old(Eight(h)), chunk)
  {
    hide Round, W, Plus;
    var w := Schedule(chunk);
    var g := new word[8](i requires 0 <= i < 8 reads h => h[i]);
    assert Eight(g) == old(Eight(h));
    for i := 0 to 64
      invariant Eight(g) == Rounds(old(Eight(h)), chunk, i) && Eight(h) == old(Eight(h))
      invariant forall t :: 0 <= t < 64 ==> w[t] == W(chunk, t)
    {
      RoundInPlace(g, K[i], w[i]);
    }
    AddInPlace(h, g);
  }

  method AddInPlace(h: array<word>, g: array<word>)
    requires h.Length == 8 && g.Length == 8 && h != g
    modifies h
    ensures Eight(h) == Plus(old(Eight(h)), old(Eight(g)))
  {
    hide Add;
    for i := 0 to 8
      invariant forall j :: 0 <= j < 8 ==> h[j] == if j < i then Add(old(h[j]), g[j]) else old(h[j])
      invariant forall j :: 0 <= j < 8 ==> g[j] == old(g[j])
    {
      h[i] := Add(h[i], g[i]);
    }
  }

  class Sha256State {
    const buf: array<byte>
    const h: array<word>
    var buflen: nat
    var totallen: nat

    ghost predicate Holds(msg: seq<byte>)
      reads this, buf, h
    {
      buf.Length == 64 && h.Length == 8 && Streamed(buf[..], buflen, totallen, msg)
      && Eight(h) == Fold(H0, Chop(Whole(msg)))
    }

    constructor ()
      ensures fresh(buf) && fresh(h) && buf.Length == 64 && h.Length == 8
    {
      buf := new byte[64](_ => 0);
      h := new word[8](_ => 0);
      buflen, totallen := 0, 0;
    }

    /** `sha256_init` */
    method Init()
      requires buf.Length == 64 && h.Length == 8
      modifies this, h
      ensures Holds([])
    {
      hide Streamed, Chop, Whole;
      StreamedEmpty(buf[..]);
      h[0], h[1], h[2], h[3] := 0x6a09e667, 0xbb67ae85, 0x3c6ef372, 0xa54ff53a;
      h[4], h[5], h[6], h[7] := 0x510e527f, 0x9b05688c, 0x1f83d9ab, 0x5be0cd19;
      buflen, totallen := 0, 0;
    }

    /** `sha256_proc`: however the message is cut into calls, the state depends on the bytes alone. */
    method Proc(data: seq<byte>, ghost msg: seq<byte>)
      requires Holds(msg)
      modifies this, buf, h
      ensures Holds(msg + data)
    {
      hide Streamed, Chop, Whole, Fold;
      var used := 0;
      assert msg + data[..0] == msg;
      while |data| - used > 0
        invariant 0 <= used <= |data| && Holds(msg + data[..used])
      {
        ghost var done := msg + data[..used];
        Room(buf[..], buflen, totallen, done);
        var len2 := if 64 - buflen < |data| - used then 64 - buflen else |data| - used;
        Feed(data[used..used + len2], done);
        assert done + data[used..used + len2] == msg + data[..used + len2];
        used := used + len2;
      }
      assert data[..used] == data;
    }

    /** One turn of the loop: bytes that fit the buffer. */
    method Feed(d: seq<byte>, ghost msg: seq<byte>)
      requires Holds(msg) && buflen + |d| <= 64 && |d| > 0
      modifies this, buf, h
      ensures Holds(msg + d)
    {
      hide Streamed, Compress, Chop, Whole, Fold;
      ghost var was := buf[..];
      CopyIn(buf, buflen, d);
      assert buf[..buflen + |d|] == was[..buflen] + d;
      assert buf[..][..buflen + |d|] == was[..buflen] + d;
      buflen := buflen + |d|;
      if buflen == 64 {
        assert buf[..] == was[..64 - |d|] + d;
        StreamedFull(was, buf[..], 64 - |d|, totallen, msg, d);
        FoldOne(H0, Chop(Whole(msg)), buf[..]);
        Consume(h, buf[..]);
        buflen := 0;
        totallen := (totallen + 64) % TWO32;
      } else {
        StreamedMore(was, buf[..], buflen - |d|, totallen, msg, d);
      }
    }

    /** `sha256_done`: the length field is computed in 32 bits. */
    method Done(hash: array<byte>, ghost msg: seq<byte>)
      requires Holds(msg) && hash.Length >= 32 && hash != buf
      modifies this, buf, h, hash
      ensures hash[..32] == HashWith(msg, 8 * |msg| % TWO32)
    {
      hide Fold, Chop, Compress, Digest, Padding, BigEndianBytes, Whole;
      ghost var tail, field := Tail(msg), BigEndianBytes(8 * |msg| % TWO32, 8);
      ChopPadded(msg, field);
      ghost var bs := Chop(Whole(msg));
      FieldOf(|msg|);
      AddWraps(|Whole(msg)|, buflen);
      totallen := (totallen + buflen) % TWO32;
      buf[buflen] := 0x80;
      buflen := buflen + 1;
      assert buf[..buflen] == tail + [0x80];
      PadBuffer(tail);
      if |tail| < 56 {
        FoldOne(H0, bs, LastBlocks(tail, field)[0]);
      } else {
        ghost var last := LastBlocks(tail, field);
        FoldOne(H0, bs, last[0]);
        FoldOne(H0, bs + [last[0]], last[1]);
        assert bs + [last[0]] + [last[1]] == bs + last;
      }
      Finish(hash, totallen * 8 % TWO32);
    }

    /** Zeros up to the length field, after another block if there is no room for it in this one. */
    method PadBuffer(ghost tail: seq<byte>)
      requires buf.Length == 64 && h.Length == 8 && |tail| < 64 && buflen == |tail| + 1
               && buf[..buflen] == tail + [0x80]
      modifies buf, h
      ensures |tail| < 56 ==> buf[..56] == tail + [0x80] + ZeroBytes(55 - |tail|) && Eight(h) == old(Eight(h))
      ensures |tail| >= 56 ==>
                buf[..56] == ZeroBytes(56)
                && Eight(h) == Compress(old(Eight(h)), tail + [0x80] + ZeroBytes(63 - |tail|))
    {
      hide Compress;
      if buflen <= 56 {
        Clear(buf, buflen, 56);
        assert buf[..56] == tail + [0x80] + ZeroBytes(55 - |tail|);
      } else {
        Clear(buf, buflen, 64);
        assert buf[..] == tail + [0x80] + ZeroBytes(63 - |tail|);
        Consume(h, buf[..]);
        Clear(buf, 0, 56);
        assert buf[..56] == ZeroBytes(56);
      }
    }

    /** The length field, the last block, the output. */
    method Finish(hash: array<byte>, total: nat)
      requires buf.Length == 64 && h.Length == 8 && hash.Length >= 32 && hash != buf && total < TWO32
      modifies buf, h, hash
      ensures hash[..32] == Digest(Compress(old(Eight(h)), old(buf[..56]) + BigEndianBytes(total, 8)))
    {
      hide Compress, Digest, BigEndianBytes, LengthField;
      LengthFieldIs(total);
      CopyIn(buf, 56, LengthField(total));
      assert buf[..] == old(buf[..56]) + BigEndianBytes(total, 8);
      Consume(h, buf[..]);
      Output(hash);
    }

    method Output(hash: array<byte>)
      requires h.Length == 8 && hash.Length >= 32
      modifies hash
      ensures hash[..32] == Digest(Eight(h))
    {
      hide WordBytes;
      for i := 0 to 8
        invariant hash[..4 * i] == Words(h, i)
      {
        CopyIn(hash, 4 * i, WordBytes(h[i]));
        assert hash[..4 * (i + 1)] == hash[..4 * i] + WordBytes(h[i]);
      }
      EightWords(h);
    }
  }

  /** The first `n` words as bytes. */
  ghost function Words(h: array<word>, n: nat): (s: seq<byte>)
    reads h
    requires n <= h.Length
    ensures |s| == 4 * n
  {
    if n == 0 then [] else Words(h, n - 1) + WordBytes(h[n - 1])
  }

  lemma EightWords(h: array<word>)
    requires h.Length == 8
    ensures Words(h, 8) == Digest(Eight(h))
  {
    hide WordBytes;
    assert Words(h, 1) == WordBytes(h[0]);
    assert Words(h, 2) == WordBytes(h[0]) + WordBytes(h[1]);
    assert Words(h, 4) == Words(h, 2) + WordBytes(h[2]) + WordBytes(h[3]);
    assert Words(h, 6) == Words(h, 4) + WordBytes(h[4]) + WordBytes(h[5]);
  }

  /** The length field: a 32-bit number of bits in eight bytes. */
  function LengthField(total: nat): seq<byte> {
    ZeroBytes(4) + [ToByte(total / 0x100_0000), ToByte(total / 0x1_0000), ToByte(total / 0x100), ToByte(total)]
  }

  lemma LengthFieldIs(total: nat)
    requires total < TWO32
    ensures LengthField(total) == BigEndianBytes(total, 8)
  {
    hide ToByte, BigEndianBytes;
    FieldBytes(total);
    ZeroField(4);
    assert total / TWO32 == 0;
  }

  /** Below 2^29 bytes the code computes SHA-256. */
  lemma StreamingIsSHA256(msg: seq<byte>)
    requires |msg| < 0x2000_0000
    ensures HashWith(msg, 8 * |msg| % TWO32) == SHA256(msg)
  {
    hide HashWith;
  }
}
