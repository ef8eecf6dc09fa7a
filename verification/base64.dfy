/** Base64, crypto/base64.c, section 4 of RFC 4648. */
module Base64 {
  import opened Bytes

  /** `encmap`: the alphabet. */
  function EncMap(b: byte): byte {
    if b <= 25 then 65 + b
    else if b <= 51 then 97 + (b - 26)
    else if b <= 61 then 48 + (b - 52)
    else if b == 62 then 43
    else 47
  }

  /** `decmap` */
  function DecMap(c: byte): byte {
    if 65 <= c && c <= 90 then c - 65
    else if 97 <= c && c <= 122 then (c - 97) + 26
    else if 48 <= c && c <= 57 then (c - 48) + 52
    else if c == 43 then 62
    else if c == 47 then 63
    else 0
  }

  const PAD: byte := 61

  /** Table 1 of RFC 4648. */
  lemma MapIsTable(b: byte)
    requires b < 64
    ensures b < 26 ==> EncMap(b) as char == "ABCDEFGHIJKLMNOPQRSTUVWXYZ"[b]
    ensures 26 <= b < 52 ==> EncMap(b) as char == "abcdefghijklmnopqrstuvwxyz"[b - 26]
    ensures 52 <= b < 62 ==> EncMap(b) as char == "0123456789"[b - 52]
    ensures 62 <= b ==> EncMap(b) as char == "+/"[b - 62]
  {
    if b < 26 { UpperTable(b); } else if b < 52 { LowerTable(b); }
  }

  lemma UpperTable(b: byte)
    requires b < 26
    ensures EncMap(b) as char == "ABCDEFGHIJKLMNOPQRSTUVWXYZ"[b]
  {
    var i := b as int;
    assert (65 + b) as int == 65 + i;
    assert "ABCDEFGHIJKLMNOPQRSTUVWXYZ"[i] as int == 65 + i;
  }

  lemma LowerTable(b: byte)
    requires 26 <= b < 52
    ensures EncMap(b) as char == "abcdefghijklmnopqrstuvwxyz"[b - 26]
  {
    var i := (b - 26) as int;
    assert (97 + (b - 26)) as int == 97 + i;
    assert "abcdefghijklmnopqrstuvwxyz"[i] as int == 97 + i;
  }

  predicate InAlphabet(c: byte) {
    (65 <= c && c <= 90) || (97 <= c && c <= 122) || (48 <= c && c <= 57) || c == 43 || c == 47 || c == PAD
  }

  lemma MapInverse(b: byte)
    requires b < 64
    ensures DecMap(EncMap(b)) == b && InAlphabet(EncMap(b)) && EncMap(b) != PAD
  {
  }

  /** And on no other character; padding inside a text counts as zero bits. */
  lemma MapInverseBack(c: byte)
    ensures InAlphabet(c) && c != PAD ==> DecMap(c) < 64 && EncMap(DecMap(c)) == c
    ensures InAlphabet(PAD) && DecMap(PAD) == 0
    ensures (c == PAD || DecMap(c) > 0 || c == EncMap(0)) ==> InAlphabet(c)
  {
  }

  /** The 24-bit group of three bytes, and its four 6-bit parts. */
  function Join3(a: byte, b: byte, c: byte): bv32 {
    ((a as bv32) << 16) | ((b as bv32) << 8) | (c as bv32)
  }

  function Part(v: bv32, k: nat): (p: byte)
    requires k < 4
    ensures p < 64
  {
    if k == 0 then ((v & 0x00fc0000) >> 18) as byte
    else if k == 1 then ((v & 0x0003f000) >> 12) as byte
    else if k == 2 then ((v & 0x00000fc0) >> 6) as byte
    else (v & 0x0000003f) as byte
  }

  function Join4(a: byte, b: byte, c: byte, d: byte): bv32 {
    ((a as bv32) << 18) | ((b as bv32) << 12) | ((c as bv32) << 6) | (d as bv32)
  }

  function Octet(v: bv32, k: nat): byte
    requires k < 3
  {
    if k == 0 then ((v & 0x00ff0000) >> 16) as byte
    else if k == 1 then ((v & 0x0000ff00) >> 8) as byte
    else (v & 0x000000ff) as byte
  }

  /** Taking a group apart and putting it together again. */
  lemma GroupInverse(a: byte, b: byte, c: byte)
    ensures var v := Join3(a, b, c);
            var w := Join4(Part(v, 0), Part(v, 1), Part(v, 2), Part(v, 3));
            w == v && Octet(v, 0) == a && Octet(v, 1) == b && Octet(v, 2) == c
  {
  }

  /** Four characters for one, two or three bytes. */
  function Enc4(s: seq<byte>): (e: seq<byte>)
    requires 1 <= |s| <= 3
    ensures |e| == 4
  {
    if |s| == 3 then
      var v := Join3(s[0], s[1], s[2]);
      [EncMap(Part(v, 0)), EncMap(Part(v, 1)), EncMap(Part(v, 2)), EncMap(Part(v, 3))]
    else if |s| == 2 then
      var v := Join3(s[0], s[1], 0);
      [EncMap(Part(v, 0)), EncMap(Part(v, 1)), EncMap(Part(v, 2)), PAD]
    else
      var v := Join3(s[0], 0, 0);
      [EncMap(Part(v, 0)), EncMap(Part(v, 1)), PAD, PAD]
  }

  function Encoded(s: seq<byte>): (e: seq<byte>)
    ensures |e| == EncodedLength(|s|)
  {
    LengthStep(|s|);
    if s == [] then [] else if |s| < 3 then Enc4(s) else Enc4(s[..3]) + Encoded(s[3..])
  }

  function EncodedLength(n: nat): nat { (n / 3 + if n % 3 > 0 then 1 else 0) * 4 }

  lemma LengthStep(n: nat)
    ensures EncodedLength(n) == if n == 0 then 0 else if n < 3 then 4 else 4 + EncodedLength(n - 3)
  {
  }

  /** Examples of section 10 of RFC 4648: "foo", "fo" and "f" are "Zm9v", "Zm8=" and "Zg==". */
  lemma Vectors()
    ensures Enc4([0x66, 0x6f, 0x6f]) == [0x5a, 0x6d, 0x39, 0x76]
    ensures Enc4([0x66, 0x6f]) == [0x5a, 0x6d, 0x38, 0x3d] && Enc4([0x66]) == [0x5a, 0x67, 0x3d, 0x3d]
  {
  }

  /** Up to three bytes for four characters; padding counts only in the last group. */
  function Dec4(e: seq<byte>, last: bool): (s: seq<byte>)
    requires |e| == 4
    ensures 1 <= |s| <= 3 && (!last ==> |s| == 3)
  {
    if last && e[2] == PAD && e[3] == PAD then
      [Octet(Join4(DecMap(e[0]), DecMap(e[1]), 0, 0), 0)]
    else if last && e[3] == PAD then
      var v := Join4(DecMap(e[0]), DecMap(e[1]), DecMap(e[2]), 0);
      [Octet(v, 0), Octet(v, 1)]
    else
      var v := Join4(DecMap(e[0]), DecMap(e[1]), DecMap(e[2]), DecMap(e[3]));
      [Octet(v, 0), Octet(v, 1), Octet(v, 2)]
  }

  function Decoded(e: seq<byte>): (s: seq<byte>)
    requires |e| % 4 == 0
    ensures |s| <= |e| / 4 * 3
  {
    if e == [] then [] else Dec4(e[..4], |e| == 4) + Decoded(e[4..])
  }

  lemma Inverse4(s: seq<byte>, last: bool)
    requires 1 <= |s| <= 3 && (|s| < 3 ==> last)
    ensures Dec4(Enc4(s), last) == s
    ensures forall i :: 0 <= i < 4 ==> InAlphabet(Enc4(s)[i])
  {
    hide EncMap, DecMap, Part, Join3, Join4, Octet;
    var a, b, c := s[0], if |s| > 1 then s[1] else 0, if |s| > 2 then s[2] else 0;
    var v := Join3(a, b, c);
    MapInverse(Part(v, 0));
    MapInverse(Part(v, 1));
    MapInverse(Part(v, 2));
    MapInverse(Part(v, 3));
    GroupInverse(a, b, c);
    ZeroParts(a, b);
  }

  /** Three octets of a 24-bit group are the group again. */
  lemma OctetsJoin(v: bv32)
    requires v < 0x100_0000
    ensures Join3(Octet(v, 0), Octet(v, 1), Octet(v, 2)) == v
  {
  }

  lemma PartsJoin(a: byte, b: byte, c: byte, d: byte)
    requires a < 64 && b < 64 && c < 64 && d < 64
    ensures var v := Join4(a, b, c, d);
            v < 0x100_0000 && Part(v, 0) == a && Part(v, 1) == b && Part(v, 2) == c && Part(v, 3) == d
  {
  }

  /** A group without padding is the encoding of what it decodes to. */
  lemma Group4(e: seq<byte>, last: bool)
    requires |e| == 4 && forall i :: 0 <= i < 4 ==> InAlphabet(e[i]) && e[i] != PAD
    ensures |Dec4(e, last)| == 3 && Enc4(Dec4(e, last)) == e
  {
    hide EncMap, DecMap, Part, Join3, Join4, Octet, InAlphabet;
    MapInverseBack(e[0]);
    MapInverseBack(e[1]);
    MapInverseBack(e[2]);
    MapInverseBack(e[3]);
    PartsJoin(DecMap(e[0]), DecMap(e[1]), DecMap(e[2]), DecMap(e[3]));
    OctetsJoin(Join4(DecMap(e[0]), DecMap(e[1]), DecMap(e[2]), DecMap(e[3])));
  }

  /** What padding leaves out is zero. */
  lemma ZeroParts(a: byte, b: byte)
    ensures Part(Join3(a, 0, 0), 2) == 0 && Part(Join3(a, 0, 0), 3) == 0 && Part(Join3(a, b, 0), 3) == 0
  {
  }

  /** `b64_decode` inverts `b64_encode` on every byte string. */
  lemma {:induction false} RoundTrip(s: seq<byte>)
    ensures |Encoded(s)| % 4 == 0 && Decoded(Encoded(s)) == s
    ensures forall i :: 0 <= i < |Encoded(s)| ==> InAlphabet(Encoded(s)[i])
  {
    hide Enc4, Dec4, InAlphabet;
    var e := Encoded(s);
    if s == [] {
    } else if |s| <= 3 {
      Inverse4(s, true);
      assert s[..|s|] == s && e[..4] == Enc4(s) && e == Enc4(s) by {
        if |s| == 3 { assert s[3..] == []; }
      }
      assert e[4..] == [];
    } else {
      Inverse4(s[..3], false);
      RoundTrip(s[3..]);
      assert e[..4] == Enc4(s[..3]) && e[4..] == Encoded(s[3..]);
      assert s == s[..3] + s[3..];
    }
  }

  /** `b64_encode`: -1 if the buffer is too small, else the number of characters. */
  method Encode(dec: seq<byte>, enc: array<byte>) returns (n: int)
    modifies enc
    ensures n == if enc.Length < EncodedLength(|dec|) then -1 else EncodedLength(|dec|)
    ensures n >= 0 ==> enc[..] == Encoded(dec) + old(enc[n..])
    ensures n < 0 ==> enc[..] == old(enc[..])
  {
    hide Enc4, Encoded;
    if enc.Length < (|dec| / 3 + if |dec| % 3 > 0 then 1 else 0) * 4 {
      return -1;
    }
    var i, j := 0, 0;
    assert Rest(dec, 0) == dec;
    while i < |dec|
      invariant 0 <= i < |dec| + 3 && 0 <= j <= enc.Length
      invariant enc[..j] + Encoded(Rest(dec, i)) == Encoded(dec)
      invariant enc[j..] == old(enc[j..])
    {
      var k := if i + 2 < |dec| then 3 else if i + 2 == |dec| then 2 else 1;
      ghost var done := enc[..j];
      EncodedStep(dec, i, k);
      PutGroup(enc, j, dec[i..i + k]);
      assert enc[..j + 4] == done + Enc4(dec[i..i + k]);
      i, j := i + 3, j + 4;
    }
    assert Rest(dec, i) == [] && Encoded([]) == [] by { NothingEncoded(); }
    n := j;
  }

  /** What is left from index `i` on. */
  function Rest(s: seq<byte>, i: nat): seq<byte> { if i <= |s| then s[i..] else [] }

  lemma NothingEncoded()
    ensures Encoded([]) == []
  {
  }

  lemma EncodedStep(s: seq<byte>, i: nat, k: nat)
    requires i < |s| && k == if i + 2 < |s| then 3 else |s| - i
    ensures Encoded(Rest(s, i)) == Enc4(s[i..i + k]) + Encoded(Rest(s, i + 3))
  {
    hide Enc4;
    var r := s[i..];
    assert r[..k] == s[i..i + k];
    if k == 3 {
      assert r[3..] == Rest(s, i + 3);
    } else {
      assert r[..k] == r;
    }
  }

  method PutGroup(enc: array<byte>, j: nat, s: seq<byte>)
    requires 1 <= |s| <= 3 && j + 4 <= enc.Length
    modifies enc
    ensures enc[..] == old(enc[..j]) + Enc4(s) + old(enc[j + 4..])
  {
    hide Enc4;
    var g := Enc4(s);
    enc[j], enc[j + 1], enc[j + 2], enc[j + 3] := g[0], g[1], g[2], g[3];
  }

  /** `b64_decode`: -2 for bad input, -1 if the buffer is too small, else the number of bytes. */
  method Decode(enc: seq<byte>, dec: array<byte>) returns (n: int)
    modifies dec
    ensures n == -2 <==> !Wellformed(enc)
    ensures n == -1 <==> Wellformed(enc) && dec.Length < |enc| / 4 * 3
    ensures n >= -2 && (n >= 0 ==> n == |Decoded(enc)| && dec[..] == Decoded(enc) + old(dec[n..]))
    ensures n < 0 ==> dec[..] == old(dec[..])
  {
    hide Dec4, Decoded;
    if |enc| % 4 != 0 {
      return -2;
    }
    for i := 0 to |enc|
      invariant forall k :: 0 <= k < i ==> InAlphabet(enc[k])
    {
      if !InAlphabet(enc[i]) {
        return -2;
      }
    }
    if |enc| / 4 * 3 > dec.Length {
      return -1;
    }
    n := DecodeLoop(enc, dec);
  }

  predicate Wellformed(enc: seq<byte>) {
    |enc| % 4 == 0 && forall k :: 0 <= k < |enc| ==> InAlphabet(enc[k])
  }

  method DecodeLoop(enc: seq<byte>, dec: array<byte>) returns (j: nat)
    requires |enc| % 4 == 0 && |enc| / 4 * 3 <= dec.Length
    modifies dec
    ensures j == |Decoded(enc)| && dec[..] == Decoded(enc) + old(dec[j..])
  {
    hide Dec4, Decoded;
    var i := 0;
    j := 0;
    assert enc[0..] == enc;
    while i < |enc|
      invariant 0 <= i <= |enc| && (|enc| - i) % 4 == 0 && 0 <= j <= dec.Length
      invariant j + (|enc| - i) / 4 * 3 <= dec.Length
      invariant dec[..j] + Decoded(enc[i..]) == Decoded(enc)
      invariant dec[j..] == old(dec[j..])
    {
      ghost var done := dec[..j];
      DecodedStep(enc, i);
      var k := PutBytes(dec, j, Dec4(enc[i..i + 4], i + 4 >= |enc|));
      assert dec[..j + k] == done + Dec4(enc[i..i + 4], i + 4 >= |enc|);
      i, j := i + 4, j + k;
    }
    assert enc[i..] == [] && Decoded([]) == [] by { NothingDecoded(); }
    assert dec[..j] == Decoded(enc);
  }

  lemma NothingDecoded()
    ensures Decoded([]) == []
  {
  }

  lemma DecodedStep(e: seq<byte>, i: nat)
    requires i < |e| && (|e| - i) % 4 == 0
    ensures i + 4 <= |e| && (|e| - (i + 4)) % 4 == 0 && (|e| - i) / 4 == (|e| - (i + 4)) / 4 + 1
    ensures Decoded(e[i..]) == Dec4(e[i..i + 4], i + 4 >= |e|) + Decoded(e[i + 4..])
  {
    hide Dec4;
    var r := e[i..];
    assert r[..4] == e[i..i + 4] && r[4..] == e[i + 4..];
  }

  method PutBytes(dec: array<byte>, j: nat, s: seq<byte>) returns (k: nat)
    requires 1 <= |s| <= 3 && j + |s| <= dec.Length
    modifies dec
    ensures k == |s| && dec[..] == old(dec[..j]) + s + old(dec[j + k..])
  {
    dec[j] := s[0];
    if |s| > 1 { dec[j + 1] := s[1]; }
    if |s| > 2 { dec[j + 2] := s[2]; }
    k := |s|;
  }
}
