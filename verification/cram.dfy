/** The answer to a CRAM-MD5 challenge, smtp/smtp.c, sections 2 of RFC 2104 and RFC 2195. */
module CramMd5 {
  import opened Bytes
  import opened BlockStream
  import B = Base64
  import Rfc1321 = Md5Spec
  import M = Md5

  /** MD5_BLOCKSIZE and MD5_HASHLEN */
  const BLOCK: nat := 64
  const HASH: nat := 16
  /** sizeof(right) and sizeof(chal) */
  const RIGHT: nat := 256
  const CHAL: nat := 128

  function XorAll(s: seq<byte>, x: byte): (t: seq<byte>)
    ensures |t| == |s|
  {
    seq(|s|, i requires 0 <= i < |s| => s[i] ^ x)
  }

  /** A key of exactly one block. */
  function BlockKey(key: seq<byte>): (k: seq<byte>)
    ensures |k| == BLOCK
  {
    if |key| > BLOCK then Rfc1321.MD5(key) + ZeroBytes(BLOCK - HASH) else key + ZeroBytes(BLOCK - |key|)
  }

  /** HMAC-MD5, section 2 of RFC 2104. */
  function Hmac(key: seq<byte>, text: seq<byte>): (d: seq<byte>)
    ensures |d| == HASH
  {
    var k := BlockKey(key);
    Rfc1321.MD5(XorAll(k, 0x5c) + Rfc1321.MD5(XorAll(k, 0x36) + text))
  }

  function Digit(x: byte): byte { if x < 10 then 48 + x else 87 + x }

  /** Lower-case hexadecimal. */
  function HexLower(s: seq<byte>): (h: seq<byte>)
    ensures |h| == 2 * |s|
  {
    if s == [] then [] else HexLower(s[..|s| - 1]) + [Digit(s[|s| - 1] >> 4), Digit(s[|s| - 1] & 0x0f)]
  }

  /** The line of section 2 of RFC 2195: user, a space, the digest. */
  function Line(user: seq<byte>, digest: seq<byte>): (l: seq<byte>)
    ensures |l| == |user| + 1 + 2 * |digest|
  {
    user + [32] + HexLower(digest)
  }

  const DIGITS := "0123456789abcdef"

  /** A digit is the character at its place in that text. */
  lemma DigitIs(x: byte)
    requires x < 16
    ensures Digit(x) as char == DIGITS[x]
  {
  }

  /** What a server finds on the line: the user, a space, and two lower-case digits for each byte of the digest. */
  lemma {:induction false} LineReads(user: seq<byte>, d: seq<byte>)
    ensures Line(user, d)[..|user|] == user && Line(user, d)[|user|] as char == ' '
    ensures forall i :: 0 <= i < |d| ==> d[i] >> 4 < 16 && d[i] & 0x0f < 16
    ensures forall i :: 0 <= i < |d| ==>
              Line(user, d)[|user| + 1 + 2 * i] as char == DIGITS[d[i] >> 4]
              && Line(user, d)[|user| + 2 + 2 * i] as char == DIGITS[d[i] & 0x0f]
  {
    hide Digit;
    HexReads(d);
    var l := Line(user, d);
    forall i | 0 <= i < |d|
      ensures d[i] >> 4 < 16 && d[i] & 0x0f < 16
      ensures l[|user| + 1 + 2 * i] as char == DIGITS[d[i] >> 4]
      ensures l[|user| + 2 + 2 * i] as char == DIGITS[d[i] & 0x0f]
    {
      Halves(d[i]);
      DigitIs(d[i] >> 4);
      DigitIs(d[i] & 0x0f);
      assert l[|user| + 1 + 2 * i] == HexLower(d)[2 * i] && l[|user| + 2 + 2 * i] == HexLower(d)[2 * i + 1];
    }
  }

  lemma Halves(x: byte)
    ensures x >> 4 < 16 && x & 0x0f < 16
  {
  }

  lemma {:induction false} HexReads(d: seq<byte>)
    ensures forall i :: 0 <= i < |d| ==>
              HexLower(d)[2 * i] == Digit(d[i] >> 4) && HexLower(d)[2 * i + 1] == Digit(d[i] & 0x0f)
  {
    hide Digit;
    if d != [] { HexReads(d[..|d| - 1]); }
  }

  /** HMAC, as section 2 of RFC 2104 puts it: the key, filled up with zeros, added to the bytes 36 and 5C. */
  lemma HmacBlocks(key: seq<byte>, text: seq<byte>)
    requires |key| <= 64
    ensures var full := seq(64, i requires 0 <= i < 64 => if i < |key| then key[i] else 0);
            var ipad := seq(64, i requires 0 <= i < 64 => full[i] ^ 0x36);
            var opad := seq(64, i requires 0 <= i < 64 => full[i] ^ 0x5c);
            Hmac(key, text) == Rfc1321.MD5(opad + Rfc1321.MD5(ipad + text))
  {
    hide Rfc1321.MD5;
    var full := seq(64, i requires 0 <= i < 64 => if i < |key| then key[i] else 0);
    assert full == BlockKey(key);
    assert seq(64, i requires 0 <= i < 64 => full[i] ^ 0x36) == XorAll(full, 0x36);
    assert seq(64, i requires 0 <= i < 64 => full[i] ^ 0x5c) == XorAll(full, 0x5c);
  }

  /** A key longer than a block is hashed first. */
  lemma HmacLongKey(key: seq<byte>, text: seq<byte>)
    requires |key| > 64
    ensures Hmac(key, text) == Hmac(Rfc1321.MD5(key), text)
  {
    hide Rfc1321.MD5;
    assert BlockKey(key) == BlockKey(Rfc1321.MD5(key));
  }

  /** The longest challenge that is answered has 168 characters. */
  lemma LongestChallenge(enc: seq<byte>)
    requires B.Wellformed(enc)
    ensures Decodable(enc) <==> |enc| <= 168
  {
  }

  /** The bytes of a C string. */
  function CString(s: seq<byte>): seq<byte> {
    if s == [] || s[0] == 0 then [] else [s[0]] + CString(s[1..])
  }

  lemma {:induction false} CStringShort(s: seq<byte>)
    ensures |CString(s)| <= |s| && CString(s) == s[..|CString(s)|]
    ensures (forall i :: 0 <= i < |CString(s)| ==> s[i] != 0) && (|CString(s)| < |s| ==> s[|CString(s)|] == 0)
    ensures (forall i :: 0 <= i < |s| ==> s[i] != 0) ==> CString(s) == s
  {
    if s != [] && s[0] != 0 { CStringShort(s[1..]); }
  }

  /** `for (...) a[i] ^= x` over one block. */
  method XorBlock(a: array<byte>, x: byte)
    requires a.Length >= BLOCK
    modifies a
    ensures a[..] == XorAll(old(a[..BLOCK]), x) + old(a[BLOCK..])
  {
    for i := 0 to BLOCK
      invariant forall k :: 0 <= k < a.Length ==> a[k] == if k < i then old(a[k]) ^ x else old(a[k])
    {
      a[i] := a[i] ^ x;
    }
  }

  /** The key, padded or hashed. */
  method MakeKey(pass: seq<byte>) returns (key: array<byte>)
    requires |pass| < 0x2000_0000
    ensures fresh(key) && key.Length == BLOCK && key[..] == BlockKey(pass)
  {
    hide Rfc1321.MD5;
    key := new byte[BLOCK](_ => 0);
    assert key[..] == ZeroBytes(BLOCK);
    assert key[..0] == [];
    if |pass| > BLOCK {
      var hash := HashOf(pass);
      CopyIn(key, 0, hash[..]);
      assert ZeroBytes(BLOCK)[HASH..] == ZeroBytes(BLOCK - HASH);
    } else {
      CopyIn(key, 0, pass);
      assert ZeroBytes(BLOCK)[|pass|..] == ZeroBytes(BLOCK - |pass|);
    }
  }

  /** The inner hash, put over the text it was computed from. */
  method Inner(key: array<byte>, text: seq<byte>, right: array<byte>)
    requires key.Length == BLOCK && right.Length == RIGHT && key != right && BLOCK + |text| <= RIGHT
    modifies right
    ensures right[BLOCK..BLOCK + HASH] == Rfc1321.MD5(XorAll(key[..], 0x36) + text)
  {
    hide Rfc1321.MD5, XorAll;
    ghost var k := key[..];
    CopyIn(right, 0, key[..]);
    assert right[..BLOCK] == k;
    XorBlock(right, 0x36);
    CopyIn(right, BLOCK, text);
    assert right[..BLOCK + |text|] == XorAll(k, 0x36) + text;
    M.HashInPlace(right, BLOCK + |text|, BLOCK);
  }

  /**
   * The digest, computed in one buffer: the inner hash overwrites the text it was computed from, and then the
   * outer block overwrites the inner one.
   */
  method Digest(key: array<byte>, text: seq<byte>, right: array<byte>) returns (resp: array<byte>)
    requires key.Length == BLOCK && right.Length == RIGHT && key != right && BLOCK + |text| <= RIGHT
    modifies right
    ensures fresh(resp) && resp.Length == HASH
    ensures resp[..] == Rfc1321.MD5(XorAll(key[..], 0x5c) + Rfc1321.MD5(XorAll(key[..], 0x36) + text))
  {
    hide Rfc1321.MD5, XorAll;
    ghost var k := key[..];
    var left := new byte[BLOCK](i requires 0 <= i < BLOCK reads key => key[i]);
    assert left[..] == k && left[..BLOCK] == k;
    XorBlock(left, 0x5c);
    assert left[..] == XorAll(k, 0x5c);
    Inner(key, text, right);
    ghost var inner := right[BLOCK..BLOCK + HASH];
    CopyIn(right, 0, left[..]);
    assert right[..BLOCK + HASH] == XorAll(k, 0x5c) + inner;
    resp := HashOf(right[..BLOCK + HASH]);
  }

  /** `md5` into a buffer of its own. */
  method HashOf(m: seq<byte>) returns (resp: array<byte>)
    requires HASH <= |m| < 0x2000_0000
    ensures fresh(resp) && resp.Length == HASH && resp[..] == Rfc1321.MD5(m)
  {
    hide Rfc1321.MD5;
    var tmp := new byte[|m|](i requires 0 <= i < |m| => m[i]);
    assert tmp[..] == m && tmp[..|m|] == m;
    M.HashInPlace(tmp, |m|, 0);
    assert tmp[..HASH] == Rfc1321.MD5(m);
    resp := new byte[HASH](i requires 0 <= i < HASH reads tmp => tmp[i]);
    assert resp[..] == tmp[..HASH];
  }

  /** What `os_snprintf` leaves in the first `n` bytes of a buffer of `cap`: the last byte is always 0. */
  function Printed(line: seq<byte>, cap: nat, n: nat): seq<byte>
    requires n <= cap && |line| == n && cap > 0
  {
    if n < cap then line else line[..cap - 1] + [0]
  }

  method Print(right: array<byte>, user: seq<byte>, resp: array<byte>)
    requires right.Length == RIGHT && resp.Length == HASH && right != resp && |user| + 33 <= RIGHT
    modifies right
    ensures right[..|user| + 33] == Printed(Line(user, resp[..]), RIGHT, |user| + 33)
  {
    hide HexLower;
    var line := Line(user, resp[..]);
    var out := if |line| < RIGHT then line + [0] else line[..RIGHT - 1] + [0];
    CopyIn(right, 0, out);
    assert right[..|out|] == out;
  }

  /** A challenge that decodes into the buffer. */
  predicate Decodable(enc: seq<byte>) {
    B.Wellformed(enc) && |enc| / 4 * 3 <= CHAL
  }

  /** The bytes sent in answer to a challenge. */
  function Answer(enc: seq<byte>, user: seq<byte>, pass: seq<byte>): seq<byte>
    requires Decodable(enc) && |user| + 33 <= RIGHT
  {
    B.Encoded(Sent(user, pass, CString(B.Decoded(enc)))) + [13, 10]
  }

  /**
   * `smtp_send_challenge` from the text of the challenge to the bytes sent: -1 for a bad or long challenge, -2 for a
   * long user name, else the number of bytes.
   */
  method Respond(enc: seq<byte>, user: seq<byte>, pass: seq<byte>, outbuf: array<byte>) returns (n: int)
    requires outbuf.Length == 1024 && |pass| < 0x2000_0000
    modifies outbuf
    ensures n == -1 <==> !Decodable(enc)
    ensures n == -2 <==> Decodable(enc) && |user| + 33 > RIGHT
    ensures n >= -2 && (n >= 0 ==> n <= outbuf.Length && outbuf[..n] == Answer(enc, user, pass))
  {
    hide Rfc1321.MD5, B.Encoded, B.Decoded, CString, Line, XorAll, BlockKey, B.InAlphabet;
    var chal := new byte[CHAL](_ => 0);
    n := B.Decode(enc, chal);
    if n < 0 {
      return -1;
    }
    var text := Text(chal, n, B.Decoded(enc));
    var key := MakeKey(pass);
    var right := new byte[RIGHT](_ => 0);
    if BLOCK + |text| > RIGHT {
      return -1;
    }
    var resp := Digest(key, text, right);
    var len := |user| + 33;
    if len > RIGHT {
      return -2;
    }
    Print(right, user, resp);
    FitsOut(len);
    n := B.Encode(right[..len], outbuf);
    outbuf[n], outbuf[n + 1] := 13, 10;
    n := n + 2;
  }

  /** What the line becomes on its way through the buffer. */
  function Sent(user: seq<byte>, pass: seq<byte>, text: seq<byte>): (s: seq<byte>)
    requires |user| + 33 <= RIGHT
    ensures |s| == |user| + 33
  {
    Printed(Line(user, Hmac(pass, text)), RIGHT, |user| + 33)
  }

  lemma FitsOut(len: nat)
    requires len <= RIGHT
    ensures B.EncodedLength(len) + 2 <= 1024
  {
  }

  /** `chal[len2] = 0`, then the string that starts there. */
  method Text(chal: array<byte>, n: nat, ghost dec: seq<byte>) returns (text: seq<byte>)
    requires chal.Length == CHAL && n == |dec| && n <= CHAL && chal[..n] == dec
    ensures text == CString(dec) && |text| <= |dec|
  {
    hide CString;
    CStringShort(dec);
    text := CString(chal[..n]);
  }

  /**
   * The server decodes exactly user, space and digest, for every user name that is accepted, except those of
   * 223 bytes: there the last digit is cut off.
   */
  lemma ServerSees(user: seq<byte>, pass: seq<byte>, text: seq<byte>)
    requires |user| + 33 <= RIGHT
    ensures |B.Encoded(Sent(user, pass, text))| % 4 == 0
    ensures B.Decoded(B.Encoded(Sent(user, pass, text))) == Line(user, Hmac(pass, text)) <==> |user| != 223
  {
    hide Hmac, B.Encoded, B.Decoded;
    var line := Line(user, Hmac(pass, text));
    B.RoundTrip(Sent(user, pass, text));
    if |user| == 223 {
      LastDigit(Hmac(pass, text));
      assert Sent(user, pass, text)[255] == 0;
      assert line[255] == HexLower(Hmac(pass, text))[31];
    }
  }

  /** A digit is not a NUL. */
  lemma LastDigit(d: seq<byte>)
    requires |d| == HASH
    ensures HexLower(d)[31] != 0
  {
    DigitNonZero(d[15] & 0x0f);
  }

  lemma DigitNonZero(x: byte)
    requires x < 16
    ensures Digit(x) != 0
  {
  }
}
