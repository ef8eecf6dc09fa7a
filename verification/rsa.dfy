/** Signature checking: crypto/rsa.c, the hex reader of crypto/bigint.c and the unpacking in http/url_ota.c. */
module Rsa {
  import opened Binary
  import opened Bytes
  import opened Bigints
  import opened BigArith
  import opened Modular
  import opened Hex
  import RsaSign

  const HASHLEN := 32
  /** The longest text `bigint_fromhex` takes: one digit less than DATA_MAXLEN - 1 whole bytes. */
  const MAX_HEX := 2 * (DATA_MAXLEN - 1) - 1

  /** `bigint_fromhex`; the index is an int16. */
  method FromHex(i: Bigint, s: string) returns (rc: int)
    requires i.data.Length == DATA_MAXLEN && |s| <= 0x8000
    modifies i, i.data
    ensures rc == 0 || rc == 1 || rc == 2
    ensures rc == 0 <==> IsHex(s) && |s| <= MAX_HEX
    ensures rc == 0 ==> i.Valid() && i.Val() == HexVal(s) && i.BITS() == 4 * |s|
  {
    hide Nat, DataBits, HexVal, HexChar, Stored, Bigint.Valid, Pow2;
    i.Zero();
    i.Bzero(0);
    i.bits := 0;
    StoredNone(i.data[..], s);
    var j := |s| - 1;
    while j >= 1
      invariant -1 <= j < |s| && i.data.Length == DATA_MAXLEN && i.bits == 0
      invariant 2 * i.bytes == |s| - 1 - j && i.bytes < DATA_MAXLEN - 1
      invariant Stored(i.data[..], i.bytes, s, j + 1)
    {
      var l := HexChar(s[j]);
      if l == -1 {
        return 2;
      }
      var h := HexChar(s[j - 1]);
      if h == -1 {
        return 2;
      }
      StoredPair(i.data[..], i.bytes, s, j + 1);
      i.data[i.bytes] := Nibbles(h, l);
      i.bytes := i.bytes + 1;
      if i.bytes >= DATA_MAXLEN - 1 {
        return 1;
      }
      j := j - 2;
    }
    StoredBits(i.data[..], i.bytes, s, j + 1);
    if j == 0 {
      var l := HexChar(s[0]);
      if l == -1 {
        return 2;
      }
      StoredLast(i.data[..], i.bytes, s);
      i.data[i.bytes] := Nibble(l);
      i.bits := 4;
    }
    FromHexDone(i, s);
    return 0;
  }

  lemma FromHexDone(i: Bigint, s: string)
    requires i.Sized() && i.BITS() == 4 * |s| && IsHex(s)
    requires Cut(i.data[..], 4 * |s|) && Nat(DataBits(i.data[..])) == HexVal(s)
    ensures i.Valid() && i.Val() == HexVal(s)
  {
  }

  /** No bit is set from `n` on. */
  ghost predicate Cut(d: seq<byte>, n: nat) {
    |d| == DATA_MAXLEN && forall k :: n <= k < CAPACITY ==> !DataBits(d)[k]
  }

  /** The digits of `s` from `k` on are stored, a pair to a byte. */
  ghost predicate Stored(d: seq<byte>, m: nat, s: string, k: nat) {
    |d| == DATA_MAXLEN && m < DATA_MAXLEN && k <= |s| && 2 * m == |s| - k
    && IsHex(s[k..]) && Nat(DataBits(d[..m])) == HexVal(s[k..])
    && forall n :: m <= n < DATA_MAXLEN ==> d[n] == 0
  }

  lemma StoredNone(d: seq<byte>, s: string)
    requires |d| == DATA_MAXLEN && forall n :: 0 <= n < DATA_MAXLEN ==> d[n] == 0
    ensures Stored(d, 0, s, |s|)
  {
    assert d[..0] == [] && s[|s|..] == "";
  }

  lemma StoredPair(d: seq<byte>, m: nat, s: string, k: nat)
    requires Stored(d, m, s, k) && k >= 2 && m < DATA_MAXLEN - 1
    requires HexChar(s[k - 1]) != -1 && HexChar(s[k - 2]) != -1
    ensures Stored(d[m := Nibbles(HexChar(s[k - 2]), HexChar(s[k - 1]))], m + 1, s, k - 2)
  {
    hide Nat, DataBits, HexVal, Nibbles, ByteNat, Pow2;
    var h, l := HexChar(s[k - 2]), HexChar(s[k - 1]);
    TopByte(d, m, Nibbles(h, l));
    NibblesNat(h, l);
    assert s[k - 2..] == [s[k - 2], s[k - 1]] + s[k..];
    HexTwo(s[k - 2], s[k - 1]);
    HexSplit([s[k - 2], s[k - 1]], s[k..]);
    assert 4 * |s[k..]| == 8 * m;
    MulComm(Pow2(8 * m), 16 * h + l);
  }

  lemma MulComm(x: int, y: int)
    ensures x * y == y * x
  {
  }

  lemma TopByte(d: seq<byte>, m: nat, x: byte)
    requires m < |d|
    ensures Nat(DataBits(d[m := x][..m + 1])) == Nat(DataBits(d[..m])) + Pow2(8 * m) * ByteNat(x)
  {
    assert d[m := x][..m + 1] == d[..m] + [x];
    BytesConcat(d[..m], [x]);
  }

  lemma HexTwo(a: char, b: char)
    requires HexChar(a) != -1 && HexChar(b) != -1
    ensures IsHex([a]) && HexVal([a]) == HexChar(a)
    ensures IsHex([a, b]) && HexVal([a, b]) == 16 * HexChar(a) + HexChar(b)
  {
    assert [a][..0] == "" && [a, b][..1] == [a];
  }

  /** What the buffer holds once the pairs are read. */
  lemma StoredBits(d: seq<byte>, m: nat, s: string, k: nat)
    requires Stored(d, m, s, k)
    ensures Cut(d, 8 * m) && IsHex(s[k..]) && Nat(DataBits(d)) == HexVal(s[k..])
    ensures k == 0 ==> IsHex(s) && s[k..] == s
  {
    ZeroBits(d, m);
    CutValue(d, m);
    if k == 0 { assert s[0..] == s; }
  }

  /** Only the bytes below the cut count. */
  lemma CutValue(d: seq<byte>, m: nat)
    requires m <= |d| == DATA_MAXLEN && Cut(d, 8 * m)
    ensures Nat(DataBits(d)) == Nat(DataBits(d[..m]))
  {
    assert d == d[..m] + d[m..];
    DataBitsConcat(d[..m], d[m..]);
    assert DataBits(d)[..8 * m] == DataBits(d[..m]);
    NatTrim(DataBits(d), 8 * m);
  }

  /** A last single digit takes half a byte. */
  lemma StoredLast(d: seq<byte>, m: nat, s: string)
    requires Stored(d, m, s, 1) && m < DATA_MAXLEN - 1 && HexChar(s[0]) != -1
    ensures IsHex(s)
    ensures var e := d[m := Nibble(HexChar(s[0]))];
            Cut(e, 8 * m + 4) && Nat(DataBits(e)) == HexVal(s)
  {
    hide Nat, DataBits, HexVal, Nibble, ByteNat, Pow2, ByteBit;
    var l := HexChar(s[0]);
    var e := d[m := Nibble(l)];
    NibbleNat(l);
    NibbleCut(Nibble(l));
    ZeroBits(e, m + 1);
    forall n | 8 * m + 4 <= n < 8 * m + 8 ensures !DataBits(e)[n] { BitAt(e, m, n - 8 * m); }
    CutValue(e, m + 1);
    TopByte(d, m, Nibble(l));
    assert s == [s[0]] + s[1..];
    HexTwo(s[0], s[0]);
    HexSplit([s[0]], s[1..]);
    MulComm(Pow2(8 * m), l);
  }

  lemma NibbleCut(x: byte)
    requires x & 0xF0 == 0
    ensures forall j :: 4 <= j < 8 ==> !ByteBit(x, j)
  {
  }

  /** `rsa_pubkey_decrypt` */
  method PubkeyDecrypt(ar: Arith, clear: Bigint, cipher: Bigint, exp: Bigint, mod: Bigint) returns (rc: int)
    requires ar.Valid() && cipher.Valid() && exp.Valid() && mod.Valid() && clear.data.Length == DATA_MAXLEN
    requires ar.Foreign(clear) && ar.Foreign(cipher) && ar.Foreign(exp) && ar.Foreign(mod)
    modifies Cells(clear), Cells(ar.mulPt), Cells(ar.mulAt), Cells(ar.divQt), Cells(ar.divRt), Cells(ar.divBc),
             Cells(ar.expXt), Cells(ar.expR)
    ensures rc == 0 || rc == 1 || rc == 2
    ensures old(cipher.BITS()) > old(mod.BITS()) ==> rc == 1
    ensures rc == 2 <==> old(cipher.BITS()) <= old(mod.BITS()) && old(mod.Val()) == 0
    ensures old(mod.Val()) > 0 && old(cipher.BITS()) <= old(mod.BITS()) <= MAX_MODULUS ==> rc == 0
    ensures rc == 0 && old(exp.BITS()) > 0 ==>
              clear.Valid() && clear.Tight() && clear.Val() == Pow(old(cipher.Val()), old(exp.Val())) % old(mod.Val())
  {
    hide DataBits, Nat, Pow, Bigint.Valid, Bigint.Tight;
    if cipher.BITS() > mod.BITS() {
      return 1;
    }
    rc := ar.ExpMod(clear, cipher, exp, mod);
  }

  /**
   * The two loops that lay the decrypted number out as 32 bytes, most significant first. Nothing checks its length: a
   * number of more than 32 bytes runs past the end, which is the failure here.
   */
  method Unpack(clear: Bigint, hash: array<byte>) returns (ok: bool)
    requires clear.Valid() && hash.Length == HASHLEN && hash != clear.data
    modifies hash
    ensures ok <==> clear.Used() <= HASHLEN
    ensures ok ==> BigEndian(hash[..]) == clear.Val()
  {
    var bytes: int := clear.Used();
    var i: int := 0;
    while i < HASHLEN - bytes
      invariant 0 <= i && (i <= HASHLEN - bytes || i == 0)
      invariant forall k :: 0 <= k < i ==> hash[k] == 0
    {
      hash[i] := 0;
      i := i + 1;
    }
    var j: int := bytes - 1;
    while j >= 0
      invariant -1 <= j < bytes && i == Start(bytes) + bytes - 1 - j && i <= HASHLEN
      invariant forall k :: 0 <= k < Start(bytes) ==> hash[k] == 0
      invariant forall k :: Start(bytes) <= k < i ==> hash[k] == clear.data[Start(bytes) + bytes - 1 - k]
    {
      if i >= HASHLEN {
        return false;
      }
      hash[i] := clear.data[j];
      i := i + 1;
      j := j - 1;
    }
    UnpackedValue(clear.data[..], bytes, hash[..]);
    ok := true;
  }

  /** Where the second loop starts to write. */
  function Start(bytes: nat): nat { if bytes <= HASHLEN then HASHLEN - bytes else 0 }

  /** Which numbers are too long: those of 256 bits or more. */
  lemma FitsIff(x: Bigint)
    requires x.Valid() && x.Tight()
    ensures x.Used() <= HASHLEN <==> x.Val() < Pow2(8 * HASHLEN)
  {
    hide Pow2, Bigint.Val;
    if x.Used() <= HASHLEN {
      x.ValBelow();
      Pow2Monotone(x.BITS(), 8 * HASHLEN);
    }
    if x.Val() < Pow2(8 * HASHLEN) {
      TightBytes(x, HASHLEN);
    }
  }

  /** 2^256, for one, runs past the end. */
  method UnpackOverflows() returns (ok: bool)
    ensures !ok
  {
    hide Nat, DataBits, Pow2;
    var clear := Number(257, [256]);
    var hash := new byte[HASHLEN](_ => 0);
    ok := Unpack(clear, hash);
  }

  lemma UnpackedValue(d: seq<byte>, m: nat, h: seq<byte>)
    requires |d| == DATA_MAXLEN && m <= HASHLEN == |h|
    requires forall k :: 8 * m <= k < CAPACITY ==> !DataBits(d)[k]
    requires forall k :: 0 <= k < HASHLEN - m ==> h[k] == 0
    requires forall k :: HASHLEN - m <= k < HASHLEN ==> h[k] == d[HASHLEN - 1 - k]
    ensures BigEndian(h) == Nat(DataBits(d))
  {
    var z := h[..HASHLEN - m];
    assert h == z + Reverse(d[..m]);
    BigEndianZeros(z, Reverse(d[..m]));
    BigEndianReverse(d[..m]);
    CutValue(d, m);
  }

  /** `os_strncmp` over 32 bytes finds no difference: it stops at a NUL. */
  predicate SameText(a: seq<byte>, b: seq<byte>)
    requires |a| == |b|
  {
    a == [] || (a[0] == b[0] && (a[0] == 0 || SameText(a[1..], b[1..])))
  }

  /** The bytes up to the first NUL agree, the NUL included. */
  ghost predicate Agree(a: seq<byte>, b: seq<byte>)
    requires |a| == |b|
  {
    forall i :: 0 <= i < |a| && (forall j :: 0 <= j < i ==> a[j] != 0) ==> a[i] == b[i]
  }

  /** The comparison sees those bytes, and no others. */
  lemma {:induction false} SameTextIff(a: seq<byte>, b: seq<byte>)
    requires |a| == |b|
    ensures SameText(a, b) <==>
              forall i :: 0 <= i < |a| && (forall j :: 0 <= j < i ==> a[j] != 0) ==> a[i] == b[i]
  {
    if a != [] {
      assert Agree(a, b) ==> a[0] == b[0];
      if a[0] != 0 && a[0] == b[0] {
        SameTextIff(a[1..], b[1..]);
        SeenShift(a, b);
      }
    }
  }

  lemma SeenShift(a: seq<byte>, b: seq<byte>)
    requires |a| == |b| > 0 && a[0] != 0 && a[0] == b[0]
    ensures Agree(a, b) <==> Agree(a[1..], b[1..])
  {
    var p, q := a[1..], b[1..];
    if Agree(a, b) {
      forall i | 0 <= i < |p| && (forall j :: 0 <= j < i ==> p[j] != 0) ensures p[i] == q[i] {
        assert forall j :: 0 <= j < i + 1 ==> a[j] == if j == 0 then a[0] else p[j - 1];
        assert a[i + 1] == b[i + 1];
      }
    }
    if Agree(p, q) {
      forall i | 0 <= i < |a| && (forall j :: 0 <= j < i ==> a[j] != 0) ensures a[i] == b[i] {
        if i > 0 {
          assert forall j :: 0 <= j < i - 1 ==> p[j] == a[j + 1];
          assert p[i - 1] == q[i - 1];
        }
      }
    }
  }

  lemma {:induction false} SameTextSelf(a: seq<byte>)
    ensures SameText(a, a)
  {
    if a != [] { SameTextSelf(a[1..]); }
  }

  /** On a text without a NUL the comparison is equality; a first byte that differs is always seen. */
  lemma SameTextExact(a: seq<byte>, b: seq<byte>)
    requires |a| == |b|
    ensures (forall i :: 0 <= i < |a| ==> a[i] != 0) ==> (SameText(a, b) <==> a == b)
    ensures |a| > 0 && a[0] != b[0] ==> !SameText(a, b)
  {
    SameTextIff(a, b);
    SameTextSelf(a);
  }

  /** What is not seen: two texts that differ only behind a NUL are taken for the same. */
  lemma SameTextBlind(a: seq<byte>, x: seq<byte>, y: seq<byte>)
    requires |x| == |y|
    ensures SameText(a + [0] + x, a + [0] + y)
  {
    SameTextIff(a + [0] + x, a + [0] + y);
    assert (a + [0] + x)[|a|] == 0;
  }

  /** The text after the first question mark. */
  function After(url: string): string
    requires '?' in url
  {
    if url[0] == '?' then url[1..] else After(url[1..])
  }

  method Query(url: string) returns (found: bool, text: string)
    ensures found <==> '?' in url
    ensures found ==> text == After(url)
    ensures |text| <= |url|
  {
    var i := 0;
    while i < |url| && url[i] != '?'
      invariant 0 <= i <= |url| && ('?' in url <==> '?' in url[i..])
      invariant '?' in url ==> After(url) == After(url[i..])
    {
      assert url[i..] == [url[i]] + url[i + 1..];
      i := i + 1;
    }
    if i == |url| {
      return false, "";
    }
    assert url[i..][0] == '?' && url[i..][1..] == url[i + 1..];
    return true, url[i + 1..];
  }

  /** How the check of a signature ends; `Overflowed` is the write past the end. */
  datatype Verdict = NoSignature | BadText | BadCipher | Overflowed | Compared(same: bool)

  /** The number that a signature opens to. */
  ghost function Opened(text: string, exp: Bigint, mod: Bigint): nat
    reads exp.data, mod.data
    requires mod.Val() > 0
  {
    if IsHex(text) then Pow(HexVal(text), exp.Val()) % mod.Val() else 0
  }

  /** What a verdict says. */
  ghost predicate Outcome(v: Verdict, url: string, exp: Bigint, mod: Bigint, hash1: seq<byte>, h3: seq<byte>)
    reads exp.data, mod, mod.data
    requires mod.Val() > 0 && |hash1| == |h3|
  {
    (v.NoSignature? <==> '?' !in url)
    && (v.BadText? <==> '?' in url && !(IsHex(After(url)) && |After(url)| <= MAX_HEX))
    && (v.BadCipher? ==> 4 * |After(url)| > mod.BITS() || mod.BITS() > MAX_MODULUS)
    && ('?' in url && 4 * |After(url)| > mod.BITS() ==> v.BadText? || v.BadCipher?)
    && (v.Overflowed? ==> Opened(After(url), exp, mod) >= Pow2(8 * HASHLEN))
    && (v.Compared? ==> Opened(After(url), exp, mod) == BigEndian(h3) && v.same == SameText(hash1, h3))
  }

  /** For a modulus of the size that is sure to work there is one verdict. */
  lemma VerdictIs(v: Verdict, url: string, exp: Bigint, mod: Bigint, hash1: seq<byte>, h3: seq<byte>)
    requires mod.Val() > 0 && |hash1| == HASHLEN == |h3| && Outcome(v, url, exp, mod, hash1, h3)
    requires mod.BITS() <= MAX_MODULUS
    ensures v == if '?' !in url then NoSignature
                 else if !IsHex(After(url)) || |After(url)| > MAX_HEX then BadText
                 else if 4 * |After(url)| > mod.BITS() then BadCipher
                 else if Pow(HexVal(After(url)), exp.Val()) % mod.Val() >= Pow2(256) then Overflowed
                 else Compared(SameText(hash1, h3))
    ensures v.Compared? ==> BigEndian(h3) == Pow(HexVal(After(url)), exp.Val()) % mod.Val()
  {
    hide DataBits, Nat, Pow, Pow2, BigEndian, HexVal, IsHex, Bigint.Valid, Bigint.Val, SameText, After;
    BigEndianBound(h3);
  }

  /** A key with private exponent `d`: stored in whole bytes, as crypto/rsapubkey.py prints it, and right for `h`. */
  ghost predicate KeyFor(exp: Bigint, mod: Bigint, d: nat, h: nat)
    reads exp, exp.data, mod, mod.data
  {
    exp.Valid() && mod.Valid() && exp.BITS() > 0 && mod.bits == 0 && mod.BITS() <= MAX_MODULUS && d > 0
    && h < mod.Val() && Pow(h, d * exp.Val()) % mod.Val() == h
  }

  /** `url` carries the signature of `h` by the key whose private exponent is `d` (crypto/rsasign.py). */
  ghost predicate Signed(url: string, exp: Bigint, mod: Bigint, d: nat, h: nat)
    reads exp, exp.data, mod, mod.data
  {
    KeyFor(exp, mod, d, h) && '?' in url && After(url) == HexOf(Pow(h, d) % mod.Val())
  }

  /** There are such keys: modulus 15, exponents 3 and 3. */
  method KeyExample() returns (exp: Bigint, mod: Bigint)
    ensures mod.Val() == 15 && exp.Val() == 3 && KeyFor(exp, mod, 3, 2)
  {
    hide DataBits, Nat;
    exp := Number(2, [0, 1]);
    mod := Number(8, [0, 1, 2, 3]);
    assert [0, 1][..1] == [0] && [0][..0] == [];
    assert [0, 1, 2, 3][..3] == [0, 1, 2] && [0, 1, 2][..2] == [0, 1];
    SmallPowers();
    assert Pow(2, 3) == 8 && Pow(2, 9) == 512 by {
      assert Pow(2, 5) == 32 && Pow(2, 7) == 128;
    }
  }

  /** The check of the signature in the URL against the hash of the body, for any URL at all. */
  method Check(ar: Arith, cipher: Bigint, clear: Bigint, exp: Bigint, mod: Bigint,
               url: string, hash1: seq<byte>, hash3: array<byte>) returns (v: Verdict)
    requires ar.Valid() && exp.Valid() && mod.Valid() && exp.BITS() > 0 && mod.Val() > 0
    requires cipher.data.Length == DATA_MAXLEN && clear.data.Length == DATA_MAXLEN
    requires ar.Foreign(clear) && ar.Foreign(cipher) && ar.Foreign(exp) && ar.Foreign(mod)
    requires Other(cipher, exp) && Other(cipher, mod) && Other(clear, cipher) && Other(clear, exp) && Other(clear, mod)
    requires hash3 != clear.data && hash3 != exp.data && hash3 != mod.data
    requires |hash1| == HASHLEN == hash3.Length && |url| <= 0x8000
    modifies Cells(cipher), Cells(clear), hash3
    modifies Cells(ar.mulPt), Cells(ar.mulAt), Cells(ar.divQt), Cells(ar.divRt), Cells(ar.divBc),
             Cells(ar.expXt), Cells(ar.expR)
    ensures Outcome(v, url, exp, mod, hash1, hash3[..])
    ensures unchanged(exp) && unchanged(exp.data) && unchanged(mod) && unchanged(mod.data)
  {
    hide DataBits, Nat, Pow, Pow2, BigEndian, HexVal, IsHex, After, Bigint.Valid, Bigint.Tight, SameText;
    var found, text := Query(url);
    if !found {
      return NoSignature;
    }
    v := CheckText(ar, cipher, clear, exp, mod, text, hash1, hash3);
  }

  method CheckText(ar: Arith, cipher: Bigint, clear: Bigint, exp: Bigint, mod: Bigint,
                   text: string, hash1: seq<byte>, hash3: array<byte>) returns (v: Verdict)
    requires ar.Valid() && exp.Valid() && mod.Valid() && exp.BITS() > 0 && mod.Val() > 0
    requires cipher.data.Length == DATA_MAXLEN && clear.data.Length == DATA_MAXLEN
    requires ar.Foreign(clear) && ar.Foreign(cipher) && ar.Foreign(exp) && ar.Foreign(mod)
    requires Other(cipher, exp) && Other(cipher, mod) && Other(clear, cipher) && Other(clear, exp) && Other(clear, mod)
    requires hash3 != clear.data && hash3 != exp.data && hash3 != mod.data
    requires |hash1| == HASHLEN == hash3.Length && |text| <= 0x8000
    modifies Cells(cipher), Cells(clear), hash3
    modifies Cells(ar.mulPt), Cells(ar.mulAt), Cells(ar.divQt), Cells(ar.divRt), Cells(ar.divBc),
             Cells(ar.expXt), Cells(ar.expR)
    ensures !v.NoSignature? && (v.BadText? <==> !(IsHex(text) && |text| <= MAX_HEX))
    ensures v.BadCipher? ==> 4 * |text| > mod.BITS() || mod.BITS() > MAX_MODULUS
    ensures 4 * |text| > old(mod.BITS()) ==> v.BadText? || v.BadCipher?
    ensures v.Overflowed? ==> IsHex(text) && Opened(text, exp, mod) >= Pow2(8 * HASHLEN)
    ensures v.Compared? ==> IsHex(text) && Opened(text, exp, mod) == BigEndian(hash3[..])
                            && v.same == SameText(hash1, hash3[..])
  {
    hide DataBits, Nat, Pow, Pow2, BigEndian, HexVal, IsHex, Bigint.Valid, Bigint.Tight, SameText;
    ghost var x := if IsHex(text) then Opened(text, exp, mod) else 0;
    var rc := FromHex(cipher, text);
    if rc > 0 {
      return BadText;
    }
    rc := PubkeyDecrypt(ar, clear, cipher, exp, mod);
    if rc > 0 {
      return BadCipher;
    }
    v := CheckNumber(clear, x, hash1, hash3);
  }

  method CheckNumber(clear: Bigint, ghost x: nat, hash1: seq<byte>, hash3: array<byte>) returns (v: Verdict)
    requires clear.Valid() && clear.Tight() && clear.Val() == x && hash3 != clear.data
    requires |hash1| == HASHLEN == hash3.Length
    modifies hash3
    ensures v.Overflowed? <==> x >= Pow2(8 * HASHLEN)
    ensures !v.Overflowed? ==> v == Compared(SameText(hash1, hash3[..])) && BigEndian(hash3[..]) == x
  {
    hide DataBits, Nat, Pow2, BigEndian, Bigint.Tight, SameText;
    FitsIff(clear);
    var ok := Unpack(clear, hash3);
    v := if ok then Compared(SameText(hash1, hash3[..])) else Overflowed;
  }

  /** Whatever the check compares for a good signature is the hash that was signed. */
  lemma GoodSignature(exp: Bigint, mod: Bigint, d: nat, hash1: seq<byte>)
    requires |hash1| == HASHLEN && KeyFor(exp, mod, d, BigEndian(hash1))
    ensures var text := HexOf(Pow(BigEndian(hash1), d) % mod.Val());
            IsHex(text) && |text| <= MAX_HEX && 4 * |text| <= mod.BITS()
            && Opened(text, exp, mod) == BigEndian(hash1) < Pow2(8 * HASHLEN)
  {
    hide DataBits, Nat, Pow, Pow2, BigEndian, HexVal, HexOf, Bigint.Valid;
    var h := BigEndian(hash1);
    var sig := Pow(h, d) % mod.Val();
    SignatureFits(sig, mod);
    HexRoundTrip(sig);
    SignatureOpens(h, d, exp.Val(), mod.Val());
    BigEndianBound(hash1);
  }

  /** A signature found good opens to the hash itself, unless the hash holds a NUL. */
  lemma FoundGood(url: string, exp: Bigint, mod: Bigint, hash1: seq<byte>, h3: seq<byte>)
    requires mod.Val() > 0 && |hash1| == HASHLEN == |h3|
    requires Outcome(Compared(true), url, exp, mod, hash1, h3)
    ensures Agree(hash1, h3) && Opened(After(url), exp, mod) == BigEndian(h3)
    ensures (forall i :: 0 <= i < HASHLEN ==> hash1[i] != 0) ==>
              h3 == hash1 && Opened(After(url), exp, mod) == BigEndian(hash1)
  {
    hide DataBits, Nat, Pow, Pow2, BigEndian, HexVal, IsHex, Bigint.Valid, Bigint.Val, SameText, After, Opened;
    SameTextIff(hash1, h3);
    SameTextExact(hash1, h3);
  }

  /** A good signature is found good. */
  lemma SignedPasses(v: Verdict, url: string, exp: Bigint, mod: Bigint, d: nat, hash1: seq<byte>, h3: seq<byte>)
    requires mod.Val() > 0 && |hash1| == HASHLEN == |h3| && Outcome(v, url, exp, mod, hash1, h3)
    requires Signed(url, exp, mod, d, BigEndian(hash1))
    ensures v == Compared(true) && h3 == hash1
  {
    hide DataBits, Nat, Pow, Pow2, BigEndian, HexVal, HexOf, IsHex, Bigint.Valid, SameText, After, Opened;
    GoodSignature(exp, mod, d, hash1);
    if v.Compared? {
      BigEndianExt(h3, hash1);
      SameTextSelf(hash1);
    }
  }

  /** Sign with crypto/rsasign.py, hand the text over in the URL, and check it as http/url_ota.c does. */
  method SignAndCheck(ar: Arith, cipher: Bigint, clear: Bigint, exp: Bigint, mod: Bigint,
                      d: nat, n: nat, path: string, hash1: seq<byte>, hash3: array<byte>) returns (v: Verdict)
    requires n == mod.Val() && '?' !in path && |path| <= 0x4000
    requires ar.Valid() && |hash1| == HASHLEN == hash3.Length && KeyFor(exp, mod, d, BigEndian(hash1))
    requires cipher.data.Length == DATA_MAXLEN && clear.data.Length == DATA_MAXLEN
    requires ar.Foreign(clear) && ar.Foreign(cipher) && ar.Foreign(exp) && ar.Foreign(mod)
    requires Other(cipher, exp) && Other(cipher, mod) && Other(clear, cipher) && Other(clear, exp) && Other(clear, mod)
    requires hash3 != clear.data && hash3 != exp.data && hash3 != mod.data
    modifies Cells(cipher), Cells(clear), hash3
    modifies Cells(ar.mulPt), Cells(ar.mulAt), Cells(ar.divQt), Cells(ar.divRt), Cells(ar.divBc),
             Cells(ar.expXt), Cells(ar.expR)
    ensures v == Compared(true) && hash3[..] == hash1
  {
    hide DataBits, Nat, Pow, Pow2, BigEndian, HexVal, HexOf, IsHex, Bigint.Valid, SameText, After;
    GoodSignature(exp, mod, d, hash1);
    var sig := RsaSign.ExpMod(BigEndian(hash1), d, n);
    var text := HexOf(sig);
    AfterPath(path, text);
    v := Check(ar, cipher, clear, exp, mod, path + "?" + text, hash1, hash3);
    SignedPasses(v, path + "?" + text, exp, mod, d, hash1, hash3[..]);
  }

  lemma {:induction false} AfterPath(path: string, text: string)
    requires '?' !in path
    ensures '?' in path + "?" + text && After(path + "?" + text) == text
  {
    var url := path + "?" + text;
    assert url[|path|] == '?';
    if path == [] {
      assert url[1..] == text;
    } else {
      AfterPath(path[1..], text);
      assert url[1..] == path[1..] + "?" + text;
    }
  }

  /** The printed signature is no longer than the stored modulus. */
  lemma SignatureFits(sig: nat, mod: Bigint)
    requires mod.Valid() && mod.bits == 0 && sig < mod.Val() && mod.BITS() <= MAX_MODULUS
    ensures 4 * |HexOf(sig)| <= mod.BITS() && |HexOf(sig)| <= MAX_HEX
  {
    mod.ValBelow();
    if mod.bytes > 0 {
      HexLength(sig, 2 * mod.bytes);
    }
  }

  /** Raising the signature to the public exponent gives the hash back. */
  lemma SignatureOpens(h: nat, d: nat, e: nat, n: nat)
    requires n > 0 && h < n && Pow(h, d * e) % n == h
    ensures Pow(Pow(h, d) % n, e) % n == h
  {
    PowMod(Pow(h, d), e, n);
    PowMul(h, d, e);
  }
}
