/** Hexadecimal and byte notations of a number. */
module Hex {
  import opened Binary
  import opened Bytes
  import opened Bigints

  function Bit1(b: bool): nat { if b then 1 else 0 }

  /** The number a byte stands for. */
  function ByteNat(x: byte): (n: nat)
    ensures n < 256
  {
    NatBound(DataBits([x]));
    SmallPowers();
    Nat(DataBits([x]))
  }

  lemma ByteSum(x: byte)
    ensures ByteNat(x)
            == Bit1(ByteBit(x, 0)) + 2 * Bit1(ByteBit(x, 1)) + 4 * Bit1(ByteBit(x, 2)) + 8 * Bit1(ByteBit(x, 3))
               + 16 * Bit1(ByteBit(x, 4)) + 32 * Bit1(ByteBit(x, 5)) + 64 * Bit1(ByteBit(x, 6))
               + 128 * Bit1(ByteBit(x, 7))
  {
    hide Nat, DataBits, ByteBit;
    BitAt([x], 0, 0); BitAt([x], 0, 1); BitAt([x], 0, 2); BitAt([x], 0, 3);
    BitAt([x], 0, 4); BitAt([x], 0, 5); BitAt([x], 0, 6); BitAt([x], 0, 7);
    FirstBits(DataBits([x]));
  }

  lemma SmallPowers()
    ensures Pow2(0) == 1 && Pow2(1) == 2 && Pow2(2) == 4 && Pow2(3) == 8 && Pow2(4) == 16
    ensures Pow2(5) == 32 && Pow2(6) == 64 && Pow2(7) == 128 && Pow2(8) == 256
  {
    assert Pow2(2) == 4 && Pow2(4) == 16 && Pow2(6) == 64;
  }

  lemma FirstBits(b: seq<bool>)
    requires |b| == 8
    ensures Nat(b) == Bit1(b[0]) + 2 * Bit1(b[1]) + 4 * Bit1(b[2]) + 8 * Bit1(b[3])
                      + 16 * Bit1(b[4]) + 32 * Bit1(b[5]) + 64 * Bit1(b[6]) + 128 * Bit1(b[7])
  {
    LowNibble(b[..4]);
    LowNibble(b[4..]);
    NatSplit(b, 4);
    SmallPowers();
  }

  lemma LowNibble(b: seq<bool>)
    requires |b| == 4
    ensures Nat(b) == Bit1(b[0]) + 2 * Bit1(b[1]) + 4 * Bit1(b[2]) + 8 * Bit1(b[3])
  {
    assert b[..4] == b && b[..0] == [];
    SmallPowers();
    NatStep(b, 0); NatStep(b, 1); NatStep(b, 2); NatStep(b, 3);
  }

  /** The number a byte string stands for, most significant byte first. */
  function BigEndian(s: seq<byte>): nat {
    if s == [] then 0 else 256 * BigEndian(s[..|s| - 1]) + ByteNat(s[|s| - 1])
  }

  /** `hexchar`, which returns -1 for a character that is no digit. */
  function HexChar(c: char): (d: int)
    ensures -1 <= d < 16
  {
    if '0' <= c <= '9' then c as int - 48
    else if 'A' <= c <= 'F' then c as int - 65 + 10
    else if 'a' <= c <= 'f' then c as int - 97 + 10
    else -1
  }

  predicate IsHex(s: string) {
    forall i :: 0 <= i < |s| ==> HexChar(s[i]) != -1
  }

  function HexVal(s: string): nat
    requires IsHex(s)
  {
    if s == "" then 0 else 16 * HexVal(s[..|s| - 1]) + HexChar(s[|s| - 1])
  }

  function Digit(d: nat): (c: char)
    requires d < 16
    ensures HexChar(c) == d
  {
    if d < 10 then (48 + d) as char else (97 + d - 10) as char
  }

  /** `'%x' % n` */
  function HexOf(n: nat): (s: string)
    ensures |s| > 0
  {
    if n < 16 then [Digit(n)] else HexOf(n / 16) + [Digit(n % 16)]
  }

  /** Both cases of every digit, and nothing else. */
  lemma HexDigits(d: nat)
    requires d < 16
    ensures Digit(d) == "0123456789abcdef"[d]
    ensures HexChar("0123456789abcdef"[d]) == d && HexChar("0123456789ABCDEF"[d]) == d
  {
  }

  /** Parsing inverts printing. */
  lemma {:induction false} HexRoundTrip(n: nat)
    ensures IsHex(HexOf(n)) && HexVal(HexOf(n)) == n
  {
    var s := HexOf(n);
    if n >= 16 {
      HexRoundTrip(n / 16);
      assert s[..|s| - 1] == HexOf(n / 16);
    }
  }

  /** A printed number is no longer than the bytes it needs. */
  lemma {:induction false} HexLength(n: nat, k: nat)
    requires n < Pow2(4 * k) && k > 0
    ensures |HexOf(n)| <= k
  {
    if n >= 16 {
      assert Pow2(4) == 16 * Pow2(0);
      Pow2Add(4, 4 * k - 4);
      assert n / 16 < Pow2(4 * k - 4);
      HexLength(n / 16, k - 1);
    }
  }

  /** A digit value as the byte it is stored in. */
  function Nibble(d: int): byte
    requires 0 <= d < 16
  {
    if d == 0 then 0 else if d == 1 then 1 else if d == 2 then 2 else if d == 3 then 3
    else if d == 4 then 4 else if d == 5 then 5 else if d == 6 then 6 else if d == 7 then 7
    else if d == 8 then 8 else if d == 9 then 9 else if d == 10 then 10 else if d == 11 then 11
    else if d == 12 then 12 else if d == 13 then 13 else if d == 14 then 14 else 15
  }

  /** `(h << 4) | l` */
  function Nibbles(h: int, l: int): byte
    requires 0 <= h < 16 && 0 <= l < 16
  {
    (Nibble(h) << 4) | Nibble(l)
  }

  lemma NibbleNat(d: int)
    requires 0 <= d < 16
    ensures ByteNat(Nibble(d)) == d
    ensures Nibble(d) & 0xF0 == 0
  {
    ByteSum(Nibble(d));
  }

  lemma NibblesNat(h: int, l: int)
    requires 0 <= h < 16 && 0 <= l < 16
    ensures ByteNat(Nibbles(h, l)) == 16 * h + l
  {
    NibbleNat(h);
    NibbleNat(l);
    JoinNibbles(Nibble(h), Nibble(l));
  }

  lemma JoinNibbles(x: byte, y: byte)
    requires x & 0xF0 == 0 && y & 0xF0 == 0
    ensures ByteNat((x << 4) | y) == 16 * ByteNat(x) + ByteNat(y)
  {
    JoinBits(x, y);
    hide ByteNat, ByteBit;
    ByteSum(x);
    ByteSum(y);
    ByteSum((x << 4) | y);
  }

  lemma JoinBits(x: byte, y: byte)
    requires x & 0xF0 == 0 && y & 0xF0 == 0
    ensures var z := (x << 4) | y;
            ByteBit(z, 0) == ByteBit(y, 0) && ByteBit(z, 1) == ByteBit(y, 1)
            && ByteBit(z, 2) == ByteBit(y, 2) && ByteBit(z, 3) == ByteBit(y, 3)
            && ByteBit(z, 4) == ByteBit(x, 0) && ByteBit(z, 5) == ByteBit(x, 1)
            && ByteBit(z, 6) == ByteBit(x, 2) && ByteBit(z, 7) == ByteBit(x, 3)
    ensures !ByteBit(x, 4) && !ByteBit(x, 5) && !ByteBit(x, 6) && !ByteBit(x, 7)
    ensures !ByteBit(y, 4) && !ByteBit(y, 5) && !ByteBit(y, 6) && !ByteBit(y, 7)
  {
  }

  lemma {:induction false} HexSplit(a: string, t: string)
    requires IsHex(a) && IsHex(t)
    ensures IsHex(a + t) && HexVal(a + t) == HexVal(a) * Pow2(4 * |t|) + HexVal(t)
  {
    if t == "" {
      assert a + t == a;
    } else {
      var u := t[..|t| - 1];
      HexSplit(a, u);
      assert (a + t)[..|a + t| - 1] == a + u;
      SmallPowers();
      Pow2Add(4 * |u|, 4);
      Scale16(HexVal(a), Pow2(4 * |u|));
    }
  }

  lemma Scale16(x: int, y: int)
    ensures 16 * (x * y) == x * (y * 16)
  {
  }

  lemma DataBitsConcat(a: seq<byte>, b: seq<byte>)
    ensures DataBits(a + b) == DataBits(a) + DataBits(b)
  {
    hide DataBits, ByteBit;
    forall n | 0 <= n < 8 * |a + b|
      ensures DataBits(a + b)[n] == (DataBits(a) + DataBits(b))[n]
    {
      var k, j := n / 8, n % 8;
      BitAt(a + b, k, j);
      if k < |a| {
        BitAt(a, k, j);
      } else {
        BitAt(b, k - |a|, j);
      }
    }
  }

  /** Bytes are digits to base 256. */
  lemma BytesConcat(a: seq<byte>, b: seq<byte>)
    ensures Nat(DataBits(a + b)) == Nat(DataBits(a)) + Pow2(8 * |a|) * Nat(DataBits(b))
  {
    DataBitsConcat(a, b);
    var c := DataBits(a) + DataBits(b);
    NatSplit(c, 8 * |a|);
    assert c[..8 * |a|] == DataBits(a) && c[8 * |a|..] == DataBits(b);
  }

  function Reverse(s: seq<byte>): (r: seq<byte>)
    ensures |r| == |s|
  {
    seq(|s|, i requires 0 <= i < |s| => s[|s| - 1 - i])
  }

  /** Reading bytes from the top is reading the reversed string big-endian. */
  lemma {:induction false} BigEndianReverse(d: seq<byte>)
    ensures BigEndian(Reverse(d)) == Nat(DataBits(d))
  {
    if d == [] {
    } else {
      BigEndianReverse(d[1..]);
      var r := Reverse(d);
      assert r[..|r| - 1] == Reverse(d[1..]);
      assert d == [d[0]] + d[1..];
      BytesConcat([d[0]], d[1..]);
      SmallPowers();
    }
  }

  lemma {:induction false} BigEndianZeros(z: seq<byte>, s: seq<byte>)
    requires forall i :: 0 <= i < |z| ==> z[i] == 0
    ensures BigEndian(z + s) == BigEndian(s)
  {
    if s == [] {
      assert z + s == z;
      if z != [] {
        BigEndianZeros(z[..|z| - 1], []);
        assert z[..|z| - 1] + [] == z[..|z| - 1];
        ByteSum(0);
      }
    } else {
      BigEndianZeros(z, s[..|s| - 1]);
      assert (z + s)[..|z + s| - 1] == z + s[..|s| - 1];
    }
  }

  lemma ByteNatExt(x: byte, y: byte)
    requires ByteNat(x) == ByteNat(y)
    ensures x == y
  {
    hide Nat, DataBits, ByteBit;
    NatExt(DataBits([x]), DataBits([y]));
    BitAt([x], 0, 0); BitAt([x], 0, 1); BitAt([x], 0, 2); BitAt([x], 0, 3);
    BitAt([x], 0, 4); BitAt([x], 0, 5); BitAt([x], 0, 6); BitAt([x], 0, 7);
    BitAt([y], 0, 0); BitAt([y], 0, 1); BitAt([y], 0, 2); BitAt([y], 0, 3);
    BitAt([y], 0, 4); BitAt([y], 0, 5); BitAt([y], 0, 6); BitAt([y], 0, 7);
    ByteExt(x, y);
  }

  lemma ByteExt(x: byte, y: byte)
    requires ByteBit(x, 0) == ByteBit(y, 0) && ByteBit(x, 1) == ByteBit(y, 1)
    requires ByteBit(x, 2) == ByteBit(y, 2) && ByteBit(x, 3) == ByteBit(y, 3)
    requires ByteBit(x, 4) == ByteBit(y, 4) && ByteBit(x, 5) == ByteBit(y, 5)
    requires ByteBit(x, 6) == ByteBit(y, 6) && ByteBit(x, 7) == ByteBit(y, 7)
    ensures x == y
  {
  }

  /** A byte string of known length is determined by its number. */
  lemma {:induction false} BigEndianExt(s: seq<byte>, t: seq<byte>)
    requires |s| == |t| && BigEndian(s) == BigEndian(t)
    ensures s == t
  {
    if s != [] {
      var n := |s| - 1;
      assert 256 * (BigEndian(s[..n]) - BigEndian(t[..n])) == ByteNat(t[n]) - ByteNat(s[n]);
      BigEndianExt(s[..n], t[..n]);
      ByteNatExt(s[n], t[n]);
      assert s == s[..n] + [s[n]] && t == t[..n] + [t[n]];
    }
  }

  lemma {:induction false} BigEndianBound(s: seq<byte>)
    ensures BigEndian(s) < Pow2(8 * |s|)
  {
    if s != [] {
      BigEndianBound(s[..|s| - 1]);
      SmallPowers();
      Pow2Add(8, 8 * |s| - 8);
    }
  }
}
