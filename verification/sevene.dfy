/** The 7E notation: encoders of bearssl-0.5/T0/CodeElement.cs and decoders of the emitted C code. */
module SevenE {
  import opened Binary
  import opened Modular

  type octet = x: int | 0 <= x < 256

  const TWO32: int := 0x1_0000_0000
  const TWO31: int := 0x8000_0000

  predicate IsU32(v: int) { 0 <= v < TWO32 }
  predicate IsI32(v: int) { -TWO31 <= v < TWO31 }

  /** Conversion of an int32 to uint32 and back, as C does it. */
  function ToU32(v: int): (u: nat)
    ensures IsU32(u)
  {
    v % TWO32
  }

  function ToI32(u: nat): int
    requires IsU32(u)
  {
    if u < TWO31 then u else u - TWO32
  }

  /** `v >> 7k`, arithmetic for a signed value */
  function Shr7(v: int, k: nat): int {
    v / Pow2(7 * k)
  }

  /** The byte that carries bits 7k to 7k + 6; all but the last have the upper bit set. */
  function Chunk(v: int, k: nat): octet {
    Shr7(v, k) % 128 + if k > 0 then 128 else 0
  }

  /** The `n` lowest chunks of `v`, most significant first. */
  function Emit(v: int, n: nat): (s: seq<octet>)
    ensures |s| == n
  {
    if n == 0 then [] else [Chunk(v, n - 1)] + Emit(v, n - 1)
  }

  function ULen(v: nat): (n: nat)
    ensures n >= 1
  {
    if v < 128 then 1 else 1 + ULen(v / 128)
  }

  function SLen(v: int): (n: nat)
    ensures n >= 1
    decreases if v < 0 then -v else v
  {
    if -64 <= v < 64 then 1 else 1 + SLen(v / 128)
  }

  /** `Encode7EUnsigned`: count the chunks, then append them. */
  method EncodeUnsigned(val: nat) returns (len: nat, out: seq<octet>)
    requires IsU32(val)
    ensures len == ULen(val) && out == Emit(val, len)
  {
    len := 1;
    var w := val;
    while w >= 0x80
      invariant len - 1 + ULen(w) == ULen(val)
    {
      w := w / 128;
      len := len + 1;
    }
    out := AppendChunks(val, len);
  }

  /** `Encode7ESigned` */
  method EncodeSigned(val: int) returns (len: nat, out: seq<octet>)
    requires IsI32(val)
    ensures len == SLen(val) && out == Emit(val, len)
  {
    len := 1;
    var w := val;
    if val < 0 {
      while w < -0x40
        invariant w < 0 && len - 1 + SLen(w) == SLen(val)
        decreases -w
      {
        w := w / 128;
        len := len + 1;
      }
    } else {
      while w >= 0x40
        invariant w >= 0 && len - 1 + SLen(w) == SLen(val)
      {
        w := w / 128;
        len := len + 1;
      }
    }
    out := AppendChunks(val, len);
  }

  /** The emitting loop shared by both encoders. */
  method AppendChunks(val: int, len: nat) returns (out: seq<octet>)
    requires len >= 1
    ensures out == Emit(val, len)
  {
    out := [];
    var k := len;
    while k > 0
      invariant k <= len
      invariant out + Emit(val, k) == Emit(val, len)
    {
      k := k - 1;
      out := out + [Chunk(val, k)];
    }
  }

  datatype Parsed = Parsed(value: int, next: nat) | Overrun

  /** `t0_parse7E_unsigned` from an accumulator; running off the buffer is `Overrun`. */
  function ParseU(code: seq<octet>, ip: nat, x: nat): Parsed
    decreases |code| - ip
  {
    if ip >= |code| then Overrun
    else
      var y := code[ip];
      var x' := (x * 128 + y % 128) % TWO32;
      if y < 0x80 then Parsed(x', ip + 1) else ParseU(code, ip + 1, x')
  }

  /** `t0_parse7E_signed` */
  function ParseS(code: seq<octet>, ip: nat): Parsed {
    if ip >= |code| then Overrun
    else
      var neg := (code[ip] / 64) % 2 == 1;
      match ParseU(code, ip, if neg then TWO32 - 1 else 0)
      case Overrun => Overrun
      case Parsed(x, next) =>
        if !IsU32(x) then Overrun
        else Parsed(if neg then -ToI32(TWO32 - 1 - x) - 1 else ToI32(x), next)
  }

  /** The decoder loop. */
  method DecodeUnsigned(code: seq<octet>, ip0: nat, x0: nat) returns (p: Parsed)
    ensures p == ParseU(code, ip0, x0)
  {
    var x: nat, ip: nat := x0, ip0;
    while true
      invariant ParseU(code, ip, x) == ParseU(code, ip0, x0)
      decreases |code| - ip
    {
      if ip >= |code| {
        return Overrun;
      }
      var y := code[ip];
      ip := ip + 1;
      x := (x * 128 + y % 128) % TWO32;
      if y < 0x80 {
        return Parsed(x, ip);
      }
    }
  }

  /** The signed decoder: the sign comes from the first byte, and fills the bits above. */
  method DecodeSigned(code: seq<octet>, ip0: nat) returns (p: Parsed)
    ensures p == ParseS(code, ip0)
  {
    if ip0 >= |code| {
      return Overrun;
    }
    var neg := (code[ip0] / 64) % 2 == 1;
    p := DecodeUnsigned(code, ip0, if neg then TWO32 - 1 else 0);
    if p.Parsed? {
      var x := p.value;
      p := if !IsU32(x) then Overrun else Parsed(if neg then -ToI32(TWO32 - 1 - x) - 1 else ToI32(x), p.next);
    }
  }

  /** The bytes of an encoding sit at `ip`. */
  predicate At(code: seq<octet>, ip: nat, s: seq<octet>) {
    ip + |s| <= |code| && code[ip..ip + |s|] == s
  }

  /** Dividing twice is dividing by the product. */
  lemma NestedDiv(v: int, p: int)
    requires p > 0
    ensures (v / p) / 128 == v / (p * 128)
  {
    var q, r := v / p, v % p;
    var q', r' := q / 128, q % 128;
    assert v == q * p + r;
    Spread(q', r', p);
    assert q == 128 * q' + r';
    DivModUnique(v, p * 128, q', r' * p + r);
  }

  lemma Spread(q: int, r: int, p: int)
    requires p > 0 && 0 <= r < 128
    ensures (128 * q + r) * p == q * (p * 128) + r * p
    ensures 0 <= r * p <= 127 * p
  {
    assert (127 - r) * p >= 0;
  }

  lemma Pow7()
    ensures Pow2(7) == 128
  {
    assert Pow2(3) == 8;
    assert Pow2(5) == 32;
  }

  lemma ShrStep(v: int, k: nat)
    ensures Shr7(v, k + 1) == Shr7(v, k) / 128
    ensures Shr7(v, k) == 128 * Shr7(v, k + 1) + Shr7(v, k) % 128
  {
    Pow2Add(7 * k, 7);
    Pow7();
    NestedDiv(v, Pow2(7 * k));
  }

  lemma ShrZero(v: int)
    ensures Shr7(v, 0) == v
  {
    DivModUnique(v, 1, v, 0);
  }

  /** Decoding continues an accumulator that holds the bits above the chunks still to come. */
  lemma {:induction false} ParseChunks(code: seq<octet>, ip: nat, v: int, n: nat, x: nat)
    requires n >= 1 && At(code, ip, Emit(v, n))
    requires x == ToU32(Shr7(v, n))
    ensures ParseU(code, ip, x) == Parsed(ToU32(v), ip + n)
    decreases n
  {
    hide Shr7;
    assert code[ip] == code[ip..ip + n][0];
    ShrStep(v, n - 1);
    AccumulateMod(Shr7(v, n), Shr7(v, n - 1) % 128);
    if n > 1 {
      assert code[ip + 1..ip + n] == code[ip..ip + n][1..];
      ParseChunks(code, ip + 1, v, n - 1, ToU32(Shr7(v, n - 1)));
    } else {
      ShrZero(v);
    }
  }

  lemma AccumulateMod(q: int, y: int)
    ensures ((q % TWO32) * 128 + y) % TWO32 == (128 * q + y) % TWO32
  {
  }

  lemma {:induction false} ULenBound(v: nat)
    ensures v < Pow2(7 * ULen(v))
  {
    Pow7();
    if v >= 128 {
      ULenBound(v / 128);
      Pow2Add(7, 7 * ULen(v / 128));
    }
  }

  lemma {:induction false} SLenBound(v: int)
    ensures -64 <= Shr7(v, SLen(v) - 1) < 64
    decreases if v < 0 then -v else v
  {
    if -64 <= v < 64 {
      ShrZero(v);
    } else {
      SLenBound(v / 128);
      ShrShift(v, SLen(v / 128) - 1);
    }
  }

  lemma {:induction false} ShrShift(v: int, k: nat)
    ensures Shr7(v / 128, k) == Shr7(v, k + 1)
  {
    if k == 0 {
      ShrZero(v / 128);
      ShrStep(v, 0);
      ShrZero(v);
    } else {
      ShrShift(v, k - 1);
      ShrStep(v / 128, k - 1);
      ShrStep(v, k);
    }
  }

  /** Unsigned 7E is inverse and self-delimiting: whatever follows is left alone. */
  lemma UnsignedRoundTrip(code: seq<octet>, ip: nat, v: nat)
    requires IsU32(v) && At(code, ip, Emit(v, ULen(v)))
    ensures ParseU(code, ip, 0) == Parsed(v, ip + ULen(v))
  {
    hide Shr7, ParseU, Emit, ULen;
    NothingAbove(v);
    ParseChunks(code, ip, v, ULen(v), 0);
  }

  lemma NothingAbove(v: nat)
    ensures Shr7(v, ULen(v)) == 0
  {
    hide ULen;
    ULenBound(v);
    DivModUnique(v, Pow2(7 * ULen(v)), 0, v);
  }

  /** Signed 7E is inverse and self-delimiting. */
  lemma SignedRoundTrip(code: seq<octet>, ip: nat, v: int)
    requires IsI32(v) && At(code, ip, Emit(v, SLen(v)))
    ensures ParseS(code, ip) == Parsed(v, ip + SLen(v))
  {
    hide Shr7, ParseU, SLen;
    var n := SLen(v);
    SLenBound(v);
    ShrStep(v, n - 1);
    SignOf(v, n - 1);
    assert code[ip] == code[ip..ip + n][0] == Chunk(v, n - 1);
    ParseChunks(code, ip, v, n, ToU32(Shr7(v, n)));
  }

  /** Shifting keeps the sign. */
  lemma SignOf(v: int, k: nat)
    ensures v < 0 <==> Shr7(v, k) < 0
  {
    var p := Pow2(7 * k);
    var q := v / p;
    assert v == q * p + v % p;
    MulAtLeast(q, p);
    if q >= 0 { assert q * p >= 0; }
  }

  lemma Short(v: int)
    ensures Emit(v, 1) == [v % 128] && Emit(v, 2) == [128 + v / 128 % 128, v % 128]
  {
    hide Shr7;
    ShrZero(v);
    ShrStep(v, 0);
    assert Emit(v, 1) == [Chunk(v, 0)] + Emit(v, 0);
    assert Emit(v, 2) == [Chunk(v, 1)] + Emit(v, 1);
  }

  /** Seven bits in each byte, most significant first, the upper bit set in all but the last. */
  lemma Samples()
    ensures Emit(5, ULen(5)) == [0x05] && Emit(300, ULen(300)) == [0x82, 0x2c]
    ensures Emit(-1, SLen(-1)) == [0x7f] && Emit(64, SLen(64)) == [0x80, 0x40] && Emit(-65, SLen(-65)) == [0xff, 0x3f]
  {
    hide Emit;
    Short(5);
    Short(300);
    Short(-1);
    Short(64);
    Short(-65);
  }
}
