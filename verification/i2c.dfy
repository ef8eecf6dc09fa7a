/** The bit-banged I2C master, i2c/i2c_master.c, as what it does to its two lines. */
module I2c {

  /** Levels that the master drives; true is high (released). */
  datatype Level = Level(sda: bool, scl: bool)

  /** What an observer of the lines makes of them, sections 3.1.3 to 3.1.6 of UM10204. */
  datatype Symbol = Start | Stop | Bit(value: bool) | Glitch

  /** The observer: the last levels, whether a bit is being clocked, and what was seen. */
  datatype Observer = Observer(level: Level, clocking: bool, seen: seq<Symbol>)

  /**
   * A data bit counts when the clock falls again after a pulse during which SDA was stable; a change of SDA while
   * SCL is high is a START or a STOP; both lines changing at once is a glitch.
   */
  function Look(o: Observer, l: Level): Observer {
    var was := o.level;
    if was.scl && l.scl then
      if was.sda && !l.sda then Observer(l, false, o.seen + [Start])
      else if !was.sda && l.sda then Observer(l, false, o.seen + [Stop])
      else o
    else if was.sda != l.sda && was.scl != l.scl then Observer(l, false, o.seen + [Glitch])
    else if !was.scl && l.scl then Observer(l, true, o.seen)
    else if was.scl && !l.scl then Observer(l, false, if o.clocking then o.seen + [Bit(was.sda)] else o.seen)
    else Observer(l, o.clocking, o.seen)
  }

  /** Watching from an idle bus. */
  function Watch(trace: seq<Level>): Observer {
    if trace == [] then Observer(Level(true, true), false, [])
    else Look(Watch(trace[..|trace| - 1]), trace[|trace| - 1])
  }

  lemma WatchMore(trace: seq<Level>, l: Level)
    ensures Watch(trace + [l]) == Look(Watch(trace), l)
  {
    assert (trace + [l])[..|trace|] == trace;
  }

  /** `(w >> (7 - i)) & 1` */
  predicate BitAt(w: bv8, i: nat)
    requires i < 8
  {
    w & (0x80 >> i) != 0
  }

  /** Most significant bit first. */
  function Bits(w: bv8): (s: seq<bool>)
    ensures |s| == 8
  {
    seq(8, i requires 0 <= i < 8 => BitAt(w, i))
  }

  /** `x |= b << (7 - i)` */
  function With(x: bv8, b: bool, i: nat): bv8
    requires i < 8
  {
    x | if b then 0x80 >> i else 0
  }

  function ByteOf(s: seq<bool>): bv8
    requires |s| <= 8
  {
    if s == [] then 0 else With(ByteOf(s[..|s| - 1]), s[|s| - 1], |s| - 1)
  }

  /** The first `i` bits, the others zero. */
  function First(w: bv8, i: nat): bv8
    requires i <= 8
  {
    w & if i == 0 then 0x00 else if i == 1 then 0x80 else if i == 2 then 0xc0 else if i == 3 then 0xe0
        else if i == 4 then 0xf0 else if i == 5 then 0xf8 else if i == 6 then 0xfc else if i == 7 then 0xfe else 0xff
  }

  lemma FirstStepLow(w: bv8, i: nat)
    requires i < 4
    ensures With(First(w, i), BitAt(w, i), i) == First(w, i + 1)
  {
    if i == 0 {
      assert With(First(w, 0), BitAt(w, 0), 0) == First(w, 1);
    } else if i == 1 {
      assert With(First(w, 1), BitAt(w, 1), 1) == First(w, 2);
    } else if i == 2 {
      assert With(First(w, 2), BitAt(w, 2), 2) == First(w, 3);
    } else if i == 3 {
      assert With(First(w, 3), BitAt(w, 3), 3) == First(w, 4);
    }
  }

  lemma FirstStepHigh(w: bv8, i: nat)
    requires 4 <= i < 8
    ensures With(First(w, i), BitAt(w, i), i) == First(w, i + 1)
  {
    if i == 4 {
      assert With(First(w, 4), BitAt(w, 4), 4) == First(w, 5);
    } else if i == 5 {
      assert With(First(w, 5), BitAt(w, 5), 5) == First(w, 6);
    } else if i == 6 {
      assert With(First(w, 6), BitAt(w, 6), 6) == First(w, 7);
    } else if i == 7 {
      assert With(First(w, 7), BitAt(w, 7), 7) == First(w, 8);
    }
  }

  lemma FirstAll(w: bv8)
    ensures First(w, 0) == 0 && First(w, 8) == w
  {
  }

  lemma {:induction false} FirstBits(w: bv8, i: nat)
    requires i <= 8
    ensures ByteOf(Bits(w)[..i]) == First(w, i)
  {
    hide BitAt, With, First;
    FirstAll(w);
    if i > 0 {
      FirstBits(w, i - 1);
      if i <= 4 { FirstStepLow(w, i - 1); } else { FirstStepHigh(w, i - 1); }
      assert Bits(w)[..i][..i - 1] == Bits(w)[..i - 1];
    }
  }

  /** The observer recovers the byte. */
  lemma BitsRecover(w: bv8)
    ensures ByteOf(Bits(w)) == w
  {
    hide Bits, ByteOf, First;
    FirstBits(w, 8);
    FirstAll(w);
    assert Bits(w)[..8] == Bits(w);
  }

  function Pulses(s: seq<bool>): (t: seq<Symbol>)
    ensures |t| == |s|
  {
    seq(|s|, i requires 0 <= i < |s| => Bit(s[i]))
  }

  class Master {
    /** `m_nLastSDA` and `m_nLastSCL` */
    var lastSda: bool
    var lastScl: bool
    /** What the slave makes of SDA whenever the master looks, and how often it looked. */
    const slave: nat -> bool
    var looks: nat
    ghost var trace: seq<Level>

    ghost predicate Valid()
      reads this
    {
      Watch(trace).level == Level(lastSda, lastScl)
    }

    ghost function Seen(): seq<Symbol>
      reads this
    {
      Watch(trace).seen
    }

    /** No bit half clocked. */
    ghost predicate Rest()
      reads this
    {
      Valid() && !Watch(trace).clocking
    }

    ghost predicate Idle()
      reads this
    {
      Rest() && lastSda && lastScl
    }

    constructor (slave: nat -> bool)
      ensures Idle() && Seen() == [] && looks == 0 && this.slave == slave
    {
      lastSda, lastScl, looks, trace := true, true, 0, [];
      this.slave := slave;
    }

    /** `i2c_master_setDC` */
    method SetDC(sda: bool, scl: bool)
      requires Valid()
      modifies this`lastSda, this`lastScl, this`trace
      ensures Valid() && lastSda == sda && lastScl == scl
      ensures Watch(trace) == Look(old(Watch(trace)), Level(sda, scl))
    {
      WatchMore(trace, Level(sda, scl));
      lastSda, lastScl := sda, scl;
      trace := trace + [Level(sda, scl)];
    }

    /** `i2c_master_getDC` */
    method GetDC() returns (b: bool)
      modifies this`looks
      ensures b == slave(old(looks)) && looks == old(looks) + 1
    {
      b := slave(looks);
      looks := looks + 1;
    }

    /** `i2c_master_start`, from an idle bus or between two bytes. */
    method StartCondition()
      requires Rest() && (lastScl ==> lastSda)
      modifies this
      ensures Rest() && !lastSda && lastScl && Seen() == old(Seen()) + [Start] && looks == old(looks)
    {
      hide Watch;
      SetDC(true, lastScl);
      SetDC(true, true);
      SetDC(false, true);
    }

    /** `i2c_master_stop`, between two bytes. */
    method StopCondition()
      requires Rest() && !lastScl
      modifies this
      ensures Idle() && Seen() == old(Seen()) + [Stop] && looks == old(looks)
    {
      hide Watch;
      SetDC(false, lastScl);
      SetDC(false, true);
      SetDC(true, true);
    }

    /** `i2c_master_setAck` */
    method SetAck(level: bool)
      requires Rest()
      modifies this
      ensures Rest() && lastSda && !lastScl && Seen() == old(Seen()) + [Bit(level)] && looks == old(looks)
    {
      hide Watch;
      SetDC(lastSda, false);
      SetDC(level, false);
      SetDC(level, true);
      SetDC(level, false);
      SetDC(true, false);
    }

    /** `i2c_master_getAck` */
    method GetAck() returns (b: bool)
      requires Rest()
      modifies this
      ensures Rest() && lastSda && !lastScl && Seen() == old(Seen()) + [Bit(true)]
      ensures b == slave(old(looks)) && looks == old(looks) + 1
    {
      hide Watch;
      SetDC(lastSda, false);
      SetDC(true, false);
      SetDC(true, true);
      b := GetDC();
      SetDC(true, false);
    }

    /** `i2c_master_writeByte` */
    method WriteByte(w: bv8)
      requires Rest()
      modifies this
      ensures Rest() && !lastScl && Seen() == old(Seen()) + Pulses(Bits(w)) && looks == old(looks)
    {
      hide Watch, Bits;
      SetDC(lastSda, false);
      var i := 0;
      while i < 8
        invariant 0 <= i <= 8 && Rest() && !lastScl && looks == old(looks)
        invariant Seen() == old(Seen()) + Pulses(Bits(w)[..i])
      {
        var dat := Bits(w)[i];
        SetDC(dat, false);
        SetDC(dat, true);
        SetDC(dat, false);
        assert Pulses(Bits(w)[..i + 1]) == Pulses(Bits(w)[..i]) + [Bit(dat)];
        i := i + 1;
      }
      assert Bits(w)[..8] == Bits(w);
    }

    /** A clock pulse with SDA released, left high; the pulse before it, if any, ends. */
    method ReadBit() returns (k: bool)
      requires Valid() && if Watch(trace).clocking then lastSda && lastScl else !lastScl
      modifies this
      ensures Valid() && Watch(trace).clocking && lastSda && lastScl
      ensures Seen() == old(Seen()) + if old(Watch(trace).clocking) then [Bit(true)] else []
      ensures looks == old(looks) + 1 && k == slave(old(looks))
    {
      hide Watch;
      SetDC(true, false);
      SetDC(true, true);
      k := GetDC();
    }

    /** `i2c_master_readByte` */
    method ReadByte() returns (w: bv8)
      requires Rest()
      modifies this
      ensures Rest() && lastSda && !lastScl && Seen() == old(Seen()) + Ones(8)
      ensures looks == old(looks) + 8 && w == ByteOf(Inputs(slave, old(looks), 8))
    {
      hide Watch, With;
      SetDC(lastSda, false);
      w := 0;
      var i := 0;
      while i < 8
        invariant 0 <= i <= 8 && Valid() && looks == old(looks) + i
        invariant Watch(trace).clocking == (i > 0) && if i > 0 then lastSda && lastScl else !lastScl
        invariant Seen() == old(Seen()) + Ones(if i == 0 then 0 else i - 1)
        invariant w == ByteOf(Inputs(slave, old(looks), i))
      {
        var k := ReadBit();
        w := With(w, k, i);
        assert Inputs(slave, old(looks), i + 1)[..i] == Inputs(slave, old(looks), i);
        i := i + 1;
      }
      SetDC(true, false);
    }
  }

  /** Pulses of a released line. */
  function Ones(n: nat): (s: seq<Symbol>)
    ensures |s| == n
  {
    seq(n, _ => Bit(true))
  }

  /** Successive looks at SDA. */
  function Inputs(slave: nat -> bool, at: nat, n: nat): (s: seq<bool>)
    ensures |s| == n
  {
    seq(n, i requires 0 <= i < n => slave(at + i))
  }
}

/** Transactions with the TSL2561 light sensor, drivers/tsl2561.c. */
module Tsl2561 {
  import opened I2c

  /** I2C_ADDR, shifted, for writing and for reading. */
  const ADDR_WRITE: bv8 := 0x39 << 1
  const ADDR_READ: bv8 := (0x39 << 1) | 0x01

  /** A byte and the slot for its acknowledgement, in which the master releases SDA. */
  function ByteSlot(w: bv8): seq<Symbol> { Pulses(Bits(w)) + [Bit(true)] }

  /** Bytes up to the first that the slave does not acknowledge. */
  function Sent2(a: bv8, b: bv8, slave: nat -> bool, at: nat): seq<Symbol> {
    ByteSlot(a) + if slave(at) then [] else ByteSlot(b)
  }

  function Sent3(a: bv8, b: bv8, c: bv8, slave: nat -> bool, at: nat): seq<Symbol> {
    Sent2(a, b, slave, at) + if slave(at) || slave(at + 1) then [] else ByteSlot(c)
  }

  predicate Acked(slave: nat -> bool, at: nat, n: nat) {
    forall i :: at <= i < at + n ==> !slave(i)
  }

  method Put(m: Master, w: bv8) returns (acked: bool)
    requires m.Rest()
    modifies m
    ensures m.Rest() && m.lastSda && !m.lastScl && m.Seen() == old(m.Seen()) + ByteSlot(w)
    ensures m.looks == old(m.looks) + 1 && acked == !m.slave(old(m.looks))
  {
    hide Bits, Pulses;
    m.WriteByte(w);
    var b := m.GetAck();
    acked := !b;
  }

  /** The start of every transaction: address for writing, then the register; STOP if either is not acknowledged. */
  method Address(m: Master, reg: bv8) returns (ok: bool)
    requires m.Idle()
    modifies m
    ensures ok <==> Acked(m.slave, old(m.looks), 2)
    ensures ok ==> m.Rest() && m.lastSda && !m.lastScl && m.looks == old(m.looks) + 2
    ensures !ok ==> m.Idle()
    ensures m.Seen() == old(m.Seen()) + [Start] + Sent2(ADDR_WRITE, 0x80 | reg, m.slave, old(m.looks))
                        + if ok then [] else [Stop]
  {
    hide ByteSlot;
    m.StartCondition();
    ok := Put(m, ADDR_WRITE);
    if !ok {
      m.StopCondition();
      return;
    }
    ok := Put(m, 0x80 | reg);
    if !ok {
      m.StopCondition();
    }
  }

  /** `tsl2561_writebyte` */
  method WriteReg(m: Master, reg: bv8, val: bv8) returns (rc: int)
    requires m.Idle()
    modifies m
    ensures m.Idle()
    ensures rc == if reg <= 0x0f && Acked(m.slave, old(m.looks), 3) then 0 else -1
    ensures m.Seen() == if reg > 0x0f then old(m.Seen())
                        else old(m.Seen()) + [Start] + Sent3(ADDR_WRITE, 0x80 | reg, val, m.slave, old(m.looks))
                             + [Stop]
  {
    hide ByteSlot, Sent2;
    if reg > 0x0f {
      return -1;
    }
    var ok := Address(m, reg);
    if !ok {
      return -1;
    }
    ok := Put(m, val);
    m.StopCondition();
    rc := if ok then 0 else -1;
  }

  /** The start of a read: after the register, a repeated START and the address for reading. */
  method Turn(m: Master, reg: bv8) returns (ok: bool)
    requires m.Idle()
    modifies m
    ensures ok <==> Acked(m.slave, old(m.looks), 3)
    ensures ok ==> m.Rest() && m.lastSda && !m.lastScl && m.looks == old(m.looks) + 3
    ensures !ok ==> m.Idle()
    ensures m.Seen() == old(m.Seen()) + Header(reg, m.slave, old(m.looks)) + if ok then [] else [Stop]
  {
    hide ByteSlot, Sent2;
    ok := Address(m, reg);
    if !ok {
      return;
    }
    m.StartCondition();
    ok := Put(m, ADDR_READ);
    if !ok {
      m.StopCondition();
    }
  }

  /** What the bus carries before the data of a read. */
  function Header(reg: bv8, slave: nat -> bool, at: nat): seq<Symbol> {
    [Start] + Sent2(ADDR_WRITE, 0x80 | reg, slave, at)
    + if Acked(slave, at, 2) then [Start] + ByteSlot(ADDR_READ) else []
  }

  /** The data part of `ReadReg` (one byte) or `ReadWord` (two), as the master drives it. */
  function Data(word: bool): seq<Symbol> {
    (if word then Ones(8) + [Bit(false)] else []) + Ones(8) + [Bit(true)]
  }

  /** `tsl2561_readbyte`: the value is what the slave put on the line. */
  method ReadReg(m: Master, reg: bv8) returns (rc: int, val: bv8)
    requires m.Idle()
    modifies m
    ensures m.Idle()
    ensures rc == if reg <= 0x0f && Acked(m.slave, old(m.looks), 3) then 0 else -1
    ensures rc == 0 ==> val == ByteOf(Inputs(m.slave, old(m.looks) + 3, 8))
    ensures m.Seen() == if reg > 0x0f then old(m.Seen())
                        else old(m.Seen()) + Header(reg, m.slave, old(m.looks))
                             + (if rc == 0 then Data(false) else []) + [Stop]
  {
    hide Header, ByteOf;
    val := 0;
    if reg > 0x0f {
      return -1, val;
    }
    var ok := Turn(m, reg);
    if !ok {
      return -1, val;
    }
    val := m.ReadByte();
    m.SetAck(true);
    m.StopCondition();
    rc := 0;
  }

  /** `tsl2561_readword`: low byte first, acknowledged; high byte, not acknowledged. */
  method ReadWord(m: Master, reg: bv8) returns (rc: int, val: bv16)
    requires m.Idle()
    modifies m
    ensures m.Idle()
    ensures rc == if reg <= 0x0f && Acked(m.slave, old(m.looks), 3) then 0 else -1
    ensures rc == 0 ==>
              val == Join(ByteOf(Inputs(m.slave, old(m.looks) + 11, 8)), ByteOf(Inputs(m.slave, old(m.looks) + 3, 8)))
    ensures m.Seen() == if reg > 0x0f then old(m.Seen())
                        else old(m.Seen()) + Header(reg, m.slave, old(m.looks))
                             + (if rc == 0 then Data(true) else []) + [Stop]
  {
    hide Header, ByteOf, Join;
    val := 0;
    if reg > 0x0f {
      return -1, val;
    }
    var ok := Turn(m, reg);
    if !ok {
      return -1, val;
    }
    var low := m.ReadByte();
    m.SetAck(false);
    var high := m.ReadByte();
    m.SetAck(true);
    m.StopCondition();
    val := Join(high, low);
    rc := 0;
  }

  function Join(high: bv8, low: bv8): bv16 { ((high as bv16) << 8) | (low as bv16) }

  /** The bytes an observer reads off the bus: groups of nine bits, the ninth being the acknowledgement. */
  function Bytes(s: seq<Symbol>): seq<bv8> {
    if s == [] then []
    else if s[0] == Start || s[0] == Stop then Bytes(s[1..])
    else if |s| >= 9 && forall i :: 0 <= i < 9 ==> s[i].Bit? then
      [ByteOf(seq(8, i requires 0 <= i < 8 => s[i].value))] + Bytes(s[9..])
    else []
  }

  /** A byte and its acknowledgement, whoever gives it. */
  lemma SlotRead(w: bv8, ack: bool, rest: seq<Symbol>)
    ensures Bytes(Pulses(Bits(w)) + [Bit(ack)] + rest) == [w] + Bytes(rest)
  {
    hide Bits, ByteOf;
    var s := Pulses(Bits(w)) + [Bit(ack)] + rest;
    var t := seq(8, i requires 0 <= i < 8 => s[i].value);
    assert forall i :: 0 <= i < 8 ==> s[i] == Pulses(Bits(w))[i];
    assert t == Bits(w);
    BitsRecover(w);
    assert s[9..] == rest;
  }

  lemma MarkRead(x: Symbol, rest: seq<Symbol>)
    requires x == Start || x == Stop
    ensures Bytes([x] + rest) == Bytes(rest)
  {
    assert ([x] + rest)[1..] == rest;
  }

  lemma StopRead()
    ensures Bytes([Stop]) == []
  {
  }

  /** Address and register, up to the first refusal, in front of anything else. */
  lemma Sent2Read(a: bv8, b: bv8, slave: nat -> bool, at: nat, rest: seq<Symbol>)
    ensures Bytes(Sent2(a, b, slave, at) + rest) == (if slave(at) then [a] else [a, b]) + Bytes(rest)
  {
    hide Bytes, Pulses, Bits;
    if slave(at) {
      assert Sent2(a, b, slave, at) + rest == ByteSlot(a) + rest;
      SlotRead(a, true, rest);
    } else {
      assert Sent2(a, b, slave, at) + rest == ByteSlot(a) + (ByteSlot(b) + rest);
      SlotRead(a, true, ByteSlot(b) + rest);
      SlotRead(b, true, rest);
    }
  }

  /** From a write the observer recovers the address, the register and the value, up to the first refusal. */
  lemma WriteRecovered(reg: bv8, val: bv8, slave: nat -> bool, at: nat)
    ensures var sent := [ADDR_WRITE, 0x80 | reg, val];
            var n := if slave(at) then 1 else if slave(at + 1) then 2 else 3;
            Bytes([Start] + Sent3(ADDR_WRITE, 0x80 | reg, val, slave, at) + [Stop]) == sent[..n]
  {
    hide Sent2, Bytes, Pulses, Bits;
    var r := 0x80 | reg;
    var end := (if slave(at) || slave(at + 1) then [] else ByteSlot(val)) + [Stop];
    var body := Sent2(ADDR_WRITE, r, slave, at) + end;
    assert [Start] + Sent3(ADDR_WRITE, r, val, slave, at) + [Stop] == [Start] + body;
    MarkRead(Start, body);
    Sent2Read(ADDR_WRITE, r, slave, at, end);
    SlotRead(val, true, [Stop]);
    StopRead();
    assert [] + [Stop] == [Stop];
  }

  /** From the start of a read: the address for writing, the register and the address for reading. */
  lemma HeaderRecovered(reg: bv8, slave: nat -> bool, at: nat, rest: seq<Symbol>)
    ensures var sent := [ADDR_WRITE, 0x80 | reg, ADDR_READ];
            var n := if slave(at) then 1 else if slave(at + 1) then 2 else 3;
            Bytes(Header(reg, slave, at) + rest) == sent[..n] + Bytes(rest)
  {
    hide Sent2, Bytes, Pulses, Bits;
    var r := 0x80 | reg;
    var more := ByteSlot(ADDR_READ) + rest;
    assert Acked(slave, at, 2) <==> !slave(at) && !slave(at + 1);
    var end := if Acked(slave, at, 2) then [Start] + more else rest;
    var body := Sent2(ADDR_WRITE, r, slave, at) + end;
    assert Header(reg, slave, at) + rest == [Start] + body;
    MarkRead(Start, body);
    Sent2Read(ADDR_WRITE, r, slave, at, end);
    MarkRead(Start, more);
    SlotRead(ADDR_READ, true, rest);
  }

  /** SDA released for eight pulses. */
  lemma OnesReleased()
    ensures Ones(8) == Pulses(Bits(0xff))
  {
    assert forall i :: 0 <= i < 8 ==> BitAt(0xff, i);
  }

  /**
   * From a read the observer recovers the same up to the first refusal; in the slots of the data the master leaves
   * SDA released, so that the slave's bytes are what the line shows.
   */
  lemma ReadRecovered(reg: bv8, word: bool, slave: nat -> bool, at: nat)
    ensures var sent := [ADDR_WRITE, 0x80 | reg, ADDR_READ];
            var n := if slave(at) then 1 else if slave(at + 1) then 2 else 3;
            Bytes(Header(reg, slave, at) + (if Acked(slave, at, 3) then Data(word) else []) + [Stop])
            == if !Acked(slave, at, 3) then sent[..n] else if word then sent + [0xff, 0xff] else sent + [0xff]
  {
    hide Header, Bytes, Pulses, Bits, Ones;
    var data := if Acked(slave, at, 3) then Data(word) else [];
    var rest := data + [Stop];
    assert Header(reg, slave, at) + data + [Stop] == Header(reg, slave, at) + rest;
    HeaderRecovered(reg, slave, at, rest);
    StopRead();
    assert [] + [Stop] == [Stop];
    OnesReleased();
    var last := Ones(8) + [Bit(true)] + [Stop];
    SlotRead(0xff, true, [Stop]);
    SlotRead(0xff, false, last);
    if Acked(slave, at, 3) {
      assert rest == if word then Ones(8) + [Bit(false)] + last else last;
    }
  }

  /** The sensor is at address 0111001; the last bit of the byte says whether it is read. Most significant bit first. */
  lemma AddressBits()
    ensures Bits(ADDR_WRITE) == [false, true, true, true, false, false, true, false]
    ensures Bits(ADDR_READ) == [false, true, true, true, false, false, true, true]
  {
  }

  /** The word is 256 times its second byte and its first byte. */
  lemma JoinValue(high: bv8, low: bv8)
    ensures Join(high, low) / 256 == high as bv16 && Join(high, low) % 256 == low as bv16
  {
  }
}
