/** The firmware push handler, http/url_ota.c: one state shared by all clients, one flash. */
module Ota {
  import opened Bytes
  import Spec = Sha256Spec
  import S = Sha256
  import B = BlockStream

  /** SPI_FLASH_SEC_SIZE */
  const SEC: nat := 4096

  datatype FlashMap =
    | Map4M_256_256 | Map8M_512_512 | Map16M_1024_1024
    | Map16M_512_512 | Map32M_512_512 | Map32M_1024_1024
    | MapOther

  /** The size of the flash in kB; 0 where the map is not supported. */
  function SizeKb(m: FlashMap): (n: nat)
    ensures n == 0 || n == 512 || n == 1024 || n == 2048 || n == 4096
  {
    match m
    case Map4M_256_256 => 4 * 1024 / 8
    case Map8M_512_512 => 8 * 1024 / 8
    case Map16M_1024_1024 => 16 * 1024 / 8
    case Map16M_512_512 => 16 * 1024 / 8
    case Map32M_512_512 => 32 * 1024 / 8
    case Map32M_1024_1024 => 32 * 1024 / 8
    case MapOther => 0
  }

  /** Where the two applications start. */
  const USER1: nat := 4 * 1024
  function User2(kb: nat): nat { (kb / 2 + 4) * 1024 }

  /** The largest application. */
  function MaxApp(kb: nat): int { (kb / 2 - 20) * 1024 }

  /** The sector where parameters are stored (param.c), and the two after it that protect it. */
  function ParamAddr(kb: nat): int { (kb / 2 - 4 * 3) * 1024 }

  /** Each supported size, from the megabits in the name of its map. */
  lemma FlashSizes()
    ensures SizeKb(Map4M_256_256) == 512 && SizeKb(Map8M_512_512) == 1024 && SizeKb(MapOther) == 0
    ensures SizeKb(Map16M_1024_1024) == SizeKb(Map16M_512_512) == 2048
    ensures SizeKb(Map32M_512_512) == SizeKb(Map32M_1024_1024) == 4096
  {
  }

  /**
   * The map of the flash: each application starts one sector into its half and ends 16 kB before its end, and the
   * parameters lie in the last three sectors of the first half.
   */
  lemma PartitionMap(kb: nat)
    requires SizeKb4(kb)
    ensures USER1 == SEC && User2(kb) == kb * 512 + SEC
    ensures USER1 + MaxApp(kb) + 4 * SEC == kb * 512 && User2(kb) + MaxApp(kb) + 4 * SEC == kb * 1024
    ensures ParamAddr(kb) + 3 * SEC == kb * 512
  {
  }

  /** Two ranges of addresses have nothing in common. */
  predicate Apart(a: int, n: int, b: int, m: int) { a + n <= b || b + m <= a }

  /** What harmless means for the running application at `cur`, byte by byte. */
  lemma HarmlessMeans(kb: nat, cur: nat, beg: nat, a: nat, x: nat)
    requires Inactive(kb, cur, beg) && Harmless(kb, cur, a) && a <= x < a + SEC
    ensures a % SEC == 0 && beg <= x < beg + MaxApp(kb) && beg != cur
    ensures !(cur <= x < cur + MaxApp(kb)) && x >= 4096 && x < kb * 1024 - 16384
    ensures !(kb * 512 - 12288 <= x < kb * 512)
  {
  }

  /** Where the application goes that is not running. */
  function InactiveStart(kb: nat, cur: nat): nat { if cur == USER1 then User2(kb) else USER1 }

  /**
   * A sector that a push may erase and write, while the application at `cur` runs: inside the inactive partition, and
   * so apart from the running image, the boot sector, the parameters and the last 16 kB.
   */
  predicate Harmless(kb: nat, cur: nat, a: nat) {
    a % SEC == 0 && a + SEC <= kb * 1024
    && InactiveStart(kb, cur) <= a && a + SEC <= InactiveStart(kb, cur) + MaxApp(kb)
    && Apart(a, SEC, cur, MaxApp(kb))
    && Apart(a, SEC, 0, USER1)
    && Apart(a, SEC, ParamAddr(kb), 3 * SEC)
    && Apart(a, SEC, (kb - 16) * 1024, 16 * 1024)
  }

  /** The inactive partition, `beg`, while the application at `cur` runs. */
  predicate Inactive(kb: nat, cur: nat, beg: nat) {
    SizeKb4(kb) && ((cur == USER1 && beg == User2(kb)) || (cur == User2(kb) && beg == USER1))
  }

  predicate SizeKb4(kb: nat) { kb == 512 || kb == 1024 || kb == 2048 || kb == 4096 }

  /** Every sector that an application of admitted size can touch is harmless, the rounded-up last one included. */
  lemma SectorsHarmless(kb: nat, cur: nat, beg: nat, len: nat, off: nat)
    requires Inactive(kb, cur, beg) && len <= MaxApp(kb) && off % SEC == 0 && off < len
    ensures Harmless(kb, cur, beg + off)
  {
    assert off + SEC <= MaxApp(kb);
    assert (beg + off) % SEC == 0;
  }

  lemma InactiveHalf(kb: nat, cur: nat, beg: nat, len: nat)
    requires SizeKb4(kb) && (cur == USER1 || cur == User2(kb)) && beg == (if cur == USER1 then User2(kb) else USER1)
    requires len <= MaxApp(kb)
    ensures Inactive(kb, cur, beg) && beg + len <= kb * 1024
  {
  }

  /** One HTTP client: what has arrived and was not used yet, and how much of the body was used. */
  class Client {
    const postlen: nat
    const isPost: bool
    const url: string
    var buf: seq<byte>
    var postused: nat

    /** Everything that arrived after the header. */
    ghost var body: seq<byte>

    ghost predicate Valid()
      reads this
    {
      postused <= postlen && |body| == postused + |buf| && body[postused..] == buf
    }

    constructor (postlen: nat, isPost: bool, url: string)
      ensures Valid() && this.postlen == postlen && this.isPost == isPost && this.url == url
      ensures postused == 0 && body == []
    {
      this.postlen := postlen;
      this.isPost := isPost;
      this.url := url;
      buf, postused := [], 0;
      body := [];
    }
  }

  /** What was used of the body so far: whole sectors are in flash and hashed, the rest waits in the buffer. */
  ghost predicate Stored(flash: seq<byte>, beg: nat, k: nat, waiting: seq<byte>, body: seq<byte>, used: nat) {
    k % SEC == 0 && k <= used <= |body| && |waiting| == used - k < SEC
    && beg + k <= |flash| && flash[beg..beg + k] == body[..k] && waiting == body[k..used]
  }

  lemma NothingStored(flash: seq<byte>, beg: nat, body: seq<byte>)
    requires beg <= |flash|
    ensures Stored(flash, beg, 0, [], body, 0)
  {
  }

  /** Bytes that do not fill the sector just wait. */
  lemma StoredMore(flash: seq<byte>, beg: nat, k: nat, waiting: seq<byte>, body: seq<byte>, used: nat, d: seq<byte>)
    requires Stored(flash, beg, k, waiting, body, used) && used + |d| <= |body| && d == body[used..used + |d|]
    ensures |waiting + d| == used + |d| - k && waiting + d == body[k..used + |d|]
    ensures |waiting + d| < SEC ==> Stored(flash, beg, k, waiting + d, body, used + |d|)
  {
  }

  /** Writing a sector. */
  function Written(flash: seq<byte>, addr: nat, sector: seq<byte>): seq<byte>
    requires addr + |sector| <= |flash|
  {
    flash[..addr] + sector + flash[addr + |sector|..]
  }

  lemma WrittenHolds(flash: seq<byte>, beg: nat, k: nat, waiting: seq<byte>, body: seq<byte>, used: nat,
      sector: seq<byte>)
    requires k <= used <= |body| && |waiting| == used - k && beg + k + |sector| <= |flash|
    requires flash[beg..beg + k] == body[..k] && waiting == body[k..used]
    requires |waiting| <= |sector| && sector[..|waiting|] == waiting
    ensures Written(flash, beg + k, sector)[beg..beg + used] == body[..used]
    ensures |Written(flash, beg + k, sector)| == |flash|
  {
    var f := Written(flash, beg + k, sector);
    assert f[beg..beg + k] == flash[beg..beg + k];
    assert f[beg + k..beg + used] == sector[..|waiting|];
    assert f[beg..beg + used] == f[beg..beg + k] + f[beg + k..beg + used];
    assert body[..used] == body[..k] + body[k..used];
  }

  /** The device and the one state of all pushes. */
  class Device {
    const flashMap: FlashMap
    const userbin: nat
    const sha: S.Sha256State
    const hash1: array<byte>
    const hash2: array<byte>
    const secbuf: array<byte>
    var client: Client?
    var newaddrBeg: nat
    var newaddrCur: nat
    var appsize: nat
    var secused: nat
    var flash: seq<byte>

    /** Which flash operations succeed, and how many were tried. */
    const works: nat -> bool
    var ops: nat

    /** Every sector ever erased or written. */
    ghost var touched: set<nat>

    constructor (flashMap: FlashMap, userbin: nat, flash: seq<byte>, works: nat -> bool)
      requires |flash| == SizeKb(flashMap) * 1024
      ensures Shape() && Safe() && client == null && this.flashMap == flashMap && this.userbin == userbin
      ensures fresh(Footprint())
    {
      this.flashMap, this.userbin, this.flash, this.works := flashMap, userbin, flash, works;
      ops := 0;
      sha := new S.Sha256State();
      hash1, hash2, secbuf := new byte[32](_ => 0), new byte[32](_ => 0), new byte[SEC](_ => 0);
      client := null;
      newaddrBeg, newaddrCur, appsize, secused := 0, 0, 0, 0;
      touched := {};
    }

    ghost function Footprint(): set<object>
      reads this
    {
      {this, sha, sha.buf, sha.h, hash1, hash2, secbuf}
    }

    ghost predicate Shape()
      reads this
    {
      sha.buf.Length == 64 && sha.h.Length == 8 && hash1.Length == 32 && hash2.Length == 32 && secbuf.Length == SEC
      && hash1 != hash2 && hash1 != secbuf && hash2 != secbuf
      && sha.buf != hash1 && sha.buf != hash2 && sha.buf != secbuf
      && |flash| == SizeKb(flashMap) * 1024
    }

    /** A flash operation failed since there were `from` of them. */
    ghost predicate Faulty(from: nat)
      reads this
    {
      exists i :: from <= i < ops && !works(i)
    }

    /** One flash operation. */
    method Try() returns (ok: bool)
      modifies this`ops
      ensures ops == old(ops) + 1 && ok == works(old(ops))
    {
      ok := works(ops);
      ops := ops + 1;
    }

    /** Nothing but harmless sectors was ever touched. */
    ghost predicate Safe()
      reads this
    {
      forall a :: a in touched ==> Harmless(SizeKb(flashMap), userbin, a)
    }

    /** The state belongs to a push of `c` that may go on. */
    ghost predicate Serving(c: Client)
      reads Footprint(), c
    {
      Shape() && c.Valid() && c == client && appsize == c.postlen <= MaxApp(SizeKb(flashMap))
      && Inactive(SizeKb(flashMap), userbin, newaddrBeg) && newaddrBeg <= newaddrCur
      && newaddrBeg + c.postlen <= |flash|
      && secused < SEC
      && if c.postused < c.postlen
         then Stored(flash, newaddrBeg, newaddrCur - newaddrBeg, secbuf[..secused], c.body, c.postused)
              && sha.Holds(c.body[..newaddrCur - newaddrBeg])
         else flash[newaddrBeg..newaddrBeg + c.postlen] == c.body[..c.postlen] && sha.Holds(c.body[..c.postlen])
    }

    /** A push that the checks at its start let through. */
    predicate Admissible(c: Client) {
      var kb := SizeKb(flashMap);
      kb > 0 && (userbin == USER1 || userbin == User2(kb)) && c.isPost && c.postlen <= MaxApp(kb)
    }

    /** A push that the handler goes on with. */
    predicate Live(c: Client)
      reads this, c
    {
      if c.postused == 0 then Admissible(c) else client == c
    }

    /** The first lines of the handler, for a client that has sent nothing yet. */
    method Setup(c: Client) returns (ok: bool)
      requires Shape() && Safe() && c.Valid() && c.postused == 0
      modifies this, sha, sha.h
      ensures ops == old(ops)
      ensures Shape() && Safe() && touched == old(touched) && flash == old(flash) && client == c
      ensures ok <==> Admissible(c)
      ensures ok ==> Serving(c)
    {
      hide B.Streamed, B.Chop, B.Whole, Spec.Fold, Harmless, Inactive, Stored, SizeKb, MaxApp, User2;
      client := c;
      sha.Init();
      var kb := SizeKb(flashMap);
      if kb == 0 {
        return false;
      }
      if userbin != USER1 && userbin != User2(kb) {
        return false;
      }
      newaddrBeg := if userbin == USER1 then User2(kb) else USER1;
      newaddrCur := newaddrBeg;
      appsize := c.postlen;
      secused := 0;
      if !c.isPost || c.postlen > MaxApp(kb) {
        return false;
      }
      InactiveHalf(kb, userbin, newaddrBeg, c.postlen);
      assert c.body[..0] == [] && secbuf[..0] == [] && flash[newaddrBeg..newaddrBeg] == [];
      NothingStored(flash, newaddrBeg, c.body);
      ok := true;
    }

    /** One turn of the loop: move bytes to the sector buffer, and flush it when it is full or the body ends. */
    method Chunk(c: Client) returns (ok: bool)
      requires Serving(c) && Safe() && c.buf != [] && c.postused < c.postlen
      modifies this, sha, sha.buf, sha.h, secbuf, c
      ensures Shape() && Safe() && c.Valid() && c.body == old(c.body) && client == old(client)
      ensures ops >= old(ops) && (ok <==> !Faulty(old(ops)))
      ensures ok ==> Serving(c) && c.postused > old(c.postused)
    {
      hide B.Streamed, B.Chop, B.Whole, Spec.Fold, Harmless, Inactive, Stored, SizeKb;
      ghost var k, waiting, used := newaddrCur - newaddrBeg, secbuf[..secused], c.postused;
      StoredShape(flash, newaddrBeg, k, waiting, c.body, used);
      var len := if |c.buf| < c.postlen - c.postused then |c.buf| else c.postlen - c.postused;
      len := if len < SEC - secused then len else SEC - secused;
      ghost var d := c.buf[..len];
      BodyPart(c.body, used, c.buf, len);
      StoredMore(flash, newaddrBeg, k, waiting, c.body, used, d);
      Take(c, len);
      if secused == SEC || c.postused == c.postlen {
        ok := Flush(c, k);
      } else {
        ok := true;
      }
    }

    /** Bytes from the client's buffer to the sector buffer. */
    method Take(c: Client, len: nat)
      requires Shape() && c.Valid() && len <= |c.buf| && c.postused + len <= c.postlen && secused + len <= SEC
      modifies this`secused, secbuf, c`buf, c`postused
      ensures c.Valid() && c.postused == old(c.postused) + len && secused == old(secused) + len
      ensures secbuf[..secused] == old(secbuf[..secused]) + old(c.buf)[..len]
    {
      BodyPart(c.body, c.postused, c.buf, len);
      B.CopyIn(secbuf, secused, c.buf[..len]);
      c.buf := c.buf[len..];
      c.postused := c.postused + len;
      secused := secused + len;
    }

    /** `spi_flash_erase_sector` and `spi_flash_write`; either may fail. */
    method EraseAndWrite(addr: nat, data: seq<byte>) returns (ok: bool)
      requires Shape() && Safe() && Harmless(SizeKb(flashMap), userbin, addr) && |data| == SEC
      modifies this`flash, this`touched, this`ops
      ensures Shape() && Safe() && ops >= old(ops) && (ok <==> !Faulty(old(ops)))
      ensures ok ==> addr + SEC <= |old(flash)| && flash == Written(old(flash), addr, data)
    {
      hide Harmless, SizeKb;
      InFlash(SizeKb(flashMap), userbin, addr);
      touched := touched + {addr};
      var erased := Try();
      if !erased {
        return false;
      }
      flash := flash[..addr] + seq(SEC, _ => 0xff) + flash[addr + SEC..];
      var written := Try();
      if !written {
        return false;
      }
      flash := flash[..addr] + data + flash[addr + SEC..];
      assert flash == Written(old(flash), addr, data);
      ok := true;
    }

    /** What a flush needs: `k` bytes are stored, the rest of what was used waits. */
    ghost predicate Flushable(c: Client, k: nat)
      reads Footprint(), c
    {
      Shape() && c.Valid() && c == client && appsize == c.postlen <= MaxApp(SizeKb(flashMap))
      && Inactive(SizeKb(flashMap), userbin, newaddrBeg) && newaddrCur == newaddrBeg + k && k % SEC == 0
      && newaddrBeg + c.postlen <= |flash| && k < c.postused && secused == c.postused - k <= SEC
      && (secused == SEC || c.postused == c.postlen)
      && flash[newaddrBeg..newaddrCur] == c.body[..k] && secbuf[..secused] == c.body[k..c.postused]
      && sha.Holds(c.body[..k])
    }

    /** Erase and write the current sector, hash what it holds, clear the buffer. */
    method Flush(c: Client, ghost k: nat) returns (ok: bool)
      requires Flushable(c, k) && Safe()
      modifies this, sha, sha.buf, sha.h, secbuf
      ensures Shape() && Safe() && client == old(client) && ops >= old(ops) && (ok <==> !Faulty(old(ops)))
      ensures ok ==> Serving(c)
    {
      hide B.Streamed, B.Chop, B.Whole, Spec.Fold, Harmless, Inactive, Stored, Written, SizeKb, MaxApp;
      SectorsHarmless(SizeKb(flashMap), userbin, newaddrBeg, c.postlen, k);
      ghost var waiting := secbuf[..secused];
      ok := EraseAndWrite(newaddrCur, secbuf[..]);
      if !ok {
        return;
      }
      assert secbuf[..][..secused] == waiting;
      WrittenHolds(old(flash), newaddrBeg, k, waiting, c.body, c.postused, secbuf[..]);
      Advance(c, k, waiting);
    }

    /** The flash is written: on to the next sector. */
    method Advance(c: Client, ghost k: nat, ghost waiting: seq<byte>)
      requires Shape() && Safe() && c.Valid() && c == client && appsize == c.postlen <= MaxApp(SizeKb(flashMap))
      requires Inactive(SizeKb(flashMap), userbin, newaddrBeg) && newaddrCur == newaddrBeg + k && k % SEC == 0
      requires newaddrBeg + c.postlen <= |flash| && k < c.postused && secused == c.postused - k <= SEC
      requires secused == SEC || c.postused == c.postlen
      requires secbuf[..secused] == waiting == c.body[k..c.postused] && sha.Holds(c.body[..k])
      requires flash[newaddrBeg..newaddrBeg + c.postused] == c.body[..c.postused]
      modifies this`newaddrCur, this`secused, sha, sha.buf, sha.h, secbuf
      ensures Serving(c)
    {
      hide B.Streamed, B.Chop, B.Whole, Spec.Fold, Harmless, Inactive, Stored, SizeKb, MaxApp;
      HashSector(c.body[..k], waiting);
      assert c.body[..k] + waiting == c.body[..c.postused];
      newaddrCur := newaddrCur + SEC;
      secused := 0;
      if c.postused < c.postlen {
        NextSector(flash, newaddrBeg, k + SEC, secbuf[..0], c.body, c.postused);
      }
    }

    method HashSector(ghost before: seq<byte>, ghost waiting: seq<byte>)
      requires Shape() && sha.Holds(before) && secused <= SEC && secbuf[..secused] == waiting
      modifies sha, sha.buf, sha.h, secbuf
      ensures sha.Holds(before + waiting)
    {
      hide B.Streamed, B.Chop, B.Whole, Spec.Fold;
      sha.Proc(secbuf[..secused], before);
      B.Clear(secbuf, 0, SEC);
    }

    /** The read-back pass: exactly the bytes of the application are hashed again. */
    method ReadBack(ghost app: seq<byte>) returns (ok: bool)
      requires Shape() && |app| == appsize && newaddrBeg + appsize <= |flash|
      requires Inactive(SizeKb(flashMap), userbin, newaddrBeg) && appsize <= MaxApp(SizeKb(flashMap))
      requires flash[newaddrBeg..newaddrBeg + appsize] == app
      modifies this`ops, sha, sha.buf, sha.h, secbuf, hash2
      ensures ops >= old(ops) && (ok <==> !Faulty(old(ops)))
      ensures ok ==> hash2[..] == Spec.SHA256(app)
    {
      hide B.Streamed, B.Chop, B.Whole, Spec.Fold, Inactive, Spec.HashWith, Spec.SHA256, SizeKb;
      sha.Init();
      var addr := newaddrBeg;
      ghost var done := 0;
      assert app[..0] == [];
      while addr < newaddrBeg + appsize
        invariant ops >= old(ops) && !Faulty(old(ops)) && newaddrBeg <= addr && (addr - newaddrBeg) % SEC == 0
        invariant done == if addr - newaddrBeg <= appsize then addr - newaddrBeg else appsize
        invariant sha.Holds(app[..done])
      {
        var n := if addr + SEC > newaddrBeg + appsize then appsize % SEC else SEC;
        LastPart(appsize, addr - newaddrBeg, n);
        InactiveRoom(SizeKb(flashMap), userbin, newaddrBeg, appsize, addr - newaddrBeg);
        ok := ReadSector(addr, n, app[..done]);
        if !ok {
          return;
        }
        FlashPart(flash, newaddrBeg, app, done, n);
        done := done + n;
        addr := addr + SEC;
      }
      assert app[..done] == app;
      sha.Done(hash2, app);
      SmallEnough(SizeKb(flashMap), userbin, newaddrBeg, appsize);
      S.StreamingIsSHA256(app);
      assert hash2[..32] == hash2[..];
      ok := true;
    }

    /** The loop over what the client's buffer holds. */
    method Absorb(c: Client) returns (ok: bool)
      requires Serving(c) && Safe()
      modifies this, sha, sha.buf, sha.h, secbuf, c
      ensures Shape() && Safe() && c.Valid() && c.body == old(c.body) && client == old(client)
      ensures ops >= old(ops) && (ok <==> !Faulty(old(ops)))
      ensures ok ==> Serving(c) && (c.buf == [] || c.postused == c.postlen)
    {
      hide B.Streamed, B.Chop, B.Whole, Spec.Fold, Harmless, Inactive, Stored;
      ok := true;
      while |c.buf| > 0 && c.postlen > c.postused
        invariant Serving(c) && Safe() && ok && c.body == old(c.body) && client == old(client) && ops >= old(ops)
        invariant !Faulty(old(ops))
        decreases c.postlen - c.postused
      {
        ok := Chunk(c);
        if !ok {
          return;
        }
      }
    }

    /**
     * `http_url_ota_push` up to the check of the signature. The connection is closed when the handler returns 1;
     * `verified` says that it got as far as that check, and then it closes in any case.
     */
    method Push(c: Client) returns (close: bool, verified: bool)
      requires Shape() && Safe() && c.Valid() && (client == c && c.postused > 0 ==> Serving(c))
      modifies Footprint(), c
      ensures Shape() && Safe() && c.Valid() && c.body == old(c.body)
      ensures !close ==> Serving(c) && c.buf == [] && c.postused < c.postlen
      ensures old(client) != c && old(c.postused) > 0 ==> close && unchanged(Footprint()) && unchanged(c)
      ensures old(client) == c || old(c.postused) == 0 ==> client == c
      ensures verified ==> close && c.postused == c.postlen && Proved(c)
      ensures verified <==> old(Live(c)) && !Faulty(old(ops)) && |c.body| >= c.postlen
      ensures !close <==> old(Live(c)) && !Faulty(old(ops)) && |c.body| < c.postlen
    {
      hide B.Streamed, B.Chop, B.Whole, Spec.Fold, Harmless, Inactive, Stored;
      close, verified := true, false;
      var ok: bool;
      if c.postused == 0 {
        ok := Setup(c);
        if !ok {
          return;
        }
      }
      if client != c {
        return;
      }
      ok := Absorb(c);
      if !ok {
        return;
      }
      if c.postlen > c.postused {
        close := false;
        return;
      }
      ok := Verify(c);
      if !ok {
        return;
      }
      verified := true;
    }

    /** Both hashes are that of the client's body, and the flash holds the body. */
    ghost predicate Proved(c: Client)
      reads this, hash1, hash2, c
    {
      c.postlen <= |c.body| && newaddrBeg + c.postlen <= |flash|
      && hash1[..] == Spec.SHA256(c.body[..c.postlen]) && hash2[..] == hash1[..]
      && flash[newaddrBeg..newaddrBeg + c.postlen] == c.body[..c.postlen]
    }

    /** The end of the upload: hash what came, hash what was written, compare. */
    method Verify(c: Client) returns (ok: bool)
      requires Serving(c) && Safe() && c.postused == c.postlen
      modifies this`ops, sha, sha.buf, sha.h, secbuf, hash1, hash2
      ensures ops >= old(ops) && (ok <==> !Faulty(old(ops)))
      ensures ok ==> Proved(c)
    {
      hide B.Streamed, B.Chop, B.Whole, Spec.Fold, Harmless, Inactive, Stored, Spec.HashWith, Spec.SHA256, SizeKb;
      ghost var app := c.body[..c.postlen];
      sha.Done(hash1, app);
      SmallEnough(SizeKb(flashMap), userbin, newaddrBeg, appsize);
      S.StreamingIsSHA256(app);
      assert hash1[..32] == hash1[..];
      ok := ReadBack(app);
    }

    /** What holds between two events, for the clients still connected. */
    ghost predicate Between(open: set<Client>)
      reads Footprint(), open
    {
      Shape() && Safe() && forall x :: x in open ==> x.Valid() && (client == x && x.postused > 0 ==> Serving(x))
    }

    /**
     * One event: more bytes for one of the open clients, in any order among them. Whoever gets as far as verification
     * has its own body in flash and hashed; a client whose handler returns 1 is gone.
     */
    method Deliver(c: Client, d: seq<byte>, ghost open: set<Client>) returns (close: bool, verified: bool)
      requires c in open && Between(open)
      modifies Footprint(), c
      ensures Between(if close then open - {c} else open)
      ensures c.body == old(c.body) + d
      ensures verified ==> close && Proved(c)
      ensures verified <==> old(Live(c)) && !Faulty(old(ops)) && |c.body| >= c.postlen
      ensures !close <==> old(Live(c)) && !Faulty(old(ops)) && |c.body| < c.postlen
    {
      hide B.Streamed, B.Chop, B.Whole, Spec.Fold, Harmless, Inactive, Stored, SizeKb, MaxApp, User2, Spec.SHA256;
      Append(c, d);
      close, verified := Push(c);
    }

    /** The receive callback. */
    method Append(c: Client, d: seq<byte>)
      requires Shape() && c.Valid() && (client == c && c.postused > 0 ==> Serving(c))
      modifies c`buf, c`body
      ensures c.Valid() && (client == c && c.postused > 0 ==> Serving(c)) && c.body == old(c.body) + d
    {
      hide B.Streamed, B.Chop, B.Whole, Spec.Fold, Harmless, Inactive, Stored, SizeKb, MaxApp;
      ghost var was := c.body;
      c.buf := c.buf + d;
      c.body := c.body + d;
      assert c.body[c.postused..] == was[c.postused..] + d;
      if client == c && c.postused > 0 {
        MoreBody(flash, newaddrBeg, newaddrCur, secbuf[..secused], was, d, c.postused, c.postlen);
      }
    }

    /** A new connection changes nothing for the others. */
    lemma Connect(open: set<Client>, c: Client)
      requires Between(open) && c.Valid() && c.postused == 0
      ensures Between(open + {c})
    {
    }

    /** `spi_flash_read`, which may fail, and the hash of the first `n` bytes. */
    method ReadSector(addr: nat, n: nat, ghost before: seq<byte>) returns (ok: bool)
      requires Shape() && sha.Holds(before) && addr + SEC <= |flash| && n <= SEC
      modifies this`ops, sha, sha.buf, sha.h, secbuf
      ensures ops >= old(ops) && (ok <==> !Faulty(old(ops)))
      ensures ok ==> sha.Holds(before + flash[addr..addr + n])
    {
      hide B.Streamed, B.Chop, B.Whole, Spec.Fold;
      var read := Try();
      if !read {
        return false;
      }
      B.CopyIn(secbuf, 0, flash[addr..addr + SEC]);
      assert secbuf[..n] == flash[addr..addr + n];
      sha.Proc(secbuf[..n], before);
      ok := true;
    }
  }

  /** Bytes still to be used do not disturb what was. */
  lemma MoreBody(flash: seq<byte>, beg: nat, cur: nat, waiting: seq<byte>, body: seq<byte>, d: seq<byte>, used: nat,
      len: nat)
    requires beg <= cur && used <= |body|
    ensures Stored(flash, beg, cur - beg, waiting, body, used) ==>
              Stored(flash, beg, cur - beg, waiting, body + d, used) && (body + d)[..cur - beg] == body[..cur - beg]
    ensures len <= |body| ==> (body + d)[..len] == body[..len]
  {
    if Stored(flash, beg, cur - beg, waiting, body, used) {
      assert (body + d)[..cur - beg] == body[..cur - beg] && (body + d)[cur - beg..used] == body[cur - beg..used];
    }
    if len <= |body| {
      assert (body + d)[..len] == body[..len];
    }
  }

  lemma BodyPart(body: seq<byte>, used: nat, buf: seq<byte>, len: nat)
    requires used <= |body| && body[used..] == buf && len <= |buf|
    ensures buf[..len] == body[used..used + len] && buf[len..] == body[used + len..]
  {
  }

  lemma Slice<T>(s: seq<T>, a: nat, b: nat, i: nat, j: nat)
    requires a <= b <= |s| && i <= j <= b - a
    ensures s[a..b][i..j] == s[a + i..a + j]
  {
    var u, v := s[a..b][i..j], s[a + i..a + j];
    assert |u| == |v| && forall k :: 0 <= k < |u| ==> u[k] == v[k];
  }

  lemma FlashPart(flash: seq<byte>, beg: nat, app: seq<byte>, done: nat, n: nat)
    requires beg + |app| <= |flash| && flash[beg..beg + |app|] == app && done + n <= |app|
    ensures app[..done] + flash[beg + done..beg + done + n] == app[..done + n]
  {
    Slice(flash, beg, beg + |app|, done, done + n);
    assert app[..done] + app[done..done + n] == app[..done + n];
  }

  lemma SmallEnough(kb: nat, cur: nat, beg: nat, len: nat)
    requires Inactive(kb, cur, beg) && len <= MaxApp(kb)
    ensures len < 0x2000_0000
  {
  }

  lemma StoredShape(flash: seq<byte>, beg: nat, k: nat, waiting: seq<byte>, body: seq<byte>, used: nat)
    requires Stored(flash, beg, k, waiting, body, used)
    ensures k % SEC == 0 && k <= used <= |body| && |waiting| == used - k < SEC && beg + k <= |flash|
    ensures flash[beg..beg + k] == body[..k] && waiting == body[k..used]
  {
  }

  lemma NextSector(flash: seq<byte>, beg: nat, k: nat, none: seq<byte>, body: seq<byte>, used: nat)
    requires k % SEC == 0 && used <= k && used <= |body| && beg + used <= |flash| && none == []
    requires flash[beg..beg + used] == body[..used]
    ensures k == used ==> Stored(flash, beg, k, none, body, k)
  {
  }

  lemma InFlash(kb: nat, cur: nat, a: nat)
    requires Harmless(kb, cur, a)
    ensures a + SEC <= kb * 1024
  {
  }

  lemma InactiveRoom(kb: nat, cur: nat, beg: nat, len: nat, off: nat)
    requires Inactive(kb, cur, beg) && len <= MaxApp(kb) && off % SEC == 0 && off < len
    ensures beg + off + SEC <= kb * 1024
  {
    SectorsHarmless(kb, cur, beg, len, off);
  }

  /** The last, partial sector holds the remainder. */
  lemma LastPart(len: nat, off: nat, n: nat)
    requires off % SEC == 0 && off < len && n == if off + SEC > len then len % SEC else SEC
    ensures off + n == if off + SEC <= len then off + SEC else len
  {
  }
}
