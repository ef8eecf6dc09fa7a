/** The whole push handler, http/url_ota.c: the upload, and then the check of its signature. */
module Update {
  import opened Bytes
  import opened Bigints
  import opened BigArith
  import opened Hex
  import O = Ota
  import R = Rsa
  import M = Modular
  import Spec = Sha256Spec
  import B = BlockStream

  /** The two numbers and the third hash of the global state, the key, and the temporaries of the arithmetic. */
  class Checker {
    const ar: Arith
    const cipher: Bigint
    const clear: Bigint
    const exp: Bigint
    const mod: Bigint
    const hash3: array<byte>

    constructor (ar: Arith, exp: Bigint, mod: Bigint)
      requires ar.Valid() && ar.Foreign(exp) && ar.Foreign(mod)
      requires exp.Valid() && mod.Valid() && exp.BITS() > 0 && mod.Val() > 0
      ensures Valid() && this.ar == ar && this.exp == exp && this.mod == mod
      ensures fresh(Cells(cipher)) && fresh(Cells(clear)) && fresh(hash3)
    {
      hide Bigint.Valid, Bigint.Val;
      this.ar, this.exp, this.mod := ar, exp, mod;
      cipher := new Bigint();
      clear := new Bigint();
      hash3 := new byte[R.HASHLEN](_ => 0);
    }

    ghost predicate Valid()
      reads exp, exp.data, mod, mod.data
    {
      ar.Valid() && exp.Valid() && mod.Valid() && exp.BITS() > 0 && mod.Val() > 0
      && cipher.data.Length == DATA_MAXLEN && clear.data.Length == DATA_MAXLEN && hash3.Length == R.HASHLEN
      && ar.Foreign(clear) && ar.Foreign(cipher) && ar.Foreign(exp) && ar.Foreign(mod)
      && Other(cipher, exp) && Other(cipher, mod) && Other(clear, cipher) && Other(clear, exp) && Other(clear, mod)
      && hash3 != clear.data && hash3 != exp.data && hash3 != mod.data
    }

    /** What a check writes. */
    ghost function Scratch(): set<object> {
      Cells(cipher) + Cells(clear) + {hash3} + Cells(ar.mulPt) + Cells(ar.mulAt)
      + Cells(ar.divQt) + Cells(ar.divRt) + Cells(ar.divBc) + Cells(ar.expXt) + Cells(ar.expR)
    }

    method Check(url: string, hash1: seq<byte>) returns (v: R.Verdict)
      requires Valid() && |hash1| == R.HASHLEN && |url| <= 0x8000
      modifies Scratch()
      ensures Valid() && R.Outcome(v, url, exp, mod, hash1, hash3[..])
    {
      hide Bigint.Valid, Bigint.Val, Arith.Foreign, Arith.Valid, R.Outcome;
      v := R.Check(ar, cipher, clear, exp, mod, url, hash1, hash3);
    }
  }

  /** The whole body has come, and the URL carries the signer's signature of its hash (crypto/rsasign.py). */
  ghost predicate Genuine(c: O.Client, ck: Checker, d: nat)
    reads c, ck.exp, ck.exp.data, ck.mod, ck.mod.data
  {
    c.postlen <= |c.body| && R.Signed(c.url, ck.exp, ck.mod, d, BigEndian(Spec.SHA256(c.body[..c.postlen])))
  }

  /** What the signer makes of a complete body is genuine. */
  lemma SignedIsGenuine(c: O.Client, ck: Checker, d: nat, path: string)
    requires c.postlen <= |c.body| && '?' !in path
    requires var h := BigEndian(Spec.SHA256(c.body[..c.postlen]));
             R.KeyFor(ck.exp, ck.mod, d, h) && ck.mod.Val() > 0
             && c.url == path + "?" + HexOf(M.Pow(h, d) % ck.mod.Val())
    ensures Genuine(c, ck, d)
  {
    hide Spec.SHA256, BigEndian, HexOf, M.Pow, R.KeyFor, Bigint.Val;
    var h := BigEndian(Spec.SHA256(c.body[..c.postlen]));
    R.AfterPath(path, HexOf(M.Pow(h, d) % ck.mod.Val()));
  }

  /**
   * `http_url_ota_push` as a whole. Without a flash fault a push that may go on closes exactly when its body is
   * complete, and is then judged by its signature; it is accepted exactly when that is found good, which the signer's
   * own signature always is. What an accepted signature opens to is the hash of the body, unless that holds a zero
   * byte. `d` is the signer's key.
   */
  method Handle(dev: O.Device, ck: Checker, c: O.Client, ghost d: nat)
    returns (close: bool, verified: bool, accepted: bool, ghost v: R.Verdict)
    requires dev.Shape() && dev.Safe() && c.Valid() && (dev.client == c && c.postused > 0 ==> dev.Serving(c))
    requires ck.Valid() && ck.Scratch() !! dev.Footprint() && c !in ck.Scratch() && |c.url| <= 0x8000
    requires {ck.exp, ck.exp.data, ck.mod, ck.mod.data} !! dev.Footprint()
    modifies dev.Footprint(), c, ck.Scratch()
    ensures dev.Shape() && dev.Safe() && c.Valid() && c.body == old(c.body) && ck.Valid()
    ensures verified <==> old(dev.Live(c)) && !dev.Faulty(old(dev.ops)) && |c.body| >= c.postlen
    ensures !close <==> old(dev.Live(c)) && !dev.Faulty(old(dev.ops)) && |c.body| < c.postlen
    ensures !close ==> dev.Serving(c)
    ensures verified ==> c.postlen <= |c.body| && dev.newaddrBeg + c.postlen <= |dev.flash|
    ensures verified ==> dev.flash[dev.newaddrBeg..dev.newaddrBeg + c.postlen] == c.body[..c.postlen]
    ensures verified ==> dev.hash1[..] == Spec.SHA256(c.body[..c.postlen])
    ensures accepted <==> verified && v == R.Compared(true)
    ensures verified ==> R.Outcome(v, c.url, ck.exp, ck.mod, dev.hash1[..], ck.hash3[..])
    ensures accepted && (forall i :: 0 <= i < 32 ==> dev.hash1[i] != 0) ==>
              '?' in c.url && R.Opened(R.After(c.url), ck.exp, ck.mod) == BigEndian(Spec.SHA256(c.body[..c.postlen]))
    ensures verified && Genuine(c, ck, d) ==> accepted
    ensures old(dev.Live(c)) && !dev.Faulty(old(dev.ops)) && Genuine(c, ck, d) ==> accepted
  {
    hide O.Harmless, O.Inactive, O.Stored, B.Streamed, B.Chop, B.Whole, Spec.Fold, Spec.SHA256, Checker.Scratch;
    hide Bigint.Valid, Bigint.Val, Arith.Foreign, BigEndian, R.Signed, R.SameText, O.MaxApp, O.SizeKb;
    accepted, v := false, R.NoSignature;
    close, verified := dev.Push(c);
    if !verified {
      return;
    }
    var verdict := ck.Check(c.url, dev.hash1[..]);
    accepted, v := verdict == R.Compared(true), verdict;
    if accepted {
      R.FoundGood(c.url, ck.exp, ck.mod, dev.hash1[..], ck.hash3[..]);
    }
    if Genuine(c, ck, d) {
      R.SignedPasses(v, c.url, ck.exp, ck.mod, d, dev.hash1[..], ck.hash3[..]);
    }
  }
}
