/** HMAC over any of the four hashes, as `hmac_sha2.c` streams it. */
module Hmac {
  import opened Bytes
  import opened Sha2Spec
  import opened Sha2

  function Mask(a: bv8, b: bv8): bv8 { a ^ b }

  function Xor(a: byte, b: byte): byte { Mask(a as bv8, b as bv8) as int }

  function XorAll(k: seq<byte>, c: byte): (r: seq<byte>)
    ensures |r| == |k|
  {
    seq(|k|, i requires 0 <= i < |k| => Xor(k[i], c))
  }

  /** RFC 2104, section 2, step (1): the key, hashed when longer than a block, filled up with zeros. */
  ghost function BlockKey<W(!new)>(f: Hash<W>, key: seq<byte>): (k: seq<byte>)
    requires ValidHash(f)
    ensures |k| == f.suite.blockBytes
  {
    DigestLength(f, key, 8 * |key|);
    var used := if |key| > f.suite.blockBytes then Digest(f, key) else key;
    used + Zeros(f.suite.blockBytes - |used|)
  }

  ghost function InnerPad<W(!new)>(f: Hash<W>, key: seq<byte>): (p: seq<byte>)
    requires ValidHash(f)
    ensures |p| == f.suite.blockBytes
  {
    XorAll(BlockKey(f, key), 0x36)
  }

  ghost function OuterPad<W(!new)>(f: Hash<W>, key: seq<byte>): (p: seq<byte>)
    requires ValidHash(f)
    ensures |p| == f.suite.blockBytes
  {
    XorAll(BlockKey(f, key), 0x5c)
  }

  /** RFC 2104, section 2: H(K XOR opad, H(K XOR ipad, text)). */
  ghost function HmacOf<W(!new)>(f: Hash<W>, key: seq<byte>, text: seq<byte>): seq<byte>
    requires ValidHash(f)
  {
    Digest(f, OuterPad(f, key) + Digest(f, InnerPad(f, key) + text))
  }

  lemma XorIs(a: byte, c: byte)
    ensures Xor(a, c) as bv8 == (a as bv8) ^ (c as bv8)
  {
    BackAndForth((a as bv8) ^ (c as bv8));
  }

  lemma BackAndForth(x: bv8)
    ensures (x as int) as bv8 == x
  {
  }

  lemma Successor(x: bv8)
    requires x as int < 255
    ensures (x + 1) as int == x as int + 1
  {
  }

  /** Every byte is the value of a bit vector. */
  lemma {:induction false} ValueOf(a: byte) returns (x: bv8)
    ensures x as int == a
  {
    if a == 0 {
      x := 0;
    } else {
      var y := ValueOf(a - 1);
      Successor(y);
      x := y + 1;
    }
  }

  lemma ForthAndBack(a: byte)
    ensures (a as bv8) as int == a
  {
    var x := ValueOf(a);
    BackAndForth(x);
  }

  lemma MaskTwice(x: bv8, c: bv8)
    ensures Mask(Mask(x, c), c) == x
  {
  }

  /** Masking twice with the same byte undoes it. */
  lemma XorTwice(a: byte, c: byte)
    ensures Xor(Xor(a, c), c) == a
  {
    hide Mask;
    BackAndForth(Mask(a as bv8, c as bv8));
    MaskTwice(a as bv8, c as bv8);
    ForthAndBack(a);
  }

  /** The two pads are the same key under two masks. */
  lemma PadsUnmask<W(!new)>(f: Hash<W>, key: seq<byte>)
    requires ValidHash(f)
    ensures XorAll(InnerPad(f, key), 0x36) == BlockKey(f, key) == XorAll(OuterPad(f, key), 0x5c)
  {
    hide Xor, BlockKey;
    var k := BlockKey(f, key);
    forall i | 0 <= i < |k| ensures Xor(Xor(k[i], 0x36), 0x36) == k[i] == Xor(Xor(k[i], 0x5c), 0x5c) {
      XorTwice(k[i], 0x36);
      XorTwice(k[i], 0x5c);
    }
    assert XorAll(XorAll(k, 0x36), 0x36) == k && XorAll(XorAll(k, 0x5c), 0x5c) == k;
  }

  /** RFC 2104, section 2, byte by byte: a key longer than a block is hashed, it is filled up with zeros to a
      block, each of its bytes is masked bit by bit with 0x36 and with 0x5c, and the two hashes are nested. */
  lemma Rfc2104<W(!new)>(f: Hash<W>, key: seq<byte>, text: seq<byte>) returns (k: seq<byte>, ipad: seq<byte>, opad: seq<byte>)
    requires ValidHash(f)
    ensures |k| == |ipad| == |opad| == f.suite.blockBytes
    ensures var used := if |key| > f.suite.blockBytes then Digest(f, key) else key;
            |used| <= |k| && k[..|used|] == used && forall i :: |used| <= i < |k| ==> k[i] == 0
    ensures forall i :: 0 <= i < |k| ==> ipad[i] as bv8 == (k[i] as bv8) ^ 0x36 && opad[i] as bv8 == (k[i] as bv8) ^ 0x5c
    ensures HmacOf(f, key, text) == Digest(f, opad + Digest(f, ipad + text))
  {
    k, ipad, opad := BlockKey(f, key), InnerPad(f, key), OuterPad(f, key);
    FilledUp(f, key);
    hide Xor, DigestWith, BlockKey, Digest;
    PadBits(k, 0x36);
    PadBits(k, 0x5c);
  }

  lemma FilledUp<W(!new)>(f: Hash<W>, key: seq<byte>)
    requires ValidHash(f)
    ensures var k, used := BlockKey(f, key), if |key| > f.suite.blockBytes then Digest(f, key) else key;
            |used| <= |k| && k[..|used|] == used && forall i :: |used| <= i < |k| ==> k[i] == 0
  {
    hide Digest;
    DigestLength(f, key, 8 * |key|);
  }

  lemma PadBits(k: seq<byte>, c: byte)
    ensures forall i :: 0 <= i < |k| ==> XorAll(k, c)[i] as bv8 == (k[i] as bv8) ^ (c as bv8)
  {
    hide Xor;
    forall i | 0 <= i < |k| ensures XorAll(k, c)[i] as bv8 == (k[i] as bv8) ^ (c as bv8) { XorIs(k[i], c); }
  }

  /** The pads of a short key are the key bytes masked, then the mask itself: XOR with zero. */
  lemma PadTail(used: seq<byte>, size: nat, c: byte, pad: seq<byte>)
    requires |used| <= size == |pad| && (c == 0x36 || c == 0x5c)
    requires pad[..|used|] == XorAll(used, c)
    requires forall i :: |used| <= i < size ==> pad[i] == c
    ensures pad == XorAll(used + Zeros(size - |used|), c)
  {
    XorZero();
    forall i | 0 <= i < size ensures pad[i] == XorAll(used + Zeros(size - |used|), c)[i] {
      if i < |used| { assert pad[i] == pad[..|used|][i]; }
    }
  }

  lemma XorZero()
    ensures Xor(0, 0x36) == 0x36 && Xor(0, 0x5c) == 0x5c
  {
  }

  lemma BlockLimit<W(!new)>(f: Hash<W>)
    requires ValidHash(f)
    ensures f.suite.blockBytes <= 128
  {
  }

  class Mac<W(0,!new)> {
    const hash: Hash<W>
    const inside: Context<W>
    const outside: Context<W>
    const insideSaved: Context<W>
    const outsideSaved: Context<W>
    const ipad: array<byte>
    const opad: array<byte>
    ghost var Key: seq<byte>
    ghost var Text: seq<byte>

    /** Four contexts of one hash that share no storage. */
    ghost predicate Shape() {
      && ValidHash(hash)
      && inside.hash == outside.hash == insideSaved.hash == outsideSaved.hash == hash
      && inside.Shape() && outside.Shape() && insideSaved.Shape() && outsideSaved.Shape()
      && ipad.Length == opad.Length == hash.suite.blockBytes
      && ipad != opad && Outside(inside) && Outside(outside) && Outside(insideSaved) && Outside(outsideSaved)
      && Apart(inside, outside) && Apart(inside, insideSaved) && Apart(inside, outsideSaved)
      && Apart(outside, insideSaved) && Apart(outside, outsideSaved) && Apart(insideSaved, outsideSaved)
    }

    static ghost predicate Apart(c: Context<W>, d: Context<W>) {
      && c != d && c.block != d.block && c.h != d.h
      && c.block as object != d.h as object && c.h as object != d.block as object
    }

    /** The pads are no part of a context. */
    ghost predicate Outside(c: Context<W>) {
      && ipad != c.block && opad != c.block
      && ipad as object != c.h as object && opad as object != c.h as object
    }

    ghost function Saved(): set<object> {
      {insideSaved, insideSaved.block, insideSaved.h, outsideSaved, outsideSaved.block, outsideSaved.h}
    }
    ghost function Working(): set<object> { {inside, inside.block, inside.h, outside, outside.block, outside.h} }

    /** The saved contexts have absorbed the two pads of `Key`. */
    ghost predicate Keyed()
      reads this, Saved()
    {
      && Shape()
      && insideSaved.Has(InnerPad(hash, Key))
      && outsideSaved.Has(OuterPad(hash, Key))
    }

    /** Keyed, and the working contexts have absorbed the pads and `Text`. */
    ghost predicate Valid()
      reads this, Saved(), Working()
    {
      && Keyed()
      && inside.Has(InnerPad(hash, Key) + Text)
      && outside.Has(OuterPad(hash, Key))
    }

    constructor (f: Hash<W>, unroll: bool)
      requires ValidHash(f)
      ensures Shape() && hash == f
      ensures fresh(ipad) && fresh(opad) && fresh(Saved()) && fresh(Working())
    {
      hash := f;
      inside := new Context(f, unroll);
      outside := new Context(f, unroll);
      insideSaved := new Context(f, unroll);
      outsideSaved := new Context(f, unroll);
      ipad := new byte[f.suite.blockBytes];
      opad := new byte[f.suite.blockBytes];
      Key, Text := [], [];
    }

    /** The key bytes that enter the pads: the key itself, or its digest when it is longer than a block. */
    method KeyUsed(key: seq<byte>) returns (used: seq<byte>)
      requires Shape() && |key| < 0x2000_0000
      ensures |used| <= hash.suite.blockBytes
      ensures BlockKey(hash, key) == used + Zeros(hash.suite.blockBytes - |used|)
    {
      hide DigestWith;
      DigestLength(hash, key, 8 * |key|);
      if |key| == hash.suite.blockBytes {
        used := key;
      } else if |key| > hash.suite.blockBytes {
        used := OneShot(hash, inside.unroll, key);
      } else {
        used := key;
      }
    }

    /** `memset` of the pads behind the key bytes; a key of a whole block leaves nothing to fill. */
    method FillRest(num: nat)
      requires Shape() && num <= hash.suite.blockBytes
      modifies ipad, opad
      ensures forall j :: num <= j < hash.suite.blockBytes ==> ipad[j] == 0x36 && opad[j] == 0x5c
    {
      if num != hash.suite.blockBytes {
        forall i | num <= i < hash.suite.blockBytes { ipad[i] := 0x36; }
        forall i | num <= i < hash.suite.blockBytes { opad[i] := 0x5c; }
      }
    }

    method FillPads(used: seq<byte>)
      requires Shape() && |used| <= hash.suite.blockBytes
      modifies ipad, opad
      ensures ipad[..] == XorAll(used + Zeros(hash.suite.blockBytes - |used|), 0x36)
      ensures opad[..] == XorAll(used + Zeros(hash.suite.blockBytes - |used|), 0x5c)
    {
      hide Xor, Context.Shape, ValidHash;
      FillRest(|used|);
      var i := 0;
      while i < |used|
        invariant 0 <= i <= |used|
        invariant ipad[..i] == XorAll(used[..i], 0x36) && opad[..i] == XorAll(used[..i], 0x5c)
        invariant forall j :: |used| <= j < ipad.Length ==> ipad[j] == 0x36 && opad[j] == 0x5c
      {
        ipad[i] := Xor(used[i], 0x36);
        opad[i] := Xor(used[i], 0x5c);
        i := i + 1;
      }
      assert used[..i] == used;
      PadTail(used, ipad.Length, 0x36, ipad[..]);
      PadTail(used, opad.Length, 0x5c, opad[..]);
    }

    /** `init` and one `update` by a whole block, on a fresh context. */
    method AbsorbPad(c: Context<W>, pad: seq<byte>)
      requires c.Shape() && |pad| < 0x8000_0000
      modifies c, c.block, c.h
      ensures c.Has(pad)
    {
      c.Init();
      c.Update(pad);
      assert [] + pad == pad;
    }

    method Save(dst: Context<W>, src: Context<W>, ghost m: seq<byte>)
      requires dst.Shape() && src.Has(m) && src.hash == dst.hash && Apart(dst, src)
      modifies dst, dst.block, dst.h
      ensures dst.Has(m)
    {
      dst.CopyFrom(src);
    }

    method Prepare(key: seq<byte>)
      requires Shape() && |key| < 0x2000_0000
      modifies ipad, opad
      ensures ipad[..] == InnerPad(hash, key) && opad[..] == OuterPad(hash, key)
    {
      hide XorAll, BlockKey, Context.Shape;
      var used := KeyUsed(key);
      FillPads(used);
    }

    /** The working contexts absorb the pads. */
    method Start(ghost inner: seq<byte>, ghost outer: seq<byte>)
      requires Shape() && ipad[..] == inner && opad[..] == outer
      modifies Working()
      ensures inside.Has(inner) && outside.Has(outer)
    {
      BlockLimit(hash);
      hide Context.Has, ValidHash;
      AbsorbPad(inside, ipad[..]);
      AbsorbPad(outside, opad[..]);
    }

    method SaveBoth(ghost inner: seq<byte>, ghost outer: seq<byte>)
      requires Shape() && inside.Has(inner) && outside.Has(outer)
      modifies Saved()
      ensures insideSaved.Has(inner) && outsideSaved.Has(outer) && inside.Has(inner) && outside.Has(outer)
    {
      hide Context.Has, ValidHash;
      Save(insideSaved, inside, inner);
      Save(outsideSaved, outside, outer);
    }

    lemma ShapeHash()
      requires Shape()
      ensures ValidHash(hash)
    {
    }

    method Init(key: seq<byte>)
      requires Shape() && |key| < 0x2000_0000
      modifies this, ipad, opad, Saved(), Working()
      ensures Valid() && Key == key && Text == []
    {
      hide Context.Has, Context.Shape, ValidHash, InnerPad, OuterPad, Mac.Shape;
      ShapeHash();
      Key, Text := key, [];
      assert InnerPad(hash, Key) + Text == InnerPad(hash, Key);
      Prepare(key);
      Start(InnerPad(hash, key), OuterPad(hash, key));
      SaveBoth(InnerPad(hash, key), OuterPad(hash, key));
    }

    /** Start over with the same key; the previous text may have been finished or not. */
    method Reinit()
      requires Keyed()
      modifies this, Working()
      ensures Valid() && Key == old(Key) && Text == []
    {
      hide Context.Has, Context.Shape, ValidHash, InnerPad, OuterPad;
      Save(inside, insideSaved, InnerPad(hash, Key));
      Save(outside, outsideSaved, OuterPad(hash, Key));
      Text := [];
      assert InnerPad(hash, Key) + Text == InnerPad(hash, Key);
    }

    method Append(c: Context<W>, ghost m: seq<byte>, data: seq<byte>)
      requires c.Has(m) && |data| < 0x8000_0000
      modifies c, c.block, c.h
      ensures c.Has(m + data)
    {
      c.Update(data);
    }

    method Update(message: seq<byte>)
      requires Valid() && |message| < 0x8000_0000
      modifies this, inside, inside.block, inside.h
      ensures Valid() && Key == old(Key) && Text == old(Text) + message
    {
      hide Context.Has, Context.Shape, ValidHash, InnerPad, OuterPad;
      Append(inside, InnerPad(hash, Key) + Text, message);
      Associative(InnerPad(hash, Key), Text, message);
      Text := Text + message;
    }

    method Finish(c: Context<W>, ghost m: seq<byte>) returns (digest: seq<byte>)
      requires c.Has(m) && |m| < 0x2000_0000
      modifies c, c.block, c.h
      ensures digest == Digest(c.hash, m)
      ensures |digest| == DigestBytes(c.hash) <= c.hash.suite.blockBytes
    {
      hide DigestWith, DigestBytes;
      digest := c.Final();
      DigestBelowLimit(c.hash, m);
      DigestLength(c.hash, m, 8 * |m|);
    }

    /** Finishing one context leaves another alone. */
    method FinishBeside(c: Context<W>, ghost m: seq<byte>, ghost d: Context<W>, ghost n: seq<byte>) returns (digest: seq<byte>)
      requires c.Has(m) && |m| < 0x2000_0000 && d.Has(n) && Apart(c, d)
      modifies c, c.block, c.h
      ensures digest == Digest(c.hash, m) && d.Has(n)
      ensures |digest| == DigestBytes(c.hash) <= c.hash.suite.blockBytes
    {
      hide Context.Has, Digest, DigestBytes;
      digest := Finish(c, m);
    }

    /** The inner digest, then the digest of the outer pad and the inner digest. */
    method FinishBoth(ghost inner: seq<byte>, ghost outer: seq<byte>) returns (digest: seq<byte>)
      requires Shape() && inside.Has(inner) && outside.Has(outer)
      requires |inner| < 0x2000_0000 && |outer| <= hash.suite.blockBytes
      modifies Working()
      ensures digest == Digest(hash, outer + Digest(hash, inner)) && |digest| == DigestBytes(hash)
    {
      BlockLimit(hash);
      hide Context.Has, ValidHash, Digest, DigestBytes;
      var digestInside := FinishBeside(inside, inner, outside, outer);
      hide Apart, Outside;
      Append(outside, outer, digestInside);
      digest := Finish(outside, outer + digestInside);
    }

    method Final(macSize: nat) returns (mac: seq<byte>)
      requires Valid() && macSize <= DigestBytes(hash)
      requires hash.suite.blockBytes + |Text| < 0x2000_0000
      modifies this, Working()
      ensures Keyed() && Key == old(Key)
      ensures |mac| == macSize && mac <= HmacOf(hash, Key, old(Text))
    {
      hide Context.Has, Context.Shape, ValidHash, Digest, DigestBytes, InnerPad, OuterPad;
      var macTemp := FinishBoth(InnerPad(hash, Key) + Text, OuterPad(hash, Key));
      mac := macTemp[..macSize];
    }
  }

  /** `hmac_sha256` and its siblings: the MAC of one message in one call. */
  method OneShotMac<W(0,!new)>(f: Hash<W>, unroll: bool, key: seq<byte>, message: seq<byte>, macSize: nat) returns (mac: seq<byte>)
    requires ValidHash(f) && macSize <= DigestBytes(f)
    requires |key| < 0x2000_0000 && f.suite.blockBytes + |message| < 0x2000_0000
    ensures |mac| == macSize && mac <= HmacOf(f, key, message)
  {
    hide HmacOf, DigestBytes;
    var ctx := new Mac(f, unroll);
    ctx.Init(key);
    ctx.Update(message);
    assert [] + message == message;
    mac := ctx.Final(macSize);
  }

  /** Any number of updates. */
  method UpdateAll<W(0,!new)>(ctx: Mac<W>, chunks: seq<seq<byte>>)
    requires ctx.Valid() && ctx.Text == [] && |Flatten(chunks)| < 0x2000_0000
    modifies ctx, ctx.inside, ctx.inside.block, ctx.inside.h
    ensures ctx.Valid() && ctx.Key == old(ctx.Key) && ctx.Text == Flatten(chunks)
  {
    hide Mac.Valid;
    var i := 0;
    while i < |chunks|
      invariant 0 <= i <= |chunks|
      invariant ctx.Valid() && ctx.Key == old(ctx.Key) && ctx.Text == Flatten(chunks[..i])
    {
      FlattenPrefix(chunks, i + 1);
      assert chunks[..i + 1][..i] == chunks[..i];
      ctx.Update(chunks[i]);
      i := i + 1;
    }
    assert chunks[..i] == chunks;
  }

  /** Every way of cutting two messages into update calls, with a `reinit` in between, gives the MAC of each
      under the same key. */
  method StreamedMac<W(0,!new)>(f: Hash<W>, unroll: bool, key: seq<byte>, chunks: seq<seq<byte>>, again: seq<seq<byte>>, macSize: nat)
    returns (mac: seq<byte>, second: seq<byte>)
    requires ValidHash(f) && macSize <= DigestBytes(f) && |key| < 0x2000_0000
    requires f.suite.blockBytes + |Flatten(chunks)| < 0x2000_0000 && f.suite.blockBytes + |Flatten(again)| < 0x2000_0000
    ensures |mac| == macSize && mac <= HmacOf(f, key, Flatten(chunks))
    ensures |second| == macSize && second <= HmacOf(f, key, Flatten(again))
  {
    hide HmacOf, DigestBytes, Mac.Valid, Mac.Keyed, Flatten;
    var ctx := new Mac(f, unroll);
    ctx.Init(key);
    UpdateAll(ctx, chunks);
    mac := ctx.Final(macSize);
    ctx.Reinit();
    UpdateAll(ctx, again);
    second := ctx.Final(macSize);
  }
}

/** The check of a multi-block RPMB read: one MAC over the signed part of every frame. */
module Rpmb {
  import opened Bytes
  import opened Sha2Spec
  import opened Sha2
  import opened Sha2Suites
  import opened Hmac

  /** The parts of a frame the check reads: the MAC field, and the 284 bytes from `data` to the end. */
  datatype Frame = Frame(keyMac: seq<byte>, signed: seq<byte>)

  const MAC_BYTES := 32
  const SIGNED_BYTES := 284

  ghost predicate WellSized(frames: seq<Frame>) {
    forall i :: 0 <= i < |frames| ==> |frames[i].keyMac| == MAC_BYTES && |frames[i].signed| == SIGNED_BYTES
  }

  function Signed(frames: seq<Frame>): (r: seq<byte>) {
    if frames == [] then [] else Signed(frames[..|frames| - 1]) + frames[|frames| - 1].signed
  }

  lemma {:induction false} SignedLength(frames: seq<Frame>)
    requires WellSized(frames)
    ensures |Signed(frames)| == SIGNED_BYTES * |frames|
  {
    if frames != [] { SignedLength(frames[..|frames| - 1]); }
  }

  /** The signed part of frame `i` is where `i` parts of 284 bytes end. */
  lemma {:induction false} SignedAt(frames: seq<Frame>, i: nat)
    requires WellSized(frames) && i < |frames|
    ensures 284 * i + 284 <= |Signed(frames)| && Signed(frames)[284 * i..284 * i + 284] == frames[i].signed
  {
    var l := |frames| - 1;
    SignedLength(frames);
    SignedLength(frames[..l]);
    if i < l {
      SignedAt(frames[..l], i);
      assert Signed(frames)[284 * i..284 * i + 284] == Signed(frames[..l])[284 * i..284 * i + 284];
    }
  }

  /** One update per frame. */
  method Feed(ctx: Mac<bv32>, frames: seq<Frame>)
    requires ctx.Valid() && ctx.Text == [] && WellSized(frames)
    modifies ctx, ctx.inside, ctx.inside.block, ctx.inside.h
    ensures ctx.Valid() && ctx.Key == old(ctx.Key) && ctx.Text == Signed(frames)
  {
    hide Mac.Valid, WellSized;
    var i := 0;
    while i < |frames|
      invariant 0 <= i <= |frames|
      invariant ctx.Valid() && ctx.Key == old(ctx.Key) && ctx.Text == Signed(frames[..i])
    {
      assert frames[..i + 1][..i] == frames[..i];
      SignedSize(frames, i);
      ctx.Update(frames[i].signed);
      i := i + 1;
    }
    assert frames[..i] == frames;
  }

  /** The data is accepted exactly when the last frame carries the RFC 2104 MAC, under the key, of
      all signed parts in order. The block count is a nonzero 16-bit number. */
  method Verify(frames: seq<Frame>, key: seq<byte>) returns (ok: bool)
    requires 0 < |frames| < 0x1_0000 && WellSized(frames) && |key| == 32
    ensures ok <==> frames[|frames| - 1].keyMac == HmacOf(Sha256(), key, Signed(frames))
  {
    FourHashes();
    MacLength(key, Signed(frames));
    SignedLength(frames);
    SignedSize(frames, |frames| - 1);
    BlockLimit(Sha256());
    hide ValidHash, HmacOf, Sha256, WellSized, DigestBytes, Signed, Mac.Valid, Mac.Shape, Mac.Keyed;
    var ctx := new Mac(Sha256(), false);
    ctx.Init(key);
    Feed(ctx, frames);
    var mac := ctx.Final(MAC_BYTES);
    ok := mac == frames[|frames| - 1].keyMac;
  }

  lemma SignedSize(frames: seq<Frame>, i: nat)
    requires WellSized(frames) && i < |frames|
    ensures |frames[i].signed| == SIGNED_BYTES && |frames[i].keyMac| == MAC_BYTES
  {
  }

  lemma MacLength(key: seq<byte>, text: seq<byte>)
    ensures ValidHash(Sha256()) && |HmacOf(Sha256(), key, text)| == MAC_BYTES
  {
    FourHashes();
    var m := OuterPad(Sha256(), key) + Digest(Sha256(), InnerPad(Sha256(), key) + text);
    DigestLength(Sha256(), m, 8 * |m|);
  }
}
