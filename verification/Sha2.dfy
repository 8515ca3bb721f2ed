/** The streaming SHA-2 code of `sha2.c`: a context updated in place by init, update and final. */
module Sha2 {
  import opened Bytes
  import opened Sha2Spec

  /** Words and registers agree: `wv[0..8]` are a..h in order. */
  ghost predicate Holds<W>(wv: seq<W>, r: Regs<W>) {
    |wv| == 8 && ToRegs(wv) == r
  }

  lemma NoRounds<W>(s: Suite<W>, wv: seq<W>, w: seq<W>)
    requires |wv| == 8 && |w| == |s.k|
    ensures Holds(wv, Rounds(s, ToRegs(wv), w, 0))
  {
  }

  lemma ScheduleStep<W(!new)>(s: Suite<W>, sub: seq<byte>, j: nat)
    requires ValidSuite(s) && |sub| == s.blockBytes && 16 <= j < |s.k|
    ensures ScheduleOf(s, sub)[j] == Mix(s, ScheduleOf(s, sub)[j - 2], ScheduleOf(s, sub)[j - 7],
                                         ScheduleOf(s, sub)[j - 15], ScheduleOf(s, sub)[j - 16])
  {
  }

  /** Where register `r` lives after `turn` rounds of an unrolled group of eight. */
  function Slot(r: nat, turn: nat): (i: nat)
    requires r < 8 && turn <= 8
    ensures i < 8
  {
    if r >= turn then r - turn else r + 8 - turn
  }

  /** The eight index arguments of a macro call name the registers where `turn` rounds left them. */
  ghost predicate Names(turn: nat, a: nat, b: nat, c: nat, d: nat, e: nat, f: nat, g: nat, h: nat)
    requires turn <= 8
  {
    && a == Slot(0, turn) && b == Slot(1, turn) && c == Slot(2, turn) && d == Slot(3, turn)
    && e == Slot(4, turn) && f == Slot(5, turn) && g == Slot(6, turn) && h == Slot(7, turn)
  }

  /** The registers after `turn` rounds of an unrolled group. */
  function View<W>(wv: seq<W>, turn: nat): Regs<W>
    requires |wv| == 8 && turn <= 8
  {
    Regs(wv[Slot(0, turn)], wv[Slot(1, turn)], wv[Slot(2, turn)], wv[Slot(3, turn)],
         wv[Slot(4, turn)], wv[Slot(5, turn)], wv[Slot(6, turn)], wv[Slot(7, turn)])
  }

  class Context<W(0,!new)> {
    const hash: Hash<W>
    /** The compile-time switch `UNROLL_LOOPS`. */
    const unroll: bool
    const block: array<byte>
    const h: array<W>
    var len: nat
    var totLen: nat
    /** The whole blocks fed to the compression function since the last initialisation. */
    ghost var Done: seq<byte>

    ghost predicate Shape() {
      && ValidHash(hash)
      && block.Length == 2 * hash.suite.blockBytes
      && h.Length == 8
    }

    /** `h` and `totLen` account for the blocks in `Done`. */
    ghost predicate Invariant()
      reads this, h
    {
      && Shape()
      && Whole(|Done|, hash.suite.blockBytes)
      && totLen == |Done| % U32
      && h[..] == Absorb(hash.suite, hash.iv, Done)
    }

    /** Between calls, less than a block is buffered. */
    ghost predicate Valid()
      reads this, h
    {
      Invariant() && len < hash.suite.blockBytes
    }

    /** The message so far. */
    ghost function Msg(): seq<byte>
      reads this, block
      requires len <= block.Length
    {
      Done + block[..len]
    }

    ghost predicate Ready(wv: array<W>, w: array<W>) {
      wv.Length == 8 && w.Length == |hash.suite.k| && wv != w
    }

    /** A context that has absorbed exactly `m`. */
    ghost predicate Has(m: seq<byte>)
      reads this, block, h
    {
      Valid() && Msg() == m
    }

    /** The storage of a context, before any initialisation. */
    constructor (f: Hash<W>, unroll: bool)
      requires ValidHash(f)
      ensures Shape() && hash == f && this.unroll == unroll && fresh(block) && fresh(h)
    {
      hash, this.unroll := f, unroll;
      block := new byte[2 * f.suite.blockBytes];
      h := new W[8];
      len, totLen, Done := 0, 0, [];
    }

    method Init()
      requires Shape()
      modifies this, h
      ensures Valid() && Msg() == []
    {
      var i := 0;
      while i < 8
        invariant 0 <= i <= 8
        invariant h[..i] == hash.iv[..i]
      {
        h[i] := hash.iv[i];
        i := i + 1;
      }
      assert h[..] == h[..8] && hash.iv[..8] == hash.iv;
      len := 0;
      totLen := 0;
      Done := [];
    }

    /** The `PACK` macro on word `j` of a block. */
    method PackWord(sub: seq<byte>, j: nat) returns (x: W)
      requires Shape() && |sub| == hash.suite.blockBytes && j < 16
      ensures x == MessageWord(hash.suite, sub, j)
    {
      x := hash.suite.pack(sub[j * hash.suite.wordBytes..][..hash.suite.wordBytes]);
    }

    /** The sixteen message words of a block. */
    method Load(sub: seq<byte>, w: array<W>)
      requires Shape() && |sub| == hash.suite.blockBytes && w.Length >= 16
      modifies w
      ensures forall t :: 0 <= t < 16 ==> w[t] == MessageWord(hash.suite, sub, t)
    {
      hide MessageWord;
      var s := hash.suite;
      var j := 0;
      while j < 16
        invariant 0 <= j <= 16
        invariant forall t :: 0 <= t < j ==> w[t] == MessageWord(s, sub, t)
      {
        w[j] := PackWord(sub, j);
        j := j + 1;
      }
    }

    /** The `SCR` macro. */
    method Screen(w: array<W>, j: nat)
      requires 16 <= j < w.Length
      modifies w
      ensures w[j] == Mix(hash.suite, old(w[j - 2]), old(w[j - 7]), old(w[j - 15]), old(w[j - 16]))
      ensures forall t :: 0 <= t < w.Length && t != j ==> w[t] == old(w[t])
    {
      var s := hash.suite;
      w[j] := s.add(s.add(s.add(s.sigma1(w[j - 2]), w[j - 7]), s.sigma0(w[j - 15])), w[j - 16]);
    }

    /** The message schedule of a block. */
    method Expand(sub: seq<byte>) returns (w: array<W>)
      requires Shape() && |sub| == hash.suite.blockBytes
      ensures fresh(w) && w[..] == ScheduleOf(hash.suite, sub)
    {
      var s := hash.suite;
      w := new W[|s.k|];
      Load(sub, w);
      var j := 16;
      while j < |s.k|
        invariant 16 <= j <= |s.k|
        invariant forall t :: 0 <= t < j ==> w[t] == ScheduleOf(s, sub)[t]
      {
        ScheduleStep(s, sub, j);
        Screen(w, j);
        j := j + 1;
      }
    }

    /** One round, registers shifted one place. */
    method Shift(wv: array<W>, k: W, w: W)
      requires wv.Length == 8
      modifies wv
      ensures Holds(wv[..], Round(hash.suite, old(ToRegs(wv[..])), k, w))
    {
      var s := hash.suite;
      var t1 := s.add(s.add(s.add(s.add(wv[7], s.sum1(wv[4])), s.ch(wv[4], wv[5], wv[6])), k), w);
      var t2 := s.add(s.sum0(wv[0]), s.maj(wv[0], wv[1], wv[2]));
      wv[7] := wv[6];
      wv[6] := wv[5];
      wv[5] := wv[4];
      wv[4] := s.add(wv[3], t1);
      wv[3] := wv[2];
      wv[2] := wv[1];
      wv[1] := wv[0];
      wv[0] := s.add(t1, t2);
    }

    /** The working variables start as the chaining value. */
    method LoadWorking() returns (wv: array<W>)
      requires Shape()
      ensures fresh(wv) && wv.Length == 8 && wv[..] == h[..]
    {
      wv := new W[8];
      var j := 0;
      while j < 8
        invariant 0 <= j <= 8
        invariant wv[..j] == h[..j]
      {
        wv[j] := h[j];
        j := j + 1;
      }
    }

    /** All rounds, the registers moved along after each. */
    method ShiftingRounds(wv: array<W>, w: array<W>)
      requires Ready(wv, w)
      modifies wv
      ensures Holds(wv[..], Rounds(hash.suite, old(ToRegs(wv[..])), w[..], |hash.suite.k|))
    {
      ghost var start := ToRegs(wv[..]);
      var j := 0;
      while j < |hash.suite.k|
        invariant 0 <= j <= |hash.suite.k|
        invariant Holds(wv[..], Rounds(hash.suite, start, w[..], j))
      {
        Shift(wv, hash.suite.k[j], w[j]);
        j := j + 1;
      }
    }

    /** The `EXP` macro: nothing is shifted, only the variables in the places of `d` and `h` change. */
    method Exp(wv: array<W>, a: nat, b: nat, c: nat, d: nat, e: nat, f: nat, g: nat, h: nat, k: W, w: W, ghost turn: nat)
      requires wv.Length == 8 && turn < 8
      requires Names(turn, a, b, c, d, e, f, g, h)
      modifies wv
      ensures View(wv[..], turn + 1) == Round(hash.suite, old(View(wv[..], turn)), k, w)
    {
      var s := hash.suite;
      var t1 := s.add(s.add(s.add(s.add(wv[h], s.sum1(wv[e])), s.ch(wv[e], wv[f], wv[g])), k), w);
      var t2 := s.add(s.sum0(wv[a]), s.maj(wv[a], wv[b], wv[c]));
      wv[d] := s.add(wv[d], t1);
      wv[h] := s.add(t1, t2);
    }

    /** Round `j` under the names of its place in the group. */
    method Turn(wv: array<W>, a: nat, b: nat, c: nat, d: nat, e: nat, f: nat, g: nat, h: nat, w: array<W>, j: nat,
                ghost turn: nat, ghost start: Regs<W>)
      requires Ready(wv, w) && turn < 8 && j < w.Length
      requires Names(turn, a, b, c, d, e, f, g, h)
      requires View(wv[..], turn) == Rounds(hash.suite, start, w[..], j)
      modifies wv
      ensures View(wv[..], turn + 1) == Rounds(hash.suite, start, w[..], j + 1)
    {
      Exp(wv, a, b, c, d, e, f, g, h, hash.suite.k[j], w[j], turn);
    }

    method FirstHalf(wv: array<W>, w: array<W>, j: nat, ghost start: Regs<W>)
      requires Ready(wv, w) && j + 4 <= w.Length
      requires View(wv[..], 0) == Rounds(hash.suite, start, w[..], j)
      modifies wv
      ensures View(wv[..], 4) == Rounds(hash.suite, start, w[..], j + 4)
    {
      hide Round, View;
      Turn(wv, 0, 1, 2, 3, 4, 5, 6, 7, w, j, 0, start);
      Turn(wv, 7, 0, 1, 2, 3, 4, 5, 6, w, j + 1, 1, start);
      Turn(wv, 6, 7, 0, 1, 2, 3, 4, 5, w, j + 2, 2, start);
      Turn(wv, 5, 6, 7, 0, 1, 2, 3, 4, w, j + 3, 3, start);
    }

    method SecondHalf(wv: array<W>, w: array<W>, j: nat, ghost start: Regs<W>)
      requires Ready(wv, w) && j + 4 <= w.Length
      requires View(wv[..], 4) == Rounds(hash.suite, start, w[..], j)
      modifies wv
      ensures View(wv[..], 8) == Rounds(hash.suite, start, w[..], j + 4)
    {
      hide Round, View;
      Turn(wv, 4, 5, 6, 7, 0, 1, 2, 3, w, j, 4, start);
      Turn(wv, 3, 4, 5, 6, 7, 0, 1, 2, w, j + 1, 5, start);
      Turn(wv, 2, 3, 4, 5, 6, 7, 0, 1, w, j + 2, 6, start);
      Turn(wv, 1, 2, 3, 4, 5, 6, 7, 0, w, j + 3, 7, start);
    }

    /** Eight rounds with rotating names, after which the names are back in place. */
    method Group(wv: array<W>, w: array<W>, j: nat, ghost start: Regs<W>)
      requires Ready(wv, w) && j + 8 <= w.Length
      requires Holds(wv[..], Rounds(hash.suite, start, w[..], j))
      modifies wv
      ensures Holds(wv[..], Rounds(hash.suite, start, w[..], j + 8))
    {
      FirstHalf(wv, w, j, start);
      SecondHalf(wv, w, j + 4, start);
    }

    /** All rounds in groups of eight, nothing moved. */
    method UnrolledRounds(wv: array<W>, w: array<W>)
      requires Ready(wv, w) && |hash.suite.k| == 8 * hash.suite.groups
      modifies wv
      ensures Holds(wv[..], Rounds(hash.suite, old(ToRegs(wv[..])), w[..], |hash.suite.k|))
    {
      NoRounds(hash.suite, wv[..], w[..]);
      hide Round, Rounds, Holds;
      ghost var start, q := ToRegs(wv[..]), hash.suite.groups;
      var j := 0;
      while j < |hash.suite.k|
        invariant 0 <= q && j + 8 * q == |hash.suite.k|
        invariant Holds(wv[..], Rounds(hash.suite, start, w[..], j))
        decreases q
      {
        Group(wv, w, j, start);
        j, q := j + 8, q - 1;
      }
    }

    method AddWorking(wv: array<W>)
      requires Shape() && wv.Length == 8 && wv != h
      modifies h
      ensures forall j :: 0 <= j < 8 ==> h[j] == hash.suite.add(old(h[j]), wv[j])
    {
      var j := 0;
      while j < 8
        invariant 0 <= j <= 8
        invariant forall t :: 0 <= t < j ==> h[t] == hash.suite.add(old(h[t]), wv[t])
        invariant forall t :: j <= t < 8 ==> h[t] == old(h[t])
      {
        h[j] := hash.suite.add(h[j], wv[j]);
        j := j + 1;
      }
    }

    /** The rounds as the build selects them. */
    method Working(sub: seq<byte>) returns (wv: array<W>)
      requires Shape() && |sub| == hash.suite.blockBytes
      ensures fresh(wv) && wv.Length == 8
      ensures Holds(wv[..], Rounds(hash.suite, ToRegs(h[..]), ScheduleOf(hash.suite, sub), |hash.suite.k|))
    {
      var w := Expand(sub);
      wv := LoadWorking();
      if unroll {
        UnrolledRounds(wv, w);
      } else {
        ShiftingRounds(wv, w);
      }
    }

    /** Feed one block to the chaining value. */
    method OneBlock(sub: seq<byte>)
      requires Shape() && |sub| == hash.suite.blockBytes
      modifies h
      ensures h[..] == Compress(hash.suite, old(h[..]), sub)
    {
      var wv := Working(sub);
      AddWorking(wv);
    }

    method Transf(message: seq<byte>, blockNb: nat)
      requires Shape() && blockNb * hash.suite.blockBytes <= |message|
      modifies h
      ensures h[..] == Absorb(hash.suite, old(h[..]), message[..blockNb * hash.suite.blockBytes])
    {
      hide Absorb, Compress;
      var b := hash.suite.blockBytes;
      ghost var all := message[..blockNb * b];
      ghost var at: nat := 0;
      var i := 0;
      while i < blockNb
        invariant 0 <= i <= blockNb && at == i * b <= |all|
        invariant Absorb(hash.suite, h[..], all[at..]) == Absorb(hash.suite, old(h[..]), all)
      {
        NextBlock(i, blockNb, b);
        var sub := message[i * b..][..b];
        Cut(message, blockNb * b, at, b);
        AbsorbStep(hash.suite, h[..], all[at..]);
        OneBlock(sub);
        i, at := i + 1, at + b;
      }
      AbsorbNothing(hash.suite, h[..], all[at..]);
    }

    /** `memcpy` of a whole context. */
    method CopyFrom(src: Context<W>)
      requires Shape() && src.Valid() && src.hash == hash
      requires src != this && src.block != block && src.h != h
      modifies this, block, h
      ensures Valid() && Msg() == src.Msg()
    {
      hide Absorb;
      forall i | 0 <= i < block.Length { block[i] := src.block[i]; }
      forall i | 0 <= i < 8 { h[i] := src.h[i]; }
      assert h[..] == src.h[..] && block[..] == src.block[..];
      assert block[..src.len] == block[..][..src.len] && src.block[..src.len] == src.block[..][..src.len];
      len, totLen, Done := src.len, src.totLen, src.Done;
    }

    /** `memcpy` into the block buffer at `at`. */
    method Copy(at: nat, data: seq<byte>)
      requires at + |data| <= block.Length
      modifies block
      ensures block[..] == old(block[..at]) + data + old(block[at + |data|..])
    {
      forall i | 0 <= i < |data| { block[at + i] := data[i]; }
    }

    /** Absorb `message`. From 2^31 bytes on, the byte offset of a block overflows the signed
        index of the block loop, so a single call takes less than that. */
    method Update(message: seq<byte>)
      requires Valid() && |message| < 0x8000_0000
      modifies this, block, h
      ensures Valid()
      ensures Msg() == old(Msg()) + message
    {
      hide Absorb;
      var b := hash.suite.blockBytes;
      var tmpLen := b - len;
      var remLen := if |message| < tmpLen then |message| else tmpLen;
      ghost var buffered := block[..len];
      Copy(len, message[..remLen]);
      assert block[..len + remLen] == buffered + message[..remLen];
      if len + |message| < b {
        len := len + |message|;
        Associative(Done, buffered, message);
      } else {
        AbsorbFull(message[remLen..]);
        Rejoin(old(Done), buffered, message, remLen);
      }
    }

    /** The rest of `update` once the buffer holds a whole block: compress it and every whole
        block of what follows, and keep the remainder. */
    method AbsorbFull(shifted: seq<byte>)
      requires Invariant() && |shifted| < 0x8000_0000
      modifies this, block, h
      ensures Valid()
      ensures Msg() == old(Done + block[..hash.suite.blockBytes]) + shifted
    {
      hide Absorb, Compress;
      var b := hash.suite.blockBytes;
      var blockNb, remLen, whole := DivMod(|shifted|, b);
      ghost var first := block[..b];
      Transf(block[..], 1);
      assert block[..][..1 * b] == first;
      Transf(shifted, blockNb);
      assert h[..] == Absorb(hash.suite, Absorb(hash.suite, old(h[..]), first), shifted[..whole]);
      AbsorbThree(hash, Done, first, shifted[..whole]);
      Copy(0, shifted[whole..]);
      len := remLen;
      assert block[..len] == shifted[whole..];
      SplitTail(Done, first, shifted, whole);
      ghost var blocks := Done + first + shifted[..whole];
      totLen := CountBlocks(|Done|, totLen, blockNb, b, whole, |blocks|);
      Done := blocks;
    }

    /** `memset`, the 0x80 byte and the 32-bit length at the end of the padding. */
    method Stamp(pmLen: nat, lenB: nat)
      requires len + 5 <= pmLen <= block.Length
      modifies block
      ensures block[..len] == old(block[..len]) && block[len] == 0x80
      ensures Cleared(block[..], len + 1, pmLen - 4)
      ensures block[pmLen - 4..pmLen] == BigEndian(lenB, 4)
    {
      forall i | len <= i < pmLen { block[i] := 0; }
      block[len] := 0x80;
      Copy(pmLen - 4, BigEndian(lenB, 4));
      assert forall i :: 0 <= i < pmLen - 4 ==> block[i] == block[..pmLen - 4][i];
    }

    /** Write the padding behind the buffered bytes; it takes one more block or two. */
    method WritePadding() returns (blockNb: nat, pmLen: nat)
      requires Valid()
      modifies block
      ensures pmLen == blockNb * hash.suite.blockBytes <= block.Length
      ensures Done + block[..pmLen] == PadWith(hash.suite, old(Msg()), (8 * |old(Msg())|) % U32)
    {
      hide Absorb, PadWith, BigEndian, ZeroCount;
      var b, field := hash.suite.blockBytes, hash.suite.lenBytes;
      ghost var rest, size := block[..len], |Msg()|;
      blockNb := 1 + if b - (field + 1) < Rem(len, b) then 1 else 0;
      var lenB := BitCount(totLen, len, |Done|, size);
      PaddingSize(hash.suite, |Done|, len, size, blockNb);
      pmLen := blockNb * b;
      Stamp(pmLen, lenB);
      BigEndianWiden(lenB, field);
      PaddingBytes(hash.suite, Done, rest, size, lenB, block[..], pmLen);
    }

    /** The kept words of the chaining value, most significant byte first. */
    method Emit() returns (digest: seq<byte>)
      requires Shape()
      ensures digest == Output(hash.suite, h[..][..hash.digestWords])
    {
      digest := [];
      var i := 0;
      while i < hash.digestWords
        invariant 0 <= i <= hash.digestWords
        invariant digest == Output(hash.suite, h[..i])
      {
        assert h[..i + 1][..i] == h[..i];
        digest := digest + hash.suite.unpack(h[i]);
        i := i + 1;
      }
      assert h[..i] == h[..][..i];
    }

    /** The digest as `final` computes it: the length field holds the bit count modulo 2^32. */
    method Final() returns (digest: seq<byte>)
      requires Valid()
      modifies this, block, h
      ensures Shape()
      ensures digest == DigestWith(hash, old(Msg()), (8 * |old(Msg())|) % U32)
    {
      hide Absorb, Compress, Pad, PadWith;
      ghost var m := Msg();
      var blockNb, pmLen := WritePadding();
      AbsorbConcat(hash.suite, hash.iv, Done, block[..pmLen]);
      assert block[..][..blockNb * hash.suite.blockBytes] == block[..pmLen];
      Transf(block[..], blockNb);
      assert h[..] == Absorb(hash.suite, hash.iv, PadWith(hash.suite, m, (8 * |m|) % U32));
      digest := Emit();
    }
  }

  /** `sha256` and its siblings: the digest of a message in one call. */
  method OneShot<W(0,!new)>(f: Hash<W>, unroll: bool, message: seq<byte>) returns (digest: seq<byte>)
    requires ValidHash(f) && |message| < 0x2000_0000
    ensures digest == Digest(f, message)
  {
    var ctx := new Context(f, unroll);
    ctx.Init();
    ctx.Update(message);
    assert ctx.Msg() == message;
    digest := ctx.Final();
    DigestBelowLimit(f, message);
  }

  function Flatten(chunks: seq<seq<byte>>): seq<byte> {
    if chunks == [] then [] else Flatten(chunks[..|chunks| - 1]) + chunks[|chunks| - 1]
  }

  lemma {:induction false} FlattenPrefix(chunks: seq<seq<byte>>, i: nat)
    requires i <= |chunks|
    ensures |Flatten(chunks[..i])| <= |Flatten(chunks)|
  {
    if i < |chunks| {
      assert chunks[..|chunks| - 1][..i] == chunks[..i];
      FlattenPrefix(chunks[..|chunks| - 1], i);
    } else {
      assert chunks[..i] == chunks;
    }
  }

  /** Every way of cutting a message of less than 2^29 bytes into update calls gives its FIPS digest. */
  method Streamed<W(0,!new)>(f: Hash<W>, unroll: bool, chunks: seq<seq<byte>>) returns (digest: seq<byte>)
    requires ValidHash(f) && |Flatten(chunks)| < 0x2000_0000
    ensures digest == Digest(f, Flatten(chunks))
  {
    hide Absorb, PadWith, DigestWith, Digest;
    var ctx := new Context(f, unroll);
    ctx.Init();
    var i := 0;
    while i < |chunks|
      invariant 0 <= i <= |chunks|
      invariant ctx.Valid() && ctx.hash == f && fresh(ctx) && fresh(ctx.block) && fresh(ctx.h)
      invariant ctx.Msg() == Flatten(chunks[..i])
    {
      FlattenPrefix(chunks, i + 1);
      assert chunks[..i + 1][..i] == chunks[..i];
      ctx.Update(chunks[i]);
      i := i + 1;
    }
    assert chunks[..i] == chunks;
    digest := ctx.Final();
    DigestBelowLimit(f, Flatten(chunks));
  }

  /** The 32-bit length the code writes gives FIPS 180-2 padding for messages of less than 2^29
      bytes and for no longer ones the standard allows. */
  lemma PaddingIsStandardIff<W(!new)>(s: Suite<W>, m: seq<byte>)
    requires ValidSuite(s) && 8 * |m| < Pow256(s.lenBytes)
    ensures PadWith(s, m, (8 * |m|) % U32) == Pad(s, m) <==> |m| < 0x2000_0000
  {
    hide BigEndian, Pow256, ZeroCount, Zeros;
    var bits, low := 8 * |m|, (8 * |m|) % U32;
    var head := m + [0x80] + Zeros(ZeroCount(s, |m|));
    SameTail(head, BigEndian(low, s.lenBytes), BigEndian(bits, s.lenBytes));
    if BigEndian(low, s.lenBytes) == BigEndian(bits, s.lenBytes) {
      BigEndianInjective(bits, low, s.lenBytes);
    }
  }

  lemma SameTail(head: seq<byte>, a: seq<byte>, b: seq<byte>)
    ensures head + a == head + b <==> a == b
  {
    if head + a == head + b {
      assert a == (head + a)[|head|..] && b == (head + b)[|head|..];
    }
  }

  lemma DigestBelowLimit<W(!new)>(f: Hash<W>, m: seq<byte>)
    requires ValidHash(f) && |m| < 0x2000_0000
    ensures DigestWith(f, m, (8 * |m|) % U32) == Digest(f, m)
  {
    assert (8 * |m|) % U32 == 8 * |m|;
  }

  ghost predicate Cleared(buf: seq<byte>, from: nat, to: nat)
    requires to <= |buf|
  {
    forall i :: from <= i < to ==> buf[i] == 0
  }

  function Rem(n: nat, b: nat): nat
    requires b > 0
  {
    n % b
  }

  /** `(tot_len + len) << 3` on 32-bit unsigned values is the bit count modulo 2^32. */
  method BitCount(tot: nat, len: nat, ghost done: nat, ghost size: nat) returns (lenB: nat)
    requires tot == done % U32 && size == done + len
    ensures lenB == (8 * size) % U32
  {
    lenB := ((tot + len) % U32 * 8) % U32;
    ModSum(done, len);
    var q, r := size / U32, size % U32;
    ModShift(8 * q, 8 * r);
  }

  lemma ModShift(q: nat, x: nat)
    ensures (U32 * q + x) % U32 == x % U32
  {
    RemainderOf(U32, q + x / U32, x % U32);
  }

  lemma ModSum(m: nat, n: nat)
    ensures (m % U32 + n) % U32 == (m + n) % U32
  {
    ModShift(m / U32, m % U32 + n);
  }

  /** Buffering `len` bytes behind whole blocks, one block takes the padding when the 0x80 byte and
      the length field fit behind them, and two blocks do otherwise. */
  lemma PaddingSize<W(!new)>(s: Suite<W>, done: nat, len: nat, size: nat, q: nat)
    requires size == done + len
    requires ValidSuite(s) && Whole(done, s.blockBytes) && len < s.blockBytes
    requires q == 1 + if s.blockBytes - (s.lenBytes + 1) < Rem(len, s.blockBytes) then 1 else 0
    ensures len + 1 + ZeroCount(s, size) + s.lenBytes == q * s.blockBytes <= 2 * s.blockBytes
  {
    var b := s.blockBytes;
    WholeIsMod(done, b);
    assert done == b * (done / b);
    RemainderOf(b, done / b, len);
    RemainderOf(b, 0, len);
  }

  /** The padded buffer, byte for byte. */
  lemma PaddingBytes<W(!new)>(s: Suite<W>, done: seq<byte>, rest: seq<byte>, size: nat, bits: nat, buf: seq<byte>, pm: nat)
    requires ValidSuite(s) && size == |done + rest|
    requires |rest| + 1 + ZeroCount(s, size) + s.lenBytes == pm <= |buf|
    requires BigEndian(bits, s.lenBytes) == Zeros(s.lenBytes - 4) + BigEndian(bits, 4)
    requires buf[..|rest|] == rest && buf[|rest|] == 0x80 && buf[pm - 4..pm] == BigEndian(bits, 4)
    requires Cleared(buf, |rest| + 1, pm - 4)
    ensures done + buf[..pm] == PadWith(s, done + rest, bits)
  {
    hide ZeroCount, BigEndian;
    var z := ZeroCount(s, size);
    assert buf[..pm] == rest + [0x80] + Zeros(z) + (Zeros(s.lenBytes - 4) + BigEndian(bits, 4));
  }

  /** `n / b` and `n % b`, and the offset `n / b` whole blocks into the data. */
  method DivMod(n: nat, b: nat) returns (q: nat, r: nat, whole: nat)
    requires b > 0
    ensures q * b == whole && whole + r == n && r < b
  {
    q, r := n / b, n % b;
    whole := q * b;
  }

  lemma Associative(x: seq<byte>, y: seq<byte>, z: seq<byte>)
    ensures x + (y + z) == x + y + z
  {
  }

  lemma Rejoin(x: seq<byte>, y: seq<byte>, z: seq<byte>, k: nat)
    requires k <= |z|
    ensures x + (y + z[..k]) + z[k..] == x + y + z
  {
  }

  lemma SplitTail(x: seq<byte>, y: seq<byte>, z: seq<byte>, k: nat)
    requires k <= |z|
    ensures x + y + z[..k] + z[k..] == x + y + z
  {
  }

  /** Add the `q` whole blocks and the buffered one to a byte count kept modulo 2^32. */
  method CountBlocks(ghost n: nat, tot: nat, q: nat, b: nat, whole: nat, ghost sum: nat) returns (r: nat)
    requires b > 0 && Whole(n, b) && whole == q * b && tot == n % U32
    requires sum == n + b + whole
    ensures Whole(sum, b)
    ensures r == sum % U32
  {
    WholeSum(n, b, b);
    WholeMultiple(q, b);
    WholeSum(n + b, whole, b);
    ModSum(n, whole + b);
    r := (tot + (whole + b)) % U32;
  }

  /** Absorbing piece by piece is absorbing the whole. */
  lemma AbsorbThree<W(!new)>(f: Hash<W>, x: seq<byte>, y: seq<byte>, z: seq<byte>)
    requires ValidHash(f)
    requires Whole(|x|, f.suite.blockBytes) && |y| == f.suite.blockBytes
    ensures Absorb(f.suite, Absorb(f.suite, Absorb(f.suite, f.iv, x), y), z) == Absorb(f.suite, f.iv, x + y + z)
  {
    hide Absorb, Compress;
    AbsorbConcat(f.suite, f.iv, x, y);
    WholeSum(|x|, |y|, f.suite.blockBytes);
    AbsorbConcat(f.suite, f.iv, x + y, z);
  }

  lemma AbsorbStep<W>(s: Suite<W>, h: seq<W>, data: seq<byte>)
    requires s.wordBytes > 0 && |data| >= s.blockBytes == 16 * s.wordBytes && |h| == 8
    ensures Absorb(s, h, data) == Absorb(s, Compress(s, h, data[..s.blockBytes]), data[s.blockBytes..])
  {
  }

  lemma AbsorbNothing<W>(s: Suite<W>, h: seq<W>, data: seq<byte>)
    requires s.wordBytes > 0 && s.blockBytes == 16 * s.wordBytes && |h| == 8 && data == []
    ensures Absorb(s, h, data) == h
  {
  }

  lemma Cut(message: seq<byte>, n: nat, at: nat, b: nat)
    requires at + b <= n <= |message|
    ensures message[at..][..b] == message[..n][at..][..b] && message[..n][at..][b..] == message[..n][at + b..]
  {
  }

  lemma NextBlock(i: nat, n: nat, b: nat)
    requires i < n
    ensures i * b + b == (i + 1) * b <= n * b
  {
    ProductAtMost(i + 1, n, b);
  }
}
