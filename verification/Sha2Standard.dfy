/** The definitions of Sha2Spec unfolded into what FIPS 180-2 says of every word and every byte: padding,
    schedule, rounds and output, without the functions that define them. */
module Sha2Standard {
  import opened Bytes
  import opened Sha2Spec
  import opened Sha2Suites

  // ---- one block ----

  /** Word `t` of the message schedule: sixteen words of the block, and then a sum of four earlier words. */
  ghost predicate IsScheduleWord<W>(s: Suite<W>, block: seq<byte>, w: seq<W>, t: nat)
    requires |block| == 16 * s.wordBytes && t < |w|
  {
    && (t < 16 ==> w[t] == s.pack(block[t * s.wordBytes..][..s.wordBytes]))
    && (t >= 16 ==> w[t] == s.add(s.add(s.add(s.sigma1(w[t - 2]), w[t - 7]), s.sigma0(w[t - 15])), w[t - 16]))
  }

  ghost predicate IsSchedule<W>(s: Suite<W>, block: seq<byte>, w: seq<W>)
    requires |block| == 16 * s.wordBytes
  {
    |w| == |s.k| && forall t :: 0 <= t < |w| ==> IsScheduleWord(s, block, w, t)
  }

  /** The sum that enters both new words of a round, from the last four words of the second chain. */
  ghost function T1<W>(s: Suite<W>, e: seq<W>, w: seq<W>, t: nat): W
    requires t < |w| == |s.k| && t + 4 <= |e|
  {
    s.add(s.add(s.add(s.add(e[t], s.sum1(e[t + 3])), s.ch(e[t + 3], e[t + 2], e[t + 1])), s.k[t]), w[t])
  }

  /** Round `t` as the two words it adds. */
  ghost predicate IsRound<W>(s: Suite<W>, w: seq<W>, a: seq<W>, e: seq<W>, t: nat)
    requires t < |w| == |s.k| && t + 4 < |a| == |e|
  {
    && a[t + 4] == s.add(T1(s, e, w, t), s.add(s.sum0(a[t + 3]), s.maj(a[t + 3], a[t + 2], a[t + 1])))
    && e[t + 4] == s.add(a[t], T1(s, e, w, t))
  }

  /** The rounds as two chains of words, since all registers but two only move along: the first chain holds
      what passes through `a`, `b`, `c` and `d`, the second what passes through `e` to `h`. */
  ghost predicate IsRounds<W>(s: Suite<W>, h: seq<W>, w: seq<W>, a: seq<W>, e: seq<W>, n: nat)
    requires |h| == 8 && n <= |w| == |s.k|
  {
    && |a| == |e| == n + 4
    && a[..4] == [h[3], h[2], h[1], h[0]] && e[..4] == [h[7], h[6], h[5], h[4]]
    && forall t :: 0 <= t < n ==> IsRound(s, w, a, e, t)
  }

  lemma ScheduleWord<W(!new)>(s: Suite<W>, block: seq<byte>, t: nat)
    requires ValidSuite(s) && |block| == s.blockBytes && t < |s.k|
    ensures IsScheduleWord(s, block, ScheduleOf(s, block), t)
  {
  }

  lemma ScheduleIs<W(!new)>(s: Suite<W>, block: seq<byte>)
    requires ValidSuite(s) && |block| == s.blockBytes
    ensures IsSchedule(s, block, ScheduleOf(s, block))
  {
    hide ScheduleOf, IsScheduleWord;
    forall t | 0 <= t < |s.k| ensures IsScheduleWord(s, block, ScheduleOf(s, block), t) { ScheduleWord(s, block, t); }
  }

  /** The registers in the chains after `n` rounds. */
  function Last4<W>(a: seq<W>, e: seq<W>): Regs<W>
    requires |a| == |e| >= 4
  {
    var n := |a|;
    Regs(a[n - 1], a[n - 2], a[n - 3], a[n - 4], e[n - 1], e[n - 2], e[n - 3], e[n - 4])
  }

  lemma OneMore<W(!new)>(s: Suite<W>, w: seq<W>, b: seq<W>, f: seq<W>, t: nat) returns (a: seq<W>, e: seq<W>)
    requires t < |w| == |s.k| && |b| == |f| == t + 4
    ensures |a| == |e| == t + 5 && b <= a && f <= e
    ensures Last4(a, e) == Round(s, Last4(b, f), s.k[t], w[t]) && IsRound(s, w, a, e, t)
  {
    var r := Round(s, Last4(b, f), s.k[t], w[t]);
    a, e := b + [r.a], f + [r.e];
  }

  lemma StillRound<W(!new)>(s: Suite<W>, w: seq<W>, b: seq<W>, f: seq<W>, a: seq<W>, e: seq<W>, t: nat)
    requires t < |w| == |s.k| && t + 4 < |b| == |f| < |a| == |e| && b <= a && f <= e && IsRound(s, w, b, f, t)
    ensures IsRound(s, w, a, e, t)
  {
  }

  lemma {:induction false} RoundsAre<W(!new)>(s: Suite<W>, h: seq<W>, w: seq<W>, n: nat) returns (a: seq<W>, e: seq<W>)
    requires |h| == 8 && n <= |w| == |s.k|
    ensures |a| == |e| == n + 4 && IsRounds(s, h, w, a, e, n)
    ensures Rounds(s, ToRegs(h), w, n) == Last4(a, e)
  {
    hide IsRound, Round, Last4;
    if n == 0 {
      a, e := [h[3], h[2], h[1], h[0]], [h[7], h[6], h[5], h[4]];
      FirstRegisters(h);
    } else {
      var b, f := RoundsAre(s, h, w, n - 1);
      a, e := OneMore(s, w, b, f, n - 1);
      forall t | 0 <= t < n - 1 ensures IsRound(s, w, a, e, t) { StillRound(s, w, b, f, a, e, t); }
    }
  }

  lemma FirstRegisters<W(!new)>(h: seq<W>)
    requires |h| == 8
    ensures Last4([h[3], h[2], h[1], h[0]], [h[7], h[6], h[5], h[4]]) == ToRegs(h)
  {
  }

  /** The chaining value with the last four words of both chains added. */
  function Added<W>(s: Suite<W>, h: seq<W>, a: seq<W>, e: seq<W>): seq<W>
    requires |h| == 8 && |a| == |e| >= 4
  {
    var n := |a|;
    [s.add(h[0], a[n - 1]), s.add(h[1], a[n - 2]), s.add(h[2], a[n - 3]), s.add(h[3], a[n - 4]),
     s.add(h[4], e[n - 1]), s.add(h[5], e[n - 2]), s.add(h[6], e[n - 3]), s.add(h[7], e[n - 4])]
  }

  lemma CompressAdds<W>(s: Suite<W>, h: seq<W>, block: seq<byte>, a: seq<W>, e: seq<W>)
    requires |h| == 8 && |block| == s.blockBytes == 16 * s.wordBytes && |a| == |e| >= 4
    requires Rounds(s, ToRegs(h), ScheduleOf(s, block), |s.k|) == Last4(a, e)
    ensures Compress(s, h, block) == Added(s, h, a, e)
  {
    hide Rounds, ScheduleOf, ToRegs;
  }

  lemma SizesOf<W(!new)>(s: Suite<W>)
    requires ValidSuite(s)
    ensures s.blockBytes == 16 * s.wordBytes
  {
  }

  /** Compressing a block, sections 6.2.2 and 6.3.2: the chaining value and the last four words of the two
      chains are added. */
  lemma CompressIs<W(!new)>(s: Suite<W>, h: seq<W>, block: seq<byte>) returns (w: seq<W>, a: seq<W>, e: seq<W>)
    requires ValidSuite(s) && |h| == 8 && |block| == s.blockBytes
    ensures IsSchedule(s, block, w) && |w| == |s.k|
    ensures IsRounds(s, h, w, a, e, |s.k|) && |a| == |e| == |s.k| + 4
    ensures Compress(s, h, block) == Added(s, h, a, e)
  {
    SizesOf(s);
    hide Rounds, IsRounds, IsSchedule, ScheduleOf, ToRegs, Last4, Compress, Added, ValidSuite;
    w := ScheduleOf(s, block);
    ScheduleIs(s, block);
    a, e := RoundsAre(s, h, w, |s.k|);
    CompressAdds(s, h, block, a, e);
  }

  // ---- a whole message ----

  function Concat(blocks: seq<seq<byte>>): seq<byte> {
    if blocks == [] then [] else blocks[0] + Concat(blocks[1..])
  }

  /** A chaining value for each block, and one before the first. */
  lemma {:induction false} AbsorbIs<W(!new)>(s: Suite<W>, h: seq<W>, blocks: seq<seq<byte>>) returns (hs: seq<seq<W>>)
    requires ValidSuite(s) && |h| == 8 && forall i :: 0 <= i < |blocks| ==> |blocks[i]| == s.blockBytes
    ensures |hs| == |blocks| + 1 && hs[0] == h && Absorb(s, h, Concat(blocks)) == hs[|blocks|]
    ensures forall i :: 0 <= i <= |blocks| ==> |hs[i]| == 8
    ensures forall i :: 0 <= i < |blocks| ==> hs[i + 1] == Compress(s, hs[i], blocks[i])
    decreases |blocks|
  {
    hide Compress;
    if blocks == [] {
      hs := [h];
    } else {
      var data := Concat(blocks);
      assert data[..s.blockBytes] == blocks[0] && data[s.blockBytes..] == Concat(blocks[1..]);
      var rest := AbsorbIs(s, Compress(s, h, blocks[0]), blocks[1..]);
      hs := [h] + rest;
    }
  }

  /** Padded, a message is followed by a one bit, by zeros to the fewest whole blocks that have room for the
      length field, and by its own length in bits in that field. */
  ghost predicate IsPadded<W>(s: Suite<W>, m: seq<byte>, p: seq<byte>) {
    && s.blockBytes > 0 && |p| % s.blockBytes == 0 && |m| + 1 + s.lenBytes <= |p| < |m| + 1 + s.lenBytes + s.blockBytes
    && p[..|m|] == m && p[|m|] == 0x80
    && (forall i :: |m| < i < |p| - s.lenBytes ==> p[i] == 0)
    && FromBigEndian(p[|p| - s.lenBytes..]) == 8 * |m|
  }

  lemma PartsOfPadding(m: seq<byte>, z: nat, field: seq<byte>, p: seq<byte>)
    requires p == m + [0x80] + Zeros(z) + field
    ensures |p| == |m| + 1 + z + |field|
    ensures p[..|m|] == m && p[|m|] == 0x80 && p[|p| - |field|..] == field
    ensures forall i :: |m| < i < |p| - |field| ==> p[i] == 0
  {
  }

  lemma PadIs<W(!new)>(s: Suite<W>, m: seq<byte>)
    requires ValidSuite(s) && 8 * |m| < Pow256(s.lenBytes)
    ensures IsPadded(s, m, Pad(s, m))
  {
    ZeroCountIsLeast(s, |m|, 0);
    BigEndianRoundTrip(8 * |m|, s.lenBytes);
    var z := ZeroCount(s, |m|);
    PartsOfPadding(m, z, BigEndian(8 * |m|, s.lenBytes), Pad(s, m));
    assert z < s.blockBytes;
    hide ZeroCount, BigEndian, FromBigEndian, Pow256, Pad, ValidSuite;
  }

  /** Whole blocks of data, cut apart. */
  lemma {:induction false} Cut(data: seq<byte>, b: nat) returns (blocks: seq<seq<byte>>)
    requires b > 0 && Whole(|data|, b)
    ensures Concat(blocks) == data && forall i :: 0 <= i < |blocks| ==> |blocks[i]| == b
    decreases |data|
  {
    if data == [] {
      blocks := [];
    } else {
      var rest := Cut(data[b..], b);
      blocks := [data[..b]] + rest;
      assert blocks[1..] == rest;
    }
  }

  lemma {:induction false} ConcatLast(parts: seq<seq<byte>>, last: seq<byte>)
    ensures Concat(parts + [last]) == Concat(parts) + last
  {
    if parts == [] {
      assert [last][1..] == [] && parts + [last] == [last];
    } else {
      assert (parts + [last])[1..] == parts[1..] + [last];
      ConcatLast(parts[1..], last);
    }
  }

  /** The output is the words one after another. */
  lemma {:induction false} OutputIs<W(!new)>(s: Suite<W>, h: seq<W>) returns (parts: seq<seq<byte>>)
    ensures |parts| == |h| && Output(s, h) == Concat(parts) && forall i :: 0 <= i < |h| ==> parts[i] == s.unpack(h[i])
  {
    if h == [] {
      parts := [];
    } else {
      var l := |h| - 1;
      var front := OutputIs(s, h[..l]);
      ConcatLast(front, s.unpack(h[l]));
      parts := front + [s.unpack(h[l])];
    }
  }

  /** A digest: the padded message is cut into blocks, they are compressed one after another into the initial
      value, and words of the last value are written out. */
  lemma DigestIs<W(!new)>(f: Hash<W>, m: seq<byte>) returns (blocks: seq<seq<byte>>, hs: seq<seq<W>>, parts: seq<seq<byte>>)
    requires ValidHash(f) && 8 * |m| < Pow256(f.suite.lenBytes)
    ensures IsPadded(f.suite, m, Concat(blocks))
    ensures forall i :: 0 <= i < |blocks| ==> |blocks[i]| == f.suite.blockBytes
    ensures |hs| == |blocks| + 1 && hs[0] == f.iv
    ensures forall i :: 0 <= i <= |blocks| ==> |hs[i]| == 8
    ensures forall i :: 0 <= i < |blocks| ==> hs[i + 1] == Compress(f.suite, hs[i], blocks[i])
    ensures |parts| == f.digestWords <= 8 && Digest(f, m) == Concat(parts)
    ensures forall i :: 0 <= i < |parts| ==> parts[i] == f.suite.unpack(hs[|blocks|][i])
  {
    hide Compress, IsPadded, Concat, Absorb, Output;
    PadIs(f.suite, m);
    PaddedWhole(f.suite, m);
    blocks := Cut(Pad(f.suite, m), f.suite.blockBytes);
    hs := AbsorbIs(f.suite, f.iv, blocks);
    parts := OutputIs(f.suite, hs[|blocks|][..f.digestWords]);
  }

  lemma PaddedWhole<W(!new)>(s: Suite<W>, m: seq<byte>)
    requires ValidSuite(s) && IsPadded(s, m, Pad(s, m))
    ensures Whole(|Pad(s, m)|, s.blockBytes)
  {
    WholeIsMod(|Pad(s, m)|, s.blockBytes);
  }

  // ---- the two families ----

  lemma ScheduleWord32(block: seq<byte>, w: seq<bv32>, t: nat)
    requires |block| == 64 && t < |w| && IsScheduleWord(Suite32(), block, w, t)
    ensures t < 16 ==> w[t] == Pack32(block[4 * t..4 * t + 4])
    ensures t >= 16 ==> w[t] == Add32(Add32(Add32(Sigma1x32(w[t - 2]), w[t - 7]), Sigma0x32(w[t - 15])), w[t - 16])
  {
    hide Add32, Sigma0x32, Sigma1x32, Pack32;
    if t < 16 { assert block[t * 4..][..4] == block[4 * t..4 * t + 4]; }
  }

  /** A round of SHA-224 and SHA-256 in the words of section 6.2.2. */
  lemma Round32(w: seq<bv32>, a: seq<bv32>, e: seq<bv32>, t: nat)
    requires t < |w| == |K256| && t + 4 < |a| == |e| && IsRound(Suite32(), w, a, e, t)
    ensures var t1 := Add32(Add32(Add32(Add32(e[t], Sum1x32(e[t + 3])), Ch32(e[t + 3], e[t + 2], e[t + 1])), K256[t]), w[t]);
            var t2 := Add32(Sum0x32(a[t + 3]), Maj32(a[t + 3], a[t + 2], a[t + 1]));
            a[t + 4] == Add32(t1, t2) && e[t + 4] == Add32(a[t], t1)
  {
    hide Add32, Sum0x32, Sum1x32, Ch32, Maj32, K256;
  }

  lemma ScheduleWord64(block: seq<byte>, w: seq<bv64>, t: nat)
    requires |block| == 128 && t < |w| && IsScheduleWord(Suite64(), block, w, t)
    ensures t < 16 ==> w[t] == Pack64(block[8 * t..8 * t + 8])
    ensures t >= 16 ==> w[t] == Add64(Add64(Add64(Sigma1x64(w[t - 2]), w[t - 7]), Sigma0x64(w[t - 15])), w[t - 16])
  {
    hide Add64, Sigma0x64, Sigma1x64, Pack64;
    if t < 16 { assert block[t * 8..][..8] == block[8 * t..8 * t + 8]; }
  }

  /** A round of SHA-384 and SHA-512 in the words of section 6.3.2. */
  lemma Round64(w: seq<bv64>, a: seq<bv64>, e: seq<bv64>, t: nat)
    requires t < |w| == |K512| && t + 4 < |a| == |e| && IsRound(Suite64(), w, a, e, t)
    ensures var t1 := Add64(Add64(Add64(Add64(e[t], Sum1x64(e[t + 3])), Ch64(e[t + 3], e[t + 2], e[t + 1])), K512[t]), w[t]);
            var t2 := Add64(Sum0x64(a[t + 3]), Maj64(a[t + 3], a[t + 2], a[t + 1]));
            a[t + 4] == Add64(t1, t2) && e[t + 4] == Add64(a[t], t1)
  {
    hide Add64, Sum0x64, Sum1x64, Ch64, Maj64, K512;
  }
}
