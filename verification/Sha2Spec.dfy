/** The SHA-2 functions as FIPS 180-2 defines them, written over a whole message at once.

    The 32-bit functions (SHA-224, SHA-256) and the 64-bit ones (SHA-384, SHA-512) are the same
    algorithm over different word operations, so everything here is generic in the word type `W`;
    module Sha2Suites supplies the two sets of operations and the published constants. */
module Sha2Spec {
  import opened Bytes

  /** Word operations and sizes of one family. `blockBytes` is the size of a message block,
      `lenBytes` the size of the length field that ends the padding, `groups` the number of rounds
      over eight. */
  datatype Suite<!W> = Suite(
    wordBytes: nat,
    blockBytes: nat,
    lenBytes: nat,
    groups: nat,
    k: seq<W>,
    add: (W, W) -> W,
    sum0: W -> W,
    sum1: W -> W,
    sigma0: W -> W,
    sigma1: W -> W,
    ch: (W, W, W) -> W,
    maj: (W, W, W) -> W,
    pack: seq<byte> -> W,
    unpack: W -> seq<byte>
  )

  /** One member of a family: its initial chaining value and how many words of the last one it keeps. */
  datatype Hash<!W> = Hash(suite: Suite<W>, iv: seq<W>, digestWords: nat)

  ghost predicate ValidSuite<W(!new)>(s: Suite<W>) {
    && s.wordBytes > 0
    && s.blockBytes == 16 * s.wordBytes <= 128
    && 4 <= s.lenBytes < s.blockBytes
    && |s.k| == 8 * s.groups && s.groups >= 2
    && forall w: W :: |s.unpack(w)| == s.wordBytes
  }

  ghost predicate ValidHash<W(!new)>(f: Hash<W>) {
    ValidSuite(f.suite) && |f.iv| == 8 && f.digestWords <= 8
  }

  datatype Regs<W> = Regs(a: W, b: W, c: W, d: W, e: W, f: W, g: W, h: W)

  /** The message schedule: word `t`, section 6.2.2 step 1 (6.3.2 for 64-bit words). */
  function Schedule<W>(s: Suite<W>, block: seq<byte>, t: nat): W
    requires |block| == s.blockBytes == 16 * s.wordBytes
  {
    if t < 16 then MessageWord(s, block, t)
    else Mix(s, Schedule(s, block, t - 2), Schedule(s, block, t - 7), Schedule(s, block, t - 15), Schedule(s, block, t - 16))
  }

  function MessageWord<W>(s: Suite<W>, block: seq<byte>, t: nat): W
    requires t < 16 && |block| == 16 * s.wordBytes
  {
    s.pack(block[t * s.wordBytes..][..s.wordBytes])
  }

  function Mix<W>(s: Suite<W>, w2: W, w7: W, w15: W, w16: W): W {
    s.add(s.add(s.add(s.sigma1(w2), w7), s.sigma0(w15)), w16)
  }

  /** One round, section 6.2.2 step 3. */
  function Round<W>(s: Suite<W>, r: Regs<W>, k: W, w: W): Regs<W> {
    var t1 := s.add(s.add(s.add(s.add(r.h, s.sum1(r.e)), s.ch(r.e, r.f, r.g)), k), w);
    var t2 := s.add(s.sum0(r.a), s.maj(r.a, r.b, r.c));
    Regs(s.add(t1, t2), r.a, r.b, r.c, s.add(r.d, t1), r.e, r.f, r.g)
  }

  /** The whole message schedule of a block. */
  function ScheduleOf<W>(s: Suite<W>, block: seq<byte>): (w: seq<W>)
    requires |block| == s.blockBytes == 16 * s.wordBytes
    ensures |w| == |s.k|
  {
    seq(|s.k|, (t: nat) => Schedule(s, block, t))
  }

  /** The registers after the first `t` rounds. */
  function Rounds<W>(s: Suite<W>, r: Regs<W>, w: seq<W>, t: nat): Regs<W>
    requires t <= |w| == |s.k|
  {
    if t == 0 then r else Round(s, Rounds(s, r, w, t - 1), s.k[t - 1], w[t - 1])
  }

  function ToRegs<W>(h: seq<W>): Regs<W>
    requires |h| == 8
  {
    Regs(h[0], h[1], h[2], h[3], h[4], h[5], h[6], h[7])
  }

  /** The next chaining value, section 6.2.2 step 4. */
  function Compress<W>(s: Suite<W>, h: seq<W>, block: seq<byte>): (r: seq<W>)
    requires |block| == s.blockBytes == 16 * s.wordBytes
    requires |h| == 8
    ensures |r| == 8
  {
    var v := Rounds(s, ToRegs(h), ScheduleOf(s, block), |s.k|);
    [s.add(h[0], v.a), s.add(h[1], v.b), s.add(h[2], v.c), s.add(h[3], v.d),
     s.add(h[4], v.e), s.add(h[5], v.f), s.add(h[6], v.g), s.add(h[7], v.h)]
  }

  /** The chaining value after all whole blocks of `data`. */
  function Absorb<W>(s: Suite<W>, h: seq<W>, data: seq<byte>): (r: seq<W>)
    requires s.wordBytes > 0 && s.blockBytes == 16 * s.wordBytes
    requires |h| == 8
    ensures |r| == 8
    decreases |data|
  {
    if |data| < s.blockBytes then h
    else Absorb(s, Compress(s, h, data[..s.blockBytes]), data[s.blockBytes..])
  }

  /** How many zero bytes the padding of an `n`-byte message holds. */
  function ZeroCount<W>(s: Suite<W>, n: nat): (k: nat)
    requires s.lenBytes < s.blockBytes
    ensures k < s.blockBytes
  {
    var r := n % s.blockBytes;
    if r + 1 + s.lenBytes <= s.blockBytes then s.blockBytes - s.lenBytes - 1 - r
    else 2 * s.blockBytes - s.lenBytes - 1 - r
  }

  /** Message, a one bit, zeros, and `bits` in the length field (sections 5.1.1 and 5.1.2). */
  function PadWith<W>(s: Suite<W>, m: seq<byte>, bits: nat): seq<byte>
    requires s.lenBytes < s.blockBytes
  {
    m + [0x80] + Zeros(ZeroCount(s, |m|)) + BigEndian(bits, s.lenBytes)
  }

  /** Section 5.1: the length field holds the length of the message in bits. */
  function Pad<W>(s: Suite<W>, m: seq<byte>): seq<byte>
    requires s.lenBytes < s.blockBytes
  {
    PadWith(s, m, 8 * |m|)
  }

  function Output<W>(s: Suite<W>, h: seq<W>): seq<byte> {
    if h == [] then [] else Output(s, h[..|h| - 1]) + s.unpack(h[|h| - 1])
  }

  ghost function DigestWith<W(!new)>(f: Hash<W>, m: seq<byte>, bits: nat): seq<byte>
    requires ValidHash(f)
  {
    Output(f.suite, Absorb(f.suite, f.iv, PadWith(f.suite, m, bits))[..f.digestWords])
  }

  /** The FIPS 180-2 digest of a message. */
  ghost function Digest<W(!new)>(f: Hash<W>, m: seq<byte>): seq<byte>
    requires ValidHash(f)
  {
    DigestWith(f, m, 8 * |m|)
  }

  // ---- facts about the definitions ----

  /** `n` bytes are a whole number of blocks of `b` bytes. */
  ghost predicate Whole(n: nat, b: nat) {
    n == 0 || (0 < b <= n && Whole(n - b, b))
  }

  lemma {:induction false} AbsorbConcat<W>(s: Suite<W>, h: seq<W>, a: seq<byte>, b: seq<byte>)
    requires s.wordBytes > 0 && s.blockBytes == 16 * s.wordBytes
    requires |h| == 8
    requires Whole(|a|, s.blockBytes)
    ensures Absorb(s, h, a + b) == Absorb(s, Absorb(s, h, a), b)
    decreases |a|
  {
    if a == [] {
      assert a + b == b;
    } else {
      assert (a + b)[..s.blockBytes] == a[..s.blockBytes];
      assert (a + b)[s.blockBytes..] == a[s.blockBytes..] + b;
      AbsorbConcat(s, Compress(s, h, a[..s.blockBytes]), a[s.blockBytes..], b);
    }
  }

  lemma ProductAtLeast(b: int, q: int)
    requires b > 0
    ensures q >= 1 ==> b * q >= b
    ensures q <= -1 ==> b * q <= -b
    ensures q == 0 ==> b * q == 0
  {
  }

  lemma RemainderOf(b: nat, q: int, r: nat)
    requires r < b
    ensures (b * q + r) % b == r && (b * q + r) / b == q
  {
    var n := b * q + r;
    var d := q - n / b;
    assert b * q == b * (n / b) + b * d;
    ProductAtLeast(b, d);
  }

  lemma {:induction false} WholeMultiple(q: nat, b: nat)
    requires b > 0
    ensures Whole(q * b, b)
  {
    if q > 0 {
      assert q * b == (q - 1) * b + b;
      WholeMultiple(q - 1, b);
    }
  }

  lemma {:induction false} WholeSum(m: nat, n: nat, b: nat)
    requires Whole(m, b) && Whole(n, b)
    ensures Whole(m + n, b)
  {
    if m > 0 { WholeSum(m - b, n, b); }
  }

  lemma Factor(b: int, q: int, k: int)
    ensures b * q + b * k == b * (q + k)
  {
  }

  lemma Division(n: nat, b: nat)
    requires b > 0
    ensures n == b * (n / b) + n % b
  {
  }

  lemma ModMinus(n: nat, b: nat)
    requires 0 < b <= n
    ensures (n - b) % b == n % b
  {
    Division(n, b);
    Factor(b, n / b, -1);
    RemainderOf(b, n / b - 1, n % b);
  }

  lemma {:induction false} WholeIsMod(n: nat, b: nat)
    requires b > 0
    ensures Whole(n, b) <==> n % b == 0
  {
    if n >= b {
      WholeIsMod(n - b, b);
      ModMinus(n, b);
    }
  }

  lemma {:induction false} OutputLength<W(!new)>(s: Suite<W>, h: seq<W>)
    requires ValidSuite(s)
    ensures |Output(s, h)| == |h| * s.wordBytes
  {
    if h != [] { OutputLength(s, h[..|h| - 1]); }
  }

  ghost function DigestBytes<W>(f: Hash<W>): nat { f.digestWords * f.suite.wordBytes }

  lemma DigestLength<W(!new)>(f: Hash<W>, m: seq<byte>, bits: nat)
    requires ValidHash(f)
    ensures |DigestWith(f, m, bits)| == DigestBytes(f) <= f.suite.blockBytes
  {
    OutputLength(f.suite, Absorb(f.suite, f.iv, PadWith(f.suite, m, bits))[..f.digestWords]);
    ProductAtMost(f.digestWords, 8, f.suite.wordBytes);
  }

  lemma ProductAtMost(a: nat, c: nat, b: nat)
    requires a <= c
    ensures a * b <= c * b
  {
  }

  /** The padded length is a whole number of blocks, and no smaller number of zeros achieves that. */
  lemma ZeroCountIsLeast<W(!new)>(s: Suite<W>, n: nat, k: nat)
    requires ValidSuite(s)
    ensures (n + 1 + ZeroCount(s, n) + s.lenBytes) % s.blockBytes == 0
    ensures k < ZeroCount(s, n) ==> (n + 1 + k + s.lenBytes) % s.blockBytes != 0
  {
    var b, q, r := s.blockBytes, n / s.blockBytes, n % s.blockBytes;
    Division(n, b);
    var c := ZeroCount(s, n);
    var up := if r + 1 + s.lenBytes <= b then 1 else 2;
    Factor(b, q, up);
    assert n + 1 + c + s.lenBytes == b * (q + up);
    RemainderOf(b, q + up, 0);
    if k < c {
      var rest := r + 1 + k + s.lenBytes - (up - 1) * b;
      assert 0 < rest < b;
      Factor(b, q, up - 1);
      assert n + 1 + k + s.lenBytes == b * (q + up - 1) + rest;
      RemainderOf(b, q + up - 1, rest);
    }
  }
}
