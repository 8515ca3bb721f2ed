/** Bytes and the numbers they spell. */
module Bytes {
  type byte = x: int | 0 <= x < 256

  const U32: nat := 0x1_0000_0000

  function Zeros(n: nat): (z: seq<byte>)
    ensures |z| == n
  {
    seq(n, _ => 0)
  }

  function Octet(n: nat): byte { n % 256 }

  /** The low `width` bytes of `n`, most significant first. */
  function BigEndian(n: nat, width: nat): (r: seq<byte>)
    ensures |r| == width
  {
    if width == 0 then [] else BigEndian(n / 256, width - 1) + [Octet(n)]
  }

  lemma {:induction false} BigEndianZero(width: nat)
    ensures BigEndian(0, width) == Zeros(width)
  {
    if width > 0 { BigEndianZero(width - 1); }
  }

  /** A value below 2^32 in a wider field is that value in four bytes after zeros. */
  lemma {:induction false} BigEndianWiden(n: nat, width: nat)
    requires n < U32 && width >= 4
    ensures BigEndian(n, width) == Zeros(width - 4) + BigEndian(n, 4)
  {
    var n1, n2, n3 := n / 256, n / 256 / 256, n / 256 / 256 / 256;
    assert n3 / 256 == 0;
    BigEndianZero(width - 4);
    assert BigEndian(n3, width - 3) == BigEndian(n3 / 256, width - 4) + [Octet(n3)];
    assert BigEndian(n3, 1) == BigEndian(n3 / 256, 0) + [Octet(n3)];
    assert BigEndian(n2, width - 2) == Zeros(width - 4) + BigEndian(n2, 2);
    assert BigEndian(n1, width - 1) == Zeros(width - 4) + BigEndian(n1, 3);
  }

  ghost function Pow256(width: nat): nat { if width == 0 then 1 else 256 * Pow256(width - 1) }

  /** A field of `width` bytes tells apart exactly the values below 256^width. */
  lemma {:induction false} BigEndianInjective(m: nat, n: nat, width: nat)
    requires BigEndian(m, width) == BigEndian(n, width)
    requires m < Pow256(width) && n < Pow256(width)
    ensures m == n
  {
    if width > 0 {
      var x, y := BigEndian(m, width), BigEndian(n, width);
      assert x[..width - 1] == BigEndian(m / 256, width - 1);
      assert y[..width - 1] == BigEndian(n / 256, width - 1);
      assert x[width - 1] == Octet(m) && y[width - 1] == Octet(n);
      BigEndianInjective(m / 256, n / 256, width - 1);
    }
  }

  /** The number a big-endian field holds. */
  function FromBigEndian(b: seq<byte>): nat {
    if b == [] then 0 else 256 * FromBigEndian(b[..|b| - 1]) + b[|b| - 1]
  }

  lemma {:induction false} BigEndianRoundTrip(n: nat, width: nat)
    requires n < Pow256(width)
    ensures FromBigEndian(BigEndian(n, width)) == n
  {
    if width > 0 {
      var b := BigEndian(n, width);
      assert b[..width - 1] == BigEndian(n / 256, width - 1);
      BigEndianRoundTrip(n / 256, width - 1);
      assert FromBigEndian(b) == 256 * (n / 256) + n % 256;
    }
  }

  lemma {:induction false} FromBigEndianBound(b: seq<byte>)
    ensures FromBigEndian(b) < Pow256(|b|)
  {
    if b != [] { FromBigEndianBound(b[..|b| - 1]); }
  }

  /** Four bytes, the first of them worth most. */
  lemma FourBytes(a: byte, b: byte, c: byte, d: byte)
    ensures FromBigEndian([a, b, c, d]) == a * 0x100_0000 + b * 0x1_0000 + c * 0x100 + d
    ensures BigEndian(a * 0x100_0000 + b * 0x1_0000 + c * 0x100 + d, 4) == [a, b, c, d]
  {
    FourRead(a, b, c, d);
    FourWritten(a, b, c, d);
    hide BigEndian, FromBigEndian;
  }

  lemma FourRead(a: byte, b: byte, c: byte, d: byte)
    ensures FromBigEndian([a, b, c, d]) == a * 0x100_0000 + b * 0x1_0000 + c * 0x100 + d
  {
    Appended([], a);
    Appended([a], b);
    Appended([a, b], c);
    Appended([a, b, c], d);
    assert [] + [a] == [a] && [a] + [b] == [a, b] && [a, b] + [c] == [a, b, c] && [a, b, c] + [d] == [a, b, c, d];
    assert FromBigEndian([]) == 0;
    hide FromBigEndian;
  }

  lemma Appended(s: seq<byte>, b: byte)
    ensures FromBigEndian(s + [b]) == 256 * FromBigEndian(s) + b
  {
    assert (s + [b])[..|s|] == s;
  }

  lemma FourWritten(a: byte, b: byte, c: byte, d: byte)
    ensures BigEndian(a * 0x100_0000 + b * 0x1_0000 + c * 0x100 + d, 4) == [a, b, c, d]
  {
    Shifted(a * 0x1_0000 + b * 0x100 + c, d);
    Shifted(a * 0x100 + b, c);
    Shifted(a, b);
    Shifted(0, a);
    assert BigEndian(a, 1) == BigEndian(0, 0) + [a];
    assert BigEndian(a * 0x100 + b, 2) == BigEndian(a, 1) + [b];
    assert BigEndian(a * 0x1_0000 + b * 0x100 + c, 3) == BigEndian(a * 0x100 + b, 2) + [c];
  }

  lemma Shifted(n: nat, d: byte)
    ensures (n * 0x100 + d) / 256 == n && Octet(n * 0x100 + d) == d
  {
  }
}
