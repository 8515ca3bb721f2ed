/** Where the constants of the SHA-2 functions come from: roots of the first primes, FIPS 180-2
    sections 4.2.2, 4.2.3 and 5.3. */
module Sha2Constants {
  import opened Sha2Spec
  import opened Sha2Suites

  const WORD64: nat := 0x1_0000_0000_0000_0000

  /** The first 80 primes. */
  const PRIMES: seq<nat> := [
    2, 3, 5, 7, 11, 13, 17, 19, 23, 29, 31, 37, 41, 43, 47, 53, 59, 61, 67, 71
  ] + [
    73, 79, 83, 89, 97, 101, 103, 107, 109, 113, 127, 131, 137, 139, 149, 151, 157, 163, 167, 173
  ] + [
    179, 181, 191, 193, 197, 199, 211, 223, 227, 229, 233, 239, 241, 251, 257, 263, 269, 271, 277, 281
  ] + [
    283, 293, 307, 311, 313, 317, 331, 337, 347, 349, 353, 359, 367, 373, 379, 383, 389, 397, 401, 409
  ]

  /** The whole part of the cube root of a number below 512. */
  function WholeCubeRoot(p: nat): nat {
    if p < 8 then 1 else if p < 27 then 2 else if p < 64 then 3 else if p < 125 then 4
    else if p < 216 then 5 else if p < 343 then 6 else 7
  }

  /** The whole part of the square root of a number below 64. */
  function WholeSquareRoot(p: nat): nat {
    if p < 4 then 1 else if p < 9 then 2 else if p < 16 then 3 else if p < 25 then 4
    else if p < 36 then 5 else if p < 49 then 6 else 7
  }

  /** `k` is the first 64 bits of the fractional part of the cube root of `p`. */
  predicate IsCubeRoot(k: nat, p: nat) {
    var x := WholeCubeRoot(p) * WORD64 + k;
    k < WORD64 && x * x * x <= p * WORD64 * WORD64 * WORD64 < (x + 1) * (x + 1) * (x + 1)
  }

  /** `k` is the first 64 bits of the fractional part of the square root of `p`. */
  predicate IsSquareRoot(k: nat, p: nat) {
    var x := WholeSquareRoot(p) * WORD64 + k;
    k < WORD64 && x * x <= p * WORD64 * WORD64 < (x + 1) * (x + 1)
  }

  /** The sizes of the tables. */
  ghost predicate Tables() {
    |PRIMES| == |K512| == 80 && |K256| == 64 && |IV224| == |IV256| == |IV384| == |IV512| == 8
  }

  lemma TableSizes()
    ensures Tables()
  {
  }

  /** Every round constant of the 64-bit functions is the fraction of the cube root of its prime, and those
      of the 32-bit functions are their upper halves. */
  lemma RoundConstants(i: nat)
    requires i < 80
    ensures Tables() && IsCubeRoot(K512[i] as int, PRIMES[i])
    ensures i < 64 ==> K256[i] == (K512[i] >> 32) as bv32
  {
    TableSizes();
    hide K256, K512, PRIMES, IV224, IV256, IV384, IV512, IsCubeRoot;
    if i < 40 { FirstForty(i); } else { LastForty(i); }
    if i < 64 { Halves(i); }
  }

  /** The initial values of SHA-512 and SHA-384 are the fractions of the square roots of the first and of the
      next eight primes; SHA-256 has the upper halves of the former, SHA-224 the lower ones of the latter. */
  lemma InitialValues(i: nat)
    requires i < 8
    ensures Tables()
    ensures Sha224().iv == IV224 && Sha256().iv == IV256 && Sha384().iv == IV384 && Sha512().iv == IV512
    ensures IsSquareRoot(IV512[i] as int, PRIMES[i]) && IsSquareRoot(IV384[i] as int, PRIMES[8 + i])
    ensures IV256[i] == (IV512[i] >> 32) as bv32 && IV224[i] == (IV384[i] & 0xffff_ffff) as bv32
  {
    TableSizes();
    SquareRoots(i);
    UpperHalves(i);
    LowerHalves(i);
    hide K256, K512, PRIMES, IV224, IV256, IV384, IV512, IsSquareRoot;
  }

  // ---- a few lines of the tables at a time ----

  lemma CubeRoots0(i: nat)
    requires Tables() && 0 <= i < 4
    ensures IsCubeRoot(K512[i] as int, PRIMES[i])
  {
  }

  lemma CubeRoots4(i: nat)
    requires Tables() && 4 <= i < 8
    ensures IsCubeRoot(K512[i] as int, PRIMES[i])
  {
  }

  lemma CubeRoots8(i: nat)
    requires Tables() && 8 <= i < 12
    ensures IsCubeRoot(K512[i] as int, PRIMES[i])
  {
    if i == 8 { assert PRIMES[i] == 23; }
  }

  lemma CubeRoots12(i: nat)
    requires Tables() && 12 <= i < 16
    ensures IsCubeRoot(K512[i] as int, PRIMES[i])
  {
  }

  lemma CubeRoots16(i: nat)
    requires Tables() && 16 <= i < 20
    ensures IsCubeRoot(K512[i] as int, PRIMES[i])
  {
  }

  lemma CubeRoots20(i: nat)
    requires Tables() && 20 <= i < 24
    ensures IsCubeRoot(K512[i] as int, PRIMES[i])
  {
  }

  lemma CubeRoots24(i: nat)
    requires Tables() && 24 <= i < 28
    ensures IsCubeRoot(K512[i] as int, PRIMES[i])
  {
  }

  lemma CubeRoots28(i: nat)
    requires Tables() && 28 <= i < 32
    ensures IsCubeRoot(K512[i] as int, PRIMES[i])
  {
  }

  lemma CubeRoots32(i: nat)
    requires Tables() && 32 <= i < 36
    ensures IsCubeRoot(K512[i] as int, PRIMES[i])
  {
  }

  lemma CubeRoots36(i: nat)
    requires Tables() && 36 <= i < 40
    ensures IsCubeRoot(K512[i] as int, PRIMES[i])
  {
  }

  lemma CubeRoots40(i: nat)
    requires Tables() && 40 <= i < 44
    ensures IsCubeRoot(K512[i] as int, PRIMES[i])
  {
  }

  lemma CubeRoots44(i: nat)
    requires Tables() && 44 <= i < 48
    ensures IsCubeRoot(K512[i] as int, PRIMES[i])
  {
  }

  lemma CubeRoots48(i: nat)
    requires Tables() && 48 <= i < 52
    ensures IsCubeRoot(K512[i] as int, PRIMES[i])
  {
  }

  lemma CubeRoots52(i: nat)
    requires Tables() && 52 <= i < 56
    ensures IsCubeRoot(K512[i] as int, PRIMES[i])
  {
  }

  lemma CubeRoots56(i: nat)
    requires Tables() && 56 <= i < 60
    ensures IsCubeRoot(K512[i] as int, PRIMES[i])
  {
  }

  lemma CubeRoots60(i: nat)
    requires Tables() && 60 <= i < 64
    ensures IsCubeRoot(K512[i] as int, PRIMES[i])
  {
  }

  lemma CubeRoots64(i: nat)
    requires Tables() && 64 <= i < 68
    ensures IsCubeRoot(K512[i] as int, PRIMES[i])
  {
  }

  lemma CubeRoots68(i: nat)
    requires Tables() && 68 <= i < 72
    ensures IsCubeRoot(K512[i] as int, PRIMES[i])
  {
  }

  lemma CubeRoots72(i: nat)
    requires Tables() && 72 <= i < 76
    ensures IsCubeRoot(K512[i] as int, PRIMES[i])
  {
  }

  lemma CubeRoots76(i: nat)
    requires Tables() && 76 <= i < 80
    ensures IsCubeRoot(K512[i] as int, PRIMES[i])
  {
  }

  lemma FirstForty(i: nat)
    requires Tables() && 0 <= i < 40
    ensures IsCubeRoot(K512[i] as int, PRIMES[i])
  {
    hide K256, K512, PRIMES, IV224, IV256, IV384, IV512, IsCubeRoot;
    if i < 4 {
      CubeRoots0(i);
    } else if i < 8 {
      CubeRoots4(i);
    } else if i < 12 {
      CubeRoots8(i);
    } else if i < 16 {
      CubeRoots12(i);
    } else if i < 20 {
      CubeRoots16(i);
    } else if i < 24 {
      CubeRoots20(i);
    } else if i < 28 {
      CubeRoots24(i);
    } else if i < 32 {
      CubeRoots28(i);
    } else if i < 36 {
      CubeRoots32(i);
    } else {
      CubeRoots36(i);
    }
  }

  lemma LastForty(i: nat)
    requires Tables() && 40 <= i < 80
    ensures IsCubeRoot(K512[i] as int, PRIMES[i])
  {
    hide K256, K512, PRIMES, IV224, IV256, IV384, IV512, IsCubeRoot;
    if i < 44 {
      CubeRoots40(i);
    } else if i < 48 {
      CubeRoots44(i);
    } else if i < 52 {
      CubeRoots48(i);
    } else if i < 56 {
      CubeRoots52(i);
    } else if i < 60 {
      CubeRoots56(i);
    } else if i < 64 {
      CubeRoots60(i);
    } else if i < 68 {
      CubeRoots64(i);
    } else if i < 72 {
      CubeRoots68(i);
    } else if i < 76 {
      CubeRoots72(i);
    } else {
      CubeRoots76(i);
    }
  }

  lemma Halves0(i: nat)
    requires Tables() && 0 <= i < 4
    ensures K256[i] == (K512[i] >> 32) as bv32
  {
  }

  lemma Halves4(i: nat)
    requires Tables() && 4 <= i < 8
    ensures K256[i] == (K512[i] >> 32) as bv32
  {
  }

  lemma Halves8(i: nat)
    requires Tables() && 8 <= i < 12
    ensures K256[i] == (K512[i] >> 32) as bv32
  {
  }

  lemma Halves12(i: nat)
    requires Tables() && 12 <= i < 16
    ensures K256[i] == (K512[i] >> 32) as bv32
  {
  }

  lemma Halves16(i: nat)
    requires Tables() && 16 <= i < 20
    ensures K256[i] == (K512[i] >> 32) as bv32
  {
  }

  lemma Halves20(i: nat)
    requires Tables() && 20 <= i < 24
    ensures K256[i] == (K512[i] >> 32) as bv32
  {
  }

  lemma Halves24(i: nat)
    requires Tables() && 24 <= i < 28
    ensures K256[i] == (K512[i] >> 32) as bv32
  {
  }

  lemma Halves28(i: nat)
    requires Tables() && 28 <= i < 32
    ensures K256[i] == (K512[i] >> 32) as bv32
  {
  }

  lemma Halves32(i: nat)
    requires Tables() && 32 <= i < 36
    ensures K256[i] == (K512[i] >> 32) as bv32
  {
  }

  lemma Halves36(i: nat)
    requires Tables() && 36 <= i < 40
    ensures K256[i] == (K512[i] >> 32) as bv32
  {
  }

  lemma Halves40(i: nat)
    requires Tables() && 40 <= i < 44
    ensures K256[i] == (K512[i] >> 32) as bv32
  {
  }

  lemma Halves44(i: nat)
    requires Tables() && 44 <= i < 48
    ensures K256[i] == (K512[i] >> 32) as bv32
  {
  }

  lemma Halves48(i: nat)
    requires Tables() && 48 <= i < 52
    ensures K256[i] == (K512[i] >> 32) as bv32
  {
  }

  lemma Halves52(i: nat)
    requires Tables() && 52 <= i < 56
    ensures K256[i] == (K512[i] >> 32) as bv32
  {
  }

  lemma Halves56(i: nat)
    requires Tables() && 56 <= i < 60
    ensures K256[i] == (K512[i] >> 32) as bv32
  {
  }

  lemma Halves60(i: nat)
    requires Tables() && 60 <= i < 64
    ensures K256[i] == (K512[i] >> 32) as bv32
  {
  }

  lemma Halves(i: nat)
    requires Tables() && 0 <= i < 64
    ensures K256[i] == (K512[i] >> 32) as bv32
  {
    hide K256, K512, PRIMES, IV224, IV256, IV384, IV512, IsCubeRoot;
    if i < 4 {
      Halves0(i);
    } else if i < 8 {
      Halves4(i);
    } else if i < 12 {
      Halves8(i);
    } else if i < 16 {
      Halves12(i);
    } else if i < 20 {
      Halves16(i);
    } else if i < 24 {
      Halves20(i);
    } else if i < 28 {
      Halves24(i);
    } else if i < 32 {
      Halves28(i);
    } else if i < 36 {
      Halves32(i);
    } else if i < 40 {
      Halves36(i);
    } else if i < 44 {
      Halves40(i);
    } else if i < 48 {
      Halves44(i);
    } else if i < 52 {
      Halves48(i);
    } else if i < 56 {
      Halves52(i);
    } else if i < 60 {
      Halves56(i);
    } else {
      Halves60(i);
    }
  }

  lemma SquareRoots512First(i: nat)
    requires Tables() && 0 <= i < 4
    ensures IsSquareRoot(IV512[i] as int, PRIMES[i])
  {
  }

  lemma SquareRoots512Last(i: nat)
    requires Tables() && 4 <= i < 8
    ensures IsSquareRoot(IV512[i] as int, PRIMES[i])
  {
  }

  lemma SquareRoots384First(i: nat)
    requires Tables() && 0 <= i < 4
    ensures IsSquareRoot(IV384[i] as int, PRIMES[8 + i])
  {
  }

  lemma SquareRoots384Last(i: nat)
    requires Tables() && 4 <= i < 8
    ensures IsSquareRoot(IV384[i] as int, PRIMES[8 + i])
  {
  }

  lemma SquareRoots(i: nat)
    requires Tables() && i < 8
    ensures IsSquareRoot(IV512[i] as int, PRIMES[i]) && IsSquareRoot(IV384[i] as int, PRIMES[8 + i])
  {
    hide K256, K512, PRIMES, IV224, IV256, IV384, IV512, IsSquareRoot;
    if i < 4 {
      SquareRoots512First(i);
      SquareRoots384First(i);
    } else {
      SquareRoots512Last(i);
      SquareRoots384Last(i);
    }
  }

  lemma UpperHalves(i: nat)
    requires Tables() && 0 <= i < 8
    ensures IV256[i] == (IV512[i] >> 32) as bv32
  {
  }

  lemma LowerHalves(i: nat)
    requires Tables() && 0 <= i < 8
    ensures IV224[i] == (IV384[i] & 0xffff_ffff) as bv32
  {
  }
}
