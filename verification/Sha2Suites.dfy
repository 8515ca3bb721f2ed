/** The word operations, constants and initial values of the four SHA-2 functions. */
module Sha2Suites {
  import opened Bytes
  import opened Sha2Spec

  const K256: seq<bv32> := [
    0x428a_2f98, 0x7137_4491, 0xb5c0_fbcf, 0xe9b5_dba5, 0x3956_c25b, 0x59f1_11f1, 0x923f_82a4, 0xab1c_5ed5,
    0xd807_aa98, 0x1283_5b01, 0x2431_85be, 0x550c_7dc3, 0x72be_5d74, 0x80de_b1fe, 0x9bdc_06a7, 0xc19b_f174,
    0xe49b_69c1, 0xefbe_4786, 0x0fc1_9dc6, 0x240c_a1cc, 0x2de9_2c6f, 0x4a74_84aa, 0x5cb0_a9dc, 0x76f9_88da,
    0x983e_5152, 0xa831_c66d, 0xb003_27c8, 0xbf59_7fc7, 0xc6e0_0bf3, 0xd5a7_9147, 0x06ca_6351, 0x1429_2967
  ] + [
    0x27b7_0a85, 0x2e1b_2138, 0x4d2c_6dfc, 0x5338_0d13, 0x650a_7354, 0x766a_0abb, 0x81c2_c92e, 0x9272_2c85,
    0xa2bf_e8a1, 0xa81a_664b, 0xc24b_8b70, 0xc76c_51a3, 0xd192_e819, 0xd699_0624, 0xf40e_3585, 0x106a_a070,
    0x19a4_c116, 0x1e37_6c08, 0x2748_774c, 0x34b0_bcb5, 0x391c_0cb3, 0x4ed8_aa4a, 0x5b9c_ca4f, 0x682e_6ff3,
    0x748f_82ee, 0x78a5_636f, 0x84c8_7814, 0x8cc7_0208, 0x90be_fffa, 0xa450_6ceb, 0xbef9_a3f7, 0xc671_78f2
  ]

  const K512: seq<bv64> := [
    0x428a2f98_d728ae22, 0x71374491_23ef65cd, 0xb5c0fbcf_ec4d3b2f, 0xe9b5dba5_8189dbbc,
    0x3956c25b_f348b538, 0x59f111f1_b605d019, 0x923f82a4_af194f9b, 0xab1c5ed5_da6d8118,
    0xd807aa98_a3030242, 0x12835b01_45706fbe, 0x243185be_4ee4b28c, 0x550c7dc3_d5ffb4e2,
    0x72be5d74_f27b896f, 0x80deb1fe_3b1696b1, 0x9bdc06a7_25c71235, 0xc19bf174_cf692694,
    0xe49b69c1_9ef14ad2, 0xefbe4786_384f25e3, 0x0fc19dc6_8b8cd5b5, 0x240ca1cc_77ac9c65,
    0x2de92c6f_592b0275, 0x4a7484aa_6ea6e483, 0x5cb0a9dc_bd41fbd4, 0x76f988da_831153b5,
    0x983e5152_ee66dfab, 0xa831c66d_2db43210, 0xb00327c8_98fb213f, 0xbf597fc7_beef0ee4,
    0xc6e00bf3_3da88fc2, 0xd5a79147_930aa725, 0x06ca6351_e003826f, 0x14292967_0a0e6e70
  ] + [
    0x27b70a85_46d22ffc, 0x2e1b2138_5c26c926, 0x4d2c6dfc_5ac42aed, 0x53380d13_9d95b3df,
    0x650a7354_8baf63de, 0x766a0abb_3c77b2a8, 0x81c2c92e_47edaee6, 0x92722c85_1482353b,
    0xa2bfe8a1_4cf10364, 0xa81a664b_bc423001, 0xc24b8b70_d0f89791, 0xc76c51a3_0654be30,
    0xd192e819_d6ef5218, 0xd6990624_5565a910, 0xf40e3585_5771202a, 0x106aa070_32bbd1b8,
    0x19a4c116_b8d2d0c8, 0x1e376c08_5141ab53, 0x2748774c_df8eeb99, 0x34b0bcb5_e19b48a8,
    0x391c0cb3_c5c95a63, 0x4ed8aa4a_e3418acb, 0x5b9cca4f_7763e373, 0x682e6ff3_d6b2b8a3,
    0x748f82ee_5defb2fc, 0x78a5636f_43172f60, 0x84c87814_a1f0ab72, 0x8cc70208_1a6439ec,
    0x90befffa_23631e28, 0xa4506ceb_de82bde9, 0xbef9a3f7_b2c67915, 0xc67178f2_e372532b
  ] + [
    0xca273ece_ea26619c, 0xd186b8c7_21c0c207, 0xeada7dd6_cde0eb1e, 0xf57d4f7f_ee6ed178,
    0x06f067aa_72176fba, 0x0a637dc5_a2c898a6, 0x113f9804_bef90dae, 0x1b710b35_131c471b,
    0x28db77f5_23047d84, 0x32caab7b_40c72493, 0x3c9ebe0a_15c9bebc, 0x431d67c4_9c100d4c,
    0x4cc5d4be_cb3e42b6, 0x597f299c_fc657e2a, 0x5fcb6fab_3ad6faec, 0x6c44198c_4a475817
  ]

  const IV224: seq<bv32> := [
    0xc105_9ed8, 0x367c_d507, 0x3070_dd17, 0xf70e_5939,
    0xffc0_0b31, 0x6858_1511, 0x64f9_8fa7, 0xbefa_4fa4
  ]

  const IV256: seq<bv32> := [
    0x6a09_e667, 0xbb67_ae85, 0x3c6e_f372, 0xa54f_f53a,
    0x510e_527f, 0x9b05_688c, 0x1f83_d9ab, 0x5be0_cd19
  ]

  const IV384: seq<bv64> := [
    0xcbbb9d5d_c1059ed8, 0x629a292a_367cd507, 0x9159015a_3070dd17, 0x152fecd8_f70e5939,
    0x67332667_ffc00b31, 0x8eb44a87_68581511, 0xdb0c2e0d_64f98fa7, 0x47b5481d_befa4fa4
  ]

  const IV512: seq<bv64> := [
    0x6a09e667_f3bcc908, 0xbb67ae85_84caa73b, 0x3c6ef372_fe94f82b, 0xa54ff53a_5f1d36f1,
    0x510e527f_ade682d1, 0x9b05688c_2b3e6c1f, 0x1f83d9ab_fb41bd6b, 0x5be0cd19_137e2179
  ]

  function Rotr32(x: bv32, n: nat): bv32
    requires 0 < n < 32
  {
    (x >> n) | (x << (32 - n))
  }

  function Rotr64(x: bv64, n: nat): bv64
    requires 0 < n < 64
  {
    (x >> n) | (x << (64 - n))
  }

  function Word32(b: byte): bv32 { b as bv32 }
  function Word64(b: byte): bv64 { b as bv64 }

  function Join32(a: bv32, b: bv32, c: bv32, d: bv32): bv32 { (a << 24) | (b << 16) | (c << 8) | d }

  function Join64(a: bv64, b: bv64, c: bv64, d: bv64, e: bv64, f: bv64, g: bv64, h: bv64): bv64 {
    (a << 56) | (b << 48) | (c << 40) | (d << 32) | (e << 24) | (f << 16) | (g << 8) | h
  }

  /** `PACK32`: the first byte is the most significant. */
  function Pack32(b: seq<byte>): bv32 {
    if |b| != 4 then 0 else Join32(Word32(b[0]), Word32(b[1]), Word32(b[2]), Word32(b[3]))
  }

  function Low32(x: bv32): byte { (x & 0xff) as int % 256 }

  function Unpack32(x: bv32): (b: seq<byte>)
    ensures |b| == 4
  {
    [Low32(x >> 24), Low32(x >> 16), Low32(x >> 8), Low32(x)]
  }

  /** `PACK64`. */
  function Pack64(b: seq<byte>): bv64 {
    if |b| != 8 then 0 else
      Join64(Word64(b[0]), Word64(b[1]), Word64(b[2]), Word64(b[3]), Word64(b[4]), Word64(b[5]), Word64(b[6]), Word64(b[7]))
  }

  function Low64(x: bv64): byte { (x & 0xff) as int % 256 }

  function Unpack64(x: bv64): (b: seq<byte>)
    ensures |b| == 8
  {
    [Low64(x >> 56), Low64(x >> 48), Low64(x >> 40), Low64(x >> 32),
     Low64(x >> 24), Low64(x >> 16), Low64(x >> 8), Low64(x)]
  }

  function Xor3x32(x: bv32, y: bv32, z: bv32): bv32 { x ^ y ^ z }
  function Add32(x: bv32, y: bv32): bv32 { x + y }
  function Sum0x32(x: bv32): bv32 { Xor3x32(Rotr32(x, 2), Rotr32(x, 13), Rotr32(x, 22)) }
  function Sum1x32(x: bv32): bv32 { Xor3x32(Rotr32(x, 6), Rotr32(x, 11), Rotr32(x, 25)) }
  function Sigma0x32(x: bv32): bv32 { Xor3x32(Rotr32(x, 7), Rotr32(x, 18), x >> 3) }
  function Sigma1x32(x: bv32): bv32 { Xor3x32(Rotr32(x, 17), Rotr32(x, 19), x >> 10) }
  function Ch32(x: bv32, y: bv32, z: bv32): bv32 { (x & y) ^ (!x & z) }
  function Maj32(x: bv32, y: bv32, z: bv32): bv32 { (x & y) ^ (x & z) ^ (y & z) }

  function Xor3x64(x: bv64, y: bv64, z: bv64): bv64 { x ^ y ^ z }
  function Add64(x: bv64, y: bv64): bv64 { x + y }
  function Sum0x64(x: bv64): bv64 { Xor3x64(Rotr64(x, 28), Rotr64(x, 34), Rotr64(x, 39)) }
  function Sum1x64(x: bv64): bv64 { Xor3x64(Rotr64(x, 14), Rotr64(x, 18), Rotr64(x, 41)) }
  function Sigma0x64(x: bv64): bv64 { Xor3x64(Rotr64(x, 1), Rotr64(x, 8), x >> 7) }
  function Sigma1x64(x: bv64): bv64 { Xor3x64(Rotr64(x, 19), Rotr64(x, 61), x >> 6) }
  function Ch64(x: bv64, y: bv64, z: bv64): bv64 { (x & y) ^ (!x & z) }
  function Maj64(x: bv64, y: bv64, z: bv64): bv64 { (x & y) ^ (x & z) ^ (y & z) }

  function Suite32(): Suite<bv32> {
    Suite(4, 64, 8, 8, K256, Add32, Sum0x32, Sum1x32, Sigma0x32, Sigma1x32, Ch32, Maj32, Pack32, Unpack32)
  }

  function Suite64(): Suite<bv64> {
    Suite(8, 128, 16, 10, K512, Add64, Sum0x64, Sum1x64, Sigma0x64, Sigma1x64, Ch64, Maj64, Pack64, Unpack64)
  }

  function Sha224(): Hash<bv32> { Hash(Suite32(), IV224, 7) }
  function Sha256(): Hash<bv32> { Hash(Suite32(), IV256, 8) }
  function Sha384(): Hash<bv64> { Hash(Suite64(), IV384, 6) }
  function Sha512(): Hash<bv64> { Hash(Suite64(), IV512, 8) }

  // ---- the byte order of words ----

  /** A word with one more byte behind it. */
  function Append32(w: bv32, b: bv32): bv32 { (w << 8) | b }
  function Append64(w: bv64, b: bv64): bv64 { (w << 8) | b }

  lemma WordsOf(b: byte)
    ensures Word32(0) == 0 && Word64(0) == 0 && Word32(b) == b as bv32 && Word64(b) == b as bv64
  {
  }

  lemma Join32Steps(x: bv32, y: bv32, z: bv32, b: bv32)
    ensures Join32(x, y, z, b) == Append32(Join32(0, x, y, z), b) && Join32(0, 0, 0, b) == b
  {
  }

  lemma Join64Steps(s: bv64, t: bv64, u: bv64, v: bv64, x: bv64, y: bv64, z: bv64, b: bv64)
    ensures Join64(s, t, u, v, x, y, z, b) == Append64(Join64(0, s, t, u, v, x, y, z), b)
    ensures Join64(0, 0, 0, 0, 0, 0, 0, b) == b
  {
  }

  /** A word is read with its most significant byte first: the last byte is its lowest, and the bytes before
      it are what is above. */
  lemma PackOrder32(x: byte, y: byte, z: byte, b: byte)
    ensures Pack32([0, 0, 0, b]) == b as bv32
    ensures Pack32([x, y, z, b]) == Append32(Pack32([0, x, y, z]), Pack32([0, 0, 0, b]))
  {
    hide Join32, Append32, Word32;
    WordsOf(b);
    Join32Steps(Word32(x), Word32(y), Word32(z), Word32(b));
  }

  lemma PackOrder64(s: byte, t: byte, u: byte, v: byte, x: byte, y: byte, z: byte, b: byte)
    ensures Pack64([0, 0, 0, 0, 0, 0, 0, b]) == b as bv64
    ensures Pack64([s, t, u, v, x, y, z, b]) == Append64(Pack64([0, s, t, u, v, x, y, z]), Pack64([0, 0, 0, 0, 0, 0, 0, b]))
  {
    hide Join64, Append64, Word64;
    WordsOf(b);
    Join64Steps(Word64(s), Word64(t), Word64(u), Word64(v), Word64(x), Word64(y), Word64(z), Word64(b));
  }

  lemma Masked(x: bv32, y: bv64)
    ensures (x & 0xff) as int % 256 == (x & 0xff) as int && (y & 0xff) as int % 256 == (y & 0xff) as int
  {
  }

  lemma BackAndForth(x: bv32, y: bv64)
    ensures (x as int) as bv32 == x && (y as int) as bv64 == y
  {
  }

  lemma LowByte32(x: bv32)
    ensures Word32(Low32(x)) == x & 0xff
  {
    Masked(x, 0);
    BackAndForth(x & 0xff, 0);
  }

  lemma LowByte64(x: bv64)
    ensures Word64(Low64(x)) == x & 0xff
  {
    Masked(0, x);
    BackAndForth(0, x & 0xff);
  }

  lemma Joined32(x: bv32)
    ensures Join32((x >> 24) & 0xff, (x >> 16) & 0xff, (x >> 8) & 0xff, x & 0xff) == x
  {
  }

  lemma Joined64(x: bv64)
    ensures Join64((x >> 56) & 0xff, (x >> 48) & 0xff, (x >> 40) & 0xff, (x >> 32) & 0xff,
                   (x >> 24) & 0xff, (x >> 16) & 0xff, (x >> 8) & 0xff, x & 0xff) == x
  {
  }

  /** A word that is written and read again is the word. */
  lemma PackUnpack32(x: bv32)
    ensures Pack32(Unpack32(x)) == x
  {
    LowByte32(x >> 24);
    LowByte32(x >> 16);
    LowByte32(x >> 8);
    LowByte32(x);
    Joined32(x);
    hide Low32, Word32, Join32;
  }

  lemma Unpacked64(x: bv64)
    ensures Pack64(Unpack64(x)) == Join64(Word64(Low64(x >> 56)), Word64(Low64(x >> 48)), Word64(Low64(x >> 40)), Word64(Low64(x >> 32)),
                                          Word64(Low64(x >> 24)), Word64(Low64(x >> 16)), Word64(Low64(x >> 8)), Word64(Low64(x)))
  {
    hide Low64, Word64, Join64;
  }

  lemma PackUnpack64(x: bv64)
    ensures Pack64(Unpack64(x)) == x
  {
    hide Low64, Word64, Join64, Pack64, Unpack64;
    Unpacked64(x);
    LowByte64(x >> 56);
    LowByte64(x >> 48);
    LowByte64(x >> 40);
    LowByte64(x >> 32);
    LowByte64(x >> 24);
    LowByte64(x >> 16);
    LowByte64(x >> 8);
    LowByte64(x);
    Joined64(x);
  }

  // ---- the functions of the two families ----

  lemma Xor3Is32(x: bv32, y: bv32, z: bv32)
    ensures Xor3x32(x, y, z) == x ^ y ^ z
  {
  }

  lemma Rotations32(x: bv32)
    ensures Rotr32(x, 2) == x.RotateRight(2) && Rotr32(x, 6) == x.RotateRight(6) && Rotr32(x, 7) == x.RotateRight(7)
    ensures Rotr32(x, 11) == x.RotateRight(11) && Rotr32(x, 13) == x.RotateRight(13) && Rotr32(x, 17) == x.RotateRight(17)
    ensures Rotr32(x, 18) == x.RotateRight(18) && Rotr32(x, 19) == x.RotateRight(19) && Rotr32(x, 22) == x.RotateRight(22)
    ensures Rotr32(x, 25) == x.RotateRight(25)
  {
  }

  lemma Xor3Is64(x: bv64, y: bv64, z: bv64)
    ensures Xor3x64(x, y, z) == x ^ y ^ z
  {
  }

  lemma Rotations64(x: bv64)
    ensures Rotr64(x, 1) == x.RotateRight(1) && Rotr64(x, 8) == x.RotateRight(8) && Rotr64(x, 14) == x.RotateRight(14)
    ensures Rotr64(x, 18) == x.RotateRight(18) && Rotr64(x, 19) == x.RotateRight(19) && Rotr64(x, 28) == x.RotateRight(28)
    ensures Rotr64(x, 34) == x.RotateRight(34) && Rotr64(x, 39) == x.RotateRight(39) && Rotr64(x, 41) == x.RotateRight(41)
    ensures Rotr64(x, 61) == x.RotateRight(61)
  {
  }

  /** Section 4.1.2: rotations and shifts by the amounts of the standard, and addition modulo 2^32. */
  lemma Functions32(x: bv32, y: bv32)
    ensures Sum0x32(x) == Xor3x32(x.RotateRight(2), x.RotateRight(13), x.RotateRight(22))
    ensures Sum1x32(x) == Xor3x32(x.RotateRight(6), x.RotateRight(11), x.RotateRight(25))
    ensures Sigma0x32(x) == Xor3x32(x.RotateRight(7), x.RotateRight(18), x >> 3)
    ensures Sigma1x32(x) == Xor3x32(x.RotateRight(17), x.RotateRight(19), x >> 10)
    ensures Add32(x, y) == x + y
  {
    hide Rotr32, Xor3x32;
    Rotations32(x);
  }

  /** The choice takes the bits of `y` where `x` has a one and those of `z` elsewhere. */
  lemma Chooses32(x: bv32, y: bv32, z: bv32)
    ensures Ch32(x, y, z) & x == y & x && Ch32(x, y, z) & !x == z & !x
  {
  }

  /** Wherever two of the three words have the same bit, the majority has it. */
  lemma IsMajority32(x: bv32, y: bv32, z: bv32)
    ensures Maj32(x, y, z) & !(x ^ y) == x & !(x ^ y)
    ensures Maj32(x, y, z) & !(y ^ z) == y & !(y ^ z)
    ensures Maj32(x, y, z) & !(x ^ z) == z & !(x ^ z)
  {
    FirstTwo32(x, y, z);
    LastTwo32(x, y, z);
    Outer32(x, y, z);
    hide Maj32;
  }

  lemma FirstTwo32(x: bv32, y: bv32, z: bv32)
    ensures Maj32(x, y, z) & !(x ^ y) == x & !(x ^ y)
  {
  }

  lemma LastTwo32(x: bv32, y: bv32, z: bv32)
    ensures Maj32(x, y, z) & !(y ^ z) == y & !(y ^ z)
  {
  }

  lemma Outer32(x: bv32, y: bv32, z: bv32)
    ensures Maj32(x, y, z) & !(x ^ z) == z & !(x ^ z)
  {
  }

  /** Section 4.1.3: the same for 64-bit words. */
  lemma Functions64(x: bv64, y: bv64)
    ensures Sum0x64(x) == Xor3x64(x.RotateRight(28), x.RotateRight(34), x.RotateRight(39))
    ensures Sum1x64(x) == Xor3x64(x.RotateRight(14), x.RotateRight(18), x.RotateRight(41))
    ensures Sigma0x64(x) == Xor3x64(x.RotateRight(1), x.RotateRight(8), x >> 7)
    ensures Sigma1x64(x) == Xor3x64(x.RotateRight(19), x.RotateRight(61), x >> 6)
    ensures Add64(x, y) == x + y
  {
    hide Rotr64, Xor3x64;
    Rotations64(x);
  }

  /** The choice takes the bits of `y` where `x` has a one and those of `z` elsewhere. */
  lemma Chooses64(x: bv64, y: bv64, z: bv64)
    ensures Ch64(x, y, z) & x == y & x && Ch64(x, y, z) & !x == z & !x
  {
  }

  /** Wherever two of the three words have the same bit, the majority has it. */
  lemma IsMajority64(x: bv64, y: bv64, z: bv64)
    ensures Maj64(x, y, z) & !(x ^ y) == x & !(x ^ y)
    ensures Maj64(x, y, z) & !(y ^ z) == y & !(y ^ z)
    ensures Maj64(x, y, z) & !(x ^ z) == z & !(x ^ z)
  {
    FirstTwo64(x, y, z);
    LastTwo64(x, y, z);
    Outer64(x, y, z);
    hide Maj64;
  }

  lemma FirstTwo64(x: bv64, y: bv64, z: bv64)
    ensures Maj64(x, y, z) & !(x ^ y) == x & !(x ^ y)
  {
  }

  lemma LastTwo64(x: bv64, y: bv64, z: bv64)
    ensures Maj64(x, y, z) & !(y ^ z) == y & !(y ^ z)
  {
  }

  lemma Outer64(x: bv64, y: bv64, z: bv64)
    ensures Maj64(x, y, z) & !(x ^ z) == z & !(x ^ z)
  {
  }

  /** The four functions meet what the streaming code asks of a hash, with the published sizes. */
  lemma FourHashes()
    ensures ValidHash(Sha224()) && ValidHash(Sha256()) && ValidHash(Sha384()) && ValidHash(Sha512())
    ensures |K256| == 64 && |K512| == 80
    ensures Suite32().blockBytes == 64 && Suite32().lenBytes == 8 && Suite64().blockBytes == 128 && Suite64().lenBytes == 16
    ensures DigestBytes(Sha224()) == 28 && DigestBytes(Sha256()) == 32
    ensures DigestBytes(Sha384()) == 48 && DigestBytes(Sha512()) == 64
  {
    assert ValidSuite(Suite32());
    assert ValidSuite(Suite64());
  }
}
