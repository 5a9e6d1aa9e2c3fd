/** The Secure Hash Standard as FIPS 180-2 states it: a one-shot function of a bit string.

    Nothing here has a buffer, an index or a counter; the streaming contexts are proved against it. */
module Fips180 {
  import opened Bits
  import opened Words

  datatype Version = SHA1 | SHA224 | SHA256 | SHA384 | SHA512

  // ---------- sizes (figure 1 and section 6) ----------

  /** Octets in a message block. */
  function BlockSize(v: Version): (n: nat) ensures n == 64 || n == 128 {
    if v == SHA384 || v == SHA512 then 128 else 64
  }

  /** Octets in a digest. */
  function HashSize(v: Version): (n: nat) ensures 20 <= n <= 64 {
    match v
    case SHA1 => 20
    case SHA224 => 28
    case SHA256 => 32
    case SHA384 => 48
    case SHA512 => 64
  }

  /** Bits in a word. */
  function WordSize(v: Version): (n: nat) ensures n == 32 || n == 64 {
    if v == SHA384 || v == SHA512 then 64 else 32
  }

  /** Words in a chaining value. */
  function ChainSize(v: Version): (n: nat) ensures n == 5 || n == 8 {
    if v == SHA1 then 5 else 8
  }

  // ---------- section 5.3: initial hash values ----------

  function InitialHash(v: Version): (h: seq<nat>)
    ensures |h| == ChainSize(v)
  {
    match v
    case SHA1 => [0x6745_2301, 0xEFCD_AB89, 0x98BA_DCFE, 0x1032_5476, 0xC3D2_E1F0]
    case SHA224 => [0xC105_9ED8, 0x367C_D507, 0x3070_DD17, 0xF70E_5939,
                    0xFFC0_0B31, 0x6858_1511, 0x64F9_8FA7, 0xBEFA_4FA4]
    case SHA256 => [0x6A09_E667, 0xBB67_AE85, 0x3C6E_F372, 0xA54F_F53A,
                    0x510E_527F, 0x9B05_688C, 0x1F83_D9AB, 0x5BE0_CD19]
    case SHA384 => [0xCBBB_9D5D_C105_9ED8, 0x629A_292A_367C_D507, 0x9159_015A_3070_DD17, 0x152F_ECD8_F70E_5939,
                    0x6733_2667_FFC0_0B31, 0x8EB4_4A87_6858_1511, 0xDB0C_2E0D_64F9_8FA7, 0x47B5_481D_BEFA_4FA4]
    case SHA512 => [0x6A09_E667_F3BC_C908, 0xBB67_AE85_84CA_A73B, 0x3C6E_F372_FE94_F82B, 0xA54F_F53A_5F1D_36F1,
                    0x510E_527F_ADE6_82D1, 0x9B05_688C_2B3E_6C1F, 0x1F83_D9AB_FB41_BD6B, 0x5BE0_CD19_137E_2179]
  }

  // ---------- section 4.2: constants ----------

  function K1(t: nat): nat {
    if t < 20 then 0x5A82_7999 else if t < 40 then 0x6ED9_EBA1 else if t < 60 then 0x8F1B_BCDC else 0xCA62_C1D6
  }

  /** Section 4.2.2, eight words a row. */
  function K256Row(r: nat): (k: seq<nat>)
    requires r < 8
    ensures |k| == 8
  {
    match r
    case 0 => [0x428A_2F98, 0x7137_4491, 0xB5C0_FBCF, 0xE9B5_DBA5, 0x3956_C25B, 0x59F1_11F1, 0x923F_82A4, 0xAB1C_5ED5]
    case 1 => [0xD807_AA98, 0x1283_5B01, 0x2431_85BE, 0x550C_7DC3, 0x72BE_5D74, 0x80DE_B1FE, 0x9BDC_06A7, 0xC19B_F174]
    case 2 => [0xE49B_69C1, 0xEFBE_4786, 0x0FC1_9DC6, 0x240C_A1CC, 0x2DE9_2C6F, 0x4A74_84AA, 0x5CB0_A9DC, 0x76F9_88DA]
    case 3 => [0x983E_5152, 0xA831_C66D, 0xB003_27C8, 0xBF59_7FC7, 0xC6E0_0BF3, 0xD5A7_9147, 0x06CA_6351, 0x1429_2967]
    case 4 => [0x27B7_0A85, 0x2E1B_2138, 0x4D2C_6DFC, 0x5338_0D13, 0x650A_7354, 0x766A_0ABB, 0x81C2_C92E, 0x9272_2C85]
    case 5 => [0xA2BF_E8A1, 0xA81A_664B, 0xC24B_8B70, 0xC76C_51A3, 0xD192_E819, 0xD699_0624, 0xF40E_3585, 0x106A_A070]
    case 6 => [0x19A4_C116, 0x1E37_6C08, 0x2748_774C, 0x34B0_BCB5, 0x391C_0CB3, 0x4ED8_AA4A, 0x5B9C_CA4F, 0x682E_6FF3]
    case _ => [0x748F_82EE, 0x78A5_636F, 0x84C8_7814, 0x8CC7_0208, 0x90BE_FFFA, 0xA450_6CEB, 0xBEF9_A3F7, 0xC671_78F2]
  }

  /** Section 4.2.3, eight words a row. */
  function K512Row(r: nat): (k: seq<nat>)
    requires r < 10
    ensures |k| == 8
  {
    match r
    case 0 => [0x428A_2F98_D728_AE22, 0x7137_4491_23EF_65CD, 0xB5C0_FBCF_EC4D_3B2F, 0xE9B5_DBA5_8189_DBBC,
               0x3956_C25B_F348_B538, 0x59F1_11F1_B605_D019, 0x923F_82A4_AF19_4F9B, 0xAB1C_5ED5_DA6D_8118]
    case 1 => [0xD807_AA98_A303_0242, 0x1283_5B01_4570_6FBE, 0x2431_85BE_4EE4_B28C, 0x550C_7DC3_D5FF_B4E2,
               0x72BE_5D74_F27B_896F, 0x80DE_B1FE_3B16_96B1, 0x9BDC_06A7_25C7_1235, 0xC19B_F174_CF69_2694]
    case 2 => [0xE49B_69C1_9EF1_4AD2, 0xEFBE_4786_384F_25E3, 0x0FC1_9DC6_8B8C_D5B5, 0x240C_A1CC_77AC_9C65,
               0x2DE9_2C6F_592B_0275, 0x4A74_84AA_6EA6_E483, 0x5CB0_A9DC_BD41_FBD4, 0x76F9_88DA_8311_53B5]
    case 3 => [0x983E_5152_EE66_DFAB, 0xA831_C66D_2DB4_3210, 0xB003_27C8_98FB_213F, 0xBF59_7FC7_BEEF_0EE4,
               0xC6E0_0BF3_3DA8_8FC2, 0xD5A7_9147_930A_A725, 0x06CA_6351_E003_826F, 0x1429_2967_0A0E_6E70]
    case 4 => [0x27B7_0A85_46D2_2FFC, 0x2E1B_2138_5C26_C926, 0x4D2C_6DFC_5AC4_2AED, 0x5338_0D13_9D95_B3DF,
               0x650A_7354_8BAF_63DE, 0x766A_0ABB_3C77_B2A8, 0x81C2_C92E_47ED_AEE6, 0x9272_2C85_1482_353B]
    case 5 => [0xA2BF_E8A1_4CF1_0364, 0xA81A_664B_BC42_3001, 0xC24B_8B70_D0F8_9791, 0xC76C_51A3_0654_BE30,
               0xD192_E819_D6EF_5218, 0xD699_0624_5565_A910, 0xF40E_3585_5771_202A, 0x106A_A070_32BB_D1B8]
    case 6 => [0x19A4_C116_B8D2_D0C8, 0x1E37_6C08_5141_AB53, 0x2748_774C_DF8E_EB99, 0x34B0_BCB5_E19B_48A8,
               0x391C_0CB3_C5C9_5A63, 0x4ED8_AA4A_E341_8ACB, 0x5B9C_CA4F_7763_E373, 0x682E_6FF3_D6B2_B8A3]
    case 7 => [0x748F_82EE_5DEF_B2FC, 0x78A5_636F_4317_2F60, 0x84C8_7814_A1F0_AB72, 0x8CC7_0208_1A64_39EC,
               0x90BE_FFFA_2363_1E28, 0xA450_6CEB_DE82_BDE9, 0xBEF9_A3F7_B2C6_7915, 0xC671_78F2_E372_532B]
    case 8 => [0xCA27_3ECE_EA26_619C, 0xD186_B8C7_21C0_C207, 0xEADA_7DD6_CDE0_EB1E, 0xF57D_4F7F_EE6E_D178,
               0x06F0_67AA_7217_6FBA, 0x0A63_7DC5_A2C8_98A6, 0x113F_9804_BEF9_0DAE, 0x1B71_0B35_131C_471B]
    case _ => [0x28DB_77F5_2304_7D84, 0x32CA_AB7B_40C7_2493, 0x3C9E_BE0A_15C9_BEBC, 0x431D_67C4_9C10_0D4C,
               0x4CC5_D4BE_CB3E_42B6, 0x597F_299C_FC65_7E2A, 0x5FCB_6FAB_3AD6_FAEC, 0x6C44_198C_4A47_5817]
  }

  function K256(t: nat): nat
    requires t < 64
  {
    K256Row(t / 8)[t % 8]
  }

  function K512(t: nat): nat
    requires t < 80
  {
    K512Row(t / 8)[t % 8]
  }

  // ---------- section 6.1.2: SHA-1 ----------

  datatype Five = Five(a: nat, b: nat, c: nat, d: nat, e: nat)

  /** The first n words of the message schedule. */
  function Schedule1(m: seq<nat>, n: nat): (w: seq<nat>)
    requires |m| == 16 <= n
    ensures |w| == n
  {
    if n == 16 then m
    else
      var w := Schedule1(m, n - 1);
      w + [Rotl(32, Xor3(32, Xor2(32, w[n - 4], w[n - 9]), w[n - 15], w[n - 17]), 1)]
  }

  function F1(t: nat, x: nat, y: nat, z: nat): nat {
    if t < 20 then Ch(32, x, y, z) else if 40 <= t < 60 then Maj(32, x, y, z) else Parity(32, x, y, z)
  }

  function Round1(t: nat, w: nat, s: Five): Five {
    var temp := Add(32, Add(32, Add(32, Add(32, Rotl(32, s.a, 5), F1(t, s.b, s.c, s.d)), s.e), w), K1(t));
    Five(temp, s.a, Rotl(32, s.b, 30), s.c, s.d)
  }

  function Rounds1(w: seq<nat>, s: Five, n: nat): Five
    requires n <= |w|
  {
    if n == 0 then s else Round1(n - 1, w[n - 1], Rounds1(w, s, n - 1))
  }

  function Compress1(h: seq<nat>, m: seq<nat>): (r: seq<nat>)
    requires |h| == 5 && |m| == 16
    ensures |r| == 5
  {
    var s := Rounds1(Schedule1(m, 80), Five(h[0], h[1], h[2], h[3], h[4]), 80);
    [Add(32, h[0], s.a), Add(32, h[1], s.b), Add(32, h[2], s.c), Add(32, h[3], s.d), Add(32, h[4], s.e)]
  }

  // ---------- sections 6.2.2 and 6.3.2: SHA-256 (words of 32 bits) and SHA-512 (words of 64 bits) ----------

  datatype Eight = Eight(a: nat, b: nat, c: nat, d: nat, e: nat, f: nat, g: nat, h: nat)

  predicate Wide(w: nat) { w == 32 || w == 64 }

  function BigSigma0(w: nat, x: nat): (r: nat) requires Wide(w) ensures r < Pow2(w) {
    if w == 32 then Xor3(w, Rotr(w, x, 2), Rotr(w, x, 13), Rotr(w, x, 22))
    else Xor3(w, Rotr(w, x, 28), Rotr(w, x, 34), Rotr(w, x, 39))
  }

  function BigSigma1(w: nat, x: nat): (r: nat) requires Wide(w) ensures r < Pow2(w) {
    if w == 32 then Xor3(w, Rotr(w, x, 6), Rotr(w, x, 11), Rotr(w, x, 25))
    else Xor3(w, Rotr(w, x, 14), Rotr(w, x, 18), Rotr(w, x, 41))
  }

  function SmallSigma0(w: nat, x: nat): (r: nat) requires Wide(w) ensures r < Pow2(w) {
    if w == 32 then Xor3(w, Rotr(w, x, 7), Rotr(w, x, 18), Shr(x, 3))
    else Xor3(w, Rotr(w, x, 1), Rotr(w, x, 8), Shr(x, 7))
  }

  function SmallSigma1(w: nat, x: nat): (r: nat) requires Wide(w) ensures r < Pow2(w) {
    if w == 32 then Xor3(w, Rotr(w, x, 17), Rotr(w, x, 19), Shr(x, 10))
    else Xor3(w, Rotr(w, x, 19), Rotr(w, x, 61), Shr(x, 6))
  }

  function NumRounds(w: nat): nat { if w == 32 then 64 else 80 }

  function K2(w: nat, t: nat): nat
    requires Wide(w) && t < NumRounds(w)
  {
    if w == 32 then K256(t) else K512(t)
  }

  function ScheduleWord2(w: nat, x2: nat, x7: nat, x15: nat, x16: nat): (r: nat)
    requires Wide(w)
    ensures r < Pow2(w)
  {
    Add(w, Add(w, Add(w, SmallSigma1(w, x2), x7), SmallSigma0(w, x15)), x16)
  }

  function Schedule2(w: nat, m: seq<nat>, n: nat): (s: seq<nat>)
    requires Wide(w) && |m| == 16 <= n
    ensures |s| == n
  {
    if n == 16 then m
    else
      var s := Schedule2(w, m, n - 1);
      s + [ScheduleWord2(w, s[n - 3], s[n - 8], s[n - 16], s[n - 17])]
  }

  function Round2(w: nat, k: nat, wt: nat, s: Eight): Eight
    requires Wide(w)
  {
    var t1 := Add(w, Add(w, Add(w, Add(w, s.h, BigSigma1(w, s.e)), Ch(w, s.e, s.f, s.g)), k), wt);
    var t2 := Add(w, BigSigma0(w, s.a), Maj(w, s.a, s.b, s.c));
    Eight(Add(w, t1, t2), s.a, s.b, s.c, Add(w, s.d, t1), s.e, s.f, s.g)
  }

  function Rounds2(w: nat, x: seq<nat>, s: Eight, n: nat): Eight
    requires Wide(w) && n <= |x| && n <= NumRounds(w)
  {
    if n == 0 then s else Round2(w, K2(w, n - 1), x[n - 1], Rounds2(w, x, s, n - 1))
  }

  function ToEight(h: seq<nat>): Eight
    requires |h| == 8
  {
    Eight(h[0], h[1], h[2], h[3], h[4], h[5], h[6], h[7])
  }

  function Compress2(w: nat, h: seq<nat>, m: seq<nat>): (r: seq<nat>)
    requires Wide(w) && |h| == 8 && |m| == 16
    ensures |r| == 8
  {
    var s := Rounds2(w, Schedule2(w, m, NumRounds(w)), ToEight(h), NumRounds(w));
    [Add(w, h[0], s.a), Add(w, h[1], s.b), Add(w, h[2], s.c), Add(w, h[3], s.d),
     Add(w, h[4], s.e), Add(w, h[5], s.f), Add(w, h[6], s.g), Add(w, h[7], s.h)]
  }

  // ---------- section 5.2: parsing; section 6: the hash computation ----------

  /** The sixteen big-endian words of a block. */
  function BlockWords(k: nat, block: seq<byte>): (m: seq<nat>)
    requires |block| == 16 * k
    ensures |m| == 16
  {
    seq(16, i requires 0 <= i < 16 => BytesWord(Octets(k, block, i)))
  }

  function Octets(k: nat, block: seq<byte>, i: nat): (s: seq<byte>)
    requires |block| == 16 * k && i < 16
    ensures |s| == k
  {
    assert k * i + k <= 16 * k by { assert k * i <= k * 15; }
    block[k * i..k * i + k]
  }

  function Compress(v: Version, h: seq<nat>, block: seq<byte>): (r: seq<nat>)
    requires |h| == ChainSize(v) && |block| == BlockSize(v)
    ensures |r| == ChainSize(v)
  {
    if v == SHA1 then Compress1(h, BlockWords(4, block))
    else Compress2(WordSize(v), h, BlockWords(WordSize(v) / 8, block))
  }

  /** How far n octets reach into their last block. */
  function Offset(v: Version, n: nat): (i: nat)
    ensures i < BlockSize(v) && i <= n
  {
    if BlockSize(v) == 64 then n % 64 else n % 128
  }

  /** The chaining value after all blocks of a padded message. */
  function Chain(v: Version, m: seq<byte>): (h: seq<nat>)
    requires Offset(v, |m|) == 0
    ensures |h| == ChainSize(v)
  {
    var n := |m| - BlockSize(v);
    if |m| == 0 then InitialHash(v) else Compress(v, Chain(v, m[..n]), m[n..])
  }

  // ---------- section 5.1: padding ----------

  /** Bits in the length field. */
  function LengthField(v: Version): (n: nat) ensures n == 64 || n == 128 {
    if v == SHA384 || v == SHA512 then 128 else 64
  }

  /** The least k with l + 1 + k congruent to 448 modulo 512, or to 896 modulo 1024. */
  function PadZeros(v: Version, l: nat): (k: nat) {
    if BlockSize(v) == 64 then (448 - (l + 1)) % 512 else (896 - (l + 1)) % 1024
  }

  function Pad(v: Version, m: seq<bool>): (p: seq<bool>) {
    m + [true] + Zeros(PadZeros(v, |m|)) + NatBits(|m|, LengthField(v))
  }

  lemma PadWhole(v: Version, m: seq<bool>)
    ensures Offset(v, |Pack(Pad(v, m))|) == 0
  {
    PadLength(v, m);
    hide *;
    WholeOctets(v, |Pad(v, m)|, |Pack(Pad(v, m))|);
  }

  lemma PadLength(v: Version, m: seq<bool>)
    ensures if BlockSize(v) == 64 then |Pad(v, m)| % 512 == 0 else |Pad(v, m)| % 1024 == 0
  {
    PaddedLength(v, m);
    hide *;
    if BlockSize(v) == 64 {
      FillsUp512(|m| + 1);
    } else {
      FillsUp1024(|m| + 1);
    }
  }

  lemma PaddedLength(v: Version, m: seq<bool>)
    ensures BlockSize(v) == 64 ==> |Pad(v, m)| == (|m| + 1) + (448 - (|m| + 1)) % 512 + 64
    ensures BlockSize(v) == 128 ==> |Pad(v, m)| == (|m| + 1) + (896 - (|m| + 1)) % 1024 + 128
  {
  }

  lemma WholeOctets(v: Version, p: nat, n: nat)
    requires 8 * n <= p < 8 * n + 8
    requires if BlockSize(v) == 64 then p % 512 == 0 else p % 1024 == 0
    ensures Offset(v, n) == 0
  {
  }

  lemma FillsUp512(l: nat)
    ensures (l + (448 - l) % 512 + 64) % 512 == 0
  {
    var q, r := (448 - l) / 512, (448 - l) % 512;
    assert l + r + 64 == 512 * (1 - q);
  }

  lemma FillsUp1024(l: nat)
    ensures (l + (896 - l) % 1024 + 128) % 1024 == 0
  {
    var q, r := (896 - l) / 1024, (896 - l) % 1024;
    assert l + r + 128 == 1024 * (1 - q);
  }

  function ChainBytes(v: Version, h: seq<nat>): (s: seq<byte>)
    ensures |s| == if WordSize(v) == 32 then 4 * |h| else 8 * |h|
  {
    if h == [] then [] else ChainBytes(v, h[..|h| - 1]) + WordBytes(h[|h| - 1], WordSize(v) / 8)
  }

  function DigestBytes(v: Version, h: seq<nat>): (d: seq<byte>)
    requires |h| == ChainSize(v)
    ensures |d| == HashSize(v)
  {
    ChainBytes(v, h)[..HashSize(v)]
  }

  /** The digest of a message of any number of bits: the leftmost octets of the final chaining value. */
  function Digest(v: Version, m: seq<bool>): (d: seq<byte>)
    requires |m| < Pow2(LengthField(v))
    ensures |d| == HashSize(v)
  {
    PadWhole(v, m);
    DigestBytes(v, Chain(v, Pack(Pad(v, m))))
  }
}
