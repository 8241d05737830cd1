/**
 The one-shot SHA-256 hash, written from FIPS 180-4: ROTR (section 3.2), the
 functions (section 4.1.2), the constants (sections 4.2.2 and 5.3.3), padding
 (section 5.1.1) and the computation (section 6.2.2).
 */
module Sha256Spec {
  type Byte = bv8
  type Word = bv32
  type Block = s: seq<Byte> | |s| == 64 witness seq(64, _ => 0)

  const K: seq<Word> :=
    [0x428A2F98, 0x71374491, 0xB5C0FBCF, 0xE9B5DBA5, 0x3956C25B, 0x59F111F1, 0x923F82A4, 0xAB1C5ED5] +
    [0xD807AA98, 0x12835B01, 0x243185BE, 0x550C7DC3, 0x72BE5D74, 0x80DEB1FE, 0x9BDC06A7, 0xC19BF174] +
    [0xE49B69C1, 0xEFBE4786, 0x0FC19DC6, 0x240CA1CC, 0x2DE92C6F, 0x4A7484AA, 0x5CB0A9DC, 0x76F988DA] +
    [0x983E5152, 0xA831C66D, 0xB00327C8, 0xBF597FC7, 0xC6E00BF3, 0xD5A79147, 0x06CA6351, 0x14292967] +
    [0x27B70A85, 0x2E1B2138, 0x4D2C6DFC, 0x53380D13, 0x650A7354, 0x766A0ABB, 0x81C2C92E, 0x92722C85] +
    [0xA2BFE8A1, 0xA81A664B, 0xC24B8B70, 0xC76C51A3, 0xD192E819, 0xD6990624, 0xF40E3585, 0x106AA070] +
    [0x19A4C116, 0x1E376C08, 0x2748774C, 0x34B0BCB5, 0x391C0CB3, 0x4ED8AA4A, 0x5B9CCA4F, 0x682E6FF3] +
    [0x748F82EE, 0x78A5636F, 0x84C87814, 0x8CC70208, 0x90BEFFFA, 0xA4506CEB, 0xBEF9A3F7, 0xC67178F2]

  /** The eight working variables a..h of section 6.2.2, also used for a hash value. */
  datatype Vars = Vars(a: Word, b: Word, c: Word, d: Word, e: Word, f: Word, g: Word, h: Word)

  const INITIAL := Vars(0x6A09E667, 0xBB67AE85, 0x3C6EF372, 0xA54FF53A,
                        0x510E527F, 0x9B05688C, 0x1F83D9AB, 0x5BE0CD19)

  // -- Section 3.2 and section 4.1.2 ------------------------------------------------

  function Rotr(n: bv6, x: Word): Word
    requires 0 < n < 32
  {
    (x >> n) | (x << (32 - n))
  }

  /** Addition modulo 2^32 (section 2.2.2). */
  function Add(x: Word, y: Word): Word { x + y }

  function Sum4(x: Word, y: Word, z: Word, u: Word): Word { x + y + z + u }

  function Sum5(x: Word, y: Word, z: Word, u: Word, v: Word): Word { x + y + z + u + v }

  function Ch(x: Word, y: Word, z: Word): Word { (x & y) ^ (!x & z) }

  function Maj(x: Word, y: Word, z: Word): Word { (x & y) ^ (x & z) ^ (y & z) }

  function BigSigma0(x: Word): Word { Rotr(2, x) ^ Rotr(13, x) ^ Rotr(22, x) }

  function BigSigma1(x: Word): Word { Rotr(6, x) ^ Rotr(11, x) ^ Rotr(25, x) }

  function SmallSigma0(x: Word): Word { Rotr(7, x) ^ Rotr(18, x) ^ (x >> 3) }

  function SmallSigma1(x: Word): Word { Rotr(17, x) ^ Rotr(19, x) ^ (x >> 10) }

  // -- Section 6.2.2 ----------------------------------------------------------------

  /** Four bytes read as one big-endian word (section 3.1). */
  function BigEndianWord(b0: Byte, b1: Byte, b2: Byte, b3: Byte): Word {
    (b0 as bv32 << 24) | (b1 as bv32 << 16) | (b2 as bv32 << 8) | (b3 as bv32)
  }

  /** The first n words of the message schedule of a block. */
  function Schedule(block: Block, n: nat): (w: seq<Word>)
    requires n <= 64
    ensures |w| == n
  {
    if n == 0 then [] else
      var w := Schedule(block, n - 1);
      var t := n - 1;
      w + [if t < 16
           then BigEndianWord(block[4 * t], block[4 * t + 1], block[4 * t + 2], block[4 * t + 3])
           else Sum4(SmallSigma1(w[t - 2]), w[t - 7], SmallSigma0(w[t - 15]), w[t - 16])]
  }

  /** T1 + T2, where T2 is the sum of a big sigma and a majority. */
  function PlusT2(t1: Word, sigma: Word, maj: Word): Word {
    var t2 := sigma + maj;
    t1 + t2
  }

  function Round(v: Vars, k: Word, w: Word): Vars {
    var t1 := Sum5(v.h, BigSigma1(v.e), Ch(v.e, v.f, v.g), k, w);
    Vars(PlusT2(t1, BigSigma0(v.a), Maj(v.a, v.b, v.c)), v.a, v.b, v.c, Add(v.d, t1), v.e, v.f, v.g)
  }

  function Rounds(v: Vars, w: seq<Word>, n: nat): Vars
    requires n <= 64 == |w|
  {
    if n == 0 then v else Round(Rounds(v, w, n - 1), K[n - 1], w[n - 1])
  }

  function Compress(v: Vars, block: Block): Vars {
    var r := Rounds(v, Schedule(block, 64), 64);
    Vars(Add(v.a, r.a), Add(v.b, r.b), Add(v.c, r.c), Add(v.d, r.d),
         Add(v.e, r.e), Add(v.f, r.f), Add(v.g, r.g), Add(v.h, r.h))
  }

  /** The hash value after absorbing a whole number of blocks. */
  function Absorb(m: seq<Byte>): Vars
    requires |m| % 64 == 0
  {
    if m == [] then INITIAL
    else Compress(Absorb(m[..|m| - 64]), m[|m| - 64..])
  }

  // -- Section 5.1.1 ----------------------------------------------------------------

  function Zeros(n: nat): (z: seq<Byte>)
    ensures |z| == n
  {
    seq(n, _ => 0)
  }

  /** The byte with value n. */
  function Count(n: nat): Byte {
    if n == 0 then 0 else Count(n - 1) + 1
  }

  /** The low eight bits of v. */
  function ByteOf(v: nat): Byte {
    Count(v % 256)
  }

  /** The low 32 bits of v as four big-endian bytes. */
  function BigEndian32(v: nat): (s: seq<Byte>)
    ensures |s| == 4
  {
    [ByteOf(v / 0x100_0000), ByteOf(v / 0x1_0000), ByteOf(v / 0x100), ByteOf(v)]
  }

  /** v as eight big-endian bytes. */
  function BigEndian64(v: nat): (s: seq<Byte>)
    ensures |s| == 8
  {
    BigEndian32(v / 0x1_0000_0000) + BigEndian32(v)
  }

  /** The number of zero bytes after the 0x80 byte. */
  function ZeroCount(len: nat): nat {
    (119 - len % 64) % 64
  }

  lemma ZeroCountFits(len: nat)
    ensures (len + 1 + ZeroCount(len)) % 64 == 56
    ensures (len + 1 + ZeroCount(len) + 8) % 64 == 0
  {
    var q, r := len / 64, len % 64;
    var z := if r <= 55 then 55 - r else 119 - r;
    assert z == ZeroCount(len);
    assert len + 1 + z == 64 * (if r <= 55 then q else q + 1) + 56;
  }

  /** ZeroCount is the least count that leaves exactly eight bytes of the last block for the length. */
  lemma ZeroCountIsLeast(len: nat, z: nat)
    requires (len + 1 + z) % 64 == 56
    ensures ZeroCount(len) <= z
  {
    var q, r, k := len / 64, len % 64, (len + 1 + z) / 64;
    assert 64 * (k - q) == r + 1 + z - 56;
  }

  function Pad(m: seq<Byte>): (p: seq<Byte>)
    requires 8 * |m| < 0x1_0000_0000_0000_0000
    ensures |p| % 64 == 0
  {
    ZeroCountFits(|m|);
    var p := m + [0x80] + Zeros(ZeroCount(|m|)) + BigEndian64(8 * |m|);
    assert |p| == |m| + 1 + ZeroCount(|m|) + 8;
    p
  }

  function WordBytes(w: Word): (s: seq<Byte>)
    ensures |s| == 4
  {
    [((w >> 24) & 0xFF) as bv8, ((w >> 16) & 0xFF) as bv8, ((w >> 8) & 0xFF) as bv8, (w & 0xFF) as bv8]
  }

  function DigestBytes(v: Vars): (s: seq<Byte>)
    ensures |s| == 32
  {
    WordBytes(v.a) + WordBytes(v.b) + WordBytes(v.c) + WordBytes(v.d) +
    WordBytes(v.e) + WordBytes(v.f) + WordBytes(v.g) + WordBytes(v.h)
  }

  /** SHA-256 of a message shorter than 2^61 bytes. */
  function Sha256(m: seq<Byte>): (digest: seq<Byte>)
    requires 8 * |m| < 0x1_0000_0000_0000_0000
    ensures |digest| == 32
  {
    DigestBytes(Absorb(Pad(m)))
  }
}
