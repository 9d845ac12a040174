/** SHA-1 as FIPS 180-4 defines it, for messages of whole bytes. */
module Sha1Spec {
  import opened Chunks

  type octet = bv8
  type word = bv32

  datatype Hash = Hash(a: word, b: word, c: word, d: word, e: word)

  /** Section 3.2: the circular left shift. */
  function Rotl(n: nat, x: word): word
    requires 0 < n < 32
  {
    (x << n) | (x >> (32 - n))
  }

  /** Section 4.1.1: the logical functions. */
  function Ch(x: word, y: word, z: word): word { (x & y) ^ (!x & z) }
  function Parity(x: word, y: word, z: word): word { x ^ y ^ z }
  function Maj(x: word, y: word, z: word): word { (x & y) ^ (x & z) ^ (y & z) }

  function F(t: nat, x: word, y: word, z: word): word
  {
    if t < 20 then Ch(x, y, z) else if 40 <= t < 60 then Maj(x, y, z) else Parity(x, y, z)
  }

  /** Section 4.2.1: the constants. */
  function K(t: nat): word
  {
    if t < 20 then 0x5a827999 else if t < 40 then 0x6ed9eba1 else if t < 60 then 0x8f1bbcdc else 0xca62c1d6
  }

  /** Section 5.3.1: the initial hash value. */
  const H0 := Hash(0x67452301, 0xefcdab89, 0x98badcfe, 0x10325476, 0xc3d2e1f0)

  type Block = s: seq<octet> | |s| == 64 witness seq(64, i => 0)

  function BigEndian(b0: octet, b1: octet, b2: octet, b3: octet): word
  {
    (b0 as word << 24) | (b1 as word << 16) | (b2 as word << 8) | b3 as word
  }

  /** The first byte is the highest. */
  lemma BigEndianBytes(b0: octet, b1: octet, b2: octet, b3: octet)
    ensures var w := BigEndian(b0, b1, b2, b3);
      && w >> 24 == b0 as word && (w >> 16) & 0xff == b1 as word
      && (w >> 8) & 0xff == b2 as word && w & 0xff == b3 as word
  {
  }

  function Mixed(a: word, b: word, c: word, d: word): word { a ^ b ^ c ^ d }

  /** Section 6.1.2, step 1: the message schedule. */
  function W(m: Block, t: nat): word
  {
    if t < 16 then BigEndian(m[4 * t], m[4 * t + 1], m[4 * t + 2], m[4 * t + 3])
    else Rotl(1, Mixed(W(m, t - 3), W(m, t - 8), W(m, t - 14), W(m, t - 16)))
  }

  /** Section 2.2.2: addition modulo 2^32. */
  function Plus(x: word, y: word): word { x + y }

  function Sum(x: word, f: word, e: word, k: word, w: word): word { x + f + e + k + w }

  /** Step 3: one round. */
  function Round(v: Hash, t: nat, w: word): Hash
  {
    Hash(Sum(Rotl(5, v.a), F(t, v.b, v.c, v.d), v.e, K(t), w), v.a, Rotl(30, v.b), v.c, v.d)
  }

  /** The working variables after the first t rounds. */
  function Rounds(h: Hash, m: Block, t: nat): Hash
  {
    if t == 0 then h else Round(Rounds(h, m, t - 1), t - 1, W(m, t - 1))
  }

  function Add(h: Hash, v: Hash): Hash
  {
    Hash(Plus(h.a, v.a), Plus(h.b, v.b), Plus(h.c, v.c), Plus(h.d, v.d), Plus(h.e, v.e))
  }

  /** Steps 2 to 4: the intermediate hash value after one more block. */
  function Compress(h: Hash, m: Block): Hash
  {
    Add(h, Rounds(h, m, 80))
  }

  /** The hash value after all blocks of m. */
  function Hashed(m: seq<octet>): Hash
    requires |m| % 64 == 0
    decreases |m|
  {
    if m == [] then H0 else Compress(Hashed(m[..|m| - 64]), m[|m| - 64..])
  }

  /** The length in bits as a 64-bit block. */
  function LengthBlock(bits: nat): (b: seq<octet>)
    ensures |b| == 8
  {
    var high, low := bits / 0x1_0000_0000 % 0x1_0000_0000, bits % 0x1_0000_0000;
    Octets(high) + Octets(low)
  }

  function Octets(x: nat): (b: seq<octet>)
    requires x < 0x1_0000_0000
    ensures |b| == 4
  {
    [(x / 0x100_0000) as octet, (x / 0x1_0000 % 0x100) as octet, (x / 0x100 % 0x100) as octet, (x % 0x100) as octet]
  }

  /** The four bytes of a number are its digits to the base of 256, the highest first. */
  lemma OctetsAreDigits(a: nat, b: nat, c: nat, d: nat)
    requires a < 0x100 && b < 0x100 && c < 0x100 && d < 0x100
    ensures Octets(0x100_0000 * a + 0x1_0000 * b + 0x100 * c + d) == [a as octet, b as octet, c as octet, d as octet]
  {
    DigitsOf(a, b, c, d);
  }

  lemma DigitsOf(a: nat, b: nat, c: nat, d: nat)
    requires a < 0x100 && b < 0x100 && c < 0x100 && d < 0x100
    ensures var x := 0x100_0000 * a + 0x1_0000 * b + 0x100 * c + d;
      && x < 0x1_0000_0000 && x / 0x100_0000 == a
      && x / 0x1_0000 % 0x100 == b && x / 0x100 % 0x100 == c && x % 0x100 == d
  {
    Upper(a, 0x1_0000 * b + 0x100 * c + d, 0x100_0000);
    Upper(0x100 * a + b, 0x100 * c + d, 0x1_0000);
    Upper(0x1_0000 * a + 0x100 * b + c, d, 0x100);
    Lower(a, b);
    Lower(0x100 * a + b, c);
    Lower(0x1_0000 * a + 0x100 * b + c, d);
  }

  lemma Upper(q: nat, r: nat, d: nat)
    requires r < d && (d == 0x100_0000 || d == 0x1_0000 || d == 0x100)
    ensures (d * q + r) / d == q
  {
  }

  lemma Lower(q: nat, r: nat)
    requires r < 0x100
    ensures (0x100 * q + r) % 0x100 == r
  {
  }

  /** Section 5.1.1: a one bit, the smallest number k of zero bytes that leaves eight bytes to the end
      of a block, and the length. */
  function Padded(m: seq<octet>): (p: seq<octet>)
    ensures |p| % 64 == 0
  {
    var k := (55 - |m| as int) % 64;
    assert (|m| + 1 + k + 8) % 64 == 0;
    m + [0x80] + Fill<octet>(0, k) + LengthBlock(8 * |m|)
  }

  /** Section 6.1: the message digest. */
  function Sha1(m: seq<octet>): Hash
  {
    Hashed(Padded(m))
  }
}
