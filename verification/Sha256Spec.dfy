/** SHA-256 by FIPS 180-4: sections 3.2 (operations), 4.1.2 (functions), 4.2.2 (constants), 5.1.1 (padding),
    5.2.1 (blocks), 5.3.3 (initial value) and 6.2 (computation). */
module Sha256Spec {
  import opened Wrappers

  type word = bv32

  // ---- section 3.2 -----------------------------------------------------------------------------

  /** Addition modulo 2^32. */
  function Add(x: word, y: word): word { x + y }

  function Xor(x: word, y: word): word { x ^ y }

  // Rotations to the right, and shifts.

  function Rotr2(x: word): word { (x >> 2) | (x << 30) }
  function Rotr6(x: word): word { (x >> 6) | (x << 26) }
  function Rotr7(x: word): word { (x >> 7) | (x << 25) }
  function Rotr11(x: word): word { (x >> 11) | (x << 21) }
  function Rotr13(x: word): word { (x >> 13) | (x << 19) }
  function Rotr17(x: word): word { (x >> 17) | (x << 15) }
  function Rotr18(x: word): word { (x >> 18) | (x << 14) }
  function Rotr19(x: word): word { (x >> 19) | (x << 13) }
  function Rotr22(x: word): word { (x >> 22) | (x << 10) }
  function Rotr25(x: word): word { (x >> 25) | (x << 7) }
  function Shr3(x: word): word { x >> 3 }
  function Shr10(x: word): word { x >> 10 }

  // ---- section 4.1.2 ---------------------------------------------------------------------------

  function Ch(x: word, y: word, z: word): word { (x & y) ^ (!x & z) }
  function Maj(x: word, y: word, z: word): word { (x & y) ^ (x & z) ^ (y & z) }
  function BigSigma0(x: word): word { Xor(Xor(Rotr2(x), Rotr13(x)), Rotr22(x)) }
  function BigSigma1(x: word): word { Xor(Xor(Rotr6(x), Rotr11(x)), Rotr25(x)) }
  function SmallSigma0(x: word): word { Xor(Xor(Rotr7(x), Rotr18(x)), Shr3(x)) }
  function SmallSigma1(x: word): word { Xor(Xor(Rotr17(x), Rotr19(x)), Shr10(x)) }

  // ---- sections 4.2.2 and 5.3.3 ----------------------------------------------------------------

  /** The round constants, eight to a row. */
  const K0: seq<word> := [0x428a2f98, 0x71374491, 0xb5c0fbcf, 0xe9b5dba5,
    0x3956c25b, 0x59f111f1, 0x923f82a4, 0xab1c5ed5]
  const K1: seq<word> := [0xd807aa98, 0x12835b01, 0x243185be, 0x550c7dc3,
    0x72be5d74, 0x80deb1fe, 0x9bdc06a7, 0xc19bf174]
  const K2: seq<word> := [0xe49b69c1, 0xefbe4786, 0x0fc19dc6, 0x240ca1cc,
    0x2de92c6f, 0x4a7484aa, 0x5cb0a9dc, 0x76f988da]
  const K3: seq<word> := [0x983e5152, 0xa831c66d, 0xb00327c8, 0xbf597fc7,
    0xc6e00bf3, 0xd5a79147, 0x06ca6351, 0x14292967]
  const K4: seq<word> := [0x27b70a85, 0x2e1b2138, 0x4d2c6dfc, 0x53380d13,
    0x650a7354, 0x766a0abb, 0x81c2c92e, 0x92722c85]
  const K5: seq<word> := [0xa2bfe8a1, 0xa81a664b, 0xc24b8b70, 0xc76c51a3,
    0xd192e819, 0xd6990624, 0xf40e3585, 0x106aa070]
  const K6: seq<word> := [0x19a4c116, 0x1e376c08, 0x2748774c, 0x34b0bcb5,
    0x391c0cb3, 0x4ed8aa4a, 0x5b9cca4f, 0x682e6ff3]
  const K7: seq<word> := [0x748f82ee, 0x78a5636f, 0x84c87814, 0x8cc70208,
    0x90befffa, 0xa4506ceb, 0xbef9a3f7, 0xc67178f2]

  function K(t: nat): word
    requires t < 64
  {
    if t < 8 then K0[t] else if t < 16 then K1[t - 8] else if t < 24 then K2[t - 16] else if t < 32 then K3[t - 24]
    else if t < 40 then K4[t - 32] else if t < 48 then K5[t - 40] else if t < 56 then K6[t - 48] else K7[t - 56]
  }

  const H0: seq<word> := [
    0x6a09e667, 0xbb67ae85, 0x3c6ef372, 0xa54ff53a, 0x510e527f, 0x9b05688c, 0x1f83d9ab, 0x5be0cd19]

  // ---- section 6.2.2 ---------------------------------------------------------------------------

  /** The t-th big-endian word of a block. */
  function BlockWord(block: seq<byte>, t: nat): word
    requires |block| == 64 && t < 16
  {
    (block[4 * t] as word) * 0x100_0000 + (block[4 * t + 1] as word) * 0x1_0000
    + (block[4 * t + 2] as word) * 0x100 + (block[4 * t + 3] as word)
  }

  /** The message schedule. */
  function W(block: seq<byte>, t: nat): word
    requires |block| == 64
  {
    if t < 16 then BlockWord(block, t)
    else Add(Add(Add(SmallSigma1(W(block, t - 2)), W(block, t - 7)), SmallSigma0(W(block, t - 15))), W(block, t - 16))
  }

  datatype Working = Working(a: word, b: word, c: word, d: word, e: word, f: word, g: word, h: word)

  function Round(v: Working, k: word, w: word): Working {
    var t1 := Add(Add(Add(Add(v.h, BigSigma1(v.e)), Ch(v.e, v.f, v.g)), k), w);
    var t2 := Add(BigSigma0(v.a), Maj(v.a, v.b, v.c));
    Working(Add(t1, t2), v.a, v.b, v.c, Add(v.d, t1), v.e, v.f, v.g)
  }

  function Rounds(h: seq<word>, block: seq<byte>, t: nat): Working
    requires |h| == 8 && |block| == 64 && t <= 64
  {
    if t == 0 then Working(h[0], h[1], h[2], h[3], h[4], h[5], h[6], h[7])
    else Round(Rounds(h, block, t - 1), K(t - 1), W(block, t - 1))
  }

  function Compress(h: seq<word>, block: seq<byte>): (r: seq<word>)
    requires |h| == 8 && |block| == 64
    ensures |r| == 8
  {
    var v := Rounds(h, block, 64);
    [Add(h[0], v.a), Add(h[1], v.b), Add(h[2], v.c), Add(h[3], v.d),
     Add(h[4], v.e), Add(h[5], v.f), Add(h[6], v.g), Add(h[7], v.h)]
  }

  /** The hash value after the whole blocks of m. */
  function HashBlocks(h: seq<word>, m: seq<byte>): (r: seq<word>)
    requires |h| == 8
    ensures |r| == 8
    decreases |m|
  {
    if |m| < 64 then h else HashBlocks(Compress(h, m[..64]), m[64..])
  }

  // ---- section 5.1.1 ---------------------------------------------------------------------------

  function Zeros(n: nat): seq<byte> { seq(n, _ => 0) }

  /** n in `size` big-endian bytes, modulo 256 to that power. */
  function BigEndian(n: nat, size: nat): (r: seq<byte>)
    ensures |r| == size
  {
    if size == 0 then [] else BigEndian(n / 256, size - 1) + [(n % 256) as byte]
  }

  /** The least k with 8 * |m| + 1 + k = 448 modulo 512 leaves this many whole zero bytes after 0x80. */
  function ZeroBytes(n: nat): nat { (55 - n) % 64 }

  function Pad(m: seq<byte>): seq<byte>
    requires |m| < 0x2000_0000_0000_0000
  {
    m + [0x80] + Zeros(ZeroBytes(|m|)) + BigEndian(8 * |m|, 8)
  }

  /** A word in big-endian bytes. */
  function WordBytes(x: word): (r: seq<byte>)
    ensures |r| == 4
  {
    [(x >> 24) as byte, ((x >> 16) & 0xFF) as byte, ((x >> 8) & 0xFF) as byte, (x & 0xFF) as byte]
  }

  function Bytes(h: seq<word>): seq<byte> {
    if h == [] then [] else WordBytes(h[0]) + Bytes(h[1..])
  }

  function Digest(m: seq<byte>): seq<byte>
    requires |m| < 0x2000_0000_0000_0000
  {
    Bytes(HashBlocks(H0, Pad(m)))
  }

  /** Padding ends on a block boundary, and is the shortest that does with room for the length. */
  lemma PadIsBlocks(m: seq<byte>)
    requires |m| < 0x2000_0000_0000_0000
    ensures |Pad(m)| % 64 == 0 && |m| + 9 <= |Pad(m)| < |m| + 9 + 64
  {
    PadLength(|m|);
    hide BigEndian, Zeros, ZeroBytes;
  }

  lemma PadLength(n: nat)
    ensures (n + 9 + ZeroBytes(n)) % 64 == 0 && ZeroBytes(n) < 64
  {
    var q := (55 - n) / 64;
    assert n + 9 + ZeroBytes(n) == 64 * (1 - q);
  }

  lemma {:induction false} HashConcat(h: seq<word>, a: seq<byte>, b: seq<byte>)
    requires |h| == 8 && |a| % 64 == 0
    ensures HashBlocks(h, a + b) == HashBlocks(HashBlocks(h, a), b)
    decreases |a|
  {
    if |a| == 0 {
      assert a + b == b;
    } else {
      assert (a + b)[..64] == a[..64] && (a + b)[64..] == a[64..] + b;
      HashConcat(Compress(h, a[..64]), a[64..], b);
    }
  }
}
