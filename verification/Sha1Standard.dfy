/** SHA-1 as FIPS 180-4 defines it for a whole message: padding (section 5.1.1), the computation
    with an 80-word schedule (section 6.1.2) and the 16-word schedule (section 6.1.3). */
module Sha1Standard {

  type Byte = bv8
  type Word = bv32

  datatype Five = Five(a: Word, b: Word, c: Word, d: Word, e: Word)

  function Rotl(x: Word, n: nat): Word
    requires n <= 32
  {
    (x << n) | (x >> (32 - n))
  }

  /** Additions are modulo 2^32 (section 2.2.2). */
  function Add(x: Word, y: Word): Word {
    x + y
  }

  /** The sum T of section 6.1.2. */
  function Temp(r: Word, f: Word, e: Word, k: Word, w: Word): Word {
    r + f + e + k + w
  }

  /** Section 4.1.1. */
  function F(t: nat, x: Word, y: Word, z: Word): Word {
    if t < 20 then (x & y) ^ (!x & z)
    else if t < 40 then x ^ y ^ z
    else if t < 60 then (x & y) ^ (x & z) ^ (y & z)
    else x ^ y ^ z
  }

  /** Section 4.2.1. */
  function K(t: nat): Word {
    if t < 20 then 0x5a827999
    else if t < 40 then 0x6ed9eba1
    else if t < 60 then 0x8f1bbcdc
    else 0xca62c1d6
  }

  /** Four bytes as a word, the first one most significant. */
  function BigEndian(b0: Byte, b1: Byte, b2: Byte, b3: Byte): Word {
    ((b0 as Word) << 24) | ((b1 as Word) << 16) | ((b2 as Word) << 8) | (b3 as Word)
  }

  /** Word t of a block of 64 bytes. */
  function MessageWord(m: seq<Byte>, t: nat): Word
    requires |m| == 64 && t < 16
  {
    BigEndian(m[4 * t], m[4 * t + 1], m[4 * t + 2], m[4 * t + 3])
  }

  function Mix(p: Word, q: Word, r: Word, s: Word): Word {
    Rotl(p ^ q ^ r ^ s, 1)
  }

  /** The word of the message schedule that follows the words w. */
  function NextWord(m: seq<Byte>, w: seq<Word>): Word
    requires |m| == 64
  {
    var t := |w|;
    if t < 16 then MessageWord(m, t) else Mix(w[t - 3], w[t - 8], w[t - 14], w[t - 16])
  }

  /** Section 6.1.2 step 1: the message schedule up to word n. */
  function Schedule(m: seq<Byte>, n: nat): (w: seq<Word>)
    requires |m| == 64
    ensures |w| == n
  {
    if n == 0 then [] else Schedule(m, n - 1) + [NextWord(m, Schedule(m, n - 1))]
  }

  /** Section 6.1.2 step 3, one turn. */
  function Round(t: nat, s: Five, w: Word): Five {
    Five(Temp(Rotl(s.a, 5), F(t, s.b, s.c, s.d), s.e, K(t), w), s.a, Rotl(s.b, 30), s.c, s.d)
  }

  /** The working variables after n turns. */
  function Rounds(h: Five, w: seq<Word>, n: nat): Five
    requires n <= |w|
  {
    if n == 0 then h else Round(n - 1, Rounds(h, w, n - 1), w[n - 1])
  }

  /** Section 6.1.2 for one block. */
  function Compress(h: Five, m: seq<Byte>): Five
    requires |m| == 64
  {
    var s := Rounds(h, Schedule(m, 80), 80);
    Five(Add(h.a, s.a), Add(h.b, s.b), Add(h.c, s.c), Add(h.d, s.d), Add(h.e, s.e))
  }

  /** Section 5.3.1. */
  const INITIAL := Five(0x67452301, 0xefcdab89, 0x98badcfe, 0x10325476, 0xc3d2e1f0)

  /** The hash value after the first n blocks of m. */
  function Hash(m: seq<Byte>, n: nat): Five
    requires 64 * n <= |m|
  {
    if n == 0 then INITIAL else Compress(Hash(m, n - 1), m[64 * (n - 1)..64 * n])
  }

  function Power256(k: nat): (p: nat)
    ensures p > 0
  {
    if k == 0 then 1 else 256 * Power256(k - 1)
  }

  /** The number n in eight bytes, the first one most significant. */
  function LengthByte(n: nat, i: nat): Byte
    requires i < 8
  {
    (n / Power256(7 - i) % 256) as Byte
  }

  /** Section 5.1.1: a 1 bit, the least number of 0 bits, and the length in bits. */
  function Padding(n: nat): (p: seq<Byte>)
    ensures (n + |p|) % 64 == 0
  {
    [0x80 as Byte] + seq((119 - n % 64) % 64, _ => 0 as Byte) + seq(8, i requires 0 <= i < 8 => LengthByte(8 * n, i))
  }

  /** The word w in four bytes. */
  function WordByte(w: Word, i: nat): Byte
    requires i < 4
  {
    ((w >> (8 * (3 - i))) & 0xff) as Byte
  }

  function Part(s: Five, k: nat): Word
    requires k < 5
  {
    match k
    case 0 => s.a
    case 1 => s.b
    case 2 => s.c
    case 3 => s.d
    case _ => s.e
  }

  /** The hash value in twenty bytes. */
  function Bytes(s: Five): (d: seq<Byte>)
    ensures |d| == 20
  {
    seq(20, i requires 0 <= i < 20 => WordByte(Part(s, i / 4), i % 4))
  }

  /** The digest of a whole message. */
  function Digest(m: seq<Byte>): (d: seq<Byte>)
    ensures |d| == 20
  {
    var p := m + Padding(|m|);
    Bytes(Hash(p, |p| / 64))
  }
}
