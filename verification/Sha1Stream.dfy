/** SHA1Init, SHA1Update and SHA1Final of src/sha1.c. */
module Sha1Stream {
  import opened Sha1Standard
  import opened Sha1
  import opened Sequences
  import opened Options

  /** u_int32_t */
  const WIDE := 0x1_0000_0000

  // ---------------------------------------------------------------- the hash of a growing message

  lemma {:induction false} HashGrows(m: seq<Byte>, d: seq<Byte>, n: nat)
    requires 64 * n <= |m|
    ensures Hash(m + d, n) == Hash(m, n)
    decreases n
  {
    if n > 0 {
      HashGrows(m, d, n - 1);
      assert (m + d)[64 * (n - 1)..64 * n] == m[64 * (n - 1)..64 * n];
    }
  }

  lemma HashNext(m: seq<Byte>, n: nat, block: seq<Byte>)
    requires 64 * n + 64 <= |m| && block == m[64 * n..64 * n + 64]
    ensures Compress(Hash(m, n), block) == Hash(m, n + 1)
  {
    assert m[64 * (n + 1 - 1)..64 * (n + 1)] == block;
  }

  // ---------------------------------------------------------------- the bit count in two words

  /** low and high hold 8n modulo 2^64. */
  predicate Counts(low: nat, high: nat, n: nat) {
    low == 8 * n % WIDE && high == 8 * n / WIDE % WIDE
  }

  lemma Carry(q: nat, c: nat, r: nat, l: nat)
    requires c < WIDE && l < WIDE
    ensures (q * WIDE + c + (r * WIDE + l)) % WIDE == (c + l) % WIDE
    ensures (q * WIDE + c + (r * WIDE + l)) / WIDE == q + r + (if c + l < WIDE then 0 else 1)
    ensures c + l >= WIDE <==> (c + l) % WIDE < c
  {
  }

  lemma HighParts(q: nat, r: nat, carry: nat)
    requires carry <= 1
    ensures ((q % WIDE + carry) % WIDE + r) % WIDE == (q + r + carry) % WIDE
  {
  }

  lemma LenParts(len: nat)
    ensures 8 * len == (len / 0x2000_0000) * WIDE + len * 8 % WIDE
  {
  }

  /** The bits of `len` bytes are r words and x. */
  lemma CountParts(n: nat, len: nat, low: nat, high: nat, r: nat, x: nat)
    requires Counts(low, high, n) && 8 * len == r * WIDE + x && x < WIDE
    ensures var low' := (low + x) % WIDE;
      Counts(low', ((if low' < low then (high + 1) % WIDE else high) + r) % WIDE, n + len)
  {
    var q := 8 * n / WIDE;
    assert 8 * (n + len) == q * WIDE + low + (r * WIDE + x);
    Carry(q, low, r, x);
    HighParts(q, r, if low + x < WIDE then 0 else 1);
  }

  lemma CountUp(n: nat, len: nat, low: nat, high: nat)
    requires Counts(low, high, n) && len < WIDE
    ensures Counts(LowAfter(low, len), HighAfter(high, LowAfter(low, len) < low, len), n + len)
  {
    LenParts(len);
    CountParts(n, len, low, high, len / 0x2000_0000, len * 8 % WIDE);
  }

  /** The low word after `len` more bytes. */
  function LowAfter(low: nat, len: nat): nat {
    (low + len * 8 % WIDE) % WIDE
  }

  /** The high word likewise, with the carry from the low one. */
  function HighAfter(high: nat, carry: bool, len: nat): nat {
    ((if carry then (high + 1) % WIDE else high) + len / 0x2000_0000) % WIDE
  }

  lemma LowBits(n: nat)
    ensures 8 * n % WIDE == 8 * (n % 0x2000_0000)
  {
    var q, r := n / 0x2000_0000, n % 0x2000_0000;
    assert 8 * n == q * WIDE + 8 * r;
  }

  lemma LowSix(n: nat)
    ensures n % 0x2000_0000 % 64 == n % 64
  {
  }

  lemma BufferUse(n: nat, low: nat, high: nat)
    requires Counts(low, high, n)
    ensures low / 8 % 64 == n % 64
  {
    LowBits(n);
    LowSix(n);
  }

  // ---------------------------------------------------------------- streaming

  /** memcpy into the buffer. */
  method Copy(buffer: array<Byte>, at: nat, data: seq<Byte>)
    requires at + |data| <= buffer.Length
    modifies buffer
    ensures buffer[..at + |data|] == old(buffer[..at]) + data
  {
    forall k | 0 <= k < |data| {
      buffer[at + k] := data[k];
    }
    assert buffer[..at] == old(buffer[..at]);
    assert buffer[at..at + |data|] == data;
    TakeExtends(buffer[..at + |data|], at, at + |data|);
  }

  /** The bytes of message m that are not hashed yet. */
  function Tail(m: seq<Byte>): (t: seq<Byte>)
    ensures |t| == |m| % 64
  {
    m[64 * (|m| / 64)..]
  }

  /** Filling up the buffer completes block q of the message. */
  lemma FirstBlock(m: seq<Byte>, data: seq<Byte>, i: nat, q: nat)
    requires i <= |data| && |m| + i == 64 * q + 64 && 64 * q <= |m|
    ensures m[64 * q..] + data[..i] == (m + data)[64 * q..64 * q + 64]
  {
  }

  /** data is the end of the message. */
  lemma NextBlock(total: seq<Byte>, at: nat, data: seq<Byte>, i: nat, n: nat)
    requires at <= |total| && data == total[at..] && i + 64 <= |data| && at + i == 64 * n
    ensures data[i..i + 64] == total[64 * n..64 * n + 64]
  {
  }

  lemma LastBytes(total: seq<Byte>, at: nat, data: seq<Byte>, i: nat, n: nat)
    requires at <= |total| && data == total[at..] && i <= |data| < i + 64 && at + i == 64 * n
    ensures Tail(total) == data[i..] && |total| / 64 == n
  {
    assert |total| / 64 == n;
  }

  lemma MoreBytes(m: seq<Byte>, data: seq<Byte>)
    requires |m| % 64 + |data| < 64
    ensures Tail(m + data) == Tail(m) + data && |m + data| / 64 == |m| / 64
  {
    assert |m + data| / 64 == |m| / 64;
  }

  /** The loop of SHA1Update over the whole blocks of data from i on. */
  method Blocks(state: Five, data: seq<Byte>, from: nat, ghost total: seq<Byte>, ghost at: nat, ghost first: nat)
      returns (state': Five, i: nat, ghost n: nat)
    requires at <= |total| && data == total[at..]
    requires from <= |data| && at + from == 64 * first && state == Hash(total, first)
    ensures from <= i <= |data| < i + 64 && at + i == 64 * n && 64 * n <= |total| && state' == Hash(total, n)
  {
    state', i, n := state, from, first;
    while i + 63 < |data|
      invariant from <= i <= |data| && at + i == 64 * n && state' == Hash(total, n)
    {
      NextBlock(total, at, data, i, n);
      HashNext(total, n, data[i..i + 64]);
      state' := Transform(state', data[i..i + 64]);
      i, n := i + 64, n + 1;
    }
  }

  lemma JoinDrop(m: seq<Byte>, data: seq<Byte>)
    ensures (m + data)[|m|..] == data
  {
  }

  // ---------------------------------------------------------------- padding

  /** finalcount[i], from the two counter words. */
  function CountByte(low: nat, high: nat, i: nat): Byte
    requires i < 8
  {
    var word := if i >= 4 then low else high;
    (word / Power256(3 - i % 4) % 256) as Byte
  }

  lemma Powers()
    ensures Power256(0) == 1 && Power256(1) == 0x100 && Power256(2) == 0x1_0000 && Power256(3) == 0x100_0000
    ensures Power256(4) == WIDE && Power256(5) == WIDE * 0x100 && Power256(6) == WIDE * 0x1_0000
    ensures Power256(7) == WIDE * 0x100_0000
  {
    assert Power256(3) == 256 * Power256(2);
    assert Power256(5) == 256 * Power256(4);
    assert Power256(6) == 256 * Power256(5);
  }

  /** finalcount */
  function FinalCount(low: nat, high: nat): (f: seq<Byte>)
    ensures |f| == 8
  {
    seq(8, i requires 0 <= i < 8 => CountByte(low, high, i))
  }

  lemma CountBytes(n: nat, low: nat, high: nat)
    requires Counts(low, high, n)
    ensures forall i :: 0 <= i < 8 ==> FinalCount(low, high)[i] == LengthByte(8 * n, i)
  {
    forall i | 0 <= i < 8 ensures FinalCount(low, high)[i] == LengthByte(8 * n, i) {
      CountByteIs(n, low, high, i);
    }
  }

  lemma MulMono(a: nat, b: nat, p: nat)
    requires a <= b
    ensures a * p <= b * p
  {
    assert b * p - a * p == (b - a) * p;
  }

  lemma NextMultiple(a: nat, b: nat, p: nat)
    requires a < b
    ensures a * p + p <= b * p
  {
    MulMono(a + 1, b, p);
    assert (a + 1) * p == a * p + p;
  }

  lemma DivUnique(x: nat, p: nat, y: nat, z: nat)
    requires z < p && x == y * p + z
    ensures x / p == y
  {
    var d := x / p;
    assert x == d * p + x % p;
    if d > y {
      NextMultiple(y, d, p);
    } else if d < y {
      NextMultiple(d, y, p);
    }
  }

  /** Dividing by p a number of which p divides the first part. */
  lemma DivSplit(x: nat, t: nat, p: nat, r: nat)
    requires p > 0 && x == t * p + r
    ensures x / p == t + r / p
  {
    var y, z := r / p, r % p;
    assert r == y * p + z;
    assert (t + y) * p == t * p + y * p;
    DivUnique(x, p, t + y, z);
  }

  lemma ModDrop(t: nat, y: nat)
    ensures (t * 256 + y) % 256 == y % 256
  {
  }

  /** A byte of the low word of a number. */
  lemma LowByte(b: nat, p: nat, k: nat)
    requires p > 0 && k * 256 * p == WIDE
    ensures b % WIDE / p % 256 == b / p % 256
  {
    var q, r := b / WIDE, b % WIDE;
    assert b == q * WIDE + r;
    assert q * WIDE == q * k * 256 * p;
    DivSplit(b, q * k * 256, p, r);
    ModDrop(q * k, r / p);
  }

  lemma HighPart(b: nat)
    ensures b / WIDE / 0x100 == b / (WIDE * 0x100)
    ensures b / WIDE / 0x1_0000 == b / (WIDE * 0x1_0000)
    ensures b / WIDE / 0x100_0000 == b / (WIDE * 0x100_0000)
  {
  }

  lemma CountByteIs(n: nat, low: nat, high: nat, i: nat)
    requires Counts(low, high, n) && i < 8
    ensures CountByte(low, high, i) == LengthByte(8 * n, i)
  {
    Powers();
    LengthPart(8 * n, i);
  }

  lemma LengthPart(b: nat, i: nat)
    requires i < 8
    ensures (if i >= 4 then b % WIDE else b / WIDE % WIDE) / Power256(3 - i % 4) % 256 == b / Power256(7 - i) % 256
  {
    Powers();
    HighPart(b);
    match i
    case 0 => LowByte(b / WIDE, 0x100_0000, 1);
    case 1 => LowByte(b / WIDE, 0x1_0000, 0x100);
    case 2 => LowByte(b / WIDE, 0x100, 0x1_0000);
    case 3 => LowByte(b / WIDE, 1, 0x100_0000);
    case 4 => LowByte(b, 0x100_0000, 1);
    case 5 => LowByte(b, 0x1_0000, 0x100);
    case 6 => LowByte(b, 0x100, 0x1_0000);
    case _ => LowByte(b, 1, 0x100_0000);
  }

  /** The padding before the length, with the zero bytes so far. */
  function Padded(zeros: nat): seq<Byte> {
    [0x80 as Byte] + seq(zeros, _ => 0 as Byte)
  }

  lemma PaddedMore(m: seq<Byte>, zeros: nat)
    ensures m + Padded(zeros) + [0] == m + Padded(zeros + 1)
  {
  }

  /** The zero bytes end exactly where the standard says. */
  lemma ZerosEnd(n: nat, zeros: nat, need: nat)
    requires zeros <= need == (119 - n % 64) % 64
    ensures (n + 1 + zeros) % 64 == 56 <==> zeros == need
  {
  }

  lemma PaddedAll(m: seq<Byte>, low: nat, high: nat)
    requires Counts(low, high, |m|)
    ensures m + Padded((119 - |m| % 64) % 64) + FinalCount(low, high) == m + Padding(|m|)
  {
    CountBytes(|m|, low, high);
    assert FinalCount(low, high) == seq(8, i requires 0 <= i < 8 => LengthByte(8 * |m|, i));
  }

  lemma PaddedWhole(m: seq<Byte>)
    ensures |m + Padding(|m|)| % 64 == 0
  {
  }

  // ---------------------------------------------------------------- the 32-bit arithmetic of SHA1Update

  /** The branch that SHA1Update takes for j bytes in the buffer and len more, by `j + len` on 32 bits,
      copies no more than there is and no further than the end of the buffer. */
  predicate CopiesInside(j: nat, len: nat) {
    if (j + len) % WIDE > 63 then 64 - j <= len else j + len <= 63
  }

  /** It does so exactly if the sum does not wrap around; then the loop counter does not either. */
  lemma NoWrap(j: nat, len: nat)
    requires j < 64 && len < WIDE
    ensures CopiesInside(j, len) <==> j + len < WIDE
    ensures j + len < WIDE ==> ((j + len) % WIDE > 63 <==> j + len > 63)
    ensures j + len < WIDE ==> forall m: nat :: 64 - j + 64 * m <= len ==> 64 - j + 64 * m + 63 < WIDE
  {
  }

  class Context {
    var state: Five
    var count0: nat
    var count1: nat
    const buffer: array<Byte>
    /** All the bytes given to SHA1Update. */
    ghost var msg: seq<Byte>

    ghost predicate Valid()
      reads this, buffer
    {
      && buffer.Length == 64
      && state == Hash(msg, |msg| / 64)
      && Counts(count0, count1, |msg|)
      && buffer[..|msg| % 64] == Tail(msg)
    }

    /** SHA1Init */
    constructor ()
      ensures Valid() && msg == [] && fresh(buffer)
    {
      state := INITIAL;
      count0, count1 := 0, 0;
      buffer := new Byte[64];
      msg := [];
    }

    /** The counting of SHA1Update. */
    method CountBits(len: nat)
      requires Counts(count0, count1, |msg|) && len < WIDE
      modifies this`count0, this`count1
      ensures Counts(count0, count1, |msg| + len)
    {
      CountUp(|msg|, len, count0, count1);
      var j := count0;
      count0 := LowAfter(count0, len);
      count1 := HighAfter(count1, count0 < j, len);
    }

    /** SHA1Update.  False stands for a call that leaves its buffer or its data, because the 32-bit sum
        j + len wraps around; the source does not notice, and nothing is promised then. */
    method Update(data: seq<Byte>) returns (inside: bool)
      requires Valid() && |data| < WIDE
      modifies this, buffer
      ensures inside <==> old(|msg|) % 64 + |data| < WIDE
      ensures inside ==> Valid() && msg == old(msg) + data
    {
      BufferUse(|msg|, count0, count1);
      var j := count0 / 8 % 64;
      CountBits(|data|);
      NoWrap(j, |data|);
      inside := CopiesInside(j, |data|);
      if inside {
        Absorb(data, j, (j + |data|) % WIDE > 63);
      }
    }

    /** SHA1Update after the counting. */
    method Absorb(data: seq<Byte>, j: nat, fills: bool)
      requires buffer.Length == 64 && state == Hash(msg, |msg| / 64) && buffer[..|msg| % 64] == Tail(msg)
      requires Counts(count0, count1, |msg| + |data|) && j == |msg| % 64 && (fills <==> j + |data| > 63)
      modifies this`state, this`msg, buffer
      ensures Valid() && msg == old(msg) + data
    {
      ghost var total, q := msg + data, |msg| / 64;
      HashGrows(msg, data, q);
      if fills {
        FillAndHash(data, j, total, q);
      } else {
        CopyOnly(data, j, total);
      }
      msg := total;
    }

    /** The other branch: the bytes are only copied. */
    method CopyOnly(data: seq<Byte>, j: nat, ghost total: seq<Byte>)
      requires buffer.Length == 64 && j == |msg| % 64 && j + |data| < 64 && total == msg + data
      requires state == Hash(total, |msg| / 64) && buffer[..j] == Tail(msg)
      modifies buffer
      ensures state == Hash(total, |total| / 64) && buffer[..|total| % 64] == Tail(total)
    {
      MoreBytes(msg, data);
      Copy(buffer, j, data);
    }

    /** The branch of SHA1Update in which the buffer fills up. */
    method FillAndHash(data: seq<Byte>, j: nat, ghost total: seq<Byte>, ghost q: nat)
      requires buffer.Length == 64 && j < 64 && j + |data| > 63 && |msg| == 64 * q + j && total == msg + data
      requires state == Hash(total, q) && buffer[..j] == msg[64 * q..]
      modifies this`state, buffer
      ensures state == Hash(total, |total| / 64) && buffer[..|total| % 64] == Tail(total)
    {
      var i := FillFirst(data, j, total, q);
      JoinDrop(msg, data);
      ghost var n;
      state, i, n := Blocks(state, data, i, total, |msg|, q + 1);
      LastBytes(total, |msg|, data, i, n);
      Copy(buffer, 0, data[i..]);
      assert buffer[..|data| - i] == data[i..];
    }

    method FillFirst(data: seq<Byte>, j: nat, ghost total: seq<Byte>, ghost q: nat) returns (i: nat)
      requires buffer.Length == 64 && j < 64 && j + |data| > 63 && |msg| == 64 * q + j && total == msg + data
      requires state == Hash(total, q) && buffer[..j] == msg[64 * q..]
      modifies this`state, buffer
      ensures i == 64 - j && state == Hash(total, q + 1)
    {
      i := 64 - j;
      FirstBlock(msg, data, i, q);
      Copy(buffer, j, data[..i]);
      HashNext(total, q, buffer[..64]);
      state := Transform(state, buffer[..64]);
    }

    /** One padding byte. */
    method PadOne(b: Byte, ghost n: nat)
      requires Valid() && |msg| == n
      modifies this, buffer
      ensures Valid() && msg == old(msg) + [b] && count0 / 8 % 64 == (n + 1) % 64
    {
      var inside := Update([b]);
      BufferUse(n + 1, count0, count1);
    }

    /** The loop of SHA1Final: zero bytes until the buffer holds 56 bytes.  The test
        (count[0] & 504) != 448 looks at bits 3 to 8 of the bit count. */
    method PadZeros(ghost m: seq<Byte>, ghost n: nat, ghost need: nat)
      requires Valid() && msg == m + Padded(0) && |m| == n && need == (119 - n % 64) % 64
      requires count0 / 8 % 64 == (n + 1) % 64
      modifies this, buffer
      ensures Valid() && msg == m + Padded(need)
    {
      ghost var zeros: nat := 0;
      while count0 / 8 % 64 != 56
        invariant Valid() && msg == m + Padded(zeros) && zeros <= need
        invariant count0 / 8 % 64 == (n + 1 + zeros) % 64
        decreases need - zeros
      {
        ZerosEnd(n, zeros, need);
        PaddedMore(m, zeros);
        PadOne(0, n + 1 + zeros);
        zeros := zeros + 1;
      }
      ZerosEnd(n, zeros, need);
    }

    /** All the padding of SHA1Final. */
    method Pad(ghost m: seq<Byte>)
      requires Valid() && msg == m
      modifies this, buffer
      ensures Valid() && msg == m + Padding(|m|)
    {
      var finalcount := FinalCount(count0, count1);
      PaddedAll(m, count0, count1);
      PadOne(0x80, |m|);
      assert [0x80 as Byte] == Padded(0);
      PadZeros(m, |m|, (119 - |m| % 64) % 64);
      PaddedWhole(m);
      var inside := Update(finalcount);
    }

    /** SHA1Final: the digest of the whole message, when its length in bits fits 64 bits. */
    method Final() returns (digest: seq<Byte>)
      requires Valid() && 8 * |msg| < WIDE * WIDE
      modifies this, buffer
      ensures digest == Digest(old(msg))
    {
      Pad(msg);
      digest := Bytes(state);
      Wipe();
    }

    /** The end of SHA1Final. */
    method Wipe()
      modifies this
    {
      state := Five(0, 0, 0, 0, 0);
      count0, count1 := 0, 0;
    }
  }

  /** Message m in pieces: Init, Update for each, Final. */
  function Concat(pieces: seq<seq<Byte>>): seq<Byte> {
    if pieces == [] then [] else Concat(pieces[..|pieces| - 1]) + pieces[|pieces| - 1]
  }

  lemma ConcatNext(pieces: seq<seq<Byte>>, k: nat)
    requires k < |pieces|
    ensures Concat(pieces[..k + 1]) == Concat(pieces[..k]) + pieces[k]
  {
    assert pieces[..k + 1][..k] == pieces[..k];
  }

  /** The call for piece k stays inside its buffer and its data. */
  predicate StaysInside(pieces: seq<seq<Byte>>, k: nat)
    requires k < |pieces|
  {
    |Concat(pieces[..k])| % 64 + |pieces[k]| < WIDE
  }

  /** However a message is cut into pieces, the result is the SHA-1 digest of the whole message, exactly
      if every call stays inside. */
  method DigestOfPieces(pieces: seq<seq<Byte>>) returns (digest: Option<seq<Byte>>)
    requires forall k :: 0 <= k < |pieces| ==> |pieces[k]| < WIDE
    requires 8 * |Concat(pieces)| < WIDE * WIDE
    ensures digest == if forall k :: 0 <= k < |pieces| ==> StaysInside(pieces, k) then Some(Digest(Concat(pieces)))
                      else None
  {
    var context := new Context();
    var k := 0;
    while k < |pieces|
      invariant 0 <= k <= |pieces| && context.Valid() && context.msg == Concat(pieces[..k])
      invariant fresh(context) && fresh(context.buffer)
      invariant forall i :: 0 <= i < k ==> StaysInside(pieces, i)
    {
      var inside := context.Update(pieces[k]);
      assert inside <==> StaysInside(pieces, k);
      if !inside {
        return None;
      }
      ConcatNext(pieces, k);
      k := k + 1;
    }
    assert pieces[..k] == pieces;
    var bytes := context.Final();
    return Some(bytes);
  }
}
