/** The sums of src/hyperloglog.c over the registers: hllDenseSum, hllSparseSum and hllRawSum. */
module HllCount {
  import opened HllPattern
  import opened HllDense
  import opened HllSparse

  // ---------------------------------------------------------------- what the sums should be

  function Power(n: nat): (p: nat)
    ensures p > 0
  {
    if n == 0 then 1 else 2 * Power(n - 1)
  }

  /** The table PE: 2^-reg, exactly. */
  function PE(reg: Byte): real {
    1.0 / (Power(reg as nat) as real)
  }

  /** The sum of 2^-r over the first n registers. */
  function SumTo(r: seq<Byte>, n: nat): real
    requires n <= |r|
  {
    if n == 0 then 0.0 else SumTo(r, n - 1) + PE(r[n - 1])
  }

  /** How many of the first n registers are zero. */
  function ZerosTo(r: seq<Byte>, n: nat): nat
    requires n <= |r|
  {
    if n == 0 then 0 else ZerosTo(r, n - 1) + if r[n - 1] == 0 then 1 else 0
  }

  lemma PEZero()
    ensures PE(0) == 1.0
  {
  }

  /** E and ez after the first n registers, while the zeros are not yet added to E. */
  ghost predicate Summed(E: real, ez: nat, r: seq<Byte>, n: nat) {
    n <= |r| && E + ez as real == SumTo(r, n) && ez == ZerosTo(r, n)
  }

  lemma {:induction false} SumZeros(E: real, ez: nat, r: seq<Byte>, i: nat, k: nat)
    requires Summed(E, ez, r, i) && AllAre(r, i, i + k, 0)
    ensures Summed(E, ez + k, r, i + k)
    decreases k
  {
    if k > 0 {
      SumZeros(E, ez, r, i, k - 1);
      PEZero();
    }
  }

  lemma {:induction false} SumValues(E: real, ez: nat, r: seq<Byte>, i: nat, k: nat, v: Byte)
    requires Summed(E, ez, r, i) && AllAre(r, i, i + k, v) && v != 0
    ensures Summed(E + PE(v) * (k as real), ez, r, i + k)
    decreases k
  {
    if k > 0 {
      SumValues(E, ez, r, i, k - 1, v);
      Times(PE(v), k);
    }
  }

  lemma Times(x: real, k: nat)
    requires k > 0
    ensures x * (k as real) == x * ((k - 1) as real) + x
  {
  }

  // ---------------------------------------------------------------- hllSparseSum

  lemma ZeroRun(s: seq<Byte>, r: seq<Byte>, p: nat, i: nat, E: real, ez: nat)
    requires Cut(s, r, p, i) && p < |s| && !IsVal(s[p]) && Summed(E, ez, r, i)
    ensures p + OpLen(s, p) <= |s| && Cut(s, r, p + OpLen(s, p), i + Span(s, p))
    ensures Summed(E, ez + Span(s, p), r, i + Span(s, p))
  {
    CutNext(s, r, p, i);
    SumZeros(E, ez, r, i, Span(s, p));
  }

  lemma ValRun(s: seq<Byte>, r: seq<Byte>, p: nat, i: nat, E: real, ez: nat)
    requires Cut(s, r, p, i) && p < |s| && IsVal(s[p]) && Summed(E, ez, r, i)
    ensures Cut(s, r, p + 1, i + ValLen(s[p]))
    ensures Summed(E + PE(ValValue(s[p])) * (ValLen(s[p]) as real), ez, r, i + ValLen(s[p]))
  {
    OneKind(s[p]);
    ValRange(s[p]);
    CutNext(s, r, p, i);
    SumValues(E, ez, r, i, ValLen(s[p]), ValValue(s[p]));
  }

  /** One turn of the loop of hllSparseSum. */
  method SparseOp(s: seq<Byte>, p: nat, idx: nat, E: real, ez: nat, ghost r: seq<Byte>)
      returns (p': nat, idx': nat, E': real, ez': nat)
    requires Cut(s, r, p, idx) && p < |s| && Summed(E, ez, r, idx)
    ensures Cut(s, r, p', idx') && p < p' <= |s| && Summed(E', ez', r, idx')
  {
    OneKind(s[p]);
    if IsZero(s[p]) {
      ZeroRun(s, r, p, idx, E, ez);
      var runlen := ZeroLen(s[p]);
      p', idx', E', ez' := p + 1, idx + runlen, E, ez + runlen;
    } else if IsXZero(s[p]) {
      ZeroRun(s, r, p, idx, E, ez);
      var runlen := XZeroLen(s[p], s[p + 1]);
      p', idx', E', ez' := p + 2, idx + runlen, E, ez + runlen;
    } else {
      ValRun(s, r, p, idx, E, ez);
      var runlen, regval := ValLen(s[p]), ValValue(s[p]);
      p', idx', E', ez' := p + 1, idx + runlen, E + PE(regval) * (runlen as real), ez;
    }
  }

  method SparseSum(s: seq<Byte>, ghost r: seq<Byte>) returns (E: real, ez: nat)
    requires Spells(s, r)
    ensures E == SumTo(r, |r|) && ez == ZerosTo(r, |r|)
  {
    var p: nat, idx: nat := 0, 0;
    E, ez := 0.0, 0;
    CutEnd(s, r, 0, 0);
    while p < |s|
      invariant Cut(s, r, p, idx) && p <= |s| && Summed(E, ez, r, idx)
    {
      p, idx, E, ez := SparseOp(s, p, idx, E, ez, r);
    }
    CutEnd(s, r, p, idx);
    E := E + ez as real;
  }

  // ---------------------------------------------------------------- hllRawSum

  /** One byte of a word that is not zero. */
  method RawByte(b: Byte, E: real, ez: nat, ghost r: seq<Byte>, ghost i: nat) returns (E': real, ez': nat)
    requires i < |r| && b == r[i] && Summed(E, ez, r, i)
    ensures Summed(E', ez', r, i + 1)
  {
    PEZero();
    if b != 0 {
      E', ez' := E + PE(b), ez;
    } else {
      E', ez' := E, ez + 1;
    }
  }

  method RawSum(registers: array<Byte>) returns (E: real, ez: nat)
    requires registers.Length == REGISTERS
    ensures E == SumTo(registers[..], REGISTERS) && ez == ZerosTo(registers[..], REGISTERS)
  {
    ghost var r := registers[..];
    E, ez := 0.0, 0;
    var j := 0;
    while j < REGISTERS / 8
      invariant 0 <= j <= REGISTERS / 8
      invariant Summed(E, ez, r, 8 * j)
    {
      E, ez := RawWord(registers[8 * j..8 * j + 8], E, ez, r, 8 * j);
      j := j + 1;
    }
    E := E + ez as real;
  }

  lemma RawBytes(bytes: seq<Byte>, r: seq<Byte>, i: nat)
    requires |bytes| == 8 && i + 8 <= |r| && bytes == r[i..i + 8]
    ensures bytes[0] == r[i] && bytes[1] == r[i + 1] && bytes[2] == r[i + 2] && bytes[3] == r[i + 3]
    ensures bytes[4] == r[i + 4] && bytes[5] == r[i + 5] && bytes[6] == r[i + 6] && bytes[7] == r[i + 7]
  {
  }

  /** One turn of the loop of hllRawSum: eight bytes at once when they are all zero. */
  method RawWord(bytes: seq<Byte>, E: real, ez: nat, ghost r: seq<Byte>, ghost i: nat) returns (E': real, ez': nat)
    requires |bytes| == 8 && i + 8 <= |r| && bytes == r[i..i + 8]
    requires Summed(E, ez, r, i)
    ensures Summed(E', ez', r, i + 8)
  {
    E', ez' := E, ez;
    if bytes == [0, 0, 0, 0, 0, 0, 0, 0] {
      ez' := ez' + 8;
      forall k | i <= k < i + 8 ensures r[k] == 0 {
        assert bytes[k - i] == r[k];
      }
      SumZeros(E, ez, r, i, 8);
    } else {
      RawBytes(bytes, r, i);
      E', ez' := RawByte(bytes[0], E', ez', r, i);
      E', ez' := RawByte(bytes[1], E', ez', r, i + 1);
      E', ez' := RawByte(bytes[2], E', ez', r, i + 2);
      E', ez' := RawByte(bytes[3], E', ez', r, i + 3);
      E', ez' := RawByte(bytes[4], E', ez', r, i + 4);
      E', ez' := RawByte(bytes[5], E', ez', r, i + 5);
      E', ez' := RawByte(bytes[6], E', ez', r, i + 6);
      E', ez' := RawByte(bytes[7], E', ez', r, i + 7);
    }
  }

  // ---------------------------------------------------------------- hllDenseSum

  lemma SumFour(r: seq<Byte>, n: nat)
    requires n + 4 <= |r|
    ensures SumTo(r, n + 4) == SumTo(r, n) + (PE(r[n]) + PE(r[n + 1])) + (PE(r[n + 2]) + PE(r[n + 3]))
    ensures ZerosTo(r, n + 4) == ZerosTo(r, n) + (if r[n] == 0 then 1 else 0) + (if r[n + 1] == 0 then 1 else 0)
      + (if r[n + 2] == 0 then 1 else 0) + (if r[n + 3] == 0 then 1 else 0)
  {
    assert SumTo(r, n + 1) == SumTo(r, n) + PE(r[n]);
    assert SumTo(r, n + 2) == SumTo(r, n + 1) + PE(r[n + 1]);
    assert SumTo(r, n + 3) == SumTo(r, n + 2) + PE(r[n + 2]);
    assert ZerosTo(r, n + 2) == ZerosTo(r, n + 1) + if r[n + 1] == 0 then 1 else 0;
    assert ZerosTo(r, n + 3) == ZerosTo(r, n + 2) + if r[n + 2] == 0 then 1 else 0;
  }

  /** The registers n to n + 3, in the expressions of the unrolled loop. */
  ghost predicate Four(r: seq<Byte>, n: nat, b0: Byte, b1: Byte, b2: Byte) {
    && n + 4 <= |r|
    && r[n] == b0 & 63
    && r[n + 1] == ((b0 >> 6) | (b1 << 2)) & 63
    && r[n + 2] == ((b1 >> 4) | (b2 << 4)) & 63
    && r[n + 3] == (b2 >> 2) & 63
  }

  ghost predicate FourAt(p: seq<Byte>, r: seq<Byte>, g: nat) {
    3 * g + 2 < |p| && Four(r, 4 * g, p[3 * g], p[3 * g + 1], p[3 * g + 2])
  }

  /** Every three bytes of p hold the next four registers of r. */
  ghost predicate Layout(p: seq<Byte>, r: seq<Byte>) {
    IsDense(p) && |r| == REGISTERS && forall g :: 0 <= g < 4096 ==> FourAt(p, r, g)
  }

  lemma DenseFourAt(p: seq<Byte>, g: nat)
    requires IsDense(p) && g < 4096
    ensures FourAt(p, DenseRegs(p), g)
  {
    Group(p, g);
  }

  lemma DenseLayout(p: seq<Byte>)
    requires IsDense(p)
    ensures Layout(p, DenseRegs(p))
  {
    forall g | 0 <= g < 4096 ensures FourAt(p, DenseRegs(p), g) {
      DenseFourAt(p, g);
    }
  }

  /** A quarter of a turn of the unrolled loop: four registers from three bytes. */
  method DenseFour(b0: Byte, b1: Byte, b2: Byte, ez: nat, ghost r: seq<Byte>, ghost n: nat)
      returns (sum: real, ez': nat)
    requires Four(r, n, b0, b1, b2) && ez == ZerosTo(r, n)
    ensures SumTo(r, n + 4) == SumTo(r, n) + sum && ez' == ZerosTo(r, n + 4)
  {
    ez' := ez;
    var r0 := b0 & 63;
    if r0 == 0 { ez' := ez' + 1; }
    var r1 := ((b0 >> 6) | (b1 << 2)) & 63;
    if r1 == 0 { ez' := ez' + 1; }
    var r2 := ((b1 >> 4) | (b2 << 4)) & 63;
    if r2 == 0 { ez' := ez' + 1; }
    var r3 := (b2 >> 2) & 63;
    if r3 == 0 { ez' := ez' + 1; }
    sum := (PE(r0) + PE(r1)) + (PE(r2) + PE(r3));
    SumFour(r, n);
  }

  /** One turn of the unrolled loop: 16 registers, 12 bytes. */
  method DenseSixteen(p: seq<Byte>, r: nat, ez: nat, ghost regs: seq<Byte>, ghost j: nat) returns (sum: real, ez': nat)
    requires Layout(p, regs) && j < 1024 && r == 12 * j && ez == ZerosTo(regs, 16 * j)
    ensures SumTo(regs, 16 * (j + 1)) == SumTo(regs, 16 * j) + sum && ez' == ZerosTo(regs, 16 * (j + 1))
  {
    assert FourAt(p, regs, 4 * j) && FourAt(p, regs, 4 * j + 1);
    assert FourAt(p, regs, 4 * j + 2) && FourAt(p, regs, 4 * j + 3);
    var s0, s1, s2, s3;
    s0, ez' := DenseFour(p[r], p[r + 1], p[r + 2], ez, regs, 16 * j);
    s1, ez' := DenseFour(p[r + 3], p[r + 4], p[r + 5], ez', regs, 16 * j + 4);
    s2, ez' := DenseFour(p[r + 6], p[r + 7], p[r + 8], ez', regs, 16 * j + 8);
    s3, ez' := DenseFour(p[r + 9], p[r + 10], p[r + 11], ez', regs, 16 * j + 12);
    sum := s0 + s1 + s2 + s3;
  }

  /** The unrolled loop of hllDenseSum. */
  method DenseLoop(p: seq<Byte>, ghost regs: seq<Byte>) returns (E: real, ez: nat)
    requires Layout(p, regs)
    ensures E == SumTo(regs, REGISTERS) && ez == ZerosTo(regs, REGISTERS)
  {
    E, ez := 0.0, 0;
    var j, r := 0, 0;
    while j < 1024
      invariant 0 <= j <= 1024 && r == 12 * j
      invariant E == SumTo(regs, 16 * j) && ez == ZerosTo(regs, 16 * j)
    {
      var sum;
      sum, ez := DenseSixteen(p, r, ez, regs, j);
      E := E + sum;
      r := r + 12;
      j := j + 1;
    }
  }

  /** hllDenseSum. */
  method DenseSum(p: seq<Byte>) returns (E: real, ez: nat)
    requires IsDense(p)
    ensures E == SumTo(DenseRegs(p), REGISTERS) && ez == ZerosTo(DenseRegs(p), REGISTERS)
  {
    DenseLayout(p);
    E, ez := DenseLoop(p, DenseRegs(p));
  }

  /** The loop that hllDenseSum has for other register counts and widths. */
  method DenseSumGeneric(p: seq<Byte>) returns (E: real, ez: nat)
    requires IsDense(p)
    ensures E == SumTo(DenseRegs(p), REGISTERS) && ez == ZerosTo(DenseRegs(p), REGISTERS)
  {
    E, ez := 0.0, 0;
    var j := 0;
    while j < REGISTERS
      invariant 0 <= j <= REGISTERS && Summed(E, ez, DenseRegs(p), j)
    {
      var reg := GetRegister(p, j);
      E, ez := RawByte(reg, E, ez, DenseRegs(p), j);
      j := j + 1;
    }
    E := E + ez as real;
  }
}
