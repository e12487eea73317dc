/** hllCount, hllMerge and the commands PFADD, PFCOUNT and PFMERGE of src/hyperloglog.c over a
    keyspace. */
module HllCommands {
  import opened Sequences
  import opened HllPattern
  import opened HllRegisters
  import opened HllDense
  import opened HllSparse
  import opened HllObject
  import opened HllCount

  type Key = seq<Byte>

  /** The formula of hllCount after the sums, with its logarithm and bias correction: any function
      of the two sums. */
  type Estimate = (real, nat) -> bv64

  /** The count of a register array. */
  function Cardinality(r: seq<Byte>, estimate: Estimate): bv64
    requires |r| == REGISTERS
  {
    estimate(SumTo(r, REGISTERS), ZerosTo(r, REGISTERS))
  }

  // ---------------------------------------------------------------- the cached cardinality

  /** HLL_VALID_CACHE */
  predicate ValidCache(card: seq<Byte>)
    requires |card| == 8
  {
    card[0] & 0x80 == 0
  }

  function Load(card: seq<Byte>): bv64
    requires |card| == 8
  {
    (card[0] as bv64)
    | ((card[1] as bv64) << 8)
    | ((card[2] as bv64) << 16)
    | ((card[3] as bv64) << 24)
    | ((card[4] as bv64) << 32)
    | ((card[5] as bv64) << 40)
    | ((card[6] as bv64) << 48)
    | ((card[7] as bv64) << 56)
  }

  function Save(card: bv64): (b: seq<Byte>)
    ensures |b| == 8
  {
    [(card & 0xff) as Byte,
     ((card >> 8) & 0xff) as Byte,
     ((card >> 16) & 0xff) as Byte,
     ((card >> 24) & 0xff) as Byte,
     ((card >> 32) & 0xff) as Byte,
     ((card >> 40) & 0xff) as Byte,
     ((card >> 48) & 0xff) as Byte,
     ((card >> 56) & 0xff) as Byte]
  }

  lemma LoadSave(card: bv64)
    ensures Load(Save(card)) == card
  {
  }

  /** The flag shares card[0] with the lowest byte of the count, so a saved count is valid exactly
      when its bit 7 is clear. */
  lemma SavedValid(card: bv64)
    ensures ValidCache(Save(card)) <==> card & 0x80 == 0
  {
  }

  lemma LoadLow(card: seq<Byte>)
    requires |card| == 8
    ensures ValidCache(card) <==> Load(card) & 0x80 == 0
  {
  }

  lemma InvalidatedNotValid(card: seq<Byte>)
    requires |card| == 8
    ensures !ValidCache(Invalidated(card))
  {
  }

  // ---------------------------------------------------------------- hllCount and hllMerge

  method Count(o: Hll, estimate: Estimate) returns (card: bv64)
    requires o.Valid()
    ensures card == Cardinality(o.regs, estimate)
  {
    var E, ez;
    match o.encoding {
      case Dense => E, ez := DenseSum(o.bytes);
      case Sparse => E, ez := SparseSum(o.bytes, o.regs);
    }
    card := estimate(E, ez);
  }

  method CountRaw(registers: array<Byte>, estimate: Estimate) returns (card: bv64)
    requires registers.Length == REGISTERS
    ensures card == Cardinality(registers[..], estimate)
  {
    var E, ez := RawSum(registers);
    card := estimate(E, ez);
  }

  /** m is a where the registers before i are merged with r. */
  ghost predicate MergedTo(m: seq<Byte>, a: seq<Byte>, r: seq<Byte>, i: nat) {
    |m| == |a| == |r| && forall k :: 0 <= k < |m| ==> m[k] == if k < i then Max(a[k], r[k]) else a[k]
  }

  lemma MergedAll(m: seq<Byte>, a: seq<Byte>, r: seq<Byte>)
    requires MergedTo(m, a, r, |m|)
    ensures |a| == |r| && m == MaxAll(a, r)
  {
  }

  lemma MergedZeros(m: seq<Byte>, a: seq<Byte>, r: seq<Byte>, i: nat, j: nat)
    requires MergedTo(m, a, r, i) && i <= j && AllAre(r, i, j, 0)
    ensures MergedTo(m, a, r, j)
  {
    forall k | 0 <= k < |m| ensures m[k] == if k < j then Max(a[k], r[k]) else a[k] {
      if i <= k < j {
        MaxBounds(a[k], 0);
      }
    }
  }

  /** if (val > max[i]) max[i] = val; */
  method MergeOne(max: array<Byte>, i: nat, val: Byte, ghost a: seq<Byte>, ghost r: seq<Byte>)
    requires MergedTo(max[..], a, r, i) && i < |r| && val == r[i]
    modifies max
    ensures MergedTo(max[..], a, r, i + 1)
  {
    if val > max[i] {
      Store(max, i, val);
    }
  }

  method MergeVal(max: array<Byte>, i: nat, runlen: nat, regval: Byte, ghost a: seq<Byte>, ghost r: seq<Byte>)
    requires MergedTo(max[..], a, r, i) && AllAre(r, i, i + runlen, regval)
    modifies max
    ensures MergedTo(max[..], a, r, i + runlen)
  {
    var left, k := runlen, i;
    while left > 0
      invariant k + left == i + runlen && MergedTo(max[..], a, r, k)
    {
      assert r[k] == regval;
      MergeOne(max, k, regval, a, r);
      left, k := left - 1, k + 1;
    }
  }

  method MergeDense(max: array<Byte>, bytes: seq<Byte>)
    requires max.Length == REGISTERS && IsDense(bytes)
    modifies max
    ensures max[..] == MaxAll(old(max[..]), DenseRegs(bytes))
  {
    ghost var a := max[..];
    var i := 0;
    while i < REGISTERS
      invariant 0 <= i <= REGISTERS && MergedTo(max[..], a, DenseRegs(bytes), i)
    {
      var val := GetRegister(bytes, i);
      MergeOne(max, i, val, a, DenseRegs(bytes));
      i := i + 1;
    }
    MergedAll(max[..], a, DenseRegs(bytes));
  }

  method MergeSparse(max: array<Byte>, s: seq<Byte>, ghost r: seq<Byte>)
    requires max.Length == REGISTERS && |r| == REGISTERS && Spells(s, r)
    modifies max
    ensures max[..] == MaxAll(old(max[..]), r)
  {
    ghost var a := max[..];
    var p: nat, i: nat := 0, 0;
    CutEnd(s, r, 0, 0);
    while p < |s|
      invariant Cut(s, r, p, i) && p <= |s| && MergedTo(max[..], a, r, i)
    {
      CutNext(s, r, p, i);
      OneKind(s[p]);
      if IsZero(s[p]) {
        MergedZeros(max[..], a, r, i, i + ZeroLen(s[p]));
        i := i + ZeroLen(s[p]);
        p := p + 1;
      } else if IsXZero(s[p]) {
        MergedZeros(max[..], a, r, i, i + XZeroLen(s[p], s[p + 1]));
        i := i + XZeroLen(s[p], s[p + 1]);
        p := p + 2;
      } else {
        MergeVal(max, i, ValLen(s[p]), ValValue(s[p]), a, r);
        i := i + ValLen(s[p]);
        p := p + 1;
      }
    }
    CutEnd(s, r, p, i);
    MergedAll(max[..], a, r);
  }

  /** hllMerge: register-wise maximum, whatever the encoding. */
  method Merge(max: array<Byte>, hll: Hll)
    requires max.Length == REGISTERS && hll.Valid()
    modifies max
    ensures max[..] == MaxAll(old(max[..]), hll.regs)
  {
    match hll.encoding {
      case Dense => MergeDense(max, hll.bytes);
      case Sparse => MergeSparse(max, hll.bytes, hll.regs);
    }
  }
}
