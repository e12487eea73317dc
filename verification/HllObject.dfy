/** A HyperLogLog object of src/hyperloglog.c: its header fields and its registers, dense or
    sparse, edited in place. */
module HllObject {
  import opened HllPattern
  import opened HllRegisters
  import opened HllDense
  import opened HllSparse

  const HDR_SIZE := 16

  type Hash = Element -> bv64

  datatype Encoding = Dense | Sparse

  /** HLL_INVALIDATE_CACHE on the bytes of the cached cardinality. */
  function Invalidated(card: seq<Byte>): seq<Byte>
    requires |card| == 8
  {
    card[0 := card[0] | 0x80]
  }

  // ---------------------------------------------------------------- locating and splitting opcodes

  /** The zero registers of a split ZERO or XZERO opcode on one side of the new value. */
  method AppendZeros(n: seq<Byte>, len: nat, ghost r: seq<Byte>, ghost i: nat, ghost j: nat) returns (m: seq<Byte>)
    requires Writes(n, r, i, j) && 1 <= len <= XZERO_MAX_LEN && AllAre(r, j, j + len, 0)
    ensures Writes(m, r, i, j + len)
    ensures |m| == |n| + if len > ZERO_MAX_LEN then 2 else 1
  {
    if len > ZERO_MAX_LEN {
      m := n + XZeroSet(len);
      WriteXZero(n, r, i, j, len);
    } else {
      m := n + [ZeroSet(len)];
      WriteZero(n, r, i, j, len);
    }
  }

  method AppendVal(n: seq<Byte>, value: Byte, len: nat, ghost r: seq<Byte>, ghost i: nat, ghost j: nat)
      returns (m: seq<Byte>)
    requires Writes(n, r, i, j) && 1 <= value <= VAL_MAX_VALUE && 1 <= len <= VAL_MAX_LEN
    requires AllAre(r, j, j + len, value)
    ensures Writes(m, r, i, j + len) && |m| == |n| + 1
  {
    m := n + [ValSet(value, len)];
    WriteVal(n, r, i, j, value, len);
  }

  /** Case D for ZERO and XZERO: zeros, the new value, zeros. */
  method SplitZeros(first: nat, index: nat, last: nat, count: Byte, ghost r: seq<Byte>) returns (n: seq<Byte>)
    requires first <= index <= last < |r| && last - first < XZERO_MAX_LEN && 1 <= count <= VAL_MAX_VALUE
    requires AllAre(r, first, index, 0) && r[index] == count && AllAre(r, index + 1, last + 1, 0)
    ensures Writes(n, r, first, last + 1) && 1 <= |n| <= 5
    ensures last - first < ZERO_MAX_LEN ==> |n| <= 3
  {
    n := [];
    if index != first {
      n := AppendZeros(n, index - first, r, first, first);
    }
    n := AppendVal(n, count, 1, r, first, index);
    if index != last {
      n := AppendZeros(n, last - index, r, first, index + 1);
    }
  }

  /** Case D for VAL: the old value, the new value, the old value. */
  method SplitVal(first: nat, index: nat, last: nat, count: Byte, curval: Byte,
      ghost r: seq<Byte>) returns (n: seq<Byte>)
    requires first <= index <= last < |r| && last - first < VAL_MAX_LEN
    requires 1 <= count <= VAL_MAX_VALUE && 1 <= curval <= VAL_MAX_VALUE
    requires AllAre(r, first, index, curval) && r[index] == count && AllAre(r, index + 1, last + 1, curval)
    ensures Writes(n, r, first, last + 1) && 1 <= |n| <= 3
  {
    n := [];
    if index != first {
      n := AppendVal(n, curval, index - first, r, first, first);
    }
    n := AppendVal(n, count, 1, r, first, index);
    if index != last {
      n := AppendVal(n, curval, last - index, r, first, index + 1);
    }
  }

  /** Step 1 of hllSparseAdd: the opcode at p covers register index, and starts at first; the
      opcode before it is at prev. */
  method Locate(s: seq<Byte>, index: nat, ghost r: seq<Byte>)
      returns (p: nat, prev: nat, first: nat, span: nat, ghost before: nat)
    requires Spells(s, r) && index < |r|
    ensures Cut(s, r, p, first) && p < |s| && first <= index < first + span
    ensures p + OpLen(s, p) <= |s| && span == Span(s, p)
    ensures Cut(s, r, prev, before) && Walk(s, prev, p, r, before, first)
  {
    p, first, prev, before := 0, 0, 0, 0;
    CutEnd(s, r, p, first);
    while p < |s|
      invariant p < |s|
      invariant Cut(s, r, p, first) && Cut(s, r, prev, before) && Walk(s, prev, p, r, before, first) && first <= index
      decreases |s| - p
    {
      CutNext(s, r, p, first);
      var oplen := 1;
      if IsZero(s[p]) {
        span := ZeroLen(s[p]);
      } else if IsVal(s[p]) {
        OneKind(s[p]);
        span := ValLen(s[p]);
      } else {
        OneKind(s[p]);
        span := XZeroLen(s[p], s[p + 1]);
        oplen := 2;
      }
      if index <= first + span - 1 {
        break;
      }
      prev, before := p, first;
      WalkOp(s, p, p + oplen, r, first, first + span);
      p := p + oplen;
      first := first + span;
      CutEnd(s, r, p, first);
    }
  }

  /** Cases B, C and D of hllSparseAdd: the opcodes that replace the one at p. */
  method Replacement(s: seq<Byte>, p: nat, first: nat, span: nat, index: nat, count: Byte,
      ghost r: seq<Byte>, ghost r': seq<Byte>) returns (n: seq<Byte>)
    requires Cut(s, r, p, first) && p < |s| && p + OpLen(s, p) <= |s| && span == Span(s, p) <= XZERO_MAX_LEN
    requires first <= index < first + span <= |r| && 1 <= count <= VAL_MAX_VALUE
    requires r' == r[index := count]
    ensures Writes(n, r', first, first + span)
    ensures 1 <= |n| <= OpLen(s, p) + 3
  {
    CutNext(s, r, p, first);
    OneKind(s[p]);
    if IsVal(s[p]) {
      ValRange(s[p]);
      n := SplitVal(first, index, first + span - 1, count, ValValue(s[p]), r');
    } else {
      if IsZero(s[p]) {
        ZeroRange(s[p]);
      }
      n := SplitZeros(first, index, first + span - 1, count, r');
    }
  }

  lemma RaiseFits(r: seq<Byte>, i: nat, c: Byte)
    requires IsRegisters(r) && i < REGISTERS && c <= REGISTER_MAX
    ensures IsRegisters(Raise(r, i, c))
  {
  }

  lemma SetFits(r: seq<Byte>, i: nat, c: Byte)
    requires IsRegisters(r) && i < REGISTERS && c <= REGISTER_MAX
    ensures IsRegisters(r[i := c])
  {
  }

  lemma RaiseIs(r: seq<Byte>, i: nat, c: Byte)
    requires i < |r|
    ensures Raise(r, i, c) == if r[i] < c then r[i := c] else r
  {
  }

  /** The register is what its opcode says. */
  lemma OldCount(s: seq<Byte>, r: seq<Byte>, p: nat, i: nat, index: nat)
    requires Cut(s, r, p, i) && p < |s| && p + OpLen(s, p) <= |s| && i <= index < i + Span(s, p)
    ensures index < |r| && r[index] == if IsVal(s[p]) then ValValue(s[p]) else 0
  {
    CutNext(s, r, p, i);
  }

  lemma SpanFits(s: seq<Byte>, r: seq<Byte>, p: nat, i: nat)
    requires Cut(s, r, p, i) && p < |s| && p + OpLen(s, p) <= |s|
    ensures i + Span(s, p) <= |r|
  {
    CutNext(s, r, p, i);
    CutEnd(s, r, p + OpLen(s, p), i + Span(s, p));
  }

  /** Copying the registers before idx into a dense object that was zero. */
  ghost predicate Copied(d: seq<Byte>, r: seq<Byte>, idx: nat) {
    |d| == |r| && forall k :: 0 <= k < |d| ==> d[k] == if k < idx then r[k] else 0
  }

  lemma CopiedZeros(d: seq<Byte>, r: seq<Byte>, i: nat, j: nat)
    requires Copied(d, r, i) && i <= j && AllAre(r, i, j, 0)
    ensures Copied(d, r, j)
  {
  }

  lemma SkipZeros(s: seq<Byte>, r: seq<Byte>, p: nat, i: nat, d: seq<Byte>)
    requires Cut(s, r, p, i) && p < |s| && !IsVal(s[p]) && Copied(d, r, i)
    ensures p + OpLen(s, p) <= |s| && Cut(s, r, p + OpLen(s, p), i + Span(s, p))
    ensures Copied(d, r, i + Span(s, p))
  {
    CutNext(s, r, p, i);
    CopiedZeros(d, r, i, i + Span(s, p));
  }

  lemma CopiedOne(d: seq<Byte>, r: seq<Byte>, i: nat)
    requires Copied(d, r, i) && i < |r|
    ensures Copied(d[i := r[i]], r, i + 1)
  {
  }

  /** The loop of hllSparseToDense over the opcodes. */
  method Unpack(bytes: seq<Byte>, ghost r: seq<Byte>) returns (dense: seq<Byte>)
    requires Spells(bytes, r) && IsRegisters(r)
    ensures IsDense(dense) && dense[DENSE_BYTES] == 0 && DenseRegs(dense) == r
  {
    dense := seq(DENSE_BYTES + 1, _ => 0);
    ZeroDense(dense);
    var p: nat, idx: nat := 0, 0;
    CutEnd(bytes, r, 0, 0);
    while p < |bytes|
      invariant Cut(bytes, r, p, idx) && p <= |bytes|
      invariant IsDense(dense) && dense[DENSE_BYTES] == 0 && Copied(DenseRegs(dense), r, idx)
    {
      OneKind(bytes[p]);
      if IsZero(bytes[p]) {
        SkipZeros(bytes, r, p, idx, DenseRegs(dense));
        idx := idx + ZeroLen(bytes[p]);
        p := p + 1;
      } else if IsXZero(bytes[p]) {
        SkipZeros(bytes, r, p, idx, DenseRegs(dense));
        idx := idx + XZeroLen(bytes[p], bytes[p + 1]);
        p := p + 2;
      } else {
        CutNext(bytes, r, p, idx);
        dense := UnpackVal(dense, ValLen(bytes[p]), ValValue(bytes[p]), r, idx);
        idx := idx + ValLen(bytes[p]);
        p := p + 1;
      }
    }
    CutEnd(bytes, r, p, idx);
  }

  method UnpackVal(d: seq<Byte>, runlen: nat, regval: Byte, ghost r: seq<Byte>, idx: nat) returns (dense: seq<Byte>)
    requires IsRegisters(r) && AllAre(r, idx, idx + runlen, regval)
    requires IsDense(d) && d[DENSE_BYTES] == 0 && Copied(DenseRegs(d), r, idx)
    ensures IsDense(dense) && dense[DENSE_BYTES] == 0 && Copied(DenseRegs(dense), r, idx + runlen)
  {
    dense := d;
    var left, i := runlen, idx;
    while left > 0
      invariant i + left == idx + runlen
      invariant IsDense(dense) && dense[DENSE_BYTES] == 0 && Copied(DenseRegs(dense), r, i)
    {
      assert r[i] == regval;
      CopiedOne(DenseRegs(dense), r, i);
      dense := StoreRegister(dense, i, regval);
      left, i := left - 1, i + 1;
    }
  }

  /** Steps 2 and 3 of hllSparseAdd on the string. */
  lemma Spliced(s: seq<Byte>, r: seq<Byte>, p: nat, q: nat, i: nat, j: nat, n: seq<Byte>, index: nat, count: Byte,
      prev: nat, before: nat)
    requires Cut(s, r, p, i) && p < |s| && q == p + OpLen(s, p) <= |s| && j == i + Span(s, p)
    requires i <= index < j <= |r| && Writes(n, r[index := count], i, j)
    requires Cut(s, r, prev, before) && Walk(s, prev, p, r, before, i)
    ensures Cut(s[..p] + n + s[q..], r[index := count], prev, before)
  {
    var s', r' := s[..p] + n + s[q..], r[index := count];
    CutNext(s, r, p, i);
    Replace(s, r, p, q, i, j, n, r', s');
    SpliceBytes(s, p, q, n, s');
    ReplaceKeeps(s, r, prev, before, p, i, s', r');
  }

  class Hll {
    var encoding: Encoding
    /** The cached cardinality, little endian. */
    var card: seq<Byte>
    /** registers[]: packed registers and the terminator, or opcodes. */
    var bytes: seq<Byte>
    /** What the bytes stand for. */
    ghost var regs: seq<Byte>

    ghost predicate Valid()
      reads this
    {
      && |card| == 8 && IsRegisters(regs)
      && match encoding
         case Dense => IsDense(bytes) && bytes[DENSE_BYTES] == 0 && DenseRegs(bytes) == regs
         case Sparse => Spells(bytes, regs)
    }

    /** createHLLObject: one XZERO opcode for all the registers, and a cached cardinality of 0. */
    constructor ()
      ensures Valid() && encoding == Sparse && card == seq(8, _ => 0)
      ensures |bytes| == 2 && forall i :: 0 <= i < REGISTERS ==> regs[i] == 0
    {
      encoding := Sparse;
      card := seq(8, _ => 0);
      bytes := XZeroSet(REGISTERS);
      regs := seq(REGISTERS, _ => 0);
      new;
      WriteXZero([], regs, 0, 0, REGISTERS);
      assert [] + bytes == bytes;
    }

    /** hllSparseToDense. */
    method SparseToDense()
      requires Valid()
      modifies this`encoding, this`bytes
      ensures Valid() && encoding == Dense
      ensures old(encoding) == Dense ==> bytes == old(bytes)
    {
      if encoding == Dense {
        return;
      }
      bytes := Unpack(bytes, regs);
      encoding := Dense;
    }

    /** hllDenseAdd. */
    method DenseAdd(hash: Hash, ele: Element) returns (r: int)
      requires Valid() && encoding == Dense
      modifies this`bytes, this`regs
      ensures Valid() && encoding == Dense
      ensures var at := PlaceOf(hash(ele)); regs == Raise(old(regs), at.index, at.count)
      ensures r == if old(regs)[PlaceOf(hash(ele)).index] < PlaceOf(hash(ele)).count then 1 else 0
      ensures r == 0 ==> bytes == old(bytes)
    {
      var count, index := PatLen(hash(ele));
      var oldcount := GetRegister(bytes, index);
      RaiseFits(regs, index, count);
      if count > oldcount {
        bytes := StoreRegister(bytes, index, count);
        regs := Raise(regs, index, count);
        return 1;
      } else {
        return 0;
      }
    }

    /** Step 4 of hllSparseAdd: up to five opcodes from prev on are merged where possible. */
    method MergeAdjacent(prev: nat, ghost before: nat)
      requires |card| == 8 && IsRegisters(regs) && encoding == Sparse && Cut(bytes, regs, prev, before)
      modifies this`bytes
      ensures Valid() && |bytes| <= old(|bytes|)
    {
      var p: nat := prev;
      ghost var i: nat := before;
      var scanlen := 5;
      CutSpells(bytes, regs, p, i);
      while p < |bytes| && scanlen > 0
        invariant Cut(bytes, regs, p, i) && Spells(bytes, regs) && |bytes| <= old(|bytes|)
        decreases scanlen
      {
        scanlen := scanlen - 1;
        CutNext(bytes, regs, p, i);
        OneKind(bytes[p]);
        if IsXZero(bytes[p]) {
          i := i + Span(bytes, p);
          p := p + 2;
          continue;
        } else if IsZero(bytes[p]) {
          i := i + Span(bytes, p);
          p := p + 1;
          continue;
        }
        if p + 1 < |bytes| && IsVal(bytes[p + 1]) {
          var v1, v2 := ValValue(bytes[p]), ValValue(bytes[p + 1]);
          if v1 == v2 {
            var len := ValLen(bytes[p]) + ValLen(bytes[p + 1]);
            if len <= VAL_MAX_LEN {
              MergeVals(bytes, regs, p, i, len, bytes[..p] + [ValSet(v1, len)] + bytes[p + 2..]);
              bytes := bytes[..p] + [ValSet(v1, len)] + bytes[p + 2..];
              continue;
            }
          }
        }
        i := i + Span(bytes, p);
        p := p + 1;
      }
    }

    /** hllSparseAdd.  It returns 0 and changes nothing exactly when the register is already large
        enough; otherwise only that register is raised, the opcodes grow by at most 3 bytes and
        not beyond the configured size, and the cache is invalidated unless the object is
        promoted, in which case hllDenseAdd returns 1 as asserted. */
    method SparseAdd(hash: Hash, ele: Element, sparseMaxBytes: nat) returns (r: int)
      requires Valid() && encoding == Sparse
      modifies this
      ensures Valid()
      ensures var at := PlaceOf(hash(ele)); regs == Raise(old(regs), at.index, at.count)
      ensures r == if old(regs)[PlaceOf(hash(ele)).index] < PlaceOf(hash(ele)).count then 1 else 0
      ensures r == 0 ==> encoding == Sparse && bytes == old(bytes) && card == old(card)
      ensures encoding == Sparse ==> |bytes| <= old(|bytes|) + 3
      ensures encoding == Sparse ==> |bytes| <= old(|bytes|) || HDR_SIZE + |bytes| <= sparseMaxBytes
      ensures encoding == Sparse && r == 1 ==> card == Invalidated(old(card))
      ensures encoding == Dense ==> card == old(card)
      ensures encoding == Dense ==>
        PlaceOf(hash(ele)).count > VAL_MAX_VALUE || HDR_SIZE + old(|bytes|) + 3 > sparseMaxBytes
    {
      var count, index := PatLen(hash(ele));
      RaiseIs(regs, index, count);
      if count > VAL_MAX_VALUE {
        WalkSmall(bytes, 0, |bytes|, regs, 0, |regs|, index);
        r := Promote(hash, ele);
        return;
      }
      var p, prev, first, span, before := Locate(bytes, index, regs);
      OldCount(bytes, regs, p, first, index);
      if IsVal(bytes[p]) && ValValue(bytes[p]) >= count {
        return 0;
      }
      var fits := Update(p, prev, before, first, span, index, count, sparseMaxBytes);
      if fits {
        return 1;
      }
      r := Promote(hash, ele);
    }

    /** Cases B, C and D: the opcode at p is replaced, unless the string would be too long.  In
        cases B and C the opcode covers the register alone and one VAL opcode replaces it. */
    method Update(p: nat, prev: nat, ghost before: nat, first: nat, span: nat, index: nat, count: Byte,
        sparseMaxBytes: nat) returns (fits: bool)
      requires Valid() && encoding == Sparse
      requires Cut(bytes, regs, p, first) && p < |bytes| && p + OpLen(bytes, p) <= |bytes| && span == Span(bytes, p)
      requires first <= index < first + span && index < REGISTERS && 1 <= count <= VAL_MAX_VALUE
      requires Cut(bytes, regs, prev, before) && Walk(bytes, prev, p, regs, before, first)
      modifies this`bytes, this`regs, this`card
      ensures Valid()
      ensures !fits ==> bytes == old(bytes) && regs == old(regs) && card == old(card)
      ensures !fits ==> HDR_SIZE + |bytes| + 3 > sparseMaxBytes
      ensures fits ==> regs == old(regs)[index := count] && card == Invalidated(old(card))
      ensures fits ==> |bytes| <= old(|bytes|) + 3
      ensures fits ==> |bytes| <= old(|bytes|) || HDR_SIZE + |bytes| <= sparseMaxBytes
    {
      SpanFits(bytes, regs, p, first);
      var n := Replacement(bytes, p, first, span, index, count, regs, regs[index := count]);
      var oldlen := OpLen(bytes, p);
      var deltalen := |n| - oldlen;
      if deltalen > 0 && HDR_SIZE + |bytes| + deltalen > sparseMaxBytes {
        return false;
      }
      Spliced(bytes, regs, p, p + oldlen, first, first + span, n, index, count, prev, before);
      SetFits(regs, index, count);
      bytes := bytes[..p] + n + bytes[p + oldlen..];
      regs := regs[index := count];
      MergeAdjacent(prev, before);
      card := Invalidated(card);
      return true;
    }

    /** The end of hllSparseAdd at the label promote. */
    method Promote(hash: Hash, ele: Element) returns (r: int)
      requires Valid() && encoding == Sparse
      requires regs[PlaceOf(hash(ele)).index] < PlaceOf(hash(ele)).count
      modifies this`encoding, this`bytes, this`regs
      ensures Valid() && encoding == Dense && r == 1
      ensures var at := PlaceOf(hash(ele)); regs == Raise(old(regs), at.index, at.count)
    {
      SparseToDense();
      r := DenseAdd(hash, ele);
      assert r == 1;
    }
  }
}