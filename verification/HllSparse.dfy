/** The sparse representation of src/hyperloglog.c: run-length opcodes ZERO (00xxxxxx), XZERO
    (01xxxxxx yyyyyyyy) and VAL (1vvvvvxx). */
module HllSparse {
  import opened HllPattern

  const VAL_MAX_VALUE: Byte := 32
  const VAL_MAX_LEN := 4
  const ZERO_MAX_LEN := 64
  const XZERO_MAX_LEN := 16384

  // ---------------------------------------------------------------- the macros

  predicate IsZero(b: Byte) { b & 0xc0 == 0 }

  predicate IsXZero(b: Byte) { b & 0xc0 == 0x40 }

  predicate IsVal(b: Byte) { b & 0x80 != 0 }

  function ZeroLen(b: Byte): nat { (b & 0x3f) as nat + 1 }

  function XZeroLen(b0: Byte, b1: Byte): nat {
    ((((b0 & 0x3f) as bv16) << 8) | (b1 as bv16)) as nat + 1
  }

  function ValValue(b: Byte): Byte { ((b >> 2) & 0x1f) + 1 }

  function ValLen(b: Byte): nat { (b & 0x3) as nat + 1 }

  function ValSet(value: Byte, len: nat): Byte
    requires 1 <= len <= VAL_MAX_LEN
  {
    ((value - 1) << 2) | ((len - 1) as Byte) | 0x80
  }

  function ZeroSet(len: nat): Byte
    requires 1 <= len <= ZERO_MAX_LEN
  {
    (len - 1) as Byte
  }

  /** The length is an int: its high and low byte. */
  function XZeroSet(len: nat): seq<Byte>
    requires 1 <= len <= XZERO_MAX_LEN
  {
    var l := len - 1;
    [((l / 256) as Byte) | 0x40, (l % 256) as Byte]
  }

  lemma OneKind(b: Byte)
    ensures IsVal(b) <==> !IsZero(b) && !IsXZero(b)
    ensures !(IsZero(b) && IsXZero(b))
  {
  }

  lemma ZeroLow(b: Byte)
    requires b < 64
    ensures IsZero(b) && b & 0x3f == b
  {
  }

  lemma ZeroBack(len: nat)
    requires 1 <= len <= ZERO_MAX_LEN
    ensures IsZero(ZeroSet(len)) && ZeroLen(ZeroSet(len)) == len
  {
    Narrow(len - 1);
    ZeroLow((len - 1) as Byte);
  }

  lemma Narrow(n: nat)
    requires n < 64
    ensures n as Byte < 64 && (n as Byte) as nat == n
  {
  }

  lemma NarrowHalf(n: nat)
    requires n < 128
    ensures (n as Byte) as nat == n
  {
    if n < 64 {
      Narrow(n);
    } else {
      Narrow(n - 64);
      UpperQuarter(n - 64, (n - 64) as Byte);
      SameByte(n, ((n - 64) as Byte) | 0x40);
    }
  }

  lemma UpperQuarter(n: nat, b: Byte)
    requires n < 64 && b as nat == n
    ensures (b | 0x40) as nat == n + 64
  {
  }

  lemma UpperHalf(n: nat, b: Byte)
    requires n < 128 && b as nat == n
    ensures (b | 0x80) as nat == n + 128
  {
  }

  lemma SameByte(n: nat, b: Byte)
    requires n < 256 && b as nat == n
    ensures n as Byte == b
  {
  }

  lemma NarrowByte(n: nat)
    requires n < 256
    ensures (n as Byte) as nat == n
  {
    if n < 128 {
      NarrowHalf(n);
    } else {
      NarrowHalf(n - 128);
      UpperHalf(n - 128, (n - 128) as Byte);
      SameByte(n, ((n - 128) as Byte) | 0x80);
    }
  }

  lemma XZeroHigh(h: Byte)
    requires h < 64
    ensures IsXZero(h | 0x40) && (h | 0x40) & 0x3f == h
  {
  }

  lemma XZeroJoin(b0: Byte, b1: Byte)
    ensures XZeroLen(b0, b1) == (b0 & 0x3f) as nat * 256 + b1 as nat + 1
  {
  }

  lemma XZeroBack(len: nat)
    requires 1 <= len <= XZERO_MAX_LEN
    ensures IsXZero(XZeroSet(len)[0]) && XZeroLen(XZeroSet(len)[0], XZeroSet(len)[1]) == len
  {
    var h, l := (len - 1) / 256, (len - 1) % 256;
    Narrow(h);
    NarrowByte(l);
    XZeroHigh(h as Byte);
    XZeroJoin((h as Byte) | 0x40, l as Byte);
  }

  lemma ValJoin(value: Byte, l: Byte)
    requires 1 <= value <= VAL_MAX_VALUE && l < 4
    ensures var b := ((value - 1) << 2) | l | 0x80;
      IsVal(b) && ValValue(b) == value && b & 3 == l
  {
  }

  lemma NarrowVal(len: nat)
    requires len < 4
    ensures len as Byte < 4 && (len as Byte) as nat == len
  {
  }

  lemma ValBack(value: Byte, len: nat)
    requires 1 <= value <= VAL_MAX_VALUE && 1 <= len <= VAL_MAX_LEN
    ensures IsVal(ValSet(value, len)) && ValValue(ValSet(value, len)) == value && ValLen(ValSet(value, len)) == len
  {
    NarrowVal(len - 1);
    ValJoin(value, (len - 1) as Byte);
  }

  lemma ValRange(b: Byte)
    ensures 1 <= ValValue(b) <= VAL_MAX_VALUE && 1 <= ValLen(b) <= VAL_MAX_LEN
  {
  }

  lemma ZeroRange(b: Byte)
    ensures 1 <= ZeroLen(b) <= ZERO_MAX_LEN
  {
  }

  // ---------------------------------------------------------------- what the opcodes spell

  /** The bytes of the opcode at p. */
  function OpLen(s: seq<Byte>, p: nat): (n: nat)
    requires p < |s|
    ensures 1 <= n <= 2
  {
    if IsXZero(s[p]) then 2 else 1
  }

  /** The registers that the opcode at p covers. */
  function Span(s: seq<Byte>, p: nat): (n: nat)
    requires p < |s| && p + OpLen(s, p) <= |s|
    ensures n >= 1
  {
    if IsZero(s[p]) then ZeroLen(s[p]) else if IsXZero(s[p]) then XZeroLen(s[p], s[p + 1]) else ValLen(s[p])
  }

  function Value(s: seq<Byte>, p: nat): Byte
    requires p < |s|
  {
    if IsVal(s[p]) then ValValue(s[p]) else 0
  }

  ghost predicate AllAre(r: seq<Byte>, i: nat, j: nat, v: Byte) {
    j <= |r| && forall k :: i <= k < j ==> r[k] == v
  }

  /** The opcode at p ends at q and stands for registers i to j. */
  ghost predicate Op(s: seq<Byte>, p: nat, q: nat, r: seq<Byte>, i: nat, j: nat) {
    && p < |s| && q == p + OpLen(s, p) && q <= |s|
    && j == i + Span(s, p) && AllAre(r, i, j, Value(s, p))
  }

  /** The opcodes from p to q stand for registers i to j, run after run. */
  ghost predicate Walk(s: seq<Byte>, p: nat, q: nat, r: seq<Byte>, i: nat, j: nat)
    decreases q - p
  {
    if p >= q then p == q && i == j && q <= |s| && j <= |r|
    else
      && p < |s| && p + OpLen(s, p) <= q <= |s|
      && Op(s, p, p + OpLen(s, p), r, i, i + Span(s, p))
      && Walk(s, p + OpLen(s, p), q, r, i + Span(s, p), j)
  }

  /** The string s of opcodes stands for the registers r. */
  ghost predicate Spells(s: seq<Byte>, r: seq<Byte>) {
    Walk(s, 0, |s|, r, 0, |r|)
  }

  lemma {:induction false} WalkGrows(s: seq<Byte>, p: nat, q: nat, r: seq<Byte>, i: nat, j: nat)
    requires Walk(s, p, q, r, i, j)
    ensures p <= q <= |s| && i <= j <= |r| && (p < q ==> i < j)
    decreases q - p
  {
    if p < q {
      WalkGrows(s, p + OpLen(s, p), q, r, i + Span(s, p), j);
    }
  }

  /** One opcode is a walk. */
  lemma WalkOp(s: seq<Byte>, p: nat, q: nat, r: seq<Byte>, i: nat, j: nat)
    requires Op(s, p, q, r, i, j)
    ensures Walk(s, p, q, r, i, j)
  {
  }

  lemma {:induction false} WalkJoin(s: seq<Byte>, p: nat, q: nat, t: nat, r: seq<Byte>, i: nat, j: nat, k: nat)
    requires Walk(s, p, q, r, i, j) && Walk(s, q, t, r, j, k)
    ensures Walk(s, p, t, r, i, k)
    decreases q - p
  {
    WalkGrows(s, q, t, r, j, k);
    if p < q {
      WalkJoin(s, p + OpLen(s, p), q, t, r, i + Span(s, p), j, k);
    }
  }

  /** The bytes of s from p to q are those of s' from p + d on. */
  ghost predicate SameBytes(s: seq<Byte>, p: nat, q: nat, s': seq<Byte>, d: int) {
    && q <= |s| && 0 <= p + d && q + d <= |s'|
    && forall k :: p <= k < q ==> s[k] == s'[k + d]
  }

  ghost predicate SameRegs(r: seq<Byte>, i: nat, j: nat, r': seq<Byte>) {
    && j <= |r| && j <= |r'|
    && forall k :: i <= k < j ==> r[k] == r'[k]
  }

  /** The same opcodes elsewhere, for registers with the same values. */
  lemma {:induction false} WalkMoves(s: seq<Byte>, p: nat, q: nat, r: seq<Byte>, i: nat, j: nat,
      s': seq<Byte>, d: int, r': seq<Byte>)
    requires Walk(s, p, q, r, i, j)
    requires p <= q && SameBytes(s, p, q, s', d) && SameRegs(r, i, j, r')
    ensures Walk(s', p + d, q + d, r', i, j)
    decreases q - p
  {
    if p < q {
      var n, k := OpLen(s, p), Span(s, p);
      WalkGrows(s, p + n, q, r, i + k, j);
      WalkMoves(s, p + n, q, r, i + k, j, s', d, r');
      OpMoves(s, p, p + n, r, i, i + k, s', d, r');
      assert p + d + n == p + n + d;
    }
  }

  lemma OpMoves(s: seq<Byte>, p: nat, q: nat, r: seq<Byte>, i: nat, j: nat, s': seq<Byte>, d: int, r': seq<Byte>)
    requires Op(s, p, q, r, i, j)
    requires SameBytes(s, p, q, s', d) && SameRegs(r, i, j, r')
    ensures Op(s', p + d, q + d, r', i, j)
  {
    assert s[p] == s'[p + d];
    assert q == p + 2 ==> s[p + 1] == s'[p + 1 + d];
    forall k | i <= k < j ensures r'[k] == Value(s, p) {
      assert r[k] == r'[k];
    }
  }

  /** A string of opcodes stands for one sequence of registers only. */
  lemma {:induction false} WalkOne(s: seq<Byte>, p: nat, q: nat, r: seq<Byte>, r': seq<Byte>, i: nat, j: nat, j': nat)
    requires Walk(s, p, q, r, i, j) && Walk(s, p, q, r', i, j')
    ensures j == j' && forall k :: i <= k < j && k < |r| && k < |r'| ==> r[k] == r'[k]
    decreases q - p
  {
    if p < q {
      WalkOne(s, p + OpLen(s, p), q, r, r', i + Span(s, p), j, j');
    }
  }

  lemma SpellsOne(s: seq<Byte>, r: seq<Byte>, r': seq<Byte>)
    requires Spells(s, r) && Spells(s, r')
    ensures r == r'
  {
    WalkOne(s, 0, |s|, r, r', 0, |r|, |r'|);
  }

  // ---------------------------------------------------------------- a cursor in the string

  /** The cursor p stands on an opcode, whose first register is i. */
  ghost predicate Cut(s: seq<Byte>, r: seq<Byte>, p: nat, i: nat) {
    Walk(s, 0, p, r, 0, i) && Walk(s, p, |s|, r, i, |r|)
  }

  lemma CutNext(s: seq<Byte>, r: seq<Byte>, p: nat, i: nat)
    requires Cut(s, r, p, i) && p < |s|
    ensures p + OpLen(s, p) <= |s| && Op(s, p, p + OpLen(s, p), r, i, i + Span(s, p))
    ensures Cut(s, r, p + OpLen(s, p), i + Span(s, p))
  {
    WalkOp(s, p, p + OpLen(s, p), r, i, i + Span(s, p));
    WalkJoin(s, 0, p, p + OpLen(s, p), r, 0, i, i + Span(s, p));
  }

  lemma CutEnd(s: seq<Byte>, r: seq<Byte>, p: nat, i: nat)
    requires Cut(s, r, p, i)
    ensures p <= |s| && i <= |r| && (p < |s| <==> i < |r|)
  {
    WalkGrows(s, p, |s|, r, i, |r|);
  }

  lemma CutSpells(s: seq<Byte>, r: seq<Byte>, p: nat, i: nat)
    requires Cut(s, r, p, i)
    ensures Spells(s, r)
  {
    WalkJoin(s, 0, p, |s|, r, 0, i, |r|);
  }

  /** Replacing the opcodes from p to q, for the registers i to j, by others, which end at q + d. */
  lemma Splice(s: seq<Byte>, r: seq<Byte>, p: nat, q: nat, i: nat, j: nat, s': seq<Byte>, d: int, r': seq<Byte>)
    requires Cut(s, r, p, i) && Cut(s, r, q, j) && p <= q && p <= q + d
    requires SameBytes(s, 0, p, s', 0) && SameBytes(s, q, |s|, s', d) && |s'| == |s| + d
    requires SameRegs(r, 0, i, r') && SameRegs(r, j, |r|, r') && |r'| == |r|
    requires Walk(s', p, q + d, r', i, j)
    ensures Cut(s', r', p, i) && Cut(s', r', q + d, j) && Spells(s', r')
  {
    CutEnd(s, r, q, j);
    WalkMoves(s, 0, p, r, 0, i, s', 0, r');
    WalkMoves(s, q, |s|, r, j, |r|, s', d, r');
    WalkJoin(s', p, q + d, |s'|, r', i, j, |r'|);
    WalkJoin(s', 0, p, q + d, r', 0, i, j);
    WalkJoin(s', 0, p, |s'|, r', 0, i, |r'|);
  }

  /** s' is s with the bytes from p to q replaced by mid. */
  lemma SpliceBytes(s: seq<Byte>, p: nat, q: nat, mid: seq<Byte>, s': seq<Byte>)
    requires p <= q <= |s| && s' == s[..p] + mid + s[q..]
    ensures |s'| == |s| + (|mid| - (q - p))
    ensures SameBytes(s, 0, p, s', 0) && SameBytes(s, q, |s|, s', |mid| - (q - p))
    ensures forall k :: p <= k < p + |mid| ==> s'[k] == mid[k - p]
  {
  }

  // ---------------------------------------------------------------- writing opcodes

  /** The opcodes n, on their own, stand for registers i to j. */
  ghost predicate Writes(n: seq<Byte>, r: seq<Byte>, i: nat, j: nat) {
    Walk(n, 0, |n|, r, i, j)
  }

  lemma WritesMore(n: seq<Byte>, o: seq<Byte>, r: seq<Byte>, i: nat, j: nat, k: nat)
    requires Writes(n, r, i, j) && Op(n + o, |n|, |n + o|, r, j, k)
    ensures Writes(n + o, r, i, k)
  {
    WalkGrows(n, 0, |n|, r, i, j);
    WalkMoves(n, 0, |n|, r, i, j, n + o, 0, r);
    WalkOp(n + o, |n|, |n + o|, r, j, k);
    WalkJoin(n + o, 0, |n|, |n + o|, r, i, j, k);
  }

  lemma WriteZero(n: seq<Byte>, r: seq<Byte>, i: nat, j: nat, len: nat)
    requires Writes(n, r, i, j) && 1 <= len <= ZERO_MAX_LEN && AllAre(r, j, j + len, 0)
    ensures Writes(n + [ZeroSet(len)], r, i, j + len)
  {
    ZeroBack(len);
    OneKind(ZeroSet(len));
    WritesMore(n, [ZeroSet(len)], r, i, j, j + len);
  }

  lemma WriteXZero(n: seq<Byte>, r: seq<Byte>, i: nat, j: nat, len: nat)
    requires Writes(n, r, i, j) && 1 <= len <= XZERO_MAX_LEN && AllAre(r, j, j + len, 0)
    ensures Writes(n + XZeroSet(len), r, i, j + len)
  {
    XZeroBack(len);
    OneKind(XZeroSet(len)[0]);
    WritesMore(n, XZeroSet(len), r, i, j, j + len);
  }

  lemma WriteVal(n: seq<Byte>, r: seq<Byte>, i: nat, j: nat, value: Byte, len: nat)
    requires Writes(n, r, i, j) && 1 <= value <= VAL_MAX_VALUE && 1 <= len <= VAL_MAX_LEN
    requires AllAre(r, j, j + len, value)
    ensures Writes(n + [ValSet(value, len)], r, i, j + len)
  {
    ValBack(value, len);
    OneKind(ValSet(value, len));
    WritesMore(n, [ValSet(value, len)], r, i, j, j + len);
  }

  /** The opcodes from p to q replaced by n. */
  lemma Replace(s: seq<Byte>, r: seq<Byte>, p: nat, q: nat, i: nat, j: nat, n: seq<Byte>, r': seq<Byte>, s': seq<Byte>)
    requires Cut(s, r, p, i) && Cut(s, r, q, j) && p <= q <= |s|
    requires Writes(n, r', i, j) && s' == s[..p] + n + s[q..]
    requires SameRegs(r, 0, i, r') && SameRegs(r, j, |r|, r') && |r'| == |r|
    ensures Cut(s', r', p, i) && Cut(s', r', p + |n|, j) && Spells(s', r')
  {
    SpliceBytes(s, p, q, n, s');
    WalkMoves(n, 0, |n|, r', i, j, s', p, r');
    Splice(s, r, p, q, i, j, s', |n| - (q - p), r');
  }

  lemma TwoVals(s: seq<Byte>, r: seq<Byte>, p: nat, i: nat)
    requires Cut(s, r, p, i) && p + 1 < |s| && IsVal(s[p]) && IsVal(s[p + 1]) && ValValue(s[p]) == ValValue(s[p + 1])
    ensures var j := i + ValLen(s[p]) + ValLen(s[p + 1]); Cut(s, r, p + 2, j) && AllAre(r, i, j, ValValue(s[p]))
  {
    OneKind(s[p]);
    OneKind(s[p + 1]);
    CutNext(s, r, p, i);
    CutNext(s, r, p + 1, i + ValLen(s[p]));
  }

  /** Two adjacent VAL opcodes of the same value can be one. */
  lemma MergeVals(s: seq<Byte>, r: seq<Byte>, p: nat, i: nat, len: nat, s': seq<Byte>)
    requires Cut(s, r, p, i) && p + 1 < |s| && IsVal(s[p]) && IsVal(s[p + 1]) && ValValue(s[p]) == ValValue(s[p + 1])
    requires len == ValLen(s[p]) + ValLen(s[p + 1]) <= VAL_MAX_LEN
    requires s' == s[..p] + [ValSet(ValValue(s[p]), len)] + s[p + 2..]
    ensures Cut(s', r, p, i) && Spells(s', r)
  {
    var v := ValValue(s[p]);
    ValRange(s[p]);
    TwoVals(s, r, p, i);
    CutEnd(s, r, p + 2, i + len);
    WriteVal([], r, i, i, v, len);
    assert [] + [ValSet(v, len)] == [ValSet(v, len)];
    Replace(s, r, p, p + 2, i, i + len, [ValSet(v, len)], r, s');
  }

  /** No opcode stands for more than 32. */
  lemma {:induction false} WalkSmall(s: seq<Byte>, p: nat, q: nat, r: seq<Byte>, i: nat, j: nat, k: nat)
    requires Walk(s, p, q, r, i, j) && i <= k < j && k < |r|
    ensures r[k] <= VAL_MAX_VALUE
    decreases q - p
  {
    ValRange(s[p]);
    if k >= i + Span(s, p) {
      WalkSmall(s, p + OpLen(s, p), q, r, i + Span(s, p), j, k);
    }
  }

  /** A cursor on an earlier opcode stays one. */
  lemma ReplaceKeeps(s: seq<Byte>, r: seq<Byte>, e: nat, h: nat, p: nat, i: nat, s': seq<Byte>, r': seq<Byte>)
    requires Cut(s, r, e, h) && Walk(s, e, p, r, h, i) && Cut(s', r', p, i)
    requires SameBytes(s, 0, p, s', 0) && SameRegs(r, 0, i, r')
    ensures Cut(s', r', e, h)
  {
    WalkGrows(s, e, p, r, h, i);
    WalkMoves(s, 0, e, r, 0, h, s', 0, r');
    WalkMoves(s, e, p, r, h, i, s', 0, r');
    WalkJoin(s', e, p, |s'|, r', h, i, |r'|);
  }
}
