/** The page map of a chunk (deps/jemalloc/include/jemalloc/internal/arena.h) and what it says about
    the runs: the entries of the first and the last page of a run are its boundary tags. */
module ArenaMap {
  import opened ArenaRuns

  const BININD_INVALID := 255

  /** The bits of one page: a run size in pages or a page offset in its run, and the flags. */
  datatype Bits = Bits(size: nat, binind: nat, dirty: bool, unzeroed: bool, large: bool, inUse: bool)

  // ---------------------------------------------------------------- the setters

  function UnallocatedSet(m: seq<Bits>, p: nat, size: nat, dirty: bool, unzeroed: bool): seq<Bits>
    requires p < |m|
  {
    m[p := Bits(size, BININD_INVALID, dirty, unzeroed, false, false)]
  }

  function UnallocatedSizeSet(m: seq<Bits>, p: nat, size: nat): seq<Bits>
    requires p < |m|
  {
    m[p := m[p].(size := size)]
  }

  function LargeSet(m: seq<Bits>, p: nat, size: nat, dirty: bool): seq<Bits>
    requires p < |m|
  {
    m[p := Bits(size, BININD_INVALID, dirty, m[p].unzeroed, true, true)]
  }

  function SmallSet(m: seq<Bits>, p: nat, runind: nat, binind: nat, dirty: bool): seq<Bits>
    requires p < |m|
  {
    m[p := Bits(runind, binind, dirty, m[p].unzeroed, false, true)]
  }

  // ---------------------------------------------------------------- the tags of a run

  ghost predicate FreeTag(b: Bits, r: Run) {
    !b.inUse && !b.large && b.size == r.pages && b.dirty == r.dirty
  }

  ghost predicate LargeTag(b: Bits, size: nat, r: Run) {
    b.inUse && b.large && b.size == size && b.dirty == r.dirty
  }

  /** Page k of the small run at p. */
  ghost predicate SmallPage(m: seq<Bits>, p: nat, r: Run, k: nat) {
    r.Small? && p <= k < |m| && m[k].inUse && !m[k].large && m[k].size == k - p && m[k].binind == r.binind
  }

  ghost predicate Marked(m: seq<Bits>, p: nat, r: Run) {
    && r.pages >= 1 && p + r.pages <= |m|
    && match r
       case Free(n, _) => FreeTag(m[p], r) && FreeTag(m[p + n - 1], r)
       case Large(n, _) => LargeTag(m[p], n, r) && (n > 1 ==> LargeTag(m[p + n - 1], 0, r))
       case Small(n, d, _) =>
         && (forall k :: p <= k < p + n ==> SmallPage(m, p, r, k))
         && m[p].dirty == d && m[p + n - 1].dirty == d
  }

  ghost predicate MarkedRun(m: seq<Bits>, runs: Runs, p: nat) {
    p in runs && Marked(m, p, runs[p])
  }

  /** Every run but the one at x has its tags. */
  ghost predicate MarkedBut(m: seq<Bits>, runs: Runs, x: nat) {
    forall p {:trigger MarkedRun(m, runs, p)} :: p in runs && p != x ==> MarkedRun(m, runs, p)
  }

  ghost predicate AllMarked(m: seq<Bits>, runs: Runs) {
    forall p {:trigger MarkedRun(m, runs, p)} :: p in runs ==> MarkedRun(m, runs, p)
  }

  /** Only entries from .. to may differ. */
  ghost predicate SameOutside(m: seq<Bits>, m': seq<Bits>, from: nat, to: nat) {
    |m'| == |m| && forall k :: 0 <= k < |m| && !(from <= k < to) ==> m'[k] == m[k]
  }

  lemma MarkedKept(m: seq<Bits>, m': seq<Bits>, from: nat, to: nat, p: nat, r: Run)
    requires Marked(m, p, r) && SameOutside(m, m', from, to) && (p + r.pages <= from || to <= p)
    ensures Marked(m', p, r)
  {
    if r.Small? {
      forall k | p <= k < p + r.pages ensures SmallPage(m', p, r, k) {
        assert SmallPage(m, p, r, k);
      }
    }
  }

  /** The tags of the other runs stay when only the pages of the run at x change. */
  lemma OthersMarked(m: seq<Bits>, m': seq<Bits>, runs: Runs, lo: nat, hi: nat, x: nat, r: Run)
    requires Tiles(runs, lo, hi) && x in runs && MarkedBut(m, runs, x)
    requires SameOutside(m, m', x, x + runs[x].pages)
    ensures MarkedBut(m', runs[x := r], x)
  {
    forall p {:trigger MarkedRun(m', runs[x := r], p)} | p in runs && p != x ensures MarkedRun(m', runs[x := r], p) {
      assert MarkedRun(m, runs, p);
      assert Apart(runs, p, x) && Apart(runs, x, p);
      MarkedKept(m, m', x, x + runs[x].pages, p, runs[p]);
    }
  }

  lemma MarkedAll(m: seq<Bits>, runs: Runs, x: nat)
    requires MarkedBut(m, runs, x) && (x in runs ==> Marked(m, x, runs[x]))
    ensures AllMarked(m, runs)
  {
    forall p {:trigger MarkedRun(m, runs, p)} | p in runs ensures MarkedRun(m, runs, p) {
    }
  }

  // ---------------------------------------------------------------- looking at the neighbours

  /** The entry behind a run tells whether a free run follows, and its size and flag. */
  lemma NextTag(m: seq<Bits>, runs: Runs, lo: nat, hi: nat, p: nat, s: nat)
    requires Tiles(runs, lo, hi) && p in runs && s == p + runs[p].pages < hi <= |m|
    requires s in runs ==> MarkedRun(m, runs, s)
    ensures s in runs
    ensures !m[s].inUse <==> FreeAt(runs, s)
    ensures FreeAt(runs, s) ==> m[s].size == runs[s].pages && m[s].dirty == runs[s].dirty
  {
    assert Within(runs, lo, hi, p);
    assert MarkedRun(m, runs, s);
    if runs[s].Small? {
      assert SmallPage(m, s, runs[s], s);
    }
  }

  /** The entry before a run likewise: there the last page of the previous run is. */
  lemma PreviousTag(m: seq<Bits>, runs: Runs, lo: nat, hi: nat, p: nat) returns (q: nat)
    requires Tiles(runs, lo, hi) && p in runs && lo < p && hi <= |m|
    requires forall t {:trigger Ends(runs, t, p)} :: Ends(runs, t, p) ==> MarkedRun(m, runs, t)
    ensures Ends(runs, q, p) && MarkedRun(m, runs, q) && q < p
    ensures !m[p - 1].inUse <==> FreeAt(runs, q)
    ensures FreeAt(runs, q) <==> FreeBefore(runs, p)
    ensures FreeAt(runs, q) ==> m[p - 1].size == runs[q].pages && m[p - 1].dirty == runs[q].dirty
  {
    assert Preceded(runs, lo, p);
    q :| Ends(runs, q, p);
    assert Within(runs, lo, hi, q);
    assert MarkedRun(m, runs, q);
    if runs[q].Small? {
      assert SmallPage(m, q, runs[q], p - 1);
    }
    if FreeBefore(runs, p) {
      var s :| Ends(runs, s, p) && FreeAt(runs, s);
      OnePrevious(runs, lo, hi, p, q, s);
    }
  }

  // ---------------------------------------------------------------- writing the tags of a run

  /** Both ends of a free run; only clean runs keep the unzeroed flags. */
  method TagFree(m: seq<Bits>, p: nat, n: nat, dirty: bool) returns (m': seq<Bits>)
    requires n >= 1 && p + n <= |m|
    ensures Marked(m', p, Free(n, dirty)) && SameOutside(m, m', p, p + n)
  {
    if dirty {
      m' := UnallocatedSet(m, p, n, true, false);
      m' := UnallocatedSet(m', p + n - 1, n, true, false);
    } else {
      m' := UnallocatedSet(m, p, n, false, m[p].unzeroed);
      m' := UnallocatedSet(m', p + n - 1, n, false, m'[p + n - 1].unzeroed);
    }
  }

  /** Both ends of a large run, the last page first in case the run has one page only. */
  method TagLarge(m: seq<Bits>, p: nat, n: nat, dirty: bool) returns (m': seq<Bits>)
    requires n >= 1 && p + n <= |m|
    ensures Marked(m', p, Large(n, dirty)) && SameOutside(m, m', p, p + n)
  {
    m' := LargeSet(m, p + n - 1, 0, dirty);
    m' := LargeSet(m', p, n, dirty);
  }

  /** The first i pages of a small run are set. */
  ghost predicate SmallTo(m: seq<Bits>, p: nat, r: Run, i: nat) {
    forall k :: p <= k < p + i ==> SmallPage(m, p, r, k)
  }

  lemma SmallNext(m: seq<Bits>, p: nat, r: Run, i: nat, dirty: bool)
    requires r.Small? && SmallTo(m, p, r, i) && p + i < |m|
    ensures SmallTo(SmallSet(m, p + i, i, r.binind, dirty), p, r, i + 1)
  {
    var m' := SmallSet(m, p + i, i, r.binind, dirty);
    forall k | p <= k < p + (i + 1) ensures SmallPage(m', p, r, k) {
      if k < p + i {
        assert SmallPage(m, p, r, k);
      }
    }
  }

  /** All the pages of a small run, in the order of the source: the first, those between, the last. */
  method TagSmall(m: seq<Bits>, p: nat, n: nat, dirty: bool, binind: nat) returns (m': seq<Bits>)
    requires n >= 1 && p + n <= |m|
    ensures Marked(m', p, Small(n, dirty, binind)) && SameOutside(m, m', p, p + n)
  {
    ghost var r := Small(n, dirty, binind);
    m' := SmallSet(m, p, 0, binind, dirty);
    var i := 1;
    while i < n - 1
      invariant 1 <= i && (n > 1 ==> i <= n - 1) && SameOutside(m, m', p, p + n)
      invariant SmallTo(m', p, r, if n > 1 then i else 1) && m'[p].dirty == dirty
    {
      SmallNext(m', p, r, i, false);
      m' := SmallSet(m', p + i, i, binind, false);
      i := i + 1;
    }
    if n > 1 {
      SmallNext(m', p, r, n - 1, dirty);
    }
    m' := SmallSet(m', p + n - 1, n - 1, binind, dirty);
    assert SmallTo(m', p, r, n) by {
      if n == 1 {
        assert SmallPage(m', p, r, p);
      }
    }
  }

  /** The map of a new chunk: one clean free run; the pages between its ends only learn whether the
      memory is zeroed. */
  method FreshPages(m: seq<Bits>, bias: nat, zero: bool) returns (m': seq<Bits>)
    requires bias < |m|
    ensures |m'| == |m| && Marked(m', bias, Free(|m| - bias, false))
    ensures forall k :: bias <= k < |m| ==> k in {bias, |m| - 1} || !zero ==> m'[k].unzeroed == !zero
    ensures forall k :: 0 <= k < bias ==> m'[k] == m[k]
  {
    m' := UnallocatedSet(m, bias, |m| - bias, false, !zero);
    if !zero {
      var i := bias + 1;
      while i < |m| - 1
        invariant |m'| == |m| && bias < i && m'[bias] == Bits(|m| - bias, BININD_INVALID, false, true, false, false)
        invariant forall k :: bias <= k < i && k < |m| ==> m'[k].unzeroed
        invariant forall k :: 0 <= k < bias ==> m'[k] == m[k]
      {
        m' := m'[i := m'[i].(unzeroed := true)];
        i := i + 1;
      }
    }
    m' := UnallocatedSet(m', |m| - 1, |m| - bias, false, !zero);
  }
}
