/** The neighbours of a run of deps/jemalloc/src/arena.c: what the boundary tags say about them, and
    what splitting and coalescing do to tags, counters and runs. */
module ArenaNeighbours {
  import opened ArenaRuns
  import opened ArenaMap
  import opened ArenaBooks

  // ---------------------------------------------------------------- looking at the neighbours

  /** arena_avail_adjac_pred */
  predicate AdjacPred(m: seq<Bits>, bias: nat, pageind: nat)
    requires pageind <= |m|
  {
    pageind > bias && !m[pageind - 1].inUse
  }

  /** arena_avail_adjac_succ */
  predicate AdjacSucc(m: seq<Bits>, pageind: nat, npages: nat) {
    pageind + npages < |m| && !m[pageind + npages].inUse
  }

  lemma NothingBefore(rs: Runs, lo: nat, hi: nat)
    requires Tiles(rs, lo, hi)
    ensures !FreeBefore(rs, lo)
  {
    forall q ensures !Ends(rs, q, lo) {
      assert q in rs ==> Within(rs, lo, hi, q);
    }
  }

  lemma NothingBehind(rs: Runs, lo: nat, hi: nat, p: nat)
    requires Tiles(rs, lo, hi) && p >= hi
    ensures p !in rs
  {
    assert p in rs ==> Within(rs, lo, hi, p);
  }

  /** The run before p has its tags. */
  ghost predicate PredMarked(m: seq<Bits>, rs: Runs, p: nat) {
    forall q {:trigger Ends(rs, q, p)} :: Ends(rs, q, p) ==> MarkedRun(m, rs, q)
  }

  /** So has the run behind the run at p. */
  ghost predicate SuccMarked(m: seq<Bits>, rs: Runs, p: nat)
    requires p in rs
  {
    p + rs[p].pages in rs ==> MarkedRun(m, rs, p + rs[p].pages)
  }

  lemma NeighboursMarked(m: seq<Bits>, rs: Runs, p: nat)
    requires MarkedBut(m, rs, p) && p in rs && rs[p].pages >= 1
    ensures PredMarked(m, rs, p) && SuccMarked(m, rs, p)
  {
    forall q {:trigger Ends(rs, q, p)} | Ends(rs, q, p) ensures MarkedRun(m, rs, q) {
    }
    assert p + rs[p].pages in rs ==> MarkedRun(m, rs, p + rs[p].pages);
  }

  /** The tags tell exactly whether the neighbours are free. */
  lemma PredIs(m: seq<Bits>, rs: Runs, lo: nat, p: nat)
    requires Tiles(rs, lo, |m|) && PredMarked(m, rs, p) && p in rs
    ensures p <= |m| && (AdjacPred(m, lo, p) <==> FreeBefore(rs, p))
  {
    assert Within(rs, lo, |m|, p);
    if p > lo {
      var q := PreviousTag(m, rs, lo, |m|, p);
    } else {
      NothingBefore(rs, lo, |m|);
    }
  }

  lemma SuccIs(m: seq<Bits>, rs: Runs, lo: nat, p: nat)
    requires Tiles(rs, lo, |m|) && p in rs && SuccMarked(m, rs, p)
    ensures AdjacSucc(m, p, rs[p].pages) <==> FreeAt(rs, p + rs[p].pages)
  {
    assert Within(rs, lo, |m|, p);
    if p + rs[p].pages < |m| {
      NextTag(m, rs, lo, |m|, p, p + rs[p].pages);
    } else {
      NothingBehind(rs, lo, |m|, p + rs[p].pages);
    }
  }

  /** The callers pass false only for neighbours that they know not to be free. */
  lemma AdjacIs(m: seq<Bits>, rs: Runs, lo: nat, p: nat, maybePred: bool, maybeSucc: bool)
    requires Tiles(rs, lo, |m|) && p in rs
    requires if maybePred then PredMarked(m, rs, p) else !FreeBefore(rs, p)
    requires if maybeSucc then SuccMarked(m, rs, p) else !FreeAt(rs, p + rs[p].pages)
    ensures p <= |m| && (maybePred && AdjacPred(m, lo, p) <==> FreeBefore(rs, p))
    ensures maybeSucc && AdjacSucc(m, p, rs[p].pages) <==> FreeAt(rs, p + rs[p].pages)
  {
    assert Within(rs, lo, |m|, p);
    if maybePred {
      PredIs(m, rs, lo, p);
    }
    if maybeSucc {
      SuccIs(m, rs, lo, p);
    }
  }

  /** The counters of the chunk in arena_avail_insert. */
  method CountInsert(m: seq<Bits>, t: Tally, bias: nat, pageind: nat, n: nat, maybePred: bool, maybeSucc: bool,
      ghost rs: Runs, ghost r: Run,
      ghost active: int) returns (t': Tally)
    requires Tiles(rs, bias, |m|) && pageind in rs && !rs[pageind].Free? && r.Free? && r.pages == n == rs[pageind].pages
    requires Counts(rs, t, active) && pageind < |m| && FreeTag(m[pageind], r)
    requires if maybePred then PredMarked(m, rs, pageind) else !FreeBefore(rs, pageind)
    requires if maybeSucc then SuccMarked(m, rs, pageind) else !FreeAt(rs, pageind + n)
    ensures Counts(rs[pageind := r], t', active - n)
    ensures t'.ndirty == t.ndirty + if m[pageind].dirty then n else 0
  {
    AdjacIs(m, rs, bias, pageind, maybePred, maybeSucc);
    CountsFree(rs, bias, |m|, pageind, r, t, active);
    t' := t;
    if maybePred && AdjacPred(m, bias, pageind) {
      t' := t'.(nrunsAdjac := t'.nrunsAdjac + 1);
    }
    if maybeSucc && AdjacSucc(m, pageind, n) {
      t' := t'.(nrunsAdjac := t'.nrunsAdjac + 1);
    }
    t' := t'.(nrunsAvail := t'.nrunsAvail + 1);
    if m[pageind].dirty {
      t' := t'.(ndirty := t'.ndirty + n);
    }
  }

  /** The counters of the chunk in arena_avail_remove. */
  method CountRemove(m: seq<Bits>, t: Tally, bias: nat, pageind: nat, n: nat, maybePred: bool, maybeSucc: bool,
      ghost rs: Runs, ghost r: Run,
      ghost active: int) returns (t': Tally)
    requires Tiles(rs, bias, |m|) && pageind in rs && rs[pageind].Free? && !r.Free? && r.pages == n == rs[pageind].pages
    requires Counts(rs, t, active) && pageind < |m| && FreeTag(m[pageind], rs[pageind])
    requires if maybePred then PredMarked(m, rs, pageind) else !FreeBefore(rs, pageind)
    requires if maybeSucc then SuccMarked(m, rs, pageind) else !FreeAt(rs, pageind + n)
    ensures Counts(rs[pageind := r], t', active + n)
    ensures t'.ndirty == t.ndirty - if m[pageind].dirty then n else 0
  {
    AdjacIs(m, rs, bias, pageind, maybePred, maybeSucc);
    CountsTake(rs, bias, |m|, pageind, r, t, active);
    t' := t;
    if maybePred && AdjacPred(m, bias, pageind) {
      t' := t'.(nrunsAdjac := t'.nrunsAdjac - 1);
    }
    if maybeSucc && AdjacSucc(m, pageind, n) {
      t' := t'.(nrunsAdjac := t'.nrunsAdjac - 1);
    }
    t' := t'.(nrunsAvail := t'.nrunsAvail - 1);
    if m[pageind].dirty {
      t' := t'.(ndirty := t'.ndirty - n);
    }
  }

  /** After the rest of a split run has its tags: what is marked, and what is around it. */
  lemma RestMarked(m: seq<Bits>, m': seq<Bits>, rs: Runs, lo: nat, hi: nat, p: nat, need: nat, total: nat, dirty: bool)
    requires Tiles(rs, lo, hi) && p in rs && rs[p] == Large(total, dirty) && 0 < need < total && MarkedBut(m, rs, p)
    requires SameOutside(m, m', p + need, p + total) && Marked(m', p + need, Free(total - need, dirty))
    ensures var cut := Cut(rs, p, need, Large(need, dirty), Large(total - need, dirty));
      && p + need in cut && SuccMarked(m', cut, p + need) && !FreeBefore(cut, p + need)
    ensures MarkedBut(m', Cut(rs, p, need, Large(need, dirty), Free(total - need, dirty)), p)
    ensures Cut(rs, p, need, Large(need, dirty), Large(total - need, dirty))[p + need := Free(total - need, dirty)]
      == Cut(rs, p, need, Large(need, dirty), Free(total - need, dirty))
  {
    NoneInside(rs, lo, hi, p, need);
    var cut := Cut(rs, p, need, Large(need, dirty), Large(total - need, dirty));
    var after := Cut(rs, p, need, Large(need, dirty), Free(total - need, dirty));
    forall s {:trigger MarkedRun(m', after, s)} | s in after && s != p ensures MarkedRun(m', after, s) {
      if s != p + need {
        assert MarkedRun(m, rs, s);
        assert Apart(rs, s, p) && Apart(rs, p, s);
        MarkedKept(m, m', p + need, p + total, s, rs[s]);
      }
    }
    if p + total in cut {
      assert MarkedRun(m', after, p + total);
    }
    forall q ensures !(Ends(cut, q, p + need) && FreeAt(cut, q)) {
      assert q in rs ==> Within(rs, lo, hi, q) && Apart(rs, p, q) && Apart(rs, q, p);
    }
  }

  /** The runs after `need` pages of the free run at p have been allocated as r. */
  function SplitRuns(rs: Runs, p: nat, need: nat, r: Run): Runs
    requires p in rs && need <= rs[p].pages
  {
    if need == rs[p].pages then rs[p := r] else Cut(rs, p, need, r, Free(rs[p].pages - need, rs[p].dirty))
  }

  function Allocated(pages: nat, dirty: bool, large: bool, binind: nat): Run {
    if large then Large(pages, dirty) else Small(pages, dirty, binind)
  }

  /** The run r begins at p. */
  ghost predicate Taken(rs: Runs, p: nat, r: Run) {
    p in rs && rs[p] == r
  }

  /** The steps of arena_run_split together. */
  lemma SplitIs(rs: Runs, p: nat, need: nat, total: nat, d: bool, r: Run)
    requires p in rs && rs[p] == Free(total, d) && 0 < need <= total
    ensures need < total ==>
      Cut(rs[p := Large(total, d)], p, need, Large(need, d), Free(total - need, d))[p := r] == SplitRuns(rs, p, need, r)
    ensures need == total ==> rs[p := Large(total, d)][p := r] == SplitRuns(rs, p, need, r)
  {
  }

  /** The rest of a split run keeps the flag, so it differs from what follows. */
  lemma SplitTwins(rs: Runs, lo: nat, hi: nat, p: nat, need: nat, r: Run)
    requires Tiles(rs, lo, hi) && NoTwins(rs) && FreeAt(rs, p) && 0 < need <= rs[p].pages && !r.Free? && r.pages == need
    ensures NoTwins(SplitRuns(rs, p, need, r))
  {
    var rs' := SplitRuns(rs, p, need, r);
    assert Differ(rs, p);
    forall s {:trigger Differ(rs', s)} | s in rs' ensures Differ(rs', s) {
      SplitDiffer(rs, lo, hi, p, need, r, s);
    }
  }

  lemma SplitDiffer(rs: Runs, lo: nat, hi: nat, p: nat, need: nat, r: Run, s: nat)
    requires Tiles(rs, lo, hi) && NoTwins(rs) && FreeAt(rs, p) && 0 < need <= rs[p].pages && !r.Free? && r.pages == need
    requires s in SplitRuns(rs, p, need, r)
    ensures Differ(SplitRuns(rs, p, need, r), s)
  {
    assert Differ(rs, p);
    if s in rs {
      assert Differ(rs, s);
      assert Within(rs, lo, hi, s);
      assert Apart(rs, s, p) && Apart(rs, p, s);
    }
  }

  /** Only the tags of the run at p are out of date when that run alone has changed. */
  lemma ButMarked(m: seq<Bits>, rs: Runs, p: nat, r: Run)
    requires AllMarked(m, rs) && p in rs
    ensures MarkedBut(m, rs[p := r], p)
  {
    forall s {:trigger MarkedRun(m, rs[p := r], s)} | s in rs[p := r] && s != p ensures MarkedRun(m, rs[p := r], s) {
      assert MarkedRun(m, rs, s);
    }
  }

  lemma PutMarked(m: seq<Bits>, rs: Runs, p: nat, r: Run)
    requires MarkedBut(m, rs, p) && Marked(m, p, r)
    ensures AllMarked(m, rs[p := r])
  {
    forall s {:trigger MarkedRun(m, rs[p := r], s)} | s in rs[p := r] ensures MarkedRun(m, rs[p := r], s) {
      assert s != p ==> MarkedRun(m, rs, s) || s !in rs;
    }
  }

  /** The first tag of an allocated run. */
  lemma TagOf(m: seq<Bits>, rs: Runs, lo: nat, p: nat)
    requires Tiles(rs, lo, |m|) && AllMarked(m, rs) && p in rs && !rs[p].Free?
    ensures p < |m| && m[p].dirty == rs[p].dirty && (m[p].large <==> rs[p].Large?)
    ensures rs[p].Large? ==> m[p].size == rs[p].pages
  {
    assert MarkedRun(m, rs, p);
    if rs[p].Small? {
      assert SmallPage(m, p, rs[p], p);
    }
  }

  lemma RetagMarked(m: seq<Bits>, m': seq<Bits>, rs: Runs, lo: nat, hi: nat, p: nat, r: Run)
    requires Tiles(rs, lo, hi) && p in rs && MarkedBut(m, rs, p) && r.pages == rs[p].pages
    requires SameOutside(m, m', p, p + r.pages) && Marked(m', p, r)
    ensures AllMarked(m', rs[p := r])
  {
    OthersMarked(m, m', rs, lo, hi, p, r);
    MarkedAll(m', rs[p := r], p);
  }

  // ---------------------------------------------------------------- coalescing

  /** The sizes at both ends after two free runs have become one. */
  function SizesSet(m: seq<Bits>, p: nat, n: nat): seq<Bits>
    requires n >= 1 && p + n <= |m|
  {
    UnallocatedSizeSet(UnallocatedSizeSet(m, p, n), p + n - 1, n)
  }

  /** What arena_avail_remove needs to know of the free run behind the run at p. */
  lemma ForwardReady(m: seq<Bits>, rs: Runs, lo: nat, p: nat, s: nat)
    requires Tiles(rs, lo, |m|) && MarkedBut(m, rs, p)
    requires p in rs && !rs[p].Free? && s == p + rs[p].pages && FreeAt(rs, s)
    ensures s < |m| && FreeTag(m[s], rs[s]) && !FreeBefore(rs, s) && SuccMarked(m, rs, s)
    ensures s + rs[s].pages <= |m| && Marked(m, s, rs[s])
  {
    assert Within(rs, lo, |m|, p) && Within(rs, lo, |m|, s);
    assert MarkedRun(m, rs, s);
    assert s + rs[s].pages in rs ==> MarkedRun(m, rs, s + rs[s].pages);
    assert Ends(rs, p, s);
    forall q ensures !(Ends(rs, q, s) && FreeAt(rs, q)) {
      if Ends(rs, q, s) {
        OnePrevious(rs, lo, |m|, s, p, q);
      }
    }
  }

  /** And of the free run before it. */
  lemma BackwardReady(m: seq<Bits>, rs: Runs, lo: nat, q: nat, p: nat)
    requires Tiles(rs, lo, |m|) && MarkedBut(m, rs, p) && p in rs && !rs[p].Free? && Ends(rs, q, p) && FreeAt(rs, q)
    ensures q < |m| && FreeTag(m[q], rs[q]) && !FreeAt(rs, q + rs[q].pages) && PredMarked(m, rs, q)
  {
    assert Within(rs, lo, |m|, q) && Within(rs, lo, |m|, p);
    assert MarkedRun(m, rs, q);
    forall t {:trigger Ends(rs, t, q)} | Ends(rs, t, q) ensures MarkedRun(m, rs, t) {
      assert Within(rs, lo, |m|, t);
    }
  }

  lemma JoinTwins(rs: Runs, p: nat, q: nat, r: Run)
    requires NoTwins(rs) && p in rs && q in rs && p != q && !rs[p].Free? && !rs[q].Free? && !r.Free?
    ensures NoTwins(Join(rs, p, q, r))
  {
    forall s {:trigger Differ(Join(rs, p, q, r), s)} | s in Join(rs, p, q, r) ensures Differ(Join(rs, p, q, r), s) {
      assert s in rs ==> Differ(rs, s);
    }
  }

  lemma SizesMarked(m: seq<Bits>, p: nat, n: nat, q: nat, k: nat, f: bool)
    requires q == p + n && Marked(m, p, Free(n, f)) && Marked(m, q, Free(k, f))
    ensures p + n + k <= |m| && SameOutside(m, SizesSet(m, p, n + k), p, q + k)
    ensures Marked(SizesSet(m, p, n + k), p, Free(n + k, f))
  {
  }

  /** Two pending free runs p and q of n and k pages made one. */
  lemma Joined(m: seq<Bits>, rs: Runs, lo: nat, p: nat, n: nat, q: nat, k: nat, f: bool)
    requires Tiles(rs, lo, |m|) && NoTwins(rs) && Ends(rs, p, q) && q in rs
    requires rs[p] == Large(n, f) && rs[q] == Large(k, f) && Marked(m, p, Free(n, f)) && Marked(m, q, Free(k, f))
    requires forall s {:trigger MarkedRun(m, rs, s)} :: s in rs && s != p && s != q ==> MarkedRun(m, rs, s)
    ensures p + n + k <= |m|
    ensures var rs', m' := Join(rs, p, q, Large(n + k, f)), SizesSet(m, p, n + k);
      Quiet(rs, rs', lo, |m|) && NoTwins(rs') && MarkedBut(m', rs', p) && Marked(m', p, Free(n + k, f))
  {
    var rs', m' := Join(rs, p, q, Large(n + k, f)), SizesSet(m, p, n + k);
    JoinQuiet(rs, lo, |m|, p, q, Large(n + k, f));
    JoinTwins(rs, p, q, Large(n + k, f));
    SizesMarked(m, p, n, q, k, f);
    JoinedMarks(m, m', rs, lo, p, q, Large(n + k, f));
  }

  lemma JoinedMarks(m: seq<Bits>, m': seq<Bits>, rs: Runs, lo: nat, p: nat, q: nat, r: Run)
    requires Tiles(rs, lo, |m|) && Ends(rs, p, q) && q in rs && SameOutside(m, m', p, q + rs[q].pages)
    requires forall s {:trigger MarkedRun(m, rs, s)} :: s in rs && s != p && s != q ==> MarkedRun(m, rs, s)
    ensures MarkedBut(m', Join(rs, p, q, r), p)
  {
    forall s {:trigger MarkedRun(m', Join(rs, p, q, r), s)} | s in Join(rs, p, q, r) && s != p
      ensures MarkedRun(m', Join(rs, p, q, r), s)
    {
      assert MarkedRun(m, rs, s);
      JoinedOther(m, rs, lo, p, q, m', s);
    }
  }

  lemma JoinedOther(m: seq<Bits>, rs: Runs, lo: nat, p: nat, q: nat, m': seq<Bits>, s: nat)
    requires Tiles(rs, lo, |m|) && Ends(rs, p, q) && q in rs && s in rs && s != p && s != q && MarkedRun(m, rs, s)
    requires SameOutside(m, m', p, q + rs[q].pages)
    ensures Marked(m', s, rs[s])
  {
    assert Apart(rs, s, p) && Apart(rs, p, s) && Apart(rs, s, q) && Apart(rs, q, s);
    MarkedKept(m, m', p, q + rs[q].pages, s, rs[s]);
  }

  lemma TakeMarks(m: seq<Bits>, rs: Runs, x: nat, y: nat, r: Run)
    requires MarkedBut(m, rs, y) && x in rs
    ensures forall s {:trigger MarkedRun(m, rs[x := r], s)} ::
      s in rs[x := r] && s != x && s != y ==> MarkedRun(m, rs[x := r], s)
  {
    forall s {:trigger MarkedRun(m, rs[x := r], s)} | s in rs[x := r] && s != x && s != y
      ensures MarkedRun(m, rs[x := r], s)
    {
      assert MarkedRun(m, rs, s);
    }
  }

  /** The free run at x, first or second of the pair p and q, is taken and joined to the other, which
      is pending. */
  lemma Absorbed(m: seq<Bits>, rs: Runs, lo: nat, p: nat, n: nat, q: nat, k: nat, f: bool, x: nat, y: nat)
    requires Tiles(rs, lo, |m|) && NoTwins(rs) && Ends(rs, p, q) && q in rs && x in {p, q} && y in {p, q} && x != y
    requires rs[x] == Free(if x == p then n else k, f) && rs[y] == Large(if y == p then n else k, f)
    requires MarkedBut(m, rs, y) && Marked(m, y, Free(rs[y].pages, f))
    ensures p + n + k <= |m|
    ensures var rs1 := rs[x := Large(rs[x].pages, f)];
      var rs', m' := Join(rs, p, q, Large(n + k, f)), SizesSet(m, p, n + k);
      && rs' == Join(rs1, p, q, Large(n + k, f)) && Quiet(rs1, rs', lo, |m|)
      && NoTwins(rs') && MarkedBut(m', rs', p) && Marked(m', p, Free(n + k, f))
  {
    var r := Large(rs[x].pages, f);
    assert MarkedRun(m, rs, x);
    assert Within(rs, lo, |m|, p);
    TilesRetag(rs, lo, |m|, x, r);
    TwinsTake(rs, x, r);
    TakeMarks(m, rs, x, y, r);
    Joined(m, rs[x := r], lo, p, n, q, k, f);
    assert Join(rs[x := r], p, q, Large(n + k, f)) == Join(rs, p, q, Large(n + k, f));
  }

  /** The pending run at p after the forward step: with the free run behind it if the flags agree. */
  ghost predicate ForwardOf(rs: Runs, p: nat, n: nat, f: bool, rs': Runs, n': nat) {
    if FreeAt(rs, p + n) && rs[p + n].dirty == f
    then n' == n + rs[p + n].pages && rs' == Join(rs, p, p + n, Large(n', f))
    else n' == n && rs' == rs
  }

  /** And after the backward step, as the run at p'. */
  ghost predicate BackwardOf(rs: Runs, p: nat, n: nat, f: bool, rs': Runs, p': nat, n': nat) {
    || (p' == p && n' == n && rs' == rs && (forall q :: Ends(rs, q, p) && FreeAt(rs, q) ==> rs[q].dirty != f))
    || (Ends(rs, p', p) && FreeAt(rs, p') && rs[p'].dirty == f && n' == rs[p'].pages + n
        && rs' == Join(rs, p', p, Large(n', f)))
  }

  /** rs' is rs where the allocated run at p, of n pages, has been freed with flag f and coalesced with
      the free neighbours that have the same flag, into the n' pages at p'. */
  ghost predicate Freed(rs: Runs, p: nat, n: nat, f: bool, rs': Runs, p': nat, n': nat) {
    && p' in rs' && rs'[p'] == Free(n', f) && p' <= p && p + n <= p' + n'
    && (p' == p || (FreeAt(rs, p') && rs[p'].dirty == f && Ends(rs, p', p)))
    && (p' + n' == p + n || (FreeAt(rs, p + n) && rs[p + n].dirty == f && Ends(rs, p + n, p' + n')))
    && (forall s <- rs' :: s != p' ==> s in rs && rs'[s] == rs[s])
    && (forall s <- rs :: s < p' || p' + n' <= s ==> s in rs')
  }

  /** The run at p of rs has been freed with flag f. */
  ghost predicate Returned(rs: Runs, p: nat, f: bool, rs': Runs)
    requires p in rs
  {
    var n := rs[p].pages;
    exists p': nat, n': nat {:trigger Freed(rs[p := Large(n, f)], p, n, f, rs', p', n')} ::
      Freed(rs[p := Large(n, f)], p, n, f, rs', p', n')
  }

  lemma FreedIs(rs: Runs, lo: nat, hi: nat, p: nat, n: nat, f: bool, rs1: Runs, n1: nat, rs2: Runs, p2: nat, n2: nat)
    requires Tiles(rs, lo, hi) && p in rs && rs[p] == Large(n, f) && n >= 1
    requires p + n in rs ==> rs[p + n].pages >= 1
    requires ForwardOf(rs, p, n, f, rs1, n1) && BackwardOf(rs1, p, n1, f, rs2, p2, n2)
    ensures Freed(rs, p, n, f, rs2[p2 := Free(n2, f)], p2, n2)
  {
  }

  /** The steps of arena_run_dalloc together, and the neighbours of the result. */
  lemma CoalesceIs(rs: Runs, lo: nat, hi: nat, p: nat, n: nat, f: bool, rs1: Runs, n1: nat, rs2: Runs, p2: nat, n2: nat)
    requires Tiles(rs, lo, hi) && NoTwins(rs) && p in rs && rs[p] == Large(n, f)
    requires ForwardOf(rs, p, n, f, rs1, n1) && Tiles(rs1, lo, hi) && NoTwins(rs1)
    requires BackwardOf(rs1, p, n1, f, rs2, p2, n2) && Tiles(rs2, lo, hi)
    ensures p2 in rs2 && Freed(rs, p, n, f, rs2[p2 := Free(n2, f)], p2, n2) && Mixes(rs2, p2, Free(n2, f))
  {
    assert Within(rs, lo, hi, p);
    assert p + n in rs ==> Within(rs, lo, hi, p + n);
    FreedIs(rs, lo, hi, p, n, f, rs1, n1, rs2, p2, n2);
    ForwardMixes(rs, lo, hi, p, n, f, rs1, n1);
    assert Within(rs1, lo, hi, p);
    BackwardMixes(rs1, lo, hi, p, n1, f, rs2, p2, n2);
  }

  lemma ForwardMixes(rs: Runs, lo: nat, hi: nat, p: nat, n: nat, f: bool, rs1: Runs, n1: nat)
    requires Tiles(rs, lo, hi) && NoTwins(rs) && p in rs && rs[p] == Large(n, f) && n >= 1
    requires ForwardOf(rs, p, n, f, rs1, n1)
    ensures p in rs1 && rs1[p] == Large(n1, f) && (FreeAt(rs1, p + n1) ==> rs1[p + n1].dirty != f)
    ensures forall q :: q < p ==> (q in rs1 <==> q in rs) && (q in rs ==> rs1[q] == rs[q])
  {
    assert p + n in rs ==> Within(rs, lo, hi, p + n);
    assert Differ(rs, p + n);
  }

  lemma BackwardMixes(rs1: Runs, lo: nat, hi: nat, p: nat, n1: nat, f: bool, rs2: Runs, p2: nat, n2: nat)
    requires Tiles(rs1, lo, hi) && NoTwins(rs1) && p in rs1 && rs1[p] == Large(n1, f) && n1 >= 1
    requires FreeAt(rs1, p + n1) ==> rs1[p + n1].dirty != f
    requires BackwardOf(rs1, p, n1, f, rs2, p2, n2)
    ensures p2 in rs2 && Mixes(rs2, p2, Free(n2, f)) && p2 <= p && p2 + n2 == p + n1
  {
    if p2 != p {
      assert Within(rs1, lo, hi, p2);
      forall q | Ends(rs2, q, p2) && FreeAt(rs2, q) ensures rs2[q].dirty != f {
        assert Ends(rs1, q, p2);
        assert Differ(rs1, q);
      }
    }
  }

  /** The allocated runs other than the one at p are as they were. */
  ghost predicate Keeps(rs: Runs, rs': Runs, p: nat) {
    forall s <- rs :: s != p && !rs[s].Free? ==> s in rs' && rs'[s] == rs[s]
  }

  lemma KeepsTrans(rs: Runs, rs1: Runs, rs2: Runs, p: nat)
    requires Keeps(rs, rs1, p) && Keeps(rs1, rs2, p)
    ensures Keeps(rs, rs2, p)
  {
  }

  /** Freeing one part of a run that has been cut concerns no other run. */
  lemma KeepsCut(rs: Runs, p: nat, k: nat, r: Run, r2: Run, rs': Runs, x: nat)
    requires p in rs && k > 0 && p + k !in rs && (x == p || x == p + k) && Keeps(Cut(rs, p, k, r, r2), rs', x)
    ensures Keeps(rs, rs', p)
    ensures var y, cut := if x == p then p + k else p, Cut(rs, p, k, r, r2);
      !cut[y].Free? ==> y in rs' && rs'[y] == cut[y]
  {
    assert forall s <- rs :: s in Cut(rs, p, k, r, r2);
    var y := if x == p then p + k else p;
    assert y in Cut(rs, p, k, r, r2);
  }

  /** Freeing one run leaves the other allocated runs as they are. */
  lemma FreedOthers(rs: Runs, lo: nat, hi: nat, p: nat, rs': Runs, p': nat, n': nat, f: bool)
    requires Tiles(rs, lo, hi) && p in rs && !rs[p].Free?
    requires Freed(rs[p := Large(rs[p].pages, f)], p, rs[p].pages, f, rs', p', n')
    ensures Keeps(rs, rs', p)
  {
    forall s | s in rs && s != p && !rs[s].Free? ensures s in rs' && rs'[s] == rs[s] {
      assert Within(rs, lo, hi, s) && Within(rs, lo, hi, p);
      assert Apart(rs, s, p) && Apart(rs, p, s);
      assert p' in rs ==> Within(rs, lo, hi, p') && Apart(rs, s, p') && Apart(rs, p', s);
      var e := p + rs[p].pages;
      assert e in rs ==> Within(rs, lo, hi, e) && Apart(rs, s, e) && Apart(rs, e, s);
    }
  }

  lemma SuccTag(m: seq<Bits>, rs: Runs, lo: nat, p: nat, s: nat)
    requires Tiles(rs, lo, |m|) && MarkedBut(m, rs, p) && p in rs && s == p + rs[p].pages < |m|
    ensures !m[s].inUse <==> FreeAt(rs, s)
    ensures FreeAt(rs, s) ==> rs[s] == Free(m[s].size, m[s].dirty)
  {
    assert Within(rs, lo, |m|, p);
    NeighboursMarked(m, rs, p);
    NextTag(m, rs, lo, |m|, p, s);
  }

  lemma PredTag(m: seq<Bits>, rs: Runs, lo: nat, p: nat) returns (q: nat)
    requires Tiles(rs, lo, |m|) && MarkedBut(m, rs, p) && p in rs && p > lo
    ensures p <= |m| && Ends(rs, q, p) && (!m[p - 1].inUse <==> FreeAt(rs, q))
    ensures FreeAt(rs, q) ==> rs[q] == Free(m[p - 1].size, m[p - 1].dirty)
    ensures forall t :: Ends(rs, t, p) ==> t == q
  {
    assert Within(rs, lo, |m|, p);
    NeighboursMarked(m, rs, p);
    q := PreviousTag(m, rs, lo, |m|, p);
    forall t | Ends(rs, t, p) ensures t == q {
      OnePrevious(rs, lo, |m|, p, q, t);
    }
  }

  // ---------------------------------------------------------------- large runs cut and joined

  /** Both parts of a large run that is cut after k pages. */
  function CutTags(m: seq<Bits>, p: nat, n: nat, k: nat, d: bool): seq<Bits>
    requires 0 < k < n && p + n <= |m|
  {
    LargeSet(LargeSet(LargeSet(m, p + k - 1, 0, d), p, k, d), p + k, n - k, d)
  }

  lemma CutTagsMarked(m: seq<Bits>, p: nat, n: nat, k: nat, d: bool)
    requires 0 < k < n && Marked(m, p, Large(n, d))
    ensures SameOutside(m, CutTags(m, p, n, k, d), p, p + n)
    ensures Marked(CutTags(m, p, n, k, d), p, Large(k, d)) && Marked(CutTags(m, p, n, k, d), p + k, Large(n - k, d))
  {
  }

  lemma CutMarked(m: seq<Bits>, m': seq<Bits>, rs: Runs, lo: nat, p: nat, k: nat, r: Run, r2: Run)
    requires Tiles(rs, lo, |m|) && AllMarked(m, rs) && p in rs && 0 < k < rs[p].pages
    requires SameOutside(m, m', p, p + rs[p].pages) && Marked(m', p, r) && Marked(m', p + k, r2)
    ensures AllMarked(m', Cut(rs, p, k, r, r2))
  {
    forall s {:trigger MarkedRun(m', Cut(rs, p, k, r, r2), s)} | s in Cut(rs, p, k, r, r2)
      ensures MarkedRun(m', Cut(rs, p, k, r, r2), s)
    {
      if s != p && s != p + k {
        assert MarkedRun(m, rs, s);
        assert Apart(rs, s, p) && Apart(rs, p, s);
        MarkedKept(m, m', p, p + rs[p].pages, s, rs[s]);
      }
    }
  }

  /** A large run and the large run behind it made one, with the flag d. */
  function JoinTags(m: seq<Bits>, p: nat, n: nat, d: bool): seq<Bits>
    requires n >= 2 && p + n <= |m|
  {
    LargeSet(LargeSet(m, p, n, d), p + n - 1, 0, d)
  }

  lemma JoinMarked(m: seq<Bits>, rs: Runs, lo: nat, p: nat, q: nat, d: bool)
    requires Tiles(rs, lo, |m|) && AllMarked(m, rs) && Ends(rs, p, q) && q in rs
    requires rs[p].pages >= 1 && rs[q].pages >= 1 && q + rs[q].pages <= |m|
    ensures var n := rs[p].pages + rs[q].pages;
      AllMarked(JoinTags(m, p, n, d), Join(rs, p, q, Large(n, d)))
  {
    var n := rs[p].pages + rs[q].pages;
    var m', r := JoinTags(m, p, n, d), Large(n, d);
    forall s {:trigger MarkedRun(m, rs, s)} | s in rs ensures MarkedRun(m, rs, s) {
    }
    JoinedMarks(m, m', rs, lo, p, q, r);
    MarkedAll(m', Join(rs, p, q, r), p);
  }

  lemma AllBut(m: seq<Bits>, rs: Runs, p: nat)
    requires AllMarked(m, rs)
    ensures MarkedBut(m, rs, p)
  {
    forall s {:trigger MarkedRun(m, rs, s)} | s in rs && s != p ensures MarkedRun(m, rs, s) {
    }
  }

  /** Growing the run at p into the free run at s concerns no other allocated run. */
  lemma KeepsGrow(rs: Runs, lo: nat, hi: nat, p: nat, s: nat, k: nat, rs1: Runs, rs2: Runs)
    requires Tiles(rs, lo, hi) && p in rs && !rs[p].Free? && FreeAt(rs, s) && 0 < k <= rs[s].pages
    requires exists r: Run :: r.pages == k && rs1 == SplitRuns(rs, s, k, r)
    requires exists r: Run :: rs2 == Join(rs1, p, s, r)
    ensures Keeps(rs, rs2, p)
  {
    if k < rs[s].pages {
      NoneInside(rs, lo, hi, s, k);
    }
  }

  /** What a change among allocated runs has to keep. */
  ghost predicate Rearranged(m: seq<Bits>, rs: Runs, m': seq<Bits>, rs': Runs, lo: nat) {
    && |m'| == |m| && Tiles(rs', lo, |m|) && AllMarked(m', rs') && NoTwins(rs') && SameFree(rs, rs')
    && SameCounts(rs, rs')
  }

  lemma LargeCut(m: seq<Bits>, rs: Runs, lo: nat, p: nat, n: nat, k: nat, d: bool)
    requires Tiles(rs, lo, |m|) && AllMarked(m, rs) && NoTwins(rs) && p in rs && rs[p] == Large(n, d) && 0 < k < n
    ensures p + n <= |m| && p + k !in rs && m[p].dirty == d
    ensures Rearranged(m, rs, CutTags(m, p, n, k, d), Cut(rs, p, k, Large(k, d), Large(n - k, d)), lo)
  {
    assert Within(rs, lo, |m|, p);
    assert MarkedRun(m, rs, p);
    CutQuiet(rs, lo, |m|, p, k, Large(k, d), Large(n - k, d));
    TwinsSame(rs, Cut(rs, p, k, Large(k, d), Large(n - k, d)));
    CutTagsMarked(m, p, n, k, d);
    CutMarked(m, CutTags(m, p, n, k, d), rs, lo, p, k, Large(k, d), Large(n - k, d));
  }

  lemma LargeJoin(m: seq<Bits>, rs: Runs, lo: nat, p: nat, n: nat, q: nat, k: nat, d: bool)
    requires Tiles(rs, lo, |m|) && AllMarked(m, rs) && NoTwins(rs) && p in rs && q in rs && q == p + n
    requires rs[p].Large? && rs[q].Large? && rs[p].pages == n && rs[q].pages == k
    ensures n >= 1 && k >= 1 && p + n + k <= |m|
    ensures m[p].dirty == rs[p].dirty && m[p + n + k - 1].dirty == rs[q].dirty
    ensures Rearranged(m, rs, JoinTags(m, p, n + k, d), Join(rs, p, q, Large(n + k, d)), lo)
  {
    assert Within(rs, lo, |m|, p) && Within(rs, lo, |m|, q);
    assert MarkedRun(m, rs, p) && MarkedRun(m, rs, q);
    JoinQuiet(rs, lo, |m|, p, q, Large(n + k, d));
    TwinsSame(rs, Join(rs, p, q, Large(n + k, d)));
    JoinMarked(m, rs, lo, p, q, d);
  }

  ghost predicate LargeAt(rs: Runs, p: nat, pages: nat) {
    p in rs && rs[p].Large? && rs[p].pages == pages
  }

  /** The run at p is new, and every run that was allocated before is as it was. */
  ghost predicate Undisturbed(rs: Runs, rs': Runs, p: nat) {
    && (p in rs ==> rs[p].Free?)
    && forall s <- rs :: !rs[s].Free? ==> s in rs' && rs'[s] == rs[s]
  }

  /** The trims of an aligned allocation disturb no run either. */
  lemma UndisturbedTrim(rs: Runs, rs1: Runs, rs2: Runs, run: nat, p: nat)
    requires Undisturbed(rs, rs1, run) && Keeps(rs1, rs2, run) && (p == run || p !in rs1)
    ensures Undisturbed(rs, rs2, p)
  {
    assert p in rs && !rs[p].Free? ==> p in rs1;
  }

  /** PAGE_CEILING, in pages of 4096 bytes. */
  function Pages(bytes: nat): nat {
    (bytes + 4095) / 4096
  }

  /** A small run whose ends are tagged as those of a large run. */
  lemma Retagged(m: seq<Bits>, rs: Runs, lo: nat, p: nat, n: nat)
    requires Tiles(rs, lo, |m|) && AllMarked(m, rs) && NoTwins(rs) && p in rs && rs[p].Small? && rs[p].pages == n >= 2
    ensures p + n <= |m|
    ensures Rearranged(m, rs, JoinTags(m, p, n, false), rs[p := Large(n, false)], lo)
  {
    assert Within(rs, lo, |m|, p);
    RetagQuiet(rs, lo, |m|, p, Large(n, false));
    TwinsSame(rs, rs[p := Large(n, false)]);
    AllBut(m, rs, p);
    RetagMarked(m, JoinTags(m, p, n, false), rs, lo, |m|, p, Large(n, false));
  }

  /** The run at p and the first k pages of the free run behind it as one run, dirty if either was. */
  function Grown(rs: Runs, p: nat, k: nat): Runs
    requires p in rs && FreeAt(rs, p + rs[p].pages) && k <= rs[p + rs[p].pages].pages
  {
    var s := p + rs[p].pages;
    var r := Large(rs[p].pages + k, rs[p].dirty || rs[s].dirty);
    Join(SplitRuns(rs, s, k, Large(k, rs[s].dirty)), p, s, r)
  }

  /** As many pages of the free run behind p as `wanted` pages in all ask for. */
  function GrowBy(rs: Runs, p: nat, wanted: nat): nat
    requires p in rs && FreeAt(rs, p + rs[p].pages) && rs[p].pages <= wanted
  {
    var follow := rs[p + rs[p].pages].pages;
    if rs[p].pages + follow <= wanted then follow else wanted - rs[p].pages
  }

  /** The test of arena_ralloc_large_grow.  It compares with size - oldsize modulo the word size, so
      it also fails when size is below oldsize. */
  ghost predicate CanGrow(rs: Runs, p: nat, oldsize: nat, size: nat) {
    size >= oldsize && FreeAt(rs, p + oldsize) && rs[p + oldsize].pages >= size - oldsize
  }

  /** There is no room behind the run at p for the size, or size is below the old size. */
  ghost predicate ResizeFails(rs: Runs, p: nat, size: nat, extra: nat)
    requires p in rs
  {
    Pages(size + extra) > rs[p].pages && !CanGrow(rs, p, rs[p].pages, Pages(size))
  }

  /** The pages of the run at p after arena_ralloc_large: those that are wanted, or those it has with as
      many of the free run behind it as are wanted. */
  ghost function ResizedTo(rs: Runs, p: nat, size: nat, extra: nat): nat
    requires p in rs
  {
    var n, wanted := rs[p].pages, Pages(size + extra);
    if wanted <= n then wanted
    else if CanGrow(rs, p, n, Pages(size)) then n + GrowBy(rs, p, wanted)
    else n
  }

  /** No allocated run begins within the run at q. */
  lemma NoneCovered(rs: Runs, lo: nat, hi: nat, q: nat, p: nat)
    requires Tiles(rs, lo, hi) && q in rs && rs[q].Free? && q <= p < q + rs[q].pages
    ensures p in rs ==> rs[p].Free?
  {
    if p in rs {
      assert Apart(rs, q, p);
    }
  }
}
