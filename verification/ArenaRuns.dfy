/** The runs of a chunk of deps/jemalloc/src/arena.c as an abstract tiling of its pages, and how the
    counters of the chunk follow from it. */
module ArenaRuns {
  import opened Sums

  /** A run of pages: free, or allocated to a large object or to regions of a small size class. */
  datatype Run =
    | Free(pages: nat, dirty: bool)
    | Large(pages: nat, dirty: bool)
    | Small(pages: nat, dirty: bool, binind: nat)

  /** The runs of one chunk by their first page. */
  type Runs = map<nat, Run>

  // ---------------------------------------------------------------- tilings

  ghost predicate Within(runs: Runs, lo: nat, hi: nat, p: nat) {
    && p in runs && lo <= p && runs[p].pages >= 1 && p + runs[p].pages <= hi
    && (p + runs[p].pages == hi || p + runs[p].pages in runs)
  }

  /** The run at q ends where p begins. */
  ghost predicate Ends(runs: Runs, q: nat, p: nat) {
    q in runs && q + runs[q].pages == p
  }

  ghost predicate Preceded(runs: Runs, lo: nat, p: nat) {
    p == lo || exists q :: Ends(runs, q, p)
  }

  ghost predicate Apart(runs: Runs, p: nat, q: nat)
    requires p in runs && q in runs
  {
    p < q ==> p + runs[p].pages <= q
  }

  /** The runs cover the pages from lo to hi, each page once. */
  ghost predicate Tiles(runs: Runs, lo: nat, hi: nat) {
    && lo in runs
    && (forall p {:trigger Within(runs, lo, hi, p)} :: p in runs ==> Within(runs, lo, hi, p))
    && (forall p {:trigger Preceded(runs, lo, p)} :: p in runs ==> Preceded(runs, lo, p))
    && (forall p, q {:trigger Apart(runs, p, q)} :: p in runs && q in runs ==> Apart(runs, p, q))
  }

  /** Live runs never overlap. */
  lemma NoOverlap(runs: Runs, lo: nat, hi: nat, p: nat, q: nat, page: nat)
    requires Tiles(runs, lo, hi) && p in runs && q in runs
    requires p <= page < p + runs[p].pages && q <= page < q + runs[q].pages
    ensures p == q
  {
    assert Apart(runs, p, q) && Apart(runs, q, p);
  }

  /** Every page belongs to a run. */
  lemma {:induction false} Covers(runs: Runs, lo: nat, hi: nat, page: nat) returns (p: nat)
    requires Tiles(runs, lo, hi) && lo <= page < hi
    ensures p in runs && p <= page < p + runs[p].pages
    decreases page - lo
  {
    p := lo;
    while p + runs[p].pages <= page
      invariant p in runs && p <= page
      decreases page - p
    {
      assert Within(runs, lo, hi, p);
      p := p + runs[p].pages;
    }
  }

  lemma OnePrevious(runs: Runs, lo: nat, hi: nat, p: nat, q: nat, q': nat)
    requires Tiles(runs, lo, hi) && Ends(runs, q, p) && Ends(runs, q', p)
    ensures q == q'
  {
    assert Within(runs, lo, hi, q) && Within(runs, lo, hi, q');
    assert Apart(runs, q, q') && Apart(runs, q', q);
  }

  // ---------------------------------------------------------------- changes of a tiling, run by run

  lemma RetagPreceded(runs: Runs, lo: nat, p: nat, r: Run, s: nat)
    requires p in runs && r.pages == runs[p].pages && Preceded(runs, lo, s)
    ensures Preceded(runs[p := r], lo, s)
  {
    if s != lo {
      var q :| Ends(runs, q, s);
      assert Ends(runs[p := r], q, s);
    }
  }

  lemma RetagWithin(runs: Runs, lo: nat, hi: nat, p: nat, r: Run, s: nat)
    requires p in runs && r.pages == runs[p].pages && Within(runs, lo, hi, s)
    ensures Within(runs[p := r], lo, hi, s)
  {
  }

  /** Another kind of run on the same pages. */
  lemma TilesRetag(runs: Runs, lo: nat, hi: nat, p: nat, r: Run)
    requires Tiles(runs, lo, hi) && p in runs && r.pages == runs[p].pages
    ensures Tiles(runs[p := r], lo, hi)
  {
    forall s {:trigger Within(runs[p := r], lo, hi, s)} | s in runs[p := r] ensures Within(runs[p := r], lo, hi, s) {
      RetagWithin(runs, lo, hi, p, r, s);
    }
    forall s {:trigger Preceded(runs[p := r], lo, s)} | s in runs[p := r] ensures Preceded(runs[p := r], lo, s) {
      RetagPreceded(runs, lo, p, r, s);
    }
    forall s, t {:trigger Apart(runs[p := r], s, t)} | s in runs[p := r] && t in runs[p := r]
      ensures Apart(runs[p := r], s, t)
    {
      assert Apart(runs, s, t);
    }
  }

  function Cut(runs: Runs, p: nat, k: nat, r: Run, r2: Run): Runs {
    runs[p := r][p + k := r2]
  }

  ghost predicate Cuttable(runs: Runs, lo: nat, hi: nat, p: nat, k: nat, r: Run, r2: Run) {
    && Within(runs, lo, hi, p) && 0 < k < runs[p].pages && p + k !in runs
    && r.pages == k && r2.pages == runs[p].pages - k
  }

  lemma CutWithin(runs: Runs, lo: nat, hi: nat, p: nat, k: nat, r: Run, r2: Run, s: nat)
    requires Cuttable(runs, lo, hi, p, k, r, r2) && s in Cut(runs, p, k, r, r2)
    requires s in runs ==> Within(runs, lo, hi, s)
    ensures Within(Cut(runs, p, k, r, r2), lo, hi, s)
  {
  }

  lemma CutPreceded(runs: Runs, lo: nat, hi: nat, p: nat, k: nat, r: Run, r2: Run, s: nat)
    requires Cuttable(runs, lo, hi, p, k, r, r2) && s in Cut(runs, p, k, r, r2)
    requires s in runs ==> Preceded(runs, lo, s)
    ensures Preceded(Cut(runs, p, k, r, r2), lo, s)
  {
    var runs' := Cut(runs, p, k, r, r2);
    if s == p + k {
      assert Ends(runs', p, s);
    } else if s != lo {
      var q :| Ends(runs, q, s);
      assert Ends(runs', if q == p then p + k else q, s);
    }
  }

  lemma CutApart(runs: Runs, lo: nat, hi: nat, p: nat, k: nat, r: Run, r2: Run, s: nat, t: nat)
    requires Cuttable(runs, lo, hi, p, k, r, r2)
    requires s in Cut(runs, p, k, r, r2) && t in Cut(runs, p, k, r, r2)
    requires s in runs ==> Apart(runs, s, p) && Apart(runs, p, s)
    requires t in runs ==> Apart(runs, t, p) && Apart(runs, p, t)
    requires s in runs && t in runs ==> Apart(runs, s, t)
    ensures Apart(Cut(runs, p, k, r, r2), s, t)
  {
  }

  lemma NoneInside(runs: Runs, lo: nat, hi: nat, p: nat, k: nat)
    requires Tiles(runs, lo, hi) && p in runs && 0 < k < runs[p].pages
    ensures p + k !in runs && Within(runs, lo, hi, p)
  {
    assert Within(runs, lo, hi, p);
    assert p + k in runs ==> Apart(runs, p, p + k);
  }

  /** A run cut in two. */
  lemma TilesCut(runs: Runs, lo: nat, hi: nat, p: nat, k: nat, r: Run, r2: Run)
    requires Tiles(runs, lo, hi) && p in runs && 0 < k < runs[p].pages
    requires r.pages == k && r2.pages == runs[p].pages - k
    ensures p + k !in runs && Tiles(Cut(runs, p, k, r, r2), lo, hi)
  {
    NoneInside(runs, lo, hi, p, k);
    var runs' := Cut(runs, p, k, r, r2);
    forall s {:trigger Within(runs', lo, hi, s)} | s in runs' ensures Within(runs', lo, hi, s) {
      CutWithin(runs, lo, hi, p, k, r, r2, s);
    }
    forall s {:trigger Preceded(runs', lo, s)} | s in runs' ensures Preceded(runs', lo, s) {
      CutPreceded(runs, lo, hi, p, k, r, r2, s);
    }
    forall s, t {:trigger Apart(runs', s, t)} | s in runs' && t in runs' ensures Apart(runs', s, t) {
      CutApart(runs, lo, hi, p, k, r, r2, s, t);
    }
  }

  function Join(runs: Runs, p: nat, q: nat, r: Run): Runs {
    (runs - {q})[p := r]
  }

  ghost predicate Joinable(runs: Runs, lo: nat, hi: nat, p: nat, q: nat, r: Run) {
    && Within(runs, lo, hi, p) && Within(runs, lo, hi, q) && Ends(runs, p, q)
    && r.pages == runs[p].pages + runs[q].pages
  }

  /** Only p ends where q begins. */
  lemma JoinWithin(runs: Runs, lo: nat, hi: nat, p: nat, q: nat, r: Run, s: nat)
    requires Joinable(runs, lo, hi, p, q, r) && s in Join(runs, p, q, r)
    requires Within(runs, lo, hi, s) && (s + runs[s].pages == q ==> s == p)
    ensures Within(Join(runs, p, q, r), lo, hi, s)
  {
  }

  lemma JoinPreceded(runs: Runs, lo: nat, hi: nat, p: nat, q: nat, r: Run, s: nat)
    requires Joinable(runs, lo, hi, p, q, r) && s in Join(runs, p, q, r) && Preceded(runs, lo, s)
    ensures Preceded(Join(runs, p, q, r), lo, s)
  {
    if s != lo {
      var t :| Ends(runs, t, s);
      assert Ends(Join(runs, p, q, r), if t == q then p else t, s);
    }
  }

  lemma JoinApart(runs: Runs, lo: nat, hi: nat, p: nat, q: nat, r: Run, s: nat, t: nat)
    requires Joinable(runs, lo, hi, p, q, r) && s in Join(runs, p, q, r) && t in Join(runs, p, q, r)
    requires Apart(runs, s, t) && Apart(runs, q, t) && Apart(runs, t, q)
    ensures Apart(Join(runs, p, q, r), s, t)
  {
  }

  lemma JoinNext(runs: Runs, lo: nat, hi: nat, p: nat, q: nat, s: nat)
    requires Tiles(runs, lo, hi) && Ends(runs, p, q) && s in runs
    ensures s + runs[s].pages == q ==> s == p
  {
    if Ends(runs, s, q) {
      OnePrevious(runs, lo, hi, q, p, s);
    }
  }

  /** Two neighbours made one. */
  lemma TilesJoin(runs: Runs, lo: nat, hi: nat, p: nat, q: nat, r: Run)
    requires Tiles(runs, lo, hi) && q in runs && Ends(runs, p, q) && r.pages == runs[p].pages + runs[q].pages
    ensures Tiles(Join(runs, p, q, r), lo, hi)
  {
    assert Within(runs, lo, hi, p) && Within(runs, lo, hi, q);
    var runs' := Join(runs, p, q, r);
    forall s {:trigger Within(runs', lo, hi, s)} | s in runs' ensures Within(runs', lo, hi, s) {
      JoinNext(runs, lo, hi, p, q, s);
      JoinWithin(runs, lo, hi, p, q, r, s);
    }
    forall s {:trigger Preceded(runs', lo, s)} | s in runs' ensures Preceded(runs', lo, s) {
      JoinPreceded(runs, lo, hi, p, q, r, s);
    }
    forall s, t {:trigger Apart(runs', s, t)} | s in runs' && t in runs' ensures Apart(runs', s, t) {
      assert Apart(runs, s, t) && Apart(runs, q, t) && Apart(runs, t, q);
      JoinApart(runs, lo, hi, p, q, r, s, t);
    }
  }

  // ---------------------------------------------------------------- what the counters should be

  ghost function Weights(runs: Runs, w: Run -> int): map<nat, int> {
    map p | p in runs :: w(runs[p])
  }

  /** The sum of a weight over the runs. */
  ghost function Total(runs: Runs, w: Run -> int): int {
    Sum(Weights(runs, w))
  }

  lemma TotalSet(runs: Runs, w: Run -> int, p: nat, r: Run)
    ensures Total(runs[p := r], w) == Total(runs, w) - (if p in runs then w(runs[p]) else 0) + w(r)
  {
    assert Weights(runs[p := r], w) == Weights(runs, w)[p := w(r)];
    SumUpdate(Weights(runs, w), p, w(r));
  }

  lemma TotalDrop(runs: Runs, w: Run -> int, q: nat)
    requires q in runs
    ensures Total(runs - {q}, w) == Total(runs, w) - w(runs[q])
  {
    SumSplit(Weights(runs, w), q);
    assert Weights(runs - {q}, w) == Weights(runs, w) - {q};
  }

  lemma TotalCut(runs: Runs, w: Run -> int, p: nat, k: nat, r: Run, r2: Run)
    requires p in runs && k > 0 && p + k !in runs
    ensures Total(Cut(runs, p, k, r, r2), w) == Total(runs, w) - w(runs[p]) + w(r) + w(r2)
  {
    TotalSet(runs, w, p, r);
    TotalSet(runs[p := r], w, p + k, r2);
  }

  lemma TotalJoin(runs: Runs, w: Run -> int, p: nat, q: nat, r: Run)
    requires p in runs && q in runs && p != q
    ensures Total(Join(runs, p, q, r), w) == Total(runs, w) - w(runs[p]) - w(runs[q]) + w(r)
  {
    TotalDrop(runs, w, q);
    TotalSet(runs - {q}, w, p, r);
  }

  ghost function Size(r: Run): int {
    r.pages
  }

  /** No page is lost: the runs of a tiling have as many pages as it covers. */
  lemma {:induction false} PagesConserved(runs: Runs, lo: nat, hi: nat)
    requires Tiles(runs, lo, hi)
    ensures Total(runs, Size) == hi - lo
    decreases |runs|
  {
    assert Within(runs, lo, hi, lo);
    var q: nat := lo + runs[lo].pages;
    if q == hi {
      AloneAt(runs, lo, hi);
      var none: Runs := map[];
      assert runs == none[lo := runs[lo]] && Weights(none, Size) == map[];
      TotalSet(none, Size, lo, runs[lo]);
    } else {
      var r := Free(runs[lo].pages + runs[q].pages, false);
      TilesJoin(runs, lo, hi, lo, q, r);
      TotalJoin(runs, Size, lo, q, r);
      assert Join(runs, lo, q, r).Keys == runs.Keys - {q};
      PagesConserved(Join(runs, lo, q, r), lo, hi);
    }
  }

  /** A run on all the pages is the only one. */
  lemma AloneAt(runs: Runs, lo: nat, hi: nat)
    requires Tiles(runs, lo, hi) && runs[lo].pages == hi - lo
    ensures runs == map[lo := runs[lo]]
  {
    forall p | p in runs ensures p == lo {
      assert Within(runs, lo, hi, p);
      assert Apart(runs, lo, p);
    }
  }

  /** The number of free runs: nruns_avail. */
  ghost function Avail(r: Run): int {
    if r.Free? then 1 else 0
  }

  /** The pages of dirty free runs: ndirty. */
  ghost function Dirty(r: Run): int {
    if r.Free? && r.dirty then r.pages else 0
  }

  /** The pages of allocated runs: nactive. */
  ghost function Active(r: Run): int {
    if r.Free? then 0 else r.pages
  }

  ghost predicate FreeAt(runs: Runs, p: nat) {
    p in runs && runs[p].Free?
  }

  /** The free runs that have a free run behind them: nruns_adjac counts them. */
  ghost function Adjacent(runs: Runs): set<nat> {
    set p | p in runs && AdjacentAt(runs, p)
  }

  ghost predicate AdjacentAt(runs: Runs, p: nat) {
    FreeAt(runs, p) && FreeAt(runs, p + runs[p].pages)
  }

  ghost function One(b: bool): int {
    if b then 1 else 0
  }

  /** The run before p, if any, is free. */
  ghost predicate FreeBefore(runs: Runs, p: nat) {
    exists q :: Ends(runs, q, p) && FreeAt(runs, q)
  }

  /** Only the run p and the one that ends at p can change. */
  lemma AdjacentPoint(runs: Runs, p: nat, r: Run, s: nat)
    requires p in runs && !runs[p].Free? && r.Free? && r.pages == runs[p].pages >= 1 && s in runs
    ensures s == p ==> !AdjacentAt(runs, s) && (AdjacentAt(runs[p := r], s) <==> FreeAt(runs, p + r.pages))
    ensures s != p && Ends(runs, s, p) ==> !AdjacentAt(runs, s) && (AdjacentAt(runs[p := r], s) <==> FreeAt(runs, s))
    ensures s != p && !Ends(runs, s, p) ==> (AdjacentAt(runs[p := r], s) <==> AdjacentAt(runs, s))
  {
  }

  lemma AdjacentWith(runs: Runs, lo: nat, hi: nat, p: nat, r: Run, q: nat)
    requires Tiles(runs, lo, hi) && p in runs && !runs[p].Free? && r.Free? && r.pages == runs[p].pages >= 1
    requires Ends(runs, q, p) && FreeAt(runs, q)
    ensures Adjacent(runs[p := r]) == Adjacent(runs) + {q} + (if FreeAt(runs, p + r.pages) then {p} else {})
    ensures q !in Adjacent(runs) && p !in Adjacent(runs)
  {
    forall s | s in runs ensures s in Adjacent(runs[p := r]) <==>
      s in Adjacent(runs) + {q} + (if FreeAt(runs, p + r.pages) then {p} else {})
    {
      AdjacentPoint(runs, p, r, s);
      if Ends(runs, s, p) {
        OnePrevious(runs, lo, hi, p, q, s);
      }
    }
    AdjacentPoint(runs, p, r, q);
    AdjacentPoint(runs, p, r, p);
  }

  lemma AdjacentWithout(runs: Runs, p: nat, r: Run)
    requires p in runs && !runs[p].Free? && r.Free? && r.pages == runs[p].pages >= 1
    requires !FreeBefore(runs, p)
    ensures Adjacent(runs[p := r]) == Adjacent(runs) + (if FreeAt(runs, p + r.pages) then {p} else {})
    ensures p !in Adjacent(runs)
  {
    forall s | s in runs ensures s in Adjacent(runs[p := r]) <==>
      s in Adjacent(runs) + (if FreeAt(runs, p + r.pages) then {p} else {})
    {
      AdjacentPoint(runs, p, r, s);
    }
    AdjacentPoint(runs, p, r, p);
  }

  /** Making the allocated run p free changes the count by its free neighbours. */
  lemma AdjacentFree(runs: Runs, lo: nat, hi: nat, p: nat, r: Run)
    requires Tiles(runs, lo, hi) && p in runs && !runs[p].Free? && r.Free? && r.pages == runs[p].pages
    ensures |Adjacent(runs[p := r])|
      == |Adjacent(runs)| + One(FreeBefore(runs, p)) + One(FreeAt(runs, p + r.pages))
  {
    assert Within(runs, lo, hi, p);
    if FreeBefore(runs, p) {
      var q :| Ends(runs, q, p) && FreeAt(runs, q);
      AdjacentWith(runs, lo, hi, p, r, q);
    } else {
      AdjacentWithout(runs, p, r);
    }
  }
}
