/** The chunks of an arena (deps/jemalloc/src/arena.c) and the index of their free runs. */
module ArenaChunks {
  import opened Sums
  import opened ArenaRuns
  import opened ArenaMap
  import opened ArenaBooks
  import opened ArenaNeighbours

  // ---------------------------------------------------------------- chunks

  /** arena_chunk_t.  Sizes are in pages; the entries of the header pages are not used. */
  class Chunk {
    const addr: nat
    var pages: seq<Bits>
    var counters: Tally
    /** Whether chunks_dirty holds the chunk. */
    var inDirty: bool
    /** The runs of the chunk. */
    ghost var runs: Runs
    /** The pages of its allocated runs. */
    ghost var active: int

    ghost predicate Counted()
      reads this
    {
      Counts(runs, counters, active) && (inDirty <==> counters.ndirty != 0)
    }

    constructor (addr: nat, pages: seq<Bits>, ghost runs: Runs)
      ensures this.addr == addr && this.pages == pages && this.runs == runs
      ensures counters == Tally(0, 0, 0) && !inDirty
    {
      this.addr := addr;
      this.pages := pages;
      this.runs := runs;
      counters, inDirty := Tally(0, 0, 0), false;
    }
  }

  /** An element of runs_avail: ordered by size, then by chunk address and page. */
  datatype Slot = Slot(pages: nat, chunk: Chunk, pageind: nat)

  /** runs_avail holds exactly the free runs of the chunk. */
  ghost predicate ListedIn(avail: set<Slot>, chunk: Chunk, rs: Runs) {
    forall n: nat, p: nat {:trigger Slot(n, chunk, p) in avail} ::
      Slot(n, chunk, p) in avail <==> FreeAt(rs, p) && rs[p].pages == n
  }

  /** Nothing has changed in runs_avail for the other chunks. */
  ghost predicate Elsewhere(avail: set<Slot>, avail': set<Slot>, chunk: Chunk) {
    && (forall e <- avail :: e.chunk != chunk ==> e in avail')
    && (forall e <- avail' :: e.chunk != chunk ==> e in avail)
  }

  /** No free run of the chunk is listed. */
  ghost predicate Unknown(chunk: Chunk, avail: set<Slot>) {
    forall e <- avail :: e.chunk != chunk
  }

  lemma ListedNone(avail: set<Slot>, chunk: Chunk, rs: Runs)
    requires Unknown(chunk, avail) && forall p <- rs :: !rs[p].Free?
    ensures ListedIn(avail, chunk, rs)
  {
  }

  lemma ListedTake(avail: set<Slot>, chunk: Chunk, rs: Runs, p: nat, r: Run)
    requires ListedIn(avail, chunk, rs) && FreeAt(rs, p) && !r.Free?
    ensures ListedIn(avail - {Slot(rs[p].pages, chunk, p)}, chunk, rs[p := r])
  {
  }

  lemma ListedFree(avail: set<Slot>, chunk: Chunk, rs: Runs, p: nat, r: Run)
    requires ListedIn(avail, chunk, rs) && p in rs && !rs[p].Free? && r.Free?
    ensures ListedIn(avail + {Slot(r.pages, chunk, p)}, chunk, rs[p := r])
  {
  }

  lemma ListedQuiet(avail: set<Slot>, chunk: Chunk, rs: Runs, rs': Runs)
    requires ListedIn(avail, chunk, rs) && SameFree(rs, rs')
    ensures ListedIn(avail, chunk, rs')
  {
    forall n: nat, p: nat {:trigger Slot(n, chunk, p) in avail}
      ensures Slot(n, chunk, p) in avail <==> FreeAt(rs', p) && rs'[p].pages == n
    {
      assert FreeAt(rs', p) <==> FreeAt(rs, p);
    }
  }

  lemma ListedAbsorbed(avail: set<Slot>, chunk: Chunk, rs: Runs, x: nat, r: Run, rs': Runs)
    requires ListedIn(avail, chunk, rs) && FreeAt(rs, x) && !r.Free? && SameFree(rs[x := r], rs')
    ensures ListedIn(avail - {Slot(rs[x].pages, chunk, x)}, chunk, rs')
  {
    ListedTake(avail, chunk, rs, x, r);
    ListedQuiet(avail - {Slot(rs[x].pages, chunk, x)}, chunk, rs[x := r], rs');
  }

  lemma SplitListed(avail: set<Slot>, chunk: Chunk, rs: Runs, p: nat, need: nat, r: Run)
    requires ListedIn(avail, chunk, rs) && FreeAt(rs, p) && 0 < need <= rs[p].pages && !r.Free?
    requires need < rs[p].pages ==> p + need !in rs
    ensures var total := rs[p].pages;
      ListedIn(avail - {Slot(total, chunk, p)} + if need < total then {Slot(total - need, chunk, p + need)} else {},
               chunk, SplitRuns(rs, p, need, r))
  {
  }

  // ---------------------------------------------------------------- the order of the index

  /** arena_avail_comp: by size, then by the address of the map element. */
  predicate Less(e: Slot, f: Slot) {
    || e.pages < f.pages
    || (e.pages == f.pages && (e.chunk.addr < f.chunk.addr || (e.chunk.addr == f.chunk.addr && e.pageind < f.pageind)))
  }

  /** The lowest best fit. */
  ghost predicate IsBest(e: Slot, avail: set<Slot>, need: nat) {
    e in avail && e.pages >= need && forall f <- avail :: f.pages >= need ==> !Less(f, e)
  }

  /** Some free run is large enough. */
  ghost predicate Fits(avail: set<Slot>, need: nat) {
    exists e <- avail :: e.pages >= need
  }

  lemma {:induction false} MinSlot(avail: set<Slot>, need: nat, e: Slot) returns (best: Slot)
    requires e in avail && e.pages >= need
    ensures IsBest(best, avail, need)
    decreases |avail|
  {
    if f :| f in avail && f.pages >= need && Less(f, e) {
      best := MinSlot(avail - {e}, need, f);
    } else {
      best := e;
    }
  }

  // ---------------------------------------------------------------- chunks that are wholly free

  lemma NotWhole(rs: Runs, lo: nat, hi: nat, p: nat)
    requires Tiles(rs, lo, hi) && p in rs && rs[p].pages != hi - lo
    ensures rs[lo].pages != hi - lo
  {
    if rs[lo].pages == hi - lo {
      AloneAt(rs, lo, hi);
    }
  }

  /** One run on all the pages. */
  lemma WholeSound(rs: Runs, lo: nat, hi: nat)
    requires lo < hi && lo in rs && rs == map[lo := rs[lo]] && rs[lo].pages == hi - lo
    ensures Tiles(rs, lo, hi) && NoTwins(rs) && !FreeBefore(rs, lo) && !FreeAt(rs, hi)
  {
    assert Within(rs, lo, hi, lo) && Preceded(rs, lo, lo);
    NothingBefore(rs, lo, hi);
  }

  lemma OneMarked(m: seq<Bits>, rs: Runs, lo: nat)
    requires lo in rs && rs == map[lo := rs[lo]] && Marked(m, lo, rs[lo])
    ensures AllMarked(m, rs)
  {
  }

  lemma WholeRun(rs: Runs, lo: nat, hi: nat, p: nat, n: nat)
    requires Tiles(rs, lo, hi) && p in rs && rs[p].pages == n == hi - lo
    ensures p == lo
  {
    assert Within(rs, lo, hi, p);
  }

  // ---------------------------------------------------------------- the totals over chunks

  ghost function DirtyPages(s: set<Chunk>): int
    reads s
  {
    Sum(DirtyMap(s))
  }

  ghost function DirtyMap(s: set<Chunk>): map<Chunk, int>
    reads s
  {
    map ch | ch in s :: ch.counters.ndirty
  }

  ghost function ActiveMap(s: set<Chunk>): map<Chunk, int>
    reads s
  {
    map ch | ch in s :: ch.active
  }

  ghost function ActivePages(s: set<Chunk>): int
    reads s
  {
    Sum(ActiveMap(s))
  }

  lemma PagesSplit(s: set<Chunk>, chunk: Chunk)
    requires chunk in s
    ensures DirtyPages(s) == chunk.counters.ndirty + DirtyPages(s - {chunk})
    ensures ActivePages(s) == chunk.active + ActivePages(s - {chunk})
  {
    SumSplit(DirtyMap(s), chunk);
    assert DirtyMap(s) - {chunk} == DirtyMap(s - {chunk});
    SumSplit(ActiveMap(s), chunk);
    assert ActiveMap(s) - {chunk} == ActiveMap(s - {chunk});
  }
}
