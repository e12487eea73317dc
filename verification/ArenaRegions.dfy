/** The regions of a small run (deps/jemalloc/src/arena.c): which are free, and where they lie. */
module ArenaRegions {
  import opened ArenaNeighbours
  import opened ArenaChunks

  const PAGE := 4096

  /** arena_bin_info_t: the size of a run in pages, the number of its regions, and the offset, the
      distance and the size of the regions in bytes. */
  datatype Info = Info(binind: nat, pages: nat, nregs: nat, reg0: nat, interval: nat, size: nat, redzone: nat)

  /** What bin_info_run_size_calc guarantees: the regions, with their redzones, lie behind the header
      and within the run. */
  ghost predicate Layout(info: Info) {
    && 1 <= info.pages && 1 <= info.nregs && info.redzone < info.reg0
    && info.reg0 + info.nregs * info.interval <= info.redzone + info.pages * PAGE
    && info.size + info.redzone <= info.interval
  }

  // ---------------------------------------------------------------- the bitmap

  ghost function FreeSet(free: seq<bool>): set<nat> {
    set i: nat | i < |free| && free[i]
  }

  lemma FreeTake(free: seq<bool>, i: nat)
    requires i < |free| && free[i]
    ensures |FreeSet(free[i := false])| == |FreeSet(free)| - 1
  {
    assert FreeSet(free[i := false]) == FreeSet(free) - {i};
  }

  lemma FreePut(free: seq<bool>, i: nat)
    requires i < |free| && !free[i]
    ensures |FreeSet(free[i := true])| == |FreeSet(free)| + 1
  {
    assert FreeSet(free[i := true]) == FreeSet(free) + {i};
  }

  lemma {:induction false} AllFree(n: nat)
    ensures |FreeSet(seq(n, _ => true))| == n
  {
    if n == 0 {
      assert FreeSet(seq(0, _ => true)) == {};
    } else {
      AllFree(n - 1);
      assert FreeSet(seq(n, _ => true)) == FreeSet(seq(n - 1, _ => true)) + {n - 1};
    }
  }

  lemma {:induction false} FreeBound(free: seq<bool>)
    ensures |FreeSet(free)| <= |free|
    ensures |FreeSet(free)| == |free| <==> forall i :: 0 <= i < |free| ==> free[i]
    decreases |free|
  {
    if free != [] {
      var n := |free| - 1;
      FreeBound(free[..n]);
      assert free[n] ==> FreeSet(free) == FreeSet(free[..n]) + {n};
      assert !free[n] ==> FreeSet(free) == FreeSet(free[..n]);
    } else {
      assert FreeSet(free) == {};
    }
  }

  /** bitmap_sfu: the lowest free region. */
  method FirstFree(free: seq<bool>) returns (i: nat)
    requires exists j :: 0 <= j < |free| && free[j]
    ensures i < |free| && free[i] && forall j :: 0 <= j < i ==> !free[j]
  {
    i := 0;
    while !free[i]
      invariant i < |free| && forall j :: 0 <= j < i ==> !free[j]
      decreases |free| - i
    {
      i := i + 1;
    }
  }

  ghost predicate Unused(free: seq<bool>) {
    forall i :: 0 <= i < |free| ==> free[i]
  }

  // ---------------------------------------------------------------- a run

  /** arena_run_t: the small run at `page` of the chunk. */
  class SmallRun {
    const chunk: Chunk
    const page: nat
    var nextind: nat
    var nfree: nat
    /** The bitmap: which regions are free. */
    var free: seq<bool>

    /** nfree counts the free regions, and from nextind on no region has ever been used. */
    ghost predicate Ok(nregs: nat)
      reads this
    {
      |free| == nregs && nfree == |FreeSet(free)| && nextind <= nregs && forall i :: nextind <= i < nregs ==> free[i]
    }

    constructor (chunk: Chunk, page: nat, nregs: nat)
      ensures this.chunk == chunk && this.page == page && Ok(nregs)
      ensures nfree == nregs && nextind == 0 && Unused(free)
    {
      this.chunk, this.page := chunk, page;
      nextind, nfree := 0, nregs;
      free := seq(nregs, _ => true);
      AllFree(nregs);
    }

    /** arena_run_reg_alloc: the lowest free region. */
    method RegAlloc(ghost nregs: nat) returns (regind: nat)
      requires Ok(nregs) && nfree > 0
      modifies this
      ensures Ok(nregs) && regind < nregs && regind < nextind
      ensures old(free)[regind] && forall j :: 0 <= j < regind ==> !old(free)[j]
      ensures free == old(free)[regind := false] && nfree == old(nfree) - 1
    {
      SomeFree(free);
      regind := FirstFree(free);
      assert nextind < nregs ==> free[nextind];
      FreeTake(free, regind);
      free := free[regind := false];
      nfree := nfree - 1;
      if regind == nextind {
        nextind := nextind + 1;
      }
    }

    /** arena_run_reg_dalloc */
    method RegDalloc(regind: nat, ghost nregs: nat)
      requires Ok(nregs) && regind < nregs && !free[regind]
      modifies this`free, this`nfree
      ensures Ok(nregs) && regind < nextind
      ensures free == old(free)[regind := true] && nfree == old(nfree) + 1
    {
      FreePut(free, regind);
      free := free[regind := true];
      nfree := nfree + 1;
    }
  }

  lemma SomeFree(free: seq<bool>)
    requires |FreeSet(free)| > 0
    ensures exists j :: 0 <= j < |free| && free[j]
  {
    var j :| j in FreeSet(free);
  }

  /** The first page of a run, counted from address 0. */
  function Address(run: SmallRun): nat {
    run.chunk.addr + run.page
  }

  /** The first byte of region i. */
  function Start(run: SmallRun, info: Info, i: nat): nat {
    Address(run) * PAGE + info.reg0 + i * info.interval
  }

  lemma Multiply(i: nat, j: nat, k: nat)
    requires i < j
    ensures i * k + k <= j * k
  {
    assert j * k - i * k == (j - i) * k;
    assert (j - i) * k == (j - i - 1) * k + k;
  }

  /** The pages that regions below nextind have touched (line 1645). */
  function Touched(info: Info, nextind: nat): nat
    requires info.redzone < info.reg0
  {
    Pages(info.reg0 + nextind * info.interval - info.redzone)
  }

  lemma TouchedRange(info: Info, nextind: nat)
    requires Layout(info) && nextind <= info.nregs
    ensures 1 <= Touched(info, nextind) <= info.pages
  {
    if nextind < info.nregs {
      Multiply(nextind, info.nregs, info.interval);
    }
  }

  /** A region lies within its run. */
  lemma RegionWithin(run: SmallRun, i: nat, info: Info)
    requires Layout(info) && i < info.nregs
    ensures Address(run) * PAGE <= Start(run, info, i)
    ensures Start(run, info, i) + info.size <= (Address(run) + info.pages) * PAGE
  {
    Multiply(i, info.nregs, info.interval);
  }

  /** Regions of one run do not overlap. */
  lemma RegionsApart(run: SmallRun, i: nat, j: nat, info: Info)
    requires Layout(info) && i < j < info.nregs
    ensures Start(run, info, i) + info.size <= Start(run, info, j)
  {
    Multiply(i, j, info.interval);
  }
}
