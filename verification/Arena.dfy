/** The run allocator of deps/jemalloc/src/arena.c: best-fit allocation by splitting, freeing with
    coalescing, trimming and growing in place. */
module Arena {
  import opened Alignment
  import opened ArenaRuns
  import opened ArenaMap
  import opened ArenaBooks
  import opened ArenaNeighbours
  import opened ArenaChunks
  import opened Options

  class Arena {
    /** map_bias and chunk_npages: the pages of a chunk that hold runs are from bias to npages. */
    const bias: nat
    const npages: nat
    var runsAvail: set<Slot>
    var spare: Chunk?
    var nactive: int
    var ndirty: int
    ghost var chunks: set<Chunk>

    /** The runs of the chunk are sound and counted, and chunks_dirty holds it if some are dirty. */
    ghost predicate Sound(chunk: Chunk)
      reads chunk
    {
      |chunk.pages| == npages && Tiles(chunk.runs, bias, npages) && chunk.Counted()
    }

    /** arena_avail_insert: the run at pageind becomes the free run r. */
    method AvailInsert(chunk: Chunk, pageind: nat, n: nat, maybePred: bool, maybeSucc: bool, ghost r: Run)
      requires Sound(chunk) && pageind in chunk.runs && !chunk.runs[pageind].Free?
      requires r.Free? && r.pages == n == chunk.runs[pageind].pages
      requires pageind < npages && FreeTag(chunk.pages[pageind], r)
      requires if maybePred then PredMarked(chunk.pages, chunk.runs, pageind) else !FreeBefore(chunk.runs, pageind)
      requires if maybeSucc then SuccMarked(chunk.pages, chunk.runs, pageind) else !FreeAt(chunk.runs, pageind + n)
      modifies this`ndirty, this`runsAvail, chunk`counters, chunk`runs, chunk`active, chunk`inDirty
      ensures Sound(chunk) && chunk.runs == old(chunk.runs)[pageind := r]
      ensures runsAvail == old(runsAvail) + {Slot(n, chunk, pageind)}
      ensures ndirty - chunk.counters.ndirty == old(ndirty - chunk.counters.ndirty)
      ensures chunk.active == old(chunk.active) - n
    {
      if chunk.counters.ndirty != 0 {
        chunk.inDirty := false;
      }
      chunk.counters := CountInsert(chunk.pages, chunk.counters, bias, pageind, n, maybePred, maybeSucc, chunk.runs, r,
        chunk.active);
      TilesRetag(chunk.runs, bias, npages, pageind, r);
      if chunk.pages[pageind].dirty {
        ndirty := ndirty + n;
      }
      if chunk.counters.ndirty != 0 {
        chunk.inDirty := true;
      }
      runsAvail := runsAvail + {Slot(n, chunk, pageind)};
      chunk.runs := chunk.runs[pageind := r];
      chunk.active := chunk.active - n;
    }

    /** arena_avail_remove: the free run at pageind becomes the allocated run r. */
    method AvailRemove(chunk: Chunk, pageind: nat, n: nat, maybePred: bool, maybeSucc: bool, ghost r: Run)
      requires Sound(chunk) && FreeAt(chunk.runs, pageind) && !r.Free? && r.pages == n == chunk.runs[pageind].pages
      requires pageind < npages && FreeTag(chunk.pages[pageind], chunk.runs[pageind])
      requires if maybePred then PredMarked(chunk.pages, chunk.runs, pageind) else !FreeBefore(chunk.runs, pageind)
      requires if maybeSucc then SuccMarked(chunk.pages, chunk.runs, pageind) else !FreeAt(chunk.runs, pageind + n)
      modifies this`ndirty, this`runsAvail, chunk`counters, chunk`runs, chunk`active, chunk`inDirty
      ensures Sound(chunk) && chunk.runs == old(chunk.runs)[pageind := r]
      ensures runsAvail == old(runsAvail) - {Slot(n, chunk, pageind)}
      ensures ndirty - chunk.counters.ndirty == old(ndirty - chunk.counters.ndirty)
      ensures chunk.active == old(chunk.active) + n
    {
      if chunk.counters.ndirty != 0 {
        chunk.inDirty := false;
      }
      chunk.counters := CountRemove(chunk.pages, chunk.counters, bias, pageind, n, maybePred, maybeSucc, chunk.runs, r,
        chunk.active);
      TilesRetag(chunk.runs, bias, npages, pageind, r);
      if chunk.pages[pageind].dirty {
        ndirty := ndirty - n;
      }
      if chunk.counters.ndirty != 0 {
        chunk.inDirty := true;
      }
      runsAvail := runsAvail - {Slot(n, chunk, pageind)};
      chunk.runs := chunk.runs[pageind := r];
      chunk.active := chunk.active + n;
    }

    /** The tags of the pages that a split leaves over. */
    method TagRest(chunk: Chunk, p: nat, need: nat, total: nat, dirty: bool)
      requires Sound(chunk) && p in chunk.runs && chunk.runs[p] == Large(total, dirty) && 0 < need < total
      requires MarkedBut(chunk.pages, chunk.runs, p)
      modifies chunk`pages, chunk`runs
      ensures Sound(chunk) && p + need in chunk.runs && p + need < npages
      ensures chunk.runs == Cut(old(chunk.runs), p, need, Large(need, dirty), Large(total - need, dirty))
      ensures FreeTag(chunk.pages[p + need], Free(total - need, dirty))
      ensures SuccMarked(chunk.pages, chunk.runs, p + need) && !FreeBefore(chunk.runs, p + need)
      ensures var after := Cut(old(chunk.runs), p, need, Large(need, dirty), Free(total - need, dirty));
        MarkedBut(chunk.pages, after, p) && chunk.runs[p + need := Free(total - need, dirty)] == after
    {
      var rem := total - need;
      ghost var rs: Runs := chunk.runs;
      assert Within(rs, bias, npages, p);
      CutQuiet(rs, bias, npages, p, need, Large(need, dirty), Large(rem, dirty));
      var tagged := TagFree(chunk.pages, p + need, rem, dirty);
      RestMarked(chunk.pages, tagged, rs, bias, npages, p, need, total, dirty);
      chunk.pages := tagged;
      chunk.runs := Cut(rs, p, need, Large(need, dirty), Large(rem, dirty));
    }

    /** The part of arena_run_split for the pages that are left: they become a free run. */
    method SplitRest(chunk: Chunk, p: nat, need: nat, total: nat, dirty: bool)
      requires Sound(chunk) && p in chunk.runs && chunk.runs[p] == Large(total, dirty) && 0 < need < total
      requires MarkedBut(chunk.pages, chunk.runs, p)
      modifies this`ndirty, this`runsAvail, chunk
      ensures Sound(chunk) && MarkedBut(chunk.pages, chunk.runs, p)
      ensures chunk.runs == Cut(old(chunk.runs), p, need, Large(need, dirty), Free(total - need, dirty))
      ensures runsAvail == old(runsAvail) + {Slot(total - need, chunk, p + need)}
      ensures ndirty - chunk.counters.ndirty == old(ndirty - chunk.counters.ndirty)
      ensures chunk.active == old(chunk.active) - (total - need)
    {
      TagRest(chunk, p, need, total, dirty);
      AvailInsert(chunk, p + need, total - need, false, true, Free(total - need, dirty));
    }

    /** The end of arena_run_split: the tags of the allocated run. */
    method TagSplit(chunk: Chunk, p: nat, need: nat, dirty: bool, large: bool, binind: nat)
      requires Sound(chunk) && p in chunk.runs && chunk.runs[p] == Large(need, dirty)
      requires MarkedBut(chunk.pages, chunk.runs, p)
      modifies chunk`pages, chunk`runs
      ensures Sound(chunk) && AllMarked(chunk.pages, chunk.runs)
      ensures chunk.runs == old(chunk.runs)[p := Allocated(need, dirty, large, binind)]
    {
      ghost var rs: Runs, m := chunk.runs, chunk.pages;
      ghost var r := Allocated(need, dirty, large, binind);
      assert Within(rs, bias, npages, p);
      RetagQuiet(rs, bias, npages, p, r);
      if large {
        chunk.pages := TagLarge(chunk.pages, p, need, dirty);
      } else {
        chunk.pages := TagSmall(chunk.pages, p, need, dirty, binind);
      }
      RetagMarked(m, chunk.pages, rs, bias, npages, p, r);
      chunk.runs := rs[p := r];
    }

    /** The beginning of arena_run_split: the whole free run is taken out of runs_avail. */
    method TakeRun(chunk: Chunk, p: nat) returns (flagDirty: bool, total: nat)
      requires Sound(chunk) && AllMarked(chunk.pages, chunk.runs) && FreeAt(chunk.runs, p)
      modifies this`ndirty, this`runsAvail, chunk`counters, chunk`runs, chunk`active, chunk`inDirty
      ensures old(chunk.runs)[p] == Free(total, flagDirty)
      ensures Sound(chunk) && MarkedBut(chunk.pages, chunk.runs, p)
      ensures chunk.runs == old(chunk.runs)[p := Large(total, flagDirty)]
      ensures runsAvail == old(runsAvail) - {Slot(total, chunk, p)}
      ensures ndirty - chunk.counters.ndirty == old(ndirty - chunk.counters.ndirty)
      ensures chunk.active == old(chunk.active) + total
    {
      assert Within(chunk.runs, bias, npages, p);
      assert MarkedRun(chunk.pages, chunk.runs, p);
      flagDirty := chunk.pages[p].dirty;
      total := chunk.pages[p].size;
      NeighboursMarked(chunk.pages, chunk.runs, p);
      ButMarked(chunk.pages, chunk.runs, p, Large(total, flagDirty));
      AvailRemove(chunk, p, total, true, true, Large(total, flagDirty));
    }

    /** arena_run_split: the first `need` pages of a free run are allocated, the rest stays free. */
    method RunSplit(chunk: Chunk, p: nat, need: nat, large: bool, binind: nat)
      requires Sound(chunk) && AllMarked(chunk.pages, chunk.runs)
      requires FreeAt(chunk.runs, p) && 0 < need <= chunk.runs[p].pages
      modifies this`ndirty, this`nactive, this`runsAvail, chunk
      ensures Sound(chunk) && AllMarked(chunk.pages, chunk.runs)
      ensures chunk.runs
        == SplitRuns(old(chunk.runs), p, need, Allocated(need, old(chunk.runs)[p].dirty, large, binind))
      ensures var total := old(chunk.runs)[p].pages;
        runsAvail == old(runsAvail) - {Slot(total, chunk, p)}
          + if need < total then {Slot(total - need, chunk, p + need)} else {}
      ensures ndirty - chunk.counters.ndirty == old(ndirty - chunk.counters.ndirty)
      ensures chunk.active == old(chunk.active) + need
      ensures nactive == old(nactive) + need
    {
      ghost var rs := chunk.runs;
      var flagDirty, total := TakeRun(chunk, p);
      nactive := nactive + need;
      if need < total {
        SplitRest(chunk, p, need, total, flagDirty);
      }
      SplitIs(rs, p, need, total, flagDirty, Allocated(need, flagDirty, large, binind));
      TagSplit(chunk, p, need, flagDirty, large, binind);
    }

    /** The n pages at p are being freed with dirty flag f: their tags say free already, but they
        are not in the books yet. */
    ghost predicate Pending(chunk: Chunk, p: nat, n: nat, f: bool)
      reads this`runsAvail, chunk
    {
      && Sound(chunk) && p in chunk.runs && chunk.runs[p] == Large(n, f) && n >= 1 && p + n <= npages
      && MarkedBut(chunk.pages, chunk.runs, p) && Marked(chunk.pages, p, Free(n, f))
      && NoTwins(chunk.runs) && ListedIn(runsAvail, chunk, chunk.runs)
    }

    /** The free run at s, of k pages, is taken out of runs_avail and joined to the pending one. */
    method AbsorbNext(chunk: Chunk, p: nat, n: nat, f: bool, s: nat, k: nat)
      requires Pending(chunk, p, n, f) && s == p + n && s in chunk.runs && chunk.runs[s] == Free(k, f)
      modifies this`ndirty, this`runsAvail, chunk
      ensures Pending(chunk, p, n + k, f) && chunk.runs == Join(old(chunk.runs), p, s, Large(n + k, f))
      ensures runsAvail == old(runsAvail) - {Slot(k, chunk, s)}
      ensures ndirty - chunk.counters.ndirty == old(ndirty - chunk.counters.ndirty)
      ensures chunk.active == old(chunk.active) + k
    {
      ghost var rs: Runs, m := chunk.runs, chunk.pages;
      ForwardReady(m, rs, bias, p, s);
      Absorbed(m, rs, bias, p, n, s, k, f, s, p);
      ListedAbsorbed(runsAvail, chunk, rs, s, Large(k, f), Join(rs, p, s, Large(n + k, f)));
      AvailRemove(chunk, s, k, false, true, Large(k, f));
      chunk.pages := SizesSet(chunk.pages, p, n + k);
      chunk.runs := Join(rs, p, s, Large(n + k, f));
    }

    /** The free run at q, of k pages before the pending one, likewise. */
    method AbsorbPrevious(chunk: Chunk, q: nat, k: nat, p: nat, n: nat, f: bool)
      requires Pending(chunk, p, n, f) && q + k == p && q in chunk.runs && chunk.runs[q] == Free(k, f)
      modifies this`ndirty, this`runsAvail, chunk
      ensures Pending(chunk, q, k + n, f) && chunk.runs == Join(old(chunk.runs), q, p, Large(k + n, f))
      ensures runsAvail == old(runsAvail) - {Slot(k, chunk, q)}
      ensures ndirty - chunk.counters.ndirty == old(ndirty - chunk.counters.ndirty)
      ensures chunk.active == old(chunk.active) + k
    {
      ghost var rs: Runs := chunk.runs;
      ghost var after := Join(rs, q, p, Large(k + n, f));
      BackwardReady(chunk.pages, rs, bias, q, p);
      Absorbed(chunk.pages, rs, bias, q, k, p, n, f, q, p);
      ListedAbsorbed(runsAvail, chunk, rs, q, Large(k, f), after);
      AvailRemove(chunk, q, k, true, false, Large(k, f));
      chunk.pages := SizesSet(chunk.pages, q, k + n);
      chunk.runs := after;
    }

    /** arena_run_dalloc tries to coalesce forward. */
    method CoalesceForward(chunk: Chunk, p: nat, n: nat, f: bool) returns (n': nat)
      requires Pending(chunk, p, n, f)
      modifies this`ndirty, this`runsAvail, chunk
      ensures Pending(chunk, p, n', f) && Elsewhere(old(runsAvail), runsAvail, chunk)
      ensures ndirty - chunk.counters.ndirty == old(ndirty - chunk.counters.ndirty)
      ensures chunk.active - n' == old(chunk.active) - n
      ensures ForwardOf(old(chunk.runs), p, n, f, chunk.runs, n')
    {
      n' := n;
      var s := p + n;
      if s < npages {
        SuccTag(chunk.pages, chunk.runs, bias, p, s);
        if !chunk.pages[s].inUse && chunk.pages[s].dirty == f {
          n' := n + chunk.pages[s].size;
          AbsorbNext(chunk, p, n, f, s, chunk.pages[s].size);
        }
      } else {
        NothingBehind(chunk.runs, bias, npages, s);
      }
    }

    /** And backward. */
    method CoalesceBackward(chunk: Chunk, p: nat, n: nat, f: bool) returns (p': nat, n': nat)
      requires Pending(chunk, p, n, f)
      modifies this`ndirty, this`runsAvail, chunk
      ensures Pending(chunk, p', n', f) && Elsewhere(old(runsAvail), runsAvail, chunk)
      ensures ndirty - chunk.counters.ndirty == old(ndirty - chunk.counters.ndirty)
      ensures chunk.active - n' == old(chunk.active) - n
      ensures BackwardOf(old(chunk.runs), p, n, f, chunk.runs, p', n')
    {
      p', n' := p, n;
      assert Within(chunk.runs, bias, npages, p);
      if p > bias {
        ghost var q := PredTag(chunk.pages, chunk.runs, bias, p);
        if !chunk.pages[p - 1].inUse && chunk.pages[p - 1].dirty == f {
          var k := chunk.pages[p - 1].size;
          p', n' := p - k, k + n;
          AbsorbPrevious(chunk, p - k, k, p, n, f);
        }
      } else {
        NothingBefore(chunk.runs, bias, npages);
      }
    }

    /** The chunk is in order: its runs are tagged, counted and listed, and no two neighbouring free
        runs have the same flag. */
    ghost predicate InOrder(chunk: Chunk)
      reads this`runsAvail, chunk
    {
      OrderIn(chunk, runsAvail)
    }

    ghost predicate OrderIn(chunk: Chunk, avail: set<Slot>)
      reads chunk
    {
      Sound(chunk) && AllMarked(chunk.pages, chunk.runs) && NoTwins(chunk.runs) && ListedIn(avail, chunk, chunk.runs)
    }

    /** The beginning of arena_run_dalloc: the run is marked free. */
    method MarkFree(chunk: Chunk, p: nat, n: nat, f: bool)
      requires InOrder(chunk) && p in chunk.runs && !chunk.runs[p].Free? && n == chunk.runs[p].pages
      modifies chunk`pages, chunk`runs
      ensures Pending(chunk, p, n, f) && chunk.runs == old(chunk.runs)[p := Large(n, f)]
    {
      ghost var rs: Runs, m := chunk.runs, chunk.pages;
      ghost var after: Runs := rs[p := Large(n, f)];
      assert Within(rs, bias, npages, p);
      RetagQuiet(rs, bias, npages, p, Large(n, f));
      TwinsTake(rs, p, Large(n, f));
      ListedQuiet(runsAvail, chunk, rs, after);
      ButMarked(m, rs, p, rs[p]);
      assert rs[p := rs[p]] == rs;
      chunk.pages := TagFree(chunk.pages, p, n, f);
      OthersMarked(m, chunk.pages, rs, bias, npages, p, Large(n, f));
      chunk.runs := after;
    }

    /** The end of arena_run_dalloc: the coalesced run goes into runs_avail. */
    method Release(chunk: Chunk, p: nat, n: nat, f: bool)
      requires Pending(chunk, p, n, f) && Mixes(chunk.runs, p, Free(n, f))
      modifies this`ndirty, this`runsAvail, chunk`counters, chunk`runs, chunk`active, chunk`inDirty
      ensures InOrder(chunk) && chunk.runs == old(chunk.runs)[p := Free(n, f)]
      ensures runsAvail == old(runsAvail) + {Slot(n, chunk, p)}
      ensures ndirty - chunk.counters.ndirty == old(ndirty - chunk.counters.ndirty)
      ensures chunk.active == old(chunk.active) - n
    {
      ghost var rs: Runs := chunk.runs;
      NeighboursMarked(chunk.pages, rs, p);
      TwinsFree(rs, p, Free(n, f));
      ListedFree(runsAvail, chunk, rs, p, Free(n, f));
      AvailInsert(chunk, p, n, true, true, Free(n, f));
      PutMarked(chunk.pages, rs, p, Free(n, f));
    }

    /** The pending run is coalesced with its free neighbours of the same flag. */
    method Coalesce(chunk: Chunk, p: nat, n: nat, f: bool) returns (p': nat, n': nat)
      requires Pending(chunk, p, n, f)
      modifies this`ndirty, this`runsAvail, chunk
      ensures Pending(chunk, p', n', f) && Mixes(chunk.runs, p', Free(n', f))
      ensures Elsewhere(old(runsAvail), runsAvail, chunk)
      ensures Freed(old(chunk.runs), p, n, f, chunk.runs[p' := Free(n', f)], p', n')
      ensures chunk.active - n' == old(chunk.active) - n
      ensures ndirty - chunk.counters.ndirty == old(ndirty - chunk.counters.ndirty)
    {
      ghost var rs := chunk.runs;
      var n1 := CoalesceForward(chunk, p, n, f);
      ghost var rs1 := chunk.runs;
      p', n' := CoalesceBackward(chunk, p, n1, f);
      CoalesceIs(rs, bias, npages, p, n, f, rs1, n1, chunk.runs, p', n');
    }

    /** The steps of arena_run_dalloc. */
    method FreeRun(chunk: Chunk, p: nat, dirty: bool, cleaned: bool, smallPages: nat) returns (p': nat, n': nat)
      requires InOrder(chunk) && p in chunk.runs && !chunk.runs[p].Free?
      requires chunk.runs[p].Small? ==> smallPages == chunk.runs[p].pages
      modifies this`ndirty, this`nactive, this`runsAvail, chunk
      ensures InOrder(chunk) && Elsewhere(old(runsAvail), runsAvail, chunk)
      ensures var r := old(chunk.runs)[p]; var f := dirty || (!cleaned && r.dirty);
        Freed(old(chunk.runs)[p := Large(r.pages, f)], p, r.pages, f, chunk.runs, p', n')
      ensures nactive == old(nactive) - old(chunk.runs)[p].pages
      ensures chunk.active == old(chunk.active) - old(chunk.runs)[p].pages
      ensures ndirty - chunk.counters.ndirty == old(ndirty - chunk.counters.ndirty)
    {
      TagOf(chunk.pages, chunk.runs, bias, p);
      var n := if chunk.pages[p].large then chunk.pages[p].size else smallPages;
      nactive := nactive - n;
      var f := dirty || (!cleaned && chunk.pages[p].dirty);
      MarkFree(chunk, p, n, f);
      p', n' := Coalesce(chunk, p, n, f);
      Release(chunk, p', n', f);
    }

    /** arena_run_dalloc without the deallocation of the chunk. */
    method Dalloc(chunk: Chunk, p: nat, dirty: bool, cleaned: bool, smallPages: nat) returns (p': nat, n': nat)
      requires InOrder(chunk) && p in chunk.runs && !chunk.runs[p].Free?
      requires chunk.runs[p].Small? ==> smallPages == chunk.runs[p].pages
      modifies this`ndirty, this`nactive, this`runsAvail, chunk
      ensures InOrder(chunk) && Elsewhere(old(runsAvail), runsAvail, chunk)
      ensures Keeps(old(chunk.runs), chunk.runs, p)
      ensures var r := old(chunk.runs)[p]; var f := dirty || (!cleaned && r.dirty);
        Freed(old(chunk.runs)[p := Large(r.pages, f)], p, r.pages, f, chunk.runs, p', n')
      ensures nactive == old(nactive) - old(chunk.runs)[p].pages
      ensures chunk.active == old(chunk.active) - old(chunk.runs)[p].pages
      ensures ndirty - chunk.counters.ndirty == old(ndirty - chunk.counters.ndirty)
    {
      ghost var rs: Runs := chunk.runs;
      p', n' := FreeRun(chunk, p, dirty, cleaned, smallPages);
      FreedOthers(rs, bias, npages, p, chunk.runs, p', n', dirty || (!cleaned && rs[p].dirty));
    }

    /** arena_run_split keeps the chunk in order. */
    method Split(chunk: Chunk, p: nat, need: nat, large: bool, binind: nat)
      requires InOrder(chunk) && FreeAt(chunk.runs, p) && 0 < need <= chunk.runs[p].pages
      modifies this`ndirty, this`nactive, this`runsAvail, chunk
      ensures InOrder(chunk) && Elsewhere(old(runsAvail), runsAvail, chunk)
      ensures Undisturbed(old(chunk.runs), chunk.runs, p)
      ensures chunk.runs
        == SplitRuns(old(chunk.runs), p, need, Allocated(need, old(chunk.runs)[p].dirty, large, binind))
      ensures nactive - chunk.active == old(nactive - chunk.active)
      ensures nactive == old(nactive) + need
      ensures ndirty - chunk.counters.ndirty == old(ndirty - chunk.counters.ndirty)
    {
      ghost var rs: Runs, r := chunk.runs, Allocated(need, chunk.runs[p].dirty, large, binind);
      if need < rs[p].pages {
        NoneInside(rs, bias, npages, p, need);
      }
      SplitTwins(rs, bias, npages, p, need, r);
      SplitListed(runsAvail, chunk, rs, p, need, r);
      RunSplit(chunk, p, need, large, binind);
    }

    /** The beginning of arena_run_trim_head and arena_run_trim_tail: the first k pages of a large
        run and the others become runs of their own. */
    method CutLarge(chunk: Chunk, p: nat, n: nat, k: nat)
      requires InOrder(chunk) && p in chunk.runs && chunk.runs[p].Large? && chunk.runs[p].pages == n && 0 < k < n
      modifies chunk`pages, chunk`runs
      ensures InOrder(chunk)
      ensures var d := old(chunk.runs)[p].dirty;
        chunk.runs == Cut(old(chunk.runs), p, k, Large(k, d), Large(n - k, d))
    {
      ghost var rs: Runs := chunk.runs;
      LargeCut(chunk.pages, rs, bias, p, n, k, rs[p].dirty);
      var d := chunk.pages[p].dirty;
      ListedQuiet(runsAvail, chunk, rs, Cut(rs, p, k, Large(k, d), Large(n - k, d)));
      chunk.pages := CutTags(chunk.pages, p, n, k, d);
      chunk.runs := Cut(rs, p, k, Large(k, d), Large(n - k, d));
    }

    /** arena_run_trim_head: only the last newsize pages stay allocated.  The chunk cannot become
        wholly free. */
    method TrimHead(chunk: Chunk, p: nat, oldsize: nat, newsize: nat)
      requires InOrder(chunk) && p in chunk.runs && chunk.runs[p].Large? && chunk.runs[p].pages == oldsize
      requires 0 < newsize < oldsize
      modifies this`ndirty, this`nactive, this`runsAvail, chunk
      ensures InOrder(chunk) && Elsewhere(old(runsAvail), runsAvail, chunk)
      ensures Taken(chunk.runs, p + (oldsize - newsize), Large(newsize, old(chunk.runs)[p].dirty))
      ensures p + (oldsize - newsize) !in old(chunk.runs)
      ensures Keeps(old(chunk.runs), chunk.runs, p)
      ensures nactive - chunk.active == old(nactive - chunk.active)
      ensures nactive == old(nactive) - (oldsize - newsize)
      ensures var d, k := old(chunk.runs)[p].dirty, oldsize - newsize;
        Returned(Cut(old(chunk.runs), p, k, Large(k, d), Large(newsize, d)), p, d, chunk.runs)
      ensures ndirty - chunk.counters.ndirty == old(ndirty - chunk.counters.ndirty)
    {
      ghost var rs: Runs, d := chunk.runs, chunk.runs[p].dirty;
      var k := oldsize - newsize;
      NoneInside(rs, bias, npages, p, k);
      CutLarge(chunk, p, oldsize, k);
      FreePart(chunk, p, false, rs, p, k, Large(k, d), Large(newsize, d));
    }

    /** One part of a run that has been cut is freed. */
    method FreePart(chunk: Chunk, x: nat, dirty: bool, ghost rs: Runs, ghost p: nat, ghost k: nat,
        ghost r: Run, ghost r2: Run)
      requires InOrder(chunk) && p in rs && k > 0 && p + k !in rs && !r.Free? && !r2.Free? && r.Large? && r2.Large?
      requires chunk.runs == Cut(rs, p, k, r, r2) && (x == p || x == p + k) && x in chunk.runs
      modifies this`ndirty, this`nactive, this`runsAvail, chunk
      ensures InOrder(chunk) && Elsewhere(old(runsAvail), runsAvail, chunk) && Keeps(rs, chunk.runs, p)
      ensures var y := if x == p then p + k else p; y in chunk.runs && chunk.runs[y] == old(chunk.runs)[y]
      ensures nactive - chunk.active == old(nactive - chunk.active)
      ensures nactive == old(nactive) - old(chunk.runs)[x].pages
      ensures Returned(old(chunk.runs), x, dirty || old(chunk.runs)[x].dirty, chunk.runs)
      ensures ndirty - chunk.counters.ndirty == old(ndirty - chunk.counters.ndirty)
    {
      var p', n' := Dalloc(chunk, x, dirty, false, 0);
      KeepsCut(rs, p, k, r, r2, chunk.runs, x);
    }

    /** arena_run_trim_tail: only the first newsize pages stay allocated. */
    method TrimTail(chunk: Chunk, p: nat, oldsize: nat, newsize: nat, dirty: bool)
      requires InOrder(chunk) && p in chunk.runs && chunk.runs[p].Large? && chunk.runs[p].pages == oldsize
      requires 0 < newsize < oldsize
      modifies this`ndirty, this`nactive, this`runsAvail, chunk
      ensures InOrder(chunk) && Elsewhere(old(runsAvail), runsAvail, chunk)
      ensures p in chunk.runs && chunk.runs[p] == Large(newsize, old(chunk.runs)[p].dirty)
      ensures Keeps(old(chunk.runs), chunk.runs, p)
      ensures nactive - chunk.active == old(nactive - chunk.active)
      ensures nactive == old(nactive) - (oldsize - newsize)
      ensures var d, k := old(chunk.runs)[p].dirty, oldsize - newsize;
        Returned(Cut(old(chunk.runs), p, newsize, Large(newsize, d), Large(k, d)), p + newsize, dirty || d, chunk.runs)
      ensures ndirty - chunk.counters.ndirty == old(ndirty - chunk.counters.ndirty)
    {
      ghost var rs: Runs, d := chunk.runs, chunk.runs[p].dirty;
      NoneInside(rs, bias, npages, p, newsize);
      CutLarge(chunk, p, oldsize, newsize);
      FreePart(chunk, p + newsize, dirty, rs, p, newsize, Large(newsize, d), Large(oldsize - newsize, d));
    }

    /** arena_ralloc_large_grow: the run at p takes pages of the free run behind it, as many as
        size + extra allows; it fails when there are too few for size, and also when size is below
        oldsize, because size - oldsize is then computed modulo the word size. */
    method Grow(chunk: Chunk, p: nat, oldsize: nat, size: nat, extra: nat) returns (failed: bool)
      requires InOrder(chunk) && p in chunk.runs && chunk.runs[p].Large? && chunk.runs[p].pages == oldsize
      requires size + extra > oldsize
      modifies this`ndirty, this`nactive, this`runsAvail, chunk
      ensures InOrder(chunk) && Elsewhere(old(runsAvail), runsAvail, chunk)
      ensures nactive - chunk.active == old(nactive - chunk.active)
      ensures ndirty - chunk.counters.ndirty == old(ndirty - chunk.counters.ndirty)
      ensures failed <==> !CanGrow(old(chunk.runs), p, oldsize, size)
      ensures failed ==> chunk.runs == old(chunk.runs) && nactive == old(nactive)
      ensures !failed ==>
        var k := GrowBy(old(chunk.runs), p, size + extra);
        k > 0 && chunk.runs == Grown(old(chunk.runs), p, k) && nactive == old(nactive) + k
      ensures !failed ==> Keeps(old(chunk.runs), chunk.runs, p)
    {
      assert Within(chunk.runs, bias, npages, p);
      var s := p + oldsize;
      if s >= npages {
        NothingBehind(chunk.runs, bias, npages, s);
        return true;
      }
      AllBut(chunk.pages, chunk.runs, p);
      SuccTag(chunk.pages, chunk.runs, bias, p, s);
      if chunk.pages[s].inUse || size < oldsize || chunk.pages[s].size < size - oldsize {
        return true;
      }
      var followsize := chunk.pages[s].size;
      assert Within(chunk.runs, bias, npages, s);
      var splitsize := if oldsize + followsize <= size + extra then followsize else size + extra - oldsize;
      Extend(chunk, p, oldsize, s, splitsize);
      return false;
    }

    /** The following run is split and its first part joined to the allocation. */
    method Extend(chunk: Chunk, p: nat, oldsize: nat, s: nat, splitsize: nat)
      requires InOrder(chunk) && p in chunk.runs && chunk.runs[p].Large? && chunk.runs[p].pages == oldsize
      requires s == p + oldsize && FreeAt(chunk.runs, s) && 0 < splitsize <= chunk.runs[s].pages
      modifies this`ndirty, this`nactive, this`runsAvail, chunk
      ensures InOrder(chunk) && Elsewhere(old(runsAvail), runsAvail, chunk)
      ensures nactive - chunk.active == old(nactive - chunk.active)
      ensures nactive == old(nactive) + splitsize
      ensures ndirty - chunk.counters.ndirty == old(ndirty - chunk.counters.ndirty)
      ensures Keeps(old(chunk.runs), chunk.runs, p) && p in chunk.runs
      ensures chunk.runs == Grown(old(chunk.runs), p, splitsize)
    {
      ghost var rs: Runs := chunk.runs;
      assert Within(rs, bias, npages, p);
      Split(chunk, s, splitsize, true, BININD_INVALID);
      ghost var split := chunk.runs;
      JoinLarge(chunk, p, oldsize, s, splitsize);
      KeepsGrow(rs, bias, npages, p, s, splitsize, split, chunk.runs);
    }

    /** The end of arena_ralloc_large_grow: the merged run is dirty if either part was. */
    method JoinLarge(chunk: Chunk, p: nat, n: nat, q: nat, k: nat)
      requires InOrder(chunk) && p in chunk.runs && q in chunk.runs && q == p + n
      requires chunk.runs[p].Large? && chunk.runs[q].Large? && chunk.runs[p].pages == n && chunk.runs[q].pages == k
      modifies chunk`pages, chunk`runs
      ensures InOrder(chunk)
      ensures chunk.runs == Join(old(chunk.runs), p, q, Large(n + k, old(chunk.runs[p].dirty || chunk.runs[q].dirty)))
    {
      ghost var rs: Runs := chunk.runs;
      LargeJoin(chunk.pages, rs, bias, p, n, q, k, rs[p].dirty || rs[q].dirty);
      var d := chunk.pages[p].dirty || chunk.pages[p + n + k - 1].dirty;
      ListedQuiet(runsAvail, chunk, rs, Join(rs, p, q, Large(n + k, d)));
      chunk.pages := JoinTags(chunk.pages, p, n + k, d);
      chunk.runs := Join(rs, p, q, Large(n + k, d));
    }

    // -------------------------------------------------------------- the arena as a whole

    /** A chunk that is one free run. */
    ghost predicate Whole(rs: Runs) {
      FreeAt(rs, bias) && rs[bias].pages == npages - bias
    }

    /** The chunk is wholly free and neither counted nor listed, like the spare. */
    ghost predicate Unlisted(chunk: Chunk)
      reads chunk
    {
      && |chunk.pages| == npages && Whole(chunk.runs) && chunk.runs == map[bias := chunk.runs[bias]]
      && AllMarked(chunk.pages, chunk.runs) && chunk.counters == Tally(0, 0, 0) && !chunk.inDirty
    }

    ghost predicate RestOk(s: set<Chunk>, avail: set<Slot>)
      reads s
    {
      forall ch {:trigger OrderIn(ch, avail)} :: ch in s ==> OrderIn(ch, avail) && !Whole(ch.runs)
    }

    /** Every chunk in use is in order, runs_avail holds exactly their free runs, only the spare is
        wholly free, and ndirty and nactive are the dirty free pages and the allocated pages. */
    ghost predicate Valid()
      reads this, chunks, if spare == null then {} else {spare}
    {
      && 1 <= bias < npages
      && RestOk(chunks, runsAvail)
      && (forall e <- runsAvail :: e.chunk in chunks)
      && (spare != null ==> spare !in chunks && Unlisted(spare))
      && ndirty == DirtyPages(chunks)
      && nactive == ActivePages(chunks)
    }

    /** arena_chunk_dealloc: the chunk becomes the spare, and the spare before it is given back. */
    method ChunkDealloc(chunk: Chunk)
      requires InOrder(chunk) && Whole(chunk.runs) && bias < npages
      modifies this`ndirty, this`runsAvail, this`spare, chunk`counters, chunk`runs, chunk`active, chunk`inDirty
      ensures Unlisted(chunk) && spare == chunk && chunk.runs == old(chunk.runs)
      ensures Elsewhere(old(runsAvail), runsAvail, chunk)
      ensures forall n: nat, p: nat :: Slot(n, chunk, p) !in runsAvail
      ensures ndirty == old(ndirty - chunk.counters.ndirty)
    {
      ghost var rs: Runs, n := chunk.runs, npages - bias;
      AloneAt(rs, bias, npages);
      assert MarkedRun(chunk.pages, rs, bias);
      NothingBefore(rs, bias, npages);
      ListedTake(runsAvail, chunk, rs, bias, Large(n, false));
      AvailRemove(chunk, bias, npages - bias, false, false, Large(n, false));
      TakenCounts(chunk.runs, bias, chunk.counters, chunk.active);
      chunk.runs := rs;
      spare := chunk;
    }

    lemma RestElsewhere(s: set<Chunk>, avail: set<Slot>, avail': set<Slot>, chunk: Chunk)
      requires RestOk(s, avail) && Elsewhere(avail, avail', chunk) && chunk !in s
      ensures RestOk(s, avail')
    {
      forall ch {:trigger OrderIn(ch, avail')} | ch in s ensures OrderIn(ch, avail') && !Whole(ch.runs) {
        assert OrderIn(ch, avail);
        forall n: nat, p: nat {:trigger Slot(n, ch, p) in avail'}
          ensures Slot(n, ch, p) in avail' <==> FreeAt(ch.runs, p) && ch.runs[p].pages == n
        {
          assert Slot(n, ch, p) in avail <==> Slot(n, ch, p) in avail';
        }
      }
    }

    /** What is known of the arena while chunk is at work and the others rest. */
    ghost predicate Working(chunk: Chunk, rest: set<Chunk>)
      reads this, rest, chunk, if spare == null then {} else {spare}
    {
      && 1 <= bias < npages && chunk !in rest && spare != chunk
      && RestOk(rest, runsAvail)
      && (forall e <- runsAvail :: e.chunk in rest + {chunk})
      && (spare != null ==> spare !in rest && Unlisted(spare))
      && ndirty - chunk.counters.ndirty == DirtyPages(rest)
      && nactive - chunk.active == ActivePages(rest)
    }

    lemma ValidWorking(chunk: Chunk)
      requires Valid() && chunk in chunks
      ensures Working(chunk, chunks - {chunk}) && InOrder(chunk) && !Whole(chunk.runs)
    {
      PagesSplit(chunks, chunk);
    }

    lemma WorkingValid(chunk: Chunk)
      requires chunk in chunks && Working(chunk, chunks - {chunk}) && InOrder(chunk) && !Whole(chunk.runs)
      ensures Valid()
    {
      PagesSplit(chunks, chunk);
    }

    /** A change of the chunk at work that lists its free runs leaves the others at rest. */
    lemma StillWorking(avail: set<Slot>, chunk: Chunk, rest: set<Chunk>)
      requires 1 <= bias < npages && chunk !in rest && spare != chunk && RestOk(rest, avail)
      requires Elsewhere(avail, runsAvail, chunk) && forall e <- avail :: e.chunk in rest + {chunk}
      requires spare != null ==> spare !in rest && Unlisted(spare)
      requires ndirty - chunk.counters.ndirty == DirtyPages(rest)
      requires nactive - chunk.active == ActivePages(rest)
      ensures Working(chunk, rest)
    {
      RestElsewhere(rest, avail, runsAvail, chunk);
    }

    /** A wholly free chunk has no active pages. */
    lemma Idle(chunk: Chunk, rest: set<Chunk>)
      requires Working(chunk, rest) && InOrder(chunk) && Whole(chunk.runs)
      ensures nactive == ActivePages(rest) && ndirty - chunk.counters.ndirty == DirtyPages(rest)
      ensures RestOk(rest, runsAvail) && forall e <- runsAvail :: e.chunk in rest + {chunk}
    {
      AloneAt(chunk.runs, bias, npages);
      WholeCounts(chunk.runs, bias, chunk.counters, chunk.active);
    }

    method DallocAtWork(chunk: Chunk, p: nat, dirty: bool, cleaned: bool, smallPages: nat, ghost rest: set<Chunk>)
        returns (p': nat, n': nat)
      requires Working(chunk, rest) && InOrder(chunk) && p in chunk.runs && !chunk.runs[p].Free?
      requires chunk.runs[p].Small? ==> smallPages == chunk.runs[p].pages
      modifies this`ndirty, this`nactive, this`runsAvail, chunk
      ensures Working(chunk, rest) && InOrder(chunk) && Keeps(old(chunk.runs), chunk.runs, p)
      ensures var r := old(chunk.runs)[p]; var f := dirty || (!cleaned && r.dirty);
        Freed(old(chunk.runs)[p := Large(r.pages, f)], p, r.pages, f, chunk.runs, p', n')
      ensures nactive == old(nactive) - old(chunk.runs)[p].pages && (p in chunk.runs ==> chunk.runs[p].Free?)
      ensures n' == npages - bias <==> Whole(chunk.runs)
    {
      ghost var avail := runsAvail;
      assert Within(chunk.runs, bias, npages, p);
      p', n' := Dalloc(chunk, p, dirty, cleaned, smallPages);
      NoneCovered(chunk.runs, bias, npages, p', p);
      StillWorking(avail, chunk, rest);
      if n' == npages - bias {
        WholeRun(chunk.runs, bias, npages, p', n');
      } else {
        NotWhole(chunk.runs, bias, npages, p');
      }
    }

    /** arena_run_dalloc: the run is free and coalesced with its free neighbours of the same flag;
        when the chunk has become wholly free it is deallocated, that is, becomes the spare. */
    method RunDalloc(chunk: Chunk, p: nat, dirty: bool, cleaned: bool, smallPages: nat) returns (p': nat, n': nat)
      requires Valid() && chunk in chunks && p in chunk.runs && !chunk.runs[p].Free?
      requires chunk.runs[p].Small? ==> smallPages == chunk.runs[p].pages
      modifies this, chunk
      ensures Valid() && Keeps(old(chunk.runs), chunk.runs, p)
      ensures var r := old(chunk.runs)[p]; var f := dirty || (!cleaned && r.dirty);
        Freed(old(chunk.runs)[p := Large(r.pages, f)], p, r.pages, f, chunk.runs, p', n')
      ensures nactive == old(nactive) - old(chunk.runs)[p].pages && (p in chunk.runs ==> chunk.runs[p].Free?)
      ensures if Whole(chunk.runs) then chunks == old(chunks) - {chunk} && spare == chunk
              else chunks == old(chunks) && spare == old(spare)
    {
      ValidWorking(chunk);
      p', n' := DallocAtWork(chunk, p, dirty, cleaned, smallPages, chunks - {chunk});
      if n' == npages - bias {
        Idle(chunk, chunks - {chunk});
        Retire(chunk, chunks - {chunk}, DirtyPages(chunks - {chunk}), ActivePages(chunks - {chunk}));
      } else {
        WorkingValid(chunk);
      }
    }

    lemma NoSlots(chunk: Chunk, rest: set<Chunk>, avail: set<Slot>)
      requires Elsewhere(avail, runsAvail, chunk) && forall e <- avail :: e.chunk in rest + {chunk}
      requires forall n: nat, p: nat :: Slot(n, chunk, p) !in runsAvail
      ensures forall e <- runsAvail :: e.chunk in rest
    {
      forall e | e in runsAvail ensures e.chunk in rest {
        assert e == Slot(e.pages, e.chunk, e.pageind);
      }
    }

    /** arena_chunk_dealloc while the chunks of rest are in order. */
    method DeallocAmong(chunk: Chunk, ghost rest: set<Chunk>)
      requires bias < npages && chunk !in rest && InOrder(chunk) && Whole(chunk.runs)
      requires RestOk(rest, runsAvail) && forall e <- runsAvail :: e.chunk in rest + {chunk}
      modifies this`ndirty, this`runsAvail, this`spare, chunk`counters, chunk`runs, chunk`active, chunk`inDirty
      ensures Unlisted(chunk) && spare == chunk && chunk.runs == old(chunk.runs)
      ensures RestOk(rest, runsAvail) && forall e <- runsAvail :: e.chunk in rest
      ensures ndirty == old(ndirty - chunk.counters.ndirty)
      ensures DirtyPages(rest) == old(DirtyPages(rest)) && ActivePages(rest) == old(ActivePages(rest))
    {
      ghost var avail := runsAvail;
      ChunkDealloc(chunk);
      RestElsewhere(rest, avail, runsAvail, chunk);
      NoSlots(chunk, rest, avail);
    }

    /** The deallocation of the chunk at work. */
    method Retire(chunk: Chunk, ghost rest: set<Chunk>, ghost dirty: int, ghost active: int)
      requires 1 <= bias < npages && chunk !in rest && InOrder(chunk) && Whole(chunk.runs)
      requires RestOk(rest, runsAvail) && forall e <- runsAvail :: e.chunk in rest + {chunk}
      requires DirtyPages(rest) == dirty && ActivePages(rest) == active
      requires ndirty - chunk.counters.ndirty == dirty && nactive == active
      modifies this`ndirty, this`runsAvail, this`spare, this`chunks
      modifies chunk`counters, chunk`runs, chunk`active, chunk`inDirty
      ensures Valid() && chunks == rest && spare == chunk && chunk.runs == old(chunk.runs)
    {
      DeallocAmong(chunk, rest);
      chunks := rest;
      AtRest(chunk);
    }

    lemma AtRest(chunk: Chunk)
      requires 1 <= bias < npages && RestOk(chunks, runsAvail) && forall e <- runsAvail :: e.chunk in chunks
      requires chunk !in chunks && spare == chunk && Unlisted(chunk)
      requires ndirty == DirtyPages(chunks) && nactive == ActivePages(chunks)
      ensures Valid()
    {
    }

    // -------------------------------------------------------------- trimming and growing

    /** After a change of one chunk that leaves the run q allocated. */
    lemma Settled(avail: set<Slot>, chunk: Chunk, q: nat)
      requires chunk in chunks && InOrder(chunk) && q in chunk.runs && !chunk.runs[q].Free?
      requires 1 <= bias < npages && spare != chunk && RestOk(chunks - {chunk}, avail)
      requires Elsewhere(avail, runsAvail, chunk) && forall e <- avail :: e.chunk in chunks
      requires spare != null ==> spare !in chunks && Unlisted(spare)
      requires ndirty - chunk.counters.ndirty == DirtyPages(chunks - {chunk})
      requires nactive - chunk.active == ActivePages(chunks - {chunk})
      ensures Valid()
    {
      StillWorking(avail, chunk, chunks - {chunk});
      if Whole(chunk.runs) {
        AloneAt(chunk.runs, bias, npages);
      }
      WorkingValid(chunk);
    }

    /** arena_run_trim_head: only the last newsize pages stay allocated, as a run of their own. */
    method RunTrimHead(chunk: Chunk, p: nat, oldsize: nat, newsize: nat)
      requires Valid() && chunk in chunks && p in chunk.runs && chunk.runs[p].Large? && chunk.runs[p].pages == oldsize
      requires 0 < newsize < oldsize
      modifies this`ndirty, this`nactive, this`runsAvail, chunk
      ensures Valid() && Keeps(old(chunk.runs), chunk.runs, p)
      ensures Taken(chunk.runs, p + (oldsize - newsize), Large(newsize, old(chunk.runs)[p].dirty))
      ensures p + (oldsize - newsize) !in old(chunk.runs)
      ensures var d, k := old(chunk.runs)[p].dirty, oldsize - newsize;
        Returned(Cut(old(chunk.runs), p, k, Large(k, d), Large(newsize, d)), p, d, chunk.runs)
      ensures nactive == old(nactive) - (oldsize - newsize)
    {
      ghost var avail := runsAvail;
      ValidWorking(chunk);
      TrimHead(chunk, p, oldsize, newsize);
      assert Taken(chunk.runs, p + (oldsize - newsize), Large(newsize, old(chunk.runs)[p].dirty));
      Settled(avail, chunk, p + (oldsize - newsize));
    }

    /** arena_run_trim_tail: only the first newsize pages stay allocated. */
    method RunTrimTail(chunk: Chunk, p: nat, oldsize: nat, newsize: nat, dirty: bool)
      requires Valid() && chunk in chunks && p in chunk.runs && chunk.runs[p].Large? && chunk.runs[p].pages == oldsize
      requires 0 < newsize < oldsize
      modifies this`ndirty, this`nactive, this`runsAvail, chunk
      ensures Valid() && Keeps(old(chunk.runs), chunk.runs, p)
      ensures p in chunk.runs && chunk.runs[p] == Large(newsize, old(chunk.runs)[p].dirty)
      ensures var d, k := old(chunk.runs)[p].dirty, oldsize - newsize;
        Returned(Cut(old(chunk.runs), p, newsize, Large(newsize, d), Large(k, d)), p + newsize, dirty || d, chunk.runs)
      ensures nactive == old(nactive) - (oldsize - newsize)
    {
      ghost var avail := runsAvail;
      ValidWorking(chunk);
      TrimTail(chunk, p, oldsize, newsize, dirty);
      Settled(avail, chunk, p);
    }

    /** arena_ralloc_large_grow */
    method LargeGrow(chunk: Chunk, p: nat, oldsize: nat, size: nat, extra: nat) returns (failed: bool)
      requires Valid() && chunk in chunks && p in chunk.runs && chunk.runs[p].Large? && chunk.runs[p].pages == oldsize
      requires size + extra > oldsize
      modifies this`ndirty, this`nactive, this`runsAvail, chunk
      ensures Valid()
      ensures failed <==> !CanGrow(old(chunk.runs), p, oldsize, size)
      ensures failed ==> chunk.runs == old(chunk.runs) && nactive == old(nactive)
      ensures !failed ==>
        var k := GrowBy(old(chunk.runs), p, size + extra);
        k > 0 && chunk.runs == Grown(old(chunk.runs), p, k) && nactive == old(nactive) + k
      ensures !failed ==> Keeps(old(chunk.runs), chunk.runs, p)
    {
      ghost var avail := runsAvail;
      ValidWorking(chunk);
      failed := Grow(chunk, p, oldsize, size, extra);
      Settled(avail, chunk, p);
    }

    /** arena_ralloc_large, with size and extra in bytes: the run is resized in place to between
        `size` and `size + extra`, as large as there is room for; it fails where LargeGrow does. */
    method RallocLarge(chunk: Chunk, p: nat, size: nat, extra: nat) returns (failed: bool)
      requires Valid() && chunk in chunks && p in chunk.runs && chunk.runs[p].Large? && size + extra > 0
      modifies this`ndirty, this`nactive, this`runsAvail, chunk
      ensures Valid()
      ensures failed <==> ResizeFails(old(chunk.runs), p, size, extra)
      ensures failed ==> chunk.runs == old(chunk.runs) && nactive == old(nactive)
      ensures Keeps(old(chunk.runs), chunk.runs, p)
      ensures LargeAt(chunk.runs, p, ResizedTo(old(chunk.runs), p, size, extra))
      ensures !failed ==> Pages(size) <= chunk.runs[p].pages <= Pages(size + extra)
      ensures nactive == old(nactive) - old(chunk.runs)[p].pages + chunk.runs[p].pages
    {
      AllocatedTag(chunk, p);
      var oldsize := chunk.pages[p].size;
      var psize := Pages(size + extra);
      if psize == oldsize {
        failed := false;
      } else if psize < oldsize {
        RunTrimTail(chunk, p, oldsize, psize, true);
        failed := false;
      } else {
        failed := LargeGrow(chunk, p, oldsize, Pages(size), psize - Pages(size));
      }
    }

    /** The entries of a small run become those of a large run. */
    method SmallToLarge(chunk: Chunk, p: nat, n: nat)
      requires Valid() && chunk in chunks && p in chunk.runs && chunk.runs[p].Small? && chunk.runs[p].pages == n
      requires n >= 2 && !chunk.runs[p].dirty
      modifies chunk`pages, chunk`runs
      ensures Valid() && chunk.runs == old(chunk.runs)[p := Large(n, false)]
    {
      ghost var rs: Runs, avail := chunk.runs, runsAvail;
      ghost var r := Large(n, false);
      ValidWorking(chunk);
      Retagged(chunk.pages, rs, bias, p, n);
      ListedQuiet(runsAvail, chunk, rs, rs[p := r]);
      chunk.pages := JoinTags(chunk.pages, p, n, false);
      chunk.runs := rs[p := r];
      Settled(avail, chunk, p);
    }

    /** The exact condition of arena_ralloc_large_grow at an input: two pages of bytes and two more, for
        a run of three pages with free pages behind it.  The room for four is there, and the call fails. */
    method RallocWraps(chunk: Chunk, p: nat) returns (failed: bool)
      requires Valid() && chunk in chunks && LargeAt(chunk.runs, p, 3)
      requires FreeAt(chunk.runs, p + 3) && Pages(2 * 4096 + 2 * 4096) <= 3 + chunk.runs[p + 3].pages
      modifies this`ndirty, this`nactive, this`runsAvail, chunk
      ensures Valid() && failed && chunk.runs == old(chunk.runs)
    {
      failed := RallocLarge(chunk, p, 2 * 4096, 2 * 4096);
    }

    lemma AllocatedTag(chunk: Chunk, p: nat)
      requires Valid() && chunk in chunks && p in chunk.runs && !chunk.runs[p].Free?
      ensures p < |chunk.pages| && chunk.pages[p].dirty == chunk.runs[p].dirty
      ensures chunk.runs[p].Large? ==> chunk.pages[p].size == chunk.runs[p].pages
      ensures p + chunk.runs[p].pages <= npages
    {
      ValidWorking(chunk);
      assert Within(chunk.runs, bias, npages, p);
      TagOf(chunk.pages, chunk.runs, bias, p);
    }

    // -------------------------------------------------------------- allocating runs

    /** An arena without chunks. */
    constructor (bias: nat, npages: nat)
      requires 1 <= bias < npages
      ensures Valid() && this.bias == bias && this.npages == npages && chunks == {} && spare == null
      ensures runsAvail == {} && nactive == 0 && ndirty == 0
    {
      this.bias, this.npages := bias, npages;
      runsAvail := {};
      spare := null;
      nactive, ndirty := 0, 0;
      chunks := {};
      new;
      assert DirtyMap({}) == map[] && ActiveMap({}) == map[];
    }

    /** The free run that arena_avail_tree_nsearch finds: the smallest that fits, the lowest of these. */
    method BestFit(need: nat) returns (slot: Option<Slot>)
      ensures slot.None? <==> forall e <- runsAvail :: e.pages < need
      ensures slot.Some? ==> IsBest(slot.value, runsAvail, need)
    {
      if e :| e in runsAvail && e.pages >= need {
        ghost var best := MinSlot(runsAvail, need, e);
        var found :| found in runsAvail && found.pages >= need
          && forall f <- runsAvail :: f.pages >= need ==> !Less(f, found);
        slot := Some(found);
      } else {
        slot := None;
      }
    }

    /** The end of arena_chunk_alloc: the one free run of the chunk goes into runs_avail. */
    method Enlist(chunk: Chunk)
      requires 1 <= bias < npages && Unlisted(chunk) && Unknown(chunk, runsAvail)
      modifies this`ndirty, this`runsAvail, chunk`counters, chunk`runs, chunk`active, chunk`inDirty
      ensures InOrder(chunk) && chunk.runs == old(chunk.runs) && chunk.active == 0
      ensures Elsewhere(old(runsAvail), runsAvail, chunk)
      ensures ndirty - chunk.counters.ndirty == old(ndirty)
    {
      ghost var rs: Runs, n: nat := chunk.runs, npages - bias;
      ghost var taken: Runs := rs[bias := Large(n, rs[bias].dirty)];
      WholeSound(rs, bias, npages);
      WholeSound(taken, bias, npages);
      TakenCounts(taken, bias, chunk.counters, n);
      ListedNone(runsAvail, chunk, taken);
      ListedFree(runsAvail, chunk, taken, bias, rs[bias]);
      assert MarkedRun(chunk.pages, rs, bias);
      assert taken[bias := rs[bias]] == rs;
      chunk.runs := taken;
      chunk.active := n;
      AvailInsert(chunk, bias, npages - bias, false, false, rs[bias]);
    }

    /** The part of arena_chunk_alloc for a new chunk: one maximal free run, not dirty. */
    method Initialize(chunk: Chunk, zero: bool)
      requires 1 <= bias < npages && |chunk.pages| == npages
      modifies chunk
      ensures Unlisted(chunk) && chunk.runs == map[bias := Free(npages - bias, false)]
    {
      chunk.counters, chunk.inDirty := Tally(0, 0, 0), false;
      chunk.runs := map[bias := Free(npages - bias, false)];
      chunk.pages := FreshPages(chunk.pages, bias, zero);
      OneMarked(chunk.pages, chunk.runs, bias);
    }

    /** arena_chunk_alloc: the spare if there is one, else the memory that chunk_alloc returns, which
        may be none. */
    method ChunkAlloc(memory: Chunk?, zero: bool) returns (chunk: Chunk?)
      requires 1 <= bias < npages
      requires spare != null ==> Unlisted(spare) && Unknown(spare, runsAvail)
      requires memory != null ==> |memory.pages| == npages && Unknown(memory, runsAvail)
      modifies this`ndirty, this`runsAvail, this`spare, spare, memory
      ensures chunk == (if old(spare) != null then old(spare) else memory) && spare == null
      ensures memory != null && chunk != memory ==> unchanged(memory)
      ensures chunk == null ==> ndirty == old(ndirty) && runsAvail == old(runsAvail)
      ensures chunk != null ==> InOrder(chunk) && chunk.active == 0 && ndirty - chunk.counters.ndirty == old(ndirty)
      ensures chunk != null ==> Elsewhere(old(runsAvail), runsAvail, chunk)
      ensures chunk != null && old(spare) != null ==> chunk.runs == old(chunk.runs)
      ensures chunk != null && old(spare) == null ==> chunk.runs == map[bias := Free(npages - bias, false)]
    {
      if spare != null {
        chunk := spare;
        spare := null;
      } else {
        chunk := memory;
        if chunk == null {
          return;
        }
        Initialize(chunk, zero);
      }
      Enlist(chunk);
    }

    /** arena_run_split in a chunk at work. */
    method SplitAtWork(chunk: Chunk, p: nat, need: nat, large: bool, binind: nat, ghost rest: set<Chunk>)
      requires Working(chunk, rest) && InOrder(chunk) && FreeAt(chunk.runs, p) && 0 < need <= chunk.runs[p].pages
      modifies this`ndirty, this`nactive, this`runsAvail, chunk
      ensures Working(chunk, rest) && InOrder(chunk) && !Whole(chunk.runs)
      ensures Undisturbed(old(chunk.runs), chunk.runs, p)
      ensures chunk.runs
        == SplitRuns(old(chunk.runs), p, need, Allocated(need, old(chunk.runs)[p].dirty, large, binind))
      ensures nactive == old(nactive) + need
    {
      ghost var avail := runsAvail;
      Split(chunk, p, need, large, binind);
      StillWorking(avail, chunk, rest);
      assert p in chunk.runs && !chunk.runs[p].Free?;
      if Whole(chunk.runs) {
        AloneAt(chunk.runs, bias, npages);
      }
    }

    /** arena_run_split in an arena at rest. */
    method SplitAtRest(chunk: Chunk, p: nat, need: nat, large: bool, binind: nat)
      requires Valid() && chunk in chunks && FreeAt(chunk.runs, p) && 0 < need <= chunk.runs[p].pages
      modifies this`ndirty, this`nactive, this`runsAvail, chunk
      ensures Valid() && nactive == old(nactive) + need
      ensures Undisturbed(old(chunk.runs), chunk.runs, p)
      ensures chunk.runs
        == SplitRuns(old(chunk.runs), p, need, Allocated(need, old(chunk.runs)[p].dirty, large, binind))
    {
      ghost var rest := chunks - {chunk};
      ValidWorking(chunk);
      SplitAtWork(chunk, p, need, large, binind, rest);
      WorkingValid(chunk);
    }

    /** A listed slot is a free run of a chunk in use. */
    lemma SlotIs(e: Slot)
      requires Valid() && e in runsAvail
      ensures e.chunk in chunks && FreeAt(e.chunk.runs, e.pageind) && e.chunk.runs[e.pageind].pages == e.pages
    {
      ValidWorking(e.chunk);
      assert e == Slot(e.pages, e.chunk, e.pageind);
    }

    /** The chunk at work joins those in use. */
    method Admit(chunk: Chunk)
      requires Working(chunk, chunks) && InOrder(chunk) && !Whole(chunk.runs)
      modifies this`chunks
      ensures Valid() && chunks == old(chunks) + {chunk}
    {
      ghost var rest := chunks;
      chunks := chunks + {chunk};
      assert chunks - {chunk} == rest;
      WorkingValid(chunk);
    }

    /** arena_run_alloc_helper */
    method AllocHelper(need: nat, large: bool, binind: nat) returns (chunk: Chunk?, p: nat)
      requires Valid() && need > 0
      modifies this`ndirty, this`nactive, this`runsAvail, chunks
      ensures Valid()
      ensures chunk == null <==> !Fits(old(runsAvail), need)
      ensures chunk == null ==> runsAvail == old(runsAvail) && nactive == old(nactive) && ndirty == old(ndirty)
      ensures forall ch <- chunks :: ch != chunk ==> unchanged(ch)
      ensures chunk != null ==>
        && chunk in chunks && FreeAt(old(chunk.runs), p) && Undisturbed(old(chunk.runs), chunk.runs, p)
        && IsBest(Slot(old(chunk.runs)[p].pages, chunk, p), old(runsAvail), need)
        && chunk.runs == SplitRuns(old(chunk.runs), p, need, Allocated(need, old(chunk.runs)[p].dirty, large, binind))
        && nactive == old(nactive) + need
    {
      var slot := BestFit(need);
      match slot
      case None =>
        chunk, p := null, 0;
      case Some(e) =>
        SlotIs(e);
        chunk, p := e.chunk, e.pageind;
        SplitAtRest(chunk, p, need, large, binind);
    }

    /** arena_run_alloc: the first `need` pages of the lowest best fit, else of the spare or of a new
        chunk.  Nothing else changes. */
    method RunAlloc(need: nat, large: bool, binind: nat, memory: Chunk?, zero: bool) returns (chunk: Chunk?, p: nat)
      requires Valid() && 0 < need <= npages - bias
      requires memory != null ==> memory !in chunks && memory != spare && |memory.pages| == npages
      modifies this, chunks, spare, memory
      ensures Valid() && forall ch <- old(chunks) :: ch != chunk ==> unchanged(ch)
      ensures memory != null && chunk != memory ==> unchanged(memory)
      ensures chunk == null <==> !Fits(old(runsAvail), need) && old(spare) == null && memory == null
      ensures chunk == null ==> chunks == old(chunks) && runsAvail == old(runsAvail) && nactive == old(nactive)
      ensures chunk == null ==> spare == null
      ensures chunk != null ==> chunk in chunks && nactive == old(nactive) + need
      ensures chunk != null ==> exists dirty :: Taken(chunk.runs, p, Allocated(need, dirty, large, binind))
      ensures chunk != null && Fits(old(runsAvail), need) ==>
        && chunks == old(chunks) && spare == old(spare)
        && FreeAt(old(chunk.runs), p) && Undisturbed(old(chunk.runs), chunk.runs, p)
        && IsBest(Slot(old(chunk.runs)[p].pages, chunk, p), old(runsAvail), need)
        && chunk.runs == SplitRuns(old(chunk.runs), p, need, Allocated(need, old(chunk.runs)[p].dirty, large, binind))
      ensures chunk != null && !Fits(old(runsAvail), need) ==>
        && chunk == (if old(spare) != null then old(spare) else memory)
        && chunks == old(chunks) + {chunk} && chunk !in old(chunks) && spare == null && p == bias
    {
      chunk, p := AllocHelper(need, large, binind);
      if chunk != null {
        assert Taken(chunk.runs, p, Allocated(need, old(chunk.runs)[p].dirty, large, binind));
        return;
      }
      chunk, p := AllocInNew(need, large, binind, memory, zero);
      if chunk == null {
        chunk, p := AllocHelper(need, large, binind);
      }
    }

    /** The first pages of a new chunk are allocated. */
    method UseNew(chunk: Chunk, need: nat, large: bool, binind: nat)
      requires Working(chunk, chunks) && InOrder(chunk) && Whole(chunk.runs) && 0 < need <= npages - bias
      modifies this`ndirty, this`nactive, this`runsAvail, this`chunks, chunk
      ensures Valid() && chunks == old(chunks) + {chunk} && nactive == old(nactive) + need
      ensures exists dirty :: Taken(chunk.runs, bias, Allocated(need, dirty, large, binind))
    {
      ghost var dirty := chunk.runs[bias].dirty;
      SplitAtWork(chunk, bias, need, large, binind, chunks);
      assert Taken(chunk.runs, bias, Allocated(need, dirty, large, binind));
      Admit(chunk);
    }

    /** The allocation from a chunk that arena_chunk_alloc returns. */
    method AllocInNew(need: nat, large: bool, binind: nat, memory: Chunk?, zero: bool) returns (chunk: Chunk?, p: nat)
      requires Valid() && 0 < need <= npages - bias
      requires memory != null ==> memory !in chunks && memory != spare && |memory.pages| == npages
      modifies this, spare, memory
      ensures Valid() && spare == null && p == bias
      ensures chunk == (if old(spare) != null then old(spare) else memory)
      ensures memory != null && chunk != memory ==> unchanged(memory)
      ensures chunk == null ==> chunks == old(chunks) && runsAvail == old(runsAvail) && nactive == old(nactive)
      ensures chunk != null ==> chunks == old(chunks) + {chunk} && nactive == old(nactive) + need
      ensures chunk != null ==> exists dirty :: Taken(chunk.runs, p, Allocated(need, dirty, large, binind))
    {
      ghost var avail, others := runsAvail, chunks;
      chunk := ChunkAlloc(memory, zero);
      p := bias;
      if chunk != null {
        StillWorking(avail, chunk, others);
        UseNew(chunk, need, large, binind);
      }
    }

    // -------------------------------------------------------------- large objects

    /** arena_malloc_large, with the size in bytes: a large run of as many pages as the size needs. */
    method MallocLarge(size: nat, memory: Chunk?, zero: bool) returns (chunk: Chunk?, p: nat)
      requires Valid() && 0 < Pages(size) <= npages - bias
      requires memory != null ==> memory !in chunks && memory != spare && |memory.pages| == npages
      modifies this, chunks, spare, memory
      ensures Valid() && forall ch <- old(chunks) :: ch != chunk ==> unchanged(ch)
      ensures memory != null && chunk != memory ==> unchanged(memory)
      ensures chunk == null <==> !Fits(old(runsAvail), Pages(size)) && old(spare) == null && memory == null
      ensures chunk == null ==> chunks == old(chunks) && runsAvail == old(runsAvail) && nactive == old(nactive)
      ensures chunk != null ==> chunk in chunks && LargeAt(chunk.runs, p, Pages(size))
      ensures chunk != null ==>
        && chunks == old(chunks) + {chunk}
        && (chunk in old(chunks) || chunk == if old(spare) != null then old(spare) else memory)
      ensures if chunk == null || chunk in old(chunks) then spare == old(spare) else spare == null
      ensures chunk != null ==> nactive == old(nactive) + Pages(size)
      ensures chunk != null && chunk in old(chunks) ==> Undisturbed(old(chunk.runs), chunk.runs, p)
    {
      chunk, p := RunAlloc(Pages(size), true, BININD_INVALID, memory, zero);
    }

    /** arena_palloc, sizes in pages: a run that is larger by alignment - 1 is allocated and trimmed at
        both ends to `size` pages at an aligned address. */
    method Palloc(size: nat, alignment: nat, memory: Chunk?, zero: bool) returns (chunk: Chunk?, p: nat)
      requires Valid() && size > 0 && alignment > 0 && size + alignment - 1 <= npages - bias
      requires memory != null ==> memory !in chunks && memory != spare && |memory.pages| == npages
      modifies this, chunks, spare, memory
      ensures Valid() && forall ch <- old(chunks) :: ch != chunk ==> unchanged(ch)
      ensures memory != null && chunk != memory ==> unchanged(memory)
      ensures chunk == null <==> !Fits(old(runsAvail), size + alignment - 1) && old(spare) == null && memory == null
      ensures chunk == null ==> chunks == old(chunks) && runsAvail == old(runsAvail) && nactive == old(nactive)
      ensures chunk != null ==> chunk in chunks && LargeAt(chunk.runs, p, size) && Aligned(chunk.addr + p, alignment)
      ensures chunk != null ==>
        && chunks == old(chunks) + {chunk}
        && (chunk in old(chunks) || chunk == if old(spare) != null then old(spare) else memory)
      ensures if chunk == null || chunk in old(chunks) then spare == old(spare) else spare == null
      ensures chunk != null ==> nactive == old(nactive) + size
      ensures chunk != null && chunk in old(chunks) ==> Undisturbed(old(chunk.runs), chunk.runs, p)
    {
      var allocSize := size + alignment - 1;
      chunk, p := RunAlloc(allocSize, true, BININD_INVALID, memory, zero);
      if chunk != null {
        ghost var run, rs := p, chunk.runs;
        p := TrimTo(chunk, p, allocSize, size, alignment);
        if chunk in old(chunks) {
          UndisturbedTrim(old(chunk.runs), rs, chunk.runs, run, p);
        }
      }
    }

    /** The lead and the trail of an aligned allocation are given back. */
    method TrimTo(chunk: Chunk, run: nat, allocSize: nat, size: nat, alignment: nat) returns (p: nat)
      requires Valid() && chunk in chunks && LargeAt(chunk.runs, run, allocSize)
      requires size > 0 && alignment > 0 && allocSize == size + alignment - 1
      modifies this`ndirty, this`nactive, this`runsAvail, chunk
      ensures Valid() && LargeAt(chunk.runs, p, size) && Aligned(chunk.addr + p, alignment)
      ensures Keeps(old(chunk.runs), chunk.runs, run) && (p == run || p !in old(chunk.runs))
      ensures nactive == old(nactive) - allocSize + size
    {
      var aligned := Ceiling(chunk.addr + run, alignment);
      var leadsize := aligned - (chunk.addr + run);
      var trailsize := allocSize - leadsize - size;
      p := run + leadsize;
      if leadsize != 0 {
        RunTrimHead(chunk, run, allocSize, allocSize - leadsize);
      }
      if trailsize != 0 {
        RunTrimTail(chunk, p, size + trailsize, size, false);
      }
    }

    /** arena_dalloc_large */
    method DallocLarge(chunk: Chunk, p: nat) returns (p': nat, n': nat)
      requires Valid() && chunk in chunks && p in chunk.runs && chunk.runs[p].Large?
      modifies this, chunk
      ensures Valid() && Keeps(old(chunk.runs), chunk.runs, p)
      ensures var n := old(chunk.runs)[p].pages;
        Freed(old(chunk.runs)[p := Large(n, true)], p, n, true, chunk.runs, p', n') && nactive == old(nactive) - n
      ensures p in chunk.runs ==> chunk.runs[p].Free?
      ensures if Whole(chunk.runs) then chunks == old(chunks) - {chunk} && spare == chunk
              else chunks == old(chunks) && spare == old(spare)
    {
      p', n' := RunDalloc(chunk, p, true, false, 0);
    }
  }
}
