/** The bins of an arena (deps/jemalloc/src/arena.c): small regions, handed out from the lowest run of
    the bin that has a free one. */
module ArenaBins {
  import opened ArenaRuns
  import opened ArenaNeighbours
  import opened ArenaChunks
  import opened ArenaSurvival
  import opened ArenaRegions
  import opened Options
  import A = Arena

  /** A region in use: its run and its index. */
  type Region = (SmallRun, nat)

  /** A small run of the size class of the bin. */
  ghost predicate SmallAt(rs: Runs, p: nat, info: Info) {
    p in rs && rs[p].Small? && rs[p].pages == info.pages && rs[p].binind == info.binind
  }

  /** Every run of the bin is a run of the arena. */
  ghost predicate Housed(all: set<SmallRun>, chunks: set<Chunk>, info: Info)
    reads chunks
  {
    forall r {:trigger r in all} :: r in all ==> r.chunk in chunks && SmallAt(r.chunk.runs, r.page, info)
  }

  ghost predicate SameAddress(r: SmallRun, s: SmallRun) {
    Address(r) == Address(s)
  }

  /** No two runs begin at the same address. */
  ghost predicate Distinct(all: set<SmallRun>) {
    forall r, s {:trigger SameAddress(r, s)} :: r in all && s in all && SameAddress(r, s) ==> r == s
  }

  /** Every run is in order and in use. */
  ghost predicate InUse(all: set<SmallRun>, nregs: nat)
    reads all
  {
    forall r {:trigger r in all} :: r in all ==> r.Ok(nregs) && r.nfree < nregs
  }

  /** The index holds exactly the runs with free regions, except runcur. */
  ghost predicate Indexed(all: set<SmallRun>, runs: set<SmallRun>, runcur: SmallRun?)
    reads all
  {
    && runs <= all
    && forall r {:trigger r in runs} {:trigger r in all} :: r in all ==> (r in runs <==> r.nfree > 0 && r != runcur)
  }

  ghost predicate Below(runcur: SmallRun?, runs: set<SmallRun>) {
    runcur != null ==> forall r <- runs :: Address(runcur) < Address(r)
  }

  /** The regions in use. */
  ghost function Live(all: set<SmallRun>): set<Region>
    reads all
  {
    set r, i: nat | r in all && i < |r.free| && !r.free[i] :: (r, i)
  }

  /** The region has come into use, and the regions before it in its run are all in use. */
  ghost predicate Gained(live: set<Region>, live': set<Region>, region: Region) {
    && region !in live && live' == live + {region}
    && forall j: nat :: j < region.1 ==> (region.0, j) in live
  }

  /** The runs with free regions. */
  ghost function Open(all: set<SmallRun>): set<SmallRun>
    reads all
  {
    set r | r in all && r.nfree > 0
  }

  /** The run is the lowest of those. */
  ghost predicate Lowest(run: SmallRun, open: set<SmallRun>) {
    run in open && forall r {:trigger r in open} :: r in open ==> Address(run) <= Address(r)
  }

  /** A bin as a value: its regions in use, the number of its runs, and those with free regions. */
  datatype BinState = BinState(live: set<Region>, runs: nat, open: set<SmallRun>)

  ghost function StateOf(all: set<SmallRun>): BinState
    reads all
  {
    BinState(Live(all), |all|, Open(all))
  }

  /** The chunk that a region lies in. */
  function Source(region: Option<Region>): Chunk? {
    if region.Some? then region.value.0.chunk else null
  }

  /** The pages in use have changed as the runs of the bin have: by one run, or not at all. */
  ghost predicate Booked(runs: int, nactive: int, runs': int, nactive': int, pages: nat) {
    || (runs' == runs && nactive' == nactive)
    || (runs' == runs + 1 && nactive' == nactive + pages)
    || (runs' == runs - 1 && nactive' == nactive - pages)
  }

  /** The runs of a bin were in the arena. */
  ghost predicate WereHoused(all: set<SmallRun>, was: map<Chunk, Runs>, info: Info) {
    forall r {:trigger r in all} :: r in all ==> r.chunk in was && SmallAt(was[r.chunk], r.page, info)
  }

  lemma HousedBefore(all: set<SmallRun>, arena: A.Arena, info: Info)
    requires Housed(all, arena.chunks, info)
    ensures WereHoused(all, Snapshot(arena), info)
  {
  }

  /** So the runs of a bin, none of which is the exception, are still in the arena. */
  lemma HousedAfter(all: set<SmallRun>, was: map<Chunk, Runs>, arena: A.Arena, but: Chunk?, p: nat, info: Info)
    requires WereHoused(all, was, info) && Survive(was, Snapshot(arena), but, p)
    requires forall r <- all :: r.chunk != but || r.page != p
    ensures Housed(all, arena.chunks, info)
  {
    forall r | r in all ensures r.chunk in arena.chunks && SmallAt(r.chunk.runs, r.page, info) {
      Survives(was, Snapshot(arena), but, p, r.chunk, r.page);
    }
  }

  lemma {:induction false} LowestOf(runs: set<SmallRun>) returns (run: SmallRun)
    requires runs != {}
    ensures run in runs && forall r <- runs :: Address(run) <= Address(r)
    decreases |runs|
  {
    run :| run in runs;
    if runs != {run} {
      var other := LowestOf(runs - {run});
      assert forall r <- runs :: r == run || r in runs - {run};
      run := if Address(other) < Address(run) then other else run;
    } else {
      assert forall r <- runs :: r == run;
    }
  }

  /** The run is no longer used, and every other run of the arena is as it was. */
  ghost predicate GivenBack(was: map<Chunk, Runs>, now: map<Chunk, Runs>, before: Holdings, after: Holdings,
      run: SmallRun)
  {
    Survive(was, now, run.chunk, run.page) && Exchange(before, after, null) && !WasUsed(now, run.chunk, run.page)
  }

  class Bin {
    const arena: A.Arena
    const info: Info
    var runcur: SmallRun?
    var runs: set<SmallRun>
    /** The runs of the bin, full or not. */
    ghost var all: set<SmallRun>
    /** Whether no thread has put a new run into runcur although the index held a lower one. */
    ghost var sorted: bool

    /** The index is right. */
    ghost predicate Filed()
      reads this, all
    {
      InUse(all, info.nregs) && Distinct(all) && Indexed(all, runs, runcur) && (runcur != null ==> runcur in all)
    }

    /** And runcur is below it, as long as no other thread interferes. */
    ghost predicate Ordered()
      reads this, all
    {
      Filed() && (sorted ==> Below(runcur, runs))
    }

    /** runcur can serve a region. */
    ghost predicate Ready()
      reads this`runcur, runcur
    {
      runcur != null && runcur.nfree > 0
    }

    /** A run that has been allocated for the bin and is not in it yet. */
    ghost predicate Spare(run: SmallRun)
      reads this`all, run, arena, arena.chunks
    {
      && run !in all && run.Ok(info.nregs) && run.nfree == info.nregs && Unused(run.free)
      && Housed({run}, arena.chunks, info) && forall r <- all :: !SameAddress(r, run)
    }

    /** The runs of the bin are small runs of the arena. */
    ghost predicate Settled()
      reads this`all, arena, Memory(arena)
    {
      && Layout(info) && info.pages <= arena.npages - arena.bias
      && Sound(arena) && Housed(all, arena.chunks, info)
    }

    ghost predicate Valid()
      reads this, all, arena, Memory(arena)
    {
      Settled() && Ordered()
    }

    // -------------------------------------------------------------- taking a region

    /** A region of runcur. */
    method TakeRegion() returns (regind: nat)
      requires Ordered() && runcur != null && runcur.nfree > 0
      modifies runcur
      ensures Ordered() && regind < info.nregs
      ensures Gained(old(Live(all)), Live(all), (runcur, regind))
    {
      regind := runcur.RegAlloc(info.nregs);
    }

    /** arena_bin_nonfull_run_tryget, and the run becomes runcur. */
    method UseLowest()
      requires Ordered() && runs != {} && !Ready()
      modifies this`runcur, this`runs
      ensures Ordered() && runcur != null && runcur.nfree > 0 && Lowest(runcur, Open(all))
    {
      ghost var low := LowestOf(runs);
      var run :| run in runs && forall r <- runs :: Address(run) <= Address(r);
      forall r | r in runs - {run} ensures Address(run) < Address(r) {
        assert SameAddress(run, r) ==> r == run;
      }
      runs := runs - {run};
      runcur := run;
    }

    /** A new run with one region in use becomes runcur, even if the index holds a lower one. */
    method UseNew(run: SmallRun, ghost regind: nat)
      requires Ordered() && !Ready() && run !in all && regind < info.nregs
      requires run.Ok(info.nregs) && run.nfree < info.nregs && !run.free[regind]
      requires forall i :: 0 <= i < info.nregs && i != regind ==> run.free[i]
      requires forall r <- all :: !SameAddress(r, run)
      modifies this`runcur, this`all, this`sorted
      ensures Ordered() && all == old(all) + {run} && runcur == run && sorted == (old(sorted) && Below(run, runs))
      ensures regind == 0 ==> Gained(old(Live(all)), Live(all), (run, regind))
    {
      runcur := run;
      all := all + {run};
      sorted := sorted && Below(run, runs);
      forall r, s {:trigger SameAddress(r, s)} | r in all && s in all && SameAddress(r, s) ensures r == s {
        assert SameAddress(s, r);
      }
    }

    /** arena_run_alloc for a run of the bin. */
    method FindPlace(memory: Chunk?, zero: bool) returns (chunk: Chunk?, p: nat)
      requires Settled() && New(arena, memory)
      modifies arena, arena.chunks, arena.spare, memory
      ensures Survive(old(Snapshot(arena)), Snapshot(arena), null, 0)
      ensures Exchange(old(HoldingsOf(arena)), HoldingsOf(arena), From(chunk, memory))
      ensures Sized(memory, arena.npages) && Sized(old(arena.spare), arena.npages)
      ensures arena.nactive == old(arena.nactive) + if chunk == null then 0 else info.pages
      ensures Settled()
      ensures chunk == null <==> memory == null && !old(HasRoom(arena, info.pages))
      ensures chunk != null ==> chunk in arena.chunks && SmallAt(chunk.runs, p, info)
      ensures chunk != null ==> forall r <- all :: r.chunk != chunk || r.page != p
    {
      ghost var was := Snapshot(arena);
      HousedBefore(all, arena, info);
      chunk, p := AllocSmallRun(arena, info.pages, info.binind, memory, zero);
      HousedAfter(all, was, arena, null, 0, info);
      forall r | r in all ensures r.chunk != chunk || r.page != p {
        assert WasUsed(was, r.chunk, r.page);
      }
    }

    /** Nothing changes for the runs of the bin. */
    method PlaceRun(memory: Chunk?, zero: bool) returns (chunk: Chunk?, p: nat)
      requires Valid() && New(arena, memory)
      modifies arena, arena.chunks, arena.spare, memory
      ensures Survive(old(Snapshot(arena)), Snapshot(arena), null, 0)
      ensures Exchange(old(HoldingsOf(arena)), HoldingsOf(arena), From(chunk, memory))
      ensures Sized(memory, arena.npages) && Sized(old(arena.spare), arena.npages)
      ensures arena.nactive == old(arena.nactive) + if chunk == null then 0 else info.pages
      ensures Valid() && Live(all) == old(Live(all))
      ensures chunk == null <==> memory == null && !old(HasRoom(arena, info.pages))
      ensures chunk != null ==> chunk in arena.chunks && SmallAt(chunk.runs, p, info)
      ensures chunk != null ==> forall r <- all :: r.chunk != chunk || r.page != p
    {
      chunk, p := FindPlace(memory, zero);
    }

    lemma Elsewhere(chunk: Chunk, p: nat)
      requires Settled() && chunk in arena.chunks && SmallAt(chunk.runs, p, info)
      requires forall r <- all :: r.chunk != chunk || r.page != p
      ensures forall r <- all :: Address(r) != chunk.addr + p
    {
      SoundMeans(arena);
      arena.AllocatedTag(chunk, p);
      forall r | r in all ensures Address(r) != chunk.addr + p {
        arena.AllocatedTag(r.chunk, r.page);
        SpacedPages(Memory(arena), arena.npages, r.chunk, r.page, chunk, p);
      }
    }

    /** The part of arena_bin_nonfull_run_get that allocates a new run. */
    method AllocRun(memory: Chunk?, zero: bool) returns (run: SmallRun?)
      requires Valid() && New(arena, memory)
      modifies arena, arena.chunks, arena.spare, memory
      ensures Survive(old(Snapshot(arena)), Snapshot(arena), null, 0)
      ensures Exchange(old(HoldingsOf(arena)), HoldingsOf(arena), From(if run == null then null else run.chunk, memory))
      ensures Sized(memory, arena.npages) && Sized(old(arena.spare), arena.npages)
      ensures arena.nactive == old(arena.nactive) + if run == null then 0 else info.pages
      ensures Valid() && Live(all) == old(Live(all))
      ensures run == null <==> memory == null && !old(HasRoom(arena, info.pages))
      ensures run != null ==> fresh(run) && Spare(run)
    {
      var chunk, p := PlaceRun(memory, zero);
      if chunk == null {
        return null;
      }
      Elsewhere(chunk, p);
      run := MakeRun(chunk, p);
    }

    /** The header of the new run. */
    method MakeRun(chunk: Chunk, p: nat) returns (run: SmallRun)
      requires Valid()
      ensures Valid() && Live(all) == old(Live(all)) && fresh(run) && run !in all
      ensures run.Ok(info.nregs) && run.nfree == info.nregs && Unused(run.free) && run.chunk == chunk && run.page == p
    {
      run := new SmallRun(chunk, p, info.nregs);
    }

    /** A region of the lowest run in the index. */
    method MallocLowest() returns (region: Region)
      requires Ordered() && runs != {} && !Ready()
      modifies this`runcur, this`runs, runs
      ensures Ordered() && region.0 in all && region.1 < info.nregs
      ensures Gained(old(Live(all)), Live(all), region) && Lowest(region.0, old(Open(all)))
    {
      UseLowest();
      var regind := TakeRegion();
      return (runcur, regind);
    }

    method UseFirst(run: SmallRun)
      requires Ordered() && !Ready() && run !in all && info.nregs >= 1
      requires run.Ok(info.nregs) && run.nfree == info.nregs && Unused(run.free)
      requires forall r <- all :: !SameAddress(r, run)
      modifies this`runcur, this`all, this`sorted, run
      ensures Ordered() && all == old(all) + {run} && Gained(old(Live(all)), Live(all), (run, 0))
      ensures runcur == run && sorted == (old(sorted) && Below(run, runs))
    {
      assert run.free[0];
      var regind := run.RegAlloc(info.nregs);
      UseNew(run, regind);
    }

    /** The first region of a new run, which becomes runcur. */
    method FirstRegion(run: SmallRun)
      requires Valid() && !Ready() && Spare(run)
      modifies this`runcur, this`all, this`sorted, run
      ensures Valid() && all == old(all) + {run} && Gained(old(Live(all)), Live(all), (run, 0))
      ensures runcur == run && sorted == (old(sorted) && Below(run, runs))
      ensures Snapshot(arena) == old(Snapshot(arena)) && HoldingsOf(arena) == old(HoldingsOf(arena))
    {
      assert run in {run};
      UseFirst(run);
    }

    method MallocCurrent() returns (region: Region)
      requires Valid() && Ready()
      modifies runcur
      ensures Valid() && region.0 in all && Gained(old(Live(all)), Live(all), region)
      ensures region.0 == runcur && (sorted ==> Lowest(region.0, old(Open(all))))
      ensures Snapshot(arena) == old(Snapshot(arena)) && HoldingsOf(arena) == old(HoldingsOf(arena))
    {
      var regind := TakeRegion();
      region := (runcur, regind);
    }

    method MallocIndexed() returns (region: Region)
      requires Valid() && runs != {} && (runcur == null || runcur.nfree == 0)
      modifies this`runcur, this`runs, runs
      ensures Valid() && region.0 in all && Gained(old(Live(all)), Live(all), region)
      ensures Lowest(region.0, old(Open(all)))
      ensures Snapshot(arena) == old(Snapshot(arena)) && HoldingsOf(arena) == old(HoldingsOf(arena))
    {
      region := MallocLowest();
      assert Settled();
    }

    /** A region of a run at hand takes nothing of the memory offered. */
    lemma AtHand(memory: Chunk?)
      requires Settled() && New(arena, memory)
      ensures forall r <- all :: From(r.chunk, memory) == null
      ensures Sized(memory, arena.npages) && Sized(arena.spare, arena.npages)
    {
      SoundMeans(arena);
      NewMeans(arena, memory);
      SizedIn(arena, arena.spare);
    }

    // -------------------------------------------------------------- giving a region back

    /** A run with free regions is out of the index. */
    ghost predicate Pulled(run: SmallRun)
      reads this, all
    {
      && InUse(all, info.nregs) && Distinct(all) && run in all && run.nfree > 0 && run != runcur && run !in runs
      && Indexed(all - {run}, runs, runcur) && (runcur != null ==> runcur in all)
      && (sorted ==> Below(runcur, runs))
    }

    /** The rest of arena_dalloc_bin_locked for a run that had no free region before. */
    method LowerRun(run: SmallRun)
      requires Pulled(run)
      modifies this`runcur, this`runs
      ensures Ordered()
    {
      if runcur != null && Address(run) < Address(runcur) {
        if runcur.nfree > 0 {
          runs := runs + {runcur};
        }
        runcur := run;
      } else {
        if runcur != null {
          assert !SameAddress(runcur, run);
        }
        runs := runs + {run};
      }
    }

    /** arena_dissociate_bin_run: a run whose regions are all free again leaves the bin. */
    method Dissociate(run: SmallRun)
      requires InUse(all - {run}, info.nregs) && Distinct(all) && run in all
      requires Indexed(all - {run}, runs - {run}, runcur)
      requires run in runs <==> run != runcur && info.nregs != 1
      requires (sorted ==> Below(runcur, runs)) && (runcur != null ==> runcur in all)
      modifies this`runcur, this`runs, this`all
      ensures Ordered() && all == old(all) - {run}
    {
      if run == runcur {
        runcur := null;
      } else if info.nregs != 1 {
        runs := runs - {run};
      }
      all := all - {run};
    }

    /** The clean pages of a run that no region has touched are trimmed off. */
    method TrimClean(chunk: Chunk, page: nat, nextind: nat)
      requires arena.Valid() && Layout(info) && nextind <= info.nregs
      requires chunk in arena.chunks && SmallAt(chunk.runs, page, info)
      modifies arena`ndirty, arena`nactive, arena`runsAvail, chunk
      ensures arena.Valid() && Keeps(old(chunk.runs), chunk.runs, page)
      ensures SmallAt(chunk.runs, page, info) || (page in chunk.runs && chunk.runs[page].Large?)
      ensures arena.nactive - chunk.runs[page].pages == old(arena.nactive) - info.pages
    {
      ghost var rs: Runs := chunk.runs;
      var past := Touched(info, nextind);
      TouchedRange(info, nextind);
      arena.AllocatedTag(chunk, page);
      if !chunk.pages[page].dirty && past < info.pages {
        arena.SmallToLarge(chunk, page, info.pages);
        ghost var rs1 := chunk.runs;
        arena.RunTrimTail(chunk, page, info.pages, past, false);
        KeepsTrans(rs, rs1, chunk.runs, page);
      }
    }

    /** arena_dalloc_bin_run: the run is trimmed and freed. */
    method DallocRun(chunk: Chunk, page: nat, nextind: nat)
      requires arena.Valid() && Layout(info) && nextind <= info.nregs
      requires chunk in arena.chunks && SmallAt(chunk.runs, page, info)
      modifies arena, chunk
      ensures arena.Valid() && Keeps(old(chunk.runs), chunk.runs, page)
      ensures arena.nactive == old(arena.nactive) - info.pages && (page in chunk.runs ==> chunk.runs[page].Free?)
      ensures if arena.Whole(chunk.runs)
              then arena.chunks == old(arena.chunks) - {chunk} && arena.spare == chunk
              else arena.chunks == old(arena.chunks) && arena.spare == old(arena.spare)
    {
      ghost var rs: Runs := chunk.runs;
      TrimClean(chunk, page, nextind);
      ghost var rs1 := chunk.runs;
      var p', n' := arena.RunDalloc(chunk, page, true, false, info.pages);
      KeepsTrans(rs, rs1, chunk.runs, page);
    }

    /** The arena frees a run that has left the bin. */
    method FreeRun(chunk: Chunk, page: nat, nextind: nat)
      requires Sound(arena) && Layout(info) && nextind <= info.nregs
      requires chunk in arena.chunks && SmallAt(chunk.runs, page, info)
      modifies arena, chunk
      ensures Sound(arena) && Survive(old(Snapshot(arena)), Snapshot(arena), chunk, page)
      ensures Exchange(old(HoldingsOf(arena)), HoldingsOf(arena), null) && Sized(old(arena.spare), arena.npages)
      ensures arena.nactive == old(arena.nactive) - info.pages && Keeps(old(chunk.runs), chunk.runs, page)
      ensures !WasUsed(Snapshot(arena), chunk, page)
    {
      ghost var before := HoldingsOf(arena);
      SoundMeans(arena);
      SizedIn(arena, arena.spare);
      DallocRun(chunk, page, nextind);
      Retired(before, HoldingsOf(arena), chunk);
      SpacedAfter(before, HoldingsOf(arena), null, null, arena.npages);
    }

    /** The other runs of the bin stay. */
    method DropRun(run: SmallRun)
      requires Settled() && run.chunk in arena.chunks && SmallAt(run.chunk.runs, run.page, info)
      requires run.nextind <= info.nregs && forall r <- all :: !SameAddress(r, run)
      modifies arena, run.chunk
      ensures Settled() && Survive(old(Snapshot(arena)), Snapshot(arena), run.chunk, run.page)
      ensures Exchange(old(HoldingsOf(arena)), HoldingsOf(arena), null) && Sized(old(arena.spare), arena.npages)
      ensures arena.nactive == old(arena.nactive) - info.pages && Keeps(old(run.chunk.runs), run.chunk.runs, run.page)
      ensures !WasUsed(Snapshot(arena), run.chunk, run.page)
    {
      ghost var was := Snapshot(arena);
      HousedBefore(all, arena, info);
      forall r | r in all ensures r.chunk != run.chunk || r.page != run.page {
        assert !SameAddress(r, run);
      }
      FreeRun(run.chunk, run.page, run.nextind);
      HousedAfter(all, was, arena, run.chunk, run.page, info);
    }

    /** A region is free again; the run is not yet in the index. */
    method Return(run: SmallRun, regind: nat)
      requires Ordered() && run in all && regind < info.nregs && !run.free[regind]
      requires run.nfree + 1 < info.nregs
      modifies run
      ensures InUse(all, info.nregs) && run.nfree == old(run.nfree) + 1 && Indexed(all - {run}, runs - {run}, runcur)
      ensures run in runs <==> run.nfree > 1 && run != runcur
      ensures Live(all) == old(Live(all)) - {(run, regind)}
    {
      run.RegDalloc(regind, info.nregs);
    }

    /** The region of a run that stays in use. */
    method PutRegion(run: SmallRun, regind: nat)
      requires Ordered() && run in all && regind < info.nregs && !run.free[regind]
      requires run.nfree + 1 < info.nregs
      modifies this`runcur, this`runs, run
      ensures Ordered() && Live(all) == old(Live(all)) - {(run, regind)}
    {
      Return(run, regind);
      if run.nfree == 1 && run != runcur {
        assert runs - {run} == runs;
        LowerRun(run);
      }
    }

    /** The last region of a run: the run leaves the bin. */
    method PutLast(run: SmallRun, regind: nat)
      requires Ordered() && run in all && regind < info.nregs && !run.free[regind]
      requires run.nfree + 1 == info.nregs
      modifies this`runcur, this`runs, this`all, run
      ensures Ordered() && all == old(all) - {run} && Live(all) == old(Live(all)) - {(run, regind)}
      ensures run.nextind <= info.nregs && run.nextind == old(run.nextind)
    {
      ghost var before := run.free;
      run.RegDalloc(regind, info.nregs);
      FreeBound(run.free);
      forall i | 0 <= i < info.nregs && i != regind ensures before[i] {
        assert run.free[i];
      }
      Dissociate(run);
    }

    /** arena_dalloc_bin_locked: the region is free again; a run without regions in use goes back to the
        arena. */
    method Dalloc(run: SmallRun, regind: nat)
      requires Valid() && (run, regind) in Live(all)
      modifies this`runcur, this`runs, this`all, run, arena, run.chunk
      ensures Valid() && Live(all) == old(Live(all)) - {(run, regind)}
      ensures Survive(old(Snapshot(arena)), Snapshot(arena), run.chunk, run.page)
      ensures Exchange(old(HoldingsOf(arena)), HoldingsOf(arena), null) && Sized(old(arena.spare), arena.npages)
      ensures Booked(old(|all|), old(arena.nactive), |all|, arena.nactive, info.pages)
      ensures if old(run.nfree) + 1 == info.nregs
              then all == old(all) - {run} && arena.nactive == old(arena.nactive) - info.pages
                   && Keeps(old(run.chunk.runs), run.chunk.runs, run.page)
              else all == old(all) && arena.nactive == old(arena.nactive) && run.chunk.runs == old(run.chunk.runs)
    {
      if run.nfree + 1 == info.nregs {
        ReturnLast(run, regind);
      } else {
        AllSurvive(Snapshot(arena), HoldingsOf(arena));
        AtHand(null);
        ReturnOne(run, regind);
      }
    }

    method ReturnOne(run: SmallRun, regind: nat)
      requires Valid() && (run, regind) in Live(all) && run.nfree + 1 < info.nregs
      modifies this`runcur, this`runs, run
      ensures Valid() && Live(all) == old(Live(all)) - {(run, regind)}
    {
      PutRegion(run, regind);
    }

    method ReturnLast(run: SmallRun, regind: nat)
      requires Valid() && (run, regind) in Live(all) && run.nfree + 1 == info.nregs
      modifies this`runcur, this`runs, this`all, run, arena, run.chunk
      ensures Valid() && Live(all) == old(Live(all)) - {(run, regind)} && all == old(all) - {run}
      ensures Survive(old(Snapshot(arena)), Snapshot(arena), run.chunk, run.page)
      ensures Exchange(old(HoldingsOf(arena)), HoldingsOf(arena), null) && Sized(old(arena.spare), arena.npages)
      ensures arena.nactive == old(arena.nactive) - info.pages && Keeps(old(run.chunk.runs), run.chunk.runs, run.page)
    {
      LeaveBin(run, regind);
      DropRun(run);
    }

    /** The arena does not notice. */
    method LeaveBin(run: SmallRun, regind: nat)
      requires Valid() && (run, regind) in Live(all) && run.nfree + 1 == info.nregs
      modifies this`runcur, this`runs, this`all, run
      ensures Valid() && Live(all) == old(Live(all)) - {(run, regind)} && all == old(all) - {run}
      ensures run.chunk in arena.chunks && SmallAt(run.chunk.runs, run.page, info) && run.nextind <= info.nregs
      ensures forall r <- all :: !SameAddress(r, run)
      ensures Snapshot(arena) == old(Snapshot(arena)) && HoldingsOf(arena) == old(HoldingsOf(arena))
    {
      assert forall r <- all - {run} :: !SameAddress(r, run);
      PutLast(run, regind);
    }

    // -------------------------------------------------------------- filling runcur again

    method ClearRuncur()
      requires Valid() && !Ready()
      modifies this`runcur
      ensures Valid() && !Ready()
      ensures Snapshot(arena) == old(Snapshot(arena)) && HoldingsOf(arena) == old(HoldingsOf(arena))
    {
      runcur := null;
    }

    /** runcur serves a region while `run` is out of the index. */
    method TakePulled(run: SmallRun) returns (regind: nat)
      requires Pulled(run) && Ready()
      modifies runcur
      ensures Pulled(run) && regind < info.nregs && Gained(old(Live(all)), Live(all), (runcur, regind))
    {
      regind := runcur.RegAlloc(info.nregs);
    }

    /** Another thread has filled runcur.  It serves the region, and the run from the index goes back. */
    method TakeBeside() returns (regind: nat)
      requires Ordered() && Ready() && runs != {}
      modifies this`runcur, this`runs, runcur
      ensures Ordered() && regind < info.nregs && Gained(old(Live(all)), Live(all), (old(runcur), regind))
    {
      ghost var low := LowestOf(runs);
      var run :| run in runs && forall r <- runs :: Address(run) <= Address(r);
      runs := runs - {run};
      regind := TakePulled(run);
      LowerRun(run);
    }

    /** A new run goes back to the arena. */
    method DropSpare(run: SmallRun)
      requires Valid() && Spare(run)
      modifies arena, run.chunk
      ensures Valid() && Live(all) == old(Live(all))
      ensures GivenBack(old(Snapshot(arena)), Snapshot(arena), old(HoldingsOf(arena)), HoldingsOf(arena), run)
      ensures arena.nactive == old(arena.nactive) - info.pages
    {
      assert run in {run};
      DropRun(run);
    }

    /** Likewise, and the new run goes back to the arena. */
    method TakeInstead(run: SmallRun) returns (region: Region)
      requires Valid() && Ready() && Spare(run)
      modifies runcur, arena, run.chunk
      ensures Valid() && region.0 == runcur && Gained(old(Live(all)), Live(all), region)
      ensures GivenBack(old(Snapshot(arena)), Snapshot(arena), old(HoldingsOf(arena)), HoldingsOf(arena), run)
      ensures arena.nactive == old(arena.nactive) - info.pages
    {
      region := MallocCurrent();
      DropSpare(run);
    }

    method TakeHere() returns (region: Region)
      requires Valid() && Ready()
      modifies this`runcur, this`runs, runcur
      ensures Valid() && region.0 == old(runcur) && Gained(old(Live(all)), Live(all), region)
    {
      var current, regind := runcur, 0;
      if runs != {} {
        regind := TakeBeside();
      } else {
        regind := TakeRegion();
      }
      region := (current, regind);
    }

    /** runcur is filled with the new run, even above runs of the index, or with the lowest of these. */
    method Refill(run: SmallRun?) returns (region: Option<Region>)
      requires Valid() && !Ready() && (run != null ==> Spare(run))
      modifies this`runcur, this`runs, this`all, this`sorted, runs, run
      ensures Valid() && (region.None? <==> run == null && old(runs) == {})
      ensures region.None? ==> StateOf(all) == old(StateOf(all))
      ensures region.Some? ==> Gained(old(Live(all)), Live(all), region.value) && region.value.0 in all
      ensures all == old(all) + (if run != null then {run} else {})
      ensures run != null ==> region == Some((run, 0)) && runcur == run && runs == old(runs)
      ensures sorted == (old(sorted) && (run != null ==> Below(run, runs)))
      ensures Snapshot(arena) == old(Snapshot(arena)) && HoldingsOf(arena) == old(HoldingsOf(arena))
    {
      if run != null {
        FirstRegion(run);
        region := Some((run, 0));
      } else if runs != {} {
        var found := MallocIndexed();
        region := Some(found);
      } else {
        region := None;
      }
    }

    /** The rest of arena_bin_malloc_hard, when the lock of the bin is held again.  Meanwhile other threads
        may have done anything with bin and arena; `run` has been allocated, or null.  If runcur is ready
        again it serves the region, and the new run goes back to the arena. */
    method Resume(run: SmallRun?) returns (region: Option<Region>)
      requires Valid() && (run != null ==> Spare(run))
      modifies this`runcur, this`runs, this`all, this`sorted, all, run
      modifies arena, if run == null then {} else {run.chunk}
      ensures Valid() && (region.None? <==> !old(Ready()) && run == null && old(runs) == {})
      ensures region.None? ==> StateOf(all) == old(StateOf(all))
      ensures region.Some? ==> Gained(old(Live(all)), Live(all), region.value) && region.value.0 in all
      ensures if old(Ready()) then
                region.Some? && region.value.0 == old(runcur) && all == old(all) && sorted == old(sorted)
              else
                && all == old(all) + (if run != null then {run} else {})
                && (run != null ==> runcur == run && runs == old(runs) && region == Some((run, 0)))
                && sorted == (old(sorted) && (run != null ==> Below(run, runs)))
      ensures if old(Ready()) && run != null then
                && GivenBack(old(Snapshot(arena)), Snapshot(arena), old(HoldingsOf(arena)), HoldingsOf(arena), run)
                && arena.nactive == old(arena.nactive) - info.pages
              else Snapshot(arena) == old(Snapshot(arena)) && unchanged(arena)
    {
      if runcur == null || runcur.nfree == 0 {
        region := Refill(run);
      } else if run != null {
        var taken := TakeInstead(run);
        region := Some(taken);
      } else {
        var taken := TakeHere();
        region := Some(taken);
      }
    }

    /** A new run is allocated for the region, and no other thread is faster. */
    method MallocNew(memory: Chunk?, zero: bool) returns (region: Option<Region>)
      requires Valid() && New(arena, memory) && runs == {} && !Ready()
      modifies this`runcur, this`runs, this`all, this`sorted, arena, arena.chunks, arena.spare, memory
      ensures fresh(all - old(all)) && sorted == old(sorted)
      ensures Survive(old(Snapshot(arena)), Snapshot(arena), null, 0)
      ensures Exchange(old(HoldingsOf(arena)), HoldingsOf(arena), From(Source(region), memory))
      ensures Sized(memory, arena.npages) && Sized(old(arena.spare), arena.npages)
      ensures Booked(old(|all|), old(arena.nactive), |all|, arena.nactive, info.pages)
      ensures Valid()
      ensures region.None? <==> memory == null && !old(HasRoom(arena, info.pages))
      ensures region.None? ==> all == old(all) && StateOf(all) == old(StateOf(all))
      ensures region.Some? ==> Gained(old(Live(all)), Live(all), region.value) && region.value.0 in all
    {
      var run := AllocRun(memory, zero);
      if run == null {
        return None;
      }
      FirstRegion(run);
      return Some((run, 0));
    }

    /** arena_bin_nonfull_run_get, and a region of the run it finds. */
    method MallocNonfull(memory: Chunk?, zero: bool) returns (region: Option<Region>)
      requires Valid() && New(arena, memory) && !Ready()
      modifies this, runs, arena, arena.chunks, arena.spare, memory
      ensures fresh(all - old(all))
      ensures Survive(old(Snapshot(arena)), Snapshot(arena), null, 0)
      ensures Exchange(old(HoldingsOf(arena)), HoldingsOf(arena), From(Source(region), memory))
      ensures Sized(memory, arena.npages) && Sized(old(arena.spare), arena.npages)
      ensures Booked(old(|all|), old(arena.nactive), |all|, arena.nactive, info.pages)
      ensures Valid()
      ensures region.None? <==> memory == null && !old(HasRoom(arena, info.pages)) && old(runs) == {}
      ensures region.None? ==> all == old(all) && StateOf(all) == old(StateOf(all))
      ensures region.Some? ==> Gained(old(Live(all)), Live(all), region.value) && region.value.0 in all
      ensures sorted == old(sorted)
      ensures old(runs) != {} ==> region.Some? && all == old(all) && (sorted ==> Lowest(region.value.0, old(Open(all))))
    {
      AtHand(memory);
      if runs != {} {
        AllSurvive(Snapshot(arena), HoldingsOf(arena));
        var found := MallocIndexed();
        region := Some(found);
      } else {
        region := MallocNew(memory, zero);
      }
    }

    /** arena_bin_malloc_hard: runcur has no free region left and is filled again. */
    method MallocHard(memory: Chunk?, zero: bool) returns (region: Option<Region>)
      requires Valid() && New(arena, memory) && !Ready()
      modifies this, runs, arena, arena.chunks, arena.spare, memory
      ensures fresh(all - old(all))
      ensures Survive(old(Snapshot(arena)), Snapshot(arena), null, 0)
      ensures Exchange(old(HoldingsOf(arena)), HoldingsOf(arena), From(Source(region), memory))
      ensures Sized(memory, arena.npages) && Sized(old(arena.spare), arena.npages)
      ensures Booked(old(|all|), old(arena.nactive), |all|, arena.nactive, info.pages)
      ensures Valid()
      ensures region.None? <==> memory == null && !old(HasRoom(arena, info.pages)) && old(runs) == {}
      ensures region.None? ==> all == old(all) && StateOf(all) == old(StateOf(all))
      ensures region.Some? ==> Gained(old(Live(all)), Live(all), region.value) && region.value.0 in all
      ensures sorted == old(sorted)
      ensures old(runs) != {} ==> region.Some? && all == old(all) && (sorted ==> Lowest(region.value.0, old(Open(all))))
    {
      ClearRuncur();
      region := MallocNonfull(memory, zero);
    }

    /** arena_malloc_small: the lowest free region of the lowest run that has one, else the first region
        of a new run.  It was not in use before; no region in use and no run of the arena is disturbed. */
    method Malloc(memory: Chunk?, zero: bool) returns (region: Option<Region>)
      requires Valid() && New(arena, memory)
      modifies this, all, arena, arena.chunks, arena.spare, memory
      ensures fresh(all - old(all))
      ensures Survive(old(Snapshot(arena)), Snapshot(arena), null, 0)
      ensures Exchange(old(HoldingsOf(arena)), HoldingsOf(arena), From(Source(region), memory))
      ensures Sized(memory, arena.npages) && Sized(old(arena.spare), arena.npages)
      ensures Booked(old(|all|), old(arena.nactive), |all|, arena.nactive, info.pages)
      ensures Valid()
      ensures sorted == old(sorted)
      ensures region.None? <==> memory == null && !old(HasRoom(arena, info.pages)) && old(Open(all)) == {}
      ensures region.None? ==> all == old(all) && StateOf(all) == old(StateOf(all))
      ensures region.Some? ==> Gained(old(Live(all)), Live(all), region.value) && region.value.0 in all
      ensures old(Open(all)) != {} ==>
                region.Some? && all == old(all) && (sorted ==> Lowest(region.value.0, old(Open(all))))
    {
      if runcur != null && runcur.nfree > 0 {
        AllSurvive(Snapshot(arena), HoldingsOf(arena));
        AtHand(memory);
        assert runcur in Open(all);
        var found := MallocCurrent();
        region := Some(found);
      } else {
        assert runs == Open(all);
        region := MallocHard(memory, zero);
      }
    }

    constructor (arena: A.Arena, info: Info)
      requires Sound(arena) && Layout(info) && info.pages <= arena.npages - arena.bias
      ensures Valid() && this.arena == arena && this.info == info && all == {} && sorted
    {
      this.arena, this.info := arena, info;
      runcur, runs, all, sorted := null, {}, {}, true;
    }
  }

  // ---------------------------------------------------------------- bins side by side

  /** The pages of two runs of an arena. */
  lemma PlacesApart(arena: A.Arena, c: Chunk, p: nat, d: Chunk, q: nat)
    requires Sound(arena) && c in arena.chunks && d in arena.chunks
    requires p in c.runs && !c.runs[p].Free? && q in d.runs && !d.runs[q].Free? && (c != d || p != q)
    ensures c.addr + p + c.runs[p].pages <= d.addr + q || d.addr + q + d.runs[q].pages <= c.addr + p
  {
    SoundMeans(arena);
    arena.AllocatedTag(c, p);
    arena.AllocatedTag(d, q);
    if c == d {
      arena.ValidWorking(c);
      assert Apart(c.runs, p, q) && Apart(c.runs, q, p);
    } else {
      assert FarApart(c, d, arena.npages);
    }
  }

  /** Runs of the bins b and c, if they are not the same run, are on different pages. */
  lemma RunsApart(b: Bin, c: Bin, r: SmallRun, s: SmallRun)
    requires b.Valid() && c.Valid() && b.arena == c.arena && (b == c || b.info.binind != c.info.binind)
    requires r in b.all && s in c.all && r != s
    ensures Address(r) + b.info.pages <= Address(s) || Address(s) + c.info.pages <= Address(r)
  {
    assert b == c ==> !SameAddress(r, s);
    PlacesApart(b.arena, r.chunk, r.page, s.chunk, s.page);
  }

  /** No two regions in use overlap, be they of one bin or of different bins. */
  lemma LiveApart(b: Bin, c: Bin, r: SmallRun, i: nat, s: SmallRun, j: nat)
    requires b.Valid() && c.Valid() && b.arena == c.arena && (b == c || b.info.binind != c.info.binind)
    requires (r, i) in Live(b.all) && (s, j) in Live(c.all) && (r, i) != (s, j)
    ensures Start(r, b.info, i) + b.info.size <= Start(s, c.info, j)
            || Start(s, c.info, j) + c.info.size <= Start(r, b.info, i)
  {
    RegionWithin(r, i, b.info);
    RegionWithin(s, j, c.info);
    if r == s {
      assert b.info == c.info;
      RegionsApart(r, if i < j then i else j, if i < j then j else i, b.info);
    } else {
      RunsApart(b, c, r, s);
    }
  }
}
