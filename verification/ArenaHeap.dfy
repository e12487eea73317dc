/** An arena with its bins in the hands of a program (deps/jemalloc/src/arena.c): small, large and aligned
    allocations, frees and resizes, and what the program holds after them. */
module ArenaHeap {
  import opened Alignment
  import opened ArenaNeighbours
  import opened ArenaChunks
  import opened ArenaRegions
  import opened ArenaBins
  import opened ArenaSurvival
  import opened ArenaFamily
  import opened ArenaObjects
  import opened Options
  import A = Arena

  // ---------------------------------------------------------------- the state

  ghost function Infos(bins: seq<Bin>): (s: seq<Info>)
    ensures |s| == |bins| && forall k :: 0 <= k < |bins| ==> s[k] == bins[k].info
  {
    seq(|bins|, k requires 0 <= k < |bins| => bins[k].info)
  }

  ghost function States(bins: seq<Bin>): (s: seq<BinState>)
    reads bins, AllRuns(bins)
    ensures |s| == |bins| && forall k :: 0 <= k < |bins| ==> s[k] == StateOf(bins[k].all)
  {
    seq(|bins|, k requires 0 <= k < |bins| reads bins, AllRuns(bins) => StateOf(bins[k].all))
  }

  ghost function ViewOf(bins: seq<Bin>, arena: A.Arena): View
    reads arena, arena.chunks, bins, AllRuns(bins)
  {
    View(Snapshot(arena), arena.runsAvail, HoldingsOf(arena), arena.nactive, States(bins))
  }

  /** The arena and its bins are valid; what the program holds is in use, and nothing else. */
  ghost predicate Valid(bins: seq<Bin>, arena: A.Arena, objects: seq<Object>)
    reads arena, Memory(arena), bins, AllRuns(bins)
  {
    AllValid(bins, arena) && Consistent(ViewOf(bins, arena), Infos(bins), objects)
  }

  // ---------------------------------------------------------------- the operations on arena and bins

  method GetBeside(bins: seq<Bin>, arena: A.Arena, k: nat, memory: Chunk?, zero: bool)
      returns (region: Option<Region>)
    requires AllValid(bins, arena) && New(arena, memory) && k < |bins|
    modifies bins[k], bins[k].all, arena, arena.chunks, arena.spare, memory
    ensures AllValid(bins, arena) && fresh(bins[k].all - old(bins[k].all))
    ensures forall l :: 0 <= l < |bins| && l != k ==> StateOf(bins[l].all) == old(StateOf(bins[l].all))
    ensures Survive(old(Snapshot(arena)), Snapshot(arena), null, 0)
    ensures Exchange(old(HoldingsOf(arena)), HoldingsOf(arena), From(Source(region), memory))
    ensures Sized(memory, arena.npages) && Sized(old(arena.spare), arena.npages)
    ensures Booked(old(|bins[k].all|), old(arena.nactive), |bins[k].all|, arena.nactive, bins[k].info.pages)
    ensures region.None? <==>
              memory == null && !old(HasRoom(arena, bins[k].info.pages)) && old(Open(bins[k].all)) == {}
    ensures region.None? ==> StateOf(bins[k].all) == old(StateOf(bins[k].all))
    ensures region.Some? ==> Gained(old(Live(bins[k].all)), Live(bins[k].all), region.value)
    ensures old(Open(bins[k].all)) != {} ==> region.Some? && Lowest(region.value.0, old(Open(bins[k].all)))
  {
    AllValidMeans(bins, arena);
    region := BesideMallocSmall(bins, arena, k, memory, zero);
    AllValidMeans(bins, arena);
  }

  /** The bins and the arena after a small allocation. */
  method GetRegion(bins: seq<Bin>, arena: A.Arena, k: nat, memory: Chunk?, zero: bool)
      returns (region: Option<Region>)
    requires AllValid(bins, arena) && New(arena, memory) && k < |bins|
    modifies bins[k], bins[k].all, arena, arena.chunks, arena.spare, memory
    ensures AllValid(bins, arena) && fresh(AllRuns(bins) - old(AllRuns(bins)))
    ensures Survive(old(Snapshot(arena)), Snapshot(arena), null, 0)
    ensures Exchange(old(HoldingsOf(arena)), HoldingsOf(arena), From(Source(region), memory))
    ensures Sized(memory, arena.npages) && Sized(old(arena.spare), arena.npages)
    ensures OneBin(old(ViewOf(bins, arena)), ViewOf(bins, arena), Infos(bins), k)
    ensures region.None? <==>
              memory == null && !old(HasRoom(arena, bins[k].info.pages)) && old(States(bins))[k].open == {}
    ensures region.None? ==> States(bins) == old(States(bins)) && arena.nactive == old(arena.nactive)
    ensures region.Some? ==> Gained(old(States(bins))[k].live, States(bins)[k].live, region.value)
    ensures old(States(bins))[k].open != {} ==> region.Some? && Lowest(region.value.0, old(States(bins))[k].open)
  {
    region := GetBeside(bins, arena, k, memory, zero);
  }

  /** The run of a region is a run of the arena, and no large one. */
  lemma NotLarge(bins: seq<Bin>, arena: A.Arena, k: nat, run: SmallRun, i: nat)
    requires AllValid(bins, arena) && k < |bins| && (run, i) in Live(bins[k].all)
    ensures run.chunk in arena.chunks && forall n: nat :: !LargeIn(Snapshot(arena), run.chunk, run.page, n)
  {
    AllValidMeans(bins, arena);
    assert run in bins[k].all;
  }

  method GiveRegion(bins: seq<Bin>, arena: A.Arena, k: nat, run: SmallRun, i: nat)
    requires AllValid(bins, arena) && k < |bins| && (run, i) in Live(bins[k].all)
    modifies bins[k], run, arena, run.chunk
    ensures AllValid(bins, arena) && AllRuns(bins) <= old(AllRuns(bins))
    ensures Survive(old(Snapshot(arena)), Snapshot(arena), run.chunk, run.page)
    ensures Exchange(old(HoldingsOf(arena)), HoldingsOf(arena), null) && Sized(old(arena.spare), arena.npages)
    ensures OneBin(old(ViewOf(bins, arena)), ViewOf(bins, arena), Infos(bins), k)
    ensures States(bins)[k].live == old(States(bins))[k].live - {(run, i)}
  {
    AllValidMeans(bins, arena);
    BesideDallocSmall(bins, arena, k, run, i);
    AllValidMeans(bins, arena);
  }

  method GetLarge(bins: seq<Bin>, arena: A.Arena, size: nat, memory: Chunk?, zero: bool)
      returns (chunk: Chunk?, p: nat)
    requires AllValid(bins, arena) && New(arena, memory) && 0 < Pages(size) <= arena.npages - arena.bias
    modifies arena, arena.chunks, arena.spare, memory
    ensures AllValid(bins, arena) && States(bins) == old(States(bins))
    ensures Survive(old(Snapshot(arena)), Snapshot(arena), null, 0)
    ensures Exchange(old(HoldingsOf(arena)), HoldingsOf(arena), From(chunk, memory))
    ensures Sized(memory, arena.npages) && Sized(old(arena.spare), arena.npages)
    ensures chunk == null <==> memory == null && !old(HasRoom(arena, Pages(size)))
    ensures chunk != null ==>
              LargeIn(Snapshot(arena), chunk, p, Pages(size)) && !WasUsed(old(Snapshot(arena)), chunk, p)
    ensures arena.nactive == old(arena.nactive) + if chunk == null then 0 else Pages(size)
  {
    AllValidMeans(bins, arena);
    chunk, p := BesideMallocLarge(bins, arena, size, memory, zero);
    AllValidMeans(bins, arena);
  }

  method GetAligned(bins: seq<Bin>, arena: A.Arena, size: nat, alignment: nat, memory: Chunk?, zero: bool)
      returns (chunk: Chunk?, p: nat)
    requires AllValid(bins, arena) && New(arena, memory)
    requires size > 0 && alignment > 0 && size + alignment - 1 <= arena.npages - arena.bias
    modifies arena, arena.chunks, arena.spare, memory
    ensures AllValid(bins, arena) && States(bins) == old(States(bins))
    ensures Survive(old(Snapshot(arena)), Snapshot(arena), null, 0)
    ensures Exchange(old(HoldingsOf(arena)), HoldingsOf(arena), From(chunk, memory))
    ensures Sized(memory, arena.npages) && Sized(old(arena.spare), arena.npages)
    ensures chunk == null <==> memory == null && !old(HasRoom(arena, size + alignment - 1))
    ensures chunk != null ==>
              LargeIn(Snapshot(arena), chunk, p, size) && !WasUsed(old(Snapshot(arena)), chunk, p)
    ensures chunk != null ==> Aligned(chunk.addr + p, alignment)
    ensures arena.nactive == old(arena.nactive) + if chunk == null then 0 else size
  {
    AllValidMeans(bins, arena);
    chunk, p := BesidePalloc(bins, arena, size, alignment, memory, zero);
    AllValidMeans(bins, arena);
  }

  method GiveLarge(bins: seq<Bin>, arena: A.Arena, chunk: Chunk, p: nat, ghost pages: nat)
    requires AllValid(bins, arena) && LargeIn(Snapshot(arena), chunk, p, pages)
    modifies arena, chunk
    ensures AllValid(bins, arena) && States(bins) == old(States(bins))
    ensures Survive(old(Snapshot(arena)), Snapshot(arena), chunk, p)
    ensures Exchange(old(HoldingsOf(arena)), HoldingsOf(arena), null) && Sized(old(arena.spare), arena.npages)
    ensures !WasUsed(Snapshot(arena), chunk, p) && arena.nactive == old(arena.nactive) - pages
  {
    AllValidMeans(bins, arena);
    BesideDallocLarge(bins, arena, chunk, p);
    AllValidMeans(bins, arena);
  }

  method SizeLarge(bins: seq<Bin>, arena: A.Arena, chunk: Chunk, p: nat, size: nat, extra: nat, ghost before: nat)
      returns (failed: bool, pages: nat)
    requires AllValid(bins, arena) && LargeIn(Snapshot(arena), chunk, p, before) && size + extra > 0
    modifies arena, chunk
    ensures AllValid(bins, arena) && States(bins) == old(States(bins)) && LargeIn(Snapshot(arena), chunk, p, pages)
    ensures Survive(old(Snapshot(arena)), Snapshot(arena), chunk, p)
    ensures Exchange(old(HoldingsOf(arena)), HoldingsOf(arena), null) && Sized(old(arena.spare), arena.npages)
    ensures pages == ResizedTo(old(chunk.runs), p, size, extra) && arena.nactive == old(arena.nactive) - before + pages
    ensures failed <==> ResizeFails(old(chunk.runs), p, size, extra)
  {
    AllValidMeans(bins, arena);
    failed, pages := BesideRallocLarge(bins, arena, chunk, p, size, extra);
    AllValidMeans(bins, arena);
  }

  // ---------------------------------------------------------------- the program's calls

  /** arena_malloc_small in bin k */
  method AllocSmall(bins: seq<Bin>, arena: A.Arena, objects: seq<Object>, k: nat, memory: Chunk?, zero: bool)
      returns (objects': seq<Object>)
    requires Valid(bins, arena, objects) && New(arena, memory) && k < |bins|
    modifies bins[k], bins[k].all, arena, arena.chunks, arena.spare, memory
    ensures Valid(bins, arena, objects') && fresh(AllRuns(bins) - old(AllRuns(bins)))
    ensures Survive(old(Snapshot(arena)), Snapshot(arena), null, 0)
    ensures Exchange(old(HoldingsOf(arena)), HoldingsOf(arena), From(Supplier(objects, objects'), memory))
    ensures Sized(memory, arena.npages) && Sized(old(arena.spare), arena.npages)
    ensures SmallAnswer(old(ViewOf(bins, arena)), Infos(bins), k, memory != null, objects, objects')
  {
    ghost var view := ViewOf(bins, arena);
    var region := GetRegion(bins, arena, k, memory, zero);
    match region
    case None =>
      NothingAllocated(view, Infos(bins), objects, ViewOf(bins, arena));
      return objects;
    case Some(r) =>
      SmallAllocated(view, Infos(bins), objects, ViewOf(bins, arena), k, r);
      return objects + [Little(k, r.0, r.1)];
  }

  /** arena_malloc_large */
  method AllocLarge(bins: seq<Bin>, arena: A.Arena, objects: seq<Object>, size: nat, memory: Chunk?, zero: bool)
      returns (objects': seq<Object>)
    requires Valid(bins, arena, objects) && New(arena, memory) && 0 < Pages(size) <= arena.npages - arena.bias
    modifies arena, arena.chunks, arena.spare, memory
    ensures Valid(bins, arena, objects') && Survive(old(Snapshot(arena)), Snapshot(arena), null, 0)
    ensures Exchange(old(HoldingsOf(arena)), HoldingsOf(arena), From(Supplier(objects, objects'), memory))
    ensures Sized(memory, arena.npages) && Sized(old(arena.spare), arena.npages)
    ensures LargeAnswer(old(ViewOf(bins, arena)), Pages(size), Pages(size), memory != null, objects, objects')
  {
    ghost var view := ViewOf(bins, arena);
    var chunk, p := GetLarge(bins, arena, size, memory, zero);
    if chunk == null {
      NothingAllocated(view, Infos(bins), objects, ViewOf(bins, arena));
      return objects;
    }
    LargeAllocated(view, Infos(bins), objects, ViewOf(bins, arena), Big(chunk, p, Pages(size)));
    return objects + [Big(chunk, p, Pages(size))];
  }

  /** arena_palloc */
  method AllocAligned(bins: seq<Bin>, arena: A.Arena, objects: seq<Object>, size: nat, alignment: nat, memory: Chunk?,
      zero: bool) returns (objects': seq<Object>)
    requires Valid(bins, arena, objects) && New(arena, memory)
    requires size > 0 && alignment > 0 && size + alignment - 1 <= arena.npages - arena.bias
    modifies arena, arena.chunks, arena.spare, memory
    ensures Valid(bins, arena, objects') && Survive(old(Snapshot(arena)), Snapshot(arena), null, 0)
    ensures Exchange(old(HoldingsOf(arena)), HoldingsOf(arena), From(Supplier(objects, objects'), memory))
    ensures Sized(memory, arena.npages) && Sized(old(arena.spare), arena.npages)
    ensures LargeAnswer(old(ViewOf(bins, arena)), size + alignment - 1, size, memory != null, objects, objects')
    ensures OneMore(objects, objects') ==>
              var place := Place(Newest(objects')); Aligned(place.0.addr + place.1, alignment)
  {
    ghost var view := ViewOf(bins, arena);
    var chunk, p := GetAligned(bins, arena, size, alignment, memory, zero);
    if chunk == null {
      NothingAllocated(view, Infos(bins), objects, ViewOf(bins, arena));
      return objects;
    }
    LargeAllocated(view, Infos(bins), objects, ViewOf(bins, arena), Big(chunk, p, size));
    return objects + [Big(chunk, p, size)];
  }

  /** arena_dalloc_bin_locked and arena_dalloc_large: object j is given back. */
  method GiveBack(bins: seq<Bin>, arena: A.Arena, objects: seq<Object>, j: nat) returns (objects': seq<Object>)
    requires Valid(bins, arena, objects) && j < |objects|
    modifies arena, arena.chunks, bins, AllRuns(bins)
    ensures Valid(bins, arena, objects') && FreeAnswer(ViewOf(bins, arena), j, objects, objects')
    ensures Survive(old(Snapshot(arena)), Snapshot(arena), Place(objects[j]).0, Place(objects[j]).1)
    ensures AllRuns(bins) <= old(AllRuns(bins))
    ensures Exchange(old(HoldingsOf(arena)), HoldingsOf(arena), null) && Sized(old(arena.spare), arena.npages)
  {
    objects' := Without(objects, j);
    match objects[j]
    case Little(k, run, i) => FreeLittle(bins, arena, objects, j, k, run, i);
    case Big(chunk, p, _) => FreeBig(bins, arena, objects, j, chunk, p);
  }

  method FreeLittle(bins: seq<Bin>, arena: A.Arena, ghost objects: seq<Object>, ghost j: nat, k: nat, run: SmallRun,
      i: nat)
    requires Valid(bins, arena, objects) && j < |objects| && objects[j] == Little(k, run, i)
    modifies arena, arena.chunks, bins, AllRuns(bins)
    ensures Valid(bins, arena, Without(objects, j)) && !HeldIn(States(bins), Snapshot(arena), objects[j])
    ensures Survive(old(Snapshot(arena)), Snapshot(arena), run.chunk, run.page)
    ensures AllRuns(bins) <= old(AllRuns(bins))
    ensures Exchange(old(HoldingsOf(arena)), HoldingsOf(arena), null) && Sized(old(arena.spare), arena.npages)
  {
    ghost var view := ViewOf(bins, arena);
    assert HeldIn(view.bins, view.runs, objects[j]);
    NotLarge(bins, arena, k, run, i);
    GiveRegion(bins, arena, k, run, i);
    SmallFreed(view, Infos(bins), objects, ViewOf(bins, arena), j);
  }

  method FreeBig(bins: seq<Bin>, arena: A.Arena, ghost objects: seq<Object>, ghost j: nat, chunk: Chunk, p: nat)
    requires Valid(bins, arena, objects) && j < |objects| && objects[j].Big?
    requires objects[j].chunk == chunk && objects[j].page == p
    modifies arena, arena.chunks
    ensures Valid(bins, arena, Without(objects, j)) && !HeldIn(States(bins), Snapshot(arena), objects[j])
    ensures Survive(old(Snapshot(arena)), Snapshot(arena), chunk, p)
    ensures Exchange(old(HoldingsOf(arena)), HoldingsOf(arena), null) && Sized(old(arena.spare), arena.npages)
  {
    ghost var view := ViewOf(bins, arena);
    assert HeldIn(view.bins, view.runs, objects[j]);
    GiveLarge(bins, arena, chunk, p, objects[j].pages);
    LargeFreed(view, Infos(bins), objects, ViewOf(bins, arena), j);
  }

  /** arena_ralloc_large: object j is resized in place, as far as possible. */
  method Resize(bins: seq<Bin>, arena: A.Arena, objects: seq<Object>, j: nat, size: nat, extra: nat)
      returns (objects': seq<Object>)
    requires Valid(bins, arena, objects) && j < |objects| && objects[j].Big? && size + extra > 0
    modifies arena, arena.chunks
    ensures Valid(bins, arena, objects')
    ensures ResizeAnswer(old(ViewOf(bins, arena)), j, size, extra, objects, objects')
    ensures Survive(old(Snapshot(arena)), Snapshot(arena), objects[j].chunk, objects[j].page)
    ensures Exchange(old(HoldingsOf(arena)), HoldingsOf(arena), null) && Sized(old(arena.spare), arena.npages)
  {
    ghost var view := ViewOf(bins, arena);
    var o := objects[j];
    assert HeldIn(view.bins, view.runs, o);
    var failed, pages := SizeLarge(bins, arena, o.chunk, o.page, size, extra, o.pages);
    LargeResized(view, Infos(bins), objects, ViewOf(bins, arena), j, pages);
    objects' := objects[j := o.(pages := pages)];
  }
}
