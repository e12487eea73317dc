/** All the bins of an arena (deps/jemalloc/src/arena.c) beside each other and beside large objects:
    each operation keeps all of them. */
module ArenaFamily {
  import opened Alignment
  import opened ArenaRuns
  import opened ArenaBooks
  import opened ArenaNeighbours
  import opened ArenaChunks
  import opened ArenaRegions
  import opened ArenaBins
  import opened ArenaSurvival
  import opened Options
  import A = Arena

  /** The bins are those of the arena, one for each size class. */
  ghost predicate Family(bins: seq<Bin>, arena: A.Arena) {
    && (forall k :: 0 <= k < |bins| ==> bins[k].arena == arena)
    && forall k, l :: 0 <= k < l < |bins| ==> bins[k] != bins[l] && bins[k].info.binind != bins[l].info.binind
  }

  ghost predicate ApartAt(bins: seq<Bin>, k: nat, l: nat)
    reads bins
  {
    k < |bins| && l < |bins| && k != l ==> bins[k].all !! bins[l].all
  }

  /** No run belongs to two bins. */
  ghost predicate Separate(bins: seq<Bin>)
    reads bins
  {
    forall k: nat, l: nat {:trigger ApartAt(bins, k, l)} :: ApartAt(bins, k, l)
  }

  ghost function AllRuns(bins: seq<Bin>): set<SmallRun>
    reads bins
  {
    set b, r | b in bins && r in b.all :: r
  }

  ghost predicate Spacious(bins: seq<Bin>, arena: A.Arena)
    reads arena, Memory(arena)
  {
    && Family(bins, arena) && Sound(arena)
    && forall k :: 0 <= k < |bins| ==> Layout(bins[k].info) && bins[k].info.pages <= arena.npages - arena.bias
  }

  /** All bins are valid, and apart from each other. */
  ghost predicate BinsValid(bins: seq<Bin>, arena: A.Arena)
    reads arena, Memory(arena), bins, AllRuns(bins)
  {
    && Spacious(bins, arena) && Separate(bins)
    && (forall k :: 0 <= k < |bins| ==> Housed(bins[k].all, arena.chunks, bins[k].info))
    && (forall k :: 0 <= k < |bins| ==> bins[k].Ordered() && bins[k].sorted)
  }

  /** The same, out of sight where no lemma asks for it. */
  ghost predicate AllValid(bins: seq<Bin>, arena: A.Arena)
    reads arena, Memory(arena), bins, AllRuns(bins)
  {
    forall k {:trigger Asked(k)} :: Asked(k) ==> BinsValid(bins, arena)
  }

  lemma AllValidMeans(bins: seq<Bin>, arena: A.Arena)
    ensures AllValid(bins, arena) <==> BinsValid(bins, arena)
  {
    assert Asked(0);
  }

  ghost predicate WereAllHoused(bins: seq<Bin>, was: map<Chunk, Runs>)
    reads bins
  {
    forall k {:trigger bins[k]} :: 0 <= k < |bins| ==> WereHoused(bins[k].all, was, bins[k].info)
  }

  lemma AllHousedBefore(bins: seq<Bin>, arena: A.Arena)
    requires BinsValid(bins, arena)
    ensures WereAllHoused(bins, Snapshot(arena))
  {
    forall k | 0 <= k < |bins| ensures WereHoused(bins[k].all, Snapshot(arena), bins[k].info) {
      HousedBefore(bins[k].all, arena, bins[k].info);
    }
  }

  /** The exception is no run of a bin. */
  ghost predicate NoneAt(bins: seq<Bin>, but: Chunk?, p: nat)
    reads bins
  {
    forall k, r :: 0 <= k < |bins| && r in bins[k].all ==> r.chunk != but || r.page != p
  }

  lemma AllHousedAfter(bins: seq<Bin>, was: map<Chunk, Runs>, arena: A.Arena, but: Chunk?, p: nat)
    requires WereAllHoused(bins, was) && Survive(was, Snapshot(arena), but, p) && NoneAt(bins, but, p)
    ensures forall k :: 0 <= k < |bins| ==> Housed(bins[k].all, arena.chunks, bins[k].info)
  {
    forall k | 0 <= k < |bins| ensures Housed(bins[k].all, arena.chunks, bins[k].info) {
      HousedAfter(bins[k].all, was, arena, but, p, bins[k].info);
    }
  }

  // ---------------------------------------------------------------- large objects beside the bins

  method BesideMallocLarge(bins: seq<Bin>, arena: A.Arena, size: nat, memory: Chunk?, zero: bool)
      returns (chunk: Chunk?, p: nat)
    requires BinsValid(bins, arena) && New(arena, memory) && 0 < Pages(size) <= arena.npages - arena.bias
    modifies arena, arena.chunks, arena.spare, memory
    ensures BinsValid(bins, arena) && forall b <- bins :: StateOf(b.all) == old(StateOf(b.all))
    ensures Survive(old(Snapshot(arena)), Snapshot(arena), null, 0)
    ensures Exchange(old(HoldingsOf(arena)), HoldingsOf(arena), From(chunk, memory))
    ensures Sized(memory, arena.npages) && Sized(old(arena.spare), arena.npages)
    ensures chunk == null <==> memory == null && !old(HasRoom(arena, Pages(size)))
    ensures chunk != null ==> chunk in arena.chunks && LargeAt(chunk.runs, p, Pages(size))
    ensures chunk != null ==> !WasUsed(old(Snapshot(arena)), chunk, p)
    ensures arena.nactive == old(arena.nactive) + if chunk == null then 0 else Pages(size)
  {
    ghost var was := Snapshot(arena);
    AllHousedBefore(bins, arena);
    chunk, p := MallocLarge(arena, size, memory, zero);
    AllHousedAfter(bins, was, arena, null, 0);
  }

  method BesidePalloc(bins: seq<Bin>, arena: A.Arena, size: nat, alignment: nat, memory: Chunk?, zero: bool)
      returns (chunk: Chunk?, p: nat)
    requires BinsValid(bins, arena) && New(arena, memory)
    requires size > 0 && alignment > 0 && size + alignment - 1 <= arena.npages - arena.bias
    modifies arena, arena.chunks, arena.spare, memory
    ensures BinsValid(bins, arena) && forall b <- bins :: StateOf(b.all) == old(StateOf(b.all))
    ensures Survive(old(Snapshot(arena)), Snapshot(arena), null, 0)
    ensures Exchange(old(HoldingsOf(arena)), HoldingsOf(arena), From(chunk, memory))
    ensures Sized(memory, arena.npages) && Sized(old(arena.spare), arena.npages)
    ensures chunk == null <==> memory == null && !old(HasRoom(arena, size + alignment - 1))
    ensures chunk != null ==> chunk in arena.chunks && LargeAt(chunk.runs, p, size)
    ensures chunk != null ==> Aligned(chunk.addr + p, alignment)
    ensures chunk != null ==> !WasUsed(old(Snapshot(arena)), chunk, p)
    ensures arena.nactive == old(arena.nactive) + if chunk == null then 0 else size
  {
    ghost var was := Snapshot(arena);
    AllHousedBefore(bins, arena);
    chunk, p := Palloc(arena, size, alignment, memory, zero);
    AllHousedAfter(bins, was, arena, null, 0);
  }

  /** A large run is no run of a bin. */
  lemma LargeElsewhere(bins: seq<Bin>, arena: A.Arena, chunk: Chunk, p: nat)
    requires BinsValid(bins, arena) && p in chunk.runs && chunk.runs[p].Large?
    ensures NoneAt(bins, chunk, p)
  {
  }

  method BesideDallocLarge(bins: seq<Bin>, arena: A.Arena, chunk: Chunk, p: nat)
    requires BinsValid(bins, arena) && chunk in arena.chunks && p in chunk.runs && chunk.runs[p].Large?
    modifies arena, chunk
    ensures BinsValid(bins, arena) && forall b <- bins :: StateOf(b.all) == old(StateOf(b.all))
    ensures Survive(old(Snapshot(arena)), Snapshot(arena), chunk, p)
    ensures Exchange(old(HoldingsOf(arena)), HoldingsOf(arena), null) && Sized(old(arena.spare), arena.npages)
    ensures !WasUsed(Snapshot(arena), chunk, p) && arena.nactive == old(arena.nactive) - old(chunk.runs)[p].pages
  {
    ghost var was := Snapshot(arena);
    AllHousedBefore(bins, arena);
    LargeElsewhere(bins, arena, chunk, p);
    DallocLarge(arena, chunk, p);
    AllHousedAfter(bins, was, arena, chunk, p);
  }

  method BesideRallocLarge(bins: seq<Bin>, arena: A.Arena, chunk: Chunk, p: nat, size: nat, extra: nat)
      returns (failed: bool, pages: nat)
    requires BinsValid(bins, arena) && chunk in arena.chunks && p in chunk.runs && chunk.runs[p].Large?
    requires size + extra > 0
    modifies arena, chunk
    ensures BinsValid(bins, arena) && forall b <- bins :: StateOf(b.all) == old(StateOf(b.all))
    ensures Survive(old(Snapshot(arena)), Snapshot(arena), chunk, p)
    ensures Exchange(old(HoldingsOf(arena)), HoldingsOf(arena), null) && Sized(old(arena.spare), arena.npages)
    ensures chunk in arena.chunks && LargeAt(chunk.runs, p, pages)
    ensures pages == ResizedTo(old(chunk.runs), p, size, extra)
    ensures failed <==> ResizeFails(old(chunk.runs), p, size, extra)
    ensures arena.nactive == old(arena.nactive) - old(chunk.runs)[p].pages + pages
  {
    ghost var was := Snapshot(arena);
    AllHousedBefore(bins, arena);
    LargeElsewhere(bins, arena, chunk, p);
    failed, pages := RallocLarge(arena, chunk, p, size, extra);
    AllHousedAfter(bins, was, arena, chunk, p);
  }

  // ---------------------------------------------------------------- the bins beside each other

  /** The runs of the other bins are still in the arena. */
  lemma OthersHoused(bins: seq<Bin>, was: map<Chunk, Runs>, arena: A.Arena, k: nat, but: Chunk?, p: nat)
    requires k < |bins| && Survive(was, Snapshot(arena), but, p)
    requires forall l :: 0 <= l < |bins| && l != k ==> WereHoused(bins[l].all, was, bins[l].info)
    requires forall l, r :: 0 <= l < |bins| && l != k && r in bins[l].all ==> r.chunk != but || r.page != p
    requires Housed(bins[k].all, arena.chunks, bins[k].info)
    ensures forall l :: 0 <= l < |bins| ==> Housed(bins[l].all, arena.chunks, bins[l].info)
  {
    forall l | 0 <= l < |bins| ensures Housed(bins[l].all, arena.chunks, bins[l].info) {
      if l != k {
        HousedAfter(bins[l].all, was, arena, but, p, bins[l].info);
      }
    }
  }

  /** No run of another bin moves. */
  method MallocHoused(bins: seq<Bin>, arena: A.Arena, k: nat, memory: Chunk?, zero: bool)
      returns (region: Option<Region>)
    requires BinsValid(bins, arena) && New(arena, memory) && k < |bins|
    modifies bins[k], bins[k].all, arena, arena.chunks, arena.spare, memory
    ensures bins[k].Valid() && bins[k].sorted && fresh(bins[k].all - old(bins[k].all))
    ensures forall l :: 0 <= l < |bins| ==> Housed(bins[l].all, arena.chunks, bins[l].info)
    ensures Survive(old(Snapshot(arena)), Snapshot(arena), null, 0)
    ensures Exchange(old(HoldingsOf(arena)), HoldingsOf(arena), From(Source(region), memory))
    ensures Sized(memory, arena.npages) && Sized(old(arena.spare), arena.npages)
    ensures Booked(old(|bins[k].all|), old(arena.nactive), |bins[k].all|, arena.nactive, bins[k].info.pages)
    ensures region.None? <==>
              memory == null && !old(HasRoom(arena, bins[k].info.pages)) && old(Open(bins[k].all)) == {}
    ensures region.None? ==> StateOf(bins[k].all) == old(StateOf(bins[k].all))
    ensures region.Some? ==> Gained(old(Live(bins[k].all)), Live(bins[k].all), region.value)
    ensures old(Open(bins[k].all)) != {} ==> region.Some? && Lowest(region.value.0, old(Open(bins[k].all)))
  {
    ghost var was := Snapshot(arena);
    AllHousedBefore(bins, arena);
    region := bins[k].Malloc(memory, zero);
    OthersHoused(bins, was, arena, k, null, 0);
  }

  method BesideMallocSmall(bins: seq<Bin>, arena: A.Arena, k: nat, memory: Chunk?, zero: bool)
      returns (region: Option<Region>)
    requires BinsValid(bins, arena) && New(arena, memory) && k < |bins|
    modifies bins[k], bins[k].all, arena, arena.chunks, arena.spare, memory
    ensures BinsValid(bins, arena)
    ensures forall l :: 0 <= l < |bins| && l != k ==> StateOf(bins[l].all) == old(StateOf(bins[l].all))
    ensures Survive(old(Snapshot(arena)), Snapshot(arena), null, 0) && fresh(bins[k].all - old(bins[k].all))
    ensures Exchange(old(HoldingsOf(arena)), HoldingsOf(arena), From(Source(region), memory))
    ensures Sized(memory, arena.npages) && Sized(old(arena.spare), arena.npages)
    ensures Booked(old(|bins[k].all|), old(arena.nactive), |bins[k].all|, arena.nactive, bins[k].info.pages)
    ensures region.None? <==>
              memory == null && !old(HasRoom(arena, bins[k].info.pages)) && old(Open(bins[k].all)) == {}
    ensures region.None? ==> StateOf(bins[k].all) == old(StateOf(bins[k].all))
    ensures region.Some? ==> Gained(old(Live(bins[k].all)), Live(bins[k].all), region.value)
    ensures old(Open(bins[k].all)) != {} ==> region.Some? && Lowest(region.value.0, old(Open(bins[k].all)))
  {
    region := MallocHoused(bins, arena, k, memory, zero);
    forall l: nat, m: nat {:trigger ApartAt(bins, l, m)} ensures ApartAt(bins, l, m) {
    }
  }

  method BesideDallocSmall(bins: seq<Bin>, arena: A.Arena, k: nat, run: SmallRun, regind: nat)
    requires BinsValid(bins, arena) && k < |bins| && (run, regind) in Live(bins[k].all)
    modifies bins[k], run, arena, run.chunk
    ensures BinsValid(bins, arena)
    ensures forall l :: 0 <= l < |bins| && l != k ==> StateOf(bins[l].all) == old(StateOf(bins[l].all))
    ensures Survive(old(Snapshot(arena)), Snapshot(arena), run.chunk, run.page) && bins[k].all <= old(bins[k].all)
    ensures Exchange(old(HoldingsOf(arena)), HoldingsOf(arena), null) && Sized(old(arena.spare), arena.npages)
    ensures Booked(old(|bins[k].all|), old(arena.nactive), |bins[k].all|, arena.nactive, bins[k].info.pages)
    ensures Live(bins[k].all) == old(Live(bins[k].all)) - {(run, regind)}
  {
    ghost var was := Snapshot(arena);
    AllHousedBefore(bins, arena);
    bins[k].Dalloc(run, regind);
    OthersHoused(bins, was, arena, k, run.chunk, run.page);
  }
}
