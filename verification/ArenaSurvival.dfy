/** What the operations of an arena (deps/jemalloc/src/arena.c) leave alone, stated for all of them in
    the same way, and the large objects in these terms. */
module ArenaSurvival {
  import opened Alignment
  import opened ArenaRuns
  import opened ArenaBooks
  import opened ArenaNeighbours
  import opened ArenaChunks
  import A = Arena

  // ---------------------------------------------------------------- the runs of an arena

  /** The runs of every chunk of the arena. */
  ghost function Snapshot(arena: A.Arena): map<Chunk, Runs>
    reads arena, arena.chunks
  {
    map ch | ch in arena.chunks :: ch.runs
  }

  ghost predicate WasUsed(was: map<Chunk, Runs>, ch: Chunk, s: nat) {
    ch in was && s in was[ch] && !was[ch][s].Free?
  }

  /** Every run that was allocated, except the one at page p of `but`, is as it was.  The outer
      quantifier keeps this out of sight where no lemma asks for it. */
  ghost predicate Survive(was: map<Chunk, Runs>, now: map<Chunk, Runs>, but: Chunk?, p: nat) {
    forall k {:trigger Asked(k)} :: Asked(k) ==>
      forall ch, s: nat {:trigger WasUsed(was, ch, s)} ::
        ch in was && WasUsed(was, ch, s) && !(ch == but && s == p) ==>
          ch in now && s in now[ch] && now[ch][s] == was[ch][s]
  }

  lemma Survives(was: map<Chunk, Runs>, now: map<Chunk, Runs>, but: Chunk?, p: nat, ch: Chunk, s: nat)
    requires Survive(was, now, but, p) && WasUsed(was, ch, s) && !(ch == but && s == p)
    ensures ch in now && s in now[ch] && now[ch][s] == was[ch][s]
  {
    assert Asked(0);
  }

  // ---------------------------------------------------------------- its memory

  ghost predicate FarApart(c: Chunk, d: Chunk, npages: nat) {
    c != d ==> c.addr + npages <= d.addr || d.addr + npages <= c.addr
  }

  /** The memory of different chunks does not overlap. */
  ghost predicate Spaced(chunks: set<Chunk>, npages: nat) {
    forall c, d {:trigger FarApart(c, d, npages)} :: c in chunks && d in chunks ==> FarApart(c, d, npages)
  }

  lemma SpacedPages(chunks: set<Chunk>, npages: nat, c: Chunk, p: nat, d: Chunk, q: nat)
    requires Spaced(chunks, npages) && c in chunks && d in chunks && p < npages && q < npages && (c != d || p != q)
    ensures c.addr + p != d.addr + q
  {
    assert FarApart(c, d, npages);
  }

  lemma SpacedSubset(chunks: set<Chunk>, more: set<Chunk>, npages: nat)
    requires Spaced(more, npages) && chunks <= more
    ensures Spaced(chunks, npages)
  {
  }

  /** The memory of an arena: its chunks and its spare. */
  datatype Holdings = Holdings(chunks: set<Chunk>, spare: Chunk?)
  {
    ghost function All(): set<Chunk> {
      chunks + if spare == null then {} else {spare}
    }
  }

  ghost function HoldingsOf(arena: A.Arena): Holdings
    reads arena
  {
    Holdings(arena.chunks, arena.spare)
  }

  ghost function Memory(arena: A.Arena): set<Chunk>
    reads arena
  {
    HoldingsOf(arena).All()
  }

  /** The spare before the call, if arena_chunk_dealloc has given it back. */
  function Displaced(before: Chunk?, after: Chunk?): Chunk? {
    if after != null && after != before then before else null
  }

  /** What a call has taken of the memory offered. */
  function From(chunk: Chunk?, memory: Chunk?): Chunk? {
    if chunk == memory then memory else null
  }

  ghost function Only(c: Chunk?): set<Chunk> {
    if c == null then {} else {c}
  }

  /** The arena has gained one chunk, or none, and given back its spare, if it has another now. */
  ghost predicate Exchange(before: Holdings, after: Holdings, gained: Chunk?) {
    forall k {:trigger Asked(k)} :: Asked(k) ==>
      && (gained != null ==> gained !in before.All())
      && after.All() == before.All() + Only(gained) - Only(Displaced(before.spare, after.spare))
  }

  lemma ExchangeMeans(before: Holdings, after: Holdings, gained: Chunk?)
    ensures Exchange(before, after, gained)
      <==> (gained != null ==> gained !in before.All())
           && after.All() == before.All() + Only(gained) - Only(Displaced(before.spare, after.spare))
  {
    assert Asked(0);
  }

  /** An allocation from the chunks at hand, from the spare, or from new memory. */
  ghost predicate Obtains(before: Holdings, after: Holdings, chunk: Chunk?, memory: Chunk?) {
    if chunk == null then memory == null && after == before
    else if chunk in before.chunks then after == before
    else chunk == (if before.spare != null then before.spare else memory)
         && after == Holdings(before.chunks + {chunk}, null)
  }

  lemma Obtained(before: Holdings, after: Holdings, chunk: Chunk?, memory: Chunk?)
    requires (memory != null ==> memory !in before.All()) && Obtains(before, after, chunk, memory)
    ensures Exchange(before, after, From(chunk, memory)) && (before.spare != null ==> before.spare in after.All())
    ensures From(chunk, memory) != null ==> From(chunk, memory) in after.All()
  {
  }

  /** A free in a chunk, which may become the spare. */
  lemma Retired(before: Holdings, after: Holdings, chunk: Chunk)
    requires chunk in before.chunks && before.spare != chunk && before.spare !in before.chunks
    requires after == before || after == Holdings(before.chunks - {chunk}, chunk)
    ensures Exchange(before, after, null)
  {
  }

  lemma SpacedAfter(before: Holdings, after: Holdings, memory: Chunk?, gained: Chunk?, npages: nat)
    requires Exchange(before, after, gained) && (gained == null || gained == memory)
    requires Spaced(if memory == null then before.All() else before.All() + {memory}, npages)
    ensures Spaced(after.All(), npages)
  {
    ExchangeMeans(before, after, gained);
  }

  /** The pages of a chunk are those of an arena. */
  ghost predicate Sized(c: Chunk?, npages: nat)
    reads c
  {
    c != null ==> |c.pages| == npages
  }

  lemma SizedIn(arena: A.Arena, c: Chunk?)
    requires arena.Valid() && (c != null ==> c in Memory(arena))
    ensures Sized(c, arena.npages)
  {
    if c != null && c in arena.chunks {
      arena.ValidWorking(c);
    }
  }

  /** The arena can allocate a run without new memory. */
  ghost predicate HasRoom(arena: A.Arena, pages: nat)
    reads arena
  {
    RoomIn(arena.runsAvail, arena.spare, pages)
  }

  ghost predicate RoomIn(avail: set<Slot>, spare: Chunk?, pages: nat) {
    Fits(avail, pages) || spare != null
  }

  /** Memory that chunk_alloc may return: new to the arena. */
  ghost predicate New(arena: A.Arena, memory: Chunk?)
    reads arena, memory
  {
    forall k {:trigger Asked(k)} :: Asked(k) ==> memory != null ==>
      && memory !in Memory(arena) && |memory.pages| == arena.npages && Spaced(Memory(arena) + {memory}, arena.npages)
  }

  lemma NewMeans(arena: A.Arena, memory: Chunk?)
    ensures New(arena, memory)
      <==> memory == null
           || (memory !in Memory(arena) && |memory.pages| == arena.npages
               && Spaced(Memory(arena) + {memory}, arena.npages))
  {
    assert Asked(0);
  }

  /** The arena is valid, and its chunks do not overlap. */
  ghost predicate Sound(arena: A.Arena)
    reads arena, Memory(arena)
  {
    forall k {:trigger Asked(k)} :: Asked(k) ==> arena.Valid() && Spaced(Memory(arena), arena.npages)
  }

  lemma SoundMeans(arena: A.Arena)
    ensures Sound(arena) <==> arena.Valid() && Spaced(Memory(arena), arena.npages)
  {
    assert Asked(0);
  }

  /** Nothing has happened. */
  lemma AllSurvive(was: map<Chunk, Runs>, held: Holdings)
    ensures Survive(was, was, null, 0) && Exchange(held, held, null)
  {
  }

  // ---------------------------------------------------------------- small runs

  method RunForRegions(arena: A.Arena, pages: nat, binind: nat, memory: Chunk?, zero: bool)
      returns (chunk: Chunk?, p: nat)
    requires arena.Valid() && 0 < pages <= arena.npages - arena.bias
    requires memory != null ==> memory !in Memory(arena) && |memory.pages| == arena.npages
    modifies arena, arena.chunks, arena.spare, memory
    ensures arena.Valid() && Survive(old(Snapshot(arena)), Snapshot(arena), null, 0)
    ensures Obtains(old(HoldingsOf(arena)), HoldingsOf(arena), chunk, memory)
    ensures chunk != memory ==> Sized(memory, arena.npages)
    ensures chunk == null <==> memory == null && !old(HasRoom(arena, pages))
    ensures chunk != null ==> chunk in arena.chunks && !WasUsed(old(Snapshot(arena)), chunk, p)
    ensures chunk != null ==>
              p in chunk.runs && chunk.runs[p].Small? && chunk.runs[p].pages == pages && chunk.runs[p].binind == binind
    ensures arena.nactive == old(arena.nactive) + if chunk == null then 0 else pages
  {
    ghost var chunks := arena.chunks;
    chunk, p := arena.RunAlloc(pages, false, binind, memory, zero);
    assert chunk != null && chunk in chunks ==> arena.chunks == chunks;
  }

  /** arena_run_alloc for a small run. */
  method AllocSmallRun(arena: A.Arena, pages: nat, binind: nat, memory: Chunk?, zero: bool)
      returns (chunk: Chunk?, p: nat)
    requires Sound(arena) && New(arena, memory) && 0 < pages <= arena.npages - arena.bias
    modifies arena, arena.chunks, arena.spare, memory
    ensures Sound(arena) && Survive(old(Snapshot(arena)), Snapshot(arena), null, 0)
    ensures Exchange(old(HoldingsOf(arena)), HoldingsOf(arena), From(chunk, memory))
    ensures Sized(memory, arena.npages) && Sized(old(arena.spare), arena.npages)
    ensures chunk == null <==> memory == null && !old(HasRoom(arena, pages))
    ensures chunk != null ==> chunk in arena.chunks && !WasUsed(old(Snapshot(arena)), chunk, p)
    ensures chunk != null ==>
              p in chunk.runs && chunk.runs[p].Small? && chunk.runs[p].pages == pages && chunk.runs[p].binind == binind
    ensures arena.nactive == old(arena.nactive) + if chunk == null then 0 else pages
  {
    ghost var before := HoldingsOf(arena);
    SoundMeans(arena);
    NewMeans(arena, memory);
    chunk, p := RunForRegions(arena, pages, binind, memory, zero);
    Obtained(before, HoldingsOf(arena), chunk, memory);
    SizedIn(arena, From(chunk, memory));
    SizedIn(arena, before.spare);
    SpacedAfter(before, HoldingsOf(arena), memory, From(chunk, memory), arena.npages);
  }

  // ---------------------------------------------------------------- large objects

  method LargeRun(arena: A.Arena, size: nat, memory: Chunk?, zero: bool) returns (chunk: Chunk?, p: nat)
    requires arena.Valid() && 0 < Pages(size) <= arena.npages - arena.bias
    requires memory != null ==> memory !in Memory(arena) && |memory.pages| == arena.npages
    modifies arena, arena.chunks, arena.spare, memory
    ensures arena.Valid() && Survive(old(Snapshot(arena)), Snapshot(arena), null, 0)
    ensures Obtains(old(HoldingsOf(arena)), HoldingsOf(arena), chunk, memory)
    ensures chunk != memory ==> Sized(memory, arena.npages)
    ensures chunk == null <==> memory == null && !old(HasRoom(arena, Pages(size)))
    ensures chunk != null ==> chunk in arena.chunks && LargeAt(chunk.runs, p, Pages(size))
    ensures chunk != null ==> !WasUsed(old(Snapshot(arena)), chunk, p)
    ensures arena.nactive == old(arena.nactive) + if chunk == null then 0 else Pages(size)
  {
    ghost var chunks := arena.chunks;
    chunk, p := arena.MallocLarge(size, memory, zero);
    assert chunk != null && chunk in chunks ==> arena.chunks == chunks;
  }

  method AlignedRun(arena: A.Arena, size: nat, alignment: nat, memory: Chunk?, zero: bool)
      returns (chunk: Chunk?, p: nat)
    requires arena.Valid() && size > 0 && alignment > 0 && size + alignment - 1 <= arena.npages - arena.bias
    requires memory != null ==> memory !in Memory(arena) && |memory.pages| == arena.npages
    modifies arena, arena.chunks, arena.spare, memory
    ensures arena.Valid() && Survive(old(Snapshot(arena)), Snapshot(arena), null, 0)
    ensures Obtains(old(HoldingsOf(arena)), HoldingsOf(arena), chunk, memory)
    ensures chunk != memory ==> Sized(memory, arena.npages)
    ensures chunk == null <==> memory == null && !old(HasRoom(arena, size + alignment - 1))
    ensures chunk != null ==> chunk in arena.chunks && LargeAt(chunk.runs, p, size)
    ensures chunk != null ==> Aligned(chunk.addr + p, alignment)
    ensures chunk != null ==> !WasUsed(old(Snapshot(arena)), chunk, p)
    ensures arena.nactive == old(arena.nactive) + if chunk == null then 0 else size
  {
    ghost var chunks := arena.chunks;
    chunk, p := arena.Palloc(size, alignment, memory, zero);
    assert chunk != null && chunk in chunks ==> arena.chunks == chunks;
  }

  method MallocLarge(arena: A.Arena, size: nat, memory: Chunk?, zero: bool) returns (chunk: Chunk?, p: nat)
    requires Sound(arena) && 0 < Pages(size) <= arena.npages - arena.bias
    requires New(arena, memory)
    modifies arena, arena.chunks, arena.spare, memory
    ensures Sound(arena) && Survive(old(Snapshot(arena)), Snapshot(arena), null, 0)
    ensures Exchange(old(HoldingsOf(arena)), HoldingsOf(arena), From(chunk, memory))
    ensures Sized(memory, arena.npages) && Sized(old(arena.spare), arena.npages)
    ensures chunk == null <==> memory == null && !old(HasRoom(arena, Pages(size)))
    ensures chunk != null ==> chunk in arena.chunks && LargeAt(chunk.runs, p, Pages(size))
    ensures chunk != null ==> !WasUsed(old(Snapshot(arena)), chunk, p)
    ensures arena.nactive == old(arena.nactive) + if chunk == null then 0 else Pages(size)
  {
    ghost var before := HoldingsOf(arena);
    SoundMeans(arena);
    NewMeans(arena, memory);
    chunk, p := LargeRun(arena, size, memory, zero);
    Obtained(before, HoldingsOf(arena), chunk, memory);
    SizedIn(arena, From(chunk, memory));
    SizedIn(arena, before.spare);
    SpacedAfter(before, HoldingsOf(arena), memory, From(chunk, memory), arena.npages);
  }

  method Palloc(arena: A.Arena, size: nat, alignment: nat, memory: Chunk?, zero: bool) returns (chunk: Chunk?, p: nat)
    requires Sound(arena) && size > 0 && alignment > 0 && size + alignment - 1 <= arena.npages - arena.bias
    requires New(arena, memory)
    modifies arena, arena.chunks, arena.spare, memory
    ensures Sound(arena) && Survive(old(Snapshot(arena)), Snapshot(arena), null, 0)
    ensures Exchange(old(HoldingsOf(arena)), HoldingsOf(arena), From(chunk, memory))
    ensures Sized(memory, arena.npages) && Sized(old(arena.spare), arena.npages)
    ensures chunk == null <==> memory == null && !old(HasRoom(arena, size + alignment - 1))
    ensures chunk != null ==> chunk in arena.chunks && LargeAt(chunk.runs, p, size)
    ensures chunk != null ==> Aligned(chunk.addr + p, alignment)
    ensures chunk != null ==> !WasUsed(old(Snapshot(arena)), chunk, p)
    ensures arena.nactive == old(arena.nactive) + if chunk == null then 0 else size
  {
    ghost var before := HoldingsOf(arena);
    SoundMeans(arena);
    NewMeans(arena, memory);
    chunk, p := AlignedRun(arena, size, alignment, memory, zero);
    Obtained(before, HoldingsOf(arena), chunk, memory);
    SizedIn(arena, From(chunk, memory));
    SizedIn(arena, before.spare);
    SpacedAfter(before, HoldingsOf(arena), memory, From(chunk, memory), arena.npages);
  }

  /** The run is free afterwards. */
  method DallocLarge(arena: A.Arena, chunk: Chunk, p: nat)
    requires Sound(arena) && chunk in arena.chunks && p in chunk.runs && chunk.runs[p].Large?
    modifies arena, chunk
    ensures Sound(arena) && Survive(old(Snapshot(arena)), Snapshot(arena), chunk, p)
    ensures !WasUsed(Snapshot(arena), chunk, p) && arena.nactive == old(arena.nactive) - old(chunk.runs)[p].pages
    ensures Exchange(old(HoldingsOf(arena)), HoldingsOf(arena), null) && Sized(old(arena.spare), arena.npages)
  {
    ghost var before := HoldingsOf(arena);
    SoundMeans(arena);
    SizedIn(arena, arena.spare);
    var p', n' := arena.DallocLarge(chunk, p);
    Retired(before, HoldingsOf(arena), chunk);
    SpacedAfter(before, HoldingsOf(arena), null, null, arena.npages);
  }

  /** The pages of the run are those that its map entry has then. */
  method RallocLarge(arena: A.Arena, chunk: Chunk, p: nat, size: nat, extra: nat) returns (failed: bool, pages: nat)
    requires Sound(arena) && chunk in arena.chunks && p in chunk.runs && chunk.runs[p].Large? && size + extra > 0
    modifies arena, chunk
    ensures Sound(arena) && Survive(old(Snapshot(arena)), Snapshot(arena), chunk, p)
    ensures Exchange(old(HoldingsOf(arena)), HoldingsOf(arena), null) && Sized(old(arena.spare), arena.npages)
    ensures chunk in arena.chunks && LargeAt(chunk.runs, p, pages)
    ensures pages == ResizedTo(old(chunk.runs), p, size, extra)
    ensures failed <==> ResizeFails(old(chunk.runs), p, size, extra)
    ensures arena.nactive == old(arena.nactive) - old(chunk.runs)[p].pages + pages
  {
    ghost var held := HoldingsOf(arena);
    SoundMeans(arena);
    SizedIn(arena, arena.spare);
    failed := arena.RallocLarge(chunk, p, size, extra);
    AllSurvive(Snapshot(arena), held);
    arena.AllocatedTag(chunk, p);
    pages := chunk.pages[p].size;
  }
}
