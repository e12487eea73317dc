# Verified models of algorithms in Redis 3.0 and its jemalloc

The Redis 3.0 source tree holds several algorithms whose correctness is not visible from any one
function. This project models ten of them in Dafny, in the form the C code has (cursor loops over
arrays, objects whose methods update fields, interleaved steps of threads), and proves what they are
for.

- **Run allocator** (`deps/jemalloc/src/arena.c`; modules `ArenaRuns`, `ArenaMap`, `ArenaBooks`,
  `ArenaNeighbours`, `ArenaChunks`, `Arena`, `ArenaDirty`, `ArenaSurvival`, `ArenaRegions`, `ArenaBins`,
  `ArenaFamily`, `ArenaObjects`, `ArenaHeap`, `ArenaHistory`). A chunk's pages are cut into runs with boundary tags in a
  page map; a best-fit index and several counters go along. `Arena.Valid` says: the runs of every chunk
  tile its pages, each page once; the tags of every run are right; no two neighbouring free runs have
  the same dirty flag; `runs_avail` holds exactly the free runs of the chunks other than the spare;
  `nruns_avail`, `nruns_adjac`, both `ndirty` and `nactive` are what the runs imply; only the spare is
  wholly free. The constructor establishes it and allocation, free, both trims, in-place growth,
  resizing and aligned allocation keep it. On top of it bins hand out small regions.
  `ArenaHistory.Serve` carries this through every history of small, large and aligned allocations, frees
  and resizes, in which memory may run out and chunks that the arena has given back may be handed out
  again: each call does exactly what it should, and after each call the objects that the program holds
  are all that is in use, region by region and page by page. No two of them overlap, and a program that
  has given back everything leaves no page in use.
- **Free chunks** (`deps/jemalloc/src/chunk.c`, `deps/jemalloc/src/extent.c`; `Alignment`, `ExtentLists`,
  `ExtentTrees`, `ChunkExtents`). Two trees over the same nodes, whose keys are changed in place, always
  hold the same disjoint and never adjacent extents; recycling a block and recording it again restores
  them, and what is lost when memory for the nodes runs out is stated exactly.
- **Thread cache flush** (`deps/jemalloc/src/tcache.c`; `Tcache`). Every flushed object goes back exactly
  once, under the lock of its own arena, and each arena is locked exactly once.
- **LZF** (`src/lzf_c.c`, `src/lzf_d.c`; `LzfFormat`, `LzfDecompress`, `LzfCompress`, `LzfTheorems`).
  Round trip for every input, every hash function and every initial content of the hash table; output
  size; which byte strings the decompressor accepts.
- **HyperLogLog** (`src/hyperloglog.c`; modules `Hll*`). Sparse opcodes edited in place, packed dense
  registers and raw registers all stand for one register array, and that array depends only on the set
  of elements added; PFADD, PFMERGE and PFCOUNT over a keyspace, with the cached cardinality.
- **Cuckoo hash table** (`deps/jemalloc/src/ckh.c`; `CkhTable`, `Ckh`). It refines a map through
  eviction chains, rebuilding and backing out.
- **Partial quicksort** (`src/pqsort.c`; `Pqsort`). Every wanted position ends up as a full sort would
  leave it.
- **Profiling contexts** (`deps/jemalloc/src/prof.c`; `ProfProtocol`, `ProfInvariant`, `ProfSteps`,
  `ProfTheorems`, `ProfOutOfMemory`, `ProfTables`). A reference-counting protocol under two lock levels,
  as interleaved steps of any number of threads: nothing freed is ever touched, with the exact condition
  under which running out of memory breaks that.
- **SHA-1** (`src/sha1.c`; `Sha1Standard`, `Sha1`, `Sha1Stream`). The streaming, unrolled, in-place code
  computes the digest that FIPS 180-4 defines, however the message is cut into pieces.
- **Quoted arguments** (`deps/hiredis/sds.c`; `SdsFormat`, `SdsQuotes`, `Sds`). What `sdscatrepr` quotes,
  `sdssplitargs` reads back, for all lists of all byte strings; which lines are refused.

`Sequences`, `Sums` and `Options` hold what several modules share. `dafny verify dfyconfig.toml` checks
everything.

## Findings

Where the code does not do what its comments or callers assume:

- `ckh_insert` that fails for lack of memory keeps the new item and gives up an old one, always if the
  table has not grown in that call (`Ckh.Table.Insert`). It cannot fail if one of the key's two buckets
  has an empty cell.
- `prof_lookup` frees the new context or counter after such a failure although the table still points
  to it. Later steps then touch freed memory, unless the item given up was the new one; that condition
  is exact (`ProfOutOfMemory.TableInsertSafe`, `ProfOutOfMemory.CacheInsertSafe`). When no table can be
  allocated at all, every failed insertion is of this kind; when a bucket of the key has room, none fails
  (`ProfTables.InsertContext`, `ProfTables.InsertCounter`).
- `prof_lookup` that fails to allocate a counter for a context made by another thread leaves `nlimbo`
  incremented. The context is then never freed (`ProfTheorems.LeakIsForever`), and this happens in
  reachable states (`ProfTheorems.LeakHappens`).
- `lzf_compress` closes a literal run (line 173) before it tests the space (line 176). The control byte
  goes behind `out_len` exactly if the run is empty and `op` is one past the end
  (`LzfCompress.StopRunIndex`; an input is in `LzfCompress.StopRunBehind`); the output buffer needs one
  spare byte.
- `SHA1Update` computes `j + len` on 32 bits. It copies within its buffer and its data exactly if the sum
  stays below 2^32 (`Sha1Stream.NoWrap`, `Sha1Stream.Context.Update`).
- `chunk_recycle` that gets no memory for a node, with space left on both sides of the block, returns the
  block but loses the space behind it (`ChunkExtents.Extents.Recycle`).
- A thread that comes back to `arena_bin_malloc_hard` with a new run makes it `runcur` even if another
  thread has put a lower run into the index meanwhile. Exactly then `runcur` is not the lowest non-full
  run, which the comment in `arena_bin_lower_run` wants it to be (`ArenaBins.Bin.Resume`). Only the order
  of allocation suffers.
- The quotient that the comment of `arena_chunk_dirty_comp` calls fragmentation is largest for a chunk
  that is not fragmented, so such chunks come first in `chunks_dirty` (`ArenaDirty.UnfragmentedFirst`).
- `lzf.h` promises an output below 104% of the input. That holds for all data of length `len` exactly
  if `25 * ceil(len / 32) < len`; for other lengths some data needs more in any encoding
  (`LzfTheorems.DocumentedBound`, `LzfTheorems.CompressLong`).
- `arena_ralloc_large_grow` compares with `size - oldsize` in an unsigned type, so it fails whenever
  `size < oldsize`, although `arena_ralloc_large` calls it in that case when `size + extra` exceeds
  `oldsize` (`Arena.Arena.LargeGrow`; an input is in `Arena.Arena.RallocWraps`).
- The comment on the cached cardinality of a HyperLogLog speaks of the most significant byte; the code
  uses bit 7 of `card[0]`, which also holds the low byte of the count. A count that is stored is
  therefore valid only if its bit 7 is clear (`HllKeyspace.Keyspace.Pfcount`). The value returned is
  right in either case.
- `hllPatLen` counts up to 50, not 51 as its comment says (`HllPattern.PatLen`).

## Model

| member | source | states |
|---|---|---|
| Arena.Arena.constructor | redis-3.0/deps/jemalloc/src/arena.c:2097-2140 | an arena without chunks is valid |
| Arena.Arena.AvailInsert | redis-3.0/deps/jemalloc/src/arena.c:247-278 | a run that becomes free is listed, and the counters, adjusted only by what the neighbouring tags say, are again those of all runs of the chunk; chunks_dirty holds the chunk iff it has dirty free pages |
| Arena.Arena.AvailRemove | redis-3.0/deps/jemalloc/src/arena.c:280-312 | the converse: the run leaves the index, and the counters and chunks_dirty fit the runs again |
| Arena.Arena.RunSplit | redis-3.0/deps/jemalloc/src/arena.c:371-511 | the first pages of a free run become one allocated run with all its tags, the rest stays free with its flag; nothing else changes |
| Arena.Arena.ChunkAlloc | redis-3.0/deps/jemalloc/src/arena.c:513-586 | the spare if there is one, else new memory of any content, enters the index as one maximal free run |
| Arena.Arena.ChunkDealloc | redis-3.0/deps/jemalloc/src/arena.c:588-618 | a wholly free chunk leaves index and counters and becomes the spare |
| Arena.Arena.BestFit | redis-3.0/deps/jemalloc/src/arena.c:106-132 | the search finds a free run iff one is large enough, and then the smallest such, the lowest of these |
| Arena.Arena.RunAlloc | redis-3.0/deps/jemalloc/src/arena.c:620-677 | keeps Valid; the run comes from the lowest best fit, else from the spare or a new chunk; it was free before; every other run and chunk is untouched; it fails only if nothing fits and there is no memory |
| Arena.Arena.RunDalloc | redis-3.0/deps/jemalloc/src/arena.c:960-1094 | keeps Valid; exactly this run becomes free, joined with the free neighbours of the same flag; the other allocated runs stay; the chunk is retired iff it is now wholly free |
| Arena.Arena.RunTrimHead | redis-3.0/deps/jemalloc/src/arena.c:1096-1126 | keeps Valid; the leading pages are freed, the last newsize pages stay one allocated run |
| Arena.Arena.RunTrimTail | redis-3.0/deps/jemalloc/src/arena.c:1128-1159 | keeps Valid; the trailing pages are freed, the first newsize pages stay one allocated run |
| Arena.Arena.LargeGrow | redis-3.0/deps/jemalloc/src/arena.c:1823-1887 | keeps Valid; fails iff the pages behind are not free, too few, or size < oldsize; else the run takes as many of them as size + extra allows, and all other runs stay |
| Arena.Arena.RallocLarge | redis-3.0/deps/jemalloc/src/arena.c:1893-1935 | keeps Valid; the exact number of pages after the resize in place, between size and size + extra bytes if it does not fail; the exact failure condition; all other runs stay |
| Arena.Arena.RallocWraps | redis-3.0/deps/jemalloc/src/arena.c:1836-1838 | an input at which there is room for the size and the call fails, because size < oldsize |
| Arena.Arena.MallocLarge | redis-3.0/deps/jemalloc/src/arena.c:1488-1523 | keeps Valid; a new large run of the pages the size needs, no live run disturbed; which chunk joins the arena and what becomes of the spare |
| Arena.Arena.Palloc | redis-3.0/deps/jemalloc/src/arena.c:1525-1578 | keeps Valid; exactly size pages stay allocated, at an aligned address, no live run disturbed; which chunk joins the arena and what becomes of the spare |
| Arena.Arena.DallocLarge | redis-3.0/deps/jemalloc/src/arena.c:1763-1791 | keeps Valid; the run is freed as dirty and coalesced, no allocated run begins there; the chunk is retired iff it is now wholly free |
| ArenaRuns.NoOverlap | redis-3.0/deps/jemalloc/src/arena.c:371-511 | no page belongs to two runs |
| ArenaRuns.Covers | redis-3.0/deps/jemalloc/src/arena.c:371-511 | every page belongs to a run |
| ArenaRuns.PagesConserved | redis-3.0/deps/jemalloc/src/arena.c:960-1094 | the sizes of the runs of a chunk add up to its pages |
| ArenaBooks.CountsFree | redis-3.0/deps/jemalloc/src/arena.c:247-278 | how all four counts of a chunk change when a run becomes free depends only on its two neighbours |
| ArenaBooks.CountsTake | redis-3.0/deps/jemalloc/src/arena.c:280-312 | likewise when a free run is taken |
| ArenaBooks.FewerPairs | redis-3.0/deps/jemalloc/src/arena.c:267-300 | the assertions nruns_avail > nruns_adjac, unless both are 0 |
| ArenaMap.NextTag | redis-3.0/deps/jemalloc/src/arena.c:223-237 | the map entry behind a run tells exactly whether a free run follows, its size and its flag |
| ArenaMap.PreviousTag | redis-3.0/deps/jemalloc/src/arena.c:208-221 | the map entry before a run tells the same of the previous run |
| ArenaDirty.Antisymmetric | redis-3.0/deps/jemalloc/src/arena.c:138-195 | the products compare two dirty chunks as the quotients of the comment do, ties by address; the assertion at ties holds |
| ArenaDirty.Transitive | redis-3.0/deps/jemalloc/src/arena.c:138-195 | so chunks_dirty is totally ordered |
| ArenaDirty.UnfragmentedFirst | redis-3.0/deps/jemalloc/src/arena.c:138-195 | a chunk that is not fragmented comes before every fragmented one |
| ArenaNeighbours.FreedOthers | redis-3.0/deps/jemalloc/src/arena.c:960-1094 | freeing and coalescing leave every other allocated run as it was |
| ArenaRegions.SmallRun.RegAlloc | redis-3.0/deps/jemalloc/src/arena.c:314-333 | the lowest free region; nfree counts the free regions and no region from nextind on has been used |
| ArenaRegions.SmallRun.RegDalloc | redis-3.0/deps/jemalloc/src/arena.c:335-359 | exactly this region becomes free |
| ArenaBins.Bin.UseLowest | redis-3.0/deps/jemalloc/src/arena.c:1206-1216 | the lowest run with a free region becomes runcur; the index keeps exactly the others |
| ArenaBins.Bin.AllocRun | redis-3.0/deps/jemalloc/src/arena.c:1230-1247 | a new run of the arena, all of its regions free, on pages that no run of the bin has; fails only if the arena has no pages |
| ArenaBins.Bin.Malloc | redis-3.0/deps/jemalloc/src/arena.c:1433-1452 | keeps Valid: the index is exactly the non-full runs but runcur, which lies below them; the lowest free region of the lowest such run comes into use, and none that was in use; fails only without any free region and memory |
| ArenaBins.Bin.MallocHard | redis-3.0/deps/jemalloc/src/arena.c:1275-1322 | the same when runcur is full or missing and no other thread comes in between |
| ArenaBins.Bin.Resume | redis-3.0/deps/jemalloc/src/arena.c:1250-1322 | the rest of it after other threads have changed bin and arena in any way: a region that was not in use, from runcur if it is ready again, and then the new run goes back; all regions stay apart; runcur is left above the index in exactly one case |
| ArenaBins.Bin.LowerRun | redis-3.0/deps/jemalloc/src/arena.c:1677-1696 | a run that has a free region again enters the index or replaces a higher runcur |
| ArenaBins.Bin.Dissociate | redis-3.0/deps/jemalloc/src/arena.c:1603-1624 | a run without regions in use leaves index and bin, also when it has one region only |
| ArenaBins.Bin.DallocRun | redis-3.0/deps/jemalloc/src/arena.c:1626-1675 | keeps the arena valid; untouched clean pages are trimmed, all pages of the run are freed, no other run changes; which chunk is retired |
| ArenaBins.Bin.Dalloc | redis-3.0/deps/jemalloc/src/arena.c:1698-1731 | keeps Valid; exactly this region leaves use; the run goes back to the arena iff it was its last |
| ArenaBins.LiveApart | redis-3.0/deps/jemalloc/src/arena.c:314-333 | no two regions in use overlap, within a bin or across bins |
| ArenaFamily.BesideMallocSmall | redis-3.0/deps/jemalloc/src/arena.c:1433-1452 | allocating in one bin keeps all bins valid and leaves the others as they are; the lowest free region of the lowest run; the exact failure condition; the pages in use grow by those of the new run, if any |
| ArenaFamily.BesideDallocSmall | redis-3.0/deps/jemalloc/src/arena.c:1698-1731 | so does freeing; exactly the region leaves use, and the pages of its run iff it was the last; every other run of the arena is as it was |
| ArenaFamily.BesideMallocLarge | redis-3.0/deps/jemalloc/src/arena.c:1488-1523 | a large allocation leaves all bins as they are; the pages in use grow by the size; the exact failure condition |
| ArenaFamily.BesidePalloc | redis-3.0/deps/jemalloc/src/arena.c:1525-1578 | so does an aligned one, at an aligned address |
| ArenaFamily.BesideDallocLarge | redis-3.0/deps/jemalloc/src/arena.c:1763-1791 | a large free leaves all bins as they are; the run is no longer used, and its pages are no longer counted |
| ArenaFamily.BesideRallocLarge | redis-3.0/deps/jemalloc/src/arena.c:1893-1935 | so does a resize in place, to the exact number of pages; the exact failure condition |
| ArenaHistory.ArenaNew | redis-3.0/deps/jemalloc/src/arena.c:2097-2154 | a new arena with an empty bin for each size class is valid, and nothing in it is in use |
| ArenaHistory.Step | redis-3.0/deps/jemalloc/src/arena.c:1432-1935 | one call: an allocation answers with the right object, of the right size and alignment, and fails exactly if there is neither room nor memory; a freed object is in use no more; a resized one has as many pages as fit; every other run stays; what comes to the memory of the arena and what leaves it |
| ArenaHistory.Serve | redis-3.0/deps/jemalloc/src/arena.c:1432-1935 | every history of calls: each does what Step says, and after each of them the objects held are exactly what is in use; memory that is given back may be offered again, and none is lost |
| ArenaHistory.AllGivenBack | redis-3.0/deps/jemalloc/src/arena.c:1603-1791 | when the program holds nothing, no page and no run of a bin is in use |
| ArenaHistory.ObjectsApart | redis-3.0/deps/jemalloc/src/arena.c:1432-1935 | no two objects that the program holds overlap, small or large |
| ExtentLists.SameSpace | redis-3.0/deps/jemalloc/src/chunk.c:209-284 | disjoint, never adjacent extents are determined by the addresses they cover |
| ExtentTrees.Remove | redis-3.0/deps/jemalloc/src/extent.c:6-27 | a node is found by its key in a tree in order; the tree without it is in order |
| ExtentTrees.SearchSize | redis-3.0/deps/jemalloc/src/extent.c:6-27 | the smallest extent of at least the size, the lowest of these |
| ChunkExtents.Extents.Change | redis-3.0/deps/jemalloc/src/chunk.c:232-246 | a node changed in place keeps its position in the tree by address, and both trees stay right |
| ChunkExtents.Extents.Record | redis-3.0/deps/jemalloc/src/chunk.c:209-284 | keeps Valid; the block is free again, coalesced on both sides; it is lost iff there is no memory for a node and no extent begins behind it |
| ChunkExtents.Extents.Recycle | redis-3.0/deps/jemalloc/src/chunk.c:44-130 | keeps Valid; a block at the first aligned address of the best-fitting extent is no longer free, everything else is as before; fails iff no extent is large enough or a node is missing, and what is lost then |
| ChunkExtents.Extents.RecycleAndRecord | redis-3.0/deps/jemalloc/src/chunk.c:44-284 | with memory for nodes, recycling a block and recording it again restores the same extents |
| Tcache.Tbin.Pass | redis-3.0/deps/jemalloc/src/tcache.c:109-135 | the objects of the locked arena are given back, the others stashed in order at the front of the same array |
| Tcache.Tbin.Flush | redis-3.0/deps/jemalloc/src/tcache.c:81-161 | terminates; the calls and the locks of a flush; the last rem objects stay in order; the statistics are merged exactly once (so the assertion in the loop holds) |
| Tcache.FlushedOnce | redis-3.0/deps/jemalloc/src/tcache.c:163-235 | every flushed object is given back exactly once, to the arena that owns it |
| Tcache.LockedOnce | redis-3.0/deps/jemalloc/src/tcache.c:163-235 | exactly the arenas that own flushed objects are locked, each once |
| LzfTheorems.RoundTrip | redis-3.0/src/lzf_c.c:98-294 | decompressing what was compressed gives the data back, for any hash function, table content and sufficient buffer |
| LzfCompress.Compress | redis-3.0/src/lzf_c.c:98-294 | the output decodes to the input, is never longer than in_len + ceil(in_len/32), fits out_len, and is produced whenever out_len >= in_len + in_len/32 + 4 |
| LzfCompress.StopRunIndex | redis-3.0/src/lzf_c.c:173-177 | where the byte that closes a run goes: within out_len, or behind it in exactly one case |
| LzfCompress.StopRunBehind | redis-3.0/src/lzf_c.c:173-177 | an input for which it goes behind: 32 different bytes, then repeats, and room for 33 |
| LzfDecompress.Decompress | redis-3.0/src/lzf_d.c:55-149 | data, E2BIG or EINVAL exactly as the format says, for every byte string and every room |
| LzfFormat.DecodesIffTokens | redis-3.0/src/lzf_d.c:64-148 | the accepted byte strings are exactly the encodings of token sequences that never reach back before the start |
| LzfFormat.DecodeEncode | redis-3.0/src/lzf_c.c:89-96 | what is written as tokens decodes to what the tokens stand for |
| LzfFormat.MatchCopies | redis-3.0/src/lzf_d.c:95-145 | a match in the data is reproduced by copying byte by byte, also when source and target overlap |
| LzfTheorems.DocumentedBound | redis-3.0/src/lzf.h:55-61 | the exact lengths for which the documented 104% holds |
| LzfTheorems.CompressLong | redis-3.0/src/lzf.h:55-61 | Compress itself exceeds 104% on data of other lengths without repeated bytes |
| HllPattern.PatLen | redis-3.0/src/hyperloglog.c:444-470 | register index and run of zeros of a hash, from 1 to 50 |
| HllDense.SetGet | redis-3.0/src/hyperloglog.c:331-359 | storing a packed register changes that register only and keeps the terminator |
| HllSparse.SpellsOne | redis-3.0/src/hyperloglog.c:361-383 | a string of opcodes stands for one register array only |
| HllSparse.MergeVals | redis-3.0/src/hyperloglog.c:834-864 | two adjacent VAL opcodes of one value can become one without changing the registers |
| HllObject.Hll.SparseToDense | redis-3.0/src/hyperloglog.c:568-620 | the packed registers are those of the opcodes, the cached count is copied |
| HllObject.Hll.DenseAdd | redis-3.0/src/hyperloglog.c:485-498 | exactly the element's register is raised to its pattern length, the reply says whether |
| HllObject.Hll.SparseAdd | redis-3.0/src/hyperloglog.c:638-882 | 0 and no change iff the register is large enough; else splice, merge or promotion to the old registers with that one raised; growth of at most 3 bytes; the limit; the cache flag; the assertion of line 880 |
| HllObject.Hll.MergeAdjacent | redis-3.0/src/hyperloglog.c:834-864 | merging keeps the registers and never lengthens the string |
| HllCount.DenseSum | redis-3.0/src/hyperloglog.c:504-558 | the unrolled sum over packed bytes is the sum of 2^-register and the number of zeros |
| HllCount.DenseSumGeneric | redis-3.0/src/hyperloglog.c:544-556 | the generic loop gives the same |
| HllCount.SparseSum | redis-3.0/src/hyperloglog.c:888-918 | the sum over opcodes gives the same |
| HllCount.RawSum | redis-3.0/src/hyperloglog.c:928-954 | the sum over eight registers at a time, skipping zero words, gives the same |
| HllCommands.Count | redis-3.0/src/hyperloglog.c:967-1024 | the count depends on the registers only, not on the encoding |
| HllCommands.Merge | redis-3.0/src/hyperloglog.c:1044-1083 | register-wise maximum, from either encoding |
| HllCommands.SavedValid | redis-3.0/src/hyperloglog.c:190-192 | a stored count is valid iff its bit 7 is clear |
| HllCommands.LoadSave | redis-3.0/src/hyperloglog.c:1222-1264 | the eight card bytes give back the count |
| HllRegisters.SketchUnique | redis-3.0/src/hyperloglog.c:485-498 | the set of elements alone determines the registers: not order, repeats or representation |
| HllRegisters.SketchMerge | redis-3.0/src/hyperloglog.c:1044-1083 | the register-wise maximum of the registers of A and of B is that of A and B together |
| HllKeyspace.Keyspace.Pfadd | redis-3.0/src/hyperloglog.c:1155-1192 | the key then stands for its elements and the new ones; replies 1 iff it was created or a register changed; every cached count that is valid is the count |
| HllKeyspace.Keyspace.Pfmerge | redis-3.0/src/hyperloglog.c:1285-1343 | the destination stands for the union of its elements and those of all sources |
| HllKeyspace.Keyspace.PfcountUnion | redis-3.0/src/hyperloglog.c:1200-1227 | the count that every register array for the union of the keys has |
| HllKeyspace.Keyspace.Pfcount | redis-3.0/src/hyperloglog.c:1229-1281 | the count of the key's elements, from the cache or computed; what is cached and when it is valid |
| Ckh.Table.constructor | redis-3.0/deps/jemalloc/src/ckh.c:346-399 | an empty table, the smallest power of two that stays at most three quarters full |
| Ckh.Table.ISearch | redis-3.0/deps/jemalloc/src/ckh.c:70-89 | finds exactly the stored keys |
| Ckh.Table.TryBucketInsert | redis-3.0/deps/jemalloc/src/ckh.c:91-115 | the item goes into an empty cell of the bucket, or all cells are full and nothing changes |
| Ckh.Table.EvictRelocInsert | redis-3.0/deps/jemalloc/src/ckh.c:123-190 | table and item in hand together hold what they held, after any number of evictions; on a cycle the item in hand is an old one |
| Ckh.Table.TryInsert | redis-3.0/deps/jemalloc/src/ckh.c:192-215 | the same from either bucket; it succeeds if a bucket has room |
| Ckh.Table.Rebuild | redis-3.0/deps/jemalloc/src/ckh.c:221-242 | on success the new table holds exactly the old bindings |
| Ckh.Table.Resize | redis-3.0/deps/jemalloc/src/ckh.c:277-296 | a rebuild that fails leaves table, count and size as they were |
| Ckh.Table.Grow | redis-3.0/deps/jemalloc/src/ckh.c:244-297 | the same bindings in a larger table, or no change at all |
| Ckh.Table.Insert | redis-3.0/deps/jemalloc/src/ckh.c:454-476 | the map with the new binding; on failure which item is lost, and when it cannot fail |
| Ckh.Table.Search | redis-3.0/deps/jemalloc/src/ckh.c:509-526 | finds exactly the keys of the map, with their data |
| Ckh.Table.Remove | redis-3.0/deps/jemalloc/src/ckh.c:478-507 | the map without the key, whether or not the shrink works |
| Ckh.Table.Iter | redis-3.0/deps/jemalloc/src/ckh.c:434-452 | the next occupied cell |
| CkhTable.ModelsEvict | redis-3.0/deps/jemalloc/src/ckh.c:144-152 | exchanging the item in hand and a cell conserves the bindings of both together |
| CkhTable.OccupiedCells | redis-3.0/deps/jemalloc/src/ckh.c:425-432 | the occupied cells are as many as the bindings, which count says |
| Pqsort.Sort | redis-3.0/src/pqsort.c:179-185 | a permutation in which every position of the wanted range is final |
| Pqsort.SortPart | redis-3.0/src/pqsort.c:98-177 | the same for every part, with what the callers have already finished kept |
| Pqsort.Partition | redis-3.0/src/pqsort.c:127-156 | smaller, equal and larger elements, three ways, by exchanges only |
| Pqsort.FinalIsUnique | redis-3.0/src/pqsort.c:179-185 | two arrangements of the same elements agree, up to ties, wherever both are final: the partial sort agrees with any full sort |
| Pqsort.Med3IsMedian | redis-3.0/src/pqsort.c:88-96 | the chosen element lies between the other two |
| Pqsort.InsertionSort | redis-3.0/src/pqsort.c:106-111 | short parts are sorted completely |
| ProfTheorems.StepKeeps | redis-3.0/deps/jemalloc/src/prof.c:431-553 | every step of every thread keeps the invariant and touches no freed memory |
| ProfTheorems.NeverFaults | redis-3.0/deps/jemalloc/src/prof.c:674-752 | the same for every schedule of any number of threads |
| ProfTheorems.FreedUnused | redis-3.0/deps/jemalloc/src/prof.c:691-704 | a context is freed only if nothing links it, finds it, points to it or counts in its nlimbo but the thread that frees it |
| ProfTheorems.InUse | redis-3.0/deps/jemalloc/src/prof.c:431-553 | nlimbo is never below the number of threads between lookup and link or merge and destroy; a linked or held context is in bt2ctx; its counters add up to its live objects |
| ProfTheorems.LimboExact | redis-3.0/deps/jemalloc/src/prof.c:717-752 | nlimbo exceeds that number by exactly the leaks |
| ProfTheorems.LeakIsForever | redis-3.0/deps/jemalloc/src/prof.c:519-527 | after a leak the context stays, leaked, under every schedule |
| ProfTheorems.LeakHappens | redis-3.0/deps/jemalloc/src/prof.c:519-527 | two threads can reach a leak |
| ProfOutOfMemory.TableInsertSafe | redis-3.0/deps/jemalloc/src/prof.c:484-490 | after a failed insertion into bt2ctx every schedule is safe iff the binding given up is the new one |
| ProfOutOfMemory.CacheInsertSafe | redis-3.0/deps/jemalloc/src/prof.c:535-540 | likewise for the cache of a thread |
| ProfTables.InsertContext | redis-3.0/deps/jemalloc/src/prof.c:484-490 | the same with the table itself: without memory every failure is unsafe, and with room in a bucket there is none |
| ProfTables.InsertCounter | redis-3.0/deps/jemalloc/src/prof.c:535-540 | likewise for the cache of a thread |
| Sha1.Transform | redis-3.0/src/sha1.c:58-114 | the 80 unrolled rounds over an in-place 16-word schedule compute section 6.1.2 of FIPS 180-4 |
| Sha1.Blk | redis-3.0/src/sha1.c:43-44 | overwriting one of 16 words in place yields the next word of the message schedule |
| Sha1Stream.Context.Update | redis-3.0/src/sha1.c:133-152 | the context then stands for the message so far and the new bytes, exactly if the call does not leave its buffer |
| Sha1Stream.Context.Final | redis-3.0/src/sha1.c:157-199 | the digest of all bytes given, with the padding of section 5.1.1 |
| Sha1Stream.CountUp | redis-3.0/src/sha1.c:138-141 | two 32-bit words with a carry count 8 bits per byte modulo 2^64 |
| Sha1Stream.NoWrap | redis-3.0/src/sha1.c:142-151 | the branch taken and the loop stay within buffer and data exactly if j + len < 2^32 |
| Sha1Stream.DigestOfPieces | redis-3.0/src/sha1.c:119-199 | however a message is cut into pieces, the result is the SHA-1 digest of the whole, exactly if no call leaves its buffer |
| Sds.CatRepr | redis-3.0/deps/hiredis/sds.c:553-577 | appends the quoted form of the bytes |
| Sds.SplitArgs | redis-3.0/deps/hiredis/sds.c:628-736 | the arguments of a line, or nothing |
| SdsQuotes.RefusedIff | redis-3.0/deps/hiredis/sds.c:623-626 | a line is refused exactly if its quotes are unbalanced or closed in front of a character that is no blank |
| SdsFormat.RoundTrip | redis-3.0/deps/hiredis/sds.c:614-625 | quoting, joining with spaces and splitting gives every list of byte strings back, exactly if NUL is not printable |
| SdsFormat.ScanEscaped | redis-3.0/deps/hiredis/sds.c:649-676 | each escape is read as the byte it was written for, whatever follows |

## Left out

- Run allocator: purging and `madvise`, the red-black tree `chunks_dirty` (its members and its order are modelled), zeroing and the contents of the `unzeroed` flags beyond their copying, junk filling and statistics.
- Run allocator: the arena lock is dropped while a chunk is obtained or given back (lines 538-542, 610-612); calls are modelled as one after the other.
- Run allocator: the red-black tree `runs_avail` is a set; addresses and sizes are in pages, and `size + extra` does not wrap.
- Arena.Arena.Palloc: alignment is any positive number of pages and is rounded up by arithmetic, which for powers of two is the bit mask of the source.
- ArenaBins.Bin.MallocHard: no other thread comes in between; ArenaBins.Bin.Resume is the part after the lock is held again, for any state that other threads leave. Histories of several threads are not composed from it.
- Bins: the bitmap is a sequence of flags; the sizes that `bin_info_run_size_calc` computes are assumed to lay out the run.
- Free chunks: the `zeroed` flags, purging, the choice between dss and mmap (whether `chunk_dealloc` unmaps a block is a parameter), `base` requests; each call is atomic; red-black trees are sequences in their order; addresses and sizes are counted in chunks.
- Thread caches: only flushing; profiling and junk filling are left out, and the two flush functions differ only in these and in what is locked.
- Huge allocations, the chained hash table of hiredis (`deps/hiredis/dict.c`) and the slot allocation of `redis-trib.rb` are not part of this model.
- LZF: the ULTRA_FAST variant and the hash read from a one-byte input (line 144); the default VERY_FAST form is followed with the hash as a parameter.
- HyperLogLog: corrupted sparse strings, the header bytes other than the encoding and the cached count, rounding, MurmurHash64A and the formula after the sums, which are parameters; replication and key events.
- Ckh.Table.EvictRelocInsert: the eviction loop has no bound in the source; `fuel` bounds it here and OutOfFuel stands for a call that has not returned, about which nothing is promised.
- Cuckoo table: keys are compared with ==; the built-in hash functions are a parameter.
- Pqsort.Sort: the element-size specific copying of the swap macros; elements are exchanged whole, and the comparison is a total preorder.
- Profiling contexts: a critical section under one context's lock is one step; only the current-object counters, not the accumulated ones; dumping, and the choice of the victim in a full cache (any entry may be evicted).
- ProfTheorems.StepKeeps: failures of `ckh_insert` that keep the new binding are no steps here; they are the subject of ProfOutOfMemory.
- ProfTheorems.NeverFaults: covers the failures of `ckh_insert` that give up the new binding; the others are the subject of ProfOutOfMemory.
- Sha1Stream.Context.Update: says nothing about the context after a call that has left its buffer.
- Quoted arguments: `isprint` is a parameter, `isspace` that of the C locale; allocation failures.
- SHA-1: the big-endian form of `blk0`; the 80 rounds are split over nine methods.
