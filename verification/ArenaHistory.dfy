/** Every history of calls on an arena with its bins (deps/jemalloc/src/arena.c). */
module ArenaHistory {
  import opened Alignment
  import opened ArenaBooks
  import opened ArenaNeighbours
  import opened ArenaChunks
  import opened ArenaRegions
  import opened ArenaBins
  import opened ArenaSurvival
  import opened ArenaFamily
  import opened ArenaObjects
  import opened ArenaHeap
  import A = Arena

  /** A call of the program; objects are named by their place in the list of those it holds. */
  datatype Request =
    | Malloc(bin: nat)
    | MallocLarge(size: nat)
    | Palloc(size: nat, alignment: nat)
    | Dalloc(j: nat)
    | Ralloc(j: nat, size: nat, extra: nat)

  /** A call that the program may make; runs have at most `limit` pages. */
  predicate Legal(bins: nat, limit: int, objects: seq<Object>, request: Request) {
    match request
    case Malloc(k) => k < bins
    case MallocLarge(size) => 0 < Pages(size) <= limit
    case Palloc(size, alignment) => size > 0 && alignment > 0 && size + alignment - 1 <= limit
    case Dalloc(j) => j < |objects|
    case Ralloc(j, size, extra) => j < |objects| && objects[j].Big? && size + extra > 0
  }

  /** What the program holds after a legal call. */
  ghost predicate Answers(infos: seq<Info>, view: View, objects: seq<Object>, request: Request, offered: bool,
      view': View, objects': seq<Object>)
    requires |view.bins| == |infos|
  {
    match request
    case Malloc(k) => k < |infos| && SmallAnswer(view, infos, k, offered, objects, objects')
    case MallocLarge(size) => LargeAnswer(view, Pages(size), Pages(size), offered, objects, objects')
    case Palloc(size, alignment) =>
      && size + alignment > 0 && LargeAnswer(view, size + alignment - 1, size, offered, objects, objects')
      && (OneMore(objects, objects') ==>
            var place := Place(Newest(objects')); Aligned(place.0.addr + place.1, alignment))
    case Dalloc(j) => j < |objects| && FreeAnswer(view', j, objects, objects')
    case Ralloc(j, size, extra) =>
      j < |objects| && objects[j].Big? && ResizeAnswer(view, j, size, extra, objects, objects')
  }

  /** The run that a call may change. */
  function Changed(objects: seq<Object>, request: Request): (Chunk?, nat) {
    match request
    case Dalloc(j) => if j < |objects| then Place(objects[j]) else (null, 0)
    case Ralloc(j, _, _) => if j < |objects| then Place(objects[j]) else (null, 0)
    case _ => (null, 0)
  }

  /** A legal call is answered; no other call has an effect. */
  ghost predicate Served(infos: seq<Info>, limit: int, view: View, objects: seq<Object>, request: Request,
      offered: bool, view': View, objects': seq<Object>)
    requires |view.bins| == |infos|
  {
    if Legal(|infos|, limit, objects, request) then Answers(infos, view, objects, request, offered, view', objects')
    else view' == view && objects' == objects
  }

  lemma Untouched(bins: seq<Bin>, arena: A.Arena, memory: Chunk?)
    requires AllValid(bins, arena) && New(arena, memory)
    ensures Survive(Snapshot(arena), Snapshot(arena), null, 0)
    ensures Exchange(HoldingsOf(arena), HoldingsOf(arena), null)
    ensures Sized(memory, arena.npages) && Sized(arena.spare, arena.npages) && memory !in arena.chunks
  {
    AllValidMeans(bins, arena);
    SoundMeans(arena);
    NewMeans(arena, memory);
    SizedIn(arena, arena.spare);
    AllSurvive(Snapshot(arena), HoldingsOf(arena));
  }

  /** A legal allocation. */
  method Allocate(bins: seq<Bin>, arena: A.Arena, objects: seq<Object>, request: Request, memory: Chunk?, zero: bool)
      returns (objects': seq<Object>)
    requires Valid(bins, arena, objects) && New(arena, memory)
    requires Legal(|bins|, arena.npages - arena.bias, objects, request) && !request.Dalloc? && !request.Ralloc?
    modifies arena, Memory(arena), bins, AllRuns(bins), memory
    ensures Valid(bins, arena, objects') && fresh(AllRuns(bins) - old(AllRuns(bins)))
    ensures Answers(Infos(bins), old(ViewOf(bins, arena)), objects, request, memory != null, ViewOf(bins, arena),
              objects')
    ensures Survive(old(Snapshot(arena)), Snapshot(arena), null, 0)
    ensures Exchange(old(HoldingsOf(arena)), HoldingsOf(arena), From(Supplier(objects, objects'), memory))
    ensures Sized(memory, arena.npages) && Sized(old(arena.spare), arena.npages)
  {
    match request
    case Malloc(k) => objects' := AllocSmall(bins, arena, objects, k, memory, zero);
    case MallocLarge(size) => objects' := AllocLarge(bins, arena, objects, size, memory, zero);
    case Palloc(size, alignment) => objects' := AllocAligned(bins, arena, objects, size, alignment, memory, zero);
  }

  /** A legal free or resize. */
  method Release(bins: seq<Bin>, arena: A.Arena, objects: seq<Object>, request: Request, ghost offered: bool)
      returns (objects': seq<Object>)
    requires Valid(bins, arena, objects)
    requires Legal(|bins|, arena.npages - arena.bias, objects, request) && (request.Dalloc? || request.Ralloc?)
    modifies arena, arena.chunks, bins, AllRuns(bins)
    ensures Valid(bins, arena, objects') && AllRuns(bins) <= old(AllRuns(bins)) && !OneMore(objects, objects')
    ensures Answers(Infos(bins), old(ViewOf(bins, arena)), objects, request, offered, ViewOf(bins, arena), objects')
    ensures Survive(old(Snapshot(arena)), Snapshot(arena), Changed(objects, request).0, Changed(objects, request).1)
    ensures Exchange(old(HoldingsOf(arena)), HoldingsOf(arena), null) && Sized(old(arena.spare), arena.npages)
  {
    match request
    case Dalloc(j) => objects' := GiveBack(bins, arena, objects, j);
    case Ralloc(j, size, extra) => objects' := Resize(bins, arena, objects, j, size, extra);
  }

  /** One call.  Every run but the one concerned is as it was. */
  method Step(bins: seq<Bin>, arena: A.Arena, objects: seq<Object>, request: Request, memory: Chunk?, zero: bool)
      returns (objects': seq<Object>)
    requires Valid(bins, arena, objects) && New(arena, memory)
    modifies arena, Memory(arena), bins, AllRuns(bins), memory
    ensures Valid(bins, arena, objects') && fresh(AllRuns(bins) - old(AllRuns(bins)))
    ensures Served(Infos(bins), arena.npages - arena.bias, old(ViewOf(bins, arena)), objects, request, memory != null,
              ViewOf(bins, arena), objects')
    ensures Survive(old(Snapshot(arena)), Snapshot(arena), Changed(objects, request).0, Changed(objects, request).1)
    ensures Exchange(old(HoldingsOf(arena)), HoldingsOf(arena), From(Supplier(objects, objects'), memory))
    ensures Sized(memory, arena.npages) && Sized(old(arena.spare), arena.npages)
  {
    Untouched(bins, arena, memory);
    if !Legal(|bins|, arena.npages - arena.bias, objects, request) {
      objects' := objects;
    } else if request.Dalloc? || request.Ralloc? {
      objects' := Release(bins, arena, objects, request, memory != null);
    } else {
      objects' := Allocate(bins, arena, objects, request, memory, zero);
    }
  }

  // ---------------------------------------------------------------- a new arena

  ghost predicate Classes(infos: seq<Info>, pages: nat) {
    && (forall k :: 0 <= k < |infos| ==> Layout(infos[k]) && infos[k].pages <= pages)
    && forall k, l :: 0 <= k < l < |infos| ==> infos[k].binind != infos[l].binind
  }

  lemma EmptyBins(bins: seq<Bin>, arena: A.Arena)
    requires Family(bins, arena) && Sound(arena) && arena.nactive == 0
    requires forall k :: 0 <= k < |bins| ==> bins[k].Valid() && bins[k].sorted && bins[k].all == {}
    ensures Valid(bins, arena, []) && AllRuns(bins) == {}
  {
    AllValidMeans(bins, arena);
    NoRuns(States(bins), Infos(bins));
    BalancedMeans(0, States(bins), Infos(bins), []);
  }

  /** arena_new: the arena and one empty bin for each size class. */
  method ArenaNew(bias: nat, npages: nat, infos: seq<Info>) returns (arena: A.Arena, bins: seq<Bin>)
    requires 1 <= bias < npages && Classes(infos, npages - bias)
    ensures fresh(arena) && arena.bias == bias && arena.npages == npages && Memory(arena) == {}
    ensures Valid(bins, arena, []) && AllRuns(bins) == {} && |bins| == |infos|
    ensures forall k :: 0 <= k < |bins| ==> fresh(bins[k]) && bins[k].info == infos[k]
  {
    arena := new A.Arena(bias, npages);
    SoundMeans(arena);
    bins := [];
    while |bins| < |infos|
      invariant |bins| <= |infos| && Sound(arena) && Memory(arena) == {} && arena.nactive == 0
      invariant forall k :: 0 <= k < |bins| ==> fresh(bins[k]) && bins[k].info == infos[k] && bins[k].arena == arena
      invariant forall k :: 0 <= k < |bins| ==> bins[k].Valid() && bins[k].sorted && bins[k].all == {}
      invariant forall k, l :: 0 <= k < l < |bins| ==> bins[k] != bins[l]
      decreases |infos| - |bins|
    {
      var bin := new Bin(arena, infos[|bins|]);
      bins := bins + [bin];
    }
    EmptyBins(bins, arena);
  }

  // ---------------------------------------------------------------- the memory outside the arena

  /** The memory that chunk_alloc may hand out. */
  ghost predicate Pooled(pool: set<Chunk>, arena: A.Arena)
    reads arena, pool
  {
    forall k {:trigger Asked(k)} :: Asked(k) ==>
      && pool !! Memory(arena) && Spaced(pool + Memory(arena), arena.npages)
      && forall c <- pool :: |c.pages| == arena.npages
  }

  lemma PooledMeans(pool: set<Chunk>, arena: A.Arena)
    ensures Pooled(pool, arena)
      <==> && pool !! Memory(arena) && Spaced(pool + Memory(arena), arena.npages)
           && forall c <- pool :: |c.pages| == arena.npages
  {
    assert Asked(0);
  }

  /** Any chunk of the pool is new to the arena. */
  lemma PoolNew(pool: set<Chunk>, arena: A.Arena, memory: Chunk?)
    requires Pooled(pool, arena) && (memory != null ==> memory in pool)
    ensures New(arena, memory)
  {
    PooledMeans(pool, arena);
    NewMeans(arena, memory);
    if memory != null {
      SpacedSubset(Memory(arena) + {memory}, pool + Memory(arena), arena.npages);
    }
  }

  /** What the arena gains comes from the pool; what it gives back goes there. */
  lemma Conserved(pool: set<Chunk>, held: Holdings, held': Holdings, gained: Chunk?)
    requires pool !! held.All() && Exchange(held, held', gained) && (gained != null ==> gained in pool)
    ensures var pool' := pool - Only(gained) + Only(Displaced(held.spare, held'.spare));
      pool' !! held'.All() && pool' + held'.All() == pool + held.All()
  {
    ExchangeMeans(held, held', gained);
  }

  // ---------------------------------------------------------------- histories

  /** An offer of chunk_alloc: memory, and whether it is zeroed. */
  datatype Offer = Offer(memory: Chunk?, zero: bool)

  /** The arena and its bins, what the program holds, and the memory outside the arena. */
  datatype Moment = Moment(view: View, objects: seq<Object>, pool: set<Chunk>)

  /** Memory that is not in the pool is not offered. */
  function Given(offer: Offer, pool: set<Chunk>): Chunk? {
    if offer.memory in pool then offer.memory else null
  }

  /** The call leads from one moment to the next. */
  ghost predicate Follows(infos: seq<Info>, limit: int, m: Moment, request: Request, offer: Offer, m': Moment) {
    && |m.view.bins| == |infos|
    && Served(infos, limit, m.view, m.objects, request, Given(offer, m.pool) != null, m'.view, m'.objects)
    && Survive(m.view.runs, m'.view.runs, Changed(m.objects, request).0, Changed(m.objects, request).1)
    && Exchange(m.view.held, m'.view.held, From(Supplier(m.objects, m'.objects), Given(offer, m.pool)))
    && m'.pool !! m'.view.held.All() && m'.pool + m'.view.held.All() == m.pool + m.view.held.All()
  }

  /** trace[n] is the moment after n calls. */
  ghost predicate Traced(infos: seq<Info>, limit: int, requests: seq<Request>, offers: seq<Offer>, trace: seq<Moment>) {
    && 0 < |trace| <= |requests| + 1 && |offers| == |requests|
    && (forall n {:trigger trace[n]} :: 0 <= n < |trace| ==> Consistent(trace[n].view, infos, trace[n].objects))
    && forall n {:trigger trace[n]} :: 0 <= n < |trace| - 1 ==>
         Follows(infos, limit, trace[n], requests[n], offers[n], trace[n + 1])
  }

  lemma TracedMore(infos: seq<Info>, limit: int, requests: seq<Request>, offers: seq<Offer>, trace: seq<Moment>,
      m: Moment)
    requires Traced(infos, limit, requests, offers, trace) && |trace| <= |requests|
    requires var n := |trace| - 1; Follows(infos, limit, trace[n], requests[n], offers[n], m)
    requires Consistent(m.view, infos, m.objects)
    ensures Traced(infos, limit, requests, offers, trace + [m])
  {
  }

  ghost function MomentOf(bins: seq<Bin>, arena: A.Arena, objects: seq<Object>, pool: set<Chunk>): Moment
    reads arena, arena.chunks, bins, AllRuns(bins)
  {
    Moment(ViewOf(bins, arena), objects, pool)
  }

  /** One call of a history. */
  method Next(bins: seq<Bin>, arena: A.Arena, objects: seq<Object>, pool: set<Chunk>, request: Request, offer: Offer)
      returns (objects': seq<Object>, pool': set<Chunk>)
    requires Valid(bins, arena, objects) && Pooled(pool, arena)
    modifies arena, Memory(arena), bins, AllRuns(bins), pool
    ensures Valid(bins, arena, objects') && Pooled(pool', arena) && fresh(AllRuns(bins) - old(AllRuns(bins)))
    ensures Follows(Infos(bins), arena.npages - arena.bias, old(MomentOf(bins, arena, objects, pool)), request, offer,
              MomentOf(bins, arena, objects', pool'))
  {
    ghost var held := HoldingsOf(arena);
    var memory, spare := Given(offer, pool), arena.spare;
    PoolNew(pool, arena, memory);
    PooledMeans(pool, arena);
    objects' := Step(bins, arena, objects, request, memory, offer.zero);
    var gained, gone := From(Supplier(objects, objects'), memory), Displaced(spare, arena.spare);
    Conserved(pool, held, HoldingsOf(arena), gained);
    pool' := pool - (if gained == null then {} else {gained}) + if gone == null then {} else {gone};
    PooledMeans(pool', arena);
  }

  /** In every history of calls, with memory or without, each call does what it should, and what the
      program holds is all that is in use, after the last call and after each call before it. */
  method Serve(bins: seq<Bin>, arena: A.Arena, objects: seq<Object>, pool: set<Chunk>, requests: seq<Request>,
      offers: seq<Offer>) returns (objects': seq<Object>, pool': set<Chunk>, ghost trace: seq<Moment>)
    requires Valid(bins, arena, objects) && Pooled(pool, arena) && |offers| == |requests|
    modifies arena, Memory(arena), bins, AllRuns(bins), pool
    ensures Valid(bins, arena, objects') && Pooled(pool', arena) && |trace| == |requests| + 1
    ensures trace[0] == old(MomentOf(bins, arena, objects, pool))
    ensures trace[|requests|] == MomentOf(bins, arena, objects', pool')
    ensures Traced(Infos(bins), arena.npages - arena.bias, requests, offers, trace)
    ensures pool' + Memory(arena) == pool + old(Memory(arena))
  {
    objects', pool' := objects, pool;
    trace := [MomentOf(bins, arena, objects, pool)];
    ghost var infos, limit := Infos(bins), arena.npages - arena.bias;
    var i := 0;
    while i < |requests|
      invariant 0 <= i <= |requests| && Valid(bins, arena, objects') && Pooled(pool', arena)
      invariant |trace| == i + 1 && trace[0] == old(MomentOf(bins, arena, objects, pool))
      invariant trace[i] == MomentOf(bins, arena, objects', pool')
      invariant Traced(infos, limit, requests, offers, trace)
      invariant fresh(AllRuns(bins) - old(AllRuns(bins))) && pool' + Memory(arena) == pool + old(Memory(arena))
    {
      objects', pool' := Next(bins, arena, objects', pool', requests[i], offers[i]);
      ghost var moment := MomentOf(bins, arena, objects', pool');
      TracedMore(infos, limit, requests, offers, trace, moment);
      trace := trace + [moment];
      i := i + 1;
    }
  }

  // ---------------------------------------------------------------- nothing leaks

  lemma {:induction false} NoRuns(states: seq<BinState>, infos: seq<Info>)
    requires |states| == |infos| && forall k :: 0 <= k < |states| ==> states[k].runs == 0
    ensures RunPages(states, infos) == 0
  {
    if states != [] {
      NoRuns(states[..|states| - 1], infos[..|infos| - 1]);
    }
  }

  /** Every run of a bin has a region in use. */
  lemma SomeLive(all: set<SmallRun>, nregs: nat, r: SmallRun)
    requires InUse(all, nregs) && r in all
    ensures exists i: nat :: (r, i) in Live(all)
  {
    FreeBound(r.free);
    var i :| 0 <= i < |r.free| && !r.free[i];
    assert (r, i) in Live(all);
  }

  /** A program that holds nothing leaves no page and no run in use. */
  lemma AllGivenBack(bins: seq<Bin>, arena: A.Arena)
    requires Valid(bins, arena, [])
    ensures arena.nactive == 0 && AllRuns(bins) == {}
  {
    AllValidMeans(bins, arena);
    forall k, r | 0 <= k < |bins| && r in bins[k].all ensures false {
      SomeLive(bins[k].all, bins[k].info.nregs, r);
      var i: nat :| (r, i) in States(bins)[k].live;
      HeldOrNot(States(bins), [], k, (r, i));
    }
    NoRuns(States(bins), Infos(bins));
    BalancedMeans(arena.nactive, States(bins), Infos(bins), []);
  }

  lemma HeldOrNot(states: seq<BinState>, objects: seq<Object>, k: nat, r: Region)
    requires NoneLost(states, objects) && k < |states| && r in states[k].live
    ensures Little(k, r.0, r.1) in objects && objects != []
  {
    assert Little(k, r.0, r.1) in objects;
  }

  // ---------------------------------------------------------------- no two objects overlap

  /** The first byte of an object and the one behind it. */
  ghost function First(infos: seq<Info>, o: Object): nat {
    match o
    case Little(k, run, i) => if k < |infos| then Start(run, infos[k], i) else 0
    case Big(chunk, p, _) => (chunk.addr + p) * PAGE
  }

  ghost function Behind(infos: seq<Info>, o: Object): nat {
    match o
    case Little(k, run, i) => if k < |infos| then Start(run, infos[k], i) + infos[k].size else 0
    case Big(chunk, p, pages) => (chunk.addr + p + pages) * PAGE
  }

  /** Nor do two different objects overlap that the program holds. */
  lemma ObjectsApart(bins: seq<Bin>, arena: A.Arena, objects: seq<Object>, i: nat, j: nat)
    requires Valid(bins, arena, objects) && i < j < |objects|
    ensures Behind(Infos(bins), objects[i]) <= First(Infos(bins), objects[j])
            || Behind(Infos(bins), objects[j]) <= First(Infos(bins), objects[i])
  {
    AllValidMeans(bins, arena);
    var o, u := objects[i], objects[j];
    assert HeldIn(States(bins), Snapshot(arena), o) && HeldIn(States(bins), Snapshot(arena), u);
    if o.Little? && u.Little? {
      LiveApart(bins[o.bin], bins[u.bin], o.run, o.index, u.run, u.index);
    } else if o.Little? {
      BigApart(bins, arena, o, u);
    } else if u.Little? {
      BigApart(bins, arena, u, o);
    } else {
      PlacesApart(arena, o.chunk, o.page, u.chunk, u.page);
    }
  }

  lemma BigApart(bins: seq<Bin>, arena: A.Arena, o: Object, u: Object)
    requires AllValid(bins, arena) && o.Little? && u.Big?
    requires HeldIn(States(bins), Snapshot(arena), o) && HeldIn(States(bins), Snapshot(arena), u)
    ensures Behind(Infos(bins), o) <= First(Infos(bins), u) || Behind(Infos(bins), u) <= First(Infos(bins), o)
  {
    AllValidMeans(bins, arena);
    assert o.run in bins[o.bin].all;
    PlacesApart(arena, o.run.chunk, o.run.page, u.chunk, u.page);
    RegionWithin(o.run, o.index, bins[o.bin].info);
  }
}
