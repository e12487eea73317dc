/** The objects that a program holds of an arena (deps/jemalloc/src/arena.c), and the state of the arena
    and its bins as a value: which objects are in use in it, and what a call makes of both. */
module ArenaObjects {
  import opened ArenaRuns
  import opened ArenaBooks
  import opened ArenaNeighbours
  import opened ArenaChunks
  import opened ArenaRegions
  import opened ArenaBins
  import opened ArenaSurvival

  // ---------------------------------------------------------------- objects

  /** What the program holds: a region of a bin, or a large run of so many pages. */
  datatype Object =
    | Little(bin: nat, run: SmallRun, index: nat)
    | Big(chunk: Chunk, page: nat, pages: nat)

  /** The chunk of an object and the first page of its run. */
  function Place(o: Object): (Chunk, nat) {
    match o
    case Little(_, run, _) => (run.chunk, run.page)
    case Big(chunk, p, _) => (chunk, p)
  }

  function Newest(objects: seq<Object>): Object
    requires objects != []
  {
    objects[|objects| - 1]
  }

  /** The objects are those before, and one more. */
  predicate OneMore(objects: seq<Object>, objects': seq<Object>) {
    |objects'| == |objects| + 1 && objects <= objects'
  }

  function Without(objects: seq<Object>, j: nat): seq<Object>
    requires j < |objects|
  {
    objects[..j] + objects[j + 1..]
  }

  // ---------------------------------------------------------------- the state as a value

  datatype View = View(runs: map<Chunk, Runs>, avail: set<Slot>, held: Holdings, nactive: int, bins: seq<BinState>)
  {
    /** There are pages for a run without new memory. */
    ghost predicate HasRoom(pages: nat) {
      RoomIn(avail, held.spare, pages)
    }
  }

  /** At p there is a large run of so many pages. */
  ghost predicate LargeIn(was: map<Chunk, Runs>, chunk: Chunk, p: nat, pages: nat) {
    WasUsed(was, chunk, p) && was[chunk][p].Large? && was[chunk][p].pages == pages
  }

  /** The object is in use. */
  ghost predicate HeldIn(bins: seq<BinState>, was: map<Chunk, Runs>, o: Object) {
    match o
    case Little(k, run, i) => k < |bins| && (run, i) in bins[k].live
    case Big(chunk, p, pages) => LargeIn(was, chunk, p, pages)
  }

  ghost predicate Different(objects: seq<Object>) {
    forall i, j :: 0 <= i < j < |objects| ==> objects[i] != objects[j]
  }

  /** No region is in use but those that are objects. */
  ghost predicate NoneLost(bins: seq<BinState>, objects: seq<Object>) {
    forall k: nat, r: Region {:trigger Little(k, r.0, r.1) in objects} ::
      k < |bins| && r in bins[k].live ==> Little(k, r.0, r.1) in objects
  }

  /** Every object is in use, and the program holds it once; no other region is in use. */
  ghost predicate AllHeld(bins: seq<BinState>, was: map<Chunk, Runs>, objects: seq<Object>) {
    (forall o <- objects :: HeldIn(bins, was, o)) && Different(objects) && NoneLost(bins, objects)
  }

  // ---------------------------------------------------------------- the pages in use

  function Weight(o: Object): nat {
    if o.Big? then o.pages else 0
  }

  /** The pages of the large objects. */
  ghost function BigPages(objects: seq<Object>): nat {
    if objects == [] then 0 else BigPages(objects[..|objects| - 1]) + Weight(Newest(objects))
  }

  /** The pages of the runs of the bins. */
  ghost function RunPages(bins: seq<BinState>, infos: seq<Info>): nat
    requires |bins| == |infos|
  {
    if bins == [] then 0
    else
      var n := |bins| - 1;
      RunPages(bins[..n], infos[..n]) + bins[n].runs * infos[n].pages
  }

  lemma BigPagesMore(objects: seq<Object>, o: Object)
    ensures BigPages(objects + [o]) == BigPages(objects) + Weight(o)
  {
    assert (objects + [o])[..|objects|] == objects;
  }

  lemma {:induction false} BigPagesSet(objects: seq<Object>, j: nat, o: Object)
    requires j < |objects|
    ensures BigPages(objects[j := o]) == BigPages(objects) - Weight(objects[j]) + Weight(o)
  {
    var n := |objects| - 1;
    if j < n {
      BigPagesSet(objects[..n], j, o);
      assert objects[j := o][..n] == objects[..n][j := o];
    } else {
      assert objects[j := o][..n] == objects[..n];
    }
  }

  lemma {:induction false} BigPagesWithout(objects: seq<Object>, j: nat)
    requires j < |objects|
    ensures BigPages(Without(objects, j)) == BigPages(objects) - Weight(objects[j])
  {
    var n := |objects| - 1;
    if j < n {
      BigPagesWithout(objects[..n], j);
      assert Without(objects, j) == Without(objects[..n], j) + [objects[n]];
      BigPagesMore(Without(objects[..n], j), objects[n]);
    } else {
      assert Without(objects, j) == objects[..n];
    }
  }

  /** The runs of one bin change. */
  lemma {:induction false} RunPagesSet(bins: seq<BinState>, infos: seq<Info>, k: nat, b: BinState, more: int)
    requires |bins| == |infos| && k < |bins| && b.runs * infos[k].pages == bins[k].runs * infos[k].pages + more
    ensures RunPages(bins[k := b], infos) == RunPages(bins, infos) + more
  {
    var n := |bins| - 1;
    if k < n {
      RunPagesSet(bins[..n], infos[..n], k, b, more);
      assert bins[k := b][..n] == bins[..n][k := b];
    } else {
      assert bins[k := b][..n] == bins[..n];
    }
  }

  lemma BookedProduct(runs: int, nactive: int, runs': int, nactive': int, pages: nat)
    requires Booked(runs, nactive, runs', nactive', pages)
    ensures runs' * pages == runs * pages + (nactive' - nactive)
  {
    assert (runs + 1) * pages == runs * pages + pages;
    assert (runs - 1) * pages == runs * pages - pages;
  }

  /** The pages in use are those of the large objects and of the runs of the bins.  The quantifier keeps
      the sums out of sight where no lemma asks for them. */
  ghost predicate Balanced(nactive: int, bins: seq<BinState>, infos: seq<Info>, objects: seq<Object>) {
    forall k {:trigger Asked(k)} :: Asked(k) ==>
      |bins| == |infos| && nactive == BigPages(objects) + RunPages(bins, infos)
  }

  lemma BalancedMeans(nactive: int, bins: seq<BinState>, infos: seq<Info>, objects: seq<Object>)
    ensures Balanced(nactive, bins, infos, objects)
      <==> |bins| == |infos| && nactive == BigPages(objects) + RunPages(bins, infos)
  {
    assert Asked(0);
  }

  /** A change of bin k and of the large objects. */
  lemma BalancedAfter(nactive: int, bins: seq<BinState>, infos: seq<Info>, objects: seq<Object>, nactive': int,
      k: nat, b: BinState, objects': seq<Object>)
    requires Balanced(nactive, bins, infos, objects) && k < |bins| && |bins| == |infos|
    requires Booked(bins[k].runs, nactive, b.runs, nactive', infos[k].pages)
    requires BigPages(objects') == BigPages(objects)
    ensures Balanced(nactive', bins[k := b], infos, objects')
  {
    BalancedMeans(nactive, bins, infos, objects);
    BookedProduct(bins[k].runs, nactive, b.runs, nactive', infos[k].pages);
    RunPagesSet(bins, infos, k, b, nactive' - nactive);
    BalancedMeans(nactive', bins[k := b], infos, objects');
  }

  lemma BalancedBig(nactive: int, bins: seq<BinState>, infos: seq<Info>, objects: seq<Object>, nactive': int,
      objects': seq<Object>)
    requires Balanced(nactive, bins, infos, objects)
    requires nactive' - nactive == BigPages(objects') - BigPages(objects)
    ensures Balanced(nactive', bins, infos, objects')
  {
    BalancedMeans(nactive, bins, infos, objects);
    BalancedMeans(nactive', bins, infos, objects');
  }

  // ---------------------------------------------------------------- the invariant of a program

  /** Every object is in use, once, and nothing else is: neither a region nor a page. */
  ghost predicate Consistent(view: View, infos: seq<Info>, objects: seq<Object>) {
    AllHeld(view.bins, view.runs, objects) && Balanced(view.nactive, view.bins, infos, objects)
  }

  /** An object that is not the exception stays in use. */
  lemma StillHeld(bins: seq<BinState>, was: map<Chunk, Runs>, bins': seq<BinState>, now: map<Chunk, Runs>,
      but: Chunk?, p: nat, o: Object)
    requires HeldIn(bins, was, o) && Survive(was, now, but, p)
    requires o.Little? ==> o.bin < |bins'| && (o.run, o.index) in bins'[o.bin].live
    requires o.Big? ==> o.chunk != but || o.page != p
    ensures HeldIn(bins', now, o)
  {
    if o.Big? {
      Survives(was, now, but, p, o.chunk, o.page);
    }
  }

  lemma NothingGained(bins: seq<BinState>, was: map<Chunk, Runs>, now: map<Chunk, Runs>, objects: seq<Object>)
    requires AllHeld(bins, was, objects) && Survive(was, now, null, 0)
    ensures AllHeld(bins, now, objects)
  {
    forall o | o in objects ensures HeldIn(bins, now, o) {
      StillHeld(bins, was, bins, now, null, 0, o);
    }
  }

  lemma LittleGained(bins: seq<BinState>, was: map<Chunk, Runs>, now: map<Chunk, Runs>, objects: seq<Object>,
      k: nat, r: Region, b: BinState)
    requires AllHeld(bins, was, objects) && Survive(was, now, null, 0) && k < |bins|
    requires r !in bins[k].live && b.live == bins[k].live + {r}
    ensures AllHeld(bins[k := b], now, objects + [Little(k, r.0, r.1)])
  {
    forall o | o in objects ensures HeldIn(bins[k := b], now, o) {
      StillHeld(bins, was, bins[k := b], now, null, 0, o);
    }
    var o := Little(k, r.0, r.1);
    assert r == (o.run, o.index);
    assert o !in objects;
    forall l: nat, s: Region {:trigger Little(l, s.0, s.1) in objects + [o]}
      | l < |bins| && s in bins[k := b][l].live
      ensures Little(l, s.0, s.1) in objects + [o]
    {
      assert Little(l, s.0, s.1) in objects || s == r;
    }
  }

  lemma BigGained(bins: seq<BinState>, was: map<Chunk, Runs>, now: map<Chunk, Runs>, objects: seq<Object>,
      o: Object)
    requires AllHeld(bins, was, objects) && Survive(was, now, null, 0) && o.Big?
    requires !WasUsed(was, o.chunk, o.page) && HeldIn(bins, now, o)
    ensures AllHeld(bins, now, objects + [o])
  {
    assert o !in objects;
    NothingGained(bins, was, now, objects);
  }

  lemma WithoutOne(objects: seq<Object>, j: nat, x: Object)
    requires j < |objects| && Different(objects)
    ensures x in Without(objects, j) <==> x in objects && x != objects[j]
    ensures Different(Without(objects, j))
  {
    var less := Without(objects, j);
    if x in less {
      var i :| 0 <= i < |less| && less[i] == x;
      assert objects[if i < j then i else i + 1] == x;
    }
    if x in objects && x != objects[j] {
      var i :| 0 <= i < |objects| && objects[i] == x;
      assert less[if i < j then i else i - 1] == x;
    }
  }

  lemma LittleLost(bins: seq<BinState>, was: map<Chunk, Runs>, now: map<Chunk, Runs>, objects: seq<Object>, j: nat,
      b: BinState)
    requires AllHeld(bins, was, objects) && j < |objects| && objects[j].Little? && objects[j].bin < |bins|
    requires var o := objects[j]; b.live == bins[o.bin].live - {(o.run, o.index)}
    requires var run := objects[j].run;
      Survive(was, now, run.chunk, run.page) && forall n: nat :: !LargeIn(was, run.chunk, run.page, n)
    ensures AllHeld(bins[objects[j].bin := b], now, Without(objects, j))
  {
    var o := objects[j];
    var bins' := bins[o.bin := b];
    forall x | x in Without(objects, j) ensures HeldIn(bins', now, x) {
      WithoutOne(objects, j, x);
      StillHeld(bins, was, bins', now, o.run.chunk, o.run.page, x);
    }
    forall l: nat, s: Region {:trigger Little(l, s.0, s.1) in Without(objects, j)} | l < |bins| && s in bins'[l].live
      ensures Little(l, s.0, s.1) in Without(objects, j)
    {
      assert Little(l, s.0, s.1) in objects;
      WithoutOne(objects, j, Little(l, s.0, s.1));
    }
    WithoutOne(objects, j, o);
  }

  lemma BigLost(bins: seq<BinState>, was: map<Chunk, Runs>, now: map<Chunk, Runs>, objects: seq<Object>, j: nat)
    requires AllHeld(bins, was, objects) && j < |objects| && objects[j].Big?
    requires Survive(was, now, objects[j].chunk, objects[j].page)
    ensures AllHeld(bins, now, Without(objects, j))
  {
    assert HeldIn(bins, was, objects[j]);
    forall x | x in Without(objects, j) ensures HeldIn(bins, now, x) {
      WithoutOne(objects, j, x);
      StillHeld(bins, was, bins, now, objects[j].chunk, objects[j].page, x);
    }
    forall l: nat, s: Region {:trigger Little(l, s.0, s.1) in Without(objects, j)} | l < |bins| && s in bins[l].live
      ensures Little(l, s.0, s.1) in Without(objects, j)
    {
      assert Little(l, s.0, s.1) in objects;
      WithoutOne(objects, j, Little(l, s.0, s.1));
    }
    WithoutOne(objects, j, objects[j]);
  }

  lemma BigResized(bins: seq<BinState>, was: map<Chunk, Runs>, now: map<Chunk, Runs>, objects: seq<Object>, j: nat,
      pages: nat)
    requires AllHeld(bins, was, objects) && j < |objects| && objects[j].Big?
    requires var o := objects[j]; Survive(was, now, o.chunk, o.page) && LargeIn(now, o.chunk, o.page, pages)
    ensures AllHeld(bins, now, objects[j := objects[j].(pages := pages)])
  {
    var o := objects[j];
    var objects' := objects[j := o.(pages := pages)];
    assert HeldIn(bins, was, o);
    forall i | 0 <= i < |objects| && i != j
      ensures HeldIn(bins, now, objects[i])
      ensures objects[i].Big? ==> objects[i].chunk != o.chunk || objects[i].page != o.page
    {
      assert HeldIn(bins, was, objects[i]);
      assert objects[i] != o;
      StillHeld(bins, was, bins, now, o.chunk, o.page, objects[i]);
    }
    forall l: nat, s: Region {:trigger Little(l, s.0, s.1) in objects'} | l < |bins| && s in bins[l].live
      ensures Little(l, s.0, s.1) in objects'
    {
      assert Little(l, s.0, s.1) in objects;
      var i :| 0 <= i < |objects| && objects[i] == Little(l, s.0, s.1);
      assert objects'[i] == objects[i];
    }
  }

  // ---------------------------------------------------------------- what each call does to it

  ghost predicate OneBin(view: View, view': View, infos: seq<Info>, k: nat) {
    && k < |view.bins| && k < |view'.bins| && k < |infos| && view'.bins == view.bins[k := view'.bins[k]]
    && Booked(view.bins[k].runs, view.nactive, view'.bins[k].runs, view'.nactive, infos[k].pages)
  }

  lemma SmallAllocated(view: View, infos: seq<Info>, objects: seq<Object>, view': View, k: nat, r: Region)
    requires Consistent(view, infos, objects) && Survive(view.runs, view'.runs, null, 0)
    requires OneBin(view, view', infos, k) && r !in view.bins[k].live
    requires view'.bins[k].live == view.bins[k].live + {r}
    ensures Consistent(view', infos, objects + [Little(k, r.0, r.1)])
  {
    BalancedMeans(view.nactive, view.bins, infos, objects);
    LittleGained(view.bins, view.runs, view'.runs, objects, k, r, view'.bins[k]);
    BigPagesMore(objects, Little(k, r.0, r.1));
    BalancedAfter(view.nactive, view.bins, infos, objects, view'.nactive, k, view'.bins[k],
      objects + [Little(k, r.0, r.1)]);
  }

  lemma SmallFreed(view: View, infos: seq<Info>, objects: seq<Object>, view': View, j: nat)
    requires Consistent(view, infos, objects) && j < |objects| && objects[j].Little?
    requires var o := objects[j];
      && OneBin(view, view', infos, o.bin)
      && view'.bins[o.bin].live == view.bins[o.bin].live - {(o.run, o.index)}
      && Survive(view.runs, view'.runs, o.run.chunk, o.run.page)
      && forall n: nat :: !LargeIn(view.runs, o.run.chunk, o.run.page, n)
    ensures Consistent(view', infos, Without(objects, j))
  {
    var o := objects[j];
    BalancedMeans(view.nactive, view.bins, infos, objects);
    LittleLost(view.bins, view.runs, view'.runs, objects, j, view'.bins[o.bin]);
    BigPagesWithout(objects, j);
    BalancedAfter(view.nactive, view.bins, infos, objects, view'.nactive, o.bin, view'.bins[o.bin],
      Without(objects, j));
  }

  lemma NothingAllocated(view: View, infos: seq<Info>, objects: seq<Object>, view': View)
    requires Consistent(view, infos, objects) && Survive(view.runs, view'.runs, null, 0)
    requires view'.bins == view.bins && view'.nactive == view.nactive
    ensures Consistent(view', infos, objects)
  {
    NothingGained(view.bins, view.runs, view'.runs, objects);
  }

  lemma LargeAllocated(view: View, infos: seq<Info>, objects: seq<Object>, view': View, o: Object)
    requires Consistent(view, infos, objects) && Survive(view.runs, view'.runs, null, 0)
    requires o.Big? && !WasUsed(view.runs, o.chunk, o.page) && LargeIn(view'.runs, o.chunk, o.page, o.pages)
    requires view'.bins == view.bins && view'.nactive == view.nactive + o.pages
    ensures Consistent(view', infos, objects + [o])
  {
    BigGained(view.bins, view.runs, view'.runs, objects, o);
    BigPagesMore(objects, o);
    BalancedBig(view.nactive, view.bins, infos, objects, view'.nactive, objects + [o]);
  }

  lemma LargeFreed(view: View, infos: seq<Info>, objects: seq<Object>, view': View, j: nat)
    requires Consistent(view, infos, objects) && j < |objects| && objects[j].Big?
    requires Survive(view.runs, view'.runs, objects[j].chunk, objects[j].page)
    requires view'.bins == view.bins && view'.nactive == view.nactive - objects[j].pages
    ensures Consistent(view', infos, Without(objects, j))
  {
    BigLost(view.bins, view.runs, view'.runs, objects, j);
    BigPagesWithout(objects, j);
    BalancedBig(view.nactive, view.bins, infos, objects, view'.nactive, Without(objects, j));
  }

  lemma LargeResized(view: View, infos: seq<Info>, objects: seq<Object>, view': View, j: nat, pages: nat)
    requires Consistent(view, infos, objects) && j < |objects| && objects[j].Big?
    requires var o := objects[j];
      && Survive(view.runs, view'.runs, o.chunk, o.page) && LargeIn(view'.runs, o.chunk, o.page, pages)
      && view'.bins == view.bins && view'.nactive == view.nactive - o.pages + pages
    ensures Consistent(view', infos, objects[j := objects[j].(pages := pages)])
  {
    var o := objects[j].(pages := pages);
    BigResized(view.bins, view.runs, view'.runs, objects, j, pages);
    BigPagesSet(objects, j, o);
    BalancedBig(view.nactive, view.bins, infos, objects, view'.nactive, objects[j := o]);
  }

  // ---------------------------------------------------------------- what each call answers

  /** The chunk of the object that has been allocated, if any. */
  function Supplier(objects: seq<Object>, objects': seq<Object>): Chunk? {
    if OneMore(objects, objects') then Place(Newest(objects')).0 else null
  }

  /** A small allocation in bin k: the lowest free region of the lowest run that has one, else of a new
      run; and none only if there are no pages for that. */
  ghost predicate SmallAnswer(view: View, infos: seq<Info>, k: nat, offered: bool, objects: seq<Object>,
      objects': seq<Object>)
    requires k < |view.bins| == |infos|
  {
    if offered || view.HasRoom(infos[k].pages) || view.bins[k].open != {} then
      && OneMore(objects, objects') && Newest(objects').Little? && Newest(objects').bin == k
      && var o, live := Newest(objects'), view.bins[k].live;
         && (o.run, o.index) !in live && (forall i: nat :: i < o.index ==> (o.run, i) in live)
         && (view.bins[k].open != {} ==> Lowest(o.run, view.bins[k].open))
    else objects' == objects
  }

  /** A large allocation that looks for `need` pages and keeps `pages` of them: none only if there are
      no such pages. */
  ghost predicate LargeAnswer(view: View, need: nat, pages: nat, offered: bool, objects: seq<Object>,
      objects': seq<Object>)
  {
    if offered || view.HasRoom(need) then
      OneMore(objects, objects') && Newest(objects').Big? && Newest(objects').pages == pages
    else objects' == objects
  }

  /** Object j is given back, and is in use no more. */
  ghost predicate FreeAnswer(view': View, j: nat, objects: seq<Object>, objects': seq<Object>)
    requires j < |objects|
  {
    objects' == Without(objects, j) && !HeldIn(view'.bins, view'.runs, objects[j])
  }

  /** Object j is as large as arena_ralloc_large can make it in its place. */
  ghost predicate ResizeAnswer(view: View, j: nat, size: nat, extra: nat, objects: seq<Object>, objects': seq<Object>)
    requires j < |objects| && objects[j].Big?
  {
    var o := objects[j];
    && o.chunk in view.runs && o.page in view.runs[o.chunk]
    && objects' == objects[j := o.(pages := ResizedTo(view.runs[o.chunk], o.page, size, extra))]
  }
}
