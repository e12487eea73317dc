/** Every step of ProfProtocol that changes a context keeps the invariant. */
module ProfSteps {
  import opened ProfProtocol
  import opened ProfInvariant
  import opened Sums
  import opened Options

  // ---------------------------------------------------------------- prof_lookup counts itself in nlimbo

  lemma CountMove(s: State, t: Tid)
    requires t in s.threads && ThreadInv(s, t) && TablesInv(s)
    requires s.threads[t].lookup.Found?
    ensures CountStep(s, t).Next?
    ensures CtxMove(s, CountStep(s, t).s, t, s.threads[t].lookup.c)
  {
    assert TableInv(s, s.threads[t].lookup.bt);
  }

  lemma CountThread(s: State, t: Tid)
    requires t in s.threads && ThreadInv(s, t) && TablesInv(s)
    requires CountStep(s, t).Next? && CtxMove(s, CountStep(s, t).s, t, s.threads[t].lookup.c)
    ensures ThreadInv(CountStep(s, t).s, t)
  {
    assert TableInv(s, s.threads[t].lookup.bt);
    CacheKept(s, CountStep(s, t).s, t, s.threads[t].lookup.c);
  }

  lemma CountCtx(s: State, t: Tid)
    requires t in s.threads && ThreadInv(s, t)
    requires CountStep(s, t).Next? && CtxMove(s, CountStep(s, t).s, t, s.threads[t].lookup.c)
    requires CtxInv(s, s.threads[t].lookup.c)
    ensures CtxInv(CountStep(s, t).s, s.threads[t].lookup.c)
  {
    var c, s' := s.threads[t].lookup.c, CountStep(s, t).s;
    HoldersGrow(s, s', t, c);
    assert ObjsOf(s', c) == ObjsOf(s, c);
    assert t in s.heap[c].linked ==> LinkInv(s, c, t);
    CtxAgain(s, s', t, c);
  }

  lemma CountKeeps(s: State, t: Tid)
    requires Inv(s) && t in s.threads && s.threads[t].lookup.Found?
    ensures CountStep(s, t).Next? && Inv(CountStep(s, t).s)
  {
    CountMove(s, t);
    CountThread(s, t);
    CountCtx(s, t);
    FreeingStays(s, CountStep(s, t).s, t);
    CtxKeeps(s, CountStep(s, t).s, t, s.threads[t].lookup.c);
  }

  // ---------------------------------------------------------------- prof_ctx_merge

  ghost predicate Evicts(s: State, t: Tid, bt: Bt, accum: bool) {
    t in s.threads && bt in s.threads[t].cache && !EvictStep(s, t, bt, accum).Disabled?
  }

  /** A thread caches a context under its own backtrace only. */
  lemma OneEntry(s: State, t: Tid, bt: Bt)
    requires t in s.threads && ThreadInv(s, t) && bt in s.threads[t].cache
    ensures forall b <- s.threads[t].cache :: s.threads[t].cache[b] == s.threads[t].cache[bt] ==> b == bt
  {
    assert CacheInv(s, t, bt);
    forall b | b in s.threads[t].cache && s.threads[t].cache[b] == s.threads[t].cache[bt] ensures b == bt {
      assert CacheInv(s, t, b);
    }
  }

  lemma EvictMove(s: State, t: Tid, bt: Bt, accum: bool)
    requires Evicts(s, t, bt, accum) && ThreadInv(s, t)
    ensures EvictStep(s, t, bt, accum).Next?
    ensures CtxMove(s, EvictStep(s, t, bt, accum).s, t, s.threads[t].cache[bt])
  {
    assert CacheInv(s, t, bt);
    OneEntry(s, t, bt);
  }

  lemma EvictThread(s: State, t: Tid, bt: Bt, accum: bool)
    requires Evicts(s, t, bt, accum) && ThreadInv(s, t) && CtxInv(s, s.threads[t].cache[bt])
    requires EvictStep(s, t, bt, accum).Next?
    requires CtxMove(s, EvictStep(s, t, bt, accum).s, t, s.threads[t].cache[bt])
    ensures ThreadInv(EvictStep(s, t, bt, accum).s, t)
  {
    var c, s' := s.threads[t].cache[bt], EvictStep(s, t, bt, accum).s;
    assert CacheInv(s, t, bt);
    forall b | b in s'.threads[t].cache ensures s'.threads[t].cache[b] != c {
      assert CacheInv(s, t, b);
    }
    CtxMoveTable(s, s', t, c);
    CacheKept(s, s', t, c);
    assert Holds(s.threads[t], c) ==> t in Holders(s, c);
  }

  lemma EvictCtx(s: State, t: Tid, bt: Bt, accum: bool)
    requires Evicts(s, t, bt, accum) && ThreadInv(s, t) && CtxInv(s, s.threads[t].cache[bt])
    requires EvictStep(s, t, bt, accum).Next?
    requires CtxMove(s, EvictStep(s, t, bt, accum).s, t, s.threads[t].cache[bt])
    ensures CtxInv(EvictStep(s, t, bt, accum).s, s.threads[t].cache[bt])
  {
    var c, s' := s.threads[t].cache[bt], EvictStep(s, t, bt, accum).s;
    assert CacheInv(s, t, bt);
    HoldersGrow(s, s', t, c);
    if s'.threads[t].destroy.NoDestroy? {
      HoldersShrink(s, s', t, c);
    }
    SumSplit(s.heap[c].linked, t);
    assert ObjsOf(s', c) == ObjsOf(s, c);
    CtxAgain(s, s', t, c);
  }

  lemma EvictKeeps(s: State, t: Tid, bt: Bt, accum: bool)
    requires Inv(s) && Evicts(s, t, bt, accum)
    ensures EvictStep(s, t, bt, accum).Next? && Inv(EvictStep(s, t, bt, accum).s)
  {
    EvictMove(s, t, bt, accum);
    EvictThread(s, t, bt, accum);
    EvictCtx(s, t, bt, accum);
    FreeingStays(s, EvictStep(s, t, bt, accum).s, t);
    CtxKeeps(s, EvictStep(s, t, bt, accum).s, t, s.threads[t].cache[bt]);
  }

  // ---------------------------------------------------------------- prof_lookup links a new counter

  ghost predicate Links(s: State, t: Tid) {
    t in s.threads && s.threads[t].lookup.Holding? && !LinkStep(s, t).Disabled?
  }

  lemma LinkMove(s: State, t: Tid)
    requires Links(s, t) && ThreadInv(s, t)
    ensures LinkStep(s, t).Next? && CtxMove(s, LinkStep(s, t).s, t, s.threads[t].lookup.c)
  {
  }

  lemma LinkThread(s: State, t: Tid)
    requires Links(s, t) && ThreadInv(s, t)
    requires LinkStep(s, t).Next? && CtxMove(s, LinkStep(s, t).s, t, s.threads[t].lookup.c)
    ensures ThreadInv(LinkStep(s, t).s, t)
  {
    var c, s' := s.threads[t].lookup.c, LinkStep(s, t).s;
    CtxMoveTable(s, s', t, c);
    forall b | b in s'.threads[t].cache ensures CacheInv(s', t, b) {
      if b != s.threads[t].lookup.bt {
        assert CacheInv(s, t, b);
        assert s.threads[t].cache[b] in s'.heap.Keys;
      }
    }
  }

  lemma LinkCtx(s: State, t: Tid)
    requires Links(s, t) && ThreadInv(s, t) && s.threads[t].lookup.c in s.heap && CtxInv(s, s.threads[t].lookup.c)
    requires LinkStep(s, t).Next? && CtxMove(s, LinkStep(s, t).s, t, s.threads[t].lookup.c)
    ensures CtxInv(LinkStep(s, t).s, s.threads[t].lookup.c)
  {
    var c, s' := s.threads[t].lookup.c, LinkStep(s, t).s;
    HoldersLose(s, s', t, c);
    assert t in s.heap[c].linked ==> LinkInv(s, c, t);
    SumUpdate(s.heap[c].linked, t, 0);
    assert ObjsOf(s', c) == ObjsOf(s, c);
    CtxAgain(s, s', t, c);
  }

  lemma LinkKeeps(s: State, t: Tid)
    requires Inv(s) && Links(s, t)
    ensures LinkStep(s, t).Next? && Inv(LinkStep(s, t).s)
  {
    LinkMove(s, t);
    LinkThread(s, t);
    LinkCtx(s, t);
    FreeingStays(s, LinkStep(s, t).s, t);
    CtxKeeps(s, LinkStep(s, t).s, t, s.threads[t].lookup.c);
  }

  // ---------------------------------------------------------------- prof_malloc

  ghost predicate Samples(s: State, t: Tid, bt: Bt, o: Obj) {
    t in s.threads && bt in s.threads[t].cache && !SampleStep(s, t, bt, o).Disabled?
  }

  lemma SampleMove(s: State, t: Tid, bt: Bt, o: Obj)
    requires Samples(s, t, bt, o) && ThreadInv(s, t)
    ensures SampleStep(s, t, bt, o).Next?
    ensures CtxMove(s, SampleStep(s, t, bt, o).s, t, s.threads[t].cache[bt])
  {
    assert CacheInv(s, t, bt);
  }

  lemma SampleThread(s: State, t: Tid, bt: Bt, o: Obj)
    requires Samples(s, t, bt, o) && ThreadInv(s, t)
    requires SampleStep(s, t, bt, o).Next?
    requires CtxMove(s, SampleStep(s, t, bt, o).s, t, s.threads[t].cache[bt])
    ensures ThreadInv(SampleStep(s, t, bt, o).s, t)
  {
    CacheKept(s, SampleStep(s, t, bt, o).s, t, s.threads[t].cache[bt]);
  }

  lemma SampleCounts(s: State, s': State, t: Tid, c: CtxId, o: Obj)
    requires c in s.heap && c in s'.heap && t in s.heap[c].linked && o !in s.objs
    requires s'.heap[c].merged == s.heap[c].merged && s'.objs == s.objs[o := c]
    requires s'.heap[c].linked == s.heap[c].linked[t := s.heap[c].linked[t] + 1]
    ensures s'.heap[c].merged + Sum(s'.heap[c].linked) == s.heap[c].merged + Sum(s.heap[c].linked) + 1
    ensures |ObjsOf(s', c)| == |ObjsOf(s, c)| + 1
  {
    SumUpdate(s.heap[c].linked, t, s.heap[c].linked[t] + 1);
    assert ObjsOf(s', c) == ObjsOf(s, c) + {o};
  }

  lemma SampleCtx(s: State, t: Tid, bt: Bt, o: Obj)
    requires Samples(s, t, bt, o) && CacheInv(s, t, bt) && CtxInv(s, s.threads[t].cache[bt])
    requires SampleStep(s, t, bt, o).Next?
    requires CtxMove(s, SampleStep(s, t, bt, o).s, t, s.threads[t].cache[bt])
    ensures CtxInv(SampleStep(s, t, bt, o).s, s.threads[t].cache[bt])
  {
    var c, s' := s.threads[t].cache[bt], SampleStep(s, t, bt, o).s;
    HoldersShrink(s, s', t, c);
    SampleCounts(s, s', t, c, o);
    CtxAgain(s, s', t, c);
  }

  lemma SampleKeeps(s: State, t: Tid, bt: Bt, o: Obj)
    requires Inv(s) && Samples(s, t, bt, o)
    ensures SampleStep(s, t, bt, o).Next? && Inv(SampleStep(s, t, bt, o).s)
  {
    assert CacheInv(s, t, bt);
    SampleMove(s, t, bt, o);
    SampleThread(s, t, bt, o);
    SampleCtx(s, t, bt, o);
    FreeingStays(s, SampleStep(s, t, bt, o).s, t);
    CtxKeeps(s, SampleStep(s, t, bt, o).s, t, s.threads[t].cache[bt]);
  }

  // ---------------------------------------------------------------- prof_free

  ghost predicate Frees(s: State, t: Tid, c: CtxId) {
    && t in s.threads && s.threads[t].freeing.Some? && s.threads[t].freeing.value in s.objs
    && s.objs[s.threads[t].freeing.value] == c
    && s.threads[t].lookup.NoLookup? && s.threads[t].destroy.NoDestroy?
  }

  /** The thread's counter for the backtrace is in the very context the object points to. */
  lemma SameContext(s: State, t: Tid, c: CtxId)
    requires Frees(s, t, c) && ThreadInv(s, t) && InTable(s, c) && s.heap[c].bt in s.threads[t].cache
    ensures s.threads[t].cache[s.heap[c].bt] == c && t in s.heap[c].linked
  {
    assert CacheInv(s, t, s.heap[c].bt);
  }

  /** The object is gone and the context has one object less, counted by t or merged. */
  ghost predicate FreesOne(s: State, s': State, t: Tid, c: CtxId)
    requires Frees(s, t, c)
  {
    && CtxMove(s, s', t, c) && c in s'.heap && s'.mtx == s.mtx
    && s'.threads[t] == s.threads[t].(freeing := None)
    && s'.objs == s.objs - {s.threads[t].freeing.value}
    && s'.heap[c].nlimbo == s.heap[c].nlimbo && s'.heap[c].linked.Keys == s.heap[c].linked.Keys
    && s'.heap[c].merged + Sum(s'.heap[c].linked) == s.heap[c].merged + Sum(s.heap[c].linked) - 1
  }

  lemma FreesOneThread(s: State, s': State, t: Tid, c: CtxId)
    requires Frees(s, t, c) && FreesOne(s, s', t, c) && ThreadInv(s, t)
    ensures ThreadInv(s', t)
  {
    forall b | b in s'.threads[t].cache && s'.threads[t].cache[b] == c ensures t in s'.heap[c].linked {
      assert CacheInv(s, t, b);
    }
    CacheKept(s, s', t, c);
  }

  lemma FreesOneCtx(s: State, s': State, t: Tid, c: CtxId)
    requires Frees(s, t, c) && FreesOne(s, s', t, c) && CtxInv(s, c)
    ensures CtxInv(s', c)
  {
    HoldersShrink(s, s', t, c);
    var o := s.threads[t].freeing.value;
    assert o in ObjsOf(s, c);
    assert ObjsOf(s', c) == ObjsOf(s, c) - {o};
    assert t in s.heap[c].linked ==> LinkInv(s, c, t);
    CtxAgain(s, s', t, c);
  }

  lemma FreesOneKeeps(s: State, s': State, t: Tid, c: CtxId)
    requires Inv(s) && Frees(s, t, c) && FreesOne(s, s', t, c)
    ensures Inv(s')
  {
    FreesOneThread(s, s', t, c);
    FreesOneCtx(s, s', t, c);
    FreeingStays(s, s', t);
    CtxKeeps(s, s', t, c);
  }

  lemma FreeMergedMove(s: State, t: Tid, c: CtxId)
    requires Frees(s, t, c) && InTable(s, c)
    ensures FreeMergedStep(s, t).Next? && FreesOne(s, FreeMergedStep(s, t).s, t, c)
  {
  }

  lemma FreeCachedMove(s: State, t: Tid, c: CtxId)
    requires Frees(s, t, c) && InTable(s, c) && ThreadInv(s, t) && s.heap[c].bt in s.threads[t].cache
    ensures FreeCachedStep(s, t).Next? && FreesOne(s, FreeCachedStep(s, t).s, t, c)
  {
    SameContext(s, t, c);
    SumUpdate(s.heap[c].linked, t, s.heap[c].linked[t] - 1);
  }

  lemma FreeCachedKeeps(s: State, t: Tid)
    requires Inv(s) && t in s.threads
    ensures var r := FreeCachedStep(s, t); !r.Fault? && (r.Next? ==> Inv(r.s))
  {
    if !FreeCachedStep(s, t).Disabled? {
      var c := s.objs[s.threads[t].freeing.value];
      assert InTable(s, c);
      FreeCachedMove(s, t, c);
      FreesOneKeeps(s, FreeCachedStep(s, t).s, t, c);
    }
  }

  lemma FreeMergedKeeps(s: State, t: Tid)
    requires Inv(s) && t in s.threads
    ensures var r := FreeMergedStep(s, t); !r.Fault? && (r.Next? ==> Inv(r.s))
  {
    if !FreeMergedStep(s, t).Disabled? {
      var c := s.objs[s.threads[t].freeing.value];
      assert InTable(s, c);
      FreeMergedMove(s, t, c);
      FreesOneKeeps(s, FreeMergedStep(s, t).s, t, c);
    }
  }

  // ---------------------------------------------------------------- prof_ctx_destroy backs out

  /** The test of prof_ctx_destroy. */
  ghost predicate Unused(x: Ctx) {
    x.linked == map[] && x.merged == 0 && x.nlimbo == 1
  }

  ghost predicate Checks(s: State, t: Tid, c: CtxId) {
    t in s.threads && s.threads[t].destroy == Checking(c) && c in s.heap
  }

  lemma BackOutMove(s: State, t: Tid, c: CtxId)
    requires Checks(s, t, c) && !Unused(s.heap[c]) && ThreadInv(s, t)
    ensures DestroyCheckStep(s, t).Next? && CtxMove(s, DestroyCheckStep(s, t).s, t, c)
  {
  }

  lemma BackOutThread(s: State, t: Tid, c: CtxId)
    requires Checks(s, t, c) && !Unused(s.heap[c]) && ThreadInv(s, t)
    requires DestroyCheckStep(s, t).Next? && CtxMove(s, DestroyCheckStep(s, t).s, t, c)
    ensures ThreadInv(DestroyCheckStep(s, t).s, t)
  {
    var s' := DestroyCheckStep(s, t).s;
    CtxMoveTable(s, s', t, c);
    forall b | b in s'.threads[t].cache && s'.threads[t].cache[b] == c ensures t in s'.heap[c].linked {
      assert CacheInv(s, t, b);
    }
    CacheKept(s, s', t, c);
  }

  lemma BackOutCtx(s: State, t: Tid, c: CtxId)
    requires Checks(s, t, c) && !Unused(s.heap[c]) && ThreadInv(s, t) && CtxInv(s, c)
    requires DestroyCheckStep(s, t).Next? && CtxMove(s, DestroyCheckStep(s, t).s, t, c)
    ensures CtxInv(DestroyCheckStep(s, t).s, c)
  {
    var s' := DestroyCheckStep(s, t).s;
    HoldersLose(s, s', t, c);
    assert ObjsOf(s', c) == ObjsOf(s, c);
    assert t in s.heap[c].linked ==> LinkInv(s, c, t);
    CtxAgain(s, s', t, c);
  }

  lemma BackOutKeeps(s: State, t: Tid, c: CtxId)
    requires Inv(s) && Checks(s, t, c) && !Unused(s.heap[c])
    ensures DestroyCheckStep(s, t).Next? && Inv(DestroyCheckStep(s, t).s)
  {
    BackOutMove(s, t, c);
    BackOutThread(s, t, c);
    BackOutCtx(s, t, c);
    FreeingStays(s, DestroyCheckStep(s, t).s, t);
    CtxKeeps(s, DestroyCheckStep(s, t).s, t, c);
  }

  // ---------------------------------------------------------------- prof_ctx_destroy takes c out of bt2ctx

  /** Nothing in the whole state refers to c, except t, which is destroying it. */
  ghost predicate OnlyDestroyer(s: State, t: Tid, c: CtxId) {
    && (forall u, bt :: u in s.threads && bt in s.threads[u].cache ==> s.threads[u].cache[bt] != c)
    && (forall u :: u in s.threads && s.threads[u].lookup.Found? ==> s.threads[u].lookup.c != c)
    && Holders(s, c) == {t}
    && ObjsOf(s, c) == {}
  }

  /** Two holders are more than nlimbo == 1 allows. */
  lemma OneHolder(s: State, t: Tid, c: CtxId)
    requires t in Holders(s, c) && |Holders(s, c)| <= 1
    ensures Holders(s, c) == {t}
  {
    SubsetSize(Holders(s, c) - {t}, {});
    assert |Holders(s, c) - {t}| == |Holders(s, c)| - 1;
    assert Holders(s, c) - {t} == {};
  }

  lemma UnusedApart(s: State, t: Tid, c: CtxId)
    requires ThreadsInv(s) && Checks(s, t, c) && Unused(s.heap[c]) && CtxInv(s, c)
    ensures OnlyDestroyer(s, t, c)
  {
    OneHolder(s, t, c);
    forall u, bt | u in s.threads && bt in s.threads[u].cache ensures s.threads[u].cache[bt] != c {
      assert ThreadInv(s, u);
      assert CacheInv(s, u, bt);
    }
    forall u | u in s.threads && s.threads[u].lookup.Found? ensures s.threads[u].lookup.c != c {
      assert ThreadInv(s, u) && ThreadInv(s, t);
    }
  }

  /** c leaves bt2ctx and nothing else changes but the destroyer. */
  ghost predicate Removes(s: State, s': State, t: Tid, c: CtxId) {
    && OnlyMoves(s, s', t) && InTable(s, c) && s.heap[c].linked == map[]
    && s'.heap == s.heap && s'.objs == s.objs && s'.bt2ctx == s.bt2ctx - {s.heap[c].bt}
    && s.mtx == Some(t) && s'.mtx.None?
    && s.threads[t].destroy == Checking(c)
    && s'.threads[t] == s.threads[t].(destroy := Removing(c))
  }

  lemma RemovesThread(s: State, s': State, t: Tid, c: CtxId, u: Tid)
    requires Removes(s, s', t, c) && OnlyDestroyer(s, t, c) && TablesInv(s)
    requires u in s.threads && u in s'.threads && u != t && ThreadInv(s, u)
    ensures ThreadInv(s', u)
  {
    assert !Holds(s.threads[u], c) by {
      assert Holds(s.threads[u], c) ==> u in Holders(s, c);
    }
    forall b | b in s'.threads[u].cache ensures CacheInv(s', u, b) {
      assert CacheInv(s, u, b);
    }
    if s.threads[u].destroy.Removing? {
      RemovedAlone(s, t, u);
      RemovingStays(s, s', t, u);
    }
  }

  lemma RemovesSelf(s: State, s': State, t: Tid, c: CtxId)
    requires Removes(s, s', t, c) && OnlyDestroyer(s, t, c) && ThreadInv(s, t) && t in s'.threads
    ensures ThreadInv(s', t)
  {
    forall b | b in s'.threads[t].cache ensures CacheInv(s', t, b) {
      assert CacheInv(s, t, b);
    }
    HoldersShrink(s, s', t, c);
    assert t in Holders(s', c);
  }

  lemma RemovesCtx(s: State, s': State, t: Tid, c: CtxId, d: CtxId)
    requires Removes(s, s', t, c) && ThreadInv(s, t)
    requires d in s.heap && CtxInv(s, d)
    ensures CtxInv(s', d)
  {
    assert ObjsOf(s', d) == ObjsOf(s, d);
    if d != c {
      assert t in s.heap[d].linked ==> LinkInv(s, d, t);
      OtherCtx(s, s', t, d);
    } else {
      HoldersShrink(s, s', t, d);
      assert s'.threads[t].destroy == Removing(d) && t in s'.threads;
    }
  }

  lemma RemovesTables(s: State, s': State, t: Tid, c: CtxId)
    requires Removes(s, s', t, c) && TablesInv(s) && ObjsInv(s) && OnlyDestroyer(s, t, c)
    ensures TablesInv(s') && ObjsInv(s')
  {
    forall bt | bt in s'.bt2ctx ensures TableInv(s', bt) {
      assert TableInv(s, bt);
    }
    forall o | o in s'.objs ensures InTable(s', s'.objs[o]) {
      assert InTable(s, s.objs[o]);
      assert s.objs[o] == c ==> o in ObjsOf(s, c);
    }
  }

  lemma RemovesKeeps(s: State, s': State, t: Tid, c: CtxId)
    requires Inv(s) && Removes(s, s', t, c) && OnlyDestroyer(s, t, c)
    ensures Inv(s')
  {
    assert t in s'.threads.Keys;
    forall u | u in s'.threads ensures ThreadInv(s', u) {
      assert u in s.threads.Keys;
      if u != t {
        RemovesThread(s, s', t, c, u);
      } else {
        RemovesSelf(s, s', t, c);
      }
    }
    forall d | d in s'.heap ensures CtxInv(s', d) {
      RemovesCtx(s, s', t, c, d);
    }
    RemovesTables(s, s', t, c);
    FreeingStays(s, s', t);
  }

  lemma DestroyCheckRemoves(s: State, t: Tid, c: CtxId)
    requires Checks(s, t, c) && Unused(s.heap[c]) && ThreadInv(s, t)
    ensures DestroyCheckStep(s, t).Next? && Removes(s, DestroyCheckStep(s, t).s, t, c)
  {
  }

  lemma CheckedAlive(s: State, t: Tid)
    requires t in s.threads && ThreadInv(s, t) && s.threads[t].destroy.Checking?
    ensures Checks(s, t, s.threads[t].destroy.c)
  {
  }

  lemma DestroyCheckKeeps(s: State, t: Tid)
    requires Inv(s) && t in s.threads && s.threads[t].destroy.Checking?
    ensures DestroyCheckStep(s, t).Next? && Inv(DestroyCheckStep(s, t).s)
  {
    var c := s.threads[t].destroy.c;
    CheckedAlive(s, t);
    if Unused(s.heap[c]) {
      UnusedApart(s, t, c);
      DestroyCheckRemoves(s, t, c);
      RemovesKeeps(s, DestroyCheckStep(s, t).s, t, c);
    } else {
      BackOutKeeps(s, t, c);
    }
  }

  // ---------------------------------------------------------------- the context is freed

  ghost predicate FreesCtx(s: State, s': State, t: Tid, c: CtxId) {
    && OnlyMoves(s, s', t) && c in s.heap && !InTable(s, c)
    && s'.heap == s.heap - {c} && s'.objs == s.objs && s'.bt2ctx == s.bt2ctx && s'.mtx == s.mtx
    && s.threads[t].destroy == Removing(c)
    && s'.threads[t] == s.threads[t].(destroy := NoDestroy)
  }

  lemma FreeTables(s: State, s': State, t: Tid, c: CtxId)
    requires FreesCtx(s, s', t, c) && TablesInv(s)
    ensures TablesInv(s') && forall d :: InTable(s', d) == InTable(s, d)
  {
    forall bt | bt in s'.bt2ctx ensures TableInv(s', bt) {
      assert TableInv(s, bt);
    }
  }

  lemma FreeThread(s: State, s': State, t: Tid, c: CtxId, u: Tid)
    requires FreesCtx(s, s', t, c) && TablesInv(s) && DestroyInv(s, t)
    requires u in s.threads && u in s'.threads && u != t && ThreadInv(s, u)
    ensures ThreadInv(s', u)
  {
    FreeTables(s, s', t, c);
    if s.threads[u].destroy.Removing? {
      RemovedAlone(s, t, u);
      RemovingStays(s, s', t, u);
    }
    OtherThread(s, s', u);
  }

  lemma FreeSelf(s: State, s': State, t: Tid, c: CtxId)
    requires FreesCtx(s, s', t, c) && TablesInv(s) && ThreadInv(s, t) && t in s'.threads
    ensures ThreadInv(s', t)
  {
    FreeTables(s, s', t, c);
    CacheStays(s, s', t);
  }

  lemma FreeCtx(s: State, s': State, t: Tid, c: CtxId, d: CtxId)
    requires FreesCtx(s, s', t, c) && TablesInv(s) && ThreadInv(s, t)
    requires d in s'.heap && CtxInv(s, d)
    ensures CtxInv(s', d)
  {
    FreeTables(s, s', t, c);
    assert ObjsOf(s', d) == ObjsOf(s, d);
    assert t in s.heap[d].linked ==> LinkInv(s, d, t);
    OtherCtx(s, s', t, d);
  }

  lemma FreesKeeps(s: State, s': State, t: Tid, c: CtxId)
    requires Inv(s) && FreesCtx(s, s', t, c)
    ensures Inv(s')
  {
    assert t in s'.threads.Keys;
    assert ThreadInv(s, t);
    forall u | u in s'.threads ensures ThreadInv(s', u) {
      assert u in s.threads.Keys;
      if u != t {
        FreeThread(s, s', t, c, u);
      } else {
        FreeSelf(s, s', t, c);
      }
    }
    forall d | d in s'.heap ensures CtxInv(s', d) {
      FreeCtx(s, s', t, c, d);
    }
    FreeTables(s, s', t, c);
    assert ObjsInv(s');
    FreeingStays(s, s', t);
  }

  lemma FreeFrees(s: State, t: Tid)
    requires t in s.threads && ThreadInv(s, t) && s.threads[t].destroy.Removing?
    ensures FreeStep(s, t).Next? && FreesCtx(s, FreeStep(s, t).s, t, s.threads[t].destroy.c)
  {
  }

  lemma FreeKeeps(s: State, t: Tid)
    requires Inv(s) && t in s.threads && s.threads[t].destroy.Removing?
    ensures FreeStep(s, t).Next? && Inv(FreeStep(s, t).s)
  {
    FreeFrees(s, t);
    FreesKeeps(s, FreeStep(s, t).s, t, s.threads[t].destroy.c);
  }

  // ---------------------------------------------------------------- prof_lookup makes a context

  ghost predicate Makes(s: State, s': State, t: Tid, c: CtxId, bt: Bt) {
    && OnlyMoves(s, s', t) && c !in s.heap && bt !in s.bt2ctx
    && s'.heap == s.heap[c := Ctx(bt, 1, map[], 0)] && s'.bt2ctx == s.bt2ctx[bt := c]
    && s'.objs == s.objs && s'.mtx == s.mtx
    && s.threads[t].lookup == Searching(bt) && s.threads[t].destroy.NoDestroy?
    && s'.threads[t] == s.threads[t].(lookup := Counted(bt, c, true))
  }

  lemma MakesTables(s: State, s': State, t: Tid, c: CtxId, bt: Bt)
    requires Makes(s, s', t, c, bt)
    ensures TablesInv(s) ==> TablesInv(s')
    ensures forall d :: d != c ==> InTable(s', d) == InTable(s, d)
    ensures InTable(s', c) && s'.heap[c].bt == bt
  {
    forall b | TablesInv(s) && b in s'.bt2ctx ensures TableInv(s', b) {
      assert b != bt ==> TableInv(s, b);
    }
  }

  lemma MakesThread(s: State, s': State, t: Tid, c: CtxId, bt: Bt, u: Tid)
    requires Makes(s, s', t, c, bt)
    requires u in s.threads && u in s'.threads && u != t && ThreadInv(s, u)
    ensures ThreadInv(s', u)
  {
    MakesTables(s, s', t, c, bt);
    if s.threads[u].destroy.Removing? {
      RemovedAlone(s, t, u);
      RemovingStays(s, s', t, u);
    }
    OtherThread(s, s', u);
  }

  lemma MakesSelf(s: State, s': State, t: Tid, c: CtxId, bt: Bt)
    requires Makes(s, s', t, c, bt) && ThreadInv(s, t) && t in s'.threads
    ensures ThreadInv(s', t)
  {
    MakesTables(s, s', t, c, bt);
    CacheStays(s, s', t);
  }

  lemma HoldsAlive(s: State, u: Tid, c: CtxId)
    requires u in s.threads && ThreadInv(s, u) && Holds(s.threads[u], c)
    ensures c in s.heap
  {
  }

  lemma MakesCtx(s: State, s': State, t: Tid, c: CtxId, bt: Bt)
    requires Makes(s, s', t, c, bt) && ThreadsInv(s) && ObjsInv(s) && c in s'.heap
    ensures CtxInv(s', c)
  {
    MakesTables(s, s', t, c, bt);
    forall u | u in s.threads && Holds(s.threads[u], c) ensures false {
      HoldsAlive(s, u, c);
    }
    assert Holders(s', c) == {t};
    assert ObjsOf(s', c) == {};
  }

  lemma MakesOther(s: State, s': State, t: Tid, c: CtxId, bt: Bt, d: CtxId)
    requires Makes(s, s', t, c, bt) && ThreadInv(s, t)
    requires d in s.heap && CtxInv(s, d) && d in s'.heap
    ensures CtxInv(s', d)
  {
    MakesTables(s, s', t, c, bt);
    assert ObjsOf(s', d) == ObjsOf(s, d);
    assert t in s.heap[d].linked ==> LinkInv(s, d, t);
    OtherCtx(s, s', t, d);
  }

  lemma MakesKeeps(s: State, s': State, t: Tid, c: CtxId, bt: Bt)
    requires Inv(s) && Makes(s, s', t, c, bt)
    ensures Inv(s')
  {
    assert t in s'.threads.Keys;
    assert ThreadInv(s, t);
    forall u | u in s'.threads ensures ThreadInv(s', u) {
      assert u in s.threads.Keys;
      if u != t {
        MakesThread(s, s', t, c, bt, u);
      } else {
        MakesSelf(s, s', t, c, bt);
      }
    }
    forall d | d in s'.heap ensures CtxInv(s', d) {
      if d == c {
        MakesCtx(s, s', t, c, bt);
      } else {
        MakesOther(s, s', t, c, bt, d);
      }
    }
    MakesTables(s, s', t, c, bt);
    assert ObjsInv(s');
    FreeingStays(s, s', t);
  }

  lemma SearchMissMakes(s: State, t: Tid, c: CtxId)
    requires t in s.threads && ThreadInv(s, t)
    requires SearchMissStep(s, t, c).Next?
    ensures Makes(s, SearchMissStep(s, t, c).s, t, c, s.threads[t].lookup.bt)
  {
  }

  lemma SearchMissKeeps(s: State, t: Tid, c: CtxId)
    requires Inv(s) && t in s.threads
    requires SearchMissStep(s, t, c).Next?
    ensures Inv(SearchMissStep(s, t, c).s)
  {
    SearchMissMakes(s, t, c);
    MakesKeeps(s, SearchMissStep(s, t, c).s, t, c, s.threads[t].lookup.bt);
  }
}
