/** What every interleaving of the steps of ProfProtocol keeps. */
module ProfInvariant {
  import opened ProfProtocol
  import opened Sums
  import opened Options

  /** The thread counts in nlimbo of c. */
  ghost predicate Holds(th: Thread, c: CtxId) {
    || ((th.lookup.Counted? || th.lookup.Holding?) && th.lookup.c == c)
    || (!th.destroy.NoDestroy? && th.destroy.c == c)
  }

  ghost function Holders(s: State, c: CtxId): set<Tid> {
    set t | t in s.threads && Holds(s.threads[t], c)
  }

  ghost function ObjsOf(s: State, c: CtxId): set<Obj> {
    set o | o in s.objs && s.objs[o] == c
  }

  /** bt2ctx finds c. */
  ghost predicate InTable(s: State, c: CtxId) {
    c in s.heap && s.heap[c].bt in s.bt2ctx && s.bt2ctx[s.heap[c].bt] == c
  }

  /** The thread is inside a section under bt2ctx_mtx. */
  ghost predicate Critical(th: Thread) {
    th.lookup.Searching? || th.lookup.Found? || th.lookup.Counted? || th.destroy.Checking?
  }

  ghost predicate CacheInv(s: State, t: Tid, bt: Bt)
    requires t in s.threads && bt in s.threads[t].cache
  {
    var c := s.threads[t].cache[bt];
    InTable(s, c) && s.heap[c].bt == bt && t in s.heap[c].linked
  }

  ghost predicate LookupInv(s: State, t: Tid)
    requires t in s.threads
  {
    var th := s.threads[t];
    match th.lookup
    case NoLookup => true
    case Searching(bt) => bt !in th.cache
    case Found(bt, c) => bt !in th.cache && bt in s.bt2ctx && s.bt2ctx[bt] == c
    case Counted(bt, c, _) => bt !in th.cache && InTable(s, c) && s.heap[c].bt == bt
    case Holding(bt, c, _) => bt !in th.cache && InTable(s, c) && s.heap[c].bt == bt
  }

  ghost predicate DestroyInv(s: State, t: Tid)
    requires t in s.threads
  {
    var th := s.threads[t];
    match th.destroy
    case NoDestroy => true
    case Wants(c) => InTable(s, c)
    case Checking(c) => InTable(s, c)
    case Removing(c) => c in s.heap && !InTable(s, c) && s.heap[c].linked == map[] && Holders(s, c) == {t}
  }

  ghost predicate ThreadInv(s: State, t: Tid)
    requires t in s.threads
  {
    var th := s.threads[t];
    && (forall bt <- th.cache :: CacheInv(s, t, bt))
    && LookupInv(s, t)
    && DestroyInv(s, t)
    && (th.lookup.NoLookup? || th.destroy.NoDestroy? || (th.lookup.Holding? && th.lookup.c != th.destroy.c))
    && (Critical(th) <==> s.mtx == Some(t))
    && (th.freeing.Some? ==> th.freeing.value in s.objs)
  }

  ghost predicate LinkInv(s: State, c: CtxId, t: Tid)
    requires c in s.heap
  {
    t in s.threads && s.heap[c].bt in s.threads[t].cache && s.threads[t].cache[s.heap[c].bt] == c
  }

  ghost predicate CtxInv(s: State, c: CtxId)
    requires c in s.heap
  {
    var x := s.heap[c];
    && (forall t <- x.linked :: LinkInv(s, c, t))
    && |Holders(s, c)| <= x.nlimbo
    && x.merged + Sum(x.linked) == |ObjsOf(s, c)|
    && (InTable(s, c) || exists t :: t in s.threads && s.threads[t].destroy == Removing(c))
  }

  ghost predicate TableInv(s: State, bt: Bt)
    requires bt in s.bt2ctx
  {
    s.bt2ctx[bt] in s.heap && s.heap[s.bt2ctx[bt]].bt == bt
  }

  ghost predicate FreeingApart(s: State, t: Tid, u: Tid)
    requires t in s.threads && u in s.threads
  {
    t != u && s.threads[t].freeing.Some? ==> s.threads[t].freeing != s.threads[u].freeing
  }

  /** No two threads free the same object. */
  ghost predicate FreeingInv(s: State) {
    forall t, u :: t in s.threads && u in s.threads ==> FreeingApart(s, t, u)
  }

  ghost predicate TablesInv(s: State) {
    forall bt <- s.bt2ctx :: TableInv(s, bt)
  }

  ghost predicate ThreadsInv(s: State) {
    forall t <- s.threads :: ThreadInv(s, t)
  }

  ghost predicate CtxsInv(s: State) {
    forall c <- s.heap :: CtxInv(s, c)
  }

  /** The context of every sampled object that is not freed yet is alive and in bt2ctx. */
  ghost predicate ObjsInv(s: State) {
    forall o <- s.objs :: InTable(s, s.objs[o])
  }

  ghost predicate Inv(s: State) {
    && TablesInv(s)
    && ThreadsInv(s)
    && CtxsInv(s)
    && ObjsInv(s)
    && (s.mtx.Some? ==> s.mtx.value in s.threads)
    && FreeingInv(s)
  }

  // ---------------------------------------------------------------- what a step leaves alone

  /** u sees in s' every context that bt2ctx found in s, and is still linked where it was. */
  ghost predicate Sees(s: State, s': State, u: Tid) {
    forall d :: InTable(s, d) ==>
      InTable(s', d) && s'.heap[d].bt == s.heap[d].bt && (u in s.heap[d].linked ==> u in s'.heap[d].linked)
  }

  lemma OtherThread(s: State, s': State, u: Tid)
    requires u in s.threads && ThreadInv(s, u) && u in s'.threads && s'.threads[u] == s.threads[u]
    requires Sees(s, s', u)
    requires forall bt <- s.bt2ctx :: bt in s'.bt2ctx && s'.bt2ctx[bt] == s.bt2ctx[bt]
    requires s.mtx == Some(u) <==> s'.mtx == Some(u)
    requires s.threads[u].freeing.Some? ==> s.threads[u].freeing.value in s'.objs
    requires s.threads[u].destroy.Removing? ==> DestroyInv(s', u)
    ensures ThreadInv(s', u)
  {
    forall bt | bt in s'.threads[u].cache ensures CacheInv(s', u, bt) {
      assert CacheInv(s, u, bt);
    }
  }

  /** Only thread t, if any, has moved. */
  ghost predicate OnlyMoves(s: State, s': State, t: Tid) {
    && t in s.threads
    && s'.threads.Keys == s.threads.Keys
    && (forall u <- s.threads :: u != t ==> s'.threads[u] == s.threads[u])
  }

  lemma HoldersShrink(s: State, s': State, t: Tid, d: CtxId)
    requires OnlyMoves(s, s', t)
    requires Holds(s'.threads[t], d) ==> Holds(s.threads[t], d)
    ensures Holders(s', d) <= Holders(s, d) && |Holders(s', d)| <= |Holders(s, d)|
  {
    assert Holders(s', d) <= Holders(s, d);
    SubsetSize(Holders(s', d), Holders(s, d));
  }

  lemma HoldersGrow(s: State, s': State, t: Tid, d: CtxId)
    requires OnlyMoves(s, s', t)
    ensures Holders(s', d) <= Holders(s, d) + {t} && |Holders(s', d)| <= |Holders(s, d)| + 1
  {
    assert Holders(s', d) <= Holders(s, d) + {t};
    SubsetSize(Holders(s', d), Holders(s, d) + {t});
  }

  lemma HoldersLose(s: State, s': State, t: Tid, d: CtxId)
    requires OnlyMoves(s, s', t)
    requires Holds(s.threads[t], d) && !Holds(s'.threads[t], d)
    ensures Holders(s', d) == Holders(s, d) - {t} && |Holders(s', d)| == |Holders(s, d)| - 1
  {
    assert t in Holders(s, d);
    assert Holders(s', d) == Holders(s, d) - {t};
  }

  /** The links of d still have their cache entries when t keeps its own. */
  lemma LinksStay(s: State, s': State, t: Tid, d: CtxId, u: Tid)
    requires OnlyMoves(s, s', t)
    requires d in s.heap && d in s'.heap && s'.heap[d].bt == s.heap[d].bt
    requires LinkInv(s, d, u)
    requires u == t ==> s.heap[d].bt in s'.threads[t].cache && s'.threads[t].cache[s.heap[d].bt] == d
    ensures LinkInv(s', d, u)
  {
    assert u in s'.threads.Keys;
  }

  lemma OtherCtx(s: State, s': State, t: Tid, d: CtxId)
    requires OnlyMoves(s, s', t)
    requires d in s.heap && CtxInv(s, d) && d in s'.heap && s'.heap[d] == s.heap[d]
    requires Holds(s'.threads[t], d) ==> Holds(s.threads[t], d)
    requires t in s.heap[d].linked ==> s.heap[d].bt in s'.threads[t].cache && s'.threads[t].cache[s.heap[d].bt] == d
    requires ObjsOf(s', d) == ObjsOf(s, d)
    requires InTable(s, d) ==> InTable(s', d)
    requires s.threads[t].destroy == Removing(d) ==> s'.threads[t].destroy == Removing(d)
    ensures CtxInv(s', d)
  {
    HoldersShrink(s, s', t, d);
    forall u | u in s'.heap[d].linked ensures LinkInv(s', d, u) {
      LinksStay(s, s', t, d, u);
    }
    if !InTable(s, d) {
      var u :| u in s.threads && s.threads[u].destroy == Removing(d);
      assert u in s'.threads.Keys;
    }
  }

  /** A context being removed by u keeps its single holder. */
  lemma RemovingStays(s: State, s': State, t: Tid, u: Tid)
    requires OnlyMoves(s, s', t) && u != t && u in s.threads && u in s'.threads
    requires DestroyInv(s, u) && s.threads[u].destroy.Removing?
    requires var d := s.threads[u].destroy.c; d in s'.heap && s'.heap[d].linked == map[] && !InTable(s', d)
    requires !Holds(s'.threads[t], s.threads[u].destroy.c)
    ensures DestroyInv(s', u)
  {
    var d := s.threads[u].destroy.c;
    HoldersShrink(s, s', t, d);
    assert u in Holders(s', d);
  }

  /** No other thread touches a context that one is removing. */
  lemma RemovedAlone(s: State, t: Tid, u: Tid)
    requires t in s.threads && u in s.threads && t != u
    requires DestroyInv(s, u) && s.threads[u].destroy.Removing?
    ensures !Holds(s.threads[t], s.threads[u].destroy.c)
  {
    var d := s.threads[u].destroy.c;
    assert Holds(s.threads[t], d) ==> t in Holders(s, d);
  }

  /** Taking or releasing bt2ctx_mtx by t, or neither. */
  ghost predicate MtxMove(s: State, s': State, t: Tid) {
    || s'.mtx == s.mtx
    || (s.mtx.None? && s'.mtx == Some(t))
    || (s.mtx == Some(t) && s'.mtx.None?)
  }

  // ---------------------------------------------------------------- steps that change no context

  ghost predicate LocalMove(s: State, s': State, t: Tid) {
    && OnlyMoves(s, s', t) && MtxMove(s, s', t)
    && s'.heap == s.heap && s'.bt2ctx == s.bt2ctx && s'.objs == s.objs
    && s'.threads[t].cache == s.threads[t].cache
    && (forall d :: Holds(s'.threads[t], d) ==> Holds(s.threads[t], d))
    && (s.threads[t].destroy.Removing? ==> s'.threads[t].destroy == s.threads[t].destroy)
  }

  lemma LocalThread(s: State, s': State, t: Tid, u: Tid)
    requires LocalMove(s, s', t) && u in s.threads && u in s'.threads && u != t
    requires ThreadInv(s, u)
    ensures ThreadInv(s', u)
  {
    if s.threads[u].destroy.Removing? {
      RemovedAlone(s, t, u);
      RemovingStays(s, s', t, u);
    }
    OtherThread(s, s', u);
  }

  lemma LocalCtx(s: State, s': State, t: Tid, d: CtxId)
    requires LocalMove(s, s', t) && ThreadInv(s, t)
    requires d in s.heap && CtxInv(s, d)
    ensures CtxInv(s', d)
  {
    assert ObjsOf(s', d) == ObjsOf(s, d);
    assert t in s.heap[d].linked ==> LinkInv(s, d, t);
    OtherCtx(s, s', t, d);
  }

  lemma LocalKeeps(s: State, s': State, t: Tid)
    requires Inv(s) && LocalMove(s, s', t)
    requires ThreadInv(s', t)
    requires FreeingInv(s')
    ensures Inv(s')
  {
    forall u | u in s'.threads ensures ThreadInv(s', u) {
      assert u in s.threads.Keys;
      if u != t {
        LocalThread(s, s', t, u);
      }
    }
    forall d | d in s'.heap ensures CtxInv(s', d) {
      LocalCtx(s, s', t, d);
    }
    forall bt | bt in s'.bt2ctx ensures TableInv(s', bt) {
      assert TableInv(s, bt);
    }
    forall o | o in s'.objs ensures InTable(s', s'.objs[o]) {
      assert InTable(s, s.objs[o]);
    }
  }

  lemma FreeingStays(s: State, s': State, t: Tid)
    requires FreeingInv(s) && OnlyMoves(s, s', t)
    requires s'.threads[t].freeing == s.threads[t].freeing || s'.threads[t].freeing.None?
    ensures FreeingInv(s')
  {
    forall v, u | v in s'.threads && u in s'.threads ensures FreeingApart(s', v, u) {
      assert v in s.threads.Keys && u in s.threads.Keys;
      assert FreeingApart(s, v, u);
    }
  }

  lemma CacheStays(s: State, s': State, t: Tid)
    requires OnlyMoves(s, s', t) && s'.threads[t].cache == s.threads[t].cache
    requires forall bt <- s.threads[t].cache :: CacheInv(s, t, bt)
    requires Sees(s, s', t)
    ensures forall bt <- s'.threads[t].cache :: CacheInv(s', t, bt)
  {
    forall bt | bt in s'.threads[t].cache ensures CacheInv(s', t, bt) {
      assert CacheInv(s, t, bt);
    }
  }

  ghost predicate IsLocal(a: Action) {
    a.LookupStart? || a.SearchFail? || a.SearchHit? || a.Leave? || a.HoldFail? || a.DestroyEnter? || a.FreeStart?
  }

  lemma LocalStep(s: State, t: Tid, a: Action, accum: bool)
    requires t in s.threads && ThreadInv(s, t) && IsLocal(a)
    requires Step(s, t, a, accum).Next?
    ensures var s' := Step(s, t, a, accum).s; LocalMove(s, s', t) && ThreadInv(s', t)
  {
    CacheStays(s, Step(s, t, a, accum).s, t);
  }

  lemma FreeStartApart(s: State, t: Tid, o: Obj)
    requires t in s.threads && FreeingInv(s)
    requires FreeStartStep(s, t, o).Next?
    ensures FreeingInv(FreeStartStep(s, t, o).s)
  {
    var s' := FreeStartStep(s, t, o).s;
    forall v, u | v in s'.threads && u in s'.threads ensures FreeingApart(s', v, u) {
      assert v in s.threads.Keys && u in s.threads.Keys;
      assert FreeingApart(s, v, u);
    }
  }

  lemma LocalFreeing(s: State, t: Tid, a: Action, accum: bool)
    requires t in s.threads && FreeingInv(s) && IsLocal(a)
    requires Step(s, t, a, accum).Next? && OnlyMoves(s, Step(s, t, a, accum).s, t)
    ensures FreeingInv(Step(s, t, a, accum).s)
  {
    if a.FreeStart? {
      FreeStartApart(s, t, a.o);
    } else {
      FreeingStays(s, Step(s, t, a, accum).s, t);
    }
  }

  lemma LocalStepKeeps(s: State, t: Tid, a: Action, accum: bool)
    requires Inv(s) && IsLocal(a)
    requires Step(s, t, a, accum).Next?
    ensures Inv(Step(s, t, a, accum).s)
  {
    LocalStep(s, t, a, accum);
    LocalFreeing(s, t, a, accum);
    LocalKeeps(s, Step(s, t, a, accum).s, t);
  }

  // ---------------------------------------------------------------- steps that change one live context

  ghost predicate CtxMove(s: State, s': State, t: Tid, c: CtxId) {
    && OnlyMoves(s, s', t) && MtxMove(s, s', t) && s'.bt2ctx == s.bt2ctx
    && InTable(s, c) && s'.heap.Keys == s.heap.Keys && s'.heap[c].bt == s.heap[c].bt
    && (forall d <- s.heap :: d != c ==> s'.heap[d] == s.heap[d])
    && (forall u :: u != t ==> (u in s'.heap[c].linked <==> u in s.heap[c].linked))
    && (forall d :: d != c && Holds(s'.threads[t], d) ==> Holds(s.threads[t], d))
    && (forall bt <- s.threads[t].cache ::
          s.threads[t].cache[bt] != c ==>
            bt in s'.threads[t].cache && s'.threads[t].cache[bt] == s.threads[t].cache[bt])
    && !s.threads[t].destroy.Removing? && !s'.threads[t].destroy.Removing?
    && (forall o <- s'.objs :: if o in s.objs then s'.objs[o] == s.objs[o] else s'.objs[o] == c)
    && (forall o <- s.objs :: o in s'.objs || (s.objs[o] == c && s.threads[t].freeing == Some(o)))
  }

  lemma CtxMoveTable(s: State, s': State, t: Tid, c: CtxId)
    requires CtxMove(s, s', t, c)
    ensures forall d :: InTable(s', d) == InTable(s, d)
    ensures forall d :: InTable(s, d) ==> s'.heap[d].bt == s.heap[d].bt
    ensures forall u :: u != t ==> Sees(s, s', u)
  {
    forall d ensures InTable(s', d) == InTable(s, d) {
      assert d in s'.heap.Keys <==> d in s.heap.Keys;
    }
  }

  lemma CtxThread(s: State, s': State, t: Tid, c: CtxId, u: Tid)
    requires CtxMove(s, s', t, c) && u in s.threads && u in s'.threads && u != t
    requires ThreadInv(s, u) && FreeingApart(s, u, t)
    ensures ThreadInv(s', u)
  {
    CtxMoveTable(s, s', t, c);
    if s.threads[u].destroy.Removing? {
      RemovedAlone(s, t, u);
      assert s.threads[u].destroy.c in s'.heap.Keys;
      RemovingStays(s, s', t, u);
    }
    OtherThread(s, s', u);
  }

  lemma CtxOther(s: State, s': State, t: Tid, c: CtxId, d: CtxId)
    requires CtxMove(s, s', t, c)
    requires d in s.heap && d != c && CtxInv(s, d)
    ensures d in s'.heap && CtxInv(s', d)
  {
    CtxMoveTable(s, s', t, c);
    assert d in s'.heap.Keys;
    assert ObjsOf(s', d) == ObjsOf(s, d);
    assert t in s.heap[d].linked ==> LinkInv(s, d, t);
    OtherCtx(s, s', t, d);
  }

  lemma CtxObjs(s: State, s': State, t: Tid, c: CtxId)
    requires CtxMove(s, s', t, c) && ObjsInv(s)
    ensures ObjsInv(s')
  {
    CtxMoveTable(s, s', t, c);
  }

  lemma CtxTable(s: State, s': State, t: Tid, c: CtxId)
    requires CtxMove(s, s', t, c) && TablesInv(s)
    ensures TablesInv(s')
  {
    forall bt | bt in s'.bt2ctx ensures TableInv(s', bt) {
      assert TableInv(s, bt);
      assert s'.bt2ctx[bt] in s'.heap.Keys;
    }
  }

  lemma CtxThreads(s: State, s': State, t: Tid, c: CtxId)
    requires CtxMove(s, s', t, c) && ThreadsInv(s) && FreeingInv(s)
    requires ThreadInv(s', t)
    ensures ThreadsInv(s')
  {
    forall u | u in s'.threads ensures ThreadInv(s', u) {
      assert u in s.threads.Keys;
      if u != t {
        assert FreeingApart(s, u, t);
        CtxThread(s, s', t, c, u);
      }
    }
  }

  lemma CtxOthers(s: State, s': State, t: Tid, c: CtxId)
    requires CtxMove(s, s', t, c) && CtxsInv(s)
    requires c in s'.heap && CtxInv(s', c)
    ensures CtxsInv(s')
  {
    forall d | d in s'.heap ensures CtxInv(s', d) {
      assert d in s.heap.Keys;
      if d != c {
        CtxOther(s, s', t, c, d);
      }
    }
  }

  lemma CtxKeeps(s: State, s': State, t: Tid, c: CtxId)
    requires Inv(s) && CtxMove(s, s', t, c)
    requires c in s'.heap && ThreadInv(s', t) && CtxInv(s', c)
    requires FreeingInv(s')
    ensures Inv(s')
  {
    CtxThreads(s, s', t, c);
    CtxOthers(s, s', t, c);
    CtxTable(s, s', t, c);
    CtxObjs(s, s', t, c);
  }

  /** What is left to show of the context that changes. */
  lemma CtxAgain(s: State, s': State, t: Tid, c: CtxId)
    requires CtxMove(s, s', t, c) && CtxInv(s, c) && c in s'.heap
    requires t in s'.heap[c].linked ==> LinkInv(s', c, t)
    requires |Holders(s', c)| <= s'.heap[c].nlimbo
    requires s'.heap[c].merged + Sum(s'.heap[c].linked) == |ObjsOf(s', c)|
    ensures CtxInv(s', c)
  {
    CtxMoveTable(s, s', t, c);
    forall u | u in s'.heap[c].linked ensures LinkInv(s', c, u) {
      if u != t {
        LinksStay(s, s', t, c, u);
      }
    }
  }

  /** The cache entries of t stay right while it stays linked. */
  lemma CacheKept(s: State, s': State, t: Tid, c: CtxId)
    requires CtxMove(s, s', t, c) && ThreadInv(s, t)
    requires forall bt <- s'.threads[t].cache ::
      bt in s.threads[t].cache && s'.threads[t].cache[bt] == s.threads[t].cache[bt]
    requires forall bt <- s'.threads[t].cache :: s'.threads[t].cache[bt] == c ==> t in s'.heap[c].linked
    ensures forall bt <- s'.threads[t].cache :: CacheInv(s', t, bt)
  {
    CtxMoveTable(s, s', t, c);
    forall bt | bt in s'.threads[t].cache ensures CacheInv(s', t, bt) {
      assert CacheInv(s, t, bt);
      assert s.threads[t].cache[bt] in s'.heap.Keys;
    }
  }
}
