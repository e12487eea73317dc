/** Safety of the context lifetime protocol over every interleaving. */
module ProfTheorems {
  import opened ProfProtocol
  import opened ProfInvariant
  import opened Sums
  import opened ProfSteps
  import opened Options

  // ---------------------------------------------------------------- one step

  lemma CtxStepKeeps(s: State, t: Tid, a: Action, accum: bool)
    requires Inv(s) && !IsLocal(a)
    ensures var r := Step(s, t, a, accum); !r.Fault? && (r.Next? ==> Inv(r.s))
  {
    if !Step(s, t, a, accum).Disabled? {
      match a
      case SearchMiss(c) => SearchMissKeeps(s, t, c);
      case Count => CountKeeps(s, t);
      case Evict(bt) => EvictKeeps(s, t, bt, accum);
      case Link => LinkKeeps(s, t);
      case DestroyCheck => DestroyCheckKeeps(s, t);
      case Free => FreeKeeps(s, t);
      case Sample(bt, o) => SampleKeeps(s, t, bt, o);
      case FreeCached => FreeCachedKeeps(s, t);
      case FreeMerged => FreeMergedKeeps(s, t);
    }
  }

  lemma LocalStepSafe(s: State, t: Tid, a: Action, accum: bool)
    requires ObjsInv(s) && IsLocal(a)
    ensures !Step(s, t, a, accum).Fault?
  {
    if a.FreeStart? && a.o in s.objs {
      assert InTable(s, s.objs[a.o]);
    }
  }

  /** No step of any thread touches freed memory, and every step keeps the invariant. */
  lemma StepKeeps(s: State, t: Tid, a: Action, accum: bool)
    requires Inv(s)
    ensures var r := Step(s, t, a, accum); !r.Fault? && (r.Next? ==> Inv(r.s))
  {
    if IsLocal(a) {
      LocalStepSafe(s, t, a, accum);
      if Step(s, t, a, accum).Next? {
        LocalStepKeeps(s, t, a, accum);
      }
    } else {
      CtxStepKeeps(s, t, a, accum);
    }
  }

  // ---------------------------------------------------------------- every run

  /** Where a schedule leads; a step that is not enabled is passed over. */
  function Run(s: State, schedule: seq<(Tid, Action)>, accum: bool): Outcome
    decreases |schedule|
  {
    if schedule == [] then Next(s)
    else
      match Step(s, schedule[0].0, schedule[0].1, accum)
      case Fault => Fault
      case Disabled => Run(s, schedule[1..], accum)
      case Next(s') => Run(s', schedule[1..], accum)
  }

  lemma {:induction false} RunKeeps(s: State, schedule: seq<(Tid, Action)>, accum: bool)
    requires Inv(s)
    ensures Run(s, schedule, accum).Next? && Inv(Run(s, schedule, accum).s)
    decreases |schedule|
  {
    if schedule != [] {
      var r := Step(s, schedule[0].0, schedule[0].1, accum);
      StepKeeps(s, schedule[0].0, schedule[0].1, accum);
      match r
      case Next(s') => RunKeeps(s', schedule[1..], accum);
      case Disabled => RunKeeps(s, schedule[1..], accum);
      case Fault => assert false;
    }
  }

  lemma StartInv(tids: set<Tid>)
    ensures Inv(Start(tids))
  {
  }

  /** Memory safety: whatever the threads and the schedule, nothing freed is ever touched. */
  lemma NeverFaults(tids: set<Tid>, schedule: seq<(Tid, Action)>, accum: bool)
    ensures Run(Start(tids), schedule, accum).Next?
    ensures Inv(Run(Start(tids), schedule, accum).s)
  {
    StartInv(tids);
    RunKeeps(Start(tids), schedule, accum);
  }

  ghost predicate Reachable(s: State) {
    exists tids, schedule, accum :: Run(Start(tids), schedule, accum) == Next(s)
  }

  lemma ReachableInv(s: State)
    requires Reachable(s)
    ensures Inv(s)
  {
    var tids, schedule, accum :| Run(Start(tids), schedule, accum) == Next(s);
    NeverFaults(tids, schedule, accum);
  }

  // ---------------------------------------------------------------- when a context is freed

  /** A context can only be freed when cnts_ql is empty, bt2ctx does not find it, no object and
      no cache points to it, and no other thread is between lookup and link or between merge and
      the end of destroy with it. */
  lemma FreedUnused(s: State, t: Tid, a: Action, accum: bool, c: CtxId)
    requires Reachable(s) && c in s.heap
    requires Step(s, t, a, accum).Next? && c !in Step(s, t, a, accum).s.heap
    ensures a.Free? && s.heap[c].linked == map[] && Holders(s, c) == {t}
    ensures forall bt <- s.bt2ctx :: s.bt2ctx[bt] != c
    ensures forall o <- s.objs :: s.objs[o] != c
    ensures forall u, bt :: u in s.threads && bt in s.threads[u].cache ==> s.threads[u].cache[bt] != c
    ensures forall u <- s.threads :: s.threads[u].lookup.Found? ==> s.threads[u].lookup.c != c
  {
    ReachableInv(s);
    FreeOnly(s, t, a, accum, c);
    RemovingUnused(s, t, c);
  }

  lemma FreeOnly(s: State, t: Tid, a: Action, accum: bool, c: CtxId)
    requires c in s.heap
    requires Step(s, t, a, accum).Next? && c !in Step(s, t, a, accum).s.heap
    ensures a.Free? && t in s.threads && s.threads[t].destroy == Removing(c)
  {
  }

  lemma RemovingUnused(s: State, t: Tid, c: CtxId)
    requires Inv(s) && t in s.threads && s.threads[t].destroy == Removing(c)
    ensures c in s.heap && s.heap[c].linked == map[] && Holders(s, c) == {t}
    ensures forall bt <- s.bt2ctx :: s.bt2ctx[bt] != c
    ensures forall o <- s.objs :: s.objs[o] != c
    ensures forall u, bt :: u in s.threads && bt in s.threads[u].cache ==> s.threads[u].cache[bt] != c
    ensures forall u <- s.threads :: s.threads[u].lookup.Found? ==> s.threads[u].lookup.c != c
  {
    RemovingAlone(s, t, c);
    NotFound(s, c);
    forall u, bt | u in s.threads && bt in s.threads[u].cache ensures s.threads[u].cache[bt] != c {
      NotCached(s, u, bt, c);
    }
    forall u | u in s.threads && s.threads[u].lookup.Found? ensures s.threads[u].lookup.c != c {
      NotLookedUp(s, u, c);
    }
  }

  lemma RemovingAlone(s: State, t: Tid, c: CtxId)
    requires ThreadsInv(s) && t in s.threads && s.threads[t].destroy == Removing(c)
    ensures c in s.heap && s.heap[c].linked == map[] && Holders(s, c) == {t} && !InTable(s, c)
  {
    assert ThreadInv(s, t);
  }

  lemma NotFound(s: State, c: CtxId)
    requires TablesInv(s) && ObjsInv(s) && !InTable(s, c)
    ensures forall bt <- s.bt2ctx :: s.bt2ctx[bt] != c
    ensures forall o <- s.objs :: s.objs[o] != c
  {
    forall bt | bt in s.bt2ctx ensures s.bt2ctx[bt] != c {
      assert TableInv(s, bt);
    }
  }

  lemma NotCached(s: State, u: Tid, bt: Bt, c: CtxId)
    requires ThreadsInv(s) && !InTable(s, c) && u in s.threads && bt in s.threads[u].cache
    ensures s.threads[u].cache[bt] != c
  {
    assert ThreadInv(s, u);
    assert CacheInv(s, u, bt);
  }

  lemma NotLookedUp(s: State, u: Tid, c: CtxId)
    requires ThreadsInv(s) && TablesInv(s) && !InTable(s, c) && u in s.threads && s.threads[u].lookup.Found?
    ensures s.threads[u].lookup.c != c
  {
    assert ThreadInv(s, u);
    assert TableInv(s, s.threads[u].lookup.bt);
  }

  /** While a context is linked or held, nlimbo covers its holders, and bt2ctx still finds it
      unless its only holder is destroying it. */
  lemma InUse(s: State, c: CtxId)
    requires Reachable(s) && c in s.heap
    ensures |Holders(s, c)| <= s.heap[c].nlimbo
    ensures InTable(s, c) || (exists t :: Holders(s, c) == {t} && s.threads[t].destroy == Removing(c))
    ensures s.heap[c].linked != map[] ==> InTable(s, c)
    ensures s.heap[c].merged + Sum(s.heap[c].linked) == |ObjsOf(s, c)|
  {
    ReachableInv(s);
    assert CtxInv(s, c);
    if !InTable(s, c) {
      var t :| t in s.threads && s.threads[t].destroy == Removing(c);
      RemovingAlone(s, t, c);
    }
  }

  // ---------------------------------------------------------------- nlimbo, exactly

  /** How much nlimbo exceeds the number of holders. */
  ghost function Excess(s: State, c: CtxId): int
    requires c in s.heap
  {
    s.heap[c].nlimbo - |Holders(s, c)|
  }

  /** The step in which prof_lookup runs out of memory in a thread that did not make the context,
      and returns without counting itself out of nlimbo. */
  ghost predicate Leaks(s: State, t: Tid, a: Action, c: CtxId) {
    && a.HoldFail? && t in s.threads && s.threads[t].lookup.Holding?
    && s.threads[t].lookup.c == c && !s.threads[t].lookup.isNew
  }

  ghost function One(b: bool): int {
    if b then 1 else 0
  }

  lemma HoldersCount(s: State, s': State, t: Tid, d: CtxId)
    requires OnlyMoves(s, s', t)
    ensures |Holders(s', d)| == |Holders(s, d)| + One(Holds(s'.threads[t], d)) - One(Holds(s.threads[t], d))
  {
    assert t in s'.threads.Keys;
    if Holds(s.threads[t], d) == Holds(s'.threads[t], d) {
      assert Holders(s', d) == Holders(s, d);
    } else if Holds(s.threads[t], d) {
      HoldersLose(s, s', t, d);
    } else {
      assert Holders(s', d) == Holders(s, d) + {t};
    }
  }

  /** The thread's own part of a step in nlimbo of d. */
  ghost predicate OwnPart(s: State, s': State, t: Tid, d: CtxId, leak: bool) {
    && OnlyMoves(s, s', t) && d in s.heap && d in s'.heap
    && s'.heap[d].nlimbo - s.heap[d].nlimbo == One(Holds(s'.threads[t], d)) - One(Holds(s.threads[t], d)) + One(leak)
  }

  lemma OwnLimboEvict(s: State, t: Tid, bt: Bt, accum: bool, d: CtxId)
    requires t in s.threads && ThreadInv(s, t) && d in s.heap && |Holders(s, d)| <= s.heap[d].nlimbo
    requires EvictStep(s, t, bt, accum).Next?
    ensures OwnPart(s, EvictStep(s, t, bt, accum).s, t, d, false)
  {
    assert Holds(s.threads[t], d) ==> t in Holders(s, d);
  }

  lemma OwnLimboObjs(s: State, t: Tid, a: Action, accum: bool, d: CtxId)
    requires d in s.heap && (a.Sample? || a.FreeCached? || a.FreeMerged?)
    requires Step(s, t, a, accum).Next?
    ensures OwnPart(s, Step(s, t, a, accum).s, t, d, false)
  {
  }

  lemma OwnLimboLookup(s: State, t: Tid, a: Action, accum: bool, d: CtxId)
    requires t in s.threads && ThreadInv(s, t) && d in s.heap && (a.SearchMiss? || a.Count? || a.Link?)
    requires Step(s, t, a, accum).Next?
    ensures OwnPart(s, Step(s, t, a, accum).s, t, d, false)
  {
  }

  lemma OwnLimboDestroy(s: State, t: Tid, a: Action, accum: bool, d: CtxId)
    requires t in s.threads && ThreadInv(s, t) && d in s.heap && (a.DestroyCheck? || a.Free?)
    requires Step(s, t, a, accum).Next? && d in Step(s, t, a, accum).s.heap
    ensures OwnPart(s, Step(s, t, a, accum).s, t, d, false)
  {
  }

  lemma OwnLimboLocal(s: State, t: Tid, a: Action, accum: bool, d: CtxId)
    requires t in s.threads && ThreadInv(s, t) && d in s.heap && IsLocal(a)
    requires Step(s, t, a, accum).Next?
    ensures OwnPart(s, Step(s, t, a, accum).s, t, d, Leaks(s, t, a, d))
  {
  }

  lemma OwnLimbo(s: State, t: Tid, a: Action, accum: bool, d: CtxId)
    requires t in s.threads && ThreadInv(s, t) && d in s.heap && |Holders(s, d)| <= s.heap[d].nlimbo
    requires Step(s, t, a, accum).Next? && d in Step(s, t, a, accum).s.heap
    ensures OwnPart(s, Step(s, t, a, accum).s, t, d, Leaks(s, t, a, d))
  {
    if IsLocal(a) {
      OwnLimboLocal(s, t, a, accum, d);
    } else if a.Evict? {
      OwnLimboEvict(s, t, a.bt, accum, d);
    } else if a.Sample? || a.FreeCached? || a.FreeMerged? {
      OwnLimboObjs(s, t, a, accum, d);
    } else if a.DestroyCheck? || a.Free? {
      OwnLimboDestroy(s, t, a, accum, d);
    } else {
      OwnLimboLookup(s, t, a, accum, d);
    }
  }

  /** nlimbo counts the holders and the leaks: every other step changes it by exactly the change
      in the number of threads between lookup and link or between merge and destroy. */
  lemma LimboExact(s: State, t: Tid, a: Action, accum: bool, c: CtxId)
    requires Reachable(s) && c in s.heap
    requires Step(s, t, a, accum).Next? && c in Step(s, t, a, accum).s.heap
    ensures Excess(Step(s, t, a, accum).s, c) == Excess(s, c) + One(Leaks(s, t, a, c))
  {
    ReachableInv(s);
    LimboStep(s, t, a, accum, c);
  }

  lemma LimboStep(s: State, t: Tid, a: Action, accum: bool, c: CtxId)
    requires Inv(s) && c in s.heap
    requires Step(s, t, a, accum).Next? && c in Step(s, t, a, accum).s.heap
    ensures Excess(Step(s, t, a, accum).s, c) == Excess(s, c) + One(Leaks(s, t, a, c))
  {
    assert ThreadInv(s, t) && CtxInv(s, c);
    OwnLimbo(s, t, a, accum, c);
    HoldersCount(s, Step(s, t, a, accum).s, t, c);
  }

  /** Only the destroyer that finds c unused takes it out of bt2ctx. */
  lemma TableKept(s: State, t: Tid, a: Action, accum: bool, c: CtxId)
    requires InTable(s, c) && t in s.threads && s.threads[t].destroy != Removing(c)
    requires a.DestroyCheck? && s.threads[t].destroy == Checking(c) ==> !Unused(s.heap[c])
    requires Step(s, t, a, accum).Next?
    ensures InTable(Step(s, t, a, accum).s, c)
  {
  }

  lemma LeakStays(s: State, t: Tid, a: Action, accum: bool, c: CtxId)
    requires Inv(s) && InTable(s, c) && Excess(s, c) > 0
    requires Step(s, t, a, accum).Next?
    ensures InTable(Step(s, t, a, accum).s, c)
    ensures Excess(Step(s, t, a, accum).s, c) > 0
  {
    assert ThreadInv(s, t);
    if s.threads[t].destroy == Removing(c) {
      RemovingAlone(s, t, c);
    } else {
      assert s.threads[t].destroy == Checking(c) ==> t in Holders(s, c);
      TableKept(s, t, a, accum, c);
      LimboStep(s, t, a, accum, c);
    }
  }

  /** So a context that has leaked once is never freed: it is still there, and leaked, after any
      schedule. */
  lemma {:induction false} LeakIsForever(s: State, schedule: seq<(Tid, Action)>, accum: bool, c: CtxId)
    requires Inv(s) && InTable(s, c) && Excess(s, c) > 0
    ensures var r := Run(s, schedule, accum); r.Next? && InTable(r.s, c) && Excess(r.s, c) > 0
    decreases |schedule|
  {
    if schedule != [] {
      var r := Step(s, schedule[0].0, schedule[0].1, accum);
      StepKeeps(s, schedule[0].0, schedule[0].1, accum);
      match r
      case Next(s') =>
        LeakStays(s, schedule[0].0, schedule[0].1, accum, c);
        LeakIsForever(s', schedule[1..], accum, c);
      case Disabled => LeakIsForever(s, schedule[1..], accum, c);
      case Fault => assert false;
    }
  }

  /** Thread 0 makes a context and links it; thread 1 finds it and runs out of memory. */
  function LeakingSchedule(bt: Bt, c: CtxId): seq<(Tid, Action)> {
    [(0, LookupStart(bt)), (0, SearchMiss(c)), (0, Leave), (0, Link),
     (1, LookupStart(bt)), (1, SearchHit), (1, Count), (1, Leave), (1, HoldFail)]
  }

  lemma RunFirst(s: State, schedule: seq<(Tid, Action)>, n: nat, s': State, accum: bool)
    requires n < |schedule| && Step(s, schedule[n].0, schedule[n].1, accum) == Next(s')
    ensures Run(s, schedule[n..], accum) == Run(s', schedule[n + 1..], accum)
  {
    assert schedule[n..][0] == schedule[n] && schedule[n..][1..] == schedule[n + 1..];
  }

  /** After the first four steps the context is linked by thread 0. */
  function Linked(bt: Bt, c: CtxId): State {
    State(map[c := Ctx(bt, 0, map[0 := 0], 0)], map[bt := c], None,
          map[0 := Thread(map[bt := c], NoLookup, NoDestroy, None), 1 := Thread(map[], NoLookup, NoDestroy, None)],
          map[])
  }

  function Made(bt: Bt, c: CtxId): State {
    State(map[c := Ctx(bt, 1, map[], 0)], map[bt := c], Some(0),
          map[0 := Thread(map[], Counted(bt, c, true), NoDestroy, None), 1 := Thread(map[], NoLookup, NoDestroy, None)],
          map[])
  }

  lemma LeakMade(bt: Bt, c: CtxId, accum: bool)
    ensures Run(Start({0, 1}), LeakingSchedule(bt, c), accum) == Run(Made(bt, c), LeakingSchedule(bt, c)[2..], accum)
  {
    var w := LeakingSchedule(bt, c);
    var s0 := Start({0, 1});
    var s1 := LookupStartStep(s0, 0, bt).s;
    RunFirst(s0, w, 0, s1, accum);
    assert SearchMissStep(s1, 0, c).s == Made(bt, c);
    RunFirst(s1, w, 1, Made(bt, c), accum);
    assert w[0..] == w;
  }

  lemma LeakPrepared(bt: Bt, c: CtxId, accum: bool)
    ensures Run(Made(bt, c), LeakingSchedule(bt, c)[2..], accum)
      == Run(Linked(bt, c), LeakingSchedule(bt, c)[4..], accum)
  {
    var w := LeakingSchedule(bt, c);
    var s2 := Made(bt, c);
    var s3 := LeaveStep(s2, 0).s;
    RunFirst(s2, w, 2, s3, accum);
    assert LinkStep(s3, 0).s == Linked(bt, c);
    RunFirst(s3, w, 3, Linked(bt, c), accum);
  }

  /** And after the others thread 1 has counted itself into nlimbo for ever. */
  function Leaked(bt: Bt, c: CtxId): State {
    Linked(bt, c).(heap := map[c := Ctx(bt, 1, map[0 := 0], 0)])
  }

  lemma LeakDone(bt: Bt, c: CtxId, accum: bool)
    ensures Run(Linked(bt, c), LeakingSchedule(bt, c)[4..], accum) == Next(Leaked(bt, c))
  {
    var w := LeakingSchedule(bt, c);
    var s4 := Linked(bt, c);
    var s5 := LookupStartStep(s4, 1, bt).s;
    var s6 := SearchHitStep(s5, 1).s;
    var s7 := CountStep(s6, 1).s;
    var s8 := LeaveStep(s7, 1).s;
    RunFirst(s4, w, 4, s5, accum);
    RunFirst(s5, w, 5, s6, accum);
    RunFirst(s6, w, 6, s7, accum);
    RunFirst(s7, w, 7, s8, accum);
    assert HoldFailStep(s8, 1).s == Leaked(bt, c);
    RunFirst(s8, w, 8, Leaked(bt, c), accum);
    assert w[9..] == [];
  }

  /** Leaks do happen. */
  lemma LeakHappens(bt: Bt, c: CtxId, accum: bool)
    ensures var r := Run(Start({0, 1}), LeakingSchedule(bt, c), accum);
      r.Next? && InTable(r.s, c) && Excess(r.s, c) == 1
  {
    LeakMade(bt, c, accum);
    LeakPrepared(bt, c, accum);
    LeakDone(bt, c, accum);
    assert Holders(Leaked(bt, c), c) == {};
  }
}
