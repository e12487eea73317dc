/** What running out of memory inside ckh_insert does to the protocol (deps/jemalloc/src/prof.c).

    A failed ckh_insert may keep the new binding and give up another one (see Ckh.Table.Insert), but
    prof_lookup frees what the new binding points to.  The steps of ProfProtocol cover the failures
    that give up the new binding itself; here are all of them, and which are safe. */
module ProfOutOfMemory {
  import opened ProfProtocol
  import opened ProfInvariant
  import opened ProfTheorems
  import opened Options

  /** The table after an insertion that failed and gave up the item `lost`. */
  function FailedInsert<K, D>(m: map<K, D>, key: K, data: D, lost: K): map<K, D> {
    m[key := data] - {lost}
  }

  /** No schedule whatever touches freed memory. */
  ghost predicate Safe(s: State, accum: bool) {
    forall schedule :: Run(s, schedule, accum).Next?
  }

  // ---------------------------------------------------------------- inserting into bt2ctx

  /** Lines 484-490: the context made for bt, at address c, is freed again; bt2ctx is what the failed
      insertion leaves. */
  function TableInsertFails(s: State, t: Tid, c: CtxId, lost: Bt): State
    requires t in s.threads && s.threads[t].lookup.Searching?
  {
    var th := s.threads[t];
    WithThread(s, t, th.(lookup := NoLookup)).(mtx := None, bt2ctx := FailedInsert(s.bt2ctx, th.lookup.bt, c, lost))
  }

  /** It is safe exactly if the new binding is the one given up: otherwise the next lookup of the same
      backtrace touches the freed context. */
  lemma TableInsertSafe(s: State, t: Tid, c: CtxId, lost: Bt, accum: bool)
    requires Reachable(s) && t in s.threads && s.threads[t].lookup.Searching?
    requires var bt := s.threads[t].lookup.bt; bt !in s.bt2ctx && c !in s.heap
    ensures Safe(TableInsertFails(s, t, c, lost), accum) <==> lost == s.threads[t].lookup.bt
  {
    ReachableInv(s);
    assert ThreadInv(s, t);
    if lost == s.threads[t].lookup.bt {
      TableAsBefore(s, t, c, accum);
      StepSafe(s, t, SearchFail, accum, TableInsertFails(s, t, c, lost));
    } else {
      TableInsertHarmful(s, t, c, lost, accum);
    }
  }

  lemma TableAsBefore(s: State, t: Tid, c: CtxId, accum: bool)
    requires t in s.threads && s.threads[t].lookup.Searching? && s.threads[t].lookup.bt !in s.bt2ctx
    ensures Step(s, t, SearchFail, accum) == Next(TableInsertFails(s, t, c, s.threads[t].lookup.bt))
  {
    var bt := s.threads[t].lookup.bt;
    assert FailedInsert(s.bt2ctx, bt, c, bt) == s.bt2ctx;
  }

  lemma TableInsertHarmful(s: State, t: Tid, c: CtxId, lost: Bt, accum: bool)
    requires t in s.threads && s.threads[t].lookup.Searching? && s.threads[t].destroy.NoDestroy?
    requires var bt := s.threads[t].lookup.bt; bt !in s.threads[t].cache && c !in s.heap && lost != bt
    ensures !Safe(TableInsertFails(s, t, c, lost), accum)
  {
    var s', bt := TableInsertFails(s, t, c, lost), s.threads[t].lookup.bt;
    var s1 := LookupStartStep(s', t, bt).s;
    var s2 := SearchHitStep(s1, t).s;
    FaultNow(s2, t, Count, accum);
    Before(s1, t, SearchHit, accum);
    Before(s', t, LookupStart(bt), accum);
  }

  lemma InvSafe(s: State, accum: bool)
    requires Inv(s)
    ensures Safe(s, accum)
  {
    forall schedule ensures Run(s, schedule, accum).Next? {
      RunKeeps(s, schedule, accum);
    }
  }

  lemma StepSafe(s: State, t: Tid, a: Action, accum: bool, s': State)
    requires Inv(s) && Step(s, t, a, accum) == Next(s')
    ensures Safe(s', accum)
  {
    StepKeeps(s, t, a, accum);
    InvSafe(s', accum);
  }

  lemma FaultNow(s: State, t: Tid, a: Action, accum: bool)
    requires Step(s, t, a, accum).Fault?
    ensures !Safe(s, accum)
  {
    assert Run(s, [(t, a)], accum).Fault?;
  }

  /** A step that is not disabled and leads nowhere safe. */
  lemma Before(s: State, t: Tid, a: Action, accum: bool)
    requires var r := Step(s, t, a, accum); r.Fault? || (r.Next? && !Safe(r.s, accum))
    ensures !Safe(s, accum)
  {
    var r := Step(s, t, a, accum);
    if r.Fault? {
      FaultNow(s, t, a, accum);
    } else {
      var rest :| !Run(r.s, rest, accum).Next?;
      var schedule := [(t, a)] + rest;
      assert schedule[0] == (t, a) && schedule[1..] == rest;
      assert Run(s, schedule, accum) == Run(r.s, rest, accum);
    }
  }

  // ---------------------------------------------------------------- inserting into a thread's cache

  /** Lines 535-540: the new counter is freed, the cache is what the failed insertion leaves, and only
      the thread that made the context tries to destroy it. */
  function CacheInsertFails(s: State, t: Tid, lost: Bt): State
    requires t in s.threads && s.threads[t].lookup.Holding?
  {
    var th := s.threads[t];
    var c := th.lookup.c;
    WithThread(s, t, th.(cache := FailedInsert(th.cache, th.lookup.bt, c, lost), lookup := NoLookup,
                         destroy := if th.lookup.isNew then Wants(c) else NoDestroy))
  }

  /** It is safe exactly if the new binding is the one given up: otherwise the next object that is
      sampled with this backtrace touches the freed counter. */
  lemma CacheInsertSafe(s: State, t: Tid, lost: Bt, accum: bool)
    requires Reachable(s) && t in s.threads && s.threads[t].lookup.Holding? && s.threads[t].destroy.NoDestroy?
    ensures Safe(CacheInsertFails(s, t, lost), accum) <==> lost == s.threads[t].lookup.bt
  {
    ReachableInv(s);
    assert ThreadInv(s, t);
    if lost == s.threads[t].lookup.bt {
      CacheAsBefore(s, t, accum);
      StepSafe(s, t, HoldFail, accum, CacheInsertFails(s, t, lost));
    } else {
      var c := s.threads[t].lookup.c;
      assert c in s.heap ==> CtxInv(s, c);
      assert c in s.heap && t in s.heap[c].linked ==> LinkInv(s, c, t);
      assert s.mtx.Some? ==> ThreadInv(s, s.mtx.value);
      CacheInsertHarmful(s, t, lost, accum);
    }
  }

  lemma CacheAsBefore(s: State, t: Tid, accum: bool)
    requires t in s.threads && s.threads[t].lookup.Holding? && s.threads[t].destroy.NoDestroy?
    requires s.threads[t].lookup.bt !in s.threads[t].cache
    ensures Step(s, t, HoldFail, accum) == Next(CacheInsertFails(s, t, s.threads[t].lookup.bt))
  {
    var th := s.threads[t];
    assert FailedInsert(th.cache, th.lookup.bt, th.lookup.c, th.lookup.bt) == th.cache;
  }

  lemma CacheInsertHarmful(s: State, t: Tid, lost: Bt, accum: bool)
    requires t in s.threads && s.threads[t].lookup.Holding? && lost != s.threads[t].lookup.bt
    requires var c := s.threads[t].lookup.c; c in s.heap ==> t !in s.heap[c].linked
    requires s.threads[t].freeing.Some? ==> s.threads[t].freeing.value in s.objs
    requires s.mtx.Some? ==> s.mtx.value != t && s.mtx.value in s.threads && Critical(s.threads[s.mtx.value])
    ensures !Safe(CacheInsertFails(s, t, lost), accum)
  {
    var s', bt, c := CacheInsertFails(s, t, lost), s.threads[t].lookup.bt, s.threads[t].lookup.c;
    if !s.threads[t].lookup.isNew {
      IdleFaults(s', t, bt, c, accum);
    } else if s.mtx.None? {
      WantingFaults(s', t, bt, c, accum);
    } else {
      Released(s', t, s.mtx.value, bt, c, accum);
    }
  }

  /** The cache of t has a counter for bt that is not linked into the context c. */
  ghost predicate Dangling(s: State, t: Tid, bt: Bt, c: CtxId) {
    && t in s.threads && bt in s.threads[t].cache && s.threads[t].cache[bt] == c
    && (c in s.heap ==> t !in s.heap[c].linked)
    && s.threads[t].lookup.NoLookup?
    && (s.threads[t].freeing.Some? ==> s.threads[t].freeing.value in s.objs)
  }

  lemma SamplingFaults(s: State, t: Tid, bt: Bt, c: CtxId, accum: bool)
    requires Dangling(s, t, bt, c) && s.threads[t].destroy.NoDestroy? && s.threads[t].freeing.None?
    ensures !Safe(s, accum)
  {
    var o := Fresh(s.objs.Keys);
    FaultNow(s, t, Sample(bt, o), accum);
  }

  lemma {:induction false} Fresh(used: set<nat>) returns (n: nat)
    ensures n !in used && forall m <- used :: m < n
    decreases |used|
  {
    if m :| m in used {
      var k := Fresh(used - {m});
      n := if m < k then k else m + 1;
      assert forall x <- used :: x == m || x in used - {m};
    } else {
      n := 0;
    }
  }

  lemma IdleFaults(s: State, t: Tid, bt: Bt, c: CtxId, accum: bool)
    requires Dangling(s, t, bt, c) && s.threads[t].destroy.NoDestroy?
    ensures !Safe(s, accum)
  {
    if s.threads[t].freeing.None? {
      SamplingFaults(s, t, bt, c, accum);
    } else {
      var r := FreeMergedStep(s, t);
      if r.Next? {
        SamplingFaults(r.s, t, bt, c, accum);
      }
      Before(s, t, FreeMerged, accum);
    }
  }

  lemma WantingFaults(s: State, t: Tid, bt: Bt, c: CtxId, accum: bool)
    requires Dangling(s, t, bt, c) && s.threads[t].destroy.Wants? && s.mtx.None?
    ensures !Safe(s, accum)
  {
    var s1 := DestroyEnterStep(s, t).s;
    var r := DestroyCheckStep(s1, t);
    if r.Next? {
      if r.s.threads[t].destroy.Removing? {
        var r2 := FreeStep(r.s, t);
        if r2.Next? {
          IdleFaults(r2.s, t, bt, c, accum);
        }
        Before(r.s, t, Free, accum);
      } else {
        IdleFaults(r.s, t, bt, c, accum);
      }
    }
    Before(s1, t, DestroyCheck, accum);
    Before(s, t, DestroyEnter, accum);
  }

  /** The thread that holds bt2ctx_mtx goes on until it gives it up. */
  lemma Released(s: State, t: Tid, u: Tid, bt: Bt, c: CtxId, accum: bool)
    requires Dangling(s, t, bt, c) && s.threads[t].destroy.Wants?
    requires u in s.threads && u != t && s.mtx == Some(u) && Critical(s.threads[u])
    ensures !Safe(s, accum)
  {
    var th := s.threads[u];
    if th.lookup.Searching? {
      if th.lookup.bt in s.bt2ctx {
        var s1 := SearchHitStep(s, u).s;
        FoundReleased(s1, t, u, bt, c, accum);
        Before(s, u, SearchHit, accum);
      } else {
        var s1 := SearchFailStep(s, u).s;
        WantingFaults(s1, t, bt, c, accum);
        Before(s, u, SearchFail, accum);
      }
    } else if th.lookup.Found? {
      FoundReleased(s, t, u, bt, c, accum);
    } else if th.lookup.Counted? {
      CountedReleased(s, t, u, bt, c, accum);
    } else {
      var r := DestroyCheckStep(s, u);
      if r.Next? {
        WantingFaults(r.s, t, bt, c, accum);
      }
      Before(s, u, DestroyCheck, accum);
    }
  }

  lemma FoundReleased(s: State, t: Tid, u: Tid, bt: Bt, c: CtxId, accum: bool)
    requires Dangling(s, t, bt, c) && s.threads[t].destroy.Wants?
    requires u in s.threads && u != t && s.threads[u].lookup.Found?
    ensures !Safe(s, accum)
  {
    var r := CountStep(s, u);
    if r.Next? {
      CountedReleased(r.s, t, u, bt, c, accum);
    }
    Before(s, u, Count, accum);
  }

  lemma CountedReleased(s: State, t: Tid, u: Tid, bt: Bt, c: CtxId, accum: bool)
    requires Dangling(s, t, bt, c) && s.threads[t].destroy.Wants?
    requires u in s.threads && u != t && s.threads[u].lookup.Counted?
    ensures !Safe(s, accum)
  {
    WantingFaults(LeaveStep(s, u).s, t, bt, c, accum);
    Before(s, u, Leave, accum);
  }
}
