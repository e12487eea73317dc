/** The tables of the profiler (deps/jemalloc/src/prof.c) as cuckoo tables: what a failed ckh_insert
    there leads to. */
module ProfTables {
  import opened ProfProtocol
  import opened ProfInvariant
  import opened ProfTheorems
  import opened ProfOutOfMemory
  import Ckh

  /** Lines 484-490 on the table itself: bt2ctx is the contents of `table`, and `tables` says how many
      tables can be allocated before memory runs out.  A caller can see beforehand whether the insertion
      is safe: if a bucket of bt has room it succeeds; and if no table can be allocated, every failure
      leaves a state in which some schedule touches freed memory. */
  method InsertContext(table: Ckh.Table<Bt, CtxId>, tables: nat, fuel: nat, bt: Bt, c: CtxId,
      ghost s: State, ghost t: Tid, ghost accum: bool) returns (result: Ckh.InsertResult<Bt>)
    requires Reachable(s) && t in s.threads && s.threads[t].lookup == Searching(bt)
    requires bt !in s.bt2ctx && c !in s.heap
    requires table.Valid() && table.contents == s.bt2ctx
    modifies table, table.tab
    ensures result == Ckh.Inserted ==> table.Valid() && SearchMissStep(s, t, c) == Next(Inserted(s, t, c))
    ensures result == Ckh.Inserted ==> table.contents == Inserted(s, t, c).bt2ctx
    ensures result.Failed? ==> table.Valid() && table.contents == TableInsertFails(s, t, c, result.lost).bt2ctx
    ensures result.Failed? && (tables == 0 || table.lgCurBuckets == old(table.lgCurBuckets)) ==>
              !Safe(TableInsertFails(s, t, c, result.lost), accum)
    ensures old(table.HasRoom(table.tab[..], bt)) ==> result == Ckh.Inserted
  {
    result := table.Insert(bt, c, tables, fuel);
    if result.Failed? {
      TableInsertSafe(s, t, c, result.lost, accum);
    }
  }

  /** The state after the insertion. */
  function Inserted(s: State, t: Tid, c: CtxId): State
    requires t in s.threads && s.threads[t].lookup.Searching?
  {
    var bt := s.threads[t].lookup.bt;
    WithThread(WithCtx(s, c, Ctx(bt, 1, map[], 0)), t, s.threads[t].(lookup := Counted(bt, c, true)))
    .(bt2ctx := s.bt2ctx[bt := c])
  }

  /** Lines 535-540 likewise, for the cache of a thread. */
  method InsertCounter(table: Ckh.Table<Bt, CtxId>, tables: nat, fuel: nat, bt: Bt, c: CtxId,
      ghost s: State, ghost t: Tid, ghost accum: bool) returns (result: Ckh.InsertResult<Bt>)
    requires Reachable(s) && t in s.threads && s.threads[t].destroy.NoDestroy?
    requires s.threads[t].lookup.Holding? && s.threads[t].lookup.bt == bt && s.threads[t].lookup.c == c
    requires table.Valid() && table.contents == s.threads[t].cache
    modifies table, table.tab
    ensures result == Ckh.Inserted ==> table.Valid() && table.contents == s.threads[t].cache[bt := c]
    ensures result.Failed? ==>
              table.Valid() && table.contents == CacheInsertFails(s, t, result.lost).threads[t].cache
    ensures result.Failed? && (tables == 0 || table.lgCurBuckets == old(table.lgCurBuckets)) ==>
              !Safe(CacheInsertFails(s, t, result.lost), accum)
    ensures old(table.HasRoom(table.tab[..], bt)) ==> result == Ckh.Inserted
  {
    HoldingNotCached(s, t);
    result := table.Insert(bt, c, tables, fuel);
    if result.Failed? {
      CacheInsertSafe(s, t, result.lost, accum);
    }
  }

  lemma HoldingNotCached(s: State, t: Tid)
    requires Reachable(s) && t in s.threads && s.threads[t].lookup.Holding?
    ensures s.threads[t].lookup.bt !in s.threads[t].cache
  {
    ReachableInv(s);
    assert ThreadInv(s, t);
  }
}
