/** The lifetime protocol of profiling contexts (deps/jemalloc/src/prof.c), as interleaved
    steps of any number of threads.

    A context is shared: bt2ctx (under bt2ctx_mtx) finds it by backtrace, every thread that
    sampled there has a counter linked into its cnts_ql, every live sampled object points to it,
    and nlimbo counts threads that are between prof_lookup and linking, or between
    prof_ctx_merge and the end of prof_ctx_destroy.  A critical section under the lock of one
    context is one step.  Critical sections under bt2ctx_mtx are several steps, because other
    threads go on changing contexts meanwhile.  An access to freed memory is a Fault. */
module ProfProtocol {
  import opened Options

  type Tid = nat
  type Bt = nat
  type CtxId = nat
  type Obj = nat

  const PROF_TCMAX := 1024

  /** prof_ctx_t.  `linked` is cnts_ql: for every thread with a counter its curobjs. */
  datatype Ctx = Ctx(bt: Bt, nlimbo: int, linked: map<Tid, int>, merged: int)

  /** Where a thread is in prof_lookup: it holds bt2ctx_mtx from Searching to Counted, and has
      found, counted itself in nlimbo of, or still holds (Holding) the context c. */
  datatype Lookup =
    | NoLookup
    | Searching(bt: Bt)
    | Found(bt: Bt, c: CtxId)
    | Counted(bt: Bt, c: CtxId, isNew: bool)
    | Holding(bt: Bt, c: CtxId, isNew: bool)

  /** Where a thread is in prof_ctx_destroy: called, under bt2ctx_mtx, or about to free. */
  datatype Destroy = NoDestroy | Wants(c: CtxId) | Checking(c: CtxId) | Removing(c: CtxId)

  datatype Thread = Thread(cache: map<Bt, CtxId>, lookup: Lookup, destroy: Destroy, freeing: Option<Obj>)

  datatype State = State(
    heap: map<CtxId, Ctx>,
    bt2ctx: map<Bt, CtxId>,
    mtx: Option<Tid>,
    threads: map<Tid, Thread>,
    objs: map<Obj, CtxId>)

  datatype Action =
    | LookupStart(bt: Bt)
    | SearchMiss(c: CtxId)
    | SearchFail
    | SearchHit
    | Count
    | Leave
    | Evict(bt: Bt)
    | Link
    | HoldFail
    | DestroyEnter
    | DestroyCheck
    | Free
    | Sample(bt: Bt, o: Obj)
    | FreeStart(o: Obj)
    | FreeCached
    | FreeMerged

  /** What a step leads to. */
  datatype Outcome = Next(s: State) | Disabled | Fault

  /** Any finite set of threads, which have not used the profiler yet. */
  function Start(tids: set<Tid>): State {
    State(map[], map[], None, map t | t in tids :: Thread(map[], NoLookup, NoDestroy, None), map[])
  }

  function WithThread(s: State, t: Tid, th: Thread): State {
    s.(threads := s.threads[t := th])
  }

  function WithCtx(s: State, c: CtxId, x: Ctx): State {
    s.(heap := s.heap[c := x])
  }

  /** One step of thread t.  `accum` is opt_prof_accum. */
  function Step(s: State, t: Tid, a: Action, accum: bool): Outcome {
    if t !in s.threads then Disabled
    else
      match a
      case LookupStart(bt) => LookupStartStep(s, t, bt)
      case SearchMiss(c) => SearchMissStep(s, t, c)
      case SearchFail => SearchFailStep(s, t)
      case SearchHit => SearchHitStep(s, t)
      case Count => CountStep(s, t)
      case Leave => LeaveStep(s, t)
      case Evict(bt) => EvictStep(s, t, bt, accum)
      case Link => LinkStep(s, t)
      case HoldFail => HoldFailStep(s, t)
      case DestroyEnter => DestroyEnterStep(s, t)
      case DestroyCheck => DestroyCheckStep(s, t)
      case Free => FreeStep(s, t)
      case Sample(bt, o) => SampleStep(s, t, bt, o)
      case FreeStart(o) => FreeStartStep(s, t, o)
      case FreeCached => FreeCachedStep(s, t)
      case FreeMerged => FreeMergedStep(s, t)
  }

  /** Lines 446-461: the thread's cache lacks bt; prof_enter. */
  function LookupStartStep(s: State, t: Tid, bt: Bt): Outcome
    requires t in s.threads
  {
    var th := s.threads[t];
    if th.lookup.NoLookup? && th.destroy.NoDestroy? && bt !in th.cache && s.mtx.None? then
      Next(WithThread(s, t, th.(lookup := Searching(bt))).(mtx := Some(t)))
    else Disabled
  }

  /** Lines 462-491: bt is new; a context is allocated, at any free address, and inserted. */
  function SearchMissStep(s: State, t: Tid, c: CtxId): Outcome
    requires t in s.threads
  {
    var th := s.threads[t];
    if th.lookup.Searching? && th.lookup.bt !in s.bt2ctx && c !in s.heap then
      var bt := th.lookup.bt;
      Next(WithThread(WithCtx(s, c, Ctx(bt, 1, map[], 0)), t, th.(lookup := Counted(bt, c, true)))
           .(bt2ctx := s.bt2ctx[bt := c]))
    else Disabled
  }

  /** Lines 465-474: an allocation fails; prof_leave and return.  So does ckh_insert when it gives up the
      new binding (lines 484-490); for its other failures see ProfOutOfMemory. */
  function SearchFailStep(s: State, t: Tid): Outcome
    requires t in s.threads
  {
    var th := s.threads[t];
    if th.lookup.Searching? && th.lookup.bt !in s.bt2ctx then
      Next(WithThread(s, t, th.(lookup := NoLookup)).(mtx := None))
    else Disabled
  }

  /** Line 462: the search finds a context. */
  function SearchHitStep(s: State, t: Tid): Outcome
    requires t in s.threads
  {
    var th := s.threads[t];
    if th.lookup.Searching? && th.lookup.bt in s.bt2ctx then
      Next(WithThread(s, t, th.(lookup := Found(th.lookup.bt, s.bt2ctx[th.lookup.bt]))))
    else Disabled
  }

  /** Lines 497-500. */
  function CountStep(s: State, t: Tid): Outcome
    requires t in s.threads
  {
    var th := s.threads[t];
    if !th.lookup.Found? then Disabled
    else if th.lookup.c !in s.heap then Fault
    else
      var c := th.lookup.c;
      var x := s.heap[c];
      Next(WithThread(WithCtx(s, c, x.(nlimbo := x.nlimbo + 1)), t, th.(lookup := Counted(th.lookup.bt, c, false))))
  }

  /** Line 502. */
  function LeaveStep(s: State, t: Tid): Outcome
    requires t in s.threads
  {
    var th := s.threads[t];
    if th.lookup.Counted? then
      Next(WithThread(s, t, th.(lookup := Holding(th.lookup.bt, th.lookup.c, th.lookup.isNew))).(mtx := None))
    else Disabled
  }

  /** prof_ctx_merge (lines 723-751) of the counter for bt, which has just been taken out of the
      thread's cache: because the cache is full (lines 505-518), or because the thread ends
      (lines 1169-1173). */
  function EvictStep(s: State, t: Tid, bt: Bt, accum: bool): Outcome
    requires t in s.threads
  {
    var th := s.threads[t];
    if th.destroy.NoDestroy? && bt in th.cache &&
       ((th.lookup.Holding? && |th.cache| == PROF_TCMAX) || (th.lookup.NoLookup? && th.freeing.None?)) then
      var c := th.cache[bt];
      if c !in s.heap || t !in s.heap[c].linked then Fault
      else
        var x := s.heap[c];
        var y := x.(merged := x.merged + x.linked[t], linked := x.linked - {t});
        var th' := th.(cache := th.cache - {bt});
        if !accum && y.linked == map[] && y.merged == 0 && y.nlimbo == 0 then
          Next(WithThread(WithCtx(s, c, y.(nlimbo := y.nlimbo + 1)), t, th'.(destroy := Wants(c))))
        else
          Next(WithThread(WithCtx(s, c, y), t, th'))
    else Disabled
  }

  /** Lines 531-545: the counter goes into the cache and into cnts_ql. */
  function LinkStep(s: State, t: Tid): Outcome
    requires t in s.threads
  {
    var th := s.threads[t];
    if th.lookup.Holding? && th.destroy.NoDestroy? && |th.cache| < PROF_TCMAX then
      var c := th.lookup.c;
      if c !in s.heap then Fault
      else
        var x := s.heap[c];
        Next(WithThread(WithCtx(s, c, x.(linked := x.linked[t := 0], nlimbo := x.nlimbo - 1)), t,
                        th.(cache := th.cache[th.lookup.bt := c], lookup := NoLookup)))
    else Disabled
  }

  /** Lines 523-527: out of memory, also in ckh_insert when it gives up the new binding (lines 535-540;
      for its other failures see ProfOutOfMemory).  Only the thread that made the context tries to
      destroy it; for another thread nlimbo stays incremented. */
  function HoldFailStep(s: State, t: Tid): Outcome
    requires t in s.threads
  {
    var th := s.threads[t];
    if th.lookup.Holding? && th.destroy.NoDestroy? then
      var destroy := if th.lookup.isNew then Wants(th.lookup.c) else NoDestroy;
      Next(WithThread(s, t, th.(lookup := NoLookup, destroy := destroy)))
    else Disabled
  }

  /** Line 690. */
  function DestroyEnterStep(s: State, t: Tid): Outcome
    requires t in s.threads
  {
    var th := s.threads[t];
    if th.destroy.Wants? && s.mtx.None? then
      Next(WithThread(s, t, th.(destroy := Checking(th.destroy.c))).(mtx := Some(t)))
    else Disabled
  }

  /** Lines 691-702 and 705-713: under both locks. */
  function DestroyCheckStep(s: State, t: Tid): Outcome
    requires t in s.threads
  {
    var th := s.threads[t];
    if !th.destroy.Checking? then Disabled
    else if th.destroy.c !in s.heap then Fault
    else
      var c := th.destroy.c;
      var x := s.heap[c];
      if x.linked == map[] && x.merged == 0 && x.nlimbo == 1 then
        if x.bt in s.bt2ctx && s.bt2ctx[x.bt] == c then
          Next(WithThread(s, t, th.(destroy := Removing(c))).(bt2ctx := s.bt2ctx - {x.bt}, mtx := None))
        else Fault
      else
        Next(WithThread(WithCtx(s, c, x.(nlimbo := x.nlimbo - 1)), t, th.(destroy := NoDestroy)).(mtx := None))
  }

  /** Lines 703-704. */
  function FreeStep(s: State, t: Tid): Outcome
    requires t in s.threads
  {
    var th := s.threads[t];
    if !th.destroy.Removing? then Disabled
    else if th.destroy.c !in s.heap then Fault
    else Next(WithThread(s, t, th.(destroy := NoDestroy)).(heap := s.heap - {th.destroy.c}))
  }

  /** prof_malloc: a new object is sampled with the thread's counter for bt. */
  function SampleStep(s: State, t: Tid, bt: Bt, o: Obj): Outcome
    requires t in s.threads
  {
    var th := s.threads[t];
    if th.lookup.NoLookup? && th.destroy.NoDestroy? && th.freeing.None? && bt in th.cache && o !in s.objs then
      var c := th.cache[bt];
      if c !in s.heap || t !in s.heap[c].linked then Fault
      else
        var x := s.heap[c];
        Next(WithCtx(s, c, x.(linked := x.linked[t := x.linked[t] + 1])).(objs := s.objs[o := c]))
    else Disabled
  }

  /** prof_free up to the call of prof_lookup, which reads the backtrace of the object's context.
      The program does not free an object twice. */
  function FreeStartStep(s: State, t: Tid, o: Obj): Outcome
    requires t in s.threads
  {
    var th := s.threads[t];
    if th.lookup.NoLookup? && th.destroy.NoDestroy? && th.freeing.None? && o in s.objs &&
       (forall u <- s.threads :: s.threads[u].freeing != Some(o)) then
      if s.objs[o] !in s.heap then Fault
      else Next(WithThread(s, t, th.(freeing := Some(o))))
    else Disabled
  }

  /** prof_free when prof_lookup has returned the thread's counter for the backtrace. */
  function FreeCachedStep(s: State, t: Tid): Outcome
    requires t in s.threads
  {
    var th := s.threads[t];
    if th.freeing.Some? && th.lookup.NoLookup? && th.destroy.NoDestroy? && th.freeing.value in s.objs then
      var c := s.objs[th.freeing.value];
      if c !in s.heap then Fault
      else if s.heap[c].bt !in th.cache then Disabled
      else
        var d := th.cache[s.heap[c].bt];
        if d !in s.heap || t !in s.heap[d].linked then Fault
        else
          var x := s.heap[d];
          Next(WithThread(WithCtx(s, d, x.(linked := x.linked[t := x.linked[t] - 1])), t, th.(freeing := None))
               .(objs := s.objs - {th.freeing.value}))
    else Disabled
  }

  /** prof_free when prof_lookup has failed. */
  function FreeMergedStep(s: State, t: Tid): Outcome
    requires t in s.threads
  {
    var th := s.threads[t];
    if th.freeing.Some? && th.lookup.NoLookup? && th.destroy.NoDestroy? && th.freeing.value in s.objs then
      var c := s.objs[th.freeing.value];
      if c !in s.heap then Fault
      else
        var x := s.heap[c];
        Next(WithThread(WithCtx(s, c, x.(merged := x.merged - 1)), t, th.(freeing := None))
             .(objs := s.objs - {th.freeing.value}))
    else Disabled
  }
}
