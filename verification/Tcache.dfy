/** Flushing a bin of a thread cache (deps/jemalloc/src/tcache.c): the oldest objects go back to the
    arenas that own them, one arena per pass, while those of other arenas are stashed in place. */
module Tcache {
  import opened Sequences

  type Ptr = nat
  type ArenaId = nat

  // ---------------------------------------------------------------- what a flush does

  /** The objects of arena a, and those of other arenas, in order. */
  function Of(s: seq<Ptr>, owner: Ptr -> ArenaId, a: ArenaId): (r: seq<Ptr>)
    ensures |r| <= |s|
  {
    if s == [] then []
    else
      var rest := Of(s[..|s| - 1], owner, a);
      if owner(s[|s| - 1]) == a then rest + [s[|s| - 1]] else rest
  }

  function Others(s: seq<Ptr>, owner: Ptr -> ArenaId, a: ArenaId): (r: seq<Ptr>)
    ensures |r| <= |s|
  {
    if s == [] then []
    else
      var rest := Others(s[..|s| - 1], owner, a);
      if owner(s[|s| - 1]) == a then rest else rest + [s[|s| - 1]]
  }

  lemma Snoc(s: seq<Ptr>, i: nat, owner: Ptr -> ArenaId, a: ArenaId)
    requires i < |s|
    ensures Of(s[..i + 1], owner, a) == if owner(s[i]) == a then Of(s[..i], owner, a) + [s[i]] else Of(s[..i], owner, a)
    ensures Others(s[..i + 1], owner, a)
      == if owner(s[i]) == a then Others(s[..i], owner, a) else Others(s[..i], owner, a) + [s[i]]
  {
    assert s[..i + 1][..i] == s[..i];
  }

  /** One call of arena_dalloc_bin_locked or arena_dalloc_large_locked, with the arena that is locked. */
  datatype Call = Call(arena: ArenaId, ptr: Ptr)

  function Calls(s: seq<Ptr>, a: ArenaId): (r: seq<Call>)
    ensures |r| == |s|
  {
    seq(|s|, i requires 0 <= i < |s| => Call(a, s[i]))
  }

  lemma {:induction false} Members(s: seq<Ptr>, owner: Ptr -> ArenaId, a: ArenaId)
    ensures forall p :: p in Others(s, owner, a) <==> p in s && owner(p) != a
    ensures forall p :: p in Of(s, owner, a) <==> p in s && owner(p) == a
    decreases |s|
  {
    if s != [] {
      Members(s[..|s| - 1], owner, a);
      assert s == s[..|s| - 1] + [s[|s| - 1]];
    }
  }

  lemma {:induction false} AllOnce(s: seq<Ptr>, owner: Ptr -> ArenaId, a: ArenaId)
    ensures multiset(s) == multiset(Of(s, owner, a)) + multiset(Others(s, owner, a))
    ensures |s| == |Of(s, owner, a)| + |Others(s, owner, a)|
    decreases |s|
  {
    if s != [] {
      AllOnce(s[..|s| - 1], owner, a);
      assert s == s[..|s| - 1] + [s[|s| - 1]];
    }
  }

  /** A pass for the arena of the first object leaves fewer objects. */
  lemma OthersShrink(s: seq<Ptr>, owner: Ptr -> ArenaId)
    requires s != []
    ensures |Others(s, owner, owner(s[0]))| < |s|
  {
    Members(s, owner, owner(s[0]));
    AllOnce(s, owner, owner(s[0]));
    assert s[0] in Of(s, owner, owner(s[0]));
  }

  /** The calls of a whole flush: the arenas in the order in which their first object comes. */
  function Flushed(s: seq<Ptr>, owner: Ptr -> ArenaId): seq<Call>
    decreases |s|
  {
    if s == [] then []
    else
      OthersShrink(s, owner);
      Calls(Of(s, owner, owner(s[0])), owner(s[0])) + Flushed(Others(s, owner, owner(s[0])), owner)
  }

  /** The arenas that are locked. */
  function Locked(s: seq<Ptr>, owner: Ptr -> ArenaId): seq<ArenaId>
    decreases |s|
  {
    if s == [] then []
    else
      OthersShrink(s, owner);
      [owner(s[0])] + Locked(Others(s, owner, owner(s[0])), owner)
  }

  function Pointers(calls: seq<Call>): (r: seq<Ptr>)
    ensures |r| == |calls|
  {
    seq(|calls|, i requires 0 <= i < |calls| => calls[i].ptr)
  }

  lemma PointersSplit(s: seq<Ptr>, a: ArenaId, calls: seq<Call>)
    ensures Pointers(Calls(s, a) + calls) == s + Pointers(calls)
  {
  }

  /** Every object is given back exactly once, under the lock of the arena that owns it. */
  lemma {:induction false} FlushedOnce(s: seq<Ptr>, owner: Ptr -> ArenaId)
    ensures multiset(Pointers(Flushed(s, owner))) == multiset(s)
    ensures forall c <- Flushed(s, owner) :: c.arena == owner(c.ptr)
    decreases |s|
  {
    if s != [] {
      var a := owner(s[0]);
      OthersShrink(s, owner);
      Members(s, owner, a);
      AllOnce(s, owner, a);
      FlushedOnce(Others(s, owner, a), owner);
      PointersSplit(Of(s, owner, a), a, Flushed(Others(s, owner, a), owner));
      forall c | c in Calls(Of(s, owner, a), a) ensures c.arena == owner(c.ptr) {
        assert c.ptr in Of(s, owner, a);
      }
    }
  }

  /** Every arena that owns one of the objects is locked exactly once, and no other. */
  lemma {:induction false} LockedOnce(s: seq<Ptr>, owner: Ptr -> ArenaId)
    ensures forall a :: a in Locked(s, owner) <==> exists p <- s :: owner(p) == a
    ensures forall i, j :: 0 <= i < j < |Locked(s, owner)| ==> Locked(s, owner)[i] != Locked(s, owner)[j]
    decreases |s|
  {
    if s != [] {
      var first := owner(s[0]);
      var rest := Others(s, owner, first);
      OthersShrink(s, owner);
      Members(s, owner, first);
      LockedOnce(rest, owner);
      forall a ensures a in Locked(s, owner) <==> exists p <- s :: owner(p) == a {
        if a == first {
          assert s[0] in s;
        } else if p :| p in s && owner(p) == a {
          assert p in rest;
        }
      }
      assert first !in Locked(rest, owner) by {
        assert forall p <- rest :: owner(p) != first;
      }
    }
  }

  // ---------------------------------------------------------------- the bin

  /** tcache_bin_t, and the calls and the statistics of the arenas. */
  class Tbin {
    const avail: array<Ptr>
    var ncached: nat
    var lowWater: int
    /** tstats.nrequests */
    var nrequests: nat
    /** What has been given back, and the locks taken for it. */
    ghost var calls: seq<Call>
    ghost var locks: seq<ArenaId>
    /** stats.nrequests of the arenas' bins. */
    ghost var requests: map<ArenaId, nat>

    constructor (avail: array<Ptr>, ncached: nat, lowWater: int, nrequests: nat)
      ensures this.avail == avail && this.ncached == ncached && this.lowWater == lowWater
      ensures this.nrequests == nrequests && calls == [] && locks == [] && requests == map[]
    {
      this.avail, this.ncached, this.lowWater, this.nrequests := avail, ncached, lowWater, nrequests;
      calls, locks, requests := [], [], map[];
    }

    /** One pass under the lock of arena a over the first nflush objects. */
    method Pass(nflush: nat, owner: Ptr -> ArenaId, a: ArenaId) returns (ndeferred: nat)
      requires nflush <= avail.Length
      modifies avail, this`calls
      ensures ndeferred <= nflush && avail[..ndeferred] == Others(old(avail[..nflush]), owner, a)
      ensures avail[nflush..] == old(avail[nflush..])
      ensures calls == old(calls) + Calls(Of(old(avail[..nflush]), owner, a), a)
    {
      ghost var all, given, others := avail[..], [], [];
      ndeferred := 0;
      var i := 0;
      while i < nflush
        invariant 0 <= i <= nflush && ndeferred == |others| <= i
        invariant Progress(avail[..], all, i, others)
        invariant given == Of(all[..i], owner, a) && others == Others(all[..i], owner, a)
        invariant calls == old(calls) + Calls(given, a)
      {
        var ptr := avail[i];
        Snoc(all, i, owner, a);
        Stash(avail[..], all, i, others);
        if owner(ptr) == a {
          CallsMore(given, a, ptr);
          calls := calls + [Call(a, ptr)];
          given := given + [ptr];
        } else {
          Store(avail, ndeferred, ptr);
          others := others + [ptr];
          ndeferred := ndeferred + 1;
        }
        i := i + 1;
      }
      Slices(avail[..], all, nflush, others);
    }

    /** tcache_bin_flush_small and tcache_bin_flush_large, in a thread whose own arena is `home`: the
        first ncached - rem objects are given back, the last rem stay in order, and the statistics go to
        the home arena exactly once. */
    method Flush(rem: nat, home: ArenaId, owner: Ptr -> ArenaId)
      requires rem <= ncached <= avail.Length
      modifies this, avail
      ensures calls == old(calls) + Flushed(old(avail[..ncached - rem]), owner)
      ensures locks == old(locks) + Locked(old(avail[..ncached - rem]), owner)
      ensures ncached == rem && avail[..rem] == old(avail[ncached - rem..ncached])
      ensures lowWater == if rem < old(lowWater) then rem else old(lowWater)
      ensures nrequests == 0 && requests == Merged(old(requests), home, old(nrequests))
    {
      var from := ncached - rem;
      ghost var all := avail[..];
      var merged := FlushPasses(from, home, owner);
      SliceOfDrop(all, avail[..], from, ncached);
      if !merged {
        MergeStats(home);
      }
      MoveDown(from, rem);
      ncached := rem;
      if ncached < lowWater {
        lowWater := ncached;
      }
    }

    /** The passes, until no object is deferred. */
    method FlushPasses(nflush0: nat, home: ArenaId, owner: Ptr -> ArenaId) returns (merged: bool)
      requires nflush0 <= avail.Length
      modifies avail, this`calls, this`locks, this`requests, this`nrequests
      ensures calls == old(calls) + Flushed(old(avail[..nflush0]), owner)
      ensures locks == old(locks) + Locked(old(avail[..nflush0]), owner)
      ensures avail[nflush0..] == old(avail[nflush0..])
      ensures if merged then nrequests == 0 && requests == Merged(old(requests), home, old(nrequests))
              else nrequests == old(nrequests) && requests == old(requests)
    {
      ghost var all, todo := avail[..], avail[..nflush0];
      assert all[..nflush0] == todo;
      merged := false;
      var nflush := nflush0;
      while nflush > 0
        invariant nflush <= nflush0 <= avail.Length && |todo| == nflush && avail[..nflush] == todo
        invariant avail[nflush0..] == all[nflush0..]
        invariant Ahead(calls, locks, todo, old(calls), old(locks), all[..nflush0], owner)
        invariant merged ==> forall p <- todo :: owner(p) != home
        invariant if merged then nrequests == 0 && requests == Merged(old(requests), home, old(nrequests))
                  else nrequests == old(nrequests) && requests == old(requests)
      {
        var a := owner(avail[0]);
        assert avail[0] == todo[0];
        FlushedStep(calls, locks, todo, old(calls), old(locks), all[..nflush0], owner);
        ghost var now := avail[..];
        Members(todo, owner, a);
        LockArena(a);
        if a == home {
          assert !merged;
          merged := true;
          MergeStats(home);
        }
        ghost var passed := nflush;
        nflush := Pass(nflush, owner, a);
        todo := Others(todo, owner, a);
        DropFurther(now, avail[..], passed, nflush0);
      }
      FlushedEnds(calls, locks, old(calls), old(locks), all[..nflush0], owner);
    }

    method LockArena(a: ArenaId)
      modifies this`locks
      ensures locks == old(locks) + [a]
    {
      locks := locks + [a];
    }

    method MergeStats(home: ArenaId)
      modifies this`requests, this`nrequests
      ensures nrequests == 0 && requests == Merged(old(requests), home, old(nrequests))
    {
      requests := Merged(requests, home, nrequests);
      nrequests := 0;
    }

    /** memmove */
    method MoveDown(from: nat, n: nat)
      requires from + n <= avail.Length
      modifies avail
      ensures avail[..n] == old(avail[from..from + n])
    {
      forall k | 0 <= k < n {
        avail[k] := avail[from + k];
      }
    }
  }

  function Merged(requests: map<ArenaId, nat>, home: ArenaId, n: nat): map<ArenaId, nat> {
    requests[home := (if home in requests then requests[home] else 0) + n]
  }

  lemma DropFurther(s: seq<Ptr>, t: seq<Ptr>, from: nat, to: nat)
    requires from <= to <= |s| && |t| == |s| && t[from..] == s[from..]
    ensures t[to..] == s[to..]
  {
    assert t[to..] == t[from..][to - from..];
  }

  lemma SliceOfDrop(s: seq<Ptr>, t: seq<Ptr>, from: nat, to: nat)
    requires from <= to <= |s| && |t| == |s| && t[from..] == s[from..]
    ensures t[from..to] == s[from..to]
  {
    assert t[from..to] == t[from..][..to - from];
  }

  /** What is left to do for the objects todo, of all that were to be flushed. */
  ghost predicate Ahead(calls: seq<Call>, locks: seq<ArenaId>, todo: seq<Ptr>,
      calls0: seq<Call>, locks0: seq<ArenaId>, all: seq<Ptr>, owner: Ptr -> ArenaId)
  {
    && calls + Flushed(todo, owner) == calls0 + Flushed(all, owner)
    && locks + Locked(todo, owner) == locks0 + Locked(all, owner)
  }

  lemma FlushedStep(calls: seq<Call>, locks: seq<ArenaId>, todo: seq<Ptr>,
      calls0: seq<Call>, locks0: seq<ArenaId>, all: seq<Ptr>, owner: Ptr -> ArenaId)
    requires todo != [] && Ahead(calls, locks, todo, calls0, locks0, all, owner)
    ensures var a := owner(todo[0]);
      && |Others(todo, owner, a)| < |todo|
      && Ahead(calls + Calls(Of(todo, owner, a), a), locks + [a], Others(todo, owner, a), calls0, locks0, all, owner)
  {
    OthersShrink(todo, owner);
    var a := owner(todo[0]);
    var rest := Others(todo, owner, a);
    assert calls + Flushed(todo, owner) == calls + Calls(Of(todo, owner, a), a) + Flushed(rest, owner);
    assert locks + Locked(todo, owner) == locks + [a] + Locked(rest, owner);
  }

  lemma FlushedEnds(calls: seq<Call>, locks: seq<ArenaId>,
      calls0: seq<Call>, locks0: seq<ArenaId>, all: seq<Ptr>, owner: Ptr -> ArenaId)
    requires Ahead(calls, locks, [], calls0, locks0, all, owner)
    ensures calls == calls0 + Flushed(all, owner) && locks == locks0 + Locked(all, owner)
  {
    assert calls + [] == calls && locks + [] == locks;
  }

  /** The objects from i on are untouched, those to be handled later come first. */
  ghost predicate Progress(now: seq<Ptr>, all: seq<Ptr>, i: nat, others: seq<Ptr>) {
    && |now| == |all| && i <= |all| && |others| <= i
    && (forall k :: i <= k < |all| ==> now[k] == all[k])
    && (forall k :: 0 <= k < |others| ==> now[k] == others[k])
  }

  lemma Stash(now: seq<Ptr>, all: seq<Ptr>, i: nat, others: seq<Ptr>)
    requires Progress(now, all, i, others) && i < |all|
    ensures now[i] == all[i] && Progress(now, all, i + 1, others)
    ensures Progress(now[|others| := all[i]], all, i + 1, others + [all[i]])
  {
  }

  lemma Slices(now: seq<Ptr>, all: seq<Ptr>, i: nat, others: seq<Ptr>)
    requires Progress(now, all, i, others)
    ensures now[..|others|] == others && now[i..] == all[i..]
  {
  }

  lemma CallsMore(s: seq<Ptr>, a: ArenaId, p: Ptr)
    ensures Calls(s + [p], a) == Calls(s, a) + [Call(a, p)]
  {
  }
}
