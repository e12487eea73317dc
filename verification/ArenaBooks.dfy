/** The books of an arena (deps/jemalloc/src/arena.c): the index of free runs and the counters, and
    what inserting a free run and removing one do to them. */
module ArenaBooks {
  import opened Sums
  import opened ArenaRuns

  /** Neighbouring free runs differ in their dirty flag. */
  ghost predicate Differ(rs: Runs, p: nat) {
    AdjacentAt(rs, p) ==> rs[p].dirty != rs[p + rs[p].pages].dirty
  }

  ghost predicate NoTwins(rs: Runs) {
    forall p {:trigger Differ(rs, p)} :: p in rs ==> Differ(rs, p)
  }

  /** The counters of a chunk: free runs, pairs of neighbouring free runs, dirty free pages. */
  datatype Tally = Tally(nrunsAvail: int, nrunsAdjac: int, ndirty: int)

  /** What the counters should be. */
  ghost function TallyOf(rs: Runs): Tally {
    Tally(Total(rs, Avail), |Adjacent(rs)|, Total(rs, Dirty))
  }

  /** The counters and the number of allocated pages are what they should be.  The quantifier keeps the
      sums out of sight where no lemma asks for them. */
  ghost predicate Counts(rs: Runs, t: Tally, active: int) {
    forall k {:trigger Asked(k)} :: Asked(k) ==> t == TallyOf(rs) && active == Total(rs, Active)
  }

  ghost predicate Asked(k: int) {
    true
  }

  lemma CountsMeans(rs: Runs, t: Tally, active: int)
    ensures Counts(rs, t, active) <==> t == TallyOf(rs) && active == Total(rs, Active)
  {
    assert Asked(0);
  }

  lemma TallyFree(rs: Runs, lo: nat, hi: nat, p: nat, r: Run)
    requires Tiles(rs, lo, hi) && p in rs && !rs[p].Free? && r.Free? && r.pages == rs[p].pages
    ensures TallyOf(rs[p := r]) == Tally(
      TallyOf(rs).nrunsAvail + 1,
      TallyOf(rs).nrunsAdjac + One(FreeBefore(rs, p)) + One(FreeAt(rs, p + r.pages)),
      TallyOf(rs).ndirty + if r.dirty then r.pages else 0)
  {
    TotalSet(rs, Avail, p, r);
    TotalSet(rs, Dirty, p, r);
    AdjacentFree(rs, lo, hi, p, r);
  }

  /** The counters after the allocated run at p has become the free run r. */
  lemma CountsFree(rs: Runs, lo: nat, hi: nat, p: nat, r: Run, t: Tally, active: int)
    requires Tiles(rs, lo, hi) && p in rs && !rs[p].Free? && r.Free? && r.pages == rs[p].pages
    requires Counts(rs, t, active)
    ensures Counts(rs[p := r], Tally(
      t.nrunsAvail + 1,
      t.nrunsAdjac + One(FreeBefore(rs, p)) + One(FreeAt(rs, p + r.pages)),
      t.ndirty + if r.dirty then r.pages else 0), active - r.pages)
  {
    CountsMeans(rs, t, active);
    TallyFree(rs, lo, hi, p, r);
    TotalSet(rs, Active, p, r);
  }

  /** And after the free run at p has become the allocated run r. */
  lemma CountsTake(rs: Runs, lo: nat, hi: nat, p: nat, r: Run, t: Tally, active: int)
    requires Tiles(rs, lo, hi) && p in rs && rs[p].Free? && !r.Free? && r.pages == rs[p].pages
    requires Counts(rs, t, active)
    ensures Counts(rs[p := r], Tally(
      t.nrunsAvail - 1,
      t.nrunsAdjac - One(FreeBefore(rs, p)) - One(FreeAt(rs, p + r.pages)),
      t.ndirty - if rs[p].dirty then r.pages else 0), active + r.pages)
  {
    var rs' := rs[p := r];
    CountsMeans(rs, t, active);
    TilesRetag(rs, lo, hi, p, r);
    TallyFree(rs', lo, hi, p, rs[p]);
    assert rs'[p := rs[p]] == rs;
    assert Within(rs, lo, hi, p);
    SameBefore(rs, p, r);
    TotalSet(rs, Active, p, r);
  }

  lemma SameBefore(rs: Runs, p: nat, r: Run)
    requires p in rs && r.pages == rs[p].pages >= 1
    ensures FreeBefore(rs[p := r], p) == FreeBefore(rs, p)
  {
    if FreeBefore(rs, p) {
      var q :| Ends(rs, q, p) && FreeAt(rs, q);
      assert Ends(rs[p := r], q, p) && FreeAt(rs[p := r], q);
    }
    if FreeBefore(rs[p := r], p) {
      var q :| Ends(rs[p := r], q, p) && FreeAt(rs[p := r], q);
      assert Ends(rs, q, p) && FreeAt(rs, q);
    }
  }

  /** Taking a free run leaves no new twins. */
  lemma TwinsTake(rs: Runs, p: nat, r: Run)
    requires NoTwins(rs) && p in rs && !r.Free?
    ensures NoTwins(rs[p := r])
  {
    forall s {:trigger Differ(rs[p := r], s)} | s in rs[p := r] ensures Differ(rs[p := r], s) {
      assert Differ(rs, s);
    }
  }

  /** The free run r fits between its neighbours. */
  ghost predicate Mixes(rs: Runs, p: nat, r: Run) {
    && (FreeAt(rs, p + r.pages) ==> r.dirty != rs[p + r.pages].dirty)
    && (forall q :: Ends(rs, q, p) && FreeAt(rs, q) ==> rs[q].dirty != r.dirty)
  }

  lemma TwinsFree(rs: Runs, p: nat, r: Run)
    requires NoTwins(rs) && p in rs && r.pages == rs[p].pages >= 1 && Mixes(rs, p, r)
    ensures NoTwins(rs[p := r])
  {
    forall s {:trigger Differ(rs[p := r], s)} | s in rs[p := r] ensures Differ(rs[p := r], s) {
      assert Differ(rs, s);
      if s != p && s + rs[s].pages == p {
        assert Ends(rs, s, p);
      }
    }
  }

  // ---------------------------------------------------------------- changes among allocated runs

  /** The free runs are the same. */
  ghost predicate SameFree(rs: Runs, rs': Runs) {
    forall p {:trigger FreeAt(rs, p)} {:trigger FreeAt(rs', p)} ::
      (FreeAt(rs', p) <==> FreeAt(rs, p)) && (FreeAt(rs, p) ==> rs'[p] == rs[p])
  }

  lemma TwinsSame(rs: Runs, rs': Runs)
    requires NoTwins(rs) && SameFree(rs, rs')
    ensures NoTwins(rs')
  {
    forall s {:trigger Differ(rs', s)} | s in rs' ensures Differ(rs', s) {
      if FreeAt(rs', s) {
        assert Differ(rs, s);
      }
    }
  }

  lemma AdjacentSame(rs: Runs, rs': Runs)
    requires SameFree(rs, rs')
    ensures Adjacent(rs') == Adjacent(rs)
  {
    forall s ensures s in Adjacent(rs') <==> s in Adjacent(rs) {
      assert FreeAt(rs', s) <==> FreeAt(rs, s);
    }
  }

  ghost predicate SameCounts(rs: Runs, rs': Runs) {
    forall t, active {:trigger Counts(rs, t, active)} {:trigger Counts(rs', t, active)} ::
      Counts(rs, t, active) <==> Counts(rs', t, active)
  }

  lemma TotalsSame(rs: Runs, rs': Runs)
    requires SameFree(rs, rs') && Total(rs', Avail) == Total(rs, Avail) && Total(rs', Dirty) == Total(rs, Dirty)
    requires Total(rs', Active) == Total(rs, Active)
    ensures SameCounts(rs, rs')
  {
    AdjacentSame(rs, rs');
    forall t, active ensures Counts(rs, t, active) <==> Counts(rs', t, active) {
      CountsMeans(rs, t, active);
      CountsMeans(rs', t, active);
    }
  }

  /** A change among allocated runs changes no counter. */
  ghost predicate Quiet(rs: Runs, rs': Runs, lo: nat, hi: nat) {
    SameFree(rs, rs') && Tiles(rs', lo, hi) && SameCounts(rs, rs')
  }

  lemma RetagQuiet(rs: Runs, lo: nat, hi: nat, p: nat, r: Run)
    requires Tiles(rs, lo, hi) && p in rs && !rs[p].Free? && !r.Free? && r.pages == rs[p].pages
    ensures Quiet(rs, rs[p := r], lo, hi)
  {
    TilesRetag(rs, lo, hi, p, r);
    TotalSet(rs, Avail, p, r);
    TotalSet(rs, Dirty, p, r);
    TotalSet(rs, Active, p, r);
    TotalsSame(rs, rs[p := r]);
  }

  lemma CutQuiet(rs: Runs, lo: nat, hi: nat, p: nat, k: nat, r: Run, r2: Run)
    requires Tiles(rs, lo, hi) && p in rs && 0 < k < rs[p].pages && r.pages == k && r2.pages == rs[p].pages - k
    requires !rs[p].Free? && !r.Free? && !r2.Free?
    ensures p + k !in rs && Quiet(rs, Cut(rs, p, k, r, r2), lo, hi)
  {
    TilesCut(rs, lo, hi, p, k, r, r2);
    TotalCut(rs, Avail, p, k, r, r2);
    TotalCut(rs, Dirty, p, k, r, r2);
    TotalCut(rs, Active, p, k, r, r2);
    TotalsSame(rs, Cut(rs, p, k, r, r2));
  }

  lemma JoinQuiet(rs: Runs, lo: nat, hi: nat, p: nat, q: nat, r: Run)
    requires Tiles(rs, lo, hi) && q in rs && Ends(rs, p, q) && r.pages == rs[p].pages + rs[q].pages
    requires !rs[p].Free? && !rs[q].Free? && !r.Free?
    ensures Quiet(rs, Join(rs, p, q, r), lo, hi)
  {
    assert Within(rs, lo, hi, p);
    TilesJoin(rs, lo, hi, p, q, r);
    TotalJoin(rs, Avail, p, q, r);
    TotalJoin(rs, Dirty, p, q, r);
    TotalJoin(rs, Active, p, q, r);
    TotalsSame(rs, Join(rs, p, q, r));
  }

  // ---------------------------------------------------------------- a chunk that is one free run

  lemma WholeCounts(rs: Runs, lo: nat, t: Tally, active: int)
    requires FreeAt(rs, lo) && rs == map[lo := rs[lo]]
    requires Counts(rs, t, active)
    ensures active == 0
  {
    var none: Runs := map[];
    CountsMeans(rs, t, active);
    assert rs == none[lo := rs[lo]];
    TotalSet(none, Active, lo, rs[lo]);
    assert Weights(none, Active) == map[];
  }

  /** A chunk whose only run is not free has counters zero. */
  lemma TakenCounts(rs: Runs, lo: nat, t: Tally, active: int)
    requires lo in rs && !rs[lo].Free? && rs == map[lo := rs[lo]]
    ensures Counts(rs, t, active) <==> t == Tally(0, 0, 0) && active == rs[lo].pages
  {
    var none: Runs := map[];
    CountsMeans(rs, t, active);
    assert rs == none[lo := rs[lo]];
    TotalSet(none, Avail, lo, rs[lo]);
    TotalSet(none, Dirty, lo, rs[lo]);
    TotalSet(none, Active, lo, rs[lo]);
    assert Weights(none, Avail) == map[] && Weights(none, Dirty) == map[] && Weights(none, Active) == map[];
    assert Adjacent(rs) == {};
  }

  // ---------------------------------------------------------------- two facts about the counters

  /** The assertion of arena_avail_insert and arena_avail_remove: a chunk has more free runs than pairs
      of them, unless it has none. */
  lemma FewerPairs(rs: Runs, lo: nat, hi: nat, t: Tally, active: int)
    requires Tiles(rs, lo, hi) && Counts(rs, t, active)
    ensures t.nrunsAvail > t.nrunsAdjac || (t.nrunsAvail == 0 && t.nrunsAdjac == 0)
    ensures t.nrunsAvail > 0 <==> exists p :: FreeAt(rs, p)
  {
    CountsMeans(rs, t, active);
    AvailIsSize(rs);
    var free := FreeStarts(rs);
    forall q | q in rs ensures rs[q].pages >= 1 {
      assert Within(rs, lo, hi, q);
    }
    if p: nat :| FreeAt(rs, p) {
      var last := LastFree(rs, free, p);
      assert Adjacent(rs) <= free - {last};
      SubsetSize(Adjacent(rs), free - {last});
    } else {
      assert forall q :: q in free ==> FreeAt(rs, q);
      assert free == {} && Adjacent(rs) == {};
    }
  }

  ghost function FreeStarts(rs: Runs): set<nat> {
    set p | p in rs && rs[p].Free?
  }

  lemma {:induction false} AvailIsSize(rs: Runs)
    ensures Total(rs, Avail) == |FreeStarts(rs)|
    decreases |rs|
  {
    if rs == map[] {
      assert Weights(rs, Avail) == map[];
    } else {
      var p :| p in rs;
      AvailIsSize(rs - {p});
      TotalDrop(rs, Avail, p);
      if rs[p].Free? {
        assert FreeStarts(rs) == FreeStarts(rs - {p}) + {p};
      } else {
        assert FreeStarts(rs) == FreeStarts(rs - {p});
      }
    }
  }

  /** The free run that starts last has no free run behind it. */
  lemma {:induction false} LastFree(rs: Runs, free: set<nat>, p: nat) returns (last: nat)
    requires FreeAt(rs, p) && free == FreeStarts(rs) && forall q <- rs :: rs[q].pages >= 1
    ensures last in free && last !in Adjacent(rs)
    decreases |set q | q in free && q > p|
  {
    if p in Adjacent(rs) {
      var q := p + rs[p].pages;
      assert AdjacentAt(rs, p) && FreeAt(rs, q);
      SubsetSize((set x | x in free && x > q) + {q}, set x | x in free && x > p);
      last := LastFree(rs, free, q);
    } else {
      last := p;
    }
  }
}
