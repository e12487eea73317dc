/** The order in which chunks_dirty keeps its chunks (arena_chunk_dirty_comp, deps/jemalloc/src/arena.c). */
module ArenaDirty {
  import opened ArenaRuns
  import opened ArenaBooks
  import opened ArenaChunks
  import opened ArenaSurvival
  import A = Arena

  /** arena_chunk_dirty_comp */
  function Compare(a: Chunk, b: Chunk): int
    reads a, b
  {
    if a == b then 0
    else
      var aVal := (a.counters.nrunsAvail - a.counters.nrunsAdjac) * b.counters.nrunsAvail;
      var bVal := (b.counters.nrunsAvail - b.counters.nrunsAdjac) * a.counters.nrunsAvail;
      if aVal < bVal then 1
      else if aVal > bVal then -1
      else
        var ret := if a.addr > b.addr then 1 else if a.addr < b.addr then -1 else 0;
        if a.counters.nrunsAdjac == 0 then -ret else ret
  }

  /** The measure of its comment: the mean size of the free runs over that of the free runs as they
      would be without neighbours. */
  ghost function Measure(t: Tally): real
    requires t.nrunsAvail > 0
  {
    (t.nrunsAvail - t.nrunsAdjac) as real / t.nrunsAvail as real
  }

  /** What the measure needs. */
  ghost predicate Measurable(t: Tally) {
    t.nrunsAvail > t.nrunsAdjac >= 0
  }

  lemma Quotients(x: int, d: int, x': int, d': int)
    requires d > 0 && d' > 0
    ensures x * d' < x' * d <==> x as real / d as real < x' as real / d' as real
    ensures x * d' == x' * d <==> x as real / d as real == x' as real / d' as real
  {
    var q, q' := x as real / d as real, x' as real / d' as real;
    var r, r' := d as real, d' as real;
    Scaled(q, q', r * r');
    assert q * (r * r') == (q * r) * r' == x as real * r' == (x * d') as real;
    assert q' * (r * r') == (q' * r') * r == x' as real * r == (x' * d) as real;
  }

  lemma Scaled(q: real, q': real, r: real)
    requires r > 0.0
    ensures q * r < q' * r <==> q < q'
    ensures q * r == q' * r <==> q == q'
  {
    assert (q' - q) * r == q' * r - q * r;
    assert (q - q') * r == q * r - q' * r;
  }

  /** Without neighbours among its free runs a chunk has the measure 1, and any other less. */
  lemma Whole(t: Tally)
    requires Measurable(t)
    ensures t.nrunsAdjac == 0 <==> Measure(t) == 1.0
    ensures Measure(t) <= 1.0
  {
    Quotients(t.nrunsAvail - t.nrunsAdjac, t.nrunsAvail, 1, 1);
  }

  /** The products decide as the measures do, larger measures first; among equal measures the address
      does, and the higher one comes first if the free runs have no neighbours. */
  ghost predicate Before(a: Chunk, b: Chunk)
    requires Measurable(a.counters) && Measurable(b.counters)
    reads a, b
  {
    var p, q := Measure(a.counters), Measure(b.counters);
    p > q || (p == q && if p == 1.0 then a.addr > b.addr else a.addr < b.addr)
  }

  lemma CompareIs(a: Chunk, b: Chunk)
    requires Measurable(a.counters) && Measurable(b.counters) && a.addr != b.addr
    ensures Compare(a, b) == (if Before(a, b) then -1 else 1)
  {
    var s, t := a.counters, b.counters;
    Quotients(s.nrunsAvail - s.nrunsAdjac, s.nrunsAvail, t.nrunsAvail - t.nrunsAdjac, t.nrunsAvail);
    Whole(s);
  }

  /** A chunk in chunks_dirty has free runs, more of them than pairs. */
  lemma DirtyMeasurable(arena: A.Arena, chunk: Chunk)
    requires arena.Valid() && chunk in arena.chunks && chunk.inDirty
    ensures Measurable(chunk.counters)
  {
    arena.ValidWorking(chunk);
    var rs, t := chunk.runs, chunk.counters;
    FewerPairs(rs, arena.bias, arena.npages, t, chunk.active);
    CountsMeans(rs, t, chunk.active);
    if t.nrunsAvail == 0 {
      NoneDirty(rs);
    }
  }

  lemma {:induction false} NoneDirty(rs: Runs)
    requires forall p :: !FreeAt(rs, p)
    ensures Total(rs, Dirty) == 0
    decreases |rs|
  {
    if p :| p in rs {
      assert !FreeAt(rs, p);
      TotalDrop(rs, Dirty, p);
      forall q ensures !FreeAt(rs - {p}, q) {
        assert !FreeAt(rs, q);
      }
      NoneDirty(rs - {p});
    } else {
      assert Weights(rs, Dirty) == map[];
    }
  }

  /** Different chunks have different addresses. */
  lemma DifferentAddresses(arena: A.Arena, a: Chunk, b: Chunk)
    requires Sound(arena) && a in arena.chunks && b in arena.chunks && a != b
    ensures a.addr != b.addr
  {
    SoundMeans(arena);
    assert FarApart(a, b, arena.npages);
  }

  /** Two chunks of chunks_dirty: one is before the other, whichever way they are compared, and the
      assertion at ties holds. */
  lemma Antisymmetric(arena: A.Arena, a: Chunk, b: Chunk)
    requires Sound(arena) && a in arena.chunks && b in arena.chunks && a.inDirty && b.inDirty
    ensures Measurable(a.counters) && Measurable(b.counters)
    ensures Compare(a, b) == 0 <==> a == b
    ensures Compare(a, b) == -Compare(b, a) && (a != b ==> (Compare(a, b) < 0 <==> Before(a, b)))
    ensures Measure(a.counters) == Measure(b.counters) && a.counters.nrunsAdjac == 0 ==> b.counters.nrunsAdjac == 0
  {
    SoundMeans(arena);
    DirtyMeasurable(arena, a);
    DirtyMeasurable(arena, b);
    Whole(a.counters);
    Whole(b.counters);
    if a != b {
      DifferentAddresses(arena, a, b);
      CompareIs(a, b);
      CompareIs(b, a);
    }
  }

  /** So they are totally ordered. */
  lemma Transitive(arena: A.Arena, a: Chunk, b: Chunk, c: Chunk)
    requires Sound(arena) && a in arena.chunks && b in arena.chunks && c in arena.chunks
    requires a.inDirty && b.inDirty && c.inDirty && Compare(a, b) < 0 && Compare(b, c) < 0
    ensures Compare(a, c) < 0
  {
    Antisymmetric(arena, a, b);
    Antisymmetric(arena, b, c);
    Antisymmetric(arena, a, c);
  }

  /** A chunk whose free runs are not neighbours, so one that is not fragmented, comes before every
      fragmented one, although the comment asks for more fragmented chunks first. */
  lemma UnfragmentedFirst(arena: A.Arena, a: Chunk, b: Chunk)
    requires Sound(arena) && a in arena.chunks && b in arena.chunks && a.inDirty && b.inDirty
    requires a.counters.nrunsAdjac == 0 && b.counters.nrunsAdjac > 0
    ensures Compare(a, b) < 0
  {
    Antisymmetric(arena, a, b);
    Whole(a.counters);
    Whole(b.counters);
  }
}
