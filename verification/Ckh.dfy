/** The cuckoo hash table of jemalloc (deps/jemalloc/src/ckh.c): eviction chains, growing and
    shrinking by rebuilding, and backing out of a failed rebuild.

    Keys are compared with ==.  The eviction loop of the source has no bound; here it takes at
    most `fuel` steps, and OutOfFuel stands for a call that has not returned. */
module Ckh {
  import opened CkhTable

  datatype Outcome = Placed | Cycle | OutOfFuel

  /** The map `all` is m and one more binding. */
  ghost predicate Plus<K, D>(m: map<K, D>, key: K, data: D, all: map<K, D>) {
    key !in m && m[key := data] == all
  }

  /** How an insertion ends: with the key inserted, or out of memory and with one item lost. */
  datatype InsertResult<+K> = Inserted | Failed(lost: K) | Diverged

  /** How a removal ends. */
  datatype RemoveResult<+D> = Removed(data: D) | NotFound | Stuck

  const CKH_A := 1103515241
  const CKH_C := 12347

  class Table<K(==), D> {
    const hash: Hash<K>

    var tab: array<Cell<K, D>>
    var count: nat
    var lgMinBuckets: nat
    var lgCurBuckets: nat
    var prngState: nat

    /** The bindings the table stands for. */
    ghost var contents: map<K, D>

    /** The cells hold exactly the map m, each key at home, and count says how many. */
    ghost predicate Represents(m: map<K, D>)
      reads this, tab
    {
      WellPlaced(hash, lgCurBuckets, tab[..]) && Models(tab[..], m) && count == |m|
    }

    ghost predicate Valid()
      reads this, tab
    {
      Represents(contents) && lgMinBuckets <= lgCurBuckets
    }

    /** prng32(offset, LG_CKH_BUCKET_CELLS, ...): a cell of a bucket. */
    method Prng() returns (r: nat)
      modifies this`prngState
      ensures r < CELLS
    {
      prngState := (prngState * CKH_A + CKH_C) % 0x1_0000_0000;
      r := prngState / 0x4000_0000;
    }

    /** ckh_bucket_search: -1 stands for SIZE_T_MAX. */
    method BucketSearch(bucket: nat, key: K) returns (cell: int)
      requires CELLS * bucket + CELLS <= tab.Length
      ensures cell >= 0 ==> InBucket(cell, bucket) && HoldsAt(tab[..], cell, key)
      ensures cell < 0 ==> forall i: nat :: InBucket(i, bucket) ==> !HoldsAt(tab[..], i, key)
    {
      var i := 0;
      while i < CELLS
        invariant 0 <= i <= CELLS
        invariant forall j: nat :: InBucket(j, bucket) && j < CELLS * bucket + i ==> !HoldsAt(tab[..], j, key)
      {
        var at := CELLS * bucket + i;
        if tab[at].Full? && tab[at].key == key {
          return at;
        }
        i := i + 1;
      }
      return -1;
    }

    /** ckh_isearch finds exactly the stored keys. */
    method ISearch(key: K, ghost m: map<K, D>) returns (cell: int)
      requires Represents(m)
      ensures cell >= 0 ==> HoldsAt(tab[..], cell, key) && key in m && tab[cell].data == m[key]
      ensures cell < 0 ==> key !in m
    {
      BucketsFit(hash, lgCurBuckets, tab[..], key);
      cell := BucketSearch(Primary(hash, lgCurBuckets, key), key);
      if cell < 0 {
        cell := BucketSearch(Secondary(hash, lgCurBuckets, key), key);
      }
      if cell < 0 && key in m {
        ghost var i := StoredAtHome(hash, lgCurBuckets, tab[..], m, key);
      }
    }

    /** ckh_try_bucket_insert: the result is true if the bucket is full. */
    method TryBucketInsert(bucket: nat, key: K, data: D) returns (full: bool, ghost cell: nat)
      requires CELLS * bucket + CELLS <= tab.Length
      modifies this`prngState, this`count, tab
      ensures full ==> BucketFull(tab[..], bucket) && tab[..] == old(tab[..]) && count == old(count)
      ensures !full ==> InBucket(cell, bucket) && cell < tab.Length && old(tab[..])[cell].Empty?
      ensures !full ==> tab[..] == old(tab[..])[cell := Full(key, data)] && count == old(count) + 1
    {
      var offset := Prng();
      var i := 0;
      while i < CELLS
        invariant 0 <= i <= CELLS
        invariant tab[..] == old(tab[..]) && count == old(count)
        invariant forall c :: 0 <= c < CELLS && Turn(c, offset) < i ==> tab[CELLS * bucket + c].Full?
      {
        var c := (i + offset) % CELLS;
        var at := CELLS * bucket + c;
        if tab[at].Empty? {
          tab[at] := Full(key, data);
          count := count + 1;
          return false, at;
        }
        assert forall d :: 0 <= d < CELLS && Turn(d, offset) == i ==> d == c;
        i := i + 1;
      }
      forall j | CELLS * bucket <= j < CELLS * bucket + CELLS ensures tab[j].Full? {
        var c := j - CELLS * bucket;
        assert Turn(c, offset) < CELLS;
      }
      return true, 0;
    }

    /** The item in hand may go to this full bucket, and with it the cells hold the map `all`. */
    ghost predicate InHand(bucket: nat, key: K, data: D, m: map<K, D>, all: map<K, D>)
      reads this, tab
    {
      && Represents(m) && Plus(m, key, data, all)
      && Home(hash, lgCurBuckets, key, bucket) && BucketFull(tab[..], bucket)
    }

    /** One eviction (lines 144-178): the item in hand takes the place of a random item of the
        bucket, which is now in hand; its other bucket is next. */
    method Evict(bucket: nat, key: K, data: D, ghost m: map<K, D>, ghost all: map<K, D>)
      returns (key': K, data': D, bucket': nat, ghost m': map<K, D>, ghost at: nat)
      requires InHand(bucket, key, data, m, all)
      modifies this`prngState, tab
      ensures Represents(m') && Plus(m', key', data', all)
      ensures key' in m && Home(hash, lgCurBuckets, key', bucket')
      ensures InBucket(at, bucket) && at < tab.Length && HoldsAt(old(tab[..]), at, key')
      ensures tab[..] == old(tab[..])[at := Full(key, data)]
    {
      var i := Prng();
      at := CELLS * bucket + i;
      ghost var before := tab[..];
      key', data' := tab[CELLS * bucket + i].key, tab[CELLS * bucket + i].data;
      tab[CELLS * bucket + i] := Full(key, data);
      m' := m[key := data] - {key'};
      assert tab[..] == before[at := Full(key, data)];
      ModelsEvict(before, m, at, key, data);
      PlacedUpdate(hash, lgCurBuckets, before, at, bucket, key, data);
      EvictKeepsSize(m, key, data, key');
      bucket' := Secondary(hash, lgCurBuckets, key');
      if bucket' == bucket {
        bucket' := Primary(hash, lgCurBuckets, key');
      }
    }

    /** A key put into one of its buckets. */
    method PutAtHome(bucket: nat, key: K, data: D, ghost m: map<K, D>) returns (full: bool)
      requires Represents(m) && key !in m && Home(hash, lgCurBuckets, key, bucket)
      modifies this`prngState, this`count, tab
      ensures full ==> Represents(m) && BucketFull(tab[..], bucket) && tab[..] == old(tab[..])
      ensures !full ==> Represents(m[key := data]) && !BucketFull(old(tab[..]), bucket)
    {
      ghost var before := tab[..];
      ghost var cell;
      BucketsFit(hash, lgCurBuckets, before, key);
      full, cell := TryBucketInsert(bucket, key, data);
      if !full {
        ModelsFill(before, m, cell, key, data);
        PlacedUpdate(hash, lgCurBuckets, before, cell, bucket, key, data);
      }
    }

    /** One of the two buckets of the key has an empty cell. */
    ghost predicate HasRoom(cells: seq<Cell<K, D>>, key: K)
      reads this
    {
      || !BucketFull(cells, Primary(hash, lgCurBuckets, key))
      || !BucketFull(cells, Secondary(hash, lgCurBuckets, key))
    }

    /** A table of one bucket without an empty cell. */
    ghost predicate Crowded(cells: seq<Cell<K, D>>)
      reads this
    {
      lgCurBuckets == 0 && BucketFull(cells, 0)
    }

    /** The key is in some cell of the bucket. */
    ghost predicate Seated(seat: nat, bucket: nat, key: K)
      reads this, tab
    {
      InBucket(seat, bucket) && HoldsAt(tab[..], seat, key)
    }

    /** ckh_evict_reloc_insert: on Cycle some item is in hand again, and the cells hold all the
        others.  No item is lost or duplicated in any number of steps.  The first eviction seats the
        new key in its bucket, and the others are from other buckets: the item in hand at the end
        is an old one. */
    method EvictRelocInsert(argbucket: nat, argkey: K, argdata: D, fuel: nat, ghost m0: map<K, D>)
      returns (outcome: Outcome, key: K, data: D, ghost m: map<K, D>)
      requires InHand(argbucket, argkey, argdata, m0, m0[argkey := argdata])
      modifies this`prngState, this`count, tab
      ensures Represents(m)
      ensures outcome == Placed ==> m == m0[argkey := argdata]
      ensures outcome != Placed ==> Plus(m, key, data, m0[argkey := argdata])
      ensures outcome == Cycle ==> key in m0
      ensures lgCurBuckets == 0 && fuel > 0 ==> outcome == Cycle
    {
      ghost var all := m0[argkey := argdata];
      var bucket := argbucket;
      key, data, m := argkey, argdata, m0;
      var steps := fuel;
      ghost var seat: nat := 0;
      while steps > 0
        invariant InHand(bucket, key, data, m, all)
        invariant if steps == fuel then key == argkey && bucket == argbucket
                  else Seated(seat, argbucket, argkey) && bucket != argbucket
        invariant steps < fuel ==> lgCurBuckets > 0
      {
        key, data, bucket, m, seat := EvictSeated(bucket, key, data, m, all, argbucket, argkey, seat, steps == fuel);
        if bucket == argbucket {
          PlusLess(m, key, data, all);
          return Cycle, key, data, m;
        }
        var full := PutAtHome(bucket, key, data, m);
        if !full {
          return Placed, key, data, all;
        }
        steps := steps - 1;
      }
      return OutOfFuel, key, data, m;
    }

    /** An eviction leaves the new key in its seat. */
    method EvictSeated(bucket: nat, key: K, data: D, ghost m: map<K, D>, ghost all: map<K, D>,
        ghost argbucket: nat, ghost argkey: K, ghost seat: nat, ghost first: bool)
      returns (key': K, data': D, bucket': nat, ghost m': map<K, D>, ghost seat': nat)
      requires InHand(bucket, key, data, m, all)
      requires if first then key == argkey && bucket == argbucket
               else Seated(seat, argbucket, argkey) && bucket != argbucket
      modifies this`prngState, tab
      ensures Represents(m') && Plus(m', key', data', all)
      ensures Home(hash, lgCurBuckets, key', bucket')
      ensures Seated(seat', argbucket, argkey) && key' != argkey
    {
      ghost var before, at := tab[..], 0;
      key', data', bucket', m', at := Evict(bucket, key, data, m, all);
      if first {
        seat' := at;
      } else {
        seat' := seat;
        OtherSeat(before, m, bucket, at, key', argbucket, seat, argkey);
      }
    }

    /** ckh_try_insert. */
    method TryInsert(argkey: K, argdata: D, fuel: nat, ghost m0: map<K, D>)
      returns (outcome: Outcome, key: K, data: D, ghost m: map<K, D>)
      requires Represents(m0) && argkey !in m0
      modifies this`prngState, this`count, tab
      ensures Represents(m)
      ensures outcome == Placed ==> m == m0[argkey := argdata]
      ensures outcome != Placed ==> Plus(m, key, data, m0[argkey := argdata])
      ensures outcome == Cycle ==> key in m0
      ensures old(HasRoom(tab[..], argkey)) ==> outcome == Placed
      ensures Crowded(old(tab[..])) && fuel > 0 ==> outcome == Cycle
    {
      key, data, m := argkey, argdata, m0[argkey := argdata];
      var full := PutAtHome(Primary(hash, lgCurBuckets, key), key, data, m0);
      if !full {
        return Placed, key, data, m;
      }
      full := PutAtHome(Secondary(hash, lgCurBuckets, key), key, data, m0);
      if !full {
        return Placed, key, data, m;
      }
      outcome, key, data, m := EvictRelocInsert(Secondary(hash, lgCurBuckets, key), key, data, fuel, m0);
    }

    /** ckh_rebuild: put the items of aTab, which hold the map `all`, into the empty table. */
    method Rebuild(aTab: array<Cell<K, D>>, fuel: nat, ghost all: map<K, D>) returns (outcome: Outcome)
      requires aTab != tab && Models(aTab[..], all) && count == |all|
      requires WellPlaced(hash, lgCurBuckets, tab[..]) && forall i :: 0 <= i < tab.Length ==> tab[i].Empty?
      modifies this`prngState, this`count, tab
      ensures count == |all|
      ensures outcome == Placed ==> Represents(all)
    {
      ghost var m := map[];
      ghost var src := aTab[..];
      NothingModels(tab[..]);
      NothingModels(src[..0]);
      var items := count;
      count := 0;
      var i, nins := 0, 0;
      while nins < items
        invariant aTab[..] == src && i <= |src| && items == |all|
        invariant Represents(m) && Models(src[..i], m) && nins == |m| <= items
        decreases |src| - i
      {
        MoreToCome(src, i, m, all);
        ModelsSnoc(src, i, m);
        assert src[i] == aTab[i];
        if aTab[i].Full? {
          var key, data;
          outcome, key, data, m := TryInsert(aTab[i].key, aTab[i].data, fuel, m);
          if outcome != Placed {
            count := items;
            return;
          }
          nins := nins + 1;
        }
        i := i + 1;
      }
      AllCame(src, i, m, all);
      outcome := Placed;
    }

    /** Lines 277-291 and 323-340: rebuild into a new table with 2^lg buckets; if that fails,
        put the old table back. */
    method Resize(lg: nat, fuel: nat, ghost m: map<K, D>) returns (outcome: Outcome)
      requires Represents(m)
      modifies this`tab, this`lgCurBuckets, this`prngState, this`count
      ensures Represents(m) || outcome != Placed
      ensures outcome == Placed ==> fresh(tab) && lgCurBuckets == lg
      ensures outcome != Placed ==> tab == old(tab) && tab[..] == old(tab[..]) && count == old(count)
      ensures outcome != Placed ==> lgCurBuckets == old(lgCurBuckets)
    {
      var ttab, lgPrevBuckets := tab, lgCurBuckets;
      tab := new Cell<K, D>[CELLS * Pow2(lg)](_ => Empty);
      lgCurBuckets := lg;
      NewIsPlaced(hash, lg, tab[..]);
      outcome := Rebuild(ttab, fuel, m);
      if outcome != Placed {
        tab := ttab;
        lgCurBuckets := lgPrevBuckets;
      }
    }

    /** ckh_grow: after `tables` allocations of a table the memory is used up, for which Cycle
        stands.  The rest of them is returned. */
    method Grow(tables: nat, fuel: nat, ghost m: map<K, D>) returns (outcome: Outcome, rest: nat)
      requires Represents(m)
      modifies this`tab, this`lgCurBuckets, this`prngState, this`count
      ensures Represents(m) && rest <= tables
      ensures outcome == Placed ==> fresh(tab) && old(lgCurBuckets) < lgCurBuckets && rest < tables
      ensures tables == 0 ==> outcome == Cycle
      ensures outcome != Placed ==> tab == old(tab) && tab[..] == old(tab[..]) && lgCurBuckets == old(lgCurBuckets)
    {
      var lg := lgCurBuckets;
      rest := tables;
      while true
        invariant tab == old(tab) && tab[..] == old(tab[..]) && count == old(count)
        invariant old(lgCurBuckets) == lgCurBuckets <= lg && rest <= tables
        decreases rest
      {
        lg := lg + 1;
        if rest == 0 {
          return Cycle, 0;
        }
        rest := rest - 1;
        outcome := Resize(lg, fuel, m);
        if outcome != Cycle {
          return;
        }
      }
    }

    /** ckh_insert, with `tables` saying how many tables can be allocated before memory runs out.
        When it does after evictions, the item in hand is given up.  It is an old one unless the
        table has grown in this call: the failed call has then replaced an old binding by the new
        one, so a caller may not take the failure to mean that nothing was inserted.  An insertion
        that finds room in a bucket of the key does not fail; one into a crowded table of one bucket
        always fails in this way when there is no memory. */
    method Insert(newKey: K, newData: D, tables: nat, fuel: nat) returns (result: InsertResult<K>)
      requires Valid() && newKey !in contents
      modifies this, tab
      ensures result != Diverged ==> Valid() && (tab == old(tab) || fresh(tab))
      ensures result == Inserted ==> contents == old(contents)[newKey := newData]
      ensures result.Failed? ==> result.lost in old(contents)[newKey := newData]
      ensures result.Failed? ==> contents == old(contents)[newKey := newData] - {result.lost}
      ensures result.Failed? && (tables == 0 || lgCurBuckets == old(lgCurBuckets)) ==>
                result.lost in old(contents) && newKey in contents
      ensures old(HasRoom(tab[..], newKey)) ==> result == Inserted
      ensures old(lgCurBuckets) == 0 == tables && old(|contents|) == CELLS && fuel > 0 ==> result.Failed?
      ensures lgMinBuckets == old(lgMinBuckets)
    {
      ghost var all := contents[newKey := newData];
      ghost var m := contents;
      var key, data := newKey, newData;
      ghost var crowded := lgCurBuckets == 0 && |contents| == CELLS && fuel > 0;
      ghost var room := HasRoom(tab[..], newKey);
      if crowded {
        FullTable(hash, tab[..], contents);
      }
      var rest: nat := tables;
      while true
        invariant Represents(m) && Plus(m, key, data, all) && rest <= tables
        invariant lgMinBuckets == old(lgMinBuckets) <= lgCurBuckets && old(lgCurBuckets) <= lgCurBuckets
        invariant tab == old(tab) || fresh(tab)
        invariant room ==> HasRoom(tab[..], key)
        invariant if lgCurBuckets == old(lgCurBuckets) then key == newKey && m == old(contents) else rest < tables
        invariant crowded && rest == tables ==> Crowded(tab[..])
        decreases rest
      {
        var outcome;
        outcome, key, data, m := TryInsert(key, data, fuel, m);
        if outcome == Placed {
          contents := all;
          return Inserted;
        }
        if outcome == OutOfFuel {
          return Diverged;
        }
        outcome, rest := Grow(rest, fuel, m);
        if outcome == OutOfFuel {
          return Diverged;
        }
        if outcome == Cycle {
          contents := m;
          PlusLess(m, key, data, all);
          return Failed(key);
        }
      }
    }

    /** ckh_search. */
    method Search(key: K) returns (cell: int)
      requires Valid()
      ensures (cell >= 0) == (key in contents)
      ensures cell >= 0 ==> HoldsAt(tab[..], cell, key) && tab[cell].data == contents[key]
    {
      cell := ISearch(key, contents);
    }

    /** ckh_remove, with `memory` saying whether a smaller table can be allocated.  A shrink that
        fails leaves the table as it was. */
    method Remove(key: K, fuel: nat, memory: bool) returns (result: RemoveResult<D>)
      requires Valid()
      modifies this, tab
      ensures result == NotFound <==> key !in old(contents)
      ensures result == NotFound ==> Valid() && contents == old(contents) && tab == old(tab) && tab[..] == old(tab[..])
      ensures result.Removed? ==> Valid() && contents == old(contents) - {key}
      ensures result.Removed? ==> tab == old(tab) || fresh(tab)
      ensures result.Removed? ==> key in old(contents) && result.data == old(contents)[key]
    {
      var cell := ISearch(key, contents);
      if cell < 0 {
        return NotFound;
      }
      ghost var before := tab[..];
      var data := tab[cell].data;
      tab[cell] := Empty;
      assert tab[..] == before[cell := Empty];
      ModelsClear(before, contents, cell);
      ClearedIsPlaced(hash, lgCurBuckets, before, cell);
      RemoveShrinks(contents, key);
      contents := contents - {key};
      count := count - 1;
      if count < Pow2(lgCurBuckets) && lgCurBuckets > lgMinBuckets && memory {
        var outcome := Resize(lgCurBuckets - 1, fuel, contents);
        if outcome == OutOfFuel {
          return Stuck;
        }
      }
      return Removed(data);
    }

    /** ckh_iter: the first occupied cell from tabind on, or -1 if there is none. */
    method Iter(tabind: nat) returns (cell: int)
      requires Valid()
      ensures cell >= 0 ==> tabind <= cell < tab.Length && tab[cell].Full?
      ensures forall i :: tabind <= i < tab.Length && (cell < 0 || i < cell) ==> tab[i].Empty?
    {
      var i := tabind;
      while i < tab.Length
        invariant tabind <= i
        invariant forall j :: tabind <= j < tab.Length && j < i ==> tab[j].Empty?
      {
        if tab[i].Full? {
          return i;
        }
        i := i + 1;
      }
      return -1;
    }

    /** ckh_new: an empty table whose size is the smallest power of two that keeps it at most
        three quarters full with minitems items. */
    constructor (minitems: nat, hash: Hash<K>)
      requires minitems > 0
      ensures Valid() && contents == map[] && fresh(tab)
      ensures this.hash == hash && lgCurBuckets == lgMinBuckets
      ensures 4 * minitems < 3 * tab.Length
      ensures lgCurBuckets > 0 ==> 3 * tab.Length < 2 * (4 * minitems + 12)
    {
      this.hash := hash;
      var mincells := (minitems + (3 - minitems % 3)) / 3 * 4;
      var lg := 0;
      while CELLS * Pow2(lg) < mincells
        invariant lg > 0 ==> CELLS * Pow2(lg) < 2 * mincells
        decreases mincells - CELLS * Pow2(lg)
      {
        lg := lg + 1;
      }
      lgMinBuckets, lgCurBuckets, count, prngState := lg, lg, 0, 42;
      tab := new Cell<K, D>[CELLS * Pow2(lg)](_ => Empty);
      contents := map[];
      new;
      NewIsPlaced(hash, lg, tab[..]);
      NothingModels(tab[..]);
    }
  }

  /** As long as fewer items than all have been seen, cells are left, and the next item is new. */
  lemma MoreToCome<K, D>(src: seq<Cell<K, D>>, i: nat, m: map<K, D>, all: map<K, D>)
    requires i <= |src| && Models(src[..i], m) && Models(src, all) && |m| < |all|
    ensures i < |src|
    ensures src[i].Full? ==> src[i].key !in m && |m[src[i].key := src[i].data]| == |m| + 1
  {
    ModelsPrefix(src, i, m, all);
  }

  lemma AllCame<K, D>(src: seq<Cell<K, D>>, i: nat, m: map<K, D>, all: map<K, D>)
    requires i <= |src| && Models(src[..i], m) && Models(src, all) && |m| == |all|
    ensures m == all
  {
    ModelsPrefix(src, i, m, all);
    SameSize(m, all);
  }

  lemma NewIsPlaced<K, D>(hash: Hash<K>, lg: nat, tab: seq<Cell<K, D>>)
    requires |tab| == CELLS * Pow2(lg) && forall i :: 0 <= i < |tab| ==> tab[i].Empty?
    ensures WellPlaced(hash, lg, tab)
  {
  }

  lemma ClearedIsPlaced<K, D>(hash: Hash<K>, lg: nat, tab: seq<Cell<K, D>>, i: nat)
    requires WellPlaced(hash, lg, tab) && i < |tab|
    ensures WellPlaced(hash, lg, tab[i := Empty])
  {
    var tab' := tab[i := Empty];
    forall j | 0 <= j < |tab'| ensures PlacedAt(hash, lg, tab', j) {
      assert PlacedAt(hash, lg, tab, j);
    }
  }

  lemma RemoveShrinks<K, D>(m: map<K, D>, key: K)
    requires key in m
    ensures |m - {key}| == |m| - 1
  {
    assert (m - {key}).Keys == m.Keys - {key};
    assert |m - {key}| == |(m - {key}).Keys| && |m| == |m.Keys|;
  }

  lemma PlusLess<K, D>(m: map<K, D>, key: K, data: D, all: map<K, D>)
    requires Plus(m, key, data, all)
    ensures m == all - {key} && key in all
  {
  }

  /** What another bucket holds is another key, in another cell. */
  lemma OtherSeat<K, D>(tab: seq<Cell<K, D>>, m: map<K, D>, b: nat, at: nat, key: K, b': nat, at': nat, key': K)
    requires Models(tab, m) && InBucket(at, b) && InBucket(at', b') && b != b'
    requires HoldsAt(tab, at, key) && HoldsAt(tab, at', key')
    ensures at != at' && key != key'
  {
    assert key == key' ==> SameKey(tab, at, at');
  }

  lemma {:induction false} AllOccupied<K, D>(tab: seq<Cell<K, D>>, n: nat)
    requires n <= |tab|
    ensures |Occupied(tab, n)| <= n
    ensures |Occupied(tab, n)| == n ==> forall i :: 0 <= i < n ==> tab[i].Full?
  {
    if n > 0 {
      AllOccupied(tab, n - 1);
      OccupiedSnoc(tab, n - 1);
    } else {
      assert Occupied(tab, 0) == {};
    }
  }

  lemma FullTable<K, D>(hash: Hash<K>, tab: seq<Cell<K, D>>, m: map<K, D>)
    requires WellPlaced(hash, 0, tab) && Models(tab, m) && |m| == CELLS
    ensures BucketFull(tab, 0)
  {
    assert tab[..|tab|] == tab;
    OccupiedCells(tab, |tab|, m);
    AllOccupied(tab, |tab|);
  }

  lemma EvictKeepsSize<K, D>(m: map<K, D>, key: K, data: D, key': K)
    requires key !in m && key' in m
    ensures |m[key := data] - {key'}| == |m|
  {
    var m' := m[key := data] - {key'};
    assert m'.Keys == m.Keys + {key} - {key'};
    assert |m'| == |m'.Keys| && |m| == |m.Keys|;
  }

  /** When the cycle through a bucket that starts at cell `offset` reaches cell c. */
  function Turn(c: nat, offset: nat): (t: nat)
    requires c < CELLS && offset < CELLS
    ensures t < CELLS
  {
    (c + CELLS - offset) % CELLS
  }

  lemma BucketsFit<K, D>(hash: Hash<K>, lg: nat, tab: seq<Cell<K, D>>, key: K)
    requires WellPlaced(hash, lg, tab)
    ensures CELLS * Primary(hash, lg, key) + CELLS <= |tab|
    ensures CELLS * Secondary(hash, lg, key) + CELLS <= |tab|
  {
  }
}
