/** What a cuckoo hash table (deps/jemalloc/src/ckh.c) holds, as facts about the sequence of its
    cells.  Each bucket has CELLS cells; every key may live in one of two buckets. */
module CkhTable {

  const CELLS := 4  // 1 << LG_CKH_BUCKET_CELLS

  datatype Cell<+K, +D> = Empty | Full(key: K, data: D)

  type Hash<!K> = (K, nat) -> (nat, nat)

  function Pow2(n: nat): (p: nat)
    ensures p > 0
  {
    if n == 0 then 1 else 2 * Pow2(n - 1)
  }

  /** `hash & ((1 << lg) - 1)` for the first hash value of key. */
  function Primary<K>(hash: Hash<K>, lg: nat, key: K): (b: nat)
    ensures b < Pow2(lg)
  {
    hash(key, lg).0 % Pow2(lg)
  }

  function Secondary<K>(hash: Hash<K>, lg: nat, key: K): (b: nat)
    ensures b < Pow2(lg)
  {
    hash(key, lg).1 % Pow2(lg)
  }

  predicate InBucket(i: nat, b: nat) {
    CELLS * b <= i < CELLS * b + CELLS
  }

  ghost predicate Home<K>(hash: Hash<K>, lg: nat, key: K, b: nat) {
    b == Primary(hash, lg, key) || b == Secondary(hash, lg, key)
  }

  /** Cell i holds nothing, or a key that may live there. */
  ghost predicate PlacedAt<K, D>(hash: Hash<K>, lg: nat, tab: seq<Cell<K, D>>, i: nat)
    requires i < |tab|
  {
    tab[i].Full? ==> InBucket(i, Primary(hash, lg, tab[i].key)) || InBucket(i, Secondary(hash, lg, tab[i].key))
  }

  ghost predicate WellPlaced<K, D>(hash: Hash<K>, lg: nat, tab: seq<Cell<K, D>>) {
    |tab| == CELLS * Pow2(lg) && forall i :: 0 <= i < |tab| ==> PlacedAt(hash, lg, tab, i)
  }

  /** Cell i holds key. */
  ghost predicate HoldsAt<K, D>(tab: seq<Cell<K, D>>, i: nat, key: K) {
    i < |tab| && tab[i].Full? && tab[i].key == key
  }

  ghost predicate SameKey<K, D>(tab: seq<Cell<K, D>>, i: nat, j: nat) {
    i < |tab| && j < |tab| && tab[i].Full? && tab[j].Full? && tab[i].key == tab[j].key
  }

  /** The occupied cells hold distinct keys, and these with their data are the map m. */
  ghost predicate Models<K, D>(tab: seq<Cell<K, D>>, m: map<K, D>) {
    && (forall i :: 0 <= i < |tab| && tab[i].Full? ==> tab[i].key in m && m[tab[i].key] == tab[i].data)
    && (forall k <- m :: exists i: nat :: HoldsAt(tab, i, k))
    && (forall i: nat, j: nat :: SameKey(tab, i, j) ==> i == j)
  }

  ghost predicate BucketFull<K, D>(tab: seq<Cell<K, D>>, b: nat) {
    CELLS * b + CELLS <= |tab| && forall i :: CELLS * b <= i < CELLS * b + CELLS ==> tab[i].Full?
  }

  lemma ModelsUnique<K, D>(tab: seq<Cell<K, D>>, m: map<K, D>, m': map<K, D>)
    requires Models(tab, m) && Models(tab, m')
    ensures m == m'
  {
    forall k | k in m ensures k in m' && m'[k] == m[k] {
      var i: nat :| HoldsAt(tab, i, k);
    }
    forall k | k in m' ensures k in m {
      var i: nat :| HoldsAt(tab, i, k);
    }
  }

  /** An empty cell is filled with a new key. */
  lemma ModelsFill<K, D>(tab: seq<Cell<K, D>>, m: map<K, D>, i: nat, key: K, data: D)
    requires Models(tab, m) && i < |tab| && tab[i].Empty? && key !in m
    ensures Models(tab[i := Full(key, data)], m[key := data])
  {
    var tab', m' := tab[i := Full(key, data)], m[key := data];
    forall k | k in m' ensures exists j: nat :: HoldsAt(tab', j, k) {
      if k == key {
        assert HoldsAt(tab', i, k);
      } else {
        var j: nat :| HoldsAt(tab, j, k);
        assert HoldsAt(tab', j, k);
      }
    }
    forall a: nat, b: nat | SameKey(tab', a, b) ensures a == b {
      assert a != i && b != i ==> SameKey(tab, a, b);
    }
  }

  /** An occupied cell is emptied. */
  lemma ModelsClear<K, D>(tab: seq<Cell<K, D>>, m: map<K, D>, i: nat)
    requires Models(tab, m) && i < |tab| && tab[i].Full?
    ensures Models(tab[i := Empty], m - {tab[i].key})
  {
    var tab' := tab[i := Empty];
    forall k | k in m - {tab[i].key} ensures exists j: nat :: HoldsAt(tab', j, k) {
      var j: nat :| HoldsAt(tab, j, k);
      assert HoldsAt(tab', j, k);
    }
    forall a: nat, b: nat | SameKey(tab', a, b) ensures a == b {
      assert SameKey(tab, a, b);
    }
    forall a: nat | a < |tab'| && tab'[a].Full? ensures tab'[a].key != tab[i].key {
      assert tab[a].key == tab[i].key ==> SameKey(tab, a, i);
    }
  }

  /** Eviction: the item in hand and the item of cell i change places.  Table and hand together
      hold what they held before. */
  lemma ModelsEvict<K, D>(tab: seq<Cell<K, D>>, m: map<K, D>, i: nat, key: K, data: D)
    requires Models(tab, m) && i < |tab| && tab[i].Full? && key !in m
    ensures var m' := m[key := data] - {tab[i].key};
            && Models(tab[i := Full(key, data)], m')
            && tab[i].key !in m'
            && m'[tab[i].key := tab[i].data] == m[key := data]
  {
    ModelsClear(tab, m, i);
    var cleared := tab[i := Empty];
    ModelsFill(cleared, m - {tab[i].key}, i, key, data);
    assert cleared[i := Full(key, data)] == tab[i := Full(key, data)];
    assert (m - {tab[i].key})[key := data] == m[key := data] - {tab[i].key};
  }

  /** The cells of a table, taken one by one. */
  lemma ModelsSnoc<K, D>(tab: seq<Cell<K, D>>, n: nat, m: map<K, D>)
    requires n < |tab| && Models(tab[..n], m)
    requires tab[n].Full? ==> tab[n].key !in m
    ensures tab[n].Empty? ==> Models(tab[..n + 1], m)
    ensures tab[n].Full? ==> Models(tab[..n + 1], m[tab[n].key := tab[n].data])
  {
    var s, t := tab[..n], tab[..n + 1];
    var m' := if tab[n].Full? then m[tab[n].key := tab[n].data] else m;
    forall k | k in m' ensures exists j: nat :: HoldsAt(t, j, k) {
      if k in m {
        var j: nat :| HoldsAt(s, j, k);
        assert HoldsAt(t, j, k);
      } else {
        assert HoldsAt(t, n, k);
      }
    }
    forall a: nat, b: nat | SameKey(t, a, b) ensures a == b {
      assert a < n && b < n ==> SameKey(s, a, b);
      assert a < n ==> s[a].key in m;
      assert b < n ==> s[b].key in m;
    }
  }

  lemma ModelsPrefix<K, D>(tab: seq<Cell<K, D>>, n: nat, m: map<K, D>, all: map<K, D>)
    requires n <= |tab| && Models(tab[..n], m) && Models(tab, all)
    ensures m.Keys <= all.Keys && forall k <- m :: m[k] == all[k]
    ensures n < |tab| && tab[n].Full? ==> tab[n].key !in m && tab[n].key in all
    ensures n == |tab| ==> m == all
  {
    forall k | k in m ensures k in all && m[k] == all[k] {
      var j: nat :| HoldsAt(tab[..n], j, k);
      assert HoldsAt(tab, j, k);
    }
    if n < |tab| && tab[n].Full? {
      forall j: nat | j < n ensures !HoldsAt(tab[..n], j, tab[n].key) {
        assert SameKey(tab, j, n) ==> j == n;
      }
    }
    if n == |tab| {
      assert tab[..n] == tab;
      ModelsUnique(tab, m, all);
    }
  }

  lemma NothingModels<K, D>(tab: seq<Cell<K, D>>)
    requires forall i :: 0 <= i < |tab| ==> tab[i].Empty?
    ensures Models(tab, map[])
  {
  }

  lemma SameSize<K, D>(m: map<K, D>, all: map<K, D>)
    requires m.Keys <= all.Keys && (forall k <- m :: m[k] == all[k]) && |m| == |all|
    ensures m == all
  {
    if m.Keys != all.Keys {
      assert m.Keys < all.Keys;
      SubsetSmaller(m.Keys, all.Keys);
    }
  }

  lemma SubsetSmaller<T>(a: set<T>, b: set<T>)
    requires a < b
    ensures |a| < |b|
  {
    assert |b - a| + |a| == |b|;
  }

  lemma PlacedUpdate<K, D>(hash: Hash<K>, lg: nat, tab: seq<Cell<K, D>>, i: nat, b: nat, key: K, data: D)
    requires WellPlaced(hash, lg, tab) && i < |tab| && InBucket(i, b) && Home(hash, lg, key, b)
    ensures WellPlaced(hash, lg, tab[i := Full(key, data)])
  {
    var tab' := tab[i := Full(key, data)];
    forall j | 0 <= j < |tab'| ensures PlacedAt(hash, lg, tab', j) {
      assert PlacedAt(hash, lg, tab, j);
    }
  }

  /** A stored key is found in its primary or in its secondary bucket. */
  lemma StoredAtHome<K, D>(hash: Hash<K>, lg: nat, tab: seq<Cell<K, D>>, m: map<K, D>, key: K) returns (i: nat)
    requires WellPlaced(hash, lg, tab) && Models(tab, m) && key in m
    ensures HoldsAt(tab, i, key) && tab[i].data == m[key]
    ensures InBucket(i, Primary(hash, lg, key)) || InBucket(i, Secondary(hash, lg, key))
  {
    i :| HoldsAt(tab, i, key);
    assert PlacedAt(hash, lg, tab, i);
  }

  ghost function Occupied<K, D>(tab: seq<Cell<K, D>>, n: nat): set<nat>
    requires n <= |tab|
  {
    set i: nat | i < n && tab[i].Full?
  }

  lemma OccupiedSnoc<K, D>(tab: seq<Cell<K, D>>, n: nat)
    requires n < |tab|
    ensures |Occupied(tab, n + 1)| == |Occupied(tab, n)| + (if tab[n].Full? then 1 else 0)
  {
    if tab[n].Full? {
      assert Occupied(tab, n + 1) == Occupied(tab, n) + {n};
    } else {
      assert Occupied(tab, n + 1) == Occupied(tab, n);
    }
  }

  /** The occupied cells are as many as the keys. */
  lemma {:induction false} OccupiedCells<K, D>(tab: seq<Cell<K, D>>, n: nat, m: map<K, D>)
    requires n <= |tab| && Models(tab[..n], m)
    ensures |Occupied(tab, n)| == |m|
  {
    if n == 0 {
      assert Occupied(tab, 0) == {};
      NothingModels(tab[..0]);
      ModelsUnique(tab[..0], m, map[]);
    } else {
      OccupiedSnoc(tab, n - 1);
      var m' := ModelsDropLast(tab, n, m);
      OccupiedCells(tab, n - 1, m');
    }
  }

  lemma ModelsDropLast<K, D>(tab: seq<Cell<K, D>>, n: nat, m: map<K, D>) returns (m': map<K, D>)
    requires 0 < n <= |tab| && Models(tab[..n], m)
    ensures Models(tab[..n - 1], m')
    ensures |m| == |m'| + (if tab[n - 1].Full? then 1 else 0)
  {
    var t := tab[..n];
    assert t[n - 1] == tab[n - 1];
    if tab[n - 1].Full? {
      m' := m - {tab[n - 1].key};
      ModelsClear(t, m, n - 1);
      assert m.Keys == m'.Keys + {tab[n - 1].key};
      assert |m| == |m.Keys| && |m'| == |m'.Keys|;
    } else {
      m' := m;
      assert t[n - 1 := Empty] == t;
    }
    ModelsDropEmpty(tab, n, m');
  }

  lemma ModelsDropEmpty<K, D>(tab: seq<Cell<K, D>>, n: nat, m: map<K, D>)
    requires 0 < n <= |tab| && Models(tab[..n][n - 1 := Empty], m)
    ensures Models(tab[..n - 1], m)
  {
    var s, t := tab[..n][n - 1 := Empty], tab[..n - 1];
    forall k | k in m ensures exists j: nat :: HoldsAt(t, j, k) {
      var j: nat :| HoldsAt(s, j, k);
      assert HoldsAt(t, j, k);
    }
    forall a: nat, b: nat | SameKey(t, a, b) ensures a == b {
      assert SameKey(s, a, b);
    }
    forall i | 0 <= i < |t| && t[i].Full? ensures t[i].key in m && m[t[i].key] == t[i].data {
      assert s[i] == t[i];
    }
  }
}
