/** PFADD, PFCOUNT and PFMERGE of src/hyperloglog.c on a keyspace of valid objects. */
module HllKeyspace {
  import opened HllPattern
  import opened HllRegisters
  import opened HllDense
  import opened HllObject
  import opened HllCommands

  function At(hash: Hash): Places {
    (e: Element) => PlaceOf(hash(e))
  }

  lemma AtFits(hash: Hash)
    ensures Fits(At(hash))
  {
    forall e ensures At(hash)(e).index < REGISTERS && 1 <= At(hash)(e).count <= REGISTER_MAX {
      PatternRange(hash(e), 14);
    }
  }

  ghost function Elems(es: seq<Element>): set<Element> {
    set e | e in es
  }

  lemma ElemsSnoc(s: set<Element>, es: seq<Element>, j: nat)
    requires j < |es|
    ensures s + Elems(es[..j + 1]) == s + Elems(es[..j]) + {es[j]}
  {
    assert es[..j + 1] == es[..j] + [es[j]];
  }

  /** o is a valid object whose registers are those of the elements s. */
  ghost predicate Stands(o: Hll, hash: Hash, s: set<Element>)
    reads o
  {
    o.Valid() && Sketch(o.regs, At(hash), s)
  }

  /** A cached cardinality that counts as valid is the count of the present registers. */
  ghost predicate CacheSound(o: Hll, estimate: Estimate)
    reads o
  {
    |o.card| == 8 && |o.regs| == REGISTERS && (ValidCache(o.card) ==> Load(o.card) == Cardinality(o.regs, estimate))
  }

  ghost predicate AllAtMost(a: seq<Byte>, b: seq<Byte>) {
    |a| == |b| && forall i :: 0 <= i < |a| ==> a[i] <= b[i]
  }

  /** b is a, or larger at some register and smaller at none. */
  ghost predicate Grown(a: seq<Byte>, b: seq<Byte>, changed: bool) {
    AllAtMost(a, b) && (changed <==> a != b)
  }

  lemma RaiseGrows(r: seq<Byte>, i: nat, c: Byte)
    requires i < |r|
    ensures Grown(r, Raise(r, i, c), r[i] < c)
  {
    assert Raise(r, i, c)[i] == Max(r[i], c);
  }

  lemma AtMostTrans(a: seq<Byte>, b: seq<Byte>, c: seq<Byte>)
    requires AllAtMost(a, b) && AllAtMost(b, c)
    ensures AllAtMost(a, c)
  {
  }

  lemma AtMostBoth(a: seq<Byte>, b: seq<Byte>)
    requires AllAtMost(a, b) && AllAtMost(b, a)
    ensures a == b
  {
  }

  lemma GrownTrans(a: seq<Byte>, b: seq<Byte>, c: seq<Byte>, x: bool, y: bool)
    requires Grown(a, b, x) && Grown(b, c, y)
    ensures Grown(a, c, x || y)
  {
    AtMostTrans(a, b, c);
    if a == c {
      AtMostBoth(a, b);
    }
  }

  /** hllAdd */
  method Add(o: Hll, hash: Hash, ele: Element, sparseMaxBytes: nat, ghost s: set<Element>) returns (r: int)
    requires Stands(o, hash, s)
    modifies o
    ensures Stands(o, hash, s + {ele})
    ensures Grown(old(o.regs), o.regs, r == 1) && 0 <= r <= 1
    ensures r == 0 ==> o.card == old(o.card)
  {
    var at := PlaceOf(hash(ele));
    SketchRaise(o.regs, At(hash), s, ele);
    RaiseGrows(o.regs, at.index, at.count);
    match o.encoding {
      case Dense => r := o.DenseAdd(hash, ele);
      case Sparse => r := o.SparseAdd(hash, ele, sparseMaxBytes);
    }
  }

  /** The loop of pfaddCommand over its arguments. */
  method AddAll(o: Hll, hash: Hash, elements: seq<Element>, sparseMaxBytes: nat, ghost s: set<Element>)
      returns (updated: nat)
    requires Stands(o, hash, s)
    modifies o
    ensures Stands(o, hash, s + Elems(elements))
    ensures Grown(old(o.regs), o.regs, updated > 0)
    ensures updated == 0 ==> o.card == old(o.card)
  {
    updated := 0;
    var j := 0;
    assert s + Elems(elements[..0]) == s;
    while j < |elements|
      invariant 0 <= j <= |elements|
      invariant Stands(o, hash, s + Elems(elements[..j]))
      invariant Grown(old(o.regs), o.regs, updated > 0)
      invariant updated == 0 ==> o.card == old(o.card)
    {
      ghost var before := o.regs;
      var retval := Add(o, hash, elements[j], sparseMaxBytes, s + Elems(elements[..j]));
      GrownTrans(old(o.regs), before, o.regs, updated > 0, retval == 1);
      ElemsSnoc(s, elements, j);
      if retval == 1 {
        updated := updated + 1;
      }
      j := j + 1;
    }
    assert elements[..j] == elements;
  }

  /** PFADD on an object: the cache is invalidated when anything was updated. */
  method Pfadds(o: Hll, hash: Hash, estimate: Estimate, elements: seq<Element>, sparseMaxBytes: nat, created: bool,
      ghost s: set<Element>) returns (updated: bool)
    requires Stands(o, hash, s) && (created || CacheSound(o, estimate))
    modifies o
    ensures Stands(o, hash, s + Elems(elements)) && CacheSound(o, estimate)
    ensures updated <==> created || old(o.regs) != o.regs
  {
    var n := AddAll(o, hash, elements, sparseMaxBytes, s);
    updated := created || n > 0;
    if updated {
      InvalidatedNotValid(o.card);
      o.card := Invalidated(o.card);
    }
  }

  /** The registers before i are stored. */
  ghost predicate StoredTo(d: seq<Byte>, m: seq<Byte>, i: nat) {
    |d| == |m| && i <= |m| && forall k :: 0 <= k < i ==> d[k] == m[k]
  }

  lemma StoredOne(d: seq<Byte>, m: seq<Byte>, i: nat)
    requires StoredTo(d, m, i) && i < |m|
    ensures StoredTo(d[i := m[i]], m, i + 1)
  {
  }

  lemma StoredAll(d: seq<Byte>, m: seq<Byte>)
    requires StoredTo(d, m, |m|)
    ensures d == m
  {
  }

  /** The loop at the end of pfmergeCommand: every register is overwritten. */
  method Repack(dense: seq<Byte>, max: array<Byte>) returns (bytes: seq<Byte>)
    requires IsDense(dense) && dense[DENSE_BYTES] == 0
    requires max.Length == REGISTERS && IsRegisters(max[..])
    ensures IsDense(bytes) && bytes[DENSE_BYTES] == 0 && DenseRegs(bytes) == max[..]
  {
    bytes := dense;
    var j := 0;
    while j < REGISTERS
      invariant 0 <= j <= REGISTERS && IsDense(bytes) && bytes[DENSE_BYTES] == 0
      invariant StoredTo(DenseRegs(bytes), max[..], j)
    {
      StoredOne(DenseRegs(bytes), max[..], j);
      bytes := StoreRegister(bytes, j, max[j]);
      j := j + 1;
    }
    StoredAll(DenseRegs(bytes), max[..]);
  }

  /** The end of pfmergeCommand. */
  method StoreAll(o: Hll, max: array<Byte>, hash: Hash, ghost s: set<Element>)
    requires o.Valid()
    requires max.Length == REGISTERS && Sketch(max[..], At(hash), s)
    modifies o
    ensures Stands(o, hash, s) && !ValidCache(o.card) && o.encoding == Dense
  {
    AtFits(hash);
    SketchFits(max[..], At(hash), s);
    o.SparseToDense();
    o.bytes := Repack(o.bytes, max);
    o.regs := max[..];
    InvalidatedNotValid(o.card);
    o.card := Invalidated(o.card);
  }

  /** PFCOUNT on an object. */
  method CountCached(o: Hll, hash: Hash, estimate: Estimate, ghost s: set<Element>) returns (card: bv64)
    requires Stands(o, hash, s) && CacheSound(o, estimate)
    modifies o`card
    ensures Stands(o, hash, s) && CacheSound(o, estimate)
    ensures card == Cardinality(o.regs, estimate)
    ensures ValidCache(o.card) <==> card & 0x80 == 0
  {
    if ValidCache(o.card) {
      card := Load(o.card);
      LoadLow(o.card);
    } else {
      card := Count(o, estimate);
      LoadSave(card);
      SavedValid(card);
      o.card := Save(card);
    }
  }

  class Keyspace {
    var db: map<Key, Hll>
    const hash: Hash
    const estimate: Estimate
    /** The elements added to each key, directly or through merged sources. */
    ghost var contents: map<Key, set<Element>>

    ghost predicate ValidAt(k: Key)
      requires k in db && k in contents
      reads this, db[k]
    {
      Stands(db[k], hash, contents[k]) && CacheSound(db[k], estimate)
    }

    ghost predicate Valid()
      reads this, db.Values
    {
      && db.Keys == contents.Keys
      && (forall k <- db :: ValidAt(k))
      && (forall k, l :: k in db && l in db && k != l ==> db[k] != db[l])
    }

    /** The elements of a key; a missing key counts as empty. */
    ghost function Elements(k: Key): set<Element>
      reads this
    {
      if k in contents then contents[k] else {}
    }

    constructor (hash: Hash, estimate: Estimate)
      ensures Valid() && db == map[] && this.hash == hash && this.estimate == estimate
    {
      this.hash := hash;
      this.estimate := estimate;
      db := map[];
      contents := map[];
    }

    /** Everything but key is as it should be, and o belongs to no other key. */
    ghost predicate ValidBut(key: Key, o: Hll)
      reads this, db.Values
    {
      && db.Keys == contents.Keys
      && (forall k <- db :: k != key ==> ValidAt(k) && db[k] != o)
      && (forall k, l :: k in db && l in db && k != l ==> db[k] != db[l])
    }

    method Put(key: Key, o: Hll, ghost s: set<Element>)
      requires ValidBut(key, o) && Stands(o, hash, s) && CacheSound(o, estimate)
      modifies this
      ensures Valid() && db == old(db)[key := o] && contents == old(contents)[key := s]
    {
      db := db[key := o];
      contents := contents[key := s];
      forall k | k in db ensures ValidAt(k) {
        if k != key {
          assert old(ValidAt(k));
        }
      }
    }

    /** lookupKeyWrite, or a new object. */
    method Fetch(key: Key) returns (o: Hll, created: bool)
      requires Valid()
      ensures created == (key !in db) && ValidBut(key, o)
      ensures if created then fresh(o) else o == db[key]
      ensures Stands(o, hash, Elements(key)) && (created || CacheSound(o, estimate))
    {
      if key !in db {
        o := new Hll();
        SketchEmpty(o.regs, At(hash));
        created := true;
      } else {
        assert ValidAt(key);
        o := db[key];
        created := false;
      }
    }

    /** PFADD: the key then holds its elements and the new ones; the reply is 1 exactly when the
        key was missing or a register changed. */
    method Pfadd(key: Key, elements: seq<Element>, sparseMaxBytes: nat) returns (reply: int)
      requires Valid()
      modifies this, db.Values
      ensures Valid()
      ensures contents == old(contents)[key := old(Elements(key)) + Elems(elements)]
      ensures key in db && db == old(db)[key := db[key]]
      ensures if key in old(db) then db[key] == old(db[key]) else fresh(db[key])
      ensures reply == if key in old(db) && old(db[key]).regs == old(db[key].regs) then 0 else 1
    {
      var o, created := Fetch(key);
      var updated := Pfadds(o, hash, estimate, elements, sparseMaxBytes, created, Elements(key));
      Put(key, o, Elements(key) + Elems(elements));
      reply := if updated then 1 else 0;
    }

    /** The elements of any of the keys. */
    ghost function Union(keys: seq<Key>): set<Element>
      reads this
    {
      if keys == [] then {} else Union(keys[..|keys| - 1]) + Elements(keys[|keys| - 1])
    }

    lemma UnionSnoc(keys: seq<Key>, j: nat)
      requires j < |keys|
      ensures Union(keys[..j + 1]) == Union(keys[..j]) + Elements(keys[j])
    {
      assert keys[..j + 1][..j] == keys[..j];
    }

    /** The loops of pfcountCommand and pfmergeCommand over their keys: missing keys are empty. */
    method MergeKeys(keys: seq<Key>) returns (max: array<Byte>)
      requires Valid()
      ensures fresh(max) && max.Length == REGISTERS && Sketch(max[..], At(hash), Union(keys))
    {
      max := new Byte[REGISTERS](_ => 0);
      SketchEmpty(max[..], At(hash));
      var j := 0;
      while j < |keys|
        invariant 0 <= j <= |keys| && Sketch(max[..], At(hash), Union(keys[..j]))
      {
        UnionSnoc(keys, j);
        if keys[j] in db {
          assert ValidAt(keys[j]);
          SketchMerge(max[..], db[keys[j]].regs, At(hash), Union(keys[..j]), Elements(keys[j]));
          Merge(max, db[keys[j]]);
        } else {
          assert Union(keys[..j + 1]) == Union(keys[..j]);
        }
        j := j + 1;
      }
      assert keys[..j] == keys;
    }

    /** PFMERGE: the destination then holds the union of its own elements and those of all the
        sources, so merging the sketches of A and B gives the sketch of A + B. */
    method Pfmerge(dest: Key, sources: seq<Key>)
      requires Valid()
      modifies this, db.Values
      ensures Valid()
      ensures contents == old(contents)[dest := old(Union([dest] + sources))]
      ensures dest in db && db == old(db)[dest := db[dest]]
      ensures if dest in old(db) then db[dest] == old(db[dest]) else fresh(db[dest])
      ensures db[dest].encoding == Dense && !ValidCache(db[dest].card)
    {
      var max := MergeKeys([dest] + sources);
      ghost var s := Union([dest] + sources);
      var o, created := Fetch(dest);
      StoreAll(o, max, hash, s);
      Put(dest, o, s);
    }

    /** The count that stands for the elements s. */
    ghost predicate Counts(card: bv64, s: set<Element>)
      reads this
    {
      forall r :: Sketch(r, At(hash), s) ==> card == Cardinality(r, estimate)
    }

    lemma CountsOne(r: seq<Byte>, s: set<Element>)
      requires Sketch(r, At(hash), s)
      ensures Counts(Cardinality(r, estimate), s)
    {
      AtFits(hash);
      forall q | Sketch(q, At(hash), s) ensures q == r {
        SketchUnique(q, r, At(hash), s);
      }
    }

    /** PFCOUNT of several keys: the count of the union. */
    method PfcountUnion(keys: seq<Key>) returns (card: bv64)
      requires Valid()
      ensures Counts(card, Union(keys))
    {
      var max := MergeKeys(keys);
      card := CountRaw(max, estimate);
      CountsOne(max[..], Union(keys));
    }

    /** PFCOUNT of one key: the cached count if it is valid, else the count, which is then cached;
        the cache is valid afterwards exactly when bit 7 of the count is clear. */
    method Pfcount(key: Key) returns (card: bv64)
      requires Valid()
      modifies db.Values
      ensures Valid() && db == old(db) && contents == old(contents)
      ensures if key in db then Counts(card, contents[key]) else card == 0
      ensures key in db ==> (ValidCache(db[key].card) <==> card & 0x80 == 0)
    {
      if key !in db {
        return 0;
      }
      var o := db[key];
      assert ValidAt(key);
      CountsOne(o.regs, contents[key]);
      card := CountCached(o, hash, estimate, contents[key]);
    }
  }
}
