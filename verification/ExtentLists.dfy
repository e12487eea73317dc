/** Lists of extents of address space (deps/jemalloc/src/chunk.c): disjoint, never adjacent, and so
    determined by the addresses they cover. */
module ExtentLists {

  /** A range of addresses, counted in chunks. */
  datatype Extent = Extent(addr: nat, size: nat) {
    function End(): nat {
      addr + size
    }

    predicate Has(x: nat) {
      addr <= x < addr + size
    }
  }

  /** extent_szad_comp: by size, then by address. */
  predicate Less(a: Extent, b: Extent) {
    a.size < b.size || (a.size == b.size && a.addr < b.addr)
  }

  ghost predicate In(list: seq<Extent>, x: nat) {
    exists i :: 0 <= i < |list| && list[i].Has(x)
  }

  /** Extent i ends before extent j begins; a gap is between them unless `touch` is j. */
  ghost predicate Before(list: seq<Extent>, i: nat, j: nat, touch: nat)
    requires i < |list| && j < |list|
  {
    i < j ==> list[i].End() < list[j].addr || (j == touch && list[i].End() == list[j].addr)
  }

  /** The extents are in order of their addresses and disjoint.  Only extent `touch` may begin where the
      one before it ends. */
  ghost predicate SpreadBut(list: seq<Extent>, touch: nat) {
    && (forall i :: 0 <= i < |list| ==> list[i].size > 0)
    && forall i: nat, j: nat {:trigger Before(list, i, j, touch)} ::
         i < |list| && j < |list| ==> Before(list, i, j, touch)
  }

  ghost predicate Spread(list: seq<Extent>) {
    SpreadBut(list, 0)
  }

  // ---------------------------------------------------------------- the covered addresses determine the list

  lemma FirstIn(a: seq<Extent>, x: nat)
    requires Spread(a) && In(a, x)
    ensures a != [] && a[0].addr <= x && In(a, a[0].addr)
  {
    var i :| 0 <= i < |a| && a[i].Has(x);
    assert Before(a, 0, i, 0);
    assert a[0].Has(a[0].addr);
  }

  lemma EndOut(a: seq<Extent>)
    requires Spread(a) && a != []
    ensures !In(a, a[0].End())
  {
    forall i | 0 <= i < |a| ensures !a[i].Has(a[0].End()) {
      assert Before(a, 0, i, 0);
    }
  }

  lemma SpreadTail(a: seq<Extent>)
    requires Spread(a) && a != []
    ensures Spread(a[1..])
    ensures forall x :: In(a[1..], x) <==> In(a, x) && !a[0].Has(x)
  {
    var b := a[1..];
    forall i: nat, j: nat {:trigger Before(b, i, j, 0)} | i < |b| && j < |b| ensures Before(b, i, j, 0) {
      assert Before(a, i + 1, j + 1, 0);
    }
    forall x ensures In(b, x) <==> In(a, x) && !a[0].Has(x) {
      if In(b, x) {
        var i :| 0 <= i < |b| && b[i].Has(x);
        assert a[i + 1].Has(x) && Before(a, 0, i + 1, 0);
      }
      if In(a, x) && !a[0].Has(x) {
        var i :| 0 <= i < |a| && a[i].Has(x);
        assert b[i - 1].Has(x);
      }
    }
  }

  lemma SameFirst(a: seq<Extent>, b: seq<Extent>)
    requires Spread(a) && Spread(b) && a != [] && forall x :: In(a, x) <==> In(b, x)
    ensures b != [] && a[0] == b[0]
  {
    assert a[0].Has(a[0].addr);
    assert In(a, a[0].addr);
    FirstIn(b, a[0].addr);
    FirstIn(a, b[0].addr);
    EndOut(a);
    EndOut(b);
    assert !b[0].Has(a[0].End()) && !a[0].Has(b[0].End());
  }

  /** Two lists of disjoint, not adjacent extents that cover the same addresses are the same. */
  lemma {:induction false} SameSpace(a: seq<Extent>, b: seq<Extent>)
    requires Spread(a) && Spread(b) && forall x :: In(a, x) <==> In(b, x)
    ensures a == b
    decreases |a|
  {
    if a == [] {
      if b != [] {
        assert b[0].Has(b[0].addr);
        assert In(b, b[0].addr);
      }
    } else {
      SameFirst(a, b);
      SpreadTail(a);
      SpreadTail(b);
      SameSpace(a[1..], b[1..]);
      assert a == [a[0]] + a[1..] && b == [b[0]] + b[1..];
    }
  }

  // ---------------------------------------------------------------- changes of a list

  function Put(a: seq<Extent>, k: nat, e: Extent): seq<Extent>
    requires k <= |a|
  {
    a[..k] + [e] + a[k..]
  }

  function Drop(a: seq<Extent>, k: nat): seq<Extent>
    requires k < |a|
  {
    a[..k] + a[k + 1..]
  }

  /** The address e begins at lies after the first k extents and before the others. */
  ghost predicate Fits(a: seq<Extent>, k: nat, e: Extent) {
    && k <= |a| && e.size > 0
    && (forall i :: 0 <= i < k ==> a[i].End() <= e.addr && (a[i].End() == e.addr ==> i == k - 1))
    && (forall i :: k <= i < |a| ==> e.End() < a[i].addr)
  }

  lemma PutSpread(a: seq<Extent>, k: nat, e: Extent)
    requires Spread(a) && Fits(a, k, e)
    ensures SpreadBut(Put(a, k, e), k)
    ensures forall x :: In(Put(a, k, e), x) <==> In(a, x) || e.Has(x)
  {
    var b := Put(a, k, e);
    forall i: nat, j: nat {:trigger Before(b, i, j, k)} | i < |b| && j < |b| ensures Before(b, i, j, k) {
      if i != k && j != k {
        assert Before(a, if i < k then i else i - 1, if j < k then j else j - 1, 0);
      }
    }
    PutIn(a, k, e);
  }

  lemma PutIn(a: seq<Extent>, k: nat, e: Extent)
    requires k <= |a|
    ensures forall x :: In(Put(a, k, e), x) <==> In(a, x) || e.Has(x)
  {
    var b := Put(a, k, e);
    forall x ensures In(b, x) <==> In(a, x) || e.Has(x) {
      if In(a, x) {
        var i :| 0 <= i < |a| && a[i].Has(x);
        assert b[if i < k then i else i + 1].Has(x);
      }
      if e.Has(x) {
        assert b[k].Has(x);
      }
      if In(b, x) {
        var i :| 0 <= i < |b| && b[i].Has(x);
        assert i != k ==> a[if i < k then i else i - 1].Has(x);
      }
    }
  }

  /** Extent k grown to the front. */
  lemma GrowSpread(a: seq<Extent>, k: nat, e: Extent)
    requires Spread(a) && k < |a| && e.End() == a[k].End() && e.addr <= a[k].addr && e.size > 0
    requires forall i :: 0 <= i < k ==> a[i].End() <= e.addr && (a[i].End() == e.addr ==> i == k - 1)
    ensures SpreadBut(a[k := e], k)
    ensures forall x: nat :: In(a[k := e], x) <==> In(a, x) || (e.addr <= x < a[k].addr)
  {
    var b := a[k := e];
    forall i: nat, j: nat {:trigger Before(b, i, j, k)} | i < |b| && j < |b| ensures Before(b, i, j, k) {
      assert Before(a, i, j, 0);
    }
    forall x: nat ensures In(b, x) <==> In(a, x) || (e.addr <= x < a[k].addr) {
      if In(a, x) {
        var i :| 0 <= i < |a| && a[i].Has(x);
        assert b[i].Has(x);
      }
      if e.addr <= x < a[k].addr {
        assert b[k].Has(x);
      }
      if In(b, x) {
        var i :| 0 <= i < |b| && b[i].Has(x);
        assert i != k ==> a[i].Has(x);
        assert i == k && x >= a[k].addr ==> a[k].Has(x);
      }
    }
  }

  /** No extent touches the one before it after all. */
  lemma Apart(a: seq<Extent>, k: nat)
    requires SpreadBut(a, k) && k < |a| && (k > 0 ==> a[k - 1].End() < a[k].addr)
    ensures Spread(a)
  {
    forall i: nat, j: nat {:trigger Before(a, i, j, 0)} | i < |a| && j < |a| ensures Before(a, i, j, 0) {
      assert Before(a, i, j, k);
      if i < j == k && i < k - 1 {
        assert Before(a, i, k - 1, k);
      }
    }
  }

  /** Extents k - 1 and k made one. */
  lemma MergeSpread(a: seq<Extent>, k: nat)
    requires SpreadBut(a, k) && 0 < k < |a| && a[k - 1].End() == a[k].addr
    ensures var e := Extent(a[k - 1].addr, a[k - 1].size + a[k].size);
      Spread(Drop(a, k - 1)[k - 1 := e]) && forall x :: In(Drop(a, k - 1)[k - 1 := e], x) <==> In(a, x)
  {
    var e := Extent(a[k - 1].addr, a[k - 1].size + a[k].size);
    var b := Drop(a, k - 1)[k - 1 := e];
    forall i: nat, j: nat {:trigger Before(b, i, j, 0)} | i < |b| && j < |b| ensures Before(b, i, j, 0) {
      var i', j' := if i < k then i else i + 1, if j < k then j else j + 1;
      assert Before(a, i', j', k);
      assert Before(a, k, j', k);
    }
    forall x ensures In(b, x) <==> In(a, x) {
      if In(a, x) {
        var i :| 0 <= i < |a| && a[i].Has(x);
        assert b[if i < k then i else i - 1].Has(x);
      }
      if In(b, x) {
        var i :| 0 <= i < |b| && b[i].Has(x);
        if i == k - 1 {
          assert a[k - 1].Has(x) || a[k].Has(x);
        } else {
          assert a[if i < k then i else i + 1].Has(x);
        }
      }
    }
  }

  lemma DropSpread(a: seq<Extent>, k: nat)
    requires Spread(a) && k < |a|
    ensures Spread(Drop(a, k))
    ensures forall x :: In(Drop(a, k), x) <==> In(a, x) && !a[k].Has(x)
  {
    var b := Drop(a, k);
    forall i: nat, j: nat {:trigger Before(b, i, j, 0)} | i < |b| && j < |b| ensures Before(b, i, j, 0) {
      assert Before(a, if i < k then i else i + 1, if j < k then j else j + 1, 0);
    }
    forall x ensures In(b, x) <==> In(a, x) && !a[k].Has(x) {
      if In(b, x) {
        var i :| 0 <= i < |b| && b[i].Has(x);
        var i' := if i < k then i else i + 1;
        assert a[i'].Has(x) && Before(a, i', k, 0) && Before(a, k, i', 0);
      }
      if In(a, x) && !a[k].Has(x) {
        var i :| 0 <= i < |a| && a[i].Has(x);
        assert b[if i < k then i else i - 1].Has(x);
      }
    }
  }

  /** e is apart from every extent, and not adjacent to any. */
  ghost predicate Roomy(a: seq<Extent>, e: Extent) {
    forall i :: 0 <= i < |a| ==> a[i].End() < e.addr || e.End() < a[i].addr
  }

  /** The place of e among the extents is where their addresses pass its own. */
  lemma RoomyFits(a: seq<Extent>, k: nat, e: Extent)
    requires Roomy(a, e) && k <= |a| && e.size > 0
    requires (forall i :: 0 <= i < k ==> a[i].addr < e.addr) && forall i :: k <= i < |a| ==> a[i].addr >= e.addr
    ensures Fits(a, k, e) && (k > 0 ==> a[k - 1].End() < e.addr)
  {
  }

  /** The place of a block that no extent overlaps. */
  lemma BlockFits(a: seq<Extent>, k: nat, e: Extent)
    requires Spread(a) && k <= |a| && e.size > 0 && forall x :: e.Has(x) ==> !In(a, x)
    requires (forall i :: 0 <= i < k ==> a[i].addr < e.End()) && (k < |a| ==> a[k].addr >= e.End())
    ensures forall i :: 0 <= i < k ==> a[i].End() <= e.addr && (a[i].End() == e.addr ==> i == k - 1)
    ensures (k < |a| ==> a[k].addr > e.End()) ==> Fits(a, k, e)
  {
    forall i | 0 <= i < k ensures a[i].End() <= e.addr && (a[i].End() == e.addr ==> i == k - 1) {
      BlockBelow(a, i, e);
      BlockBelow(a, k - 1, e);
      assert Before(a, i, k - 1, 0);
    }
    forall i | k <= i < |a| ensures a[k].addr > e.End() ==> a[i].addr > e.End() {
      assert Before(a, k, i, 0);
    }
  }

  lemma BlockBelow(a: seq<Extent>, i: nat, e: Extent)
    requires i < |a| && a[i].size > 0 && a[i].addr < e.End() && e.size > 0 && forall x :: e.Has(x) ==> !In(a, x)
    ensures a[i].End() <= e.addr
  {
    if a[i].End() > e.addr {
      var x := if a[i].addr < e.addr then e.addr else a[i].addr;
      assert a[i].Has(x) && e.Has(x);
    }
  }

  /** A part of an extent that has been taken out has room in its place. */
  lemma GapRoomy(a: seq<Extent>, k: nat, e: Extent)
    requires Spread(a) && k < |a| && a[k].addr <= e.addr && e.End() <= a[k].End() && e.size > 0
    ensures Roomy(Drop(a, k), e)
  {
    forall i | 0 <= i < |Drop(a, k)| ensures Drop(a, k)[i].End() < e.addr || e.End() < Drop(a, k)[i].addr {
      assert Before(a, if i < k then i else i + 1, k, 0) && Before(a, k, if i < k then i else i + 1, 0);
    }
  }
}
