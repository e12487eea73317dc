/** chunk_recycle and chunk_record (deps/jemalloc/src/chunk.c) over the two trees of free extents.
    Addresses and sizes are counted in chunks. */
module ChunkExtents {
  import opened Alignment
  import opened ExtentLists
  import opened ExtentTrees
  import opened Options

  /** An extent begins at x. */
  ghost predicate BeginsAt(list: seq<Extent>, x: nat) {
    exists i :: 0 <= i < |list| && list[i].addr == x
  }

  /** a covers what b does, and the block of e. */
  ghost predicate With(a: seq<Extent>, b: seq<Extent>, e: Extent) {
    forall x :: In(a, x) <==> In(b, x) || e.Has(x)
  }

  ghost predicate Without(a: seq<Extent>, b: seq<Extent>, e: Extent) {
    forall x :: In(a, x) <==> In(b, x) && !e.Has(x)
  }

  /** b covers what a does, but not the part of e from `from` on. */
  ghost predicate Rest(a: seq<Extent>, b: seq<Extent>, e: Extent, from: nat) {
    forall x: nat :: In(b, x) <==> In(a, x) && !(from <= x < e.End())
  }

  /** The block leaves a part of e in front of it and one behind. */
  predicate Between(block: Extent, e: Extent) {
    e.addr < block.addr && block.End() < e.End()
  }

  /** The first aligned address in e. */
  ghost predicate AlignedIn(e: Extent, addr: nat, alignment: nat) {
    e.addr <= addr < e.addr + alignment && Aligned(addr, alignment)
  }

  /** What chunk_recycle does to the extents: it takes the block from e; or there is no memory for a node,
      and the block is recorded again or not, but the part of e behind it is lost. */
  ghost predicate Recycled(before: seq<Extent>, after: seq<Extent>, e: Extent, block: Extent, memory: bool,
      recorded: bool, ret: Option<nat>)
  {
    if memory || !Between(block, e) then ret == Some(block.addr) && Without(after, before, block)
    else ret == None && Rest(before, after, e, if recorded then block.End() else block.addr)
  }

  class Extents {
    /** chunks_szad and chunks_ad: the nodes by size and by address. */
    var szad: Tree
    var ad: Tree
    /** The values of the nodes in the order of addresses. */
    ghost var list: seq<Extent>

    ghost predicate Listed()
      reads this, ad
    {
      |list| == |ad| && forall i :: 0 <= i < |ad| ==> ad[i].Value() == list[i]
    }

    ghost predicate SameNodes()
      reads this
    {
      (forall n <- szad :: n in ad) && forall n <- ad :: n in szad
    }

    /** Both trees hold the same nodes in their order; only extent `touch` may be adjacent to the one
        before it. */
    ghost predicate ValidBut(touch: nat)
      reads this, szad, ad
    {
      BySize(szad) && Listed() && SameNodes() && SpreadBut(list, touch)
    }

    /** Both trees hold the same disjoint, never adjacent extents. */
    ghost predicate Valid()
      reads this, szad, ad
    {
      ValidBut(0)
    }

    constructor ()
      ensures Valid() && list == []
    {
      szad, ad, list := [], [], [];
    }

    /** The index at which extent_tree_ad_nsearch finds addr. */
    method AdSearch(addr: nat) returns (k: nat)
      requires Listed()
      ensures k <= |ad| && forall i :: 0 <= i < k ==> list[i].addr < addr
      ensures k < |ad| ==> list[k].addr >= addr
    {
      k := 0;
      while k < |ad| && ad[k].addr < addr
        invariant k <= |ad| && forall i :: 0 <= i < k ==> list[i].addr < addr
      {
        assert ad[k].Value() == list[k];
        k := k + 1;
      }
      if k < |ad| {
        assert ad[k].Value() == list[k];
      }
    }

    lemma Later(touch: nat, k: nat)
      requires SpreadBut(list, touch) && k < |list|
      ensures forall i :: k < i < |list| ==> list[i].addr > list[k].addr
      ensures forall i :: 0 <= i < k ==> list[i].addr < list[k].addr
    {
      forall i | 0 <= i < |list|
        ensures (k < i ==> list[i].addr > list[k].addr) && (i < k ==> list[i].addr < list[k].addr)
      {
        assert Before(list, k, i, touch) && Before(list, i, k, touch);
      }
    }

    /** Different places hold different nodes with different values. */
    lemma OnePlace(touch: nat, k: nat)
      requires Listed() && SpreadBut(list, touch) && k < |ad|
      ensures forall i :: 0 <= i < |ad| && i != k ==> ad[i] != ad[k] && ad[i].Value() != ad[k].Value()
    {
      Later(touch, k);
    }

    // -------------------------------------------------------------- changes of single nodes

    /** The node at k gets the values of e, which keep its place among the addresses: only the tree by
        size is updated. */
    method Change(k: nat, e: Extent, ghost before: nat, ghost touch: nat)
      requires ValidBut(before) && k < |ad| && SpreadBut(list[k := e], touch)
      modifies this`szad, this`list, ad[k]
      ensures ValidBut(touch) && list == old(list)[k := e]
    {
      var node := ad[k];
      OnePlace(before, k);
      szad := Remove(szad, node);
      node.addr, node.size := e.addr, e.size;
      list := list[k := e];
      OnePlace(touch, k);
      szad := Insert(szad, node);
    }

    /** The node at k leaves both trees. */
    method TakeOut(k: nat, ghost touch: nat)
      requires ValidBut(touch) && k < |ad|
      modifies this`szad, this`ad, this`list
      ensures BySize(szad) && Listed() && SameNodes()
      ensures ad == old(ad)[..k] + old(ad)[k + 1..] && list == Drop(old(list), k)
    {
      OnePlace(touch, k);
      szad := Remove(szad, ad[k]);
      ad := ad[..k] + ad[k + 1..];
      list := Drop(list, k);
    }

    /** A new node enters both trees at place k. */
    method Enter(k: nat, node: Node, ghost before: nat, ghost touch: nat)
      requires ValidBut(before) && k <= |ad| && SpreadBut(Put(list, k, node.Value()), touch) && node !in ad
      modifies this`szad, this`ad, this`list
      ensures ValidBut(touch) && list == Put(old(list), k, node.Value())
      ensures ad == old(ad)[..k] + [node] + old(ad)[k..]
    {
      ghost var before' := ad;
      ad := ad[..k] + [node] + ad[k..];
      list := Put(list, k, node.Value());
      OnePlace(touch, k);
      forall n | n in szad ensures n.Value() != node.Value() {
        var i: nat :| i < |before'| && before'[i] == n;
        assert ad[if i < k then i else i + 1] == n;
      }
      szad := Insert(szad, node);
    }

    // -------------------------------------------------------------- chunk_record

    /** The first part of chunk_record: the block is put before the extent that follows it, or becomes an
        extent of its own; false if there is no memory for a node. */
    method RecordForward(chunk: nat, size: nat, memory: bool) returns (done: bool, k: nat)
      requires Valid() && size > 0 && forall x :: Extent(chunk, size).Has(x) ==> !In(list, x)
      modifies this, ad
      ensures done <==> memory || BeginsAt(old(list), chunk + size)
      ensures done ==> k < |ad| && (ad[k] in old(ad) || fresh(ad[k]))
      ensures !done ==> Valid() && list == old(list)
      ensures done ==> ValidBut(k) && k < |list| && list[k].addr == chunk && With(list, old(list), Extent(chunk, size))
      ensures forall n <- ad :: n in old(ad) || fresh(n)
    {
      var block := Extent(chunk, size);
      k := AdSearch(chunk + size);
      BlockFits(list, k, block);
      if k < |ad| && ad[k].addr == chunk + size {
        assert ad[k].Value() == list[k];
        var e := Extent(chunk, ad[k].size + size);
        GrowSpread(list, k, e);
        Change(k, e, 0, k);
        return true, k;
      }
      assert k < |ad| ==> ad[k].Value() == list[k];
      NoneBegins(list, k, chunk + size);
      if !memory {
        return false, k;
      }
      PutSpread(list, k, block);
      var node := new Node(chunk, size);
      Enter(k, node, 0, k);
      done := true;
    }

    /** chunk_record: the block is free again, coalesced with the extents on both sides.  It is lost if
        there is no memory for a node and no extent that follows it. */
    method Record(chunk: nat, size: nat, memory: bool)
      requires Valid() && size > 0 && forall x :: Extent(chunk, size).Has(x) ==> !In(list, x)
      modifies this, ad
      ensures Valid()
      ensures if memory || BeginsAt(old(list), chunk + size)
              then With(list, old(list), Extent(chunk, size)) else list == old(list)
      ensures forall n <- ad :: n in old(ad) || fresh(n)
    {
      var done, k := RecordForward(chunk, size, memory);
      if done {
        Backward(k);
      }
    }

    /** The end of chunk_record: the extent at k is joined to the one before it if they touch. */
    method Backward(k: nat)
      requires ValidBut(k) && k < |list|
      modifies this, ad[k]
      ensures Valid() && forall x :: In(list, x) <==> In(old(list), x)
      ensures forall n <- ad :: n in old(ad) || fresh(n)
    {
      assert ad[k].Value() == list[k];
      if k > 0 {
        assert ad[k - 1].Value() == list[k - 1];
      }
      if k > 0 && ad[k - 1].addr + ad[k - 1].size == ad[k].addr {
        MergeSpread(list, k);
        Join(k, Extent(ad[k - 1].addr, ad[k - 1].size + ad[k].size));
      } else {
        assert k > 0 ==> Before(list, k - 1, k, k);
        Apart(list, k);
      }
    }

    /** Node k - 1 leaves both trees, and node k gets the values of both. */
    method Join(k: nat, e: Extent)
      requires ValidBut(k) && 0 < k < |ad| && Spread(Drop(list, k - 1)[k - 1 := e])
      modifies this, ad[k]
      ensures Valid() && list == Drop(old(list), k - 1)[k - 1 := e]
      ensures forall n <- ad :: n in old(ad) || fresh(n)
    {
      var node := ad[k];
      ghost var before := ad;
      OnePlace(k, k);
      TakeOut(k - 1, k);
      forall i | 0 <= i < |ad| && i != k - 1 ensures ad[i] != node {
        assert ad[i] == before[if i < k - 1 then i else i + 1];
      }
      szad := Remove(szad, node);
      node.addr, node.size := e.addr, e.size;
      list := list[k - 1 := e];
      OnePlace(0, k - 1);
      szad := Insert(szad, node);
    }

    // -------------------------------------------------------------- chunk_recycle

    /** A new extent, apart from all the others. */
    method AddNode(node: Node)
      requires Valid() && node !in ad && node.size > 0 && Roomy(list, node.Value())
      modifies this
      ensures Valid() && With(list, old(list), node.Value()) && forall e <- list :: e in old(list) || e == node.Value()
      ensures node in ad && forall n <- ad :: n in old(ad) || n == node
    {
      var k := AdSearch(node.addr);
      if k < |list| {
        Later(0, k);
      }
      RoomyFits(list, k, node.Value());
      PutSpread(list, k, node.Value());
      Apart(Put(list, k, node.Value()), k);
      Enter(k, node, 0, 0);
    }

    /** The parts of extent e before and behind the block that is taken from it become extents again.  If
        there are both, one more node is needed; without memory for it the part behind is lost. */
    method PutBack(node0: Node, e: Extent, block: Extent, memory: bool) returns (ok: bool)
      requires Valid() && node0 !in ad && node0.Value() == e && block.size > 0
      requires e.addr <= block.addr && block.End() <= e.End()
      requires forall f: Extent :: e.addr <= f.addr && f.End() <= e.End() && f.size > 0 ==> Roomy(list, f)
      modifies this, node0
      ensures forall n <- ad :: n in old(ad) || n == node0 || fresh(n)
      ensures Valid() && (ok <==> memory || !Between(block, e))
      ensures forall x: nat :: In(list, x) <==>
                In(old(list), x) || (e.Has(x) && !block.Has(x) && (ok || x < block.addr))
    {
      var node: Node? := node0;
      var leadsize := block.addr - e.addr;
      var trailsize := e.size - leadsize - block.size;
      ghost var lead, trail := Extent(e.addr, leadsize), Extent(block.End(), trailsize);
      ghost var before := list;
      if leadsize != 0 {
        node.size := leadsize;
        AddNode(node);
        node := null;
      }
      if trailsize != 0 {
        if node == null {
          if !memory {
            return false;
          }
          node := new Node(block.End(), trailsize);
        }
        node.addr, node.size := block.End(), trailsize;
        TrailRoomy(before, list, lead, trail);
        AddNode(node);
      }
      ok := true;
    }

    lemma TrailRoomy(before: seq<Extent>, after: seq<Extent>, lead: Extent, trail: Extent)
      requires Roomy(before, trail) && lead.End() < trail.addr && forall f <- after :: f in before || f == lead
      ensures Roomy(after, trail)
    {
      forall i | 0 <= i < |after| ensures after[i].End() < trail.addr || trail.End() < after[i].addr {
        assert after[i] in after;
      }
    }

    /** The node is at the place where its address is found. */
    lemma AtPlace(node: Node, k: nat)
      requires Valid() && node in ad && k <= |ad| && forall i :: 0 <= i < k ==> list[i].addr < node.addr
      requires k < |ad| ==> list[k].addr >= node.addr
      ensures k < |ad| && ad[k] == node
    {
      var i: nat :| i < |ad| && ad[i] == node;
      assert list[i] == node.Value();
      if k < i {
        Later(0, k);
      }
    }

    /** chunk_recycle: a block of the given size at an aligned address is taken from the lowest best fit
        for any position in it, as Recycled says.  `memory` tells whether there is memory for one more
        node, `unmaps` whether chunk_dealloc unmaps the block instead of recording it, and `later` whether
        there is memory for a node then. */
    method Recycle(size: nat, alignment: nat, memory: bool, unmaps: bool, later: bool) returns (ret: Option<nat>)
      requires Valid() && size > 0 && alignment > 0
      modifies this, ad
      ensures Valid() && forall n <- ad :: n in old(ad) || fresh(n)
      ensures if forall e <- old(list) :: e.size < size + alignment - 1 then ret.None? && list == old(list)
              else exists e, addr: nat ::
                Best(e, old(list), size + alignment - 1) && AlignedIn(e, addr, alignment)
                && Recycled(old(list), list, e, Extent(addr, size), memory, !unmaps && later, ret)
    {
      var allocSize := size + alignment - 1;
      var node := SearchSize(szad, allocSize);
      BestOfTree(node, allocSize);
      if node == null {
        return None;
      }
      var k := AdSearch(node.addr);
      AtPlace(node, k);
      var aligned := Ceiling(node.addr, alignment);
      ghost var e, before := list[k], list;
      assert Best(e, list, allocSize) && AlignedIn(e, aligned, alignment);
      var ok := TakeBlock(k, aligned, size, memory);
      ret := if ok then Some(aligned) else None;
      if !ok && !unmaps {
        forall i | 0 <= i < |ad| ensures ad[i] in old(ad) || fresh(ad[i]) {
          assert ad[i] in ad;
        }
        Restore(before, e, aligned, size, later);
      }
      assert Recycled(before, list, e, Extent(aligned, size), memory, !unmaps && later, ret);
    }

    /** The block is recorded again after the part behind it has been lost. */
    method Restore(ghost before: seq<Extent>, ghost e: Extent, addr: nat, size: nat, memory: bool)
      requires Valid() && size > 0 && e in before && e.addr <= addr && addr + size < e.End()
      requires Rest(before, list, e, addr)
      modifies this, ad
      ensures Valid() && (if memory then Rest(before, list, e, addr + size) else Rest(before, list, e, addr))
      ensures forall n <- ad :: n in old(ad) || fresh(n)
    {
      ghost var block := Extent(addr, size);
      assert !BeginsAt(list, addr + size) by {
        NothingAt(list, addr + size);
      }
      Record(addr, size, memory);
      forall x: nat | addr <= x < addr + size ensures In(before, x) {
        var i :| 0 <= i < |before| && before[i] == e;
        assert before[i].Has(x);
      }
    }

    lemma BestOfTree(node: Node?, size: nat)
      requires Valid() && (node != null ==> node in szad && node.size >= size)
      requires node == null ==> forall n <- szad :: n.size < size
      requires node != null ==> forall n <- szad :: n.size >= size ==> n == node || Less(node.Value(), n.Value())
      ensures node == null <==> forall e <- list :: e.size < size
      ensures node != null ==> Best(node.Value(), list, size)
    {
      forall e | e in list ensures exists n <- szad :: n.Value() == e {
        var i: nat :| i < |list| && list[i] == e;
        assert ad[i].Value() == e && ad[i] in ad;
      }
      if node != null {
        var i: nat :| i < |ad| && ad[i] == node;
        assert list[i] == node.Value();
      }
    }

    /** The block is cut out of the extent at k. */
    method TakeBlock(k: nat, addr: nat, size: nat, memory: bool) returns (ok: bool)
      requires Valid() && k < |ad| && size > 0 && list[k].addr <= addr && addr + size <= list[k].End()
      modifies this, ad[k]
      ensures forall n <- ad :: n in old(ad) || fresh(n)
      ensures Valid() && (ok <==> memory || !Between(Extent(addr, size), old(list)[k]))
      ensures if ok then Without(list, old(list), Extent(addr, size)) else Rest(old(list), list, old(list)[k], addr)
    {
      var node := ad[k];
      ghost var before, e := list, list[k];
      ghost var nodes := ad;
      OnePlace(0, k);
      DropSpread(list, k);
      TakeOut(k, 0);
      forall f: Extent | e.addr <= f.addr && f.End() <= e.End() && f.size > 0 ensures Roomy(list, f) {
        GapRoomy(before, k, f);
      }
      forall i | 0 <= i < |ad| ensures ad[i] != node {
        assert ad[i] == nodes[if i < k then i else i + 1];
      }
      ok := PutBack(node, node.Value(), Extent(addr, size), memory);
      forall x ensures before[k].Has(x) ==> In(before, x) {
      }
    }

    // -------------------------------------------------------------- both together

    /** With memory for nodes, giving a recycled block back restores the extents, however it was cut and
        coalesced. */
    method RecycleAndRecord(size: nat, alignment: nat, memory: bool)
      requires Valid() && size > 0 && alignment > 0
      modifies this, ad
      ensures Valid() && (memory ==> list == old(list))
    {
      var ret := Recycle(size, alignment, memory, false, memory);
      if ret.Some? {
        forall i | 0 <= i < |ad| ensures ad[i] in old(ad) || fresh(ad[i]) {
          assert ad[i] in ad;
        }
        Record(ret.value, size, memory);
        if memory {
          SameSpace(list, old(list));
        }
      }
    }
  }

  /** No extent begins where nothing is free. */
  lemma NothingAt(list: seq<Extent>, x: nat)
    requires Spread(list) && !In(list, x)
    ensures !BeginsAt(list, x)
  {
    forall i | 0 <= i < |list| ensures list[i].addr != x {
      assert !list[i].Has(x);
    }
  }

  lemma NoneBegins(list: seq<Extent>, k: nat, addr: nat)
    requires Spread(list) && k <= |list| && (forall i :: 0 <= i < k ==> list[i].addr < addr)
    requires k < |list| ==> list[k].addr > addr
    ensures !BeginsAt(list, addr)
  {
    forall i | k <= i < |list| ensures list[i].addr != addr {
      assert Before(list, k, i, 0);
    }
  }

  ghost predicate Inside(block: Extent, e: Extent) {
    e.addr <= block.addr && block.End() <= e.End()
  }

  /** The smallest extent of at least that size, the lowest of these. */
  ghost predicate Best(e: Extent, list: seq<Extent>, size: nat) {
    e in list && e.size >= size && forall f <- list :: f.size >= size ==> f == e || Less(e, f)
  }
}
