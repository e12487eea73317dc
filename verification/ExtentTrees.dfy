/** The two trees of extent nodes (deps/jemalloc/src/extent.c), as sequences in the order of their
    comparison functions, and the operations of a tree on them. */
module ExtentTrees {
  import opened ExtentLists

  /** extent_node_t */
  class Node {
    var addr: nat
    var size: nat

    constructor (addr: nat, size: nat)
      ensures this.addr == addr && this.size == size
    {
      this.addr, this.size := addr, size;
    }

    function Value(): Extent
      reads this
    {
      Extent(addr, size)
    }
  }

  type Tree = seq<Node>

  /** The tree is ordered by size and address, as it must be for searching it. */
  ghost predicate BySize(t: Tree)
    reads t
  {
    forall i: nat, j: nat {:trigger InOrder(t, i, j)} :: InOrder(t, i, j)
  }

  ghost predicate InOrder(t: Tree, i: nat, j: nat)
    reads t
  {
    i < j < |t| ==> Less(t[i].Value(), t[j].Value())
  }

  /** extent_tree_szad_insert */
  method Insert(t: Tree, node: Node) returns (t': Tree)
    requires BySize(t) && forall n <- t :: n.Value() != node.Value()
    ensures BySize(t') && forall n :: n in t' <==> n in t || n == node
  {
    var k := 0;
    while k < |t| && Less(t[k].Value(), node.Value())
      invariant k <= |t| && forall i :: 0 <= i < k ==> Less(t[i].Value(), node.Value())
    {
      k := k + 1;
    }
    t' := t[..k] + [node] + t[k..];
    InsertOrder(t, k, node);
  }

  lemma InsertOrder(t: Tree, k: nat, node: Node)
    requires BySize(t) && k <= |t| && forall n <- t :: n.Value() != node.Value()
    requires forall i :: 0 <= i < k ==> Less(t[i].Value(), node.Value())
    requires k < |t| ==> !Less(t[k].Value(), node.Value())
    ensures BySize(t[..k] + [node] + t[k..])
  {
    var t' := t[..k] + [node] + t[k..];
    forall i: nat, j: nat {:trigger InOrder(t', i, j)} ensures InOrder(t', i, j) {
      if i < j < |t'| {
        assert i != k && j != k ==> InOrder(t, if i < k then i else i - 1, if j < k then j else j - 1);
        assert i == k ==> InOrder(t, k, j - 1) && t[k] in t;
      }
    }
  }

  /** extent_tree_szad_remove: the node is found by its key. */
  method Remove(t: Tree, node: Node) returns (t': Tree)
    requires BySize(t) && node in t
    ensures BySize(t') && forall n :: n in t' <==> n in t && n != node
  {
    ghost var at :| 0 <= at < |t| && t[at] == node;
    var k := 0;
    while Less(t[k].Value(), node.Value())
      invariant k <= at
      decreases |t| - k
    {
      k := k + 1;
    }
    assert InOrder(t, k, at) && InOrder(t, at, k);
    t' := t[..k] + t[k + 1..];
    RemoveOrder(t, k);
  }

  lemma RemoveOrder(t: Tree, k: nat)
    requires BySize(t) && k < |t|
    ensures BySize(t[..k] + t[k + 1..])
    ensures forall n :: n in t[..k] + t[k + 1..] <==> n in t && n != t[k]
  {
    var t' := t[..k] + t[k + 1..];
    forall i: nat, j: nat {:trigger InOrder(t', i, j)} ensures InOrder(t', i, j) {
      assert InOrder(t, if i < k then i else i + 1, if j < k then j else j + 1);
    }
    forall n ensures n in t' <==> n in t && n != t[k] {
      if n in t' {
        var i :| 0 <= i < |t'| && t'[i] == n;
        var j := if i < k then i else i + 1;
        assert t[j] == n && InOrder(t, j, k) && InOrder(t, k, j);
      }
      if n in t && n != t[k] {
        var i :| 0 <= i < |t| && t[i] == n;
        assert t'[if i < k then i else i - 1] == n;
      }
    }
  }

  /** extent_tree_szad_nsearch for a size: the smallest extent of at least that size, the lowest of these. */
  method SearchSize(t: Tree, size: nat) returns (node: Node?)
    requires BySize(t)
    ensures node == null <==> forall n <- t :: n.size < size
    ensures node != null ==> node in t && node.size >= size
    ensures node != null ==> forall n <- t :: n.size >= size ==> n == node || Less(node.Value(), n.Value())
  {
    var k := 0;
    while k < |t| && Less(t[k].Value(), Extent(0, size))
      invariant k <= |t| && forall i :: 0 <= i < k ==> t[i].size < size
    {
      k := k + 1;
    }
    if k == |t| {
      return null;
    }
    node := t[k];
    forall n | n in t && n.size >= size ensures n == node || Less(node.Value(), n.Value()) {
      var i: nat :| i < |t| && t[i] == n;
      assert InOrder(t, k, i);
    }
  }
}
