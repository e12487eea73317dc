/** What a HyperLogLog of src/hyperloglog.c stands for: 16384 registers, each holding the longest
    pattern 0...01 among the hashes of the elements that fall on it. */
module HllRegisters {
  import opened HllPattern

  /** A register holds HLL_BITS bits. */
  const REGISTER_MAX: Byte := 63

  ghost predicate IsRegisters(r: seq<Byte>) {
    |r| == REGISTERS && forall i :: 0 <= i < REGISTERS ==> r[i] <= REGISTER_MAX
  }

  /** Where each element falls: hllPatLen after any hash function. */
  type Places = Element -> Place

  ghost predicate Fits(at: Places) {
    forall e :: at(e).index < REGISTERS && 1 <= at(e).count <= REGISTER_MAX
  }

  // ---------------------------------------------------------------- the registers of a set of elements

  /** Register i is the longest pattern of the elements of s with index i, or 0. */
  ghost predicate SketchAt(r: Byte, i: nat, at: Places, s: set<Element>) {
    && Bounded(r, i, at, s)
    && (r == 0 || Attained(r, i, at, s))
  }

  ghost predicate Bounded(r: Byte, i: nat, at: Places, s: set<Element>) {
    forall e <- s :: at(e).index == i ==> at(e).count <= r
  }

  ghost predicate Attained(r: Byte, i: nat, at: Places, s: set<Element>) {
    exists e :: e in s && at(e).index == i && at(e).count == r
  }

  lemma AttainedMore(r: Byte, i: nat, at: Places, s: set<Element>, t: set<Element>)
    requires Attained(r, i, at, s) && s <= t
    ensures Attained(r, i, at, t)
  {
  }

  ghost predicate Sketch(r: seq<Byte>, at: Places, s: set<Element>) {
    |r| == REGISTERS && forall i :: 0 <= i < REGISTERS ==> SketchAt(r[i], i, at, s)
  }

  function Max(a: Byte, b: Byte): Byte {
    if a < b then b else a
  }

  /** The registers after one element. */
  function Raise(r: seq<Byte>, i: nat, c: Byte): (r': seq<Byte>)
    requires i < |r|
  {
    r[i := Max(r[i], c)]
  }

  function MaxAll(a: seq<Byte>, b: seq<Byte>): (r: seq<Byte>)
    requires |a| == |b|
  {
    seq(|a|, i requires 0 <= i < |a| => Max(a[i], b[i]))
  }

  /** A sketch has values that fit a register. */
  lemma SketchFits(r: seq<Byte>, at: Places, s: set<Element>)
    requires Sketch(r, at, s) && Fits(at)
    ensures IsRegisters(r)
  {
    forall i | 0 <= i < REGISTERS ensures r[i] <= REGISTER_MAX {
      assert SketchAt(r[i], i, at, s);
    }
  }

  lemma SketchAtUnique(x: Byte, y: Byte, i: nat, at: Places, s: set<Element>)
    requires SketchAt(x, i, at, s) && SketchAt(y, i, at, s) && Fits(at)
    ensures x == y
  {
  }

  /** The set of elements alone determines the registers: neither order, repeats nor
      representation matter. */
  lemma SketchUnique(a: seq<Byte>, b: seq<Byte>, at: Places, s: set<Element>)
    requires Sketch(a, at, s) && Sketch(b, at, s) && Fits(at)
    ensures a == b
  {
    forall i | 0 <= i < REGISTERS ensures a[i] == b[i] {
      SketchAtUnique(a[i], b[i], i, at, s);
    }
  }

  lemma SketchEmpty(r: seq<Byte>, at: Places)
    requires |r| == REGISTERS && forall i :: 0 <= i < REGISTERS ==> r[i] == 0
    ensures Sketch(r, at, {})
  {
  }

  lemma SketchAtRaise(x: Byte, i: nat, at: Places, s: set<Element>, e: Element)
    requires SketchAt(x, i, at, s)
    ensures SketchAt(if i == at(e).index then Max(x, at(e).count) else x, i, at, s + {e})
  {
    var y := if i == at(e).index then Max(x, at(e).count) else x;
    if y == x {
      if x != 0 {
        AttainedMore(x, i, at, s, s + {e});
      }
    } else {
      assert e in s + {e};
    }
  }

  /** Adding an element raises its register to at least its pattern length. */
  lemma SketchRaise(r: seq<Byte>, at: Places, s: set<Element>, e: Element)
    requires Sketch(r, at, s) && at(e).index < REGISTERS
    ensures Sketch(Raise(r, at(e).index, at(e).count), at, s + {e})
  {
    forall i | 0 <= i < REGISTERS ensures SketchAt(Raise(r, at(e).index, at(e).count)[i], i, at, s + {e}) {
      SketchAtRaise(r[i], i, at, s, e);
    }
  }

  lemma MaxBounds(a: Byte, b: Byte)
    ensures a <= Max(a, b) && b <= Max(a, b)
  {
  }

  lemma BoundedUp(x: Byte, z: Byte, i: nat, at: Places, s: set<Element>)
    requires Bounded(x, i, at, s) && x <= z
    ensures Bounded(z, i, at, s)
  {
  }

  lemma BoundedUnion(z: Byte, i: nat, at: Places, s: set<Element>, t: set<Element>)
    requires Bounded(z, i, at, s) && Bounded(z, i, at, t)
    ensures Bounded(z, i, at, s + t)
  {
  }

  lemma BoundedMerge(x: Byte, y: Byte, i: nat, at: Places, s: set<Element>, t: set<Element>)
    requires Bounded(x, i, at, s) && Bounded(y, i, at, t)
    ensures Bounded(Max(x, y), i, at, s + t)
  {
    MaxBounds(x, y);
    BoundedUp(x, Max(x, y), i, at, s);
    BoundedUp(y, Max(x, y), i, at, t);
    BoundedUnion(Max(x, y), i, at, s, t);
  }

  lemma AttainedMerge(x: Byte, y: Byte, i: nat, at: Places, s: set<Element>, t: set<Element>)
    requires x == 0 || Attained(x, i, at, s)
    requires y == 0 || Attained(y, i, at, t)
    ensures Max(x, y) == 0 || Attained(Max(x, y), i, at, s + t)
  {
    if x < y {
      AttainedMore(y, i, at, t, s + t);
    } else if x != 0 {
      AttainedMore(x, i, at, s, s + t);
    }
  }

  lemma SketchAtMerge(x: Byte, y: Byte, i: nat, at: Places, s: set<Element>, t: set<Element>)
    requires SketchAt(x, i, at, s) && SketchAt(y, i, at, t)
    ensures SketchAt(Max(x, y), i, at, s + t)
  {
    BoundedMerge(x, y, i, at, s, t);
    AttainedMerge(x, y, i, at, s, t);
  }

  /** The register-wise maximum of two sketches is the sketch of the union. */
  lemma SketchMerge(a: seq<Byte>, b: seq<Byte>, at: Places, s: set<Element>, t: set<Element>)
    requires Sketch(a, at, s) && Sketch(b, at, t)
    ensures Sketch(MaxAll(a, b), at, s + t)
  {
    forall i | 0 <= i < REGISTERS ensures SketchAt(MaxAll(a, b)[i], i, at, s + t) {
      SketchAtMerge(a[i], b[i], i, at, s, t);
    }
  }
}
