/** Partial quicksort (src/pqsort.c): Bentley-McIlroy three-way partitioning that skips the
    parts of the array that do not meet the wanted range of positions.

    Pointers into the C array become element indices: `a + k * es` is `k`, and the byte range
    [lrange, rrange] of _pqsort covers whole elements, so its comparisons against the byte
    range of a part are the index comparisons of `Disjoint`.
 */
module Pqsort {

  // ---------------------------------------------------------------- orders

  /** What the C library demands of a comparison function: a total preorder. */
  ghost predicate TotalPreorder<T(!new)>(cmp: (T, T) -> int) {
    Flips(cmp) && Transitive(cmp)
  }

  ghost predicate Flips<T(!new)>(cmp: (T, T) -> int) {
    forall x, y :: cmp(x, y) < 0 <==> cmp(y, x) > 0
  }

  ghost predicate Transitive<T(!new)>(cmp: (T, T) -> int) {
    forall x, y, z :: Chained(cmp, x, y, z)
  }

  ghost predicate Chained<T>(cmp: (T, T) -> int, x: T, y: T, z: T) {
    cmp(x, y) <= 0 && cmp(y, z) <= 0 ==> cmp(x, z) <= 0
  }

  ghost predicate Sorted<T>(cmp: (T, T) -> int, s: seq<T>, lo: nat, hi: nat) {
    hi <= |s| && forall i, j :: lo <= i < j < hi ==> cmp(s[i], s[j]) <= 0
  }

  /** Position k of [lo, hi) holds an element that sorting [lo, hi) could put there: nothing
      before it is larger and nothing after it is smaller. */
  ghost predicate FinalAt<T>(cmp: (T, T) -> int, s: seq<T>, lo: nat, hi: nat, k: nat) {
    && lo <= k < hi <= |s|
    && (forall i :: lo <= i < k ==> cmp(s[i], s[k]) <= 0)
    && (forall j :: k < j < hi ==> cmp(s[k], s[j]) <= 0)
  }

  /** Every position of [lo, hi) that lies in the wanted range is final. */
  ghost predicate FinalIn<T>(cmp: (T, T) -> int, s: seq<T>, lo: nat, hi: nat, lrange: int, rrange: int) {
    hi <= |s| && forall k :: lo <= k < hi && lrange <= k <= rrange ==> FinalAt(cmp, s, lo, hi, k)
  }

  // ---------------------------------------------------------------- permutations

  function Swapped<T>(s: seq<T>, i: nat, j: nat): (t: seq<T>)
    requires i < |s| && j < |s|
  {
    s[i := s[j]][j := s[i]]
  }

  ghost predicate SwapsIn(swaps: seq<(nat, nat)>, lo: nat, hi: nat) {
    forall p <- swaps :: lo <= p.0 < hi && lo <= p.1 < hi
  }

  ghost function Applied<T>(s: seq<T>, swaps: seq<(nat, nat)>): (t: seq<T>)
    requires SwapsIn(swaps, 0, |s|)
    ensures |t| == |s|
  {
    if swaps == [] then s else
      var last := |swaps| - 1;
      Swapped(Applied(s, swaps[..last]), swaps[last].0, swaps[last].1)
  }

  /** `t` comes from `s` by exchanging elements at positions of [lo, hi). */
  ghost predicate PermutedIn<T>(s: seq<T>, t: seq<T>, lo: nat, hi: nat) {
    exists swaps :: Rearranges(swaps, s, t, lo, hi)
  }

  ghost predicate Rearranges<T>(swaps: seq<(nat, nat)>, s: seq<T>, t: seq<T>, lo: nat, hi: nat) {
    lo <= hi <= |s| && SwapsIn(swaps, lo, hi) && t == Applied(s, swaps)
  }

  lemma PermutedSelf<T>(s: seq<T>, lo: nat, hi: nat)
    requires lo <= hi <= |s|
    ensures PermutedIn(s, s, lo, hi)
  {
    assert Rearranges([], s, s, lo, hi);
  }

  lemma PermutedSwap<T>(s: seq<T>, t: seq<T>, lo: nat, hi: nat, i: nat, j: nat)
    requires PermutedIn(s, t, lo, hi)
    requires lo <= i < hi && lo <= j < hi
    ensures PermutedIn(s, Swapped(t, i, j), lo, hi)
  {
    var swaps :| Rearranges(swaps, s, t, lo, hi);
    var more := swaps + [(i, j)];
    assert more[..|swaps|] == swaps;
    assert Rearranges(more, s, Swapped(t, i, j), lo, hi);
  }

  lemma {:induction false} AppliedConcat<T>(s: seq<T>, p: seq<(nat, nat)>, q: seq<(nat, nat)>)
    requires SwapsIn(p, 0, |s|) && SwapsIn(q, 0, |s|)
    ensures SwapsIn(p + q, 0, |s|) && Applied(s, p + q) == Applied(Applied(s, p), q)
  {
    if q == [] {
      assert p + q == p;
    } else {
      var last := |q| - 1;
      AppliedConcat(s, p, q[..last]);
      assert (p + q)[..|p| + last] == p + q[..last];
    }
  }

  lemma PermutedTransitive<T>(s: seq<T>, t: seq<T>, u: seq<T>, lo: nat, hi: nat)
    requires PermutedIn(s, t, lo, hi) && PermutedIn(t, u, lo, hi)
    ensures PermutedIn(s, u, lo, hi)
  {
    var p :| Rearranges(p, s, t, lo, hi);
    var q :| Rearranges(q, t, u, lo, hi);
    AppliedConcat(s, p, q);
    assert Rearranges(p + q, s, u, lo, hi);
  }

  lemma PermutedWiden<T>(s: seq<T>, t: seq<T>, lo: nat, hi: nat, lo': nat, hi': nat)
    requires lo' <= lo && hi <= hi' <= |s|
    requires PermutedIn(s, t, lo, hi)
    ensures PermutedIn(s, t, lo', hi')
  {
    var p :| Rearranges(p, s, t, lo, hi);
    assert Rearranges(p, s, t, lo', hi');
  }

  /** Every element has a source position; positions outside [lo, hi) keep their element,
      and what is inside comes from inside. */
  lemma {:induction false} AppliedElements<T>(s: seq<T>, swaps: seq<(nat, nat)>, lo: nat, hi: nat)
    requires lo <= hi <= |s| && SwapsIn(swaps, lo, hi)
    ensures forall k :: 0 <= k < lo || hi <= k < |s| ==> Applied(s, swaps)[k] == s[k]
    ensures forall k :: lo <= k < hi ==> Applied(s, swaps)[k] in s[lo..hi]
  {
    if swaps != [] {
      var last := |swaps| - 1;
      AppliedElements(s, swaps[..last], lo, hi);
      var t := Applied(s, swaps[..last]);
      assert lo <= swaps[last].0 < hi && lo <= swaps[last].1 < hi;
      assert Applied(s, swaps) == Swapped(t, swaps[last].0, swaps[last].1);
    } else {
      forall k | lo <= k < hi ensures s[k] in s[lo..hi] {
        assert s[lo..hi][k - lo] == s[k];
      }
    }
  }

  lemma PermutedElements<T>(s: seq<T>, t: seq<T>, lo: nat, hi: nat)
    requires PermutedIn(s, t, lo, hi)
    ensures |t| == |s|
    ensures forall k :: 0 <= k < lo || hi <= k < |s| ==> t[k] == s[k]
    ensures forall k :: lo <= k < hi ==> t[k] in s[lo..hi]
  {
    var swaps :| Rearranges(swaps, s, t, lo, hi);
    AppliedElements(s, swaps, lo, hi);
  }

  lemma {:induction false} AppliedMultiset<T>(s: seq<T>, swaps: seq<(nat, nat)>)
    requires SwapsIn(swaps, 0, |s|)
    ensures multiset(Applied(s, swaps)) == multiset(s)
  {
    if swaps != [] {
      var last := |swaps| - 1;
      AppliedMultiset(s, swaps[..last]);
      assert swaps[last].0 < |s| && swaps[last].1 < |s|;
    }
  }

  lemma PermutedMultiset<T>(s: seq<T>, t: seq<T>, lo: nat, hi: nat)
    requires PermutedIn(s, t, lo, hi)
    ensures multiset(t) == multiset(s)
  {
    var swaps :| Rearranges(swaps, s, t, lo, hi);
    AppliedMultiset(s, swaps);
  }

  // ---------------------------------------------------------------- building blocks

  method Swap<T>(a: array<T>, i: nat, j: nat)
    requires i < a.Length && j < a.Length
    modifies a
    ensures a[..] == Swapped(old(a[..]), i, j)
  {
    a[i], a[j] := a[j], a[i];
  }

  /** The effect of exchanging the r-element blocks at i and j, one element at a time. */
  function VecSwapped<T>(s: seq<T>, i: nat, j: nat, r: nat): (t: seq<T>)
    requires i + r <= j && j + r <= |s|
    ensures |t| == |s|
  {
    if r == 0 then s else Swapped(VecSwapped(s, i, j, r - 1), i + r - 1, j + r - 1)
  }

  lemma {:induction false} VecSwapPermutes<T>(s: seq<T>, i: nat, j: nat, r: nat, lo: nat, hi: nat)
    requires lo <= i && i + r <= j && j + r <= hi <= |s|
    ensures PermutedIn(s, VecSwapped(s, i, j, r), lo, hi)
  {
    if r == 0 {
      PermutedSelf(s, lo, hi);
    } else {
      VecSwapPermutes(s, i, j, r - 1, lo, hi);
      PermutedSwap(s, VecSwapped(s, i, j, r - 1), lo, hi, i + r - 1, j + r - 1);
    }
  }

  lemma {:induction false} VecSwapExchanges<T>(s: seq<T>, i: nat, j: nat, r: nat)
    requires i + r <= j && j + r <= |s|
    ensures var t := VecSwapped(s, i, j, r);
            && (forall k :: i <= k < i + r ==> t[k] == s[k + (j - i)])
            && (forall k :: j <= k < j + r ==> t[k] == s[k - (j - i)])
            && (forall k :: 0 <= k < i || i + r <= k < j || j + r <= k < |s| ==> t[k] == s[k])
  {
    if r > 0 {
      VecSwapExchanges(s, i, j, r - 1);
      var u := VecSwapped(s, i, j, r - 1);
      assert u[i + r - 1] == s[i + r - 1] && u[j + r - 1] == s[j + r - 1];
    }
  }

  method VecSwap<T>(a: array<T>, i: nat, j: nat, r: nat)
    requires i + r <= j && j + r <= a.Length
    modifies a
    ensures a[..] == VecSwapped(old(a[..]), i, j, r)
  {
    ghost var s := a[..];
    var m := 0;
    while m < r
      invariant 0 <= m <= r
      invariant a[..] == VecSwapped(s, i, j, m)
    {
      Swap(a, i + m, j + m);
      m := m + 1;
    }
  }

  /** The index of the median of three elements. */
  function Med3<T>(cmp: (T, T) -> int, s: seq<T>, a: nat, b: nat, c: nat): (m: nat)
    requires a < |s| && b < |s| && c < |s|
    ensures m == a || m == b || m == c
  {
    if cmp(s[a], s[b]) < 0 then
      (if cmp(s[b], s[c]) < 0 then b else if cmp(s[a], s[c]) < 0 then c else a)
    else
      (if cmp(s[b], s[c]) > 0 then b else if cmp(s[a], s[c]) < 0 then a else c)
  }

  /** Med3 names an element that lies between the other two. */
  lemma Med3IsMedian<T(!new)>(cmp: (T, T) -> int, s: seq<T>, a: nat, b: nat, c: nat)
    requires Flips(cmp)
    requires a < |s| && b < |s| && c < |s|
    ensures var m := Med3(cmp, s, a, b, c);
            exists x, y :: multiset{x, m, y} == multiset{a, b, c} && x < |s| && y < |s| && x >= 0 && y >= 0 &&
                           cmp(s[x], s[m]) <= 0 && cmp(s[m], s[y]) <= 0
  {
    var m := Med3(cmp, s, a, b, c);
    var x, y := if m == a then b else a, if m == a || m == b then c else b;
    assert multiset{x, m, y} == multiset{a, b, c};
    assert multiset{y, m, x} == multiset{a, b, c};
    assert (cmp(s[x], s[m]) <= 0 && cmp(s[m], s[y]) <= 0) || (cmp(s[y], s[m]) <= 0 && cmp(s[m], s[x]) <= 0);
  }

  // ---------------------------------------------------------------- insertion sort

  /** [lo, pm] is sorted except that the element at pl may be too small for its place. */
  ghost predicate SortedBut<T>(cmp: (T, T) -> int, s: seq<T>, lo: nat, pm: nat, pl: nat) {
    lo <= pl <= pm < |s| && forall i, j :: lo <= i < j <= pm && j != pl ==> cmp(s[i], s[j]) <= 0
  }

  lemma SlideDown<T(!new)>(cmp: (T, T) -> int, s: seq<T>, lo: nat, pm: nat, pl: nat)
    requires Flips(cmp) && SortedBut(cmp, s, lo, pm, pl)
    requires lo < pl && cmp(s[pl - 1], s[pl]) > 0
    ensures SortedBut(cmp, Swapped(s, pl, pl - 1), lo, pm, pl - 1)
  {
  }

  lemma SlideEnds<T(!new)>(cmp: (T, T) -> int, s: seq<T>, lo: nat, pm: nat, pl: nat)
    requires Transitive(cmp) && SortedBut(cmp, s, lo, pm, pl)
    requires pl == lo || cmp(s[pl - 1], s[pl]) <= 0
    ensures Sorted(cmp, s, lo, pm + 1)
  {
    forall i | lo <= i < pl ensures cmp(s[i], s[pl]) <= 0 {
      assert i < pl - 1 ==> Chained(cmp, s[i], s[pl - 1], s[pl]);
    }
  }

  /** Move the element at pm down to its place, which is pl, among the sorted elements before it. */
  method Insert<T(!new)>(a: array<T>, lo: nat, pm: nat, cmp: (T, T) -> int, ghost hi: nat)
    returns (ghost pl: nat)
    requires Flips(cmp)
    requires lo <= pm < hi <= a.Length
    requires SortedBut(cmp, a[..], lo, pm, pm)
    modifies a
    ensures PermutedIn(old(a[..]), a[..], lo, hi)
    ensures SortedBut(cmp, a[..], lo, pm, pl)
    ensures pl == lo || cmp(a[pl - 1], a[pl]) <= 0
  {
    var p: nat := pm;
    PermutedSelf(a[..], lo, hi);
    while p > lo && cmp(a[p - 1], a[p]) > 0
      invariant SortedBut(cmp, a[..], lo, pm, p)
      invariant PermutedIn(old(a[..]), a[..], lo, hi)
    {
      ghost var s := a[..];
      assert cmp(s[p - 1], s[p]) > 0;
      SlideDown(cmp, s, lo, pm, p);
      PermutedSwap(old(a[..]), s, lo, hi, p, p - 1);
      Swap(a, p, p - 1);
      p := p - 1;
    }
    pl := p;
  }

  /** The insertion sort used for fewer than seven elements. */
  method InsertionSort<T(!new)>(a: array<T>, lo: nat, n: nat, cmp: (T, T) -> int)
    requires TotalPreorder(cmp)
    requires lo + n <= a.Length
    modifies a
    ensures PermutedIn(old(a[..]), a[..], lo, lo + n)
    ensures Sorted(cmp, a[..], lo, lo + n)
  {
    var pm := lo + 1;
    PermutedSelf(a[..], lo, lo + n);
    while pm < lo + n
      invariant lo + 1 <= pm && (lo + n < pm ==> n == 0)
      invariant PermutedIn(old(a[..]), a[..], lo, lo + n)
      invariant pm <= lo + n ==> Sorted(cmp, a[..], lo, pm)
    {
      ghost var t := a[..];
      ghost var pl := Insert(a, lo, pm, cmp, lo + n);
      SlideEnds(cmp, a[..], lo, pm, pl);
      PermutedTransitive(old(a[..]), t, a[..], lo, lo + n);
      pm := pm + 1;
    }
  }

  // ---------------------------------------------------------------- partitioning

  /** The state of the partitioning loop: the pivot sits at lo and the elements compare as
      [lo, pa) equal, [pa, pb) smaller, [pb, pc] not yet seen, (pc, pd] larger, (pd, hi) equal. */
  ghost predicate Parting<T>(cmp: (T, T) -> int, s: seq<T>, lo: nat, hi: nat, pa: nat, pb: nat, pc: nat, pd: nat) {
    && lo < pa <= pb <= pc + 1
    && pc <= pd < hi <= |s|
    && (forall k :: lo <= k < pa ==> cmp(s[k], s[lo]) == 0)
    && (forall k :: pa <= k < pb ==> cmp(s[k], s[lo]) < 0)
    && (forall k :: pc < k <= pd ==> cmp(s[k], s[lo]) > 0)
    && (forall k :: pd < k < hi ==> cmp(s[k], s[lo]) == 0)
  }

  lemma EqualFromLeft<T>(cmp: (T, T) -> int, s: seq<T>, lo: nat, hi: nat, pa: nat, pb: nat, pc: nat, pd: nat)
    requires Parting(cmp, s, lo, hi, pa, pb, pc, pd) && pb <= pc && cmp(s[pb], s[lo]) == 0
    ensures Parting(cmp, Swapped(s, pa, pb), lo, hi, pa + 1, pb + 1, pc, pd)
  {
  }

  lemma EqualFromRight<T>(cmp: (T, T) -> int, s: seq<T>, lo: nat, hi: nat, pa: nat, pb: nat, pc: nat, pd: nat)
    requires Parting(cmp, s, lo, hi, pa, pb, pc, pd) && pb <= pc && cmp(s[pc], s[lo]) == 0
    ensures Parting(cmp, Swapped(s, pc, pd), lo, hi, pa, pb, pc - 1, pd - 1)
  {
  }

  /** Lines 131-137: advance pb over elements that are not larger than the pivot. */
  method ScanUp<T(!new)>(a: array<T>, lo: nat, ghost hi: nat, pa0: nat, pb0: nat, pc: nat, ghost pd: nat,
                         cmp: (T, T) -> int)
    returns (pa: nat, pb: nat)
    requires Parting(cmp, a[..], lo, hi, pa0, pb0, pc, pd)
    modifies a
    ensures PermutedIn(old(a[..]), a[..], lo, hi) && a[lo] == old(a[lo])
    ensures Parting(cmp, a[..], lo, hi, pa, pb, pc, pd)
    ensures pb <= pc ==> cmp(a[pb], a[lo]) > 0
    ensures pb0 <= pb
  {
    pa, pb := pa0, pb0;
    PermutedSelf(a[..], lo, hi);
    while pb <= pc && cmp(a[pb], a[lo]) <= 0
      invariant Parting(cmp, a[..], lo, hi, pa, pb, pc, pd) && pb0 <= pb
      invariant PermutedIn(old(a[..]), a[..], lo, hi) && a[lo] == old(a[lo])
      decreases pc + 1 - pb
    {
      if cmp(a[pb], a[lo]) == 0 {
        EqualFromLeft(cmp, a[..], lo, hi, pa, pb, pc, pd);
        PermutedSwap(old(a[..]), a[..], lo, hi, pa, pb);
        Swap(a, pa, pb);
        pa := pa + 1;
      }
      pb := pb + 1;
    }
  }

  /** Lines 138-144: retreat pc over elements that are not smaller than the pivot, until an
      element is found for the larger element at pb to change places with. */
  method ScanDown<T(!new)>(a: array<T>, lo: nat, ghost hi: nat, ghost pa: nat, pb: nat, pc0: nat, pd0: nat,
                           cmp: (T, T) -> int)
    returns (pc: nat, pd: nat)
    requires Parting(cmp, a[..], lo, hi, pa, pb, pc0, pd0)
    requires pb <= pc0 ==> cmp(a[pb], a[lo]) > 0
    modifies a
    ensures PermutedIn(old(a[..]), a[..], lo, hi) && a[lo] == old(a[lo])
    ensures Parting(cmp, a[..], lo, hi, pa, pb, pc, pd)
    ensures pb <= pc ==> pb < pc && cmp(a[pb], a[lo]) > 0 && cmp(a[pc], a[lo]) < 0
    ensures pc <= pc0
  {
    pc, pd := pc0, pd0;
    PermutedSelf(a[..], lo, hi);
    while pb <= pc && cmp(a[pc], a[lo]) >= 0
      invariant Parting(cmp, a[..], lo, hi, pa, pb, pc, pd) && pc <= pc0
      invariant pb <= pc ==> cmp(a[pb], a[lo]) > 0
      invariant PermutedIn(old(a[..]), a[..], lo, hi) && a[lo] == old(a[lo])
      decreases pc
    {
      if cmp(a[pc], a[lo]) == 0 {
        ghost var s := a[..];
        EqualFromRight(cmp, s, lo, hi, pa, pb, pc, pd);
        PermutedSwap(old(a[..]), s, lo, hi, pc, pd);
        Swap(a, pc, pd);
        pd := pd - 1;
      }
      pc := pc - 1;
    }
  }

  /** The result of partitioning around v: [lo, l) smaller, [l, g) equal, [g, hi) larger. */
  ghost predicate ThreeWay<T>(cmp: (T, T) -> int, s: seq<T>, lo: nat, l: nat, g: nat, hi: nat, v: T) {
    && lo <= l < g <= hi <= |s|
    && (forall k :: lo <= k < l ==> cmp(s[k], v) < 0)
    && (forall k :: l <= k < g ==> cmp(s[k], v) == 0)
    && (forall k :: g <= k < hi ==> cmp(s[k], v) > 0)
  }

  function Min(x: int, y: int): int { if x < y then x else y }

  /** Lines 153-154: moving the equal elements of the left end next to the middle. */
  lemma CloseLeft<T>(cmp: (T, T) -> int, s: seq<T>, lo: nat, pa: nat, pb: nat, v: T, r: nat, t: seq<T>)
    requires lo <= pa <= pb <= |s|
    requires forall k :: lo <= k < pa ==> cmp(s[k], v) == 0
    requires forall k :: pa <= k < pb ==> cmp(s[k], v) < 0
    requires r == Min(pa - lo, pb - pa) && t == VecSwapped(s, lo, pb - r, r)
    ensures |t| == |s|
    ensures forall k :: lo <= k < lo + (pb - pa) ==> cmp(t[k], v) < 0
    ensures forall k :: lo + (pb - pa) <= k < pb ==> cmp(t[k], v) == 0
    ensures forall k :: pb <= k < |s| ==> t[k] == s[k]
  {
    VecSwapExchanges(s, lo, pb - r, r);
  }

  /** Lines 155-156: moving the equal elements of the right end next to the middle. */
  lemma CloseRight<T>(cmp: (T, T) -> int, s: seq<T>, pb: nat, pe: nat, hi: nat, v: T, r: nat, t: seq<T>)
    requires pb <= pe <= hi <= |s|
    requires forall k :: pb <= k < pe ==> cmp(s[k], v) > 0
    requires forall k :: pe <= k < hi ==> cmp(s[k], v) == 0
    requires r == Min(pe - pb, hi - pe) && t == VecSwapped(s, pb, hi - r, r)
    ensures |t| == |s|
    ensures forall k :: 0 <= k < pb ==> t[k] == s[k]
    ensures forall k :: pb <= k < hi - (pe - pb) ==> cmp(t[k], v) == 0
    ensures forall k :: hi - (pe - pb) <= k < hi ==> cmp(t[k], v) > 0
  {
    VecSwapExchanges(s, pb, hi - r, r);
  }

  lemma Exchange<T>(cmp: (T, T) -> int, s: seq<T>, lo: nat, hi: nat, pa: nat, pb: nat, pc: nat, pd: nat)
    requires Parting(cmp, s, lo, hi, pa, pb, pc, pd)
    requires pb < pc && cmp(s[pb], s[lo]) > 0 && cmp(s[pc], s[lo]) < 0
    ensures Parting(cmp, Swapped(s, pb, pc), lo, hi, pa, pb + 1, pc - 1, pd)
  {
  }

  /** Lines 127-150: the partitioning loop proper. */
  method SplitByPivot<T(!new)>(a: array<T>, lo: nat, hi: nat, cmp: (T, T) -> int)
    returns (pa: nat, pb: nat, pc: nat, pd: nat)
    requires Flips(cmp)
    requires lo + 1 < hi <= a.Length
    modifies a
    ensures PermutedIn(old(a[..]), a[..], lo, hi) && a[lo] == old(a[lo])
    ensures pb == pc + 1 && Parting(cmp, a[..], lo, hi, pa, pb, pc, pd)
  {
    pa, pb := lo + 1, lo + 1;
    pc, pd := hi - 1, hi - 1;
    PermutedSelf(a[..], lo, hi);
    while true
      invariant Parting(cmp, a[..], lo, hi, pa, pb, pc, pd)
      invariant PermutedIn(old(a[..]), a[..], lo, hi) && a[lo] == old(a[lo])
      decreases pc + 1 - pb
    {
      ghost var s := a[..];
      pa, pb := ScanUp(a, lo, hi, pa, pb, pc, pd, cmp);
      PermutedTransitive(old(a[..]), s, a[..], lo, hi);
      s := a[..];
      pc, pd := ScanDown(a, lo, hi, pa, pb, pc, pd, cmp);
      PermutedTransitive(old(a[..]), s, a[..], lo, hi);
      if pb > pc {
        break;
      }
      Exchange(cmp, a[..], lo, hi, pa, pb, pc, pd);
      PermutedSwap(old(a[..]), a[..], lo, hi, pb, pc);
      Swap(a, pb, pc);
      pb := pb + 1;
      pc := pc - 1;
    }
  }

  /** Lines 152-156: bring the equal elements of both ends to the middle. */
  method CloseEnds<T(!new)>(a: array<T>, lo: nat, hi: nat, pa: nat, pb: nat, pc: nat, pd: nat, ghost cmp: (T, T) -> int)
    returns (l: nat, g: nat)
    requires pb == pc + 1 && Parting(cmp, a[..], lo, hi, pa, pb, pc, pd)
    requires cmp(a[lo], a[lo]) == 0
    modifies a
    ensures PermutedIn(old(a[..]), a[..], lo, hi)
    ensures ThreeWay(cmp, a[..], lo, l, g, hi, old(a[lo]))
  {
    ghost var s := a[..];
    var r := Min(pa - lo, pb - pa);
    VecSwap(a, lo, pb - r, r);
    ghost var t := a[..];
    var q := Min(pd - pc, hi - pd - 1);
    VecSwap(a, pb, hi - q, q);
    l, g := lo + (pb - pa), hi - (pd - pc);
    EndsClosed(cmp, s, t, a[..], lo, hi, pa, pb, pc, pd, r, q);
    EndsPermuted(s, t, a[..], lo, hi, pb - r, r, pb, q);
  }

  lemma EndsClosed<T>(cmp: (T, T) -> int, s: seq<T>, t: seq<T>, u: seq<T>, lo: nat, hi: nat,
                      pa: nat, pb: nat, pc: nat, pd: nat, r: nat, q: nat)
    requires pb == pc + 1 && Parting(cmp, s, lo, hi, pa, pb, pc, pd)
    requires cmp(s[lo], s[lo]) == 0
    requires r == Min(pa - lo, pb - pa) && t == VecSwapped(s, lo, pb - r, r)
    requires q == Min(pd - pc, hi - pd - 1) && u == VecSwapped(t, pb, hi - q, q)
    ensures ThreeWay(cmp, u, lo, lo + (pb - pa), hi - (pd - pc), hi, s[lo])
  {
    CloseLeft(cmp, s, lo, pa, pb, s[lo], r, t);
    CloseRight(cmp, t, pb, pd + 1, hi, s[lo], q, u);
  }

  lemma EndsPermuted<T>(s: seq<T>, t: seq<T>, u: seq<T>, lo: nat, hi: nat, i: nat, r: nat, j: nat, q: nat)
    requires lo + r <= i && i + r <= j && j + q <= hi - q && hi <= |s|
    requires t == VecSwapped(s, lo, i, r) && u == VecSwapped(t, j, hi - q, q)
    ensures PermutedIn(s, u, lo, hi)
  {
    VecSwapPermutes(s, lo, i, r, lo, hi);
    VecSwapPermutes(t, j, hi - q, q, lo, hi);
    PermutedTransitive(s, t, u, lo, hi);
  }

  /** Lines 127-156: partition [lo, hi) around the element at lo. */
  method Partition<T(!new)>(a: array<T>, lo: nat, hi: nat, cmp: (T, T) -> int)
    returns (l: nat, g: nat)
    requires Flips(cmp)
    requires lo + 1 < hi <= a.Length
    modifies a
    ensures PermutedIn(old(a[..]), a[..], lo, hi)
    ensures ThreeWay(cmp, a[..], lo, l, g, hi, old(a[lo]))
  {
    var pa, pb, pc, pd := SplitByPivot(a, lo, hi, cmp);
    ghost var s := a[..];
    l, g := CloseEnds(a, lo, hi, pa, pb, pc, pd, cmp);
    PermutedTransitive(old(a[..]), s, a[..], lo, hi);
  }

  // ---------------------------------------------------------------- the sort

  /** Lines 159-160 and 172-173: the part of n elements from a on lies outside the range. */
  predicate Disjoint(a: nat, n: nat, lrange: nat, rrange: nat) {
    (lrange < a && rrange < a) || (lrange >= a + n && rrange >= a + n)
  }

  /** Lines 114-125: the middle element, the median of three, or the median of three medians. */
  function PivotIndex<T>(cmp: (T, T) -> int, s: seq<T>, lo: nat, n: nat): (pm: nat)
    requires 7 <= n && lo + n <= |s|
    ensures lo <= pm < lo + n
  {
    var pl, pm, pn := lo, lo + n / 2, lo + n - 1;
    var d := n / 8;
    if n > 40 then
      Med3(cmp, s, Med3(cmp, s, pl, pl + d, pl + 2 * d), Med3(cmp, s, pm - d, pm, pm + d),
           Med3(cmp, s, pn - 2 * d, pn - d, pn))
    else if n > 7 then
      Med3(cmp, s, pl, pm, pn)
    else
      pm
  }

  /** Lines 114-126: put the chosen pivot first. */
  method ChoosePivot<T>(a: array<T>, lo: nat, n: nat, cmp: (T, T) -> int)
    requires 7 <= n && lo + n <= a.Length
    modifies a
    ensures PermutedIn(old(a[..]), a[..], lo, lo + n)
  {
    var pm := PivotIndex(cmp, a[..], lo, n);
    PermutedSelf(a[..], lo, lo + n);
    PermutedSwap(a[..], a[..], lo, lo + n, lo, pm);
    Swap(a, lo, pm);
  }

  /** What holds when everything before `at` is finished: it is final among itself, and no
      element of it is larger than any element of [at, hi). */
  ghost predicate Done<T>(cmp: (T, T) -> int, s: seq<T>, lo: nat, at: nat, hi: nat, lrange: nat, rrange: nat) {
    && lo <= at <= hi <= |s|
    && FinalIn(cmp, s, lo, at, lrange, rrange)
    && (forall i, j :: lo <= i < at <= j < hi ==> cmp(s[i], s[j]) <= 0)
  }

  lemma DoneSurvives<T>(cmp: (T, T) -> int, s: seq<T>, t: seq<T>, lo: nat, at: nat, hi: nat, lrange: nat, rrange: nat)
    requires Done(cmp, s, lo, at, hi, lrange, rrange)
    requires PermutedIn(s, t, at, hi)
    ensures Done(cmp, t, lo, at, hi, lrange, rrange)
  {
    PermutedElements(s, t, at, hi);
    forall i, j | lo <= i < at <= j < hi ensures cmp(t[i], t[j]) <= 0 {
      assert t[j] in s[at..hi];
    }
    assert FinalIn(cmp, t, lo, at, lrange, rrange) by {
      forall k | lo <= k < at && lrange <= k <= rrange ensures FinalAt(cmp, t, lo, at, k) {
        assert FinalAt(cmp, s, lo, at, k);
      }
    }
  }

  /** Sorting the part below the pivot does not disturb the partition. */
  lemma ThreeWaySurvives<T>(cmp: (T, T) -> int, s: seq<T>, t: seq<T>, lo: nat, l: nat, g: nat, hi: nat, v: T)
    requires ThreeWay(cmp, s, lo, l, g, hi, v)
    requires PermutedIn(s, t, lo, l)
    ensures ThreeWay(cmp, t, lo, l, g, hi, v)
  {
    PermutedElements(s, t, lo, l);
    forall k | lo <= k < l ensures cmp(t[k], v) < 0 {
      assert t[k] in s[lo..l];
    }
  }

  lemma Through<T(!new)>(cmp: (T, T) -> int, x: T, v: T, y: T)
    requires TotalPreorder(cmp)
    requires cmp(x, v) <= 0 && cmp(y, v) >= 0
    ensures cmp(x, y) <= 0
  {
    assert Chained(cmp, x, v, y);
  }

  /** Once the part below the pivot is finished, so is everything before the part above it. */
  lemma DoneAdvances<T(!new)>(cmp: (T, T) -> int, s: seq<T>, lo0: nat, lo: nat, l: nat, g: nat, hi: nat, v: T,
                              lrange: nat, rrange: nat)
    requires TotalPreorder(cmp)
    requires Done(cmp, s, lo0, lo, hi, lrange, rrange)
    requires ThreeWay(cmp, s, lo, l, g, hi, v)
    requires FinalIn(cmp, s, lo, l, lrange, rrange)
    ensures Done(cmp, s, lo0, g, hi, lrange, rrange)
  {
    forall i, j | lo <= i < g && l <= j < hi ensures cmp(s[i], s[j]) <= 0 {
      Through(cmp, s[i], v, s[j]);
    }
    forall k | lo0 <= k < g && lrange <= k <= rrange ensures FinalAt(cmp, s, lo0, g, k) {
      assert k < lo ==> FinalAt(cmp, s, lo0, lo, k);
      assert lo <= k < l ==> FinalAt(cmp, s, lo, l, k);
    }
  }

  lemma SortedIsFinal<T>(cmp: (T, T) -> int, s: seq<T>, lo: nat, hi: nat, lrange: nat, rrange: nat)
    requires Sorted(cmp, s, lo, hi)
    ensures FinalIn(cmp, s, lo, hi, lrange, rrange)
  {
  }

  lemma DoneCompletes<T>(cmp: (T, T) -> int, s: seq<T>, lo: nat, at: nat, hi: nat, lrange: nat, rrange: nat)
    requires Done(cmp, s, lo, at, hi, lrange, rrange)
    requires FinalIn(cmp, s, at, hi, lrange, rrange)
    ensures FinalIn(cmp, s, lo, hi, lrange, rrange)
  {
    forall k | lo <= k < hi && lrange <= k <= rrange ensures FinalAt(cmp, s, lo, hi, k) {
      assert k < at ==> FinalAt(cmp, s, lo, at, k);
      assert at <= k ==> FinalAt(cmp, s, at, hi, k);
    }
  }

  /** Lines 157-162: the part below the pivot is sorted recursively if it needs to be. */
  method SortBelow<T(!new)>(a: array<T>, lo: nat, r: nat, cmp: (T, T) -> int, lrange: nat, rrange: nat)
    requires TotalPreorder(cmp)
    requires lo + r <= a.Length
    modifies a
    ensures PermutedIn(old(a[..]), a[..], lo, lo + r)
    ensures FinalIn(cmp, a[..], lo, lo + r, lrange, rrange)
    decreases r, 2
  {
    if r > 1 && !Disjoint(lo, r, lrange, rrange) {
      SortPart(a, lo, r, cmp, lrange, rrange);
    } else {
      PermutedSelf(a[..], lo, lo + r);
    }
  }

  /** Lines 114-156: choose a pivot and partition around it. */
  method SplitAroundPivot<T(!new)>(a: array<T>, lo: nat, hi: nat, cmp: (T, T) -> int)
    returns (l: nat, g: nat, ghost v: T)
    requires Flips(cmp)
    requires lo + 7 <= hi <= a.Length
    modifies a
    ensures PermutedIn(old(a[..]), a[..], lo, hi)
    ensures ThreeWay(cmp, a[..], lo, l, g, hi, v)
  {
    ChoosePivot(a, lo, hi - lo, cmp);
    ghost var t := a[..];
    v := a[lo];
    l, g := Partition(a, lo, hi, cmp);
    PermutedTransitive(old(a[..]), t, a[..], lo, hi);
  }

  /** One turn of the goto loop on at least seven elements from lo on: the result is the start
      of the part above the pivot; everything before it is done. */
  method SortRound<T(!new)>(a: array<T>, ghost lo0: nat, lo: nat, hi: nat, cmp: (T, T) -> int, lrange: nat, rrange: nat)
    returns (g: nat)
    requires TotalPreorder(cmp)
    requires lo + 7 <= hi <= a.Length
    requires Done(cmp, a[..], lo0, lo, hi, lrange, rrange)
    modifies a
    ensures PermutedIn(old(a[..]), a[..], lo, hi)
    ensures lo < g <= hi && Done(cmp, a[..], lo0, g, hi, lrange, rrange)
    decreases hi - lo, 0
  {
    ghost var s := a[..];
    var l; ghost var v;
    l, g, v := SplitAroundPivot(a, lo, hi, cmp);
    ghost var u := a[..];
    SortBelow(a, lo, l - lo, cmp, lrange, rrange);
    RoundEnds(cmp, s, u, a[..], lo0, lo, l, g, hi, v, lrange, rrange);
  }

  lemma RoundEnds<T(!new)>(cmp: (T, T) -> int, s: seq<T>, u: seq<T>, w: seq<T>, lo0: nat, lo: nat, l: nat,
      g: nat, hi: nat,
                           v: T, lrange: nat, rrange: nat)
    requires TotalPreorder(cmp)
    requires Done(cmp, s, lo0, lo, hi, lrange, rrange)
    requires PermutedIn(s, u, lo, hi) && ThreeWay(cmp, u, lo, l, g, hi, v)
    requires PermutedIn(u, w, lo, l) && FinalIn(cmp, w, lo, l, lrange, rrange)
    ensures PermutedIn(s, w, lo, hi) && Done(cmp, w, lo0, g, hi, lrange, rrange)
  {
    PermutedWiden(u, w, lo, l, lo, hi);
    PermutedTransitive(s, u, w, lo, hi);
    DoneSurvives(cmp, s, w, lo0, lo, hi, lrange, rrange);
    ThreeWaySurvives(cmp, u, w, lo, l, g, hi, v);
    DoneAdvances(cmp, w, lo0, lo, l, g, hi, v, lrange, rrange);
  }

  /** _pqsort: on the n0 elements from lo0 on. */
  method SortPart<T(!new)>(a: array<T>, lo0: nat, n0: nat, cmp: (T, T) -> int, lrange: nat, rrange: nat)
    requires TotalPreorder(cmp)
    requires lo0 + n0 <= a.Length
    modifies a
    ensures PermutedIn(old(a[..]), a[..], lo0, lo0 + n0)
    ensures FinalIn(cmp, a[..], lo0, lo0 + n0, lrange, rrange)
    decreases n0, 1
  {
    var lo, hi := lo0, lo0 + n0;
    PermutedSelf(a[..], lo0, hi);
    while true
      invariant lo0 <= lo <= hi
      invariant PermutedIn(old(a[..]), a[..], lo0, hi)
      invariant Done(cmp, a[..], lo0, lo, hi, lrange, rrange)
      decreases hi - lo
    {
      ghost var s := a[..];
      if hi - lo < 7 {
        InsertionSort(a, lo, hi - lo, cmp);
        SortedIsFinal(cmp, a[..], lo, hi, lrange, rrange);
        DoneSurvives(cmp, s, a[..], lo0, lo, hi, lrange, rrange);
        PermutedWiden(s, a[..], lo, hi, lo0, hi);
        PermutedTransitive(old(a[..]), s, a[..], lo0, hi);
        break;
      }
      var g := SortRound(a, lo0, lo, hi, cmp, lrange, rrange);
      PermutedWiden(s, a[..], lo, hi, lo0, hi);
      PermutedTransitive(old(a[..]), s, a[..], lo0, hi);
      lo := g;
      if hi - lo <= 1 || Disjoint(lo, hi - lo, lrange, rrange) {
        break;
      }
    }
    DoneCompletes(cmp, a[..], lo0, lo, hi, lrange, rrange);
  }

  /** pqsort: afterwards every position of [lrange, rrange] holds what a full sort could put
      there, and the array is a permutation of what it was. */
  method Sort<T(!new)>(a: array<T>, cmp: (T, T) -> int, lrange: nat, rrange: nat)
    requires TotalPreorder(cmp)
    requires lrange <= rrange
    modifies a
    ensures multiset(a[..]) == multiset(old(a[..]))
    ensures forall k :: lrange <= k <= rrange && k < a.Length ==> FinalAt(cmp, a[..], 0, a.Length, k)
  {
    SortPart(a, 0, a.Length, cmp, lrange, rrange);
    PermutedMultiset(old(a[..]), a[..], 0, a.Length);
  }

  // ---------------------------------------------------------------- what final positions mean

  function CountBelow<T>(cmp: (T, T) -> int, s: seq<T>, x: T): (n: nat)
    ensures n <= |s|
  {
    if s == [] then 0 else (if cmp(s[0], x) < 0 then 1 else 0) + CountBelow(cmp, s[1..], x)
  }

  lemma {:induction false} CountBelowConcat<T>(cmp: (T, T) -> int, s: seq<T>, t: seq<T>, x: T)
    ensures CountBelow(cmp, s + t, x) == CountBelow(cmp, s, x) + CountBelow(cmp, t, x)
  {
    if s == [] {
      assert s + t == t;
    } else {
      assert (s + t)[1..] == s[1..] + t;
      CountBelowConcat(cmp, s[1..], t, x);
    }
  }

  lemma {:induction false} CountBelowPermuted<T>(cmp: (T, T) -> int, s: seq<T>, t: seq<T>, x: T)
    requires multiset(s) == multiset(t)
    ensures CountBelow(cmp, s, x) == CountBelow(cmp, t, x)
  {
    if s == [] {
      assert |multiset(t)| == 0;
    } else {
      assert s[0] in multiset(t);
      var i :| 0 <= i < |t| && t[i] == s[0];
      RemoveOne(s, t, i);
      CountBelowPermuted(cmp, s[1..], t[..i] + t[i + 1..], x);
      CountBelowConcat(cmp, t[..i], t[i + 1..], x);
      CountBelowConcat(cmp, t[..i], t[i..], x);
      assert t == t[..i] + t[i..] && t[i..][1..] == t[i + 1..];
    }
  }

  lemma RemoveOne<T>(s: seq<T>, t: seq<T>, i: nat)
    requires multiset(s) == multiset(t) && s != [] && i < |t| && t[i] == s[0]
    ensures multiset(s[1..]) == multiset(t[..i] + t[i + 1..])
  {
    assert s == [s[0]] + s[1..];
    assert t == t[..i] + [t[i]] + t[i + 1..];
    assert multiset(s[1..]) == multiset(s) - multiset{s[0]};
  }

  lemma {:induction false} CountBelowAll<T>(cmp: (T, T) -> int, s: seq<T>, x: T)
    ensures (forall y <- s :: cmp(y, x) < 0) ==> CountBelow(cmp, s, x) == |s|
    ensures (forall y <- s :: cmp(y, x) >= 0) ==> CountBelow(cmp, s, x) == 0
  {
    if s != [] {
      CountBelowAll(cmp, s[1..], x);
    }
  }

  /** Two arrangements of the same elements agree, up to ties, at a position final in both:
      in particular the partial sort leaves at every wanted position what any full sort does. */
  lemma FinalIsUnique<T(!new)>(cmp: (T, T) -> int, s: seq<T>, t: seq<T>, k: nat)
    requires TotalPreorder(cmp)
    requires multiset(s) == multiset(t)
    requires FinalAt(cmp, s, 0, |s|, k) && FinalAt(cmp, t, 0, |t|, k)
    ensures cmp(s[k], t[k]) == 0
  {
    if cmp(s[k], t[k]) < 0 {
      FinalNotBelow(cmp, s, t, k);
    } else if cmp(s[k], t[k]) > 0 {
      FinalNotBelow(cmp, t, s, k);
    }
  }

  lemma FinalNotBelow<T(!new)>(cmp: (T, T) -> int, s: seq<T>, t: seq<T>, k: nat)
    requires TotalPreorder(cmp)
    requires multiset(s) == multiset(t)
    requires FinalAt(cmp, s, 0, |s|, k) && FinalAt(cmp, t, 0, |t|, k)
    ensures cmp(s[k], t[k]) >= 0
  {
    if cmp(s[k], t[k]) < 0 {
      var x := t[k];
      assert s == s[..k + 1] + s[k + 1..] && t == t[..k] + t[k..];
      CountBelowPermuted(cmp, s, t, x);
      CountBelowConcat(cmp, s[..k + 1], s[k + 1..], x);
      CountBelowConcat(cmp, t[..k], t[k..], x);
      var z := s[k];
      forall y | y in s[..k + 1] ensures cmp(y, x) < 0 {
        assert cmp(y, z) <= 0;
        assert Chained(cmp, x, y, z);
      }
      CountBelowAll(cmp, s[..k + 1], x);
      CountBelowAll(cmp, t[k..], x);
    }
  }
}
