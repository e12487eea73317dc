/** Facts about slices and updates, stated once for any element type. */
module Sequences {

  lemma TakeExtends<T>(s: seq<T>, from: nat, to: nat)
    requires from <= to <= |s|
    ensures s[..to] == s[..from] + s[from..to]
  {
  }

  lemma SliceSnoc<T>(s: seq<T>, from: nat, to: nat)
    requires from <= to < |s|
    ensures s[from..to + 1] == s[from..to] + [s[to]]
  {
  }

  lemma UpdateAppends<T>(s: seq<T>, from: nat, to: nat, x: T)
    requires from <= to < |s|
    ensures s[to := x][from..to + 1] == s[from..to] + [x]
  {
  }

  lemma UpdateKeepsTake<T>(s: seq<T>, to: nat, i: nat, x: T)
    requires to <= i < |s|
    ensures s[i := x][..to] == s[..to]
  {
  }

  lemma PrefixSplits<T>(a: seq<T>, b: seq<T>, s: seq<T>)
    requires a + b <= s
    ensures a <= s && b <= s[|a|..]
  {
  }

  lemma UpdateSplits<T>(s: seq<T>, i: nat, x: T, to: nat)
    requires i < to <= |s|
    ensures s[i := x][..to] == s[..i] + ([x] + s[i + 1..to])
  {
  }

  /** `a[i] := x`, as an update of the sequence of elements. */
  method Store<T>(a: array<T>, i: nat, x: T)
    requires i < a.Length
    modifies a
    ensures a[..] == old(a[..])[i := x]
  {
    a[i] := x;
  }
}
