/** ALIGNMENT_CEILING (deps/jemalloc/include/jemalloc/internal/jemalloc_internal.h). */
module Alignment {
  ghost function Multiple(k: nat, alignment: nat): nat {
    k * alignment
  }

  ghost predicate Aligned(x: nat, alignment: nat) {
    exists k: nat {:trigger Multiple(k, alignment)} :: Multiple(k, alignment) == x
  }

  /** ALIGNMENT_CEILING: the next multiple of the alignment. */
  method Ceiling(x: nat, alignment: nat) returns (c: nat)
    requires alignment > 0
    ensures x <= c < x + alignment && Aligned(c, alignment)
  {
    c := (x + alignment - 1) / alignment * alignment;
    assert Multiple((x + alignment - 1) / alignment, alignment) == c;
  }
}
