/** The pattern of a hash: hllPatLen of src/hyperloglog.c. */
module HllPattern {

  /** uint8_t */
  type Byte = bv8

  type Element = seq<Byte>

  const REGISTERS := 16384

  /** The register that an element falls on and the pattern length it brings there. */
  datatype Place = Place(index: nat, count: Byte)

  function Mask(k: bv6): bv64 {
    (1 as bv64) << k
  }

  predicate Bit(h: bv64, k: bv6) {
    h & Mask(k) != 0
  }

  /** One more than the number of zeros from bit k upwards, bit 63 taken as set. */
  function Pattern(h: bv64, k: bv6): Byte
    decreases 63 - k
  {
    if k == 63 || Bit(h, k) then 1 else 1 + Pattern(h, k + 1)
  }

  /** The low 14 bits address a register. */
  function Index(h: bv64): (i: nat)
    ensures i < REGISTERS
  {
    (h & 0x3fff) as nat
  }

  lemma {:induction false} PatternRange(h: bv64, k: bv6)
    ensures 1 <= Pattern(h, k) <= 64 - k as Byte
    decreases 63 - k
  {
    if !(k == 63 || Bit(h, k)) {
      PatternRange(h, k + 1);
    }
  }

  /** Forcing bit 63 changes no other bit. */
  lemma TopBit(h: bv64, k: bv6)
    ensures k < 63 ==> (h | 0x8000_0000_0000_0000) & Mask(k) == h & Mask(k)
  {
  }

  lemma MaskNext(k: bv6)
    requires k < 63
    ensures Mask(k) << 1 == Mask(k + 1)
  {
  }

  /** The count at the end of the loop, from bit k and count c on. */
  function Counted(h: bv64, k: bv6, c: Byte): Byte
    decreases 63 - k
  {
    if k == 63 || Bit(h, k) then c else Counted(h, k + 1, c + 1)
  }

  lemma {:induction false} CountedIs(h: bv64, k: bv6, c: Byte)
    ensures Counted(h, k, c) == c - 1 + Pattern(h, k)
    decreases 63 - k
  {
    if !(k == 63 || Bit(h, k)) {
      CountedIs(h, k + 1, c + 1);
    }
  }

  /** What the test of the loop says about bit k, whose mask is `bit`. */
  lemma OneBit(h: bv64, bit: bv64, k: bv6, c: Byte)
    requires bit == Mask(k)
    ensures (h | 0x8000_0000_0000_0000) & bit == 0 ==>
              k < 63 && bit << 1 == Mask(k + 1) && Counted(h, k, c) == Counted(h, k + 1, c + 1)
    ensures (h | 0x8000_0000_0000_0000) & bit != 0 ==> Counted(h, k, c) == c
  {
    TopBit(h, k);
    if k < 63 {
      MaskNext(k);
    }
  }

  /** The loop of hllPatLen: a search for the first set bit from bit 14.  The forced bit 63 ends
      it, so the count is at most 50. */
  method FirstOne(hash: bv64) returns (count: Byte)
    ensures count == Pattern(hash, 14)
  {
    var h := hash | 0x8000_0000_0000_0000;
    var bit: bv64 := 16384;
    count := 1;
    ghost var k: bv6 := 14;
    CountedIs(hash, 14, 1);
    while h & bit == 0
      invariant bit == Mask(k) && Counted(hash, k, count) == Pattern(hash, 14)
      decreases 63 - k
    {
      OneBit(hash, bit, k, count);
      count := count + 1;
      bit := bit << 1;
      k := k + 1;
    }
    OneBit(hash, bit, k, count);
  }

  /** hllPatLen.  The count is from 1 to 50: the run of zeros can be 64 - HLL_P - 1 long. */
  method PatLen(hash: bv64) returns (count: Byte, index: nat)
    ensures Place(index, count) == PlaceOf(hash) && 1 <= count <= 50
  {
    index := Index(hash);
    count := FirstOne(hash);
    PatternRange(hash, 14);
  }

  function PlaceOf(hash: bv64): Place {
    Place(Index(hash), Pattern(hash, 14))
  }
}
