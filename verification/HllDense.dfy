/** The dense representation of src/hyperloglog.c: 16384 six-bit registers packed into 12288
    bytes, lowest bits first, with the null byte that every sds string has behind it. */
module HllDense {
  import opened HllPattern
  import opened HllRegisters

  const DENSE_BYTES := 12288

  /** The bytes of the registers and the terminator. */
  predicate IsDense(p: seq<Byte>) {
    |p| == DENSE_BYTES + 1
  }

  // ---------------------------------------------------------------- HLL_DENSE_GET_REGISTER

  function Get(b0: Byte, b1: Byte, fb: nat): Byte
    requires fb <= 8
  {
    ((b0 >> fb) | (b1 << (8 - fb))) & 63
  }

  /** The register at position i. */
  function Register(p: seq<Byte>, i: nat): Byte
    requires IsDense(p) && i < REGISTERS
  {
    Get(p[i * 6 / 8], p[i * 6 / 8 + 1], i * 6 % 8)
  }

  /** Three bytes hold four registers, in the expressions of the unrolled loop of hllDenseSum. */
  lemma Group(p: seq<Byte>, g: nat)
    requires IsDense(p) && g < 4096
    ensures Register(p, 4 * g) == p[3 * g] & 63
    ensures Register(p, 4 * g + 1) == ((p[3 * g] >> 6) | (p[3 * g + 1] << 2)) & 63
    ensures Register(p, 4 * g + 2) == ((p[3 * g + 1] >> 4) | (p[3 * g + 2] << 4)) & 63
    ensures Register(p, 4 * g + 3) == (p[3 * g + 2] >> 2) & 63
  {
  }

  // ---------------------------------------------------------------- HLL_DENSE_SET_REGISTER

  function Low(b: Byte, fb: nat, v: Byte): Byte
    requires fb <= 8
  {
    (b & !((63 as Byte) << fb)) | (v << fb)
  }

  function High(b: Byte, fb: nat, v: Byte): Byte
    requires fb <= 8
  {
    (b & !((63 as Byte) >> (8 - fb))) | (v >> (8 - fb))
  }

  function SetRegister(p: seq<Byte>, i: nat, v: Byte): (q: seq<Byte>)
    requires IsDense(p) && i < REGISTERS
    ensures IsDense(q)
  {
    var q := p[i * 6 / 8 := Low(p[i * 6 / 8], i * 6 % 8, v)];
    q[i * 6 / 8 + 1 := High(q[i * 6 / 8 + 1], i * 6 % 8, v)]
  }

  /** Register r of a group of three bytes. */
  function InGroup(b0: Byte, b1: Byte, b2: Byte, r: nat): Byte
    requires r < 4
  {
    match r
    case 0 => b0 & 63
    case 1 => ((b0 >> 6) | (b1 << 2)) & 63
    case 2 => ((b1 >> 4) | (b2 << 4)) & 63
    case _ => (b2 >> 2) & 63
  }

  function Quad(p: seq<Byte>, g: nat, r: nat): Byte
    requires IsDense(p) && g < 4096 && r < 4
  {
    InGroup(p[3 * g], p[3 * g + 1], p[3 * g + 2], r)
  }

  lemma RegisterInGroup(p: seq<Byte>, g: nat, r: nat)
    requires IsDense(p) && g < 4096 && r < 4
    ensures Register(p, 4 * g + r) == Quad(p, g, r)
  {
    Group(p, g);
  }

  lemma SetFirst(b0: Byte, b1: Byte, b2: Byte, v: Byte)
    requires v <= REGISTER_MAX
    ensures High(b1, 0, v) == b1
    ensures forall r :: 0 <= r < 4 ==> InGroup(Low(b0, 0, v), b1, b2, r) == if r == 0 then v else InGroup(b0, b1, b2, r)
  {
  }

  lemma SetSecond(b0: Byte, b1: Byte, b2: Byte, v: Byte)
    requires v <= REGISTER_MAX
    ensures forall r :: 0 <= r < 4 ==>
      InGroup(Low(b0, 6, v), High(b1, 6, v), b2, r) == if r == 1 then v else InGroup(b0, b1, b2, r)
  {
  }

  lemma SetThird(b0: Byte, b1: Byte, b2: Byte, v: Byte)
    requires v <= REGISTER_MAX
    ensures forall r :: 0 <= r < 4 ==>
      InGroup(b0, Low(b1, 4, v), High(b2, 4, v), r) == if r == 2 then v else InGroup(b0, b1, b2, r)
  {
  }

  lemma SetFourth(b0: Byte, b1: Byte, b2: Byte, b3: Byte, v: Byte)
    requires v <= REGISTER_MAX
    ensures High(b3, 2, v) == b3
    ensures forall r :: 0 <= r < 4 ==> InGroup(b0, b1, Low(b2, 2, v), r) == if r == 3 then v else InGroup(b0, b1, b2, r)
  {
  }

  /** Only the three bytes of the register's group change, and in the group only the register. */
  ghost predicate Stores(p: seq<Byte>, q: seq<Byte>, g: nat, r: nat, v: Byte)
    requires IsDense(p) && g < 4096
  {
    && IsDense(q)
    && (forall k :: 0 <= k < |p| && !(3 * g <= k < 3 * g + 3) ==> q[k] == p[k])
    && (forall k :: 0 <= k < 4 ==> Quad(q, g, k) == if k == r then v else Quad(p, g, k))
  }

  /** Where the register is: byte 6i/8, from bit 6i%8. */
  lemma Position(g: nat, r: nat)
    requires r < 4
    ensures (4 * g + r) * 6 / 8 == 3 * g + (if r == 0 then 0 else r - 1)
    ensures (4 * g + r) * 6 % 8 == (if r == 0 then 0 else 8 - 2 * r)
  {
  }

  lemma StoresFirst(p: seq<Byte>, q: seq<Byte>, g: nat, v: Byte)
    requires IsDense(p) && g < 4096 && v <= REGISTER_MAX
    requires q == p[3 * g := Low(p[3 * g], 0, v)][3 * g + 1 := High(p[3 * g + 1], 0, v)]
    ensures Stores(p, q, g, 0, v)
  {
    SetFirst(p[3 * g], p[3 * g + 1], p[3 * g + 2], v);
  }

  lemma StoresSecond(p: seq<Byte>, q: seq<Byte>, g: nat, v: Byte)
    requires IsDense(p) && g < 4096 && v <= REGISTER_MAX
    requires q == p[3 * g := Low(p[3 * g], 6, v)][3 * g + 1 := High(p[3 * g + 1], 6, v)]
    ensures Stores(p, q, g, 1, v)
  {
    SetSecond(p[3 * g], p[3 * g + 1], p[3 * g + 2], v);
  }

  lemma StoresThird(p: seq<Byte>, q: seq<Byte>, g: nat, v: Byte)
    requires IsDense(p) && g < 4096 && v <= REGISTER_MAX
    requires q == p[3 * g + 1 := Low(p[3 * g + 1], 4, v)][3 * g + 2 := High(p[3 * g + 2], 4, v)]
    ensures Stores(p, q, g, 2, v)
  {
    SetThird(p[3 * g], p[3 * g + 1], p[3 * g + 2], v);
  }

  lemma StoresFourth(p: seq<Byte>, q: seq<Byte>, g: nat, v: Byte)
    requires IsDense(p) && g < 4096 && v <= REGISTER_MAX
    requires q == p[3 * g + 2 := Low(p[3 * g + 2], 2, v)][3 * g + 3 := High(p[3 * g + 3], 2, v)]
    ensures Stores(p, q, g, 3, v)
  {
    SetFourth(p[3 * g], p[3 * g + 1], p[3 * g + 2], p[3 * g + 3], v);
  }

  lemma SetFirstStores(p: seq<Byte>, i: nat, v: Byte, g: nat)
    requires IsDense(p) && g < 4096 && v <= REGISTER_MAX && i == 4 * g + 0
    ensures Stores(p, SetRegister(p, i, v), g, 0, v)
  {
    Position(g, 0);
    StoresFirst(p, SetRegister(p, i, v), g, v);
  }

  lemma SetSecondStores(p: seq<Byte>, i: nat, v: Byte, g: nat)
    requires IsDense(p) && g < 4096 && v <= REGISTER_MAX && i == 4 * g + 1
    ensures Stores(p, SetRegister(p, i, v), g, 1, v)
  {
    Position(g, 1);
    StoresSecond(p, SetRegister(p, i, v), g, v);
  }

  lemma SetThirdStores(p: seq<Byte>, i: nat, v: Byte, g: nat)
    requires IsDense(p) && g < 4096 && v <= REGISTER_MAX && i == 4 * g + 2
    ensures Stores(p, SetRegister(p, i, v), g, 2, v)
  {
    Position(g, 2);
    StoresThird(p, SetRegister(p, i, v), g, v);
  }

  lemma SetFourthStores(p: seq<Byte>, i: nat, v: Byte, g: nat)
    requires IsDense(p) && g < 4096 && v <= REGISTER_MAX && i == 4 * g + 3
    ensures Stores(p, SetRegister(p, i, v), g, 3, v)
  {
    Position(g, 3);
    StoresFourth(p, SetRegister(p, i, v), g, v);
  }

  lemma SetStores(p: seq<Byte>, i: nat, v: Byte, g: nat, r: nat)
    requires IsDense(p) && g < 4096 && r < 4 && v <= REGISTER_MAX && i == 4 * g + r
    ensures Stores(p, SetRegister(p, i, v), g, r, v)
  {
    match r
    case 0 => SetFirstStores(p, i, v, g);
    case 1 => SetSecondStores(p, i, v, g);
    case 2 => SetThirdStores(p, i, v, g);
    case _ => SetFourthStores(p, i, v, g);
  }

  lemma OtherGroup(p: seq<Byte>, q: seq<Byte>, g: nat, r: nat, v: Byte, h: nat, k: nat)
    requires IsDense(p) && g < 4096 && h < 4096 && k < 4 && h != g && Stores(p, q, g, r, v)
    ensures Quad(q, h, k) == Quad(p, h, k)
  {
    assert q[3 * h] == p[3 * h] && q[3 * h + 1] == p[3 * h + 1] && q[3 * h + 2] == p[3 * h + 2];
  }

  lemma StoresOne(p: seq<Byte>, q: seq<Byte>, g: nat, r: nat, v: Byte, h: nat, k: nat)
    requires IsDense(p) && g < 4096 && h < 4096 && r < 4 && k < 4 && Stores(p, q, g, r, v)
    ensures Register(q, 4 * h + k) == if 4 * h + k == 4 * g + r then v else Register(p, 4 * h + k)
  {
    RegisterInGroup(p, h, k);
    RegisterInGroup(q, h, k);
    if h != g {
      OtherGroup(p, q, g, r, v, h, k);
    }
  }

  lemma StoresGet(p: seq<Byte>, q: seq<Byte>, g: nat, r: nat, v: Byte, j: nat)
    requires IsDense(p) && g < 4096 && r < 4 && Stores(p, q, g, r, v) && j < REGISTERS
    ensures Register(q, j) == if j == 4 * g + r then v else Register(p, j)
    ensures q[DENSE_BYTES] == p[DENSE_BYTES]
  {
    assert j == 4 * (j / 4) + j % 4;
    StoresOne(p, q, g, r, v, j / 4, j % 4);
  }

  /** HLL_DENSE_SET_REGISTER stores one register, changes no other and keeps the terminator. */
  lemma SetGet(p: seq<Byte>, i: nat, v: Byte, j: nat)
    requires IsDense(p) && i < REGISTERS && j < REGISTERS && v <= REGISTER_MAX
    ensures Register(SetRegister(p, i, v), j) == if j == i then v else Register(p, j)
    ensures SetRegister(p, i, v)[DENSE_BYTES] == p[DENSE_BYTES]
  {
    var g, r := i / 4, i % 4;
    SetStores(p, i, v, g, r);
    StoresGet(p, SetRegister(p, i, v), g, r, v, j);
  }

  // ---------------------------------------------------------------- all the registers

  /** What the packed bytes stand for. */
  function DenseRegs(p: seq<Byte>): (r: seq<Byte>)
    requires IsDense(p)
    ensures |r| == REGISTERS
  {
    seq(REGISTERS, i requires 0 <= i < REGISTERS => Register(p, i))
  }

  lemma DenseStore(p: seq<Byte>, i: nat, v: Byte)
    requires IsDense(p) && i < REGISTERS && v <= REGISTER_MAX
    ensures DenseRegs(SetRegister(p, i, v)) == DenseRegs(p)[i := v]
    ensures SetRegister(p, i, v)[DENSE_BYTES] == p[DENSE_BYTES]
  {
    var q := SetRegister(p, i, v);
    forall j | 0 <= j < REGISTERS ensures DenseRegs(q)[j] == DenseRegs(p)[i := v][j] {
      SetGet(p, i, v, j);
    }
    SetGet(p, i, v, 0);
  }

  /** The two macros, for the code that uses them. */
  method GetRegister(p: seq<Byte>, i: nat) returns (v: Byte)
    requires IsDense(p) && i < REGISTERS
    ensures v == DenseRegs(p)[i]
  {
    v := Register(p, i);
  }

  method StoreRegister(p: seq<Byte>, i: nat, v: Byte) returns (q: seq<Byte>)
    requires IsDense(p) && i < REGISTERS && v <= REGISTER_MAX
    ensures IsDense(q) && DenseRegs(q) == DenseRegs(p)[i := v] && q[DENSE_BYTES] == p[DENSE_BYTES]
  {
    q := SetRegister(p, i, v);
    DenseStore(p, i, v);
  }

  lemma ZeroGet(fb: nat)
    requires fb <= 8
    ensures Get(0, 0, fb) == 0
  {
  }

  /** sdsnewlen(NULL, HLL_DENSE_SIZE) */
  lemma ZeroDense(p: seq<Byte>)
    requires IsDense(p) && forall k :: 0 <= k < |p| ==> p[k] == 0
    ensures forall i :: 0 <= i < REGISTERS ==> DenseRegs(p)[i] == 0
  {
    forall i | 0 <= i < REGISTERS ensures DenseRegs(p)[i] == 0 {
      ZeroGet(i * 6 % 8);
    }
  }
}
