/** src/sha1.c: the unrolled transform on a 16-word block and the streaming interface. */
module Sha1 {
  import opened Sha1Standard
  import opened Sequences

  // ---------------------------------------------------------------- the block

  /** How a little-endian machine reads four bytes as a word. */
  function LittleEndian(b0: Byte, b1: Byte, b2: Byte, b3: Byte): Word {
    ((b3 as Word) << 24) | ((b2 as Word) << 16) | ((b1 as Word) << 8) | (b0 as Word)
  }

  /** blk0 */
  function Swap(x: Word): Word {
    (Rotl(x, 24) & 0xFF00FF00) | (Rotl(x, 8) & 0x00FF00FF)
  }

  lemma SwapLoad(b0: Byte, b1: Byte, b2: Byte, b3: Byte)
    ensures Swap(LittleEndian(b0, b1, b2, b3)) == BigEndian(b0, b1, b2, b3)
  {
    RotlIs(LittleEndian(b0, b1, b2, b3));
    SwapBits(b0, b1, b2, b3, LittleEndian(b0, b1, b2, b3));
  }

  lemma RotlIs(x: Word)
    ensures Rotl(x, 24) == (x << 24) | (x >> 8) && Rotl(x, 8) == (x << 8) | (x >> 24)
  {
  }

  lemma SwapBits(b0: Byte, b1: Byte, b2: Byte, b3: Byte, x: Word)
    requires x == LittleEndian(b0, b1, b2, b3)
    ensures (((x << 24) | (x >> 8)) & 0xFF00FF00) | (((x << 8) | (x >> 24)) & 0x00FF00FF) == BigEndian(b0, b1, b2, b3)
  {
  }

  lemma ChooseIs(w: Word, x: Word, y: Word)
    ensures (w & (x ^ y)) ^ y == (w & x) ^ (!w & y)
  {
  }

  lemma MajorityIs(w: Word, x: Word, y: Word)
    ensures ((w | x) & y) | (w & x) == (w & x) ^ (w & y) ^ (x & y)
  {
  }

  // ---------------------------------------------------------------- schedules and runs as data

  /** ws is the message schedule of the block whose words are ls as loaded. */
  ghost predicate IsSchedule(ws: seq<Word>, ls: seq<Word>) {
    && |ls| == 16 && |ws| == 80
    && (forall t :: 0 <= t < 16 ==> Swap(ls[t]) == ws[t])
    && (forall t :: 16 <= t < 80 ==> Expands(ws, t))
  }

  ghost predicate Expands(ws: seq<Word>, t: nat) {
    16 <= t < |ws| && ws[t] == Mix(ws[t - 3], ws[t - 8], ws[t - 14], ws[t - 16])
  }

  ghost predicate Steps(ss: seq<Five>, ws: seq<Word>, t: nat) {
    t < |ws| && t + 1 < |ss| && ss[t + 1] == Round(t, ss[t], ws[t])
  }

  /** ss are the working variables before each turn and after the last. */
  ghost predicate IsRun(ss: seq<Five>, ws: seq<Word>) {
    |ws| == 80 && |ss| == 81 && forall t :: 0 <= t < 80 ==> Steps(ss, ws, t)
  }

  /** The words before i are swapped, the others as loaded. */
  ghost predicate Loaded(b: seq<Word>, ls: seq<Word>, ws: seq<Word>, i: nat) {
    && |b| == 16 && |ls| == 16 && |ws| == 80 && i <= 16
    && forall k :: 0 <= k < 16 ==> b[k] == if k < i then ws[k] else ls[k]
  }

  /** The block holds the last 16 words of the schedule before word i (section 6.1.3). */
  ghost predicate Window(b: seq<Word>, ws: seq<Word>, i: nat) {
    |b| == 16 && |ws| == 80 && i <= 80 && forall k :: 0 <= k < i && i - 16 <= k ==> b[k % 16] == ws[k]
  }

  lemma LoadedWindow(b: seq<Word>, ls: seq<Word>, ws: seq<Word>)
    requires Loaded(b, ls, ws, 16)
    ensures Window(b, ws, 16)
  {
  }

  /** blk0(i) */
  method Blk0(block: array<Word>, i: nat, ghost ls: seq<Word>, ghost ws: seq<Word>) returns (x: Word)
    requires block.Length == 16 && i < 16 && IsSchedule(ws, ls) && Loaded(block[..], ls, ws, i)
    modifies block
    ensures x == ws[i] && Loaded(block[..], ls, ws, i + 1)
  {
    x := Swap(block[i]);
    block[i] := x;
  }

  lemma WindowAt(b: seq<Word>, ws: seq<Word>, i: nat, k: nat, j: nat)
    requires Window(b, ws, i) && k < i <= k + 16 && j == k % 16
    ensures b[j] == ws[k]
  {
  }

  lemma WindowNext(b: seq<Word>, ws: seq<Word>, i: nat, x: Word)
    requires Window(b, ws, i) && i < 80 && x == ws[i]
    ensures Window(b[i % 16 := x], ws, i + 1)
  {
    forall k | 0 <= k < i + 1 && i + 1 - 16 <= k ensures b[i % 16 := x][k % 16] == ws[k] {
      if k < i {
        WindowAt(b, ws, i, k, k % 16);
      }
    }
  }

  lemma Modulo(k: nat)
    ensures (k + 16 + 13) % 16 == (k + 13) % 16 && (k + 16 + 8) % 16 == (k + 8) % 16
    ensures (k + 16 + 2) % 16 == (k + 2) % 16 && (k + 16) % 16 == k % 16
  {
  }

  lemma WindowExpands(b: seq<Word>, ls: seq<Word>, ws: seq<Word>, i: nat)
    requires 16 <= i < 80 && IsSchedule(ws, ls) && Window(b, ws, i)
    ensures b[(i + 13) % 16] == ws[i - 3] && b[(i + 8) % 16] == ws[i - 8]
    ensures b[(i + 2) % 16] == ws[i - 14] && b[i % 16] == ws[i - 16]
  {
    Modulo(i - 16);
    WindowAt(b, ws, i, i - 3, (i + 13) % 16);
    WindowAt(b, ws, i, i - 8, (i + 8) % 16);
    WindowAt(b, ws, i, i - 14, (i + 2) % 16);
    WindowAt(b, ws, i, i - 16, i % 16);
  }

  lemma ScheduleAt(ls: seq<Word>, ws: seq<Word>, i: nat)
    requires 16 <= i < 80 && IsSchedule(ws, ls)
    ensures ws[i] == Mix(ws[i - 3], ws[i - 8], ws[i - 14], ws[i - 16])
  {
    assert Expands(ws, i);
  }

  /** blk(i) */
  method Blk(block: array<Word>, i: nat, ghost ls: seq<Word>, ghost ws: seq<Word>) returns (x: Word)
    requires block.Length == 16 && 16 <= i < 80 && IsSchedule(ws, ls) && Window(block[..], ws, i)
    modifies block
    ensures x == ws[i] && Window(block[..], ws, i + 1)
  {
    WindowExpands(block[..], ls, ws, i);
    ScheduleAt(ls, ws, i);
    x := Mix(block[(i + 13) % 16], block[(i + 8) % 16], block[(i + 2) % 16], block[i % 16]);
    WindowNext(block[..], ws, i, x);
    Store(block, i % 16, x);
  }

  // ---------------------------------------------------------------- the rounds

  lemma SumOrder(z: Word, f: Word, x: Word, k: Word, r: Word)
    ensures Sum(z, f, x, k, r) == Temp(r, f, z, k, x)
  {
  }

  /** z + (f + blk(i) + k + rol(v, 5)), in the order of the source. */
  function Sum(z: Word, f: Word, x: Word, k: Word, r: Word): Word {
    z + (f + x + k + r)
  }

  /** The working variables named v to z are those before turn i. */
  ghost predicate Before(ss: seq<Five>, i: nat, v: Word, w: Word, x: Word, y: Word, z: Word) {
    i < |ss| && ss[i] == Five(v, w, x, y, z)
  }

  /** The new values of w and z are right, under the names that the next turn gives them. */
  lemma Turn(ss: seq<Five>, ws: seq<Word>, i: nat, v: Word, w: Word, x: Word, y: Word, z: Word, f: Word)
    requires IsRun(ss, ws) && i < 80 && Before(ss, i, v, w, x, y, z) && f == F(i, w, x, y)
    ensures Before(ss, i + 1, Sum(z, f, ws[i], K(i), Rotl(v, 5)), v, Rotl(w, 30), x, y)
  {
    assert Steps(ss, ws, i);
    SumOrder(z, f, ws[i], K(i), Rotl(v, 5));
  }

  method R0(v: Word, w: Word, x: Word, y: Word, z: Word, i: nat, block: array<Word>,
      ghost ls: seq<Word>, ghost ws: seq<Word>, ghost ss: seq<Five>) returns (w': Word, z': Word)
    requires i < 16 && IsSchedule(ws, ls) && IsRun(ss, ws) && Before(ss, i, v, w, x, y, z)
    requires block.Length == 16 && Loaded(block[..], ls, ws, i)
    modifies block
    ensures Before(ss, i + 1, z', v, w', x, y) && Loaded(block[..], ls, ws, i + 1)
  {
    var word := Blk0(block, i, ls, ws);
    ChooseIs(w, x, y);
    var f := (w & (x ^ y)) ^ y;
    z' := Sum(z, f, word, 0x5A827999, Rotl(v, 5));
    w' := Rotl(w, 30);
    Turn(ss, ws, i, v, w, x, y, z, f);
  }

  method R1(v: Word, w: Word, x: Word, y: Word, z: Word, i: nat, block: array<Word>,
      ghost ls: seq<Word>, ghost ws: seq<Word>, ghost ss: seq<Five>) returns (w': Word, z': Word)
    requires 16 <= i < 20 && IsSchedule(ws, ls) && IsRun(ss, ws) && Before(ss, i, v, w, x, y, z)
    requires block.Length == 16 && Window(block[..], ws, i)
    modifies block
    ensures Before(ss, i + 1, z', v, w', x, y) && Window(block[..], ws, i + 1)
  {
    var word := Blk(block, i, ls, ws);
    ChooseIs(w, x, y);
    var f := (w & (x ^ y)) ^ y;
    z' := Sum(z, f, word, 0x5A827999, Rotl(v, 5));
    w' := Rotl(w, 30);
    Turn(ss, ws, i, v, w, x, y, z, f);
  }

  method R2(v: Word, w: Word, x: Word, y: Word, z: Word, i: nat, block: array<Word>,
      ghost ls: seq<Word>, ghost ws: seq<Word>, ghost ss: seq<Five>) returns (w': Word, z': Word)
    requires 20 <= i < 40 && IsSchedule(ws, ls) && IsRun(ss, ws) && Before(ss, i, v, w, x, y, z)
    requires block.Length == 16 && Window(block[..], ws, i)
    modifies block
    ensures Before(ss, i + 1, z', v, w', x, y) && Window(block[..], ws, i + 1)
  {
    var word := Blk(block, i, ls, ws);
    var f := w ^ x ^ y;
    z' := Sum(z, f, word, 0x6ED9EBA1, Rotl(v, 5));
    w' := Rotl(w, 30);
    Turn(ss, ws, i, v, w, x, y, z, f);
  }

  method R3(v: Word, w: Word, x: Word, y: Word, z: Word, i: nat, block: array<Word>,
      ghost ls: seq<Word>, ghost ws: seq<Word>, ghost ss: seq<Five>) returns (w': Word, z': Word)
    requires 40 <= i < 60 && IsSchedule(ws, ls) && IsRun(ss, ws) && Before(ss, i, v, w, x, y, z)
    requires block.Length == 16 && Window(block[..], ws, i)
    modifies block
    ensures Before(ss, i + 1, z', v, w', x, y) && Window(block[..], ws, i + 1)
  {
    var word := Blk(block, i, ls, ws);
    MajorityIs(w, x, y);
    var f := ((w | x) & y) | (w & x);
    z' := Sum(z, f, word, 0x8F1BBCDC, Rotl(v, 5));
    w' := Rotl(w, 30);
    Turn(ss, ws, i, v, w, x, y, z, f);
  }

  method R4(v: Word, w: Word, x: Word, y: Word, z: Word, i: nat, block: array<Word>,
      ghost ls: seq<Word>, ghost ws: seq<Word>, ghost ss: seq<Five>) returns (w': Word, z': Word)
    requires 60 <= i < 80 && IsSchedule(ws, ls) && IsRun(ss, ws) && Before(ss, i, v, w, x, y, z)
    requires block.Length == 16 && Window(block[..], ws, i)
    modifies block
    ensures Before(ss, i + 1, z', v, w', x, y) && Window(block[..], ws, i + 1)
  {
    var word := Blk(block, i, ls, ws);
    var f := w ^ x ^ y;
    z' := Sum(z, f, word, 0xCA62C1D6, Rotl(v, 5));
    w' := Rotl(w, 30);
    Turn(ss, ws, i, v, w, x, y, z, f);
  }

  // The 80 turns of SHA1Transform, unrolled and in nine pieces: instead of moving the variables the
  // source moves their names.

  method Turns0(h: Five, block: array<Word>, ghost ls: seq<Word>, ghost ws: seq<Word>, ghost ss: seq<Five>)
      returns (a: Word, b: Word, c: Word, d: Word, e: Word)
    requires IsSchedule(ws, ls) && IsRun(ss, ws) && Before(ss, 0, h.a, h.b, h.c, h.d, h.e)
    requires block.Length == 16 && Loaded(block[..], ls, ws, 0)
    modifies block
    ensures Before(ss, 10, a, b, c, d, e) && Loaded(block[..], ls, ws, 10)
  {
    a, b, c, d, e := h.a, h.b, h.c, h.d, h.e;
    b, e := R0(a, b, c, d, e, 0, block, ls, ws, ss);
    a, d := R0(e, a, b, c, d, 1, block, ls, ws, ss);
    e, c := R0(d, e, a, b, c, 2, block, ls, ws, ss);
    d, b := R0(c, d, e, a, b, 3, block, ls, ws, ss);
    c, a := R0(b, c, d, e, a, 4, block, ls, ws, ss);
    b, e := R0(a, b, c, d, e, 5, block, ls, ws, ss);
    a, d := R0(e, a, b, c, d, 6, block, ls, ws, ss);
    e, c := R0(d, e, a, b, c, 7, block, ls, ws, ss);
    d, b := R0(c, d, e, a, b, 8, block, ls, ws, ss);
    c, a := R0(b, c, d, e, a, 9, block, ls, ws, ss);
  }

  method Turns10(h: Five, block: array<Word>, ghost ls: seq<Word>, ghost ws: seq<Word>, ghost ss: seq<Five>)
      returns (a: Word, b: Word, c: Word, d: Word, e: Word)
    requires IsSchedule(ws, ls) && IsRun(ss, ws) && Before(ss, 10, h.a, h.b, h.c, h.d, h.e)
    requires block.Length == 16 && Loaded(block[..], ls, ws, 10)
    modifies block
    ensures Before(ss, 16, e, a, b, c, d) && Loaded(block[..], ls, ws, 16)
  {
    a, b, c, d, e := h.a, h.b, h.c, h.d, h.e;
    b, e := R0(a, b, c, d, e, 10, block, ls, ws, ss);
    a, d := R0(e, a, b, c, d, 11, block, ls, ws, ss);
    e, c := R0(d, e, a, b, c, 12, block, ls, ws, ss);
    d, b := R0(c, d, e, a, b, 13, block, ls, ws, ss);
    c, a := R0(b, c, d, e, a, 14, block, ls, ws, ss);
    b, e := R0(a, b, c, d, e, 15, block, ls, ws, ss);
  }

  method Turns16(h: Five, block: array<Word>, ghost ls: seq<Word>, ghost ws: seq<Word>, ghost ss: seq<Five>)
      returns (a: Word, b: Word, c: Word, d: Word, e: Word)
    requires IsSchedule(ws, ls) && IsRun(ss, ws) && Before(ss, 16, h.e, h.a, h.b, h.c, h.d)
    requires block.Length == 16 && Window(block[..], ws, 16)
    modifies block
    ensures Before(ss, 20, a, b, c, d, e) && Window(block[..], ws, 20)
  {
    a, b, c, d, e := h.a, h.b, h.c, h.d, h.e;
    a, d := R1(e, a, b, c, d, 16, block, ls, ws, ss);
    e, c := R1(d, e, a, b, c, 17, block, ls, ws, ss);
    d, b := R1(c, d, e, a, b, 18, block, ls, ws, ss);
    c, a := R1(b, c, d, e, a, 19, block, ls, ws, ss);
  }

  method Turns20(h: Five, block: array<Word>, ghost ls: seq<Word>, ghost ws: seq<Word>, ghost ss: seq<Five>)
      returns (a: Word, b: Word, c: Word, d: Word, e: Word)
    requires IsSchedule(ws, ls) && IsRun(ss, ws) && Before(ss, 20, h.a, h.b, h.c, h.d, h.e)
    requires block.Length == 16 && Window(block[..], ws, 20)
    modifies block
    ensures Before(ss, 30, a, b, c, d, e) && Window(block[..], ws, 30)
  {
    a, b, c, d, e := h.a, h.b, h.c, h.d, h.e;
    b, e := R2(a, b, c, d, e, 20, block, ls, ws, ss);
    a, d := R2(e, a, b, c, d, 21, block, ls, ws, ss);
    e, c := R2(d, e, a, b, c, 22, block, ls, ws, ss);
    d, b := R2(c, d, e, a, b, 23, block, ls, ws, ss);
    c, a := R2(b, c, d, e, a, 24, block, ls, ws, ss);
    b, e := R2(a, b, c, d, e, 25, block, ls, ws, ss);
    a, d := R2(e, a, b, c, d, 26, block, ls, ws, ss);
    e, c := R2(d, e, a, b, c, 27, block, ls, ws, ss);
    d, b := R2(c, d, e, a, b, 28, block, ls, ws, ss);
    c, a := R2(b, c, d, e, a, 29, block, ls, ws, ss);
  }

  method Turns30(h: Five, block: array<Word>, ghost ls: seq<Word>, ghost ws: seq<Word>, ghost ss: seq<Five>)
      returns (a: Word, b: Word, c: Word, d: Word, e: Word)
    requires IsSchedule(ws, ls) && IsRun(ss, ws) && Before(ss, 30, h.a, h.b, h.c, h.d, h.e)
    requires block.Length == 16 && Window(block[..], ws, 30)
    modifies block
    ensures Before(ss, 40, a, b, c, d, e) && Window(block[..], ws, 40)
  {
    a, b, c, d, e := h.a, h.b, h.c, h.d, h.e;
    b, e := R2(a, b, c, d, e, 30, block, ls, ws, ss);
    a, d := R2(e, a, b, c, d, 31, block, ls, ws, ss);
    e, c := R2(d, e, a, b, c, 32, block, ls, ws, ss);
    d, b := R2(c, d, e, a, b, 33, block, ls, ws, ss);
    c, a := R2(b, c, d, e, a, 34, block, ls, ws, ss);
    b, e := R2(a, b, c, d, e, 35, block, ls, ws, ss);
    a, d := R2(e, a, b, c, d, 36, block, ls, ws, ss);
    e, c := R2(d, e, a, b, c, 37, block, ls, ws, ss);
    d, b := R2(c, d, e, a, b, 38, block, ls, ws, ss);
    c, a := R2(b, c, d, e, a, 39, block, ls, ws, ss);
  }

  method Turns40(h: Five, block: array<Word>, ghost ls: seq<Word>, ghost ws: seq<Word>, ghost ss: seq<Five>)
      returns (a: Word, b: Word, c: Word, d: Word, e: Word)
    requires IsSchedule(ws, ls) && IsRun(ss, ws) && Before(ss, 40, h.a, h.b, h.c, h.d, h.e)
    requires block.Length == 16 && Window(block[..], ws, 40)
    modifies block
    ensures Before(ss, 50, a, b, c, d, e) && Window(block[..], ws, 50)
  {
    a, b, c, d, e := h.a, h.b, h.c, h.d, h.e;
    b, e := R3(a, b, c, d, e, 40, block, ls, ws, ss);
    a, d := R3(e, a, b, c, d, 41, block, ls, ws, ss);
    e, c := R3(d, e, a, b, c, 42, block, ls, ws, ss);
    d, b := R3(c, d, e, a, b, 43, block, ls, ws, ss);
    c, a := R3(b, c, d, e, a, 44, block, ls, ws, ss);
    b, e := R3(a, b, c, d, e, 45, block, ls, ws, ss);
    a, d := R3(e, a, b, c, d, 46, block, ls, ws, ss);
    e, c := R3(d, e, a, b, c, 47, block, ls, ws, ss);
    d, b := R3(c, d, e, a, b, 48, block, ls, ws, ss);
    c, a := R3(b, c, d, e, a, 49, block, ls, ws, ss);
  }

  method Turns50(h: Five, block: array<Word>, ghost ls: seq<Word>, ghost ws: seq<Word>, ghost ss: seq<Five>)
      returns (a: Word, b: Word, c: Word, d: Word, e: Word)
    requires IsSchedule(ws, ls) && IsRun(ss, ws) && Before(ss, 50, h.a, h.b, h.c, h.d, h.e)
    requires block.Length == 16 && Window(block[..], ws, 50)
    modifies block
    ensures Before(ss, 60, a, b, c, d, e) && Window(block[..], ws, 60)
  {
    a, b, c, d, e := h.a, h.b, h.c, h.d, h.e;
    b, e := R3(a, b, c, d, e, 50, block, ls, ws, ss);
    a, d := R3(e, a, b, c, d, 51, block, ls, ws, ss);
    e, c := R3(d, e, a, b, c, 52, block, ls, ws, ss);
    d, b := R3(c, d, e, a, b, 53, block, ls, ws, ss);
    c, a := R3(b, c, d, e, a, 54, block, ls, ws, ss);
    b, e := R3(a, b, c, d, e, 55, block, ls, ws, ss);
    a, d := R3(e, a, b, c, d, 56, block, ls, ws, ss);
    e, c := R3(d, e, a, b, c, 57, block, ls, ws, ss);
    d, b := R3(c, d, e, a, b, 58, block, ls, ws, ss);
    c, a := R3(b, c, d, e, a, 59, block, ls, ws, ss);
  }

  method Turns60(h: Five, block: array<Word>, ghost ls: seq<Word>, ghost ws: seq<Word>, ghost ss: seq<Five>)
      returns (a: Word, b: Word, c: Word, d: Word, e: Word)
    requires IsSchedule(ws, ls) && IsRun(ss, ws) && Before(ss, 60, h.a, h.b, h.c, h.d, h.e)
    requires block.Length == 16 && Window(block[..], ws, 60)
    modifies block
    ensures Before(ss, 70, a, b, c, d, e) && Window(block[..], ws, 70)
  {
    a, b, c, d, e := h.a, h.b, h.c, h.d, h.e;
    b, e := R4(a, b, c, d, e, 60, block, ls, ws, ss);
    a, d := R4(e, a, b, c, d, 61, block, ls, ws, ss);
    e, c := R4(d, e, a, b, c, 62, block, ls, ws, ss);
    d, b := R4(c, d, e, a, b, 63, block, ls, ws, ss);
    c, a := R4(b, c, d, e, a, 64, block, ls, ws, ss);
    b, e := R4(a, b, c, d, e, 65, block, ls, ws, ss);
    a, d := R4(e, a, b, c, d, 66, block, ls, ws, ss);
    e, c := R4(d, e, a, b, c, 67, block, ls, ws, ss);
    d, b := R4(c, d, e, a, b, 68, block, ls, ws, ss);
    c, a := R4(b, c, d, e, a, 69, block, ls, ws, ss);
  }

  method Turns70(h: Five, block: array<Word>, ghost ls: seq<Word>, ghost ws: seq<Word>, ghost ss: seq<Five>)
      returns (a: Word, b: Word, c: Word, d: Word, e: Word)
    requires IsSchedule(ws, ls) && IsRun(ss, ws) && Before(ss, 70, h.a, h.b, h.c, h.d, h.e)
    requires block.Length == 16 && Window(block[..], ws, 70)
    modifies block
    ensures Before(ss, 80, a, b, c, d, e) && Window(block[..], ws, 80)
  {
    a, b, c, d, e := h.a, h.b, h.c, h.d, h.e;
    b, e := R4(a, b, c, d, e, 70, block, ls, ws, ss);
    a, d := R4(e, a, b, c, d, 71, block, ls, ws, ss);
    e, c := R4(d, e, a, b, c, 72, block, ls, ws, ss);
    d, b := R4(c, d, e, a, b, 73, block, ls, ws, ss);
    c, a := R4(b, c, d, e, a, 74, block, ls, ws, ss);
    b, e := R4(a, b, c, d, e, 75, block, ls, ws, ss);
    a, d := R4(e, a, b, c, d, 76, block, ls, ws, ss);
    e, c := R4(d, e, a, b, c, 77, block, ls, ws, ss);
    d, b := R4(c, d, e, a, b, 78, block, ls, ws, ss);
    c, a := R4(b, c, d, e, a, 79, block, ls, ws, ss);
  }

  // ---------------------------------------------------------------- SHA1Transform

  /** The working variables before each turn and after the last. */
  ghost function RunOf(h: Five, ws: seq<Word>): (ss: seq<Five>)
    requires |ws| == 80
  {
    seq(81, t requires 0 <= t < 81 => Rounds(h, ws, t))
  }

  lemma RunIs(h: Five, ws: seq<Word>)
    requires |ws| == 80
    ensures IsRun(RunOf(h, ws), ws) && RunOf(h, ws)[0] == h && RunOf(h, ws)[80] == Rounds(h, ws, 80)
  {
    forall t | 0 <= t < 80 ensures Steps(RunOf(h, ws), ws, t) {
    }
  }

  lemma {:induction false} SchedulePrefix(m: seq<Byte>, n: nat, t: nat)
    requires |m| == 64 && t <= n
    ensures Schedule(m, n)[..t] == Schedule(m, t)
    decreases n
  {
    if t < n {
      SchedulePrefix(m, n - 1, t);
      assert Schedule(m, n)[..t] == Schedule(m, n - 1)[..t];
    }
  }

  lemma ScheduleWord(m: seq<Byte>, n: nat, t: nat)
    requires |m| == 64 && t < n
    ensures Schedule(m, n)[t] == NextWord(m, Schedule(m, n)[..t])
  {
    SchedulePrefix(m, n, t + 1);
    SchedulePrefix(m, n, t);
    assert Schedule(m, n)[t] == Schedule(m, n)[..t + 1][t];
  }

  /** The words of a block as a little-endian machine loads them. */
  function LoadedWord(m: seq<Byte>, t: nat): Word
    requires |m| == 64 && t < 16
  {
    LittleEndian(m[4 * t], m[4 * t + 1], m[4 * t + 2], m[4 * t + 3])
  }

  lemma ScheduleExpands(m: seq<Byte>, t: nat)
    requires |m| == 64 && 16 <= t < 80
    ensures Expands(Schedule(m, 80), t)
  {
    ScheduleWord(m, 80, t);
  }

  lemma ScheduleSwaps(m: seq<Byte>, t: nat)
    requires |m| == 64 && t < 16
    ensures Swap(LoadedWord(m, t)) == Schedule(m, 80)[t]
  {
    ScheduleWord(m, 80, t);
    SwapLoad(m[4 * t], m[4 * t + 1], m[4 * t + 2], m[4 * t + 3]);
  }

  lemma LoadIsSchedule(m: seq<Byte>, ls: seq<Word>)
    requires |m| == 64 && |ls| == 16 && forall t :: 0 <= t < 16 ==> ls[t] == LoadedWord(m, t)
    ensures IsSchedule(Schedule(m, 80), ls)
  {
    var ws := Schedule(m, 80);
    forall t | 0 <= t < 16 ensures Swap(ls[t]) == ws[t] {
      ScheduleSwaps(m, t);
    }
    forall t | 16 <= t < 80 ensures Expands(ws, t) {
      ScheduleExpands(m, t);
    }
  }

  /** The 80 turns from the hash value h. */
  method Turns(h: Five, block: array<Word>, ghost ls: seq<Word>, ghost ws: seq<Word>, ghost ss: seq<Five>)
      returns (s: Five)
    requires IsSchedule(ws, ls) && IsRun(ss, ws) && ss[0] == h
    requires block.Length == 16 && Loaded(block[..], ls, ws, 0)
    modifies block
    ensures s == ss[80]
  {
    var a, b, c, d, e := Turns0(h, block, ls, ws, ss);
    a, b, c, d, e := Turns10(Five(a, b, c, d, e), block, ls, ws, ss);
    LoadedWindow(block[..], ls, ws);
    a, b, c, d, e := Turns16(Five(a, b, c, d, e), block, ls, ws, ss);
    a, b, c, d, e := Turns20(Five(a, b, c, d, e), block, ls, ws, ss);
    a, b, c, d, e := Turns30(Five(a, b, c, d, e), block, ls, ws, ss);
    a, b, c, d, e := Turns40(Five(a, b, c, d, e), block, ls, ws, ss);
    a, b, c, d, e := Turns50(Five(a, b, c, d, e), block, ls, ws, ss);
    a, b, c, d, e := Turns60(Five(a, b, c, d, e), block, ls, ws, ss);
    a, b, c, d, e := Turns70(Five(a, b, c, d, e), block, ls, ws, ss);
    s := Five(a, b, c, d, e);
  }

  /** SHA1Transform: the new hash value is that of section 6.1.2 of FIPS 180-4. */
  method Transform(state: Five, buffer: seq<Byte>) returns (state': Five)
    requires |buffer| == 64
    ensures state' == Compress(state, buffer)
  {
    var block := new Word[16](k requires 0 <= k < 16 => LoadedWord(buffer, k));
    ghost var ws := Schedule(buffer, 80);
    LoadIsSchedule(buffer, block[..]);
    RunIs(state, ws);
    var s := Turns(state, block, block[..], ws, RunOf(state, ws));
    state' := Five(Add(state.a, s.a), Add(state.b, s.b), Add(state.c, s.c), Add(state.d, s.d), Add(state.e, s.e));
  }
}
