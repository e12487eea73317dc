/** lzf_compress (src/lzf_c.c) in its default VERY_FAST form, on its buffers and hash table.

    Offsets into the input stand for input pointers.  A slot of the hash table that has not
    been written yet may hold any pointer at all, so its offset may be any integer; the
    unsigned comparison of line 155 then accepts it exactly if 0 <= ip - ref - 1 < MAX_OFF.
 */
module LzfCompress {
  import opened LzfFormat
  import opened Sequences
  import opened Options

  // ---------------------------------------------------------------- the state of compression

  /** `enc` stands for `data`: whatever begins with enc decodes as data up to there. */
  ghost predicate Written(data: seq<Byte>, enc: seq<Byte>) {
    forall s, room :: enc <= s && |data| <= room ==> Decode(s, 0, [], room) == Decode(s, |enc|, data, room)
  }

  lemma WrittenNothing()
    ensures Written([], [])
  {
  }

  lemma TokenContinues(s: seq<Byte>, enc: seq<Byte>, e: seq<Byte>, t: Token, data: seq<Byte>, room: nat)
    requires t.Valid() && e == t.Encode() && enc + e <= s
    requires t.Apply(data).Some? && |data| + t.Size() <= room
    ensures Decode(s, |enc|, data, room) == Decode(s, |enc + e|, t.Apply(data).value, room)
  {
    PrefixSplits(enc, e, s);
    DecodeToken(s, |enc|, t, data, room);
    DecodeStep(s, |enc|, data, room, |enc| + |e|, t.Apply(data).value);
  }

  lemma WrittenToken(data: seq<Byte>, enc: seq<Byte>, t: Token, data': seq<Byte>)
    requires Written(data, enc) && t.Valid() && t.Apply(data) == Some(data')
    ensures Written(data', enc + t.Encode())
  {
    var e := t.Encode();
    forall s, room | enc + e <= s && |data'| <= room
      ensures Decode(s, 0, [], room) == Decode(s, |enc + e|, data', room)
    {
      assert enc <= s;
      TokenContinues(s, enc, e, t, data, room);
    }
  }

  lemma WrittenDecodes(data: seq<Byte>, enc: seq<Byte>, room: nat)
    requires Written(data, enc) && |data| <= room
    ensures Decode(enc, 0, [], room) == Done(data)
    ensures data != [] ==> enc != []
  {
    assert Decode(enc, 0, [], room) == Decode(enc, |enc|, data, room);
  }

  /** The input up to ip is in the output up to op.  `full` counts runs of 32 literals, and
      `slack` is 1 if the last token is a shorter run, whose control byte no match has paid for. */
  ghost predicate Closed(data: seq<Byte>, out: seq<Byte>, ip: nat, op: nat, full: nat, slack: nat) {
    && ip <= |data| && op <= |out|
    && Written(data[..ip], out[..op])
    && op <= ip + full + slack
    && 32 * full <= ip
  }

  /** The input up to `from` is in the output up to `at`; the control byte at `at` has been
      skipped and the `lit` bytes of input from there up to ip follow it, up to op. */
  ghost predicate OpenAt(data: seq<Byte>, out: seq<Byte>, from: nat, at: nat, lit: nat, full: nat, ip: nat, op: nat) {
    && from + lit == ip <= |data| && at + 1 + lit == op
    && (lit > 0 ==> op <= |out| && out[at + 1..op] == data[from..ip])
    && Closed(data, out, from, at, full, 0)
  }

  /** The same in the source's variables only. */
  ghost predicate Open(data: seq<Byte>, out: seq<Byte>, ip: nat, op: nat, lit: nat, full: nat) {
    exists from: nat, at: nat :: OpenAt(data, out, from, at, lit, full, ip, op)
  }

  lemma NothingYet(data: seq<Byte>, out: seq<Byte>)
    ensures Open(data, out, 0, 1, 0, 0)
  {
    WrittenNothing();
    assert [] == out[..0] && data[..0] == [];
    assert OpenAt(data, out, 0, 0, 0, 0, 0, 1);
  }

  lemma ClosedFrame(data: seq<Byte>, out: seq<Byte>, out': seq<Byte>, ip: nat, op: nat, full: nat, slack: nat)
    requires Closed(data, out, ip, op, full, slack)
    requires op <= |out'| && out'[..op] == out[..op]
    ensures Closed(data, out', ip, op, full, slack)
  {
  }

  lemma AddLiteralAt(data: seq<Byte>, out: seq<Byte>, from: nat, at: nat, lit: nat, full: nat, ip: nat, op: nat)
    requires OpenAt(data, out, from, at, lit, full, ip, op)
    requires ip < |data| && op < |out|
    ensures OpenAt(data, out[op := data[ip]], from, at, lit + 1, full, ip + 1, op + 1)
  {
    var out' := out[op := data[ip]];
    assert lit == 0 ==> out[at + 1..op] == [] == data[from..ip];
    UpdateAppends(out, at + 1, op, data[ip]);
    SliceSnoc(data, from, ip);
    UpdateKeepsTake(out, at, op, data[ip]);
    ClosedFrame(data, out, out', from, at, full, 0);
  }

  /** Line 266: one more literal. */
  lemma AddLiteral(data: seq<Byte>, out: seq<Byte>, ip: nat, op: nat, lit: nat, full: nat)
    requires Open(data, out, ip, op, lit, full)
    requires ip < |data| && op < |out|
    ensures Open(data, out[op := data[ip]], ip + 1, op + 1, lit + 1, full)
  {
    var from: nat, at: nat :| OpenAt(data, out, from, at, lit, full, ip, op);
    AddLiteralAt(data, out, from, at, lit, full, ip, op);
  }

  lemma WrittenRun(data: seq<Byte>, out: seq<Byte>, out': seq<Byte>, from: nat, at: nat, lits: seq<Byte>,
      ip: nat, op: nat)
    requires at + 1 + |lits| == op <= |out| && from + |lits| == ip <= |data| && 0 < |lits| <= MAX_LIT
    requires Written(data[..from], out[..at])
    requires out[at + 1..op] == lits == data[from..ip]
    requires out' == out[at := |lits| - 1]
    ensures Written(data[..ip], out'[..op])
  {
    TakeExtends(data, from, ip);
    WrittenToken(data[..from], out[..at], Run(lits), data[..ip]);
    UpdateSplits(out, at, |lits| - 1, op);
  }

  /** Lines 173, 270 and 290: write the control byte in front of the open literals. */
  lemma CloseRun(data: seq<Byte>, out: seq<Byte>, out': seq<Byte>, from: nat, at: nat, lit: nat, full: nat,
      ip: nat, op: nat)
    requires OpenAt(data, out, from, at, lit, full, ip, op) && 0 < lit <= MAX_LIT
    requires out' == out[at := lit - 1]
    ensures Closed(data, out', ip, op, full, 1)
    ensures lit == MAX_LIT ==> Closed(data, out', ip, op, full + 1, 0)
  {
    var lits := data[from..ip];
    assert |lits| == lit;
    WrittenRun(data, out, out', from, at, lits, ip, op);
  }

  /** Lines 225 and 271: leave a byte for the control byte of the next run. */
  lemma StartRun(data: seq<Byte>, out: seq<Byte>, ip: nat, op: nat, full: nat)
    requires Closed(data, out, ip, op, full, 0)
    ensures Open(data, out, ip, op + 1, 0, full)
  {
    assert OpenAt(data, out, ip, op, 0, full, ip, op + 1);
  }

  lemma WrittenRef(data: seq<Byte>, enc: seq<Byte>, ip: nat, ref: nat, t: Token, end: nat)
    requires t.Ref? && t.Valid() && Matches(data, ref, ip, t.len + 2)
    requires t.Off() + 1 == ip - ref && end == ip + t.len + 2
    requires Written(data[..ip], enc)
    ensures Written(data[..end], enc + t.Encode())
  {
    RefApplies(data, ip, ref, t, end);
    WrittenToken(data[..ip], enc, t, data[..end]);
  }

  lemma RefApplies(data: seq<Byte>, ip: nat, ref: nat, t: Token, end: nat)
    requires t.Ref? && Matches(data, ref, ip, t.len + 2)
    requires t.Off() + 1 == ip - ref && end == ip + t.len + 2
    ensures t.Apply(data[..ip]) == Some(data[..end])
  {
    MatchCopies(data, ref, ip, t.len + 2, t.Off() + 1, end);
  }

  /** Lines 214-224: the match is at least as long as the reference e to it and the control byte
      of a run before it. */
  lemma AddReference(data: seq<Byte>, out: seq<Byte>, ip: nat, op: nat, full: nat, ip': nat, op': nat)
    requires op <= ip + full + 1 && 32 * full <= ip
    requires ip' <= |data| && op' <= |out| && op < op' && op' - op + 1 <= ip' - ip
    requires Written(data[..ip'], out[..op'])
    ensures Closed(data, out, ip', op', full, 0)
  {
  }

  // ---------------------------------------------------------------- the steps of the loop

  /** Lines 173-174 and 290-291: close the open run, or take back its control byte if it is
      empty.  The control byte of an empty run is written all the same, and may be the spare
      byte after the end of the buffer. */
  method CloseOpen(outp: array<Byte>, op: nat, lit: nat, ghost data: seq<Byte>, ghost ip: nat, ghost full: nat)
    returns (op': nat, ghost slack: nat)
    requires Open(data, outp[..], ip, op, lit, full) && lit < MAX_LIT && op <= outp.Length
    modifies outp
    ensures op' == (if lit == 0 then op - 1 else op)
    ensures op - lit - 1 < outp.Length && outp[op - lit - 1] == if lit == 0 then 255 else lit - 1
    ensures Closed(data, outp[..], ip, op', full, slack) && slack <= 1 && 32 * full + slack <= ip
  {
    ghost var out := outp[..];
    ghost var from: nat, at: nat :| OpenAt(data, out, from, at, lit, full, ip, op);
    var control: Byte := if lit == 0 then 255 else lit - 1;  // (u8)(lit - 1)
    Store(outp, op - lit - 1, control);
    if lit == 0 {
      op', slack := op - 1, 0;
      EmptyRun(data, out, outp[..], from, at, full, ip, op, control);
    } else {
      op', slack := op, 1;
      CloseRun(data, out, outp[..], from, at, lit, full, ip, op);
    }
  }

  lemma EmptyRun(data: seq<Byte>, out: seq<Byte>, out': seq<Byte>, from: nat, at: nat, full: nat, ip: nat,
      op: nat, x: Byte)
    requires OpenAt(data, out, from, at, 0, full, ip, op) && op <= |out|
    requires out' == out[at := x]
    ensures Closed(data, out', ip, op - 1, full, 0)
  {
    UpdateKeepsTake(out, at, at, x);
    ClosedFrame(data, out, out', from, at, full, 0);
  }

  /** Lines 214-224. */
  method EmitReference(outp: array<Byte>, op: nat, off: nat, len: nat) returns (op': nat, ghost t: Token)
    requires off < MAX_OFF && 1 <= len <= MAX_REF - 2 && op + 3 <= outp.Length
    modifies outp
    ensures t.Ref? && t.Valid() && t.len == len && t.Off() == off
    ensures op < op' <= op + 3 && op' - op + 1 <= t.len + 2 && outp[..op'] == old(outp[..op]) + t.Encode()
  {
    op' := op;
    var hi, lo := off / 256, off % 256;
    t := Ref(hi, lo, len);
    if len < 7 {
      outp[op'] := hi + len * 32;
      op' := op' + 1;
    } else {
      outp[op'] := hi + 7 * 32;
      outp[op' + 1] := len - 7;
      op' := op' + 2;
    }
    outp[op'] := lo;
    op' := op' + 1;
  }

  /** Lines 169-209: the number of equal bytes found, given that the first three are equal.  The
      loop of sixteen steps stands for the sixteen written-out comparisons; it may pass maxlen,
      but not the end of the input. */
  method MatchLength(inp: array<Byte>, inLen: nat, ref: nat, ip: nat) returns (len: nat)
    requires ref < ip && ip + 4 < inLen <= inp.Length
    requires Matches(inp[..inLen], ref, ip, 3)
    ensures 3 <= len <= MAX_REF && Matches(inp[..inLen], ref, ip, len)
  {
    ghost var data := inp[..inLen];
    var maxlen := inLen - ip - 2;
    maxlen := if maxlen > MAX_REF then MAX_REF else maxlen;
    len := 2;
    if maxlen > 16 {
      while len < 18
        invariant 2 <= len <= 18 && Matches(data, ref, ip, if len == 2 then 3 else len + 1)
      {
        len := len + 1;
        if inp[ref + len] != inp[ip + len] {
          return;
        }
        assert data[ip + len] == data[ip + len - (ip - ref)];
      }
    }
    len := len + 1;
    while len < maxlen && inp[ref + len] == inp[ip + len]
      invariant 3 <= len && (len <= maxlen || len == 19) && Matches(data, ref, ip, len)
    {
      assert data[ip + len] == data[ip + len - (ip - ref)];
      len := len + 1;
    }
  }

  /** Lines 266-272 and 281-287: one more literal, and the end of the run if it is full. */
  method PutLiteral(inp: array<Byte>, ip: nat, outp: array<Byte>, op0: nat, lit0: nat, ghost data: seq<Byte>,
      ghost full0: nat)
    returns (op: nat, lit: nat, ghost full: nat)
    requires inp != outp && ip < |data| <= inp.Length && op0 < outp.Length && data[ip] == inp[ip]
    requires Open(data, outp[..], ip, op0, lit0, full0) && lit0 < MAX_LIT
    modifies outp
    ensures Open(data, outp[..], ip + 1, op, lit, full) && lit < MAX_LIT
    ensures op == op0 + (if lit == 0 then 2 else 1) && lit == if lit0 == MAX_LIT - 1 then 0 else lit0 + 1
  {
    ghost var out := outp[..];
    Store(outp, op0, inp[ip]);
    op, lit, full := op0 + 1, lit0 + 1, full0;
    AddLiteral(data, out, ip, op0, lit0, full);
    if lit == MAX_LIT {
      EndFullRun(outp, op, data, ip + 1, full);
      op, lit, full := op + 1, 0, full + 1;
    }
  }

  /** Lines 270-271. */
  method EndFullRun(outp: array<Byte>, op: nat, ghost data: seq<Byte>, ghost ip: nat, ghost full: nat)
    requires Open(data, outp[..], ip, op, MAX_LIT, full)
    modifies outp
    ensures Open(data, outp[..], ip, op + 1, 0, full + 1)
  {
    ghost var out := outp[..];
    ghost var from: nat, at: nat :| OpenAt(data, out, from, at, MAX_LIT, full, ip, op);
    var control: Byte := MAX_LIT - 1;
    Store(outp, op - MAX_LIT - 1, control);
    CloseRun(data, out, outp[..], from, at, MAX_LIT, full, ip, op);
    StartRun(data, outp[..], ip, op, full + 1);
  }

  /** Lines 179-227: the match at ref becomes a back reference, and a new run starts. */
  method PutReference(inp: array<Byte>, inLen: nat, ip0: nat, ref: nat, outp: array<Byte>, op0: nat,
      ghost full: nat, ghost slack: nat)
    returns (ip: nat, op: nat)
    requires inp != outp && ip0 + 4 < inLen <= inp.Length && op0 + 3 <= outp.Length
    requires Closed(inp[..inLen], outp[..], ip0, op0, full, slack) && slack <= 1
    requires ref < ip0 && ip0 - ref - 1 < MAX_OFF && Matches(inp[..inLen], ref, ip0, 3)
    modifies outp
    ensures ip0 + 3 <= ip <= inLen && op <= op0 + 4 && Open(inp[..inLen], outp[..], ip, op, 0, full)
  {
    ghost var data, out := inp[..inLen], outp[..];
    var len := MatchLength(inp, inLen, ref, ip0);
    len := len - 2;
    var off := ip0 - ref - 1;
    ghost var t;
    op, t := EmitReference(outp, op0, off, len);
    ip := ip0 + len + 2;
    WrittenRef(data, out[..op0], ip0, ref, t, ip);
    assert inp[..inLen] == data && out[..op0] == old(outp[..op0]);
    AddReference(data, outp[..], ip0, op0, full, ip, op);
    StartRun(data, outp[..], ip, op, full);
    op := op + 1;
  }

  /** Lines 168-227: close the open run and put the reference, unless the room runs out. */
  method PutMatch(inp: array<Byte>, inLen: nat, ip0: nat, ref: nat, outp: array<Byte>, outLen: nat, op0: nat, lit: nat,
                  ghost full: nat)
    returns (ok: bool, ip: nat, op: nat)
    requires inp != outp && ip0 + 4 < inLen <= inp.Length && outLen < outp.Length && op0 <= outLen + 1
    requires Open(inp[..inLen], outp[..], ip0, op0, lit, full) && lit < MAX_LIT
    requires ref < ip0 && ip0 - ref - 1 < MAX_OFF && Matches(inp[..inLen], ref, ip0, 3)
    modifies outp
    ensures ok ==> ip0 + 3 <= ip <= inLen && op <= outLen && Open(inp[..inLen], outp[..], ip, op, 0, full)
    ensures !ok ==> op0 + 4 >= outLen
    ensures (if lit == 0 then op0 + 3 else op0 + 4) >= outLen ==> !ok
    ensures !ok && lit == 0 ==> op0 - 1 < outp.Length && outp[op0 - 1] == 255
  {
    ghost var data := inp[..inLen];
    ip := ip0;
    ghost var slack;
    op, slack := CloseOpen(outp, op0, lit, data, ip, full);
    assert inp[..inLen] == data;
    ok := !(op + 3 + 1 >= outLen);
    if ok {
      ip, op := PutReference(inp, inLen, ip, ref, outp, op, full, slack);
    }
  }

  // ---------------------------------------------------------------- hashing

  const HSIZE := 65536  // 1 << HLOG

  function First(p0: Byte, p1: Byte): nat { p0 * 256 + p1 }

  /** `v << 8 | p2` on 32 bits. */
  function Next(v: nat, p2: Byte): nat { (v * 256 + p2) % 0x1_0000_0000 }

  /** IDX of the VERY_FAST form, ((h >> 8) - h * 5) & 0xffff: one hash function that can be
      given to Compress. */
  function HashIndex(h: nat): (i: nat)
    ensures i < HSIZE
  {
    (h / 256 - h * 5) % HSIZE
  }

  /** Lines 233-248: enter the last two positions of a match into the hash table. */
  method Rehash(inp: array<Byte>, ip: nat, htab: array<int>, hash: nat -> nat) returns (hval: nat)
    requires 2 <= ip && ip + 2 <= inp.Length
    requires forall h :: hash(h) < htab.Length
    modifies htab
  {
    hval := First(inp[ip - 2], inp[ip - 1]);
    hval := Next(hval, inp[ip]);
    htab[hash(hval)] := ip - 2;
    hval := Next(hval, inp[ip + 1]);
    htab[hash(hval)] := ip - 1;
  }

  /** Lines 155-165: the entry found in the hash table is a usable match at ip. */
  predicate Usable(inp: array<Byte>, inLen: nat, ip: nat, ref: int)
    requires ip < inLen <= inp.Length
    reads inp
  {
    && 0 <= ip - ref - 1 < MAX_OFF
    && ip + 4 < inLen
    && ref > 0
    && inp[ref] == inp[ip] && inp[ref + 1] == inp[ip + 1] && inp[ref + 2] == inp[ip + 2]
  }

  lemma UsableMatches(inp: array<Byte>, inLen: nat, ip: nat, ref: int)
    requires ip < inLen <= inp.Length && Usable(inp, inLen, ip, ref)
    ensures 0 <= ref < ip && Matches(inp[..inLen], ref, ip, 3)
  {
    var data := inp[..inLen];
    forall k | ip <= k < ip + 3 ensures data[k] == data[k - (ip - ref)] {
      assert k == ip || k == ip + 1 || k == ip + 2;
    }
  }

  // ---------------------------------------------------------------- the whole

  /** The state between two turns of the main loop. */
  ghost predicate Running(data: seq<Byte>, out: seq<Byte>, outLen: nat, ip: nat, op: nat, lit: nat, full: nat) {
    Open(data, out, ip, op, lit, full) && lit < MAX_LIT && op <= outLen + 1 && (lit > 0 ==> op <= outLen)
  }

  /** The room runs out only if it is less than the bound. */
  ghost predicate Short(inLen: nat, outLen: nat, full: nat) {
    32 * full <= inLen && outLen < inLen + full + 4
  }

  lemma RoomSuffices(data: seq<Byte>, out: seq<Byte>, ip: nat, op: nat, lit: nat, full: nat, outLen: nat)
    requires Open(data, out, ip, op, lit, full)
    requires (ip + 4 < |data| && op + 4 >= outLen) || op + 3 > outLen
    ensures Short(|data|, outLen, full)
  {
    assert op <= ip + full + 1;
  }

  /** Line 173 closes the open run before line 176 tests the space.  Its byte lies within out_len, except
      when the run is empty and op is one past the end: then it is the byte behind. */
  lemma StopRunIndex(data: seq<Byte>, out: seq<Byte>, outLen: nat, ip: nat, op: nat, lit: nat, full: nat)
    requires Running(data, out, outLen, ip, op, lit, full)
    ensures 0 <= op - lit - 1 <= outLen
    ensures op - lit - 1 == outLen <==> lit == 0 && op == outLen + 1
  {
    var from: nat, at: nat :| OpenAt(data, out, from, at, lit, full, ip, op);
  }

  /** One turn of the loop of lines 145-274, without the hashing: take the match or a literal. */
  method Turn(inp: array<Byte>, inLen: nat, ip0: nat, ref: int, outp: array<Byte>, outLen: nat, op0: nat,
      lit0: nat, ghost full0: nat)
    returns (ok: bool, matched: bool, ip: nat, op: nat, lit: nat, ghost full: nat)
    requires inp != outp && ip0 + 2 < inLen <= inp.Length && outLen < outp.Length
    requires Running(inp[..inLen], outp[..], outLen, ip0, op0, lit0, full0)
    modifies outp
    ensures ok ==> ip0 < ip <= inLen && (matched ==> ip0 + 3 <= ip)
    ensures ok ==> Running(inp[..inLen], outp[..], outLen, ip, op, lit, full)
    ensures !ok ==> Short(inLen, outLen, full)
    ensures matched == Usable(inp, inLen, ip0, ref)
    ensures !matched && op0 < outLen ==>
              && ok && ip == ip0 + 1 && lit == (if lit0 == MAX_LIT - 1 then 0 else lit0 + 1)
              && op == op0 + if lit == 0 then 2 else 1
    ensures matched && lit0 == 0 && op0 > outLen ==> !ok && op0 - 1 < outp.Length && outp[op0 - 1] == 255
  {
    ghost var data, out := inp[..inLen], outp[..];
    ip, op, lit, full := ip0, op0, lit0, full0;
    matched := Usable(inp, inLen, ip, ref);
    if matched {
      UsableMatches(inp, inLen, ip, ref);
      ok, ip, op := PutMatch(inp, inLen, ip, ref, outp, outLen, op, lit, full);
      lit := 0;
    } else {
      ok := op < outLen;
      if ok {
        op, lit, full := PutLiteral(inp, ip, outp, op, lit, data, full);
        ip := ip + 1;
      }
    }
    assert inp[..inLen] == data;
    if !ok {
      RoomSuffices(data, out, ip0, op0, lit0, full0, outLen);
    }
  }

  /** One turn of the loop of lines 145-274. */
  method Round(inp: array<Byte>, inLen: nat, ip0: nat, outp: array<Byte>, outLen: nat, op0: nat, lit0: nat,
      htab: array<int>, hash: nat -> nat, hval0: nat, ghost full0: nat)
    returns (ok: bool, ip: nat, op: nat, lit: nat, hval: nat, ghost full: nat)
    requires inp != outp && ip0 + 2 < inLen <= inp.Length && outLen < outp.Length
    requires forall h :: hash(h) < htab.Length
    requires Running(inp[..inLen], outp[..], outLen, ip0, op0, lit0, full0)
    modifies outp, htab
    ensures inp[..inLen] == old(inp[..inLen])
    ensures ok ==> ip0 < ip && Running(inp[..inLen], outp[..], outLen, ip, op, lit, full)
    ensures !ok ==> Short(inLen, outLen, full)
    ensures var slot := hash(Next(hval0, inp[ip0 + 2]));
      if Usable(inp, inLen, ip0, old(htab[slot])) then
        lit0 == 0 && op0 > outLen ==> !ok && op0 - 1 < outp.Length && outp[op0 - 1] == 255
      else
        op0 < outLen ==>
          && ok && ip == ip0 + 1 && lit == (if lit0 == MAX_LIT - 1 then 0 else lit0 + 1)
          && op == op0 + (if lit == 0 then 2 else 1) && htab[..] == old(htab[..])[slot := ip0]
  {
    ghost var data := inp[..inLen];
    hval := Next(hval0, inp[ip0 + 2]);
    var slot := hash(hval);
    var ref := htab[slot];
    htab[slot] := ip0;
    assert inp[..inLen] == data;
    var matched;
    ok, matched, ip, op, lit, full := Turn(inp, inLen, ip0, ref, outp, outLen, op0, lit0, full0);
    assert inp[..inLen] == data;
    if ok && matched && ip + 2 < inLen {
      hval := Rehash(inp, ip, htab, hash);
    }
  }

  /** Lines 142-274: the result is false if the room ran out. */
  method MainLoop(inp: array<Byte>, inLen: nat, outp: array<Byte>, outLen: nat, htab: array<int>, hash: nat -> nat)
    returns (ok: bool, ip: nat, op: nat, lit: nat, ghost full: nat)
    requires inp != outp
    requires 0 < inLen <= inp.Length && 0 < outLen < outp.Length
    requires forall h :: hash(h) < htab.Length
    modifies outp, htab
    ensures inp[..inLen] == old(inp[..inLen])
    ensures ok ==> inLen <= ip + 2 && Running(inp[..inLen], outp[..], outLen, ip, op, lit, full)
    ensures !ok ==> Short(inLen, outLen, full)
  {
    ghost var data := inp[..inLen];
    ok, ip, op, lit, full := true, 0, 1, 0, 0;
    NothingYet(data, outp[..]);
    var hval: nat := if inLen == 1 then 0 else First(inp[0], inp[1]);
    while ok && ip + 2 < inLen
      invariant inp[..inLen] == data
      invariant if ok then Running(data, outp[..], outLen, ip, op, lit, full) else Short(inLen, outLen, full)
      decreases if ok then 1 else 0, inLen - ip
    {
      ok, ip, op, lit, hval, full := Round(inp, inLen, ip, outp, outLen, op, lit, htab, hash, hval, full);
    }
  }

  /** The case of StopRunIndex at an input: 32 different bytes, the last of them repeated from there on,
      and room for 33.  The 32 literals leave an empty run one past the end; the match found there closes
      it with the byte 255 behind out_len, and only then does the space run out. */
  method StopRunBehind(inp: array<Byte>, inLen: nat, outp: array<Byte>, htab: array<int>, hash: nat -> nat)
    returns (ok: bool)
    requires inp != outp && 37 <= inLen <= inp.Length && outp.Length == 34 && htab.Length == 1 && htab[0] == 0
    requires forall h :: hash(h) == 0
    requires forall i :: 0 <= i < inLen ==> inp[i] == if i < 32 then i else 31
    modifies outp, htab
    ensures !ok && outp[33] == 255
  {
    ghost var data := inp[..inLen];
    var ip, op, lit;
    ghost var full: nat;
    ok, ip, op, lit, full := true, 0, 1, 0, 0;
    NothingYet(data, outp[..]);
    var hval: nat := First(inp[0], inp[1]);
    while ip < 32
      invariant 0 <= ip <= 32 && inp[..inLen] == data && Running(data, outp[..], 33, ip, op, lit, full)
      invariant if ip < 32 then lit == ip && op == ip + 1 else lit == 0 && op == 34
      invariant htab[0] == if ip == 0 then 0 else ip - 1
      decreases 32 - ip
    {
      assert !Usable(inp, inLen, ip, htab[0]) by {
        assert inp[ip] == data[ip];
      }
      ok, ip, op, lit, hval, full := Round(inp, inLen, ip, outp, 33, op, lit, htab, hash, hval, full);
    }
    ok, ip, op, lit, hval, full := Round(inp, inLen, ip, outp, 33, op, lit, htab, hash, hval, full);
  }

  /** lzf_compress, for any hash function and any initial contents of the hash table.  Besides
      out_len bytes, the output buffer has one spare byte (see CloseOpen). */
  method Compress(inp: array<Byte>, inLen: nat, outp: array<Byte>, outLen: nat, htab: array<int>, hash: nat -> nat)
    returns (n: nat)
    requires inp != outp
    requires inLen <= inp.Length && outLen < outp.Length
    requires forall h :: hash(h) < htab.Length
    modifies outp, htab
    ensures n <= outLen && n <= inLen + (inLen + 31) / 32
    ensures n > 0 ==> forall room :: inLen <= room ==> Decode(outp[..n], 0, [], room) == Done(inp[..inLen])
    ensures 0 < inLen && inLen + inLen / 32 + 4 <= outLen ==> n > 0
    ensures inLen == 0 ==> n == 0
    ensures inp[..inLen] == old(inp[..inLen])
  {
    if inLen == 0 || outLen == 0 {
      return 0;
    }
    ghost var data := inp[..inLen];
    var ok, ip, op, lit;
    ghost var full: nat;
    ok, ip, op, lit, full := MainLoop(inp, inLen, outp, outLen, htab, hash);
    if ok && op + 3 > outLen {
      RoomSuffices(data, outp[..], ip, op, lit, full, outLen);
      ok := false;
    }
    if !ok {
      return 0;
    }
    n := Finish(inp, inLen, ip, outp, outLen, op, lit, full);
  }

  /** Lines 279-288: the last two bytes at most. */
  method Tail(inp: array<Byte>, inLen: nat, ip0: nat, outp: array<Byte>, outLen: nat, op0: nat, lit0: nat,
      ghost full0: nat)
    returns (op: nat, lit: nat, ghost full: nat)
    requires inp != outp && inLen <= inp.Length && outLen < outp.Length
    requires ip0 <= inLen <= ip0 + 2 && op0 + 3 <= outLen && lit0 < MAX_LIT
    requires Open(inp[..inLen], outp[..], ip0, op0, lit0, full0)
    modifies outp
    ensures inp[..inLen] == old(inp[..inLen])
    ensures Open(inp[..inLen], outp[..], inLen, op, lit, full)
    ensures lit < MAX_LIT && op <= op0 + 4 && (lit > 0 ==> op <= op0 + 3)
  {
    ghost var data := inp[..inLen];
    var ip := ip0;
    op, lit, full := op0, lit0, full0;
    while ip < inLen
      invariant ip0 <= ip <= inLen && inp[..inLen] == data
      invariant Open(data, outp[..], ip, op, lit, full)
      invariant lit < MAX_LIT && op <= op0 + 2 * (ip - ip0)
      invariant ip0 < ip && lit > 0 ==> op < op0 + 2 * (ip - ip0)
    {
      assert data[ip] == inp[ip];
      op, lit, full := PutLiteral(inp, ip, outp, op, lit, data, full);
      ip := ip + 1;
    }
  }

  /** Lines 279-293. */
  method Finish(inp: array<Byte>, inLen: nat, ip0: nat, outp: array<Byte>, outLen: nat, op0: nat, lit0: nat,
      ghost full0: nat)
    returns (n: nat)
    requires inp != outp && 0 < inLen <= inp.Length && outLen < outp.Length
    requires ip0 <= inLen <= ip0 + 2 && op0 + 3 <= outLen && lit0 < MAX_LIT
    requires Open(inp[..inLen], outp[..], ip0, op0, lit0, full0)
    modifies outp
    ensures inp[..inLen] == old(inp[..inLen])
    ensures 0 < n <= outLen && n <= inLen + (inLen + 31) / 32
    ensures forall room :: inLen <= room ==> Decode(outp[..n], 0, [], room) == Done(inp[..inLen])
  {
    ghost var data := inp[..inLen];
    var op, lit;
    ghost var full: nat;
    op, lit, full := Tail(inp, inLen, ip0, outp, outLen, op0, lit0, full0);
    ghost var slack;
    n, slack := CloseOpen(outp, op, lit, data, inLen, full);
    assert inp[..inLen] == data;
    Finished(data, outp[..], n, full, slack);
  }

  lemma Finished(data: seq<Byte>, out: seq<Byte>, n: nat, full: nat, slack: nat)
    requires Closed(data, out, |data|, n, full, slack) && slack <= 1 && 32 * full + slack <= |data|
    ensures n <= |data| + (|data| + 31) / 32
    ensures forall room :: |data| <= room ==> Decode(out[..n], 0, [], room) == Done(data)
    ensures data != [] ==> n > 0
  {
    assert data[..|data|] == data;
    WrittenDecodes(data, out[..n], |data|);
    forall room | |data| <= room ensures Decode(out[..n], 0, [], room) == Done(data) {
      WrittenDecodes(data, out[..n], room);
    }
  }
}
