/** The LZF stream format: literal runs and back references, how they are written as bytes
    (src/lzf_c.c:89-96) and what they stand for (src/lzf_d.c). */
module LzfFormat {
  import opened Options

  type Byte = b: int | 0 <= b < 256

  const MAX_LIT := 32     // 1 << 5
  const MAX_OFF := 8192   // 1 << 13
  const MAX_REF := 264    // (1 << 8) + (1 << 3)

  /** A run of literal bytes, or a copy of `len + 2` bytes from Off() + 1 bytes back, where the
      high five and the low eight bits of the offset are kept apart as in the stream. */
  datatype Token = Run(lits: seq<Byte>) | Ref(hi: nat, lo: nat, len: nat)
  {
    predicate Valid() {
      match this
      case Run(lits) => 1 <= |lits| <= MAX_LIT
      case Ref(hi, lo, len) => hi < 32 && lo < 256 && 1 <= len <= MAX_REF - 2
    }

    function Off(): (off: nat)
      requires Ref?
      ensures Valid() ==> off < MAX_OFF
    {
      hi * 256 + lo
    }

    /** The bytes of a token: 000LLLLL and L + 1 literals, LLLooooo oooooooo, or
        111ooooo LLLLLLLL oooooooo. */
    function Encode(): (s: seq<Byte>)
      requires Valid()
      ensures 2 <= |s|
    {
      match this
      case Run(lits) => [|lits| - 1] + lits
      case Ref(hi, lo, len) =>
        if len < 7 then [hi + len * 32, lo] else [hi + 7 * 32, len - 7, lo]
    }

    /** The number of bytes a token stands for. */
    function Size(): nat {
      match this
      case Run(lits) => |lits|
      case Ref(_, _, len) => len + 2
    }

    /** What a token adds to the bytes produced so far; None if it reaches back too far. */
    function Apply(out: seq<Byte>): (r: Option<seq<Byte>>)
      ensures r.Some? ==> |r.value| == |out| + Size()
    {
      match this
      case Run(lits) => Some(out + lits)
      case Ref(_, _, len) => if Off() < |out| then Some(Copied(out, Off() + 1, len + 2)) else None
    }
  }

  /** Append n bytes, each a copy of the byte `dist` back at the time it is appended, so that
      the copied part may overlap the part being written. */
  function Copied(out: seq<Byte>, dist: nat, n: nat): (r: seq<Byte>)
    requires 1 <= dist <= |out|
    ensures |r| == |out| + n
    decreases n
  {
    if n == 0 then out else Copied(out + [out[|out| - dist]], dist, n - 1)
  }

  ghost predicate ValidTokens(ts: seq<Token>) {
    forall t <- ts :: t.Valid()
  }

  function Encode(ts: seq<Token>): (s: seq<Byte>)
    requires ValidTokens(ts)
    ensures ts != [] ==> 2 <= |s|
  {
    if ts == [] then [] else ts[0].Encode() + Encode(ts[1..])
  }

  function Expand(ts: seq<Token>, out: seq<Byte>): (r: Option<seq<Byte>>)
    ensures r.Some? ==> |out| <= |r.value|
    decreases ts
  {
    if ts == [] then Some(out) else
      match ts[0].Apply(out)
      case None => None
      case Some(more) => Expand(ts[1..], more)
  }

  lemma {:induction false} EncodeSnoc(ts: seq<Token>, t: Token)
    requires ValidTokens(ts) && t.Valid()
    ensures ValidTokens(ts + [t]) && Encode(ts + [t]) == Encode(ts) + t.Encode()
  {
    if ts == [] {
      assert ts + [t] == [t] && [t][1..] == [];
    } else {
      assert (ts + [t])[1..] == ts[1..] + [t];
      EncodeSnoc(ts[1..], t);
      assert Encode(ts + [t]) == ts[0].Encode() + (Encode(ts[1..]) + t.Encode());
    }
  }

  lemma {:induction false} ExpandSnoc(ts: seq<Token>, t: Token, out: seq<Byte>)
    requires Expand(ts, out).Some?
    ensures Expand(ts + [t], out) == t.Apply(Expand(ts, out).value)
  {
    if ts == [] {
      assert ts + [t] == [t] && [t][1..] == [];
    } else {
      assert (ts + [t])[1..] == ts[1..] + [t];
      ExpandSnoc(ts[1..], t, ts[0].Apply(out).value);
    }
  }

  /** The n bytes from ref on and from ip on are equal. */
  ghost predicate Matches(data: seq<Byte>, ref: nat, ip: nat, n: nat) {
    ref < ip && ip + n <= |data| && forall k :: ip <= k < ip + n ==> data[k] == data[k - (ip - ref)]
  }

  /** A match found in the data itself is a back reference to it, overlapping or not. */
  lemma {:induction false} MatchCopies(data: seq<Byte>, ref: nat, ip: nat, n: nat, dist: nat, end: nat)
    requires Matches(data, ref, ip, n) && dist == ip - ref && end == ip + n
    ensures Copied(data[..ip], dist, n) == data[..end]
    decreases n
  {
    if n > 0 {
      assert data[..ip] + [data[ref]] == data[..ip + 1];
      MatchCopies(data, ref + 1, ip + 1, n - 1, dist, end);
    }
  }

  // ---------------------------------------------------------------- decoding

  /** How lzf_decompress ends: with the data, or with errno E2BIG or EINVAL. */
  datatype Outcome = Done(data: seq<Byte>) | TooBig | Invalid

  datatype Step = Next(ip: nat, out: seq<Byte>) | Stop(result: Outcome)

  /** One turn of the loop of lzf_decompress: decode the token at ip. */
  function OneToken(s: seq<Byte>, ip: nat, out: seq<Byte>, room: nat): (r: Step)
    requires ip < |s|
    ensures r.Next? ==> ip < r.ip <= |s| && |r.out| <= room
    ensures r.Stop? ==> !r.result.Done?
  {
    var ctrl: nat := s[ip];
    if ctrl < 32 then
      var n := ctrl + 1;
      if |out| + n > room then Stop(TooBig)
      else if ip + 1 + n > |s| then Stop(Invalid)
      else Next(ip + 1 + n, out + s[ip + 1..ip + 1 + n])
    else
      var last := if ctrl < 224 then ip + 1 else ip + 2;
      if last >= |s| then Stop(Invalid)
      else
        var len: nat := if ctrl < 224 then ctrl / 32 else 7 + (s[ip + 1] as int);
        var off: nat := ctrl % 32 * 256 + s[last];
        if |out| + len + 2 > room then Stop(TooBig)
        else if off >= |out| then Stop(Invalid)
        else Next(last + 1, Copied(out, off + 1, len + 2))
  }

  /** The bytes of s from ip on, decoded after the bytes out, into a buffer of `room` bytes. */
  function Decode(s: seq<Byte>, ip: nat, out: seq<Byte>, room: nat): (r: Outcome)
    requires ip <= |s|
    decreases |s| - ip
  {
    if ip == |s| then Done(out) else
      match OneToken(s, ip, out, room)
      case Next(next, more) => Decode(s, next, more, room)
      case Stop(result) => result
  }

  lemma PrefixAt(s: seq<Byte>, ip: nat, e: seq<Byte>)
    requires ip <= |s| && e <= s[ip..]
    ensures ip + |e| <= |s| && forall k :: ip <= k < ip + |e| ==> s[k] == e[k - ip]
  {
    forall k | ip <= k < ip + |e| ensures s[k] == e[k - ip] {
      assert s[ip..][k - ip] == s[k];
    }
  }

  lemma DecodeRun(s: seq<Byte>, ip: nat, t: Token, out: seq<Byte>, room: nat)
    requires t.Run? && t.Valid() && ip <= |s| && t.Encode() <= s[ip..]
    requires |out| + t.Size() <= room
    ensures OneToken(s, ip, out, room) == Next(ip + |t.Encode()|, out + t.lits)
  {
    PrefixAt(s, ip, t.Encode());
    assert s[ip + 1..ip + 1 + |t.lits|] == t.Encode()[1..] == t.lits;
  }

  lemma ShortRef(s: seq<Byte>, ip: nat, len: nat, off: nat, out: seq<Byte>, room: nat)
    requires ip + 1 < |s| && 32 <= s[ip] < 224
    requires len == s[ip] / 32 && off == s[ip] % 32 * 256 + (s[ip + 1] as int)
    requires off < |out| && |out| + len + 2 <= room
    ensures OneToken(s, ip, out, room) == Next(ip + 2, Copied(out, off + 1, len + 2))
  {
  }

  lemma LongRef(s: seq<Byte>, ip: nat, len: nat, off: nat, out: seq<Byte>, room: nat)
    requires ip + 2 < |s| && 224 <= s[ip]
    requires len == 7 + (s[ip + 1] as int) && off == s[ip] % 32 * 256 + (s[ip + 2] as int)
    requires off < |out| && |out| + len + 2 <= room
    ensures OneToken(s, ip, out, room) == Next(ip + 3, Copied(out, off + 1, len + 2))
  {
  }

  lemma DecodeRef(s: seq<Byte>, ip: nat, t: Token, out: seq<Byte>, room: nat)
    requires t.Ref? && t.Valid() && ip <= |s| && t.Encode() <= s[ip..]
    requires t.Off() < |out| && |out| + t.Size() <= room
    ensures OneToken(s, ip, out, room) == Next(ip + |t.Encode()|, t.Apply(out).value)
  {
    var e := t.Encode();
    assert s[ip] == s[ip..][0] == e[0];
    assert s[ip + 1] == s[ip..][1] == e[1];
    if t.len < 7 {
      ShortRef(s, ip, t.len, t.Off(), out, room);
    } else {
      assert s[ip + 2] == s[ip..][2] == e[2];
      LongRef(s, ip, t.len, t.Off(), out, room);
    }
  }

  lemma DecodeToken(s: seq<Byte>, ip: nat, t: Token, out: seq<Byte>, room: nat)
    requires t.Valid() && ip <= |s| && t.Encode() <= s[ip..]
    requires t.Apply(out).Some? && |out| + t.Size() <= room
    ensures OneToken(s, ip, out, room) == Next(ip + |t.Encode()|, t.Apply(out).value)
  {
    match t
    case Run(_) => DecodeRun(s, ip, t, out, room);
    case Ref(_, _, _) => DecodeRef(s, ip, t, out, room);
  }

  lemma TokensCons(t: Token, tail: seq<Token>, out: seq<Byte>)
    requires t.Valid() && ValidTokens(tail)
    ensures ValidTokens([t] + tail)
    ensures Encode([t] + tail) == t.Encode() + Encode(tail)
    ensures t.Apply(out).Some? ==> Expand([t] + tail, out) == Expand(tail, t.Apply(out).value)
    ensures t.Apply(out).None? ==> Expand([t] + tail, out) == None
  {
    assert ([t] + tail)[1..] == tail;
  }

  lemma SplitAt(s: seq<Byte>, ip: nat, e: seq<Byte>)
    requires ip <= |s| && e <= s[ip..]
    ensures ip + |e| <= |s| && s[ip..] == e + s[ip + |e|..]
  {
  }

  lemma DecodeFirst(s: seq<Byte>, ip: nat, ts: seq<Token>, out: seq<Byte>, room: nat)
    returns (next: nat, more: seq<Byte>)
    requires ts != [] && ValidTokens(ts) && ip < |s| && Encode(ts) == s[ip..]
    requires Expand(ts, out).Some? && |Expand(ts, out).value| <= room
    ensures ip < next <= |s| && Encode(ts[1..]) == s[next..]
    ensures Expand(ts, out) == Expand(ts[1..], more)
    ensures OneToken(s, ip, out, room) == Next(next, more)
  {
    var t, tail := ts[0], ts[1..];
    next, more := ip + |t.Encode()|, t.Apply(out).value;
    HeadSplits(s, ip, t.Encode(), Encode(tail));
    DecodeToken(s, ip, t, out, room);
  }

  lemma HeadSplits(s: seq<Byte>, ip: nat, e: seq<Byte>, rest: seq<Byte>)
    requires ip <= |s| && s[ip..] == e + rest
    ensures ip + |e| <= |s| && e <= s[ip..] && s[ip + |e|..] == rest
  {
    assert s[ip..][|e|..] == s[ip + |e|..];
  }

  lemma DecodeStep(s: seq<Byte>, ip: nat, out: seq<Byte>, room: nat, next: nat, more: seq<Byte>)
    requires ip < |s| && OneToken(s, ip, out, room) == Next(next, more)
    ensures Decode(s, ip, out, room) == Decode(s, next, more, room)
  {
  }

  /** Whatever is written as tokens decodes to what the tokens stand for. */
  lemma {:induction false} DecodeEncode(s: seq<Byte>, ip: nat, ts: seq<Token>, out: seq<Byte>, room: nat)
    requires ValidTokens(ts) && ip <= |s| && Encode(ts) == s[ip..]
    requires Expand(ts, out).Some? && |Expand(ts, out).value| <= room
    ensures Decode(s, ip, out, room) == Done(Expand(ts, out).value)
    decreases ts
  {
    if ip < |s| {
      var next, more := DecodeFirst(s, ip, ts, out, room);
      DecodeStep(s, ip, out, room, next, more);
      DecodeEncode(s, next, ts[1..], more, room);
    } else {
      assert Encode(ts) == [] && ts == [];
    }
  }

  /** The first token of a byte string that decodes. */
  function FirstToken(s: seq<Byte>): (t: Token)
    requires 2 <= |s|
    requires s[0] < 32 ==> 2 + s[0] <= |s|
    requires s[0] >= 224 ==> 3 <= |s|
    ensures t.Valid() && t.Encode() <= s
  {
    var ctrl: nat := s[0];
    if ctrl < 32 then Run(s[1..ctrl + 2])
    else if ctrl < 224 then Ref(ctrl % 32, s[1], ctrl / 32)
    else Ref(ctrl % 32, s[2], 7 + (s[1] as int))
  }

  lemma StepIsToken(s: seq<Byte>, ip: nat, out: seq<Byte>, room: nat) returns (t: Token)
    requires ip < |s| && OneToken(s, ip, out, room).Next?
    ensures t.Valid() && t.Encode() <= s[ip..] && t.Apply(out).Some?
    ensures OneToken(s, ip, out, room) == Next(ip + |t.Encode()|, t.Apply(out).value)
  {
    assert s[ip..][0] == s[ip];
    t := FirstToken(s[ip..]);
    PrefixAt(s, ip, t.Encode());
    DecodeToken(s, ip, t, out, room);
  }

  lemma PrependToken(s: seq<Byte>, ip: nat, t: Token, tail: seq<Token>, next: nat, out: seq<Byte>, more: seq<Byte>)
    returns (ts: seq<Token>)
    requires t.Valid() && ip <= |s| && t.Encode() <= s[ip..] && next == ip + |t.Encode()| && t.Apply(out) == Some(more)
    requires ValidTokens(tail) && Encode(tail) == s[next..]
    ensures ValidTokens(ts) && Encode(ts) == s[ip..] && Expand(ts, out) == Expand(tail, more)
  {
    ts := [t] + tail;
    TokensCons(t, tail, out);
    SplitAt(s, ip, t.Encode());
  }

  /** Whatever decodes was written as tokens. */
  lemma {:induction false} DecodedIsEncoded(s: seq<Byte>, ip: nat, out: seq<Byte>, room: nat) returns (ts: seq<Token>)
    requires ip <= |s| && |out| <= room && Decode(s, ip, out, room).Done?
    ensures ValidTokens(ts) && Encode(ts) == s[ip..]
    ensures Expand(ts, out) == Some(Decode(s, ip, out, room).data)
    ensures |Decode(s, ip, out, room).data| <= room
    decreases |s| - ip
  {
    if ip == |s| {
      ts := [];
    } else {
      var step := OneToken(s, ip, out, room);
      var t := StepIsToken(s, ip, out, room);
      DecodeStep(s, ip, out, room, step.ip, step.out);
      var tail := DecodedIsEncoded(s, step.ip, step.out, room);
      ts := PrependToken(s, ip, t, tail, step.ip, out, step.out);
    }
  }

  /** lzf_decompress accepts exactly the byte strings that write down tokens, none of which
      reaches back before the start, and it yields what they stand for if that fits. */
  lemma DecodesIffTokens(s: seq<Byte>, data: seq<Byte>, room: nat)
    ensures Decode(s, 0, [], room) == Done(data) <==>
            |data| <= room &&
            exists ts :: ValidTokens(ts) && Encode(ts) == s && Expand(ts, []) == Some(data)
  {
    assert s[0..] == s;
    if Decode(s, 0, [], room) == Done(data) {
      var ts := DecodedIsEncoded(s, 0, [], room);
    }
    if |data| <= room && exists ts :: ValidTokens(ts) && Encode(ts) == s && Expand(ts, []) == Some(data) {
      var ts :| ValidTokens(ts) && Encode(ts) == s && Expand(ts, []) == Some(data);
      DecodeEncode(s, 0, ts, [], room);
    }
  }
}
