/** What lzf.h promises of the two functions together. */
module LzfTheorems {
  import opened LzfFormat
  import opened Options
  import C = LzfCompress
  import D = LzfDecompress

  /** Decompressing what was compressed gives back the data, for any hash function, any initial
      contents of the hash table and any buffer that is large enough. */
  method RoundTrip(inp: array<Byte>, inLen: nat, outp: array<Byte>, outLen: nat, htab: array<int>, hash: nat -> nat,
                   back: array<Byte>, room: nat)
    returns (n: nat, m: nat, errno: D.Errno)
    requires inp != outp && inp != back && outp != back
    requires inLen <= inp.Length && outLen < outp.Length && inLen <= room <= back.Length
    requires forall h :: hash(h) < htab.Length
    modifies outp, htab, back
    ensures n > 0 ==> m == inLen && errno == D.NoError && back[..inLen] == old(inp[..inLen])
    ensures 0 < inLen && inLen + inLen / 32 + 4 <= outLen ==> n > 0
  {
    ghost var data := inp[..inLen];
    n := C.Compress(inp, inLen, outp, outLen, htab, hash);
    m, errno := 0, D.NoError;
    if n > 0 {
      ghost var enc := outp[..n];
      assert Decode(enc, 0, [], room) == Done(data);
      m, errno := D.Decompress(outp, n, back, room);
    }
  }

  // ---------------------------------------------------------------- the documented size bound

  ghost predicate Distinct(data: seq<Byte>) {
    forall i, j :: 0 <= i < j < |data| ==> data[i] != data[j]
  }

  lemma {:induction false} CopiedExtends(out: seq<Byte>, dist: nat, n: nat)
    requires 1 <= dist <= |out|
    ensures out <= Copied(out, dist, n)
    ensures n > 0 ==> Copied(out, dist, n)[|out|] == out[|out| - dist]
    decreases n
  {
    if n > 0 {
      CopiedExtends(out + [out[|out| - dist]], dist, n - 1);
    }
  }

  lemma {:induction false} ExpandExtends(ts: seq<Token>, out: seq<Byte>)
    requires Expand(ts, out).Some?
    ensures out <= Expand(ts, out).value
    decreases ts
  {
    if ts != [] {
      if ts[0].Ref? {
        CopiedExtends(out, ts[0].Off() + 1, ts[0].len + 2);
      }
      ExpandExtends(ts[1..], ts[0].Apply(out).value);
    }
  }

  lemma RefRepeats(t: Token, out: seq<Byte>, data: seq<Byte>)
    requires t.Ref? && t.Apply(out).Some? && t.Apply(out).value <= data
    ensures !Distinct(data)
  {
    CopiedExtends(out, t.Off() + 1, t.len + 2);
    var more := t.Apply(out).value;
    var k := |out| - t.Off() - 1;
    assert more[k] == out[k] == more[|out|];
    assert data[k] == data[|out|];
  }

  /** Data without a repeated byte can only be written as literals, one control byte for every 32. */
  lemma {:induction false} DistinctNeedsLiterals(ts: seq<Token>, out: seq<Byte>, data: seq<Byte>)
    requires ValidTokens(ts) && Expand(ts, out) == Some(data) && Distinct(data)
    ensures |out| <= |data| && 32 * (|Encode(ts)| - (|data| - |out|)) >= |data| - |out|
    decreases ts
  {
    if ts != [] {
      var more := ts[0].Apply(out).value;
      ExpandExtends(ts[1..], more);
      if ts[0].Ref? {
        RefRepeats(ts[0], out, data);
        assert false;
      }
      assert ts[0].Valid() && ValidTokens(ts[1..]);
      DistinctNeedsLiterals(ts[1..], more, data);
      assert |Encode(ts)| == 1 + |ts[0].lits| + |Encode(ts[1..])|;
    }
  }

  /** Any data can be written as literals only, with one control byte for every 32 of them. */
  lemma {:induction false} LiteralsOnly(data: seq<Byte>, out: seq<Byte>) returns (ts: seq<Token>)
    ensures ValidTokens(ts) && Expand(ts, out) == Some(out + data)
    ensures |Encode(ts)| == |data| + (|data| + 31) / 32
    decreases |data|
  {
    if data == [] {
      ts := [];
      assert out + data == out;
    } else {
      var n := if |data| < MAX_LIT then |data| else MAX_LIT;
      var t := Run(data[..n]);
      var tail := LiteralsOnly(data[n..], out + data[..n]);
      ts := [t] + tail;
      assert ts[1..] == tail && out + data[..n] + data[n..] == out + data;
    }
  }

  ghost predicate ShortEncodingExists(data: seq<Byte>) {
    exists ts :: ValidTokens(ts) && Expand(ts, []) == Some(data) && 100 * |Encode(ts)| < 104 * |data|
  }

  /** lzf.h:57-58 says that the output is "less than 104% of the original size".  The size bound
      of Compress implies that exactly for the lengths with 25 * ceil(len / 32) < len.  For every
      other length there is data for which no sequence of tokens at all is that short (see CompressLong); a single
      byte, for instance, always takes two. */
  lemma DocumentedBound(len: nat)
    requires len > 0
    ensures 25 * ((len + 31) / 32) < len <==>
            forall n: nat {:trigger 100 * n} :: n <= len + (len + 31) / 32 ==> 100 * n < 104 * len
    ensures 25 * ((len + 31) / 32) < len <==>
            forall data: seq<Byte> :: |data| == len ==> ShortEncodingExists(data)
  {
    var most := len + (len + 31) / 32;
    if 25 * ((len + 31) / 32) < len {
      forall data: seq<Byte> | |data| == len ensures ShortEncodingExists(data) {
        var ts := LiteralsOnly(data, []);
        assert [] + data == data;
      }
    } else {
      assert 100 * most >= 104 * len;
      var data := LongData(len);
    }
  }

  lemma LongData(len: nat) returns (data: seq<Byte>)
    requires 0 < len <= 25 * ((len + 31) / 32)
    ensures |data| == len && !ShortEncodingExists(data)
  {
    data := DistinctData(len);
    forall ts | ValidTokens(ts) && Expand(ts, []) == Some(data) ensures 100 * |Encode(ts)| >= 104 * len {
      DistinctNeedsLiterals(ts, [], data);
      TooShort(len, |Encode(ts)| - len);
    }
  }

  /** So Compress itself exceeds the documented size on such data; here with the hash function of the
      VERY_FAST form. */
  method CompressLong(inp: array<Byte>, inLen: nat, outp: array<Byte>, outLen: nat, htab: array<int>) returns (n: nat)
    requires inp != outp && inLen <= inp.Length && outLen < outp.Length && htab.Length == C.HSIZE
    requires 0 < inLen <= 25 * ((inLen + 31) / 32) && inLen + inLen / 32 + 4 <= outLen
    requires Distinct(inp[..inLen])
    modifies outp, htab
    ensures n > 0 && 100 * n >= 104 * inLen
  {
    ghost var data := inp[..inLen];
    n := C.Compress(inp, inLen, outp, outLen, htab, C.HashIndex);
    ghost var enc := outp[..n];
    assert Decode(enc, 0, [], inLen) == Done(data);
    ghost var ts := DecodedIsEncoded(enc, 0, [], inLen);
    assert enc[0..] == enc;
    DistinctNeedsLiterals(ts, [], data);
    TooShort(inLen, n - inLen);
  }

  lemma DistinctData(len: nat) returns (data: seq<Byte>)
    requires len <= 256
    ensures |data| == len && Distinct(data)
  {
    data := seq(len, i requires 0 <= i < len => i);
  }

  lemma TooShort(len: nat, controls: nat)
    requires len <= 25 * ((len + 31) / 32) && 32 * controls >= len
    ensures 100 * (len + controls) >= 104 * len
  {
  }
}
