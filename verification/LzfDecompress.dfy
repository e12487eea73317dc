/** lzf_decompress (src/lzf_d.c) on its buffers, proved against LzfFormat.Decode. */
module LzfDecompress {
  import opened LzfFormat

  datatype Errno = NoError | E2BIG | EINVAL

  /** What one call leaves behind: its return value, errno and the front of the output buffer. */
  ghost predicate Returns(expected: Outcome, n: nat, errno: Errno, out: seq<Byte>) {
    match expected
    case Done(data) => n == |data| <= |out| && out[..n] == data && errno == NoError
    case TooBig => n == 0 && errno == E2BIG
    case Invalid => n == 0 && errno == EINVAL
  }

  method CopyLiterals(inp: array<Byte>, ip: nat, outp: array<Byte>, op: nat, ctrl: nat)
    requires inp != outp
    requires ip + ctrl <= inp.Length && op + ctrl <= outp.Length
    modifies outp
    ensures outp[..op + ctrl] == old(outp[..op]) + inp[ip..ip + ctrl]
  {
    var k := 0;
    while k < ctrl
      invariant 0 <= k <= ctrl
      invariant outp[..op + k] == old(outp[..op]) + inp[ip..ip + k]
    {
      outp[op + k] := inp[ip + k];
      assert inp[ip..ip + k + 1] == inp[ip..ip + k] + [inp[ip + k]];
      k := k + 1;
    }
  }

  /** Lines 137-142: byte by byte, so that a copied byte may be copied again. */
  method CopyBack(outp: array<Byte>, ref: nat, op: nat, n: nat)
    requires ref < op && op + n <= outp.Length
    modifies outp
    ensures outp[..op + n] == Copied(old(outp[..op]), op - ref, n)
  {
    var k := 0;
    while k < n
      invariant 0 <= k <= n
      invariant Copied(outp[..op + k], op - ref, n - k) == Copied(old(outp[..op]), op - ref, n)
    {
      ghost var before := outp[..op + k];
      outp[op + k] := outp[ref + k];
      assert outp[..op + k + 1] == before + [before[op + k - (op - ref)]];
      k := k + 1;
    }
  }

  /** What one turn of the loop leaves behind. */
  ghost predicate Performs(step: Step, ip: nat, op: nat, errno: Errno, out: seq<Byte>) {
    match step
    case Next(next, more) => errno == NoError && ip == next && op <= |out| && out[..op] == more
    case Stop(TooBig) => errno == E2BIG
    case Stop(_) => errno == EINVAL
  }

  /** Lines 68-93: the literal run at ip. */
  method LiteralRun(inp: array<Byte>, inLen: nat, ip0: nat, outp: array<Byte>, outLen: nat, op0: nat)
    returns (ip: nat, op: nat, errno: Errno)
    requires inp != outp
    requires ip0 < inLen <= inp.Length && op0 <= outLen <= outp.Length
    requires inp[ip0] < 32
    modifies outp
    ensures Performs(OneToken(inp[..inLen], ip0, old(outp[..op0]), outLen), ip, op, errno, outp[..])
  {
    ghost var src := inp[..inLen];
    ip, op := ip0 + 1, op0;
    var ctrl: nat := inp[ip0];
    ctrl := ctrl + 1;
    if op + ctrl > outLen {
      return ip, op, E2BIG;
    }
    if ip + ctrl > inLen {
      return ip, op, EINVAL;
    }
    CopyLiterals(inp, ip, outp, op, ctrl);
    assert inp[..inLen] == src && inp[ip..ip + ctrl] == src[ip..ip + ctrl];
    return ip + ctrl, op + ctrl, NoError;
  }

  /** Lines 94-144: the back reference at ip. */
  method BackReference(inp: array<Byte>, inLen: nat, ip0: nat, outp: array<Byte>, outLen: nat, op0: nat)
    returns (ip: nat, op: nat, errno: Errno)
    requires inp != outp
    requires ip0 < inLen <= inp.Length && op0 <= outLen <= outp.Length
    requires inp[ip0] >= 32
    modifies outp
    ensures Performs(OneToken(inp[..inLen], ip0, old(outp[..op0]), outLen), ip, op, errno, outp[..])
  {
    ghost var src := inp[..inLen];
    var ctrl: nat := inp[ip0];
    ip, op := ip0 + 1, op0;
    var len := ctrl / 32;
    var ref: int := op - ctrl % 32 * 256 - 1;
    if ip >= inLen {
      return ip, op, EINVAL;
    }
    if len == 7 {
      len := len + inp[ip];
      ip := ip + 1;
      if ip >= inLen {
        return ip, op, EINVAL;
      }
    }
    ref := ref - inp[ip];
    ip := ip + 1;
    if op + len + 2 > outLen {
      return ip, op, E2BIG;
    }
    if ref < 0 {
      return ip, op, EINVAL;
    }
    CopyBack(outp, ref, op, len + 2);
    assert inp[..inLen] == src;
    return ip, op + len + 2, NoError;
  }

  /** lzf_decompress.  The source leaves errno alone on success; here that is NoError. */
  method Decompress(inp: array<Byte>, inLen: nat, outp: array<Byte>, outLen: nat)
    returns (n: nat, errno: Errno)
    requires inp != outp
    requires 0 < inLen <= inp.Length && outLen <= outp.Length
    modifies outp
    ensures Returns(Decode(inp[..inLen], 0, [], outLen), n, errno, outp[..])
  {
    ghost var src := inp[..inLen];
    var ip: nat, op: nat := 0, 0;
    assert outp[..0] == [];
    while ip < inLen
      invariant inp[..inLen] == src
      invariant 0 <= ip <= inLen && op <= outLen
      invariant Decode(src, ip, outp[..op], outLen) == Decode(src, 0, [], outLen)
    {
      ghost var step := OneToken(src, ip, outp[..op], outLen);
      if inp[ip] < 32 {
        ip, op, errno := LiteralRun(inp, inLen, ip, outp, outLen, op);
      } else {
        ip, op, errno := BackReference(inp, inLen, ip, outp, outLen, op);
      }
      assert Performs(step, ip, op, errno, outp[..]);
      if errno != NoError {
        return 0, errno;
      }
    }
    return op, NoError;
  }
}
