/** sdscatrepr and sdssplitargs of deps/hiredis/sds.c. */
module Sds {
  import opened SdsFormat
  import opened Options

  /** sdscatrepr */
  method CatRepr(s: seq<Byte>, p: seq<Byte>, isprint: Byte -> bool) returns (r: seq<Byte>)
    ensures r == s + Quoted(p, isprint)
  {
    r := s + [QUOTE];
    var i := 0;
    while i < |p|
      invariant 0 <= i <= |p| && r + EscapedAll(p[i..], isprint) == s + [QUOTE] + EscapedAll(p, isprint)
    {
      var c := p[i];
      ghost var before := r;
      if c == BACKSLASH || c == QUOTE {
        r := r + [BACKSLASH, c];
      } else if Letter(c).Some? {
        r := r + [BACKSLASH, Letter(c).value];
      } else if isprint(c) {
        r := r + [c];
      } else {
        r := r + [BACKSLASH, LOWER_X, HexDigit(c / 16), HexDigit(c % 16)];
      }
      assert r == before + Escaped(c, isprint);
      NextEscaped(before, p, i, isprint);
      i := i + 1;
    }
    assert p[i..] == [];
    assert r + [] == r;
    r := r + [QUOTE];
  }

  lemma NextEscaped(r: seq<Byte>, p: seq<Byte>, i: nat, isprint: Byte -> bool)
    requires i < |p|
    ensures r + EscapedAll(p[i..], isprint) == r + Escaped(p[i], isprint) + EscapedAll(p[i + 1..], isprint)
  {
    assert p[i..][0] == p[i] && p[i..][1..] == p[i + 1..];
  }

  /** The inner loop of sdssplitargs: one argument; false for the jump to err. */
  method GetToken(line: seq<Byte>, start: nat) returns (ok: bool, current: seq<Byte>, p: nat)
    requires start <= |line|
    ensures Scan(line, start, Plain, []) == if ok then Token(current, p) else Bad
    ensures ok ==> p <= |line|
  {
    var inq, insq, done := false, false, false;
    current, p := [], start;
    while !done
      invariant p <= |line| && !(inq && insq)
      invariant Scan(line, start, Plain, [])
        == if done then Token(current, p)
           else Scan(line, p, if inq then Double else if insq then Single else Plain, current)
      decreases !done, |line| - p
    {
      var c := At(line, p);
      if inq {
        if HexAt(line, p) {
          current := current + [HexValue(At(line, p + 2)) * 16 + HexValue(At(line, p + 3))];
          p := p + 3;
        } else if c == BACKSLASH && At(line, p + 1) != 0 {
          p := p + 1;
          current := current + [Unescaped(At(line, p))];
        } else if c == QUOTE {
          if !Closes(line, p) {
            return false, current, p;
          }
          done := true;
        } else if c == 0 {
          return false, current, p;
        } else {
          current := current + [c];
        }
      } else if insq {
        if c == BACKSLASH && At(line, p + 1) == APOSTROPHE {
          p := p + 1;
          current := current + [APOSTROPHE];
        } else if c == APOSTROPHE {
          if !Closes(line, p) {
            return false, current, p;
          }
          done := true;
        } else if c == 0 {
          return false, current, p;
        } else {
          current := current + [c];
        }
      } else {
        if c == SPACE || c == 10 || c == 13 || c == 9 || c == 0 {
          done := true;
        } else if c == QUOTE {
          inq := true;
        } else if c == APOSTROPHE {
          insq := true;
        } else {
          current := current + [c];
        }
      }
      if At(line, p) != 0 {
        p := p + 1;
      }
    }
    ok := true;
  }

  /** sdssplitargs: None for NULL. */
  method SplitArgs(line: seq<Byte>) returns (args: Option<seq<seq<Byte>>>)
    ensures args == Split(line, 0)
  {
    var vector: seq<seq<Byte>> := [];
    var p := 0;
    PrependEnds(vector, Split(line, 0));
    while true
      invariant p <= |line| && Prepend(vector, Split(line, p)) == Split(line, 0)
      decreases |line| - p
    {
      ghost var from := p;
      while At(line, p) != 0 && IsSpace(At(line, p))
        invariant from <= p <= |line| && SkipBlanks(line, p) == SkipBlanks(line, from)
        decreases |line| - p
      {
        p := p + 1;
      }
      if At(line, p) == 0 {
        PrependEnds(vector, Some([]));
        return Some(vector);
      }
      var ok, current, end := GetToken(line, p);
      if !ok {
        return None;
      }
      PrependMore(vector, current, Split(line, end));
      vector, p := vector + [current], end;
    }
  }

  lemma PrependEnds(vector: seq<seq<Byte>>, more: Option<seq<seq<Byte>>>)
    ensures Prepend([], more) == more && Prepend(vector, Some([])) == Some(vector)
  {
    assert vector + [] == vector;
    if more.Some? {
      assert [] + more.value == more.value;
    }
  }

  lemma PrependMore(vector: seq<seq<Byte>>, current: seq<Byte>, more: Option<seq<seq<Byte>>>)
    ensures Prepend(vector, Prepend([current], more)) == Prepend(vector + [current], more)
  {
    if more.Some? {
      assert vector + ([current] + more.value) == vector + [current] + more.value;
    }
  }
}
