/** The quoted form of byte strings that sdscatrepr writes and sdssplitargs reads
    (deps/hiredis/sds.c). */
module SdsFormat {
  import opened Options

  type Byte = b: int | 0 <= b < 256

  const QUOTE: Byte := 34
  const APOSTROPHE: Byte := 39
  const BACKSLASH: Byte := 92
  const SPACE: Byte := 32
  const LOWER_X: Byte := 120

  /** The character at p; a string ends with a NUL. */
  function At(line: seq<Byte>, p: nat): (c: Byte)
    ensures c != 0 ==> p < |line|
  {
    if p < |line| then line[p] else 0
  }

  /** isspace in the C locale. */
  predicate IsSpace(c: Byte) {
    c == SPACE || 9 <= c <= 13
  }

  // ---------------------------------------------------------------- writing

  /** The letter that stands for c behind a backslash, if there is one. */
  function Letter(c: Byte): Option<Byte> {
    if c == 10 then Some(110)
    else if c == 13 then Some(114)
    else if c == 9 then Some(116)
    else if c == 7 then Some(97)
    else if c == 8 then Some(98)
    else None
  }

  function HexDigit(n: nat): (d: Byte)
    requires n < 16
    ensures IsHexDigit(d) && HexValue(d) == n
  {
    if n < 10 then 48 + n else 87 + n
  }

  /** The bytes that sdscatrepr writes for c. */
  function Escaped(c: Byte, isprint: Byte -> bool): (e: seq<Byte>)
    ensures e != []
  {
    if c == BACKSLASH || c == QUOTE then [BACKSLASH, c]
    else if Letter(c).Some? then [BACKSLASH, Letter(c).value]
    else if isprint(c) then [c]
    else [BACKSLASH, LOWER_X, HexDigit(c / 16), HexDigit(c % 16)]
  }

  function EscapedAll(s: seq<Byte>, isprint: Byte -> bool): seq<Byte> {
    if s == [] then [] else Escaped(s[0], isprint) + EscapedAll(s[1..], isprint)
  }

  function Quoted(s: seq<Byte>, isprint: Byte -> bool): seq<Byte> {
    [QUOTE] + EscapedAll(s, isprint) + [QUOTE]
  }

  /** Quoted strings with a space between each two. */
  function Line(args: seq<seq<Byte>>, isprint: Byte -> bool): seq<Byte> {
    if args == [] then []
    else if |args| == 1 then Quoted(args[0], isprint)
    else Quoted(args[0], isprint) + [SPACE] + Line(args[1..], isprint)
  }

  // ---------------------------------------------------------------- reading

  predicate IsHexDigit(c: Byte) {
    48 <= c <= 57 || 97 <= c <= 102 || 65 <= c <= 70
  }

  function HexValue(c: Byte): (n: nat)
    ensures n < 16
  {
    if 48 <= c <= 57 then c - 48
    else if 97 <= c <= 102 then c - 87
    else if 65 <= c <= 70 then c - 55
    else 0
  }

  /** The byte that a letter behind a backslash stands for. */
  function Unescaped(c: Byte): Byte {
    if c == 110 then 10
    else if c == 114 then 13
    else if c == 116 then 9
    else if c == 98 then 8
    else if c == 97 then 7
    else c
  }

  /** Inside no quotes, "these" or 'those'. */
  datatype Mode = Plain | Double | Single

  /** One argument and where it ends, or quotes that are not closed or not followed by a blank. */
  datatype Scanned = Token(arg: seq<Byte>, end: nat) | Bad

  predicate HexAt(line: seq<Byte>, p: nat) {
    At(line, p) == BACKSLASH && At(line, p + 1) == LOWER_X
    && IsHexDigit(At(line, p + 2)) && IsHexDigit(At(line, p + 3))
  }

  /** A closing quote at p may stand there. */
  predicate Closes(line: seq<Byte>, p: nat) {
    At(line, p + 1) == 0 || IsSpace(At(line, p + 1))
  }

  /** The rest of an argument from p on, of which cur has been read. */
  function Scan(line: seq<Byte>, p: nat, mode: Mode, cur: seq<Byte>): (r: Scanned)
    requires p <= |line|
    ensures r.Token? ==> p <= r.end <= |line| && (At(line, p) != 0 ==> p < r.end)
    decreases |line| - p
  {
    var c := At(line, p);
    if c == 0 then
      if mode.Plain? then Token(cur, p) else Bad
    else
      match mode
      case Double =>
        if HexAt(line, p) then
          Scan(line, p + 4, Double, cur + [HexValue(At(line, p + 2)) * 16 + HexValue(At(line, p + 3))])
        else if c == BACKSLASH && At(line, p + 1) != 0 then
          Scan(line, p + 2, Double, cur + [Unescaped(At(line, p + 1))])
        else if c == QUOTE then
          if Closes(line, p) then Token(cur, p + 1) else Bad
        else Scan(line, p + 1, Double, cur + [c])
      case Single =>
        if c == BACKSLASH && At(line, p + 1) == APOSTROPHE then
          Scan(line, p + 2, Single, cur + [APOSTROPHE])
        else if c == APOSTROPHE then
          if Closes(line, p) then Token(cur, p + 1) else Bad
        else Scan(line, p + 1, Single, cur + [c])
      case Plain =>
        if c == SPACE || c == 10 || c == 13 || c == 9 then Token(cur, p + 1)
        else if c == QUOTE then Scan(line, p + 1, Double, cur)
        else if c == APOSTROPHE then Scan(line, p + 1, Single, cur)
        else Scan(line, p + 1, Plain, cur + [c])
  }

  function SkipBlanks(line: seq<Byte>, p: nat): (q: nat)
    requires p <= |line|
    ensures p <= q <= |line| && !IsSpace(At(line, q))
    decreases |line| - p
  {
    if At(line, p) != 0 && IsSpace(At(line, p)) then SkipBlanks(line, p + 1) else p
  }

  /** The arguments from p on. */
  function Split(line: seq<Byte>, p: nat): Option<seq<seq<Byte>>>
    requires p <= |line|
    decreases |line| - p
  {
    var q := SkipBlanks(line, p);
    if At(line, q) == 0 then Some([])
    else
      match Scan(line, q, Plain, [])
      case Bad => None
      case Token(arg, end) => Prepend([arg], Split(line, end))
  }

  function Prepend(args: seq<seq<Byte>>, more: Option<seq<seq<Byte>>>): Option<seq<seq<Byte>>> {
    if more.None? then None else Some(args + more.value)
  }

  // ---------------------------------------------------------------- reading what was written

  /** The bytes e stand in the line from p on. */
  ghost predicate Spelt(line: seq<Byte>, p: nat, e: seq<Byte>) {
    p + |e| <= |line| && forall k :: 0 <= k < |e| ==> line[p + k] == e[k]
  }

  lemma SpeltParts(line: seq<Byte>, p: nat, a: seq<Byte>, b: seq<Byte>)
    requires Spelt(line, p, a + b)
    ensures Spelt(line, p, a) && Spelt(line, p + |a|, b)
  {
    forall k | 0 <= k < |a| ensures line[p + k] == a[k] {
      assert (a + b)[k] == a[k];
    }
    forall k | 0 <= k < |b| ensures line[p + |a| + k] == b[k] {
      assert (a + b)[|a| + k] == b[k];
      assert line[p + (|a| + k)] == b[k];
    }
  }

  lemma SpeltFirst(line: seq<Byte>, p: nat, e: seq<Byte>)
    requires Spelt(line, p, e) && e != []
    ensures At(line, p) == e[0]
  {
    assert line[p + 0] == e[0];
  }

  /** One written byte is read back as that byte. */
  lemma ScanEscaped(line: seq<Byte>, p: nat, c: Byte, isprint: Byte -> bool, cur: seq<Byte>)
    requires !isprint(0) && Spelt(line, p, Escaped(c, isprint))
    ensures p + |Escaped(c, isprint)| <= |line|
    ensures Scan(line, p, Double, cur) == Scan(line, p + |Escaped(c, isprint)|, Double, cur + [c])
  {
    var e := Escaped(c, isprint);
    assert line[p + 0] == e[0];
    if |e| > 1 {
      assert line[p + 1] == e[1];
    }
    if |e| == 4 {
      assert line[p + 2] == e[2] && line[p + 3] == e[3];
      assert HexAt(line, p);
    }
  }

  /** The escapes of s stand in the line from p to q. */
  ghost predicate Stands(line: seq<Byte>, p: nat, s: seq<Byte>, isprint: Byte -> bool, q: nat)
    decreases |s|
  {
    if s == [] then p == q <= |line|
    else Spelt(line, p, Escaped(s[0], isprint)) && Stands(line, p + |Escaped(s[0], isprint)|, s[1..], isprint, q)
  }

  lemma {:induction false} SpeltStands(line: seq<Byte>, p: nat, s: seq<Byte>, isprint: Byte -> bool)
    requires Spelt(line, p, EscapedAll(s, isprint))
    ensures Stands(line, p, s, isprint, p + |EscapedAll(s, isprint)|)
    decreases |s|
  {
    if s != [] {
      SpeltParts(line, p, Escaped(s[0], isprint), EscapedAll(s[1..], isprint));
      SpeltStands(line, p + |Escaped(s[0], isprint)|, s[1..], isprint);
    }
  }

  lemma ScanClose(line: seq<Byte>, p: nat, cur: seq<Byte>)
    requires p <= |line| && At(line, p) == QUOTE && Closes(line, p)
    ensures Scan(line, p, Double, cur) == Token(cur, p + 1)
  {
  }

  lemma ConsAppend(cur: seq<Byte>, s: seq<Byte>)
    ensures s == [] ==> cur + s == cur
    ensures s != [] ==> cur + [s[0]] + s[1..] == cur + s
  {
  }

  lemma {:induction false} ScanQuoted(line: seq<Byte>, p: nat, s: seq<Byte>, isprint: Byte -> bool, cur: seq<Byte>,
      q: nat)
    requires !isprint(0) && Stands(line, p, s, isprint, q) && At(line, q) == QUOTE && Closes(line, q)
    ensures p <= |line| && Scan(line, p, Double, cur) == Token(cur + s, q + 1)
    decreases |s|
  {
    ConsAppend(cur, s);
    if s == [] {
      ScanClose(line, p, cur);
    } else {
      ScanEscaped(line, p, s[0], isprint, cur);
      ScanQuoted(line, p + |Escaped(s[0], isprint)|, s[1..], isprint, cur + [s[0]], q);
    }
  }

  lemma QuotedParts(line: seq<Byte>, p: nat, body: seq<Byte>)
    requires Spelt(line, p, [QUOTE] + body + [QUOTE])
    ensures At(line, p) == QUOTE && Spelt(line, p + 1, body) && At(line, p + 1 + |body|) == QUOTE
  {
    SpeltParts(line, p, [QUOTE] + body, [QUOTE]);
    SpeltParts(line, p, [QUOTE], body);
    SpeltFirst(line, p, [QUOTE]);
    SpeltFirst(line, p + 1 + |body|, [QUOTE]);
  }

  /** A quoted string is read back, whatever argument follows. */
  lemma SplitQuoted(line: seq<Byte>, p: nat, s: seq<Byte>, isprint: Byte -> bool)
    requires !isprint(0) && Spelt(line, p, Quoted(s, isprint))
    requires p + |Quoted(s, isprint)| == |line| || At(line, p + |Quoted(s, isprint)|) == SPACE
    ensures Split(line, p) == Prepend([s], Split(line, p + |Quoted(s, isprint)|))
  {
    var n := |EscapedAll(s, isprint)|;
    QuotedParts(line, p, EscapedAll(s, isprint));
    SpeltStands(line, p + 1, s, isprint);
    ScanQuoted(line, p + 1, s, isprint, [], p + 1 + n);
    SplitToken(line, p, s, p + n + 2);
  }

  lemma SplitToken(line: seq<Byte>, p: nat, s: seq<Byte>, end: nat)
    requires At(line, p) == QUOTE && Scan(line, p + 1, Double, []) == Token([] + s, end)
    ensures end <= |line| && Split(line, p) == Prepend([s], Split(line, end))
  {
    assert [] + s == s;
  }

  lemma SplitSpace(line: seq<Byte>, p: nat)
    requires At(line, p) == SPACE
    ensures Split(line, p) == Split(line, p + 1)
  {
  }

  lemma LineFirst(args: seq<seq<Byte>>, isprint: Byte -> bool)
    requires |args| > 1
    ensures Line(args, isprint) == Quoted(args[0], isprint) + ([SPACE] + Line(args[1..], isprint))
  {
  }

  lemma SplitFirst(line: seq<Byte>, p: nat, s: seq<Byte>, rest: seq<Byte>, isprint: Byte -> bool)
    requires !isprint(0) && Spelt(line, p, Quoted(s, isprint) + ([SPACE] + rest))
    ensures var next := p + |Quoted(s, isprint)| + 1;
      next <= |line| && Spelt(line, next, rest) && Split(line, p) == Prepend([s], Split(line, next))
  {
    var first := Quoted(s, isprint);
    SpeltParts(line, p, first, [SPACE] + rest);
    SpeltParts(line, p + |first|, [SPACE], rest);
    SpeltFirst(line, p + |first|, [SPACE]);
    SplitQuoted(line, p, s, isprint);
    SplitSpace(line, p + |first|);
  }

  lemma SplitLast(line: seq<Byte>, p: nat, s: seq<Byte>, isprint: Byte -> bool)
    requires !isprint(0) && Spelt(line, p, Quoted(s, isprint)) && p + |Quoted(s, isprint)| == |line|
    ensures Split(line, p) == Some([s])
  {
    SplitQuoted(line, p, s, isprint);
    assert [s] + [] == [s];
  }

  /** The first of several arguments, and where the others stand. */
  lemma SplitMore(line: seq<Byte>, p: nat, s: seq<Byte>, rest: seq<Byte>, whole: seq<Byte>, isprint: Byte -> bool,
      next: nat)
    requires !isprint(0) && Spelt(line, p, whole) && p + |whole| == |line|
    requires whole == Quoted(s, isprint) + ([SPACE] + rest) && next == p + |Quoted(s, isprint)| + 1
    ensures next + |rest| == |line| && Spelt(line, next, rest)
    ensures Split(line, p) == Prepend([s], Split(line, next))
  {
    SplitFirst(line, p, s, rest, isprint);
  }

  lemma {:induction false} SplitLine(line: seq<Byte>, p: nat, args: seq<seq<Byte>>, isprint: Byte -> bool)
    requires !isprint(0) && Spelt(line, p, Line(args, isprint)) && p + |Line(args, isprint)| == |line|
    ensures Split(line, p) == Some(args)
    decreases |args|
  {
    if |args| == 1 {
      SplitLast(line, p, args[0], isprint);
      assert [args[0]] == args;
    } else if |args| > 1 {
      var rest, next := Line(args[1..], isprint), p + |Quoted(args[0], isprint)| + 1;
      LineFirst(args, isprint);
      SplitMore(line, p, args[0], rest, Line(args, isprint), isprint, next);
      SplitLine(line, next, args[1..], isprint);
      assert [args[0]] + args[1..] == args;
    }
  }

  ghost predicate ReadsBack(args: seq<seq<Byte>>, isprint: Byte -> bool) {
    Split(Line(args, isprint), 0) == Some(args)
  }

  /** Quoting byte strings, joining them with spaces and splitting gives them back, for all lists of
      all byte strings, exactly if NUL does not count as printable. */
  lemma RoundTrip(isprint: Byte -> bool)
    ensures !isprint(0) <==> forall args :: ReadsBack(args, isprint)
  {
    if isprint(0) {
      var line: seq<Byte> := [QUOTE, 0, QUOTE];
      assert EscapedAll([0], isprint) == [0];
      assert Line([[0]], isprint) == line;
      assert Scan(line, 0, Plain, []) == Scan(line, 1, Double, []) == Bad;
      assert !ReadsBack([[0]], isprint);
    } else {
      forall args ensures ReadsBack(args, isprint) {
        SplitLine(Line(args, isprint), 0, args, isprint);
      }
    }
  }
}
