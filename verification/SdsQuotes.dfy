/** When sdssplitargs (deps/hiredis/sds.c) accepts a line: a reading of the quotes alone, without the
    arguments. */
module SdsQuotes {
  import opened SdsFormat

  /** Between two arguments, or inside one. */
  datatype Where = Between | Inside(mode: Mode)

  /** A place in the line, and what it is inside of. */
  datatype Place = Place(p: nat, at: Where)

  /** The next place: behind a character or an escape.  The end of the line is never left. */
  function Move(line: seq<Byte>, x: Place): (y: Place)
    requires x.p <= |line|
    ensures y.p <= |line| && (At(line, x.p) != 0 ==> x.p < y.p)
  {
    var c := At(line, x.p);
    if c == 0 then x
    else
      match x.at
      case Between => if IsSpace(c) then Place(x.p + 1, Between) else Place(x.p + 1, Entered(c))
      case Inside(Plain) =>
        Place(x.p + 1, if c == SPACE || c == 10 || c == 13 || c == 9 then Between else Entered(c))
      case Inside(Double) =>
        if HexAt(line, x.p) then Place(x.p + 4, x.at)
        else if c == BACKSLASH && At(line, x.p + 1) != 0 then Place(x.p + 2, x.at)
        else Place(x.p + 1, if c == QUOTE then Between else x.at)
      case Inside(Single) =>
        if c == BACKSLASH && At(line, x.p + 1) == APOSTROPHE then Place(x.p + 2, x.at)
        else Place(x.p + 1, if c == APOSTROPHE then Between else x.at)
  }

  /** Where a character that is not in quotes leads. */
  function Entered(c: Byte): Where {
    Inside(if c == QUOTE then Double else if c == APOSTROPHE then Single else Plain)
  }

  /** The line ends inside quotes. */
  predicate Unclosed(line: seq<Byte>, x: Place) {
    At(line, x.p) == 0 && (x.at == Inside(Double) || x.at == Inside(Single))
  }

  /** Quotes are closed in front of a character that is no blank. */
  predicate Misplaced(line: seq<Byte>, x: Place) {
    && ((x.at == Inside(Double) && At(line, x.p) == QUOTE) || (x.at == Inside(Single) && At(line, x.p) == APOSTROPHE))
    && !Closes(line, x.p)
  }

  predicate Wrong(line: seq<Byte>, x: Place) {
    Unclosed(line, x) || Misplaced(line, x)
  }

  /** The place after n moves. */
  function After(line: seq<Byte>, x: Place, n: nat): (y: Place)
    requires x.p <= |line|
    ensures y.p <= |line|
    decreases n
  {
    if n == 0 then x else After(line, Move(line, x), n - 1)
  }

  /** Something is wrong after some number of moves. */
  ghost predicate Spoilt(line: seq<Byte>, x: Place)
    requires x.p <= |line|
  {
    exists n: nat :: Wrong(line, After(line, x, n))
  }

  /** One place at a time. */
  lemma SpoiltStep(line: seq<Byte>, x: Place)
    requires x.p <= |line|
    ensures Spoilt(line, x) <==> Wrong(line, x) || Spoilt(line, Move(line, x))
  {
    if Spoilt(line, x) {
      var n: nat :| Wrong(line, After(line, x, n));
      assert n > 0 ==> Wrong(line, After(line, Move(line, x), n - 1));
    }
    if Wrong(line, x) {
      assert Wrong(line, After(line, x, 0));
    }
    if y :| y == Move(line, x) && Spoilt(line, y) {
      var n: nat :| Wrong(line, After(line, y, n));
      assert Wrong(line, After(line, x, n + 1));
    }
  }

  lemma {:induction false} SpoiltEnd(line: seq<Byte>, x: Place, n: nat)
    requires x.p <= |line| && At(line, x.p) == 0
    ensures After(line, x, n) == x
  {
    if n > 0 {
      SpoiltEnd(line, x, n - 1);
    }
  }

  /** The rest of an argument fails, or what is behind it does. */
  lemma {:induction false} ScanSpoilt(line: seq<Byte>, p: nat, mode: Mode, cur: seq<Byte>)
    requires p <= |line|
    ensures var r := Scan(line, p, mode, cur);
      Spoilt(line, Place(p, Inside(mode))) <==> r.Bad? || Spoilt(line, Place(r.end, Between))
    decreases |line| - p
  {
    var x := Place(p, Inside(mode));
    SpoiltStep(line, x);
    var c := At(line, p);
    if c == 0 {
      assert Spoilt(line, x) ==> Wrong(line, x) by {
        if n: nat :| Wrong(line, After(line, x, n)) {
          SpoiltEnd(line, x, n);
        }
      }
      if n: nat :| Wrong(line, After(line, Place(p, Between), n)) {
        SpoiltEnd(line, Place(p, Between), n);
      }
    } else {
      match mode
      case Double =>
        if HexAt(line, p) {
          ScanSpoilt(line, p + 4, Double, cur + [HexValue(At(line, p + 2)) * 16 + HexValue(At(line, p + 3))]);
        } else if c == BACKSLASH && At(line, p + 1) != 0 {
          ScanSpoilt(line, p + 2, Double, cur + [Unescaped(At(line, p + 1))]);
        } else if c != QUOTE {
          ScanSpoilt(line, p + 1, Double, cur + [c]);
        }
      case Single =>
        if c == BACKSLASH && At(line, p + 1) == APOSTROPHE {
          ScanSpoilt(line, p + 2, Single, cur + [APOSTROPHE]);
        } else if c != APOSTROPHE {
          ScanSpoilt(line, p + 1, Single, cur + [c]);
        }
      case Plain =>
        if c == QUOTE {
          ScanSpoilt(line, p + 1, Double, cur);
        } else if c == APOSTROPHE {
          ScanSpoilt(line, p + 1, Single, cur);
        } else if c != SPACE && c != 10 && c != 13 && c != 9 {
          ScanSpoilt(line, p + 1, Plain, cur + [c]);
        }
    }
  }

  lemma {:induction false} BlanksSpoilt(line: seq<Byte>, p: nat)
    requires p <= |line|
    ensures Spoilt(line, Place(p, Between)) <==> Spoilt(line, Place(SkipBlanks(line, p), Between))
    decreases |line| - p
  {
    if At(line, p) != 0 && IsSpace(At(line, p)) {
      SpoiltStep(line, Place(p, Between));
      BlanksSpoilt(line, p + 1);
    }
  }

  lemma {:induction false} SplitSpoilt(line: seq<Byte>, p: nat)
    requires p <= |line|
    ensures Split(line, p).None? <==> Spoilt(line, Place(p, Between))
    decreases |line| - p
  {
    BlanksSpoilt(line, p);
    var q := SkipBlanks(line, p);
    var x := Place(q, Between);
    SpoiltStep(line, x);
    if At(line, q) == 0 {
      if n: nat :| Wrong(line, After(line, x, n)) {
        SpoiltEnd(line, x, n);
      }
    } else {
      SpoiltStep(line, Place(q, Inside(Plain)));
      ScanSpoilt(line, q, Plain, []);
      var r := Scan(line, q, Plain, []);
      if r.Token? {
        SplitSpoilt(line, r.end);
      }
    }
  }

  /** A line is refused exactly if at some place its quotes are not closed any more, or are closed in
      front of a character that is no blank. */
  lemma RefusedIff(line: seq<Byte>)
    ensures Split(line, 0).None? <==> Spoilt(line, Place(0, Between))
  {
    SplitSpoilt(line, 0);
  }
}
