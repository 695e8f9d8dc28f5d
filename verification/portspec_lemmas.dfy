/** What `parse_ports` promises beyond a single call: the result depends
    only on which non-blank pieces occur, reversed ranges mean the same as
    ordered ones, and the two malformed shapes that cutting at the first
    `-` produces are rejected. */
module PortSpecLemmas {
  import opened Results
  import opened Text
  import opened PyInt
  import opened PortSpec

  /** An ascending duplicate-free list is determined by its elements: the
      `sorted(set(...))` result is the only list with those two properties. */
  lemma {:induction false} AscendingUnique(a: seq<int>, b: seq<int>)
    requires StrictlyAscending(a) && StrictlyAscending(b)
    requires forall x :: x in a <==> x in b
    ensures a == b
  {
    assert a != [] ==> a[0] in a;
    assert b != [] ==> b[0] in b;
    if a != [] {
      assert a[0] in b && b[0] in a;
      assert a[0] == b[0];
      assert forall x :: x in a[1..] <==> x in a && x != a[0];
      assert forall x :: x in b[1..] <==> x in b && x != b[0];
      AscendingUnique(a[1..], b[1..]);
      assert a == [a[0]] + a[1..];
      assert b == [b[0]] + b[1..];
    }
  }

  /** The pieces of `s` that are not blank. */
  ghost predicate NonBlankPiece(s: string, q: string) {
    q in Split(s, ',') && Strip(q) != []
  }

  /** Reordering, repeating or blanking pieces changes nothing: two
      specifications with the same non-blank pieces both fail or give the
      same ports (`"443,80"` and `"80,,443,80"` both give `[80, 443]`). */
  lemma PieceSetDecides(s1: string, s2: string)
    requires forall q :: NonBlankPiece(s1, q) <==> NonBlankPiece(s2, q)
    ensures ParsePorts(s1).Ok? <==> ParsePorts(s2).Ok?
    ensures ParsePorts(s1).Ok? ==> ParsePorts(s1) == ParsePorts(s2)
  {
    SameOutcome(s1, s2);
    SameOutcome(s2, s1);
    if ParsePorts(s1).Ok? {
      var r1 := ParsePorts(s1).value;
      var r2 := ParsePorts(s2).value;
      forall p
        ensures Mentions(s1, p) <==> Mentions(s2, p)
      {
        SameMentions(s1, s2, p);
        SameMentions(s2, s1, p);
      }
      AscendingUnique(r1, r2);
    }
  }

  lemma SameOutcome(s1: string, s2: string)
    requires forall q :: NonBlankPiece(s1, q) ==> NonBlankPiece(s2, q)
    ensures ParsePorts(s2).Ok? ==> ParsePorts(s1).Ok?
  {
    var p1 := Split(s1, ',');
    if ParsePorts(s2).Ok? {
      forall i | 0 <= i < |p1|
        ensures ParseToken(p1[i]).Ok?
      {
        var q := p1[i];
        if Strip(q) != [] {
          assert NonBlankPiece(s1, q);
          PieceOfParsed(s2, q);
        }
      }
    }
  }

  /** Every piece of a specification that parses reads. */
  lemma PieceOfParsed(s: string, q: string)
    requires ParsePorts(s).Ok? && q in Split(s, ',')
    ensures ParseToken(q).Ok?
  {
    var pieces := Split(s, ',');
    var j :| 0 <= j < |pieces| && pieces[j] == q;
  }

  lemma SameMentions(s1: string, s2: string, p: int)
    requires forall q :: NonBlankPiece(s1, q) ==> NonBlankPiece(s2, q)
    ensures Mentions(s1, p) ==> Mentions(s2, p)
  {
    var p1 := Split(s1, ',');
    if Mentions(s1, p) {
      var i :| 0 <= i < |p1| && PieceCovers(p1[i], p);
      var q := p1[i];
      CoveredIsNonBlank(q, p);
      assert NonBlankPiece(s1, q);
      MentionedBy(s2, q, p);
    }
  }

  /** A piece of `s` that covers `p` makes `s` mention `p`. */
  lemma MentionedBy(s: string, q: string, p: int)
    requires q in Split(s, ',') && PieceCovers(q, p)
    ensures Mentions(s, p)
  {
    var pieces := Split(s, ',');
    var j :| 0 <= j < |pieces| && pieces[j] == q;
  }

  lemma CoveredIsNonBlank(q: string, p: int)
    requires PieceCovers(q, p)
    ensures Strip(q) != []
  {
  }

  /** A specification without a comma is a single piece: it parses exactly
      when that piece does, with that piece's error, to the valid ports the
      piece covers. */
  lemma OnePiece(a: string)
    requires ',' !in a
    ensures ParsePorts(a).Ok? <==> ParseToken(a).Ok?
    ensures ParseToken(a).Err? ==> ParsePorts(a) == Err(ParseToken(a).error)
    ensures ParsePorts(a).Ok? ==> forall p :: p in ParsePorts(a).value <==> IsPort(p) && PieceCovers(a, p)
  {
    SplitNone(a, ',');
    assert Split(a, ',')[0] == a;
  }

  /** `a + "," + rest` is read piece by piece: a failing first piece `a`
      decides the error; otherwise the whole fails exactly as `rest` does. */
  lemma FirstPieceError(a: string, rest: string)
    requires ',' !in a
    ensures ParseToken(a).Err? ==> ParsePorts(a + "," + rest) == Err(ParseToken(a).error)
    ensures ParseToken(a).Ok? && ParsePorts(rest).Err? ==> ParsePorts(a + "," + rest) == ParsePorts(rest)
    ensures ParseToken(a).Ok? && ParsePorts(rest).Ok? ==> ParsePorts(a + "," + rest).Ok?
  {
    var tail := Split(rest, ',');
    SplitFirst(a, ',', rest);
    var rs := PieceResults([a] + tail);
    assert ([a] + tail)[1..] == tail;
    assert rs[1..] == PieceResults(tail);
  }

  /** A piece the loop reads adds the ports it covers to those of the rest. */
  lemma FirstPieceCovers(a: string, rest: string)
    requires ',' !in a
    requires ParseToken(a).Ok? && ParsePorts(rest).Ok?
    ensures ParsePorts(a + "," + rest).Ok?
    ensures forall p :: p in ParsePorts(a + "," + rest).value <==>
      IsPort(p) && (PieceCovers(a, p) || p in ParsePorts(rest).value)
  {
    FirstPieceError(a, rest);
    var s := a + "," + rest;
    var pieces := Split(s, ',');
    var tail := Split(rest, ',');
    SplitFirst(a, ',', rest);
    forall p
      ensures Mentions(s, p) <==> PieceCovers(a, p) || Mentions(rest, p)
    {
      assert pieces[0] == a;
      if Mentions(rest, p) {
        var k :| 0 <= k < |tail| && PieceCovers(tail[k], p);
        assert pieces[k + 1] == tail[k];
      }
      if Mentions(s, p) && !PieceCovers(a, p) {
        var k :| 0 <= k < |pieces| && PieceCovers(pieces[k], p);
        assert k != 0;
        assert pieces[k] == tail[k - 1];
      }
    }
  }

  /** Stripping and cutting `x + "-" + y` at its first `-` gives `x`
      without its leading space and `y` without its trailing space. */
  lemma CutAtDash(x: string, y: string)
    requires '-' !in x
    ensures var t := Strip(x + "-" + y);
      && '-' in t
      && Find(t, '-') == |LStrip(x)|
      && t[..|LStrip(x)|] == LStrip(x)
      && t[|LStrip(x)| + 1..] == RStrip(y)
  {
    var lx := LStrip(x);
    var ry := RStrip(y);
    StripAroundChar(x, '-', y);
    LStripKeepsOut(x, '-');
    FindAfter(lx, '-', ry);
    CutAround(lx, '-', ry);
  }

  lemma PieceIsRange(x: string, y: string)
    requires '-' !in x
    ensures ParseToken(x + "-" + y) == ReadRange(LStrip(x), RStrip(y))
  {
    CutAtDash(x, y);
  }

  /** On text without an information separator, `int()` strips its
      argument itself, so one-sided stripping beforehand changes nothing. */
  lemma IntIgnoresSpace(x: string)
    requires NoSeparator(x)
    ensures ParseInt(LStrip(x)) == ParseInt(x)
    ensures ParseInt(RStrip(x)) == ParseInt(x)
  {
    var l, r := LStrip(x), RStrip(x);
    assert NoSeparator(l) by {
      assert forall k :: 0 <= k < |l| ==> l[k] == x[|x| - |l| + k];
    }
    assert NoSeparator(r) by {
      assert forall k :: 0 <= k < |r| ==> r[k] == x[k];
    }
    StripLStrip(x);
    StripRStrip(x);
    IntOfStrip(x);
    IntOfStrip(l);
    IntOfStrip(r);
  }

  /** A piece whose text before its first `-` is `x`: `int()` is given `x`
      without its leading whitespace, then `y` without its trailing
      whitespace; the first of them that raises decides the error, a range
      longer than `sys.maxsize` overflows, and otherwise the piece is the
      ordered range of the two values. */
  lemma RangePiece(x: string, y: string)
    requires '-' !in x
    ensures var a, b := ParseInt(LStrip(x)), ParseInt(RStrip(y));
      ParseToken(x + "-" + y) ==
        if a.None? then Err(InvalidLiteral(LStrip(x)))
        else if b.None? then Err(InvalidLiteral(RStrip(y)))
        else if SpanOf(a.value, b.value).hi - SpanOf(a.value, b.value).lo >= MaxSize then
          Err(RangeTooLong(SpanOf(a.value, b.value).lo, SpanOf(a.value, b.value).hi))
        else Ok(Some(SpanOf(a.value, b.value)))
  {
    PieceIsRange(x, y);
  }

  /** A range piece whose two sides `int()` reads. */
  lemma RangeOfInts(x: string, y: string, a: int, b: int)
    requires '-' !in x && ParseInt(LStrip(x)) == Some(a) && ParseInt(RStrip(y)) == Some(b)
    ensures ParseToken(x + "-" + y) ==
      if SpanOf(a, b).hi - SpanOf(a, b).lo >= MaxSize then Err(RangeTooLong(SpanOf(a, b).lo, SpanOf(a, b).hi))
      else Ok(Some(SpanOf(a, b)))
  {
    PieceIsRange(x, y);
  }

  /** A range piece whose left side `int()` rejects. */
  lemma RangeLeftFails(x: string, y: string)
    requires '-' !in x && ParseInt(LStrip(x)) == None
    ensures ParseToken(x + "-" + y) == Err(InvalidLiteral(LStrip(x)))
  {
    PieceIsRange(x, y);
  }

  /** A piece without `-` is one port: `int()` of the stripped piece, or
      that call's error. On text without an information separator this is
      `int()` of the piece as it stands. */
  lemma SinglePiece(x: string)
    requires '-' !in x
    ensures ParseToken(x) ==
      if Strip(x) == [] then Ok(None)
      else if ParseInt(Strip(x)).Some? then Ok(Some(Single(ParseInt(Strip(x)).value)))
      else Err(InvalidLiteral(Strip(x)))
    ensures NoSeparator(x) ==> ParseInt(Strip(x)) == ParseInt(x)
  {
    var t := Strip(x);
    var pre, post := StripParts(x);
    forall k | 0 <= k < |t|
      ensures t[k] == x[|pre| + k]
    {
      assert x == pre + t + post;
    }
    assert '-' !in t;
    if NoSeparator(x) {
      assert NoSeparator(t);
      StripTrimmed(t);
      IntOfStrip(x);
      IntOfStrip(t);
    }
  }

  /** `"b-a"` reads as the same range as `"a-b"` (`"25-20"` is `20..25`),
      as long as no information separator makes `int()` see one side
      differently from `str.strip`. */
  lemma ReversedRange(x: string, y: string)
    requires '-' !in x && '-' !in y
    requires NoSeparator(x) && NoSeparator(y)
    ensures ParseToken(x + "-" + y).Ok? <==> ParseToken(y + "-" + x).Ok?
    ensures ParseToken(x + "-" + y).Ok? ==> ParseToken(x + "-" + y) == ParseToken(y + "-" + x)
  {
    PieceIsRange(x, y);
    PieceIsRange(y, x);
    IntIgnoresSpace(x);
    IntIgnoresSpace(y);
    ReadRangeSwap(LStrip(x), RStrip(y), LStrip(y), RStrip(x));
  }

  /** Reading a range depends on the two values, not their order. */
  lemma ReadRangeSwap(l1: string, r1: string, l2: string, r2: string)
    requires ParseInt(l1) == ParseInt(r2) && ParseInt(r1) == ParseInt(l2)
    ensures ReadRange(l1, r1).Ok? <==> ReadRange(l2, r2).Ok?
    ensures ReadRange(l1, r1).Ok? ==> ReadRange(l1, r1) == ReadRange(l2, r2)
  {
    if ParseInt(l1).Some? && ParseInt(r1).Some? {
      var a, b := ParseInt(l1).value, ParseInt(r1).value;
      assert SpanOf(a, b) == SpanOf(b, a);
    }
  }

  /** A piece that starts with `-` fails: the text before the first `-`
      is empty and `int("")` raises (`"-5"` is rejected, not read as -5). */
  lemma LeadingDash(piece: string)
    requires |Strip(piece)| > 0 && Strip(piece)[0] == '-'
    ensures ParseToken(piece) == Err(InvalidLiteral(""))
  {
    var t := Strip(piece);
    assert Find(t, '-') == 0;
    assert t[..0] == "";
    BlankIsNotInt("");
  }

  /** A second `-` after a non-blank middle makes the piece fail: `int()`
      gets `"2-3"` from `"1-2-3"` and raises. */
  lemma SecondDash(x: string, y: string, z: string)
    requires '-' !in x
    requires !AllSpace(y)
    ensures ParseToken(x + "-" + y + "-" + z).Err?
  {
    var w := y + "-" + z;
    assert x + "-" + y + "-" + z == x + "-" + w;
    InnerDashSide(y, z);
    PieceIsRange(x, w);
  }

  /** `int()` rejects the right side `y-z` of a range when `y` is not blank. */
  lemma InnerDashSide(y: string, z: string)
    requires !AllSpace(y)
    ensures ParseInt(RStrip(y + "-" + z)) == None
  {
    var w := y + "-" + z;
    StripRStrip(w);
    StripAroundChar(y, '-', z);
    var ly := LStrip(y);
    assert |ly| > 0;
    assert Strip(w) == ly + "-" + RStrip(z);
    assert Strip(w)[|ly|] == '-';
    InnerDashIsNotInt(RStrip(w), |ly|);
  }
}
