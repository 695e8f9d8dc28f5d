/** The worked examples of `parse_ports` and of the empty-list check,
    proved from the general definitions. Each example is assembled from
    one-fact lemmas: how the text splits, how each piece reads, and which
    ports the tokens cover. */
module PortSpecExamples {
  import opened Results
  import opened Text
  import opened PyInt
  import opened PortSpec
  import opened PortSpecLemmas
  import Cli

  /** A bare decimal port is read as that port. */
  lemma DecimalPiece(n: nat, text: string)
    requires Decimal(n) == text
    ensures ParseToken(text) == Ok(Some(Single(n)))
  {
    DigitsAreNumeral(text);
    StripTrimmed(text);
    assert '-' !in text;
    DecimalIsInt(n);
  }

  /** A decimal numeral is untouched by one-sided stripping. */
  lemma DecimalUnstripped(n: nat)
    ensures LStrip(Decimal(n)) == Decimal(n) && RStrip(Decimal(n)) == Decimal(n)
  {
    var d := Decimal(n);
    DigitsAreNumeral(d);
    assert [] + d == d && d + [] == d;
    LStripOf([], d);
    RStripOf(d, []);
  }

  /** `"a-b"` with decimal endpoints is the range between them, in order,
      unless it holds more than `sys.maxsize` ports. */
  lemma DecimalRange(a: nat, b: nat, text: string)
    requires Decimal(a) + "-" + Decimal(b) == text
    ensures ParseToken(text) ==
      if SpanOf(a, b).hi - SpanOf(a, b).lo >= MaxSize then Err(RangeTooLong(SpanOf(a, b).lo, SpanOf(a, b).hi))
      else Ok(Some(SpanOf(a, b)))
  {
    assert '-' !in Decimal(a);
    DecimalUnstripped(a);
    DecimalUnstripped(b);
    DecimalIsInt(a);
    DecimalIsInt(b);
    RangeOfInts(Decimal(a), Decimal(b), a, b);
  }

  /** `int()` reads `"-" + str(b)`, untouched by right-stripping, as -b. */
  lemma NegativeDecimalUnstripped(b: nat)
    ensures ParseInt(RStrip("-" + Decimal(b))) == Some(-(b as int))
  {
    var nb := "-" + Decimal(b);
    DigitsAreNumeral(Decimal(b));
    assert nb[|nb| - 1] == Decimal(b)[|Decimal(b)| - 1];
    assert nb + [] == nb;
    RStripOf(nb, []);
    NegativeDecimalIsInt(b);
  }

  /** `"a--b"` with decimal `a` and `b` is the range from -b to a. */
  lemma DecimalNegativeRange(a: nat, b: nat, text: string)
    requires Decimal(a) + "-" + ("-" + Decimal(b)) == text
    ensures a + b < MaxSize ==> ParseToken(text) == Ok(Some(Span(-(b as int), a)))
  {
    assert '-' !in Decimal(a);
    DecimalUnstripped(a);
    DecimalIsInt(a);
    NegativeDecimalUnstripped(b);
    RangeOfInts(Decimal(a), "-" + Decimal(b), a, -(b as int));
  }

  /** A trimmed piece that starts with neither a digit nor a sign and holds
      no `-` is rejected as it stands. */
  lemma WordPiece(text: string)
    requires |text| > 0 && !IsSpace(text[0]) && !IsSpace(text[|text| - 1])
    requires !IsDigit(text[0]) && !IsSign(text[0])
    requires '-' !in text
    ensures ParseToken(text) == Err(InvalidLiteral(text))
  {
    StripTrimmed(text);
  }

  /** A piece with a second `-` after a non-blank middle is rejected. */
  lemma TwoDashes(text: string, x: string, y: string, z: string)
    requires text == x + "-" + y + "-" + z
    requires '-' !in x && |y| > 0 && !IsSpace(y[0])
    ensures ParseToken(text).Err?
  {
    SecondDash(x, y, z);
  }

  type PieceResult = Result<Option<Token>, ParseError>

  /** Text of two comma-free pieces splits into those pieces. */
  lemma SplitTwo(a: string, b: string)
    requires ',' !in a && ',' !in b
    ensures Split(a + "," + b, ',') == [a, b]
  {
    SplitFirst(a, ',', b);
    SplitNone(b, ',');
  }

  /** Text of three comma-free pieces splits into those pieces. */
  lemma SplitThree(a: string, b: string, c: string)
    requires ',' !in a && ',' !in b && ',' !in c
    ensures Split(a + "," + (b + "," + c), ',') == [a, b, c]
  {
    SplitFirst(a, ',', b + "," + c);
    SplitTwo(b, c);
  }

  lemma ResultsOfOne(a: string)
    ensures PieceResults([a]) == [ParseToken(a)]
  {
    assert [a][1..] == [];
  }

  lemma ResultsOfTwo(a: string, b: string)
    ensures PieceResults([a, b]) == [ParseToken(a), ParseToken(b)]
  {
    assert [a, b][1..] == [b];
    ResultsOfOne(b);
  }

  lemma ResultsOfThree(a: string, b: string, c: string)
    ensures PieceResults([a, b, c]) == [ParseToken(a), ParseToken(b), ParseToken(c)]
  {
    assert [a, b, c][1..] == [b, c];
    ResultsOfTwo(b, c);
  }

  /** The piece reads as the token. */
  predicate Reads(piece: string, t: Token) {
    ParseToken(piece) == Ok(Some(t))
  }

  /** Some token of the list covers `p`. */
  ghost predicate AnyCovers(tokens: seq<Token>, p: int) {
    exists i :: 0 <= i < |tokens| && Covers(tokens[i], p)
  }

  /** When every piece of `s` reads as the matching token, `s` gives the
      ascending list of the valid ports those tokens cover. */
  lemma ParsesToTokens(s: string, pieces: seq<string>, tokens: seq<Token>, expected: seq<int>)
    requires Split(s, ',') == pieces
    requires |pieces| == |tokens| && forall i :: 0 <= i < |pieces| ==> Reads(pieces[i], tokens[i])
    requires StrictlyAscending(expected)
    requires forall p :: p in expected <==> IsPort(p) && AnyCovers(tokens, p)
    ensures ParsePorts(s) == Ok(expected)
  {
    assert ParsePorts(s).Ok?;
    forall p
      ensures p in expected <==> IsPort(p) && Mentions(s, p)
    {
      if Mentions(s, p) {
        var i :| 0 <= i < |pieces| && PieceCovers(pieces[i], p);
        assert Reads(pieces[i], tokens[i]);
        assert Covers(tokens[i], p);
      }
      if AnyCovers(tokens, p) {
        var i :| 0 <= i < |tokens| && Covers(tokens[i], p);
        assert Reads(pieces[i], tokens[i]);
        assert PieceCovers(pieces[i], p);
      }
    }
    AscendingUnique(ParsePorts(s).value, expected);
  }

  lemma CoveredByOne(ta: Token, p: int)
    ensures AnyCovers([ta], p) <==> Covers(ta, p)
  {
    if Covers(ta, p) {
      assert [ta][0] == ta;
    }
  }

  lemma CoveredByTwo(ta: Token, tb: Token, p: int)
    ensures AnyCovers([ta, tb], p) <==> Covers(ta, p) || Covers(tb, p)
  {
    var tokens := [ta, tb];
    if Covers(ta, p) { assert tokens[0] == ta; }
    if Covers(tb, p) { assert tokens[1] == tb; }
  }

  lemma CoveredByThree(ta: Token, tb: Token, tc: Token, p: int)
    ensures AnyCovers([ta, tb, tc], p) <==> Covers(ta, p) || Covers(tb, p) || Covers(tc, p)
  {
    var tokens := [ta, tb, tc];
    if Covers(ta, p) { assert tokens[0] == ta; }
    if Covers(tb, p) { assert tokens[1] == tb; }
    if Covers(tc, p) { assert tokens[2] == tc; }
  }

  /** Facts about the elements, one by one, hold at every index. */
  lemma Pointwise2(P: (string, Token) -> bool, a: string, b: string, ta: Token, tb: Token)
    requires P(a, ta) && P(b, tb)
    ensures forall i :: 0 <= i < 2 ==> P([a, b][i], [ta, tb][i])
  {
    forall i | 0 <= i < 2
      ensures P([a, b][i], [ta, tb][i])
    {
      if i == 0 {
        assert [a, b][i] == a && [ta, tb][i] == ta;
      } else {
        assert [a, b][i] == b && [ta, tb][i] == tb;
      }
    }
  }

  lemma Pointwise3(P: (string, Token) -> bool, a: string, b: string, c: string, ta: Token, tb: Token, tc: Token)
    requires P(a, ta) && P(b, tb) && P(c, tc)
    ensures forall i :: 0 <= i < 3 ==> P([a, b, c][i], [ta, tb, tc][i])
  {
    forall i | 0 <= i < 3
      ensures P([a, b, c][i], [ta, tb, tc][i])
    {
      if i == 0 {
        assert [a, b, c][i] == a && [ta, tb, tc][i] == ta;
      } else if i == 1 {
        assert [a, b, c][i] == b && [ta, tb, tc][i] == tb;
      } else {
        assert [a, b, c][i] == c && [ta, tb, tc][i] == tc;
      }
    }
  }

  lemma ReadsAsTwo(a: string, b: string, ta: Token, tb: Token)
    requires Reads(a, ta) && Reads(b, tb)
    ensures forall i :: 0 <= i < 2 ==> Reads([a, b][i], [ta, tb][i])
  {
    Pointwise2(Reads, a, b, ta, tb);
  }

  lemma ReadsAsThree(a: string, b: string, c: string, ta: Token, tb: Token, tc: Token)
    requires Reads(a, ta) && Reads(b, tb) && Reads(c, tc)
    ensures forall i :: 0 <= i < 3 ==> Reads([a, b, c][i], [ta, tb, tc][i])
  {
    Pointwise3(Reads, a, b, c, ta, tb, tc);
  }

  /** One piece that reads as one token. */
  lemma OneToken(s: string, ta: Token, expected: seq<int>)
    requires Split(s, ',') == [s]
    requires ParseToken(s) == Ok(Some(ta))
    requires StrictlyAscending(expected)
    requires forall p :: p in expected <==> IsPort(p) && Covers(ta, p)
    ensures ParsePorts(s) == Ok(expected)
  {
    forall p {
      CoveredByOne(ta, p);
    }
    assert forall i :: 0 <= i < 1 ==> Reads([s][i], [ta][i]);
    ParsesToTokens(s, [s], [ta], expected);
  }

  /** Two pieces that read as two tokens. */
  lemma TwoTokens(s: string, a: string, b: string, ta: Token, tb: Token, expected: seq<int>)
    requires Split(s, ',') == [a, b]
    requires ParseToken(a) == Ok(Some(ta)) && ParseToken(b) == Ok(Some(tb))
    requires StrictlyAscending(expected)
    requires forall p :: p in expected <==> IsPort(p) && (Covers(ta, p) || Covers(tb, p))
    ensures ParsePorts(s) == Ok(expected)
  {
    forall p {
      CoveredByTwo(ta, tb, p);
    }
    ReadsAsTwo(a, b, ta, tb);
    ParsesToTokens(s, [a, b], [ta, tb], expected);
  }

  /** Three pieces that read as three tokens. */
  lemma ThreeTokens(s: string, a: string, b: string, c: string, ta: Token, tb: Token, tc: Token, expected: seq<int>)
    requires Split(s, ',') == [a, b, c]
    requires ParseToken(a) == Ok(Some(ta)) && ParseToken(b) == Ok(Some(tb)) && ParseToken(c) == Ok(Some(tc))
    requires StrictlyAscending(expected)
    requires forall p :: p in expected <==> IsPort(p) && (Covers(ta, p) || Covers(tb, p) || Covers(tc, p))
    ensures ParsePorts(s) == Ok(expected)
  {
    forall p {
      CoveredByThree(ta, tb, tc, p);
    }
    ReadsAsThree(a, b, c, ta, tb, tc);
    ParsesToTokens(s, [a, b, c], [ta, tb, tc], expected);
  }

  /** `Collect` stops at a second result that fails. */
  lemma CollectSecondFails(rs: seq<PieceResult>, e: ParseError)
    requires |rs| > 1 && rs[0].Ok? && rs[1] == Err(e)
    ensures Collect(rs) == Err(e)
  {
    assert rs[1..][0] == Err(e);
  }

  /** A failing first piece decides the error. */
  lemma FailsFirst(s: string, rs: seq<PieceResult>, e: ParseError)
    requires PieceResults(Split(s, ',')) == rs
    requires |rs| > 0 && rs[0] == Err(e)
    ensures ParsePorts(s) == Err(e)
  {
  }

  /** A second piece that fails after a first that reads decides the error. */
  lemma FailsSecond(s: string, rs: seq<PieceResult>, e: ParseError)
    requires PieceResults(Split(s, ',')) == rs
    requires |rs| > 1 && rs[0].Ok? && rs[1] == Err(e)
    ensures ParsePorts(s) == Err(e)
  {
    CollectSecondFails(rs, e);
    assert ParseAll(Split(s, ',')) == Err(e);
  }

  // "20-25,80,443"

  lemma Piece20To25()
    ensures ParseToken("20-25") == Ok(Some(Span(20, 25)))
  {
    DecimalRange(20, 25, "20-25");
  }

  lemma Piece80()
    ensures ParseToken("80") == Ok(Some(Single(80)))
  {
    DecimalPiece(80, "80");
  }

  lemma Piece443()
    ensures ParseToken("443") == Ok(Some(Single(443)))
  {
    DecimalPiece(443, "443");
  }

  lemma SplitOfRangeAndSingles()
    ensures Split("20-25,80,443", ',') == ["20-25", "80", "443"]
  {
    assert "20-25,80,443" == "20-25" + "," + ("80" + "," + "443");
    SplitThree("20-25", "80", "443");
  }

  lemma ExpectedOfRangeAndSingles()
    ensures StrictlyAscending([20, 21, 22, 23, 24, 25, 80, 443])
    ensures forall p :: p in [20, 21, 22, 23, 24, 25, 80, 443] <==>
      IsPort(p) && (Covers(Span(20, 25), p) || Covers(Single(80), p) || Covers(Single(443), p))
  {
  }

  /** `"20-25,80,443"` gives `[20, 21, 22, 23, 24, 25, 80, 443]`. */
  lemma RangeAndSingles()
    ensures ParsePorts("20-25,80,443") == Ok([20, 21, 22, 23, 24, 25, 80, 443])
  {
    SplitOfRangeAndSingles();
    Piece20To25();
    Piece80();
    Piece443();
    ExpectedOfRangeAndSingles();
    ThreeTokens("20-25,80,443", "20-25", "80", "443", Span(20, 25), Single(80), Single(443),
      [20, 21, 22, 23, 24, 25, 80, 443]);
  }

  // "443,80" and "80,443,80"

  lemma SplitOfReordered()
    ensures Split("443,80", ',') == ["443", "80"]
  {
    assert "443,80" == "443" + "," + "80";
    SplitTwo("443", "80");
  }

  lemma ExpectedOfReordered()
    ensures StrictlyAscending([80, 443])
    ensures forall p :: p in [80, 443] <==> IsPort(p) && (Covers(Single(443), p) || Covers(Single(80), p))
  {
  }

  /** `"443,80"` gives `[80, 443]`: input order does not matter. */
  lemma OrderIgnored()
    ensures ParsePorts("443,80") == Ok([80, 443])
  {
    SplitOfReordered();
    Piece443();
    Piece80();
    ExpectedOfReordered();
    TwoTokens("443,80", "443", "80", Single(443), Single(80), [80, 443]);
  }

  lemma SplitOfRepeated()
    ensures Split("80,443,80", ',') == ["80", "443", "80"]
  {
    assert "80,443,80" == "80" + "," + ("443" + "," + "80");
    SplitThree("80", "443", "80");
  }

  lemma ExpectedOfRepeated()
    ensures StrictlyAscending([80, 443])
    ensures forall p :: p in [80, 443] <==>
      IsPort(p) && (Covers(Single(80), p) || Covers(Single(443), p) || Covers(Single(80), p))
  {
  }

  /** `"80,443,80"` gives the same `[80, 443]`: repeats do not matter. */
  lemma RepeatIgnored()
    ensures ParsePorts("80,443,80") == Ok([80, 443])
  {
    SplitOfRepeated();
    Piece80();
    Piece443();
    ExpectedOfRepeated();
    ThreeTokens("80,443,80", "80", "443", "80", Single(80), Single(443), Single(80), [80, 443]);
  }

  // "25-20"

  lemma Piece25To20()
    ensures ParseToken("25-20") == Ok(Some(Span(20, 25)))
  {
    DecimalRange(25, 20, "25-20");
  }

  lemma ExpectedOfReversed()
    ensures StrictlyAscending([20, 21, 22, 23, 24, 25])
    ensures forall p :: p in [20, 21, 22, 23, 24, 25] <==> IsPort(p) && Covers(Span(20, 25), p)
  {
  }

  /** `"25-20"` gives `[20, 21, 22, 23, 24, 25]`. */
  lemma ReversedRangeExample()
    ensures ParsePorts("25-20") == Ok([20, 21, 22, 23, 24, 25])
  {
    SplitNone("25-20", ',');
    Piece25To20();
    ExpectedOfReversed();
    OneToken("25-20", Span(20, 25), [20, 21, 22, 23, 24, 25]);
  }

  // "0,70000,80" and "0,70000"

  lemma Piece0()
    ensures ParseToken("0") == Ok(Some(Single(0)))
  {
    DecimalPiece(0, "0");
  }

  lemma Piece70000()
    ensures ParseToken("70000") == Ok(Some(Single(70000)))
  {
    DecimalPiece(70000, "70000");
  }

  lemma SplitOfOutOfRange()
    ensures Split("0,70000,80", ',') == ["0", "70000", "80"]
  {
    assert "0,70000,80" == "0" + "," + ("70000" + "," + "80");
    SplitThree("0", "70000", "80");
  }

  lemma ExpectedOfOutOfRange()
    ensures StrictlyAscending([80])
    ensures forall p :: p in [80] <==>
      IsPort(p) && (Covers(Single(0), p) || Covers(Single(70000), p) || Covers(Single(80), p))
  {
  }

  /** `"0,70000,80"` gives `[80]`: out-of-range values are dropped silently. */
  lemma OutOfRangeDropped()
    ensures ParsePorts("0,70000,80") == Ok([80])
  {
    SplitOfOutOfRange();
    Piece0();
    Piece70000();
    Piece80();
    ExpectedOfOutOfRange();
    ThreeTokens("0,70000,80", "0", "70000", "80", Single(0), Single(70000), Single(80), [80]);
  }

  lemma SplitOfNothingValid()
    ensures Split("0,70000", ',') == ["0", "70000"]
  {
    assert "0,70000" == "0" + "," + "70000";
    SplitTwo("0", "70000");
  }

  lemma ExpectedOfNothingValid()
    ensures StrictlyAscending([])
    ensures forall p :: p in [] <==> IsPort(p) && (Covers(Single(0), p) || Covers(Single(70000), p))
  {
  }

  /** `"0,70000"` parses, but to nothing. */
  lemma NothingValid()
    ensures ParsePorts("0,70000") == Ok([])
  {
    SplitOfNothingValid();
    Piece0();
    Piece70000();
    ExpectedOfNothingValid();
    TwoTokens("0,70000", "0", "70000", Single(0), Single(70000), []);
  }

  /** `-p 0,70000` is refused by the program rather than scanned as empty. */
  lemma NothingValidRejected()
    ensures Cli.ChoosePorts(Some("0,70000")) == Err(Cli.NoValidPorts)
  {
    NothingValid();
  }

  // "22,abc"

  lemma Piece22()
    ensures ParseToken("22") == Ok(Some(Single(22)))
  {
    DecimalPiece(22, "22");
  }

  lemma PieceAbc()
    ensures ParseToken("abc") == Err(InvalidLiteral("abc"))
  {
    WordPiece("abc");
  }

  lemma ReadingsOfNonNumeric()
    ensures PieceResults(Split("22,abc", ',')) == [Ok(Some(Single(22))), Err(InvalidLiteral("abc"))]
  {
    assert "22,abc" == "22" + "," + "abc";
    SplitTwo("22", "abc");
    ResultsOfTwo("22", "abc");
    Piece22();
    PieceAbc();
  }

  /** `"22,abc"` fails with `int()`'s error about `"abc"`. */
  lemma NonNumericRejected()
    ensures ParsePorts("22,abc") == Err(InvalidLiteral("abc"))
  {
    ReadingsOfNonNumeric();
    FailsSecond("22,abc", [Ok(Some(Single(22))), Err(InvalidLiteral("abc"))], InvalidLiteral("abc"));
  }

  // "-5"

  lemma PieceNegative()
    ensures ParseToken("-5") == Err(InvalidLiteral(""))
  {
    StripTrimmed("-5");
    LeadingDash("-5");
  }

  lemma ReadingsOfNegative()
    ensures PieceResults(Split("-5", ',')) == [Err(InvalidLiteral(""))]
  {
    SplitNone("-5", ',');
    ResultsOfOne("-5");
    PieceNegative();
  }

  /** `"-5"` fails: the text before the first `-` is empty. */
  lemma NegativeRejected()
    ensures ParsePorts("-5") == Err(InvalidLiteral(""))
  {
    ReadingsOfNegative();
    FailsFirst("-5", [Err(InvalidLiteral(""))], InvalidLiteral(""));
  }

  // "1-2-3"

  lemma PieceDoubleRange()
    ensures ParseToken("1-2-3").Err?
  {
    TwoDashes("1-2-3", "1", "2", "3");
  }

  lemma ReadingsOfDoubleRange()
    ensures PieceResults(Split("1-2-3", ',')) == [ParseToken("1-2-3")]
  {
    SplitNone("1-2-3", ',');
    ResultsOfOne("1-2-3");
  }

  /** `"1-2-3"` fails: `int()` is given `"2-3"`. */
  lemma DoubleRangeRejected()
    ensures ParsePorts("1-2-3").Err?
  {
    ReadingsOfDoubleRange();
    PieceDoubleRange();
    FailsFirst("1-2-3", [ParseToken("1-2-3")], ParseToken("1-2-3").error);
  }

  // "1--3"

  lemma PieceNegativeEnd()
    ensures ParseToken("1--3") == Ok(Some(Span(-3, 1)))
  {
    assert Decimal(1) == "1" && Decimal(3) == "3";
    DecimalNegativeRange(1, 3, "1--3");
  }

  lemma ExpectedOfNegativeEnd()
    ensures StrictlyAscending([1])
    ensures forall p :: p in [1] <==> IsPort(p) && Covers(Span(-3, 1), p)
  {
  }

  /** `"1--3"` is accepted: the second side is `int("-3")`, so the piece is
      the range -3..1, of which only port 1 is valid. */
  lemma NegativeUpperEndAccepted()
    ensures ParsePorts("1--3") == Ok([1])
  {
    SplitNone("1--3", ',');
    PieceNegativeEnd();
    ExpectedOfNegativeEnd();
    OneToken("1--3", Span(-3, 1), [1]);
  }

  // "1-99999999999999999999"

  /** A decimal numeral holds no comma. */
  lemma DecimalHasNoComma(n: nat)
    ensures ',' !in Decimal(n)
  {
    var d := Decimal(n);
    assert forall k :: 0 <= k < |d| ==> d[k] != ',';
  }

  lemma ReadingsOfOverlong(a: nat, b: nat, text: string)
    requires text == Decimal(a) + "-" + Decimal(b) && b - a >= MaxSize
    ensures PieceResults(Split(text, ',')) == [Err(RangeTooLong(a, b))]
  {
    DecimalHasNoComma(a);
    DecimalHasNoComma(b);
    assert ',' !in text;
    SplitNone(text, ',');
    ResultsOfOne(text);
    DecimalRange(a, b, text);
  }

  /** A range of more than `sys.maxsize` ports, such as
      `"1-99999999999999999999"`, fails: `ports.extend` raises
      `OverflowError` before the filter could drop the invalid ports. */
  lemma OverlongRangeRejected(a: nat, b: nat)
    requires b - a >= MaxSize
    ensures ParsePorts(Decimal(a) + "-" + Decimal(b)) == Err(RangeTooLong(a, b))
  {
    var text := Decimal(a) + "-" + Decimal(b);
    ReadingsOfOverlong(a, b, text);
    FailsFirst(text, [Err(RangeTooLong(a, b))], RangeTooLong(a, b));
  }

  // "5\U{1C}-7" and "7-5\U{1C}"

  /** A decimal numeral followed by a character that is neither a comma
      nor a dash holds neither. */
  lemma DecimalThen(n: nat, c: char)
    requires c != ',' && c != '-'
    ensures ',' !in Decimal(n) + [c] && '-' !in Decimal(n) + [c]
  {
    var x := Decimal(n) + [c];
    assert forall k :: 0 <= k < |x| ==> x[k] == c || IsDigit(x[k]);
  }

  /** An information separator right before the `-` stays in the piece
      after `str.strip`, so `int()` is given the numeral with the separator
      and raises: `"5\U{1C}-7"` is rejected. */
  lemma SeparatorBeforeDashRejected(a: nat, b: nat, c: char)
    requires IsSeparator(c)
    ensures ParsePorts(Decimal(a) + [c] + "-" + Decimal(b)) == Err(InvalidLiteral(Decimal(a) + [c]))
  {
    var x := Decimal(a) + [c];
    var text := x + "-" + Decimal(b);
    DecimalThen(a, c);
    DecimalHasNoComma(b);
    assert ',' !in text;
    DigitsAreNumeral(Decimal(a));
    assert x == [] + x && x[0] == Decimal(a)[0];
    LStripOf([], x);
    SeparatorIsNotInt(a, c);
    RangeLeftFails(x, Decimal(b));
    OnePiece(text);
  }

  /** `int()` reads the left side `str(a)` of a range as `a`. */
  lemma DecimalLeft(a: nat)
    ensures '-' !in Decimal(a) && ParseInt(LStrip(Decimal(a))) == Some(a)
  {
    assert '-' !in Decimal(a);
    DecimalUnstripped(a);
    DecimalIsInt(a);
  }

  /** A trailing separator after `str(b)` is removed before `int()` sees it. */
  lemma DecimalSeparatorRight(b: nat, c: char)
    requires IsSeparator(c)
    ensures ParseInt(RStrip(Decimal(b) + [c])) == Some(b)
  {
    DigitsAreNumeral(Decimal(b));
    RStripOf(Decimal(b), [c]);
    DecimalIsInt(b);
  }

  lemma SeparatorAtEndReads(a: nat, b: nat, c: char)
    requires IsSeparator(c)
    requires SpanOf(a, b).hi - SpanOf(a, b).lo < MaxSize
    ensures ParseToken(Decimal(a) + "-" + (Decimal(b) + [c])) == Ok(Some(SpanOf(a, b)))
  {
    DecimalLeft(a);
    DecimalSeparatorRight(b, c);
    RangeOfInts(Decimal(a), Decimal(b) + [c], a, b);
  }

  /** An information separator at the very end is removed by `str.strip`
      before `int()` sees it, so the mirror image of a rejected piece is
      accepted: `"7-5\U{1C}"` is the range 5..7. */
  lemma SeparatorAtEndAccepted(a: nat, b: nat, c: char)
    requires IsSeparator(c)
    requires SpanOf(a, b).hi - SpanOf(a, b).lo < MaxSize
    ensures ParsePorts(Decimal(a) + "-" + Decimal(b) + [c]).Ok?
    ensures forall p :: p in ParsePorts(Decimal(a) + "-" + Decimal(b) + [c]).value <==>
      IsPort(p) && SpanOf(a, b).lo <= p <= SpanOf(a, b).hi
  {
    var text := Decimal(a) + "-" + (Decimal(b) + [c]);
    assert text == Decimal(a) + "-" + Decimal(b) + [c];
    DecimalHasNoComma(a);
    DecimalThen(b, c);
    assert ',' !in text;
    SeparatorAtEndReads(a, b, c);
    OnePiece(text);
  }
}
