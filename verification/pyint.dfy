/** Python's `int(text)` in base 10, the conversion the port parser applies
    to every piece of a port specification. The text is stripped of
    whitespace, may start with one `+` or `-`, and then holds ASCII decimal
    digits in which single underscores may separate two digits. Anything
    else makes `int()` raise `ValueError`, modelled here as `None`. */
module PyInt {
  import opened Results
  import opened Text

  predicate IsDigit(c: char) {
    '0' <= c <= '9'
  }

  /** A base-10 numeral as `int()` accepts it after the sign: digits, where
      an underscore may only stand between two digits. */
  predicate IsNumeral(s: string) {
    && |s| > 0
    && IsDigit(s[0])
    && IsDigit(s[|s| - 1])
    && (forall i :: 0 <= i < |s| ==> IsDigit(s[i]) || s[i] == '_')
    && (forall i :: 0 < i < |s| && s[i - 1] == '_' ==> IsDigit(s[i]))
  }

  /** The value of a numeral; underscores carry no value. */
  function NumeralValue(s: string): nat {
    if |s| == 0 then 0
    else if IsDigit(s[|s| - 1]) then 10 * NumeralValue(s[..|s| - 1]) + (s[|s| - 1] as int - '0' as int)
    else NumeralValue(s[..|s| - 1])
  }

  predicate IsSign(c: char) {
    c == '+' || c == '-'
  }

  /** The characters `int()` accepts after stripping: digits and
      underscores, and a sign in the first position only. */
  ghost predicate IntChars(t: string) {
    forall k :: 0 <= k < |t| ==> IsDigit(t[k]) || t[k] == '_' || (k == 0 && IsSign(t[k]))
  }

  lemma NumeralChars(sign: string, body: string)
    requires |sign| <= 1 && (|sign| == 1 ==> IsSign(sign[0]))
    requires IsNumeral(body)
    ensures IntChars(sign + body)
  {
    var t := sign + body;
    forall k | 0 <= k < |t|
      ensures IsDigit(t[k]) || t[k] == '_' || (k == 0 && IsSign(t[k]))
    {
      if k >= |sign| {
        assert t[k] == body[k - |sign|];
      } else {
        assert t[k] == sign[k];
      }
    }
  }

  /** The information separators FS, GS, RS and US (0x1C-0x1F). */
  predicate IsSeparator(c: char) {
    0x1C <= c as int <= 0x1F
  }

  ghost predicate NoSeparator(s: string) {
    forall i :: 0 <= i < |s| ==> !IsSeparator(s[i])
  }

  /** The whitespace `int()` skips around its numeral. CPython first turns
      every non-ASCII whitespace character into a space, then skips ASCII
      space, tab, line feed, vertical tab, form feed and carriage return.
      That is `str.isspace` without the information separators, which
      `str.strip` removes but `int()` rejects. */
  predicate IsIntSpace(c: char) {
    IsSpace(c) && !IsSeparator(c)
  }

  ghost predicate AllIntSpace(s: string) {
    forall i :: 0 <= i < |s| ==> IsIntSpace(s[i])
  }

  /** `int()`'s whitespace skipped at the start. */
  function IntLStrip(s: string): (r: string)
    ensures |r| <= |s| && r == s[|s| - |r|..]
    ensures r == [] || !IsIntSpace(r[0])
    ensures forall i :: 0 <= i < |s| - |r| ==> IsIntSpace(s[i])
  {
    if |s| > 0 && IsIntSpace(s[0]) then
      var r := IntLStrip(s[1..]);
      assert forall i :: 1 <= i < |s| ==> s[i] == s[1..][i - 1];
      r
    else
      s
  }

  /** `int()`'s whitespace skipped at the end. */
  function IntRStrip(s: string): (r: string)
    ensures |r| <= |s| && r == s[..|r|]
    ensures r == [] || !IsIntSpace(r[|r| - 1])
    ensures forall i :: |r| <= i < |s| ==> IsIntSpace(s[i])
  {
    if |s| > 0 && IsIntSpace(s[|s| - 1]) then
      var r := IntRStrip(s[..|s| - 1]);
      assert forall i :: 0 <= i < |s| - 1 ==> s[i] == s[..|s| - 1][i];
      r
    else
      s
  }

  /** The text `int()` reads once its whitespace is skipped at both ends. */
  function IntStrip(s: string): (r: string)
    ensures r == [] || (!IsIntSpace(r[0]) && !IsIntSpace(r[|r| - 1]))
  {
    var l := IntLStrip(s);
    var r := IntRStrip(l);
    assert r != [] ==> r[0] == l[0];
    r
  }

  /** `int(s)`: `Some(n)` when `int(s)` returns `n`, `None` when it raises. */
  function ParseInt(s: string): Option<int> {
    IntOfStripped(IntStrip(s))
  }

  /** `int()` on text that has already been stripped: one optional sign,
      then a numeral. */
  function IntOfStripped(t: string): Option<int> {
    if |t| > 0 && IsSign(t[0]) then
      if IsNumeral(t[1..]) then
        Some(if t[0] == '-' then -(NumeralValue(t[1..]) as int) else NumeralValue(t[1..]))
      else
        None
    else if IsNumeral(t) then
      Some(NumeralValue(t))
    else
      None
  }

  /** What `int()` accepts once its whitespace is skipped: digits,
      underscores and one leading sign, ending in a digit. */
  lemma IntOfStrippedShape(t: string)
    ensures IntOfStripped(t).Some? ==> |t| > 0 && IntChars(t) && IsDigit(t[|t| - 1])
  {
    if IntOfStripped(t).Some? {
      if |t| > 0 && IsSign(t[0]) {
        var body := t[1..];
        NumeralChars(t[..1], body);
        assert t == t[..1] + body;
        assert t[|t| - 1] == body[|body| - 1];
      } else {
        NumeralChars([], t);
        assert t == [] + t;
      }
    }
  }

  /** `s` is `int()`'s whitespace followed by the text it reads. */
  lemma IntLStripParts(s: string) returns (a: string)
    ensures AllIntSpace(a) && s == a + IntLStrip(s)
  {
    var l := IntLStrip(s);
    a := s[..|s| - |l|];
    assert s == a + s[|s| - |l|..];
    forall i | 0 <= i < |a|
      ensures IsIntSpace(a[i])
    {
      assert a[i] == s[i];
    }
  }

  /** `s` is the text `int()` reads followed by its whitespace. */
  lemma IntRStripParts(s: string) returns (b: string)
    ensures AllIntSpace(b) && s == IntRStrip(s) + b
  {
    var m := IntRStrip(s);
    b := s[|m|..];
    assert s == s[..|m|] + b;
    forall i | 0 <= i < |b|
      ensures IsIntSpace(b[i])
    {
      assert b[i] == s[|m| + i];
    }
  }

  /** `s` is `int()`'s whitespace around the text it reads. */
  lemma IntStripParts(s: string) returns (a: string, b: string)
    ensures AllIntSpace(a) && AllIntSpace(b)
    ensures s == a + IntStrip(s) + b
  {
    a := IntLStripParts(s);
    b := IntRStripParts(IntLStrip(s));
  }

  lemma {:induction false} IntLStripOf(a: string, m: string)
    requires AllIntSpace(a) && (m == [] || !IsIntSpace(m[0]))
    ensures IntLStrip(a + m) == m
  {
    if a == [] {
      assert a + m == m;
    } else {
      assert (a + m)[0] == a[0];
      assert (a + m)[1..] == a[1..] + m;
      IntLStripOf(a[1..], m);
    }
  }

  lemma {:induction false} IntRStripOf(m: string, b: string)
    requires AllIntSpace(b) && (m == [] || !IsIntSpace(m[|m| - 1]))
    ensures IntRStrip(m + b) == m
  {
    if b == [] {
      assert m + b == m;
    } else {
      var s := m + b;
      assert s[|s| - 1] == b[|b| - 1];
      assert s[..|s| - 1] == m + b[..|b| - 1];
      IntRStripOf(m, b[..|b| - 1]);
    }
  }

  /** `int()` reads text with no whitespace at its ends as it stands,
      whatever of its own whitespace surrounds it. */
  lemma IntReadsTrimmed(a: string, m: string, b: string)
    requires AllIntSpace(a) && AllIntSpace(b) && IsTrimmed(m)
    ensures ParseInt(a + m + b) == IntOfStripped(m)
  {
    if m == [] {
      assert AllIntSpace(a + b) by {
        assert forall i :: |a| <= i < |a + b| ==> (a + b)[i] == b[i - |a|];
      }
      assert a + m + b == (a + b) + [];
      IntLStripOf(a + b, []);
    } else {
      assert a + m + b == a + (m + b);
      assert (m + b)[0] == m[0];
      IntLStripOf(a, m + b);
      IntRStripOf(m, b);
    }
  }

  lemma IntSpaceIsClean(a: string)
    requires AllIntSpace(a)
    ensures NoSeparator(a)
  {
  }

  lemma IntCharsAreClean(m: string)
    requires IntChars(m)
    ensures NoSeparator(m)
  {
  }

  lemma {:induction false} CleanConcat(x: string, y: string, z: string)
    requires NoSeparator(x) && NoSeparator(y) && NoSeparator(z)
    ensures NoSeparator(x + y + z)
  {
    var s := x + y + z;
    forall k | 0 <= k < |s|
      ensures !IsSeparator(s[k])
    {
      if k < |x| {
        assert s[k] == x[k];
      } else if k < |x| + |y| {
        assert s[k] == y[k - |x|];
      } else {
        assert s[k] == z[k - |x| - |y|];
      }
    }
  }

  /** Whatever `int()` accepts holds no information separator, not even in
      the whitespace around the numeral. */
  lemma IntHasNoSeparator(s: string)
    ensures ParseInt(s).Some? ==> NoSeparator(s)
  {
    if ParseInt(s).Some? {
      var a, b := IntStripParts(s);
      var m := IntStrip(s);
      IntOfStrippedShape(m);
      IntSpaceIsClean(a);
      IntSpaceIsClean(b);
      IntCharsAreClean(m);
      CleanConcat(a, m, b);
    }
  }

  /** On text without an information separator, `int()` skips exactly the
      whitespace `str.strip` removes. */
  lemma IntStripOfClean(s: string)
    requires NoSeparator(s)
    ensures IntStrip(s) == Strip(s)
  {
    var a, b := IntStripParts(s);
    var m := IntStrip(s);
    assert m != [] ==> m[0] == s[|a|] && m[|m| - 1] == s[|a| + |m| - 1];
    assert IsTrimmed(m);
    StripOf(a, m, b);
  }

  /** `int()` against `str.strip`: text holding an information separator
      anywhere is never an integer, and any other text is read exactly as
      `strip` leaves it. */
  lemma IntOfStrip(s: string)
    ensures ParseInt(s) == if NoSeparator(s) then IntOfStripped(Strip(s)) else None
  {
    IntHasNoSeparator(s);
    if NoSeparator(s) {
      IntStripOfClean(s);
    }
  }

  /** `int()` accepts only text whose stripped form is digits, underscores
      and one leading sign, ending in a digit. */
  lemma AcceptedChars(s: string)
    ensures ParseInt(s).Some? ==> |Strip(s)| > 0 && IntChars(Strip(s))
    ensures ParseInt(s).Some? ==> IsDigit(Strip(s)[|Strip(s)| - 1])
  {
    IntOfStrip(s);
    IntOfStrippedShape(Strip(s));
  }

  function DigitChar(d: nat): (c: char)
    requires d < 10
    ensures IsDigit(c)
  {
    ('0' as int + d) as char
  }

  /** The shortest decimal rendering of `n`, as Python's `str(n)` gives it. */
  function Decimal(n: nat): (r: string)
    ensures |r| > 0
    ensures forall k :: 0 <= k < |r| ==> IsDigit(r[k])
    ensures r[0] == '0' ==> n == 0
  {
    if n < 10 then [DigitChar(n)] else Decimal(n / 10) + [DigitChar(n % 10)]
  }

  lemma {:induction false} DecimalValue(n: nat)
    ensures NumeralValue(Decimal(n)) == n
  {
    if n >= 10 {
      var s := Decimal(n);
      assert s[..|s| - 1] == Decimal(n / 10);
      DecimalValue(n / 10);
    }
  }

  lemma DigitIsNotSpace(c: char)
    requires IsDigit(c)
    ensures !IsSpace(c) && !IsSign(c)
  {
  }

  /** A non-empty run of digits is a numeral. */
  lemma DigitsAreNumeral(d: string)
    requires |d| > 0 && forall k :: 0 <= k < |d| ==> IsDigit(d[k])
    ensures IsNumeral(d) && IsTrimmed(d)
  {
    DigitIsNotSpace(d[0]);
    DigitIsNotSpace(d[|d| - 1]);
  }

  /** `int()` reads a numeral with nothing around it as its value. */
  lemma NumeralIsInt(d: string)
    requires IsNumeral(d) && IsTrimmed(d)
    ensures ParseInt(d) == Some(NumeralValue(d))
  {
    assert d == [] + d + [];
    IntReadsTrimmed([], d, []);
    DigitIsNotSpace(d[0]);
  }

  /** `int(str(n)) == n`. */
  lemma DecimalIsInt(n: nat)
    ensures ParseInt(Decimal(n)) == Some(n)
  {
    DigitsAreNumeral(Decimal(n));
    NumeralIsInt(Decimal(n));
    DecimalValue(n);
  }

  /** `int()` reads `-` and a numeral, with nothing around them, as the
      negated value. */
  lemma SignedNumeralIsInt(d: string)
    requires IsNumeral(d) && IsTrimmed(d)
    ensures ParseInt("-" + d) == Some(-(NumeralValue(d) as int))
  {
    SignedTrimmed(d);
    assert "-" + d == [] + ("-" + d) + [];
    IntReadsTrimmed([], "-" + d, []);
    SignedStripped(d);
  }

  lemma SignedStripped(d: string)
    requires IsNumeral(d)
    ensures IntOfStripped("-" + d) == Some(-(NumeralValue(d) as int))
  {
    var t := "-" + d;
    assert t[1..] == d;
    assert t[0] == '-';
  }

  lemma SignedTrimmed(d: string)
    requires IsTrimmed(d) && d != []
    ensures IsTrimmed("-" + d)
  {
    var t := "-" + d;
    assert t[0] == '-';
    assert t[|t| - 1] == d[|d| - 1];
  }

  /** `int("-" + str(n)) == -n`. */
  lemma NegativeDecimalIsInt(n: nat)
    ensures ParseInt("-" + Decimal(n)) == Some(-(n as int))
  {
    DigitsAreNumeral(Decimal(n));
    SignedNumeralIsInt(Decimal(n));
    DecimalValue(n);
  }

  /** `int(str(n)) == n` with `int()`'s whitespace around the numeral. */
  lemma ParseDecimal(a: string, n: nat, b: string)
    requires AllIntSpace(a) && AllIntSpace(b)
    ensures ParseInt(a + Decimal(n) + b) == Some(n)
  {
    var d := Decimal(n);
    DigitsAreNumeral(d);
    DigitIsNotSpace(d[0]);
    DecimalValue(n);
    IntReadsTrimmed(a, d, b);
  }

  /** `int("-" + str(n)) == -n` with `int()`'s whitespace around the numeral. */
  lemma ParseNegativeDecimal(a: string, n: nat, b: string)
    requires AllIntSpace(a) && AllIntSpace(b)
    ensures ParseInt(a + "-" + Decimal(n) + b) == Some(-(n as int))
  {
    var d := Decimal(n);
    DigitsAreNumeral(d);
    SignedTrimmed(d);
    SignedReads(a, d, b);
    SignedStripped(d);
    DecimalValue(n);
  }

  /** Whitespace around a trimmed signed text does not change what `int()`
      makes of it. */
  lemma SignedReads(a: string, d: string, b: string)
    requires AllIntSpace(a) && AllIntSpace(b) && IsTrimmed("-" + d)
    ensures ParseInt(a + "-" + d + b) == IntOfStripped("-" + d)
  {
    assert a + "-" + d + b == a + ("-" + d) + b;
    IntReadsTrimmed(a, "-" + d, b);
  }

  /** Text that strips to nothing is not an integer: `int("")` raises. */
  lemma BlankIsNotInt(s: string)
    requires AllSpace(s)
    ensures ParseInt(s) == None
  {
    assert s == s + [] + [];
    StripOf(s, [], []);
    IntOfStrip(s);
  }

  /** A `-` anywhere but at the very start of the stripped text makes
      `int()` raise. */
  lemma InnerDashIsNotInt(s: string, k: nat)
    requires 0 < k < |Strip(s)| && Strip(s)[k] == '-'
    ensures ParseInt(s) == None
  {
    AcceptedChars(s);
  }

  /** An information separator makes `int()` raise even where `str.strip`
      would have removed it: `int("1\U{1C}")` fails, while
      `"1\U{1C}".strip()` is `"1"`. */
  lemma SeparatorIsNotInt(n: nat, c: char)
    requires IsSeparator(c)
    ensures Strip(Decimal(n) + [c]) == Decimal(n)
    ensures ParseInt(Decimal(n) + [c]) == None
  {
    var d := Decimal(n);
    DigitsAreNumeral(d);
    assert d + [c] == [] + d + [c];
    StripOf([], d, [c]);
    IntOfStrip(d + [c]);
    assert (d + [c])[|d|] == c;
  }
}
