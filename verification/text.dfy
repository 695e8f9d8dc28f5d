/** The Python string primitives the port parser is built on: `str.isspace`,
    `str.strip`, finding the first occurrence of a character, and
    `str.split(sep)` with an explicit one-character separator. */
module Text {

  /** Python's `str.isspace` for one character: ASCII tab to carriage
      return, the four information separators 0x1C-0x1F, space, and the
      Unicode space and line/paragraph separators. */
  predicate IsSpace(c: char) {
    var n := c as int;
    || n == 0x20
    || 0x09 <= n <= 0x0D
    || 0x1C <= n <= 0x1F
    || n == 0x85
    || n == 0xA0
    || n == 0x1680
    || 0x2000 <= n <= 0x200A
    || n == 0x2028
    || n == 0x2029
    || n == 0x202F
    || n == 0x205F
    || n == 0x3000
  }

  ghost predicate AllSpace(s: string) {
    forall i :: 0 <= i < |s| ==> IsSpace(s[i])
  }

  /** Neither end of `s` is whitespace. */
  ghost predicate IsTrimmed(s: string) {
    s == [] || (!IsSpace(s[0]) && !IsSpace(s[|s| - 1]))
  }

  /** Length of the whitespace run at the start of `s`. */
  function LeadingSpaces(s: string): (k: nat)
    ensures k <= |s|
    ensures forall i :: 0 <= i < k ==> IsSpace(s[i])
    ensures k < |s| ==> !IsSpace(s[k])
  {
    if |s| > 0 && IsSpace(s[0]) then 1 + LeadingSpaces(s[1..]) else 0
  }

  /** Length of the whitespace run at the end of `s`. */
  function TrailingSpaces(s: string): (k: nat)
    ensures k <= |s|
    ensures forall i :: |s| - k <= i < |s| ==> IsSpace(s[i])
    ensures k < |s| ==> !IsSpace(s[|s| - k - 1])
  {
    if |s| > 0 && IsSpace(s[|s| - 1]) then 1 + TrailingSpaces(s[..|s| - 1]) else 0
  }

  /** `str.lstrip()`: `s` is an all-space prefix followed by the result. */
  function LStrip(s: string): (r: string)
    ensures r == [] || !IsSpace(r[0])
    ensures |r| <= |s| && r == s[|s| - |r|..]
    ensures forall i :: 0 <= i < |s| - |r| ==> IsSpace(s[i])
  {
    s[LeadingSpaces(s)..]
  }

  /** `str.rstrip()`: `s` is the result followed by an all-space suffix. */
  function RStrip(s: string): (r: string)
    ensures r == [] || !IsSpace(r[|r| - 1])
    ensures |r| <= |s| && r == s[..|r|]
    ensures forall i :: |r| <= i < |s| ==> IsSpace(s[i])
  {
    s[..|s| - TrailingSpaces(s)]
  }

  /** A run of whitespace followed by a run of whitespace is whitespace. */
  lemma AllSpaceConcat(x: string, y: string)
    requires AllSpace(x) && AllSpace(y)
    ensures AllSpace(x + y)
  {
    assert forall i :: |x| <= i < |x + y| ==> (x + y)[i] == y[i - |x|];
  }

  /** `str.strip()`: the result has no whitespace at either end. */
  function Strip(s: string): (r: string)
    ensures IsTrimmed(r)
    ensures |r| <= |s|
  {
    var l := LStrip(s);
    var r := RStrip(l);
    assert r != [] ==> r[0] == l[0];
    r
  }

  /** `s` is whitespace followed by its left-stripped text. */
  lemma LStripParts(s: string) returns (pre: string)
    ensures AllSpace(pre) && s == pre + LStrip(s)
  {
    var l := LStrip(s);
    pre := s[..|s| - |l|];
    assert forall i :: 0 <= i < |pre| ==> pre[i] == s[i];
    assert s == s[..|s| - |l|] + s[|s| - |l|..];
  }

  /** `s` is its right-stripped text followed by whitespace. */
  lemma RStripParts(s: string) returns (post: string)
    ensures AllSpace(post) && s == RStrip(s) + post
  {
    var r := RStrip(s);
    post := s[|r|..];
    forall i | 0 <= i < |post|
      ensures IsSpace(post[i])
    {
      assert post[i] == s[|r| + i];
    }
    assert s == s[..|r|] + post;
  }

  /** `s` is its stripped text with whitespace on either side. */
  lemma StripParts(s: string) returns (pre: string, post: string)
    ensures AllSpace(pre) && AllSpace(post)
    ensures s == pre + Strip(s) + post
  {
    pre := LStripParts(s);
    post := RStripParts(LStrip(s));
  }

  /** `lstrip` removes exactly a leading run of whitespace. */
  lemma LStripOf(a: string, m: string)
    requires AllSpace(a) && (m == [] || !IsSpace(m[0]))
    ensures LStrip(a + m) == m
  {
    var s := a + m;
    var k := LeadingSpaces(s);
    assert forall j :: 0 <= j < |a| ==> s[j] == a[j];
    assert m != [] ==> s[|a|] == m[0];
    assert k == |a|;
    assert s[|a|..] == m;
  }

  /** `rstrip` removes exactly a trailing run of whitespace. */
  lemma RStripOf(m: string, b: string)
    requires AllSpace(b) && (m == [] || !IsSpace(m[|m| - 1]))
    ensures RStrip(m + b) == m
  {
    var s := m + b;
    var k := TrailingSpaces(s);
    assert forall j :: |m| <= j < |s| ==> s[j] == b[j - |m|];
    assert m != [] ==> s[|m| - 1] == m[|m| - 1];
    assert k == |b|;
    assert s[..|m|] == m;
  }

  /** Stripping is determined by its promise: whatever `m` is, once its
      ends are non-space, wrapping it in whitespace and stripping gives it back. */
  lemma StripOf(a: string, m: string, b: string)
    requires AllSpace(a) && AllSpace(b) && IsTrimmed(m)
    ensures Strip(a + m + b) == m
  {
    if m == [] {
      AllSpaceConcat(a, b);
      assert a + m + b == (a + b) + [];
      LStripOf(a + b, []);
    } else {
      assert a + m + b == a + (m + b);
      assert (m + b)[0] == m[0];
      LStripOf(a, m + b);
      RStripOf(m, b);
    }
  }

  /** Text with no whitespace at either end strips to itself. */
  lemma StripTrimmed(m: string)
    requires IsTrimmed(m)
    ensures Strip(m) == m
  {
    assert m == [] + m + [];
    StripOf([], m, []);
  }

  lemma Regroup(a: string, m1: string, m2: string, m3: string, b: string)
    ensures a + (m1 + m2 + m3) + b == (a + m1) + m2 + (m3 + b)
  {
  }

  /** Surrounding whitespace never changes the stripped text. */
  lemma StripAround(a: string, m: string, b: string)
    requires AllSpace(a) && AllSpace(b)
    ensures Strip(a + m + b) == Strip(m)
  {
    var pre, post := StripParts(m);
    AllSpaceConcat(a, pre);
    AllSpaceConcat(post, b);
    var r := Strip(m);
    Regroup(a, pre, r, post, b);
    StripOf(a + pre, r, post + b);
  }

  /** Stripping a text that has a non-space character `c` inside only
      strips the part before it on the left and the part after it on the right. */
  lemma StripAroundChar(u: string, c: char, w: string)
    requires !IsSpace(c)
    ensures Strip(u + [c] + w) == LStrip(u) + [c] + RStrip(w)
  {
    var lu := LStrip(u);
    var rw := RStrip(w);
    var pre := LStripParts(u);
    var post := RStripParts(w);
    var m := lu + [c] + rw;
    assert IsTrimmed(m) by {
      assert m[0] == if lu == [] then c else lu[0];
      assert m[|m| - 1] == if rw == [] then c else rw[|rw| - 1];
    }
    Regroup(pre, lu, [c], rw, post);
    StripOf(pre, m, post);
  }

  /** Stripping the left end first does not change the stripped text. */
  lemma StripLStrip(s: string)
    ensures Strip(LStrip(s)) == Strip(s)
  {
    var l := LStrip(s);
    var pre := s[..|s| - |l|];
    assert AllSpace(pre) by {
      assert forall i :: 0 <= i < |pre| ==> pre[i] == s[i];
    }
    assert s == pre + l + [];
    StripAround(pre, l, []);
  }

  /** Stripping the right end first does not change the stripped text. */
  lemma StripRStrip(s: string)
    ensures Strip(RStrip(s)) == Strip(s)
  {
    var r := RStrip(s);
    var post := s[|r|..];
    assert AllSpace(post) by {
      assert forall i :: 0 <= i < |post| ==> post[i] == s[|r| + i];
    }
    assert s == [] + r + post;
    StripAround([], r, post);
  }

  /** Index of the first `c` in `s`, or `|s|` when there is none. */
  function Find(s: string, c: char): (i: nat)
    ensures i <= |s|
    ensures forall j :: 0 <= j < i ==> s[j] != c
    ensures i < |s| ==> s[i] == c
  {
    if |s| == 0 || s[0] == c then 0 else 1 + Find(s[1..], c)
  }

  /** The first `c` in `a + [c] + b` is the one right after `a`, when `a` has none. */
  lemma FindAfter(a: string, c: char, b: string)
    requires c !in a
    ensures Find(a + [c] + b, c) == |a|
  {
    var s := a + [c] + b;
    assert forall j :: 0 <= j < |a| ==> s[j] == a[j];
    assert s[|a|] == c;
  }

  /** Cutting `a + [c] + b` around position `|a|` gives the parts back. */
  lemma CutAround(a: string, c: char, b: string)
    ensures (a + [c] + b)[..|a|] == a
    ensures (a + [c] + b)[|a|] == c
    ensures (a + [c] + b)[|a| + 1..] == b
  {
  }

  /** Left-stripping adds no character. */
  lemma LStripKeepsOut(x: string, c: char)
    requires c !in x
    ensures c !in LStrip(x)
  {
    var l := LStrip(x);
    assert forall k :: 0 <= k < |l| ==> l[k] == x[|x| - |l| + k];
  }

  /** Concatenation of `parts` with `sep` between neighbours (Python's `sep.join`). */
  function Join(parts: seq<string>, sep: char): string {
    if |parts| == 0 then []
    else if |parts| == 1 then parts[0]
    else parts[0] + [sep] + Join(parts[1..], sep)
  }

  /** `s.split(sep)`: never empty, no piece contains the separator, and the
      pieces joined with the separator give back `s`. */
  function Split(s: string, sep: char): (parts: seq<string>)
    ensures |parts| > 0
    ensures forall i :: 0 <= i < |parts| ==> sep !in parts[i]
    ensures Join(parts, sep) == s
    decreases |s|
  {
    var i := Find(s, sep);
    if i == |s| then
      assert s[..i] == s;
      [s]
    else
      var rest := Split(s[i + 1..], sep);
      assert s == s[..i] + [sep] + s[i + 1..];
      [s[..i]] + rest
  }

  /** Splitting at a first separator: the text before it is the first
      piece, and the rest is split on its own. */
  lemma SplitFirst(a: string, sep: char, rest: string)
    requires sep !in a
    ensures Split(a + [sep] + rest, sep) == [a] + Split(rest, sep)
  {
    var s := a + [sep] + rest;
    FindAfter(a, sep, rest);
    assert s[..|a|] == a;
    assert s[|a| + 1..] == rest;
  }

  /** Text without the separator is a single piece. */
  lemma SplitNone(s: string, sep: char)
    requires sep !in s
    ensures Split(s, sep) == [s]
  {
    assert forall j :: 0 <= j < |s| ==> s[j] != sep;
  }

  /** The converse round trip: splitting joined separator-free pieces gives
      the pieces back. */
  lemma {:induction false} SplitJoin(parts: seq<string>, sep: char)
    requires |parts| > 0
    requires forall i :: 0 <= i < |parts| ==> sep !in parts[i]
    ensures Split(Join(parts, sep), sep) == parts
  {
    if |parts| == 1 {
      SplitNone(parts[0], sep);
    } else {
      var rest := Join(parts[1..], sep);
      SplitFirst(parts[0], sep, rest);
      SplitJoin(parts[1..], sep);
      assert parts == [parts[0]] + parts[1..];
    }
  }
}
