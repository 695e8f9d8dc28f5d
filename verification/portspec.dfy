/** `parse_ports` (port_scanner.py): a port specification such as
    `"20-25,80,443"` becomes the ascending list of distinct ports in
    [1, 65535] that its pieces name. The text is split on commas; each
    piece is stripped and skipped when blank; a piece holding a `-` is cut
    at its first `-` and both sides are read with `int()`, endpoints swapped
    when reversed, and the inclusive range expanded; any other piece is
    read with `int()` as one port. The first piece that `int()` rejects, or
    whose range is too long for a list, ends the parse with its exception;
    values outside [1, 65535] are dropped without complaint. */
module PortSpec {
  import opened Results
  import opened Text
  import opened PyInt

  const MaxPort := 65535

  predicate IsPort(p: int) {
    1 <= p <= MaxPort
  }

  /** A non-blank piece after its integers were read: one port, or an
      inclusive range whose endpoints are already in order. */
  datatype Token = Single(port: int) | Span(lo: int, hi: int)

  predicate Covers(t: Token, p: int) {
    match t
    case Single(n) => p == n
    case Span(lo, hi) => lo <= p <= hi
  }

  /** `sys.maxsize` of a 64-bit CPython: `list.extend` asks a `range` for
      its length, and a length above this raises `OverflowError`. */
  const MaxSize := 0x7FFF_FFFF_FFFF_FFFF

  /** Why `parse_ports` raises: the `ValueError` of `int()`, with the
      whole text it was given (Python's message shows at most 200
      characters of its `repr`), or the `OverflowError` of
      `ports.extend(range(lo, hi + 1))` for a range of more than
      `sys.maxsize` ports. */
  datatype ParseError = InvalidLiteral(literal: string) | RangeTooLong(lo: int, hi: int)

  function ReadInt(text: string): Result<int, ParseError> {
    match ParseInt(text)
    case Some(n) => Ok(n)
    case None => Err(InvalidLiteral(text))
  }

  /** The range between two endpoints given in either order. */
  function SpanOf(a: int, b: int): (t: Token)
    ensures t.Span? && t.lo <= t.hi
    ensures {t.lo, t.hi} == {a, b}
  {
    if a <= b then Span(a, b) else Span(b, a)
  }

  /** `a, b = int(a), int(b)`, the swap when `a > b`, and the length check
      `ports.extend(range(a, b + 1))` makes before it adds anything. */
  function ReadRange(left: string, right: string): (r: Result<Option<Token>, ParseError>)
    ensures r.Ok? ==> r.value.Some? && r.value.value.Span?
    ensures r.Ok? ==> r.value.value.lo <= r.value.value.hi && r.value.value.hi - r.value.value.lo < MaxSize
    ensures r.Err? && r.error.RangeTooLong? ==> r.error.hi - r.error.lo >= MaxSize
  {
    var a :- ReadInt(left);
    var b :- ReadInt(right);
    var t := SpanOf(a, b);
    if t.hi - t.lo + 1 > MaxSize then Err(RangeTooLong(t.lo, t.hi)) else Ok(Some(t))
  }

  /** One piece of the comma split: `Ok(None)` for a blank piece, which the
      loop skips; a range exactly when the stripped piece holds a `-`. */
  function ParseToken(piece: string): (r: Result<Option<Token>, ParseError>)
    ensures r == Ok(None) <==> Strip(piece) == []
    ensures r.Ok? && r.value.Some? ==> (r.value.value.Span? <==> '-' in Strip(piece))
    ensures r.Ok? && r.value.Some? && r.value.value.Span? ==> r.value.value.lo <= r.value.value.hi
    ensures r.Ok? && r.value.Some? && r.value.value.Span? ==> r.value.value.hi - r.value.value.lo < MaxSize
  {
    var t := Strip(piece);
    if |t| == 0 then
      Ok(None)
    else if '-' in t then
      var i := Find(t, '-');
      ReadRange(t[..i], t[i + 1..])
    else
      var n :- ReadInt(t);
      Ok(Some(Single(n)))
  }

  /** Gathers the tokens of the piece results, in order, or stops at the
      first error; a failure leaves no partial result. */
  function Collect(rs: seq<Result<Option<Token>, ParseError>>): (r: Result<seq<Token>, ParseError>)
    ensures r.Ok? <==> forall i :: 0 <= i < |rs| ==> rs[i].Ok?
    ensures r.Err? ==> exists i :: (0 <= i < |rs| && rs[i] == Err(r.error)
      && forall j :: 0 <= j < i ==> rs[j].Ok?)
    ensures r.Ok? ==> forall t :: t in r.value <==> exists i :: 0 <= i < |rs| && rs[i] == Ok(Some(t))
  {
    if |rs| == 0 then
      Ok([])
    else
      var tail := rs[1..];
      assert forall i :: 1 <= i < |rs| ==> rs[i] == tail[i - 1];
      match rs[0]
      case Err(e) =>
        Err(e)
      case Ok(first) =>
        match Collect(tail)
        case Err(e) =>
          ghost var i :| (0 <= i < |tail| && tail[i] == Err(e)
            && forall j :: 0 <= j < i ==> tail[j].Ok?);
          assert rs[i + 1] == Err(e);
          Err(e)
        case Ok(rest) =>
          var head := if first.Some? then [first.value] else [];
          assert forall t :: t in head <==> rs[0] == Ok(Some(t));
          Ok(head + rest)
  }

  /** The tokens of all pieces, in order, or the error of the first piece
      that fails (Python stops at the first `int()` that raises). */
  function ParseAll(pieces: seq<string>): (r: Result<seq<Token>, ParseError>)
    ensures r.Ok? <==> forall i :: 0 <= i < |pieces| ==> ParseToken(pieces[i]).Ok?
    ensures r.Err? ==> exists i :: (0 <= i < |pieces| && ParseToken(pieces[i]) == Err(r.error)
      && forall j :: 0 <= j < i ==> ParseToken(pieces[j]).Ok?)
    ensures r.Ok? ==> forall t :: t in r.value <==>
      exists i :: 0 <= i < |pieces| && ParseToken(pieces[i]) == Ok(Some(t))
  {
    Collect(PieceResults(pieces))
  }

  /** The reading of every piece, in order. */
  function PieceResults(pieces: seq<string>): (rs: seq<Result<Option<Token>, ParseError>>)
    ensures |rs| == |pieces|
    ensures forall i :: 0 <= i < |pieces| ==> rs[i] == ParseToken(pieces[i])
  {
    if |pieces| == 0 then [] else [ParseToken(pieces[0])] + PieceResults(pieces[1..])
  }

  /** `range(lo, hi + 1)`. */
  function Range(lo: int, hi: int): (r: seq<int>)
    ensures forall p :: p in r <==> lo <= p <= hi
  {
    if lo <= hi then
      var r := seq(hi - lo + 1, i => lo + i);
      Consecutive(lo, r);
      r
    else
      []
  }

  lemma Consecutive(lo: int, r: seq<int>)
    requires forall i :: 0 <= i < |r| ==> r[i] == lo + i
    ensures forall p :: lo <= p < lo + |r| ==> p in r
  {
    forall p | lo <= p < lo + |r|
      ensures p in r
    {
      assert r[p - lo] == p;
    }
  }

  function Values(t: Token): (r: seq<int>)
    ensures forall p :: p in r <==> Covers(t, p)
  {
    match t
    case Single(n) => [n]
    case Span(lo, hi) => Range(lo, hi)
  }

  /** The `ports` list the loop builds with `append` and `extend`. */
  function Expand(tokens: seq<Token>): (r: seq<int>)
    ensures forall p :: p in r <==> exists t :: t in tokens && Covers(t, p)
  {
    if |tokens| == 0 then
      []
    else
      var rest := Expand(tokens[1..]);
      assert forall t :: t in tokens <==> t == tokens[0] || t in tokens[1..];
      Values(tokens[0]) + rest
  }

  ghost predicate StrictlyAscending(s: seq<int>) {
    forall i, j :: 0 <= i < j < |s| ==> s[i] < s[j]
  }

  /** Adds `x` to an ascending duplicate-free list, keeping it so. */
  function Insert(x: int, s: seq<int>): (r: seq<int>)
    requires StrictlyAscending(s)
    ensures StrictlyAscending(r)
    ensures forall p :: p in r <==> p == x || p in s
  {
    if |s| == 0 then
      [x]
    else if x < s[0] then
      [x] + s
    else if x == s[0] then
      s
    else
      var rest := Insert(x, s[1..]);
      assert forall p :: p in rest ==> s[0] < p;
      ConsAscending(s[0], rest);
      assert s == [s[0]] + s[1..];
      [s[0]] + rest
  }

  /** A value below every element of an ascending list extends it. */
  lemma ConsAscending(x: int, s: seq<int>)
    requires StrictlyAscending(s)
    requires forall p :: p in s ==> x < p
    ensures StrictlyAscending([x] + s)
  {
    var r := [x] + s;
    forall i, j | 0 <= i < j < |r|
      ensures r[i] < r[j]
    {
      assert r[j] == s[j - 1];
      if i > 0 {
        assert r[i] == s[i - 1];
      } else {
        assert s[j - 1] in s;
      }
    }
  }

  /** `sorted(set(p for p in ports if 1 <= p <= 65535))`. */
  function Canonical(ports: seq<int>): (r: seq<int>)
    ensures StrictlyAscending(r)
    ensures forall p :: p in r <==> p in ports && IsPort(p)
  {
    if |ports| == 0 then
      []
    else
      var init := ports[..|ports| - 1];
      var x := ports[|ports| - 1];
      var r := Canonical(init);
      assert ports == init + [x];
      if IsPort(x) then Insert(x, r) else r
  }

  /** Some piece of `s` reads as a token that covers `p`. */
  ghost predicate Mentions(s: string, p: int) {
    exists i :: 0 <= i < |Split(s, ',')| && PieceCovers(Split(s, ',')[i], p)
  }

  ghost predicate PieceCovers(piece: string, p: int) {
    var r := ParseToken(piece);
    r.Ok? && r.value.Some? && Covers(r.value.value, p)
  }

  /** `parse_ports(s)`: fails exactly when some piece fails, with the error
      of the first such piece; otherwise the result is strictly ascending
      (sorted, no duplicates) and holds exactly the ports in [1, 65535]
      that some piece names. */
  function ParsePorts(s: string): (r: Result<seq<int>, ParseError>)
    ensures r.Ok? <==> forall i :: 0 <= i < |Split(s, ',')| ==> ParseToken(Split(s, ',')[i]).Ok?
    ensures r.Err? ==> exists i :: (0 <= i < |Split(s, ',')| && ParseToken(Split(s, ',')[i]) == Err(r.error)
      && forall j :: 0 <= j < i ==> ParseToken(Split(s, ',')[j]).Ok?)
    ensures r.Ok? ==> StrictlyAscending(r.value)
    ensures r.Ok? ==> forall p :: p in r.value ==> IsPort(p)
    ensures r.Ok? ==> forall p :: p in r.value <==> IsPort(p) && Mentions(s, p)
  {
    match ParseAll(Split(s, ','))
    case Err(e) => Err(e)
    case Ok(tokens) =>
      var r := Canonical(Expand(tokens));
      MembersMentioned(s, tokens, r);
      Ok(r)
  }

  lemma MembersMentioned(s: string, tokens: seq<Token>, r: seq<int>)
    requires ParseAll(Split(s, ',')) == Ok(tokens)
    requires r == Canonical(Expand(tokens))
    ensures forall p :: p in r <==> IsPort(p) && Mentions(s, p)
  {
    var pieces := Split(s, ',');
    forall p
      ensures p in r <==> IsPort(p) && Mentions(s, p)
    {
      if Mentions(s, p) {
        var i :| 0 <= i < |pieces| && PieceCovers(pieces[i], p);
        var t := ParseToken(pieces[i]).value.value;
        assert t in tokens && Covers(t, p);
      }
      if p in Expand(tokens) {
        var t :| t in tokens && Covers(t, p);
        var i :| 0 <= i < |pieces| && ParseToken(pieces[i]) == Ok(Some(t));
        assert PieceCovers(pieces[i], p);
      }
    }
  }
}
