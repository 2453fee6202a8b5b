/** The element loop of `_extract_string_array`: it splits a bracketed array
    literal into its elements, left to right, decoding quoted strings and
    keeping any other element as its stripped source text. */
module ArrayElements {
  import opened Outcomes
  import opened Text
  import opened JsLiteral
  import Scanner

  /** What the array literal's element loop skips between elements. */
  predicate IsSeparator(c: char)
  {
    c == ' ' || c == '\t' || c == '\r' || c == '\n' || c == ','
  }

  /** An array literal as the balanced scanner returns it. */
  predicate IsArrayLiteral(a: string)
  {
    |a| >= 2 && a[0] == '[' && a[|a| - 1] == ']'
  }

  /** One element: the span a[lo..hi] it was read from, whether it was a
      quoted string, and its value. */
  datatype Piece = Piece(lo: nat, hi: nat, quoted: bool, value: seq<CodePoint>)

  /** The first position from `i` on, short of the final character, that is
      not a separator. */
  function SkipSeparators(a: string, i: nat): (k: nat)
    ensures i <= k && (k == i || k <= |a| - 1)
    ensures forall m :: i <= m < k ==> m < |a| - 1 && IsSeparator(a[m])
    ensures k < |a| - 1 ==> !IsSeparator(a[k])
    decreases |a| - i
  {
    if i < |a| - 1 && IsSeparator(a[i]) then SkipSeparators(a, i + 1) else i
  }

  /** Where the string loop started at `j` stops: at the first unescaped
      `q`, or at the final character. `escaped` says whether the previous
      character was an escaping backslash. */
  function StringEnd(a: string, j: nat, q: char, escaped: bool): (r: nat)
    requires j <= |a| - 1
    ensures j <= r <= |a| - 1
    ensures r < |a| - 1 ==> a[r] == q
    decreases |a| - j
  {
    if j >= |a| - 1 then j
    else if escaped then StringEnd(a, j + 1, q, false)
    else if a[j] == '\\' then StringEnd(a, j + 1, q, true)
    else if a[j] == q then j
    else StringEnd(a, j + 1, q, false)
  }

  /** Where a non-string element that starts at `j` ends: at the next `,`
      or `]`, or at the final character. */
  function TokenEnd(a: string, j: nat): (r: nat)
    ensures j <= r && (r == j || r <= |a| - 1)
    ensures forall m :: j <= m < r ==> m < |a| - 1 && a[m] != ',' && a[m] != ']'
    ensures r < |a| - 1 ==> a[r] == ',' || a[r] == ']'
    decreases |a| - j
  {
    if j < |a| - 1 && a[j] != ',' && a[j] != ']' then TokenEnd(a, j + 1) else j
  }

  /** The element that starts at `k`, the first character that is not a
      separator: a quoted string through its closing quote, decoded, or the
      stripped text up to the next `,` or `]`. When `a[k]` is itself `]` the
      loop stops advancing, which NoProgress stands for. */
  function ElementAt(a: string, k: nat): (r: Result<Piece>)
    requires k < |a| - 1
    ensures r.Ok? ==> r.value.lo == k < r.value.hi <= |a|
    ensures r.Err? ==> r.error in {NotAStringLiteral, BadHexDigits, CodePointOutOfRange, NoProgress}
  {
    if IsQuote(a[k]) then QuotedPiece(a, k, StringEnd(a, k + 1, a[k], false))
    else BarePiece(a, k, TokenEnd(a, k))
  }

  /** The quoted element from its quote at `k` through the string loop's
      stop `j`, decoded. */
  function QuotedPiece(a: string, k: nat, j: nat): (r: Result<Piece>)
    requires k < j < |a|
    ensures r.Ok? ==> r.value.lo == k < r.value.hi == j + 1
    ensures r.Ok? ==> a[j] == a[k] && LiteralValue(a[k..j + 1]) == Ok(r.value.value)
    ensures r.Err? ==> r.error in {NotAStringLiteral, BadHexDigits, CodePointOutOfRange}
  {
    var literal := a[k..j + 1];
    var decoded := LiteralValue(literal);
    if decoded.Err? then Err(decoded.error)
    else
      assert literal[0] == a[k] && literal[|literal| - 1] == a[j];
      Ok(Piece(k, j + 1, true, decoded.value))
  }

  /** The unquoted element from `k` up to the token loop's stop `j`,
      stripped. It runs over no `,` or `]` and ends at one of them or at the
      final character; when it starts at one, the loop does not move, which
      NoProgress stands for. */
  function BarePiece(a: string, k: nat, j: nat): (r: Result<Piece>)
    requires k < |a| - 1 && j == TokenEnd(a, k)
    ensures r.Err? <==> a[k] == ',' || a[k] == ']'
    ensures r.Err? ==> r.error == NoProgress
    ensures r.Ok? ==> r.value.lo == k < r.value.hi == j <= |a| - 1 && !r.value.quoted
    ensures r.Ok? ==> forall m :: k <= m < j ==> a[m] != ',' && a[m] != ']'
    ensures r.Ok? ==> j == |a| - 1 || a[j] == ',' || a[j] == ']'
    ensures r.Ok? ==> r.value.value == Cps(Strip(a[k..j]))
  {
    if j == k then Err(NoProgress) else Ok(Piece(k, j, false, Cps(Strip(a[k..j]))))
  }

  /** The element loop from position `i`: the elements still to come, or the
      failure that stops it. */
  function ParseFrom(a: string, i: nat): (r: Result<seq<Piece>>)
    ensures r.Err? ==> r.error in {NotAStringLiteral, BadHexDigits, CodePointOutOfRange, NoProgress}
    decreases |a| - i
  {
    if i >= |a| - 1 then Ok([])
    else
      var k := SkipSeparators(a, i);
      if k >= |a| - 1 then Ok([])
      else match ElementAt(a, k)
        case Err(e) => Err(e)
        case Ok(p) => Prepend([p], ParseFrom(a, p.hi))
  }

  function Values(ps: seq<Piece>): (vs: seq<seq<CodePoint>>)
    ensures |vs| == |ps| && forall n :: 0 <= n < |ps| ==> vs[n] == ps[n].value
  {
    if ps == [] then [] else [ps[0].value] + Values(ps[1..])
  }

  /** The list the element loop builds from an array literal: the elements
      in source order, each quoted one decoded and each other one the
      stripped text up to the next `,` or the closing bracket, with only
      separators between them. */
  function Elements(a: string): (r: Result<seq<seq<CodePoint>>>)
    ensures r.Err? <==> ParseFrom(a, 1).Err?
    ensures r.Err? ==> r.error == ParseFrom(a, 1).error
    ensures r.Ok? ==>
      && |r.value| == |ParseFrom(a, 1).value|
      && forall n :: 0 <= n < |r.value| ==> r.value[n] == ParseFrom(a, 1).value[n].value
    ensures r.Ok? && IsArrayLiteral(a) ==> Layout(a, 1, ParseFrom(a, 1).value)
  {
    match ParseFrom(a, 1)
    case Err(e) => Err(e)
    case Ok(ps) =>
      if IsArrayLiteral(a) then
        ParseFromLayout(a, 1);
        Ok(Values(ps))
      else Ok(Values(ps))
  }

  /** The element loop of `_extract_string_array`, with its cursor `i`. It
      is only called where the loop ends. */
  method ParseElements(a: string) returns (r: Result<seq<seq<CodePoint>>>)
    requires ParseFrom(a, 1) != Err(NoProgress)
    ensures r == Elements(a)
  {
    var elements: seq<seq<CodePoint>> := [];
    ghost var pieces: seq<Piece> := [];
    var i := 1;
    while i < |a| - 1
      invariant i >= 1
      invariant elements == Values(pieces)
      invariant ParseFrom(a, 1) == Prepend(pieces, ParseFrom(a, i))
      decreases |a| - i
    {
      ghost var from := i;
      i := SkipAt(a, i);
      if i >= |a| - 1 {
        break;
      }
      var next := ReadElementAt(a, i);
      if next.Err? {
        return Err(next.error);
      }
      var piece := next.value;
      elements := elements + [piece.value];
      Advance(a, pieces, piece, from, piece.hi);
      ValuesAppend(pieces, piece);
      pieces := pieces + [piece];
      i := piece.hi;
    }
    assert ParseFrom(a, i) == Ok([]);
    assert pieces + [] == pieces;
    return Ok(elements);
  }

  /** One element, read with the inner loops of the element loop: a quoted
      string is scanned to its closing quote and decoded, anything else is
      taken up to the next `,` or `]` and stripped. */
  method ReadElementAt(a: string, k: nat) returns (r: Result<Piece>)
    requires k < |a| - 1
    ensures r == ElementAt(a, k)
  {
    var ch := a[k];
    if IsQuote(ch) {
      var j := StringStopAt(a, k + 1, ch);
      var decoded := DecodeStringLiteral(a[k..j + 1]);
      if decoded.Err? {
        return Err(decoded.error);
      }
      return Ok(Piece(k, j + 1, true, decoded.value));
    }
    var j := TokenStopAt(a, k);
    if j == k {
      return Err(NoProgress);
    }
    return Ok(Piece(k, j, false, Cps(Strip(a[k..j]))));
  }

  /** The loop that skips separators. */
  method SkipAt(a: string, i: nat) returns (k: nat)
    ensures k == SkipSeparators(a, i)
  {
    k := i;
    while k < |a| - 1 && IsSeparator(a[k])
      invariant i <= k
      invariant SkipSeparators(a, k) == SkipSeparators(a, i)
      decreases |a| - k
    {
      k := k + 1;
    }
  }

  /** The loop that looks for the quote `q` that ends a string element. */
  method StringStopAt(a: string, start: nat, q: char) returns (j: nat)
    requires start <= |a| - 1
    ensures j == StringEnd(a, start, q, false)
  {
    j := start;
    var escaped := false;
    while j < |a| - 1
      invariant start <= j <= |a| - 1
      invariant StringEnd(a, j, q, escaped) == StringEnd(a, start, q, false)
      decreases |a| - j
    {
      var cj := a[j];
      if escaped {
        escaped := false;
      } else if cj == '\\' {
        escaped := true;
      } else if cj == q {
        break;
      }
      j := j + 1;
    }
  }

  /** The loop that looks for the end of an unquoted element. */
  method TokenStopAt(a: string, i: nat) returns (j: nat)
    ensures j == TokenEnd(a, i)
  {
    j := i;
    while j < |a| - 1 && a[j] != ',' && a[j] != ']'
      invariant i <= j
      invariant TokenEnd(a, j) == TokenEnd(a, i)
      decreases |a| - j
    {
      j := j + 1;
    }
  }

  lemma Advance(a: string, pieces: seq<Piece>, piece: Piece, from: nat, next: nat)
    requires ParseFrom(a, 1) == Prepend(pieces, ParseFrom(a, from))
    requires from < |a| - 1 && SkipSeparators(a, from) < |a| - 1
    requires ElementAt(a, SkipSeparators(a, from)) == Ok(piece) && next == piece.hi
    ensures ParseFrom(a, 1) == Prepend(pieces + [piece], ParseFrom(a, next))
  {
    PrependTwice(pieces, [piece], ParseFrom(a, next));
  }

  lemma {:induction false} ValuesAppend(ps: seq<Piece>, p: Piece)
    ensures Values(ps + [p]) == Values(ps) + [p.value]
  {
  }

  // ---------------------------------------------------------------------
  // The layout of the literal: the elements in source order, separators
  // between them and nothing else.

  predicate AllSeparators(a: string, from: nat, to: int)
  {
    forall m :: from <= m < to ==> m < |a| && IsSeparator(a[m])
  }

  /** What each element is, given the text it was read from. */
  predicate PieceFits(a: string, p: Piece)
  {
    && p.lo < p.hi <= |a| - 1
    && if p.quoted then QuotedFits(a, p.lo, p.hi, p.value) else BareFits(a, p.lo, p.hi, p.value)
  }

  /** A quoted element: a string literal a[lo..hi] whose body is a
      well-formed string body, and its decoded value. */
  predicate QuotedFits(a: string, lo: nat, hi: nat, value: seq<CodePoint>)
    requires lo < hi <= |a|
  {
    && IsQuote(a[lo]) && a[hi - 1] == a[lo] && lo + 1 < hi
    && Scanner.IsStringBody(a[lo + 1..hi - 1], a[lo])
    && LiteralValue(a[lo..hi]) == Ok(value)
  }

  /** An unquoted element: text up to a comma or the final bracket, and its
      stripped value. */
  predicate BareFits(a: string, lo: nat, hi: nat, value: seq<CodePoint>)
    requires lo < hi <= |a| - 1
  {
    && !IsQuote(a[lo]) && !IsSeparator(a[lo])
    && (forall m :: lo <= m < hi ==> a[m] != ',' && a[m] != ']')
    && (hi == |a| - 1 || a[hi] == ',')
    && value == Cps(Strip(a[lo..hi]))
  }

  /** The text from `i` to the final character is separators, then the first
      piece, then (from where it ends) the layout of the rest. */
  predicate Layout(a: string, i: nat, ps: seq<Piece>)
    decreases |ps|
  {
    if ps == [] then AllSeparators(a, i, |a| - 1)
    else
      && i <= ps[0].lo && AllSeparators(a, i, ps[0].lo)
      && PieceFits(a, ps[0])
      && Layout(a, ps[0].hi, ps[1..])
  }

  /** The string loop's stop is the end of a well-formed string body. */
  lemma {:induction false} StringEndIsBodyEnd(a: string, j: nat, q: char)
    requires j <= |a| - 1 && q != '\\'
    requires StringEnd(a, j, q, false) < |a| - 1
    ensures Scanner.IsStringBody(a[j..StringEnd(a, j, q, false)], q)
    decreases |a| - j
  {
    var r := StringEnd(a, j, q, false);
    if a[j] == q {
      assert a[j..r] == [];
    } else if a[j] == '\\' {
      assert StringEnd(a, j + 1, q, true) == r;
      assert j + 1 < |a| - 1;
      assert StringEnd(a, j + 2, q, false) == r;
      StringEndIsBodyEnd(a, j + 2, q);
      assert a[j..r][2..] == a[j + 2..r];
    } else {
      StringEndIsBodyEnd(a, j + 1, q);
      assert a[j..r][1..] == a[j + 1..r];
    }
  }

  /** A literal cut off at the closing bracket is not a string literal. */
  lemma UnterminatedLiteral(literal: string)
    requires |literal| >= 1 && literal[|literal| - 1] == ']'
    ensures LiteralValue(literal) == Err(NotAStringLiteral)
  {
  }

  /** A quoted element the loop decodes ends at its closing quote, before
      the final bracket, and its body is a well-formed string body. */
  lemma QuotedPieceFits(a: string, k: nat, j: nat)
    requires IsArrayLiteral(a) && k < |a| - 1 && IsQuote(a[k])
    requires j == StringEnd(a, k + 1, a[k], false) && QuotedPiece(a, k, j).Ok?
    ensures j < |a| - 1
    ensures PieceFits(a, QuotedPiece(a, k, j).value)
  {
    var p := QuotedPiece(a, k, j).value;
    assert p == Piece(k, j + 1, true, p.value);
    assert a[j] == a[k];
    StringEndIsBodyEnd(a, k + 1, a[k]);
    assert QuotedFits(a, k, j + 1, p.value);
  }

  /** An unquoted element is followed by a comma or the final bracket, never
      by a `]` inside the literal (the loop would stop advancing there). */
  lemma BarePieceFits(a: string, k: nat, j: nat)
    requires IsArrayLiteral(a) && k < |a| - 1 && !IsQuote(a[k]) && !IsSeparator(a[k])
    requires j == TokenEnd(a, k) && BarePiece(a, k, j).Ok? && ParseFrom(a, j).Ok?
    ensures PieceFits(a, BarePiece(a, k, j).value)
  {
    if j < |a| - 1 && a[j] == ']' {
      BracketStops(a, j);
    }
  }

  /** A `]` before the final character is where the loop stops advancing. */
  lemma BracketStops(a: string, j: nat)
    requires j < |a| - 1 && a[j] == ']'
    ensures ParseFrom(a, j) == Err(NoProgress)
  {
    assert SkipSeparators(a, j) == j;
    assert TokenEnd(a, j) == j;
  }

  lemma ElementFits(a: string, k: nat)
    requires IsArrayLiteral(a) && k < |a| - 1 && !IsSeparator(a[k])
    requires ElementAt(a, k).Ok? && ParseFrom(a, ElementAt(a, k).value.hi).Ok?
    ensures PieceFits(a, ElementAt(a, k).value)
  {
    if IsQuote(a[k]) {
      QuotedPieceFits(a, k, StringEnd(a, k + 1, a[k], false));
    } else {
      BarePieceFits(a, k, TokenEnd(a, k));
    }
  }

  /** Whatever the loop returns lays the literal out: separators, then each
      element in order, quoted ones decoded and others stripped. */
  lemma {:induction false} ParseFromLayout(a: string, i: nat)
    requires IsArrayLiteral(a) && i >= 1
    requires ParseFrom(a, i).Ok?
    ensures Layout(a, i, ParseFrom(a, i).value)
    decreases |a| - i
  {
    if i < |a| - 1 {
      var k := SkipSeparators(a, i);
      if k < |a| - 1 {
        var p := ElementAt(a, k).value;
        assert ParseFrom(a, i) == Prepend([p], ParseFrom(a, p.hi));
        ElementFits(a, k);
        ParseFromLayout(a, p.hi);
        var ps := ParseFrom(a, i).value;
        assert ps[0] == p && ps[1..] == ParseFrom(a, p.hi).value;
      }
    }
  }

  /** A nested array stalls the loop: in `[[1],2]` the first element runs
      up to the inner `]`, where the loop then stays. */
  lemma NestedArrayStalls()
    ensures ParseFrom("[[1],2]", 1) == Err(NoProgress)
  {
    var a := "[[1],2]";
    assert SkipSeparators(a, 1) == 1;
    assert TokenEnd(a, 3) == 3 && TokenEnd(a, 1) == 3;
    assert ElementAt(a, 1) == Ok(Piece(1, 3, false, Cps(Strip(a[1..3]))));
    BracketStops(a, 3);
  }

  // ---------------------------------------------------------------------
  // `_extract_string_array` around the loop.

  /** A region the balanced scanner cuts out between `[` and `]` is an array
      literal in the loop's sense. */
  lemma BalancedArrayIsArrayLiteral(js: string, start: nat)
    requires Scanner.BalancedRegion(js, start, '[', ']').Ok?
    ensures IsArrayLiteral(Scanner.BalancedRegion(js, start, '[', ']').value.0)
  {
    var region := Scanner.BalancedRegion(js, start, '[', ']').value.0;
    assert region[0] != region[|region| - 1];
  }

  /** `_extract_string_array`: the function's source, the array literal that
      starts at `arrayStart` in it, and that literal's elements. Finding
      `arrayStart` (the `const <name> = [` search) is left to a regular
      expression outside this model. */
  function StringArray(js: string, name: string, arrayStart: nat): (r: Result<seq<seq<CodePoint>>>)
    ensures Scanner.FunctionSource(js, name).Err? ==> r == Err(Scanner.FunctionSource(js, name).error)
    ensures Scanner.FunctionSource(js, name).Ok? ==>
      ArrayFromSource(Scanner.FunctionSource(js, name).value, arrayStart, r)
  {
    match Scanner.FunctionSource(js, name)
    case Err(e) => Err(e)
    case Ok(src) =>
      match Scanner.BalancedRegion(src, arrayStart, '[', ']')
      case Err(e) => Err(e)
      case Ok(found) =>
        BalancedArrayIsArrayLiteral(src, arrayStart);
        Elements(found.0)
  }

  /** What `_extract_string_array` returns from the function's source `src`:
      the balanced scanner's failure at `arrayStart`, or the element loop's
      failure on the literal it cuts out, or that literal's elements laid
      out in source order. */
  predicate ArrayFromSource(src: string, arrayStart: nat, r: Result<seq<seq<CodePoint>>>)
  {
    match Scanner.BalancedRegion(src, arrayStart, '[', ']')
    case Err(e) => r == Err(e)
    case Ok((literal, _)) =>
      && IsArrayLiteral(literal)
      && (r.Err? <==> ParseFrom(literal, 1).Err?)
      && (r.Err? ==> r.error == ParseFrom(literal, 1).error)
      && (r.Ok? ==> r.value == Values(ParseFrom(literal, 1).value) && Layout(literal, 1, ParseFrom(literal, 1).value))
  }

  /** The same, as `_extract_string_array` runs it: the function's source,
      the scanner's loop, then the element loop. */
  method ExtractStringArray(js: string, name: string, arrayStart: nat) returns (r: Result<seq<seq<CodePoint>>>)
    requires Scanner.FunctionSource(js, name).Ok? ==>
      var src := Scanner.FunctionSource(js, name).value;
      Scanner.BalancedRegion(src, arrayStart, '[', ']').Ok? ==>
        ParseFrom(Scanner.BalancedRegion(src, arrayStart, '[', ']').value.0, 1) != Err(NoProgress)
    ensures r == StringArray(js, name, arrayStart)
  {
    var src := Scanner.FunctionSource(js, name);
    if src.Err? {
      return Err(src.error);
    }
    var found := Scanner.ExtractBalanced(src.value, arrayStart, '[', ']');
    if found.Err? {
      return Err(found.error);
    }
    r := ParseElements(found.value.0);
  }
}
