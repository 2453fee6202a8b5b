/** The balanced-region scanner (`_extract_balanced`) and the function
    locator built on it (`_extract_function`). The scanner counts delimiter
    depth outside quoted strings; inside a string only an unescaped copy of
    its quote ends it. */
module Scanner {
  import opened Outcomes
  import opened Text
  import opened JsLiteral

  /** The scanner's state between two characters: the delimiter depth, the
      quote of the string being read (if any), and whether the previous
      character was an escaping backslash inside that string. */
  datatype ScanState = ScanState(depth: int, inString: Option<char>, escaped: bool)

  const Initial := ScanState(0, None, false)

  /** Reading one character. The depth moves only outside strings, by one,
      at a delimiter; a string opens only at a quote and closes only at an
      unescaped copy of its own quote. */
  function Step(st: ScanState, ch: char, open: char, close: char): (r: ScanState)
    ensures r.depth != st.depth ==> st.inString.None? && !IsQuote(ch) && (ch == open || ch == close)
    ensures r.depth == st.depth || r.depth == st.depth + 1 || r.depth == st.depth - 1
    ensures st.inString.None? && r.inString.Some? ==> IsQuote(ch) && r.inString == Some(ch)
    ensures st.inString.Some? && r.inString.None? ==> !st.escaped && ch == st.inString.value
    ensures st.inString.Some? && r.inString.Some? ==> r.inString == st.inString
  {
    if st.inString.Some? then
      if st.escaped then st.(escaped := false)
      else if ch == '\\' then st.(escaped := true)
      else if ch == st.inString.value then st.(inString := None)
      else st
    else if IsQuote(ch) then st.(inString := Some(ch))
    else if ch == open then st.(depth := st.depth + 1)
    else if ch == close then st.(depth := st.depth - 1)
    else st
  }

  /** The state after reading all of `s`. Text without delimiters leaves the
      depth as it was, and no text moves it by more than its length. */
  function Run(st: ScanState, s: string, open: char, close: char): (r: ScanState)
    ensures (forall i :: 0 <= i < |s| ==> s[i] != open && s[i] != close) ==> r.depth == st.depth
    ensures st.depth - |s| <= r.depth <= st.depth + |s|
    decreases |s|
  {
    if s == [] then st else Run(Step(st, s[0], open, close), s[1..], open, close)
  }

  /** The depth after reading js[start..k], counting from zero at `start`. */
  function DepthAt(js: string, start: nat, k: nat, open: char, close: char): int
    requires start <= k <= |js|
  {
    Run(Initial, js[start..k], open, close).depth
  }

  /** Reading `ch` in state `st` is a close delimiter that brings the depth
      back to zero, where the scanner returns. */
  predicate ClosesRegion(st: ScanState, ch: char, open: char, close: char)
  {
    st.inString.None? && !IsQuote(ch) && ch != open && ch == close && st.depth == 1
  }

  /** The scanner's loop from position `i` in state `st`: the position just
      past the closing delimiter, or None when the text runs out first. */
  function ScanFrom(js: string, i: nat, st: ScanState, open: char, close: char): (r: Option<nat>)
    ensures r.Some? ==> i < r.value <= |js| && js[r.value - 1] == close
    decreases |js| - i
  {
    if i >= |js| then None
    else if ClosesRegion(st, js[i], open, close) then Some(i + 1)
    else ScanFrom(js, i + 1, Step(st, js[i], open, close), open, close)
  }

  /** The region `_extract_balanced` returns, with the position just past it. */
  function BalancedRegion(js: string, start: nat, open: char, close: char): (r: Result<(string, nat)>)
    ensures r == Err(IndexOutOfRange) <==> start >= |js|
    ensures r == Err(ExpectedOpen) <==> start < |js| && js[start] != open
    ensures r.Err? ==> r.error in {IndexOutOfRange, ExpectedOpen, UnbalancedBrackets}
    ensures r.Ok? ==>
      var (region, end) := r.value;
      start < end <= |js| && region == js[start..end] && region[0] == open && region[|region| - 1] == close
  {
    if start >= |js| then Err(IndexOutOfRange)
    else if js[start] != open then Err(ExpectedOpen)
    else match ScanFrom(js, start, Initial, open, close)
      case None => Err(UnbalancedBrackets)
      case Some(end) => Ok((js[start..end], end))
  }

  /** `_extract_balanced`: one pass from `start` that tracks the depth, the
      open string's quote and a pending escape. */
  method ExtractBalanced(js: string, start: nat, open: char, close: char) returns (r: Result<(string, nat)>)
    ensures r == BalancedRegion(js, start, open, close)
  {
    if start >= |js| {
      return Err(IndexOutOfRange);
    }
    if js[start] != open {
      return Err(ExpectedOpen);
    }
    var depth := 0;
    var i := start;
    var inString: Option<char> := None;
    var escaped := false;
    while i < |js|
      invariant start <= i <= |js|
      invariant ScanFrom(js, start, Initial, open, close)
             == ScanFrom(js, i, ScanState(depth, inString, escaped), open, close)
    {
      var ch := js[i];
      if inString.Some? {
        if escaped {
          escaped := false;
        } else if ch == '\\' {
          escaped := true;
        } else if ch == inString.value {
          inString := None;
        }
        i := i + 1;
        continue;
      }
      if IsQuote(ch) {
        inString := Some(ch);
        i := i + 1;
        continue;
      }
      if ch == open {
        depth := depth + 1;
      } else if ch == close {
        depth := depth - 1;
        if depth == 0 {
          return Ok((js[start..i + 1], i + 1));
        }
      }
      i := i + 1;
    }
    return Err(UnbalancedBrackets);
  }

  // ---------------------------------------------------------------------
  // Depth is counted outside strings only, and the region ends where it
  // first returns to zero.

  lemma {:induction false} RunAppend(st: ScanState, s: string, c: char, open: char, close: char)
    ensures Run(st, s + [c], open, close) == Step(Run(st, s, open, close), c, open, close)
    decreases |s|
  {
    if s == [] {
      assert Run(st, [c], open, close) == Run(Step(st, c, open, close), [], open, close);
    } else {
      assert (s + [c])[1..] == s[1..] + [c];
      RunAppend(Step(st, s[0], open, close), s[1..], c, open, close);
    }
  }

  lemma DepthAtNext(js: string, start: nat, k: nat, open: char, close: char)
    requires start <= k < |js|
    ensures Run(Initial, js[start..k + 1], open, close)
         == Step(Run(Initial, js[start..k], open, close), js[k], open, close)
  {
    assert js[start..k + 1] == js[start..k] + [js[k]];
    RunAppend(Initial, js[start..k], js[k], open, close);
  }

  /** From a state inside the region (depth one or more), the scanner stops
      exactly where the depth first drops to zero. */
  lemma {:induction false} ScanFromStopsAtZero(js: string, start: nat, i: nat, open: char, close: char)
    requires start < i <= |js|
    requires open != close && !IsQuote(open) && !IsQuote(close)
    requires forall k :: start < k <= i ==> DepthAt(js, start, k, open, close) > 0
    ensures var st := Run(Initial, js[start..i], open, close);
      match ScanFrom(js, i, st, open, close)
      case Some(end) =>
        DepthAt(js, start, end, open, close) == 0
        && forall k :: start < k < end ==> DepthAt(js, start, k, open, close) > 0
      case None => forall k :: start < k <= |js| ==> DepthAt(js, start, k, open, close) > 0
    decreases |js| - i
  {
    var st := Run(Initial, js[start..i], open, close);
    if i < |js| {
      DepthAtNext(js, start, i, open, close);
      assert DepthAt(js, start, i, open, close) > 0;
      if ClosesRegion(st, js[i], open, close) {
        assert ScanFrom(js, i, st, open, close) == Some(i + 1);
      } else {
        assert ScanFrom(js, i, st, open, close) == ScanFrom(js, i + 1, Step(st, js[i], open, close), open, close);
        assert DepthAt(js, start, i + 1, open, close) > 0;
        ScanFromStopsAtZero(js, start, i + 1, open, close);
      }
    }
  }

  /** The region ends exactly where the depth, counted outside quoted
      strings, first returns to zero; and the scan fails with "Unbalanced
      brackets" exactly when it never does before the end of the text. */
  lemma RegionEndsWhereDepthReturnsToZero(js: string, start: nat, open: char, close: char)
    requires start < |js| && js[start] == open
    requires open != close && !IsQuote(open) && !IsQuote(close)
    ensures match BalancedRegion(js, start, open, close)
      case Ok((_, end)) =>
        DepthAt(js, start, end, open, close) == 0
        && forall k :: start < k < end ==> DepthAt(js, start, k, open, close) > 0
      case Err(e) =>
        e == UnbalancedBrackets && forall k :: start < k <= |js| ==> DepthAt(js, start, k, open, close) > 0
  {
    DepthAtNext(js, start, start, open, close);
    assert js[start..start] == [];
    assert DepthAt(js, start, start + 1, open, close) == 1;
    ScanFromStopsAtZero(js, start, start + 1, open, close);
  }

  /** A string body: every character is neither the quote nor a backslash,
      or is a backslash with the character it escapes. */
  predicate IsStringBody(body: string, q: char)
    decreases |body|
  {
    || body == []
    || (body[0] != q && body[0] != '\\' && IsStringBody(body[1..], q))
    || (|body| >= 2 && body[0] == '\\' && IsStringBody(body[2..], q))
  }

  lemma {:induction false} StringBodyThenQuote(d: int, q: char, body: string, open: char, close: char)
    requires IsQuote(q) && IsStringBody(body, q)
    ensures Run(ScanState(d, Some(q), false), body + [q], open, close) == ScanState(d, None, false)
    decreases |body|
  {
    var inside := ScanState(d, Some(q), false);
    if body == [] {
      assert [q][1..] == [];
      assert Run(inside, [q], open, close) == Run(ScanState(d, None, false), [], open, close);
    } else if body[0] != q && body[0] != '\\' && IsStringBody(body[1..], q) {
      assert (body + [q])[1..] == body[1..] + [q];
      StringBodyThenQuote(d, q, body[1..], open, close);
    } else {
      assert (body + [q])[1..][1..] == body[2..] + [q];
      StringBodyThenQuote(d, q, body[2..], open, close);
    }
  }

  /** A quoted string leaves the depth as it was, whatever delimiters and
      escaped quotes it holds. */
  lemma QuotedStringKeepsDepth(d: int, q: char, body: string, open: char, close: char)
    requires IsQuote(q) && IsStringBody(body, q)
    ensures Run(ScanState(d, None, false), [q] + body + [q], open, close) == ScanState(d, None, false)
  {
    assert ([q] + body + [q])[1..] == body + [q];
    StringBodyThenQuote(d, q, body, open, close);
  }

  // ---------------------------------------------------------------------
  // `_extract_function`

  function FunctionHeader(name: string): string
  {
    "function " + name + "("
  }

  /** `source` is the text of `js` from `idx` through the closing `}` of
      the balanced region at the first `{` at or after `idx`. */
  predicate SourceThroughBody(js: string, idx: nat, source: string)
  {
    && idx + |source| <= |js| && source == js[idx..idx + |source|]
    && source != [] && source[|source| - 1] == '}'
    && EndsWithBody(js, idx, source)
  }

  /** `source`, read from `idx`, ends exactly where the balanced region at
      the first `{` at or after `idx` ends. */
  predicate EndsWithBody(js: string, idx: nat, source: string)
  {
    && Find(js, "{", idx).Some? && Find(js, "{", idx).value < idx + |source| <= |js|
    && BalancedRegion(js, Find(js, "{", idx).value, '{', '}')
       == Ok((js[Find(js, "{", idx).value..idx + |source|], idx + |source|))
  }

  /** The failure `_extract_function` reports once the header is found at
      `idx`: no `{` after it, or the balanced scanner's failure at the first one. */
  predicate BodyFails(js: string, idx: nat, e: Error)
  {
    match Find(js, "{", idx)
    case None => e == BraceNotFound
    case Some(brace) => BalancedRegion(js, brace, '{', '}') == Err(e)
  }

  /** The part of `_extract_function` after the header is found at `idx`:
      the text from `idx` through the balanced body at the first `{` at or
      after `idx`. */
  function SourceFrom(js: string, idx: nat): (r: Result<string>)
    requires idx <= |js|
    ensures r.Err? ==> BodyFails(js, idx, r.error)
    ensures r.Err? ==> r.error == BraceNotFound || r.error == UnbalancedBrackets
    ensures r.Ok? ==> SourceThroughBody(js, idx, r.value)
  {
    match Find(js, "{", idx)
    case None => Err(BraceNotFound)
    case Some(brace) =>
      BraceIsOpen(js, brace);
      match BalancedRegion(js, brace, '{', '}')
      case Err(e) => Err(e)
      case Ok((body, end)) =>
        SliceThroughBody(js, idx, brace, end);
        Ok(js[idx..brace] + body)
  }

  lemma BraceIsOpen(js: string, brace: nat)
    requires OccursAt(js, "{", brace)
    ensures brace < |js| && js[brace] == '{'
  {
    assert js[brace..brace + 1][0] == js[brace];
  }

  lemma SliceThroughBody(js: string, idx: nat, brace: nat, end: nat)
    requires idx <= brace < end <= |js| && js[end - 1] == '}'
    ensures var source := js[idx..brace] + js[brace..end];
      && idx + |source| <= |js| && source == js[idx..idx + |source|]
      && source != [] && source[|source| - 1] == '}'
  {
    assert js[idx..brace] + js[brace..end] == js[idx..end];
  }

  /** `_extract_function`: the source from the first `function <name>(`
      through the balanced body that starts at the next `{`. */
  function FunctionSource(js: string, name: string): (r: Result<string>)
    ensures Find(js, FunctionHeader(name), 0).None? <==> r == Err(FunctionNotFound)
    ensures r.Err? ==> r.error in {FunctionNotFound, BraceNotFound, UnbalancedBrackets}
    ensures r.Err? && Find(js, FunctionHeader(name), 0).Some? ==>
      BodyFails(js, Find(js, FunctionHeader(name), 0).value, r.error)
    ensures r.Ok? ==>
      && Find(js, FunctionHeader(name), 0).Some?
      && OccursAt(js, FunctionHeader(name), Find(js, FunctionHeader(name), 0).value)
      && SourceThroughBody(js, Find(js, FunctionHeader(name), 0).value, r.value)
  {
    match Find(js, FunctionHeader(name), 0)
    case None => Err(FunctionNotFound)
    case Some(idx) => SourceFrom(js, idx)
  }

  /** A source `_extract_function` returns (see FunctionSource) runs from
      the header at `idx` to where the brace depth, counted from the first
      `{` after the header and outside strings, first returns to zero; no
      `{` lies between the header and that brace. */
  lemma BodyBalanced(js: string, idx: nat, source: string)
    requires SourceThroughBody(js, idx, source)
    ensures var brace := Find(js, "{", idx).value;
      var end := idx + |source|;
      && idx <= brace < end <= |js| && js[brace] == '{'
      && (forall k :: idx <= k < brace ==> js[k] != '{')
      && DepthAt(js, brace, end, '{', '}') == 0
      && (forall k :: brace < k < end ==> DepthAt(js, brace, k, '{', '}') > 0)
  {
    var brace := Find(js, "{", idx).value;
    BraceIsOpen(js, brace);
    NoBraceBefore(js, idx, brace);
    RegionEndsWhereDepthReturnsToZero(js, brace, '{', '}');
  }

  lemma NoBraceBefore(js: string, idx: nat, brace: nat)
    requires Find(js, "{", idx) == Some(brace)
    ensures forall k :: idx <= k < brace ==> js[k] != '{'
  {
    forall k | idx <= k < brace
      ensures js[k] != '{'
    {
      assert !OccursAt(js, "{", k);
      assert js[k..k + 1] == [js[k]];
    }
  }
}
