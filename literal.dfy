/** The JavaScript string-literal decoder (`_decode_js_string_literal`): the
    value of a quoted literal, with its escapes, and an encoder that writes a
    value back as a double-quoted literal. */
module JsLiteral {
  import opened Outcomes
  import opened Text

  predicate IsQuote(c: char)
  {
    c == '\'' || c == '"'
  }

  /** The decoder's shape check: two characters or more, the first a quote
      and the last the same quote. */
  predicate IsQuoted(literal: string)
  {
    |literal| >= 2 && literal[0] == literal[|literal| - 1] && IsQuote(literal[0])
  }

  /** What a one-character escape `\e` stands for; every escape other than
      the named ones stands for the escaped character itself. */
  function SimpleEscape(esc: char): (c: CodePoint)
    ensures esc in "nrtbfv0" ==> c < 0x20
    ensures esc !in "nrtbfv0" ==> c == Cp(esc)
  {
    match esc
    case 'n' => 10
    case 'r' => 13
    case 't' => 9
    case 'b' => 8
    case 'f' => 12
    case 'v' => 11
    case '0' => 0
    case _ => Cp(esc)
  }

  /** What one escape contributes: the code points it produces and how many
      characters after the escape letter it consumes. */
  datatype EscapeRead = EscapeRead(emitted: seq<CodePoint>, used: nat)

  /** The escape `\esc` followed by `rest`, or the failure of int(..., 16) or
      chr() on its digits. */
  function ReadEscape(esc: char, rest: string): (r: Result<EscapeRead>)
    ensures r.Ok? ==> r.value.used <= |rest|
    ensures r.Err? ==> r.error == BadHexDigits || r.error == CodePointOutOfRange
  {
    if esc == 'x' && 2 <= |rest| then
      match HexValue(rest[..2])
      case None => Err(BadHexDigits)
      case Some(v) =>
        assert Pow16(2) == 256;
        Ok(EscapeRead([v], 2))
    else if esc == 'u' && rest != [] && rest[0] == '{' then
      match Find(rest, "}", 1)
      case None => Ok(EscapeRead([Cp('u')], 0))  // the `{` is then read as a plain character
      case Some(j) =>
        match HexValue(rest[1..j])
        case None => Err(BadHexDigits)
        case Some(v) => if v < 0x11_0000 then Ok(EscapeRead([v], j + 1)) else Err(CodePointOutOfRange)
    else if esc == 'u' then
      var n := if |rest| < 4 then |rest| else 4;  // body[i:i+4] stops at the end of the body
      match HexValue(rest[..n])
      case None => Err(BadHexDigits)
      case Some(v) =>
        Pow16Monotone(n, 4);
        Ok(EscapeRead([v], n))
    else Ok(EscapeRead([SimpleEscape(esc)], 0))
  }

  /** The value of a literal's body, read left to right the way the decoder's
      loop reads it: a plain character, an escape, or a trailing backslash,
      which ends the loop. */
  function Unescape(body: string): (r: Result<seq<CodePoint>>)
    ensures r.Err? ==> r.error == BadHexDigits || r.error == CodePointOutOfRange
    decreases |body|
  {
    if body == [] then Ok([])
    else if body[0] != '\\' then Prepend([Cp(body[0])], Unescape(body[1..]))
    else if |body| == 1 then Ok([])
    else
      match ReadEscape(body[1], body[2..])
      case Err(e) => Err(e)
      case Ok(read) => Prepend(read.emitted, Unescape(body[2 + read.used..]))
  }

  lemma UnescapePlain(c: char, s: string)
    requires c != '\\'
    ensures Unescape([c] + s) == Prepend([Cp(c)], Unescape(s))
  {
    assert ([c] + s)[1..] == s;
  }

  lemma UnescapeEscape(e: char, s: string)
    ensures ReadEscape(e, s).Err? ==> Unescape(['\\', e] + s) == Err(ReadEscape(e, s).error)
    ensures ReadEscape(e, s).Ok? ==>
      Unescape(['\\', e] + s) == Prepend(ReadEscape(e, s).value.emitted, Unescape(s[ReadEscape(e, s).value.used..]))
  {
    var b := ['\\', e] + s;
    assert b[2..] == s;
    if ReadEscape(e, s).Ok? {
      assert b[2 + ReadEscape(e, s).value.used..] == s[ReadEscape(e, s).value.used..];
    }
  }

  lemma {:induction false} Pow16Monotone(m: nat, n: nat)
    requires m <= n
    ensures Pow16(m) <= Pow16(n)
    decreases n
  {
    if m < n {
      Pow16Monotone(m, n - 1);
    }
  }

  /** The value of a whole literal, quotes included. */
  function LiteralValue(literal: string): (r: Result<seq<CodePoint>>)
    ensures r == Err(NotAStringLiteral) <==> !IsQuoted(literal)
  {
    if IsQuoted(literal) then Unescape(literal[1..|literal| - 1]) else Err(NotAStringLiteral)
  }

  /** `_decode_js_string_literal`: the quote check, then one pass over the
      body with an index, appending to the output. */
  method DecodeStringLiteral(literal: string) returns (r: Result<seq<CodePoint>>)
    ensures r == LiteralValue(literal)
  {
    if !(|literal| >= 2 && literal[0] == literal[|literal| - 1] && IsQuote(literal[0])) {
      return Err(NotAStringLiteral);
    }
    r := UnescapeBody(literal[1..|literal| - 1]);
  }

  /** The decoder's loop over the body, with its index and its output. */
  method UnescapeBody(body: string) returns (r: Result<seq<CodePoint>>)
    ensures r == Unescape(body)
  {
    var out: seq<CodePoint> := [];
    var i := 0;
    ghost var whole := Unescape(body);
    assert body[0..] == body;
    while i < |body|
      invariant 0 <= i <= |body|
      invariant whole == Prepend(out, Unescape(body[i..]))
    {
      var ch := body[i];
      if ch != '\\' {
        PlainStep(whole, body, i, out);
        out := out + [Cp(ch)];
        i := i + 1;
        continue;
      }
      if i + 1 >= |body| {
        TrailingStep(whole, body, i, out);
        return Ok(out);
      }
      var esc := body[i + 1];
      var read := ReadEscapeAt(body, esc, i + 2);
      if read.Err? {
        EscapeFails(whole, body, i, out, read.error);
        return Err(read.error);
      }
      EscapeStep(whole, body, i, out, read.value);
      out := out + read.value.emitted;
      i := i + 2 + read.value.used;
    }
    assert body[i..] == [] && out + [] == out;
    return Ok(out);
  }

  /** The loop's invariant `whole == Prepend(before, Unescape(body[at..]))`
      carried over one plain character. */
  lemma PlainStep(whole: Result<seq<CodePoint>>, body: string, at: nat, before: seq<CodePoint>)
    requires at < |body| && body[at] != '\\'
    requires whole == Prepend(before, Unescape(body[at..]))
    ensures whole == Prepend(before + [Cp(body[at])], Unescape(body[at + 1..]))
  {
    assert body[at..] == [body[at]] + body[at + 1..];
    UnescapePlain(body[at], body[at + 1..]);
    PrependTwice(before, [Cp(body[at])], Unescape(body[at + 1..]));
  }

  /** The same invariant at a trailing backslash, where the loop ends. */
  lemma TrailingStep(whole: Result<seq<CodePoint>>, body: string, at: nat, before: seq<CodePoint>)
    requires at + 1 == |body| && body[at] == '\\'
    requires whole == Prepend(before, Unescape(body[at..]))
    ensures whole == Ok(before)
  {
    assert body[at..] == "\\";
    assert before + [] == before;
  }

  /** The same invariant at an escape the decoder fails on. */
  lemma EscapeFails(whole: Result<seq<CodePoint>>, body: string, at: nat, before: seq<CodePoint>, e: Error)
    requires at + 1 < |body| && body[at] == '\\'
    requires ReadEscape(body[at + 1], body[at + 2..]) == Err(e)
    requires whole == Prepend(before, Unescape(body[at..]))
    ensures whole == Err(e)
  {
    assert body[at..] == ['\\', body[at + 1]] + body[at + 2..];
    UnescapeEscape(body[at + 1], body[at + 2..]);
  }

  /** The same invariant carried over one escape. */
  lemma EscapeStep(whole: Result<seq<CodePoint>>, body: string, at: nat, before: seq<CodePoint>, read: EscapeRead)
    requires at + 1 < |body| && body[at] == '\\'
    requires ReadEscape(body[at + 1], body[at + 2..]) == Ok(read)
    requires whole == Prepend(before, Unescape(body[at..]))
    ensures at + 2 + read.used <= |body|
    ensures whole == Prepend(before + read.emitted, Unescape(body[at + 2 + read.used..]))
  {
    var rest := body[at + 2..];
    assert body[at..] == ['\\', body[at + 1]] + rest;
    UnescapeEscape(body[at + 1], rest);
    assert rest[read.used..] == body[at + 2 + read.used..];
    PrependTwice(before, read.emitted, Unescape(rest[read.used..]));
  }

  /** The escape-letter branches of the decoder's loop, for the escape letter
      `esc` whose digits, if any, start at `body[i]`. */
  method ReadEscapeAt(body: string, esc: char, i: nat) returns (r: Result<EscapeRead>)
    requires i <= |body|
    ensures r == ReadEscape(esc, body[i..])
  {
    ghost var rest := body[i..];
    if esc == 'x' && i + 2 <= |body| {
      assert rest[..2] == body[i..i + 2];
      var v := HexValue(body[i..i + 2]);
      if v.None? {
        return Err(BadHexDigits);
      }
      return Ok(EscapeRead([v.value], 2));
    } else if esc == 'u' {
      if i < |body| && body[i] == '{' {
        r := ReadBraceAt(body, i);
      } else {
        // The Python loop advances by 4 even past the end of the body, which
        // ends the loop just as stopping at the end does.
        var n := if |body| - i < 4 then |body| - i else 4;
        assert rest[..n] == body[i..i + n];
        var v := HexValue(body[i..i + n]);
        if v.None? {
          return Err(BadHexDigits);
        }
        Pow16Monotone(n, 4);
        return Ok(EscapeRead([v.value], n));
      }
    } else {
      return Ok(EscapeRead([SimpleEscape(esc)], 0));
    }
  }

  /** The `\u{...}` branch, with the `{` at `body[i]`. */
  method ReadBraceAt(body: string, i: nat) returns (r: Result<EscapeRead>)
    requires i < |body| && body[i] == '{'
    ensures r == ReadEscape('u', body[i..])
  {
    ghost var rest := body[i..];
    var j := Find(body, "}", i + 1);
    FindInSuffix(body, "}", i, 1);
    if j.None? {
      return Ok(EscapeRead([Cp('u')], 0));
    }
    assert rest[1..j.value - i] == body[i + 1..j.value];
    var v := HexValue(body[i + 1..j.value]);
    if v.None? {
      return Err(BadHexDigits);
    }
    if v.value >= 0x11_0000 {
      return Err(CodePointOutOfRange);
    }
    return Ok(EscapeRead([v.value], j.value + 1 - i));
  }

  // ---------------------------------------------------------------------
  // What the decoder does to each kind of body.

  /** Text without a backslash is copied as it is, whatever follows it. */
  lemma {:induction false} PlainPrefix(p: string, s: string)
    requires '\\' !in p
    ensures Unescape(p + s) == Prepend(Cps(p), Unescape(s))
    decreases |p|
  {
    if p == [] {
      assert p + s == s;
    } else {
      calc {
        Unescape(p + s);
        { assert p + s == [p[0]] + (p[1..] + s); }
        Unescape([p[0]] + (p[1..] + s));
        { UnescapePlain(p[0], p[1..] + s); }
        Prepend([Cp(p[0])], Unescape(p[1..] + s));
        { PlainPrefix(p[1..], s); }
        Prepend([Cp(p[0])], Prepend(Cps(p[1..]), Unescape(s)));
        { PrependTwice([Cp(p[0])], Cps(p[1..]), Unescape(s)); }
        Prepend([Cp(p[0])] + Cps(p[1..]), Unescape(s));
        Prepend(Cps(p), Unescape(s));
      }
    }
  }

  /** A body with no backslash decodes to itself. */
  lemma NoBackslashDecodesToItself(body: string)
    requires '\\' !in body
    ensures Unescape(body) == Ok(Cps(body))
  {
    PlainPrefix(body, []);
    assert body + [] == body;
  }

  /** A lone backslash at the end of the body is dropped. */
  lemma TrailingBackslashDropped(p: string)
    requires '\\' !in p
    ensures Unescape(p + "\\") == Ok(Cps(p))
  {
    PlainPrefix(p, "\\");
    assert Unescape("\\") == Ok([]);
    assert Cps(p) + [] == Cps(p);
  }

  /** Every escape other than `\x` and `\u` is one character long. */
  lemma SimpleEscapeStep(e: char, s: string)
    requires e != 'x' && e != 'u'
    ensures Unescape(['\\', e] + s) == Prepend([SimpleEscape(e)], Unescape(s))
  {
    UnescapeEscape(e, s);
    assert s[0..] == s;
  }

  /** The named escapes map to their control characters, and the escaped
      backslash and quotes to themselves. */
  lemma NamedEscapes(e: char, s: string)
    ensures e == 'n' ==> Unescape(['\\', e] + s) == Prepend([Cp('\n')], Unescape(s))
    ensures e == 'r' ==> Unescape(['\\', e] + s) == Prepend([Cp('\r')], Unescape(s))
    ensures e == 't' ==> Unescape(['\\', e] + s) == Prepend([Cp('\t')], Unescape(s))
    ensures e == 'b' ==> Unescape(['\\', e] + s) == Prepend<CodePoint>([8], Unescape(s))   // backspace
    ensures e == 'f' ==> Unescape(['\\', e] + s) == Prepend<CodePoint>([12], Unescape(s))  // form feed
    ensures e == 'v' ==> Unescape(['\\', e] + s) == Prepend<CodePoint>([11], Unescape(s))  // vertical tab
    ensures e == '0' ==> Unescape(['\\', e] + s) == Prepend([Cp('\0')], Unescape(s))
    ensures e == '\\' || e == '\'' || e == '"' ==> Unescape(['\\', e] + s) == Prepend([Cp(e)], Unescape(s))
  {
    if e != 'x' && e != 'u' {
      SimpleEscapeStep(e, s);
    }
  }

  /** Any other escaped character passes through unchanged; so does `x`
      when fewer than two characters follow it. */
  lemma UnknownEscapePassesThrough(e: char, s: string)
    requires e !in "nrtbfv0u"
    requires e == 'x' ==> |s| < 2
    ensures Unescape(['\\', e] + s) == Prepend([Cp(e)], Unescape(s))
  {
    if e == 'x' {
      UnescapeEscape(e, s);
      assert s[0..] == s;
    } else {
      SimpleEscapeStep(e, s);
    }
  }

  /** `\xHH` with two hexadecimal digits is the code point they spell. */
  lemma HexByteEscape(d1: char, d2: char, s: string)
    requires IsHexDigit(d1) && IsHexDigit(d2)
    ensures Unescape(['\\', 'x', d1, d2] + s) == Prepend<CodePoint>([16 * DigitValue(d1) + DigitValue(d2)], Unescape(s))
  {
    var rest := [d1, d2] + s;
    assert ['\\', 'x', d1, d2] + s == ['\\', 'x'] + rest;
    assert rest[..2] == [d1, d2] && [d1, d2][..1] == [d1];
    assert HexValue([d1]) == Some(DigitValue(d1));
    assert HexValue([d1, d2]) == Some(16 * DigitValue(d1) + DigitValue(d2));
    assert rest[2..] == s;
    UnescapeEscape('x', rest);
  }

  /** `\uHHHH` with four hexadecimal digits is the code point they spell. */
  lemma FourDigitEscape(h: string, s: string)
    requires |h| == 4 && forall i :: 0 <= i < 4 ==> IsHexDigit(h[i])
    ensures Unescape("\\u" + h + s) == Prepend<CodePoint>([HexValue(h).value], Unescape(s))
  {
    var rest := h + s;
    assert "\\u" + h + s == ['\\', 'u'] + rest;
    assert rest[..4] == h && rest[4..] == s;
    UnescapeEscape('u', rest);
  }

  /** `\u{H...}` is the code point its digits spell, when that is at most
      0x10FFFF; beyond that the decoder fails. */
  lemma BraceEscape(h: string, s: string)
    requires HexValue(h).Some?
    ensures var v := HexValue(h).value;
      && (v < 0x11_0000 ==> Unescape("\\u{" + h + "}" + s) == Prepend<CodePoint>([v], Unescape(s)))
      && (v >= 0x11_0000 ==> Unescape("\\u{" + h + "}" + s) == Err(CodePointOutOfRange))
  {
    var rest := "{" + h + "}" + s;
    assert "\\u{" + h + "}" + s == ['\\', 'u'] + rest;
    var close := |h| + 1;
    ClosingBrace(h, s);
    assert rest[1..close] == h;
    assert rest[close + 1..] == s;
    var v := HexValue(h).value;
    assert ReadEscape('u', rest) == if v < 0x11_0000 then Ok(EscapeRead([v], close + 1)) else Err(CodePointOutOfRange);
    UnescapeEscape('u', rest);
  }

  /** The `}` that closes `{h}` is the first one after the `{`. */
  lemma ClosingBrace(h: string, s: string)
    requires HexValue(h).Some?
    ensures Find("{" + h + "}" + s, "}", 1) == Some(|h| + 1)
  {
    var rest := "{" + h + "}" + s;
    var close := |h| + 1;
    assert OccursAt(rest, "}", close) by {
      assert rest[close..close + 1] == "}";
    }
    forall k | 1 <= k < close
      ensures !OccursAt(rest, "}", k)
    {
      assert rest[k] == h[k - 1] && IsHexDigit(h[k - 1]);
    }
  }

  /** `\u{` with no `}` after it is a plain `u`; the `{` and what follows are
      then read as text. */
  lemma UnclosedBraceEscape(s: string)
    requires '}' !in s
    ensures Unescape("\\u{" + s) == Prepend([Cp('u')], Unescape("{" + s))
  {
    var rest := "{" + s;
    assert "\\u{" + s == ['\\', 'u'] + rest;
    forall k | 1 <= k
      ensures !OccursAt(rest, "}", k)
    {
      if k < |rest| {
        assert rest[k] == s[k - 1] && s[k - 1] in s;
      }
    }
    assert Find(rest, "}", 1) == None;
    assert rest[0..] == rest;
    UnescapeEscape('u', rest);
  }

  // ---------------------------------------------------------------------
  // Writing a value back as a literal.

  predicate IsSurrogate(c: CodePoint)
  {
    0xD800 <= c < 0xE000
  }

  /** A code point `json.dumps(..., ensure_ascii=False)` writes as itself
      (and a Dafny character can hold). */
  predicate WrittenAsIs(c: CodePoint)
  {
    0x20 <= c && !IsSurrogate(c) && c != '"' as int && c != '\\' as int
  }

  /** One code point as it appears inside a double-quoted literal: the
      escapes json.dumps uses, and \uXXXX for the lone surrogates a Dafny
      string cannot hold. */
  function EscapeCodePoint(c: CodePoint): (e: string)
    ensures WrittenAsIs(c) ==> e == [c as char]
    ensures !WrittenAsIs(c) ==> |e| >= 2 && e[0] == '\\'
  {
    if c == '"' as int then "\\\""
    else if c == '\\' as int then "\\\\"
    else if c == 8 then "\\b"
    else if c == 12 then "\\f"
    else if c == '\n' as int then "\\n"
    else if c == '\r' as int then "\\r"
    else if c == '\t' as int then "\\t"
    else if c < 0x20 || IsSurrogate(c) then "\\u" + Hex4(c)
    else [c as char]
  }

  /** The escaped body of a value: at least one character per code point,
      and exactly one each when no code point needs an escape. */
  function QuoteBody(v: seq<CodePoint>): (body: string)
    ensures |body| >= |v|
    ensures |body| == |v| <==> forall i :: 0 <= i < |v| ==> WrittenAsIs(v[i])
  {
    if v == [] then "" else EscapeCodePoint(v[0]) + QuoteBody(v[1..])
  }

  /** The double-quoted literal of a value. */
  function Quote(v: seq<CodePoint>): (lit: string)
    ensures IsQuoted(lit) && lit[0] == '"'
  {
    "\"" + QuoteBody(v) + "\""
  }

  lemma EscapeRoundTrip(c: CodePoint, s: string)
    ensures Unescape(EscapeCodePoint(c) + s) == Prepend([c], Unescape(s))
  {
    var e := EscapeCodePoint(c);
    if c == '"' as int {
      SimpleEscapeStep('"', s);
    } else if c == '\\' as int {
      SimpleEscapeStep('\\', s);
    } else if c == 8 {
      SimpleEscapeStep('b', s);
    } else if c == 12 {
      SimpleEscapeStep('f', s);
    } else if c == '\n' as int {
      SimpleEscapeStep('n', s);
    } else if c == '\r' as int {
      SimpleEscapeStep('r', s);
    } else if c == '\t' as int {
      SimpleEscapeStep('t', s);
    } else if c < 0x20 || IsSurrogate(c) {
      Hex4RoundTrip(c);
      FourDigitEscape(Hex4(c), s);
    } else {
      UnescapePlain(c as char, s);
    }
  }

  lemma {:induction false} QuoteBodyRoundTrip(v: seq<CodePoint>, s: string)
    ensures Unescape(QuoteBody(v) + s) == Prepend(v, Unescape(s))
    decreases |v|
  {
    if v == [] {
      assert QuoteBody(v) + s == s;
    } else {
      var tail := QuoteBody(v[1..]) + s;
      assert QuoteBody(v) + s == EscapeCodePoint(v[0]) + tail;
      EscapeRoundTrip(v[0], tail);
      QuoteBodyRoundTrip(v[1..], s);
      PrependTwice([v[0]], v[1..], Unescape(s));
      assert [v[0]] + v[1..] == v;
    }
  }

  /** Decoding the written literal gives back the value. */
  lemma QuoteRoundTrip(v: seq<CodePoint>)
    ensures LiteralValue(Quote(v)) == Ok(v)
  {
    var lit := Quote(v);
    assert lit[1..|lit| - 1] == QuoteBody(v);
    QuoteBodyRoundTrip(v, []);
    assert QuoteBody(v) + [] == QuoteBody(v);
    assert v + [] == v;
  }
}
