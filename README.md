# Deobfuscator worker core, modelled in Dafny

`tools/deobfuscate_worker.py` turns an obfuscated JavaScript bundle back into readable
code. Every string of the bundle sits in one array, the *string table*, which a bootstrap
loop rotates at start-up. The script then reads each string through a decoder call `Q(0x1a2)`
or through an alias of `Q`. The worker rebuilds the table, rotates it the same way and
replaces every decoder call by the string it returns.

This project models the core of that pipeline and proves what each step promises:

- `outcomes.dfy` (`Outcomes`): `Option`, `Result`, and one `Error` constructor per
  exception the modelled steps raise.
- `text.dfy` (`Text`): the Python built-ins the core relies on, written out. These are
  `str.find`, `int(s, 16)`, `str.strip()` and the code points of a string.
- `literal.dfy` (`JsLiteral`): `_decode_js_string_literal`, plus an encoder that plays
  the part of `json.dumps`.
- `scanner.dfy` (`Scanner`): `_extract_balanced` and `_extract_function`.
- `elements.dfy` (`ArrayElements`): the element loop of `_extract_string_array` and the
  function around it.
- `aliases.dfy` (`Aliases`): the fixed point of `_collect_aliases`.
- `rotation.dfy` (`Rotation`): `decode(num)`, and the bootstrap loop as a method of the
  `StringTable` class, which rotates its `items` in place.
- `rewrite.dfy` (`Rewrite`): the substitution `call_re.sub(replace, src)` together with
  `replace`'s cache.

Each loop of the source is a `method` proved equal to a specification function. Examples
are `DecodeStringLiteral`, `ExtractBalanced`, `ParseElements`, `Converge` and
`RewriteCalls`. The lemmas next to each function state what the step means: round trips,
layouts, least fixed points and iff-characterisations of failure.

Decoded strings are sequences of code points (`seq<CodePoint>`), not Dafny strings. A
Python string can hold a lone surrogate, for instance one produced by `\ud800`, and a
Dafny `char` cannot.

## Model

| member | source | states |
|---|---|---|
| Text.Find | tools/deobfuscate_worker.py:164-167 | `str.find`: the result is an occurrence at or after `from`, and no occurrence comes before it; None means there is no occurrence at all |
| Text.HexValue | tools/deobfuscate_worker.py:44 | `int(s, 16)` succeeds exactly when `s` is a non-empty run of hexadecimal digits, and its value is below 16^len(s) |
| Text.Strip | tools/deobfuscate_worker.py:239 | `str.strip()`: the result is the slice between the leading and the trailing whitespace, so it neither starts nor ends with whitespace |
| Text.Hex4RoundTrip | tools/deobfuscate_worker.py:314 | the four-digit `\uXXXX` written for a code point below 0x10000 reads back as that code point |
| JsLiteral.LiteralValue | tools/deobfuscate_worker.py:22-28 | a literal is rejected with "Not a JS string literal" exactly when it is not at least two characters long and enclosed in the same quote |
| JsLiteral.DecodeStringLiteral | tools/deobfuscate_worker.py:22-77 | the decoder's index loop computes the literal's value, with the same failures, as the left-to-right reading `Unescape` |
| JsLiteral.UnescapeBody | tools/deobfuscate_worker.py:30-77 | the loop over the body, with its index and its output list, computes `Unescape` of the body |
| JsLiteral.PlainStep | tools/deobfuscate_worker.py:33-37 | the loop's invariant survives a plain character appended to the output |
| JsLiteral.TrailingStep | tools/deobfuscate_worker.py:38-40 | at a trailing backslash the output so far is the whole value |
| JsLiteral.EscapeStep | tools/deobfuscate_worker.py:41-75 | the loop's invariant survives an escape's output and the characters it consumed |
| JsLiteral.EscapeFails | tools/deobfuscate_worker.py:43-56 | an escape whose digits fail makes the whole decoding fail with that error |
| JsLiteral.ReadEscapeAt | tools/deobfuscate_worker.py:41-75 | the escape branch of the loop gives what `ReadEscape` gives: the emitted code point and the characters consumed, or the `int`/`chr` failure |
| JsLiteral.ReadBraceAt | tools/deobfuscate_worker.py:48-54 | the `\u{` branch gives what `ReadEscape` gives for it |
| JsLiteral.PlainPrefix | tools/deobfuscate_worker.py:32-37 | text without a backslash is copied one code point per character in front of whatever the rest decodes to |
| JsLiteral.NoBackslashDecodesToItself | tools/deobfuscate_worker.py:32-37 | a body without a backslash decodes to exactly its own characters |
| JsLiteral.TrailingBackslashDropped | tools/deobfuscate_worker.py:38-40 | a lone backslash at the end of the body is dropped, and the loop ends there |
| JsLiteral.SimpleEscapeStep | tools/deobfuscate_worker.py:58-75 | every escape other than `\x` and `\u` consumes one character after the backslash and emits one code point |
| JsLiteral.NamedEscapes | tools/deobfuscate_worker.py:58-73 | `\n \r \t \b \f \v \0` give their control characters; `\\`, `\'` and `\"` give the escaped character |
| JsLiteral.UnknownEscapePassesThrough | tools/deobfuscate_worker.py:72-75 | any other escaped character stands for itself, including an `x` followed by fewer than two characters |
| JsLiteral.HexByteEscape | tools/deobfuscate_worker.py:43-45 | `\xHH` with two hexadecimal digits emits the code point 16*H1+H2 and continues after the digits |
| JsLiteral.FourDigitEscape | tools/deobfuscate_worker.py:55-57 | `\uHHHH` with four hexadecimal digits emits the code point they spell and continues after them |
| JsLiteral.BraceEscape | tools/deobfuscate_worker.py:48-54 | `\u{H...}` emits the code point its digits spell when that is at most 0x10FFFF; above that the decoder fails as `chr` does |
| JsLiteral.ClosingBrace | tools/deobfuscate_worker.py:49 | the `}` found after `{h` is the one right after the digits |
| JsLiteral.UnclosedBraceEscape | tools/deobfuscate_worker.py:48-51 | `\u{` with no `}` after it emits a plain `u`, and the `{` and everything after it are read as text |
| JsLiteral.SimpleEscape | tools/deobfuscate_worker.py:58-75 | `\n \r \t \b \f \v \0` stand for control characters; every other escaped character stands for itself |
| JsLiteral.EscapeCodePoint | tools/deobfuscate_worker.py:314 | a code point at or above 0x20 that is not a surrogate, `"` or `\` is written as itself; every other one as an escape starting with a backslash |
| JsLiteral.QuoteBody | tools/deobfuscate_worker.py:314 | the body has at least one character per code point, and exactly one each when no code point needs an escape |
| JsLiteral.Quote | tools/deobfuscate_worker.py:314 | the replacement text is a double-quoted literal the decoder accepts |
| JsLiteral.EscapeRoundTrip | tools/deobfuscate_worker.py:314 | each code point's escape, as `EscapeCodePoint` writes it, decodes back to that code point |
| JsLiteral.QuoteBodyRoundTrip | tools/deobfuscate_worker.py:314 | the escaped body of a value decodes back to the value, whatever follows it |
| JsLiteral.QuoteRoundTrip | tools/deobfuscate_worker.py:314 | decoding the literal written for a value gives back that value, for every value |
| Scanner.ScanFrom | tools/deobfuscate_worker.py:87-109 | the scan returns a position past a close delimiter, or None when the text ends first |
| Scanner.BalancedRegion | tools/deobfuscate_worker.py:80-111 | IndexError exactly when `start` is past the text; "Expected open" exactly when the character at `start` is not `open`; otherwise the region is `js[start..end]`, begins with `open` and ends with `close` |
| Scanner.ExtractBalanced | tools/deobfuscate_worker.py:80-111 | the scanner's loop, with its depth, string-quote and escape variables, returns `BalancedRegion` |
| Scanner.RunAppend | tools/deobfuscate_worker.py:87-109 | reading one more character is one more scanner step |
| Scanner.ScanFromStopsAtZero | tools/deobfuscate_worker.py:103-108 | from inside the region the scan stops exactly where the depth first drops to zero |
| Scanner.RegionEndsWhereDepthReturnsToZero | tools/deobfuscate_worker.py:83-111 | the region ends where the depth, counted outside strings, first returns to zero; "Unbalanced brackets" means the depth never does |
| Scanner.StringBodyThenQuote | tools/deobfuscate_worker.py:89-97 | inside a string, a well-formed body and its closing quote leave the scanner outside the string at its old depth |
| Scanner.QuotedStringKeepsDepth | tools/deobfuscate_worker.py:89-102 | a quoted string leaves the depth unchanged, whatever brackets or escaped quotes it holds |
| Scanner.SourceFrom | tools/deobfuscate_worker.py:167-171 | "opening brace not found" exactly when no `{` follows the header; otherwise the balanced scanner's failure at the first `{`, or the slice of the script from the header through the end of the balanced region that starts at that `{` |
| Scanner.BodyBalanced | tools/deobfuscate_worker.py:167-171 | the returned source begins at the header, passes no `{` before the first one, and ends where the brace depth counted from that `{` outside strings first returns to zero |
| Scanner.NoBraceBefore | tools/deobfuscate_worker.py:167 | `find` skips no `{`: none lies between the header and the brace it returns |
| Scanner.BraceIsOpen | tools/deobfuscate_worker.py:167-170 | the `{` that `find` returns is the character the balanced scanner starts on |
| Scanner.SliceThroughBody | tools/deobfuscate_worker.py:171 | the header-to-brace text joined with the body is one slice of the script, ending with `}` |
| Scanner.FunctionSource | tools/deobfuscate_worker.py:163-171 | "Could not find function" exactly when the header `function <name>(` does not occur; otherwise the failure is the brace search's or the balanced scanner's, or the source runs from the header's first occurrence through the end of the balanced region at the first `{` after it |
| Scanner.Step | tools/deobfuscate_worker.py:89-107 | one character moves the depth only outside strings, by one, at a delimiter; a string opens only at a quote and closes only at an unescaped copy of its own quote |
| Scanner.Run | tools/deobfuscate_worker.py:87-109 | text without delimiters leaves the depth as it was, and no text moves it by more than its length |
| ArrayElements.SkipSeparators | tools/deobfuscate_worker.py:213-214 | every skipped character is a separator, short of the final bracket, and the loop stops at the first one that is not |
| ArrayElements.SkipAt | tools/deobfuscate_worker.py:213-214 | the skipping loop stops where `SkipSeparators` says |
| ArrayElements.StringEnd | tools/deobfuscate_worker.py:220-230 | a string element's scan stops at a copy of its quote, or at the final bracket |
| ArrayElements.StringStopAt | tools/deobfuscate_worker.py:220-230 | the string scan with its escape flag stops where `StringEnd` says |
| ArrayElements.TokenEnd | tools/deobfuscate_worker.py:236-238 | an unquoted element runs over no `,` or `]` and stops at one, or at the final bracket |
| ArrayElements.TokenStopAt | tools/deobfuscate_worker.py:236-238 | the unquoted-element loop stops where `TokenEnd` says |
| ArrayElements.ElementAt | tools/deobfuscate_worker.py:217-240 | an element read at `k` spans `k` up to some later position within the literal; it can fail only by decoding or by not advancing |
| ArrayElements.QuotedPiece | tools/deobfuscate_worker.py:231-233 | a quoted element runs from its quote through the string scan's stop, which holds the same quote, and its value is that literal's decoded value |
| ArrayElements.BarePiece | tools/deobfuscate_worker.py:236-240 | an unquoted element runs over no `,` or `]`, ends at one of them or at the final bracket, and is its span stripped; it fails to advance exactly when it starts at `,` or `]` |
| ArrayElements.ReadElementAt | tools/deobfuscate_worker.py:217-240 | one pass of the loop body reads the element `ElementAt` describes |
| ArrayElements.ParseFrom | tools/deobfuscate_worker.py:209-242 | the loop from a cursor fails only with a decoding error or by not advancing |
| ArrayElements.Values | tools/deobfuscate_worker.py:232-239 | the list holds each element's value, in order |
| ArrayElements.ParseElements | tools/deobfuscate_worker.py:209-242 | the element loop, with its cursor and its list, builds `Elements(a)` |
| ArrayElements.Advance | tools/deobfuscate_worker.py:209-242 | after one more element the list read so far plus the rest is still the whole result |
| ArrayElements.ValuesAppend | tools/deobfuscate_worker.py:232-239 | appending an element appends its value |
| ArrayElements.StringEndIsBodyEnd | tools/deobfuscate_worker.py:220-230 | the text a string element's scan passes over is a well-formed string body, the same notion the balanced scanner uses |
| ArrayElements.UnterminatedLiteral | tools/deobfuscate_worker.py:231-232 | a string cut off at the final bracket is rejected as not a string literal |
| ArrayElements.QuotedPieceFits | tools/deobfuscate_worker.py:218-233 | a quoted element that decodes ends at its own closing quote, before the final bracket |
| ArrayElements.BarePieceFits | tools/deobfuscate_worker.py:234-240 | an unquoted element in a successful parse is followed by a comma or by the final bracket |
| ArrayElements.BracketStops | tools/deobfuscate_worker.py:234-240 | a `]` before the final character is where the loop stops advancing |
| ArrayElements.ElementFits | tools/deobfuscate_worker.py:217-240 | every element of a successful parse lies where `PieceFits` says |
| ArrayElements.ParseFromLayout | tools/deobfuscate_worker.py:209-242 | a successful loop lays out the rest of the literal as separators and elements, in order |
| ArrayElements.NestedArrayStalls | tools/deobfuscate_worker.py:234-240 | on `[[1],2]` the loop stops advancing at the inner `]` |
| ArrayElements.BalancedArrayIsArrayLiteral | tools/deobfuscate_worker.py:206 | what the balanced scanner cuts out between `[` and `]` has the shape the element loop expects |
| ArrayElements.Elements | tools/deobfuscate_worker.py:209-242 | the list fails exactly when the loop does, with its error; otherwise it holds one value per element read, in order, and on an array literal those elements lie in source order, quoted ones decoded and others stripped, with only separators between them |
| ArrayElements.StringArray | tools/deobfuscate_worker.py:198-242 | the failure is the function locator's, or the balanced scanner's at `arrayStart`, or the element loop's; on success the literal is an array literal, and the list holds its elements in source order (quoted ones decoded, others stripped) with only separators between them |
| ArrayElements.ExtractStringArray | tools/deobfuscate_worker.py:198-242 | the function source, the balanced array literal in it and that literal's elements, with each step's failure |
| Aliases.CollectAliases | tools/deobfuscate_worker.py:255-264 | the result holds `Q`, is closed under "right is an alias, so left is one", names only `Q` or left-hand sides, and lies inside every such closed set: it is the least fixed point |
| Aliases.FewerOutside | tools/deobfuscate_worker.py:257-262 | a pass that adds a name leaves fewer names to add, so the loop ends |
| Aliases.ChainEndsInClosedSet | tools/deobfuscate_worker.py:257-262 | a name reached from `Q` by a chain of assignments lies in every closed set that holds `Q` |
| Aliases.ChainEndsClosed | tools/deobfuscate_worker.py:257-262 | the names reached by chains from `Q` form a closed set |
| Aliases.AliasesAreChainEnds | tools/deobfuscate_worker.py:255-264 | a name is an alias exactly when a chain of assignments leads to it from `Q` |
| Aliases.ThreeLinkChain | tools/deobfuscate_worker.py:246-264 | with `a = Q; b = a; c = b;` and an unrelated `d = e`, the aliases are exactly Q, a, b and c |
| Rotation.DecodeAt | tools/deobfuscate_worker.py:274-275 | `arr[num - offset]` succeeds exactly when the index lies in [-len, len); the value is then the element at that index modulo len; otherwise IndexError |
| Rotation.RotateLeft | tools/deobfuscate_worker.py:297 | one rotation keeps the length |
| Rotation.RotatedBy | tools/deobfuscate_worker.py:290-297 | any number of rotations keeps the length |
| Rotation.RotatedByPrefix | tools/deobfuscate_worker.py:297 | `k` rotations, for `k` up to a full turn, move the first `k` elements to the back |
| Rotation.RotatedByAdd | tools/deobfuscate_worker.py:290-297 | `a + b` rotations are `a` rotations followed by `b` more |
| Rotation.OneTurn | tools/deobfuscate_worker.py:297 | a whole turn of the table changes nothing |
| Rotation.FullTurns | tools/deobfuscate_worker.py:290-297 | any number of whole turns changes nothing |
| Rotation.TurnsModLength | tools/deobfuscate_worker.py:290-297 | only the number of rotations modulo the table's length matters |
| Rotation.RotatedByClosedForm | tools/deobfuscate_worker.py:290-297 | after `n` rotations the table is its suffix from `n mod len` followed by the prefix before it; it repeats with period len and keeps its elements as a multiset |
| Rotation.SplitKeepsMultiset | tools/deobfuscate_worker.py:297 | moving a prefix to the back keeps the elements |
| Rotation.MaxIter | tools/deobfuscate_worker.py:289 | the bound is the larger of 10000 and five times the table's length: at least both, and equal to one of them |
| Rotation.Search | tools/deobfuscate_worker.py:290-299 | the loop fails only at the pop of an empty table or when the bound runs out |
| Rotation.Rotations | tools/deobfuscate_worker.py:289-299 | the loop stops after the first turn whose table passes the check, below the bound; it fails at the pop only on an empty table that missed, and otherwise only by running out of turns |
| Rotation.SearchStep | tools/deobfuscate_worker.py:290-297 | a miss on a non-empty table moves on to the next turn |
| Rotation.SearchFindsFirstHit | tools/deobfuscate_worker.py:290-294 | a converged loop stops at the first turn whose table passes the check, within the bound |
| Rotation.SearchFailsOnlyOnMisses | tools/deobfuscate_worker.py:290-299 | an IndexError means an empty table that missed; on a non-empty table a failure means every turn up to the bound missed |
| Rotation.ConvergesIffSomeRotationHits | tools/deobfuscate_worker.py:289-299 | on a non-empty table the loop converges exactly when some rotation passes the check, and then in fewer turns than the table's length |
| Rotation.StringTable.constructor | tools/deobfuscate_worker.py:272 | the table starts as the extracted array |
| Rotation.StringTable.RotateOnce | tools/deobfuscate_worker.py:297 | `arr.append(arr.pop(0))` leaves the table rotated left by one |
| Rotation.StringTable.Converge | tools/deobfuscate_worker.py:289-299 | the loop returns the number of turns `Rotations` predicts, and leaves the table rotated by that many turns, or by the whole bound on failure |
| Rewrite.SegmentOut | tools/deobfuscate_worker.py:306-314 | text between calls and calls through other names are kept as written; an alias call fails exactly when its index lies outside the table, and is otherwise replaced by a quoted literal that decodes back to the element `decode` returns |
| Rewrite.Rewritten | tools/deobfuscate_worker.py:316 | the substitution can fail only with the IndexError of a lookup |
| Rewrite.RewriteCalls | tools/deobfuscate_worker.py:303-316 | the substitution with its cache gives `Rewritten`; every cache entry is what `decode` returns for its index; on success the cache holds exactly the indices the alias calls use |
| Rewrite.RewrittenStep | tools/deobfuscate_worker.py:306-316 | the substitution is the first segment's replacement followed by the rest's, and stops at the first failure |
| Rewrite.AliasNumbersStep | tools/deobfuscate_worker.py:311-313 | one more segment adds its index to the cache keys exactly when it is an alias call |
| Rewrite.RewriteFailsOnlyOnBadIndex | tools/deobfuscate_worker.py:306-316 | the substitution fails exactly when some alias call asks for an index outside the table |
| Rewrite.NoAliasCallsKeepsSource | tools/deobfuscate_worker.py:306-316 | a script with no call through an alias comes out unchanged |
| Outcomes.PrependTwice | tools/deobfuscate_worker.py:30-35 | two appends in a row are one append of both |
| JsLiteral.UnescapePlain | tools/deobfuscate_worker.py:34-37 | a character that is not a backslash is copied and the loop moves on one |
| JsLiteral.UnescapeEscape | tools/deobfuscate_worker.py:38-75 | an escape emits what `ReadEscape` gives and skips what it consumed, or fails with its error |
| JsLiteral.Pow16Monotone | tools/deobfuscate_worker.py:56 | fewer digits give a smaller bound, so a short `\u` escape is still a code point |
| JsLiteral.ReadEscape | tools/deobfuscate_worker.py:41-75 | an escape consumes no more than the body holds, and fails only as `int(..., 16)` or `chr` does |
| JsLiteral.Unescape | tools/deobfuscate_worker.py:32-77 | the body's value fails only as `int(..., 16)` or `chr` does |
| Text.Cps | tools/deobfuscate_worker.py:35 | a string's code points, one per character, in order |
| Text.FindInSuffix | tools/deobfuscate_worker.py:49 | searching a suffix finds the same occurrence, counted from where the suffix starts |
| Text.LeadingSpaces | tools/deobfuscate_worker.py:239 | the whitespace run at the start of a string |
| Text.TrimEnd | tools/deobfuscate_worker.py:239 | the string without its trailing whitespace |

## Left out

- Reading the input file (line 268), pretty-printing with `jsbeautifier` (lines 318-323) and writing the output (lines 325-328) are I/O and a foreign library. They are not part of this model.
- `_strip_exports`, `_extract_bootstrap` and `_extract_q_offset` are not part of this model. The bootstrap's target and the decoder's `offset` are parameters.
- Python's `eval` of the bootstrap expression is left out, and so are `parse_int`, `Fraction` and the renaming of the alias to `decode` (lines 278-288). They are the parameter `eval`: a function from the current table to an optional value, where None stands for an evaluation that raised and was swallowed.
- Regular-expression matching is a parameter. That covers the `const <name> = [` search of `_extract_string_array` (its position is `arrayStart`), the assignments `assign_re` finds (a sequence of `Assignment`s) and the matches of `call_re` (the script is cut into `Segment`s).
- ArrayElements.StringArray: the "Could not locate array literal" failure (lines 203-204) belongs to that search and is not modelled.
- JsLiteral.Quote: `json.dumps` writes a lone surrogate as it is, while the model writes it as a `\uXXXX` escape, because a Dafny string cannot hold it. The decoded value is the same either way.
- Text.HexValue: Python's `int(s, 16)` also accepts a sign, surrounding whitespace, underscores between digits, a `0x` prefix and non-ASCII digits. The model accepts only ASCII hexadecimal digits and reports every other form as BadHexDigits. The escapes the obfuscator writes use plain digits.
- Scanner.BalancedRegion: `start` is a natural number. A negative `start`, which Python would read from the end of the text, is not modelled. The modelled callers never pass one: line 170 passes a `find` result already checked against -1, and line 206 passes the end of a regular-expression match minus one, which is at least 0. The unchecked `find` at line 183 belongs to `_extract_q_offset`, which is not part of this model.
- ArrayElements.ParseElements: when an element starts at a `]` before the final bracket, the loop stops advancing and never ends (for example on a nested array, see `NestedArrayStalls`). The model names that outcome NoProgress. The method requires that it does not happen, and `ParseFrom` reports it.
- Rotation.Hits: `k_val == target` compares a Python value with a `Fraction`. The model compares against a `real` target.
- Rotation.DecodeAt: the `decode` closure reads `arr` as it stands when it is called. The model passes the table as a value: the current table during the rotation loop, and the rotated table during substitution.
- JsLiteral.ReadEscape, JsLiteral.Unescape: their own contracts state only bounds and error kinds. The value of each escape is stated by the escape lemmas and by QuoteRoundTrip.
- Concurrency, the surrogate-pass output encoding and the `errors="ignore"` input decoding are left out as I/O.
