/** Character-level helpers shared by the scanners: code points, substring
    search (Python's str.find), hexadecimal digits (int(s, 16)) and
    whitespace stripping (str.strip()). */
module Text {
  import opened Outcomes

  /** A Python string character: any code point, surrogates included. */
  type CodePoint = c: int | 0 <= c < 0x11_0000

  /** The code point of a character. */
  function Cp(c: char): CodePoint
  {
    c as int
  }

  /** The code points of a Dafny string. */
  function Cps(s: string): (r: seq<CodePoint>)
    ensures |r| == |s|
    ensures forall i :: 0 <= i < |s| ==> r[i] == Cp(s[i])
  {
    if s == [] then [] else [Cp(s[0])] + Cps(s[1..])
  }

  predicate OccursAt(s: string, pat: string, k: int)
  {
    0 <= k && k + |pat| <= |s| && s[k..k + |pat|] == pat
  }

  /** s.find(pat, from): the first position at or after `from` where `pat` occurs. */
  function Find(s: string, pat: string, from: nat): (r: Option<nat>)
    ensures r.Some? ==> from <= r.value && OccursAt(s, pat, r.value)
    ensures forall k :: from <= k && (r.None? || k < r.value) ==> !OccursAt(s, pat, k)
    decreases |s| - from
  {
    if from + |pat| > |s| then None
    else if s[from..from + |pat|] == pat then Some(from)
    else Find(s, pat, from + 1)
  }

  /** Searching a suffix finds the same occurrence, counted from the suffix's start. */
  lemma {:induction false} FindInSuffix(s: string, pat: string, k: nat, from: nat)
    requires k <= |s|
    ensures Find(s, pat, k + from) ==
      match Find(s[k..], pat, from)
      case None => None
      case Some(j) => Some(k + j)
    decreases |s| - k - from
  {
    if from + |pat| <= |s| - k {
      assert s[k..][from..from + |pat|] == s[k + from..k + from + |pat|];
      FindInSuffix(s, pat, k, from + 1);
    }
  }

  predicate IsHexDigit(c: char)
  {
    '0' <= c <= '9' || 'a' <= c <= 'f' || 'A' <= c <= 'F'
  }

  function DigitValue(c: char): (d: nat)
    requires IsHexDigit(c)
    ensures d < 16
  {
    if '0' <= c <= '9' then c as int - '0' as int
    else if 'a' <= c <= 'f' then c as int - 'a' as int + 10
    else c as int - 'A' as int + 10
  }

  function Pow16(n: nat): (p: nat)
    ensures p >= 1
  {
    if n == 0 then 1 else 16 * Pow16(n - 1)
  }

  /** int(s, 16) for a run of hexadecimal digits; None where the digits are
      missing or one of them is not hexadecimal. */
  function HexValue(s: string): (r: Option<nat>)
    ensures r.Some? <==> |s| > 0 && forall i :: 0 <= i < |s| ==> IsHexDigit(s[i])
    ensures r.Some? ==> r.value < Pow16(|s|)
  {
    if |s| == 0 || !IsHexDigit(s[|s| - 1]) then None
    else if |s| == 1 then Some(DigitValue(s[0]))
    else match HexValue(s[..|s| - 1])
      case None => None
      case Some(v) => Some(16 * v + DigitValue(s[|s| - 1]))
  }

  function HexDigit(d: nat): (c: char)
    requires d < 16
    ensures IsHexDigit(c) && DigitValue(c) == d
  {
    if d < 10 then ('0' as int + d) as char else ('a' as int + d - 10) as char
  }

  /** Four lower-case hexadecimal digits, most significant first. */
  function Hex4(v: nat): (s: string)
    requires v < 0x1_0000
    ensures |s| == 4
  {
    [HexDigit(v / 16 / 16 / 16), HexDigit(v / 16 / 16 % 16), HexDigit(v / 16 % 16), HexDigit(v % 16)]
  }

  lemma Hex4RoundTrip(v: nat)
    requires v < 0x1_0000
    ensures HexValue(Hex4(v)) == Some(v)
  {
    var s := Hex4(v);
    var w := v / 16;
    var u := w / 16;
    var t := u / 16;
    assert s[..3][..2][..1] == [HexDigit(t)];
    assert HexValue(s[..3][..2]) == Some(16 * t + u % 16) == Some(u);
    assert HexValue(s[..3]) == Some(16 * u + w % 16) == Some(w);
    assert HexValue(s) == Some(16 * w + v % 16);
  }

  /** Python's str.isspace(): the characters str.strip() removes. */
  predicate IsSpace(c: char)
  {
    var n := c as int;
    n == 0x20 || 0x09 <= n <= 0x0d || 0x1c <= n <= 0x1f || n == 0x85 || n == 0xa0
    || n == 0x1680 || 0x2000 <= n <= 0x200a || n == 0x2028 || n == 0x2029
    || n == 0x202f || n == 0x205f || n == 0x3000
  }

  /** The number of whitespace characters at the start of s. */
  function LeadingSpaces(s: string): (n: nat)
    ensures n <= |s|
    ensures forall i :: 0 <= i < n ==> IsSpace(s[i])
    ensures n < |s| ==> !IsSpace(s[n])
  {
    if s != [] && IsSpace(s[0]) then 1 + LeadingSpaces(s[1..]) else 0
  }

  function TrimEnd(s: string): (r: string)
    ensures |r| <= |s| && r == s[..|r|]
    ensures r != [] ==> !IsSpace(r[|r| - 1])
    ensures forall i :: |r| <= i < |s| ==> IsSpace(s[i])
  {
    if s != [] && IsSpace(s[|s| - 1]) then TrimEnd(s[..|s| - 1]) else s
  }

  /** s.strip(): the part of s between its leading and its trailing whitespace. */
  function Strip(s: string): (r: string)
    ensures LeadingSpaces(s) + |r| <= |s|
    ensures r == s[LeadingSpaces(s)..LeadingSpaces(s) + |r|]
    ensures forall i :: LeadingSpaces(s) + |r| <= i < |s| ==> IsSpace(s[i])
    ensures r != [] ==> !IsSpace(r[0]) && !IsSpace(r[|r| - 1])
  {
    TrimEnd(s[LeadingSpaces(s)..])
  }
}
