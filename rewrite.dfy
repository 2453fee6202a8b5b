/** `replace` and its cache: every call `<alias>(0x<hex>)` of the script is
    replaced by the JSON string literal of the table element it decodes to;
    calls through any other name are kept as written. */
module Rewrite {
  import opened Outcomes
  import opened Text
  import opened JsLiteral
  import opened Rotation

  /** The script cut at the matches of the call pattern: plain text between
      matches, and each matched call with its callee, its hexadecimal
      argument's value and its own source text. Finding the matches is left
      to a regular expression outside this model. */
  datatype Segment = Plain(text: string) | Call(name: string, num: nat, source: string)

  /** The script the segments were cut from. */
  function Source(segs: seq<Segment>): string
  {
    if segs == [] then ""
    else (if segs[0].Plain? then segs[0].text else segs[0].source) + Source(segs[1..])
  }

  predicate IsAliasCall(seg: Segment, aliases: set<string>)
  {
    seg.Call? && seg.name in aliases
  }

  /** What `replace` puts in place of one segment. */
  function SegmentOut(seg: Segment, aliases: set<string>, table: seq<Entry>, offset: int): (r: Result<string>)
    ensures seg.Plain? ==> r == Ok(seg.text)
    ensures seg.Call? && seg.name !in aliases ==> r == Ok(seg.source)
    ensures IsAliasCall(seg, aliases) ==>
      && (r.Err? <==> DecodeAt(table, offset, seg.num).Err?)
      && (r.Err? ==> r.error == IndexOutOfRange)
      && (r.Ok? ==> IsQuoted(r.value) && LiteralValue(r.value) == DecodeAt(table, offset, seg.num))
  {
    match seg
    case Plain(text) => Ok(text)
    case Call(name, num, source) =>
      if name !in aliases then Ok(source)
      else match DecodeAt(table, offset, num)
        case Err(e) => Err(e)
        case Ok(v) =>
          QuoteRoundTrip(v);
          Ok(Quote(v))
  }

  /** `call_re.sub(replace, src)`: the segments' replacements, joined; the
      first failing lookup, from the left, stops the substitution. */
  function Rewritten(segs: seq<Segment>, aliases: set<string>, table: seq<Entry>, offset: int): (r: Result<string>)
    ensures r.Err? ==> r.error == IndexOutOfRange
  {
    if segs == [] then Ok("")
    else match SegmentOut(segs[0], aliases, table, offset)
      case Err(e) => Err(e)
      case Ok(out) => Prepend(out, Rewritten(segs[1..], aliases, table, offset))
  }

  /** The table indices the alias calls among `segs` ask for. */
  function AliasNumbers(segs: seq<Segment>, aliases: set<string>): set<nat>
  {
    set k | 0 <= k < |segs| && IsAliasCall(segs[k], aliases) :: segs[k].num
  }

  /** The substitution with `replace`'s cache: each table index is decoded
      once, on its first call, and its element reused for later calls. On
      success the cache holds exactly the indices the alias calls use, each
      with its element. */
  method RewriteCalls(segs: seq<Segment>, aliases: set<string>, table: seq<Entry>, offset: int)
    returns (r: Result<string>, cache: map<nat, Entry>)
    ensures r == Rewritten(segs, aliases, table, offset)
    ensures forall n :: n in cache ==> DecodeAt(table, offset, n) == Ok(cache[n])
    ensures r.Ok? ==> cache.Keys == AliasNumbers(segs, aliases)
  {
    var out := "";
    cache := map[];
    for k := 0 to |segs|
      invariant Rewritten(segs, aliases, table, offset) == Prepend(out, Rewritten(segs[k..], aliases, table, offset))
      invariant forall n :: n in cache ==> DecodeAt(table, offset, n) == Ok(cache[n])
      invariant cache.Keys == AliasNumbers(segs[..k], aliases)
    {
      var seg := segs[k];
      var piece: string;
      if seg.Plain? {
        piece := seg.text;
      } else if seg.name !in aliases {
        piece := seg.source;
      } else {
        if seg.num !in cache {
          var decoded := DecodeAt(table, offset, seg.num);
          if decoded.Err? {
            assert SegmentOut(seg, aliases, table, offset) == Err(decoded.error);
            RewrittenStep(segs[k..], aliases, table, offset);
            return Err(decoded.error), cache;
          }
          cache := cache[seg.num := decoded.value];
        }
        piece := Quote(cache[seg.num]);
      }
      RewrittenStep(segs[k..], aliases, table, offset);
      assert segs[k..][1..] == segs[k + 1..];
      PrependTwice(out, piece, Rewritten(segs[k + 1..], aliases, table, offset));
      AliasNumbersStep(segs, k, aliases);
      out := out + piece;
    }
    assert segs[..|segs|] == segs;
    assert out + "" == out;
    r := Ok(out);
  }

  lemma RewrittenStep(segs: seq<Segment>, aliases: set<string>, table: seq<Entry>, offset: int)
    requires segs != []
    ensures SegmentOut(segs[0], aliases, table, offset).Err? ==>
      Rewritten(segs, aliases, table, offset) == Err(SegmentOut(segs[0], aliases, table, offset).error)
    ensures SegmentOut(segs[0], aliases, table, offset).Ok? ==>
      Rewritten(segs, aliases, table, offset)
      == Prepend(SegmentOut(segs[0], aliases, table, offset).value, Rewritten(segs[1..], aliases, table, offset))
  {
  }

  lemma AliasNumbersStep(segs: seq<Segment>, k: nat, aliases: set<string>)
    requires k < |segs|
    ensures AliasNumbers(segs[..k + 1], aliases)
         == AliasNumbers(segs[..k], aliases) + (if IsAliasCall(segs[k], aliases) then {segs[k].num} else {})
  {
    var before, after := segs[..k], segs[..k + 1];
    assert forall j :: 0 <= j < k ==> after[j] == before[j];
    assert after[k] == segs[k];
  }

  // ---------------------------------------------------------------------
  // What the substitution promises.

  /** The substitution fails exactly when some alias call asks for an index
      outside the table. */
  lemma {:induction false} RewriteFailsOnlyOnBadIndex(segs: seq<Segment>, aliases: set<string>, table: seq<Entry>, offset: int)
    ensures Rewritten(segs, aliases, table, offset).Err? <==>
      exists k :: 0 <= k < |segs| && IsAliasCall(segs[k], aliases) && DecodeAt(table, offset, segs[k].num).Err?
    decreases |segs|
  {
    if segs != [] {
      RewriteFailsOnlyOnBadIndex(segs[1..], aliases, table, offset);
      if exists k :: 1 <= k < |segs| && IsAliasCall(segs[k], aliases) && DecodeAt(table, offset, segs[k].num).Err? {
        var k :| 1 <= k < |segs| && IsAliasCall(segs[k], aliases) && DecodeAt(table, offset, segs[k].num).Err?;
        assert segs[1..][k - 1] == segs[k];
      }
      forall k | 0 <= k < |segs| - 1
        ensures segs[1..][k] == segs[k + 1]
      {
      }
    }
  }

  /** A script with no call through an alias comes out unchanged. */
  lemma {:induction false} NoAliasCallsKeepsSource(segs: seq<Segment>, aliases: set<string>, table: seq<Entry>, offset: int)
    requires forall k :: 0 <= k < |segs| ==> !IsAliasCall(segs[k], aliases)
    ensures Rewritten(segs, aliases, table, offset) == Ok(Source(segs))
    decreases |segs|
  {
    if segs != [] {
      assert !IsAliasCall(segs[0], aliases);
      assert forall k :: 0 <= k < |segs| - 1 ==> segs[1..][k] == segs[k + 1];
      NoAliasCallsKeepsSource(segs[1..], aliases, table, offset);
    }
  }
}
