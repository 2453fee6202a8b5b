/** Result types and the named failures of the modelled steps of the
    deobfuscator. Each error constructor stands for one exception those steps
    raise (or, for NoProgress, the one place where the element loop never
    finishes). */
module Outcomes {

  datatype Option<+T> = None | Some(value: T)

  datatype Error =
    | NotAStringLiteral       // ValueError: the text is not a quoted literal
    | BadHexDigits            // ValueError from int(..., 16) on an escape's digits
    | CodePointOutOfRange     // ValueError from chr() on a braced \u{...} escape
    | IndexOutOfRange         // IndexError: a position or decoder index outside the text or table
    | ExpectedOpen            // ValueError "Expected <open> at <start>"
    | UnbalancedBrackets      // ValueError "Unbalanced brackets"
    | FunctionNotFound        // RuntimeError "Could not find function ..."
    | BraceNotFound           // RuntimeError "Could not find opening brace ..."
    | NoProgress              // the element loop stops advancing and never ends
    | PopFromEmpty            // IndexError from list.pop(0) on an empty table
    | RotationDidNotConverge  // RuntimeError "Failed to rotate string table ..."

  datatype Result<+T> = Ok(value: T) | Err(error: Error)

  /** `p` put in front of a successful sequence result; a failure passes through. */
  function Prepend<T>(p: seq<T>, r: Result<seq<T>>): (pr: Result<seq<T>>)
    ensures r.Ok? ==> pr == Ok(p + r.value)
    ensures r.Err? ==> pr == r
    ensures p == [] ==> pr == r
  {
    if r.Ok? then (assert [] + r.value == r.value; Ok(p + r.value)) else r
  }

  lemma PrependTwice<T>(a: seq<T>, b: seq<T>, r: Result<seq<T>>)
    ensures Prepend(a, Prepend(b, r)) == Prepend(a + b, r)
  {
    if r.Ok? {
      assert a + (b + r.value) == (a + b) + r.value;
    }
  }
}
