/** The rotated string table: `decode(num)` looks up `arr[num - offset]`, and
    the bootstrap loop rotates `arr` left one place at a time until the
    bootstrap expression, evaluated against the table, equals its target. */
module Rotation {
  import opened Outcomes
  import opened Text

  /** One decoded element of the string table. */
  type Entry = seq<CodePoint>

  /** `decode(num)`: the table element at `num - offset`, where a negative
      index counts from the end of the table and any other index outside it
      is an error. */
  function DecodeAt(t: seq<Entry>, offset: int, num: int): (r: Result<Entry>)
    ensures r.Ok? <==> -|t| <= num - offset < |t|
    ensures r.Err? ==> r.error == IndexOutOfRange
    ensures r.Ok? ==> r.value == t[(num - offset) % |t|]
  {
    var index := num - offset;
    if 0 <= index < |t| then Ok(t[index])
    else if -|t| <= index < 0 then Ok(t[|t| + index])
    else Err(IndexOutOfRange)
  }

  /** `arr.append(arr.pop(0))`, on a table that is not empty. */
  function RotateLeft<T>(t: seq<T>): (r: seq<T>)
    ensures |r| == |t|
  {
    if t == [] then [] else t[1..] + [t[0]]
  }

  /** The table after `n` rotations. */
  function RotatedBy<T>(t: seq<T>, n: nat): (r: seq<T>)
    ensures |r| == |t|
  {
    if n == 0 then t else RotateLeft(RotatedBy(t, n - 1))
  }

  /** Up to a full turn, `k` rotations move the first `k` elements to the
      back. */
  lemma {:induction false} RotatedByPrefix<T>(t: seq<T>, k: nat)
    requires k <= |t|
    ensures RotatedBy(t, k) == t[k..] + t[..k]
    decreases k
  {
    if k == 0 {
      assert t[0..] + t[..0] == t;
    } else {
      RotatedByPrefix(t, k - 1);
      var s := t[k - 1..] + t[..k - 1];
      assert s[0] == t[k - 1] && s[1..] == t[k..] + t[..k - 1];
      assert t[..k - 1] + [t[k - 1]] == t[..k];
    }
  }

  lemma {:induction false} RotatedByAdd<T>(t: seq<T>, a: nat, b: nat)
    ensures RotatedBy(t, a + b) == RotatedBy(RotatedBy(t, a), b)
    decreases b
  {
    if b > 0 {
      RotatedByAdd(t, a, b - 1);
    }
  }

  /** A whole turn of the table changes nothing. */
  lemma OneTurn<T>(t: seq<T>, m: nat)
    ensures RotatedBy(t, |t| + m) == RotatedBy(t, m)
  {
    RotatedByAdd(t, |t|, m);
    RotatedByPrefix(t, |t|);
    assert t[|t|..] + t[..|t|] == t;
  }

  /** Whole turns of the table change nothing. */
  lemma {:induction false} FullTurns<T>(t: seq<T>, q: nat, r: nat, n: nat)
    requires n == q * |t| + r
    ensures RotatedBy(t, n) == RotatedBy(t, r)
    decreases q
  {
    if q > 0 {
      var m: nat := n - |t|;
      assert m == (q - 1) * |t| + r by {
        OneLess(q, |t|);
      }
      FullTurns(t, q - 1, r, m);
      OneTurn(t, m);
    }
  }

  /** Only the number of rotations modulo the length matters. */
  lemma TurnsModLength<T>(t: seq<T>, n: nat)
    requires t != []
    ensures RotatedBy(t, n) == RotatedBy(t, n % |t|)
  {
    FullTurns(t, n / |t|, n % |t|, n);
  }

  lemma OneLess(q: nat, len: nat)
    requires q > 0
    ensures q * len == len + (q - 1) * len
  {
  }

  /** After `n` rotations the table is its own suffix from `n mod len`
      followed by the prefix before it; in particular the tables repeat with
      period len and keep their elements. */
  lemma RotatedByClosedForm<T>(t: seq<T>, n: nat)
    requires t != []
    ensures RotatedBy(t, n) == t[n % |t|..] + t[..n % |t|]
    ensures RotatedBy(t, n) == RotatedBy(t, n % |t|)
    ensures multiset(RotatedBy(t, n)) == multiset(t)
  {
    var k: nat := n % |t|;
    TurnsModLength(t, n);
    RotatedByPrefix(t, k);
    SplitKeepsMultiset(t, k);
  }

  lemma SplitKeepsMultiset<T>(t: seq<T>, k: nat)
    requires k <= |t|
    ensures multiset(t[k..] + t[..k]) == multiset(t)
  {
    assert t == t[..k] + t[k..];
  }

  // ---------------------------------------------------------------------
  // The bootstrap loop.

  /** The loop bound: `max(10000, 5 * len(arr))`. */
  function MaxIter(size: nat): (limit: nat)
    ensures limit >= 10000 && limit >= 5 * size
    ensures limit == 10000 || limit == 5 * size
  {
    if 10000 >= 5 * size then 10000 else 5 * size
  }

  /** The check the loop makes on a table: the bootstrap expression,
      evaluated against it, returned exactly the target. `eval` stands for
      Python's `eval` of that expression; it gives None where the
      evaluation raised, which the loop swallows. */
  predicate Hits(eval: seq<Entry> -> Option<real>, target: real, t: seq<Entry>)
  {
    eval(t) == Some(target)
  }

  /** The loop from its `done`-th turn: the number of rotations it stops
      after, or why it fails. An empty table that misses fails at the pop. */
  function Search(t: seq<Entry>, eval: seq<Entry> -> Option<real>, target: real, done: nat, limit: nat): (r: Result<nat>)
    ensures r.Err? ==> r.error == PopFromEmpty || r.error == RotationDidNotConverge
    decreases limit - done
  {
    if done >= limit then Err(RotationDidNotConverge)
    else if Hits(eval, target, RotatedBy(t, done)) then Ok(done)
    else if t == [] then Err(PopFromEmpty)
    else Search(t, eval, target, done + 1, limit)
  }

  /** The number of rotations the bootstrap loop makes on table `t`. */
  function Rotations(t: seq<Entry>, eval: seq<Entry> -> Option<real>, target: real): (r: Result<nat>)
    ensures r.Err? ==> r.error == PopFromEmpty || r.error == RotationDidNotConverge
    ensures r == Err(PopFromEmpty) ==> t == [] && !Hits(eval, target, t)
    ensures r.Ok? ==>
      && r.value < MaxIter(|t|) && Hits(eval, target, RotatedBy(t, r.value))
      && forall m :: 0 <= m < r.value ==> !Hits(eval, target, RotatedBy(t, m))
  {
    var r := Search(t, eval, target, 0, MaxIter(|t|));
    if r.Ok? then
      SearchFindsFirstHit(t, eval, target, 0, MaxIter(|t|));
      r
    else
      SearchFailsOnlyOnMisses(t, eval, target, 0, MaxIter(|t|));
      r
  }

  lemma SearchStep(t: seq<Entry>, eval: seq<Entry> -> Option<real>, target: real, done: nat, limit: nat)
    requires done < limit && !Hits(eval, target, RotatedBy(t, done)) && t != []
    ensures Search(t, eval, target, done, limit) == Search(t, eval, target, done + 1, limit)
  {
  }

  /** When Search succeeds it names the first turn whose table hits. */
  lemma {:induction false} SearchFindsFirstHit(t: seq<Entry>, eval: seq<Entry> -> Option<real>, target: real, done: nat, limit: nat)
    requires Search(t, eval, target, done, limit).Ok?
    ensures var n := Search(t, eval, target, done, limit).value;
      done <= n < limit && Hits(eval, target, RotatedBy(t, n))
      && forall m :: done <= m < n ==> !Hits(eval, target, RotatedBy(t, m))
    decreases limit - done
  {
    if !Hits(eval, target, RotatedBy(t, done)) {
      SearchStep(t, eval, target, done, limit);
      SearchFindsFirstHit(t, eval, target, done + 1, limit);
    }
  }

  /** When Search fails on a non-empty table, no turn up to the bound hits. */
  lemma {:induction false} SearchFailsOnlyOnMisses(t: seq<Entry>, eval: seq<Entry> -> Option<real>, target: real, done: nat, limit: nat)
    requires Search(t, eval, target, done, limit).Err?
    ensures Search(t, eval, target, done, limit).error == PopFromEmpty ==>
      t == [] && done < limit && !Hits(eval, target, t)
    ensures t != [] ==> forall m :: done <= m < limit ==> !Hits(eval, target, RotatedBy(t, m))
    decreases limit - done
  {
    if done < limit && !Hits(eval, target, RotatedBy(t, done)) && t != [] {
      SearchStep(t, eval, target, done, limit);
      SearchFailsOnlyOnMisses(t, eval, target, done + 1, limit);
    }
  }

  /** On a non-empty table the loop converges exactly when some rotation of
      the table passes the check, and it never turns the table a full
      circle: the bound max(10000, 5 * len) is always enough. */
  lemma ConvergesIffSomeRotationHits(t: seq<Entry>, eval: seq<Entry> -> Option<real>, target: real)
    requires t != []
    ensures Rotations(t, eval, target).Ok? <==> exists m :: 0 <= m < |t| && Hits(eval, target, RotatedBy(t, m))
    ensures Rotations(t, eval, target).Ok? ==> Rotations(t, eval, target).value < |t|
  {
    var limit := MaxIter(|t|);
    match Search(t, eval, target, 0, limit)
    case Ok(n) =>
      SearchFindsFirstHit(t, eval, target, 0, limit);
      RotatedByClosedForm(t, n);
      assert Hits(eval, target, RotatedBy(t, n % |t|));
    case Err(e) =>
      SearchFailsOnlyOnMisses(t, eval, target, 0, limit);
  }

  /** The string table the decoder reads, and the bootstrap loop that
      rotates it in place. */
  class StringTable {
    var items: seq<Entry>

    constructor (elements: seq<Entry>)
      ensures items == elements
    {
      items := elements;
    }

    /** `arr.append(arr.pop(0))`. */
    method RotateOnce()
      requires items != []
      modifies this
      ensures items == RotateLeft(old(items))
    {
      var first := items[0];
      items := items[1..];
      items := items + [first];
    }

    /** The bootstrap loop: up to MaxIter turns, each evaluating the check
      on the current table and rotating it once when the check misses. */
    method Converge(eval: seq<Entry> -> Option<real>, target: real) returns (r: Result<nat>)
      modifies this
      ensures r == Rotations(old(items), eval, target)
      ensures items == RotatedBy(old(items), if r.Ok? then r.value else MaxIter(|old(items)|))
    {
      ghost var start := items;
      var maxIter := MaxIter(|items|);
      var n := 0;
      while n < maxIter
        invariant n <= maxIter == MaxIter(|start|)
        invariant items == RotatedBy(start, n)
        invariant Rotations(start, eval, target) == Search(start, eval, target, n, maxIter)
      {
        if eval(items) == Some(target) {
          return Ok(n);
        }
        if items == [] {
          return Err(PopFromEmpty);
        }
        SearchStep(start, eval, target, n, maxIter);
        RotateOnce();
        n := n + 1;
      }
      return Err(RotationDidNotConverge);
    }
  }
}
