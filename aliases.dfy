/** `_collect_aliases`: the names that stand for the decoder `Q`, found by
    closing the simple assignments `const|let|var <left> = <right>;` of the
    script under "right is an alias, so left is one too". */
module Aliases {

  /** One simple assignment `<left> = <right>;`, in the order the script
      holds them. Finding them in the text is left to a regular expression
      outside this model. */
  datatype Assignment = Assignment(left: string, right: string)

  const Decoder: string := "Q"

  /** Every assignment whose right-hand side is in `s` has its left-hand
      side in `s` too. */
  predicate Closed(edges: seq<Assignment>, s: set<string>)
  {
    forall e :: e in edges && e.right in s ==> e.left in s
  }

  function Lefts(edges: seq<Assignment>): (ls: set<string>)
    ensures forall e :: e in edges ==> e.left in ls
    ensures forall x :: x in ls ==> exists e :: e in edges && e.left == x
  {
    set e | e in edges :: e.left
  }

  /** The fixed-point loop of `_collect_aliases`: repeated passes over the
      assignments, each adding the left side of every assignment whose right
      side is already an alias, until a pass adds nothing. The result is the
      least set that holds `Q` and is closed under the assignments. */
  method CollectAliases(edges: seq<Assignment>) returns (aliases: set<string>)
    ensures Decoder in aliases && Closed(edges, aliases)
    ensures aliases <= {Decoder} + Lefts(edges)
    ensures forall t: set<string> :: Decoder in t && Closed(edges, t) ==> aliases <= t
  {
    ghost var universe := {Decoder} + Lefts(edges);
    aliases := {Decoder};
    var changed := true;
    while changed
      invariant Decoder in aliases && aliases <= universe
      invariant forall t: set<string> :: Decoder in t && Closed(edges, t) ==> aliases <= t
      invariant !changed ==> Closed(edges, aliases)
      decreases |universe - aliases| + (if changed then 1 else 0)
    {
      changed := false;
      ghost var before := aliases;
      for k := 0 to |edges|
        invariant Decoder in aliases && before <= aliases <= universe
        invariant forall t: set<string> :: Decoder in t && Closed(edges, t) ==> aliases <= t
        invariant changed ==> before < aliases
        invariant !changed ==> aliases == before
        invariant !changed ==> forall m :: 0 <= m < k && edges[m].right in aliases ==> edges[m].left in aliases
      {
        var e := edges[k];
        if e.right in aliases && e.left !in aliases {
          aliases := aliases + {e.left};
          changed := true;
        }
      }
      if changed {
        FewerOutside(universe, before, aliases);
      }
    }
  }

  lemma FewerOutside(u: set<string>, a: set<string>, b: set<string>)
    requires a < b <= u
    ensures |u - b| < |u - a|
  {
    var x :| x in b && x !in a;
    assert u - a == (u - b) + (b - a);
    assert (u - b) * (b - a) == {};
    assert x in b - a;
  }

  // ---------------------------------------------------------------------
  // The same set, described by chains of assignments.

  /** `chain` runs from `Q` through assignments: each name after the first is
      assigned from the one before it. */
  predicate IsChain(edges: seq<Assignment>, chain: seq<string>)
  {
    && |chain| >= 1 && chain[0] == Decoder
    && forall k :: 0 <= k < |chain| - 1 ==> Assignment(chain[k + 1], chain[k]) in edges
  }

  /** Every name at the end of a chain of assignments from `Q` lies in any
      closed set that holds `Q`, so it is an alias. */
  lemma {:induction false} ChainEndsInClosedSet(edges: seq<Assignment>, chain: seq<string>, s: set<string>)
    requires IsChain(edges, chain) && Decoder in s && Closed(edges, s)
    ensures chain[|chain| - 1] in s
    decreases |chain|
  {
    if |chain| > 1 {
      var prefix := chain[..|chain| - 1];
      assert IsChain(edges, prefix) by {
        forall k | 0 <= k < |prefix| - 1
          ensures Assignment(prefix[k + 1], prefix[k]) in edges
        {
          assert prefix[k + 1] == chain[k + 1] && prefix[k] == chain[k];
        }
      }
      ChainEndsInClosedSet(edges, prefix, s);
      var e := Assignment(chain[|chain| - 1], chain[|chain| - 2]);
      assert e in edges && e.right in s;
    }
  }

  /** The set of names that end a chain from `Q` is closed. */
  lemma ChainEndsClosed(edges: seq<Assignment>, ends: set<string>)
    requires forall x :: x in ends <==> x in {Decoder} + Lefts(edges) && exists c :: IsChain(edges, c) && c[|c| - 1] == x
    ensures Decoder in ends && Closed(edges, ends)
  {
    assert IsChain(edges, [Decoder]);
    forall e | e in edges && e.right in ends
      ensures e.left in ends
    {
      var c :| IsChain(edges, c) && c[|c| - 1] == e.right;
      var longer := c + [e.left];
      assert IsChain(edges, longer) by {
        forall k | 0 <= k < |longer| - 1
          ensures Assignment(longer[k + 1], longer[k]) in edges
        {
          if k < |c| - 1 {
            assert longer[k + 1] == c[k + 1] && longer[k] == c[k];
          } else {
            assert Assignment(longer[k + 1], longer[k]) == e;
          }
        }
      }
    }
  }

  /** The aliases are exactly the names reached from `Q` by a chain of
      assignments. */
  lemma AliasesAreChainEnds(edges: seq<Assignment>, aliases: set<string>)
    requires Decoder in aliases && Closed(edges, aliases)
    requires forall t: set<string> :: Decoder in t && Closed(edges, t) ==> aliases <= t
    ensures forall x :: x in aliases <==> exists c :: IsChain(edges, c) && c[|c| - 1] == x
  {
    var ends := set x | x in {Decoder} + Lefts(edges) && exists c :: IsChain(edges, c) && c[|c| - 1] == x;
    ChainEndsClosed(edges, ends);
    forall x | exists c :: IsChain(edges, c) && c[|c| - 1] == x
      ensures x in aliases
    {
      var c :| IsChain(edges, c) && c[|c| - 1] == x;
      ChainEndsInClosedSet(edges, c, aliases);
    }
  }

  /** With `const a = Q; let b = a; var c = b;` and an unrelated `d = e`,
      the aliases are exactly Q, a, b and c. */
  lemma ThreeLinkChain(aliases: set<string>)
    requires var edges := [Assignment("a", "Q"), Assignment("b", "a"), Assignment("c", "b"), Assignment("d", "e")];
      && Decoder in aliases && Closed(edges, aliases)
      && forall t: set<string> :: Decoder in t && Closed(edges, t) ==> aliases <= t
    ensures aliases == {"Q", "a", "b", "c"}
  {
    var edges := [Assignment("a", "Q"), Assignment("b", "a"), Assignment("c", "b"), Assignment("d", "e")];
    assert Closed(edges, {"Q", "a", "b", "c"}) by {
      forall e | e in edges && e.right in {"Q", "a", "b", "c"}
        ensures e.left in {"Q", "a", "b", "c"}
      {
      }
    }
    assert edges[0] in edges && edges[1] in edges && edges[2] in edges;
  }
}
