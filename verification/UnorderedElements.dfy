/** The matcher for containers in any order: it builds the matrix of which matcher accepts which element,
    and asks for a pairing. */
module UnorderedElements {
  import opened Matching

  /** Distinct elements for all matchers, with none left over: the container is a permutation of a
      sequence that the matchers accept one by one. */
  ghost predicate IsArrangement<E(!new)>(elements: seq<E>, matchers: seq<E -> bool>, a: seq<int>) {
    && |a| == |matchers| == |elements|
    && (forall r :: 0 <= r < |a| ==> 0 <= a[r] < |elements| && matchers[r](elements[a[r]]))
    && (forall r, s :: 0 <= r < s < |a| ==> a[r] != a[s])
  }

  // ----- The matrix -----

  /** What each matcher says of one element. */
  function Row<E>(e: E, matchers: seq<E -> bool>): (row: seq<bool>)
    ensures |row| == |matchers|
  {
    seq(|matchers|, r requires 0 <= r < |matchers| => matchers[r](e))
  }

  /** The answers for all elements, one row after the other. */
  function Flat<E>(elements: seq<E>, matchers: seq<E -> bool>): (s: seq<bool>)
    ensures |s| == |elements| * |matchers|
  {
    if |elements| == 0 then []
    else
      var n := |elements| - 1;
      assert |elements| * |matchers| == n * |matchers| + |matchers|;
      Flat(elements[..n], matchers) + Row(elements[n], matchers)
  }

  lemma {:induction false} FlatAt<E>(elements: seq<E>, matchers: seq<E -> bool>, l: nat, r: nat)
    requires l < |elements| && r < |matchers|
    ensures l * |matchers| + r < |elements| * |matchers|
    ensures Flat(elements, matchers)[l * |matchers| + r] == matchers[r](elements[l])
  {
    var n := |elements| - 1;
    SpaceIndexBound(l, r, |elements|, |matchers|);
    if l < n {
      FlatAt(elements[..n], matchers, l, r);
      assert elements[..n][l] == elements[l];
    } else {
      assert Flat(elements, matchers) == Flat(elements[..n], matchers) + Row(elements[n], matchers);
    }
  }

  /** The first loop: ask every matcher about every element. */
  method AskAll<E>(elements: seq<E>, matchers: seq<E -> bool>) returns (didMatch: seq<bool>)
    ensures didMatch == Flat(elements, matchers)
  {
    didMatch := [];
    var n := 0;
    while n < |elements|
      invariant 0 <= n <= |elements| && didMatch == Flat(elements[..n], matchers)
    {
      ghost var before := didMatch;
      var r := 0;
      while r < |matchers|
        invariant 0 <= r <= |matchers| && didMatch == before + Row(elements[n], matchers)[..r]
      {
        didMatch := didMatch + [matchers[r](elements[n])];
        r := r + 1;
      }
      assert elements[..n + 1][..n] == elements[..n];
      n := n + 1;
    }
    assert elements[..n] == elements;
  }

  /** Entry (l, r) has been set before (l', r'). */
  predicate Earlier(l: nat, r: nat, l': nat, r': nat) { l < l' || (l == l' && r < r') }

  /** The entries set so far are the answers, the others are still unset. */
  ghost predicate SetUpTo<E(!new)>(g: MatchMatrix, elements: seq<E>, matchers: seq<E -> bool>, l': nat, r': nat) {
    && g.Valid() && g.lhsSize == |elements| && g.rhsSize == |matchers|
    && forall l: nat, r: nat :: l < |elements| && r < |matchers| ==>
         g.HasEdge(l, r) == (Earlier(l, r, l', r') && matchers[r](elements[l]))
  }

  /** The matrix says of each element and matcher whether the matcher accepts the element. */
  method AnalyzeElements<E(!new)>(elements: seq<E>, matchers: seq<E -> bool>) returns (g: MatchMatrix)
    ensures g.Valid() && g.lhsSize == |elements| && g.rhsSize == |matchers|
    ensures forall l: nat, r: nat :: l < |elements| && r < |matchers| ==> g.HasEdge(l, r) == matchers[r](elements[l])
  {
    var didMatch := AskAll(elements, matchers);
    g := NoEdges(|elements|, |matchers|);
    var next, l := 0, 0;
    while l < |elements|
      invariant 0 <= l <= |elements| && next == l * |matchers| && SetUpTo(g, elements, matchers, l, 0)
    {
      var r := 0;
      while r < |matchers|
        invariant 0 <= r <= |matchers| && next == l * |matchers| + r && SetUpTo(g, elements, matchers, l, r)
      {
        FlatAt(elements, matchers, l, r);
        g := g.SetEdge(l, r, didMatch[next]);
        next, r := next + 1, r + 1;
      }
      l := l + 1;
    }
  }

  // ----- The quick check -----

  ghost predicate RowHit(g: MatchMatrix, l: nat, upto: nat)
    requires g.Valid() && l < g.lhsSize && upto <= g.rhsSize
  {
    exists r: nat :: r < upto && g.HasEdge(l, r)
  }

  ghost predicate ColumnHit(g: MatchMatrix, r: nat, upto: nat)
    requires g.Valid() && r < g.rhsSize && upto <= g.lhsSize
  {
    exists l: nat :: l < upto && g.HasEdge(l, r)
  }

  /** The loop that looks for an unset flag. */
  method AllSet(flags: seq<bool>) returns (result: bool)
    ensures result <==> forall i :: 0 <= i < |flags| ==> flags[i]
  {
    result := true;
    for i := 0 to |flags|
      invariant result <==> forall k :: 0 <= k < i ==> flags[k]
    {
      if !flags[i] {
        result := false;
      }
    }
  }

  /** Whether every element has a matcher and every matcher an element. */
  method VerifyAllMatched(g: MatchMatrix) returns (result: bool)
    requires g.Valid()
    ensures result <==> && (forall l: nat :: l < g.lhsSize ==> RowHit(g, l, g.rhsSize))
                        && (forall r: nat :: r < g.rhsSize ==> ColumnHit(g, r, g.lhsSize))
  {
    var elementMatched, matcherMatched := seq(g.lhsSize, _ => false), seq(g.rhsSize, _ => false);
    var l := 0;
    while l < g.lhsSize
      invariant 0 <= l <= g.lhsSize == |elementMatched| && |matcherMatched| == g.rhsSize
      invariant forall k: nat :: k < l ==> elementMatched[k] == RowHit(g, k, g.rhsSize)
      invariant forall k: nat :: l <= k < g.lhsSize ==> !elementMatched[k]
      invariant forall k: nat :: k < g.rhsSize ==> matcherMatched[k] == ColumnHit(g, k, l)
    {
      var r := 0;
      while r < g.rhsSize
        invariant 0 <= r <= g.rhsSize == |matcherMatched| && |elementMatched| == g.lhsSize
        invariant forall k: nat :: k < l ==> elementMatched[k] == RowHit(g, k, g.rhsSize)
        invariant elementMatched[l] == RowHit(g, l, r)
        invariant forall k: nat :: l < k < g.lhsSize ==> !elementMatched[k]
        invariant forall k: nat :: k < g.rhsSize ==> matcherMatched[k] == ColumnHit(g, k, if k < r then l + 1 else l)
      {
        var matched := g.HasEdge(l, r);
        elementMatched := elementMatched[l := elementMatched[l] || matched];
        matcherMatched := matcherMatched[r := matcherMatched[r] || matched];
        r := r + 1;
      }
      l := l + 1;
    }
    var matchers := AllSet(matcherMatched);
    var elements := AllSet(elementMatched);
    result := matchers && elements;
  }

  // ----- The result -----

  /** An arrangement uses every element. */
  lemma {:induction false} ArrangementReaches<E(!new)>(elements: seq<E>, matchers: seq<E -> bool>, a: seq<int>, l: int)
    requires IsArrangement(elements, matchers, a) && 0 <= l < |elements|
    ensures l in a
  {
    if l !in a {
      var m := PairingEdges(a);
      InjectionBound(m, Indices(|elements|) - {l}, map e | e in m :: e.0);
    }
  }

  /** A container matches exactly when its elements can be arranged so that each matcher accepts its own. */
  method MatchAndExplain<E(!new)>(elements: seq<E>, matchers: seq<E -> bool>) returns (result: bool)
    ensures result <==> exists a :: IsArrangement(elements, matchers, a)
  {
    var g := AnalyzeElements(elements, matchers);
    if g.lhsSize == 0 && |matchers| == 0 {
      assert IsArrangement(elements, matchers, []);
      return true;
    }
    if g.lhsSize != |matchers| {
      return false;
    }
    var all := VerifyAllMatched(g);
    result := false;
    if all {
      result := FindPairing(g);
    }
    assert forall a :: IsArrangement(elements, matchers, a) <==> IsPairing(g, a);
    forall a: seq<int> | IsArrangement(elements, matchers, a) ensures all {
      forall l: nat | l < g.lhsSize ensures RowHit(g, l, g.rhsSize) {
        ArrangementReaches(elements, matchers, a, l);
        var r :| 0 <= r < |a| && a[r] == l;
        assert g.HasEdge(l, r);
      }
      forall r: nat | r < g.rhsSize ensures ColumnHit(g, r, g.lhsSize) {
        var l: int := a[r];
        assert g.HasEdge(l, r);
      }
    }
  }
}
