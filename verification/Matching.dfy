/** Maximum bipartite matching between elements (left) and matchers (right).

    The search keeps two tables that refer to each other, `left` and `right`, and
    augments the matching by a depth-first search under a `seen` mask.  The main results:
    one pass over the left nodes finds a matching of maximum cardinality, because every
    failed search leaves behind a closed set of right nodes that no later augmentation can
    enter, and the closed sets yield a vertex cover of the size of the matching. */
module Matching {

  const UNUSED: int := -1

  /** A graph stored as a flattened element-major matrix. */
  datatype MatchMatrix = MatchMatrix(lhsSize: nat, rhsSize: nat, matched: seq<bool>) {
    predicate Valid() {
      |matched| == lhsSize * rhsSize
    }

    function SpaceIndex(ilhs: nat, irhs: nat): (i: nat)
      requires Valid() && ilhs < lhsSize && irhs < rhsSize
      ensures i < |matched|
    {
      SpaceIndexBound(ilhs, irhs, lhsSize, rhsSize);
      ilhs * rhsSize + irhs
    }

    predicate HasEdge(ilhs: nat, irhs: nat)
      requires Valid() && ilhs < lhsSize && irhs < rhsSize
    {
      matched[SpaceIndex(ilhs, irhs)]
    }

    /** The matrix with one entry changed, and every other entry as it was. */
    function SetEdge(ilhs: nat, irhs: nat, b: bool): (g: MatchMatrix)
      requires Valid() && ilhs < lhsSize && irhs < rhsSize
      ensures g.Valid() && g.lhsSize == lhsSize && g.rhsSize == rhsSize
      ensures forall l: nat, r: nat :: l < lhsSize && r < rhsSize ==>
                g.HasEdge(l, r) == if l == ilhs && r == irhs then b else HasEdge(l, r)
    {
      var g := this.(matched := matched[SpaceIndex(ilhs, irhs) := b]);
      assert forall l: nat, r: nat :: l < lhsSize && r < rhsSize ==>
          g.HasEdge(l, r) == if l == ilhs && r == irhs then b else HasEdge(l, r) by {
        forall l: nat, r: nat | l < lhsSize && r < rhsSize
          ensures g.HasEdge(l, r) == if l == ilhs && r == irhs then b else HasEdge(l, r)
        {
          SlotsDistinct(l, r, ilhs, irhs, rhsSize);
        }
      }
      g
    }
  }

  /** The constructor: no edges. */
  function NoEdges(lhsSize: nat, rhsSize: nat): (g: MatchMatrix)
    ensures g.Valid() && g.lhsSize == lhsSize && g.rhsSize == rhsSize
    ensures forall l: nat, r: nat :: l < lhsSize && r < rhsSize ==> !g.HasEdge(l, r)
  {
    MatchMatrix(lhsSize, rhsSize, seq(lhsSize * rhsSize, _ => false))
  }

  lemma {:induction false} SlotsDistinct(l: nat, r: nat, l': nat, r': nat, rhs: nat)
    requires r < rhs && r' < rhs
    ensures l * rhs + r == l' * rhs + r' <==> l == l' && r == r'
  {
    if l < l' {
      assert (l + 1) * rhs <= l' * rhs;
    } else if l' < l {
      assert (l' + 1) * rhs <= l * rhs;
    }
  }

  /** The entries of an element stand side by side, in the order of the matchers. */
  lemma {:induction false} RowsSideBySide(g: MatchMatrix, l: nat, r: nat)
    requires g.Valid() && l < g.lhsSize && r < g.rhsSize
    ensures l * g.rhsSize + g.rhsSize <= |g.matched|
    ensures g.matched[l * g.rhsSize..l * g.rhsSize + g.rhsSize][r] == g.HasEdge(l, r)
  {
    SpaceIndexBound(l, g.rhsSize - 1, g.lhsSize, g.rhsSize);
  }

  lemma {:induction false} SpaceIndexBound(l: nat, r: nat, lhs: nat, rhs: nat)
    requires l < lhs && r < rhs
    ensures l * rhs + r < lhs * rhs
  {
    assert (l + 1) * rhs <= lhs * rhs;
  }

  /** Neighbours in the graph, with the range checks folded in. */
  predicate Edge(g: MatchMatrix, l: int, r: int)
    requires g.Valid()
  {
    0 <= l < g.lhsSize && 0 <= r < g.rhsSize && g.HasEdge(l, r)
  }

  // ----- Specification: matchings, vertex covers -----

  /** A set of edges no two of which share an end. */
  ghost predicate IsMatching(g: MatchMatrix, m: set<(int, int)>)
    requires g.Valid()
  {
    && (forall e :: e in m ==> Edge(g, e.0, e.1))
    && (forall e, f :: e in m && f in m && (e.0 == f.0 || e.1 == f.1) ==> e == f)
  }

  /** A set of left and right nodes that touches every edge. */
  ghost predicate IsVertexCover(g: MatchMatrix, lefts: set<int>, rights: set<int>)
    requires g.Valid()
  {
    forall l, r :: Edge(g, l, r) ==> l in lefts || r in rights
  }

  // ----- The two tables -----

  ghost predicate TablesInRange(g: MatchMatrix, left: seq<int>, right: seq<int>) {
    && |left| == g.lhsSize && |right| == g.rhsSize
    && (forall l :: 0 <= l < |left| ==> left[l] == UNUSED || 0 <= left[l] < |right|)
    && (forall r :: 0 <= r < |right| ==> right[r] == UNUSED || 0 <= right[r] < |left|)
  }

  /** Every used left slot lies on an edge and is referred back to. */
  ghost predicate LeftReferent(g: MatchMatrix, left: seq<int>, right: seq<int>)
    requires g.Valid() && TablesInRange(g, left, right)
  {
    forall l :: 0 <= l < |left| && left[l] != UNUSED ==> right[left[l]] == l && Edge(g, l, left[l])
  }

  /** Every used right slot is referred back to, `stale` perhaps excepted. */
  ghost predicate RightReferent(g: MatchMatrix, left: seq<int>, right: seq<int>, stale: int)
    requires TablesInRange(g, left, right)
  {
    forall r :: 0 <= r < |right| && right[r] != UNUSED && r != stale ==> left[right[r]] == r
  }

  /** The mutual-reference invariant: used slots point at each other along edges. */
  ghost predicate Mutual(g: MatchMatrix, left: seq<int>, right: seq<int>)
    requires g.Valid()
  {
    && TablesInRange(g, left, right)
    && LeftReferent(g, left, right)
    && RightReferent(g, left, right, UNUSED)
  }

  /** Used left nodes. */
  ghost function Used(left: seq<int>): set<int> {
    set l | 0 <= l < |left| && left[l] != UNUSED
  }

  /** All neighbours of left node `l` lie in `c`. */
  ghost predicate NeighboursIn(g: MatchMatrix, l: int, c: set<int>)
    requires g.Valid()
  {
    forall r :: Edge(g, l, r) ==> r in c
  }

  /** `c` holds matched right nodes only, and the partner of each has all its neighbours in `c`. */
  ghost predicate Closed(g: MatchMatrix, right: seq<int>, c: set<int>)
    requires g.Valid()
  {
    forall r :: r in c ==> 0 <= r < |right| && right[r] != UNUSED && NeighboursIn(g, right[r], c)
  }

  /** The nodes marked in the mask. */
  ghost function Marked(seen: seq<bool>): set<int> {
    set r | 0 <= r < |seen| && seen[r]
  }

  /** What a failed search from `l` leaves in the mask: every node it marked is matched, and the
      neighbours of those partners and of `l` are marked. */
  ghost predicate DeadEnd(g: MatchMatrix, right: seq<int>, before: seq<bool>, after: seq<bool>)
    requires g.Valid()
  {
    forall r :: r in Marked(after) && r !in Marked(before) ==>
      0 <= r < |right| && right[r] != UNUSED && NeighboursIn(g, right[r], Marked(after))
  }

  ghost predicate MaskGrows(before: seq<bool>, after: seq<bool>) {
    |before| == |after| && forall r :: 0 <= r < |before| && before[r] ==> after[r]
  }

  /** Number of right nodes still unmarked. */
  ghost function Unseen(seen: seq<bool>): nat {
    if |seen| == 0 then 0 else (if seen[|seen| - 1] then 0 else 1) + Unseen(seen[..|seen| - 1])
  }

  lemma {:induction false} UnseenShrinks(before: seq<bool>, after: seq<bool>)
    requires MaskGrows(before, after)
    ensures Unseen(after) <= Unseen(before)
    ensures before != after ==> Unseen(after) < Unseen(before)
    decreases |before|
  {
    var n := |before|;
    if n > 0 {
      UnseenShrinks(before[..n - 1], after[..n - 1]);
      if before[..n - 1] == after[..n - 1] && before[n - 1] == after[n - 1] {
        assert before == before[..n - 1] + [before[n - 1]];
        assert after == after[..n - 1] + [after[n - 1]];
      }
    }
  }

  /** What a successful search from `l` does to the tables. */
  ghost predicate Augmented(g: MatchMatrix, l: int, left: seq<int>, right: seq<int>,
                            left': seq<int>, right': seq<int>, seen: seq<bool>)
    requires g.Valid() && Mutual(g, left, right) && 0 <= l < |left| && |seen| == |right|
  {
    && TablesInRange(g, left', right')
    && LeftReferent(g, left', right')
    // only the slot that `l` used to own may be stale
    && RightReferent(g, left', right', left[l])
    && (left[l] != UNUSED ==> right'[left[l]] == l)
    // `l` is now used; no other left node changes between used and unused
    && left'[l] != UNUSED && left'[l] != left[l]
    && (forall k :: 0 <= k < |left| && k != l ==> (left'[k] == UNUSED <==> left[k] == UNUSED))
    // slots of right nodes marked before the search are untouched
    && (forall r :: 0 <= r < |right| && seen[r] ==>
          right'[r] == right[r] && (right[r] != UNUSED && right[r] != l ==> left'[right[r]] == r))
  }

  /** No closed set is entered by an augmentation. */
  ghost predicate Avoids(l: int, left': seq<int>, right: seq<int>, right': seq<int>, c: set<int>)
    requires 0 <= l < |left'| && |right| == |right'|
  {
    left'[l] !in c && forall r :: r in c && 0 <= r < |right| ==> right'[r] == right[r]
  }

  // ----- One step of the search, on values -----

  /** Linking `l` to a free right node. */
  lemma {:induction false} LinkFree(g: MatchMatrix, l: int, r: int, left: seq<int>, right: seq<int>, seen: seq<bool>,
                                    c: set<int>)
    requires g.Valid() && Mutual(g, left, right) && Edge(g, l, r) && |seen| == |right|
    requires left[l] != UNUSED ==> seen[left[l]]
    requires !seen[r] && right[r] == UNUSED && Closed(g, right, c)
    ensures Augmented(g, l, left, right, left[l := r], right[r := l], seen)
    ensures Avoids(l, left[l := r], right, right[r := l], c)
  {
  }

  /** Linking `l` to `r` after the former partner of `r` has been moved elsewhere. */
  lemma {:induction false} LinkThrough(g: MatchMatrix, l: int, r: int, left: seq<int>, right: seq<int>,
                    left1: seq<int>, right1: seq<int>, seen: seq<bool>, seen1: seq<bool>)
    requires g.Valid() && Mutual(g, left, right) && Edge(g, l, r)
    requires |seen| == |right| && MaskGrows(seen, seen1) && !seen[r] && seen1[r]
    requires left[l] != UNUSED ==> seen[left[l]]
    requires right[r] != UNUSED
    requires Augmented(g, right[r], left, right, left1, right1, seen1)
    ensures Augmented(g, l, left, right, left1[l := r], right1[r := l], seen)
  {
    var next := right[r];
    assert left[next] == r && next != l;
    assert left1[l] == left[l];
    assert right1[r] == next && left1[next] != r;
  }

  lemma {:induction false} NotNeighbours(g: MatchMatrix, l: int, r: int, c: set<int>)
    requires g.Valid() && Edge(g, l, r) && r !in c
    ensures !NeighboursIn(g, l, c)
  {
  }

  /** A path that ends outside a closed set never passes through it. */
  lemma {:induction false} AvoidsThrough(g: MatchMatrix, l: int, r: int, right: seq<int>,
                      left1: seq<int>, right1: seq<int>, c: set<int>)
    requires g.Valid() && Edge(g, l, r) && |right| == |right1| == g.rhsSize && |left1| == g.lhsSize
    requires Closed(g, right, c) && 0 <= right[r] < |left1|
    requires Avoids(right[r], left1, right, right1, c) && Edge(g, right[r], left1[right[r]])
    ensures Avoids(l, left1[l := r], right, right1[r := l], c)
  {
    NotNeighbours(g, right[r], left1[right[r]], c);
  }

  /** A successful search adds exactly its own left node to the used ones. */
  lemma {:induction false} AugmentedUsed(g: MatchMatrix, l: int, left: seq<int>, right: seq<int>,
                      left': seq<int>, right': seq<int>, seen: seq<bool>)
    requires g.Valid() && Mutual(g, left, right) && 0 <= l < |left| && |seen| == |right|
    requires Augmented(g, l, left, right, left', right', seen)
    ensures Used(left') == Used(left) + {l}
    ensures left[l] == UNUSED ==> |Used(left')| == |Used(left)| + 1
  {
    assert Used(left') == Used(left) + {l};
  }

  /** Marking a matched node whose partner turned out to be a dead end keeps the mask a dead end. */
  lemma {:induction false} DeadEndExtends(g: MatchMatrix, r: int, right: seq<int>, seen0: seq<bool>,
                       seen1: seq<bool>, seen2: seq<bool>, seen3: seq<bool>)
    requires g.Valid() && |seen0| == |right| && MaskGrows(seen0, seen1) && DeadEnd(g, right, seen0, seen1)
    requires 0 <= r < |right| && seen2 == seen1[r := true] && MaskGrows(seen2, seen3)
    requires right[r] != UNUSED && DeadEnd(g, right, seen2, seen3) && NeighboursIn(g, right[r], Marked(seen3))
    ensures DeadEnd(g, right, seen0, seen3)
  {
    assert Marked(seen1) <= Marked(seen3);
    forall k | k in Marked(seen3) && k !in Marked(seen0)
      ensures 0 <= k < |right| && right[k] != UNUSED && NeighboursIn(g, right[k], Marked(seen3))
    {
      if k in Marked(seen1) {
        assert NeighboursIn(g, right[k], Marked(seen1));
      } else if k != r {
        assert k !in Marked(seen2);
      }
    }
  }

  class MaxBipartiteMatchState {
    const graph: MatchMatrix
    var left: seq<int>
    var right: seq<int>

    ghost predicate Valid()
      reads this
    {
      graph.Valid() && Mutual(graph, left, right)
    }

    constructor (graph: MatchMatrix)
      requires graph.Valid()
      ensures Valid() && this.graph == graph
      ensures forall l :: 0 <= l < |left| ==> left[l] == UNUSED
    {
      this.graph := graph;
      left := seq(graph.lhsSize, _ => UNUSED);
      right := seq(graph.rhsSize, _ => UNUSED);
    }

    /** Depth-first search for an augmenting path from `ilhs`.  `closed` is any closed set of
        right nodes: the search can never leave through it. */
    method TryAugment(ilhs: nat, seen: array<bool>, ghost closed: set<int>) returns (found: bool)
      requires Valid() && ilhs < graph.lhsSize && seen.Length == graph.rhsSize
      requires left[ilhs] != UNUSED ==> seen[left[ilhs]]
      requires Closed(graph, right, closed)
      modifies this, seen
      ensures graph.Valid() && MaskGrows(old(seen[..]), seen[..])
      ensures !found ==> left == old(left) && right == old(right)
      ensures !found ==> DeadEnd(graph, right, old(seen[..]), seen[..]) && NeighboursIn(graph, ilhs, Marked(seen[..]))
      ensures found ==> Augmented(graph, ilhs, old(left), old(right), left, right, old(seen[..]))
      ensures found ==> Avoids(ilhs, left, old(right), right, closed)
      ensures found ==> !old(seen[..])[left[ilhs]]
      decreases Unseen(seen[..])
    {
      ghost var before := seen[..];
      var irhs := 0;
      while irhs < graph.rhsSize
        invariant 0 <= irhs <= graph.rhsSize
        invariant left == old(left) && right == old(right)
        invariant MaskGrows(before, seen[..])
        invariant forall r :: 0 <= r < irhs && Edge(graph, ilhs, r) ==> seen[r]
        invariant DeadEnd(graph, right, before, seen[..])
      {
        if seen[irhs] || !graph.HasEdge(ilhs, irhs) {
          irhs := irhs + 1;
          continue;
        }
        ghost var atEdge := seen[..];
        seen[irhs] := true;
        ghost var marked := seen[..];
        assert marked == atEdge[irhs := true];
        UnseenShrinks(before, marked);
        if right[irhs] == UNUSED {
          LinkFree(graph, ilhs, irhs, left, right, before, closed);
          left := left[ilhs := irhs];
          right := right[irhs := ilhs];
          return true;
        }
        found := TryAugment(right[irhs], seen, closed);
        if found {
          LinkThrough(graph, ilhs, irhs, old(left), old(right), left, right, before, marked);
          AvoidsThrough(graph, ilhs, irhs, old(right), left, right, closed);
          left := left[ilhs := irhs];
          right := right[irhs := ilhs];
          return;
        }
        DeadEndExtends(graph, irhs, right, before, atEdge, marked, seen[..]);
        irhs := irhs + 1;
      }
      return false;
    }

    /** Tries every left node once and reads off the edges of the matching. */
    method Compute() returns (result: seq<(int, int)>)
      requires Valid() && forall l :: 0 <= l < |left| ==> left[l] == UNUSED
      modifies this
      ensures Valid() && result == Pairs(left)
      ensures exists c :: Certifies(graph, left, right, c)
    {
      ghost var closed: set<int> := {};
      var ilhs := 0;
      while ilhs < graph.lhsSize
        invariant 0 <= ilhs <= graph.lhsSize
        invariant Valid()
        invariant forall l :: ilhs <= l < graph.lhsSize ==> left[l] == UNUSED
        invariant Closed(graph, right, closed)
        invariant forall l :: 0 <= l < ilhs && left[l] == UNUSED ==> NeighboursIn(graph, l, closed)
      {
        assert left[ilhs] == UNUSED;  // the check the source makes at run time
        var seen := new bool[graph.rhsSize](_ => false);
        ghost var right0 := right;
        var found := TryAugment(ilhs, seen, closed);
        if found {
          ClosedSurvives(graph, right0, right, closed);
        } else {
          ClosedUnion(graph, right, closed, seen[..]);
          closed := closed + Marked(seen[..]);
        }
        ilhs := ilhs + 1;
      }
      assert Certifies(graph, left, right, closed);
      result := [];
      ilhs := 0;
      while ilhs < |left|
        invariant 0 <= ilhs <= |left|
        invariant result == Pairs(left[..ilhs])
      {
        assert left[..ilhs + 1][..ilhs] == left[..ilhs];
        if left[ilhs] != UNUSED {
          result := result + [(ilhs, left[ilhs])];
        }
        ilhs := ilhs + 1;
      }
      assert left[..ilhs] == left;
    }
  }

  /** The edges recorded in a left table, in left order. */
  function Pairs(left: seq<int>): seq<(int, int)> {
    if |left| == 0 then []
    else
      var n := |left| - 1;
      Pairs(left[..n]) + if left[n] == UNUSED then [] else [(n, left[n])]
  }

  // ----- Closed sets over the whole pass -----

  lemma {:induction false} ClosedSurvives(g: MatchMatrix, right: seq<int>, right': seq<int>, c: set<int>)
    requires g.Valid() && Closed(g, right, c) && |right| == |right'|
    requires forall r :: r in c && 0 <= r < |right| ==> right'[r] == right[r]
    ensures Closed(g, right', c)
  {
  }

  lemma {:induction false} ClosedUnion(g: MatchMatrix, right: seq<int>, c: set<int>, seen: seq<bool>)
    requires g.Valid() && Closed(g, right, c) && |seen| == |right|
    requires DeadEnd(g, right, seq(|seen|, _ => false), seen)
    ensures Closed(g, right, c + Marked(seen))
  {
    forall r | r in c + Marked(seen)
      ensures 0 <= r < |right| && right[r] != UNUSED && NeighboursIn(g, right[r], c + Marked(seen))
    {
      if r in c {
        assert NeighboursIn(g, right[r], c);
      } else {
        assert NeighboursIn(g, right[r], Marked(seen));
      }
    }
  }

  /** What the pass ends with: a closed set that holds the neighbours of every unmatched left node. */
  ghost predicate Certifies(g: MatchMatrix, left: seq<int>, right: seq<int>, c: set<int>)
    requires g.Valid()
  {
    && Mutual(g, left, right)
    && Closed(g, right, c)
    && forall l :: 0 <= l < |left| && left[l] == UNUSED ==> NeighboursIn(g, l, c)
  }

  /** The pairs come in increasing left order, and each is a used slot with its partner. */
  lemma {:induction false} PairsEntries(left: seq<int>)
    ensures forall i :: 0 <= i < |Pairs(left)| ==>
      0 <= Pairs(left)[i].0 < |left| && Pairs(left)[i].1 == left[Pairs(left)[i].0] != UNUSED
    ensures forall i, j :: 0 <= i < j < |Pairs(left)| ==> Pairs(left)[i].0 < Pairs(left)[j].0
  {
    if |left| > 0 {
      PairsEntries(left[..|left| - 1]);
    }
  }

  lemma {:induction false} PairsCount(left: seq<int>)
    ensures |Pairs(left)| == |Used(left)|
  {
    if |left| > 0 {
      var n := |left| - 1;
      PairsCount(left[..n]);
      var rest := Used(left[..n]);
      assert Used(left) == if left[n] == UNUSED then rest else rest + {n};
      assert n !in rest;
    }
  }

  /** Pigeonhole: a set that injects into another is no larger. */
  lemma {:induction false} InjectionBound<T, U>(dom: set<T>, rng: set<U>, f: map<T, U>)
    requires dom == f.Keys
    requires forall x :: x in dom ==> f[x] in rng
    requires forall x, y :: x in dom && y in dom && f[x] == f[y] ==> x == y
    ensures |dom| <= |rng|
    decreases |dom|
  {
    if dom != {} {
      var x :| x in dom;
      InjectionBound(dom - {x}, rng - {f[x]}, f - {x});
    }
  }

  /** The used left node that accounts for an edge. */
  ghost function Witness(right: seq<int>, c: set<int>, e: (int, int)): int {
    if e.1 in c && 0 <= e.1 < |right| then right[e.1] else e.0
  }

  /** Every edge is accounted for by a used left node, which tells whether the edge ends in `c`. */
  lemma {:induction false} WitnessUsed(g: MatchMatrix, left: seq<int>, right: seq<int>, c: set<int>, e: (int, int))
    requires g.Valid() && Certifies(g, left, right, c) && Edge(g, e.0, e.1)
    ensures var l := Witness(right, c, e);
            l in Used(left) && (left[l] in c <==> e.1 in c) && (if e.1 in c then left[l] == e.1 else l == e.0)
  {
    if e.1 !in c {
      NotNeighbours(g, e.0, e.1, c);
    }
  }

  /** No matching is larger than the certified one. */
  lemma {:induction false} CertifiedIsMaximum(g: MatchMatrix, left: seq<int>, right: seq<int>, c: set<int>,
                                              m: set<(int, int)>)
    requires g.Valid() && Certifies(g, left, right, c) && IsMatching(g, m)
    ensures |m| <= |Used(left)|
  {
    var f := map e: (int, int) | e in m :: Witness(right, c, e);
    forall e | e in m
      ensures f[e] in Used(left) && (left[f[e]] in c <==> e.1 in c)
      ensures (if e.1 in c then left[f[e]] == e.1 else f[e] == e.0)
    {
      WitnessUsed(g, left, right, c, e);
    }
    InjectionBound(m, Used(left), f);
  }

  /** The left half of the vertex cover read off a certificate. */
  ghost function CoverLefts(left: seq<int>, c: set<int>): set<int> {
    set l | 0 <= l < |left| && left[l] != UNUSED && left[l] !in c
  }

  /** Duality: the certificate yields a vertex cover of exactly the size of the matching. */
  lemma {:induction false} CertifiedCover(g: MatchMatrix, left: seq<int>, right: seq<int>, c: set<int>)
    requires g.Valid() && Certifies(g, left, right, c)
    ensures IsVertexCover(g, CoverLefts(left, c), c)
    ensures |CoverLefts(left, c)| + |c| == |Used(left)|
  {
    forall l, r | Edge(g, l, r) ensures l in CoverLefts(left, c) || r in c {
      if left[l] == UNUSED || left[l] in c {
        assert NeighboursIn(g, l, c);
      }
    }
    var inside := Used(left) - CoverLefts(left, c);
    assert Used(left) == inside + CoverLefts(left, c);
    InjectionBound(inside, c, map l | l in inside :: left[l]);
    InjectionBound(c, inside, map r | r in c :: right[r]);
  }

  // ----- The public entry points -----

  ghost function PairSet(pairs: seq<(int, int)>): set<(int, int)> {
    set i | 0 <= i < |pairs| :: pairs[i]
  }

  /** One pass over the left nodes yields a maximum matching, and a vertex cover proves it. */
  method FindMaxBipartiteMatching(g: MatchMatrix) returns (pairs: seq<(int, int)>)
    requires g.Valid()
    ensures IsMatching(g, PairSet(pairs)) && |PairSet(pairs)| == |pairs|
    ensures forall m :: IsMatching(g, m) ==> |m| <= |pairs|
    ensures exists ls: set<int>, rs: set<int> :: IsVertexCover(g, ls, rs) && |ls| + |rs| == |pairs|
  {
    var state := new MaxBipartiteMatchState(g);
    pairs := state.Compute();
    ghost var left, right := state.left, state.right;
    ghost var c :| Certifies(g, left, right, c);
    PairsCount(left);
    PairSetIsMatching(g, left, right);
    CertifiedCover(g, left, right, c);
    forall m | IsMatching(g, m) ensures |m| <= |pairs| {
      CertifiedIsMaximum(g, left, right, c, m);
    }
  }

  lemma {:induction false} PairSetIsMatching(g: MatchMatrix, left: seq<int>, right: seq<int>)
    requires g.Valid() && Mutual(g, left, right)
    ensures IsMatching(g, PairSet(Pairs(left))) && |PairSet(Pairs(left))| == |Pairs(left)|
  {
    var pairs, m := Pairs(left), PairSet(Pairs(left));
    PairsEntries(left);
    assert forall e :: e in m ==> 0 <= e.0 < |left| && e.1 == left[e.0] != UNUSED;
    assert IsMatching(g, m);
    PairSetCount(pairs);
  }

  lemma {:induction false} PairSetCount(pairs: seq<(int, int)>)
    requires forall i, j :: 0 <= i < j < |pairs| ==> pairs[i].0 < pairs[j].0
    ensures |PairSet(pairs)| == |pairs|
  {
    if |pairs| > 0 {
      var n := |pairs| - 1;
      PairSetCount(pairs[..n]);
      assert PairSet(pairs) == PairSet(pairs[..n]) + {pairs[n]};
      assert pairs[n] !in PairSet(pairs[..n]);
    }
  }

  ghost function Indices(n: nat): (s: set<int>)
    ensures |s| == n && forall i :: i in s <==> 0 <= i < n
  {
    if n == 0 then {} else Indices(n - 1) + {n - 1}
  }

  /** An assignment of distinct elements to all matchers along edges. */
  ghost predicate IsPairing(g: MatchMatrix, a: seq<int>)
    requires g.Valid()
  {
    && |a| == g.rhsSize
    && (forall r :: 0 <= r < |a| ==> Edge(g, a[r], r))
    && (forall r, s :: 0 <= r < s < |a| ==> a[r] != a[s])
  }

  /** A matching with as many edges as there are matchers reaches every matcher. */
  lemma {:induction false} FullMatchingCovers(g: MatchMatrix, m: set<(int, int)>, r: int)
    requires g.Valid() && IsMatching(g, m) && |m| == g.rhsSize && 0 <= r < g.rhsSize
    ensures exists l :: (l, r) in m
  {
    if forall l :: (l, r) !in m {
      var others := Indices(g.rhsSize) - {r};
        forall e | e in m ensures e.1 in others {
        assert Edge(g, e.0, e.1) && (e.0, e.1) == e;
      }
      InjectionBound(m, others, map e | e in m :: e.1);
      assert false;
    }
  }

  lemma {:induction false} MatchingToPairing(g: MatchMatrix, m: set<(int, int)>, n: nat) returns (a: seq<int>)
    requires g.Valid() && IsMatching(g, m) && |m| == g.rhsSize && n <= g.rhsSize
    ensures |a| == n && forall r :: 0 <= r < n ==> (a[r], r) in m
  {
    if n == 0 {
      a := [];
    } else {
      var b := MatchingToPairing(g, m, n - 1);
      FullMatchingCovers(g, m, n - 1);
      var l :| (l, n - 1) in m;
      a := b + [l];
    }
  }

  /** The edges of an assignment, one for each matcher. */
  ghost function PairingEdges(a: seq<int>): (m: set<(int, int)>)
    ensures |m| == |a|
    ensures forall e :: e in m ==> 0 <= e.1 < |a| && e.0 == a[e.1]
  {
    if |a| == 0 then {}
    else
      var n := |a| - 1;
      PairingEdges(a[..n]) + {(a[n], n)}
  }

  lemma {:induction false} PairingToMatching(g: MatchMatrix, a: seq<int>) returns (m: set<(int, int)>)
    requires g.Valid() && IsPairing(g, a)
    ensures IsMatching(g, m) && |m| == g.rhsSize
  {
    m := PairingEdges(a);
    assert forall e :: e in m ==> 0 <= e.1 < |a| && e.0 == a[e.1];
    assert IsMatching(g, m);
  }

  /** True exactly when distinct elements can be assigned to all matchers. */
  method FindPairing(g: MatchMatrix) returns (result: bool)
    requires g.Valid()
    ensures result <==> exists a :: IsPairing(g, a)
  {
    var matches := FindMaxBipartiteMatching(g);
    result := |matches| == g.rhsSize;
    if result {
      ghost var a := MatchingToPairing(g, PairSet(matches), g.rhsSize);
      assert IsPairing(g, a);
    }
    forall a | IsPairing(g, a) ensures result {
      var m := PairingToMatching(g, a);
      MatchingAtMostRights(g, PairSet(matches));
    }
  }

  lemma {:induction false} MatchingAtMostRights(g: MatchMatrix, m: set<(int, int)>)
    requires g.Valid() && IsMatching(g, m)
    ensures |m| <= g.rhsSize
  {
    var rights := Indices(g.rhsSize);
    InjectionBound(m, rights, map e | e in m :: e.1);
  }
}
