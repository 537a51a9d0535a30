/** Edit scripts between two sequences: the dynamic-programming table, the backtrace that reads a
    script off it, and the interning of lines. */
module EditScript {

  datatype EditType = Match | Add | Remove | Replace

  // Costs in units of 1/100000: the source adds 1 for an add or a remove, 1.00001 for a replace.
  const UNIT: nat := 100000
  const REPLACE: nat := 100001

  // ----- Specification: what a script does -----

  /** Left elements consumed, and right elements produced, by the first k edits. */
  function Lefts(e: seq<EditType>, k: nat): nat
    requires k <= |e|
  {
    if k == 0 then 0 else Lefts(e, k - 1) + if e[k - 1] == Add then 0 else 1
  }

  function Rights(e: seq<EditType>, k: nat): nat
    requires k <= |e|
  {
    if k == 0 then 0 else Rights(e, k - 1) + if e[k - 1] == Remove then 0 else 1
  }

  /** Lines put in, and lines taken out, by the first k edits. */
  function Inserted(e: seq<EditType>, k: nat): nat
    requires k <= |e|
  {
    if k == 0 then 0 else Inserted(e, k - 1) + if e[k - 1] == Add || e[k - 1] == Replace then 1 else 0
  }

  function Deleted(e: seq<EditType>, k: nat): nat
    requires k <= |e|
  {
    if k == 0 then 0 else Deleted(e, k - 1) + if e[k - 1] == Remove || e[k - 1] == Replace then 1 else 0
  }

  /** The k-th edit finds the elements it needs; it matches equal elements and replaces unequal ones. */
  ghost predicate EditFits<T>(e: seq<EditType>, left: seq<T>, right: seq<T>, k: nat)
    requires k < |e|
  {
    var l, r := Lefts(e, k), Rights(e, k);
    && (e[k] != Add ==> l < |left|) && (e[k] != Remove ==> r < |right|)
    && (e[k] == Match ==> left[l] == right[r]) && (e[k] == Replace ==> left[l] != right[r])
  }

  /** The script consumes exactly `left`, produces exactly `right`, matches equal elements only and
      replaces unequal ones only. */
  ghost predicate Transforms<T>(e: seq<EditType>, left: seq<T>, right: seq<T>) {
    && Lefts(e, |e|) == |left| && Rights(e, |e|) == |right|
    && forall k :: 0 <= k < |e| ==> EditFits(e, left, right, k)
  }

  /** Replaying the first k edits on `left`, with the elements they put in taken from `extra` in order. */
  function Replay<T>(e: seq<EditType>, k: nat, left: seq<T>, extra: seq<T>): seq<T>
    requires k <= |e| && Lefts(e, k) <= |left| && Inserted(e, k) <= |extra|
  {
    if k == 0 then []
    else
      match e[k - 1]
      case Match => Replay(e, k - 1, left, extra) + [left[Lefts(e, k) - 1]]
      case Remove => Replay(e, k - 1, left, extra)
      case _ => Replay(e, k - 1, left, extra) + [extra[Inserted(e, k) - 1]]
  }

  /** The right elements that the first k edits put in. */
  function InsertedOf<T>(e: seq<EditType>, k: nat, right: seq<T>): (s: seq<T>)
    requires k <= |e| && Rights(e, k) <= |right|
    ensures |s| == Inserted(e, k)
  {
    if k == 0 then []
    else InsertedOf(e, k - 1, right) + if e[k - 1] == Add || e[k - 1] == Replace then [right[Rights(e, k) - 1]] else []
  }

  function EditCost(m: EditType): nat {
    match m
    case Match => 0
    case Replace => REPLACE
    case _ => UNIT
  }

  function ScriptCost(e: seq<EditType>): nat {
    if |e| == 0 then 0 else ScriptCost(e[..|e| - 1]) + EditCost(e[|e| - 1])
  }

  // ----- The table, as a recurrence -----

  function Cost<T(==)>(left: seq<T>, right: seq<T>, i: nat, j: nat): nat
    requires i <= |left| && j <= |right|
    decreases i + j
  {
    if j == 0 then i * UNIT
    else if i == 0 then j * UNIT
    else if left[i - 1] == right[j - 1] then Cost(left, right, i - 1, j - 1)
    else
      Chosen(Cost(left, right, i, j - 1), Cost(left, right, i - 1, j), Cost(left, right, i - 1, j - 1)).0
  }

  function Move<T(==)>(left: seq<T>, right: seq<T>, i: nat, j: nat): EditType
    requires i <= |left| && j <= |right|
  {
    if j == 0 then Remove
    else if i == 0 then Add
    else if left[i - 1] == right[j - 1] then Match
    else
      Chosen(Cost(left, right, i, j - 1), Cost(left, right, i - 1, j), Cost(left, right, i - 1, j - 1)).1
  }

  /** The cost and move for a cell whose elements differ. */
  function Chosen(add: nat, remove: nat, replace: nat): (nat, EditType) {
    if add < remove && add < replace then (add + UNIT, Add)
    else if remove < add && remove < replace then (remove + UNIT, Remove)
    else (replace + REPLACE, Replace)
  }

  /** The script read off the moves from cell (i, j) back to the origin. */
  function Script<T(==)>(left: seq<T>, right: seq<T>, i: nat, j: nat): seq<EditType>
    requires i <= |left| && j <= |right|
    decreases i + j
  {
    if i == 0 && j == 0 then []
    else
      var m := Move(left, right, i, j);
      Script(left, right, if m == Add then i else i - 1, if m == Remove then j else j - 1) + [m]
  }

  // ----- The algorithm -----

  function Reversed(s: seq<EditType>): seq<EditType> {
    if |s| == 0 then [] else Reversed(s[1..]) + [s[0]]
  }

  /** One cell of the two tables is as the recurrence says. */
  ghost predicate CellOk(costs: array2<nat>, moves: array2<EditType>, left: seq<nat>, right: seq<nat>, i: nat, j: nat)
    reads costs, moves
    requires i <= |left| && j <= |right|
    requires costs.Length0 == moves.Length0 == |left| + 1 && costs.Length1 == moves.Length1 == |right| + 1
  {
    costs[i, j] == Cost(left, right, i, j) && moves[i, j] == Move(left, right, i, j)
  }

  ghost predicate Sized(costs: array2<nat>, moves: array2<EditType>, left: seq<nat>, right: seq<nat>) {
    costs.Length0 == moves.Length0 == |left| + 1 && costs.Length1 == moves.Length1 == |right| + 1
  }

  method FillBorders(costs: array2<nat>, moves: array2<EditType>, left: seq<nat>, right: seq<nat>)
    requires Sized(costs, moves, left, right)
    modifies costs, moves
    ensures forall i :: 0 <= i <= |left| ==> CellOk(costs, moves, left, right, i, 0)
    ensures forall j :: 0 <= j <= |right| ==> CellOk(costs, moves, left, right, 0, j)
  {
    for l := 0 to |left| + 1
      invariant forall i :: 0 <= i < l ==> costs[i, 0] == i * UNIT && moves[i, 0] == Remove
    {
      costs[l, 0] := l * UNIT;
      moves[l, 0] := Remove;
    }
    for r := 1 to |right| + 1
      invariant forall i :: 0 <= i <= |left| ==> costs[i, 0] == i * UNIT && moves[i, 0] == Remove
      invariant forall j :: 1 <= j < r ==> costs[0, j] == j * UNIT && moves[0, j] == Add
    {
      costs[0, r] := r * UNIT;
      moves[0, r] := Add;
    }
  }

  /** Row `row` from the row above it; `l` is the left element it is for. */
  method FillRow(costs: array2<nat>, moves: array2<EditType>, left: seq<nat>, right: seq<nat>, l: nat, row: nat)
    requires Sized(costs, moves, left, right) && l < |left| && row == l + 1
    requires forall j :: 0 <= j <= |right| ==> CellOk(costs, moves, left, right, l, j)
    requires CellOk(costs, moves, left, right, row, 0)
    modifies costs, moves
    ensures forall j :: 0 <= j <= |right| ==> CellOk(costs, moves, left, right, row, j)
    ensures forall i, j :: 0 <= i <= |left| && 0 <= j <= |right| && (i != row || j == 0) ==>
      costs[i, j] == old(costs[i, j]) && moves[i, j] == old(moves[i, j])
  {
    for r := 0 to |right|
      invariant forall j :: 0 <= j <= r ==>
        costs[row, j] == Cost(left, right, row, j) && moves[row, j] == Move(left, right, row, j)
      invariant forall i, j :: 0 <= i <= |left| && 0 <= j <= |right| && (i != row || j == 0) ==>
        costs[i, j] == old(costs[i, j]) && moves[i, j] == old(moves[i, j])
    {
      assert old(CellOk(costs, moves, left, right, l, r)) && old(CellOk(costs, moves, left, right, l, r + 1));
      FillCell(costs, moves, left, right, l, r);
    }
  }

  /** One cell from its three neighbours. */
  method FillCell(costs: array2<nat>, moves: array2<EditType>, left: seq<nat>, right: seq<nat>, l: nat, r: nat)
    requires Sized(costs, moves, left, right) && l < |left| && r < |right|
    requires costs[l, r] == Cost(left, right, l, r)
    requires costs[l, r + 1] == Cost(left, right, l, r + 1)
    requires costs[l + 1, r] == Cost(left, right, l + 1, r)
    modifies costs, moves
    ensures CellOk(costs, moves, left, right, l + 1, r + 1)
    ensures forall i, j :: 0 <= i <= |left| && 0 <= j <= |right| && (i != l + 1 || j != r + 1) ==>
      costs[i, j] == old(costs[i, j]) && moves[i, j] == old(moves[i, j])
  {
    if left[l] == right[r] {
      costs[l + 1, r + 1] := costs[l, r];
      moves[l + 1, r + 1] := Match;
      return;
    }
    var add, remove, replace := costs[l + 1, r], costs[l, r + 1], costs[l, r];
    if add < remove && add < replace {
      costs[l + 1, r + 1] := add + UNIT;
      moves[l + 1, r + 1] := Add;
    } else if remove < add && remove < replace {
      costs[l + 1, r + 1] := remove + UNIT;
      moves[l + 1, r + 1] := Remove;
    } else {
      costs[l + 1, r + 1] := replace + REPLACE;
      moves[l + 1, r + 1] := Replace;
    }
  }

  /** Walk the moves backwards from the last cell. */
  method Backtrace(moves: array2<EditType>, left: seq<nat>, right: seq<nat>) returns (path: seq<EditType>)
    requires moves.Length0 == |left| + 1 && moves.Length1 == |right| + 1
    requires forall i, j :: 0 <= i <= |left| && 0 <= j <= |right| ==> moves[i, j] == Move(left, right, i, j)
    ensures path == Script(left, right, |left|, |right|)
  {
    path := [];
    var l, r := |left|, |right|;
    ghost var script := Script(left, right, |left|, |right|);
    while l > 0 || r > 0
      invariant 0 <= l <= |left| && 0 <= r <= |right|
      invariant script == Script(left, right, l, r) + Reversed(path)
      decreases l + r
    {
      var move := moves[l, r];
      TraceStep(script, left, right, l, r, path);
      path := path + [move];
      l := if move == Add then l else l - 1;
      r := if move == Remove then r else r - 1;
    }
    path := Reversed(path);
  }

  /** Fill the table, then walk it backwards. */
  method CalculateOptimalEdits(left: seq<nat>, right: seq<nat>) returns (path: seq<EditType>)
    ensures path == Script(left, right, |left|, |right|)
  {
    var costs := new nat[|left| + 1, |right| + 1]((_, _) => 0);
    var moves := new EditType[|left| + 1, |right| + 1]((_, _) => Match);
    FillBorders(costs, moves, left, right);
    for l := 0 to |left|
      invariant forall i, j :: 0 <= i <= l && 0 <= j <= |right| ==> CellOk(costs, moves, left, right, i, j)
      invariant forall i :: 0 <= i <= |left| ==> CellOk(costs, moves, left, right, i, 0)
    {
      label Row:
      FillRow(costs, moves, left, right, l, l + 1);
      forall i, j | 0 <= i <= l + 1 && 0 <= j <= |right| ensures CellOk(costs, moves, left, right, i, j) {
        assert i <= l ==> old@Row(CellOk(costs, moves, left, right, i, j));
      }
      forall i | 0 <= i <= |left| ensures CellOk(costs, moves, left, right, i, 0) {
        assert old@Row(CellOk(costs, moves, left, right, i, 0));
      }
    }
    forall i, j | 0 <= i <= |left| && 0 <= j <= |right| ensures moves[i, j] == Move(left, right, i, j) {
      assert CellOk(costs, moves, left, right, i, j);
    }
    path := Backtrace(moves, left, right);
  }

  lemma {:induction false} ScriptStep<T>(left: seq<T>, right: seq<T>, i: nat, j: nat)
    requires i <= |left| && j <= |right| && i + j > 0
    ensures var m := Move(left, right, i, j);
            && (m != Add ==> i > 0) && (m != Remove ==> j > 0)
            && Script(left, right, i, j) == Script(left, right, Back(m, i, j).0, Back(m, i, j).1) + [m]
  {
    MovePays(left, right, i, j);
  }

  /** One move of the backtrace. */
  lemma {:induction false} TraceStep<T>(script: seq<EditType>, left: seq<T>, right: seq<T>, i: nat, j: nat,
                                        path: seq<EditType>)
    requires i <= |left| && j <= |right| && i + j > 0 && script == Script(left, right, i, j) + Reversed(path)
    ensures var m := Move(left, right, i, j);
            && (m != Add ==> i > 0) && (m != Remove ==> j > 0)
            && script == Script(left, right, Back(m, i, j).0, Back(m, i, j).1) + Reversed(path + [m])
  {
    ScriptStep(left, right, i, j);
    var m := Move(left, right, i, j);
    ReversedSnoc(path, m);
    assert Script(left, right, Back(m, i, j).0, Back(m, i, j).1) + [m] + Reversed(path)
        == Script(left, right, Back(m, i, j).0, Back(m, i, j).1) + ([m] + Reversed(path));
  }

  lemma {:induction false} ReversedSnoc(s: seq<EditType>, m: EditType)
    ensures Reversed(s + [m]) == [m] + Reversed(s)
  {
    if |s| > 0 {
      ReversedSnoc(s[1..], m);
      assert (s + [m])[1..] == s[1..] + [m];
    }
  }

  // ----- What the script does -----

  /** Where a move leads back to. */
  function Back(m: EditType, i: nat, j: nat): (nat, nat)
    requires (m != Add ==> i > 0) && (m != Remove ==> j > 0)
  {
    (if m == Add then i else i - 1, if m == Remove then j else j - 1)
  }

  /** Every cell pays for its move; the backtrace stays in the table. */
  lemma {:induction false} MovePays<T>(left: seq<T>, right: seq<T>, i: nat, j: nat)
    requires i <= |left| && j <= |right| && i + j > 0
    ensures var m := Move(left, right, i, j);
            && (m != Add ==> i > 0) && (m != Remove ==> j > 0)
            && Cost(left, right, i, j) == Cost(left, right, Back(m, i, j).0, Back(m, i, j).1) + EditCost(m)
            && (m == Match ==> left[i - 1] == right[j - 1]) && (m == Replace ==> left[i - 1] != right[j - 1])
  {
    if i > 0 && j > 0 && left[i - 1] != right[j - 1] {
      var a, d, p := Cost(left, right, i, j - 1), Cost(left, right, i - 1, j), Cost(left, right, i - 1, j - 1);
      assert Cost(left, right, i, j) == Chosen(a, d, p).0 && Move(left, right, i, j) == Chosen(a, d, p).1;
    }
  }

  /** Counters of a prefix do not depend on what follows. */
  lemma {:induction false} CountersPrefix(e: seq<EditType>, m: EditType, k: nat)
    requires k <= |e|
    ensures Lefts(e + [m], k) == Lefts(e, k) && Rights(e + [m], k) == Rights(e, k)
  {
    if k > 0 {
      CountersPrefix(e, m, k - 1);
    }
  }

  /** The script transforms the prefix `left[..i]` into `right[..j]`. */
  lemma {:induction false} ScriptTransforms<T>(left: seq<T>, right: seq<T>, i: nat, j: nat)
    requires i <= |left| && j <= |right|
    ensures Transforms(Script(left, right, i, j), left[..i], right[..j])
    decreases i + j
  {
    if i + j > 0 {
      MovePays(left, right, i, j);
      var m := Move(left, right, i, j);
      var (i', j') := Back(m, i, j);
      ScriptTransforms(left, right, i', j');
      TransformsSnoc(Script(left, right, i', j'), m, left[..i'], right[..j'], left[..i], right[..j]);
    }
  }

  lemma {:induction false} TransformsSnoc<T>(e: seq<EditType>, m: EditType, left: seq<T>, right: seq<T>, left': seq<T>,
                                             right': seq<T>)
    requires Transforms(e, left, right)
    requires left <= left' && |left'| == |left| + (if m == Add then 0 else 1)
    requires right <= right' && |right'| == |right| + (if m == Remove then 0 else 1)
    requires m == Match ==> left'[|left|] == right'[|right|]
    requires m == Replace ==> left'[|left|] != right'[|right|]
    ensures Transforms(e + [m], left', right')
  {
    var e' := e + [m];
    CountersPrefix(e, m, |e|);
    forall k | 0 <= k < |e'| ensures EditFits(e', left', right', k) {
      CountersPrefix(e, m, k);
      assert k < |e| ==> EditFits(e, left, right, k);
    }
  }

  /** The last table cell is the cost of the script. */
  lemma {:induction false} ScriptCostIsCell<T>(left: seq<T>, right: seq<T>, i: nat, j: nat)
    requires i <= |left| && j <= |right|
    ensures ScriptCost(Script(left, right, i, j)) == Cost(left, right, i, j)
    decreases i + j
  {
    if i + j > 0 {
      MovePays(left, right, i, j);
      var m := Move(left, right, i, j);
      var (i', j') := Back(m, i, j);
      ScriptCostIsCell(left, right, i', j');
      var e := Script(left, right, i', j');
      assert (e + [m])[..|e|] == e;
    }
  }

  function Distance(i: nat, j: nat): nat { if i <= j then j - i else i - j }
  function Min(i: nat, j: nat): nat { if i <= j then i else j }

  /** Bounds on the table: at least the difference of the lengths, at most replacing the common
      length and adding or removing the rest. */
  lemma {:induction false} CostBounds<T>(left: seq<T>, right: seq<T>, i: nat, j: nat)
    requires i <= |left| && j <= |right|
    ensures Distance(i, j) * UNIT <= Cost(left, right, i, j)
    ensures Cost(left, right, i, j) * 100000 <= (Min(i, j) * 100001 + Distance(i, j) * 100000) * UNIT
  {
    CostWithin(left, right, i, j);
  }

  lemma {:induction false} CostWithin<T>(left: seq<T>, right: seq<T>, i: nat, j: nat)
    requires i <= |left| && j <= |right|
    ensures Distance(i, j) * UNIT <= Cost(left, right, i, j) <= Min(i, j) * REPLACE + Distance(i, j) * UNIT
    decreases i + j
  {
    if i > 0 && j > 0 {
      CostWithin(left, right, i - 1, j - 1);
      if left[i - 1] != right[j - 1] {
        CostWithin(left, right, i - 1, j);
        CostWithin(left, right, i, j - 1);
        ChosenBounds(Cost(left, right, i, j - 1), Cost(left, right, i - 1, j), Cost(left, right, i - 1, j - 1), i, j);
      }
    }
  }

  lemma {:induction false} ChosenBounds(add: nat, remove: nat, replace: nat, i: nat, j: nat)
    requires i > 0 && j > 0
    requires Distance(i, j - 1) * UNIT <= add
    requires Distance(i - 1, j) * UNIT <= remove
    requires Distance(i - 1, j - 1) * UNIT <= replace <= Min(i - 1, j - 1) * REPLACE + Distance(i - 1, j - 1) * UNIT
    ensures Distance(i, j) * UNIT <= Chosen(add, remove, replace).0 <= Min(i, j) * REPLACE + Distance(i, j) * UNIT
  {
  }

  // ----- Which edit is chosen -----

  /** How the last elements and the three neighbouring cells decide a cell and its last edit: equal
      elements match; of unequal ones, a neighbour that is strictly cheaper than both others is extended
      by an add or a remove, and otherwise the elements are replaced. */
  lemma {:induction false} CellDecides<T>(left: seq<T>, right: seq<T>, i: nat, j: nat)
    requires 0 < i <= |left| && 0 < j <= |right|
    ensures var cost, script := Cost(left, right, i, j), Script(left, right, i, j);
            var a, r, p := Cost(left, right, i, j - 1), Cost(left, right, i - 1, j), Cost(left, right, i - 1, j - 1);
            if left[i - 1] == right[j - 1] then cost == p && script == Script(left, right, i - 1, j - 1) + [Match]
            else if a < r && a < p then cost == a + 100000 && script == Script(left, right, i, j - 1) + [Add]
            else if r < a && r < p then cost == r + 100000 && script == Script(left, right, i - 1, j) + [Remove]
            else cost == p + 100001 && script == Script(left, right, i - 1, j - 1) + [Replace]
  {
  }

  /** If one sequence is a prefix of the other, only the rest is paid for. */
  lemma {:induction false} PrefixCost<T>(left: seq<T>, right: seq<T>, i: nat, j: nat)
    requires j <= i <= |left| && j <= |right| && forall k :: 0 <= k < j ==> left[k] == right[k]
    ensures Cost(left, right, i, j) == (i - j) * UNIT
    decreases i + j
  {
    if i > 0 && j > 0 {
      PrefixCost(left, right, i - 1, j - 1);
      if left[i - 1] != right[j - 1] {
        PrefixCost(left, right, i - 1, j);
        PrefixCost(left, right, i, j - 1);
        CellDecides(left, right, i, j);
      }
    }
  }

  /** A list and one that it is a prefix of: each extra element is removed or added, nothing else is. */
  lemma {:induction false} PrefixScript<T>(left: seq<T>, right: seq<T>)
    ensures right <= left ==> Cost(left, right, |left|, |right|) == (|left| - |right|) * UNIT
    ensures left <= right ==> Cost(left, right, |left|, |right|) == (|right| - |left|) * UNIT
  {
    if right <= left {
      PrefixCost(left, right, |left|, |right|);
    }
    if left <= right {
      PrefixCost(right, left, |right|, |left|);
      CostMirror(left, right, |left|, |right|);
    }
  }

  function Mirrored(m: EditType): EditType {
    match m
    case Add => Remove
    case Remove => Add
    case _ => m
  }

  function MirrorScript(e: seq<EditType>): (r: seq<EditType>)
    ensures |r| == |e|
  {
    seq(|e|, i requires 0 <= i < |e| => Mirrored(e[i]))
  }

  lemma {:induction false} CostMirror<T>(left: seq<T>, right: seq<T>, i: nat, j: nat)
    requires i <= |left| && j <= |right|
    ensures Cost(right, left, j, i) == Cost(left, right, i, j)
    ensures i + j > 0 ==> Move(right, left, j, i) == Mirrored(Move(left, right, i, j))
    decreases i + j
  {
    hide Chosen;
    if i > 0 && j > 0 {
      CostMirror(left, right, i - 1, j - 1);
      CostMirror(left, right, i - 1, j);
      CostMirror(left, right, i, j - 1);
      ChosenMirror(Cost(left, right, i, j - 1), Cost(left, right, i - 1, j), Cost(left, right, i - 1, j - 1));
    }
  }

  lemma {:induction false} ChosenMirror(add: nat, remove: nat, replace: nat)
    ensures Chosen(remove, add, replace).0 == Chosen(add, remove, replace).0
    ensures Chosen(remove, add, replace).1 == Mirrored(Chosen(add, remove, replace).1)
  {
  }

  /** Exchanging the two sequences exchanges adds and removes. */
  lemma {:induction false} ScriptMirror<T>(left: seq<T>, right: seq<T>, i: nat, j: nat)
    requires i <= |left| && j <= |right|
    ensures Script(right, left, j, i) == MirrorScript(Script(left, right, i, j))
    decreases i + j
  {
    if i + j > 0 {
      CostMirror(left, right, i, j);
      ScriptStep(left, right, i, j);
      ScriptStep(right, left, j, i);
      var m := Move(left, right, i, j);
      var (i', j') := Back(m, i, j);
      ScriptMirror(left, right, i', j');
      var e := Script(left, right, i', j');
      assert MirrorScript(e + [m]) == MirrorScript(e) + [Mirrored(m)];
    }
  }

  /** The script is not always the cheapest: where adding and removing cost the same the code replaces,
      and "bab" to "aba" takes three replaces although two single edits would do. */
  lemma {:induction false} NotMinimal<T>(a: T, b: T)
    requires a != b
    ensures Cost([b, a, b], [a, b, a], 3, 3) == 3 * REPLACE
    ensures Transforms([Remove, Match, Match, Add], [b, a, b], [a, b, a])
    ensures ScriptCost([Remove, Match, Match, Add]) == 2 * UNIT
  {
    var left, right := [b, a, b], [a, b, a];
    assert Cost(left, right, 1, 1) == REPLACE && Cost(left, right, 1, 2) == UNIT && Cost(left, right, 2, 1) == UNIT;
    assert Cost(left, right, 2, 2) == 2 * REPLACE && Cost(left, right, 2, 3) == UNIT && Cost(left, right, 3, 2) == UNIT;
    CheaperScript(a, b);
    CheaperCost();
  }

  lemma {:induction false} CheaperScript<T>(a: T, b: T)
    ensures Transforms([Remove, Match, Match, Add], [b, a, b], [a, b, a])
  {
    var e := [Remove, Match, Match, Add];
    assert Lefts(e, 1) == 1 && Lefts(e, 2) == 2 && Lefts(e, 3) == 3 && Lefts(e, 4) == 3;
    assert Rights(e, 1) == 0 && Rights(e, 2) == 1 && Rights(e, 3) == 2 && Rights(e, 4) == 3;
  }

  lemma {:induction false} CheaperCost()
    ensures ScriptCost([Remove, Match, Match, Add]) == 2 * UNIT
  {
    CostSnoc([], Remove);
    CostSnoc([Remove], Match);
    CostSnoc([Remove, Match], Match);
    CostSnoc([Remove, Match, Match], Add);
    assert [] + [Remove] == [Remove] && [Remove] + [Match] == [Remove, Match];
    assert [Remove, Match] + [Match] == [Remove, Match, Match];
    assert [Remove, Match, Match] + [Add] == [Remove, Match, Match, Add];
  }

  lemma {:induction false} CostSnoc(e: seq<EditType>, m: EditType)
    ensures ScriptCost(e + [m]) == ScriptCost(e) + EditCost(m)
  {
    assert (e + [m])[..|e|] == e;
  }

  /** The counters never pass the ends of the two sequences. */
  lemma {:induction false} CountersGrow(e: seq<EditType>, a: nat, b: nat)
    requires a <= b <= |e|
    ensures Lefts(e, a) <= Lefts(e, b) && Rights(e, a) <= Rights(e, b)
    ensures Inserted(e, a) <= Inserted(e, b) && Deleted(e, a) <= Deleted(e, b)
  {
    if a < b {
      CountersGrow(e, a, b - 1);
    }
  }

  /** Replaying a transforming script on `left`, with the elements it puts in, yields `right`. */
  lemma {:induction false} TransformsReplays<T>(e: seq<EditType>, left: seq<T>, right: seq<T>)
    requires Transforms(e, left, right)
    ensures Replay(e, |e|, left, InsertedOf(e, |e|, right)) == right
  {
    ReplayReaches(e, left, right, |e|);
    assert right[..|right|] == right;
  }

  lemma {:induction false} ReplayReaches<T>(e: seq<EditType>, left: seq<T>, right: seq<T>, k: nat)
    requires Transforms(e, left, right) && k <= |e|
    ensures Lefts(e, k) <= |left| && Rights(e, k) <= |right| && Inserted(e, k) <= Inserted(e, |e|)
    ensures Replay(e, k, left, InsertedOf(e, |e|, right)) == right[..Rights(e, k)]
  {
    CountersGrow(e, k, |e|);
    if k > 0 {
      ReplayReaches(e, left, right, k - 1);
      assert EditFits(e, left, right, k - 1);
      InsertedPrefix(e, right, k, |e|);
    }
  }

  lemma {:induction false} InsertedPrefix<T>(e: seq<EditType>, right: seq<T>, k: nat, n: nat)
    requires k <= n <= |e| && Rights(e, n) <= |right| && Rights(e, k) <= |right|
    ensures InsertedOf(e, k, right) <= InsertedOf(e, n, right)
  {
    if k < n {
      CountersGrow(e, k, n - 1);
      CountersGrow(e, n - 1, n);
      InsertedPrefix(e, right, k, n - 1);
    }
  }

  // ----- Interning -----

  ghost predicate Interned(ids: map<string, nat>) {
    && (forall s :: s in ids ==> ids[s] < |ids|)
    && (forall s, t :: s in ids && t in ids && ids[s] == ids[t] ==> s == t)
  }

  class InternalStrings {
    var ids: map<string, nat>

    constructor ()
      ensures ids == map[]
    {
      ids := map[];
    }

    method GetId(str: string) returns (id: nat)
      requires Interned(ids)
      modifies this
      ensures Interned(ids) && str in ids && ids[str] == id
      ensures forall s :: s in old(ids) ==> s in ids && ids[s] == old(ids)[s]
    {
      if str in ids {
        return ids[str];
      }
      id := |ids|;
      ids := ids[str := id];
    }

    method GetIds(lines: seq<string>) returns (r: seq<nat>)
      requires Interned(ids)
      modifies this
      ensures Interned(ids)
      ensures forall s :: s in old(ids) ==> s in ids && ids[s] == old(ids)[s]
      ensures |r| == |lines| && forall i :: 0 <= i < |r| ==> lines[i] in ids && ids[lines[i]] == r[i]
    {
      r := [];
      for i := 0 to |lines|
        invariant Interned(ids)
        invariant forall s :: s in old(ids) ==> s in ids && ids[s] == old(ids)[s]
        invariant |r| == i && forall k :: 0 <= k < i ==> lines[k] in ids && ids[lines[k]] == r[k]
      {
        var id := GetId(lines[i]);
        r := r + [id];
      }
    }
  }

  /** Two pairs of sequences agree on which elements are equal. */
  ghost predicate SameShape<T, U>(left: seq<T>, right: seq<T>, left': seq<U>, right': seq<U>) {
    && |left| == |left'| && |right| == |right'|
    && forall a, b :: 0 <= a < |left| && 0 <= b < |right| ==> (left[a] == right[b] <==> left'[a] == right'[b])
  }

  /** The table depends only on which elements are equal. */
  lemma {:induction false} SameCosts<T, U>(left: seq<T>, right: seq<T>, left': seq<U>, right': seq<U>, i: nat, j: nat)
    requires SameShape(left, right, left', right') && i <= |left| && j <= |right|
    ensures Cost(left, right, i, j) == Cost(left', right', i, j)
    decreases i + j
  {
    hide Chosen;
    if i > 0 && j > 0 {
      SameCosts(left, right, left', right', i - 1, j - 1);
      SameCosts(left, right, left', right', i - 1, j);
      SameCosts(left, right, left', right', i, j - 1);
    }
  }

  lemma {:induction false} SameMoves<T, U>(left: seq<T>, right: seq<T>, left': seq<U>, right': seq<U>, i: nat, j: nat)
    requires SameShape(left, right, left', right') && i <= |left| && j <= |right|
    ensures Move(left, right, i, j) == Move(left', right', i, j)
  {
    if i > 0 && j > 0 {
      SameCosts(left, right, left', right', i - 1, j - 1);
      SameCosts(left, right, left', right', i - 1, j);
      SameCosts(left, right, left', right', i, j - 1);
    }
  }

  lemma {:induction false} SameScripts<T, U>(left: seq<T>, right: seq<T>, left': seq<U>, right': seq<U>, i: nat, j: nat)
    requires SameShape(left, right, left', right') && i <= |left| && j <= |right|
    ensures Script(left, right, i, j) == Script(left', right', i, j)
    decreases i + j
  {
    if i + j > 0 {
      SameMoves(left, right, left', right', i, j);
      MovePays(left, right, i, j);
      var (i', j') := Back(Move(left, right, i, j), i, j);
      SameScripts(left, right, left', right', i', j');
    }
  }

  /** The overload for lines: the script for the interned ids is the script for the lines, and it
      transforms the one list into the other. */
  method CalculateOptimalLineEdits(left: seq<string>, right: seq<string>) returns (path: seq<EditType>)
    ensures path == Script(left, right, |left|, |right|)
    ensures Transforms(path, left, right)
  {
    var table := new InternalStrings();
    var leftIds := table.GetIds(left);
    var rightIds := table.GetIds(right);
    path := CalculateOptimalEdits(leftIds, rightIds);
    SameScripts(left, right, leftIds, rightIds, |left|, |right|);
    ScriptTransforms(left, right, |left|, |right|);
    assert left[..|left|] == left && right[..|right|] == right;
  }
}
