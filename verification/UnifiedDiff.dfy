/** Unified diffs: hunks that reorder adds and removes, the windowed hunk builder, and what the
    hunks mean as a patch. */
module UnifiedDiff {
  import opened EditScript
  import Decimal

  datatype Line = Line(kind: char, text: string)

  /** The lines of a hunk as they were, and as they become. */
  function Olds(lines: seq<Line>): seq<string> {
    if |lines| == 0 then []
    else Olds(lines[..|lines| - 1]) + if lines[|lines| - 1].kind == '+' then [] else [lines[|lines| - 1].text]
  }

  function News(lines: seq<Line>): seq<string> {
    if |lines| == 0 then []
    else News(lines[..|lines| - 1]) + if lines[|lines| - 1].kind == '-' then [] else [lines[|lines| - 1].text]
  }

  ghost predicate AllKind(lines: seq<Line>, kind: char) {
    forall i :: 0 <= i < |lines| ==> lines[i].kind == kind
  }

  /** Removes come before adds: no added line is directly followed by a removed one. */
  ghost predicate Grouped(lines: seq<Line>) {
    forall i {:trigger lines[i]} :: 0 < i < |lines| && lines[i - 1].kind == '+' ==> lines[i].kind != '-'
  }

  lemma {:induction false} OldsConcat(a: seq<Line>, b: seq<Line>)
    ensures Olds(a + b) == Olds(a) + Olds(b)
  {
    if |b| == 0 {
      assert a + b == a;
    } else {
      var b', last := b[..|b| - 1], b[|b| - 1];
      OldsConcat(a, b');
      assert (a + b)[..|a + b| - 1] == a + b';
      var x := if last.kind == '+' then [] else [last.text];
      assert Olds(a + b) == Olds(a + b') + x && Olds(b) == Olds(b') + x;
    }
  }

  lemma {:induction false} NewsConcat(a: seq<Line>, b: seq<Line>)
    ensures News(a + b) == News(a) + News(b)
  {
    if |b| == 0 {
      assert a + b == a;
    } else {
      var b', last := b[..|b| - 1], b[|b| - 1];
      NewsConcat(a, b');
      assert (a + b)[..|a + b| - 1] == a + b';
      var x := if last.kind == '-' then [] else [last.text];
      assert News(a + b) == News(a + b') + x && News(b) == News(b') + x;
    }
  }

  lemma {:induction false} RemovesOnly(lines: seq<Line>)
    requires AllKind(lines, '-')
    ensures News(lines) == [] && |Olds(lines)| == |lines|
  {
    if |lines| > 0 {
      RemovesOnly(lines[..|lines| - 1]);
    }
  }

  lemma {:induction false} AddsOnly(lines: seq<Line>)
    requires AllKind(lines, '+')
    ensures Olds(lines) == [] && |News(lines)| == |lines|
  {
    if |lines| > 0 {
      AddsOnly(lines[..|lines| - 1]);
    }
  }

  // ----- One hunk -----

  /** What a hunk prints. */
  datatype Printed = Printed(leftStart: nat, rightStart: nat, removes: nat, adds: nat, common: nat, lines: seq<Line>)

  class Hunk {
    const leftStart: nat
    const rightStart: nat
    var adds: nat
    var removes: nat
    var common: nat
    var hunk: seq<Line>
    var hunkAdds: seq<Line>
    var hunkRemoves: seq<Line>
    // the two sides of the hunk so far
    ghost var olds: seq<string>
    ghost var news: seq<string>

    /** All lines, in the order they will be printed. */
    function Flushed(): seq<Line>
      reads this
    {
      hunk + hunkRemoves + hunkAdds
    }

    ghost predicate Valid()
      reads this
    {
      && AllKind(hunkRemoves, '-') && AllKind(hunkAdds, '+')
      && (|hunk| > 0 ==> hunk[|hunk| - 1].kind == ' ')
      && Grouped(hunk)
      && olds == Olds(Flushed()) && news == News(Flushed())
      && |olds| == removes + common && |news| == adds + common
    }

    constructor (leftStart: nat, rightStart: nat)
      ensures Valid() && olds == [] && news == [] && adds == removes == 0 && Flushed() == []
      ensures this.leftStart == leftStart && this.rightStart == rightStart
    {
      this.leftStart, this.rightStart := leftStart, rightStart;
      adds, removes, common := 0, 0, 0;
      hunk, hunkAdds, hunkRemoves := [], [], [];
      olds, news := [], [];
    }

    method FlushEdits()
      modifies this
      ensures hunk == old(Flushed()) && hunkRemoves == [] && hunkAdds == []
      ensures adds == old(adds) && removes == old(removes) && common == old(common)
      ensures olds == old(olds) && news == old(news)
    {
      hunk := hunk + hunkRemoves;
      hunkRemoves := [];
      hunk := hunk + hunkAdds;
      hunkAdds := [];
    }

    method PushCommonLine(line: string)
      requires Valid()
      modifies this
      ensures Valid()
      ensures hunk == old(Flushed()) + [Line(' ', line)] && hunkRemoves == [] && hunkAdds == []
      ensures olds == old(olds) + [line] && news == old(news) + [line]
      ensures common == old(common) + 1 && removes == old(removes) && adds == old(adds)
    {
      hide Olds, News, Grouped;
      ghost var flushed := Flushed();
      FlushGroups(hunk, hunkRemoves, hunkAdds);
      common := common + 1;
      FlushEdits();
      hunk := hunk + [Line(' ', line)];
      olds, news := olds + [line], news + [line];
      PushCommon(flushed, line);
    }

    method PushRemoveLine(line: string)
      requires Valid()
      modifies this
      ensures Valid()
      ensures hunk == old(hunk) && hunkRemoves == old(hunkRemoves) + [Line('-', line)] && hunkAdds == old(hunkAdds)
      ensures olds == old(olds) + [line] && news == old(news)
      ensures common == old(common) && removes == old(removes) + 1 && adds == old(adds)
    {
      hide Grouped, Olds, News;
      PushRemove(hunk, hunkRemoves, hunkAdds, line);
      removes := removes + 1;
      hunkRemoves := hunkRemoves + [Line('-', line)];
      olds := olds + [line];
    }

    method PushAddLine(line: string)
      requires Valid()
      modifies this
      ensures Valid()
      ensures hunk == old(hunk) && hunkRemoves == old(hunkRemoves) && hunkAdds == old(hunkAdds) + [Line('+', line)]
      ensures olds == old(olds) && news == old(news) + [line]
      ensures common == old(common) && removes == old(removes) && adds == old(adds) + 1
    {
      hide Grouped, Olds, News;
      PushAdd(hunk + hunkRemoves, hunkAdds, line);
      adds := adds + 1;
      hunkAdds := hunkAdds + [Line('+', line)];
      news := news + [line];
    }

    /** Push a line of the given kind: it is appended to the side or sides it belongs to, wherever
        it ends up in the printed order. */
    method PushLine(kind: char, line: string)
      requires Valid() && (kind == ' ' || kind == '-' || kind == '+')
      modifies this
      ensures Valid()
      ensures hunk == if kind == ' ' then old(Flushed()) + [Line(' ', line)] else old(hunk)
      ensures hunkRemoves == if kind == ' ' then []
                             else old(hunkRemoves) + if kind == '-' then [Line('-', line)] else []
      ensures hunkAdds == if kind == ' ' then [] else old(hunkAdds) + if kind == '+' then [Line('+', line)] else []
      ensures olds == if kind == '+' then old(olds) else old(olds) + [line]
      ensures news == if kind == '-' then old(news) else old(news) + [line]
      ensures common == old(common) + (if kind == ' ' then 1 else 0)
      ensures removes == old(removes) + (if kind == '-' then 1 else 0)
      ensures adds == old(adds) + (if kind == '+' then 1 else 0)
    {
      match kind
      case ' ' => PushCommonLine(line);
      case '-' => PushRemoveLine(line);
      case _ => PushAddLine(line);
    }

    predicate HasEdits()
      reads this
    {
      adds > 0 || removes > 0
    }

    method Print() returns (p: Printed)
      requires Valid()
      modifies this
      ensures p == Printed(leftStart, rightStart, old(removes), old(adds), old(common), old(Flushed()))
      ensures Olds(p.lines) == old(olds) && News(p.lines) == old(news) && Grouped(p.lines)
      ensures p.removes + p.common == |Olds(p.lines)| && p.adds + p.common == |News(p.lines)|
    {
      FlushGroups(hunk, hunkRemoves, hunkAdds);
      FlushEdits();
      p := Printed(leftStart, rightStart, removes, adds, common, hunk);
    }
  }

  /** Flushing puts removes before adds and keeps the grouping. */
  lemma {:induction false} FlushGroups(h: seq<Line>, rs: seq<Line>, ds: seq<Line>)
    requires AllKind(rs, '-') && AllKind(ds, '+') && (|h| > 0 ==> h[|h| - 1].kind == ' ') && Grouped(h)
    ensures Grouped(h + rs + ds)
  {
    var all := h + rs + ds;
    forall i {:trigger all[i]} | 0 < i < |all| && all[i - 1].kind == '+' ensures all[i].kind != '-' {
      if i < |h| {
        assert h[i] == all[i] && h[i - 1] == all[i - 1];
      }
    }
  }

  lemma {:induction false} PushCommon(flushed: seq<Line>, line: string)
    requires Grouped(flushed)
    ensures var all := flushed + [Line(' ', line)];
            && all + [] + [] == all && Grouped(all)
            && Olds(all) == Olds(flushed) + [line] && News(all) == News(flushed) + [line]
  {
    var all := flushed + [Line(' ', line)];
    assert all[..|all| - 1] == flushed;
  }

  lemma {:induction false} PushRemove(h: seq<Line>, rs: seq<Line>, ds: seq<Line>, line: string)
    requires AllKind(ds, '+')
    ensures var all := h + (rs + [Line('-', line)]) + ds;
            Olds(all) == Olds(h + rs + ds) + [line] && News(all) == News(h + rs + ds)
  {
    var l := [Line('-', line)];
    assert h + (rs + l) + ds == h + rs + (l + ds) && h + rs + ds == h + rs + ([] + ds);
    AddsOnly(ds);
    RemovesOnly(l);
    var front := h + rs;
    OldsConcat(front, l + ds);
    NewsConcat(front, l + ds);
    OldsConcat(l, ds);
    NewsConcat(l, ds);
    OldsConcat(front, ds);
    NewsConcat(front, ds);
    assert l[..0] == [] && Olds(l) == [line];
  }

  lemma {:induction false} PushAdd(front: seq<Line>, ds: seq<Line>, line: string)
    ensures var all := front + (ds + [Line('+', line)]);
            Olds(all) == Olds(front + ds) && News(all) == News(front + ds) + [line]
  {
    var all := front + (ds + [Line('+', line)]);
    assert all[..|all| - 1] == front + ds;
  }

  // ----- Text -----

  function Header(p: Printed): string {
    "@@ "
    + (if p.removes > 0 then "-" + Decimal.Text(p.leftStart) + "," + Decimal.Text(p.removes + p.common) else "")
    + (if p.removes > 0 && p.adds > 0 then " " else "")
    + (if p.adds > 0 then "+" + Decimal.Text(p.rightStart) + "," + Decimal.Text(p.adds + p.common) else "")
    + " @@\n"
  }

  function Body(lines: seq<Line>): string {
    if |lines| == 0 then "" else Body(lines[..|lines| - 1]) + [lines[|lines| - 1].kind] + lines[|lines| - 1].text + "\n"
  }

  function Text(hunks: seq<Printed>): string {
    if |hunks| == 0 then ""
    else Text(hunks[..|hunks| - 1]) + Header(hunks[|hunks| - 1]) + Body(hunks[|hunks| - 1].lines)
  }

  // ----- Runs of matches -----

  ghost predicate AllMatch(e: seq<EditType>, a: nat, b: nat)
    requires b <= |e|
  {
    forall k :: a <= k < b ==> e[k] == Match
  }

  /** Along a run of matches the two sides advance together over equal lines. */
  lemma {:induction false} MatchRun(e: seq<EditType>, left: seq<string>, right: seq<string>, a: nat, b: nat)
    requires Transforms(e, left, right) && a <= b <= |e| && AllMatch(e, a, b)
    ensures Lefts(e, b) == Lefts(e, a) + (b - a) <= |left|
    ensures Rights(e, b) == Rights(e, a) + (b - a) <= |right|
    ensures Inserted(e, b) == Inserted(e, a) && Deleted(e, b) == Deleted(e, a)
    ensures left[Lefts(e, a)..Lefts(e, b)] == right[Rights(e, a)..Rights(e, b)]
    decreases b - a
  {
    CountersGrow(e, b, |e|);
    if a < b {
      MatchRun(e, left, right, a, b - 1);
      assert EditFits(e, left, right, b - 1);
      SliceSnoc(left, Lefts(e, a), Lefts(e, b - 1));
      SliceSnoc(right, Rights(e, a), Rights(e, b - 1));
    }
  }

  lemma {:induction false} SliceSnoc(s: seq<string>, a: nat, b: nat)
    requires a <= b < |s|
    ensures s[a..b + 1] == s[a..b] + [s[b]]
  {
  }

  // ----- The lines of a hunk -----

  /** Where the run of edits that are not matches, and that ends at k, starts. */
  function RunStart(e: seq<EditType>, a: nat, k: nat): (j: nat)
    requires a <= k <= |e|
    ensures a <= j <= k && (a < k && e[k - 1] != Match ==> j < k)
    ensures forall i :: j <= i < k ==> e[i] != Match
    ensures j > a ==> e[j - 1] == Match
  {
    if k == a || e[k - 1] == Match then k else RunStart(e, a, k - 1)
  }

  function LineAt(s: seq<string>, i: nat): string { if i < |s| then s[i] else "" }

  /** The lines that the edits in [j, k) take out. */
  function Minus(e: seq<EditType>, left: seq<string>, j: nat, k: nat): seq<Line>
    requires j <= k <= |e|
  {
    if j == k then []
    else
      Minus(e, left, j, k - 1)
      + if e[k - 1] == Remove || e[k - 1] == Replace then [Line('-', LineAt(left, Lefts(e, k - 1)))] else []
  }

  /** The lines that the edits in [j, k) put in. */
  function Plus(e: seq<EditType>, right: seq<string>, j: nat, k: nat): seq<Line>
    requires j <= k <= |e|
  {
    if j == k then []
    else
      Plus(e, right, j, k - 1)
      + if e[k - 1] == Add || e[k - 1] == Replace then [Line('+', LineAt(right, Rights(e, k - 1)))] else []
  }

  /** The edits in [a, k) as lines: a match is a common line, and each run of other edits is the lines
      it takes out and then those it puts in. */
  function HunkLines(e: seq<EditType>, left: seq<string>, right: seq<string>, a: nat, k: nat): seq<Line>
    requires a <= k <= |e|
    decreases k
  {
    if k == a then []
    else if e[k - 1] == Match then HunkLines(e, left, right, a, k - 1) + [Line(' ', LineAt(left, Lefts(e, k - 1)))]
    else
      var j := RunStart(e, a, k);
      HunkLines(e, left, right, a, j) + Minus(e, left, j, k) + Plus(e, right, j, k)
  }

  function CountKind(lines: seq<Line>, kind: char): nat {
    if |lines| == 0 then 0
    else CountKind(lines[..|lines| - 1], kind) + if lines[|lines| - 1].kind == kind then 1 else 0
  }

  lemma {:induction false} CountConcat(a: seq<Line>, b: seq<Line>, kind: char)
    ensures CountKind(a + b, kind) == CountKind(a, kind) + CountKind(b, kind)
  {
    if |b| == 0 {
      assert a + b == a;
    } else {
      CountConcat(a, b[..|b| - 1], kind);
      assert (a + b)[..|a + b| - 1] == a + b[..|b| - 1];
    }
  }

  lemma {:induction false} CountSnoc(a: seq<Line>, x: Line, kind: char)
    ensures CountKind(a + [x], kind) == CountKind(a, kind) + if x.kind == kind then 1 else 0
  {
    assert (a + [x])[..|a|] == a;
  }

  /** A run takes out and puts in as many lines as the counters say. */
  lemma {:induction false} RunCounts(e: seq<EditType>, left: seq<string>, right: seq<string>, j: nat, k: nat)
    requires j <= k <= |e|
    ensures CountKind(Minus(e, left, j, k), '-') == Deleted(e, k) - Deleted(e, j)
    ensures CountKind(Minus(e, left, j, k), '+') == 0
    ensures CountKind(Plus(e, right, j, k), '+') == Inserted(e, k) - Inserted(e, j)
    ensures CountKind(Plus(e, right, j, k), '-') == 0
  {
    if j < k {
      RunCounts(e, left, right, j, k - 1);
      var m, p := Minus(e, left, j, k - 1), Plus(e, right, j, k - 1);
      var x, y := Line('-', LineAt(left, Lefts(e, k - 1))), Line('+', LineAt(right, Rights(e, k - 1)));
      CountSnoc(m, x, '-');
      CountSnoc(m, x, '+');
      CountSnoc(p, y, '-');
      CountSnoc(p, y, '+');
      assert m + [] == m && p + [] == p;
    }
  }

  lemma {:induction false} BlockCounts(h: seq<Line>, m: seq<Line>, p: seq<Line>, kind: char)
    ensures CountKind(h + m + p, kind) == CountKind(h, kind) + CountKind(m, kind) + CountKind(p, kind)
  {
    hide CountKind;
    CountConcat(h + m, p, kind);
    CountConcat(h, m, kind);
  }

  lemma {:induction false} MatchCounts(e: seq<EditType>, k: nat)
    requires 0 < k <= |e| && e[k - 1] == Match
    ensures Deleted(e, k) == Deleted(e, k - 1) && Inserted(e, k) == Inserted(e, k - 1)
  {
  }

  /** A hunk's lines by its last edit. */
  lemma {:induction false} LinesUnfold(e: seq<EditType>, left: seq<string>, right: seq<string>, a: nat, k: nat)
    requires a <= k <= |e|
    ensures a == k ==> HunkLines(e, left, right, a, k) == [] && CountKind([], '-') == 0 && CountKind([], '+') == 0
    ensures a < k && e[k - 1] == Match ==>
              HunkLines(e, left, right, a, k)
              == HunkLines(e, left, right, a, k - 1) + [Line(' ', LineAt(left, Lefts(e, k - 1)))]
    ensures a < k && e[k - 1] != Match ==>
              var j := RunStart(e, a, k);
              && j < k
              && HunkLines(e, left, right, a, k)
                 == HunkLines(e, left, right, a, j) + Minus(e, left, j, k) + Plus(e, right, j, k)
  {
    hide Minus, Plus, Lefts, LineAt;
  }

  /** In a hunk exactly the deleted lines are marked '-' and exactly the inserted ones '+'. */
  lemma {:induction false} MarkCounts(e: seq<EditType>, left: seq<string>, right: seq<string>, a: nat, k: nat)
    requires a <= k <= |e|
    ensures CountKind(HunkLines(e, left, right, a, k), '-') == Deleted(e, k) - Deleted(e, a)
    ensures CountKind(HunkLines(e, left, right, a, k), '+') == Inserted(e, k) - Inserted(e, a)
    decreases k
  {
    hide *;
    LinesUnfold(e, left, right, a, k);
    if a < k && e[k - 1] == Match {
      MarkCounts(e, left, right, a, k - 1);
      MatchCounts(e, k);
      var x := Line(' ', LineAt(left, Lefts(e, k - 1)));
      CountSnoc(HunkLines(e, left, right, a, k - 1), x, '-');
      CountSnoc(HunkLines(e, left, right, a, k - 1), x, '+');
    } else if a < k {
      var j := RunStart(e, a, k);
      MarkCounts(e, left, right, a, j);
      RunCounts(e, left, right, j, k);
      BlockCounts(HunkLines(e, left, right, a, j), Minus(e, left, j, k), Plus(e, right, j, k), '-');
      BlockCounts(HunkLines(e, left, right, a, j), Minus(e, left, j, k), Plus(e, right, j, k), '+');
    }
  }

  /** What the three lists of a hunk hold when it shows the edits in [a, k). */
  ghost predicate Listed(e: seq<EditType>, left: seq<string>, right: seq<string>, hunk: seq<Line>, removes: seq<Line>,
                         adds: seq<Line>, a: nat, k: nat)
  {
    && a <= k <= |e|
    && var j := RunStart(e, a, k);
       hunk == HunkLines(e, left, right, a, j) && removes == Minus(e, left, j, k) && adds == Plus(e, right, j, k)
  }

  lemma {:induction false} ListedLines(e: seq<EditType>, left: seq<string>, right: seq<string>, hunk: seq<Line>,
                                       removes: seq<Line>,
                                       adds: seq<Line>, a: nat, k: nat)
    requires Listed(e, left, right, hunk, removes, adds, a, k)
    ensures hunk + removes + adds == HunkLines(e, left, right, a, k)
  {
    if k == a || e[k - 1] == Match {
      assert hunk + [] + [] == hunk;
    }
  }

  /** The lists after the k-th edit. */
  lemma {:induction false} ListedStep(e: seq<EditType>, left: seq<string>, right: seq<string>, hunk: seq<Line>,
                                      removes: seq<Line>,
                                      adds: seq<Line>, a: nat, k: nat)
    requires k < |e| && Listed(e, left, right, hunk, removes, adds, a, k) && EditFits(e, left, right, k)
    ensures e[k] == Match ==>
              Listed(e, left, right, hunk + removes + adds + [Line(' ', left[Lefts(e, k)])], [], [], a, k + 1)
    ensures e[k] != Match ==>
              Listed(e, left, right, hunk,
                     removes + (if e[k] == Remove || e[k] == Replace then [Line('-', left[Lefts(e, k)])] else []),
                     adds + (if e[k] == Add || e[k] == Replace then [Line('+', right[Rights(e, k)])] else []), a, k + 1)
  {
    ListedLines(e, left, right, hunk, removes, adds, a, k);
    if e[k] == Match {
      assert RunStart(e, a, k + 1) == k + 1;
    } else {
      assert RunStart(e, a, k + 1) == RunStart(e, a, k);
    }
  }

  // ----- What the hunks cover -----

  /** The sides of a hunk are exactly what the edits in [a, b) consume and produce. */
  ghost predicate Sides(e: seq<EditType>, left: seq<string>, right: seq<string>,
                        olds: seq<string>, news: seq<string>, a: nat, b: nat)
  {
    && a <= b <= |e|
    && Lefts(e, a) <= Lefts(e, b) <= |left| && Rights(e, a) <= Rights(e, b) <= |right|
    && olds == left[Lefts(e, a)..Lefts(e, b)]
    && news == right[Rights(e, a)..Rights(e, b)]
  }

  /** A printed hunk shows the edits in [a, b): its lines, start lines, counters, and both sides. */
  ghost predicate Shows(e: seq<EditType>, left: seq<string>, right: seq<string>, p: Printed, a: nat, b: nat) {
    && Sides(e, left, right, Olds(p.lines), News(p.lines), a, b)
    && p.lines == HunkLines(e, left, right, a, b)
    && p.leftStart == Lefts(e, a) + 1 && p.rightStart == Rights(e, a) + 1
    && p.removes + p.common == |Olds(p.lines)| && p.adds + p.common == |News(p.lines)|
    && p.removes == Deleted(e, b) - Deleted(e, a) && p.adds == Inserted(e, b) - Inserted(e, a)
    && p.removes + p.adds > 0
    && Grouped(p.lines)
  }

  ghost function EndOf(ranges: seq<(nat, nat)>, i: nat): nat
    requires i <= |ranges|
  {
    if i == 0 then 0 else ranges[i - 1].1
  }

  /** Runs of matches inside [i, j) are too short for two hunks. */
  ghost predicate Close(e: seq<EditType>, context: nat, i: nat, j: nat)
    requires j <= |e|
  {
    forall x: nat, y: nat :: i <= x <= y <= j && AllMatch(e, x, y) ==> y - x < 2 * context
  }

  /** [a, b) is a hunk's window: from `context` matches before its first edit, or all there are, to
      `context` matches behind its last edit, or all there are; between its edits matches are few, and
      behind the window there are at least `context` more or no further edit. */
  ghost predicate WindowAt(e: seq<EditType>, context: nat, a: nat, f: nat, g: nat, b: nat) {
    && a <= f < g <= b <= |e| && e[f] != Match && e[g - 1] != Match
    && AllMatch(e, a, f) && f - a == Least(context, f)
    && AllMatch(e, g, b) && b - g == Least(context, |e| - g)
    && Close(e, context, f, g) && Clear(e, context, b)
  }

  function Least(a: nat, b: nat): nat { if a < b then a else b }

  /** The script from `k` on starts with at least a context's worth of matches, or with its end. */
  ghost predicate Clear(e: seq<EditType>, context: nat, k: nat) {
    forall j :: k <= j < |e| && j < k + context ==> e[j] == Match
  }

  ghost predicate Window(e: seq<EditType>, context: nat, a: nat, b: nat) {
    exists f: nat, g: nat :: WindowAt(e, context, a, f, g, b)
  }

  /** The i-th hunk shows its range, which is a window and starts after the one before, with only matches
      between. */
  ghost predicate CoversOne(e: seq<EditType>, left: seq<string>, right: seq<string>, context: nat,
                            hunks: seq<Printed>, ranges: seq<(nat, nat)>, i: nat)
    requires i < |hunks| == |ranges|
  {
    && Shows(e, left, right, hunks[i], ranges[i].0, ranges[i].1) && Window(e, context, ranges[i].0, ranges[i].1)
    && EndOf(ranges, i) <= ranges[i].0 && AllMatch(e, EndOf(ranges, i), ranges[i].0)
  }

  /** The hunks show disjoint ranges of the script, in order, and every edit outside them is a match. */
  ghost predicate Covers(e: seq<EditType>, left: seq<string>, right: seq<string>, context: nat,
                         hunks: seq<Printed>, ranges: seq<(nat, nat)>, upto: nat)
    requires upto <= |e|
  {
    && |ranges| == |hunks|
    && (forall i :: 0 <= i < |hunks| ==> CoversOne(e, left, right, context, hunks, ranges, i))
    && EndOf(ranges, |ranges|) <= upto && AllMatch(e, EndOf(ranges, |ranges|), upto)
  }

  // ----- The hunks are determined -----

  /** A window is determined by its first edit. */
  lemma {:induction false} WindowUnique(e: seq<EditType>, context: nat, f: nat, a: nat, g: nat, b: nat, a': nat,
                                        g': nat, b': nat)
    requires WindowAt(e, context, a, f, g, b) && WindowAt(e, context, a', f, g', b')
    ensures a == a' && b == b'
  {
    if g < g' {
      LastEdit(e, context, f, g, b, g');
    } else if g' < g {
      LastEdit(e, context, f, g', b', g);
    }
  }

  /** Behind the last edit of a window there is none that would still belong to it. */
  lemma {:induction false} LastEdit(e: seq<EditType>, context: nat, f: nat, g: nat, b: nat, g': nat)
    requires f < g <= b <= |e| && AllMatch(e, g, b) && b - g == Least(context, |e| - g) && Clear(e, context, b)
    requires f < g' <= |e| && e[g' - 1] != Match && Close(e, context, f, g')
    ensures g' <= g
  {
    if g < g' {
      var end := Least(b + context, |e|);
      assert AllMatch(e, g, end);
    }
  }

  ghost predicate FirstIn(e: seq<EditType>, k: nat, f: nat) {
    k <= f < |e| && AllMatch(e, k, f) && e[f] != Match
  }

  lemma {:induction false} RangeUnique(e: seq<EditType>, context: nat, k: nat, a: nat, b: nat, a': nat, b': nat)
    requires Window(e, context, a, b) && Window(e, context, a', b')
    requires k <= a && k <= a' && a <= |e| && a' <= |e| && AllMatch(e, k, a) && AllMatch(e, k, a')
    ensures a == a' && b == b'
  {
    var f: nat, g: nat :| WindowAt(e, context, a, f, g, b);
    var f': nat, g': nat :| WindowAt(e, context, a', f', g', b');
    assert FirstIn(e, k, f) && FirstIn(e, k, f');
    assert f == f';
    WindowUnique(e, context, f, a, g, b, a', g', b');
  }

  lemma {:induction false} RangesUnique(e: seq<EditType>, left: seq<string>, right: seq<string>, context: nat,
                                        hunks: seq<Printed>, ranges: seq<(nat, nat)>,
                                        hunks': seq<Printed>, ranges': seq<(nat, nat)>, n: nat)
    requires Covers(e, left, right, context, hunks, ranges, |e|)
    requires Covers(e, left, right, context, hunks', ranges', |e|)
    requires n <= |ranges| && n <= |ranges'|
    ensures ranges[..n] == ranges'[..n] && hunks[..n] == hunks'[..n]
  {
    hide Window, Shows;
    if n > 0 {
      var i := n - 1;
      RangesUnique(e, left, right, context, hunks, ranges, hunks', ranges', i);
      assert CoversOne(e, left, right, context, hunks, ranges, i);
      assert CoversOne(e, left, right, context, hunks', ranges', i);
      assert EndOf(ranges, i) == EndOf(ranges', i) by {
        assert i > 0 ==> ranges[..i][i - 1] == ranges'[..i][i - 1];
      }
      assert ranges[i].0 <= |e| && ranges'[i].0 <= |e| by {
        WindowInside(e, context, ranges[i].0, ranges[i].1);
        WindowInside(e, context, ranges'[i].0, ranges'[i].1);
      }
      RangeUnique(e, context, EndOf(ranges, i), ranges[i].0, ranges[i].1, ranges'[i].0, ranges'[i].1);
      ShownUnique(e, left, right, hunks[i], hunks'[i], ranges[i].0, ranges[i].1);
    }
  }

  lemma {:induction false} WindowInside(e: seq<EditType>, context: nat, a: nat, b: nat)
    requires Window(e, context, a, b)
    ensures a < b <= |e| && !AllMatch(e, a, b)
  {
    var f: nat, g: nat :| WindowAt(e, context, a, f, g, b);
  }

  lemma {:induction false} ShownUnique(e: seq<EditType>, left: seq<string>, right: seq<string>, p: Printed,
                                       p': Printed, a: nat, b: nat)
    requires Shows(e, left, right, p, a, b) && Shows(e, left, right, p', a, b)
    ensures p == p'
  {
  }

  /** Lines, header counters and number of hunks are determined by the script and the context. */
  lemma {:induction false} CoversUnique(e: seq<EditType>, left: seq<string>, right: seq<string>, context: nat,
                                        hunks: seq<Printed>, ranges: seq<(nat, nat)>,
                                        hunks': seq<Printed>, ranges': seq<(nat, nat)>)
    requires Covers(e, left, right, context, hunks, ranges, |e|)
    requires Covers(e, left, right, context, hunks', ranges', |e|)
    ensures hunks == hunks'
  {
    hide Window, Shows;
    var n := Least(|ranges|, |ranges'|);
    RangesUnique(e, left, right, context, hunks, ranges, hunks', ranges', n);
    NoMoreRanges(e, left, right, context, hunks, ranges, hunks', ranges');
    NoMoreRanges(e, left, right, context, hunks', ranges', hunks, ranges);
    assert hunks[..n] == hunks && hunks'[..n] == hunks';
  }

  lemma {:induction false} NoMoreRanges(e: seq<EditType>, left: seq<string>, right: seq<string>, context: nat,
                                        hunks: seq<Printed>, ranges: seq<(nat, nat)>,
                                        hunks': seq<Printed>, ranges': seq<(nat, nat)>)
    requires Covers(e, left, right, context, hunks, ranges, |e|)
    requires Covers(e, left, right, context, hunks', ranges', |e|)
    ensures |ranges| >= |ranges'|
  {
    hide Window, Shows;
    var n := |ranges|;
    if n < |ranges'| {
      RangesUnique(e, left, right, context, hunks, ranges, hunks', ranges', n);
      assert EndOf(ranges, n) == EndOf(ranges', n) by {
        assert n > 0 ==> ranges[..n][n - 1] == ranges'[..n][n - 1];
      }
      assert CoversOne(e, left, right, context, hunks', ranges', n);
      WindowInside(e, context, ranges'[n].0, ranges'[n].1);
    }
  }

  // ----- The hunks as a patch -----

  datatype Option<T> = None | Some(value: T)

  /** Applying one hunk to the text so far and the position reached in `left`: the lines before it are
      copied, its old lines must be found where it says, and its new lines are put in their place at
      the line it says. */
  ghost function PatchOne(left: seq<string>, out: seq<string>, pos: nat, h: Printed): Option<(seq<string>, nat)> {
    if h.leftStart == 0 then None
    else
      var start := h.leftStart - 1;
      var end := start + |Olds(h.lines)|;
      if pos <= start && end <= |left| && left[start..end] == Olds(h.lines) && |out| + (start - pos) + 1 == h.rightStart
      then Some((out + left[pos..start] + News(h.lines), end))
      else None
  }

  /** Applying the first n hunks. */
  ghost function PatchPrefix(left: seq<string>, hunks: seq<Printed>, n: nat): Option<(seq<string>, nat)>
    requires n <= |hunks|
  {
    if n == 0 then Some(([], 0))
    else
      match PatchPrefix(left, hunks, n - 1)
      case None => None
      case Some((out, pos)) => PatchOne(left, out, pos, hunks[n - 1])
  }

  ghost function Patch(left: seq<string>, hunks: seq<Printed>): Option<seq<string>> {
    match PatchPrefix(left, hunks, |hunks|)
    case None => None
    case Some((out, pos)) => if pos > |left| then None else Some(out + left[pos..])
  }

  lemma {:induction false} SliceJoin(s: seq<string>, a: nat, b: nat, c: nat)
    requires a <= b <= c <= |s|
    ensures s[..a] + s[a..b] + s[b..c] == s[..c]
  {
  }

  /** One hunk applied where the patch has got to. */
  lemma {:induction false} PatchStep(e: seq<EditType>, left: seq<string>, right: seq<string>, h: Printed, b0: nat,
                                     a: nat, b: nat)
    requires Transforms(e, left, right) && b0 <= a <= |e| && AllMatch(e, b0, a) && Rights(e, b0) <= |right|
    requires Shows(e, left, right, h, a, b)
    ensures b <= |e| && Rights(e, b) <= |right|
    ensures PatchOne(left, right[..Rights(e, b0)], Lefts(e, b0), h) == Some((right[..Rights(e, b)], Lefts(e, b)))
  {
    MatchRun(e, left, right, b0, a);
    SliceJoin(right, Rights(e, b0), Rights(e, a), Rights(e, b));
  }

  lemma {:induction false} NothingConsumed(e: seq<EditType>)
    ensures Lefts(e, 0) == 0 && Rights(e, 0) == 0
  {
  }

  lemma {:induction false} PatchReaches(e: seq<EditType>, left: seq<string>, right: seq<string>, context: nat,
                                        hunks: seq<Printed>, ranges: seq<(nat, nat)>, n: nat)
    requires Transforms(e, left, right) && Covers(e, left, right, context, hunks, ranges, |e|) && n <= |hunks|
    ensures EndOf(ranges, n) <= |e| && Rights(e, EndOf(ranges, n)) <= |right|
    ensures PatchPrefix(left, hunks, n) == Some((right[..Rights(e, EndOf(ranges, n))], Lefts(e, EndOf(ranges, n))))
  {
    hide Shows, Window, Transforms, PatchOne, Lefts, Rights;
    if n == 0 {
      NothingConsumed(e);
    } else {
      var b0, a, b := EndOf(ranges, n - 1), ranges[n - 1].0, ranges[n - 1].1;
      PatchReaches(e, left, right, context, hunks, ranges, n - 1);
      assert CoversOne(e, left, right, context, hunks, ranges, n - 1);
      WindowInside(e, context, a, b);
      PatchStep(e, left, right, hunks[n - 1], b0, a, b);
    }
  }

  /** Hunks that cover a script form a patch that turns the left lines into the right lines. */
  lemma {:induction false} CoversPatch(e: seq<EditType>, left: seq<string>, right: seq<string>, context: nat,
                                       hunks: seq<Printed>, ranges: seq<(nat, nat)>)
    requires Transforms(e, left, right) && Covers(e, left, right, context, hunks, ranges, |e|)
    ensures Patch(left, hunks) == Some(right)
  {
    PatchReaches(e, left, right, context, hunks, ranges, |hunks|);
    var b := EndOf(ranges, |hunks|);
    MatchRun(e, left, right, b, |e|);
    var l, r := Lefts(e, b), Rights(e, b);
    assert left[l..] == left[l..|left|];
    assert right[..r] + right[r..|right|] == right;
  }

  // ----- The hunk builder -----

  /** Index of the first edit from `i` on that is not a match, or the end. */
  method FirstEdit(e: seq<EditType>, i: nat) returns (j: nat)
    requires i <= |e|
    ensures i <= j <= |e| && AllMatch(e, i, j) && (j < |e| ==> e[j] != Match)
  {
    j := i;
    while j < |e| && e[j] == Match
      invariant i <= j <= |e| && AllMatch(e, i, j)
    {
      j := j + 1;
    }
  }

  /** What a hunk under construction holds when it shows the edits in [a, k). */
  ghost predicate Holds(h: Hunk, e: seq<EditType>, left: seq<string>, right: seq<string>, a: nat, k: nat)
    reads h
  {
    && Tally(e, left, right, h.olds, h.news, h.removes, h.adds, a, k)
    && Listed(e, left, right, h.hunk, h.hunkRemoves, h.hunkAdds, a, k)
  }

  ghost predicate Tally(e: seq<EditType>, left: seq<string>, right: seq<string>, olds: seq<string>, news: seq<string>,
                        removes: nat, adds: nat, a: nat, k: nat)
  {
    && Sides(e, left, right, olds, news, a, k)
    && removes == Deleted(e, k) - Deleted(e, a) && adds == Inserted(e, k) - Inserted(e, a)
  }

  function CommonLines(s: seq<string>): (lines: seq<Line>)
    ensures |lines| == |s| && forall i :: 0 <= i < |s| ==> lines[i] == Line(' ', s[i])
  {
    seq(|s|, i requires 0 <= i < |s| => Line(' ', s[i]))
  }

  /** Push the `n` context lines in front of line `l`. */
  method PushPrefix(h: Hunk, left: seq<string>, l: nat, n: nat)
    requires n <= l <= |left|
    requires h.Valid() && h.olds == [] && h.news == [] && h.adds == h.removes == 0 && h.Flushed() == []
    modifies h
    ensures h.Valid() && h.adds == 0 && h.removes == 0
    ensures h.olds == h.news == left[l - n..l]
    ensures h.hunk == CommonLines(left[l - n..l]) && h.hunkRemoves == [] && h.hunkAdds == []
  {
    hide Olds, News, Grouped;
    var i := n;
    ghost var pushed: seq<string> := [];
    while i > 0
      invariant 0 <= i <= n && h.Valid() && h.adds == 0 && h.removes == 0
      invariant h.olds == pushed && h.news == pushed
      invariant pushed == left[l - n..l - i]
      invariant h.hunk == CommonLines(pushed) && h.hunkRemoves == [] && h.hunkAdds == []
    {
      SliceSnoc(left, l - n, l - i);
      assert CommonLines(pushed) + [] + [] + [Line(' ', left[l - i])] == CommonLines(pushed + [left[l - i]]);
      pushed := pushed + [left[l - i]];
      PushContext(h, left[l - i]);
      i := i - 1;
    }
  }

  method PushContext(h: Hunk, line: string)
    requires h.Valid()
    modifies h
    ensures h.Valid() && h.adds == old(h.adds) && h.removes == old(h.removes)
    ensures h.hunk == old(h.Flushed()) + [Line(' ', line)] && h.hunkRemoves == [] && h.hunkAdds == []
    ensures h.olds == old(h.olds) + [line] && h.news == old(h.news) + [line]
  {
    h.PushLine(' ', line);
  }

  /** Context lines that are matches in the script show those matches. */
  lemma {:induction false} PrefixHolds(h: Hunk, e: seq<EditType>, left: seq<string>, right: seq<string>, a: nat, k: nat)
    requires Transforms(e, left, right) && a <= k <= |e| && AllMatch(e, a, k) && h.adds == h.removes == 0
    requires k - a <= Lefts(e, k) <= |left| && h.olds == h.news == left[Lefts(e, k) - (k - a)..Lefts(e, k)]
    requires h.hunk == CommonLines(h.olds) && h.hunkRemoves == [] && h.hunkAdds == []
    ensures Holds(h, e, left, right, a, k)
  {
    MatchRun(e, left, right, a, k);
    MatchLines(e, left, right, a, k);
    assert RunStart(e, a, k) == k;
  }

  /** A run of matches is a run of common lines. */
  lemma {:induction false} MatchLines(e: seq<EditType>, left: seq<string>, right: seq<string>, a: nat, k: nat)
    requires Transforms(e, left, right) && a <= k <= |e| && AllMatch(e, a, k)
    ensures Lefts(e, a) <= Lefts(e, k) <= |left|
    ensures HunkLines(e, left, right, a, k) == CommonLines(left[Lefts(e, a)..Lefts(e, k)])
    decreases k - a
  {
    hide HunkLines, RunStart, Minus, Plus, Transforms, Lefts, Rights;
    MatchRun(e, left, right, a, k);
    LinesUnfold(e, left, right, a, k);
    if a < k {
      MatchRun(e, left, right, a, k - 1);
      MatchLines(e, left, right, a, k - 1);
      SliceSnoc(left, Lefts(e, a), Lefts(e, k - 1));
    }
  }

  /** Push the lines of one edit. */
  method PushEdit(h: Hunk, edit: EditType, left: seq<string>, right: seq<string>, l: nat, r: nat)
    requires h.Valid() && (edit != Add ==> l < |left|) && (edit != Remove ==> r < |right|)
    modifies h
    ensures h.Valid()
    ensures edit == Match ==>
              h.hunk == old(h.Flushed()) + [Line(' ', left[l])] && h.hunkRemoves == [] && h.hunkAdds == []
    ensures edit != Match ==>
      && h.hunk == old(h.hunk)
      && h.hunkRemoves == old(h.hunkRemoves) + (if edit == Remove || edit == Replace then [Line('-', left[l])] else [])
      && h.hunkAdds == old(h.hunkAdds) + (if edit == Add || edit == Replace then [Line('+', right[r])] else [])
    ensures h.olds == if edit == Add then old(h.olds) else old(h.olds) + [left[l]]
    ensures h.news == if edit == Remove then old(h.news)
                      else old(h.news) + [if edit == Match then left[l] else right[r]]
    ensures h.removes == old(h.removes) + (if edit == Remove || edit == Replace then 1 else 0)
    ensures h.adds == old(h.adds) + (if edit == Add || edit == Replace then 1 else 0)
  {
    hide Olds, News, Grouped;
    if edit == Match || edit == Remove || edit == Replace {
      h.PushLine(if edit == Match then ' ' else '-', left[l]);
    }
    if edit == Add || edit == Replace {
      h.PushLine('+', right[r]);
    }
  }

  /** What pushing the k-th edit does to the sides and counters. */
  lemma {:induction false} EditTally(e: seq<EditType>, left: seq<string>, right: seq<string>, olds: seq<string>,
                                     news: seq<string>,
                                     removes: nat, adds: nat, a: nat, k: nat)
    requires k < |e| && Tally(e, left, right, olds, news, removes, adds, a, k) && EditFits(e, left, right, k)
    ensures Tally(e, left, right,
                  if e[k] == Add then olds else olds + [left[Lefts(e, k)]],
                  if e[k] == Remove then news else news + [right[Rights(e, k)]],
                  removes + (if e[k] == Remove || e[k] == Replace then 1 else 0),
                  adds + (if e[k] == Add || e[k] == Replace then 1 else 0), a, k + 1)
    ensures Lefts(e, k + 1) == Lefts(e, k) + (if e[k] == Add then 0 else 1)
    ensures Rights(e, k + 1) == Rights(e, k) + (if e[k] == Remove then 0 else 1)
  {
    if e[k] != Add {
      SliceSnoc(left, Lefts(e, a), Lefts(e, k));
    }
    if e[k] != Remove {
      SliceSnoc(right, Rights(e, a), Rights(e, k));
    }
  }

  /** Push the k-th edit and advance the two positions past it. */
  method PushAndAdvance(h: Hunk, e: seq<EditType>, left: seq<string>, right: seq<string>, l: nat, r: nat, ghost a: nat,
                        k: nat)
    returns (l': nat, r': nat)
    requires Transforms(e, left, right) && k < |e| && h.Valid() && Holds(h, e, left, right, a, k)
    requires l == Lefts(e, k) && r == Rights(e, k)
    modifies h
    ensures h.Valid() && Holds(h, e, left, right, a, k + 1)
    ensures l' == Lefts(e, k + 1) && r' == Rights(e, k + 1)
    ensures e[k] == Match ==> l' == l + 1 && r' == r + 1
    ensures h.adds + h.removes >= old(h.adds + h.removes) + (if e[k] == Match then 0 else 1)
  {
    assert EditFits(e, left, right, k);
    EditTally(e, left, right, h.olds, h.news, h.removes, h.adds, a, k);
    ListedStep(e, left, right, h.hunk, h.hunkRemoves, h.hunkAdds, a, k);
    PushEdit(h, e[k], left, right, l, r);
    l' := if e[k] == Add then l else l + 1;
    r' := if e[k] == Remove then r else r + 1;
  }

  /** Push edits from `k` on until enough matching lines follow and the next edit is not close.  With
      no context, or no edit left, nothing is pushed. */
  method PushEdits(h: Hunk, e: seq<EditType>, left: seq<string>, right: seq<string>, context: nat,
                   l: nat, r: nat, ghost a: nat, k: nat)
    returns (l': nat, r': nat, k': nat, ghost g: nat)
    requires Transforms(e, left, right) && k <= |e| && (k < |e| ==> e[k] != Match) && h.Valid()
    requires l == Lefts(e, k) && r == Rights(e, k)
    requires context > 0 && k < |e| ==> Holds(h, e, left, right, a, k)
    modifies h
    ensures k <= k' <= |e| && l' == Lefts(e, k') && r' == Rights(e, k') && h.Valid()
    ensures if context > 0 && k < |e| then
              && k < g <= k' && Holds(h, e, left, right, a, k') && h.adds + h.removes > 0
              && (k' < |e| ==> l' >= context && r' >= context)
              && Ending(e, context, k, g, k')
            else k' == k && h.adds == old(h.adds) && h.removes == old(h.removes)
  {
    hide Suffix, Ending, Listed, Tally, Transforms, EditNear, Lefts, Rights;
    l', r', k', g := l, r, k, k;
    var suffix := 0;
    while k' < |e|
      invariant k <= k' <= |e| && l' == Lefts(e, k') && r' == Rights(e, k') && h.Valid()
      invariant context > 0 && k < |e| ==> Holds(h, e, left, right, a, k')
      invariant context == 0 || k == |e| ==> k' == k && h.adds == old(h.adds) && h.removes == old(h.removes)
      invariant suffix <= l' && suffix <= r' && suffix == k' - g
      invariant if k' == k then g == k else h.adds + h.removes > 0 && context > 0 && Suffix(e, context, k, g, k')
    {
      if suffix >= context {
        var it := FirstEdit(e, k');
        if it == |e| || it - k' >= context {
          if k' > k {
            SuffixEnds(e, context, k, g, k', it);
          }
          return;
        }
        SuffixNear(e, context, k, g, k', it);
      }
      if k' == k {
        SuffixStart(e, context, k);
      } else {
        SuffixStep(e, context, k, g, k');
      }
      suffix := if e[k'] == Match then suffix + 1 else 0;
      g := if e[k'] == Match then g else k' + 1;
      l', r' := PushAndAdvance(h, e, left, right, l', r', a, k');
      k' := k' + 1;
    }
    if k' > k {
      SuffixAtEnd(e, context, k, g);
    }
  }

  /** Where a hunk with edits from f on, the last one just before g, ends. */
  ghost predicate Ending(e: seq<EditType>, context: nat, f: nat, g: nat, b: nat) {
    && f < g <= b <= |e| && e[g - 1] != Match && AllMatch(e, g, b) && b - g == Least(context, |e| - g)
    && Close(e, context, f, g) && Clear(e, context, b)
  }

  /** While a hunk with edits from f on is built: the last edit is just before g, and if more than a
      context's worth of matches follow, another edit follows soon. */
  ghost predicate Suffix(e: seq<EditType>, context: nat, f: nat, g: nat, k: nat) {
    && f < g <= k <= |e| && e[g - 1] != Match && AllMatch(e, g, k) && Close(e, context, f, g)
    && (k - g > context ==> exists near :: EditNear(e, context, g, k, near))
  }

  ghost predicate EditNear(e: seq<EditType>, context: nat, g: nat, k: nat, near: nat) {
    g <= k <= near < |e| && e[near] != Match && AllMatch(e, k, near) && near - g < 2 * context
  }

  /** The first edit after enough matches, if it is close, is near. */
  lemma {:induction false} SuffixNear(e: seq<EditType>, context: nat, f: nat, g: nat, k: nat, it: nat)
    requires Suffix(e, context, f, g, k) && k - g >= context
    requires k <= it < |e| && AllMatch(e, k, it) && e[it] != Match && it - k < context
    ensures EditNear(e, context, g, k, it)
  {
    if k - g > context {
      var near :| EditNear(e, context, g, k, near);
      assert near == it;
    }
  }

  lemma {:induction false} SuffixEnds(e: seq<EditType>, context: nat, f: nat, g: nat, k: nat, it: nat)
    requires Suffix(e, context, f, g, k) && k < |e| && k - g >= context
    requires k <= it <= |e| && AllMatch(e, k, it) && (it == |e| || (e[it] != Match && it - k >= context))
    ensures Ending(e, context, f, g, k)
  {
  }

  lemma {:induction false} SuffixAtEnd(e: seq<EditType>, context: nat, f: nat, g: nat)
    requires Suffix(e, context, f, g, |e|)
    ensures Ending(e, context, f, g, |e|)
  {
  }

  lemma {:induction false} SuffixStart(e: seq<EditType>, context: nat, f: nat)
    requires f < |e| && e[f] != Match && context > 0
    ensures Suffix(e, context, f, f + 1, f + 1)
  {
  }

  /** One more edit: a match lengthens the suffix, any other starts a new one. */
  lemma {:induction false} SuffixStep(e: seq<EditType>, context: nat, f: nat, g: nat, k: nat)
    requires Suffix(e, context, f, g, k) && k < |e| && context > 0
    requires k - g >= context ==> exists near :: EditNear(e, context, g, k, near)
    ensures if e[k] == Match then Suffix(e, context, f, g, k + 1) else Suffix(e, context, f, k + 1, k + 1)
  {
    if k - g >= context {
      var near :| EditNear(e, context, g, k, near);
      if e[k] == Match {
        assert EditNear(e, context, g, k + 1, near);
      } else {
        assert near == k;
      }
    }
    if e[k] != Match {
      CloseStep(e, context, f, g, k);
    }
  }

  lemma {:induction false} CloseStep(e: seq<EditType>, context: nat, f: nat, g: nat, k: nat)
    requires f < g <= k < |e| && e[g - 1] != Match && e[k] != Match && Close(e, context, f, g) && k - g < 2 * context
    ensures Close(e, context, f, k + 1)
  {
    forall x: nat, y: nat | f <= x <= y <= k + 1 && AllMatch(e, x, y) ensures y - x < 2 * context {
      assert !(x <= k < y) && !(x <= g - 1 < y);
    }
  }

  lemma {:induction false} CoversSnoc(e: seq<EditType>, left: seq<string>, right: seq<string>, context: nat,
                                      hunks: seq<Printed>, ranges: seq<(nat, nat)>, p: Printed, k: nat, a: nat, b: nat)
    requires k <= |e| && Covers(e, left, right, context, hunks, ranges, k) && k <= a <= b <= |e| && AllMatch(e, k, a)
    requires Shows(e, left, right, p, a, b) && Window(e, context, a, b)
    ensures Covers(e, left, right, context, hunks + [p], ranges + [(a, b)], b)
  {
    var hunks', ranges' := hunks + [p], ranges + [(a, b)];
    forall i | 0 <= i < |hunks'| ensures CoversOne(e, left, right, context, hunks', ranges', i) {
      if i < |hunks| {
        assert CoversOne(e, left, right, context, hunks, ranges, i);
        assert EndOf(ranges', i) == EndOf(ranges, i);
      }
    }
  }

  /** Where the builder may stand between hunks. */
  ghost predicate Between(e: seq<EditType>, context: nat, k: nat)
    requires k <= |e|
  {
    k == 0 || k == |e| || (Lefts(e, k) >= context && Rights(e, k) >= context && Clear(e, context, k))
  }

  /** In front of the first edit after a place between hunks there is room for its context. */
  lemma {:induction false} PrefixFits(e: seq<EditType>, context: nat, k: nat, f: nat)
    requires k <= f <= |e| && k < |e| && Between(e, context, k) && AllMatch(e, k, f) && f < |e| && e[f] != Match
    requires Lefts(e, f) == Lefts(e, k) + (f - k)
    ensures Least(context, Lefts(e, f)) == Least(context, f) && k + Least(context, f) <= f
  {
    LeftsBound(e, k);
    assert k > 0 ==> f >= k + context;
  }

  lemma {:induction false} LeftsBound(e: seq<EditType>, k: nat)
    requires k <= |e|
    ensures Lefts(e, k) <= k
  {
    if k > 0 {
      LeftsBound(e, k - 1);
    }
  }

  /** Skip to the next edit and start a hunk with the context in front of it. */
  method OpenHunk(e: seq<EditType>, left: seq<string>, right: seq<string>, context: nat, l: nat, r: nat, k: nat)
    returns (hunk: Hunk, l': nat, r': nat, f: nat, ghost a: nat)
    requires Transforms(e, left, right) && k < |e| && l == Lefts(e, k) && r == Rights(e, k)
    requires Between(e, context, k)
    ensures fresh(hunk) && hunk.Valid() && hunk.adds == hunk.removes == 0
    ensures k <= f <= |e| && l' == Lefts(e, f) && r' == Rights(e, f) && AllMatch(e, k, f) && (f < |e| ==> e[f] != Match)
    ensures context > 0 && f < |e| ==>
      && k <= a <= f && f - a == Least(context, f) && Holds(hunk, e, left, right, a, f)
      && hunk.leftStart == Lefts(e, a) + 1 && hunk.rightStart == Rights(e, a) + 1
  {
    f := FirstEdit(e, k);
    MatchRun(e, left, right, k, f);
    l', r' := l + (f - k), r + (f - k);
    var prefix := if l' < context then l' else context;
    hunk := new Hunk(l' - prefix + 1, r' - prefix + 1);
    PushPrefix(hunk, left, l', prefix);
    a := if f >= prefix then f - prefix else 0;
    if context > 0 && f < |e| {
      PrefixFits(e, context, k, f);
      PrefixHolds(hunk, e, left, right, a, f);
      MatchRun(e, left, right, a, f);
    }
  }

  /** Skip to the next edit and build the hunk around it; `None` if it has no edits. */
  method NextHunk(e: seq<EditType>, left: seq<string>, right: seq<string>, context: nat, l: nat, r: nat, k: nat)
    returns (p: Option<Printed>, l': nat, r': nat, k': nat, ghost a: nat)
    requires Transforms(e, left, right) && k < |e| && l == Lefts(e, k) && r == Rights(e, k)
    requires Between(e, context, k)
    ensures k' <= |e| && l' == Lefts(e, k') && r' == Rights(e, k')
    ensures p.None? ==> context == 0 || AllMatch(e, k, |e|)
    ensures p.Some? ==>
      && context > 0 && k <= a < k' && AllMatch(e, k, a) && Shows(e, left, right, p.value, a, k')
      && Window(e, context, a, k') && Between(e, context, k')
  {
    hide Listed, Transforms, Lefts, Rights, HunkLines, Grouped, Olds, News, Close, Clear;
    var hunk, f;
    ghost var g;
    hunk, l', r', f, a := OpenHunk(e, left, right, context, l, r, k);
    l', r', k', g := PushEdits(hunk, e, left, right, context, l', r', a, f);
    if !hunk.HasEdits() {
      return None, l', r', k', a;
    }
    ListedLines(e, left, right, hunk.hunk, hunk.hunkRemoves, hunk.hunkAdds, a, k');
    assert WindowAt(e, context, a, f, g, k');
    var printed := hunk.Print();
    p := Some(printed);
  }

  /** The unified diff of two lists of lines.  With a context of at least one line its hunks show
      every non-matching edit exactly once; with no context the builder stops at the first edit and
      prints nothing. */
  method CreateUnifiedDiff(left: seq<string>, right: seq<string>, context: nat)
    returns (hunks: seq<Printed>, text: string)
    ensures text == Text(hunks)
    ensures context > 0 ==>
      var e := Script(left, right, |left|, |right|);
      exists ranges :: Covers(e, left, right, context, hunks, ranges, |e|)
    ensures Patch(left, hunks) == Some(right) <==> context > 0 || left == right
    ensures context == 0 ==> hunks == []
  {
    hide Window, Shows, Transforms, Script, CoversOne, PatchOne, Lefts, Rights;
    var e := CalculateOptimalLineEdits(left, right);
    NothingConsumed(e);
    var l, r, k := 0, 0, 0;
    hunks, text := [], "";
    ghost var ranges: seq<(nat, nat)> := [];
    while k < |e|
      invariant k <= |e| && l == Lefts(e, k) && r == Rights(e, k) && text == Text(hunks)
      invariant Covers(e, left, right, context, hunks, ranges, k) && Between(e, context, k)
      invariant context == 0 ==> hunks == []
      decreases |e| - k
    {
      var p, l', r', k', a := NextHunk(e, left, right, context, l, r, k);
      if p.None? {
        break;
      }
      CoversSnoc(e, left, right, context, hunks, ranges, p.value, k, a, k');
      hunks, ranges := hunks + [p.value], ranges + [(a, k')];
      assert hunks[..|hunks| - 1] + [p.value] == hunks;
      text := text + Header(p.value) + Body(p.value.lines);
      l, r, k := l', r', k';
    }
    if context > 0 {
      assert AllMatch(e, k, |e|);
      assert Covers(e, left, right, context, hunks, ranges, |e|);
      CoversPatch(e, left, right, context, hunks, ranges);
    } else {
      assert [] + left[0..] == left;
      assert Patch(left, []) == Some(left);
    }
  }
}
