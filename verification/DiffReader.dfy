/** Reading a unified diff back from its text, and applying it. */
module DiffReader {
  import opened EditScript
  import opened UnifiedDiff
  import Decimal
  import IntText

  // ----- The reader -----

  /** Index of the first newline, or the length. */
  function LineEnd(s: string): (i: nat)
    ensures i <= |s| && '\n' !in s[..i] && (i < |s| ==> s[i] == '\n')
  {
    if |s| == 0 || s[0] == '\n' then 0
    else
      var i := LineEnd(s[1..]) + 1;
      assert s[..i] == [s[0]] + s[1..][..i - 1];
      i
  }

  function SplitLines(s: string): seq<string>
    decreases |s|
  {
    if |s| == 0 then []
    else if LineEnd(s) == |s| then [s]
    else [s[..LineEnd(s)]] + SplitLines(s[LineEnd(s) + 1..])
  }

  /** The range of lines on one side of a hunk, as its header gives it. */
  datatype Range = Absent | Range(start: nat, length: nat)

  datatype Head = Head(minus: Range, plus: Range)

  datatype Read = Read(head: Head, lines: seq<Line>)

  datatype Scan = NoScan | Scan(range: Range, rest: string)

  /** Two numbers with a comma between them, at the head of a text. */
  function ReadRange(s: string): Scan {
    var n := IntText.DigitRun(s);
    if n == 0 || n == |s| || s[n] != ',' then NoScan
    else
      var t := s[n + 1..];
      var m := IntText.DigitRun(t);
      if m == 0 then NoScan else Scan(Range(Decimal.Value(s[..n]), Decimal.Value(t[..m])), t[m..])
  }

  /** The rest of a header from its plus part on, which may be missing. */
  function ReadPlus(s: string): Option<Range> {
    if s == " @@" then Some(Absent)
    else if |s| > 0 && s[0] == '+' then
      match ReadRange(s[1..])
      case NoScan => None
      case Scan(plus, rest) => if rest == " @@" then Some(plus) else None
    else None
  }

  function ReadHead(s: string): Option<Head> {
    if !("@@ " <= s) then None
    else if |s| > 3 && s[3] == '-' then
      match ReadRange(s[4..])
      case NoScan => None
      case Scan(minus, rest) =>
        match ReadPlus(if |rest| > 1 && rest[1] == '+' then rest[1..] else rest)
        case None => None
        case Some(plus) => Some(Head(minus, plus))
    else
      match ReadPlus(s[3..])
      case None => None
      case Some(plus) => Some(Head(Absent, plus))
  }

  predicate IsHead(line: string) { |line| > 0 && line[0] == '@' }

  /** Hunks from lines: a header starts one, any other line belongs to the last. */
  function ReadLines(ls: seq<string>): seq<Read> {
    if |ls| == 0 then []
    else
      var before, last := ReadLines(ls[..|ls| - 1]), ls[|ls| - 1];
      if IsHead(last) then
        match ReadHead(last)
        case None => before
        case Some(head) => before + [Read(head, [])]
      else if |before| == 0 || |last| == 0 then before
      else
        var n := |before| - 1;
        before[n := before[n].(lines := before[n].lines + [Line(last[0], last[1..])])]
  }

  function ReadDiff(text: string): seq<Read> { ReadLines(SplitLines(text)) }

  // ----- What a reader should find -----

  /** The header shows a side of the hunk exactly when lines are marked on it: where its lines start and
      how many there are. */
  function HeadOf(p: Printed): Head {
    Head(if CountKind(p.lines, '-') > 0 then Range(p.leftStart, |Olds(p.lines)|) else Absent,
         if CountKind(p.lines, '+') > 0 then Range(p.rightStart, |News(p.lines)|) else Absent)
  }

  function ReadOf(p: Printed): Read { Read(HeadOf(p), p.lines) }

  predicate IsKind(c: char) { c == ' ' || c == '-' || c == '+' }

  predicate Plain(line: Line) { IsKind(line.kind) && '\n' !in line.text }

  predicate AllPlain(lines: seq<Line>) { forall i :: 0 <= i < |lines| ==> Plain(lines[i]) }

  /** Counters that go with the lines, at least one of which is marked; lines without newlines. */
  predicate Readable(p: Printed) {
    && AllPlain(p.lines)
    && p.removes == CountKind(p.lines, '-') && p.adds == CountKind(p.lines, '+') && p.removes + p.adds > 0
    && p.removes + p.common == |Olds(p.lines)| && p.adds + p.common == |News(p.lines)|
  }

  predicate AllReadable(hunks: seq<Printed>) { forall i :: 0 <= i < |hunks| ==> Readable(hunks[i]) }

  // ----- Headers -----

  function RangeText(a: nat, b: nat): string { Decimal.Text(a) + "," + Decimal.Text(b) }

  /** A number with something else behind it. */
  lemma {:induction false} NumberReads(a: nat, rest: string)
    requires |rest| > 0 ==> !Decimal.IsDigit(rest[0])
    ensures var s, n := Decimal.Text(a) + rest, |Decimal.Text(a)|;
            && IntText.DigitRun(s) == n && 0 < n && s[..n] == Decimal.Text(a) && s[n..] == rest
            && Decimal.Value(Decimal.Text(a)) == a
  {
    hide IntText.DigitRun, Decimal.Value, Decimal.Text;
    IntText.RunOfDigits(Decimal.Text(a), rest);
    Decimal.ValueOfText(a);
  }

  lemma {:induction false} ReadRangeIs(s: string, n: nat, t: string, m: nat)
    requires IntText.DigitRun(s) == n && 0 < n < |s| && s[n] == ',' && t == s[n + 1..]
    requires IntText.DigitRun(t) == m && 0 < m
    ensures ReadRange(s) == Scan(Range(Decimal.Value(s[..n]), Decimal.Value(t[..m])), t[m..])
  {
    hide IntText.DigitRun, Decimal.Value;
  }

  lemma {:induction false} RangeReads(a: nat, b: nat, rest: string)
    requires |rest| > 0 ==> !Decimal.IsDigit(rest[0])
    ensures ReadRange(RangeText(a, b) + rest) == Scan(Range(a, b), rest)
  {
    hide IntText.DigitRun, Decimal.Value, Decimal.Text, ReadRange;
    var x, y := Decimal.Text(a), Decimal.Text(b);
    CommaBetween(x, y, rest);
    NumberReads(a, "," + (y + rest));
    NumberReads(b, rest);
    ReadRangeIs(x + "," + y + rest, |x|, y + rest, |y|);
  }

  lemma {:induction false} CommaBetween(x: string, y: string, rest: string)
    ensures var s := x + "," + y + rest;
            s == x + ("," + (y + rest)) && s[|x|] == ',' && s[|x| + 1..] == y + rest
  {
  }

  /** The plus part of a header, and its end. */
  function PlusText(p: Printed): string {
    (if p.adds > 0 then "+" + RangeText(p.rightStart, p.adds + p.common) else "") + " @@"
  }

  /** A header without its newline. */
  function HeadLine(p: Printed): string {
    "@@ " + (if p.removes > 0
             then "-" + (RangeText(p.leftStart, p.removes + p.common) 
                     + ((if p.adds > 0 then " " else "") + PlusText(p)))
             else PlusText(p))
  }

  lemma {:induction false} HeaderIsLine(p: Printed)
    requires p.removes + p.adds > 0
    ensures Header(p) == HeadLine(p) + "\n"
  {
    hide Decimal.Text;
    var l, m := Decimal.Text(p.leftStart), Decimal.Text(p.removes + p.common);
    var r, n := Decimal.Text(p.rightStart), Decimal.Text(p.adds + p.common);
    var minus, plus := "-" + l + "," + m, "+" + r + "," + n;
    assert minus == "-" + (l + "," + m) && plus == "+" + (r + "," + n);
    HeaderParts(minus, plus);
    if p.removes > 0 {
      MinusFirst(l + "," + m, (if p.adds > 0 then " " else "") + PlusText(p));
    }
  }

  lemma {:induction false} MinusFirst(a: string, b: string)
    ensures "-" + a + b == "-" + (a + b)
  {
  }

  lemma {:induction false} HeaderParts(minus: string, plus: string)
    ensures "@@ " + minus + " " + plus + " @@\n" == "@@ " + (minus + (" " + (plus + " @@"))) + "\n"
    ensures "@@ " + minus + "" + "" + " @@\n" == "@@ " + (minus + ("" + ("" + " @@"))) + "\n"
    ensures "@@ " + "" + "" + plus + " @@\n" == "@@ " + (plus + " @@") + "\n"
  {
  }

  lemma {:induction false} PlusFirst(s: string, tail: string)
    requires s == "+" + tail
    ensures |s| > 0 && s[0] == '+' && s[1..] == tail
  {
  }

  lemma {:induction false} PlusReads(p: Printed)
    ensures ReadPlus(PlusText(p)) == Some(if p.adds > 0 then Range(p.rightStart, p.adds + p.common) else Absent)
  {
    hide ReadRange, RangeText;
    if p.adds > 0 {
      var tail := RangeText(p.rightStart, p.adds + p.common) + " @@";
      RangeReads(p.rightStart, p.adds + p.common, " @@");
      assert PlusText(p) == "+" + tail;
      PlusFirst(PlusText(p), tail);
    } else {
      assert PlusText(p) == " @@";
    }
  }

  lemma {:induction false} HeadReads(p: Printed)
    requires p.removes + p.adds > 0
    ensures ReadHead(HeadLine(p))
            == Some(Head(if p.removes > 0 then Range(p.leftStart, p.removes + p.common) else Absent,
                         if p.adds > 0 then Range(p.rightStart, p.adds + p.common) else Absent))
  {
    hide ReadRange, RangeText, ReadPlus;
    PlusReads(p);
    var plus := PlusText(p);
    if p.removes > 0 {
      var rest := (if p.adds > 0 then " " else "") + plus;
      assert p.adds > 0 ==> rest[1] == '+' && rest[1..] == plus;
      assert p.adds == 0 ==> rest == plus && plus == " @@" && rest[1] == '@';
      RangeReads(p.leftStart, p.removes + p.common, rest);
      MinusReads(HeadLine(p), RangeText(p.leftStart, p.removes + p.common) + rest);
    } else {
      assert HeadLine(p)[3..] == plus && HeadLine(p)[3] == '+';
    }
  }

  lemma {:induction false} MinusReads(s: string, tail: string)
    requires s == "@@ " + ("-" + tail)
    ensures "@@ " <= s && |s| > 3 && s[3] == '-' && s[4..] == tail
  {
  }

  lemma {:induction false} DigitsNoNewline(s: string)
    requires Decimal.AllDigits(s)
    ensures '\n' !in s
  {
  }

  lemma {:induction false} HeadNoNewline(p: Printed)
    ensures '\n' !in HeadLine(p) && IsHead(HeadLine(p))
  {
    DigitsNoNewline(Decimal.Text(p.leftStart));
    DigitsNoNewline(Decimal.Text(p.removes + p.common));
    DigitsNoNewline(Decimal.Text(p.rightStart));
    DigitsNoNewline(Decimal.Text(p.adds + p.common));
    assert '\n' !in PlusText(p);
  }

  // ----- Lines -----

  /** Text that ends at the end of a line. */
  predicate Complete(s: string) { |s| > 0 ==> s[|s| - 1] == '\n' }

  lemma {:induction false} SplitOne(line: string, rest: string)
    requires '\n' !in line
    ensures SplitLines(line + "\n" + rest) == [line] + SplitLines(rest)
  {
    var s := line + "\n" + rest;
    var i := LineEnd(s);
    assert s[|line|] == '\n' && i == |line|;
    assert s[..i] == line && s[i + 1..] == rest;
  }

  lemma {:induction false} FirstLine(a: string) returns (line: string, rest: string)
    requires Complete(a) && |a| > 0
    ensures '\n' !in line && a == line + "\n" + rest && Complete(rest) && |rest| < |a|
  {
    var i := LineEnd(a);
    assert i < |a| by {
      assert a[|a| - 1] == '\n' && a[..|a|] == a;
    }
    line, rest := a[..i], a[i + 1..];
  }

  lemma {:induction false} SplitNothing()
    ensures SplitLines("") == []
  {
  }

  lemma {:induction false} SplitConcat(a: string, b: string)
    requires Complete(a)
    ensures SplitLines(a + b) == SplitLines(a) + SplitLines(b)
    decreases |a|
  {
    hide SplitLines, Complete, LineEnd;
    if |a| == 0 {
      SplitNothing();
      assert a + b == b;
    } else {
      var line, rest := FirstLine(a);
      assert a + b == line + "\n" + (rest + b);
      SplitOne(line, rest);
      SplitOne(line, rest + b);
      SplitConcat(rest, b);
    }
  }

  function LineText(line: Line): string { [line.kind] + line.text }

  function BodyLines(lines: seq<Line>): (r: seq<string>)
    ensures |r| == |lines|
  {
    seq(|lines|, i requires 0 <= i < |lines| => LineText(lines[i]))
  }

  lemma {:induction false} BodySnoc(front: seq<Line>, last: Line)
    ensures Body(front + [last]) == Body(front) + (LineText(last) + "\n" + "")
    ensures BodyLines(front + [last]) == BodyLines(front) + [LineText(last)]
  {
    assert (front + [last])[..|front|] == front;
  }

  lemma {:induction false} SplitBody(lines: seq<Line>)
    requires AllPlain(lines)
    ensures Complete(Body(lines)) && SplitLines(Body(lines)) == BodyLines(lines)
  {
    if |lines| == 0 {
      SplitNothing();
    } else {
      hide SplitLines, Body, BodyLines, LineEnd;
      var n := |lines| - 1;
      var front, last := lines[..n], lines[n];
      assert lines == front + [last] && Plain(last);
      SplitBody(front);
      BodySnoc(front, last);
      SplitConcat(Body(front), LineText(last) + "\n" + "");
      SplitOne(LineText(last), "");
      SplitNothing();
    }
  }

  function HunkText(p: Printed): seq<string> { [HeadLine(p)] + BodyLines(p.lines) }

  function AllLines(hunks: seq<Printed>): seq<string> {
    if |hunks| == 0 then [] else AllLines(hunks[..|hunks| - 1]) + HunkText(hunks[|hunks| - 1])
  }

  lemma {:induction false} SplitHunk(p: Printed)
    requires Readable(p)
    ensures Complete(Header(p) + Body(p.lines)) && SplitLines(Header(p) + Body(p.lines)) == HunkText(p)
  {
    HeaderIsLine(p);
    HeadNoNewline(p);
    SplitBody(p.lines);
    SplitOne(HeadLine(p), Body(p.lines));
  }

  lemma {:induction false} TextSnoc(front: seq<Printed>, p: Printed)
    ensures Text(front + [p]) == Text(front) + (Header(p) + Body(p.lines))
    ensures AllLines(front + [p]) == AllLines(front) + HunkText(p)
  {
    hide Header, Body, HunkText;
    assert (front + [p])[..|front|] == front && (front + [p])[|front|] == p;
  }

  lemma {:induction false} NoText()
    ensures Text([]) == "" && AllLines([]) == []
  {
  }

  lemma {:induction false} SplitText(hunks: seq<Printed>)
    requires AllReadable(hunks)
    ensures Complete(Text(hunks)) && SplitLines(Text(hunks)) == AllLines(hunks)
  {
    hide SplitLines, Header, Body, HunkText, Readable, Text, AllLines;
    SplitNothing();
    NoText();
    if |hunks| > 0 {
      var n := |hunks| - 1;
      var front, p := hunks[..n], hunks[n];
      assert hunks == front + [p];
      SplitText(front);
      SplitHunk(p);
      TextSnoc(front, p);
      SplitConcat(Text(front), Header(p) + Body(p.lines));
      CompleteConcat(Text(front), Header(p) + Body(p.lines));
    }
  }

  lemma {:induction false} CompleteConcat(a: string, b: string)
    requires Complete(a) && Complete(b)
    ensures Complete(a + b)
  {
  }

  // ----- Reading gives the hunks back -----

  lemma {:induction false} ReadHeadLine(ls: seq<string>, x: string, head: Head)
    requires IsHead(x) && ReadHead(x) == Some(head)
    ensures ReadLines(ls + [x]) == ReadLines(ls) + [Read(head, [])]
  {
    hide ReadHead;
    assert (ls + [x])[..|ls|] == ls && (ls + [x])[|ls|] == x;
  }

  lemma {:induction false} ReadBodyLine(ls: seq<string>, line: Line, front: seq<Read>, r: Read)
    requires Plain(line) && ReadLines(ls) == front + [r]
    ensures ReadLines(ls + [LineText(line)]) == front + [r.(lines := r.lines + [line])]
  {
    hide ReadHead;
    var x := LineText(line);
    assert (ls + [x])[..|ls|] == ls && (ls + [x])[|ls|] == x;
    assert x[0] == line.kind && x[1..] == line.text;
  }

  lemma {:induction false} HeadIsHeadOf(p: Printed)
    requires Readable(p)
    ensures IsHead(HeadLine(p)) && ReadHead(HeadLine(p)) == Some(HeadOf(p))
  {
    hide ReadHead, HeadLine, CountKind, Olds, News;
    HeadNoNewline(p);
    HeadReads(p);
  }

  /** The lines of one hunk, after those of others. */
  lemma {:induction false} ReadHunk(ls: seq<string>, p: Printed, k: nat)
    requires Readable(p) && k <= |p.lines|
    ensures ReadLines(ls + [HeadLine(p)] + BodyLines(p.lines[..k])) == ReadLines(ls) + [Read(HeadOf(p), p.lines[..k])]
  {
    hide ReadLines, ReadHead, HeadLine, HeadOf, BodyLines, LineText, CountKind, Olds, News;
    HeadIsHeadOf(p);
    if k == 0 {
      ReadHeadLine(ls, HeadLine(p), HeadOf(p));
      assert p.lines[..0] == [] && |BodyLines([])| == 0;
      assert ls + [HeadLine(p)] + BodyLines([]) == ls + [HeadLine(p)];
    } else {
      ReadHunk(ls, p, k - 1);
      var front, line := p.lines[..k - 1], p.lines[k - 1];
      assert p.lines[..k] == front + [line] && Plain(line);
      BodySnoc(front, line);
      ReadBodyLine(ls + [HeadLine(p)] + BodyLines(front), line, ReadLines(ls), Read(HeadOf(p), front));
      assert ls + [HeadLine(p)] + (BodyLines(front) + [LineText(line)])
          == ls + [HeadLine(p)] + BodyLines(front) + [LineText(line)];
    }
  }

  function ReadsOf(hunks: seq<Printed>): (r: seq<Read>)
    ensures |r| == |hunks| && forall i :: 0 <= i < |r| ==> r[i] == ReadOf(hunks[i])
  {
    seq(|hunks|, i requires 0 <= i < |hunks| => ReadOf(hunks[i]))
  }

  lemma {:induction false} ReadNothing()
    ensures ReadLines([]) == []
  {
  }

  lemma {:induction false} ReadAll(hunks: seq<Printed>)
    requires AllReadable(hunks)
    ensures ReadLines(AllLines(hunks)) == ReadsOf(hunks)
  {
    hide ReadLines, HeadLine, HeadOf, BodyLines, Readable;
    if |hunks| == 0 {
      ReadNothing();
    } else {
      var n := |hunks| - 1;
      var front, p := hunks[..n], hunks[n];
      ReadAll(front);
      ReadHunk(AllLines(front), p, |p.lines|);
      assert p.lines[..|p.lines|] == p.lines;
      assert AllLines(hunks) == AllLines(front) + [HeadLine(p)] + BodyLines(p.lines);
      assert ReadsOf(hunks) == ReadsOf(front) + [ReadOf(p)];
    }
  }

  /** The text of a diff gives back its hunks: the lines with their marks, and in the header the first
      line and the number of lines of each side that has marked lines. */
  lemma {:induction false} TextReadsBack(hunks: seq<Printed>)
    requires AllReadable(hunks)
    ensures ReadDiff(Text(hunks)) == ReadsOf(hunks)
  {
    SplitText(hunks);
    ReadAll(hunks);
  }

  // ----- Applying the text -----

  /** Applying one hunk as it was read: its place is told by the left start or, if that is not given, by
      the right start and what has been put out. */
  ghost function ApplyOne(left: seq<string>, out: seq<string>, pos: nat, h: Read): Option<(seq<string>, nat)> {
    var start := if h.head.minus.Range? then h.head.minus.start - 1
                 else if h.head.plus.Range? then pos + h.head.plus.start - 1 - |out| else pos;
    var end := start + |Olds(h.lines)|;
    if && pos <= start && end <= |left| && left[start..end] == Olds(h.lines)
       && (h.head.minus.Range? ==> h.head.minus.length == |Olds(h.lines)|)
       && (h.head.plus.Range? ==>
             h.head.plus.length == |News(h.lines)| && |out| + (start - pos) + 1 == h.head.plus.start)
    then Some((out + left[pos..start] + News(h.lines), end))
    else None
  }

  ghost function ApplyPrefix(left: seq<string>, found: seq<Read>, n: nat): Option<(seq<string>, nat)>
    requires n <= |found|
  {
    if n == 0 then Some(([], 0))
    else
      match ApplyPrefix(left, found, n - 1)
      case None => None
      case Some((out, pos)) => ApplyOne(left, out, pos, found[n - 1])
  }

  /** The text of a diff, applied to the left lines. */
  ghost function Apply(left: seq<string>, text: string): Option<seq<string>> {
    var found := ReadDiff(text);
    match ApplyPrefix(left, found, |found|)
    case None => None
    case Some((out, pos)) => if pos > |left| then None else Some(out + left[pos..])
  }

  lemma {:induction false} ApplyOneIsPatchOne(left: seq<string>, out: seq<string>, pos: nat, p: Printed)
    requires Readable(p) && PatchOne(left, out, pos, p).Some?
    ensures ApplyOne(left, out, pos, ReadOf(p)) == PatchOne(left, out, pos, p)
  {
  }

  lemma {:induction false} ApplyIsPatch(left: seq<string>, hunks: seq<Printed>, n: nat)
    requires AllReadable(hunks) && n <= |hunks| && PatchPrefix(left, hunks, n).Some?
    ensures ApplyPrefix(left, ReadsOf(hunks), n) == PatchPrefix(left, hunks, n)
  {
    if n > 0 {
      ApplyIsPatch(left, hunks, n - 1);
      var (out, pos) := PatchPrefix(left, hunks, n - 1).value;
      ApplyOneIsPatchOne(left, out, pos, hunks[n - 1]);
    }
  }

  // ----- The diff of two lists -----

  predicate NoNewlines(lines: seq<string>) { forall i :: 0 <= i < |lines| ==> '\n' !in lines[i] }

  lemma {:induction false} AllPlainConcat(a: seq<Line>, b: seq<Line>)
    requires AllPlain(a) && AllPlain(b)
    ensures AllPlain(a + b)
  {
  }

  lemma {:induction false} RunPlain(e: seq<EditType>, left: seq<string>, right: seq<string>, j: nat, k: nat)
    requires j <= k <= |e| && NoNewlines(left) && NoNewlines(right)
    ensures AllPlain(Minus(e, left, j, k)) && AllPlain(Plus(e, right, j, k))
  {
    if j < k {
      RunPlain(e, left, right, j, k - 1);
    }
  }

  lemma {:induction false} HunkPlain(e: seq<EditType>, left: seq<string>, right: seq<string>, a: nat, k: nat)
    requires a <= k <= |e| && NoNewlines(left) && NoNewlines(right)
    ensures AllPlain(HunkLines(e, left, right, a, k))
    decreases k
  {
    hide HunkLines, Minus, Plus, Lefts;
    LinesUnfold(e, left, right, a, k);
    if a < k && e[k - 1] == Match {
      HunkPlain(e, left, right, a, k - 1);
    } else if a < k {
      var j := RunStart(e, a, k);
      HunkPlain(e, left, right, a, j);
      RunPlain(e, left, right, j, k);
      AllPlainConcat(HunkLines(e, left, right, a, j), Minus(e, left, j, k));
    }
  }

  lemma {:induction false} ShownReadable(e: seq<EditType>, left: seq<string>, right: seq<string>, p: Printed, a: nat,
                                         b: nat)
    requires NoNewlines(left) && NoNewlines(right) && Shows(e, left, right, p, a, b)
    ensures Readable(p)
  {
    HunkPlain(e, left, right, a, b);
    MarkCounts(e, left, right, a, b);
  }

  /** The text of hunks that cover a script, applied to the left lines, gives the right lines. */
  lemma {:induction false} CoveringTextApplies(e: seq<EditType>, left: seq<string>, right: seq<string>, context: nat,
                                               hunks: seq<Printed>, ranges: seq<(nat, nat)>)
    requires NoNewlines(left) && NoNewlines(right)
    requires Transforms(e, left, right) && Covers(e, left, right, context, hunks, ranges, |e|)
    ensures AllReadable(hunks) && ReadDiff(Text(hunks)) == ReadsOf(hunks)
    ensures Apply(left, Text(hunks)) == Some(right)
  {
    hide Shows, Window, Readable, PatchOne, Transforms;
    forall i | 0 <= i < |hunks| ensures Readable(hunks[i]) {
      assert CoversOne(e, left, right, context, hunks, ranges, i);
      ShownReadable(e, left, right, hunks[i], ranges[i].0, ranges[i].1);
    }
    TextReadsBack(hunks);
    CoversPatch(e, left, right, context, hunks, ranges);
    ApplyIsPatch(left, hunks, |hunks|);
  }

  /** What the caller gets is the text alone: for lines without newlines, reading it gives back hunks that
      cover the script, and applying it to the left lines gives the right lines. */
  method DiffText(left: seq<string>, right: seq<string>, context: nat) returns (text: string)
    ensures NoNewlines(left) && NoNewlines(right) && context > 0 ==>
      var e := Script(left, right, |left|, |right|);
      exists hunks, ranges :: Covers(e, left, right, context, hunks, ranges, |e|) && ReadDiff(text) == ReadsOf(hunks)
    ensures NoNewlines(left) && NoNewlines(right) ==>
              (Apply(left, text) == Some(right) <==> context > 0 || left == right)
  {
    var hunks;
    hunks, text := CreateUnifiedDiff(left, right, context);
    ghost var e := Script(left, right, |left|, |right|);
    ScriptTransforms(left, right, |left|, |right|);
    assert left[..|left|] == left && right[..|right|] == right;
    if NoNewlines(left) && NoNewlines(right) {
      if context > 0 {
        ghost var ranges :| Covers(e, left, right, context, hunks, ranges, |e|);
        CoveringTextApplies(e, left, right, context, hunks, ranges);
      } else {
        TextReadsBack([]);
        assert [] + left[0..] == left;
      }
    }
  }
}
