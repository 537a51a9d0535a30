/** The format-string engine: replacement fields, argument indexing, and literal text.

    How one argument is rendered is a parameter; everything proved here holds for every renderer. */
module Formatter {
  import opened Widths
  import opened FormatArgs
  import opened IntWriter
  import opened FormatSpec
  import Decimal
  import IntText

  datatype Count = Count(n: nat, pos: nat)

  datatype Precision = Precision(n: int, pos: nat)

  /** The pending literal text is s[start..pos]. */
  datatype Cursor = Cursor(start: nat, pos: nat)

  datatype Fetched = Fetched(arg: Arg, pos: nat)

  // ----- References -----

  /** Named arguments stand for the argument they point at. */
  function Deref(a: Arg): Arg {
    if a.tag == NAMED_ARG && a.payload.Named? then a.payload.arg else a
  }

  /** No argument has a formatting function of its own. */
  ghost predicate NoCustom(args: seq<Arg>) {
    forall i :: 0 <= i < |args| ==> Deref(args[i]).tag != CUSTOM
  }

  /** A reference agrees with the text at its position and with the argument list. */
  ghost predicate RefOk(s: string, args: seq<Arg>, r: Ref) {
    match r.how
    case Auto(i) =>
      i < |args| && r.arg == Deref(args[i]) && !Decimal.IsDigit(Peek(s, r.pos)) && !IsNameStart(Peek(s, r.pos))
    case Indexed(i) =>
      && i < |args| && r.arg == Deref(args[i])
      && r.pos < |s| && Decimal.IsDigit(s[r.pos]) && IntText.ParseLoop(s[r.pos..], 0) == IntText.Ok(i)
    case ByName(name) =>
      && name in FirstNamed(args, |args|) && r.arg == FirstNamed(args, |args|)[name]
      && r.pos < |s| && IsNameStart(s[r.pos]) && name == s[r.pos..NameEnd(s, r.pos)]
  }

  ghost predicate RefsOk(s: string, args: seq<Arg>, refs: seq<Ref>) {
    forall i :: 0 <= i < |refs| ==> RefOk(s, args, refs[i])
  }

  /** Automatic references count up from zero, and never stand beside others. */
  ghost predicate Unmixed(refs: seq<Ref>) {
    || (forall i :: 0 <= i < |refs| ==> refs[i].how == Auto(i))
    || (forall i :: 0 <= i < |refs| ==> !refs[i].how.Auto?)
  }

  /** References that may come next after those in the log. */
  ghost predicate MayFollow(s: string, args: seq<Arg>, log: seq<Ref>, refs: seq<Ref>) {
    RefsOk(s, args, refs) && Unmixed(log + refs)
  }

  /** The indexing state machine: what `next_arg_index_` says about the references so far. */
  ghost predicate IndexState(next: int, log: seq<Ref>) {
    if next >= 0 then |log| == next && forall i :: 0 <= i < |log| ==> log[i].how == Auto(i)
    else next == -1 && |log| > 0 && forall i :: 0 <= i < |log| ==> !log[i].how.Auto?
  }

  /** All that is kept about the references made. */
  ghost predicate LogOk(s: string, args: seq<Arg>, next: int, log: seq<Ref>) {
    IndexState(next, log) && RefsOk(s, args, log)
  }

  lemma {:induction false} LogSnoc(s: string, args: seq<Arg>, next: int, log: seq<Ref>, r: Ref, next': int)
    requires LogOk(s, args, next, log) && RefOk(s, args, r)
    requires if r.how.Auto? then next >= 0 && r.how.index == next && next' == next + 1 else next <= 0 && next' == -1
    ensures LogOk(s, args, next', log + [r])
  {
    hide RefOk;
  }

  lemma {:induction false} LogUnmixed(s: string, args: seq<Arg>, next: int, log: seq<Ref>)
    requires LogOk(s, args, next, log)
    ensures Unmixed(log)
  {
    hide RefOk;
  }

  /** The text and the references before it decide a reference. */
  lemma {:induction false} RefDecided(s: string, args: seq<Arg>, next: int, log: seq<Ref>, x: Ref)
    requires LogOk(s, args, next, log) && RefOk(s, args, x) && Unmixed(log + [x])
    ensures x.how.Auto? ==> x.how.index == next
    ensures !x.how.Auto? ==> next <= 0
  {
    hide RefOk;
    var all := log + [x];
    assert all[|log|] == x;
    assert |log| > 0 ==> all[0] == log[0];
  }

  lemma {:induction false} UnmixedPrefix(refs: seq<Ref>, more: seq<Ref>)
    requires Unmixed(refs + more)
    ensures Unmixed(refs)
  {
    var all := refs + more;
    assert forall i :: 0 <= i < |refs| ==> all[i] == refs[i];
  }

  lemma {:induction false} FollowSplit(s: string, args: seq<Arg>, log: seq<Ref>, a: seq<Ref>, b: seq<Ref>)
    requires MayFollow(s, args, log, a + b)
    ensures MayFollow(s, args, log, a) && MayFollow(s, args, log + a, b)
  {
    hide RefOk;
    assert log + (a + b) == log + a + b;
    UnmixedPrefix(log + a, b);
    assert forall i :: 0 <= i < |a| ==> a[i] == (a + b)[i];
    assert forall i :: 0 <= i < |b| ==> b[i] == (a + b)[|a| + i];
  }

  lemma {:induction false} NotCustom(s: string, args: seq<Arg>, r: Ref)
    requires NoCustom(args) && RefOk(s, args, r)
    ensures r.arg.tag != CUSTOM
  {
    if r.how.ByName? {
      FirstNamedIsFirst(args, |args|, r.how.name);
      var i :| 0 <= i < |args| && NamedAt(args, i, r.how.name) && args[i].payload.arg == r.arg;
      assert Deref(args[i]) == r.arg;
    }
  }

  // ----- What a format string is made of -----

  type Renderer = (Arg, Spec) -> Result<string>

  /** Plain text, a doubled brace, or a replacement field with the reference and specification it was
      read as. */
  datatype Span = Plain(a: nat, b: nat) | Doubled(a: nat) | Field(a: nat, b: nat, ref: Ref, spec: Spec, cut: Cut) {
    function End(): nat { if Doubled? then a + 2 else b }

    /** The references a span makes, in reading order. */
    function Refs(): seq<Ref> { if Field? then [ref] + cut.Nested() else [] }
  }

  predicate IsBrace(c: char) { c == '{' || c == '}' }

  ghost predicate SpanOk(s: string, args: seq<Arg>, render: Renderer, x: Span) {
    match x
    case Plain(a, b) => a <= b <= |s| && forall i :: a <= i < b ==> !IsBrace(s[i])
    case Doubled(a) => a + 1 < |s| && IsBrace(s[a]) && s[a + 1] == s[a]
    case Field(a, b, ref, spec, cut) =>
      && a + 1 < b <= |s| && s[a] == '{' && ref.pos == a + 1 && RefsOk(s, args, x.Refs())
      && SpecAt(s, RefEnd(s, a + 1), b - 1, ref.arg, spec, cut) && render(ref.arg, spec).Ok?
  }

  /** What a span contributes to the output. */
  ghost function SpanOutput(s: string, render: Renderer, x: Span): string {
    match x
    case Plain(a, b) => if a <= b <= |s| then s[a..b] else ""
    case Doubled(a) => if a < |s| then [s[a]] else ""
    case Field(_, _, ref, spec, _) => if render(ref.arg, spec).Ok? then render(ref.arg, spec).value else ""
  }

  /** Where the span at index j has to begin. */
  ghost function Edge(spans: seq<Span>, j: nat): nat
    requires j <= |spans|
  {
    if j == 0 then 0 else spans[j - 1].End()
  }

  /** The spans cover the format string up to `upto` without gap or overlap. */
  ghost predicate Tiles(s: string, args: seq<Arg>, render: Renderer, spans: seq<Span>, upto: nat) {
    && (forall j :: 0 <= j < |spans| ==> SpanOk(s, args, render, spans[j]) && spans[j].a == Edge(spans, j))
    && Edge(spans, |spans|) == upto
  }

  /** The output of the first j spans. */
  ghost function Output(s: string, render: Renderer, spans: seq<Span>, j: nat): string
    requires j <= |spans|
  {
    if j == 0 then "" else Output(s, render, spans, j - 1) + SpanOutput(s, render, spans[j - 1])
  }

  /** The references of the first j spans. */
  ghost function Refs(spans: seq<Span>, j: nat): seq<Ref>
    requires j <= |spans|
  {
    if j == 0 then [] else Refs(spans, j - 1) + spans[j - 1].Refs()
  }

  /** A reading of the whole format string: spans that tile it, with references that count up from zero
      if they are automatic and are not mixed with others. */
  ghost predicate IsReading(s: string, args: seq<Arg>, render: Renderer, spans: seq<Span>) {
    Tiles(s, args, render, spans, |s|) && Unmixed(Refs(spans, |spans|))
  }

  /** The format string has a reading with this output. */
  ghost predicate Formats(s: string, args: seq<Arg>, render: Renderer, text: string) {
    exists spans :: IsReading(s, args, render, spans) && Output(s, render, spans, |spans|) == text
  }

  /** The output so far is that of spans tiling the string up to `upto` and making the references of the
      log. */
  ghost predicate Produced(s: string, args: seq<Arg>, render: Renderer, log: seq<Ref>, upto: nat, text: string) {
    exists spans :: && Tiles(s, args, render, spans, upto) && Refs(spans, |spans|) == log
                    && Output(s, render, spans, |spans|) == text
  }

  lemma {:induction false} PrefixSame(s: string, render: Renderer, spans: seq<Span>, x: Span, j: nat)
    requires j <= |spans|
    ensures Output(s, render, spans + [x], j) == Output(s, render, spans, j)
    ensures Refs(spans + [x], j) == Refs(spans, j)
  {
    hide SpanOutput;
    if j > 0 {
      PrefixSame(s, render, spans, x, j - 1);
    }
  }

  lemma {:induction false} ProducedMore(s: string, args: seq<Arg>, render: Renderer, log: seq<Ref>, x: Span,
                                        text: string)
    requires Produced(s, args, render, log, x.a, text) && SpanOk(s, args, render, x)
    ensures Produced(s, args, render, log + x.Refs(), x.End(), text + SpanOutput(s, render, x))
  {
    hide SpanOk, SpanOutput, Tiles, Output, Refs;
    var spans :| && Tiles(s, args, render, spans, x.a) && Refs(spans, |spans|) == log
                 && Output(s, render, spans, |spans|) == text;
    PrefixSame(s, render, spans, x, |spans|);
    TilesMore(s, args, render, spans, x);
    Unroll(s, render, spans + [x], |spans|);
  }

  lemma {:induction false} Unroll(s: string, render: Renderer, spans: seq<Span>, j: nat)
    requires j < |spans|
    ensures Output(s, render, spans, j + 1) == Output(s, render, spans, j) + SpanOutput(s, render, spans[j])
    ensures Refs(spans, j + 1) == Refs(spans, j) + spans[j].Refs() && Edge(spans, j + 1) == spans[j].End()
  {
    hide SpanOutput;
  }

  /** The span at an index is in order and begins where the one before it ends. */
  lemma {:induction false} SpanHere(s: string, args: seq<Arg>, render: Renderer, spans: seq<Span>, upto: nat, j: nat)
    requires Tiles(s, args, render, spans, upto) && j < |spans|
    ensures SpanOk(s, args, render, spans[j]) && spans[j].a == Edge(spans, j)
  {
    hide SpanOk;
  }

  /** How long spans are, and what plain text gives. */
  lemma {:induction false} SpanShape(s: string, args: seq<Arg>, render: Renderer, x: Span)
    requires SpanOk(s, args, render, x)
    ensures x.a <= x.End() <= |s| && (!x.Plain? ==> x.a + 1 < x.End())
    ensures x.Plain? ==> x.Refs() == [] && SpanOutput(s, render, x) == s[x.a..x.b]
  {
    hide SpecAt, RefsOk;
  }

  lemma {:induction false} TilesMore(s: string, args: seq<Arg>, render: Renderer, spans: seq<Span>, x: Span)
    requires Tiles(s, args, render, spans, x.a) && SpanOk(s, args, render, x)
    ensures Tiles(s, args, render, spans + [x], x.End())
  {
    hide SpanOk;
    var longer := spans + [x];
    forall j | 0 <= j < |longer| ensures SpanOk(s, args, render, longer[j]) && longer[j].a == Edge(longer, j) {
      if j < |spans| {
        assert longer[j] == spans[j] && Edge(longer, j) == Edge(spans, j);
      }
    }
  }

  /** One more character of plain text, or a doubled brace. */
  lemma {:induction false} ProducedChar(s: string, args: seq<Arg>, render: Renderer, log: seq<Ref>, pos: nat,
                                        text: string)
    requires Produced(s, args, render, log, pos, text) && pos < |s|
    ensures !IsBrace(s[pos]) ==> Produced(s, args, render, log, pos + 1, text + [s[pos]])
    ensures IsBrace(s[pos]) && Peek(s, pos + 1) == s[pos] ==> Produced(s, args, render, log, pos + 2, text + [s[pos]])
  {
    hide Produced;
    assert log + [] == log && s[pos..pos + 1] == [s[pos]];
    if !IsBrace(s[pos]) {
      ProducedMore(s, args, render, log, Plain(pos, pos + 1), text);
    } else if Peek(s, pos + 1) == s[pos] {
      ProducedMore(s, args, render, log, Doubled(pos), text);
    }
  }

  lemma {:induction false} NothingProduced(s: string, args: seq<Arg>, render: Renderer)
    ensures Produced(s, args, render, [], 0, "")
  {
    var spans: seq<Span> := [];
    assert Tiles(s, args, render, spans, 0) && Refs(spans, |spans|) == [] && Output(s, render, spans, |spans|) == "";
  }

  // ----- Following a reading -----

  /** Having read s up to `pos`, the formatter has been through the first j spans of a reading and is at
      the start of the next span or, if that is plain text, inside it. */
  ghost predicate Reached(s: string, render: Renderer, spans: seq<Span>, j: nat, pos: nat, text: string,
                          log: seq<Ref>) {
    && j <= |spans| && Refs(spans, j) == log && Edge(spans, j) <= pos <= |s|
    && (Edge(spans, j) == pos || (j < |spans| && spans[j].Plain? && pos <= spans[j].b))
    && text == Output(s, render, spans, j) + s[Edge(spans, j)..pos]
  }

  ghost predicate Follows(s: string, render: Renderer, spans: seq<Span>, pos: nat, text: string, log: seq<Ref>) {
    exists j: nat :: Reached(s, render, spans, j, pos, text, log)
  }

  /** Leaving a finished span of plain text. */
  lemma {:induction false} LeavePlain(s: string, args: seq<Arg>, render: Renderer, spans: seq<Span>, j: nat, pos: nat,
                                      text: string, log: seq<Ref>)
    requires Tiles(s, args, render, spans, |s|) && Reached(s, render, spans, j, pos, text, log)
    requires j < |spans| && spans[j].End() <= pos
    ensures Reached(s, render, spans, j + 1, pos, text, log)
  {
    hide SpanOk, SpanOutput, Tiles, Output, Refs;
    SpanHere(s, args, render, spans, |s|, j);
    SpanShape(s, args, render, spans[j]);
    Unroll(s, render, spans, j);
    assert spans[j].Plain? && spans[j].b == pos;
    assert s[pos..pos] == "";
  }

  lemma {:induction false} EdgeAtEnd(s: string, args: seq<Arg>, render: Renderer, spans: seq<Span>)
    requires Tiles(s, args, render, spans, |s|)
    ensures Edge(spans, |spans|) == |s|
  {
    hide SpanOk;
  }

  lemma {:induction false} NotAtEnd(s: string, args: seq<Arg>, render: Renderer, spans: seq<Span>, j: nat, pos: nat,
                                    text: string, log: seq<Ref>)
    requires Tiles(s, args, render, spans, |s|) && Reached(s, render, spans, j, pos, text, log) && pos < |s|
    ensures j < |spans|
  {
    hide SpanOk, Output, Refs, Tiles;
    EdgeAtEnd(s, args, render, spans);
  }

  /** Some span of the reading covers the next character. */
  lemma {:induction false} Settle(s: string, args: seq<Arg>, render: Renderer, spans: seq<Span>, j: nat, pos: nat,
                                  text: string, log: seq<Ref>) returns (k: nat)
    requires Tiles(s, args, render, spans, |s|) && Reached(s, render, spans, j, pos, text, log) && pos < |s|
    ensures Reached(s, render, spans, k, pos, text, log) && k < |spans| && spans[k].End() > pos
    decreases |spans| - j
  {
    hide *;
    NotAtEnd(s, args, render, spans, j, pos, text, log);
    k := j;
    if j < |spans| && spans[j].End() <= pos {
      LeavePlain(s, args, render, spans, j, pos, text, log);
      k := Settle(s, args, render, spans, j + 1, pos, text, log);
    }
  }

  lemma {:induction false} AllReached(s: string, args: seq<Arg>, render: Renderer, spans: seq<Span>, j: nat,
                                      text: string,
                                      log: seq<Ref>)
    requires Tiles(s, args, render, spans, |s|) && Reached(s, render, spans, j, |s|, text, log)
    ensures if j < |spans| then spans[j].End() <= |s| else j == |spans| && text == Output(s, render, spans, |spans|)
  {
    hide SpanOk, Refs, Output, Tiles;
    EdgeAtEnd(s, args, render, spans);
    if j < |spans| {
      SpanHere(s, args, render, spans, |s|, j);
      SpanShape(s, args, render, spans[j]);
    }
    assert s[|s|..|s|] == "";
  }

  /** At the end of the string the output is that of the reading. */
  lemma {:induction false} SettleEnd(s: string, args: seq<Arg>, render: Renderer, spans: seq<Span>, j: nat,
                                     text: string, log: seq<Ref>)
    requires Tiles(s, args, render, spans, |s|) && Reached(s, render, spans, j, |s|, text, log)
    ensures text == Output(s, render, spans, |spans|)
    decreases |spans| - j
  {
    hide *;
    AllReached(s, args, render, spans, j, text, log);
    if j < |spans| {
      LeavePlain(s, args, render, spans, j, |s|, text, log);
      SettleEnd(s, args, render, spans, j + 1, text, log);
    }
  }

  /** A field does not look like a doubled brace. */
  lemma {:induction false} FieldIsSingle(s: string, args: seq<Arg>, render: Renderer, x: Span)
    requires SpanOk(s, args, render, x) && x.Field?
    ensures Peek(s, x.a + 1) != '{'
  {
    hide FlagsAt, SizesAt, RefsOk;
  }

  /** A character that is no brace lies in plain text; a brace starts a doubled brace or a field. */
  lemma {:induction false} SpanAtChar(s: string, args: seq<Arg>, render: Renderer, spans: seq<Span>, j: nat, pos: nat,
                                      text: string, log: seq<Ref>)
    requires Tiles(s, args, render, spans, |s|) && Reached(s, render, spans, j, pos, text, log) && pos < |s|
    requires j < |spans| && spans[j].End() > pos
    ensures SpanOk(s, args, render, spans[j])
    ensures if IsBrace(s[pos]) then !spans[j].Plain? && spans[j].a == pos else spans[j].Plain?
    ensures text == Output(s, render, spans, j) + s[Edge(spans, j)..pos] && spans[j].a == Edge(spans, j)
    ensures spans[j].Doubled? ==> Peek(s, pos + 1) == s[pos]
    ensures spans[j].Field? ==> s[pos] == '{' && Peek(s, pos + 1) != '{'
  {
    hide SpecAt, RefsOk, Output;
    if spans[j].Field? {
      FieldIsSingle(s, args, render, spans[j]);
    }
  }

  lemma {:induction false} FollowChar(s: string, args: seq<Arg>, render: Renderer, spans: seq<Span>, pos: nat,
                                      text: string, log: seq<Ref>)
    requires Tiles(s, args, render, spans, |s|) && Follows(s, render, spans, pos, text, log)
    requires pos < |s| && !IsBrace(s[pos])
    ensures Follows(s, render, spans, pos + 1, text + [s[pos]], log)
  {
    hide SpanOk, Tiles, Refs, Output;
    var i: nat :| Reached(s, render, spans, i, pos, text, log);
    var j := Settle(s, args, render, spans, i, pos, text, log);
    SpanAtChar(s, args, render, spans, j, pos, text, log);
    var e := Edge(spans, j);
    assert s[e..pos + 1] == s[e..pos] + [s[pos]];
    assert Reached(s, render, spans, j, pos + 1, text + [s[pos]], log);
  }

  /** At a brace, the next span of the reading starts, and going through it stays on the reading. */
  lemma {:induction false} FollowBrace(s: string, args: seq<Arg>, render: Renderer, spans: seq<Span>, pos: nat,
                                       text: string, log: seq<Ref>)
    returns (x: Span)
    requires IsReading(s, args, render, spans) && Follows(s, render, spans, pos, text, log)
    requires pos < |s| && IsBrace(s[pos])
    ensures SpanOk(s, args, render, x) && x.a == pos && !x.Plain? && MayFollow(s, args, log, x.Refs())
    ensures x.Doubled? ==> Peek(s, pos + 1) == s[pos]
    ensures x.Field? ==> s[pos] == '{' && Peek(s, pos + 1) != '{'
    ensures Follows(s, render, spans, x.End(), text + SpanOutput(s, render, x), log + x.Refs())
  {
    hide SpanOk, SpanOutput, Tiles, Reached, Unmixed;
    var i: nat :| Reached(s, render, spans, i, pos, text, log);
    var j := Settle(s, args, render, spans, i, pos, text, log);
    SpanAtChar(s, args, render, spans, j, pos, text, log);
    x := spans[j];
    StepOver(s, args, render, spans, j, pos, text, log);
    RefsPrefix(spans, j + 1);
    SpanRefsOk(s, args, render, x);
  }

  lemma {:induction false} SpanRefsOk(s: string, args: seq<Arg>, render: Renderer, x: Span)
    requires SpanOk(s, args, render, x)
    ensures RefsOk(s, args, x.Refs())
  {
    hide SpecAt, RefOk;
  }

  lemma {:induction false} StepOver(s: string, args: seq<Arg>, render: Renderer, spans: seq<Span>, j: nat, pos: nat,
                                    text: string, log: seq<Ref>)
    requires Reached(s, render, spans, j, pos, text, log) && j < |spans| && SpanOk(s, args, render, spans[j])
    requires !spans[j].Plain? && spans[j].a == pos == Edge(spans, j)
    ensures var x := spans[j];
            Reached(s, render, spans, j + 1, x.End(), text + SpanOutput(s, render, x), log + x.Refs())
    ensures Refs(spans, j + 1) == log + spans[j].Refs()
  {
    hide SpanOk, SpanOutput, Output, Refs;
    var end := spans[j].End();
    Unroll(s, render, spans, j);
    SpanShape(s, args, render, spans[j]);
    assert s[pos..pos] == "" && s[end..end] == "";
  }

  lemma {:induction false} RefsPrefix(spans: seq<Span>, j: nat)
    requires j <= |spans| && Unmixed(Refs(spans, |spans|))
    ensures Unmixed(Refs(spans, j))
    decreases |spans| - j
  {
    hide Unmixed;
    if j < |spans| {
      RefsPrefix(spans, j + 1);
      UnmixedPrefix(Refs(spans, j), spans[j].Refs());
    }
  }

  // ----- The formatter -----

  class BasicFormatter {
    const list: ArgList
    ghost const args: seq<Arg>
    const render: Renderer
    const names: ArgMap
    var nextArgIndex: int
    var out: string
    ghost var log: seq<Ref>

    ghost predicate Valid()
      reads this, names
    {
      && Represents(list, args) && NoCustom(args)
      && (names.entries == map[] || names.entries == FirstNamed(args, |args|))
    }

    constructor (list: ArgList, ghost args: seq<Arg>, render: Renderer)
      requires Represents(list, args) && NoCustom(args)
      ensures Valid() && fresh(names) && this.args == args && this.render == render
      ensures nextArgIndex == 0 && out == "" && log == []
    {
      this.list, this.args, this.render := list, args, render;
      names := new ArgMap();
      nextArgIndex, out, log := 0, "", [];
    }

    method DoGetArg(index: nat) returns (r: Result<Arg>)
      requires Valid()
      ensures r.Ok? <==> index < |args|
      ensures r.Ok? ==> r.value == Deref(args[index])
      ensures r.Err? ==> r.error == IndexOutOfRange
    {
      var arg := At(list, index, args);
      if arg.tag == NONE {
        return Err(IndexOutOfRange);
      }
      r := Ok(if arg.tag == NAMED_ARG && arg.payload.Named? then arg.payload.arg else arg);
    }

    /** The next automatic argument; refused once arguments were named or numbered. */
    method NextArg() returns (r: Result<Arg>)
      requires Valid()
      modifies this`nextArgIndex
      ensures r.Ok? <==> 0 <= old(nextArgIndex) < |args|
      ensures r.Ok? ==> r.value == Deref(args[old(nextArgIndex)]) && nextArgIndex == old(nextArgIndex) + 1
      ensures r.Err? ==> r.error == if old(nextArgIndex) < 0 then ManualToAutomatic else IndexOutOfRange
    {
      if nextArgIndex >= 0 {
        r := DoGetArg(nextArgIndex);
        nextArgIndex := nextArgIndex + 1;
        return;
      }
      r := Err(ManualToAutomatic);
    }

    /** Refused once arguments were taken automatically. */
    method CheckNoAutoIndex() returns (r: Result<()>)
      modifies this`nextArgIndex
      ensures r.Ok? <==> old(nextArgIndex) <= 0
      ensures nextArgIndex == if r.Ok? then -1 else old(nextArgIndex)
      ensures r.Err? ==> r.error == AutomaticToManual
    {
      if nextArgIndex > 0 {
        return Err(AutomaticToManual);
      }
      nextArgIndex := -1;
      r := Ok(());
    }

    method GetArg(index: nat) returns (r: Result<Arg>)
      requires Valid()
      modifies this`nextArgIndex
      ensures r.Ok? <==> old(nextArgIndex) <= 0 && index < |args|
      ensures r.Ok? ==> r.value == Deref(args[index]) && nextArgIndex == -1
      ensures r.Err? ==> r.error == if old(nextArgIndex) > 0 then AutomaticToManual else IndexOutOfRange
    {
      var _ :- CheckNoAutoIndex();
      r := DoGetArg(index);
    }

    method GetNamedArg(name: string) returns (r: Result<Arg>)
      requires Valid()
      modifies this`nextArgIndex, names
      ensures Valid()
      ensures r.Ok? <==> old(nextArgIndex) <= 0 && name in FirstNamed(args, |args|)
      ensures r.Ok? ==> r.value == FirstNamed(args, |args|)[name] && nextArgIndex == -1
      ensures r.Err? ==> r.error == if old(nextArgIndex) > 0 then AutomaticToManual else ArgumentNotFound
    {
      var _ :- CheckNoAutoIndex();
      names.Init(list, args);
      if name in names.entries {
        return Ok(names.entries[name]);
      }
      r := Err(ArgumentNotFound);
    }

    /** The state of the formatter while it reads s. */
    ghost predicate Reading(s: string)
      reads this, names
    {
      Valid() && LogOk(s, args, nextArgIndex, log)
    }

    /** Record a reference and the state it leaves. */
    ghost method Record(s: string, next: int, ref: Ref)
      requires LogOk(s, args, next, log) && RefOk(s, args, ref)
      requires if ref.how.Auto? then next >= 0 && ref.how.index == next && nextArgIndex == next + 1
               else next <= 0 && nextArgIndex == -1
      modifies this`log
      ensures log == old(log) + [ref] && LogOk(s, args, nextArgIndex, log)
    {
      hide RefOk;
      LogSnoc(s, args, next, log, ref, nextArgIndex);
      log := log + [ref];
    }

    /** A reference by name. */
    method ParseArgName(s: string, pos: nat) returns (r: Result<Fetched>, ghost ref: Ref)
      requires pos < |s| && IsNameStart(s[pos]) && Reading(s)
      modifies this`nextArgIndex, this`log, names
      ensures Valid()
      ensures r.Ok? ==> Reading(s) && log == old(log) + [ref] && ref.pos == pos
      ensures r.Ok? ==> r.value == Fetched(ref.arg, RefEnd(s, pos))
      ensures forall x :: RefOk(s, args, x) && x.pos == pos && Unmixed(old(log) + [x]) ==> r.Ok? && ref == x
    {
      hide LogOk, Unmixed;
      ghost var next := nextArgIndex;
      ref := Ref(pos, ByName(""), Arg(0, Opaque(0)));
      forall x | RefOk(s, args, x) && x.pos == pos && Unmixed(log + [x]) ensures x.how.ByName? && next <= 0 {
        RefDecided(s, args, next, log, x);
      }
      var end := NameEnd(s, pos);
      var arg :- GetNamedArg(s[pos..end]);
      ref := Ref(pos, ByName(s[pos..end]), arg);
      Record(s, next, ref);
      r := Ok(Fetched(arg, end));
    }

    /** An automatic reference, or one by number. */
    method ParseArgIndex(s: string, pos: nat) returns (r: Result<Fetched>, ghost ref: Ref)
      requires pos <= |s| && !IsNameStart(Peek(s, pos)) && Reading(s)
      modifies this`nextArgIndex, this`log
      ensures Valid()
      ensures r.Ok? ==> Reading(s) && log == old(log) + [ref] && ref.pos == pos
      ensures r.Ok? ==> r.value == Fetched(ref.arg, RefEnd(s, pos))
      ensures forall x :: RefOk(s, args, x) && x.pos == pos && Unmixed(old(log) + [x]) ==> r.Ok? && ref == x
    {
      hide LogOk, Unmixed;
      ghost var next := nextArgIndex;
      ref := Ref(pos, ByName(""), Arg(0, Opaque(0)));
      forall x | RefOk(s, args, x) && x.pos == pos && Unmixed(log + [x])
        ensures (x.how.Auto? ==> x.how.index == next) && (!x.how.Auto? ==> next <= 0)
      {
        RefDecided(s, args, next, log, x);
      }
      if !Decimal.IsDigit(Peek(s, pos)) {
        var arg :- NextArg();
        ref := Ref(pos, Auto(next), arg);
        Record(s, next, ref);
        return Ok(Fetched(arg, pos)), ref;
      }
      var parsed, end := IntText.ParseNonnegativeInt(s, pos);
      if parsed.TooBig? {
        return Err(NumberTooBig), ref;
      }
      var arg :- GetArg(parsed.value);
      ref := Ref(pos, Indexed(parsed.value), arg);
      Record(s, next, ref);
      r := Ok(Fetched(arg, end));
    }

    /** A reference at `pos`: the argument and where reading goes on.  If any reference may stand there,
        that one is made. */
    method ParseArg(s: string, pos: nat) returns (r: Result<Fetched>, ghost ref: Ref)
      requires pos <= |s| && Reading(s)
      modifies this`nextArgIndex, this`log, names
      ensures Valid()
      ensures r.Ok? ==> Reading(s) && log == old(log) + [ref] && ref.pos == pos
      ensures r.Ok? ==> r.value == Fetched(ref.arg, RefEnd(s, pos))
      ensures forall x :: RefOk(s, args, x) && x.pos == pos && Unmixed(old(log) + [x]) ==> r.Ok? && ref == x
    {
      hide LogOk, Unmixed, RefOk, RefEnd;
      if IsNameStart(Peek(s, pos)) {
        r, ref := ParseArgName(s, pos);
      } else {
        r, ref := ParseArgIndex(s, pos);
      }
    }

    /** A width or precision taken from an argument, its opening brace at `open`. */
    method ParseNested(s: string, open: nat, what: char) returns (r: Result<Count>, ghost ref: Ref)
      requires open < |s| && s[open] == '{' && Reading(s)
      modifies this`nextArgIndex, this`log, names
      ensures Valid()
      ensures r.Ok? ==> Reading(s) && log == old(log) + [ref] && open < r.value.pos <= |s|
      ensures r.Ok? ==> TakenAt(s, open, r.value.pos, r.value.n, ref)
      ensures forall b: nat, n: nat, x :: TakenAt(s, open, b, n, x) && RefOk(s, args, x) && Unmixed(old(log) + [x]) ==>
                r == Ok(Count(n, b)) && ref == x
    {
      hide LogOk, Unmixed, RefOk, RefEnd;
      var got;
      got, ref :- ParseArg(s, open + 1);
      var Fetched(arg, end) := got;
      if Peek(s, end) != '}' {
        return Err(InvalidFormat), ref;
      }
      if !(IsIntegerTag(arg.tag) && arg.payload.Number?) {
        return Err(NotInteger(what)), ref;
      }
      if arg.payload.i < 0 {
        return Err(Negative(what)), ref;
      }
      if arg.payload.i > INT_MAX {
        return Err(NumberTooBig), ref;
      }
      r := Ok(Count(arg.payload.i, end + 1));
    }

    /** A number written out, or taken from an argument, or nothing: what the text says, whenever it says
        something. */
    method ParseCount(s: string, pos: nat, what: char) returns (r: Result<Count>, ghost refs: seq<Ref>)
      requires pos <= |s| && Reading(s)
      modifies this`nextArgIndex, this`log, names
      ensures Valid()
      ensures r.Ok? ==> Reading(s) && log == old(log) + refs && pos <= r.value.pos <= |s|
      ensures r.Ok? ==> CountAt(s, pos, r.value.pos, r.value.n, refs)
      ensures forall b: nat, n: nat, x :: CountAt(s, pos, b, n, x) && MayFollow(s, args, old(log), x) ==>
                r == Ok(Count(n, b)) && refs == x
    {
      hide LogOk, Unmixed, RefOk, TakenAt;
      refs := [];
      if Decimal.IsDigit(Peek(s, pos)) {
        var parsed, end := IntText.ParseNonnegativeInt(s, pos);
        if parsed.TooBig? {
          return Err(NumberTooBig), refs;
        }
        return Ok(Count(parsed.value, end)), refs;
      }
      if Peek(s, pos) == '{' {
        ghost var ref;
        r, ref := ParseNested(s, pos, what);
        refs := [ref];
        forall b: nat, n: nat, x | CountAt(s, pos, b, n, x) && MayFollow(s, args, old(log), x)
          ensures r == Ok(Count(n, b)) && refs == x
        {
          assert x == [x[0]];
          assert TakenAt(s, pos, b, n, x[0]) && RefOk(s, args, x[0]) && Unmixed(old(log) + [x[0]]);
        }
        return;
      }
      r := Ok(Count(0, pos));
    }

    /** An optional dot and precision. */
    method ParsePrecision(s: string, pos: nat, arg: Arg) returns (r: Result<Precision>, ghost refs: seq<Ref>)
      requires pos <= |s| && Reading(s)
      modifies this`nextArgIndex, this`log, names
      ensures Valid()
      ensures r.Ok? ==> Reading(s) && log == old(log) + refs && pos <= r.value.pos <= |s|
      ensures r.Ok? ==> PrecisionAt(s, pos, r.value.pos, arg, r.value.n, refs)
      ensures forall b: nat, n: int, x :: PrecisionAt(s, pos, b, arg, n, x) && MayFollow(s, args, old(log), x) ==>
                r == Ok(Precision(n, b)) && refs == x
    {
      hide LogOk, MayFollow, CountAt;
      refs := [];
      if Peek(s, pos) != '.' {
        return Ok(Precision(-1, pos)), refs;
      }
      if !Decimal.IsDigit(Peek(s, pos + 1)) && Peek(s, pos + 1) != '{' {
        return Err(MissingPrecision), refs;
      }
      var got;
      got, refs :- ParseCount(s, pos + 1, 'p');
      if !PrecisionAllowed(arg) {
        return Err(PrecisionNotAllowed), refs;
      }
      r := Ok(Precision(got.n, got.pos));
    }

    /** Width, precision and type letter, after alignment and flags. */
    method ParseSizes(s: string, pos: nat, arg: Arg, spec: Spec, ghost f: Flags) returns (r: Result<Spot>,
                      ghost cut: Cut)
      requires pos <= |s| && Reading(s) && spec == FlagsSpec(f)
      modifies this`nextArgIndex, this`log, names
      ensures Valid()
      ensures r.Ok? ==> Reading(s) && log == old(log) + cut.Nested() && pos <= r.value.pos <= |s|
      ensures r.Ok? ==> cut.flags == f && cut.m == pos && SizesAt(s, cut, r.value.pos, arg, r.value.spec)
      ensures forall x: Cut, d: nat, y ::
                && SizesAt(s, x, d, arg, y) && x.m == pos && FlagsSpec(x.flags) == spec
                && MayFollow(s, args, old(log), x.Nested()) ==>
                r == Ok(Spot(y, d)) && cut.Nested() == x.Nested()
    {
      hide LogOk, MayFollow, CountAt, PrecisionAt, FlagsSpec;
      cut := Cut(f, pos, 0, 0, [], []);
      forall x: Cut | MayFollow(s, args, log, x.Nested())
        ensures MayFollow(s, args, log, x.wide) && MayFollow(s, args, log + x.wide, x.precise)
      {
        FollowSplit(s, args, log, x.wide, x.precise);
      }
      var width, precision;
      ghost var wide, precise;
      width, wide :- ParseCount(s, pos, 'w');
      precision, precise :- ParsePrecision(s, width.pos, arg);
      cut := Cut(f, pos, width.pos, precision.pos, wide, precise);
      assert old(log) + wide + precise == old(log) + cut.Nested();
      var p, kind := precision.pos, '\0';
      if p < |s| && s[p] != '}' {
        p, kind := p + 1, s[p];
      }
      r := Ok(Spot(spec.(width := width.n, precision := precision.n, kind := kind), p));
    }

    /** An optional specification. */
    method ParseSpec(s: string, pos: nat, arg: Arg) returns (r: Result<Spot>, ghost cut: Cut)
      requires pos <= |s| && Reading(s) && arg.tag != CUSTOM
      modifies this`nextArgIndex, this`log, names
      ensures Valid()
      ensures r.Ok? ==> Reading(s) && log == old(log) + cut.Nested() && pos <= r.value.pos <= |s|
      ensures r.Ok? && Peek(s, r.value.pos) == '}' ==> SpecAt(s, pos, r.value.pos, arg, r.value.spec, cut)
      ensures forall end: nat, y, x :: SpecAt(s, pos, end, arg, y, x) && MayFollow(s, args, old(log), x.Nested()) ==>
                r == Ok(Spot(y, end)) && cut.Nested() == x.Nested()
    {
      hide FlagsAt, SizesAt, ParseFlags, FlagsSpec, LogOk, MayFollow;
      cut := Cut(JustAlign(NoAlign), 0, 0, 0, [], []);
      if Peek(s, pos) != ':' {
        return Ok(Spot(DefaultSpec, pos)), cut;
      }
      FlagsForall(s, pos + 1, arg);
      var flags :- ParseFlags(s, pos + 1, arg);
      ghost var f :| FlagsAt(s, pos + 1, flags.pos, arg, f) && flags.spec == FlagsSpec(f);
      r, cut := ParseSizes(s, flags.pos, arg, flags.spec, f);
    }

    /** An optional specification and the closing brace; returns where the brace stands.  Text is accepted
        exactly when it has a meaning with references that may come next, and with that meaning. */
    method ReadField(s: string, pos: nat, arg: Arg) returns (r: Result<Spot>, ghost cut: Cut)
      requires pos <= |s| && Reading(s) && arg.tag != CUSTOM
      modifies this`nextArgIndex, this`log, names
      ensures Valid()
      ensures r.Ok? ==> Reading(s) && log == old(log) + cut.Nested() && pos <= r.value.pos < |s|
      ensures r.Ok? ==> SpecAt(s, pos, r.value.pos, arg, r.value.spec, cut)
      ensures forall end: nat, y, x :: SpecAt(s, pos, end, arg, y, x) && MayFollow(s, args, old(log), x.Nested()) ==>
                r == Ok(Spot(y, end)) && cut.Nested() == x.Nested()
    {
      hide FlagsAt, SizesAt, LogOk, MayFollow;
      r, cut := ParseSpec(s, pos, arg);
      if r.Ok? && Peek(s, r.value.pos) != '}' {
        return Err(MissingBrace), cut;
      }
    }

    /** What follows the argument in a replacement field.  What is rendered is what the text says, with
        the values that nested references fetched.  Returns where reading goes on. */
    method FormatField(s: string, pos: nat, arg: Arg) returns (r: Result<nat>, ghost spec: Spec, ghost cut: Cut)
      requires pos <= |s| && Reading(s) && arg.tag != CUSTOM
      modifies this, names
      ensures Valid()
      ensures r.Ok? ==> Reading(s) && log == old(log) + cut.Nested() && pos < r.value <= |s|
      ensures r.Ok? ==> SpecAt(s, pos, r.value - 1, arg, spec, cut)
      ensures r.Ok? ==> render(arg, spec).Ok? && out == old(out) + render(arg, spec).value
      ensures r.Err? ==> out == old(out)
      ensures forall end: nat, y, x ::
                SpecAt(s, pos, end, arg, y, x) && MayFollow(s, args, old(log), x.Nested()) && render(arg, y).Ok? ==>
                r == Ok(end + 1) && spec == y && cut.Nested() == x.Nested()
    {
      hide SpecAt, LogOk, MayFollow;
      var at;
      spec := DefaultSpec;
      at, cut :- ReadField(s, pos, arg);
      spec := at.spec;
      var text :- render(arg, at.spec);
      out := out + text;
      r := Ok(at.pos + 1);
    }

    /** The replacement field whose opening brace is at `open`: read and rendered exactly when the text is
        a field whose references may come next. */
    method ReplaceField(s: string, open: nat) returns (r: Result<nat>, ghost x: Span)
      requires open < |s| && s[open] == '{' && Reading(s)
      modifies this, names
      ensures Valid()
      ensures r.Ok? ==> x.Field? && x.a == open && x.b == r.value && SpanOk(s, args, render, x)
      ensures r.Ok? ==> Reading(s) && log == old(log) + x.Refs() && out == old(out) + SpanOutput(s, render, x)
      ensures forall y: Span ::
                && y.Field? && y.a == open && SpanOk(s, args, render, y)
                && MayFollow(s, args, old(log), y.Refs()) ==>
                r == Ok(y.b) && x.Refs() == y.Refs() && SpanOutput(s, render, x) == SpanOutput(s, render, y)
    {
      hide SpecAt, SpanOk, SpanOutput, MayFollow, Unmixed, RefOk, RefsOk, LogOk, RefEnd;
      x := Doubled(0);
      ghost var ref, spec, cut;
      var got;
      forall y: Span | y.Field? && y.a == open && SpanOk(s, args, render, y) && MayFollow(s, args, log, y.Refs())
        ensures FieldNext(s, args, render, log, y)
      {
        FieldFollows(s, args, render, log, y);
      }
      got, ref :- ParseArg(s, open + 1);
      LastRefOk(s, args, nextArgIndex, old(log), ref);
      NotCustom(s, args, ref);
      r, spec, cut := FormatField(s, got.pos, got.arg);
      if r.Ok? {
        x := Field(open, r.value, ref, spec, cut);
        FieldRefsOk(s, args, nextArgIndex, old(log), x);
        FieldOk(s, args, render, x);
      }
    }

    /** The turn that meets a replacement field, its literal text already written. */
    method FieldTurn(s: string, pos: nat, ghost text: string) returns (r: Result<nat>, ghost piece: string)
      requires pos < |s| && s[pos] == '{' && Peek(s, pos + 1) != '{' && Reading(s)
      requires Produced(s, args, render, log, pos, text)
      modifies this, names
      ensures r.Ok? ==> pos < r.value <= |s| && Reading(s) && out == old(out) + piece
      ensures r.Ok? ==> Produced(s, args, render, log, r.value, text + piece)
      ensures forall plan :: IsReading(s, args, render, plan) && Follows(s, render, plan, pos, text, old(log)) ==>
                r.Ok? && Follows(s, render, plan, r.value, text + piece, log)
    {
      hide SpanOk, Produced, LogOk, IsReading, Follows, MayFollow, SpanOutput;
      ghost var x;
      r, x := ReplaceField(s, pos);
      piece := SpanOutput(s, render, x);
      forall plan | IsReading(s, args, render, plan) && Follows(s, render, plan, pos, text, old(log))
        ensures r.Ok? && Follows(s, render, plan, r.value, text + piece, log)
      {
        var y := FollowBrace(s, args, render, plan, pos, text, old(log));
      }
      if r.Ok? {
        SpanShape(s, args, render, x);
        ProducedMore(s, args, render, old(log), x, text);
      }
    }

    /** One turn of the loop over the format string: the pending stretch from `start` grows, or is written
        out with the brace or field that ends it. */
    method Turn(s: string, start: nat, pos: nat, ghost before: string, ghost text: string)
      returns (r: Result<Cursor>, ghost text': string)
      requires start <= pos < |s| && Reading(s) && out + s[start..pos] == before + text
      requires Produced(s, args, render, log, pos, text)
      modifies this, names
      ensures r.Ok? ==> r.value.start <= r.value.pos <= |s| && pos < r.value.pos && Reading(s)
      ensures r.Ok? ==> out + s[r.value.start..r.value.pos] == before + text'
      ensures r.Ok? ==> Produced(s, args, render, log, r.value.pos, text')
      ensures forall plan :: IsReading(s, args, render, plan) && Follows(s, render, plan, pos, text, old(log)) ==>
                r.Ok? && Follows(s, render, plan, r.value.pos, text', log)
    {
      hide Produced, LogOk, IsReading, Follows;
      var c := s[pos];
      text' := text + [c];
      ProducedChar(s, args, render, log, pos, text);
      assert s[start..pos + 1] == s[start..pos] + [c];
      AppendBoth(out, s[start..pos], before, text, [c]);
      if !IsBrace(c) {
        FollowChars(s, args, render, pos, text, log);
        return Ok(Cursor(start, pos + 1)), text';
      }
      if Peek(s, pos + 1) == c {
        FollowDoubled(s, args, render, pos, text, log);
        out := out + s[start..pos + 1];
        assert out + s[pos + 2..pos + 2] == before + text';
        return Ok(Cursor(pos + 2, pos + 2)), text';
      }
      if c == '}' {
        NoReading(s, args, render, pos, text, log);
        return Err(UnmatchedBrace), text';
      }
      out := out + s[start..pos];
      ghost var piece;
      var next;
      next, piece := FieldTurn(s, pos, text);
      text' := text + piece;
      if next.Err? {
        return Err(next.error), text';
      }
      assert out + s[next.value..next.value] == before + text';
      r := Ok(Cursor(next.value, next.value));
    }

    /** The whole format string. */
    method Format(s: string) returns (r: Result<()>, ghost text: string)
      requires Valid() && nextArgIndex == 0 && log == [] && '\0' !in s
      modifies this, names
      ensures r.Ok? ==> out == old(out) + text && Formats(s, args, render, text)
      ensures forall t :: Formats(s, args, render, t) ==> r.Ok? && t == text
    {
      hide Produced, LogOk, IsReading, Follows, Formats;
      var at := Cursor(0, 0);
      text := "";
      NothingProduced(s, args, render);
      StartReading(s, args, render);
      FirstLog(s, args);
      assert out + s[0..0] == old(out) + text;
      while at.pos < |s|
        invariant at.start <= at.pos <= |s| && Reading(s) && out + s[at.start..at.pos] == old(out) + text
        invariant Produced(s, args, render, log, at.pos, text)
        invariant forall plan :: IsReading(s, args, render, plan) ==> Follows(s, render, plan, at.pos, text, log)
        decreases |s| - at.pos
      {
        var next;
        next, text := Turn(s, at.start, at.pos, old(out), text);
        if next.Err? {
          EndReading(s, args, render, text, log);
          return Err(next.error), text;
        }
        at := next.value;
      }
      out := out + s[at.start..at.pos];
      LogUnmixed(s, args, nextArgIndex, log);
      ProducedAll(s, args, render, log, text);
      EndReading(s, args, render, text, log);
      r := Ok(());
    }
  }

  // ----- Facts about one turn -----

  lemma {:induction false} LastRefOk(s: string, args: seq<Arg>, next: int, log: seq<Ref>, ref: Ref)
    requires LogOk(s, args, next, log + [ref])
    ensures RefOk(s, args, ref)
  {
    hide RefOk, IndexState;
    assert (log + [ref])[|log|] == ref;
  }

  /** A field that may come next: first its own reference, then the nested ones. */
  ghost predicate FieldNext(s: string, args: seq<Arg>, render: Renderer, log: seq<Ref>, y: Span)
    requires y.Field?
  {
    && y.a + 1 <= |s| && y.ref.pos == y.a + 1 && RefOk(s, args, y.ref) && Unmixed(log + [y.ref]) && y.b > 0
    && MayFollow(s, args, log + [y.ref], y.cut.Nested())
    && SpecAt(s, RefEnd(s, y.a + 1), y.b - 1, y.ref.arg, y.spec, y.cut)
    && render(y.ref.arg, y.spec).Ok? && SpanOutput(s, render, y) == render(y.ref.arg, y.spec).value
  }

  lemma {:induction false} FieldFollows(s: string, args: seq<Arg>, render: Renderer, log: seq<Ref>, y: Span)
    requires y.Field? && SpanOk(s, args, render, y) && MayFollow(s, args, log, y.Refs())
    ensures FieldNext(s, args, render, log, y)
  {
    hide RefOk, Unmixed, SpecAt;
    FollowSplit(s, args, log, [y.ref], y.cut.Nested());
    assert [y.ref][0] == y.ref;
  }

  lemma {:induction false} FieldOk(s: string, args: seq<Arg>, render: Renderer, x: Span)
    requires x.Field? && x.a + 1 < x.b <= |s| && s[x.a] == '{' && x.ref.pos == x.a + 1 && RefsOk(s, args, x.Refs())
    requires SpecAt(s, RefEnd(s, x.a + 1), x.b - 1, x.ref.arg, x.spec, x.cut) && render(x.ref.arg, x.spec).Ok?
    ensures SpanOk(s, args, render, x) && SpanOutput(s, render, x) == render(x.ref.arg, x.spec).value
  {
    hide SpecAt, RefsOk, RefEnd;
  }

  lemma {:induction false} FieldRefsOk(s: string, args: seq<Arg>, next: int, log: seq<Ref>, x: Span)
    requires x.Field? && LogOk(s, args, next, log + [x.ref] + x.cut.Nested())
    ensures RefsOk(s, args, x.Refs()) && log + [x.ref] + x.cut.Nested() == log + x.Refs()
  {
    hide RefOk, IndexState;
    var all := log + [x.ref] + x.cut.Nested();
    assert all == log + x.Refs();
    assert forall i :: 0 <= i < |x.Refs()| ==> x.Refs()[i] == all[|log| + i];
  }

  lemma {:induction false} AppendBoth(a: string, b: string, c: string, d: string, x: string)
    requires a + b == c + d
    ensures a + (b + x) == c + (d + x)
  {
    assert a + (b + x) == a + b + x && c + (d + x) == c + d + x;
  }

  lemma {:induction false} FirstLog(s: string, args: seq<Arg>)
    ensures LogOk(s, args, 0, [])
  {
  }

  lemma {:induction false} FollowChars(s: string, args: seq<Arg>, render: Renderer, pos: nat, text: string,
                                       log: seq<Ref>)
    requires pos < |s| && !IsBrace(s[pos])
    ensures forall plan :: IsReading(s, args, render, plan) && Follows(s, render, plan, pos, text, log) ==>
              Follows(s, render, plan, pos + 1, text + [s[pos]], log)
  {
    hide Follows, Tiles;
    forall plan | IsReading(s, args, render, plan) && Follows(s, render, plan, pos, text, log)
      ensures Follows(s, render, plan, pos + 1, text + [s[pos]], log)
    {
      FollowChar(s, args, render, plan, pos, text, log);
    }
  }

  lemma {:induction false} FollowDoubled(s: string, args: seq<Arg>, render: Renderer, pos: nat, text: string,
                                         log: seq<Ref>)
    requires pos < |s| && IsBrace(s[pos]) && Peek(s, pos + 1) == s[pos]
    ensures forall plan :: IsReading(s, args, render, plan) && Follows(s, render, plan, pos, text, log) ==>
              Follows(s, render, plan, pos + 2, text + [s[pos]], log)
  {
    hide Follows, IsReading, SpanOk;
    forall plan | IsReading(s, args, render, plan) && Follows(s, render, plan, pos, text, log)
      ensures Follows(s, render, plan, pos + 2, text + [s[pos]], log)
    {
      var x := FollowBrace(s, args, render, plan, pos, text, log);
      assert log + [] == log;
    }
  }

  /** A closing brace alone has no reading. */
  lemma {:induction false} NoReading(s: string, args: seq<Arg>, render: Renderer, pos: nat, text: string, log: seq<Ref>)
    requires pos < |s| && s[pos] == '}' && Peek(s, pos + 1) != '}'
    ensures forall plan :: !(IsReading(s, args, render, plan) && Follows(s, render, plan, pos, text, log))
  {
    hide Follows, IsReading, SpanOk;
    forall plan | IsReading(s, args, render, plan) && Follows(s, render, plan, pos, text, log) ensures false {
      var x := FollowBrace(s, args, render, plan, pos, text, log);
    }
  }

  lemma {:induction false} StartReading(s: string, args: seq<Arg>, render: Renderer)
    ensures forall plan :: IsReading(s, args, render, plan) ==> Follows(s, render, plan, 0, "", [])
  {
    hide SpanOk;
    forall plan | IsReading(s, args, render, plan) ensures Follows(s, render, plan, 0, "", []) {
      assert Reached(s, render, plan, 0, 0, "", []);
    }
  }

  /** Following every reading to the end gives the output of each. */
  lemma {:induction false} EndReading(s: string, args: seq<Arg>, render: Renderer, text: string, log: seq<Ref>)
    ensures (forall plan :: IsReading(s, args, render, plan) ==> Follows(s, render, plan, |s|, text, log)) ==>
              forall t :: Formats(s, args, render, t) ==> t == text
    ensures (forall plan :: !IsReading(s, args, render, plan)) ==> forall t :: !Formats(s, args, render, t)
  {
    hide SpanOk, Reached;
    if forall plan :: IsReading(s, args, render, plan) ==> Follows(s, render, plan, |s|, text, log) {
      forall t | Formats(s, args, render, t) ensures t == text {
        var plan :| IsReading(s, args, render, plan) && Output(s, render, plan, |plan|) == t;
        var j: nat :| Reached(s, render, plan, j, |s|, text, log);
        SettleEnd(s, args, render, plan, j, text, log);
      }
    }
  }

  lemma {:induction false} ProducedAll(s: string, args: seq<Arg>, render: Renderer, log: seq<Ref>, text: string)
    requires Produced(s, args, render, log, |s|, text) && Unmixed(log)
    ensures Formats(s, args, render, text)
  {
    hide SpanOk, Unmixed;
    var spans :| && Tiles(s, args, render, spans, |s|) && Refs(spans, |spans|) == log
                 && Output(s, render, spans, |spans|) == text;
    assert IsReading(s, args, render, spans);
  }

  // ----- The main results -----

  /** Formatting with a list of arguments, whatever the stack held before: the result is the output of
      the readings of the format string, and an error is thrown exactly when it has none. */
  method FormatString(s: string, args: seq<Arg>, stack: seq<Arg>, render: Renderer) returns (r: Result<string>)
    requires AllArgs(args) && |stack| == ArraySize(|args|) && NoCustom(args) && '\0' !in s
    ensures forall text :: r == Ok(text) <==> Formats(s, args, render, text)
  {
    hide Formats;
    MadeListRepresents(args, stack);
    var f := new BasicFormatter(MakeArgList(args, stack), args, render);
    ghost var text;
    var done;
    done, text :- f.Format(s);
    assert "" + text == text;
    r := Ok(f.out);
  }

  /** Text with every brace doubled. */
  function Escape(t: string): string {
    if |t| == 0 then "" else (if t[0] == '{' || t[0] == '}' then [t[0], t[0]] else [t[0]]) + Escape(t[1..])
  }

  /** The next character of an escaped text: itself, or a doubled brace. */
  lemma {:induction false} EscapedChar(s: string, t: string, pos: nat, k: nat)
    requires pos < |s| && k <= |t| && s[pos..] == Escape(t[k..])
    ensures k < |t| && s[pos] == t[k]
    ensures if IsBrace(t[k]) then pos + 1 < |s| && s[pos + 1] == t[k] && s[pos + 2..] == Escape(t[k + 1..])
            else s[pos + 1..] == Escape(t[k + 1..])
  {
    var rest, text := s[pos..], t[k..];
    assert k < |t| && text[0] == t[k] && text[1..] == t[k + 1..];
    var head := if IsBrace(t[k]) then [t[k], t[k]] else [t[k]];
    assert rest == head + Escape(t[k + 1..]);
    assert rest[|head|..] == s[pos + |head|..];
    assert rest[0] == s[pos] && (|head| == 2 ==> rest[1] == s[pos + 1]);
  }

  /** Text in which every brace is doubled is formatted to the text, whatever the arguments. */
  lemma {:induction false} EscapeFormats(t: string, args: seq<Arg>, render: Renderer)
    ensures Formats(Escape(t), args, render, t)
  {
    hide Produced, Formats, Escape;
    var s := Escape(t);
    NothingProduced(s, args, render);
    assert s[0..] == s && t[0..] == t && t[..0] == "";
    EscapeProduced(s, t, 0, 0, args, render);
    ProducedAll(s, args, render, [], t);
  }

  lemma {:induction false} EscapeProduced(s: string, t: string, pos: nat, k: nat, args: seq<Arg>, render: Renderer)
    requires pos <= |s| && k <= |t| && s[pos..] == Escape(t[k..]) && Produced(s, args, render, [], pos, t[..k])
    ensures Produced(s, args, render, [], |s|, t)
    decreases |s| - pos
  {
    hide Produced;
    if pos == |s| {
      assert t[k..] == "" && t[..k] == t;
    } else {
      EscapedChar(s, t, pos, k);
      ProducedChar(s, args, render, [], pos, t[..k]);
      assert t[..k + 1] == t[..k] + [t[k]];
      EscapeProduced(s, t, if IsBrace(t[k]) then pos + 2 else pos + 1, k + 1, args, render);
    }
  }

  /** The references of a span stand inside it, in reading order. */
  lemma {:induction false} SpanRefsInOrder(s: string, args: seq<Arg>, render: Renderer, x: Span)
    requires SpanOk(s, args, render, x)
    ensures InOrder(x.Refs(), x.End()) && forall i :: 0 <= i < |x.Refs()| ==> x.a < x.Refs()[i].pos
  {
    hide RefsOk, SizesAt, FlagsAt, RefEnd;
    if x.Field? && Peek(s, RefEnd(s, x.a + 1)) == ':' {
      CutInOrder(s, RefEnd(s, x.a + 1), x.b - 1, x.ref.arg, x.spec, x.cut);
    }
  }

  lemma {:induction false} CutInOrder(s: string, p: nat, end: nat, arg: Arg, spec: Spec, cut: Cut)
    requires SpecAt(s, p, end, arg, spec, cut) && Peek(s, p) == ':'
    ensures InOrder(cut.Nested(), end) && forall i :: 0 <= i < |cut.Nested()| ==> p < cut.Nested()[i].pos
  {
    hide FlagsSpec, AlignText, MarksText, StartsAt, FlagsFit, FlagsEnd, AlignLongest, RefEnd, IntText.ParseLoop;
    assert p + 1 <= cut.m <= cut.b <= cut.c <= end;
  }

  /** In a reading the references stand in reading order. */
  lemma {:induction false} ReadingInOrder(s: string, args: seq<Arg>, render: Renderer, spans: seq<Span>, j: nat)
    requires IsReading(s, args, render, spans) && j <= |spans|
    ensures InOrder(Refs(spans, j), Edge(spans, j))
  {
    hide SpanOk, Unmixed, Tiles, InOrder, Refs;
    if j == 0 {
      NoRefs(spans);
    } else {
      ReadingInOrder(s, args, render, spans, j - 1);
      SpanHere(s, args, render, spans, |s|, j - 1);
      SpanShape(s, args, render, spans[j - 1]);
      SpanRefsInOrder(s, args, render, spans[j - 1]);
      Unroll(s, render, spans, j - 1);
      InOrderJoin(Refs(spans, j - 1), Edge(spans, j - 1), spans[j - 1].Refs(), Edge(spans, j));
    }
  }

  lemma {:induction false} NoRefs(spans: seq<Span>)
    ensures InOrder(Refs(spans, 0), 0)
  {
  }

  lemma {:induction false} InOrderJoin(a: seq<Ref>, m: nat, b: seq<Ref>, n: nat)
    requires InOrder(a, m) && InOrder(b, n) && m <= n && forall i :: 0 <= i < |b| ==> m <= b[i].pos
    ensures InOrder(a + b, n)
  {
  }

  /** A single automatic field gives the first argument under the specification written in it. */
  lemma {:induction false} OneFieldFormats(f: Flags, spec: Spec, args: seq<Arg>, render: Renderer)
    requires |args| > 0 && Writable(f, spec, Deref(args[0])) && render(Deref(args[0]), spec).Ok?
    ensures Formats("{:" + SpecText(f, spec) + "}", args, render, render(Deref(args[0]), spec).value)
  {
    hide *;
    var s := "{:" + SpecText(f, spec) + "}";
    var cut := OneFieldReads(s, f, spec, Deref(args[0]));
    OneFieldProduced(s, args, render, spec, cut);
  }

  lemma {:induction false} OneFieldReads(s: string, f: Flags, spec: Spec, arg: Arg) returns (cut: Cut)
    requires s == "{:" + SpecText(f, spec) + "}" && Writable(f, spec, arg)
    ensures SpecAt(s, 1, |s| - 1, arg, spec, cut) && cut.Nested() == []
  {
    hide Writable, SpecText, SpecAt, AlignmentOf, StartsAt;
    var inner := ":" + SpecText(f, spec) + "}";
    assert s == "{" + inner;
    InnerStarts(s, inner);
    assert Peek(s, 3) == '\0' || SpecText(f, spec) != "";
    NulIsNoMark();
    SpecRoundTrip(s, 1, f, spec, arg);
    cut :| SpecAt(s, 1, |s| - 1, arg, spec, cut) && cut.Nested() == [];
  }

  lemma {:induction false} OneFieldProduced(s: string, args: seq<Arg>, render: Renderer, spec: Spec, cut: Cut)
    requires |s| > 2 && s[0] == '{' && s[1] == ':' && |args| > 0
    requires SpecAt(s, 1, |s| - 1, Deref(args[0]), spec, cut) && cut.Nested() == []
    requires render(Deref(args[0]), spec).Ok?
    ensures Formats(s, args, render, render(Deref(args[0]), spec).value)
  {
    hide SpecAt;
    var ref := Ref(1, Auto(0), Deref(args[0]));
    assert RefOk(s, args, ref) && RefEnd(s, 1) == 1;
    LoneFieldProduced(s, args, render, ref, spec, cut);
  }

  /** A string that is one field without nested references. */
  lemma {:induction false} LoneFieldProduced(s: string, args: seq<Arg>, render: Renderer, ref: Ref, spec: Spec,
                                             cut: Cut)
    requires |s| > 1 && s[0] == '{' && ref.pos == 1 && RefOk(s, args, ref) && (ref.how.Auto? ==> ref.how.index == 0)
    requires SpecAt(s, RefEnd(s, 1), |s| - 1, ref.arg, spec, cut) && cut.Nested() == [] && render(ref.arg, spec).Ok?
    ensures Formats(s, args, render, render(ref.arg, spec).value)
  {
    hide SpecAt, Formats, Produced, RefOk, RefEnd;
    var x := Field(0, |s|, ref, spec, cut);
    assert x.Refs() == [ref];
    NothingProduced(s, args, render);
    ProducedMore(s, args, render, [], x, "");
    assert "" + SpanOutput(s, render, x) == SpanOutput(s, render, x) && [] + [ref] == [ref];
    ProducedAll(s, args, render, [ref], SpanOutput(s, render, x));
  }

  /** A field that is a number in braces gives the argument of that index. */
  lemma {:induction false} IndexedFieldFormats(index: nat, args: seq<Arg>, render: Renderer)
    requires index < |args| && index <= INT_MAX && render(Deref(args[index]), DefaultSpec).Ok?
    ensures Formats("{" + Decimal.Text(index) + "}", args, render, render(Deref(args[index]), DefaultSpec).value)
  {
    hide Decimal.Text, Formats, IntText.ParseLoop, IntText.DigitRun;
    var n := Decimal.Text(index);
    var s := "{" + n + "}";
    assert s[1..] == n + "}" && s[1] == n[0] && s[|s| - 1] == '}';
    IntText.ParseText(index, "}");
    var cut := Cut(JustAlign(NoAlign), 0, 0, 0, [], []);
    LoneFieldProduced(s, args, render, Ref(1, Indexed(index), Deref(args[index])), DefaultSpec, cut);
  }

  predicate IsName(n: string) { |n| > 0 && IsNameStart(n[0]) && forall i :: 0 <= i < |n| ==> IsNameChar(n[i]) }

  lemma {:induction false} NameEndsAt(s: string, i: nat, j: nat)
    requires i <= j < |s| && (forall k :: i <= k < j ==> IsNameChar(s[k])) && !IsNameChar(s[j])
    ensures NameEnd(s, i) == j
    decreases j - i
  {
    hide IsNameChar;
    if i < j {
      NameEndsAt(s, i + 1, j);
    }
  }

  /** A field that is a name in braces gives the first argument of that name. */
  lemma {:induction false} NamedFieldFormats(name: string, args: seq<Arg>, i: nat, render: Renderer)
    requires IsName(name) && i < |args| && NamedAt(args, i, name)
    requires forall j :: 0 <= j < i ==> !NamedAt(args, j, name)
    requires render(args[i].payload.arg, DefaultSpec).Ok?
    ensures Formats("{" + name + "}", args, render, render(args[i].payload.arg, DefaultSpec).value)
  {
    hide Formats;
    var s := "{" + name + "}";
    var end := |name| + 1;
    assert s[1..end] == name && s[end] == '}' && forall k :: 1 <= k < end ==> s[k] == name[k - 1];
    NameEndsAt(s, 1, end);
    FirstNamedIsFirst(args, |args|, name);
    var cut := Cut(JustAlign(NoAlign), 0, 0, 0, [], []);
    LoneFieldProduced(s, args, render, Ref(1, ByName(name), args[i].payload.arg), DefaultSpec, cut);
  }

  /** A brace that is neither doubled nor part of a field is refused. */
  lemma {:induction false} LoneBraceFails(args: seq<Arg>, render: Renderer, text: string)
    ensures !Formats("}", args, render, text) && !Formats("{", args, render, text)
  {
    forall s, spans | (s == "}" || s == "{") && IsReading(s, args, render, spans) ensures false {
      NoFirstSpan(s, args, render, spans, 0);
    }
  }

  lemma {:induction false} BraceNotPlain(s: string, args: seq<Arg>, render: Renderer, x: Span)
    requires |s| == 1 && IsBrace(s[0]) && SpanOk(s, args, render, x) && x.a == 0
    ensures x.End() == 0
  {
    hide SpecAt, RefsOk;
    SpanShape(s, args, render, x);
  }

  /** There are no spans over a single brace. */
  lemma {:induction false} NoFirstSpan(s: string, args: seq<Arg>, render: Renderer, spans: seq<Span>, j: nat)
    requires |s| == 1 && IsBrace(s[0]) && Tiles(s, args, render, spans, |s|) && j <= |spans|
    ensures Edge(spans, j) != 0
    decreases |spans| - j
  {
    hide SpanOk, Tiles;
    if j == |spans| {
      EdgeAtEnd(s, args, render, spans);
    } else if Edge(spans, j) == 0 {
      SpanHere(s, args, render, spans, |s|, j);
      BraceNotPlain(s, args, render, spans[j]);
      NoFirstSpan(s, args, render, spans, j + 1);
    }
  }

  lemma {:induction false} InnerStarts(s: string, inner: string)
    requires s == "{" + inner
    ensures StartsAt(s, 1, inner)
  {
  }

  lemma {:induction false} NulIsNoMark()
    ensures AlignmentOf('\0') == Default
  {
  }
}
