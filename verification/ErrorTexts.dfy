/** The error texts of the dispatcher are what the format engine makes of their format strings. */
module ErrorTexts {
  import opened Widths
  import opened FormatArgs
  import opened IntWriter
  import opened FormatSpec
  import opened Formatter
  import opened IntFormat
  import Decimal
  import IntText
  import Dispatcher

  // ----- Format strings with numbered fields -----

  /** Pieces of text with the fields `{0}`, `{1}`, ... between them, up to the k-th field. */
  function Template(pieces: seq<string>, k: nat): string
    requires k < |pieces|
  {
    if k == 0 then pieces[0] else Template(pieces, k - 1) + ("{" + Decimal.Text(k - 1) + "}") + pieces[k]
  }

  /** The same with texts in place of the fields. */
  function Filled(pieces: seq<string>, texts: seq<string>, k: nat): string
    requires k < |pieces| && k <= |texts|
  {
    if k == 0 then pieces[0] else Filled(pieces, texts, k - 1) + texts[k - 1] + pieces[k]
  }

  function NumberedRefs(s: string, pieces: seq<string>, args: seq<Arg>, k: nat): seq<Ref>
    requires k < |pieces| && k <= |args|
  {
    if k == 0 then []
    else
      NumberedRefs(s, pieces, args, k - 1)
      + [Ref(|Template(pieces, k - 1)| + 1, Indexed(k - 1), Deref(args[k - 1]))]
  }

  predicate NoBraces(s: string) { '{' !in s && '}' !in s }

  lemma {:induction false} PieceProduced(s: string, args: seq<Arg>, render: Renderer, log: seq<Ref>, pos: nat,
                                         text: string,
                                         piece: string)
    requires Produced(s, args, render, log, pos, text) && NoBraces(piece)
    requires pos + |piece| <= |s| && s[pos..pos + |piece|] == piece
    ensures Produced(s, args, render, log, pos + |piece|, text + piece)
  {
    hide Produced;
    var x := Plain(pos, pos + |piece|);
    forall i | pos <= i < pos + |piece| ensures !IsBrace(s[i]) {
      assert s[i] == piece[i - pos];
    }
    assert log + [] == log;
    ProducedMore(s, args, render, log, x, text);
  }

  /** A number between braces, somewhere in a text. */
  lemma {:induction false} NumberedText(s: string, pos: nat, n: string)
    requires Decimal.AllDigits(n) && |n| > 0 && pos + |n| + 2 <= |s| && s[pos..pos + |n| + 2] == "{" + n + "}"
    ensures s[pos] == '{' && s[pos + 1] == n[0] && s[pos + 1 + |n|] == '}' && s[pos + 1..] == n + s[pos + 1 + |n|..]
  {
    var end := pos + |n| + 2;
    var field := s[pos..end];
    assert field[0] == s[pos] && field[1] == s[pos + 1] && field[|n| + 1] == s[pos + 1 + |n|];
    assert field[1..|n| + 1] == n && s[pos + 1..pos + 1 + |n|] == field[1..|n| + 1];
  }

  lemma {:induction false} NumberedRefOk(s: string, args: seq<Arg>, pos: nat, k: nat)
    requires k < |args| && k <= INT_MAX && pos + |Decimal.Text(k)| + 2 <= |s|
    requires s[pos..pos + |Decimal.Text(k)| + 2] == "{" + Decimal.Text(k) + "}"
    ensures RefOk(s, args, Ref(pos + 1, Indexed(k), Deref(args[k])))
    ensures RefEnd(s, pos + 1) == pos + 1 + |Decimal.Text(k)|
    ensures s[pos] == '{' && s[pos + 1 + |Decimal.Text(k)|] == '}'
  {
    hide Decimal.Text, IntText.ParseLoop, IntText.DigitRun;
    var n := Decimal.Text(k);
    NumberedText(s, pos, n);
    IntText.ParseText(k, s[pos + 1 + |n|..]);
  }

  lemma {:induction false} NumberedProduced(s: string, args: seq<Arg>, render: Renderer, log: seq<Ref>, pos: nat,
                                            text: string,
                                            k: nat)
    requires Produced(s, args, render, log, pos, text) && k < |args| && k <= INT_MAX
    requires pos + |Decimal.Text(k)| + 2 <= |s| && s[pos..pos + |Decimal.Text(k)| + 2] == "{" + Decimal.Text(k) + "}"
    requires render(Deref(args[k]), DefaultSpec).Ok?
    ensures Produced(s, args, render, log + [Ref(pos + 1, Indexed(k), Deref(args[k]))], pos + |Decimal.Text(k)| + 2,
                     text + render(Deref(args[k]), DefaultSpec).value)
  {
    hide Produced, Decimal.Text, RefOk, RefEnd;
    NumberedRefOk(s, args, pos, k);
    var ref := Ref(pos + 1, Indexed(k), Deref(args[k]));
    var x := Field(pos, pos + |Decimal.Text(k)| + 2, ref, DefaultSpec, Cut(JustAlign(NoAlign), 0, 0, 0, [], []));
    assert x.Refs() == [ref];
    ProducedMore(s, args, render, log, x, text);
  }

  lemma {:induction false} TemplateGrows(pieces: seq<string>, k: nat, n: nat)
    requires k <= n < |pieces|
    ensures Template(pieces, k) <= Template(pieces, n)
  {
    if k < n {
      TemplateGrows(pieces, k, n - 1);
    }
  }

  lemma {:induction false} TemplateProduced(pieces: seq<string>, args: seq<Arg>, texts: seq<string>, render: Renderer,
                                            n: nat,
                                            k: nat)
    requires k <= n < |pieces| && n <= |args| == |texts| && n <= INT_MAX
    requires forall i :: 0 <= i < |pieces| ==> NoBraces(pieces[i])
    requires forall i :: 0 <= i < |args| ==> render(Deref(args[i]), DefaultSpec) == Ok(texts[i])
    ensures var s := Template(pieces, n);
            Produced(s, args, render, NumberedRefs(s, pieces, args, k), |Template(pieces, k)|, Filled(pieces, texts, k))
  {
    hide Produced, Decimal.Text;
    var s := Template(pieces, n);
    TemplateGrows(pieces, k, n);
    if k == 0 {
      NothingProduced(s, args, render);
      assert s[0..|pieces[0]|] == pieces[0] && "" + pieces[0] == pieces[0];
      PieceProduced(s, args, render, [], 0, "", pieces[0]);
    } else {
      TemplateProduced(pieces, args, texts, render, n, k - 1);
      var before, field := Template(pieces, k - 1), "{" + Decimal.Text(k - 1) + "}";
      var log := NumberedRefs(s, pieces, args, k - 1);
      assert Template(pieces, k) == before + field + pieces[k];
      assert s[|before|..|before| + |field|] == field by {
        assert (before + field + pieces[k])[|before|..|before| + |field|] == field;
      }
      NumberedProduced(s, args, render, log, |before|, Filled(pieces, texts, k - 1), k - 1);
      var pos := |before| + |field|;
      assert s[pos..pos + |pieces[k]|] == pieces[k] by {
        assert (before + field + pieces[k])[pos..] == pieces[k];
      }
      PieceProduced(s, args, render, NumberedRefs(s, pieces, args, k), pos,
                    Filled(pieces, texts, k - 1) + texts[k - 1], pieces[k]);
    }
  }

  lemma {:induction false} NumberedUnmixed(s: string, pieces: seq<string>, args: seq<Arg>, k: nat)
    requires k < |pieces| && k <= |args|
    ensures forall i :: 0 <= i < |NumberedRefs(s, pieces, args, k)| ==> !NumberedRefs(s, pieces, args, k)[i].how.Auto?
  {
    if k > 0 {
      NumberedUnmixed(s, pieces, args, k - 1);
    }
  }

  /** A format string of pieces and numbered fields gives the pieces with the arguments between them. */
  lemma {:induction false} TemplateFormats(pieces: seq<string>, args: seq<Arg>, texts: seq<string>, render: Renderer)
    requires |pieces| == |args| + 1 == |texts| + 1 && |args| <= INT_MAX
    requires forall i :: 0 <= i < |pieces| ==> NoBraces(pieces[i])
    requires forall i :: 0 <= i < |args| ==> render(Deref(args[i]), DefaultSpec) == Ok(texts[i])
    ensures Formats(Template(pieces, |args|), args, render, Filled(pieces, texts, |args|))
  {
    hide Produced, Formats, NoBraces;
    var n := |args|;
    var s := Template(pieces, n);
    TemplateProduced(pieces, args, texts, render, n, n);
    NumberedUnmixed(s, pieces, args, n);
    ProducedAll(s, args, render, NumberedRefs(s, pieces, args, n), Filled(pieces, texts, n));
  }

  // ----- The dispatcher's texts -----

  /** Texts as they are, integers as the writer renders them. */
  function RenderPlain(arg: Arg, spec: Spec): Result<string> {
    if arg.tag == STRING && arg.payload.Characters? && spec == DefaultSpec then Ok(arg.payload.s)
    else RenderInt(arg, spec)
  }

  function TextArg(s: string): Arg { Arg(STRING, Characters(s)) }

  function CountArg(n: nat): Arg { Arg(UINT, Number(n)) }

  lemma {:induction false} RendersPlain(s: string, n: nat)
    ensures RenderPlain(Deref(TextArg(s)), DefaultSpec) == Ok(s)
    ensures RenderPlain(Deref(CountArg(n)), DefaultSpec) == Ok(Decimal.Text(n))
  {
    hide DigitsOf, Decimal.Text;
    DecimalDigits(n, false);
    NoPadding(n, DefaultSpec);
    assert Prefix(n, DefaultSpec) == "" && "" + Decimal.Text(n) == Decimal.Text(n);
  }

  lemma {:induction false} DigitTexts()
    ensures Decimal.Text(0) == "0" && Decimal.Text(1) == "1" && Decimal.Text(2) == "2"
  {
  }

  lemma {:induction false} TwoFields(a: string, b: string, c: string, x: string, y: string)
    ensures Template([a, b, c], 2) == a + "{0}" + b + "{1}" + c
    ensures Filled([a, b, c], [x, y], 2) == a + x + b + y + c
  {
    hide Decimal.Text;
    DigitTexts();
    var p := [a, b, c];
    assert Template(p, 0) == a && Template(p, 1) == a + "{0}" + b;
    assert Filled(p, [x, y], 0) == a && Filled(p, [x, y], 1) == a + x + b;
  }

  lemma {:induction false} ThreeFields(a: string, b: string, c: string, d: string, x: string, y: string, z: string)
    ensures Template([a, b, c, d], 3) == a + "{0}" + b + "{1}" + c + "{2}" + d
    ensures Filled([a, b, c, d], [x, y, z], 3) == a + x + b + y + c + z + d
  {
    hide Decimal.Text;
    DigitTexts();
    var p := [a, b, c, d];
    assert Template(p, 0) == a && Template(p, 1) == a + "{0}" + b && Template(p, 2) == a + "{0}" + b + "{1}" + c;
    assert Filled(p, [x, y, z], 0) == a && Filled(p, [x, y, z], 1) == a + x + b;
    assert Filled(p, [x, y, z], 2) == a + x + b + y + c;
  }

  lemma {:induction false} PlainConcat(a: string, b: string)
    requires NoBraces(a) && NoBraces(b)
    ensures NoBraces(a + b)
  {
  }

  /** The pieces of the longer format strings. */
  function FunctionPiece(): string { "rpclib: function '" }
  function CalledPiece(): string { "' (called with " }
  function ThrewPiece(): string { " arg(s)) threw an exception. The " }
  function ContainedPiece(): string { "exception contained this information: " }
  function NotDerivedPiece(): string { "exception is not derived from " }
  function NoFurtherPiece(): string { "std::exception. No further " }
  function AvailablePiece(): string { "information available." }

  lemma {:induction false} FunctionPlain()
    ensures NoBraces(FunctionPiece())
  {
  }

  lemma {:induction false} CalledPlain()
    ensures NoBraces(CalledPiece())
  {
  }

  lemma {:induction false} ThrewPlain()
    ensures NoBraces(ThrewPiece())
  {
  }

  lemma {:induction false} ContainedPlain()
    ensures NoBraces(ContainedPiece())
  {
  }

  lemma {:induction false} NotDerivedPlain()
    ensures NoBraces(NotDerivedPiece())
  {
  }

  lemma {:induction false} NoFurtherPlain()
    ensures NoBraces(NoFurtherPiece())
  {
  }

  lemma {:induction false} AvailablePlain()
    ensures NoBraces(AvailablePiece())
  {
  }

  lemma {:induction false} PiecesPlain()
    ensures NoBraces(FunctionPiece()) && NoBraces(CalledPiece()) && NoBraces(ThrewPiece())
    ensures NoBraces(ContainedPiece()) && NoBraces(NotDerivedPiece()) && NoBraces(NoFurtherPiece())
  {
    hide *;
    FunctionPlain();
    CalledPlain();
    ThrewPlain();
    ContainedPlain();
    NotDerivedPlain();
    NoFurtherPlain();
  }

  lemma {:induction false} TextOfTwo(a: string, b: string, c: string, name: string, n: nat)
    requires NoBraces(a) && NoBraces(b) && NoBraces(c)
    ensures Formats(a + "{0}" + b + "{1}" + c, [TextArg(name), CountArg(n)], RenderPlain,
                    a + name + b + Decimal.Text(n) + c)
  {
    hide Formats, RenderPlain, Decimal.Text, Template, Filled, NoBraces;
    RendersPlain(name, n);
    TwoFields(a, b, c, name, Decimal.Text(n));
    TemplateFormats([a, b, c], [TextArg(name), CountArg(n)], [name, Decimal.Text(n)], RenderPlain);
  }

  lemma {:induction false} TextOfThree(a: string, b: string, c: string, d: string, name: string, n: nat, last: Arg,
                                       text: string)
    requires NoBraces(a) && NoBraces(b) && NoBraces(c) && NoBraces(d)
    requires RenderPlain(Deref(last), DefaultSpec) == Ok(text)
    ensures Formats(a + "{0}" + b + "{1}" + c + "{2}" + d, [TextArg(name), CountArg(n), last], RenderPlain,
                    a + name + b + Decimal.Text(n) + c + text + d)
  {
    hide Formats, RenderPlain, Decimal.Text, Template, Filled, NoBraces;
    RendersPlain(name, n);
    ThreeFields(a, b, c, d, name, Decimal.Text(n), text);
    TemplateFormats([a, b, c, d], [TextArg(name), CountArg(n), last], [name, Decimal.Text(n), text], RenderPlain);
  }

  function NotFoundPiece(): string { "rpclib: server could not find function '" }
  function CountPiece(): string { "' with argument count " }

  /** The text for an unknown function is its format string with the name and the argument count. */
  lemma {:induction false} NotFoundFormats(name: string, n: nat)
    ensures Formats(NotFoundPiece() + "{0}" + CountPiece() + "{1}" + ".",
                    [TextArg(name), CountArg(n)], RenderPlain, Dispatcher.NotFoundText(name, n))
  {
    NotFoundPieces(name, n);
    hide *;
    NotFoundPlain();
    CountPlain();
    DotPlain();
    TextOfTwo(NotFoundPiece(), CountPiece(), ".", name, n);
  }

  lemma {:induction false} NotFoundPlain()
    ensures NoBraces(NotFoundPiece())
  {
  }

  lemma {:induction false} CountPlain()
    ensures NoBraces(CountPiece())
  {
  }

  lemma {:induction false} NotFoundPieces(name: string, n: nat)
    ensures Dispatcher.NotFoundText(name, n) == NotFoundPiece() + name + CountPiece() + Decimal.Text(n) + "."
  {
    hide Decimal.Text;
  }

  /** The text for a standard exception is its format string with name, argument count and what was
      thrown. */
  lemma {:induction false} StdExceptionFormats(name: string, n: nat, what: string)
    ensures Formats(FunctionPiece() + "{0}" + CalledPiece() + "{1}" + (ThrewPiece() + ContainedPiece()) + "{2}" + ".",
                    [TextArg(name), CountArg(n), TextArg(what)], RenderPlain,
                    Dispatcher.StdExceptionText(name, n, what))
  {
    StdExceptionPieces(name, n, what);
    hide *;
    PiecesPlain();
    DotPlain();
    RendersPlain(what, n);
    PlainConcat(ThrewPiece(), ContainedPiece());
    TextOfThree(FunctionPiece(), CalledPiece(), ThrewPiece() + ContainedPiece(), ".", name, n, TextArg(what), what);
  }

  lemma {:induction false} DotPlain()
    ensures NoBraces(".")
  {
  }

  lemma {:induction false} StdExceptionPieces(name: string, n: nat, what: string)
    ensures Dispatcher.StdExceptionText(name, n, what)
            == FunctionPiece() + name + CalledPiece() + Decimal.Text(n) + (ThrewPiece() + ContainedPiece()) + what + "."
  {
    hide Decimal.Text;
    Regroup(FunctionPiece() + name + CalledPiece() + Decimal.Text(n), ThrewPiece(), ContainedPiece());
  }

  /** What stands behind the argument count in the text for any other exception. */
  function OtherPiece(): string { ThrewPiece() + (NotDerivedPiece() + (NoFurtherPiece() + AvailablePiece())) }

  /** The text for any other exception. */
  lemma {:induction false} OtherExceptionFormats(name: string, n: nat)
    ensures Formats(FunctionPiece() + "{0}" + CalledPiece() + "{1}" + OtherPiece(),
                    [TextArg(name), CountArg(n)], RenderPlain, Dispatcher.OtherExceptionText(name, n))
  {
    OtherExceptionPieces(name, n);
    OtherPlain();
    hide *;
    PiecesPlain();
    TextOfTwo(FunctionPiece(), CalledPiece(), OtherPiece(), name, n);
  }

  lemma {:induction false} OtherPlain()
    ensures NoBraces(OtherPiece())
  {
    hide ThrewPiece, NotDerivedPiece, NoFurtherPiece, AvailablePiece, NoBraces;
    PiecesPlain();
    AvailablePlain();
    PlainConcat(NoFurtherPiece(), AvailablePiece());
    PlainConcat(NotDerivedPiece(), NoFurtherPiece() + AvailablePiece());
    PlainConcat(ThrewPiece(), NotDerivedPiece() + (NoFurtherPiece() + AvailablePiece()));
  }

  lemma {:induction false} OtherExceptionPieces(name: string, n: nat)
    ensures Dispatcher.OtherExceptionText(name, n)
            == FunctionPiece() + name + CalledPiece() + Decimal.Text(n) + OtherPiece()
  {
    hide Decimal.Text;
    var before := FunctionPiece() + name + CalledPiece() + Decimal.Text(n);
    Regroup(before, ThrewPiece(), NotDerivedPiece() + (NoFurtherPiece() + AvailablePiece()));
    Regroup(before + ThrewPiece(), NotDerivedPiece(), NoFurtherPiece() + AvailablePiece());
    Regroup(before + ThrewPiece() + NotDerivedPiece(), NoFurtherPiece(), AvailablePiece());
  }

  lemma {:induction false} Regroup(a: string, b: string, c: string)
    ensures a + (b + c) == a + b + c
  {
  }

  function ArityPiece(): string { "Function '" }
  function CalledBadlyPiece(): string { "' was called with an invalid number of " }
  function ExpectedPiece(): string { "arguments. Expected: " }
  function InvalidPiece(): string { CalledBadlyPiece() + ExpectedPiece() }
  function GotPiece(): string { ", got: " }

  lemma {:induction false} CalledBadlyPlain()
    ensures NoBraces(CalledBadlyPiece())
  {
  }

  lemma {:induction false} ExpectedPlain()
    ensures NoBraces(ExpectedPiece())
  {
  }

  lemma {:induction false} ArityPlain()
    ensures NoBraces(ArityPiece()) && NoBraces(InvalidPiece()) && NoBraces(GotPiece()) && NoBraces("")
  {
    hide CalledBadlyPiece, ExpectedPiece;
    CalledBadlyPlain();
    ExpectedPlain();
    PlainConcat(CalledBadlyPiece(), ExpectedPiece());
  }

  lemma {:induction false} ArityPieces(name: string, found: nat, expected: nat)
    requires found != expected
    ensures Dispatcher.EnforceArgCount(name, found, expected)
            == ArityPiece() + name + InvalidPiece() + Decimal.Text(expected) + GotPiece() + Decimal.Text(found) + ""
  {
    hide Decimal.Text;
    var text := Dispatcher.EnforceArgCount(name, found, expected);
    Regroup(ArityPiece() + name, "' was called with an invalid number of ", "arguments. Expected: ");
    assert text + "" == text;
  }

  /** The text for a wrong number of arguments: the two counts in the order in which they are passed. */
  lemma {:induction false} ArgCountFormats(name: string, found: nat, expected: nat)
    requires found != expected
    ensures Formats(ArityPiece() + "{0}" + InvalidPiece() + "{1}" + GotPiece() + "{2}" + "",
                    [TextArg(name), CountArg(expected), CountArg(found)], RenderPlain,
                    Dispatcher.EnforceArgCount(name, found, expected))
  {
    ArityPieces(name, found, expected);
    hide *;
    ArityPlain();
    RendersPlain(name, found);
    TextOfThree(ArityPiece(), InvalidPiece(), GotPiece(), "", name, expected, CountArg(found), Decimal.Text(found));
  }
}
