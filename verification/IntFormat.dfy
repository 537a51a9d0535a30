/** Formatting integers from format string to text: the engine's parts put together. */
module IntFormat {
  import opened Widths
  import opened FormatArgs
  import opened IntWriter
  import opened FormatSpec
  import opened Formatter
  import Decimal
  import IntText

  /** Rendering an integer argument: what the writer appends for it, or an error for a letter that is no
      integer type. */
  function RenderInt(arg: Arg, spec: Spec): Result<string> {
    if IsIntegerTag(arg.tag) && arg.payload.Number? && KnownKind(spec.kind) then
      Ok(Layout(spec, Prefix(arg.payload.i, spec),
                DigitsOf(Magnitude(arg.payload.i), BaseOf(spec.kind), spec.kind == 'X')))
    else Err(RenderError(arg.tag))
  }

  /** The writer does what the renderer says. */
  method WriteArg(arg: Arg, spec: Spec) returns (r: Result<string>)
    requires IsIntegerTag(arg.tag) && arg.payload.Number? && INT64_MIN <= arg.payload.i < UINT64
    ensures r == RenderInt(arg, spec)
  {
    var w := new Writer();
    var ok := w.WriteInt(arg.payload.i, spec);
    if !ok {
      return Err(RenderError(arg.tag));
    }
    ghost var text := Layout(spec, Prefix(arg.payload.i, spec),
                             DigitsOf(Magnitude(arg.payload.i), BaseOf(spec.kind), spec.kind == 'X'));
    assert "" + text == text;
    r := Ok(w.buffer);
  }

  // ----- Alignment -----

  /** Text in a field of width w, padded in front, behind, on both sides, or between sign and digits. */
  function Aligned(mark: char, fill: char, w: nat, sign: string, digits: string): string {
    var n := |sign| + |digits|;
    var pad := if w > n then w - n else 0;
    if mark == '<' then sign + digits + Fill(fill, pad)
    else if mark == '>' then Fill(fill, pad) + sign + digits
    else if mark == '^' then Fill(fill, pad / 2) + sign + digits + Fill(fill, pad - pad / 2)
    else sign + Fill(fill, pad) + digits
  }

  predicate IsMark(c: char) { c == '<' || c == '>' || c == '^' || c == '=' }

  function SignOf(v: int): string { if v < 0 then "-" else "" }

  /** The field `{:` fill mark width `}` holds the number in its width, padded with the fill: on the right
      for '<', on the left for '>', on both sides for '^', behind the sign for '='. */
  lemma {:induction false} AlignedField(mark: char, fill: char, w: nat, v: int)
    requires IsMark(mark) && fill != '{' && fill != '}' && 0 < w <= INT_MAX
    ensures Formats("{:" + [fill, mark] + Decimal.Text(w) + "}", [Arg(INT, Number(v))], RenderInt,
                    Aligned(mark, fill, w, SignOf(v), Decimal.Text(Magnitude(v))))
  {
    hide Formats, Decimal.Text;
    var f := JustAlign(Filled(fill, mark));
    var arg := Arg(INT, Number(v));
    var spec := FlagsSpec(f).(width := w);
    FieldIs(f, spec, [fill, mark] + Decimal.Text(w));
    assert Deref([arg][0]) == arg;
    OneFieldFormats(f, spec, [arg], RenderInt);
    DecimalDigits(Magnitude(v), false);
    AlignedLayout(mark, fill, w, v, spec);
    assert "{:" + ([fill, mark] + Decimal.Text(w)) + "}" == "{:" + [fill, mark] + Decimal.Text(w) + "}";
  }

  lemma {:induction false} FieldIs(f: Flags, spec: Spec, text: string)
    requires spec.precision == -1 && spec.kind == '\0' && text == FlagsText(f) + WidthText(spec.width)
    ensures SpecText(f, spec) == text
  {
    assert WidthText(spec.width) + ("" + "") == WidthText(spec.width);
  }

  lemma {:induction false} AlignedLayout(mark: char, fill: char, w: nat, v: int, spec: Spec)
    requires IsMark(mark) && spec == FlagsSpec(JustAlign(Filled(fill, mark))).(width := w)
    ensures RenderInt(Arg(INT, Number(v)), spec)
            == Ok(Aligned(mark, fill, w, SignOf(v), DigitsOf(Magnitude(v), 10, false)))
  {
    hide DigitsOf, Fill;
    var digits := DigitsOf(Magnitude(v), 10, false);
    var sign, pad := SignOf(v), Padding(spec, SignOf(v), |digits|);
    assert Prefix(v, spec) == sign && sign + "" == sign;
    assert Fill(fill, pad) + sign + "" == Fill(fill, pad) + sign;
  }

  /** The field `{:` width `}` pads with spaces on the left. */
  lemma {:induction false} WidthField(w: nat, v: int)
    requires 0 < w <= INT_MAX
    ensures Formats("{:" + Decimal.Text(w) + "}", [Arg(INT, Number(v))], RenderInt,
                    Aligned('>', ' ', w, SignOf(v), Decimal.Text(Magnitude(v))))
  {
    hide Formats, Decimal.Text, DigitsOf, Layout;
    var f := JustAlign(NoAlign);
    var arg := Arg(INT, Number(v));
    var spec := FlagsSpec(f).(width := w);
    FieldIs(f, spec, Decimal.Text(w));
    assert Deref([arg][0]) == arg;
    OneFieldFormats(f, spec, [arg], RenderInt);
    DecimalDigits(Magnitude(v), false);
    WidthLayout(w, v, spec, DigitsOf(Magnitude(v), 10, false));
  }

  lemma {:induction false} WidthLayout(w: nat, v: int, spec: Spec, digits: string)
    requires spec == FlagsSpec(JustAlign(NoAlign)).(width := w)
    ensures Layout(spec, Prefix(v, spec), digits) == Aligned('>', ' ', w, SignOf(v), digits)
  {
    hide Fill;
    var sign, pad := SignOf(v), Padding(spec, SignOf(v), |digits|);
    assert Prefix(v, spec) == sign;
    assert Fill(' ', pad) + sign + "" == Fill(' ', pad) + sign;
  }

  // ----- Sign, base and zeros -----

  /** The field `{:+}` puts a plus in front of what is not negative, `{: }` a space, `{:-}` nothing. */
  lemma {:induction false} SignedField(c: char, v: int)
    requires c == '+' || c == ' ' || c == '-'
    ensures Formats("{:" + [c] + "}", [Arg(INT, Number(v))], RenderInt,
                    (if v < 0 then "-" else if c == '-' then "" else [c]) + Decimal.Text(Magnitude(v)))
  {
    hide Formats, Decimal.Text, DigitsOf, Layout, Prefix;
    var f := Flags(NoAlign, [c], false, false);
    var arg := Arg(INT, Number(v));
    var spec := FlagsSpec(f);
    FieldIs(f, spec, [c]);
    assert Deref([arg][0]) == arg;
    OneFieldFormats(f, spec, [arg], RenderInt);
    DecimalDigits(Magnitude(v), false);
    NoPadding(v, spec);
    SignedPrefix(c, v);
  }

  lemma {:induction false} SignedPrefix(c: char, v: int)
    requires c == '+' || c == ' ' || c == '-'
    ensures Prefix(v, FlagsSpec(Flags(NoAlign, [c], false, false)))
            == if v < 0 then "-" else if c == '-' then "" else [c]
  {
    assert [c] == "+" <==> c == '+';
    assert [c] == " " <==> c == ' ';
  }

  /** Without width and precision the number stands alone. */
  lemma {:induction false} NoPadding(v: int, spec: Spec)
    requires spec.width == 0 && spec.precision == -1
    ensures Layout(spec, Prefix(v, spec), DigitsOf(Magnitude(v), BaseOf(spec.kind), spec.kind == 'X'))
            == NumberText(v, spec)
  {
    hide DigitsOf, Prefix;
    var p, d := Prefix(v, spec), DigitsOf(Magnitude(v), BaseOf(spec.kind), spec.kind == 'X');
    assert Fill(spec.fill, 0) == "" && "" + p + "" + d == p + d && p + "" + d + "" == p + d;
    assert "" + p + d + "" == p + d && p + "" + d == p + d;
  }

  /** The field `{:#x}`, for any type letter of an integer, with or without the '#', reads back to the
      number in the notation of the letter. */
  lemma {:induction false} BaseField(kind: char, hash: bool, v: int)
    requires kind == 'd' || kind == 'x' || kind == 'X' || kind == 'b' || kind == 'B' || kind == 'o'
    ensures var spec := FlagsSpec(Flags(NoAlign, "", hash, false)).(kind := kind);
            && Formats("{:" + (if hash then "#" else "") + [kind] + "}", [Arg(INT, Number(v))], RenderInt,
                       NumberText(v, spec))
            && ReadNumber(NumberText(v, spec), kind) == v
  {
    hide Formats, Decimal.Text, DigitsOf, ReadNumber, NumberText, Layout;
    var f := Flags(NoAlign, "", hash, false);
    var arg := Arg(INT, Number(v));
    var spec := FlagsSpec(f).(kind := kind);
    var mark := if hash then "#" else "";
    assert SpecText(f, spec) == mark + [kind] by {
      assert FlagsText(f) == mark && mark + ("" + ("" + [kind])) == mark + [kind];
    }
    assert "{:" + (mark + [kind]) + "}" == "{:" + mark + [kind] + "}";
    assert Deref([arg][0]) == arg;
    OneFieldFormats(f, spec, [arg], RenderInt);
    NoPadding(v, spec);
    NumberReadsBack(v, spec);
  }

  /** A field with everything an integer takes, in its order: fill and mark, sign, '#', width, type letter. */
  lemma {:induction false} FullField(mark: char, fill: char, sign: char, w: nat, kind: char, v: int)
    requires IsMark(mark) && fill != '{' && fill != '}' && (sign == '+' || sign == ' ' || sign == '-')
    requires 0 < w <= INT_MAX
    requires (kind == 'd' || kind == 'x' || kind == 'X' || kind == 'b' || kind == 'B' || kind == 'o')
    ensures var spec := Spec(w, fill, AlignmentOf(mark), -1, sign != '-', sign == '+', true, kind);
            Formats("{:" + ([fill, mark] + [sign] + "#" + Decimal.Text(w) + [kind]) + "}", [Arg(INT, Number(v))],
                    RenderInt,
                    Layout(spec, Prefix(v, spec), DigitsOf(Magnitude(v), BaseOf(kind), kind == 'X')))
  {
    hide Formats, Decimal.Text, DigitsOf, Layout, Prefix;
    var f := Flags(Filled(fill, mark), [sign], true, false);
    var arg := Arg(INT, Number(v));
    var spec := FlagsSpec(f).(width := w, kind := kind);
    assert [sign] == "+" <==> sign == '+';
    assert [sign] == " " <==> sign == ' ';
    assert SpecText(f, spec) == [fill, mark] + [sign] + "#" + Decimal.Text(w) + [kind] by {
      FullText([fill, mark], [sign], Decimal.Text(w), [kind]);
    }
    assert Deref([arg][0]) == arg;
    OneFieldFormats(f, spec, [arg], RenderInt);
  }

  lemma {:induction false} FullText(a: string, b: string, c: string, d: string)
    ensures a + b + ("#" + "") + (c + ("" + d)) == a + b + "#" + c + d
  {
  }

  /** The field `{:0` width `}` fills with zeros between sign and digits. */
  lemma {:induction false} ZeroField(w: nat, v: int)
    requires 0 < w <= INT_MAX
    ensures Formats("{:0" + Decimal.Text(w) + "}", [Arg(INT, Number(v))], RenderInt,
                    Aligned('=', '0', w, SignOf(v), Decimal.Text(Magnitude(v))))
  {
    hide Formats, Decimal.Text, DigitsOf, Layout;
    var f := Flags(NoAlign, "", false, true);
    var arg := Arg(INT, Number(v));
    var spec := FlagsSpec(f).(width := w);
    FieldIs(f, spec, "0" + Decimal.Text(w));
    assert "{:" + ("0" + Decimal.Text(w)) + "}" == "{:0" + Decimal.Text(w) + "}";
    assert Deref([arg][0]) == arg;
    OneFieldFormats(f, spec, [arg], RenderInt);
    DecimalDigits(Magnitude(v), false);
    ZeroLayout(w, v, spec, DigitsOf(Magnitude(v), 10, false));
  }

  lemma {:induction false} ZeroLayout(w: nat, v: int, spec: Spec, digits: string)
    requires spec == FlagsSpec(Flags(NoAlign, "", false, true)).(width := w)
    ensures Layout(spec, Prefix(v, spec), digits) == Aligned('=', '0', w, SignOf(v), digits)
  {
    hide Fill;
    assert Prefix(v, spec) == SignOf(v);
  }
}
