/** Format specifications: the reader of fill, alignment, sign and flags, and what a specification means
    by its text. */
module FormatSpec {
  import opened Widths
  import opened FormatArgs
  import opened IntWriter
  import Decimal
  import IntText

  /** The kinds of FormatError. */
  datatype Error =
    | IndexOutOfRange | ManualToAutomatic | AutomaticToManual | ArgumentNotFound
    | NumberTooBig | InvalidFormat | NotInteger(what: char) | Negative(what: char)
    | MissingPrecision | PrecisionNotAllowed | RequiresNumeric(c: char) | RequiresSigned(c: char)
    | InvalidFill | UnmatchedBrace | MissingBrace | RenderError(tag: nat)

  /** The end of a call: a value, or the FormatError that was thrown. */
  datatype Result<T> = Ok(value: T) | Err(error: Error) {
    predicate IsFailure() { Err? }
    function PropagateFailure<U>(): Result<U>
      requires Err?
    {
      Err(error)
    }
    function Extract(): T
      requires Ok?
    {
      value
    }
  }

  /** Where reading a specification has got to. */
  datatype Spot = Spot(spec: Spec, pos: nat)

  /** The character at a position of a C string, which ends in NUL. */
  function Peek(s: string, i: nat): char { if i < |s| then s[i] else '\0' }

  predicate IsNameStart(c: char) { 'a' <= c <= 'z' || 'A' <= c <= 'Z' || c == '_' }

  predicate IsNameChar(c: char) { IsNameStart(c) || Decimal.IsDigit(c) }

  /** End of the name that starts at i. */
  function NameEnd(s: string, i: nat): (j: nat)
    requires i <= |s|
    ensures i <= j <= |s|
    decreases |s| - i
  {
    if i < |s| && IsNameChar(s[i]) then NameEnd(s, i + 1) else i
  }

  /** A name is a letter or underscore and all letters, digits and underscores behind it. */
  lemma {:induction false} NamesAre(s: string, i: nat)
    requires i <= |s|
    ensures IsNameStart(Peek(s, i)) <==>
              var c := Peek(s, i) as int; 65 <= c <= 90 || 97 <= c <= 122 || c == 95
    ensures forall k :: i <= k < NameEnd(s, i) ==>
              var c := s[k] as int; 65 <= c <= 90 || 97 <= c <= 122 || c == 95 || 48 <= c <= 57
    ensures NameEnd(s, i) < |s| ==>
              var c := s[NameEnd(s, i)] as int; !(65 <= c <= 90 || 97 <= c <= 122 || c == 95 || 48 <= c <= 57)
    decreases |s| - i
  {
    if i < |s| && IsNameChar(s[i]) {
      NamesAre(s, i + 1);
    }
  }

  // ----- References to arguments -----

  /** How a field names its argument. */
  datatype How = Auto(index: nat) | Indexed(index: nat) | ByName(name: string)

  /** A reference: where it stands in the format string, how it names its argument, and the argument. */
  datatype Ref = Ref(pos: nat, how: How, arg: Arg)

  /** Where the reference that starts at `pos` ends: after the name, after the digits, or at once. */
  function RefEnd(s: string, pos: nat): (end: nat)
    requires pos <= |s|
    ensures pos <= end <= |s|
  {
    if IsNameStart(Peek(s, pos)) then NameEnd(s, pos)
    else if Decimal.IsDigit(Peek(s, pos)) then pos + IntText.DigitRun(s[pos..])
    else pos
  }

  /** References in reading order, all before `upto`. */
  ghost predicate InOrder(log: seq<Ref>, upto: nat) {
    && (forall i :: 0 <= i < |log| ==> log[i].pos < upto)
    && (forall i, j :: 0 <= i < j < |log| ==> log[i].pos < log[j].pos)
  }

  // ----- Reading alignment and flags -----

  const DefaultSpec := Spec(0, ' ', Default, -1, false, false, false, '\0')

  /** Alignment by its character. */
  function AlignmentOf(c: char): Alignment {
    match c
    case '<' => Left
    case '>' => Right
    case '=' => Numeric
    case '^' => Center
    case _ => Default
  }

  predicate IsNumeric(arg: Arg) { arg.tag <= LAST_NUMERIC_TYPE }

  /** Which kinds of argument are numbers, and which take a sign, a precision, or stand for a width. */
  lemma {:induction false} TagClasses(arg: Arg)
    requires INT <= arg.tag <= CUSTOM
    ensures IsNumeric(arg) <==>
              || arg.tag == INT || arg.tag == UINT || arg.tag == LONG_LONG || arg.tag == ULONG_LONG
              || arg.tag == BOOL || arg.tag == CHAR || arg.tag == DOUBLE || arg.tag == LONG_DOUBLE
    ensures SignAllowed(arg) <==>
              || arg.tag == INT || arg.tag == LONG_LONG
              || arg.tag == BOOL || arg.tag == CHAR || arg.tag == DOUBLE || arg.tag == LONG_DOUBLE
    ensures PrecisionAllowed(arg) <==>
              || arg.tag == DOUBLE || arg.tag == LONG_DOUBLE
              || arg.tag == CSTRING || arg.tag == STRING || arg.tag == WSTRING || arg.tag == CUSTOM
    ensures IsIntegerTag(arg.tag) <==>
              arg.tag == INT || arg.tag == UINT || arg.tag == LONG_LONG || arg.tag == ULONG_LONG
  {
  }

  /** Fill and alignment: an alignment character second, with the first as fill, or an alignment
      character first.  A '}' in front of an alignment character ends the field instead. */
  function ParseAlignment(s: string, p: nat, arg: Arg): (r: Result<Spot>)
    requires p <= |s|
    ensures r.Ok? ==> p <= r.value.pos <= |s|
  {
    var first, second := AlignmentOf(Peek(s, p)), AlignmentOf(Peek(s, p + 1));
    if p == |s| then Ok(Spot(DefaultSpec, p))
    else if second != Default then
      if s[p] == '}' then Ok(Spot(DefaultSpec.(align := second), p))
      else if s[p] == '{' then Err(InvalidFill)
      else if second == Numeric && !IsNumeric(arg) then Err(RequiresNumeric('='))
      else Ok(Spot(DefaultSpec.(align := second, fill := s[p]), p + 2))
    else if first != Default then
      if first == Numeric && !IsNumeric(arg) then Err(RequiresNumeric('='))
      else Ok(Spot(DefaultSpec.(align := first), p + 1))
    else Ok(Spot(DefaultSpec, p))
  }

  /** A sign is for signed numbers. */
  predicate SignAllowed(arg: Arg) { IsNumeric(arg) && arg.tag != UINT && arg.tag != ULONG_LONG }

  predicate IsSign(c: char) { c == '+' || c == '-' || c == ' ' }

  function ParseSign(s: string, p: nat, arg: Arg, spec: Spec): (r: Result<Spot>)
    requires p <= |s|
    ensures r.Ok? ==> p <= r.value.pos <= |s|
  {
    var c := Peek(s, p);
    if p == |s| || !IsSign(c) then Ok(Spot(spec, p))
    else if !SignAllowed(arg) then Err(RequiresSigned(c))
    else Ok(Spot(spec.(sign := spec.sign || c != '-', plus := spec.plus || c == '+'), p + 1))
  }

  /** '#', then '0'. */
  function ParseMarks(s: string, p: nat, arg: Arg, spec: Spec): (r: Result<Spot>)
    requires p <= |s|
    ensures r.Ok? ==> p <= r.value.pos <= |s|
  {
    var hash := p < |s| && s[p] == '#';
    if hash && !IsNumeric(arg) then Err(RequiresNumeric('#'))
    else
      var q := if hash then p + 1 else p;
      if q < |s| && s[q] == '0' then
        if !IsNumeric(arg) then Err(RequiresNumeric('0'))
        else Ok(Spot(spec.(hash := hash, align := Numeric, fill := '0'), q + 1))
      else Ok(Spot(spec.(hash := hash), q))
  }

  /** Everything in front of width, precision and type letter. */
  function ParseFlags(s: string, p: nat, arg: Arg): (r: Result<Spot>)
    requires p <= |s|
    ensures r.Ok? ==> p <= r.value.pos <= |s|
  {
    var aligned :- ParseAlignment(s, p, arg);
    var signed :- ParseSign(s, aligned.pos, arg, aligned.spec);
    ParseMarks(s, signed.pos, arg, signed.spec)
  }

  // ----- What the text means -----

  /** The ways to write an alignment.  `Beyond` is an alignment character that follows the closing brace
      of the field and takes effect all the same. */
  datatype AlignForm = NoAlign | Bare(mark: char) | Filled(fill: char, mark: char) | Beyond(mark: char)

  /** What is written in front of width, precision and type letter. */
  datatype Flags = Flags(align: AlignForm, sign: string, hash: bool, zero: bool)

  function AlignText(a: AlignForm): string {
    match a
    case NoAlign => ""
    case Bare(m) => [m]
    case Filled(f, m) => [f, m]
    case Beyond(_) => ""
  }

  function MarksText(f: Flags): string {
    (if f.hash then "#" else "") + (if f.zero then "0" else "")
  }

  function FlagsText(f: Flags): string {
    AlignText(f.align) + f.sign + MarksText(f)
  }

  /** The specification that flags stand for: a zero flag overrides fill and alignment. */
  function FlagsSpec(f: Flags): Spec {
    Spec(0,
         if f.zero then '0' else if f.align.Filled? then f.align.fill else ' ',
         if f.zero then Numeric else if f.align.NoAlign? then Default else AlignmentOf(f.align.mark),
         -1, f.sign == "+" || f.sign == " ", f.sign == "+", f.hash, '\0')
  }

  /** The argument allows these flags: numbers only for '=', '#' and '0', signed numbers for a sign. */
  predicate FlagsFit(f: Flags, arg: Arg) {
    && (!f.align.NoAlign? ==> AlignmentOf(f.align.mark) != Default)
    && (f.align.Filled? ==> f.align.fill != '{' && f.align.fill != '}')
    && (f.align.Bare? || f.align.Filled? ==> f.align.mark != '=' || IsNumeric(arg))
    && (f.align.Beyond? ==> f.sign == "" && !f.hash && !f.zero)
    && (f.sign != "" ==> |f.sign| == 1 && IsSign(f.sign[0]) && SignAllowed(arg))
    && (f.hash || f.zero ==> IsNumeric(arg))
  }

  /** At p the longest possible alignment is this one. */
  predicate AlignLongest(s: string, p: nat, a: AlignForm) {
    match a
    case NoAlign => AlignmentOf(Peek(s, p)) == Default && AlignmentOf(Peek(s, p + 1)) == Default
    case Bare(_) => AlignmentOf(Peek(s, p + 1)) == Default
    case Filled(_, _) => true
    case Beyond(m) => Peek(s, p) == '}' && Peek(s, p + 1) == m
  }

  /** Flags do not go on at q. */
  predicate FlagsEnd(s: string, q: nat, f: Flags) {
    var c := Peek(s, q);
    f.zero || (c != '0' && (f.hash || (c != '#' && (f.sign != "" || !IsSign(c)))))
  }

  /** s[p..q] is the text of the flags f, and they cannot be read further. */
  predicate FlagsAt(s: string, p: nat, q: nat, arg: Arg, f: Flags) {
    && Written3(s, p, q, AlignText(f.align), f.sign, MarksText(f))
    && FlagsFit(f, arg) && AlignLongest(s, p, f.align) && FlagsEnd(s, q, f)
  }

  /** s[p..q] is made of three texts. */
  predicate Written3(s: string, p: nat, q: nat, a: string, b: string, c: string) {
    && StartsAt(s, p, a) && StartsAt(s, p + |a|, b) && StartsAt(s, p + |a| + |b|, c)
    && q == p + |a| + |b| + |c|
  }

  /** The stretch of s from p to the end starts with t. */
  predicate StartsAt(s: string, p: nat, t: string) {
    p + |t| <= |s| && s[p..p + |t|] == t
  }

  lemma {:induction false} StartsApart(s: string, p: nat, a: string, b: string)
    ensures StartsAt(s, p, a + b) <==> StartsAt(s, p, a) && StartsAt(s, p + |a|, b)
  {
    if p + |a + b| <= |s| {
      var t := s[p..p + |a + b|];
      assert s[p..p + |a|] == t[..|a|] && s[p + |a|..p + |a| + |b|] == t[|a|..];
      assert t == t[..|a|] + t[|a|..];
      assert (a + b)[..|a|] == a && (a + b)[|a|..] == b;
    }
  }

  lemma {:induction false} Apart3(s: string, p: nat, q: nat, a: string, b: string, c: string)
    ensures Written3(s, p, q, a, b, c) <==> p <= q <= |s| && s[p..q] == a + b + c
  {
    StartsApart(s, p, a + b, c);
    StartsApart(s, p, a, b);
  }

  /** The reader of an alignment takes the longest one. */
  lemma {:induction false} AlignmentRead(s: string, p: nat, arg: Arg) returns (a: AlignForm)
    requires p <= |s|
    ensures var r := ParseAlignment(s, p, arg);
            r.Ok? ==> && StartsAt(s, p, AlignText(a)) && AlignLongest(s, p, a) && FlagsFit(JustAlign(a), arg)
                      && r.value == Spot(FlagsSpec(JustAlign(a)), p + |AlignText(a)|)
  {
    a := if AlignmentOf(Peek(s, p + 1)) != Default then
           if Peek(s, p) == '}' then Beyond(Peek(s, p + 1)) else Filled(Peek(s, p), Peek(s, p + 1))
         else if AlignmentOf(Peek(s, p)) != Default then Bare(Peek(s, p))
         else NoAlign;
  }

  lemma {:induction false} AlignmentReadBack(s: string, p: nat, arg: Arg, a: AlignForm)
    requires StartsAt(s, p, AlignText(a)) && AlignLongest(s, p, a) && FlagsFit(JustAlign(a), arg)
    ensures ParseAlignment(s, p, arg) == Ok(Spot(FlagsSpec(JustAlign(a)), p + |AlignText(a)|))
  {
    var t := s[p..p + |AlignText(a)|];
    assert |t| > 0 ==> t[0] == s[p];
    assert |t| > 1 ==> t[1] == s[p + 1];
  }

  /** Reading flags and writing them are inverse: the reader accepts exactly the texts of flags that fit
      the argument, and returns what they stand for. */
  lemma {:induction false} FlagsExact(s: string, p: nat, q: nat, arg: Arg, spec: Spec)
    requires p <= |s|
    ensures ParseFlags(s, p, arg) == Ok(Spot(spec, q)) <==> exists f :: FlagsAt(s, p, q, arg, f) && spec == FlagsSpec(f)
  {
    if ParseFlags(s, p, arg) == Ok(Spot(spec, q)) {
      FlagsRead(s, p, q, arg, spec);
    }
    forall f | FlagsAt(s, p, q, arg, f) && spec == FlagsSpec(f) ensures ParseFlags(s, p, arg) == Ok(Spot(spec, q)) {
      FlagsReadBack(s, p, q, arg, f);
    }
  }

  /** The sign character at i, if there is one. */
  function SignText(s: string, i: nat): string {
    if i < |s| && IsSign(s[i]) then [s[i]] else ""
  }

  /** A specification with a sign added. */
  function Signed(spec: Spec, sign: string): Spec {
    spec.(sign := sign == "+" || sign == " ", plus := sign == "+")
  }

  /** A specification with '#' and '0' added. */
  function Marked(spec: Spec, hash: bool, zero: bool): Spec {
    if zero then spec.(hash := hash, align := Numeric, fill := '0') else spec.(hash := hash)
  }

  /** An alignment alone. */
  function JustAlign(a: AlignForm): Flags { Flags(a, "", false, false) }

  lemma {:induction false} FlagsCompose(f: Flags)
    ensures FlagsSpec(f) == Marked(Signed(FlagsSpec(JustAlign(f.align)), f.sign), f.hash, f.zero)
    ensures var spec := FlagsSpec(JustAlign(f.align)); !spec.sign && !spec.plus && !spec.hash
  {
  }

  lemma {:induction false} AlignFits(f: Flags, arg: Arg)
    requires FlagsFit(f, arg)
    ensures FlagsFit(JustAlign(f.align), arg)
  {
  }

  lemma {:induction false} SignRead(s: string, i: nat, arg: Arg, spec: Spec)
    requires i <= |s| && ParseSign(s, i, arg, spec).Ok? && !spec.sign && !spec.plus
    ensures var t := SignText(s, i);
            && StartsAt(s, i, t) && (t != "" ==> SignAllowed(arg))
            && ParseSign(s, i, arg, spec).value == Spot(Signed(spec, t), i + |t|)
  {
  }

  lemma {:induction false} MarksRead(s: string, j: nat, arg: Arg, spec: Spec, f: Flags)
    requires j <= |s| && f.hash == (Peek(s, j) == '#') && f.zero == (Peek(s, if f.hash then j + 1 else j) == '0')
    requires ParseMarks(s, j, arg, spec).Ok? && !spec.hash
    ensures StartsAt(s, j, MarksText(f)) && (f.hash || f.zero ==> IsNumeric(arg))
    ensures f.zero || (Peek(s, j + |MarksText(f)|) != '0' && (f.hash || (Peek(s, j) != '#' && |MarksText(f)| == 0)))
    ensures ParseMarks(s, j, arg, spec).value == Spot(Marked(spec, f.hash, f.zero), j + |MarksText(f)|)
  {
  }

  lemma {:induction false} FlagsRead(s: string, p: nat, q: nat, arg: Arg, spec: Spec)
    requires p <= |s| && ParseFlags(s, p, arg) == Ok(Spot(spec, q))
    ensures exists f :: FlagsAt(s, p, q, arg, f) && spec == FlagsSpec(f)
  {
    var aligned := ParseAlignment(s, p, arg).value;
    var signed := ParseSign(s, aligned.pos, arg, aligned.spec).value;
    assert ParseMarks(s, signed.pos, arg, signed.spec) == Ok(Spot(spec, q));
    var a := AlignmentRead(s, p, arg);
    MarkedRead(s, p, q, arg, a, aligned, signed, spec);
  }

  lemma {:induction false} MarkedRead(s: string, p: nat, q: nat, arg: Arg, a: AlignForm, aligned: Spot, signed: Spot,
                                      spec: Spec)
    requires StartsAt(s, p, AlignText(a)) && AlignLongest(s, p, a) && FlagsFit(JustAlign(a), arg)
    requires aligned == Spot(FlagsSpec(JustAlign(a)), p + |AlignText(a)|) && aligned.pos <= |s|
    requires ParseSign(s, aligned.pos, arg, aligned.spec) == Ok(signed)
    requires signed.pos <= |s| && ParseMarks(s, signed.pos, arg, signed.spec) == Ok(Spot(spec, q))
    ensures exists f :: FlagsAt(s, p, q, arg, f) && spec == FlagsSpec(f)
  {
    hide StartsAt, AlignLongest, AlignText, MarksText, FlagsFit, FlagsAt, FlagsSpec;
    hide ParseMarks, ParseSign, SignText, JustAlign;
    var f := FlagsSeen(s, aligned.pos, a);
    FlagsCompose(f);
    SignRead(s, aligned.pos, arg, aligned.spec);
    MarksRead(s, signed.pos, arg, signed.spec, f);
    FlagsFound(s, p, q, arg, f);
  }

  /** The flags to be seen from i on, behind an alignment. */
  function FlagsSeen(s: string, i: nat, a: AlignForm): Flags {
    var sign := SignText(s, i);
    var j := i + |sign|;
    var hash := Peek(s, j) == '#';
    Flags(a, sign, hash, Peek(s, if hash then j + 1 else j) == '0')
  }

  lemma {:induction false} FlagsFound(s: string, p: nat, q: nat, arg: Arg, f: Flags)
    requires Written3(s, p, q, AlignText(f.align), f.sign, MarksText(f)) && AlignLongest(s, p, f.align)
    requires FlagsFit(JustAlign(f.align), arg) && f == FlagsSeen(s, p + |AlignText(f.align)|, f.align)
    requires (f.sign != "" ==> SignAllowed(arg)) && (f.hash || f.zero ==> IsNumeric(arg))
    ensures FlagsAt(s, p, q, arg, f)
  {
    assert FlagsEnd(s, q, f);
    assert FlagsFit(f, arg);
  }

  lemma {:induction false} FlagsReadBack(s: string, p: nat, q: nat, arg: Arg, f: Flags)
    requires FlagsAt(s, p, q, arg, f)
    ensures ParseFlags(s, p, arg) == Ok(Spot(FlagsSpec(f), q))
  {
    hide StartsAt, AlignLongest, AlignText, MarksText, FlagsFit, FlagsEnd, FlagsSpec;
    hide ParseMarks, ParseSign, ParseAlignment, JustAlign;
    var a := f.align;
    var i := p + |AlignText(a)|;
    var j := i + |f.sign|;
    AlignFits(f, arg);
    AlignmentReadBack(s, p, arg, a);
    var aligned := FlagsSpec(JustAlign(a));
    FlagsCompose(f);
    SignReadBack(s, i, arg, f, aligned);
    MarksReadBack(s, j, q, arg, f, Signed(aligned, f.sign));
  }

  lemma {:induction false} FlagsUnique(s: string, p: nat, q: nat, q': nat, arg: Arg, f: Flags, f': Flags)
    requires FlagsAt(s, p, q, arg, f) && FlagsAt(s, p, q', arg, f')
    ensures q == q' && FlagsSpec(f) == FlagsSpec(f')
  {
    FlagsReadBack(s, p, q, arg, f);
    FlagsReadBack(s, p, q', arg, f');
  }

  lemma {:induction false} SignReadBack(s: string, i: nat, arg: Arg, f: Flags, spec: Spec)
    requires StartsAt(s, i, f.sign) && StartsAt(s, i + |f.sign|, MarksText(f)) && FlagsFit(f, arg)
    requires FlagsEnd(s, i + |f.sign| + |MarksText(f)|, f) && !spec.sign && !spec.plus
    ensures ParseSign(s, i, arg, spec)
            == Ok(Spot(Signed(spec, f.sign), i + |f.sign|))
  {
    if f.sign == "" {
      MarksStart(s, i, f);
    } else {
      assert s[i..i + 1][0] == s[i];
      assert f.sign == [s[i]];
    }
  }

  lemma {:induction false} MarksStart(s: string, j: nat, f: Flags)
    requires StartsAt(s, j, MarksText(f))
    ensures f.hash ==> Peek(s, j) == '#' && (f.zero ==> Peek(s, j + 1) == '0')
    ensures !f.hash && f.zero ==> Peek(s, j) == '0'
  {
    var t := s[j..j + |MarksText(f)|];
    assert |t| > 0 ==> t[0] == s[j];
    assert |t| > 1 ==> t[1] == s[j + 1];
  }

  lemma {:induction false} MarksReadBack(s: string, j: nat, q: nat, arg: Arg, f: Flags, spec: Spec)
    requires StartsAt(s, j, MarksText(f)) && q == j + |MarksText(f)| && FlagsFit(f, arg) && FlagsEnd(s, q, f)
    requires !spec.hash
    ensures ParseMarks(s, j, arg, spec)
            == Ok(Spot(Marked(spec, f.hash, f.zero), q))
  {
    MarksStart(s, j, f);
  }

  /** An opening brace cannot be the fill. */
  lemma {:induction false} BraceIsNoFill(s: string, p: nat, arg: Arg)
    requires Peek(s, p) == '{' && AlignmentOf(Peek(s, p + 1)) != Default
    ensures ParseFlags(s, p, arg) == Err(InvalidFill)
    ensures forall f, q: nat :: !FlagsAt(s, p, q, arg, f)
  {
    hide FlagsAt, AlignmentOf;
    forall f, q: nat | FlagsAt(s, p, q, arg, f) ensures false {
      FlagsReadBack(s, p, q, arg, f);
    }
  }

  /** The same for all ends and meanings at once. */
  lemma {:induction false} FlagsForall(s: string, p: nat, arg: Arg)
    requires p <= |s|
    ensures forall f, q: nat :: FlagsAt(s, p, q, arg, f) ==> ParseFlags(s, p, arg) == Ok(Spot(FlagsSpec(f), q))
    ensures var r := ParseFlags(s, p, arg);
            r.Ok? ==> exists f :: FlagsAt(s, p, r.value.pos, arg, f) && r.value.spec == FlagsSpec(f)
  {
    forall f, q: nat | FlagsAt(s, p, q, arg, f) ensures ParseFlags(s, p, arg) == Ok(Spot(FlagsSpec(f), q)) {
      FlagsReadBack(s, p, q, arg, f);
    }
    var r := ParseFlags(s, p, arg);
    if r.Ok? {
      FlagsRead(s, p, r.value.pos, arg, r.value.spec);
    }
  }

  // ----- Width, precision and type letter -----

  /** s[a..b] is a number in digits, read as n. */
  predicate WrittenAt(s: string, a: nat, b: nat, n: nat) {
    && a < |s| && Decimal.IsDigit(s[a]) && b == a + IntText.DigitRun(s[a..])
    && IntText.ParseLoop(s[a..], 0) == IntText.Ok(n)
  }

  predicate IsIntegerTag(tag: nat) { INT <= tag <= ULONG_LONG }

  /** s[a..b] is a reference in braces to an integer argument of value n. */
  ghost predicate TakenAt(s: string, a: nat, b: nat, n: nat, ref: Ref) {
    && a + 1 < b <= |s| && s[a] == '{' && s[b - 1] == '}'
    && ref.pos == a + 1 && RefEnd(s, a + 1) == b - 1
    && IsIntegerTag(ref.arg.tag) && ref.arg.payload == Number(n) && n <= INT_MAX
  }

  /** s[a..b] is a width or precision of value n: in digits, taken from an argument, or nothing; `refs`
      are the references made. */
  ghost predicate CountAt(s: string, a: nat, b: nat, n: nat, refs: seq<Ref>) {
    if Decimal.IsDigit(Peek(s, a)) then WrittenAt(s, a, b, n) && refs == []
    else if Peek(s, a) == '{' then |refs| == 1 && TakenAt(s, a, b, n, refs[0])
    else a == b && n == 0 && refs == []
  }

  /** Precision is for what is neither an integer nor an address. */
  predicate PrecisionAllowed(arg: Arg) { arg.tag > LAST_INTEGER_TYPE && arg.tag != RAW_ADDRESS }

  ghost predicate PrecisionAt(s: string, a: nat, b: nat, arg: Arg, n: int, refs: seq<Ref>) {
    if Peek(s, a) != '.' then b == a && n == -1 && refs == []
    else
      && (Decimal.IsDigit(Peek(s, a + 1)) || Peek(s, a + 1) == '{')
      && n >= 0 && CountAt(s, a + 1, b, n, refs) && PrecisionAllowed(arg)
  }

  predicate KindAt(s: string, a: nat, b: nat, kind: char) {
    if a < |s| && s[a] != '}' then b == a + 1 && kind == s[a] else b == a && kind == '\0'
  }

  /** The parts of a specification: the flags and where they end, where the width ends and where the
      precision ends, and the references that width and precision make. */
  datatype Cut = Cut(flags: Flags, m: nat, b: nat, c: nat, wide: seq<Ref>, precise: seq<Ref>) {
    /** The nested references, in reading order. */
    function Nested(): seq<Ref> { wide + precise }
  }

  /** Width, precision and type letter of `spec` stand in s[cut.m..d], and the rest of it is as the flags
      say. */
  ghost predicate SizesAt(s: string, cut: Cut, d: nat, arg: Arg, spec: Spec) {
    && CountAt(s, cut.m, cut.b, spec.width, cut.wide)
    && PrecisionAt(s, cut.b, cut.c, arg, spec.precision, cut.precise)
    && KindAt(s, cut.c, d, spec.kind)
    && spec == FlagsSpec(cut.flags).(width := spec.width, precision := spec.precision, kind := spec.kind)
  }

  /** Between the end of a reference and the closing brace at `end` stands the specification `spec`, in
      the parts that `cut` says. */
  ghost predicate SpecAt(s: string, p: nat, end: nat, arg: Arg, spec: Spec, cut: Cut) {
    && end < |s| && s[end] == '}'
    && if Peek(s, p) == ':' then FlagsAt(s, p + 1, cut.m, arg, cut.flags) && SizesAt(s, cut, end, arg, spec)
       else end == p && spec == DefaultSpec && cut.Nested() == []
  }

  /** References at the same place are the same. */
  ghost predicate Agree(refs: seq<Ref>, refs': seq<Ref>) {
    forall i, j :: 0 <= i < |refs| && 0 <= j < |refs'| && refs[i].pos == refs'[j].pos ==> refs[i] == refs'[j]
  }

  lemma {:induction false} AgreeParts(x: Cut, x': Cut)
    requires Agree(x.Nested(), x'.Nested())
    ensures Agree(x.wide, x'.wide) && Agree(x.precise, x'.precise)
  {
    var n, n' := x.Nested(), x'.Nested();
    assert forall i :: 0 <= i < |x.wide| ==> x.wide[i] == n[i];
    assert forall i :: 0 <= i < |x'.wide| ==> x'.wide[i] == n'[i];
    assert forall i :: 0 <= i < |x.precise| ==> x.precise[i] == n[|x.wide| + i];
    assert forall i :: 0 <= i < |x'.precise| ==> x'.precise[i] == n'[|x'.wide| + i];
  }

  lemma {:induction false} CountUnique(s: string, a: nat, b: nat, n: nat, refs: seq<Ref>, b': nat, n': nat,
                                       refs': seq<Ref>)
    requires CountAt(s, a, b, n, refs) && CountAt(s, a, b', n', refs') && Agree(refs, refs')
    ensures b == b' && n == n' && refs == refs'
  {
    if !Decimal.IsDigit(Peek(s, a)) && Peek(s, a) == '{' {
      assert refs[0] == refs'[0];
    }
  }

  lemma {:induction false} SizesUnique(s: string, x: Cut, x': Cut, d: nat, d': nat, arg: Arg, spec: Spec, spec': Spec)
    requires x.m == x'.m && FlagsSpec(x.flags) == FlagsSpec(x'.flags) && Agree(x.Nested(), x'.Nested())
    requires SizesAt(s, x, d, arg, spec) && SizesAt(s, x', d', arg, spec')
    ensures d == d' && spec == spec' && x.Nested() == x'.Nested()
  {
    hide CountAt, FlagsSpec, KindAt;
    AgreeParts(x, x');
    CountUnique(s, x.m, x.b, spec.width, x.wide, x'.b, spec'.width, x'.wide);
    if Peek(s, x.b) == '.' {
      CountUnique(s, x.b + 1, x.c, spec.precision, x.precise, x'.c, spec'.precision, x'.precise);
    }
    KindUnique(s, x.c, d, spec.kind, d', spec'.kind);
  }

  lemma {:induction false} KindUnique(s: string, a: nat, b: nat, kind: char, b': nat, kind': char)
    requires KindAt(s, a, b, kind) && KindAt(s, a, b', kind')
    ensures b == b' && kind == kind'
  {
  }

  /** The text of a field, with the arguments its references fetched, has one meaning only. */
  lemma {:induction false} SpecUnique(s: string, p: nat, end: nat, end': nat, arg: Arg, spec: Spec, spec': Spec,
                                      x: Cut, x': Cut)
    ensures && SpecAt(s, p, end, arg, spec, x) && SpecAt(s, p, end', arg, spec', x')
            && Agree(x.Nested(), x'.Nested())
            ==> end == end' && spec == spec' && x.Nested() == x'.Nested()
  {
    hide FlagsAt, SizesAt, FlagsSpec, Agree;
    if && SpecAt(s, p, end, arg, spec, x) && SpecAt(s, p, end', arg, spec', x')
       && Agree(x.Nested(), x'.Nested()) && Peek(s, p) == ':'
    {
      FlagsUnique(s, p + 1, x.m, x'.m, arg, x.flags, x'.flags);
      SizesUnique(s, x, x', end, end', arg, spec, spec');
    }
  }

  // ----- Writing a specification -----

  function WidthText(width: nat): string { if width > 0 then Decimal.Text(width) else "" }

  function PrecisionText(precision: int): string { if precision >= 0 then "." + Decimal.Text(precision) else "" }

  function KindText(kind: char): string { if kind == '\0' then "" else [kind] }

  /** The text of a specification with flags f and the width, precision and type letter of `spec`. */
  function SpecText(f: Flags, spec: Spec): string {
    FlagsText(f) + (WidthText(spec.width) + (PrecisionText(spec.precision) + KindText(spec.kind)))
  }

  /** What can be written down for an argument: sizes that fit an int, a letter for the type, and flags
      and precision that the argument allows. */
  predicate Writable(f: Flags, spec: Spec, arg: Arg) {
    && FlagsFit(f, arg) && !f.align.Beyond?
    && spec == FlagsSpec(f).(width := spec.width, precision := spec.precision, kind := spec.kind)
    && spec.width <= INT_MAX && -1 <= spec.precision <= INT_MAX
    && (spec.precision >= 0 ==> PrecisionAllowed(arg))
    && (spec.kind == '\0' || IsNameStart(spec.kind))
  }

  lemma {:induction false} TextHead(n: nat)
    requires n > 0
    ensures Decimal.Text(n)[0] != '0'
  {
    if n >= 10 {
      TextHead(n / 10);
    }
  }

  /** A number written at a, with no digit behind it, is read as that number. */
  lemma {:induction false} NumberAt(s: string, a: nat, n: nat)
    requires n <= INT_MAX && StartsAt(s, a, Decimal.Text(n)) && !Decimal.IsDigit(Peek(s, a + |Decimal.Text(n)|))
    ensures WrittenAt(s, a, a + |Decimal.Text(n)|, n)
  {
    var t := Decimal.Text(n);
    var rest := s[a + |t|..];
    assert s[a..] == t + rest;
    assert s[a] == t[0];
    IntText.ParseText(n, rest);
  }

  /** Characters that end a run of digits and start nothing of what comes before the type letter. */
  predicate Ends(c: char) { c == '}' || IsNameStart(c) }

  /** Characters that end a reading of flags. */
  predicate AfterFlags(c: char) { Ends(c) || c == '.' || '1' <= c <= '9' }

  lemma {:induction false} KindReads(s: string, c: nat, kind: char)
    requires StartsAt(s, c, KindText(kind)) && Peek(s, c + |KindText(kind)|) == '}'
    requires (kind == '\0' || IsNameStart(kind))
    ensures KindAt(s, c, c + |KindText(kind)|, kind) && Ends(Peek(s, c))
  {
    if kind != '\0' {
      assert s[c..c + 1][0] == s[c];
    }
  }

  lemma {:induction false} PrecisionReads(s: string, b: nat, arg: Arg, n: int)
    requires StartsAt(s, b, PrecisionText(n)) && Ends(Peek(s, b + |PrecisionText(n)|)) && -1 <= n <= INT_MAX
    requires n >= 0 ==> PrecisionAllowed(arg)
    ensures PrecisionAt(s, b, b + |PrecisionText(n)|, arg, n, []) && (Ends(Peek(s, b)) || Peek(s, b) == '.')
  {
    if n >= 0 {
      StartsApart(s, b, ".", Decimal.Text(n));
      assert s[b..b + 1][0] == s[b];
      NumberAt(s, b + 1, n);
    }
  }

  lemma {:induction false} WidthReads(s: string, m: nat, n: nat)
    requires StartsAt(s, m, WidthText(n)) && n <= INT_MAX
    requires var c := Peek(s, m + |WidthText(n)|); Ends(c) || c == '.'
    ensures CountAt(s, m, m + |WidthText(n)|, n, [])
    ensures AfterFlags(Peek(s, m))
  {
    if n > 0 {
      NumberAt(s, m, n);
      TextHead(n);
      assert s[m..m + |WidthText(n)|][0] == s[m];
    }
  }

  /** Between an alignment and what follows the flags there is no alignment character. */
  lemma {:induction false} NoMark(s: string, i: nat, f: Flags, arg: Arg)
    requires StartsAt(s, i, f.sign) && StartsAt(s, i + |f.sign|, MarksText(f)) && FlagsFit(f, arg)
    requires AfterFlags(Peek(s, i + |f.sign| + |MarksText(f)|))
    ensures AlignmentOf(Peek(s, i)) == Default
    ensures |f.sign + MarksText(f)| > 0 ==> AlignmentOf(Peek(s, i + 1)) == Default
  {
    MarksStart(s, i + |f.sign|, f);
    if f.sign != "" {
      assert s[i..i + 1][0] == s[i];
    }
  }

  /** Flags that have been written are read as written. */
  lemma {:induction false} FlagsWritten(s: string, p: nat, q: nat, f: Flags, arg: Arg)
    requires Written3(s, p, q, AlignText(f.align), f.sign, MarksText(f)) && FlagsFit(f, arg) && !f.align.Beyond?
    requires AfterFlags(Peek(s, q)) && (q == p ==> AlignmentOf(Peek(s, q + 1)) == Default)
    ensures FlagsAt(s, p, q, arg, f)
  {
    NoMark(s, p + |AlignText(f.align)|, f, arg);
  }

  /** The second character of what follows the flags is no alignment character. */
  lemma {:induction false} SecondChar(s: string, m: nat, spec: Spec)
    requires StartsAt(s, m, WidthText(spec.width))
    requires StartsAt(s, m + |WidthText(spec.width)|, PrecisionText(spec.precision))
    requires var c := m + |WidthText(spec.width)| + |PrecisionText(spec.precision)|;
             && StartsAt(s, c, KindText(spec.kind)) && Peek(s, c + |KindText(spec.kind)|) == '}'
             && c + |KindText(spec.kind)| > m
    requires spec.kind == '\0' || IsNameStart(spec.kind)
    ensures AlignmentOf(Peek(s, m + 1)) == Default
  {
    var b := m + |WidthText(spec.width)|;
    var c := b + |PrecisionText(spec.precision)|;
    KindReads(s, c, spec.kind);
    if b > m + 1 {
      assert s[m..b][1] == s[m + 1] == Decimal.Text(spec.width)[1];
    } else if c > b {
      var t := s[b..c];
      assert t[0] == s[b] == '.' && t[1] == s[b + 1] == Decimal.Text(spec.precision)[0];
    }
  }

  /** A specification in its parts. */
  ghost predicate WrittenParts(s: string, p: nat, end: nat, f: Flags, spec: Spec, cut: Cut) {
    && cut.flags == f && Peek(s, p) == ':' && Written3(s, p + 1, cut.m, AlignText(f.align), f.sign, MarksText(f))
    && Written3(s, cut.m, end, WidthText(spec.width), PrecisionText(spec.precision), KindText(spec.kind))
    && cut.b == cut.m + |WidthText(spec.width)| && cut.c == cut.b + |PrecisionText(spec.precision)|
    && cut.wide == [] && cut.precise == [] && Peek(s, end) == '}'
  }

  lemma {:induction false} PartsRead(s: string, p: nat, end: nat, f: Flags, spec: Spec, arg: Arg, cut: Cut)
    requires Writable(f, spec, arg) && WrittenParts(s, p, end, f, spec, cut)
    requires end == p + 1 ==> AlignmentOf(Peek(s, end + 1)) == Default
    ensures SpecAt(s, p, end, arg, spec, cut) && cut.Nested() == []
  {
    hide StartsAt, CountAt, PrecisionAt, KindAt, FlagsAt, FlagsSpec, FlagsFit, AlignmentOf, IsNameStart;
    hide AlignText, MarksText, WidthText, PrecisionText, KindText, AfterFlags, Ends;
    KindReads(s, cut.c, spec.kind);
    PrecisionReads(s, cut.b, arg, spec.precision);
    WidthReads(s, cut.m, spec.width);
    if cut.m == p + 1 && end > cut.m {
      SecondChar(s, cut.m, spec);
    }
    FlagsWritten(s, p + 1, cut.m, f, arg);
  }

  /** `spec` is what s means from the colon at p to the closing brace at `end`, without nested
      references. */
  ghost predicate ReadsAs(s: string, p: nat, end: nat, arg: Arg, spec: Spec) {
    exists cut :: SpecAt(s, p, end, arg, spec, cut) && cut.Nested() == []
  }

  /** Every specification that can be written down for an argument is read as itself, whatever follows
      it, with one exception: the empty one in front of an alignment character. */
  lemma {:induction false} SpecRoundTrip(s: string, p: nat, f: Flags, spec: Spec, arg: Arg)
    requires Writable(f, spec, arg) && StartsAt(s, p, ":" + SpecText(f, spec) + "}")
    ensures ReadsAs(s, p, p + 1 + |SpecText(f, spec)|, arg, spec)
            <==> (SpecText(f, spec) == "" ==> AlignmentOf(Peek(s, p + 2)) == Default)
  {
    hide SpecText, StartsAt, SpecAt, WrittenParts, Writable, AlignmentOf;
    var end := p + 1 + |SpecText(f, spec)|;
    var cut := TextParts(s, p, f, spec);
    if SpecText(f, spec) == "" && AlignmentOf(Peek(s, p + 2)) != Default {
      EmptyIsDefault(s, p, f, spec, arg, cut);
      if ReadsAs(s, p, end, arg, spec) {
        var x :| SpecAt(s, p, end, arg, spec, x) && x.Nested() == [];
        EmptyTakesMark(s, p, spec, arg, x);
      }
    } else {
      PartsRead(s, p, end, f, spec, arg, cut);
    }
  }

  /** An alignment character behind the closing brace of an empty specification is taken for its
      alignment. */
  lemma {:induction false} MarkBehind(s: string, p: nat, arg: Arg)
    requires Peek(s, p) == ':' && Peek(s, p + 1) == '}' && AlignmentOf(Peek(s, p + 2)) != Default
    ensures FlagsAt(s, p + 1, p + 1, arg, JustAlign(Beyond(Peek(s, p + 2))))
  {
  }

  lemma {:induction false} EmptyTakesMark(s: string, p: nat, spec: Spec, arg: Arg, x: Cut)
    requires Peek(s, p) == ':' && Peek(s, p + 1) == '}' && AlignmentOf(Peek(s, p + 2)) != Default
    requires SpecAt(s, p, p + 1, arg, spec, x)
    ensures spec.align != Default
  {
    hide FlagsAt, CountAt, PrecisionAt, KindAt, AlignmentOf;
    MarkBehind(s, p, arg);
    FlagsUnique(s, p + 1, p + 1, x.m, arg, JustAlign(Beyond(Peek(s, p + 2))), x.flags);
  }

  lemma {:induction false} EmptyIsDefault(s: string, p: nat, f: Flags, spec: Spec, arg: Arg, cut: Cut)
    requires Writable(f, spec, arg) && SpecText(f, spec) == "" && WrittenParts(s, p, p + 1, f, spec, cut)
    ensures spec.align == Default && Peek(s, p) == ':' && Peek(s, p + 1) == '}'
  {
    assert |AlignText(f.align)| == 0 && |MarksText(f)| == 0;
  }

  /** The input at which the round trip fails: an empty specification followed by '<' is read as left
      alignment. */
  lemma {:induction false} MarkBehindInput(arg: Arg)
    ensures ReadsAs(":}<", 0, 1, arg, DefaultSpec.(align := Left)) && !ReadsAs(":}<", 0, 1, arg, DefaultSpec)
  {
    var s := ":}<";
    var none := JustAlign(NoAlign);
    assert Writable(none, DefaultSpec, arg) && SpecText(none, DefaultSpec) == "";
    assert StartsAt(s, 0, ":" + "" + "}");
    SpecRoundTrip(s, 0, none, DefaultSpec, arg);
    MarkBehind(s, 0, arg);
    var cut := Cut(JustAlign(Beyond('<')), 1, 1, 1, [], []);
    assert SpecAt(s, 0, 1, arg, DefaultSpec.(align := Left), cut);
  }

  lemma {:induction false} TextParts(s: string, p: nat, f: Flags, spec: Spec) returns (cut: Cut)
    requires StartsAt(s, p, ":" + SpecText(f, spec) + "}")
    ensures WrittenParts(s, p, p + 1 + |SpecText(f, spec)|, f, spec, cut)
  {
    hide AlignText, MarksText, WidthText, PrecisionText, KindText;
    var m := p + 1 + |FlagsText(f)|;
    var w, pr, k := WidthText(spec.width), PrecisionText(spec.precision), KindText(spec.kind);
    cut := Cut(f, m, m + |w|, m + |w| + |pr|, [], []);
    var end := p + 1 + |SpecText(f, spec)|;
    StartsApart(s, p, ":" + SpecText(f, spec), "}");
    StartsApart(s, p, ":", SpecText(f, spec));
    assert s[p..p + 1][0] == s[p] && s[end..end + 1][0] == s[end];
    StartsApart(s, p + 1, FlagsText(f), w + (pr + k));
    Apart3(s, p + 1, m, AlignText(f.align), f.sign, MarksText(f));
    StartsApart(s, m, w, pr + k);
    StartsApart(s, m + |w|, pr, k);
  }
}
