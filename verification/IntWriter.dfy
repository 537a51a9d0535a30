/** Formatting integers with sign, prefix, width, precision and alignment. */
module IntWriter {
  import opened Widths
  import opened Decimal
  import CountDigits
  import IntText

  datatype Alignment = Default | Left | Right | Center | Numeric

  /** A format specification; `precision` is -1 when there is none, `kind` 0 stands for no type letter. */
  datatype Spec = Spec(width: nat, fill: char, align: Alignment, precision: int,
                       sign: bool, plus: bool, hash: bool, kind: char)

  function Fill(c: char, n: nat): (s: string)
    ensures |s| == n && forall i :: 0 <= i < n ==> s[i] == c
  {
    seq(n, _ => c)
  }

  // ----- Specification -----

  function DigitChar16(d: nat, upper: bool): char
    requires d < 16
  {
    if d < 10 then '0' + d as char else (if upper then 'A' else 'a') + (d - 10) as char
  }

  /** The text of n in a base, most significant digit first. */
  function DigitsOf(n: nat, base: nat, upper: bool): (s: string)
    requires 2 <= base <= 16
    ensures |s| >= 1
  {
    if n < base then [DigitChar16(n, upper)]
    else DigitsOf(n / base, base, upper) + [DigitChar16(n % base, upper)]
  }

  function CharValue(c: char): int {
    if '0' <= c <= '9' then (c - '0') as int
    else if 'a' <= c <= 'f' then (c - 'a') as int + 10
    else if 'A' <= c <= 'F' then (c - 'A') as int + 10
    else -1
  }

  /** The number a digit string denotes in a base. */
  function ReadBack(s: string, base: nat): int {
    if |s| == 0 then 0 else ReadBack(s[..|s| - 1], base) * base + CharValue(s[|s| - 1])
  }

  /** The digits read back to the number, in every base and case. */
  lemma {:induction false} DigitsReadBack(n: nat, base: nat, upper: bool)
    requires 2 <= base <= 16
    ensures ReadBack(DigitsOf(n, base, upper), base) == n
  {
    if n < base {
      CharReadsBack(n, upper);
      ReadSnoc([], DigitChar16(n, upper), base);
      assert [] + [DigitChar16(n, upper)] == [DigitChar16(n, upper)];
    } else {
      var q, r := n / base, n % base;
      Divided(n, base);
      DigitsReadBack(q, base, upper);
      CharReadsBack(r, upper);
      ReadSnoc(DigitsOf(q, base, upper), DigitChar16(r, upper), base);
    }
  }

  lemma {:induction false} Divided(n: nat, base: nat)
    requires 2 <= base <= n
    ensures 0 < n / base < n && n / base * base + n % base == n
  {
  }

  lemma {:induction false} CharReadsBack(d: nat, upper: bool)
    requires d < 16
    ensures CharValue(DigitChar16(d, upper)) == d
  {
  }

  lemma {:induction false} ReadSnoc(s: string, c: char, base: nat)
    ensures ReadBack(s + [c], base) == ReadBack(s, base) * base + CharValue(c)
  {
    assert (s + [c])[..|s|] == s;
  }

  lemma {:induction false} DecimalDigits(n: nat, upper: bool)
    ensures DigitsOf(n, 10, upper) == Text(n)
  {
    if n >= 10 {
      DecimalDigits(n / 10, upper);
    }
  }

  predicate KnownKind(kind: char) { kind in "\0dxXbBo" }

  function BaseOf(kind: char): nat {
    match kind
    case 'x' => 16
    case 'X' => 16
    case 'b' => 2
    case 'B' => 2
    case 'o' => 8
    case _ => 10
  }

  function Magnitude(value: int): nat { if value < 0 then -value else value }

  function SignPrefix(value: int, spec: Spec): string {
    if value < 0 then "-" else if spec.sign then (if spec.plus then "+" else " ") else ""
  }

  function BasePrefix(spec: Spec): string {
    if !spec.hash then ""
    else
      match spec.kind
      case 'x' => "0x"
      case 'X' => "0X"
      case 'b' => "0b"
      case 'B' => "0B"
      case 'o' => "0"
      case _ => ""
  }

  /** Sign, then the base prefix if asked for. */
  function Prefix(value: int, spec: Spec): string {
    SignPrefix(value, spec) + BasePrefix(spec)
  }

  /** A precision beyond the digits pads them with zeros, and then an octal '0' counts as one of them. */
  predicate Padded(spec: Spec, numDigits: nat) { spec.precision > numDigits }

  function EffectivePrefix(spec: Spec, prefix: string, numDigits: nat): string {
    if Padded(spec, numDigits) && |prefix| > 0 && prefix[|prefix| - 1] == '0' then prefix[..|prefix| - 1] else prefix
  }

  /** The zeros a precision puts in front of the digits. */
  function Zeros(spec: Spec, numDigits: nat): string {
    if Padded(spec, numDigits) then Fill('0', spec.precision - numDigits) else ""
  }

  /** How much fill the width asks for. */
  function Padding(spec: Spec, prefix: string, numDigits: nat): nat {
    var size := |EffectivePrefix(spec, prefix, numDigits)| + |Zeros(spec, numDigits)| + numDigits;
    if spec.width > size then spec.width - size else 0
  }

  /** The whole field: fill, prefix, zeros and digits in the order the alignment demands. */
  function Layout(spec: Spec, prefix: string, digits: string): string {
    var n := |digits|;
    var p, z, pad := EffectivePrefix(spec, prefix, n), Zeros(spec, n), Padding(spec, prefix, n);
    match spec.align
    case Left => p + z + digits + Fill(spec.fill, pad)
    case Center =>
      if Padded(spec, n) then Fill(spec.fill, pad) + p + z + digits
      else Fill(spec.fill, pad / 2) + p + digits + Fill(spec.fill, pad - pad / 2)
    case Numeric =>
      if Padded(spec, n) then Fill(spec.fill, pad) + p + z + digits
      else p + Fill(spec.fill, pad) + digits
    case _ => Fill(spec.fill, pad) + p + z + digits
  }

  function Max(a: int, b: int): int { if a < b then b else a }

  /** The field is exactly as wide as the width, or as prefix and digits need. */
  lemma {:induction false} LayoutWidth(spec: Spec, prefix: string, digits: string)
    ensures |Layout(spec, prefix, digits)|
            == Max(spec.width, |EffectivePrefix(spec, prefix, |digits|)| + Max(spec.precision, |digits|))
  {
  }

  /** What stands before and after the digits. */
  function Before(spec: Spec, prefix: string, n: nat): string {
    var p, z, pad := EffectivePrefix(spec, prefix, n), Zeros(spec, n), Padding(spec, prefix, n);
    match spec.align
    case Left => p + z
    case Center => if Padded(spec, n) then Fill(spec.fill, pad) + p + z else Fill(spec.fill, pad / 2) + p
    case Numeric => if Padded(spec, n) then Fill(spec.fill, pad) + p + z else p + Fill(spec.fill, pad)
    case _ => Fill(spec.fill, pad) + p + z
  }

  function After(spec: Spec, prefix: string, n: nat): string {
    var pad := Padding(spec, prefix, n);
    match spec.align
    case Left => Fill(spec.fill, pad)
    case Center => if Padded(spec, n) then "" else Fill(spec.fill, pad - pad / 2)
    case _ => ""
  }

  lemma {:induction false} LayoutSplits(spec: Spec, prefix: string, digits: string)
    ensures Layout(spec, prefix, digits) == Before(spec, prefix, |digits|) + digits + After(spec, prefix, |digits|)
  {
  }

  // ----- Reading a number back -----

  /** The number that a text in the notation of a type letter denotes: a sign or a space, "0x" or "0b" in
      the case of the letter, digits. */
  function ReadNumber(s: string, kind: char): int {
    if |s| > 0 && s[0] == '-' then 0 - ReadUnsigned(s[1..], kind)
    else if |s| > 0 && (s[0] == '+' || s[0] == ' ') then ReadUnsigned(s[1..], kind)
    else ReadUnsigned(s, kind)
  }

  function ReadUnsigned(s: string, kind: char): int {
    if kind == 'x' || kind == 'X' || kind == 'b' || kind == 'B' then
      var digits := if |s| > 1 && s[0] == '0' && s[1] == kind then s[2..] else s;
      ReadBack(digits, if kind == 'x' || kind == 'X' then 16 else 2)
    else ReadBack(s, if kind == 'o' then 8 else 10)
  }

  /** The characters of numbers in a base, in one letter case. */
  predicate IsDigitIn(c: char, base: nat, upper: bool) {
    || ('0' <= c <= '9' && c as int - 48 < base)
    || (!upper && 'a' <= c <= 'f' && c as int - 87 < base)
    || (upper && 'A' <= c <= 'F' && c as int - 55 < base)
  }

  lemma {:induction false} DigitsAreDigits(n: nat, base: nat, upper: bool)
    requires 2 <= base <= 16
    ensures forall i :: 0 <= i < |DigitsOf(n, base, upper)| ==> IsDigitIn(DigitsOf(n, base, upper)[i], base, upper)
  {
    if n >= base {
      Divided(n, base);
      DigitsAreDigits(n / base, base, upper);
    }
  }

  /** Sign, base prefix and digits, as they are written without padding. */
  function NumberText(value: int, spec: Spec): string {
    Prefix(value, spec) + DigitsOf(Magnitude(value), BaseOf(spec.kind), spec.kind == 'X')
  }

  lemma {:induction false} ReadZero(s: string, base: nat)
    ensures ReadBack("0" + s, base) == ReadBack(s, base)
  {
    if |s| == 0 {
      assert "0" + s == "0" && "0"[..0] == "";
    } else {
      ReadZero(s[..|s| - 1], base);
      assert ("0" + s)[..|s|] == "0" + s[..|s| - 1];
    }
  }

  /** The unsigned part: prefix and digits. */
  lemma {:induction false} UnsignedReadsBack(n: nat, spec: Spec)
    requires KnownKind(spec.kind)
    ensures var s := BasePrefix(spec) + DigitsOf(n, BaseOf(spec.kind), spec.kind == 'X');
            ReadUnsigned(s, spec.kind) == n && |s| > 0 && s[0] != '-' && s[0] != '+' && s[0] != ' '
  {
    hide DigitsOf, ReadBack;
    var base, upper := BaseOf(spec.kind), spec.kind == 'X';
    var digits := DigitsOf(n, base, upper);
    DigitsReadBack(n, base, upper);
    DigitsAreDigits(n, base, upper);
    assert IsDigitIn(digits[0], base, upper) && (|digits| > 1 ==> IsDigitIn(digits[1], base, upper));
    if spec.hash && spec.kind == 'o' {
      ReadZero(digits, 8);
    } else if |BasePrefix(spec)| == 2 {
      assert (BasePrefix(spec) + digits)[2..] == digits;
    } else {
      assert BasePrefix(spec) + digits == digits;
    }
  }

  /** Whatever the flags and the type letter, the text denotes the value. */
  lemma {:induction false} NumberReadsBack(value: int, spec: Spec)
    requires KnownKind(spec.kind)
    ensures ReadNumber(NumberText(value, spec), spec.kind) == value
  {
    hide DigitsOf, ReadBack, BasePrefix, ReadUnsigned, KnownKind;
    UnsignedReadsBack(Magnitude(value), spec);
    var sign := SignPrefix(value, spec);
    var rest := BasePrefix(spec) + DigitsOf(Magnitude(value), BaseOf(spec.kind), spec.kind == 'X');
    assert NumberText(value, spec) == sign + rest;
    assert |sign| == 1 ==> (sign + rest)[1..] == rest;
    assert sign == "" ==> sign + rest == rest;
  }

  /** A minus stands for a negative number, a plus for the plus flag on any other, a space for the sign
      flag alone; and the number has its base prefix exactly if that is asked for. */
  lemma {:induction false} SignsStand(value: int, spec: Spec)
    requires KnownKind(spec.kind)
    ensures var s := NumberText(value, spec);
            && (s[0] == '-' <==> value < 0)
            && (s[0] == '+' <==> value >= 0 && spec.sign && spec.plus)
            && (s[0] == ' ' <==> value >= 0 && spec.sign && !spec.plus)
    ensures var sign := if value < 0 || spec.sign then 1 else 0;
            && |NumberText(value, spec)| == sign + |DigitsOf(Magnitude(value), BaseOf(spec.kind), spec.kind == 'X')|
               + (if !spec.hash || spec.kind == '\0' || spec.kind == 'd' then 0 else if spec.kind == 'o' then 1 else 2)
  {
    hide DigitsOf;
    var base, upper := BaseOf(spec.kind), spec.kind == 'X';
    DigitsAreDigits(Magnitude(value), base, upper);
    assert IsDigitIn(DigitsOf(Magnitude(value), base, upper)[0], base, upper);
  }

  /** The base prefix that stays in front of a precision's zeros: an octal zero counts as one of them. */
  function KeptPrefix(spec: Spec): string {
    if spec.hash && (spec.kind == 'x' || spec.kind == 'X' || spec.kind == 'b' || spec.kind == 'B') then ['0', spec.kind]
    else ""
  }

  /** A number with its digits padded to a precision. */
  function PaddedText(value: int, spec: Spec): string {
    var digits := DigitsOf(Magnitude(value), BaseOf(spec.kind), spec.kind == 'X');
    var zeros := if spec.precision > |digits| then spec.precision - |digits| else 0;
    SignPrefix(value, spec) + (KeptPrefix(spec) + (Fill('0', zeros) + digits))
  }

  lemma {:induction false} ReadZeros(n: nat, s: string, base: nat)
    ensures ReadBack(Fill('0', n) + s, base) == ReadBack(s, base)
  {
    if n == 0 {
      assert Fill('0', 0) + s == s;
    } else {
      ReadZeros(n - 1, s, base);
      ReadZero(Fill('0', n - 1) + s, base);
      assert Fill('0', n) + s == "0" + (Fill('0', n - 1) + s);
    }
  }

  /** A precision beyond the digits: zeros fill the number up to it behind sign and prefix, and the width
      pads the whole on the left unless it is to be on the left. */
  lemma {:induction false} PrecisionField(value: int, spec: Spec)
    requires KnownKind(spec.kind)
    ensures var digits := DigitsOf(Magnitude(value), BaseOf(spec.kind), spec.kind == 'X');
            var text := PaddedText(value, spec);
            var pad := if spec.width > |text| then spec.width - |text| else 0;
            spec.precision > |digits| ==>
              Layout(spec, Prefix(value, spec), digits)
              == if spec.align == Left then text + Fill(spec.fill, pad) else Fill(spec.fill, pad) + text
  {
    hide DigitsOf, Fill, Layout, Prefix, KeptPrefix, SignPrefix, KnownKind;
    var digits := DigitsOf(Magnitude(value), BaseOf(spec.kind), spec.kind == 'X');
    if spec.precision > |digits| {
      var zeros := Fill('0', spec.precision - |digits|);
      KeptIsEffective(value, spec, |digits|);
      PaddedLayout(spec, Prefix(value, spec), digits);
      Associates(SignPrefix(value, spec), KeptPrefix(spec), zeros, digits);
    }
  }

  lemma {:induction false} Associates(a: string, b: string, c: string, d: string)
    ensures a + (b + (c + d)) == a + b + c + d
  {
  }

  lemma {:induction false} PaddedLayout(spec: Spec, prefix: string, digits: string)
    requires spec.precision > |digits|
    ensures var text := EffectivePrefix(spec, prefix, |digits|) + Fill('0', spec.precision - |digits|) + digits;
            var pad := if spec.width > |text| then spec.width - |text| else 0;
            Layout(spec, prefix, digits)
            == if spec.align == Left then text + Fill(spec.fill, pad) else Fill(spec.fill, pad) + text
  {
    hide Fill, EffectivePrefix;
    var p, zeros := EffectivePrefix(spec, prefix, |digits|), Fill('0', spec.precision - |digits|);
    var f := Fill(spec.fill, Padding(spec, prefix, |digits|));
    assert f + p + zeros + digits == f + (p + zeros + digits);
  }

  lemma {:induction false} KeptIsEffective(value: int, spec: Spec, n: nat)
    requires KnownKind(spec.kind) && spec.precision > n
    ensures EffectivePrefix(spec, Prefix(value, spec), n) == SignPrefix(value, spec) + KeptPrefix(spec)
  {
    var sign := SignPrefix(value, spec);
    assert sign + "" == sign && (sign + "0")[..|sign|] == sign;
  }

  /** Padded to a precision, the number still denotes its value. */
  lemma {:induction false} PaddedReadsBack(value: int, spec: Spec)
    requires KnownKind(spec.kind)
    ensures ReadNumber(PaddedText(value, spec), spec.kind) == value
  {
    hide DigitsOf, ReadBack, Fill, ReadUnsigned, KnownKind;
    var base, upper := BaseOf(spec.kind), spec.kind == 'X';
    var digits := DigitsOf(Magnitude(value), base, upper);
    var zeros := if spec.precision > |digits| then spec.precision - |digits| else 0;
    var rest := KeptPrefix(spec) + (Fill('0', zeros) + digits);
    PaddedUnsigned(Magnitude(value), spec, zeros);
    var sign := SignPrefix(value, spec);
    assert PaddedText(value, spec) == sign + rest;
    assert |sign| == 1 ==> (sign + rest)[1..] == rest;
    assert sign == "" ==> sign + rest == rest;
  }

  lemma {:induction false} PaddedUnsigned(n: nat, spec: Spec, zeros: nat)
    requires KnownKind(spec.kind)
    ensures var s := KeptPrefix(spec) + (Fill('0', zeros) + DigitsOf(n, BaseOf(spec.kind), spec.kind == 'X'));
            ReadUnsigned(s, spec.kind) == n && |s| > 0 && s[0] != '-' && s[0] != '+' && s[0] != ' '
  {
    hide DigitsOf, ReadBack;
    var base, upper := BaseOf(spec.kind), spec.kind == 'X';
    var digits := DigitsOf(n, base, upper);
    DigitsReadBack(n, base, upper);
    DigitsAreDigits(n, base, upper);
    ReadZeros(zeros, digits, base);
    assert IsDigitIn(digits[0], base, upper) && (|digits| > 1 ==> IsDigitIn(digits[1], base, upper));
    var tail := Fill('0', zeros) + digits;
    assert tail[0] == if zeros > 0 then '0' else digits[0];
    assert |tail| > 1 ==> tail[1] == if zeros > 1 then '0' else if zeros == 1 then digits[0] else digits[1];
    if |KeptPrefix(spec)| == 2 {
      assert (KeptPrefix(spec) + tail)[2..] == tail;
    } else {
      assert KeptPrefix(spec) + tail == tail;
    }
  }

  // ----- The writer -----

  /** `std::fill` and `std::copy` on part of a buffer. */
  function FillRange(s: string, from: nat, to: nat, c: char): (r: string)
    requires from <= to <= |s|
    ensures |r| == |s|
  {
    s[..from] + Fill(c, to - from) + s[to..]
  }

  function CopyTo(s: string, at: nat, src: string): (r: string)
    requires at + |src| <= |s|
    ensures |r| == |s|
  {
    s[..at] + src + s[at + |src|..]
  }

  class Writer {
    var buffer: string

    constructor ()
      ensures buffer == ""
    {
      buffer := "";
    }

    /** Append n characters of unspecified content; returns where they start. */
    method GrowBuffer(n: nat) returns (p: nat)
      modifies this
      ensures p == |old(buffer)| && |buffer| == p + n && buffer[..p] == old(buffer)
    {
      p := |buffer|;
      assert |Fill(' ', n)| == n;
      var junk: string :| |junk| == n;
      buffer := buffer + junk;
    }

    method AppendFill(n: nat, c: char)
      modifies this
      ensures buffer == old(buffer) + Fill(c, n)
    {
      var p := GrowBuffer(n);
      buffer := FillRange(buffer, p, p + n, c);
    }

    /** Reserve a field for `numDigits` digits and fill in everything around them; returns the place of
        the last digit.  The digits' own slots are left as they are. */
    method PrepareIntBuffer(numDigits: nat, spec: Spec, prefix: string) returns (last: int, ghost slot: string)
      requires numDigits > 0
      modifies this
      ensures |slot| == numDigits
      ensures buffer == old(buffer) + Before(spec, prefix, numDigits) + slot + After(spec, prefix, numDigits)
      ensures last == |old(buffer)| + |Before(spec, prefix, numDigits)| + numDigits - 1
      decreases if spec.precision >= 0 then 1 else 0, 1
    {
      if spec.precision > numDigits {
        var p := if |prefix| > 0 && prefix[|prefix| - 1] == '0' then prefix[..|prefix| - 1] else prefix;
        var numberSize := |p| + spec.precision;
        var sub := Spec(numberSize, '0', Numeric, -1, spec.sign, spec.plus, spec.hash, spec.kind);
        ZeroPadding(spec, sub, prefix, p, numDigits);
        var fillSize := if numberSize >= spec.width then 0 else spec.width - numberSize;
        last, slot := PreparePadded(numDigits, spec, sub, p, fillSize);
        Surrounded(old(buffer), Fill(spec.fill, fillSize), Before(sub, p, numDigits), slot, spec.align == Left);
        return;
      }
      last, slot := PreparePlain(numDigits, spec, prefix);
    }

    /** The field of zeros, with fill on one side of it. */
    method PreparePadded(numDigits: nat, spec: Spec, sub: Spec, p: string, fillSize: nat) returns (last: int,
                         ghost slot: string)
      requires numDigits > 0 && sub.precision < 0 <= spec.precision
      modifies this
      ensures |slot| == numDigits
      ensures var before, fill := Before(sub, p, numDigits), Fill(spec.fill, fillSize);
              if spec.align == Left then
                buffer == old(buffer) + before + slot + After(sub, p, numDigits) + fill
                && last == |old(buffer)| + |before| + numDigits - 1
              else
                buffer == old(buffer) + fill + before + slot + After(sub, p, numDigits)
                && last == |old(buffer)| + fillSize + |before| + numDigits - 1
      decreases if spec.precision >= 0 then 1 else 0, 0
    {
      if spec.align != Left && fillSize > 0 {
        AppendFill(fillSize, spec.fill);
      }
      assert old(buffer) + Fill(spec.fill, 0) == old(buffer);
      last, slot := PrepareIntBuffer(numDigits, sub, p);
      if spec.align == Left && fillSize > 0 {
        AppendFill(fillSize, spec.fill);
      }
    }

    /** The part for a precision that the digits already reach. */
    method PreparePlain(numDigits: nat, spec: Spec, prefix: string) returns (last: int, ghost slot: string)
      requires numDigits > 0 && spec.precision <= numDigits
      modifies this
      ensures |slot| == numDigits
      ensures buffer == old(buffer) + Before(spec, prefix, numDigits) + slot + After(spec, prefix, numDigits)
      ensures last == |old(buffer)| + |Before(spec, prefix, numDigits)| + numDigits - 1
    {
      var size := |prefix| + numDigits;
      PlainParts(spec, prefix, numDigits);
      if spec.width <= size {
        var p := GrowBuffer(size);
        Snug(buffer, p, prefix);
        buffer := CopyTo(buffer, p, prefix);
        slot := buffer[p + |prefix|..];
        last := p + size - 1;
        return;
      }
      match spec.align
      case Left => last, slot := PrepareLeft(numDigits, spec, prefix);
      case Center => last, slot := PrepareCenter(numDigits, spec, prefix);
      case Numeric => last, slot := PrepareNumeric(numDigits, spec, prefix);
      case _ => last, slot := PrepareRight(numDigits, spec, prefix);
    }

    method PrepareLeft(numDigits: nat, spec: Spec, prefix: string) returns (last: int, ghost slot: string)
      requires numDigits > 0 && spec.width > |prefix| + numDigits
      modifies this
      ensures |slot| == numDigits
      ensures buffer == old(buffer) + prefix + slot + Fill(spec.fill, spec.width - |prefix| - numDigits)
      ensures last == |old(buffer)| + |prefix| + numDigits - 1
    {
      var p := GrowBuffer(spec.width);
      var end := p + spec.width;
      ghost var g := buffer;
      buffer := CopyTo(buffer, p, prefix);
      slot := g[p + |prefix|..p + |prefix| + numDigits];
      assert buffer == old(buffer) + prefix + slot + g[p + |prefix| + numDigits..];
      p := p + |prefix| + numDigits;
      buffer := FillRange(buffer, p, end, spec.fill);
      last := p - 1;
    }

    method PrepareCenter(numDigits: nat, spec: Spec, prefix: string) returns (last: int, ghost slot: string)
      requires numDigits > 0 && spec.width > |prefix| + numDigits
      modifies this
      ensures |slot| == numDigits
      ensures var pad := spec.width - |prefix| - numDigits;
              && buffer == old(buffer) + (Fill(spec.fill, pad / 2) + prefix) + slot + Fill(spec.fill, pad - pad / 2)
              && last == |old(buffer)| + pad / 2 + |prefix| + numDigits - 1
    {
      hide Fill;
      var size := |prefix| + numDigits;
      var p := GrowBuffer(spec.width);
      p := FillPadding(p, spec.width, size, spec.fill);
      ghost var g, pad := buffer, spec.width - size;
      ghost var content := g[p..p + size];
      assert g == old(buffer) + Fill(spec.fill, pad / 2) + content + Fill(spec.fill, pad - pad / 2);
      slot := content[|prefix|..];
      Recopied(old(buffer) + Fill(spec.fill, pad / 2), content, Fill(spec.fill, pad - pad / 2), prefix);
      buffer := CopyTo(buffer, p, prefix);
      assert old(buffer) + Fill(spec.fill, pad / 2) + prefix == old(buffer) + (Fill(spec.fill, pad / 2) + prefix);
      last := p + size - 1;
    }

    method PrepareNumeric(numDigits: nat, spec: Spec, prefix: string) returns (last: int, ghost slot: string)
      requires numDigits > 0 && spec.width > |prefix| + numDigits
      modifies this
      ensures |slot| == numDigits
      ensures buffer == old(buffer) + (prefix + Fill(spec.fill, spec.width - |prefix| - numDigits)) + slot
      ensures last == |old(buffer)| + spec.width - 1
    {
      var size := |prefix| + numDigits;
      var p := GrowBuffer(spec.width);
      var end := p + spec.width;
      ghost var g := buffer;
      if |prefix| != 0 {
        buffer := CopyTo(buffer, p, prefix);
        p := p + |prefix|;
        size := size - |prefix|;
      }
      slot := g[end - numDigits..];
      assert buffer[..p] == old(buffer) + prefix && buffer[end - size..] == slot;
      buffer := FillRange(buffer, p, end - size, spec.fill);
      last := end - 1;
    }

    method PrepareRight(numDigits: nat, spec: Spec, prefix: string) returns (last: int, ghost slot: string)
      requires numDigits > 0 && spec.width > |prefix| + numDigits
      modifies this
      ensures |slot| == numDigits
      ensures buffer == old(buffer) + (Fill(spec.fill, spec.width - |prefix| - numDigits) + prefix) + slot
      ensures last == |old(buffer)| + spec.width - 1
    {
      var size := |prefix| + numDigits;
      var p := GrowBuffer(spec.width);
      var end := p + spec.width;
      ghost var g := buffer;
      buffer := CopyTo(buffer, end - size, prefix);
      slot := g[end - numDigits..];
      assert buffer[..p] == old(buffer) && buffer[end - size..] == prefix + slot;
      buffer := FillRange(buffer, p, end - size, spec.fill);
      last := end - 1;
    }

    /** Center: fill on both sides of the content, which is returned. */
    method FillPadding(p: nat, total: nat, content: nat, c: char) returns (q: nat)
      requires content <= total && p + total == |buffer|
      modifies this
      ensures var pad := total - content;
              q == p + pad / 2 && |buffer| == |old(buffer)|
              && buffer == old(buffer)[..p] + Fill(c, pad / 2) + old(buffer)[q..q + content] + Fill(c, pad - pad / 2)
    {
      var padding := total - content;
      var leftPadding := padding / 2;
      TwoFills(buffer, p, leftPadding, content, padding - leftPadding, c);
      buffer := FillRange(buffer, p, p + leftPadding, c);
      q := p + leftPadding;
      buffer := FillRange(buffer, q + content, q + content + (padding - leftPadding), c);
    }

    /** Write the digits of n from the last place backwards. */
    method WriteDigits(last: int, n: nat, base: nat, upper: bool)
      requires 2 <= base <= 16 && |DigitsOf(n, base, upper)| <= last + 1 <= |buffer|
      modifies this
      ensures buffer == CopyTo(old(buffer), last + 1 - |DigitsOf(n, base, upper)|, DigitsOf(n, base, upper))
    {
      ghost var text, tail := DigitsOf(n, base, upper), "";
      var p, m: nat, done := last, n, false;
      while !done
        invariant -1 <= p <= last && p + |tail| == last
        invariant if done then tail == text else p >= 0 && Remains(text, m, base, upper, tail)
        invariant buffer == old(buffer)[..p + 1] + tail + old(buffer)[last + 1..]
        decreases if done then 0 else 1, m
      {
        m, tail := PutLowDigit(p, m, base, upper, text, tail, old(buffer)[..p + 1], old(buffer)[last + 1..]);
        p := p - 1;
        done := m == 0;
      }
    }

    /** One turn of the loop: the lowest digit goes in front of those already written. */
    method PutLowDigit(p: nat, m: nat, base: nat, upper: bool,
                       ghost text: string, ghost tail: string, ghost front: string, ghost rest: string)
      returns (next: nat, ghost tail': string)
      requires 2 <= base <= 16 && Remains(text, m, base, upper, tail)
      requires |front| == p + 1 && buffer == front + tail + rest
      modifies this
      ensures |tail'| == |tail| + 1 && buffer == front[..p] + tail' + rest
      ensures if next == 0 then text == tail'
              else next < m && Remains(text, next, base, upper, tail') && |tail'| < |text|
    {
      RemainsStep(text, m, base, upper, tail);
      var d := DigitChar16(m % base, upper);
      tail' := [d] + tail;
      PutFront(front, p, tail, rest, d);
      assert front[..p + 1] == front;
      buffer := buffer[p := d];
      next := m / base;
    }

    /** Sign and prefix, number of digits, field, digits.  An unknown type letter is an error and
        writes nothing. */
    method WriteInt(value: int, spec: Spec) returns (ok: bool)
      requires INT64_MIN <= value < UINT64
      modifies this
      ensures ok <==> KnownKind(spec.kind)
      ensures ok ==>
        buffer == old(buffer) + Layout(spec, Prefix(value, spec),
                                       DigitsOf(Magnitude(value), BaseOf(spec.kind), spec.kind == 'X'))
      ensures !ok ==> buffer == old(buffer)
    {
      var sign, abs := SignAndMagnitude(value, spec);
      ok := WriteMagnitude(abs, spec, sign);
    }

    /** The switch on the type letter. */
    method WriteMagnitude(abs: nat, spec: Spec, sign: string) returns (ok: bool)
      requires abs < UINT64
      modifies this
      ensures ok <==> KnownKind(spec.kind)
      ensures ok ==>
        buffer == old(buffer) + Layout(spec, sign + BasePrefix(spec),
                                       DigitsOf(abs, BaseOf(spec.kind), spec.kind == 'X'))
      ensures !ok ==> buffer == old(buffer)
    {
      ok := true;
      assert sign + "" == sign;
      match spec.kind {
        case '\0' => WriteDecimalField(abs, spec, sign);
        case 'd' => WriteDecimalField(abs, spec, sign);
        case 'x' => WriteBase(abs, spec, if spec.hash then sign + "0x" else sign, 16, false);
        case 'X' => WriteBase(abs, spec, if spec.hash then sign + "0X" else sign, 16, true);
        case 'b' => WriteBase(abs, spec, if spec.hash then sign + "0b" else sign, 2, false);
        case 'B' => WriteBase(abs, spec, if spec.hash then sign + "0B" else sign, 2, false);
        case 'o' => WriteBase(abs, spec, if spec.hash then sign + "0" else sign, 8, false);
        case _ => ok := false;
      }
    }

    /** A number without a specification: sign and digits. */
    method WriteDecimal(value: int)
      requires INT64_MIN <= value < UINT64
      modifies this
      ensures buffer == old(buffer) + IntText.SignedText(value)
    {
      hide Text;
      var abs := IntText.ToUint64(value);
      if value < 0 {
        IntText.NegatedBits(value);
        abs := IntText.ToUint64(0 - abs as int);
        var p := WriteUnsignedDecimal(abs, 1);
        ghost var digits := Text(abs);
        assert buffer[p + 1..] == digits && buffer[..p] == old(buffer);
        buffer := buffer[p := '-'];
        assert buffer == buffer[..p] + [buffer[p]] + buffer[p + 1..];
        assert old(buffer) + "-" + digits == old(buffer) + ("-" + digits);
      } else {
        var p := WriteUnsignedDecimal(abs, 0);
        assert buffer == buffer[..p] + buffer[p..];
      }
    }

    /** The digits after `prefixSize` free places; returns where the places start. */
    method WriteUnsignedDecimal(value: nat, prefixSize: nat) returns (p: nat)
      requires value < UINT64
      modifies this
      ensures p == |old(buffer)| && |buffer| == p + prefixSize + |Text(value)|
      ensures buffer[..p] == old(buffer) && buffer[p + prefixSize..] == Text(value)
    {
      var digits := FormatDigits(value);
      p := GrowBuffer(prefixSize + |digits|);
      buffer := CopyTo(buffer, p + prefixSize, digits);
    }

    method WriteDecimalField(abs: nat, spec: Spec, prefix: string)
      requires abs < UINT64
      modifies this
      ensures buffer == old(buffer) + Layout(spec, prefix, DigitsOf(abs, 10, false))
    {
      var digits := FormatDigits(abs);
      var numDigits := |digits|;
      DecimalDigits(abs, false);
      var last, slot := PrepareIntBuffer(numDigits, spec, prefix);
      FieldWritten(old(buffer), Before(spec, prefix, numDigits), slot, After(spec, prefix, numDigits), digits);
      LayoutSplits(spec, prefix, digits);
      buffer := CopyTo(buffer, last + 1 - numDigits, digits);
    }

    method WriteBase(abs: nat, spec: Spec, prefix: string, base: nat, upper: bool)
      requires 2 <= base <= 16
      modifies this
      ensures buffer == old(buffer) + Layout(spec, prefix, DigitsOf(abs, base, upper))
    {
      var numDigits := CountInBase(abs, base, upper);
      ghost var digits := DigitsOf(abs, base, upper);
      var last, slot := PrepareIntBuffer(numDigits, spec, prefix);
      FieldWritten(old(buffer), Before(spec, prefix, numDigits), slot, After(spec, prefix, numDigits), digits);
      LayoutSplits(spec, prefix, digits);
      WriteDigits(last, abs, base, upper);
    }
  }

  /** Without extra precision only the width pads. */
  lemma {:induction false} PlainParts(spec: Spec, prefix: string, n: nat)
    requires spec.precision <= n
    ensures var size := |prefix| + n;
            var pad := if spec.width > size then spec.width - size else 0;
            && Before(spec, prefix, n)
               == (match spec.align
                   case Left => prefix
                   case Center => Fill(spec.fill, pad / 2) + prefix
                   case Numeric => prefix + Fill(spec.fill, pad)
                   case _ => Fill(spec.fill, pad) + prefix)
            && After(spec, prefix, n)
               == (match spec.align
                   case Left => Fill(spec.fill, pad)
                   case Center => Fill(spec.fill, pad - pad / 2)
                   case _ => "")
  {
    assert prefix + "" == prefix;
  }

  lemma {:induction false} Snug(g: string, p: nat, prefix: string)
    requires p + |prefix| <= |g|
    ensures CopyTo(g, p, prefix) == g[..p] + prefix + g[p + |prefix|..]
    ensures CopyTo(g, p, prefix)[p + |prefix|..] == g[p + |prefix|..]
  {
  }

  /** Copying over the head of the middle part. */
  lemma {:induction false} Recopied(a: string, b: string, c: string, src: string)
    requires |src| <= |b|
    ensures CopyTo(a + b + c, |a|, src) == a + src + b[|src|..] + c
  {
  }

  /** `count_digits` and `format_decimal` on a buffer of that size. */
  method FormatDigits(abs: nat) returns (digits: string)
    requires abs < UINT64
    ensures digits == Text(abs)
  {
    IntText.WidthsArePowers();
    var numDigits := CountDigits.CountDigits64(abs);
    var buffer := new char[numDigits];
    IntText.FormatDecimal(buffer, 0, abs, numDigits);
    digits := buffer[0..numDigits];
  }

  /** Sign text and absolute value, the latter in unsigned 64-bit arithmetic. */
  method SignAndMagnitude(value: int, spec: Spec) returns (sign: string, abs: nat)
    requires INT64_MIN <= value < UINT64
    ensures sign == SignPrefix(value, spec) && abs == Magnitude(value) && abs < UINT64
  {
    sign, abs := "", IntText.ToUint64(value);
    if value < 0 {
      sign := "-";
      IntText.NegatedBits(value);
      abs := IntText.ToUint64(0 - abs as int);
    } else if spec.sign {
      sign := if spec.plus then "+" else " ";
    }
  }

  /** Writing one character in front of a tail already written. */
  lemma {:induction false} PutFront(s: string, p: nat, tail: string, rest: string, c: char)
    requires p < |s|
    ensures (s[..p + 1] + tail + rest)[p := c] == s[..p] + ([c] + tail) + rest
  {
  }

  /** The lowest digit, and what is left when it is taken off. */
  lemma {:induction false} LastDigit(m: nat, base: nat, upper: bool)
    requires 2 <= base <= 16
    ensures var d := [DigitChar16(m % base, upper)];
            DigitsOf(m, base, upper) == if m / base == 0 then d else DigitsOf(m / base, base, upper) + d
    ensures m / base < m || m / base == 0
    ensures m / base == 0 <==> m < base
  {
    hide DigitChar16;
    if m < base {
      NoQuotient(m, base);
    } else {
      Divided(m, base);
    }
  }

  lemma {:induction false} NoQuotient(m: nat, base: nat)
    requires m < base
    ensures m / base == 0 && m % base == m
  {
  }

  /** `text` is the text of m followed by `tail`. */
  ghost predicate Remains(text: string, m: nat, base: nat, upper: bool, tail: string)
    requires 2 <= base <= 16
  {
    text == DigitsOf(m, base, upper) + tail
  }

  lemma {:induction false} RemainsStep(text: string, m: nat, base: nat, upper: bool, tail: string)
    requires 2 <= base <= 16 && Remains(text, m, base, upper, tail)
    ensures var tail' := [DigitChar16(m % base, upper)] + tail;
            if m / base == 0 then text == tail'
            else m / base < m && Remains(text, m / base, base, upper, tail') && |tail'| < |text|
  {
    LastDigit(m, base, upper);
    var d := [DigitChar16(m % base, upper)];
    if m / base != 0 {
      assert DigitsOf(m / base, base, upper) + d + tail == DigitsOf(m / base, base, upper) + (d + tail);
    }
  }

  method CountInBase(n: nat, base: nat, ghost upper: bool) returns (count: nat)
    requires 2 <= base <= 16
    ensures count == |DigitsOf(n, base, upper)|
  {
    var m: nat := n;
    ghost var total := |DigitsOf(n, base, upper)|;
    count := 0;
    while true
      invariant total == count + |DigitsOf(m, base, upper)|
      decreases m
    {
      LastDigit(m, base, upper);
      count := count + 1;
      m := m / base;
      if m == 0 {
        return;
      }
    }
  }

  /** A padded field as text before its digits and text after them. */
  lemma {:induction false} Surrounded(was: string, fill: string, before: string, slot: string, left: bool)
    ensures left ==> was + before + slot + "" + fill == was + ("" + before) + slot + fill
    ensures !left ==> was + fill + before + slot + "" == was + (fill + before) + slot + ""
  {
    assert "" + before == before;
    assert slot + "" == slot;
  }

  lemma {:induction false} TwoFills(s: string, p: nat, a: nat, n: nat, b: nat, c: char)
    requires p + a + n + b == |s|
    ensures FillRange(FillRange(s, p, p + a, c), p + a + n, |s|, c)
            == s[..p] + Fill(c, a) + s[p + a..p + a + n] + Fill(c, b)
  {
    var t := FillRange(s, p, p + a, c);
    assert t[..p + a + n] == s[..p] + Fill(c, a) + s[p + a..p + a + n];
  }

  /** Digits put into their slot complete the field. */
  lemma {:induction false} FieldWritten(was: string, before: string, slot: string, after: string, digits: string)
    requires |digits| == |slot|
    ensures CopyTo(was + before + slot + after, |was| + |before|, digits) == was + (before + digits + after)
  {
  }

  /** A precision beyond the digits is a numeric field of zeros inside the field. */
  lemma {:induction false} ZeroPadding(spec: Spec, sub: Spec, prefix: string, p: string, n: nat)
    requires n > 0 && Padded(spec, n) && p == EffectivePrefix(spec, prefix, n)
    requires sub.width == |p| + spec.precision && sub.fill == '0' && sub.align == Numeric && sub.precision == -1
    ensures Padding(spec, prefix, n) == if spec.width > sub.width then spec.width - sub.width else 0
    ensures After(sub, p, n) == ""
    ensures var pad := Fill(spec.fill, Padding(spec, prefix, n));
            && Before(spec, prefix, n) == (if spec.align == Left then "" else pad) + Before(sub, p, n)
            && After(spec, prefix, n) == if spec.align == Left then pad else ""
  {
    assert Before(sub, p, n) == p + Zeros(spec, n);
    var pad := Fill(spec.fill, Padding(spec, prefix, n));
    assert pad + p + Zeros(spec, n) == pad + (p + Zeros(spec, n));
    assert "" + (p + Zeros(spec, n)) == p + Zeros(spec, n);
  }
}
