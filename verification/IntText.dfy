/** Integers to text, two digits at a time, and back. */
module IntText {
  import opened Widths
  import opened Decimal
  import CountDigits

  /** The widths are powers of two. */
  lemma {:induction false} WidthsArePowers()
    ensures UINT32 == CountDigits.Pow2(32) && UINT64 == CountDigits.Pow2(64) && INT_MAX == CountDigits.Pow2(31) - 1
    ensures INT64_MAX == CountDigits.Pow2(63) - 1 && INT64_MIN == 0 - CountDigits.Pow2(63)
  {
    CountDigits.Pow2Ten(0);
    CountDigits.Pow2Ten(10);
    CountDigits.Pow2Ten(20);
    CountDigits.Pow2Ten(30);
    CountDigits.Pow2Ten(40);
    CountDigits.Pow2Ten(50);
    CountDigits.Pow2Three(60);
    assert CountDigits.Pow2(64) == 2 * CountDigits.Pow2(63);
    assert CountDigits.Pow2(31) == 2 * CountDigits.Pow2(30) && CountDigits.Pow2(32) == 2 * CountDigits.Pow2(31);
  }

  /** The table of two-digit texts 00, 01, ..., 99. */
  const DIGITS: string := seq(200, i requires 0 <= i < 200 => DigitChar(if i % 2 == 0 then i / 20 else i / 2 % 10))

  /** Text of a signed number. */
  function SignedText(v: int): string {
    if v < 0 then "-" + Text(-v) else Text(v)
  }

  /** The number a signed text denotes. */
  function SignedValue(s: string): int
    requires |s| > 0 && AllDigits(if s[0] == '-' then s[1..] else s)
  {
    if s[0] == '-' then 0 - Value(s[1..]) else Value(s)
  }

  lemma {:induction false} SignedRoundTrip(v: int)
    ensures var s := SignedText(v);
            |s| > 0 && AllDigits(if s[0] == '-' then s[1..] else s) && SignedValue(s) == v
  {
    if v < 0 {
      ValueOfText(-v);
      assert SignedText(v)[1..] == Text(-v);
    } else {
      ValueOfText(v);
    }
  }

  /** The two digits of a number below 100. */
  function Pair(k: nat): (p: string)
    requires k < 100
    ensures |p| == 2 && AllDigits(p)
  {
    [DigitChar(k / 10), DigitChar(k % 10)]
  }

  lemma {:induction false} TextTwoDigits(v: nat)
    ensures v >= 100 ==> Text(v) == Text(v / 100) + Pair(v % 100)
    ensures 10 <= v < 100 ==> Text(v) == Pair(v)
  {
    if v >= 10 {
      assert Text(v) == Text(v / 10) + [DigitChar(v % 10)];
    }
    if v >= 100 {
      assert Text(v / 10) == Text(v / 10 / 10) + [DigitChar(v / 10 % 10)] && v / 10 / 10 == v / 100;
      assert v % 100 / 10 == v / 10 % 10 && v % 100 % 10 == v % 10;
    }
  }

  /** Put the two digits of k, from the table, just before `pos`. */
  method PutPair(buffer: array<char>, pos: nat, k: nat)
    requires 2 <= pos <= buffer.Length && k < 100
    modifies buffer
    ensures buffer[pos - 2] == Pair(k)[0] && buffer[pos - 1] == Pair(k)[1]
    ensures forall i :: 0 <= i < buffer.Length && i != pos - 2 && i != pos - 1 ==> buffer[i] == old(buffer[i])
  {
    var index := k * 2;
    buffer[pos - 1] := DIGITS[index + 1];
    buffer[pos - 2] := DIGITS[index];
  }

  /** `text` is the text of v followed by `suffix`, and v still needs `need` slots. */
  ghost predicate Remains(text: string, v: nat, suffix: string, need: nat) {
    text == Text(v) + suffix && need == |Text(v)|
  }

  lemma {:induction false} RemainsPair(text: string, v: nat, suffix: string, need: nat)
    requires Remains(text, v, suffix, need) && v >= 100
    ensures need > 2 && Remains(text, v / 100, Pair(v % 100) + suffix, need - 2)
  {
    TextTwoDigits(v);
    assert Text(v / 100) + Pair(v % 100) + suffix == Text(v / 100) + (Pair(v % 100) + suffix);
  }

  lemma {:induction false} RemainsLast(text: string, v: nat, suffix: string, need: nat)
    requires Remains(text, v, suffix, need) && v < 100
    ensures v < 10 ==> need == 1 && text == [DigitChar(v)] + suffix
    ensures v >= 10 ==> need == 2 && text == Pair(v) + suffix
  {
    TextTwoDigits(v);
  }

  /** The buffer is as before outside [pos, end). */
  twostate predicate OnlyWithin(buffer: array<char>, pos: nat, end: nat)
    reads buffer
  {
    forall i :: 0 <= i < buffer.Length && !(pos <= i < end) ==> buffer[i] == old(buffer[i])
  }

  /** The loop: pairs of digits from the back while there are more than two. */
  method WritePairs(buffer: array<char>, end: nat, value: nat) returns (pos: nat, v: nat)
    requires |Text(value)| <= end <= buffer.Length
    modifies buffer
    ensures pos <= end && end - pos <= |Text(value)| && v < 100
    ensures Remains(Text(value), v, buffer[pos..end], |Text(value)| - (end - pos))
    ensures OnlyWithin(buffer, pos, end)
  {
    pos, v := end, value;
    ghost var text, need := Text(value), |Text(value)|;
    while v >= 100
      invariant 0 <= need <= pos <= end && need + (end - pos) == |text|
      invariant Remains(text, v, buffer[pos..end], need)
      invariant OnlyWithin(buffer, pos, end)
    {
      RemainsPair(text, v, buffer[pos..end], need);
      ghost var tail := buffer[pos..end];
      PutPair(buffer, pos, v % 100);
      assert buffer[pos - 2..end] == Pair(v % 100) + tail;
      pos, need, v := pos - 2, need - 2, v / 100;
    }
  }

  /** Write the digits of `value` so that they end just before `end`; `pos` is where they start. */
  method WriteDigits(buffer: array<char>, end: nat, value: nat) returns (pos: nat)
    requires |Text(value)| <= end <= buffer.Length
    modifies buffer
    ensures pos == end - |Text(value)|
    ensures buffer[pos..end] == Text(value)
    ensures OnlyWithin(buffer, pos, end)
  {
    var v;
    pos, v := WritePairs(buffer, end, value);
    ghost var tail := buffer[pos..end];
    RemainsLast(Text(value), v, tail, |Text(value)| - (end - pos));
    if v < 10 {
      pos := pos - 1;
      buffer[pos] := '0' + v as char;
      assert buffer[pos + 1..end] == tail;
      assert buffer[pos..end] == [buffer[pos]] + buffer[pos + 1..end];
      return;
    }
    ghost var before := buffer[..];
    PutPair(buffer, pos, v);
    assert forall i :: pos <= i < end ==> buffer[..][i] == before[i];
    assert buffer[pos..end] == before[pos..end] == tail;
    pos := pos - 2;
    assert buffer[pos..end] == [buffer[pos], buffer[pos + 1]] + buffer[pos + 2..end];
  }

  /** `format_decimal` given the number of digits: fills exactly its slots. */
  method FormatDecimal(buffer: array<char>, start: nat, value: nat, numDigits: nat)
    requires value < CountDigits.Pow2(64) && numDigits == CountDigits.CountDigits64(value)
    requires start + numDigits <= buffer.Length
    modifies buffer
    ensures buffer[start..start + numDigits] == Text(value)
    ensures forall i :: 0 <= i < buffer.Length && !(start <= i < start + numDigits) ==> buffer[i] == old(buffer[i])
  {
    var pos := WriteDigits(buffer, start + numDigits, value);
    assert pos == start;
  }

  // ----- FormatInt -----

  const BUFFER_SIZE: nat := 22  // digits10 of a 64-bit number, plus 3

  /** A 64-bit number has at most 20 digits, one in signed range at most 19. */
  lemma {:induction false} DigitBounds(n: nat)
    ensures n < UINT64 ==> |Text(n)| <= 20
    ensures n <= -INT64_MIN ==> |Text(n)| <= 19
  {
    TextLength(n);
    if n > 0 {
      var k := |Text(n)| - 1;
      if n < UINT64 && k >= 20 {
        Pow10Monotone(20, k);
        Pow10At20();
      }
      if n <= -INT64_MIN && k >= 19 {
        Pow10Monotone(19, k);
        Pow10At20();
      }
    }
  }

  lemma {:induction false} Pow10At20()
    ensures Pow10(19) == 10_000_000_000_000_000_000 && Pow10(20) == 100_000_000_000_000_000_000
  {
    CountDigits.PowersAreRight(19);
  }

  /** Conversion to an unsigned 64-bit number. */
  function ToUint64(x: int): (n: nat)
    ensures n < UINT64 && (0 <= x < UINT64 ==> n == x)
  {
    x % UINT64
  }

  /** Negating the unsigned image of a negative number gives its absolute value. */
  lemma {:induction false} NegatedBits(value: int)
    requires INT64_MIN <= value < 0
    ensures ToUint64(0 - ToUint64(value)) == -value
  {
    assert ToUint64(value) == value + UINT64;
    assert ToUint64(-value - UINT64) == -value;
  }

  class FormatInt {
    const buffer: array<char>
    var str: nat

    ghost predicate Valid()
      reads this
    {
      buffer.Length == BUFFER_SIZE && str <= BUFFER_SIZE - 1
    }

    /** The formatted text. */
    function Str(): string
      reads this, buffer
      requires Valid()
    {
      buffer[str..BUFFER_SIZE - 1]
    }

    constructor FromUnsigned(value: nat)
      requires value < UINT64
      ensures Valid() && Str() == Text(value)
    {
      buffer := new char[BUFFER_SIZE](_ => '\0');
      str := 0;
      new;
      DigitBounds(value);
      str := WriteDigits(buffer, BUFFER_SIZE - 1, value);
    }

    /** For every signed 64-bit number, the smallest included. */
    constructor FromSigned(value: int)
      requires INT64_MIN <= value <= INT64_MAX
      ensures Valid() && Str() == SignedText(value)
    {
      buffer := new char[BUFFER_SIZE](_ => '\0');
      str := 0;
      new;
      var abs: int := ToUint64(value);
      var negative := value < 0;
      if negative {
        abs := ToUint64(0 - abs);
        NegatedBits(value);
      }
      DigitBounds(abs);
      str := WriteDigits(buffer, BUFFER_SIZE - 1, abs);
      if negative {
        ghost var digits := buffer[str..BUFFER_SIZE - 1];
        str := str - 1;
        buffer[str] := '-';
        assert buffer[str..BUFFER_SIZE - 1] == "-" + digits;
      }
    }
  }

  // ----- Parsing -----

  datatype Parse = Ok(value: nat) | TooBig

  /** Length of the run of digits at the head of s. */
  function DigitRun(s: string): (n: nat)
    ensures n <= |s| && AllDigits(s[..n]) && (n < |s| ==> !IsDigit(s[n]))
  {
    if |s| == 0 || !IsDigit(s[0]) then 0
    else
      var n := DigitRun(s[1..]) + 1;
      assert forall i :: 0 < i < n ==> s[..n][i] == s[1..][..n - 1][i - 1];
      n
  }

  /** One more digit, in unsigned 32-bit arithmetic. */
  function NextValue(value: nat, c: char): (n: nat)
    requires IsDigit(c)
    ensures n < UINT32 && (value * 10 + DigitValue(c) < UINT32 ==> n == value * 10 + DigitValue(c))
  {
    (value * 10 + DigitValue(c)) % UINT32
  }

  lemma {:induction false} ParseUnfolds(s: string, i: nat, value: nat)
    requires i < |s| && IsDigit(s[i]) && value < UINT32
    ensures DigitRun(s[i..]) == DigitRun(s[i + 1..]) + 1
    ensures ParseLoop(s[i..], value)
            == if NextValue(value, s[i]) < value then TooBig else ParseLoop(s[i + 1..], NextValue(value, s[i]))
  {
    assert s[i..][1..] == s[i + 1..];
  }

  /** The parser's loop from a value already read: 32-bit arithmetic, and a wrap test that compares
      with the previous value only. */
  function ParseLoop(s: string, value: nat): Parse
    requires value < UINT32
  {
    if |s| == 0 || !IsDigit(s[0]) then (if value > INT_MAX then TooBig else Ok(value))
    else
      var next := NextValue(value, s[0]);
      if next < value then TooBig else ParseLoop(s[1..], next)
  }

  /** The source's loop; `pos` is moved to the end of the digits when it succeeds. */
  method ParseNonnegativeInt(s: string, pos: nat) returns (r: Parse, pos': nat)
    requires pos < |s| && IsDigit(s[pos])
    ensures r == ParseLoop(s[pos..], 0)
    ensures pos <= pos' <= |s| && (r.Ok? ==> pos' == pos + DigitRun(s[pos..]))
  {
    var value := 0;
    pos' := pos;
    while pos' < |s| && IsDigit(s[pos'])
      invariant pos <= pos' <= |s| && 0 <= value < UINT32
      invariant ParseLoop(s[pos..], 0) == ParseLoop(s[pos'..], value)
      invariant DigitRun(s[pos..]) == pos' - pos + DigitRun(s[pos'..])
    {
      ParseUnfolds(s, pos', value);
      var next := NextValue(value, s[pos']);
      pos' := pos' + 1;
      if next < value {
        return TooBig, pos';  // set to UINT_MAX, which is too big
      }
      value := next;
    }
    r := if value > INT_MAX then TooBig else Ok(value);
  }

  /** Reading digits on from a value. */
  function Onto(value: nat, s: string): nat
    requires AllDigits(s)
    decreases |s|
  {
    if |s| == 0 then value else Onto(value * 10 + DigitValue(s[0]), s[1..])
  }

  lemma {:induction false} OntoGrows(value: nat, s: string)
    requires AllDigits(s)
    ensures Onto(value, s) >= value
    decreases |s|
  {
    if |s| > 0 {
      OntoGrows(value * 10 + DigitValue(s[0]), s[1..]);
    }
  }

  lemma {:induction false} OntoIsValue(done: string, s: string)
    requires AllDigits(done) && AllDigits(s)
    ensures Onto(Value(done), s) == Value(done + s)
    decreases |s|
  {
    if |s| == 0 {
      assert done + s == done;
    } else {
      var done' := done + [s[0]];
      assert done'[..|done|] == done;
      OntoIsValue(done', s[1..]);
      assert done' + s[1..] == done + s;
    }
  }

  /** While the true value stays in 32 bits the loop computes it. */
  lemma {:induction false} ParseLoopExact(s: string, value: nat)
    requires value < UINT32
    ensures var v := Onto(value, s[..DigitRun(s)]);
            v < UINT32 ==> ParseLoop(s, value) == if v <= INT_MAX then Ok(v) else TooBig
    decreases |s|
  {
    var n := DigitRun(s);
    if n > 0 {
      var next := value * 10 + DigitValue(s[0]);
      assert s[..n][1..] == s[1..][..n - 1];
      OntoGrows(next, s[1..][..n - 1]);
      if next < UINT32 {
        ParseLoopExact(s[1..], next);
      }
    }
  }

  /** Parsing returns the number its digits denote exactly when that number fits an int; numbers
      beyond that and below 2^32 are rejected. */
  lemma {:induction false} ParseIsExact(s: string)
    ensures var v := Value(s[..DigitRun(s)]);
            && (ParseLoop(s, 0) == Ok(v) <==> v <= INT_MAX)
            && (INT_MAX < v < UINT32 ==> ParseLoop(s, 0) == TooBig)
  {
    ParseLoopExact(s, 0);
    OntoIsValue("", s[..DigitRun(s)]);
    assert "" + s[..DigitRun(s)] == s[..DigitRun(s)];
    ParseLoopSmall(s, 0);
  }

  lemma {:induction false} ParseLoopSmall(s: string, value: nat)
    requires value < UINT32
    ensures ParseLoop(s, value).Ok? ==> ParseLoop(s, value).value <= INT_MAX
    decreases |s|
  {
    if |s| > 0 && IsDigit(s[0]) {
      var next := NextValue(value, s[0]);
      ParseLoopSmall(s[1..], next);
    }
  }

  lemma {:induction false} RunOfDigits(s: string, rest: string)
    requires AllDigits(s) && (|rest| > 0 ==> !IsDigit(rest[0]))
    ensures DigitRun(s + rest) == |s|
    decreases |s|
  {
    if |s| > 0 {
      assert (s + rest)[1..] == s[1..] + rest;
      RunOfDigits(s[1..], rest);
    } else {
      assert s + rest == rest;
    }
  }

  /** The text of any number that fits an int parses back to it. */
  lemma {:induction false} ParseText(n: nat, rest: string)
    requires n <= INT_MAX && (|rest| > 0 ==> !IsDigit(rest[0]))
    ensures ParseLoop(Text(n) + rest, 0) == Ok(n) && DigitRun(Text(n) + rest) == |Text(n)|
  {
    RunOfDigits(Text(n), rest);
    assert (Text(n) + rest)[..|Text(n)|] == Text(n);
    ParseIsExact(Text(n) + rest);
    ValueOfText(n);
  }

  function Zeros(k: nat): (s: string)
    ensures |s| == k && AllDigits(s)
  {
    if k == 0 then "" else "0" + Zeros(k - 1)
  }

  lemma {:induction false} ZerosShift(k: nat, value: nat)
    requires k > 0 && value * 10 < UINT32
    ensures ParseLoop(Zeros(k), value) == ParseLoop(Zeros(k - 1), value * 10)
  {
    assert Zeros(k)[1..] == Zeros(k - 1);
  }

  /** The wrap test misses some wraps: a one followed by ten zeros is read as another number. */
  lemma {:induction false} WrapUndetected()
    ensures ParseLoop(Zeros(10), 1) == Ok(1410065408)
  {
    ZerosShift(10, 1);
    ZerosShift(9, 10);
    ZerosShift(8, 100);
    ZerosShift(7, 1000);
    ZerosShift(6, 10000);
    ZerosShift(5, 100000);
    ZerosShift(4, 1000000);
    ZerosShift(3, 10000000);
    ZerosShift(2, 100000000);
    assert Zeros(1)[1..] == "";
    assert ParseLoop(Zeros(1), 1000000000) == ParseLoop("", 1410065408);
  }

  lemma {:induction false} OneThen(rest: string)
    ensures ParseLoop("1" + rest, 0) == ParseLoop(rest, 1)
  {
    var s := "1" + rest;
    ParseUnfolds(s, 0, 0);
    assert s[0..] == s && s[1..] == rest;
  }

  lemma {:induction false} WrapUndetectedInput()
    ensures ParseLoop("1" + Zeros(10), 0) == Ok(1410065408)
  {
    WrapUndetected();
    OneThen(Zeros(10));
  }
}
