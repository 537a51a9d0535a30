/** The simple regular expressions: validator, matcher, and the language they denote. */
module Regex {

  // ----- Characters -----

  predicate IsInSet(c: char, s: string) { c in s }

  predicate IsAsciiDigit(c: char) { '0' <= c <= '9' }

  predicate IsAsciiPunct(c: char) { IsInSet(c, "^-!\"#$%&'()*+,./:;<=>?@[\\]_`{|}~") }

  predicate IsRepeat(c: char) { c == '?' || c == '*' || c == '+' }

  predicate IsAsciiWhiteSpace(c: char) { IsInSet(c, " \U{0C}\n\r\t\U{0B}") }

  predicate IsAsciiWordChar(c: char) { 'a' <= c <= 'z' || 'A' <= c <= 'Z' || '0' <= c <= '9' || c == '_' }

  predicate IsValidEscape(c: char) { IsAsciiPunct(c) || IsInSet(c, "dDfnrsStvwW") }

  predicate IsUnsupported(c: char) { IsInSet(c, "()[]{}|") }

  predicate AtomMatchesChar(escaped: bool, p: char, c: char) {
    if escaped then
      match p
      case 'd' => IsAsciiDigit(c)
      case 'D' => !IsAsciiDigit(c)
      case 'f' => c == '\U{0C}'
      case 'n' => c == '\n'
      case 'r' => c == '\r'
      case 's' => IsAsciiWhiteSpace(c)
      case 'S' => !IsAsciiWhiteSpace(c)
      case 't' => c == '\t'
      case 'v' => c == '\U{0B}'
      case 'w' => IsAsciiWordChar(c)
      case 'W' => !IsAsciiWordChar(c)
      case _ => IsAsciiPunct(p) && p == c
    else (p == '.' && c != '\n') || p == c
  }

  // ----- Grammar -----

  datatype Repeat = Once | Optional | Star | Plus

  datatype Item = Item(escaped: bool, c: char, repeat: Repeat)

  /** A regular expression after its leading '^', if any: items, then perhaps a final '$'. */
  datatype Parsed = Malformed | Parsed(items: seq<Item>, atEnd: bool)

  function RepeatOf(c: char): Repeat
    requires IsRepeat(c)
  {
    match c
    case '?' => Optional
    case '*' => Star
    case _ => Plus
  }

  /** Whether an unescaped character may stand for itself (or, for '.', for any character). */
  predicate IsPlain(c: char) {
    c != '^' && c != '$' && c != '\\' && !IsRepeat(c) && !IsUnsupported(c)
  }

  /** Length of the atom at the head of a string: 2 for an escape, 1 for a plain character, 0 if none. */
  function AtomLength(s: string): (n: nat)
    ensures n <= |s| && n <= 2
  {
    if |s| == 0 then 0
    else if s[0] == '\\' then (if |s| >= 2 && IsValidEscape(s[1]) then 2 else 0)
    else if IsPlain(s[0]) then 1
    else 0
  }

  /** tail ::= "" | "$" | atom repeat? tail */
  function ParseTail(s: string): Parsed
    decreases |s|
  {
    if s == "" then Parsed([], false)
    else if s == "$" then Parsed([], true)
    else
      var n := AtomLength(s);
      if n == 0 then Malformed
      else
        var repeated := n < |s| && IsRepeat(s[n]);
        var item := Item(n == 2, s[n - 1], if repeated then RepeatOf(s[n]) else Once);
        match ParseTail(if repeated then s[n + 1..] else s[n..])
        case Malformed => Malformed
        case Parsed(items, atEnd) => Parsed([item] + items, atEnd)
  }

  /** The whole expression: an optional '^' in front. */
  predicate IsRegex(regex: string) {
    ParseTail(Tail(regex)).Parsed?
  }

  predicate AtStart(regex: string) { |regex| > 0 && regex[0] == '^' }

  function Tail(regex: string): string {
    if AtStart(regex) then regex[1..] else regex
  }

  // ----- Language -----

  /** A piece of text is a repetition of an atom that the repeat allows. */
  predicate InItem(item: Item, piece: string) {
    && (forall i :: 0 <= i < |piece| ==> AtomMatchesChar(item.escaped, item.c, piece[i]))
    && (match item.repeat
        case Once => |piece| == 1
        case Optional => |piece| <= 1
        case Star => true
        case Plus => |piece| >= 1)
  }

  /** A text is in the language of a list of items if it splits into one piece for each of them. */
  ghost predicate InLanguage(items: seq<Item>, text: string) {
    if |items| == 0 then text == ""
    else exists n :: 0 <= n <= |text| && InItem(items[0], text[..n]) && InLanguage(items[1..], text[n..])
  }

  /** Some prefix of `str` is in the language; all of it, if the expression ends in '$'. */
  ghost predicate MatchesPrefix(p: Parsed, str: string) {
    p.Parsed? && exists n :: 0 <= n <= |str| && InLanguage(p.items, str[..n]) && (p.atEnd ==> n == |str|)
  }

  /** Some substring of `str` is in the language, at the start if '^' says so, at the end if '$' does. */
  ghost predicate MatchesSomewhere(regex: string, str: string) {
    var p := ParseTail(Tail(regex));
    && p.Parsed?
    && exists i, j :: (0 <= i <= j <= |str| && InLanguage(p.items, str[i..j])
                       && (AtStart(regex) ==> i == 0) && (p.atEnd ==> j == |str|))
  }

  // ----- The validator -----

  /** A C string argument, which may be the null pointer. */
  datatype CString = Null | Text(s: string)

  /** What may follow, given whether the atom just read can still be repeated. */
  predicate RestIsRegex(s: string, prevRepeatable: bool) {
    ParseTail(if prevRepeatable && |s| > 0 && IsRepeat(s[0]) then s[1..] else s).Parsed?
  }

  lemma {:induction false} EscapeStep(s: string, prev: bool)
    requires |s| > 0 && s[0] == '\\'
    ensures RestIsRegex(s, prev) <==> |s| >= 2 && IsValidEscape(s[1]) && RestIsRegex(s[2..], true)
  {
    if AtomLength(s) == 2 {
      assert s[2..] != "" ==> s[2..][0] == s[2] && s[2..][1..] == s[3..];
    }
  }

  lemma {:induction false} CharStep(s: string, prev: bool)
    requires |s| > 0 && s[0] != '\\'
    ensures var c := s[0];
            RestIsRegex(s, prev) <==>
              && c != '^' && (c == '$' ==> |s| == 1) && !IsUnsupported(c) && (IsRepeat(c) ==> prev)
              && RestIsRegex(s[1..], c != '$' && !IsRepeat(c))
  {
    if AtomLength(s) == 1 {
      assert s[1..] != "" ==> s[1..][0] == s[1] && s[1..][1..] == s[2..];
    }
  }

  /** What is still to be read at index i; a '^' at the very start is read without being an atom. */
  ghost predicate RestAt(r: string, i: nat, prevRepeatable: bool)
    requires i <= |r|
  {
    if i == 0 then IsRegex(r) else RestIsRegex(r[i..], prevRepeatable)
  }

  /** One unescaped character. */
  method CharTurn(r: string, i: nat, valid: bool, prev: bool) returns (valid': bool, prev': bool)
    requires i < |r| && r[i] != '\\' && (i == 0 ==> !prev)
    ensures valid' && RestAt(r, i + 1, prev') <==> valid && RestAt(r, i, prev)
  {
    CharStep(r[i..], prev);
    assert r[i..][1..] == r[i + 1..] && (i == 0 ==> r[i..] == r);
    var ch := r[i];
    valid' := valid;
    if ch == '^' && i > 0 {
      valid' := false;
    } else if ch == '$' && i + 1 < |r| {
      valid' := false;
    } else if IsUnsupported(ch) {
      valid' := false;
    } else if IsRepeat(ch) && !prev {
      valid' := false;
    }
    prev' := !(ch == '^' || ch == '$' || IsRepeat(ch));
  }

  lemma {:induction false} EscapeAt(r: string, i: nat, prev: bool)
    requires i < |r| && r[i] == '\\' && (i == 0 ==> !prev)
    ensures RestAt(r, i, prev) <==> i + 1 < |r| && IsValidEscape(r[i + 1]) && RestAt(r, i + 2, true)
  {
    EscapeStep(r[i..], prev);
    assert i == 0 ==> r[i..] == r;
    assert i + 2 <= |r| ==> r[i..][2..] == r[i + 2..];
  }

  lemma {:induction false} Whole(r: string)
    ensures RestAt(r, 0, false) <==> IsRegex(r)
  {
    hide IsRegex;
  }

  lemma {:induction false} NothingLeft(r: string, prev: bool)
    ensures RestAt(r, |r|, prev)
  {
    assert |r| > 0 ==> r[|r|..] == "";
  }

  /** The validator's loop accepts exactly the grammar. */
  method ValidateRegex(regex: CString) returns (valid: bool)
    ensures valid <==> regex.Text? && IsRegex(regex.s)
  {
    hide RestAt, IsRegex, IsValidEscape;
    if regex.Null? {
      return false;
    }
    var r := regex.s;
    Whole(r);
    valid := true;
    var prevRepeatable := false;
    var i := 0;
    while i < |r|
      invariant 0 <= i <= |r|
      invariant i == 0 ==> valid && !prevRepeatable
      invariant RestAt(r, 0, false) <==> valid && RestAt(r, i, prevRepeatable)
    {
      if r[i] == '\\' {
        EscapeAt(r, i, prevRepeatable);
        i := i + 1;
        if i == |r| {
          return false;
        }
        if !IsValidEscape(r[i]) {
          valid := false;
        }
        prevRepeatable := true;
      } else {
        valid, prevRepeatable := CharTurn(r, i, valid, prevRepeatable);
      }
      i := i + 1;
    }
    NothingLeft(r, prevRepeatable);
  }

  // ----- The matcher -----

  /** `item` followed by the rest matches at the head of `str`. */
  ghost predicate MatchesItemThen(item: Item, rest: Parsed, str: string) {
    exists n :: 0 <= n <= |str| && ItemThenAt(item, rest, str, n)
  }

  ghost predicate ItemThenAt(item: Item, rest: Parsed, str: string, n: nat)
    requires n <= |str|
  {
    InItem(item, str[..n]) && MatchesPrefix(rest, str[n..])
  }

  lemma {:induction false} PrefixUnfolds(item: Item, items: seq<Item>, atEnd: bool, str: string)
    ensures MatchesPrefix(Parsed([item] + items, atEnd), str) <==> MatchesItemThen(item, Parsed(items, atEnd), str)
  {
    var p, rest := Parsed([item] + items, atEnd), Parsed(items, atEnd);
    assert p.items[1..] == items;
    if MatchesPrefix(p, str) {
      var n :| 0 <= n <= |str| && InLanguage(p.items, str[..n]) && (atEnd ==> n == |str|);
      var k :| 0 <= k <= n && InItem(item, str[..n][..k]) && InLanguage(items, str[..n][k..]);
      assert str[..n][..k] == str[..k] && str[..n][k..] == str[k..][..n - k];
      assert ItemThenAt(item, rest, str, k);
    }
    if MatchesItemThen(item, rest, str) {
      var k :| 0 <= k <= |str| && ItemThenAt(item, rest, str, k);
      var m :| 0 <= m <= |str[k..]| && InLanguage(items, str[k..][..m]) && (atEnd ==> m == |str[k..]|);
      var n := k + m;
      assert str[..n][..k] == str[..k] && str[..n][k..] == str[k..][..m];
      assert InLanguage(p.items, str[..n]);
    }
  }

  const SIZE_MAX: int := 0xffff_ffff_ffff_ffff

  /** Tries one repetition after another; no greedy match is needed to decide. */
  method MatchRepetitionAndRegexAtHead(escaped: bool, c: char, repeat: char, regex: string, str: string)
    returns (found: bool)
    requires IsRepeat(repeat) && ParseTail(regex).Parsed? && |str| < SIZE_MAX
    ensures found <==> MatchesItemThen(Item(escaped, c, RepeatOf(repeat)), ParseTail(regex), str)
    decreases |regex|, 1
  {
    ghost var item, rest := Item(escaped, c, RepeatOf(repeat)), ParseTail(regex);
    var minCount := if repeat == '+' then 1 else 0;
    var maxCount := if repeat == '?' then 1 else SIZE_MAX - 1;
    var i := 0;
    while i <= maxCount
      invariant 0 <= i <= |str| && i <= maxCount + 1
      invariant forall k :: 0 <= k < i ==> AtomMatchesChar(escaped, c, str[k])
      invariant forall n :: 0 <= n < i ==> !ItemThenAt(item, rest, str, n)
      decreases maxCount - i
    {
      if i >= minCount {
        var tail := MatchRegexAtHead(regex, str[i..]);
        if tail {
          assert ItemThenAt(item, rest, str, i);
          return true;
        }
      }
      assert !ItemThenAt(item, rest, str, i);
      if i == |str| || !AtomMatchesChar(escaped, c, str[i]) {
        forall n | 0 <= n <= |str| ensures !ItemThenAt(item, rest, str, n) {
          if n > i {
            assert str[..n][i] == str[i];
          }
        }
        return false;
      }
      i := i + 1;
    }
    forall n | 0 <= n <= |str| ensures !ItemThenAt(item, rest, str, n) {
      assert n > i ==> |str[..n]| > 1;
      assert n == i ==> |str[..n]| > 1;
    }
    return false;
  }

  /** The grammar of a tail, by the branches the matcher takes. */
  lemma {:induction false} TailParts(regex: string)
    requires ParseTail(regex).Parsed? && |regex| > 0 && regex[0] != '$'
    ensures var escaped, atom := regex[0] == '\\', if regex[0] == '\\' then 1 else 0;
            && atom < |regex|
            && if atom + 1 < |regex| && IsRepeat(regex[atom + 1]) then
                 var rest := ParseTail(regex[atom + 2..]);
                 && rest.Parsed?
                 && ParseTail(regex)
                    == Parsed([Item(escaped, regex[atom], RepeatOf(regex[atom + 1]))] + rest.items, rest.atEnd)
               else
                 var rest := ParseTail(regex[atom + 1..]);
                 rest.Parsed? && ParseTail(regex) == Parsed([Item(escaped, regex[atom], Once)] + rest.items, rest.atEnd)
  {
  }

  /** True exactly when a prefix of `str` is in the language. */
  method MatchRegexAtHead(regex: string, str: string) returns (found: bool)
    requires ParseTail(regex).Parsed? && |str| < SIZE_MAX
    ensures found <==> MatchesPrefix(ParseTail(regex), str)
    decreases |regex|, 0
  {
    if |regex| == 0 {
      assert str[..0] == "" && InLanguage([], str[..0]);
      return true;
    }
    if regex[0] == '$' {
      assert regex == "$";
      assert InLanguage([], str[..|str|]) <==> str == "" by { assert str[..|str|] == str; }
      return |str| == 0;
    }
    hide InLanguage, MatchesPrefix, ParseTail;
    TailParts(regex);
    var escaped := regex[0] == '\\';
    var atom := if escaped then 1 else 0;
    ghost var p := ParseTail(regex);
    ghost var item := p.items[0];
    if atom + 1 < |regex| && IsRepeat(regex[atom + 1]) {
      found := MatchRepetitionAndRegexAtHead(escaped, regex[atom], regex[atom + 1], regex[atom + 2..], str);
      PrefixUnfolds(item, ParseTail(regex[atom + 2..]).items, p.atEnd, str);
    } else {
      ghost var rest := ParseTail(regex[atom + 1..]);
      PrefixUnfolds(item, rest.items, p.atEnd, str);
      assert |str| > 0 ==> str[..1] == [str[0]];
      if |str| == 0 || !AtomMatchesChar(escaped, regex[atom], str[0]) {
        return false;
      }
      found := MatchRegexAtHead(regex[atom + 1..], str[1..]);
      assert ItemThenAt(item, rest, str, 1) <==> MatchesPrefix(rest, str[1..]);
    }
  }

  /** A valid expression matches exactly when some substring, anchored as it says, is in its language. */
  method MatchRegexAnywhere(regex: CString, str: CString) returns (found: bool)
    requires regex.Text? && str.Text? ==> IsRegex(regex.s) && |str.s| < SIZE_MAX
    ensures found <==> regex.Text? && str.Text? && MatchesSomewhere(regex.s, str.s)
  {
    if regex.Null? || str.Null? {
      return false;
    }
    var r, s := regex.s, str.s;
    ghost var p := ParseTail(Tail(r));
    if |r| > 0 && r[0] == '^' {
      found := MatchRegexAtHead(r[1..], s);
      SomewhereAt(r, s, 0);
      assert s[0..] == s;
      return;
    }
    var i := 0;
    while true
      invariant 0 <= i <= |s|
      invariant forall k :: 0 <= k < i ==> !MatchesPrefix(p, s[k..])
      decreases |s| - i
    {
      found := MatchRegexAtHead(r, s[i..]);
      if found {
        SomewhereAt(r, s, i);
        return;
      }
      if i == |s| {
        break;
      }
      i := i + 1;
    }
    SomewhereStarts(r, s);
  }

  lemma {:induction false} SomewhereStarts(regex: string, str: string)
    ensures MatchesSomewhere(regex, str) ==>
              exists i :: 0 <= i <= |str| && MatchesPrefix(ParseTail(Tail(regex)), str[i..])
  {
    var p := ParseTail(Tail(regex));
    if MatchesSomewhere(regex, str) {
      var a, b :| 0 <= a <= b <= |str| && InLanguage(p.items, str[a..b]) && (p.atEnd ==> b == |str|);
      assert str[a..][..b - a] == str[a..b];
    }
  }

  /** A match at a given start is a match of a prefix of what follows. */
  lemma {:induction false} SomewhereAt(regex: string, str: string, i: nat)
    requires i <= |str|
    ensures MatchesPrefix(ParseTail(Tail(regex)), str[i..]) && (AtStart(regex) ==> i == 0) ==>
              MatchesSomewhere(regex, str)
    ensures AtStart(regex) && i == 0 && MatchesSomewhere(regex, str) ==> MatchesPrefix(ParseTail(Tail(regex)), str[i..])
  {
    var p := ParseTail(Tail(regex));
    if MatchesPrefix(p, str[i..]) && (AtStart(regex) ==> i == 0) {
      var n :| 0 <= n <= |str[i..]| && InLanguage(p.items, str[i..][..n]) && (p.atEnd ==> n == |str[i..]|);
      assert str[i..][..n] == str[i..i + n];
    }
    if AtStart(regex) && i == 0 && MatchesSomewhere(regex, str) {
      var a, b :| 0 <= a <= b <= |str| && InLanguage(p.items, str[a..b]) && a == 0 && (p.atEnd ==> b == |str|);
      assert str[i..][..b] == str[a..b];
    }
  }
}
