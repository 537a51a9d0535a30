/** What single atoms of the simple regular expressions mean, said without the matcher's own tables. */
module RegexMeaning {
  import opened Regex

  /** A text of one character, read as a whole expression. */
  function AtomText(escaped: bool, c: char): string { if escaped then ['\\', c] else [c] }

  lemma {:induction false} OneAtomParses(escaped: bool, c: char)
    requires if escaped then IsValidEscape(c) else IsPlain(c)
    ensures ParseTail(Tail(AtomText(escaped, c))) == Parsed([Item(escaped, c, Once)], false)
    ensures !AtStart(AtomText(escaped, c))
  {
    hide IsValidEscape, IsUnsupported;
    var r := AtomText(escaped, c);
    var n := if escaped then 2 else 1;
    assert r[n..] == "";
    assert !AtStart(r);
  }

  /** One atom is found in a text exactly when it matches one of its characters. */
  lemma {:induction false} OneAtomFound(escaped: bool, c: char, text: string)
    requires if escaped then IsValidEscape(c) else IsPlain(c)
    ensures MatchesSomewhere(AtomText(escaped, c), text)
            <==> exists i :: 0 <= i < |text| && AtomMatchesChar(escaped, c, text[i])
  {
    hide AtomMatchesChar, ParseTail, IsValidEscape, IsPlain;
    var item := Item(escaped, c, Once);
    OneAtomParses(escaped, c);
    if i, j :| 0 <= i <= j <= |text| && InLanguage([item], text[i..j]) {
      OneItem(item, text[i..j]);
      assert text[i..j][0] == text[i];
    }
    if i :| 0 <= i < |text| && AtomMatchesChar(escaped, c, text[i]) {
      var j := i + 1;
      OneItem(item, text[i..j]);
      assert text[i..j][0] == text[i];
      assert 0 <= i <= j <= |text| && InLanguage([item], text[i..j]);
    }
  }

  lemma {:induction false} OneItem(item: Item, piece: string)
    requires item.repeat == Once
    ensures InLanguage([item], piece) <==> |piece| == 1 && AtomMatchesChar(item.escaped, item.c, piece[0])
  {
    hide AtomMatchesChar;
    assert [item][1..] == [];
    if InLanguage([item], piece) {
      var n :| 0 <= n <= |piece| && InItem(item, piece[..n]) && InLanguage([], piece[n..]);
      assert n == |piece| == 1;
    }
    if |piece| == 1 && AtomMatchesChar(item.escaped, item.c, piece[0]) {
      assert piece[..1] == piece && piece[1..] == "";
      assert InItem(item, piece[..1]);
    }
  }

  // ----- Character classes -----

  predicate Digit(c: char) { 48 <= c as int <= 57 }

  predicate Space(c: char) { c as int == 32 || 9 <= c as int <= 13 }

  predicate Word(c: char) {
    Digit(c) || 65 <= c as int <= 90 || 97 <= c as int <= 122 || c as int == 95
  }

  /** The printable ASCII characters that are neither letters nor digits nor the space. */
  predicate Punctuation(c: char) {
    33 <= c as int <= 47 || 58 <= c as int <= 64 || 91 <= c as int <= 96 || 123 <= c as int <= 126
  }

  /** What an escape matches: a class of characters, one control character, or the character itself. */
  predicate Means(p: char, c: char) {
    if p == 'd' then Digit(c)
    else if p == 'D' then !Digit(c)
    else if p == 's' then Space(c)
    else if p == 'S' then !Space(c)
    else if p == 'w' then Word(c)
    else if p == 'W' then !Word(c)
    else if p == 't' then c as int == 9
    else if p == 'n' then c as int == 10
    else if p == 'v' then c as int == 11
    else if p == 'f' then c as int == 12
    else if p == 'r' then c as int == 13
    else c == p
  }

  lemma {:induction false} AtomMeans(p: char, c: char)
    requires Punctuation(p) || EscapeLetter(p)
    ensures AtomMatchesChar(true, p, c) <==> Means(p, c)
  {
    hide IsAsciiPunct, IsAsciiWhiteSpace, IsAsciiDigit, IsAsciiWordChar, Digit, Space, Word;
    ClassesAre(c);
    PunctuationIs(p);
  }

  lemma {:induction false} ClassesAre(c: char)
    ensures IsAsciiDigit(c) <==> Digit(c)
    ensures IsAsciiWhiteSpace(c) <==> Space(c)
    ensures IsAsciiWordChar(c) <==> Word(c)
  {
  }

  /** An escape is found in a text exactly when some character is what the escape means: one between '0'
      and '9' for the digit class, any other for its complement, and so on. */
  lemma {:induction false} EscapeFinds(p: char, text: string)
    requires IsRegex(['\\', p])
    ensures MatchesSomewhere(['\\', p], text) <==> exists i :: 0 <= i < |text| && Means(p, text[i])
  {
    hide AtomMatchesChar, Means, MatchesSomewhere, IsValidEscape, IsRegex;
    EscapesAccepted(p);
    OneAtomFound(true, p, text);
    forall i | 0 <= i < |text| ensures AtomMatchesChar(true, p, text[i]) <==> Means(p, text[i]) {
      AtomMeans(p, text[i]);
    }
  }

  /** A dot finds anything but a newline, and any other character that stands for itself finds itself. */
  lemma {:induction false} CharacterFinds(p: char, text: string)
    requires IsRegex([p]) && p != '^' && p != '$'
    ensures MatchesSomewhere([p], text)
            <==> exists i :: 0 <= i < |text| && if p == '.' then text[i] as int != 10 else text[i] == p
  {
    hide MatchesSomewhere, IsRegex;
    SinglesAccepted(p);
    OneAtomFound(false, p, text);
  }

  /** Each character is of exactly one of the two kinds that a pair of classes tells apart. */
  lemma {:induction false} ClassesComplement(c: char)
    ensures MatchesSomewhere("\\d", [c]) != MatchesSomewhere("\\D", [c])
    ensures MatchesSomewhere("\\s", [c]) != MatchesSomewhere("\\S", [c])
    ensures MatchesSomewhere("\\w", [c]) != MatchesSomewhere("\\W", [c])
  {
    ClassFinds('d', c);
    ClassFinds('D', c);
    ClassFinds('s', c);
    ClassFinds('S', c);
    ClassFinds('w', c);
    ClassFinds('W', c);
    hide MatchesSomewhere;
  }

  lemma {:induction false} ClassFinds(p: char, c: char)
    requires p == 'd' || p == 'D' || p == 's' || p == 'S' || p == 'w' || p == 'W'
    ensures MatchesSomewhere(['\\', p], [c]) <==> Means(p, c)
  {
    hide MatchesSomewhere, Means;
    EscapesAccepted(p);
    EscapeFinds(p, [c]);
    assert [c][0] == c;
  }

  // ----- Repeats and anchors -----

  lemma {:induction false} RepeatedParses(escaped: bool, c: char, r: char)
    requires (if escaped then IsValidEscape(c) else IsPlain(c)) && IsRepeat(r)
    ensures var regex := "^" + AtomText(escaped, c) + [r] + "$";
            AtStart(regex) && ParseTail(Tail(regex)) == Parsed([Item(escaped, c, RepeatOf(r))], true)
  {
    hide IsValidEscape, IsUnsupported;
    var regex := "^" + AtomText(escaped, c) + [r] + "$";
    var s := AtomText(escaped, c) + [r] + "$";
    var n := if escaped then 2 else 1;
    assert Tail(regex) == s;
    assert s[n] == r && s[n + 1..] == "$";
  }

  lemma {:induction false} OnePiece(item: Item, piece: string)
    ensures InLanguage([item], piece) <==> InItem(item, piece)
  {
    hide InItem;
    assert [item][1..] == [];
    if InLanguage([item], piece) {
      var n :| 0 <= n <= |piece| && InItem(item, piece[..n]) && InLanguage([], piece[n..]);
      assert n == |piece| && piece[..n] == piece;
    }
    if InItem(item, piece) {
      var n := |piece|;
      assert piece[..n] == piece && piece[n..] == "";
      assert 0 <= n <= |piece| && InItem(item, piece[..n]) && InLanguage([item][1..], piece[n..]);
    }
  }

  /** Between '^' and '$' a repeated atom takes the whole text: any number of characters of its kind for
      '*', at least one for '+', at most one for '?'. */
  lemma {:induction false} RepeatTakes(escaped: bool, c: char, r: char, text: string)
    requires (if escaped then IsValidEscape(c) else IsPlain(c)) && (r == '*' || r == '+' || r == '?')
    ensures MatchesSomewhere("^" + AtomText(escaped, c) + [r] + "$", text)
            <==> && (forall i :: 0 <= i < |text| ==> AtomMatchesChar(escaped, c, text[i]))
                 && (r == '+' ==> |text| >= 1) && (r == '?' ==> |text| <= 1)
  {
    hide AtomMatchesChar, ParseTail, InLanguage, AtStart, Tail, IsValidEscape, IsPlain;
    RepeatedParses(escaped, c, r);
    var item := Item(escaped, c, RepeatOf(r));
    OnePiece(item, text);
    var j := |text|;
    assert text[0..j] == text;
    assert MatchesSomewhere("^" + AtomText(escaped, c) + [r] + "$", text) <==> InLanguage([item], text[0..j]);
  }

  // ----- What the validator accepts -----

  lemma {:induction false} PunctuationIs(c: char)
    ensures IsAsciiPunct(c) <==> Punctuation(c)
  {
  }

  /** The eleven letters that may be escaped. */
  predicate EscapeLetter(c: char) {
    || c == 'd' || c == 'D' || c == 's' || c == 'S' || c == 'w' || c == 'W'
    || c == 'f' || c == 'n' || c == 'r' || c == 't' || c == 'v'
  }

  lemma {:induction false} EscapesAre(c: char)
    ensures IsValidEscape(c) <==> Punctuation(c) || EscapeLetter(c)
  {
    hide IsAsciiPunct, Punctuation;
    PunctuationIs(c);
  }

  /** The accepted escapes are those of eleven letters and of punctuation. */
  lemma {:induction false} EscapesAccepted(c: char)
    ensures IsRegex(['\\', c]) <==> Punctuation(c) || EscapeLetter(c)
    ensures IsRegex(['\\', c]) <==> IsValidEscape(c)
  {
    hide IsValidEscape, Punctuation, EscapeLetter;
    EscapesAre(c);
    var r := AtomText(true, c);
    assert Tail(r) == r && |r| == 2 && r[0] == '\\' && r[1] == c;
    if IsValidEscape(c) {
      OneAtomParses(true, c);
    } else {
      assert AtomLength(r) == 0;
    }
  }

  lemma {:induction false} PlainIs(c: char)
    ensures IsPlain(c)
            <==> && c != '^' && c != '$' && c != '\\' && c != '?' && c != '*' && c != '+' && c != '|'
                 && c != '(' && c != ')' && c != '[' && c != ']' && c != '{' && c != '}'
  {
  }

  /** A character stands alone as an expression unless it is a backslash, a repeat, a bar or a bracket. */
  lemma {:induction false} SinglesAccepted(c: char)
    ensures IsRegex([c])
            <==> && c != '\\' && c != '?' && c != '*' && c != '+' && c != '|'
                 && c != '(' && c != ')' && c != '[' && c != ']' && c != '{' && c != '}'
    ensures IsRegex([c]) && c != '^' && c != '$' ==> IsPlain(c)
  {
    hide IsPlain;
    PlainIs(c);
    var r := AtomText(false, c);
    assert |r| == 1 && r[0] == c;
    if c == '^' {
      assert Tail(r) == "";
    } else if c == '$' {
      assert Tail(r) == r && r == "$";
    } else if IsPlain(c) {
      OneAtomParses(false, c);
    } else {
      assert Tail(r) == r && AtomLength(r) == 0;
    }
  }

  /** Reading on behind a character that stands for itself. */
  lemma {:induction false} PlainThen(c: char, rest: string)
    requires IsPlain(c)
    ensures Tail([c] + rest) == [c] + rest
    ensures ParseTail([c] + rest).Parsed?
            <==> ParseTail(if |rest| > 0 && IsRepeat(rest[0]) then rest[1..] else rest).Parsed?
  {
    hide IsUnsupported, IsValidEscape;
    var s := [c] + rest;
    assert s[1..] == rest && (|rest| > 0 ==> s[1] == rest[0] && s[2..] == rest[1..]);
  }

  lemma {:induction false} NoAtom(c: char, rest: string)
    requires !IsPlain(c) && (c == '\\' ==> rest == "") && (c == '$' ==> rest != "")
    ensures !ParseTail([c] + rest).Parsed?
  {
    hide IsUnsupported, IsValidEscape;
    var s := [c] + rest;
    assert s[0] == c && AtomLength(s) == 0;
  }

  lemma {:induction false} EndOfExpression()
    ensures ParseTail("").Parsed? && ParseTail("$").Parsed?
  {
  }

  /** A repeat needs an atom in front of it and takes no other repeat; '^' stands in front only and '$' at
      the end only; a backslash needs something to escape. */
  lemma {:induction false} Rejected(c: char, r: char)
    requires IsPlain(c) && IsRepeat(r)
    ensures !IsRegex([r] + [c]) && !IsRegex([c] + [r, r]) && !IsRegex([c] + "^") && !IsRegex("$" + [c])
    ensures !IsRegex("\\")
    ensures IsRegex([c] + [r]) && IsRegex([c] + [c]) && IsRegex("^" + [c]) && IsRegex([c] + "$")
  {
    hide ParseTail;
    EndOfExpression();
    NoAtom(r, [c]);
    NoAtom(r, "");
    PlainThen(c, [r, r]);
    assert [r, r][1..] == [r] && [r] + "" == [r] && [r][1..] == "";
    NoAtom('^', "");
    assert ['^'] + "" == "^" && ['\\'] + "" == "\\" && Tail("\\") == "\\";
    PlainThen(c, "^");
    NoAtom('$', [c]);
    NoAtom('\\', "");
    PlainThen(c, [r]);
    PlainThen(c, [c]);
    PlainThen(c, "");
    assert [c] + "" == [c] && ("^" + [c])[1..] == [c];
    PlainThen(c, "$");
  }
}
