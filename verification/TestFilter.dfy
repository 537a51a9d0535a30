/** Test selection by name: glob patterns and filters. */
module TestFilter {

  /** The meaning of one pattern character on a piece of text. */
  predicate InGlobChar(p: char, piece: string) {
    match p
    case '?' => |piece| == 1
    case '*' => true
    case _ => piece == [p]
  }

  /** A text is in the language of a glob if it splits into one piece for each pattern character. */
  ghost predicate InGlob(glob: string, text: string) {
    if |glob| == 0 then text == ""
    else exists n :: 0 <= n <= |text| && InGlobChar(glob[0], text[..n]) && InGlob(glob[1..], text[n..])
  }

  /** The pattern at the head of a filter: what stands before the first ':', or all of it. */
  function FirstPattern(filter: string): (p: string)
    ensures p <= filter && ':' !in p && (|p| < |filter| ==> filter[|p|] == ':')
  {
    if |filter| == 0 || filter[0] == ':' then "" else [filter[0]] + FirstPattern(filter[1..])
  }

  /** The ':'-separated patterns of a filter. */
  function Patterns(filter: string): (ps: seq<string>)
    ensures |ps| > 0
    decreases |filter|
  {
    var p := FirstPattern(filter);
    if |p| == |filter| then [p] else [p] + Patterns(filter[|p| + 1..])
  }

  /** Joining the patterns with ':' gives the filter back. */
  function Join(ps: seq<string>): string
    requires |ps| > 0
  {
    if |ps| == 1 then ps[0] else ps[0] + ":" + Join(ps[1..])
  }

  lemma {:induction false} PatternsSplit(filter: string)
    ensures Join(Patterns(filter)) == filter
    ensures forall p :: p in Patterns(filter) ==> ':' !in p
    decreases |filter|
  {
    var p := FirstPattern(filter);
    if |p| < |filter| {
      var rest := Patterns(filter[|p| + 1..]);
      PatternsSplit(filter[|p| + 1..]);
      assert Patterns(filter)[1..] == rest;
      assert filter == p + ":" + filter[|p| + 1..];
    } else {
      assert filter == p;
    }
  }

  ghost predicate SomePatternMatches(ps: seq<string>, name: string) {
    exists i :: 0 <= i < |ps| && InGlob(ps[i], name)
  }

  // ----- The matcher -----

  /** Does the pattern at the head of `pattern` match `str`? */
  predicate PatternMatchesString(pattern: string, str: string)
    decreases |pattern| + |str|
  {
    if |pattern| == 0 || pattern[0] == ':' then |str| == 0
    else if pattern[0] == '?' then |str| > 0 && PatternMatchesString(pattern[1..], str[1..])
    else if pattern[0] == '*' then
      (|str| > 0 && PatternMatchesString(pattern, str[1..])) || PatternMatchesString(pattern[1..], str)
    else |str| > 0 && pattern[0] == str[0] && PatternMatchesString(pattern[1..], str[1..])
  }

  /** A star takes one more character or none. */
  lemma {:induction false} StarUnfolds(glob: string, text: string)
    requires |glob| > 0 && glob[0] == '*'
    ensures InGlob(glob, text) <==> (|text| > 0 && InGlob(glob, text[1..])) || InGlob(glob[1..], text)
  {
    if InGlob(glob, text) {
      var n :| 0 <= n <= |text| && InGlobChar(glob[0], text[..n]) && InGlob(glob[1..], text[n..]);
      if n == 0 {
        assert text[0..] == text;
      } else {
        assert text[1..][n - 1..] == text[n..];
        assert InGlobChar(glob[0], text[1..][..n - 1]);
      }
    }
    if |text| > 0 && InGlob(glob, text[1..]) {
      var n :| 0 <= n <= |text[1..]| && InGlobChar(glob[0], text[1..][..n]) && InGlob(glob[1..], text[1..][n..]);
      assert text[1..][n..] == text[n + 1..];
      assert InGlobChar(glob[0], text[..n + 1]);
    }
    if InGlob(glob[1..], text) {
      assert text[0..] == text && InGlobChar(glob[0], text[..0]);
    }
  }

  /** Any other character takes exactly one. */
  lemma {:induction false} SingleUnfolds(glob: string, text: string)
    requires |glob| > 0 && glob[0] != '*'
    ensures InGlob(glob, text) <==> |text| > 0 && (glob[0] == '?' || glob[0] == text[0]) && InGlob(glob[1..], text[1..])
  {
    if |text| > 0 {
      assert text[..1] == [text[0]];
      assert InGlobChar(glob[0], text[..1]) <==> glob[0] == '?' || glob[0] == text[0];
    }
    assert forall n :: 0 <= n <= |text| && InGlobChar(glob[0], text[..n]) ==> n == 1;
  }

  /** The matcher decides the language of the pattern at the head. */
  lemma {:induction false} MatcherDecidesGlob(pattern: string, str: string)
    ensures PatternMatchesString(pattern, str) <==> InGlob(FirstPattern(pattern), str)
    decreases |pattern| + |str|
  {
    var p := FirstPattern(pattern);
    if |p| > 0 {
      assert p[0] == pattern[0] && p[1..] == FirstPattern(pattern[1..]);
      if p[0] == '*' {
        StarUnfolds(p, str);
        if |str| > 0 {
          MatcherDecidesGlob(pattern, str[1..]);
        }
        MatcherDecidesGlob(pattern[1..], str);
      } else {
        SingleUnfolds(p, str);
        if |str| > 0 {
          MatcherDecidesGlob(pattern[1..], str[1..]);
        }
      }
    }
  }

  /** The loop over the patterns of a filter. */
  method MatchesFilter(name: string, filter: string) returns (found: bool)
    ensures found <==> SomePatternMatches(Patterns(filter), name)
  {
    var cur := filter;
    ghost var done: seq<string> := [];
    while true
      invariant Patterns(filter) == done + Patterns(cur)
      invariant !SomePatternMatches(done, name)
      decreases |cur|
    {
      MatcherDecidesGlob(cur, name);
      ghost var p := FirstPattern(cur);
      assert Patterns(cur)[0] == p;
      if PatternMatchesString(cur, name) {
        assert Patterns(filter)[|done|] == p;
        return true;
      }
      var colon := Find(cur, ':');
      if colon == |cur| {
        FindIsPattern(cur, colon);
        assert Patterns(cur) == [p];
        return false;
      }
      FindIsPattern(cur, colon);
      done := done + [p];
      assert Patterns(filter) == done + Patterns(cur[colon + 1..]);
      cur := cur[colon + 1..];
    }
  }

  /** `strchr`: the first occurrence, or the length. */
  method Find(s: string, c: char) returns (i: nat)
    ensures i <= |s| && c !in s[..i] && (i < |s| ==> s[i] == c)
  {
    i := 0;
    while i < |s| && s[i] != c
      invariant i <= |s| && c !in s[..i]
    {
      i := i + 1;
    }
  }

  lemma {:induction false} FindIsPattern(s: string, i: nat)
    requires i <= |s| && ':' !in s[..i] && (i < |s| ==> s[i] == ':')
    ensures FirstPattern(s) == s[..i]
  {
    if i > 0 {
      assert s[..i][0] == s[0] && s[1..][..i - 1] == s[..i][1..];
      FindIsPattern(s[1..], i - 1);
    }
  }

  // ----- Patterns of literal text and stars -----

  predicate IsLiteral(w: string) { '*' !in w && '?' !in w && ':' !in w }

  /** Literal text, with a star behind it or not, matches itself, respectively what begins with it. */
  lemma {:induction false} LiteralMatches(w: string, text: string)
    requires IsLiteral(w)
    ensures InGlob(w, text) <==> text == w
    ensures InGlob(w + "*", text) <==> w <= text
  {
    if |w| == 0 {
      assert w + "*" == "*" && "*"[1..] == "";
      var n := |text|;
      assert text[n..] == "" && InGlobChar('*', text[..n]) && InGlob("", text[n..]);
    } else {
      assert (w + "*")[1..] == w[1..] + "*";
      SingleUnfolds(w, text);
      SingleUnfolds(w + "*", text);
      if |text| > 0 {
        LiteralMatches(w[1..], text[1..]);
        assert text == [text[0]] + text[1..] && w == [w[0]] + w[1..];
      }
    }
  }

  /** A star in front matches any beginning. */
  lemma {:induction false} StarMatches(glob: string, text: string)
    ensures InGlob("*" + glob, text) <==> exists i :: 0 <= i <= |text| && InGlob(glob, text[i..])
  {
    var g := "*" + glob;
    assert g[0] == '*' && g[1..] == glob;
    forall i | 0 <= i <= |text| && InGlob(glob, text[i..]) ensures InGlob(g, text) {
      assert InGlobChar(g[0], text[..i]);
    }
  }

  // ----- Positive and negative filters -----

  predicate SplitsAt(filter: string, dash: nat)
    requires dash <= |filter|
  {
    '-' !in filter[..dash] && (dash < |filter| ==> filter[dash] == '-')
  }

  ghost predicate SelectsAt(filter: string, dash: nat, name: string)
    requires dash <= |filter|
  {
    if dash == |filter| then SomePatternMatches(Patterns(filter), name)
    else
      && (dash == 0 || SomePatternMatches(Patterns(filter[..dash]), name))
      && (dash + 1 == |filter| || !SomePatternMatches(Patterns(filter[dash + 1..]), name))
  }

  /** The two parts of a filter: at the first '-', an empty positive part meaning every name. */
  ghost predicate Selects(filter: string, name: string) {
    exists dash :: 0 <= dash <= |filter| && SplitsAt(filter, dash) && SelectsAt(filter, dash, name)
  }

  lemma {:induction false} StarMatchesAll(name: string)
    ensures SomePatternMatches(Patterns("*"), name)
  {
    assert FirstPattern("*") == "*" && Patterns("*")[0] == "*";
    assert name[|name|..] == "" && InGlobChar('*', name[..|name|]) && InGlob("*"[1..], name[|name|..]);
    assert InGlob("*", name);
  }

  lemma {:induction false} EmptyMatchesNothing(name: string)
    requires name != ""
    ensures !SomePatternMatches(Patterns(""), name)
  {
    assert Patterns("") == [""];
  }

  /** A test is selected exactly when some positive pattern matches its full name and no negative one does. */
  method FilterMatchesTest(filter: string, caseName: string, testName: string) returns (selected: bool)
    ensures selected <==> Selects(filter, caseName + "." + testName)
  {
    var name := caseName + "." + testName;
    assert name[|caseName|] == '.';
    EmptyMatchesNothing(name);
    StarMatchesAll(name);
    var dash := Find(filter, '-');
    var positive, negative := filter, "";
    if dash < |filter| {
      positive, negative := filter[..dash], filter[dash + 1..];
      if positive == "" {
        positive := "*";
      }
    }
    var pos := MatchesFilter(name, positive);
    var neg := MatchesFilter(name, negative);
    selected := pos && !neg;
    assert filter[..|filter|] == filter;
    DashIsUnique(filter, dash);
    assert selected <==> SelectsAt(filter, dash, name);
  }

  /** There is only one place where a filter splits. */
  lemma {:induction false} DashIsUnique(filter: string, dash: nat)
    requires dash <= |filter| && SplitsAt(filter, dash)
    ensures forall d :: 0 <= d <= |filter| && SplitsAt(filter, d) ==> d == dash
  {
    forall d | 0 <= d <= |filter| && d != dash ensures !SplitsAt(filter, d) {
      if d < dash {
        assert filter[..dash][d] == filter[d];
      } else {
        assert filter[..d][dash] == '-';
      }
    }
  }
}
