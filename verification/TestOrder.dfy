/** The order in which registered test cases and their tests run, over any sequence of
    registrations, shuffles and unshuffles. */
module TestOrder {
  import opened TestFilter

  const DEATH_FILTER := "*DeathTest:*DeathTest/*"

  /** A death test case is one whose name the death-test filter matches. */
  ghost predicate IsDeath(filter: string, name: string) {
    SomePatternMatches(Patterns(filter), name)
  }

  ghost predicate EndsWith(s: string, w: string) { exists i :: 0 <= i <= |s| && s[i..] == w }

  ghost predicate Contains(s: string, w: string) { exists i :: 0 <= i <= |s| && w <= s[i..] }

  lemma {:induction false} DeathPatterns()
    ensures Patterns(DEATH_FILTER) == ["*DeathTest", "*DeathTest/*"]
  {
    hide Patterns, FirstPattern;
    var first, second := "*DeathTest", "*DeathTest/*";
    assert DEATH_FILTER == first + ":" + second;
    TwoPatterns(first, second);
  }

  lemma {:induction false} TwoPatterns(first: string, second: string)
    requires ':' !in first && ':' !in second
    ensures Patterns(first + ":" + second) == [first, second]
  {
    var s := first + ":" + second;
    assert s[..|first|] == first && s[|first| + 1..] == second && second[..|second|] == second;
    FindIsPattern(s, |first|);
    FindIsPattern(second, |second|);
  }

  /** A case is a death test case exactly when its name ends in "DeathTest" or contains "DeathTest/". */
  lemma {:induction false} DeathNames(name: string)
    ensures IsDeath(DEATH_FILTER, name) <==> EndsWith(name, "DeathTest") || Contains(name, "DeathTest/")
  {
    hide InGlob, Patterns;
    DeathPatterns();
    var ps := ["*DeathTest", "*DeathTest/*"];
    assert ps[0] == "*" + "DeathTest" && ps[1] == "*" + ("DeathTest/" + "*");
    StarMatches("DeathTest", name);
    StarMatches("DeathTest/" + "*", name);
    forall i | 0 <= i <= |name|
      ensures InGlob("DeathTest", name[i..]) <==> name[i..] == "DeathTest"
      ensures InGlob("DeathTest/" + "*", name[i..]) <==> "DeathTest/" <= name[i..]
    {
      LiteralMatches("DeathTest", name[i..]);
      LiteralMatches("DeathTest/", name[i..]);
    }
    assert SomePatternMatches(ps, name) <==> InGlob(ps[0], name) || InGlob(ps[1], name);
  }

  datatype TestCase = TestCase(name: string, tests: seq<string>, order: seq<int>)

  /** A list of indices visits each of 0 .. n-1 exactly once. */
  ghost predicate Permutes(s: seq<int>, n: nat) {
    && |s| == n
    && (forall k :: 0 <= k < n ==> 0 <= s[k] < n)
    && (forall j, k :: 0 <= j < k < n ==> s[j] != s[k])
  }

  /** Indices below `cut` stay in front of the others. */
  ghost predicate Respects(s: seq<int>, cut: int) {
    forall k :: 0 <= k < |s| ==> (k < cut <==> s[k] < cut)
  }

  function Identity(n: nat): (s: seq<int>)
    ensures |s| == n && forall k :: 0 <= k < n ==> s[k] == k
  {
    seq(n, k => k)
  }

  // ----- Shuffling -----

  /** What the generator may return, one number for each turn: below the width of what is left. */
  ghost predicate Picks(picks: seq<nat>, width: nat) {
    |picks| == (if width < 2 then 0 else width - 1) && forall i :: 0 <= i < |picks| ==> picks[i] < width - i
  }

  /** The order that given picks lead to. */
  ghost function Shuffled(v: seq<int>, begin: nat, width: nat, picks: seq<nat>): (r: seq<int>)
    requires begin + width <= |v| && Picks(picks, width)
    ensures |r| == |v|
    decreases width
  {
    if width < 2 then v else Shuffled(Swapped(v, begin + picks[0], begin + width - 1), begin, width - 1, picks[1..])
  }

  /** Fisher-Yates on the range [begin, end); `picks` is what the generator returns. */
  method ShuffleRange(begin: nat, end: nat, v: seq<int>, picks: seq<nat>) returns (r: seq<int>)
    requires begin <= end <= |v| && Picks(picks, end - begin)
    ensures r == Shuffled(v, begin, end - begin, picks)
    ensures |r| == |v| && multiset(r) == multiset(v)
    ensures r[..begin] == v[..begin] && r[end..] == v[end..]
    ensures multiset(r[begin..end]) == multiset(v[begin..end])
  {
    hide Shuffled, Swapped, Picks;
    r := v;
    var width := end - begin;
    ghost var left := picks;
    var i := 0;
    while width >= 2
      invariant 0 <= width <= end - begin && |r| == |v|
      invariant 0 <= i <= |picks| && left == picks[i..]
      invariant Picks(left, width) && Shuffled(r, begin, width, left) == Shuffled(v, begin, end - begin, picks)
      invariant r[..begin] == v[..begin] && r[end..] == v[end..]
      invariant multiset(r[begin..end]) == multiset(v[begin..end])
    {
      TurnShuffles(r, begin, width, left);
      assert picks[i] == left[0];
      var last := begin + width - 1;
      var selected := begin + picks[i];
      SwapWithin(r, begin, end, selected, last);
      r := Swapped(r, selected, last);
      left := left[1..];
      i, width := i + 1, width - 1;
    }
    TurnsDone(r, begin, width, left);
    assert r == r[..begin] + r[begin..end] + r[end..];
    assert v == v[..begin] + v[begin..end] + v[end..];
  }

  /** One turn of the loop uses the first pick. */
  lemma {:induction false} TurnShuffles(v: seq<int>, begin: nat, width: nat, picks: seq<nat>)
    requires width >= 2 && begin + width <= |v| && Picks(picks, width)
    ensures |picks| > 0 && picks[0] < width && Picks(picks[1..], width - 1)
    ensures Shuffled(v, begin, width, picks)
            == Shuffled(Swapped(v, begin + picks[0], begin + width - 1), begin, width - 1, picks[1..])
  {
  }

  lemma {:induction false} TurnsDone(v: seq<int>, begin: nat, width: nat, picks: seq<nat>)
    requires width < 2 && begin + width <= |v| && Picks(picks, width)
    ensures Shuffled(v, begin, width, picks) == v
  {
  }

  /** Two orders that differ only in how a range is arranged. */
  ghost predicate Rearranges(v: seq<int>, r: seq<int>, begin: nat, width: nat) {
    && |r| == |v| && begin + width <= |v|
    && r[..begin] == v[..begin] && r[begin + width..] == v[begin + width..]
    && multiset(r[begin..begin + width]) == multiset(v[begin..begin + width])
  }

  /** Every rearrangement of the range can come about: there are picks that lead to it. */
  lemma {:induction false} EveryOrderPossible(v: seq<int>, r: seq<int>, begin: nat,
                                              width: nat) returns (picks: seq<nat>)
    requires begin + width <= |v| && Rearranges(v, r, begin, width)
    ensures Picks(picks, width) && Shuffled(v, begin, width, picks) == r
    decreases width
  {
    if width < 2 {
      picks := [];
      SameBlock(v, r, begin, width);
    } else {
      hide Shuffled, Swapped, Rearranges, Picks;
      var pick := PickFor(v, r, begin, width);
      RearrangesAfter(v, r, begin, width, pick);
      var rest := EveryOrderPossible(Swapped(v, begin + pick, begin + width - 1), r, begin, width - 1);
      picks := [pick] + rest;
      ShuffledStep(v, begin, width, pick, rest);
    }
  }

  lemma {:induction false} FindIn(a: seq<int>, b: seq<int>, k: nat) returns (i: nat)
    requires multiset(a) == multiset(b) && k < |b|
    ensures i < |a| && a[i] == b[k]
  {
    assert b[k] in multiset(a);
    i :| 0 <= i < |a| && a[i] == b[k];
  }

  /** Where the element is that belongs to the end of the range. */
  lemma {:induction false} PickFor(v: seq<int>, r: seq<int>, begin: nat, width: nat) returns (pick: nat)
    requires Rearranges(v, r, begin, width) && width > 0
    ensures pick < width && v[begin + pick] == r[begin + width - 1]
  {
    pick := FindIn(v[begin..begin + width], r[begin..begin + width], width - 1);
  }

  lemma {:induction false} SameBlock(v: seq<int>, r: seq<int>, begin: nat, width: nat)
    requires Rearranges(v, r, begin, width) && width < 2
    ensures r == v
  {
    var end := begin + width;
    if width == 1 {
      var i := FindIn(v[begin..end], r[begin..end], 0);
    }
    assert r[begin..end] == v[begin..end];
    assert r == r[..begin] + r[begin..end] + r[end..] && v == v[..begin] + v[begin..end] + v[end..];
  }

  lemma {:induction false} CancelLast(a: seq<int>, b: seq<int>, x: int)
    requires multiset(a + [x]) == multiset(b + [x])
    ensures multiset(a) == multiset(b)
  {
    assert multiset(a) == multiset(a + [x]) - multiset{x};
    assert multiset(b) == multiset(b + [x]) - multiset{x};
  }

  /** With the right element at its end, the rest of the range is still to be rearranged. */
  lemma {:induction false} OneLess(v: seq<int>, r: seq<int>, begin: nat, width: nat)
    requires Rearranges(v, r, begin, width) && width > 0 && v[begin + width - 1] == r[begin + width - 1]
    ensures Rearranges(v, r, begin, width - 1)
  {
    var last, end := begin + width - 1, begin + width;
    SplitLast(r, begin, end);
    SplitLast(v, begin, end);
    CancelLast(r[begin..last], v[begin..last], r[last]);
  }

  lemma {:induction false} SplitLast(s: seq<int>, begin: nat, end: nat)
    requires begin < end <= |s|
    ensures s[begin..end] == s[begin..end - 1] + [s[end - 1]] && s[end - 1..] == [s[end - 1]] + s[end..]
  {
  }

  lemma {:induction false} RearrangesAfter(v: seq<int>, r: seq<int>, begin: nat, width: nat, pick: nat)
    requires Rearranges(v, r, begin, width) && pick < width && v[begin + pick] == r[begin + width - 1]
    ensures Rearranges(Swapped(v, begin + pick, begin + width - 1), r, begin, width - 1)
  {
    hide Swapped;
    var v' := Swapped(v, begin + pick, begin + width - 1);
    SwapWithin(v, begin, begin + width, begin + pick, begin + width - 1);
    SwappedLast(v, begin + pick, begin + width - 1);
    OneLess(v', r, begin, width);
  }

  lemma {:induction false} SwappedLast(v: seq<int>, i: nat, j: nat)
    requires i < |v| && j < |v|
    ensures Swapped(v, i, j)[j] == v[i]
  {
  }

  lemma {:induction false} ShuffledStep(v: seq<int>, begin: nat, width: nat, pick: nat, rest: seq<nat>)
    requires width >= 2 && begin + width <= |v| && pick < width && Picks(rest, width - 1)
    ensures Picks([pick] + rest, width)
    ensures Shuffled(v, begin, width, [pick] + rest)
            == Shuffled(Swapped(v, begin + pick, begin + width - 1), begin, width - 1, rest)
  {
    var picks := [pick] + rest;
    assert picks[1..] == rest;
    assert forall i :: 0 < i < |picks| ==> picks[i] == rest[i - 1];
  }

  function Swapped(s: seq<int>, i: nat, j: nat): (r: seq<int>)
    requires i < |s| && j < |s|
    ensures |r| == |s|
  {
    s[i := s[j]][j := s[i]]
  }

  /** A swap inside a range rearranges the range and nothing else. */
  lemma {:induction false} SwapWithin(s: seq<int>, begin: nat, end: nat, i: nat, j: nat)
    requires begin <= i < end <= |s| && begin <= j < end
    ensures Swapped(s, i, j)[..begin] == s[..begin] && Swapped(s, i, j)[end..] == s[end..]
    ensures multiset(Swapped(s, i, j)[begin..end]) == multiset(s[begin..end])
  {
    var m := s[begin..end];
    SwapKeepsMultiset(m, i - begin, j - begin);
    assert Swapped(s, i, j)[begin..end] == Swapped(m, i - begin, j - begin);
  }

  lemma {:induction false} SwapKeepsMultiset(s: seq<int>, i: nat, j: nat)
    requires i < |s| && j < |s|
    ensures multiset(Swapped(s, i, j)) == multiset(s)
  {
  }

  /** A rearrangement of distinct indices below n is a permutation. */
  lemma {:induction false} RearrangedPermutes(s: seq<int>, r: seq<int>, n: nat)
    requires Permutes(s, n) && multiset(r) == multiset(s)
    ensures Permutes(r, n)
  {
    assert |multiset(r)| == |multiset(s)|;
    forall k | 0 <= k < n ensures 0 <= r[k] < n {
      assert r[k] in multiset(r);
      assert r[k] in s;
    }
    forall j, k | 0 <= j < k < n ensures r[j] != r[k] {
      DistinctCounts(s, r[j]);
      RepeatCounts(r, j, k);
    }
  }

  lemma {:induction false} DistinctCounts(s: seq<int>, x: int)
    requires forall j, k :: 0 <= j < k < |s| ==> s[j] != s[k]
    ensures multiset(s)[x] <= 1
  {
    if |s| > 0 {
      var n := |s| - 1;
      DistinctCounts(s[..n], x);
      assert s == s[..n] + [s[n]];
      if x == s[n] {
        assert x !in s[..n];
      }
    }
  }

  lemma {:induction false} RepeatCounts(r: seq<int>, j: nat, k: nat)
    requires j < k < |r|
    ensures r[j] == r[k] ==> multiset(r)[r[j]] >= 2
  {
    assert r == r[..j] + [r[j]] + r[j + 1..k] + [r[k]] + r[k + 1..];
  }

  /** Shuffling within two blocks keeps each block's indices inside it. */
  lemma {:induction false} BlockRespects(s: seq<int>, r: seq<int>, cut: nat)
    requires cut <= |s| == |r| && Respects(s, cut)
    requires multiset(r[..cut]) == multiset(s[..cut]) && multiset(r[cut..]) == multiset(s[cut..])
    ensures Respects(r, cut)
  {
    forall k | 0 <= k < |r| ensures k < cut <==> r[k] < cut {
      if k < cut {
        assert r[..cut][k] in multiset(r[..cut]);
        var i :| 0 <= i < cut && s[..cut][i] == r[k];
        assert s[i] < cut;
      } else {
        assert r[cut..][k - cut] in multiset(r[cut..]);
        var i :| 0 <= i < |s| - cut && s[cut..][i] == r[k];
        assert !(s[cut + i] < cut);
      }
    }
  }

  // ----- Registration order -----

  /** The names for which `IsDeath` is `death`, in order. */
  ghost function Select(filter: string, names: seq<string>, death: bool): seq<string> {
    if |names| == 0 then []
    else
      var n := |names| - 1;
      Select(filter, names[..n], death) + if IsDeath(filter, names[n]) == death then [names[n]] else []
  }

  ghost function Names(cases: seq<TestCase>): (r: seq<string>)
    ensures |r| == |cases| && forall i :: 0 <= i < |r| ==> r[i] == cases[i].name
  {
    seq(|cases|, i requires 0 <= i < |cases| => cases[i].name)
  }

  /** The execution order: the cases as the indices visit them. */
  function Execution(cases: seq<TestCase>, indices: seq<int>): (r: seq<TestCase>)
    requires Permutes(indices, |cases|)
    ensures |r| == |cases| && forall k :: 0 <= k < |r| ==> r[k] == cases[indices[k]]
  {
    seq(|indices|, k requires 0 <= k < |indices| => cases[indices[k]])
  }

  /** Every case has its tests visited once each. */
  ghost predicate CasesOk(cases: seq<TestCase>) {
    forall i :: 0 <= i < |cases| ==> Permutes(cases[i].order, |cases[i].tests|)
  }

  ghost predicate DistinctNames(cases: seq<TestCase>) {
    forall i, j :: 0 <= i < j < |cases| ==> cases[i].name != cases[j].name
  }

  ghost predicate DeathPrefix(filter: string, cases: seq<TestCase>, lastDeath: int) {
    && -1 <= lastDeath < |cases|
    && forall i :: 0 <= i < |cases| ==> (IsDeath(filter, cases[i].name) <==> i <= lastDeath)
  }

  /** The same cases with the same tests, whatever the order they run in. */
  ghost predicate SameTests(cases: seq<TestCase>, cases': seq<TestCase>) {
    && |cases'| == |cases|
    && forall i :: 0 <= i < |cases| ==> cases'[i].name == cases[i].name && cases'[i].tests == cases[i].tests
  }

  /** Each case holds the tests that `contents` has under its name. */
  ghost predicate Filed(cases: seq<TestCase>, contents: map<string, seq<string>>) {
    forall i :: 0 <= i < |cases| ==> cases[i].name in contents && contents[cases[i].name] == cases[i].tests
  }

  /** The tests of every case run in the order of registration. */
  ghost predicate TestsInOrder(cases: seq<TestCase>) {
    forall i :: 0 <= i < |cases| ==> cases[i].order == Identity(|cases[i].tests|)
  }

  /** Whatever the generator returns. */
  method SomePicks(width: nat) returns (picks: seq<nat>)
    ensures Picks(picks, width)
  {
    picks := [];
    while |picks| + 1 < width
      invariant |picks| <= width && (width >= 1 ==> |picks| < width)
      invariant forall i :: 0 <= i < |picks| ==> picks[i] < width - i
    {
      var pick: nat :| pick < width - |picks|;
      picks := picks + [pick];
    }
  }

  lemma {:induction false} TwoBlocks(v: seq<int>, once: seq<int>, twice: seq<int>, cut: nat, n: nat)
    requires Permutes(v, n) && cut <= n && Respects(v, cut)
    requires |once| == n && multiset(once) == multiset(v) && once[cut..] == v[cut..]
    requires multiset(once[0..cut]) == multiset(v[0..cut])
    requires |twice| == n && multiset(twice) == multiset(once) && twice[..cut] == once[..cut]
    requires multiset(twice[cut..n]) == multiset(once[cut..n])
    ensures Permutes(twice, n) && Respects(twice, cut)
  {
    RearrangedPermutes(v, twice, n);
    assert once[..cut] == once[0..cut] && v[..cut] == v[0..cut];
    assert twice[cut..] == twice[cut..n] && once[cut..] == once[cut..n];
    BlockRespects(v, twice, cut);
  }

  class UnitTestImpl {
    const filter: string
    var cases: seq<TestCase>
    var indices: seq<int>
    var lastDeath: int
    ghost var registered: seq<string>  // names in the order they were first seen
    ghost var contents: map<string, seq<string>>  // the tests of each case in the order of registration

    ghost predicate Valid()
      reads this
    {
      && CasesOk(cases) && DistinctNames(cases) && DeathPrefix(filter, cases, lastDeath)
      && Permutes(indices, |cases|) && Respects(indices, lastDeath + 1)
      && Names(cases) == Select(filter, registered, true) + Select(filter, registered, false)
      && |Select(filter, registered, true)| == lastDeath + 1
      && Filed(cases, contents) && forall name :: name in contents <==> name in registered
    }

    ghost predicate Unshuffled()
      reads this
    {
      indices == Identity(|cases|) && TestsInOrder(cases)
    }

    constructor ()
      ensures Valid() && Unshuffled() && cases == [] && registered == [] && contents == map[] && filter == DEATH_FILTER
    {
      filter := DEATH_FILTER;
      cases, indices, lastDeath, registered, contents := [], [], -1, [], map[];
    }

    /** Find the case, or make it: death cases go after the last death case, others to the end. */
    method GetTestCase(name: string) returns (i: nat)
      requires Valid() && Unshuffled()  // what the source asks of its callers
      modifies this
      ensures Valid() && Unshuffled()
      ensures i < |cases| && cases[i].name == name
      ensures if name in old(registered) then
                registered == old(registered) && cases == old(cases) && contents == old(contents)
              else registered == old(registered) + [name] && contents == old(contents)[name := []]
    {
      i := FindCase(name);
      RegisteredAreNames(filter, cases, registered, name);
      if i < |cases| {
        assert Names(cases)[i] == name;
        return;
      }
      i := CreateCase(name);
    }

    method CreateCase(name: string) returns (i: nat)
      requires Valid() && Unshuffled()
      requires forall k :: 0 <= k < |cases| ==> cases[k].name != name
      modifies this
      ensures Valid() && Unshuffled()
      ensures i < |cases| == |old(cases)| + 1 && cases[i].name == name
      ensures registered == old(registered) + [name] && contents == old(contents)[name := []]
    {
      hide CasesOk, Filed, TestsInOrder, Select;
      var death := MatchesFilter(name, filter);
      var made := TestCase(name, [], []);
      ghost var was, where := cases, if death then lastDeath + 1 else |cases|;
      if death {
        lastDeath := lastDeath + 1;
        cases := cases[..lastDeath] + [made] + cases[lastDeath..];
        i := lastDeath;
      } else {
        i := |cases|;
        cases := cases + [made];
      }
      assert cases == was[..where] + [made] + was[where..];
      indices := indices + [|indices|];
      InsertNames(filter, was, cases, registered, name, where);
      InsertKeeps(filter, was, cases, old(lastDeath), name, where);
      InsertFiled(was, cases, contents, name, where);
      registered, contents := registered + [name], contents[name := []];
      assert indices == Identity(|cases|);
    }

    method FindCase(name: string) returns (i: nat)
      ensures i <= |cases| && (i < |cases| ==> cases[i].name == name)
      ensures i == |cases| ==> forall k :: 0 <= k < |cases| ==> cases[k].name != name
    {
      i := 0;
      while i < |cases| && cases[i].name != name
        invariant 0 <= i <= |cases| && forall k :: 0 <= k < i ==> cases[k].name != name
      {
        i := i + 1;
      }
    }

    /** Append a test to its case, which is made if it is new; every other case keeps its tests. */
    method AddTest(caseName: string, test: string)
      requires Valid() && Unshuffled()
      modifies this
      ensures Valid() && Unshuffled()
      ensures registered == if caseName in old(registered) then old(registered) else old(registered) + [caseName]
      ensures contents == WithTest(old(contents), caseName, test)
    {
      hide CasesOk, DistinctNames, TestsInOrder, Select;
      var i := GetTestCase(caseName);
      var c := cases[i];
      AppendKeeps(cases, contents, i, test);
      ghost var was := cases;
      cases := cases[i := c.(tests := c.tests + [test], order := c.order + [|c.order|])];
      contents := contents[caseName := c.tests + [test]];
      assert Names(cases) == Names(was);
    }

    /** Shuffle the death cases, the other cases, and the tests in each. */
    method ShuffleTests()
      requires Valid()
      modifies this
      ensures Valid() && registered == old(registered) && contents == old(contents) && SameTests(old(cases), cases)
    {
      var cut := lastDeath + 1;
      var picks := SomePicks(cut);
      var morePicks := SomePicks(|cases| - cut);
      var once := ShuffleRange(0, cut, indices, picks);
      var twice := ShuffleRange(cut, |cases|, once, morePicks);
      TwoBlocks(indices, once, twice, cut, |cases|);
      indices := twice;
      var i := 0;
      while i < |cases|
        invariant 0 <= i <= |cases| == |old(cases)|
        invariant Valid() && registered == old(registered) && contents == old(contents) && SameTests(old(cases), cases)
      {
        ShuffleCase(i);
        i := i + 1;
      }
    }

    /** Shuffle the tests of one case. */
    method ShuffleCase(i: nat)
      requires Valid() && i < |cases|
      modifies this`cases
      ensures Valid() && SameTests(old(cases), cases)
    {
      var c := cases[i];
      var picks := SomePicks(|c.order|);
      var order := ShuffleRange(0, |c.order|, c.order, picks);
      RearrangedPermutes(c.order, order, |c.tests|);
      cases := cases[i := c.(order := order)];
      assert Names(cases) == old(Names(cases));
    }

    /** Back to the order before the first shuffle. */
    method UnshuffleTests()
      requires Valid()
      modifies this
      ensures Valid() && Unshuffled() && registered == old(registered) && contents == old(contents)
      ensures |cases| == |old(cases)|
      ensures forall i :: 0 <= i < |cases| ==>
        cases[i] == old(cases)[i].(order := Identity(|old(cases)[i].tests|))
    {
      var i := 0;
      while i < |cases|
        invariant 0 <= i <= |cases| == |old(cases)| == |indices|
        invariant registered == old(registered) && contents == old(contents) && lastDeath == old(lastDeath)
        invariant forall k :: 0 <= k < i ==>
                    indices[k] == k && cases[k] == old(cases)[k].(order := Identity(|old(cases)[k].tests|))
        invariant forall k :: i <= k < |cases| ==> cases[k] == old(cases)[k]
        invariant Names(cases) == old(Names(cases))
      {
        var c := cases[i];
        cases := cases[i := c.(order := Identity(|c.order|))];
        indices := indices[i := i];
        i := i + 1;
      }
    }
  }

  lemma {:induction false} SelectMembers(filter: string, names: seq<string>, x: string)
    ensures x in names <==> x in Select(filter, names, true) || x in Select(filter, names, false)
  {
    if |names| > 0 {
      var n := |names| - 1;
      SelectMembers(filter, names[..n], x);
      assert names == names[..n] + [names[n]];
    }
  }

  lemma {:induction false} RegisteredAreNames(filter: string, cases: seq<TestCase>, registered: seq<string>,
                                              name: string)
    requires Names(cases) == Select(filter, registered, true) + Select(filter, registered, false)
    ensures name in registered <==> name in Names(cases)
  {
    SelectMembers(filter, registered, name);
  }

  /** A new name joins the end of its group. */
  lemma {:induction false} InsertNames(filter: string, cases: seq<TestCase>, cases': seq<TestCase>,
                                       registered: seq<string>, name: string, where: nat)
    requires Names(cases) == Select(filter, registered, true) + Select(filter, registered, false)
    requires where == if IsDeath(filter, name) then |Select(filter, registered, true)| else |cases|
    requires where <= |cases| && cases' == cases[..where] + [TestCase(name, [], [])] + cases[where..]
    ensures Names(cases') == Select(filter, registered + [name], true) + Select(filter, registered + [name], false)
    ensures |Select(filter, registered + [name], true)|
            == |Select(filter, registered, true)| + if IsDeath(filter, name) then 1 else 0
  {
    hide IsDeath;
    assert (registered + [name])[..|registered|] == registered;
    assert Names(cases') == Names(cases)[..where] + [name] + Names(cases)[where..];
  }

  /** `contents` with one more test under a name. */
  function WithTest(contents: map<string, seq<string>>, name: string, test: string): map<string, seq<string>> {
    contents[name := (if name in contents then contents[name] else []) + [test]]
  }

  /** One more test at the end of a case changes that case only. */
  lemma {:induction false} AppendKeeps(cases: seq<TestCase>, contents: map<string, seq<string>>, i: nat, test: string)
    requires i < |cases| && CasesOk(cases) && DistinctNames(cases) && Filed(cases, contents) && TestsInOrder(cases)
    ensures var c := cases[i];
            var cases' := cases[i := c.(tests := c.tests + [test], order := c.order + [|c.order|])];
            && CasesOk(cases') && DistinctNames(cases') && TestsInOrder(cases')
            && Filed(cases', contents[c.name := c.tests + [test]])
  {
    var c := cases[i];
    assert c.order + [|c.order|] == Identity(|c.tests| + 1);
  }

  lemma {:induction false} InsertFiled(cases: seq<TestCase>, cases': seq<TestCase>, contents: map<string, seq<string>>,
                                       name: string,
                                       where: nat)
    requires Filed(cases, contents) && TestsInOrder(cases) && forall k :: 0 <= k < |cases| ==> cases[k].name != name
    requires where <= |cases| && cases' == cases[..where] + [TestCase(name, [], [])] + cases[where..]
    ensures Filed(cases', contents[name := []]) && TestsInOrder(cases')
  {
    assert forall i :: 0 <= i < |cases'| ==>
      cases'[i] == if i < where then cases[i] else if i == where then TestCase(name, [], []) else cases[i - 1];
  }

  lemma {:induction false} InsertKeeps(filter: string, cases: seq<TestCase>, cases': seq<TestCase>, lastDeath: int,
                                       name: string, where: nat)
    requires CasesOk(cases) && DistinctNames(cases) && DeathPrefix(filter, cases, lastDeath)
    requires where == if IsDeath(filter, name) then lastDeath + 1 else |cases|
    requires cases' == cases[..where] + [TestCase(name, [], [])] + cases[where..]
    requires forall k :: 0 <= k < |cases| ==> cases[k].name != name
    ensures CasesOk(cases') && DistinctNames(cases')
    ensures DeathPrefix(filter, cases', if IsDeath(filter, name) then lastDeath + 1 else lastDeath)
  {
    assert forall i :: 0 <= i < |cases'| ==>
      cases'[i] == if i < where then cases[i] else if i == where then TestCase(name, [], []) else cases[i - 1];
  }

  // ----- What the execution order guarantees -----

  /** Each case runs exactly once, and every death case runs before every other. */
  lemma {:induction false} ExecutionOrder(filter: string, cases: seq<TestCase>, indices: seq<int>, lastDeath: int)
    requires DistinctNames(cases) && DeathPrefix(filter, cases, lastDeath)
    requires Permutes(indices, |cases|) && Respects(indices, lastDeath + 1)
    ensures var run := Execution(cases, indices);
            && (forall c :: c in cases <==> c in run)
            && (forall j, k :: 0 <= j < k < |run| ==> run[j].name != run[k].name)
            && (forall j, k :: 0 <= j < k < |run| && IsDeath(filter, run[k].name) ==> IsDeath(filter, run[j].name))
  {
    var run := Execution(cases, indices);
    forall i | 0 <= i < |cases| ensures cases[i] in run {
      PermutesSurjective(indices, |cases|, i);
      var k :| 0 <= k < |indices| && indices[k] == i;
      assert run[k] == cases[i];
    }
    forall j, k | 0 <= j < k < |run| ensures run[j].name != run[k].name {
      assert indices[j] != indices[k];
    }
  }

  /** Distinct members of a set are no more than its size. */
  lemma {:induction false} DistinctFit(s: seq<int>, all: set<int>)
    requires forall k :: 0 <= k < |s| ==> s[k] in all
    requires forall j, k :: 0 <= j < k < |s| ==> s[j] != s[k]
    ensures |s| <= |all|
  {
    if |s| > 0 {
      var n := |s| - 1;
      DistinctFit(s[..n], all - {s[n]});
    }
  }

  ghost function Below(n: nat): (r: set<int>)
    ensures |r| == n && forall k :: k in r <==> 0 <= k < n
  {
    if n == 0 then {} else Below(n - 1) + {n - 1}
  }

  /** A permutation reaches every index. */
  lemma {:induction false} PermutesSurjective(s: seq<int>, n: nat, i: int)
    requires Permutes(s, n) && 0 <= i < n
    ensures i in s
  {
    var all := Below(n);
    if i !in s {
      DistinctFit(s, all - {i});
    }
  }

  /** Unshuffled, the cases run in registration order, death cases first. */
  lemma {:induction false} UnshuffledOrder(filter: string, cases: seq<TestCase>, registered: seq<string>)
    requires Names(cases) == Select(filter, registered, true) + Select(filter, registered, false)
    ensures Names(Execution(cases, Identity(|cases|)))
            == Select(filter, registered, true) + Select(filter, registered, false)
  {
    assert Execution(cases, Identity(|cases|)) == cases;
  }

  // ----- Whole runs -----

  datatype Op = Register(caseName: string, test: string) | Shuffle | Unshuffle

  /** Whether the order is shuffled after the first k operations. */
  predicate ShuffledAfter(ops: seq<Op>, k: nat)
    requires k <= |ops|
  {
    k > 0 && (ops[k - 1].Shuffle? || (ops[k - 1].Register? && ShuffledAfter(ops, k - 1)))
  }

  /** Registrations are made only while the order is not shuffled. */
  predicate Disciplined(ops: seq<Op>) {
    forall k :: 0 <= k < |ops| && ops[k].Register? ==> !ShuffledAfter(ops, k)
  }

  /** Case names in the order of their first registration among the first k operations. */
  function FirstSeen(ops: seq<Op>, k: nat): seq<string>
    requires k <= |ops|
  {
    if k == 0 then []
    else
      var before := FirstSeen(ops, k - 1);
      if ops[k - 1].Register? && ops[k - 1].caseName !in before then before + [ops[k - 1].caseName] else before
  }

  /** The tests registered under each name by the first k operations, in order. */
  function Registered(ops: seq<Op>, k: nat): map<string, seq<string>>
    requires k <= |ops|
  {
    if k == 0 then map[]
    else if ops[k - 1].Register? then WithTest(Registered(ops, k - 1), ops[k - 1].caseName, ops[k - 1].test)
    else Registered(ops, k - 1)
  }

  /** The tests of a case in the order they run. */
  function Visited(tests: seq<string>, order: seq<int>): (r: seq<string>)
    ensures |r| == |order|
  {
    seq(|order|, k requires 0 <= k < |order| => if 0 <= order[k] < |tests| then tests[order[k]] else "")
  }

  /** A permutation with its largest index taken out. */
  lemma {:induction false} DropLargest(order: seq<int>, n: nat, p: nat)
    requires Permutes(order, n) && p < n && order[p] == n - 1
    ensures Permutes(order[..p] + order[p + 1..], n - 1)
  {
    var rest := order[..p] + order[p + 1..];
    assert forall k :: 0 <= k < |rest| ==> rest[k] == order[if k < p then k else k + 1];
  }

  /** What is visited, with and without the last test. */
  lemma {:induction false} VisitedApart(tests: seq<string>, order: seq<int>, p: nat)
    requires Permutes(order, |tests|) && p < |tests| && order[p] == |tests| - 1
    requires Permutes(order[..p] + order[p + 1..], |tests| - 1)
    ensures var v := Visited(tests, order);
            && v == v[..p] + [tests[|tests| - 1]] + v[p + 1..]
            && Visited(tests[..|tests| - 1], order[..p] + order[p + 1..]) == v[..p] + v[p + 1..]
  {
    var rest := order[..p] + order[p + 1..];
    assert forall k :: 0 <= k < |rest| ==> rest[k] == order[if k < p then k else k + 1];
  }

  lemma {:induction false} PutBack(tests: seq<string>, v: seq<string>, w: seq<string>, p: nat)
    requires |tests| > 0 && p < |v| && v == v[..p] + [tests[|tests| - 1]] + v[p + 1..] && w == v[..p] + v[p + 1..]
    requires multiset(w) == multiset(tests[..|tests| - 1])
    ensures multiset(v) == multiset(tests)
  {
    var x := tests[|tests| - 1];
    assert tests == tests[..|tests| - 1] + [x];
    assert multiset(v) == multiset(v[..p]) + multiset{x} + multiset(v[p + 1..]);
  }

  /** Where a permutation has its largest index. */
  lemma {:induction false} FindLargest(order: seq<int>, n: nat) returns (p: nat)
    requires Permutes(order, n) && n > 0
    ensures p < n && order[p] == n - 1 && Permutes(order[..p] + order[p + 1..], n - 1)
  {
    PermutesSurjective(order, n, n - 1);
    p :| 0 <= p < n && order[p] == n - 1;
    DropLargest(order, n, p);
  }

  /** A permutation visits every test once. */
  lemma {:induction false} VisitsAll(tests: seq<string>, order: seq<int>)
    requires Permutes(order, |tests|)
    ensures multiset(Visited(tests, order)) == multiset(tests)
    decreases |tests|
  {
    var n := |tests|;
    if n == 0 {
      assert Visited(tests, order) == tests;
    } else {
      hide Permutes, Visited;
      var p := FindLargest(order, n);
      var rest := order[..p] + order[p + 1..];
      VisitsAll(tests[..n - 1], rest);
      VisitedApart(tests, order, p);
      PutBack(tests, Visited(tests, order), Visited(tests[..n - 1], rest), p);
    }
  }

  /** The tests that a case of the run visits are those registered for it, each once. */
  ghost predicate CaseVisits(c: TestCase, contents: map<string, seq<string>>) {
    && Permutes(c.order, |c.tests|) && c.name in contents
    && multiset(Visited(c.tests, c.order)) == multiset(contents[c.name])
  }

  lemma {:induction false} RunVisits(cases: seq<TestCase>, run: seq<TestCase>, contents: map<string, seq<string>>)
    requires CasesOk(cases) && Filed(cases, contents) && forall c :: c in cases <==> c in run
    ensures forall k :: 0 <= k < |run| ==> CaseVisits(run[k], contents)
    ensures TestsInOrder(cases) ==>
      forall k :: 0 <= k < |run| ==>
        CaseVisits(run[k], contents) && Visited(run[k].tests, run[k].order) == contents[run[k].name]
  {
    forall k | 0 <= k < |run|
      ensures CaseVisits(run[k], contents)
      ensures TestsInOrder(cases) ==> Visited(run[k].tests, run[k].order) == contents[run[k].name]
    {
      assert run[k] in cases;
      var i :| 0 <= i < |cases| && cases[i] == run[k];
      VisitsAll(run[k].tests, run[k].order);
    }
  }

  /** Any run of registrations, shuffles and unshuffles: every registered case runs exactly once, death
      cases before the others, and in it every registered test exactly once; when the run ends
      unshuffled, cases and tests are in the order of registration. */
  method RunOps(ops: seq<Op>) returns (run: seq<TestCase>)
    requires Disciplined(ops)
    ensures forall name :: name in FirstSeen(ops, |ops|) <==> name in Names(run)
    ensures forall j, k :: 0 <= j < k < |run| ==> run[j].name != run[k].name
    ensures forall j, k :: 0 <= j < k < |run| && IsDeath(DEATH_FILTER, run[k].name) ==>
              IsDeath(DEATH_FILTER, run[j].name)
    ensures forall k :: 0 <= k < |run| ==> CaseVisits(run[k], Registered(ops, |ops|))
    ensures !ShuffledAfter(ops, |ops|) ==>
      var names := FirstSeen(ops, |ops|);
      Names(run) == Select(DEATH_FILTER, names, true) + Select(DEATH_FILTER, names, false)
    ensures !ShuffledAfter(ops, |ops|) ==>
      forall k :: 0 <= k < |run| ==>
        && CaseVisits(run[k], Registered(ops, |ops|))
        && Visited(run[k].tests, run[k].order) == Registered(ops, |ops|)[run[k].name]
  {
    var u := new UnitTestImpl();
    for k := 0 to |ops|
      invariant u.Valid() && fresh(u) && u.filter == DEATH_FILTER
      invariant u.registered == FirstSeen(ops, k) && u.contents == Registered(ops, k)
      invariant !ShuffledAfter(ops, k) ==> u.Unshuffled()
    {
      match ops[k]
      case Register(caseName, test) => u.AddTest(caseName, test);
      case Shuffle => u.ShuffleTests();
      case Unshuffle => u.UnshuffleTests();
    }
    ExecutionOrder(u.filter, u.cases, u.indices, u.lastDeath);
    run := Execution(u.cases, u.indices);
    NamesOfRun(u.filter, u.cases, run, u.registered);
    RunVisits(u.cases, run, u.contents);
    if !ShuffledAfter(ops, |ops|) {
      UnshuffledOrder(u.filter, u.cases, u.registered);
    }
  }

  lemma {:induction false} NamesOfRun(filter: string, cases: seq<TestCase>, run: seq<TestCase>, registered: seq<string>)
    requires Names(cases) == Select(filter, registered, true) + Select(filter, registered, false)
    requires forall c :: c in cases <==> c in run
    ensures forall name :: name in registered <==> name in Names(run)
  {
    forall name ensures name in registered <==> name in Names(run) {
      RegisteredAreNames(filter, cases, registered, name);
      if name in Names(cases) {
        var i :| 0 <= i < |cases| && Names(cases)[i] == name;
        assert cases[i] in run;
        var k :| 0 <= k < |run| && run[k] == cases[i];
        assert Names(run)[k] == name;
      }
      if name in Names(run) {
        var k :| 0 <= k < |run| && Names(run)[k] == name;
        assert run[k] in cases;
        var i :| 0 <= i < |cases| && cases[i] == run[k];
        assert Names(cases)[i] == name;
      }
    }
  }
}
