/** Counting decimal digits: by leading zeros and a table of powers, and by repeated division. */
module CountDigits {
  import opened Decimal

  const POWERS_OF_10_32: seq<nat> := [
    0, 10, 100, 1000, 10000, 100000, 1000000, 10000000, 100000000, 1000000000]

  const POWERS_OF_10_64: seq<nat> := [
    0, 10, 100, 1000, 10000, 100000, 1000000, 10000000, 100000000, 1000000000,
    10000000000, 100000000000, 1000000000000, 10000000000000, 100000000000000, 1000000000000000,
    10000000000000000, 100000000000000000, 1000000000000000000, 10000000000000000000]

  function Pow2(k: nat): (p: nat)
    ensures p > 0
  {
    if k == 0 then 1 else 2 * Pow2(k - 1)
  }

  /** Position of the highest one bit, counted from 1. */
  function BitLength(n: nat): (b: nat)
    requires n > 0
    ensures b > 0 && Pow2(b - 1) <= n < Pow2(b)
  {
    if n == 1 then 1 else BitLength(n / 2) + 1
  }

  /** `__builtin_clz` of a non-zero number of the given width. */
  function LeadingZeros(n: nat, width: nat): (z: nat)
    requires 0 < n < Pow2(width)
    ensures z < width && Pow2(width - z - 1) <= n < Pow2(width - z)
  {
    BitLengthBound(n, width);
    width - BitLength(n)
  }

  lemma {:induction false} Pow2Monotone(a: nat, b: nat)
    requires a <= b
    ensures Pow2(a) <= Pow2(b)
    decreases b - a
  {
    if a < b {
      Pow2Monotone(a, b - 1);
    }
  }

  lemma {:induction false} BitLengthBound(n: nat, width: nat)
    requires 0 < n < Pow2(width)
    ensures BitLength(n) <= width
  {
    if BitLength(n) > width {
      Pow2Monotone(width, BitLength(n) - 1);
    }
  }

  /** `n | 1`. */
  function OrOne(n: nat): nat { if n % 2 == 0 then n + 1 else n }

  lemma {:induction false} OrOneFits(n: nat, width: nat)
    requires n < Pow2(width) && width > 0
    ensures 0 < OrOne(n) < Pow2(width)
  {
    assert Pow2(width) == 2 * Pow2(width - 1);
  }

  /** The table index: an estimate of the decimal logarithm. */
  function Estimate(n: nat, width: nat): nat
    requires n < Pow2(width) && width > 0
  {
    OrOneFits(n, width);
    (width - LeadingZeros(OrOne(n), width)) * 1233 / 4096
  }

  function Adjusted(n: nat, t: nat, powers: seq<nat>): int
    requires t < |powers|
  {
    t - (if n < powers[t] then 1 else 0) + 1
  }

  /** The 64-bit version; that the index is in the table is part of the claim. */
  function CountDigits64(n: nat): (count: int)
    requires n < Pow2(64)
    ensures count == |Text(n)|
  {
    EstimateBrackets(n, 64);
    TableEntry(n, Estimate(n, 64), POWERS_OF_10_64);
    Adjusted(n, Estimate(n, 64), POWERS_OF_10_64)
  }

  function CountDigits32(n: nat): (count: int)
    requires n < Pow2(32)
    ensures count == |Text(n)|
  {
    EstimateBrackets(n, 32);
    TableEntry(n, Estimate(n, 32), POWERS_OF_10_32);
    Adjusted(n, Estimate(n, 32), POWERS_OF_10_32)
  }

  /** Where the number of digits of n lies. */
  lemma {:induction false} DigitsUnique(n: nat, d: nat)
    requires d > 0 && n < Pow10(d) && (d > 1 ==> Pow10(d - 1) <= n)
    ensures |Text(n)| == d
  {
    TextLength(n);
    var k := |Text(n)|;
    if k < d {
      Pow10Monotone(k, d - 1);
    } else if n > 0 && k > d {
      Pow10Monotone(d, k - 1);
    }
  }

  lemma {:induction false} Pow2Three(k: nat)
    ensures Pow2(k + 3) == 8 * Pow2(k)
  {
    assert Pow2(k + 3) == 2 * Pow2(k + 2) && Pow2(k + 2) == 2 * Pow2(k + 1);
  }

  lemma {:induction false} Pow2Ten(k: nat)
    ensures Pow2(k + 10) == 1024 * Pow2(k)
  {
    Pow2Three(k);
    Pow2Three(k + 3);
    Pow2Three(k + 6);
    assert Pow2(k + 10) == 2 * Pow2(k + 9);
  }

  lemma {:induction false} Pow10Three(k: nat)
    ensures Pow10(k + 3) == 1000 * Pow10(k)
  {
    assert Pow10(k + 3) == 10 * Pow10(k + 2) && Pow10(k + 2) == 10 * Pow10(k + 1);
  }

  /** 1024 against 1000: ten binary digits are a little more than three decimal ones, and q times that
      little is still little. */
  lemma {:induction false} Ladder(q: nat)
    requires q <= 40
    ensures Pow10(3 * q) <= Pow2(10 * q)
    ensures Pow2(10 * q) * (1000 - 24 * q) <= 1000 * Pow10(3 * q)
  {
    if q > 0 {
      Ladder(q - 1);
      Pow2Ten(10 * (q - 1));
      Pow10Three(3 * (q - 1));
      var a, b := Pow2(10 * (q - 1)), Pow10(3 * (q - 1));
      assert a * (1000 - 24 * (q - 1)) <= 1000 * b;
      assert 1024 * (1000 - 24 * q) <= 1000 * (1000 - 24 * (q - 1));
      LadderStep(a, b, 1000 - 24 * q, 1000 - 24 * (q - 1));
    }
  }

  lemma {:induction false} LadderStep(a: nat, b: nat, x: nat, y: nat)
    requires a * y <= 1000 * b && 1024 * x <= 1000 * y
    ensures (1024 * a) * x <= 1000 * (1000 * b)
  {
    assert (1024 * a) * x == a * (1024 * x);
    assert a * (1024 * x) <= a * (1000 * y);
    assert a * (1000 * y) == 1000 * (a * y);
  }

  /** Bit lengths up to this one have at most t + 1 decimal digits. */
  function Rung(t: nat): nat { 3 + 3 * t + t / 3 }

  lemma {:induction false} RungBetween(t: nat)
    requires t <= 20
    ensures Pow10(t) <= Pow2(Rung(t)) <= Pow10(t + 1)
  {
    var q, r := t / 3, t % 3;
    Ladder(q);
    LadderSlack(Pow2(10 * q), Pow10(3 * q), q);
    RungAt(10 * q, 3 * q, r);
    assert Rung(t) == 10 * q + 3 * r + 3 && t == 3 * q + r;
  }

  lemma {:induction false} RungAt(x: nat, y: nat, r: nat)
    requires r < 3 && Pow10(y) <= Pow2(x) && 856 * Pow2(x) <= 1000 * Pow10(y)
    ensures Pow10(y + r) <= Pow2(x + 3 * r + 3) <= Pow10(y + r + 1)
  {
    Pow2Three(x);
    if r > 0 {
      Pow2Three(x + 3);
      assert Pow10(y + 1) == 10 * Pow10(y);
    }
    if r == 2 {
      Pow2Three(x + 6);
      assert Pow10(y + 2) == 10 * Pow10(y + 1);
    }
  }

  lemma {:induction false} LadderSlack(a: nat, b: nat, q: nat)
    requires q <= 6 && a * (1000 - 24 * q) <= 1000 * b
    ensures 856 * a <= 1000 * b
  {
    assert a * 856 <= a * (1000 - 24 * q);
  }

  lemma {:induction false} RungChosen(bl: nat)
    requires 0 < bl <= 64
    ensures var t := bl * 1233 / 4096;
            && t <= 19 && (bl <= 32 ==> t <= 9)
            && bl <= Rung(t) && (t > 0 ==> Rung(t - 1) <= bl - 1)
  {
  }

  /** The multiplier 1233/4096 picks the right rung for every bit length up to 64. */
  lemma {:induction false} Interleave(bl: nat)
    requires 0 < bl <= 64
    ensures var t := bl * 1233 / 4096;
            && t <= 19 && (bl <= 32 ==> t <= 9)
            && Pow2(bl) <= Pow10(t + 1) && (t > 0 ==> Pow10(t - 1) <= Pow2(bl - 1))
  {
    hide Pow2, Pow10;
    var t := bl * 1233 / 4096;
    RungChosen(bl);
    RungBetween(t);
    Pow2Monotone(bl, Rung(t));
    if t > 0 {
      RungBetween(t - 1);
      Pow2Monotone(Rung(t - 1), bl - 1);
    }
  }

  /** The estimate is the number of digits or one less. */
  lemma {:induction false} EstimateBrackets(n: nat, width: nat)
    requires 0 < width <= 64 && n < Pow2(width)
    ensures var t := Estimate(n, width);
            && t <= 19 && (width <= 32 ==> t <= 9)
            && n < Pow10(t + 1) && (t > 0 ==> Pow10(t - 1) <= n)
  {
    OrOneFits(n, width);
    var bl := width - LeadingZeros(OrOne(n), width);
    Interleave(bl);
    OrOneFloor(n, bl);
  }

  /** Setting the lowest bit does not change the bit length, except that of zero. */
  lemma {:induction false} OrOneFloor(n: nat, bl: nat)
    requires bl > 0 && Pow2(bl - 1) <= OrOne(n) < Pow2(bl)
    ensures n < Pow2(bl) && (bl > 1 ==> Pow2(bl - 1) <= n)
  {
    if bl > 1 {
      assert Pow2(bl - 1) == 2 * Pow2(bl - 2);
    }
  }

  /** With the right table entry the estimate is corrected exactly. */
  lemma {:induction false} TableEntry(n: nat, t: nat, powers: seq<nat>)
    requires n < Pow10(t + 1) && (t > 0 ==> Pow10(t - 1) <= n)
    requires t < |powers| <= |POWERS_OF_10_64| && powers == POWERS_OF_10_64[..|powers|]
    ensures Adjusted(n, t, powers) == |Text(n)|
  {
    PowersAreRight(t);
    if t > 0 && n < Pow10(t) {
      DigitsUnique(n, t);
    } else {
      DigitsUnique(n, t + 1);
    }
  }

  lemma {:induction false} PowersAreRight(t: nat)
    requires t < |POWERS_OF_10_64|
    ensures POWERS_OF_10_64[t] == if t == 0 then 0 else Pow10(t)
  {
    if t > 1 {
      PowersAreRight(t - 1);
      assert POWERS_OF_10_64[t] == 10 * POWERS_OF_10_64[t - 1];
    }
  }

  /** The fallback without leading zeros: four digits a turn. */
  method CountDigitsFallback(n: nat) returns (count: nat)
    ensures count == |Text(n)|
  {
    var m := n;
    count := 1;
    while true
      invariant |Text(n)| == |Text(m)| + count - 1
      decreases m
    {
      FourDigits(m);
      if m < 10 { return count; }
      if m < 100 { return count + 1; }
      if m < 1000 { return count + 2; }
      if m < 10000 { return count + 3; }
      m := m / 10000;
      count := count + 4;
    }
  }

  lemma {:induction false} FourDigits(m: nat)
    ensures m < 10 ==> |Text(m)| == 1
    ensures 10 <= m < 100 ==> |Text(m)| == 2
    ensures 100 <= m < 1000 ==> |Text(m)| == 3
    ensures 1000 <= m < 10000 ==> |Text(m)| == 4
    ensures m >= 10000 ==> |Text(m)| == |Text(m / 10000)| + 4
  {
    if m >= 10 {
      assert |Text(m)| == |Text(m / 10)| + 1;
      if m >= 100 {
        assert |Text(m / 10)| == |Text(m / 10 / 10)| + 1 && m / 10 / 10 == m / 100;
        if m >= 1000 {
          assert |Text(m / 100)| == |Text(m / 100 / 10)| + 1 && m / 100 / 10 == m / 1000;
          if m >= 10000 {
            assert |Text(m / 1000)| == |Text(m / 1000 / 10)| + 1 && m / 1000 / 10 == m / 10000;
          }
        }
      }
    }
  }
}
