/**
  `parseFloat(text) || 0` as the profit summary uses it (app/page.tsx,
  calculateProfit), over exact rationals instead of IEEE doubles.
  parseFloat reads the longest prefix of the text that is a decimal literal
  (an optional sign, digits, an optional '.' and more digits, with at least
  one digit) and yields NaN when there is none; `|| 0` turns NaN into 0.
  The literal is read left to right, one character at a time.
 */
module Decimal {
  import opened Wrappers
  import opened Sanitizer

  function DigitValue(c: char): (d: nat)
    requires IsDigit(c)
    ensures d < 10
  {
    c as int - '0' as int
  }

  function Pow10(n: nat): (p: nat)
    ensures p >= 1
  {
    if n == 0 then 1 else 10 * Pow10(n - 1)
  }

  /** True when an unsigned decimal literal starts the text: a digit, or a '.' followed by a digit. */
  predicate StartsNumber(s: string)
  {
    (|s| > 0 && IsDigit(s[0])) || (|s| > 1 && s[0] == '.' && IsDigit(s[1]))
  }

  /**
    Reading the integer part: `whole` is the value of the digits read so far
    and `seen` says whether there was one. A '.' moves on to the fraction;
    anything else ends the literal. The result is NaN (None) exactly when no
    digit was seen and none follows.
   */
  function ScanWhole(s: string, whole: nat, seen: bool): (r: Option<real>)
    ensures r.None? <==> !seen && !StartsNumber(s)
    ensures r.Some? ==> r.value >= 0.0
  {
    if s != [] && IsDigit(s[0]) then ScanWhole(s[1..], whole * 10 + DigitValue(s[0]), true)
    else if s != [] && s[0] == '.' then ScanFraction(s[1..], whole, 0, 0, seen)
    else if seen then Some(whole as real)
    else None
  }

  /**
    Reading the fraction: `digits` is the value of the `count` fraction
    digits read so far. The first non-digit ends the literal, whose value is
    whole + digits / 10^count.
   */
  function ScanFraction(s: string, whole: nat, digits: nat, count: nat, seen: bool): (r: Option<real>)
    ensures r.None? <==> !seen && !(|s| > 0 && IsDigit(s[0]))
    ensures r.Some? ==> r.value >= 0.0
  {
    if s != [] && IsDigit(s[0]) then ScanFraction(s[1..], whole, digits * 10 + DigitValue(s[0]), count + 1, true)
    else if seen then Some(whole as real + digits as real / Pow10(count) as real)
    else None
  }

  /** parseFloat: an optional sign before the unsigned literal. */
  function ParseFloat(s: string): (r: Option<real>)
    ensures r.None? <==>
      if |s| > 0 && (s[0] == '-' || s[0] == '+') then !StartsNumber(s[1..]) else !StartsNumber(s)
  {
    if |s| > 0 && (s[0] == '-' || s[0] == '+') then
      match ScanWhole(s[1..], 0, false)
      case None => None
      case Some(v) => Some(if s[0] == '-' then -v else v)
    else ScanWhole(s, 0, false)
  }

  /** `parseFloat(s) || 0`: NaN (and zero) become 0. A text made of [0-9.] never parses negative. */
  function Parse(s: string): (r: real)
    ensures ParseFloat(s).None? ==> r == 0.0
    ensures AllNumericChars(s) ==> r >= 0.0
  {
    match ParseFloat(s)
    case None => 0.0
    case Some(v) => v
  }

  /** Text with no leading number, even after a sign, counts as 0: "", ".", "-", ".x", "..5", "+x". */
  lemma ParseDefaultsToZero(s: string)
    requires !StartsNumber(s) && !(|s| > 0 && (s[0] == '-' || s[0] == '+') && StartsNumber(s[1..]))
    ensures Parse(s) == 0.0
  {
  }

  // An independent reading of a valid stored number: all its digits as one
  // integer, scaled down by the number of digits after the '.'.

  /** The value of a string of decimal digits, most significant first; it has |ds| digits at most. */
  function DigitsValue(ds: string): (v: nat)
    requires AllDigits(ds)
    ensures v < Pow10(|ds|)
  {
    if ds == [] then 0
    else
      var init := ds[..|ds| - 1];
      assert AllDigits(init) by {
        forall i | 0 <= i < |init| ensures IsDigit(init[i]) { assert init[i] == ds[i]; }
      }
      var v := DigitsValue(init);
      var d := DigitValue(ds[|ds| - 1]);
      assert v * 10 + d < Pow10(|ds|) by {
        assert v <= Pow10(|init|) - 1;
        assert v * 10 <= Pow10(|init|) * 10 - 10;
      }
      v * 10 + d
  }

  function RemoveDots(s: string): (r: string)
    ensures AllNumericChars(s) ==> AllDigits(r)
  {
    if s == [] then []
    else (if s[0] == '.' then [] else [s[0]]) + RemoveDots(s[1..])
  }

  /** The number of characters after the first '.', or 0 when there is none. */
  function FractionLength(s: string): nat
  {
    if s == [] then 0 else if s[0] == '.' then |s| - 1 else FractionLength(s[1..])
  }

  function ExactValue(s: string): real
    requires ValidNumeric(s)
  {
    DigitsValue(RemoveDots(s)) as real / Pow10(FractionLength(s)) as real
  }

  lemma {:induction false} DigitsValueAppend(a: string, b: string)
    requires AllDigits(a) && AllDigits(b)
    ensures AllDigits(a + b)
    ensures DigitsValue(a + b) == DigitsValue(a) * Pow10(|b|) + DigitsValue(b)
  {
    assert AllDigits(a + b) by {
      forall i | 0 <= i < |a + b| ensures IsDigit((a + b)[i]) {
        if i < |a| { assert (a + b)[i] == a[i]; } else { assert (a + b)[i] == b[i - |a|]; }
      }
    }
    if b == [] {
      assert a + b == a;
    } else {
      var init := b[..|b| - 1];
      assert AllDigits(init) by {
        forall i | 0 <= i < |init| ensures IsDigit(init[i]) { assert init[i] == b[i]; }
      }
      assert (a + b)[..|a + b| - 1] == a + init;
      assert (a + b)[|a + b| - 1] == b[|b| - 1];
      DigitsValueAppend(a, init);
      var d := DigitValue(b[|b| - 1]);
      assert DigitsValue(a + b) == DigitsValue(a + init) * 10 + d;
      assert DigitsValue(b) == DigitsValue(init) * 10 + d;
      assert Pow10(|b|) == Pow10(|init|) * 10;
      ShiftDigit(DigitsValue(a), Pow10(|init|), DigitsValue(init), d);
    }
  }

  /** The first digit of a digit string weighs 10^(n-1). */
  lemma LeadingDigitWeight(ds: string)
    requires ds != [] && AllDigits(ds)
    ensures AllDigits(ds[1..])
    ensures DigitsValue(ds) == DigitValue(ds[0]) * Pow10(|ds| - 1) + DigitsValue(ds[1..])
  {
    var first, rest := [ds[0]], ds[1..];
    assert ds == first + rest;
    assert AllDigits(rest) by {
      forall i | 0 <= i < |rest| ensures IsDigit(rest[i]) { assert rest[i] == ds[i + 1]; }
    }
    assert DigitsValue(first) == DigitValue(ds[0]) by { assert first[..0] == []; }
    DigitsValueAppend(first, rest);
  }

  lemma ShiftDigit(x: nat, p: nat, y: nat, d: nat)
    ensures (x * p + y) * 10 + d == x * (p * 10) + (y * 10 + d)
  {
  }

  /** Shifting one more leading digit d into w: the weights line up. */
  lemma WeightStep(w: nat, d: nat, p: nat, v: nat, p': nat, v': nat)
    requires p' == 10 * p && v' == d * p + v
    ensures (w * 10 + d) * p + v == w * p' + v'
  {
  }

  /** (m * n + q) / n == m + q / n, read in the reals. */
  lemma DivideOut(v: nat, m: nat, n: nat, q: nat)
    requires v == m * n + q && n > 0
    ensures v as real / n as real == m as real + q as real / n as real
  {
    assert v as real == (m as real) * (n as real) + q as real;
  }

  /** A leading digit is shifted into the integer part. */
  lemma WholeDigitStep(s: string, whole: nat, seen: bool)
    requires s != [] && IsDigit(s[0])
    ensures ScanWhole(s, whole, seen) == ScanWhole(s[1..], whole * 10 + DigitValue(s[0]), true)
  {
  }

  /** A leading digit is shifted into the fraction and counted. */
  lemma FractionDigitStep(s: string, whole: nat, digits: nat, count: nat, seen: bool)
    requires s != [] && IsDigit(s[0])
    ensures ScanFraction(s, whole, digits, count, seen) ==
      ScanFraction(s[1..], whole, digits * 10 + DigitValue(s[0]), count + 1, true)
  {
  }

  /** Reading a run of integer digits a shifts them into `whole`. */
  lemma {:induction false} ScanWholeDigits(a: string, t: string, whole: nat, seen: bool)
    requires AllDigits(a)
    ensures ScanWhole(a + t, whole, seen) == ScanWhole(t, whole * Pow10(|a|) + DigitsValue(a), seen || a != [])
  {
    if a == [] {
      assert a + t == t;
    } else {
      LeadingDigitWeight(a);
      var d, rest := DigitValue(a[0]), a[1..];
      WholeDigitStep(a + t, whole, seen);
      assert (a + t)[1..] == rest + t;
      ScanWholeDigits(rest, t, whole * 10 + d, true);
      WeightStep(whole, d, Pow10(|rest|), DigitsValue(rest), Pow10(|a|), DigitsValue(a));
    }
  }

  /** Reading a run of fraction digits b shifts them into `digits` and counts them. */
  lemma {:induction false} ScanFractionDigits(b: string, t: string, whole: nat, digits: nat, count: nat, seen: bool)
    requires AllDigits(b)
    ensures ScanFraction(b + t, whole, digits, count, seen) ==
      ScanFraction(t, whole, digits * Pow10(|b|) + DigitsValue(b), count + |b|, seen || b != [])
  {
    if b == [] {
      assert b + t == t;
    } else {
      LeadingDigitWeight(b);
      var d, rest := DigitValue(b[0]), b[1..];
      FractionDigitStep(b + t, whole, digits, count, seen);
      assert (b + t)[1..] == rest + t;
      ScanFractionDigits(rest, t, whole, digits * 10 + d, count + 1, true);
      WeightStep(digits, d, Pow10(|rest|), DigitsValue(rest), Pow10(|b|), DigitsValue(b));
    }
  }

  lemma {:induction false} DigitPrefix(a: string, t: string)
    requires AllDigits(a)
    ensures RemoveDots(a + t) == a + RemoveDots(t)
    ensures FractionLength(a + t) == FractionLength(t)
  {
    if a == [] {
      assert a + t == t;
    } else {
      assert (a + t)[1..] == a[1..] + t;
      DigitPrefix(a[1..], t);
      assert a == [a[0]] + a[1..];
    }
  }

  /** Removing the one '.' of `a.b` leaves a + b, and b is the fraction. */
  lemma DotSplitDigits(a: string, b: string)
    requires AllDigits(a) && AllDigits(b)
    ensures RemoveDots(a + ("." + b)) == a + b
    ensures FractionLength(a + ("." + b)) == |b|
  {
    var t := "." + b;
    DigitPrefix(a, t);
    assert t[0] == '.' && t[1..] == b;
    assert RemoveDots(t) == RemoveDots(b);
    DigitPrefix(b, []);
    assert b + [] == b;
  }

  lemma ExactValueOfSplit(s: string, a: string, b: string)
    requires ValidNumeric(s) && AllDigits(a) && AllDigits(b)
    requires RemoveDots(s) == a + b && FractionLength(s) == |b|
    ensures ExactValue(s) == DigitsValue(a) as real + DigitsValue(b) as real / Pow10(|b|) as real
  {
    DigitsValueAppend(a, b);
    var n := Pow10(|b|);
    assert ExactValue(s) == DigitsValue(a + b) as real / n as real;
    DivideOut(DigitsValue(a + b), DigitsValue(a), n, DigitsValue(b));
  }

  lemma ParseExactWithoutDot(s: string)
    requires AllDigits(s)
    ensures ValidNumeric(s) && Parse(s) == ExactValue(s)
  {
    DigitsHaveNoDot(s);
    ScanWholeDigits(s, [], 0, false);
    assert s + [] == s;
    DigitPrefix(s, []);
  }

  lemma ParseExactWithDot(s: string, k: nat)
    requires k < |s| && s[k] == '.' && AllDigits(s[..k]) && AllDigits(s[k + 1..])
    ensures ValidNumeric(s) && Parse(s) == ExactValue(s)
  {
    SplitAtDot(s, k);
    var a, b := s[..k], s[k + 1..];
    assert s == a + ("." + b);
    ScanDigitsDotDigits(a, b);
    DotSplitDigits(a, b);
    ExactValueOfSplit(s, a, b);
    if a == [] && b == [] {
      assert Parse(s) == 0.0;
    } else {
      assert Parse(s) == DigitsValue(a) as real + DigitsValue(b) as real / Pow10(|b|) as real;
    }
  }

  /** Reading `a.b` ends with a as the integer part and b as the fraction. */
  lemma ScanDigitsDotDigits(a: string, b: string)
    requires AllDigits(a) && AllDigits(b)
    ensures ScanWhole(a + ("." + b), 0, false) == ScanFraction([], DigitsValue(a), DigitsValue(b), |b|, a != [] || b != [])
  {
    var w, t := DigitsValue(a), "." + b;
    ScanWholeFromZero(a, t);
    DotStep(b, w, a != []);
    ScanFractionFromZero(b, w, a != []);
  }

  /** Reading a run of integer digits from the start leaves their value as the integer part. */
  lemma ScanWholeFromZero(a: string, t: string)
    requires AllDigits(a)
    ensures ScanWhole(a + t, 0, false) == ScanWhole(t, DigitsValue(a), a != [])
  {
    ScanWholeDigits(a, t, 0, false);
    ZeroShift(Pow10(|a|), DigitsValue(a));
  }

  /** Reading a whole fraction from its start leaves its digits' value and count. */
  lemma ScanFractionFromZero(b: string, w: nat, seen: bool)
    requires AllDigits(b)
    ensures ScanFraction(b, w, 0, 0, seen) == ScanFraction([], w, DigitsValue(b), |b|, seen || b != [])
  {
    ScanFractionDigits(b, [], w, 0, 0, seen);
    assert b + [] == b;
    ZeroShift(Pow10(|b|), DigitsValue(b));
  }

  lemma ZeroShift(p: nat, v: nat)
    ensures 0 * p + v == v
  {
  }

  /** A '.' ends the integer part and starts the fraction. */
  lemma DotStep(b: string, w: nat, seen: bool)
    ensures ScanWhole("." + b, w, seen) == ScanFraction(b, w, 0, 0, seen)
  {
    assert ("." + b)[0] == '.' && ("." + b)[1..] == b;
  }

  /**
    On a valid stored number (only [0-9.], at most one '.') parseFloat reads
    the whole text, and `parseFloat(s) || 0` is its exact decimal value;
    "" and "." give 0.
   */
  lemma ParseIsExactOnValidNumbers(s: string)
    requires ValidNumeric(s)
    ensures Parse(s) == ExactValue(s)
  {
    ValidNumericIsPattern(s);
    if AllDigits(s) {
      ParseExactWithoutDot(s);
    } else {
      var k :| 0 <= k < |s| && s[k] == '.' && AllDigits(s[..k]) && AllDigits(s[k + 1..]);
      ParseExactWithDot(s, k);
    }
  }

  /** A non-empty run of digits parses as the integer it spells. */
  lemma ParseNatural(s: string)
    requires s != [] && AllDigits(s)
    ensures Parse(s) == DigitsValue(s) as real
  {
    ScanWholeDigits(s, [], 0, false);
    assert s + [] == s;
  }

  /** A sign is honoured and trailing text after the literal is ignored. */
  lemma ParseSignedPrefix()
    ensures Parse("-3.25x") == -3.25
  {
    assert "-3.25x"[1..] == "3.25x";
    ScanWholeDigits("3", ".25x", 0, false);
    assert "3.25x" == "3" + ".25x";
    ScanFractionDigits("25", "x", 3, 0, 0, true);
    assert ".25x"[1..] == "25" + "x";
    assert DigitsValue("25") == 25;
  }
}
