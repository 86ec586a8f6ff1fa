/**
  The sanitiser that the material editor runs on every price and quantity edit
  (app/page.tsx, updateMaterial): delete every character outside the class
  [0-9.], then reject the edit when more than one decimal point is left.
 */
module Sanitizer {
  import opened Wrappers

  predicate IsDigit(c: char) { '0' <= c <= '9' }

  /** The character class [0-9.] that the sanitiser keeps. */
  predicate IsNumericChar(c: char) { IsDigit(c) || c == '.' }

  predicate AllDigits(s: string) { forall i :: 0 <= i < |s| ==> IsDigit(s[i]) }

  predicate AllNumericChars(s: string) { forall i :: 0 <= i < |s| ==> IsNumericChar(s[i]) }

  /** The number of matches of /\./g, zero when there is no match. */
  function DotCount(s: string): nat
  {
    if s == [] then 0 else (if s[0] == '.' then 1 else 0) + DotCount(s[1..])
  }

  /** Dot counts add up over a concatenation. */
  lemma {:induction false} DotCountAppend(a: string, b: string)
    ensures DotCount(a + b) == DotCount(a) + DotCount(b)
  {
    if a == [] {
      assert a + b == b;
    } else {
      assert (a + b)[1..] == a[1..] + b;
      DotCountAppend(a[1..], b);
    }
  }

  /** A string has no '.' exactly when its dot count is zero. */
  lemma {:induction false} DotCountZero(s: string)
    ensures DotCount(s) == 0 <==> '.' !in s
  {
    if s != [] {
      DotCountZero(s[1..]);
      assert s == [s[0]] + s[1..];
    }
  }

  /** What a stored price or quantity may look like: only [0-9.] and at most one '.'. */
  predicate ValidNumeric(s: string) { AllNumericChars(s) && DotCount(s) <= 1 }

  /**
    `value.replace(/[^0-9.]/g, '')`: the result holds only characters of the
    class and is never longer than the input.
   */
  function Sanitize(s: string): (r: string)
    ensures AllNumericChars(r)
    ensures |r| <= |s|
  {
    if s == [] then []
    else (if IsNumericChar(s[0]) then [s[0]] else []) + Sanitize(s[1..])
  }

  /** The sanitiser keeps every '.', so it never changes the dot count. */
  lemma {:induction false} SanitizeKeepsDots(s: string)
    ensures DotCount(Sanitize(s)) == DotCount(s)
  {
    if s != [] {
      SanitizeKeepsDots(s[1..]);
      DotCountAppend(if IsNumericChar(s[0]) then [s[0]] else [], Sanitize(s[1..]));
    }
  }

  /** The sanitiser keeps every character of the class as often as the input holds it, and drops the rest. */
  lemma {:induction false} SanitizeCounts(s: string, c: char)
    ensures multiset(Sanitize(s))[c] == if IsNumericChar(c) then multiset(s)[c] else 0
  {
    if s != [] {
      assert s == [s[0]] + s[1..];
      SanitizeCounts(s[1..], c);
    }
  }

  /** Sanitising a concatenation sanitises each part: the kept characters stay in order. */
  lemma {:induction false} SanitizeAppend(a: string, b: string)
    ensures Sanitize(a + b) == Sanitize(a) + Sanitize(b)
  {
    if a != [] {
      assert (a + b)[0] == a[0];
      assert (a + b)[1..] == a[1..] + b;
      SanitizeAppend(a[1..], b);
    } else {
      assert a + b == b;
    }
  }

  /** A string is left unchanged by the sanitiser exactly when it has only characters of the class. */
  lemma {:induction false} SanitizeFixedPoints(s: string)
    ensures Sanitize(s) == s <==> AllNumericChars(s)
  {
    if s != [] && AllNumericChars(s) {
      assert AllNumericChars(s[1..]) by {
        forall i | 0 <= i < |s[1..]| ensures IsNumericChar(s[1..][i]) { assert s[1..][i] == s[i + 1]; }
      }
      SanitizeFixedPoints(s[1..]);
      assert s == [s[0]] + s[1..];
    }
  }

  /** The sanitiser is idempotent. */
  lemma SanitizeIdempotent(s: string)
    ensures Sanitize(Sanitize(s)) == Sanitize(s)
  {
    SanitizeFixedPoints(Sanitize(s));
  }

  /**
    The price/quantity part of updateMaterial: sanitise the raw value, and
    reject it (None) when the sanitised text has more than one '.'.
    Because the sanitiser keeps every '.', the edit is rejected exactly when
    the raw value itself holds two or more dots, and an accepted value is
    always a valid stored number.
   */
  function SanitizeEdit(value: string): (r: Option<string>)
    ensures r.Some? <==> DotCount(value) <= 1
    ensures r.Some? ==> ValidNumeric(r.value) && r.value == Sanitize(value)
  {
    var sanitized := Sanitize(value);
    SanitizeKeepsDots(value);
    if DotCount(sanitized) > 1 then None else Some(sanitized)
  }

  /** A string of class characters without a '.' is all digits; a string of digits has no '.'. */
  lemma DigitsHaveNoDot(s: string)
    ensures AllDigits(s) <==> AllNumericChars(s) && DotCount(s) == 0
  {
    DotCountZero(s);
    if AllDigits(s) {
      assert '.' !in s;
    }
  }

  /**
    Valid stored numbers are exactly the strings matching ^[0-9]*\.?[0-9]*$:
    all digits, or digits, one '.', digits.
   */
  lemma ValidNumericIsPattern(s: string)
    ensures ValidNumeric(s) <==>
      (AllDigits(s) ||
       exists k :: 0 <= k < |s| && s[k] == '.' && AllDigits(s[..k]) && AllDigits(s[k + 1..]))
  {
    DigitsHaveNoDot(s);
    if ValidNumeric(s) && !AllDigits(s) {
      var k :| 0 <= k < |s| && !IsDigit(s[k]);
      SplitAtDot(s, k);
    }
    if exists k :: 0 <= k < |s| && s[k] == '.' && AllDigits(s[..k]) && AllDigits(s[k + 1..]) {
      var k :| 0 <= k < |s| && s[k] == '.' && AllDigits(s[..k]) && AllDigits(s[k + 1..]);
      SplitAtDot(s, k);
    }
  }

  /** Splitting a string at a '.' splits its dot count and its character class. */
  lemma SplitAtDot(s: string, k: nat)
    requires k < |s| && s[k] == '.'
    ensures DotCount(s) == DotCount(s[..k]) + 1 + DotCount(s[k + 1..])
    ensures AllNumericChars(s) <==> AllNumericChars(s[..k]) && AllNumericChars(s[k + 1..])
    ensures ValidNumeric(s) <==> AllDigits(s[..k]) && AllDigits(s[k + 1..])
  {
    var head, tail := s[..k], s[k + 1..];
    assert s == head + ([s[k]] + tail);
    DotCountAppend(head, [s[k]] + tail);
    if AllNumericChars(s) {
      forall i | 0 <= i < |head| ensures IsNumericChar(head[i]) { assert head[i] == s[i]; }
      forall i | 0 <= i < |tail| ensures IsNumericChar(tail[i]) { assert tail[i] == s[k + 1 + i]; }
    }
    if AllNumericChars(head) && AllNumericChars(tail) {
      forall i | 0 <= i < |s| ensures IsNumericChar(s[i]) {
        if i < k { assert s[i] == head[i]; }
        else if i > k { assert s[i] == tail[i - k - 1]; }
      }
    }
    DigitsHaveNoDot(head);
    DigitsHaveNoDot(tail);
  }

  /** An edit of "12.3.4" is rejected. */
  lemma RejectsSecondDot()
    ensures SanitizeEdit("12.3.4") == None
  {
  }

  /** Stray characters are dropped from an accepted edit. */
  lemma DropsStrayCharacters()
    ensures SanitizeEdit("1,2a3.50") == Some("123.50")
  {
    assert Sanitize("1,2a3.50") == "123.50";
  }
}
