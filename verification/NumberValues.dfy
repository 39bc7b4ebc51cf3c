/**
 What the text of a number denotes (section 6 of RFC 8259), part by part: sign, integer digits, fraction
 and exponent. The comparisons of packages/core/knowledge-base/form-taxonomy.ts:373-377 are on these values.
 */
module NumberValues {
  import opened JsStrings
  import opened Json
  import opened FieldPaths

  const POINT: CodeUnit := 0x2E

  /** `x` with its point moved `places` to the right, or to the left if that is negative. */
  function Moved(x: real, places: int): (r: real)
    decreases if places < 0 then -places else places
  {
    if places == 0 then x else if places > 0 then Moved(x * 10.0, places - 1) else Moved(x / 10.0, places + 1)
  }

  /** A digit string in base ten, its first digit counting most. */
  function Base10(s: JsString): (r: nat)
    requires AllDigits(s)
    decreases |s|
  {
    if s == [] then 0 else Base10(s[..|s| - 1]) * 10 + (s[|s| - 1] - 0x30)
  }

  predicate IsDigits(s: JsString) {
    s != [] && AllDigits(s)
  }

  /** Integer digits as JSON has them: no leading zero but in 0 itself. */
  predicate IsInteger(s: JsString) {
    IsDigits(s) && (s[0] == 0x30 ==> |s| == 1)
  }

  lemma TenMore(x: real, t: real)
    requires t > 0.0
    ensures x * 10.0 * t == x * (10.0 * t) && x / 10.0 / t == x / (10.0 * t)
  {
    var q := x / 10.0 / t;
    assert q * t == x / 10.0;
    assert q * (10.0 * t) == q * t * 10.0 == x;
  }

  lemma {:induction false} MovedIsPow10(x: real, n: nat)
    ensures Moved(x, n) == x * Pow10(n) && Moved(x, 0 - n) == x / Pow10(n)
    decreases n
  {
    if n == 0 {
    } else {
      MovedIsPow10(x * 10.0, n - 1);
      MovedIsPow10(x / 10.0, n - 1);
      TenMore(x, Pow10(n - 1));
    }
  }

  lemma ScaledIsMoved(digits: nat, exponent: int)
    ensures Scaled(digits, exponent) == Moved(digits as real, exponent)
  {
    MovedIsPow10(digits as real, if exponent >= 0 then exponent else -exponent);
  }

  lemma ValueIsScaled(s: JsString, digits: nat, exponent: int)
    requires IsIntFracExp(s) && UnsignedDigits(s) == digits && UnsignedExponent(s) == exponent
    ensures UnsignedValue(s) == Scaled(digits, exponent)
  {
  }

  lemma ValueIsMoved(s: JsString, digits: nat, exponent: int)
    requires IsIntFracExp(s) && UnsignedDigits(s) == digits && UnsignedExponent(s) == exponent
    ensures UnsignedValue(s) == Moved(digits as real, exponent)
  {
    ValueIsScaled(s, digits, exponent);
    ScaledIsMoved(digits, exponent);
  }

  lemma {:induction false} Base10IsValue(s: JsString)
    requires AllDigits(s)
    ensures Base10(s) == DigitsValue(s)
    decreases |s|
  {
    if s == [] {
    } else {
      Base10IsValue(s[..|s| - 1]);
    }
  }

  lemma {:induction false} DigitRunOf(d: JsString, t: JsString)
    requires AllDigits(d) && (t == [] || !IsDigit(t[0]))
    ensures DigitRun(d + t) == |d| && (d + t)[..|d|] == d && (d + t)[|d|..] == t
  {
    if d == [] {
      assert d + t == t;
    } else {
      assert (d + t)[1..] == d[1..] + t;
      DigitRunOf(d[1..], t);
    }
  }

  /** What stands before the digits of an exponent, and its sign. */
  predicate IsMark(mark: JsString, negative: bool) {
    if negative then mark == Text("e-") || mark == Text("E-")
    else mark == Text("e") || mark == Text("E") || mark == Text("e+") || mark == Text("E+")
  }

  lemma Marks(mark: JsString, negative: bool, x: JsString)
    requires IsMark(mark, negative) && IsDigits(x)
    ensures var s := mark + x;
            && IsExp(s) && s != [] && !IsDigit(s[0]) && s[0] != POINT
            && ExponentValue(s) == if negative then -(Base10(x) as int) else Base10(x)
  {
    var s := mark + x;
    Base10IsValue(x);
    if |mark| == 2 {
      assert s[2..] == x;
      assert s[1] == mark[1];
    } else {
      assert s[1..] == x;
      assert IsDigit(s[1]) by {
        assert s[1] == x[0];
      }
    }
  }

  /** Integer digits alone, or followed by an exponent. */
  lemma IntegerValue(d: JsString, exponent: JsString)
    requires IsInteger(d) && IsExp(exponent) && (exponent == [] || !IsDigit(exponent[0]))
    requires exponent == [] || exponent[0] != POINT
    ensures IsIntFracExp(d + exponent)
    ensures UnsignedDigits(d + exponent) == Base10(d) && UnsignedExponent(d + exponent) == ExponentValue(exponent)
  {
    DigitRunOf(d, exponent);
    Base10IsValue(d);
  }

  lemma FractionParts(d: JsString, f: JsString, exponent: JsString)
    requires IsInteger(d) && IsDigits(f) && IsExp(exponent) && (exponent == [] || !IsDigit(exponent[0]))
    ensures var tail := [POINT] + (f + exponent);
            var s := d + tail;
            && DigitRun(s) == |d| && s[..|d|] == d && s[|d|..] == tail
            && DigitRun(tail[1..]) == |f| && tail[1..][..|f|] == f && tail[1 + |f|..] == exponent
            && IsIntFracExp(s)
  {
    var tail := [POINT] + (f + exponent);
    DigitRunOf(d, tail);
    assert tail[1..] == f + exponent;
    DigitRunOf(f, exponent);
    assert tail[1 + |f|..] == exponent;
  }

  /** Integer digits, a point, fraction digits and perhaps an exponent. */
  lemma FractionValue(d: JsString, f: JsString, exponent: JsString)
    requires IsInteger(d) && IsDigits(f) && IsExp(exponent) && (exponent == [] || !IsDigit(exponent[0]))
    ensures var s := d + ([POINT] + (f + exponent));
            && IsIntFracExp(s) && AllDigits(d + f)
            && UnsignedDigits(s) == Base10(d + f) && UnsignedExponent(s) == ExponentValue(exponent) - |f|
  {
    FractionParts(d, f, exponent);
    Base10IsValue(d + f);
  }

  /** The text of a number without its sign. */
  function NumberText(d: JsString, f: JsString, exponent: JsString): (r: JsString) {
    d + ((if f == [] then [] else [POINT] + f) + exponent)
  }

  predicate IsExponent(exponent: JsString, e: int) {
    && IsExp(exponent) && (exponent != [] ==> !IsDigit(exponent[0]) && exponent[0] != POINT)
    && ExponentValue(exponent) == e
  }

  lemma ValueWithExponent(d: JsString, f: JsString, exponent: JsString, e: int)
    requires IsInteger(d) && AllDigits(f) && IsExponent(exponent, e)
    ensures AllDigits(d + f) && IsIntFracExp(NumberText(d, f, exponent))
    ensures UnsignedDigits(NumberText(d, f, exponent)) == Base10(d + f)
    ensures UnsignedExponent(NumberText(d, f, exponent)) == e - |f|
  {
    if f == [] {
      IntegerValue(d, exponent);
      assert d + f == d && [] + exponent == exponent;
    } else {
      FractionValue(d, f, exponent);
      Assoc([POINT], f, exponent);
    }
  }

  /** The mark and the digits of an exponent, or nothing. */
  predicate IsExponentText(mark: JsString, negative: bool, x: JsString) {
    (mark == [] && x == [] && !negative) || (IsMark(mark, negative) && IsDigits(x))
  }

  /** The exponent that such a text gives. */
  function Exponent(negative: bool, x: JsString): (r: int)
    requires AllDigits(x)
  {
    if negative then 0 - Base10(x) else Base10(x)
  }

  lemma ExponentOf(mark: JsString, negative: bool, x: JsString)
    requires IsExponentText(mark, negative, x)
    ensures IsExponent(mark + x, Exponent(negative, x))
  {
    if mark != [] {
      Marks(mark, negative, x);
    }
  }

  lemma PartsOfNumber(d: JsString, f: JsString, mark: JsString, negative: bool, x: JsString)
    requires IsInteger(d) && AllDigits(f) && IsExponentText(mark, negative, x)
    ensures var t := NumberText(d, f, mark + x);
            && AllDigits(d + f) && IsIntFracExp(t) && IsDigit(t[0])
            && UnsignedDigits(t) == Base10(d + f) && UnsignedExponent(t) == Exponent(negative, x) - |f|
  {
    ExponentOf(mark, negative, x);
    ValueWithExponent(d, f, mark + x, Exponent(negative, x));
    assert NumberText(d, f, mark + x)[0] == d[0];
  }

  lemma SignedValue(minus: bool, t: JsString, digits: nat, exponent: int)
    requires IsIntFracExp(t) && IsDigit(t[0]) && UnsignedDigits(t) == digits && UnsignedExponent(t) == exponent
    ensures var s := (if minus then Text("-") else []) + t;
            var value := Moved(digits as real, exponent);
            IsNumber(s) && NumberValue(s) == if minus then -value else value
  {
    ValueIsMoved(t, digits, exponent);
    if minus {
      assert (Text("-") + t)[1..] == t;
    } else {
      assert [] + t == t;
    }
  }

  /**
   A number `d` or `d.f`, with a sign and an exponent or without: its digits in base ten, the point moved
   to the left over the digits of `f` and then by the exponent.
   */
  lemma NumberTextValue(minus: bool, d: JsString, f: JsString, mark: JsString, negative: bool, x: JsString)
    requires IsInteger(d) && AllDigits(f) && IsExponentText(mark, negative, x)
    ensures AllDigits(d + f)
    ensures var s := (if minus then Text("-") else []) + NumberText(d, f, mark + x);
            var value := Moved(Base10(d + f) as real, Exponent(negative, x) - |f|);
            IsNumber(s) && NumberValue(s) == if minus then -value else value
  {
    PartsOfNumber(d, f, mark, negative, x);
    SignedValue(minus, NumberText(d, f, mark + x), Base10(d + f), Exponent(negative, x) - |f|);
  }
}
