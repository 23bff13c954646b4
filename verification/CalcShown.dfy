/** What the calculator shows of a value: digits, rounding, and separators. */
module CalcShown {
  import opened Digits
  import opened CalcMachine
  import opened CalcNumbers
  import opened CalcSanitize
  import opened CalcFixedPoint
  import CalcLayout
  import CalcCorrect
  import CalcArithmetic

  // ----- digits

  const TEN_DIGITS: string := "0123456789"

  lemma OneDigit(i: nat)
    requires i < 10
    ensures IsDigit(TEN_DIGITS[i]) && Natural([TEN_DIGITS[i]]) == i && NaturalText(i) == [TEN_DIGITS[i]]
  {
    assert [TEN_DIGITS[i]][..0] == "";
    assert TEN_DIGITS[i] as int == '0' as int + i;
  }

  lemma OnlyDigits(c: char)
    ensures IsDigit(c) <==> c in TEN_DIGITS
  {
    if IsDigit(c) {
      assert TEN_DIGITS[c as int - '0' as int] == c;
    }
  }

  lemma TenTimes(n: nat, p: nat, m: nat)
    ensures 10 * (n * p + m) == n * (10 * p) + 10 * m
  {
  }

  /** The digits in front count ten times as much for every digit behind them. */
  lemma {:induction false} PlaceValue(a: string, b: string)
    requires AllDigits(a) && AllDigits(b)
    ensures AllDigits(a + b) && Natural(a + b) == Natural(a) * Pow10(|b|) + Natural(b)
    decreases |b|
  {
    if b == [] {
      assert a + b == a;
    } else {
      var front, t := b[..|b| - 1], a + b;
      PlaceValue(a, front);
      assert t[..|t| - 1] == a + front;
      TenTimes(Natural(a), Pow10(|front|), Natural(front));
    }
  }

  // ----- rounding

  lemma Nearest(x: real)
    requires x >= 0.0
    ensures var n := RoundHalfEven(x);
      var d := x - n as real;
      -0.5 <= d <= 0.5 && (d == -0.5 || d == 0.5 ==> n % 2 == 0)
  {
  }

  /** The value that an answer is read as is within half a unit of 10^-10 of the
      value that it shows, as long as its text fits into the buffer. */
  lemma ShownNearest(pow: Power, v: real)
    requires |Fixed10(v)| <= 63
    ensures var w := Result(pow, Format(v, BUFFER));
      -0.5 <= (w - v) * 10000000000.0 <= 0.5
  {
    ReadBack(pow, v);
    Nearest(Abs(v) * SCALE as real);
    assert (Result(pow, Format(v, BUFFER)) - v) * SCALE as real
        == Result(pow, Format(v, BUFFER)) * SCALE as real - v * SCALE as real;
  }

  /** A value of few enough decimals is shown with just these. */
  lemma ShownExactly(negative: bool, d: string, f: string)
    requires IsShown(negative, d, f) && (negative ==> ShownUnits(d, f) > 0)
    ensures Format(CalcLayout.Decimal(negative, d, f), BUFFER)
         == (if negative then "-" else "") + d + (if f == "" then "" else "." + f)
  {
    UnitsOfDecimal(negative, d, f);
    ShownOf(negative, d, f, ShownUnits(d, f));
    ShownParts(negative, d, f);
    FormatShows(CalcLayout.Decimal(negative, d, f));
  }

  /** An integer that is too long for the buffer loses its last digits. */
  lemma LongInteger(n: nat)
    requires |NaturalText(n)| >= 63
    ensures Format(n as real, BUFFER) == NaturalText(n)[..63]
  {
    UnitsOfInteger(n);
    DigitsOnlyText(false, n * SCALE);
    FormatShows(n as real);
    ShownParts(false, NaturalText(n)[..63], "");
  }

  lemma UnitsOfInteger(n: nat)
    ensures Units(n as real) == n * SCALE && n * SCALE / SCALE == n
  {
    assert Abs(n as real) * SCALE as real == (n * SCALE) as real;
    assert ((n * SCALE) as real).Floor == n * SCALE;
  }

  // ----- separators

  /** What is kept, and so what a separator is. */
  lemma Separators(c: char)
    ensures IsSeparator(c) <==> c !in "0123456789-"
    ensures Strip([c]) == if c in "0123456789-" then [c] else ""
  {
    OnlyDigits(c);
    assert "0123456789-" == TEN_DIGITS + "-";
  }

  lemma {:induction false} LastIsAt(a: string, c: char, b: string)
    requires IsSeparator(c) && Plain(b)
    ensures LastSeparator(a + [c] + b) == |a|
    decreases |b|
  {
    var s := a + [c] + b;
    if b != [] {
      assert s[..|s| - 1] == a + [c] + b[..|b| - 1];
      LastIsAt(a, c, b[..|b| - 1]);
    }
  }

  /** The last separator is the decimal point if it is the only one, or if another
      one is different. */
  lemma DecimalPoint(a: string, c: char, b: string)
    requires IsSeparator(c) && Plain(b) && (Plain(a) || HasOther(a, c))
    ensures Sanitized(a + [c] + b) == Strip(a) + "." + b && HasDecimals(a + [c] + b)
  {
    var s := a + [c] + b;
    LastIsAt(a, c, b);
    assert s[..|a|] == a && s[|a| + 1..] == b && s[|a|] == c;
  }

  /** It is none if there are more and all are the same. */
  lemma ThousandsOnly(a: string, c: char, b: string)
    requires IsSeparator(c) && Plain(b) && !Plain(a) && !HasOther(a, c)
    ensures Sanitized(a + [c] + b) == Strip(a) + b && !HasDecimals(a + [c] + b)
  {
    var s := a + [c] + b;
    LastIsAt(a, c, b);
    assert s[..|a|] == a && s[|a|] == c;
    StripAround(a, c, b);
    PlainIsStripped(b);
  }

  lemma StrippedNumber(a: string, c: char, b: string)
    requires IsSeparator(c) && Plain(a) && Plain(b)
    ensures Strip(a + [c] + b) == a + b
  {
    StripAround(a, c, b);
    PlainIsStripped(a);
    PlainIsStripped(b);
  }

  /** "1,234.5" and "1.234,5" are the same number, and "1,234,567" has no decimals. */
  lemma WrittenNumbers(a: string, thousands: char, b: string, point: char, c: string)
    requires AllDigits(a) && AllDigits(b) && AllDigits(c)
    requires IsSeparator(thousands) && IsSeparator(point)
    ensures var s := a + [thousands] + b + [point] + c;
      if thousands != point then Sanitized(s) == a + b + "." + c else Sanitized(s) == a + b + c
  {
    var front := a + [thousands] + b;
    assert front[|a|] == thousands;
    StrippedNumber(a, thousands, b);
    if thousands != point {
      DecimalPoint(front, point, c);
    } else {
      ThousandsOnly(front, point, c);
    }
  }

  // ----- some answers

  lemma DigitValue(negative: bool, c: char, n: nat)
    requires IsDigit(c) && c as int == '0' as int + n
    ensures Natural([c]) == n && ShownUnits([c], "") == n * SCALE && IsShown(negative, [c], "")
    ensures CalcLayout.Decimal(negative, [c], "") == if negative then -(n as real) else n as real
  {
    assert [c][..0] == "";
  }

  lemma DigitShown(negative: bool, c: char, n: nat, v: real)
    requires IsDigit(c) && c as int == '0' as int + n && n > 0
    requires v == if negative then -(n as real) else n as real
    ensures Format(v, BUFFER) == (if negative then "-" else "") + [c]
  {
    DigitValue(negative, c, n);
    ShownExactly(negative, [c], "");
  }

  lemma FiveMinusThree(pow: Power)
    ensures Answer(pow, "5-3") == "2"
  {
    CalcArithmetic.FiveMinusThree(pow);
    DigitShown(false, '2', 2, Result(pow, "5-3"));
  }

  lemma EmptyResult(pow: Power)
    ensures Result(pow, "") == 0.0
  {
  }

  lemma ZeroShown(v: real)
    requires v == 0.0
    ensures Format(v, BUFFER) == "0"
  {
    FormatShows(v);
    MinusZero(false);
  }

  /** A text without a number is 0. */
  lemma NoNumber(pow: Power)
    ensures Answer(pow, "") == "0"
  {
    EmptyResult(pow);
    ZeroShown(Result(pow, ""));
  }
}
