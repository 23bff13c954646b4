/** The text of a result, read back by the calculator, gives the same text: which
    results this holds for, and which it does not. */
module CalcFixedPoint {
  import opened Digits
  import opened CalcMachine
  import opened CalcLayout
  import opened CalcNumbers
  import CalcCorrect

  const ROOM: nat := BUFFER - 1

  function Sign(negative: bool): string {
    if negative then "-" else ""
  }

  /** What the buffer of calc_expression holds of "%.10f". */
  function Clipped(negative: bool, n: nat): string {
    Truncate(Sign(negative) + UnitsText(n), ROOM)
  }

  function Shown(negative: bool, n: nat): string {
    var s := Clipped(negative, n);
    Trimmed(Sanitized(s), HasDecimals(s))
  }

  /** Digits before and behind the point as a result can show them. */
  predicate IsShown(negative: bool, d: string, f: string) {
    && d != [] && AllDigits(d) && AllDigits(f)
    && (|d| > 1 ==> d[0] != '0')
    && (f != [] ==> f[|f| - 1] != '0')
    && |Sign(negative)| + |d| <= ROOM
    && |f| <= DecimalsRoom(negative, d)
  }

  /** How many decimals fit into the buffer. */
  function DecimalsRoom(negative: bool, d: string): nat {
    var left := ROOM - |Sign(negative)| - |d| - 1;
    if left < 0 then 0 else if left < 10 then left else 10
  }

  function ShownText(negative: bool, d: string, f: string): string {
    NumberText(negative, d, f != [], f)
  }

  /** The units of 10^-10 that the digits shown stand for. */
  function ShownUnits(d: string, f: string): nat
    requires AllDigits(d) && AllDigits(f) && |f| <= 10
  {
    Natural(d) * SCALE + Natural(f) * Pow10(10 - |f|)
  }

  lemma DigitsArePlain(negative: bool, d: string)
    requires AllDigits(d)
    ensures Plain(Sign(negative) + d) && Plain(d)
  {
  }

  /** Digits only, when the buffer is full before the point. */
  lemma TrimDigits(negative: bool, d: string)
    requires d != [] && AllDigits(d)
    ensures var s := Sign(negative) + d;
      Trimmed(Sanitized(s), HasDecimals(s)) == s
  {
    var s := Sign(negative) + d;
    DigitsArePlain(negative, d);
    SanitizedPlain(s);
    assert s[|s| - 1] == d[|d| - 1];
  }

  /** Digits, a point and decimals. */
  lemma TrimPoint(a: string, g: string)
    requires Plain(a) && AllDigits(g)
    ensures var s := a + "." + g;
      Trimmed(Sanitized(s), HasDecimals(s)) == a + (if Significant(g) == [] then "" else "." + Significant(g))
  {
    DigitsArePlain(false, g);
    SanitizedPoint(a, g);
    TrimmedDecimals(a, g);
  }

  lemma TrimNumber(negative: bool, d: string, g: string)
    requires AllDigits(d) && AllDigits(g)
    ensures var s := Sign(negative) + d + "." + g;
      Trimmed(Sanitized(s), HasDecimals(s)) == ShownText(negative, d, Significant(g))
  {
    DigitsArePlain(negative, d);
    TrimPoint(Sign(negative) + d, g);
    ShownParts(negative, d, Significant(g));
  }

  lemma ShownParts(negative: bool, d: string, f: string)
    ensures ShownText(negative, d, f) == Sign(negative) + d + (if f == [] then "" else "." + f)
  {
  }

  /** The clipped text, in terms of the digits before and behind the point. */
  lemma ClippedText(negative: bool, ints: string, frac: string)
    requires |frac| == 10
    ensures var s := Truncate(Sign(negative) + (ints + "." + frac), ROOM);
      if |Sign(negative)| + |ints| >= ROOM then s == Sign(negative) + ints[..ROOM - |Sign(negative)|]
      else s == Sign(negative) + ints + "." + frac[..DecimalsRoom(negative, ints)]
  {
    var full := Sign(negative) + (ints + "." + frac);
    assert full == Sign(negative) + ints + "." + frac;
    var k := |Sign(negative)| + |ints|;
    if k < ROOM {
      var j := DecimalsRoom(negative, ints);
      assert |full| == k + 11;
      assert full[..k + 1 + j] == Sign(negative) + ints + "." + frac[..j];
      assert frac[..10] == frac;
    }
  }

  /** What d and f have to be for the value of n units to show them. */
  ghost predicate Shows(negative: bool, n: nat, d: string, f: string) {
    && IsShown(negative, d, f)
    && Shown(negative, n) == ShownText(negative, d, f)
    && SameUnits(negative, n, d, f)
  }

  /** The digits shown are zero only for zero, and exact if nothing was cut off. */
  ghost predicate SameUnits(negative: bool, n: nat, d: string, f: string)
    requires AllDigits(d) && AllDigits(f) && |f| <= 10
  {
    && (ShownUnits(d, f) == 0 <==> n == 0)
    && (|Sign(negative) + UnitsText(n)| <= ROOM ==> ShownUnits(d, f) == n)
  }

  lemma NonZeroUnits(d: string, f: string)
    requires d != [] && AllDigits(d) && AllDigits(f) && |f| <= 10 && d[0] != '0'
    ensures ShownUnits(d, f) > 0
  {
    NaturalTextOf(d);
    Pow10Positive(10 - |f|);
  }

  /** A value so large that the buffer ends before the point. */
  lemma ShowsDigitsOnly(negative: bool, n: nat)
    requires |Sign(negative)| + |NaturalText(n / SCALE)| >= ROOM
    ensures Shows(negative, n, NaturalText(n / SCALE)[..ROOM - |Sign(negative)|], "")
  {
    var ints := NaturalText(n / SCALE);
    var d := ints[..ROOM - |Sign(negative)|];
    NaturalTextRead(n / SCALE);
    NoLeadingZero(n / SCALE);
    assert d[0] == ints[0];
    NonZeroUnits(d, "");
    DigitsOnlyText(negative, n);
    assert n > 0;
  }

  lemma DigitsOnlyText(negative: bool, n: nat)
    requires |Sign(negative)| + |NaturalText(n / SCALE)| >= ROOM
    ensures Shown(negative, n) == ShownText(negative, NaturalText(n / SCALE)[..ROOM - |Sign(negative)|], "")
    ensures |Sign(negative) + UnitsText(n)| > ROOM
  {
    var ints := NaturalText(n / SCALE);
    var d := ints[..ROOM - |Sign(negative)|];
    NaturalTextRead(n / SCALE);
    ClippedText(negative, ints, Padded(n % SCALE, 10));
    TrimDigits(negative, d);
    assert ShownText(negative, d, "") == Sign(negative) + d;
  }

  lemma PointDigits(negative: bool, n: nat)
    requires |Sign(negative)| + |NaturalText(n / SCALE)| < ROOM
    ensures var d, g := NaturalText(n / SCALE), Padded(n % SCALE, 10)[..DecimalsRoom(negative, NaturalText(n / SCALE))];
      AllDigits(g) && AllDigits(d) && AllDigits(Significant(g)) && IsShown(negative, d, Significant(g))
  {
    var d := NaturalText(n / SCALE);
    NaturalTextRead(n / SCALE);
    NoLeadingZero(n / SCALE);
    PaddedRead(n % SCALE, 10);
    SignificantFacts(Padded(n % SCALE, 10)[..DecimalsRoom(negative, d)]);
  }

  lemma PointText(negative: bool, n: nat)
    requires |Sign(negative)| + |NaturalText(n / SCALE)| < ROOM
    ensures var d, g := NaturalText(n / SCALE), Padded(n % SCALE, 10)[..DecimalsRoom(negative, NaturalText(n / SCALE))];
      && AllDigits(g) && AllDigits(d) && AllDigits(Significant(g))
      && Shown(negative, n) == ShownText(negative, d, Significant(g))
      && IsShown(negative, d, Significant(g))
  {
    var d := NaturalText(n / SCALE);
    PointDigits(negative, n);
    ClippedText(negative, d, Padded(n % SCALE, 10));
    TrimNumber(negative, d, Padded(n % SCALE, 10)[..DecimalsRoom(negative, d)]);
  }

  /** A value all of whose decimals fit. */
  lemma ShowsAllDecimals(negative: bool, n: nat)
    requires |Sign(negative)| + |NaturalText(n / SCALE)| < ROOM
    requires DecimalsRoom(negative, NaturalText(n / SCALE)) == 10
    ensures Shows(negative, n, NaturalText(n / SCALE), Significant(Padded(n % SCALE, 10)))
  {
    var g := Padded(n % SCALE, 10);
    PointText(negative, n);
    assert g[..10] == g;
    AllUnits(n);
  }

  lemma AllUnits(n: nat)
    ensures var d, f := NaturalText(n / SCALE), Significant(Padded(n % SCALE, 10));
      AllDigits(d) && AllDigits(f) && |f| <= 10 && ShownUnits(d, f) == n
  {
    NaturalTextRead(n / SCALE);
    PaddedRead(n % SCALE, 10);
    ScaleIsPow10();
    SignificantUnits(Padded(n % SCALE, 10));
  }

  /** A value some of whose decimals are cut off. */
  lemma ShowsSomeDecimals(negative: bool, n: nat)
    requires |Sign(negative)| + |NaturalText(n / SCALE)| < ROOM
    requires DecimalsRoom(negative, NaturalText(n / SCALE)) < 10
    ensures Shows(negative, n, NaturalText(n / SCALE),
                  Significant(Padded(n % SCALE, 10)[..DecimalsRoom(negative, NaturalText(n / SCALE))]))
  {
    var d := NaturalText(n / SCALE);
    var f := Significant(Padded(n % SCALE, 10)[..DecimalsRoom(negative, d)]);
    PointText(negative, n);
    NoLeadingZero(n / SCALE);
    NonZeroUnits(d, f);
    assert n > 0;
  }

  /** The digits that a value shows. */
  lemma ShownDigits(negative: bool, n: nat) returns (d: string, f: string)
    ensures Shows(negative, n, d, f)
  {
    var ints, g := NaturalText(n / SCALE), Padded(n % SCALE, 10);
    PaddedRead(n % SCALE, 10);
    if |Sign(negative)| + |ints| >= ROOM {
      ShowsDigitsOnly(negative, n);
      d, f := ints[..ROOM - |Sign(negative)|], "";
    } else if DecimalsRoom(negative, ints) == 10 {
      ShowsAllDecimals(negative, n);
      d, f := ints, Significant(g);
    } else {
      ShowsSomeDecimals(negative, n);
      d, f := ints, Significant(g[..DecimalsRoom(negative, ints)]);
    }
  }

  lemma {:induction false} NoLeadingZero(n: nat)
    ensures |NaturalText(n)| > 1 ==> NaturalText(n)[0] != '0'
  {
    NaturalTextRead(n);
  }

  /** Dropping zeros behind the point does not change the value. */
  lemma SignificantUnits(g: string)
    requires AllDigits(g) && |g| == 10
    ensures var f := Significant(g);
      AllDigits(f) && |f| <= 10 && Natural(f) * Pow10(10 - |f|) == Natural(g)
  {
    SignificantFacts(g);
    NaturalOfZeros(Significant(g), 10 - |Significant(g)|);
  }

  // ----- and back again

  lemma {:induction false} ZerosPrefix(a: nat, b: nat)
    requires a <= b
    ensures |Zeros(b)| == b && Zeros(b)[..a] == Zeros(a)
  {
    ZerosAreDigits(b);
    if a < b {
      ZerosPrefix(a, b - 1);
      assert Zeros(b)[..a] == Zeros(b - 1)[..a];
    } else {
      assert Zeros(b)[..b] == Zeros(b);
    }
  }

  lemma DivideUnits(a: nat, b: nat)
    requires b < SCALE
    ensures (a * SCALE + b) / SCALE == a && (a * SCALE + b) % SCALE == b
  {
  }

  /** Decimals filled up with zeros. */
  lemma FilledDecimals(f: string, z: nat, m: nat)
    requires AllDigits(f) && |f| + z == 10
    requires m == Natural(f) * Pow10(z)
    ensures m < SCALE && Padded(m, 10) == f + Zeros(z)
  {
    ZerosAreDigits(z);
    NaturalOfZeros(f, z);
    PaddedOf(f + Zeros(z));
    ScaleIsPow10();
  }

  lemma SplitUnits(d: string, g: string, a: nat, m: nat, n: nat)
    requires n == a * SCALE + m && m < SCALE
    requires NaturalText(a) == d && Padded(m, 10) == g
    ensures NaturalText(n / SCALE) == d && Padded(n % SCALE, 10) == g
  {
    DivideUnits(a, m);
  }

  lemma FallApart(d: string, f: string, z: nat, a: nat, m: nat, n: nat)
    requires d != [] && AllDigits(d) && AllDigits(f) && |f| + z == 10
    requires |d| > 1 ==> d[0] != '0'
    requires a == Natural(d) && m == Natural(f) * Pow10(z) && n == a * SCALE + m
    ensures NaturalText(n / SCALE) == d && Padded(n % SCALE, 10) == f + Zeros(z)
  {
    FilledDecimals(f, z, m);
    NaturalTextOf(d);
    SplitUnits(d, f + Zeros(z), a, m, n);
  }

  /** The units of the digits shown fall apart into the same digits again. */
  lemma UnitsOfShown(d: string, f: string, n: nat)
    requires d != [] && AllDigits(d) && AllDigits(f) && |f| <= 10
    requires |d| > 1 ==> d[0] != '0'
    requires n == ShownUnits(d, f)
    ensures NaturalText(n / SCALE) == d
    ensures Padded(n % SCALE, 10) == f + Zeros(10 - |f|)
  {
    FallApart(d, f, 10 - |f|, Natural(d), Natural(f) * Pow10(10 - |f|), n);
  }

  lemma CutZeros(f: string, z: nat, room: nat)
    requires |f| <= room <= |f| + z
    ensures |f + Zeros(z)| == |f| + z && (f + Zeros(z))[..room] == f + Zeros(room - |f|)
  {
    ZerosPrefix(room - |f|, z);
  }

  lemma ShownOfDecimals(negative: bool, n: nat, d: string, f: string, z: nat)
    requires IsShown(negative, d, f) && |Sign(negative)| + |d| < ROOM
    requires z == 10 - |f|
    requires NaturalText(n / SCALE) == d && Padded(n % SCALE, 10) == f + Zeros(z)
    ensures Shown(negative, n) == ShownText(negative, d, f)
  {
    var room := DecimalsRoom(negative, d);
    PointText(negative, n);
    CutZeros(f, z, room);
    SignificantOf(f, room - |f|);
  }

  lemma ShownOf(negative: bool, d: string, f: string, n: nat)
    requires IsShown(negative, d, f) && n == ShownUnits(d, f)
    ensures Shown(negative, n) == ShownText(negative, d, f)
  {
    UnitsOfShown(d, f, n);
    if |Sign(negative)| + |d| >= ROOM {
      ShowsDigitsOnly(negative, n);
      assert d[..|d|] == d;
    } else {
      ShownOfDecimals(negative, n, d, f, 10 - |f|);
    }
  }

  lemma FractionScaled(a: nat, b: nat, k: nat)
    requires k <= 10
    ensures Pow10(k) > 0
    ensures (a as real + b as real / Pow10(k) as real) * SCALE as real == (a * SCALE + b * Pow10(10 - k)) as real
  {
    Pow10Positive(k);
    Pow10Sum(k, 10 - k);
    ScaleIsPow10();
    var p, q := Pow10(k) as real, Pow10(10 - k) as real;
    assert SCALE as real == p * q;
    assert b as real / p * (p * q) == b as real * q;
  }

  /** The value of the digits shown is a whole number of units. */
  lemma UnitsOfDecimal(negative: bool, d: string, f: string)
    requires AllDigits(d) && AllDigits(f) && |f| <= 10
    ensures Units(Decimal(negative, d, f)) == ShownUnits(d, f)
    ensures Decimal(negative, d, f) < 0.0 <==> negative && ShownUnits(d, f) > 0
    ensures Decimal(negative, d, f) * SCALE as real == (if negative then -1.0 else 1.0) * ShownUnits(d, f) as real
  {
    FractionScaled(Natural(d), Natural(f), |f|);
    var v, n := Decimal(false, d, f), ShownUnits(d, f);
    assert v * SCALE as real == n as real;
    assert (n as real).Floor == n;
    assert v >= 0.0;
    assert v == 0.0 <==> n == 0;
    assert Abs(Decimal(negative, d, f)) == v;
  }

  /** Reading the text of a result. */
  lemma ReadShown(pow: Power, negative: bool, d: string, f: string)
    requires IsShown(negative, d, f)
    ensures Result(pow, ShownText(negative, d, f)) == Decimal(negative, d, f)
  {
    var e := Number(0, negative, d, f != [], f);
    CalcCorrect.EvaluatorCorrect(pow, e, 0);
    assert Text(e) + Spaces(0) == ShownText(negative, d, f);
  }

  lemma FormatShows(v: real)
    ensures Format(v, BUFFER) == Shown(v < 0.0, Units(v))
  {
  }

  /** What the calculator makes of the text of a result. */
  lemma ReadBack(pow: Power, v: real)
    ensures var w := Result(pow, Format(v, BUFFER));
      && (Units(w) == 0 <==> Units(v) == 0)
      && (w < 0.0 <==> v < 0.0 && Units(v) > 0)
      && (v < 0.0 || Units(v) == 0 || w > 0.0)
      && Shown(v < 0.0, Units(w)) == Format(v, BUFFER)
      && (|Fixed10(v)| <= ROOM ==>
            && Units(w) == Units(v)
            && w * SCALE as real == (if v < 0.0 then -1.0 else 1.0) * Units(v) as real)
  {
    var negative, n := v < 0.0, Units(v);
    var d, f := ShownDigits(negative, n);
    ReadShown(pow, negative, d, f);
    UnitsOfDecimal(negative, d, f);
    ShownOf(negative, d, f, ShownUnits(d, f));
  }

  lemma MinusZero(negative: bool)
    ensures Shown(negative, 0) == Sign(negative) + "0"
  {
    assert ShownUnits("0", "") == 0;
    ShownOf(negative, "0", "", 0);
  }

  lemma MinusZeroResult(pow: Power)
    ensures Result(pow, "-0") == 0.0
  {
    assert ShownText(true, "0", "") == "-0";
    ReadShown(pow, true, "0", "");
    UnitsOfDecimal(true, "0", "");
    assert Decimal(true, "0", "") == 0.0;
  }

  lemma MinusZeroRead(pow: Power)
    ensures Answer(pow, "-0") == "0"
  {
    MinusZeroResult(pow);
    MinusZero(false);
    FormatShows(0.0);
  }

  lemma MinusZeroShown(pow: Power, v: real)
    requires v < 0.0 && Units(v) == 0
    ensures Format(v, BUFFER) == "-0" && Answer(pow, "-0") == "0"
  {
    FormatShows(v);
    MinusZero(true);
    MinusZeroRead(pow);
  }

  lemma OthersReadBack(pow: Power, v: real)
    requires v >= 0.0 || Units(v) > 0
    ensures Answer(pow, Format(v, BUFFER)) == Format(v, BUFFER)
  {
    ReadBack(pow, v);
    FormatShows(Result(pow, Format(v, BUFFER)));
  }

  /** A result, given to the calculator again, comes back unchanged, for every
      value and however long its text: the one exception is a negative value
      that rounds to zero, which is shown as "-0" and read as 0. */
  lemma ResultsAreFixedPoints(pow: Power, v: real)
    ensures Answer(pow, Format(v, BUFFER)) == Format(v, BUFFER) <==> !(v < 0.0 && Units(v) == 0)
    ensures v < 0.0 && Units(v) == 0 ==> Format(v, BUFFER) == "-0" && Answer(pow, "-0") == "0"
  {
    if v < 0.0 && Units(v) == 0 {
      MinusZeroShown(pow, v);
    } else {
      OthersReadBack(pow, v);
    }
  }

  /** A value that is a whole number of units, and short enough for the buffer,
      is read back exactly. */
  lemma ExactlyReadBack(pow: Power, v: real, n: int)
    requires v == n as real / SCALE as real
    requires |Fixed10(v)| <= ROOM
    ensures Result(pow, Format(v, BUFFER)) == v
  {
    ReadBack(pow, v);
    assert v * SCALE as real == n as real;
    var m := if n < 0 then -n else n;
    assert Abs(v) * SCALE as real == m as real;
    assert (m as real).Floor == m;
    assert Units(v) == m;
  }

  /** Calculating the text of an answer gives that text again. */
  lemma AnswersAreFixedPoints(pow: Power, expr: string)
    ensures Answer(pow, Answer(pow, expr)) == Answer(pow, expr) <==> Answer(pow, expr) != "-0"
  {
    var v := Result(pow, expr);
    ResultsAreFixedPoints(pow, v);
    MinusZeroRead(pow);
    MinusZero(true);
    FormatShows(v);
  }

  lemma TinyValue()
    ensures AllDigits("0") && AllDigits("00000000001")
    ensures var v := Decimal(true, "0", "00000000001"); v < 0.0 && Units(v) == 0
  {
    var z := "00000000001";
    ZerosAreDigits(10);
    assert z == Zeros(10) + "1";
    assert z[..10] == "" + Zeros(10);
    NaturalOfZeros("", 10);
    assert Natural(z) == 1;
    ScaleIsPow10();
    assert Pow10(11) == 10 * SCALE;
    assert Decimal(true, "0", z) == -(1.0 / (10 * SCALE) as real);
    assert Abs(Decimal(true, "0", z)) * SCALE as real == 0.1;
  }

  /** The exception exists: a text whose result is "-0". */
  lemma MinusZeroIsAnswered(pow: Power)
    ensures Answer(pow, "-0.00000000001") == "-0"
  {
    TinyValue();
    var e := Number(0, true, "0", true, "00000000001");
    CalcCorrect.EvaluatorCorrect(pow, e, 0);
    assert Text(e) + Spaces(0) == "-0.00000000001";
    MinusZeroShown(pow, Decimal(true, "0", "00000000001"));
  }

  /** A result ends with a digit, and not with a zero if it has decimals. */
  lemma NoTrailingZero(v: real)
    ensures var s := Format(v, BUFFER);
      s != "" && IsDigit(s[|s| - 1]) && ('.' in s ==> s[|s| - 1] != '0')
  {
    var d, f := ShownDigits(v < 0.0, Units(v));
    FormatShows(v);
    ShownParts(v < 0.0, d, f);
    assert f == "" ==> '.' !in Sign(v < 0.0) + d;
  }
}
