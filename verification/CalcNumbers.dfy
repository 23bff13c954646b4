/** How calc_format_result turns a value into text: "%.10f", the normalisation of
    separators and the removal of trailing zeros. */
module CalcNumbers {
  import opened CalcMachine
  import opened Digits

  // ----- "%.10f"

  const SCALE: nat := 10000000000

  lemma ScaleIsPow10()
    ensures Pow10(10) == SCALE
  {
    assert Pow10(5) == 100000;
    Pow10Sum(5, 5);
  }

  /** Rounding to the nearest integer, ties to even. */
  function RoundHalfEven(x: real): nat
    requires x >= 0.0
  {
    var f := x.Floor;
    var r := x - f as real;
    if r < 0.5 || (r == 0.5 && f % 2 == 0) then f else f + 1
  }

  function Abs(x: real): real {
    if x < 0.0 then -x else x
  }

  /** The number of units of 10^-10 that a value is rounded to. */
  function Units(v: real): nat {
    RoundHalfEven(Abs(v) * SCALE as real)
  }

  function UnitsText(n: nat): string {
    NaturalText(n / SCALE) + "." + Padded(n % SCALE, 10)
  }

  /** printf's "%.10f": the sign is that of the value before rounding. */
  function Fixed10(v: real): string {
    (if v < 0.0 then "-" else "") + UnitsText(Units(v))
  }

  function Truncate(s: string, n: nat): string {
    if |s| <= n then s else s[..n]
  }

  // ----- separators

  predicate IsSeparator(c: char) {
    !IsDigit(c) && c != '-'
  }

  /** The index of the last separator, -1 if there is none. */
  function LastSeparator(s: string): (k: int)
    ensures -1 <= k < |s|
    ensures k >= 0 ==> IsSeparator(s[k])
    ensures forall i :: k < i < |s| ==> !IsSeparator(s[i])
  {
    if s == [] then -1
    else if IsSeparator(s[|s| - 1]) then |s| - 1
    else LastSeparator(s[..|s| - 1])
  }

  /** The digits and '-' of s, in order. */
  function Strip(s: string): string {
    if s == [] then ""
    else if IsSeparator(s[0]) then Strip(s[1..])
    else [s[0]] + Strip(s[1..])
  }

  predicate HasSeparator(s: string) {
    exists i :: 0 <= i < |s| && IsSeparator(s[i])
  }

  /** Whether a separator that differs from c comes in s. */
  predicate HasOther(s: string, c: char) {
    exists i :: 0 <= i < |s| && IsSeparator(s[i]) && s[i] != c
  }

  /** Whether the last separator is a decimal point: it is the only one, or one
      before it is different. */
  predicate HasDecimals(s: string) {
    var k := LastSeparator(s);
    k >= 0 && (!HasSeparator(s[..k]) || HasOther(s[..k], s[k]))
  }

  /** calc_sanitize_decimal_number: thousands separators go, the decimal
      separator becomes a point. */
  function Sanitized(s: string): string {
    var k := LastSeparator(s);
    if HasDecimals(s) then Strip(s[..k]) + "." + s[k + 1..] else Strip(s)
  }

  // ----- trailing zeros

  function Trimmed(s: string, decimals: bool): string
    decreases |s|
  {
    if s == [] then s
    else
      var c, front := s[|s| - 1], s[..|s| - 1];
      if IsSeparator(c) then front
      else if decimals && c == '0' then Trimmed(front, decimals)
      else s
  }

  /** calc_format_result with a buffer of the given size. */
  function Format(v: real, size: nat): string
    requires size > 0
  {
    var s := Truncate(Fixed10(v), size - 1);
    Trimmed(Sanitized(s), HasDecimals(s))
  }

  /** The size of calc_expression's buffer. */
  const BUFFER: nat := 64

  /** calc_expression: from the text of an expression to the text of its value. */
  function Answer(pow: Power, s: string): string {
    Format(Result(pow, s), BUFFER)
  }

  // ----- the text of a formatted value

  predicate Plain(s: string) {
    forall i :: 0 <= i < |s| ==> !IsSeparator(s[i])
  }

  lemma {:induction false} PlainHasNone(d: string)
    requires Plain(d)
    ensures LastSeparator(d) == -1
  {
    if d != [] {
      PlainHasNone(d[..|d| - 1]);
    }
  }

  lemma {:induction false} PlainIsStripped(d: string)
    requires Plain(d)
    ensures Strip(d) == d
  {
    if d != [] {
      PlainIsStripped(d[1..]);
    }
  }

  lemma {:induction false} OnePoint(a: string, b: string)
    requires Plain(b)
    ensures LastSeparator(a + "." + b) == |a|
    decreases |b|
  {
    var s := a + "." + b;
    if b != [] {
      assert s[..|s| - 1] == a + "." + b[..|b| - 1];
      OnePoint(a, b[..|b| - 1]);
    }
  }

  lemma SanitizedPlain(s: string)
    requires Plain(s)
    ensures Sanitized(s) == s && !HasDecimals(s)
  {
    PlainHasNone(s);
    PlainIsStripped(s);
  }

  /** Text whose only separator is a point is left as it is. */
  lemma SanitizedPoint(a: string, b: string)
    requires Plain(a) && Plain(b)
    ensures Sanitized(a + "." + b) == a + "." + b && HasDecimals(a + "." + b)
  {
    var s := a + "." + b;
    OnePoint(a, b);
    assert s[..|a|] == a && s[|a| + 1..] == b && s[|a|] == '.';
    PlainIsStripped(a);
  }

  /** Digits without the zeros at their end. */
  function Significant(d: string): string {
    if d == [] || d[|d| - 1] != '0' then d else Significant(d[..|d| - 1])
  }

  lemma {:induction false} SignificantFacts(d: string)
    requires AllDigits(d)
    ensures var r := Significant(d);
      && |r| <= |d| && AllDigits(r) && (r != [] ==> r[|r| - 1] != '0')
      && |Zeros(|d| - |r|)| == |d| - |r| && d == r + Zeros(|d| - |r|)
  {
    if d != [] && d[|d| - 1] == '0' {
      SignificantFacts(d[..|d| - 1]);
    }
  }

  /** Only one way to write digits as digits not ending in 0 and then zeros. */
  lemma {:induction false} SignificantOf(f: string, z: nat)
    requires f != [] ==> f[|f| - 1] != '0'
    ensures Significant(f + Zeros(z)) == f
  {
    if z == 0 {
      assert f + Zeros(0) == f;
    } else {
      assert (f + Zeros(z))[..|f + Zeros(z)| - 1] == f + Zeros(z - 1);
      SignificantOf(f, z - 1);
    }
  }

  /** Trimming the decimals: zeros at the end go, and then a point at the end. */
  lemma {:induction false} TrimmedDecimals(a: string, d: string)
    requires AllDigits(d)
    ensures Trimmed(a + "." + d, true)
         == a + (if Significant(d) == [] then "" else "." + Significant(d))
    decreases |d|
  {
    var s := a + "." + d;
    if d == [] {
      assert s[..|s| - 1] == a;
    } else {
      assert s[..|s| - 1] == a + "." + d[..|d| - 1];
      if d[|d| - 1] == '0' {
        TrimmedDecimals(a, d[..|d| - 1]);
      }
    }
  }
}
