/** What the calculator computes, in arithmetic: every operator, which of them bind
    more tightly, and the value of an expression, all without the evaluator. */
module CalcArithmetic {
  import opened Digits
  import opened CalcMachine
  import opened CalcLayout
  import CalcCorrect

  // ----- operators

  function Size(x: real): real {
    if x < 0.0 then -x else x
  }

  function Times(k: int, b: real): real {
    k as real * b
  }

  predicate IsProduct(a: real, b: real, r: real) {
    if b == 0.0 then r == 0.0 else r / b == a
  }

  predicate IsRatio(a: real, b: real, r: real) {
    if b == 0.0 then r == 0.0 else r * b == a
  }

  /** n is x rounded down. */
  predicate IsBelow(n: int, x: real) {
    n as real <= x < n as real + 1.0
  }

  ghost predicate IsRoundedDown(x: real, r: real) {
    exists n: int :: IsBelow(n, x) && r == n as real
  }

  ghost predicate IsWholeRatio(a: real, b: real, r: real) {
    if b == 0.0 then r == 0.0 else IsRoundedDown(a / b, r)
  }

  /** What is left of a when a multiple of b has been taken away: less than b, and
      with the sign of a. */
  ghost predicate IsRest(a: real, b: real, r: real) {
    if b == 0.0 then r == 0.0
    else
      && (exists k: int :: a == Times(k, b) + r)
      && Size(r) < Size(b)
      && (r > 0.0 ==> a > 0.0) && (r < 0.0 ==> a < 0.0)
  }

  /** r is the result of an operator; a division by zero gives 0. */
  ghost predicate Computes(pow: Power, op: string, a: real, b: real, r: real) {
    match op
    case "+" => r - b == a
    case "-" => r + b == a
    case "*" => IsProduct(a, b, r)
    case "/" => IsRatio(a, b, r)
    case "//" => IsWholeRatio(a, b, r)
    case "%" => IsRest(a, b, r)
    case "**" => r == pow(a, b)
    case _ => r == 0.0
  }

  lemma ProductExactly(a: real, b: real, r: real)
    ensures r == a * b <==> IsProduct(a, b, r)
  {
    if b != 0.0 {
      assert r / b == a ==> r == r / b * b;
    }
  }

  lemma RatioExactly(a: real, b: real, r: real)
    ensures r == (if b != 0.0 then a / b else 0.0) <==> IsRatio(a, b, r)
  {
    if b != 0.0 {
      assert r == r * b / b && a == a / b * b;
    }
  }

  lemma WholeRatioExactly(a: real, b: real, r: real)
    ensures r == (if b != 0.0 then Floor(a / b) else 0.0) <==> IsWholeRatio(a, b, r)
  {
    if b != 0.0 {
      BelowExactly(a / b, r);
    }
  }

  lemma BelowExactly(x: real, r: real)
    ensures r == Floor(x) <==> IsRoundedDown(x, r)
  {
    assert IsBelow(x.Floor, x);
    forall n: int | IsBelow(n, x) ensures n == x.Floor {
      OnlyBelow(n, x.Floor, x);
    }
  }

  lemma OnlyBelow(n: int, m: int, x: real)
    requires IsBelow(n, x) && IsBelow(m, x)
    ensures n == m
  {
    assert (n - m) as real == n as real - m as real;
    assert -1.0 < (n - m) as real < 1.0;
  }

  lemma Fraction(x: real) returns (k: int)
    ensures Truncated(x) == k as real
    ensures var f := x - k as real;
      -1.0 < f < 1.0 && (x >= 0.0 ==> f >= 0.0) && (x <= 0.0 ==> f <= 0.0)
  {
    k := if x >= 0.0 then x.Floor else -(-x).Floor;
  }

  lemma SizeOfProduct(f: real, b: real)
    requires -1.0 < f < 1.0 && b != 0.0
    ensures Size(f * b) < Size(b)
  {
    if b > 0.0 {
      assert -1.0 * b < f * b < 1.0 * b;
    } else {
      assert -1.0 * b > f * b > 1.0 * b;
    }
  }

  /** Factors of one sign, or 0, next to the same number. */
  lemma SignOfProduct(q: real, f: real, b: real)
    requires b != 0.0 && -1.0 < f < 1.0
    requires (q >= 0.0 ==> f >= 0.0) && (q <= 0.0 ==> f <= 0.0)
    ensures (f * b > 0.0 ==> q * b > 0.0) && (f * b < 0.0 ==> q * b < 0.0)
  {
    if f > 0.0 {
      assert q > 0.0;
      assert b > 0.0 ==> q * b > 0.0 && f * b > 0.0;
      assert b < 0.0 ==> q * b < 0.0 && f * b < 0.0;
    } else if f < 0.0 {
      assert q < 0.0;
      assert b > 0.0 ==> q * b < 0.0 && f * b < 0.0;
      assert b < 0.0 ==> q * b > 0.0 && f * b > 0.0;
    }
  }

  lemma SplitProduct(q: real, k: int, b: real)
    ensures q * b - k as real * b == (q - k as real) * b
    ensures q * b == Times(k, b) + (q - k as real) * b
  {
  }

  lemma RemainderIsRest(a: real, b: real)
    requires b != 0.0
    ensures IsRest(a, b, Remainder(a, b))
  {
    var q := a / b;
    var k := Fraction(q);
    SplitProduct(q, k, b);
    SizeOfProduct(q - k as real, b);
    SignOfProduct(q, q - k as real, b);
    IsRestBy(a, b, Remainder(a, b), k);
  }

  lemma IsRestBy(a: real, b: real, r: real, k: int)
    requires b != 0.0 && a == Times(k, b) + r
    requires Size(r) < Size(b) && (r > 0.0 ==> a > 0.0) && (r < 0.0 ==> a < 0.0)
    ensures IsRest(a, b, r)
  {
  }

  lemma SizeOfMultiple(m: int, b: real)
    requires m != 0 && b != 0.0
    ensures Size(Times(m, b)) >= Size(b)
  {
    if m > 0 {
      UpwardMultiple(m, b);
    } else {
      UpwardMultiple(-m, b);
      assert Times(m, b) == -Times(-m, b);
    }
  }

  lemma UpwardMultiple(m: int, b: real)
    requires m > 0 && b != 0.0
    ensures if b > 0.0 then Times(m, b) >= b else Times(m, b) <= b
  {
    assert (m - 1) as real * b == Times(m, b) - b;
  }

  lemma SmallMultiple(m: int, b: real)
    requires b != 0.0 && Size(Times(m, b)) < Size(b)
    ensures m == 0
  {
    if m != 0 {
      SizeOfMultiple(m, b);
    }
  }

  lemma RestIsUnique(a: real, b: real, r: real, s: real)
    requires b != 0.0 && IsRest(a, b, r) && IsRest(a, b, s)
    ensures r == s
  {
    var k: int :| a == Times(k, b) + r;
    var l: int :| a == Times(l, b) + s;
    MultiplesApart(k, l, b);
    SmallMultiple(l - k, b);
  }

  lemma MultiplesApart(k: int, l: int, b: real)
    ensures Times(l - k, b) == Times(l, b) - Times(k, b)
  {
    assert (l - k) as real == l as real - k as real;
  }

  lemma RestExactly(a: real, b: real, r: real)
    ensures r == (if b != 0.0 then Remainder(a, b) else 0.0) <==> IsRest(a, b, r)
  {
    if b != 0.0 {
      RemainderIsRest(a, b);
      if IsRest(a, b, r) {
        RestIsUnique(a, b, r, Remainder(a, b));
      }
    }
  }

  /** Each operator computes what it should, and nothing else does; an unknown one
      gives 0. */
  lemma OperationExactly(pow: Power, op: string, a: real, b: real, r: real)
    ensures r == Operation(pow, op, a, b) <==> Computes(pow, op, a, b, r)
  {
    ProductExactly(a, b, r);
    RatioExactly(a, b, r);
    WholeRatioExactly(a, b, r);
    RestExactly(a, b, r);
  }

  // ----- precedence

  predicate BindsTighter(op: string, than: string) {
    op in ["*", "/", "//", "%", "**"] && than in ["+", "-"]
  }

  /** The parentheses that an expression needs: around a left operand whose operator
      binds less tightly, and around a right operand whose operator does not bind
      more tightly. */
  lemma NeededParentheses(op: string, left: Layout, n: nat, right: Layout)
    ensures WellFormed(Binary(op, left, n, right)) <==>
      && op in ["+", "-", "*", "/", "//", "%", "**"] && WellFormed(left) && WellFormed(right)
      && (left.Binary? ==> !BindsTighter(op, left.op))
      && (right.Binary? ==> BindsTighter(right.op, op))
  {
    assert left.Binary? && WellFormed(left) ==> IsOperator(left.op);
    assert right.Binary? && WellFormed(right) ==> IsOperator(right.op);
  }

  // ----- the value of an expression

  /** v is the value of an expression, by the arithmetic of its operators. */
  ghost predicate HasValue(pow: Power, e: Layout, v: real)
    requires WellFormed(e)
  {
    match e
    case Number(_, negative, digits, _, decimals) => v == Decimal(negative, digits, decimals)
    case Group(_, inner, _) => HasValue(pow, inner, v)
    case Binary(op, left, _, right) =>
      exists a, b :: HasValue(pow, left, a) && HasValue(pow, right, b) && Computes(pow, op, a, b, v)
  }

  lemma {:induction false} MeaningExactly(pow: Power, e: Layout, v: real)
    requires WellFormed(e)
    ensures v == Meaning(pow, e) <==> HasValue(pow, e, v)
  {
    match e {
      case Number(_, _, _, _, _) =>
      case Group(_, inner, _) => MeaningExactly(pow, inner, v);
      case Binary(op, left, _, right) =>
        var a, b := Meaning(pow, left), Meaning(pow, right);
        MeaningExactly(pow, left, a);
        MeaningExactly(pow, right, b);
        OperationExactly(pow, op, a, b, v);
        if HasValue(pow, e, v) {
          var x, y :| HasValue(pow, left, x) && HasValue(pow, right, y) && Computes(pow, op, x, y, v);
          MeaningExactly(pow, left, x);
          MeaningExactly(pow, right, y);
        }
    }
  }

  /** The calculator finds the value of every expression, and no other value. */
  lemma CalculatesExactly(pow: Power, e: Layout, trailing: nat, v: real)
    requires WellFormed(e)
    ensures Result(pow, Text(e) + Spaces(trailing)) == v <==> HasValue(pow, e, v)
  {
    CalcCorrect.EvaluatorCorrect(pow, e, trailing);
    MeaningExactly(pow, e, v);
  }

  // ----- some texts

  function Whole(d: string): Layout {
    Number(0, false, d, false, "")
  }

  lemma OneDigit(c: char, n: nat)
    requires IsDigit(c) && c as int == '0' as int + n
    ensures WellFormed(Whole([c])) && Text(Whole([c])) == [c]
    ensures forall pow: Power :: Meaning(pow, Whole([c])) == n as real
  {
    assert [c][..0] == "";
    assert Natural([c]) == n;
  }

  lemma Trailing(pow: Power, e: Layout)
    requires WellFormed(e)
    ensures Result(pow, Text(e)) == Meaning(pow, e)
  {
    CalcCorrect.EvaluatorCorrect(pow, e, 0);
    assert Text(e) + Spaces(0) == Text(e);
  }

  lemma FiveMinusThree(pow: Power)
    ensures Result(pow, "5-3") == 2.0
  {
    OneDigit('5', 5);
    OneDigit('3', 3);
    Trailing(pow, Binary("-", Whole("5"), 0, Whole("3")));
    assert "5-3" == "5" + "" + "-" + "3";
  }

  /** Operators of one precedence go from the left. */
  lemma MinusFromTheLeft(pow: Power)
    ensures Result(pow, "7-2-1") == 4.0
  {
    OneDigit('7', 7);
    OneDigit('2', 2);
    OneDigit('1', 1);
    Trailing(pow, Binary("-", Binary("-", Whole("7"), 0, Whole("2")), 0, Whole("1")));
    assert "7-2-1" == "7" + "" + "-" + "2" + "" + "-" + "1";
  }

  /** Powers too. */
  lemma PowerFromTheLeft(pow: Power)
    ensures Result(pow, "2**3**2") == pow(pow(2.0, 3.0), 2.0)
  {
    OneDigit('3', 3);
    OneDigit('2', 2);
    Trailing(pow, Binary("**", Binary("**", Whole("2"), 0, Whole("3")), 0, Whole("2")));
    assert "2**3**2" == "2" + "" + "**" + "3" + "" + "**" + "2";
  }

  /** Multiplication goes before addition, on either side, unless there are
      parentheses. */
  lemma PlusTimes(pow: Power)
    ensures Result(pow, "2+3*4") == 14.0
  {
    OneDigit('2', 2);
    OneDigit('3', 3);
    OneDigit('4', 4);
    Trailing(pow, Binary("+", Whole("2"), 0, Binary("*", Whole("3"), 0, Whole("4"))));
    assert "2+3*4" == "2" + "" + "+" + ("3" + "" + "*" + "4");
  }

  lemma TimesPlus(pow: Power)
    ensures Result(pow, "2*3+4") == 10.0
  {
    OneDigit('2', 2);
    OneDigit('3', 3);
    OneDigit('4', 4);
    Trailing(pow, Binary("+", Binary("*", Whole("2"), 0, Whole("3")), 0, Whole("4")));
    assert "2*3+4" == "2" + "" + "*" + "3" + "" + "+" + "4";
  }

  lemma ParenthesesFirst(pow: Power)
    ensures Result(pow, "(2+3)*4") == 20.0
  {
    OneDigit('2', 2);
    OneDigit('3', 3);
    OneDigit('4', 4);
    var sum := Binary("+", Whole("2"), 0, Whole("3"));
    Trailing(pow, Binary("*", Group(0, sum, 0), 0, Whole("4")));
    assert "(2+3)*4" == "" + "(" + ("2" + "" + "+" + "3") + "" + ")" + "" + "*" + "4";
  }

  // ----- some texts that are no expressions

  /** A second point in a number makes no difference. */
  lemma LaterPoint(s: string, value: real, decimals: real)
    requires decimals != 0.0
    ensures NumberValue("." + s, value, decimals) == NumberValue(s, value, decimals)
  {
    assert ("." + s)[1..] == s;
  }

  lemma ReadDigit(pow: Power, c: char, n: nat, r: Reader)
    requires IsDigit(c) && c as int == '0' as int + n
    requires CalcCorrect.Delimited(r.text) && SignAllowed(r.last)
    ensures Run(pow, r.(text := [c] + r.text))
         == Run(pow, Reader(r.text, r.stacks.(values := r.stacks.values + [n as real]), ValueRead))
  {
    OneDigit(c, n);
    assert Meaning(pow, Whole([c])) == n as real;
    CalcCorrect.RunNumber(pow, false, [c], false, "", r);
    assert NumberText(false, [c], false, "") == [c];
  }

  /** An operator of one character that stands in front of a digit or at the end. */
  lemma ReadOperator(pow: Power, c: char, r: Reader)
    requires c == '+' || c == '-' || c == '^'
    requires r.last == ValueRead && (r.text == "" || IsDigit(r.text[0]))
    ensures Run(pow, r.(text := [c] + r.text)) == Run(pow, Reader(r.text, Push(pow, r.stacks, [c]), Operator))
  {
    var s := [c] + r.text;
    assert s[1..] == r.text && s[..1] == [c];
    assert OperatorTail(r.text) == 0;
  }

  lemma OneOperation(pow: Power, v1: real, v2: real, op: string)
    ensures Operate(pow, Stacks([v1] + [v2], [op], 0)) == Stacks([Operation(pow, op, v1, v2)], [], 0)
    ensures Operate(pow, Stacks([v2], [op], 0)) == Stacks([Operation(pow, op, 0.0, v2)], [], 1)
  {
    var s := [v1] + [v2];
    assert Popped(s) == [v1] && Popped([v1]) == [] && Popped([v2]) == [];
    assert [op][..0] == [];
  }

  /** The end of a text with one operator waiting. */
  lemma LastOperation(pow: Power, s: string, st: Stacks, op: string, result: real, missing: nat)
    requires Run(pow, Reader(s, Stacks([], [], 0), Nothing)) == st && st.ops == [op]
    requires Operate(pow, st) == Stacks([result], [], missing)
    ensures Result(pow, s) == result
  {
    assert OperateAll(pow, st) == OperateAll(pow, Operate(pow, st)) == Operate(pow, st);
  }

  lemma PushFirst(pow: Power, values: seq<real>, op: string)
    ensures Push(pow, Stacks(values, [], 0), op) == Stacks(values, [op], 0)
  {
    assert [] + [op] == [op];
  }

  /** A missing left operand is 0: the value goes to the right. */
  lemma MissingOperand(pow: Power)
    ensures Result(pow, "2-") == -2.0
  {
    var none, two := Stacks([], [], 0), Stacks([2.0], [], 0);
    assert "2-" == ['2'] + ("-" + "");
    assert [] + [2.0] == [2.0];
    ReadDigit(pow, '2', 2, Reader("-" + "", none, Nothing));
    ReadOperator(pow, '-', Reader("", two, ValueRead));
    PushFirst(pow, [2.0], "-");
    OneOperation(pow, 0.0, 2.0, "-");
    LastOperation(pow, "2-", Stacks([2.0], ["-"], 0), "-", -2.0, 1);
  }

  /** An operator that does not exist makes 0. */
  lemma NoSuchOperator(pow: Power)
    ensures Result(pow, "2^3") == 0.0
  {
    var none, two := Stacks([], [], 0), Stacks([2.0], [], 0);
    assert "2^3" == ['2'] + ("^" + "3") && "3" == ['3'] + "";
    assert [] + [2.0] == [2.0];
    ReadDigit(pow, '2', 2, Reader("^" + "3", none, Nothing));
    ReadOperator(pow, '^', Reader("3", two, ValueRead));
    PushFirst(pow, [2.0], "^");
    ReadDigit(pow, '3', 3, Reader("", Stacks([2.0], ["^"], 0), Operator));
    OneOperation(pow, 2.0, 3.0, "^");
    LastOperation(pow, "2^3", Stacks([2.0] + [3.0], ["^"], 0), "^", 0.0, 0);
  }

  /** The operators that are left in the end are applied anyhow. */
  lemma {:induction false} AllAfterWhile(pow: Power, s: Stacks, level: nat)
    ensures OperateAll(pow, s) == OperateAll(pow, OperateWhile(pow, s, level))
    decreases |s.ops|
  {
    if s.ops != [] && Precedence(s.ops[|s.ops| - 1]) >= level {
      AllAfterWhile(pow, Operate(pow, s), level);
    }
  }

  lemma OpenInTheEnd(pow: Power, s: Stacks, v: real)
    requires CalcCorrect.Settles(pow, s, Stacks([v], ["("], 0), 1)
    ensures OperateAll(pow, s) == Stacks([0.0], [], 1)
  {
    var st := Stacks([v], ["("], 0);
    assert OperateWhile(pow, s, 1) == OperateWhile(pow, st, 1) == st;
    AllAfterWhile(pow, s, 1);
    OneOperation(pow, 0.0, v, "(");
    assert OperateAll(pow, st) == OperateAll(pow, Operate(pow, st));
  }

  lemma OpenAtStart(pow: Power, text: string)
    ensures Run(pow, Reader("(" + text, Stacks([], [], 0), Nothing))
         == Run(pow, Reader(text, Stacks([], ["("], 0), ParenthesisOpen))
  {
    CalcCorrect.RunOpen(pow, Reader(text, Stacks([], [], 0), Nothing));
    assert [] + ["("] == ["("];
  }

  lemma ReadsToEnd(pow: Power, e: Layout) returns (s: Stacks)
    requires WellFormed(e)
    ensures Run(pow, Reader(Text(e), Stacks([], ["("], 0), ParenthesisOpen)) == s
    ensures CalcCorrect.Settles(pow, s, Stacks([Meaning(pow, e)], ["("], 0), 1)
  {
    assert Text(e) + "" == Text(e) && [] + [Meaning(pow, e)] == [Meaning(pow, e)];
    var r := CalcCorrect.Reads(pow, e, Reader("", Stacks([], ["("], 0), ParenthesisOpen));
    s := r.stacks;
  }

  /** A parenthesis that is not closed makes 0, whatever comes behind it. */
  lemma NeverClosed(pow: Power, e: Layout)
    requires WellFormed(e)
    ensures Result(pow, "(" + Text(e)) == 0.0
  {
    OpenAtStart(pow, Text(e));
    var s := ReadsToEnd(pow, e);
    OpenInTheEnd(pow, s, Meaning(pow, e));
  }

  /** One that was not opened makes no difference. */
  lemma NeverOpened(pow: Power, e: Layout)
    requires WellFormed(e)
    ensures Result(pow, Text(e) + ")") == Meaning(pow, e)
  {
    var none, v := Stacks([], [], 0), Meaning(pow, e);
    var r := CalcCorrect.Reads(pow, e, Reader(")", none, Nothing));
    assert [] + [v] == [v];
    CalcCorrect.RunClose(pow, r.(text := ""));
    assert ")" + "" == ")";
    CalcCorrect.ToParenthesis(pow, r.stacks);
    assert OperateWhile(pow, r.stacks, 1) == OperateWhile(pow, Stacks([v], [], 0), 1) == Stacks([v], [], 0);
  }
}
