/** The evaluator reads every well-formed expression, however it is spaced and
    parenthesised, and computes its value. */
module CalcCorrect {
  import opened Digits
  import opened CalcMachine
  import opened CalcLayout

  lemma {:induction false} SkipSpaces(pow: Power, n: nat, r: Reader)
    ensures Run(pow, r.(text := Spaces(n) + r.text)) == Run(pow, r)
  {
    if n == 0 {
      assert "" + r.text == r.text;
    } else {
      var s := Spaces(n) + r.text;
      assert s[0] == ' ' && s[1..] == Spaces(n - 1) + r.text;
      SkipSpaces(pow, n - 1, r);
    }
  }

  /** Text behind a number that is not taken for a part of it. */
  predicate Delimited(rest: string) {
    rest == [] || !IsNumeric(rest[0])
  }

  // ----- numbers

  lemma {:induction false} ReadDigits(done: string, todo: string, rest: string)
    requires AllDigits(done) && AllDigits(todo)
    ensures AllDigits(done + todo)
    ensures NumberValue(todo + rest, Natural(done) as real, 0.0)
         == NumberValue(rest, Natural(done + todo) as real, 0.0)
    decreases todo
  {
    if todo == [] {
      assert todo + rest == rest && done + todo == done;
    } else {
      var c := todo[0];
      var s := todo + rest;
      assert s[0] == c && s[1..] == todo[1..] + rest;
      assert (done + [c])[..|done|] == done;
      assert done + todo == done + [c] + todo[1..];
      ReadDigits(done + [c], todo[1..], rest);
    }
  }

  lemma NextDecimal(i: real, a: real, d: real, p: real)
    requires p > 0.0
    ensures i + a / p + d / (10.0 * p) == i + (10.0 * a + d) / (10.0 * p)
  {
    assert a / p == (10.0 * a) / (10.0 * p);
  }

  lemma {:induction false} ReadDecimals(i: real, done: string, todo: string, rest: string)
    requires AllDigits(done) && AllDigits(todo)
    ensures AllDigits(done + todo) && Pow10(|done|) > 0 && Pow10(|done + todo|) > 0
    ensures NumberValue(todo + rest, i + Natural(done) as real / Pow10(|done|) as real, 10.0 * Pow10(|done|) as real)
         == NumberValue(rest, i + Natural(done + todo) as real / Pow10(|done + todo|) as real,
                        10.0 * Pow10(|done + todo|) as real)
    decreases todo
  {
    Pow10Positive(|done|);
    Pow10Positive(|done + todo|);
    if todo == [] {
      assert todo + rest == rest && done + todo == done;
    } else {
      var c := todo[0];
      var s := todo + rest;
      assert s[0] == c && s[1..] == todo[1..] + rest;
      assert (done + [c])[..|done|] == done;
      assert done + todo == done + [c] + todo[1..];
      NextDecimal(i, Natural(done) as real, Digit(c), Pow10(|done|) as real);
      ReadDecimals(i, done + [c], todo[1..], rest);
    }
  }

  lemma {:induction false} AfterNumeric(t: string, rest: string)
    requires forall i :: 0 <= i < |t| ==> IsNumeric(t[i])
    requires Delimited(rest)
    ensures AfterNumber(t + rest) == rest
  {
    if t == [] {
      assert t + rest == rest;
    } else {
      assert (t + rest)[1..] == t[1..] + rest;
      AfterNumeric(t[1..], rest);
    }
  }

  lemma NumberRead(digits: string, point: bool, decimals: string, rest: string)
    requires AllDigits(digits) && AllDigits(decimals) && (decimals != [] ==> point)
    requires Delimited(rest)
    ensures NumberValue(NumberText(false, digits, point, decimals) + rest, 0.0, 0.0) == Decimal(false, digits, decimals)
  {
    var tail := (if point then "." else "") + decimals + rest;
    assert NumberText(false, digits, point, decimals) + rest == digits + tail;
    ReadDigits([], digits, tail);
    assert [] + digits == digits;
    var n := Natural(digits) as real;
    if point {
      assert tail[1..] == decimals + rest;
      ReadDecimals(n, [], decimals, rest);
      assert [] + decimals == decimals;
    } else {
      assert tail == rest;
    }
  }

  lemma ReadNumber(negative: bool, digits: string, point: bool, decimals: string, rest: string, st: Stacks,
                   last: Symbol)
    requires WellFormed(Number(0, negative, digits, point, decimals))
    requires Delimited(rest) && SignAllowed(last)
    ensures var text := NumberText(negative, digits, point, decimals) + rest;
      && text != [] && StartsNumber(text[0], last) && text[0] != ' ' && text[0] != '('
      && StepNumber(Reader(text, st, last))
         == Reader(rest, st.(values := st.values + [Decimal(negative, digits, decimals)]), ValueRead)
  {
    var t := NumberText(false, digits, point, decimals);
    NumberRead(digits, point, decimals, rest);
    AfterNumeric(t, rest);
    SignSplits(negative, digits, point, decimals, rest);
  }

  lemma SignSplits(negative: bool, digits: string, point: bool, decimals: string, rest: string)
    requires WellFormed(Number(0, negative, digits, point, decimals))
    ensures var t := NumberText(false, digits, point, decimals);
      var text := NumberText(negative, digits, point, decimals) + rest;
      && t != [] && IsNumeric(t[0]) && (t + rest)[0] == t[0]
      && (if negative then text != [] && text[0] == '-' && text[1..] == t + rest else text == t + rest)
  {
    var t := NumberText(false, digits, point, decimals);
    assert t == digits + (if point then "." else "") + decimals;
    if negative {
      assert NumberText(negative, digits, point, decimals) + rest == "-" + (t + rest);
    }
  }

  lemma RunNumber(pow: Power, negative: bool, digits: string, point: bool, decimals: string, r: Reader)
    requires WellFormed(Number(0, negative, digits, point, decimals))
    requires Delimited(r.text) && SignAllowed(r.last)
    ensures Run(pow, r.(text := NumberText(negative, digits, point, decimals) + r.text))
         == Run(pow, Reader(r.text, r.stacks.(values := r.stacks.values + [Decimal(negative, digits, decimals)]),
                            ValueRead))
  {
    ReadNumber(negative, digits, point, decimals, r.text, r.stacks, r.last);
  }

  // ----- operators

  /** The operator that a text starts with. */
  lemma OperatorText(op: string, rest: string)
    requires IsOperator(op) && rest != [] && EndsOperator(rest[0])
    ensures var s := op + rest;
      s[0] == op[0] && 1 + OperatorTail(s[1..]) == |op| && s[..|op|] == op && s[|op|..] == rest
  {
    var s := op + rest;
    assert OperatorTail(rest) == 0;
    if |op| == 2 {
      assert s[1..][1..] == rest;
    } else {
      assert s[1..] == rest;
    }
  }

  lemma RunOperator(pow: Power, op: string, r: Reader)
    requires IsOperator(op) && !SignAllowed(r.last)
    requires r.text != [] && EndsOperator(r.text[0])
    ensures Run(pow, r.(text := op + r.text)) == Run(pow, Reader(r.text, Push(pow, r.stacks, op), Operator))
  {
    OperatorText(op, r.text);
  }

  lemma RunOpen(pow: Power, r: Reader)
    ensures Run(pow, r.(text := "(" + r.text))
         == Run(pow, Reader(r.text, r.stacks.(ops := r.stacks.ops + ["("]), ParenthesisOpen))
  {
    assert ("(" + r.text)[1..] == r.text;
  }

  lemma RunClose(pow: Power, r: Reader)
    ensures Run(pow, r.(text := ")" + r.text)) == Run(pow, Reader(r.text, Close(pow, r.stacks), ParenthesisClose))
  {
    assert (")" + r.text)[1..] == r.text;
  }

  lemma {:induction false} TextStarts(e: Layout)
    requires WellFormed(e)
    ensures Text(e) != [] && EndsOperator(Text(e)[0])
  {
    match e {
      case Number(n, _, _, _, _) => assert n > 0 ==> Spaces(n)[0] == ' ';
      case Group(n, _, _) => assert n > 0 ==> Spaces(n)[0] == ' ';
      case Binary(_, left, _, _) => TextStarts(left);
    }
  }

  // ----- the stacks

  /** Every operator that can be on the stack while an expression is read. */
  predicate Known(ops: seq<string>) {
    forall i :: 0 <= i < |ops| ==> ops[i] == "(" || IsOperator(ops[i])
  }

  /** The operators still waiting on a make no difference: when anything of
      precedence 1 to level arrives, or the text ends, a and b become the same. */
  ghost predicate Settles(pow: Power, a: Stacks, b: Stacks, level: nat) {
    forall t :: 1 <= t <= level ==> OperateWhile(pow, a, t) == OperateWhile(pow, b, t)
  }

  predicate TopBelow(ops: seq<string>, level: nat) {
    ops == [] || Precedence(ops[|ops| - 1]) < level
  }

  lemma {:induction false} ToParenthesis(pow: Power, s: Stacks)
    requires Known(s.ops)
    ensures OperateToParenthesis(pow, s) == OperateWhile(pow, s, 1)
    decreases |s.ops|
  {
    if s.ops != [] && s.ops[|s.ops| - 1] != "(" {
      ToParenthesis(pow, Operate(pow, s));
    }
  }

  lemma {:induction false} WhileIsAll(pow: Power, s: Stacks)
    requires OperateWhile(pow, s, 1).ops == []
    ensures OperateAll(pow, s) == OperateWhile(pow, s, 1)
    decreases |s.ops|
  {
    if s.ops != [] {
      WhileIsAll(pow, Operate(pow, s));
    }
  }

  /** An operator with both operands on the stack is as good as its result. */
  lemma OperandsSettle(pow: Power, st: Stacks, op: string, v1: real, v2: real)
    requires IsOperator(op)
    ensures Settles(pow, st.(values := st.values + [v1] + [v2], ops := st.ops + [op]),
                    st.(values := st.values + [Operation(pow, op, v1, v2)]), Precedence(op))
  {
    var s := st.(values := st.values + [v1] + [v2], ops := st.ops + [op]);
    assert s.ops[..|s.ops| - 1] == st.ops;
    assert Popped(s.values) == st.values + [v1] && Popped(Popped(s.values)) == st.values;
    assert Operate(pow, s) == st.(values := st.values + [Operation(pow, op, v1, v2)]);
  }

  lemma GroupText(e: Layout, rest: string)
    requires e.Group?
    ensures Text(e) + rest == Spaces(e.spaces) + ("(" + (Text(e.inner) + (Spaces(e.spacesClose) + (")" + rest))))
  {
  }

  lemma BinaryText(e: Layout, rest: string)
    requires e.Binary?
    ensures Text(e) + rest == Text(e.left) + (Spaces(e.spacesOp) + (e.op + (Text(e.right) + rest)))
  {
  }

  // ----- the theorem

  /** What reading e in the place of an operand has to achieve: the same as
      going on behind it, with stacks on which nothing but a value is new. */
  ghost predicate HasRead(pow: Power, e: Layout, r: Reader, r': Reader)
    requires WellFormed(e)
  {
    && Run(pow, r.(text := Text(e) + r.text)) == Run(pow, r')
    && r'.text == r.text && !SignAllowed(r'.last) && Known(r'.stacks.ops)
    && Settles(pow, r'.stacks, r.stacks.(values := r.stacks.values + [Meaning(pow, e)]), Level(e))
  }

  /** Reading e behind operators that bind less tightly. */
  lemma {:induction false} Reads(pow: Power, e: Layout, r: Reader) returns (r': Reader)
    requires WellFormed(e) && SignAllowed(r.last) && Delimited(r.text)
    requires Known(r.stacks.ops) && TopBelow(r.stacks.ops, Level(e))
    ensures HasRead(pow, e, r, r')
    decreases e, 3
  {
    match e {
      case Number(n, negative, digits, point, decimals) =>
        var t := NumberText(negative, digits, point, decimals);
        assert Text(e) + r.text == Spaces(n) + (t + r.text);
        SkipSpaces(pow, n, r.(text := t + r.text));
        RunNumber(pow, negative, digits, point, decimals, r);
        r' := Reader(r.text, r.stacks.(values := r.stacks.values + [Meaning(pow, e)]), ValueRead);
      case Group(n, inner, m) =>
        r' := ReadsGroup(pow, e, r);
      case Binary(op, left, n, right) =>
        r' := ReadsBinary(pow, e, r);
    }
  }

  /** A parenthesis closes over the value of what it encloses. */
  lemma CloseSettled(pow: Power, a: Stacks, st: Stacks, v: real)
    requires Known(a.ops)
    requires Settles(pow, a, st.(values := st.values + [v], ops := st.ops + ["("]), 1)
    ensures Close(pow, a) == st.(values := st.values + [v])
  {
    ToParenthesis(pow, a);
    var b := st.(values := st.values + [v], ops := st.ops + ["("]);
    assert OperateWhile(pow, a, 1) == OperateWhile(pow, b, 1) == b;
    assert b.ops[..|b.ops| - 1] == st.ops;
  }

  lemma OpenGroup(pow: Power, n: nat, r: Reader)
    ensures Run(pow, r.(text := Spaces(n) + ("(" + r.text)))
         == Run(pow, Reader(r.text, r.stacks.(ops := r.stacks.ops + ["("]), ParenthesisOpen))
  {
    SkipSpaces(pow, n, r.(text := "(" + r.text));
    RunOpen(pow, r);
  }

  lemma CloseGroup(pow: Power, m: nat, r: Reader, st: Stacks, v: real)
    requires Known(r.stacks.ops)
    requires Settles(pow, r.stacks, st.(values := st.values + [v], ops := st.ops + ["("]), 1)
    ensures Run(pow, r.(text := Spaces(m) + (")" + r.text)))
         == Run(pow, Reader(r.text, st.(values := st.values + [v]), ParenthesisClose))
  {
    SkipSpaces(pow, m, r.(text := ")" + r.text));
    RunClose(pow, r);
    CloseSettled(pow, r.stacks, st, v);
  }

  lemma DelimitedBehindSpaces(n: nat, rest: string)
    requires Delimited(rest)
    ensures Delimited(Spaces(n) + rest)
  {
    assert n > 0 ==> (Spaces(n) + rest)[0] == ' ';
  }

  lemma {:induction false} ReadsGroup(pow: Power, e: Layout, r: Reader) returns (r': Reader)
    requires e.Group? && WellFormed(e) && Delimited(r.text) && Known(r.stacks.ops)
    ensures HasRead(pow, e, r, r')
    decreases e, 0
  {
    var Group(n, inner, m) := e;
    var behind := Spaces(m) + (")" + r.text);
    var body := Text(inner) + behind;
    GroupText(e, r.text);
    OpenGroup(pow, n, r.(text := body));
    DelimitedBehindSpaces(m, ")" + r.text);
    var r1 := Reads(pow, inner, Reader(behind, r.stacks.(ops := r.stacks.ops + ["("]), ParenthesisOpen));
    CloseGroup(pow, m, r1.(text := r.text), r.stacks, Meaning(pow, inner));
    r' := Reader(r.text, r.stacks.(values := r.stacks.values + [Meaning(pow, e)]), ParenthesisClose);
  }

  /** An arriving operator finds the value of its left operand on the stack. */
  lemma PushSettled(pow: Power, a: Stacks, st: Stacks, v: real, op: string, level: nat)
    requires IsOperator(op) && Precedence(op) <= level
    requires TopBelow(st.ops, Precedence(op))
    requires Settles(pow, a, st.(values := st.values + [v]), level)
    ensures Push(pow, a, op) == st.(values := st.values + [v], ops := st.ops + [op])
  {
    var b := st.(values := st.values + [v]);
    assert OperateWhile(pow, a, Precedence(op)) == OperateWhile(pow, b, Precedence(op)) == b;
  }

  lemma PushOperator(pow: Power, n: nat, op: string, r: Reader, st: Stacks, v: real, level: nat)
    requires IsOperator(op) && Precedence(op) <= level && !SignAllowed(r.last)
    requires r.text != [] && EndsOperator(r.text[0])
    requires TopBelow(st.ops, Precedence(op))
    requires Settles(pow, r.stacks, st.(values := st.values + [v]), level)
    ensures Run(pow, r.(text := Spaces(n) + (op + r.text)))
         == Run(pow, Reader(r.text, st.(values := st.values + [v], ops := st.ops + [op]), Operator))
  {
    SkipSpaces(pow, n, r.(text := op + r.text));
    RunOperator(pow, op, r);
    PushSettled(pow, r.stacks, st, v, op, level);
  }

  /** Reading the left operand and the operator. */
  lemma {:induction false} ReadsLeft(pow: Power, e: Layout, r: Reader)
    requires e.Binary? && WellFormed(e) && SignAllowed(r.last)
    requires r.text != [] && EndsOperator(r.text[0])
    requires Known(r.stacks.ops) && TopBelow(r.stacks.ops, Level(e))
    ensures Run(pow, r.(text := Text(e.left) + (Spaces(e.spacesOp) + (e.op + r.text))))
         == Run(pow, Reader(r.text, WithOperator(pow, e, r.stacks), Operator))
    decreases e, 1
  {
    var behind := Spaces(e.spacesOp) + (e.op + r.text);
    DelimitedBehindSpaces(e.spacesOp, e.op + r.text);
    var r1 := Reads(pow, e.left, r.(text := behind));
    PushOperator(pow, e.spacesOp, e.op, r1.(text := r.text), r.stacks, Meaning(pow, e.left), Level(e.left));
  }

  ghost function WithOperator(pow: Power, e: Layout, st: Stacks): Stacks
    requires e.Binary? && WellFormed(e)
  {
    st.(values := st.values + [Meaning(pow, e.left)], ops := st.ops + [e.op])
  }

  lemma {:induction false} ReadsBinary(pow: Power, e: Layout, r: Reader) returns (r': Reader)
    requires e.Binary? && WellFormed(e) && SignAllowed(r.last) && Delimited(r.text)
    requires Known(r.stacks.ops) && TopBelow(r.stacks.ops, Level(e))
    ensures HasRead(pow, e, r, r')
    decreases e, 2
  {
    var after := Text(e.right) + r.text;
    BinaryText(e, r.text);
    TextStarts(e.right);
    ReadsLeft(pow, e, r.(text := after));
    var st2, v2 := WithOperator(pow, e, r.stacks), Meaning(pow, e.right);
    r' := Reads(pow, e.right, Reader(r.text, st2, Operator));
    OperandsSettle(pow, r.stacks, e.op, Meaning(pow, e.left), v2);
    SettlesTrans(pow, r'.stacks, st2.(values := st2.values + [v2]),
                 r.stacks.(values := r.stacks.values + [Meaning(pow, e)]), Level(e.right), Level(e));
  }

  lemma SettlesTrans(pow: Power, a: Stacks, b: Stacks, c: Stacks, high: nat, low: nat)
    requires low <= high
    requires Settles(pow, a, b, high) && Settles(pow, b, c, low)
    ensures Settles(pow, a, c, low)
  {
    forall t | 1 <= t <= low ensures OperateWhile(pow, a, t) == OperateWhile(pow, c, t) {
      assert OperateWhile(pow, a, t) == OperateWhile(pow, b, t);
      assert OperateWhile(pow, b, t) == OperateWhile(pow, c, t);
    }
  }

  /** The text of a well-formed expression, with any number of spaces behind it,
      leaves exactly one value and no operator, that value is the value of the
      expression, and every operator found both of its operands. */
  lemma EvaluatorCorrect(pow: Power, e: Layout, trailing: nat)
    requires WellFormed(e)
    ensures Final(pow, Text(e) + Spaces(trailing)) == Stacks([Meaning(pow, e)], [], 0)
    ensures Result(pow, Text(e) + Spaces(trailing)) == Meaning(pow, e)
  {
    var r := Reads(pow, e, Reader(Spaces(trailing), Stacks([], [], 0), Nothing));
    assert Spaces(trailing) + "" == Spaces(trailing);
    SkipSpaces(pow, trailing, r.(text := ""));
    assert OperateWhile(pow, r.stacks, 1) == Stacks([Meaning(pow, e)], [], 0);
    WhileIsAll(pow, r.stacks);
  }

  lemma RunLoneMinus(pow: Power, r: Reader)
    requires SignAllowed(r.last) && Delimited(r.text)
    ensures Run(pow, r.(text := "-" + r.text))
         == Run(pow, Reader(r.text, r.stacks.(values := r.stacks.values + [0.0]), ValueRead))
  {
    var s := "-" + r.text;
    assert s[1..] == r.text;
    assert StepNumber(r.(text := s)) == Reader(r.text, r.stacks.(values := r.stacks.values + [0.0]), ValueRead);
  }

  lemma GroupDelimits(e: Layout, rest: string)
    requires e.Group?
    ensures Delimited(Text(e) + rest)
  {
    GroupText(e, rest);
    assert e.spaces > 0 ==> Spaces(e.spaces)[0] == ' ';
  }

  /** A '-' in front of a parenthesis is no sign: it is read as the number 0, and
      the value of the group comes on top of it. This holds wherever a sign may
      stand, whatever operators wait, and with spaces on both sides. */
  lemma ReadsMinusGroup(pow: Power, n: nat, e: Layout, r: Reader) returns (r': Reader)
    requires e.Group? && WellFormed(e)
    requires SignAllowed(r.last) && Delimited(r.text) && Known(r.stacks.ops)
    ensures Run(pow, r.(text := Spaces(n) + ("-" + (Text(e) + r.text)))) == Run(pow, r')
    ensures r'.text == r.text && !SignAllowed(r'.last) && Known(r'.stacks.ops)
    ensures Settles(pow, r'.stacks, r.stacks.(values := r.stacks.values + [0.0] + [Meaning(pow, e)]), 3)
  {
    var body := Text(e) + r.text;
    GroupDelimits(e, r.text);
    SkipSpaces(pow, n, r.(text := "-" + body));
    RunLoneMinus(pow, r.(text := body));
    r' := ReadsGroup(pow, e, Reader(r.text, r.stacks.(values := r.stacks.values + [0.0]), ValueRead));
  }

  /** So a text that starts with such a minus has the value of the group: the
      minus is lost. */
  lemma MinusBeforeGroup(pow: Power, n: nat, e: Layout, trailing: nat)
    requires e.Group? && WellFormed(e)
    ensures var text := Spaces(n) + ("-" + (Text(e) + Spaces(trailing)));
      && Final(pow, text) == Stacks([0.0, Meaning(pow, e)], [], 0)
      && Result(pow, text) == Meaning(pow, e)
  {
    var none: seq<real> := [];
    assert none + [0.0] + [Meaning(pow, e)] == [0.0, Meaning(pow, e)];
    DelimitedBehindSpaces(trailing, "");
    assert Spaces(trailing) + "" == Spaces(trailing);
    var r := ReadsMinusGroup(pow, n, e, Reader(Spaces(trailing), Stacks(none, [], 0), Nothing));
    SkipSpaces(pow, trailing, r.(text := ""));
    assert OperateWhile(pow, r.stacks, 1) == Stacks([0.0, Meaning(pow, e)], [], 0);
    WhileIsAll(pow, r.stacks);
  }

  lemma LostOperand(pow: Power, a: Stacks, v: real, op: string, w: real)
    requires IsOperator(op)
    requires Settles(pow, a, Stacks([v] + [0.0] + [w], [op], 0), 3)
    ensures OperateAll(pow, a) == Stacks([v, Operation(pow, op, 0.0, w)], [], 0)
  {
    var b := Stacks([v] + [0.0] + [w], [op], 0);
    assert Popped(b.values) == [v] + [0.0] && Popped(Popped(b.values)) == [v];
    assert Operate(pow, b) == Stacks([v, Operation(pow, op, 0.0, w)], [], 0);
    assert OperateWhile(pow, b, 1) == OperateWhile(pow, Operate(pow, b), 1);
    assert OperateWhile(pow, a, 1) == OperateWhile(pow, b, 1);
    WhileIsAll(pow, a);
  }

  lemma LeftRead(pow: Power, left: Layout, k: nat, op: string, e: Layout, behind: string)
    requires WellFormed(left) && IsOperator(op) && Level(left) >= Precedence(op) && e.Group? && WellFormed(e)
    requires behind != [] && EndsOperator(behind[0])
    ensures Run(pow, Reader(Text(left) + (Spaces(k) + (op + behind)), Stacks([], [], 0), Nothing))
         == Run(pow, Reader(behind, Stacks([Meaning(pow, left)], [op], 0), Operator))
  {
    var b, st := Binary(op, left, k, e), Stacks([], [], 0);
    assert WellFormed(b);
    LoneLeft(pow, b);
    ReadsLeft(pow, b, Reader(behind, st, Nothing));
  }

  lemma LoneLeft(pow: Power, b: Layout)
    requires b.Binary? && WellFormed(b)
    ensures WithOperator(pow, b, Stacks([], [], 0)) == Stacks([Meaning(pow, b.left)], [b.op], 0)
  {
  }

  lemma MinusDelimits(n: nat, e: Layout)
    ensures var behind := Spaces(n) + ("-" + Text(e)); behind != [] && EndsOperator(behind[0])
  {
    assert n > 0 ==> Spaces(n)[0] == ' ';
  }

  lemma LostRead(pow: Power, v: real, op: string, n: nat, e: Layout)
    requires IsOperator(op) && e.Group? && WellFormed(e)
    ensures OperateAll(pow, Run(pow, Reader(Spaces(n) + ("-" + Text(e)), Stacks([v], [op], 0), Operator)))
         == Stacks([v, Operation(pow, op, 0.0, Meaning(pow, e))], [], 0)
  {
    assert Text(e) + "" == Text(e);
    var r := ReadsMinusGroup(pow, n, e, Reader("", Stacks([v], [op], 0), Operator));
    LostOperand(pow, r.stacks, v, op, Meaning(pow, e));
  }

  /** Behind an operator it is the left operand that is lost: the operator takes
      the 0 for it. */
  lemma MinusBehindOperator(pow: Power, left: Layout, k: nat, op: string, n: nat, e: Layout)
    requires WellFormed(left) && IsOperator(op) && Level(left) >= Precedence(op) && e.Group? && WellFormed(e)
    ensures var text := Text(left) + (Spaces(k) + (op + (Spaces(n) + ("-" + Text(e)))));
      && Final(pow, text) == Stacks([Meaning(pow, left), Operation(pow, op, 0.0, Meaning(pow, e))], [], 0)
      && Result(pow, text) == Operation(pow, op, 0.0, Meaning(pow, e))
  {
    var behind := Spaces(n) + ("-" + Text(e));
    MinusDelimits(n, e);
    LeftRead(pow, left, k, op, e, behind);
    LostRead(pow, Meaning(pow, left), op, n, e);
  }

  /** For example: two times minus three is 0. */
  lemma TwoTimesMinusThree(pow: Power)
    ensures Result(pow, "2*-(3)") == 0.0
  {
    var two, inner := Number(0, false, "2", false, ""), Number(0, false, "3", false, "");
    var three := Group(0, inner, 0);
    MinusBehindOperator(pow, two, 0, "*", 0, three);
    assert Text(inner) == "3" && Text(three) == "(3)" && Text(two) == "2";
    assert "2*-(3)" == Text(two) + (Spaces(0) + ("*" + (Spaces(0) + ("-" + Text(three)))));
  }
}
