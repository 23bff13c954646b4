/** The two-stack evaluator of src/core/core-calc.c: operators, the lexer and the
    loop of calc_expression, as functions on the text still to be read. */
module CalcMachine {
  import opened Digits

  /** pow() of the C library. */
  type Power = (real, real) -> real

  function Precedence(op: string): (p: nat)
    ensures p <= 2
  {
    if op == "*" || op == "/" || op == "//" || op == "%" || op == "**" then 2
    else if op == "+" || op == "-" then 1
    else 0
  }

  /** floor() and fmod() of the C library, on reals. */
  function Floor(x: real): real {
    x.Floor as real
  }

  function Truncated(x: real): real {
    if x >= 0.0 then Floor(x) else -Floor(-x)
  }

  function Remainder(x: real, y: real): real
    requires y != 0.0
  {
    x - Truncated(x / y) * y
  }

  function Operation(pow: Power, op: string, v1: real, v2: real): real {
    if op == "+" then v1 + v2
    else if op == "-" then v1 - v2
    else if op == "*" then v1 * v2
    else if op == "/" then if v2 != 0.0 then v1 / v2 else 0.0
    else if op == "//" then if v2 != 0.0 then Floor(v1 / v2) else 0.0
    else if op == "%" then if v2 != 0.0 then Remainder(v1, v2) else 0.0
    else if op == "**" then pow(v1, v2)
    else 0.0
  }

  /** The stacks, top last. missing counts the operands that an operator did not
      find on the stack of values and that were taken to be 0. */
  datatype Stacks = Stacks(values: seq<real>, ops: seq<string>, missing: nat)

  function Top(values: seq<real>): real {
    if values == [] then 0.0 else values[|values| - 1]
  }

  function Popped(values: seq<real>): seq<real> {
    if values == [] then [] else values[..|values| - 1]
  }

  function MissingOperands(values: seq<real>): nat {
    if |values| >= 2 then 0 else 2 - |values|
  }

  /** calc_operation_stacks. */
  function Operate(pow: Power, s: Stacks): Stacks {
    if s.ops == [] then s
    else
      var v2, rest := Top(s.values), Popped(s.values);
      var v1 := Top(rest);
      var result := Operation(pow, s.ops[|s.ops| - 1], v1, v2);
      Stacks(Popped(rest) + [result], s.ops[..|s.ops| - 1], s.missing + MissingOperands(s.values))
  }

  /** Operates as long as the operator on top has at least the precedence given. */
  function OperateWhile(pow: Power, s: Stacks, precedence: nat): Stacks
    decreases |s.ops|
  {
    if s.ops != [] && Precedence(s.ops[|s.ops| - 1]) >= precedence
    then OperateWhile(pow, Operate(pow, s), precedence)
    else s
  }

  /** Operates until an opening parenthesis is on top. */
  function OperateToParenthesis(pow: Power, s: Stacks): Stacks
    decreases |s.ops|
  {
    if s.ops != [] && s.ops[|s.ops| - 1] != "("
    then OperateToParenthesis(pow, Operate(pow, s))
    else s
  }

  function OperateAll(pow: Power, s: Stacks): Stacks
    decreases |s.ops|
  {
    if s.ops != [] then OperateAll(pow, Operate(pow, s)) else s
  }

  function Close(pow: Power, s: Stacks): Stacks {
    var t := OperateToParenthesis(pow, s);
    if t.ops == [] then t else t.(ops := t.ops[..|t.ops| - 1])
  }

  function Push(pow: Power, s: Stacks, op: string): Stacks {
    var t := OperateWhile(pow, s, Precedence(op));
    t.(ops := t.ops + [op])
  }

  // ----- the lexer

  datatype Symbol = Nothing | ParenthesisOpen | ParenthesisClose | ValueRead | Operator

  function Digit(c: char): real
    requires IsDigit(c)
  {
    (c as int - '0' as int) as real
  }

  predicate IsNumeric(c: char) {
    IsDigit(c) || c == '.'
  }

  /** The places that a '-' may hold to be the sign of a number. */
  predicate SignAllowed(last: Symbol) {
    last == Nothing || last == ParenthesisOpen || last == Operator
  }

  predicate StartsNumber(c: char, last: Symbol) {
    IsNumeric(c) || (c == '-' && SignAllowed(last))
  }

  /** The value of the number that s starts with, given the value read so far;
      decimals is 0 before the decimal point, then 10, 100, ... */
  function NumberValue(s: string, value: real, decimals: real): real {
    if s == [] || !IsNumeric(s[0]) then value
    else if s[0] == '.' then NumberValue(s[1..], value, if decimals == 0.0 then 10.0 else decimals)
    else if decimals != 0.0 then NumberValue(s[1..], value + Digit(s[0]) / decimals, decimals * 10.0)
    else NumberValue(s[1..], value * 10.0 + Digit(s[0]), decimals)
  }

  /** The text behind the digits and points that s starts with. */
  function AfterNumber(s: string): (r: string)
    ensures |r| <= |s|
    ensures s != [] && IsNumeric(s[0]) ==> |r| < |s|
  {
    if s == [] || !IsNumeric(s[0]) then s else AfterNumber(s[1..])
  }

  predicate EndsOperator(c: char) {
    c == ' ' || c == '(' || c == ')' || c == '.' || c == '-' || IsDigit(c)
  }

  /** The length of the rest of an operator behind its first character. */
  function OperatorTail(s: string): (n: nat)
    ensures n <= |s|
  {
    if s == [] || EndsOperator(s[0]) then 0 else 1 + OperatorTail(s[1..])
  }

  // ----- the loop

  /** The text still to be read, the stacks and the kind of the last token. */
  datatype Reader = Reader(text: string, stacks: Stacks, last: Symbol)

  /** Reading one token, or skipping one space. */
  function Step(pow: Power, r: Reader): (r': Reader)
    requires r.text != []
    ensures |r'.text| < |r.text|
  {
    var c, rest, st := r.text[0], r.text[1..], r.stacks;
    if c == ' ' then r.(text := rest)
    else if c == '(' then Reader(rest, st.(ops := st.ops + ["("]), ParenthesisOpen)
    else if StartsNumber(c, r.last) then StepNumber(r)
    else if c == ')' then Reader(rest, Close(pow, st), ParenthesisClose)
    else
      var n := 1 + OperatorTail(rest);
      Reader(r.text[n..], Push(pow, st, r.text[..n]), Operator)
  }

  function StepNumber(r: Reader): (r': Reader)
    requires r.text != [] && StartsNumber(r.text[0], r.last)
    ensures |r'.text| < |r.text|
  {
    var negative := r.text[0] == '-';
    var text := if negative then r.text[1..] else r.text;
    var value := NumberValue(text, 0.0, 0.0) * (if negative then -1.0 else 1.0);
    Reader(AfterNumber(text), r.stacks.(values := r.stacks.values + [value]), ValueRead)
  }

  /** The stacks when the whole text has been read. */
  function Run(pow: Power, r: Reader): Stacks
    decreases |r.text|
  {
    if r.text == [] then r.stacks else Run(pow, Step(pow, r))
  }

  /** The stacks when the whole text has been read and every operator applied. */
  function Final(pow: Power, s: string): Stacks {
    OperateAll(pow, Run(pow, Reader(s, Stacks([], [], 0), Nothing)))
  }

  function Result(pow: Power, s: string): real {
    Top(Final(pow, s).values)
  }
}
