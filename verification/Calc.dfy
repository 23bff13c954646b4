/** The calculator of src/core/core-calc.c, on its stacks and buffers. */
module Calc {
  import opened Wrappers
  import opened Arraylist
  import opened CalcMachine
  import opened CalcNumbers
  import opened CalcBuffer
  import ListSpec

  // ----- the stacks

  type ValueStack = Arraylist<real>
  type OpStack = Arraylist<string>

  /** A stack is an arraylist that is not sorted and allows duplicates. */
  ghost predicate IsStack<T>(list: Arraylist<T>)
    reads list, list.data
  {
    list.Valid() && !list.sorted && list.duplicates
  }

  method PushOn<T>(list: Arraylist<T>, x: T)
    requires IsStack(list)
    modifies list, list.data
    ensures IsStack(list) && (list.data == old(list.data) || fresh(list.data))
    ensures list.Contents() == old(list.Contents()) + [x]
  {
    ghost var s := list.Contents();
    var _ := list.Add(x);
    assert ListSpec.Placed(s, |s|, x) == s + [x];
  }

  method PopOff<T>(list: Arraylist<T>)
    requires IsStack(list) && list.size > 0
    modifies list, list.data
    ensures IsStack(list) && (list.data == old(list.data) || fresh(list.data))
    ensures list.Contents() == old(list.Contents())[..|old(list.Contents())| - 1]
  {
    var _ := list.Remove(list.size - 1);
  }

  method PopValue(values: ValueStack) returns (value: real)
    requires IsStack(values)
    modifies values, values.data
    ensures IsStack(values) && (values.data == old(values.data) || fresh(values.data))
    ensures value == Top(old(values.Contents())) && values.Contents() == Popped(old(values.Contents()))
  {
    if values.size < 1 {
      return 0.0;
    }
    var top := values.Get(values.size - 1);
    value := top.value;
    PopOff(values);
  }

  /** The two stacks share no memory. */
  ghost predicate Apart(values: ValueStack, ops: OpStack)
    reads values, ops
  {
    values as object != ops && values.data as object != ops.data
  }

  ghost predicate AreStacks(values: ValueStack, ops: OpStack)
    reads values, values.data, ops, ops.data
  {
    IsStack(values) && IsStack(ops) && Apart(values, ops)
  }

  ghost function Both(values: ValueStack, ops: OpStack, missing: nat): Stacks
    requires values.Valid() && ops.Valid()
    reads values, values.data, ops, ops.data
  {
    Stacks(values.Contents(), ops.Contents(), missing)
  }

  /** Applies the operator on top to the two values on top. The last result
      counts the operands that were not there. */
  method OperationStacks(pow: Power, values: ValueStack, ops: OpStack, ghost missing: nat) returns (ghost missing': nat)
    requires AreStacks(values, ops)
    modifies values, values.data, ops, ops.data
    ensures AreStacks(values, ops)
    ensures values.data == old(values.data) || fresh(values.data)
    ensures ops.data == old(ops.data) || fresh(ops.data)
    ensures Both(values, ops, missing') == Operate(pow, old(Both(values, ops, missing)))
  {
    missing' := missing;
    if ops.size < 1 {
      return;
    }
    missing' := missing + MissingOperands(values.Contents());
    var operator := ops.Get(ops.size - 1);
    Calculate(pow, values, operator.value);
    PopOff(ops);
  }

  method Calculate(pow: Power, values: ValueStack, operator: string)
    requires IsStack(values)
    modifies values, values.data
    ensures IsStack(values) && (values.data == old(values.data) || fresh(values.data))
    ensures var rest := Popped(old(values.Contents()));
      values.Contents() == Popped(rest) + [Operation(pow, operator, Top(rest), Top(old(values.Contents())))]
  {
    var value2 := PopValue(values);
    var value1 := PopValue(values);
    var result := Operation(pow, operator, value1, value2);
    PushOn(values, result);
  }

  // ----- the loops that empty the stacks

  method Peek(ops: OpStack, index: int) returns (operator: string)
    requires IsStack(ops) && 0 <= index == ops.size - 1
    ensures |ops.Contents()| > 0 && operator == ops.Contents()[|ops.Contents()| - 1]
  {
    var top := ops.Get(index);
    operator := top.value;
  }

  /** The loop ends at an operator that binds less, and goes on otherwise. */
  lemma HigherCases(pow: Power, s: Stacks, precedence: nat)
    requires s.ops != []
    ensures if Precedence(s.ops[|s.ops| - 1]) < precedence then OperateWhile(pow, s, precedence) == s
            else OperateWhile(pow, s, precedence) == OperateWhile(pow, Operate(pow, s), precedence)
  {
  }

  lemma ToOpenCases(pow: Power, s: Stacks)
    requires s.ops != []
    ensures if s.ops[|s.ops| - 1] == "(" then OperateToParenthesis(pow, s) == s
            else OperateToParenthesis(pow, s) == OperateToParenthesis(pow, Operate(pow, s))
  {
  }

  /** The body of the loop below: it stops at an operator that binds less. */
  method OperateIfHigher(pow: Power, values: ValueStack, ops: OpStack, operator: string, ghost missing: nat)
    returns (stop: bool, ghost missing': nat)
    requires AreStacks(values, ops) && ops.size > 0
    modifies values, values.data, ops, ops.data
    ensures AreStacks(values, ops)
    ensures values.data == old(values.data) || fresh(values.data)
    ensures ops.data == old(ops.data) || fresh(ops.data)
    ensures !stop ==> ops.size == old(ops.size) - 1
    ensures stop ==> Both(values, ops, missing') == OperateWhile(pow, Both(values, ops, missing'), Precedence(operator))
    ensures OperateWhile(pow, Both(values, ops, missing'), Precedence(operator))
         == OperateWhile(pow, old(Both(values, ops, missing)), Precedence(operator))
  {
    missing' := missing;
    var top := Peek(ops, ops.size - 1);
    stop := Precedence(top) < Precedence(operator);
    HigherCases(pow, Both(values, ops, missing), Precedence(operator));
    if !stop {
      missing' := OperationStacks(pow, values, ops, missing);
    }
  }

  method OperateWhileHigher(pow: Power, values: ValueStack, ops: OpStack, operator: string, ghost missing: nat)
    returns (ghost missing': nat)
    requires AreStacks(values, ops)
    modifies values, values.data, ops, ops.data
    ensures AreStacks(values, ops)
    ensures values.data == old(values.data) || fresh(values.data)
    ensures ops.data == old(ops.data) || fresh(ops.data)
    ensures Both(values, ops, missing') == OperateWhile(pow, old(Both(values, ops, missing)), Precedence(operator))
  {
    ghost var start := Both(values, ops, missing);
    missing' := missing;
    var indexOp, stop := ops.size - 1, false;
    while indexOp >= 0
      invariant AreStacks(values, ops)
      invariant values.data == old(values.data) || fresh(values.data)
      invariant ops.data == old(ops.data) || fresh(ops.data)
      invariant indexOp == ops.size - 1
      invariant OperateWhile(pow, Both(values, ops, missing'), Precedence(operator))
             == OperateWhile(pow, start, Precedence(operator))
    {
      stop, missing' := OperateIfHigher(pow, values, ops, operator, missing');
      if stop {
        break;
      }
      indexOp := indexOp - 1;
    }
  }

  /** The body of the loop below: it stops at an opening parenthesis. */
  method OperateUnlessOpen(pow: Power, values: ValueStack, ops: OpStack, ghost missing: nat)
    returns (stop: bool, ghost missing': nat)
    requires AreStacks(values, ops) && ops.size > 0
    modifies values, values.data, ops, ops.data
    ensures AreStacks(values, ops)
    ensures values.data == old(values.data) || fresh(values.data)
    ensures ops.data == old(ops.data) || fresh(ops.data)
    ensures !stop ==> ops.size == old(ops.size) - 1
    ensures stop ==> Both(values, ops, missing') == OperateToParenthesis(pow, Both(values, ops, missing'))
    ensures OperateToParenthesis(pow, Both(values, ops, missing'))
         == OperateToParenthesis(pow, old(Both(values, ops, missing)))
  {
    missing' := missing;
    var top := Peek(ops, ops.size - 1);
    stop := top == "(";
    ToOpenCases(pow, Both(values, ops, missing));
    if !stop {
      missing' := OperationStacks(pow, values, ops, missing);
    }
  }

  method OperateToOpen(pow: Power, values: ValueStack, ops: OpStack, ghost missing: nat)
    returns (ghost missing': nat)
    requires AreStacks(values, ops)
    modifies values, values.data, ops, ops.data
    ensures AreStacks(values, ops)
    ensures values.data == old(values.data) || fresh(values.data)
    ensures ops.data == old(ops.data) || fresh(ops.data)
    ensures Both(values, ops, missing') == OperateToParenthesis(pow, old(Both(values, ops, missing)))
  {
    ghost var start := Both(values, ops, missing);
    missing' := missing;
    var indexOp, stop := ops.size - 1, false;
    while indexOp >= 0
      invariant AreStacks(values, ops)
      invariant values.data == old(values.data) || fresh(values.data)
      invariant ops.data == old(ops.data) || fresh(ops.data)
      invariant indexOp == ops.size - 1
      invariant OperateToParenthesis(pow, Both(values, ops, missing')) == OperateToParenthesis(pow, start)
    {
      stop, missing' := OperateUnlessOpen(pow, values, ops, missing');
      if stop {
        break;
      }
      indexOp := indexOp - 1;
    }
  }

  method OperateToEnd(pow: Power, values: ValueStack, ops: OpStack, ghost missing: nat)
    returns (ghost missing': nat)
    requires AreStacks(values, ops)
    modifies values, values.data, ops, ops.data
    ensures AreStacks(values, ops)
    ensures values.data == old(values.data) || fresh(values.data)
    ensures ops.data == old(ops.data) || fresh(ops.data)
    ensures Both(values, ops, missing') == OperateAll(pow, old(Both(values, ops, missing)))
  {
    ghost var start := Both(values, ops, missing);
    missing' := missing;
    while ops.size > 0
      invariant AreStacks(values, ops)
      invariant values.data == old(values.data) || fresh(values.data)
      invariant ops.data == old(ops.data) || fresh(ops.data)
      invariant OperateAll(pow, Both(values, ops, missing')) == OperateAll(pow, start)
      decreases ops.size
    {
      missing' := OperationStacks(pow, values, ops, missing');
    }
  }

  // ----- the lexer

  /** Digits and points from position i on: the value, and the position behind. */
  method ReadNumber(expr: string, i: nat) returns (value: real, j: nat)
    requires i <= |expr|
    ensures i <= j <= |expr|
    ensures value == NumberValue(expr[i..], 0.0, 0.0) && expr[j..] == AfterNumber(expr[i..])
  {
    value, j := 0.0, i;
    var decimals := 0.0;
    while j < |expr| && IsNumeric(expr[j])
      invariant i <= j <= |expr| && decimals >= 0.0
      invariant NumberValue(expr[j..], value, decimals) == NumberValue(expr[i..], 0.0, 0.0)
      invariant AfterNumber(expr[j..]) == AfterNumber(expr[i..])
    {
      assert expr[j..][1..] == expr[j + 1..];
      if expr[j] == '.' {
        if decimals == 0.0 {
          decimals := 10.0;
        }
      } else if decimals != 0.0 {
        value := value + Digit(expr[j]) / decimals;
        decimals := decimals * 10.0;
      } else {
        value := value * 10.0 + Digit(expr[j]);
      }
      j := j + 1;
    }
  }

  /** A number with a sign in front, or none. */
  method ReadSignedNumber(expr: string, i: nat) returns (value: real, j: nat)
    requires i < |expr| && (expr[i] == '-' || IsNumeric(expr[i]))
    ensures i < j <= |expr|
    ensures var text := if expr[i] == '-' then expr[i..][1..] else expr[i..];
      && expr[j..] == AfterNumber(text)
      && value == NumberValue(text, 0.0, 0.0) * (if expr[i] == '-' then -1.0 else 1.0)
  {
    var factor, start := 1.0, i;
    if expr[i] == '-' {
      factor := -1.0;
      start := i + 1;
    }
    assert expr[i..][1..] == expr[i + 1..];
    value, j := ReadNumber(expr, start);
    value := value * factor;
    assert |AfterNumber(expr[start..])| == |expr| - j;
    NumberEndsBehind(expr, start);
  }

  lemma NumberEndsBehind(expr: string, i: nat)
    requires i <= |expr|
    ensures |AfterNumber(expr[i..])| <= |expr| - i
    ensures i < |expr| && IsNumeric(expr[i]) ==> |AfterNumber(expr[i..])| < |expr| - i
  {
  }

  /** The end of the operator that starts at position i. */
  method ReadOperator(expr: string, i: nat) returns (j: nat)
    requires i < |expr|
    ensures i < j <= |expr| && j == i + 1 + OperatorTail(expr[i..][1..])
  {
    j := i + 1;
    assert expr[i..][1..] == expr[j..];
    while j < |expr| && !EndsOperator(expr[j])
      invariant i < j <= |expr|
      invariant j + OperatorTail(expr[j..]) == i + 1 + OperatorTail(expr[i..][1..])
    {
      assert expr[j..][1..] == expr[j + 1..];
      j := j + 1;
    }
  }

  // ----- calc_expression

  method ReadClose(pow: Power, values: ValueStack, ops: OpStack, ghost missing: nat) returns (ghost missing': nat)
    requires AreStacks(values, ops)
    modifies values, values.data, ops, ops.data
    ensures AreStacks(values, ops)
    ensures values.data == old(values.data) || fresh(values.data)
    ensures ops.data == old(ops.data) || fresh(ops.data)
    ensures Both(values, ops, missing') == Close(pow, old(Both(values, ops, missing)))
  {
    missing' := OperateToOpen(pow, values, ops, missing);
    var indexOp := ops.size - 1;
    if indexOp >= 0 {
      PopOff(ops);
    }
  }

  method PushOperator(pow: Power, values: ValueStack, ops: OpStack, operator: string, ghost missing: nat)
    returns (ghost missing': nat)
    requires AreStacks(values, ops)
    modifies values, values.data, ops, ops.data
    ensures AreStacks(values, ops)
    ensures values.data == old(values.data) || fresh(values.data)
    ensures ops.data == old(ops.data) || fresh(ops.data)
    ensures Both(values, ops, missing') == Push(pow, old(Both(values, ops, missing)), operator)
  {
    missing' := OperateWhileHigher(pow, values, ops, operator, missing);
    PushOn(ops, operator);
  }

  /** A number in the text goes onto the stack of values. */
  method ReadValue(pow: Power, expr: string, i: nat, ghost last: Symbol, values: ValueStack, ops: OpStack,
                   ghost missing: nat)
    returns (j: nat)
    requires AreStacks(values, ops) && i < |expr| && expr[i] != ' ' && expr[i] != '(' && StartsNumber(expr[i], last)
    modifies values, values.data
    ensures AreStacks(values, ops)
    ensures values.data == old(values.data) || fresh(values.data)
    ensures i < j <= |expr|
    ensures Reader(expr[j..], Both(values, ops, missing), ValueRead)
         == Step(pow, Reader(expr[i..], old(Both(values, ops, missing)), last))
  {
    var value;
    value, j := ReadSignedNumber(expr, i);
    PushOn(values, value);
  }

  /** An operator in the text goes onto the stack of operators. */
  method ReadSign(pow: Power, expr: string, i: nat, ghost last: Symbol, values: ValueStack, ops: OpStack,
                  ghost missing: nat)
    returns (j: nat, ghost missing': nat)
    requires AreStacks(values, ops) && i < |expr| && expr[i] != ' ' && expr[i] != '(' && expr[i] != ')'
    requires !StartsNumber(expr[i], last)
    modifies values, values.data, ops, ops.data
    ensures AreStacks(values, ops)
    ensures values.data == old(values.data) || fresh(values.data)
    ensures ops.data == old(ops.data) || fresh(ops.data)
    ensures i < j <= |expr|
    ensures Reader(expr[j..], Both(values, ops, missing'), Operator)
         == Step(pow, Reader(expr[i..], old(Both(values, ops, missing)), last))
  {
    j := ReadOperator(expr, i);
    assert expr[i..][..j - i] == expr[i..j] && expr[i..][j - i..] == expr[j..];
    missing' := PushOperator(pow, values, ops, expr[i..j], missing);
  }

  /** One round of the loop of calc_expression. */
  method ReadToken(pow: Power, expr: string, i: nat, last: Symbol, values: ValueStack, ops: OpStack, ghost missing: nat)
    returns (j: nat, last': Symbol, ghost missing': nat)
    requires AreStacks(values, ops) && i < |expr|
    modifies values, values.data, ops, ops.data
    ensures AreStacks(values, ops)
    ensures values.data == old(values.data) || fresh(values.data)
    ensures ops.data == old(ops.data) || fresh(ops.data)
    ensures i < j <= |expr|
    ensures Reader(expr[j..], Both(values, ops, missing'), last')
         == Step(pow, Reader(expr[i..], old(Both(values, ops, missing)), last))
  {
    var c := expr[i];
    j, last', missing' := i + 1, last, missing;
    assert expr[i..][1..] == expr[i + 1..];
    if c == ' ' {
    } else if c == '(' {
      PushOn(ops, "(");
      last' := ParenthesisOpen;
    } else if IsNumeric(c) || (c == '-' && (last == Nothing || last == ParenthesisOpen || last == Operator)) {
      j := ReadValue(pow, expr, i, last, values, ops, missing);
      last' := ValueRead;
    } else if c == ')' {
      missing' := ReadClose(pow, values, ops, missing);
      last' := ParenthesisClose;
    } else {
      j, missing' := ReadSign(pow, expr, i, last, values, ops, missing);
      last' := Operator;
    }
  }

  /** The loop of calc_expression; any text is accepted. */
  method ReadAll(pow: Power, expr: string, values: ValueStack, ops: OpStack) returns (ghost missing: nat)
    requires AreStacks(values, ops)
    modifies values, values.data, ops, ops.data
    ensures AreStacks(values, ops)
    ensures values.data == old(values.data) || fresh(values.data)
    ensures ops.data == old(ops.data) || fresh(ops.data)
    ensures Both(values, ops, missing) == Run(pow, Reader(expr, old(Both(values, ops, 0)), Nothing))
  {
    ghost var start := Both(values, ops, 0);
    var last := Nothing;
    var i := 0;
    missing := 0;
    assert expr[0..] == expr;
    while i < |expr|
      invariant 0 <= i <= |expr|
      invariant AreStacks(values, ops)
      invariant values.data == old(values.data) || fresh(values.data)
      invariant ops.data == old(ops.data) || fresh(ops.data)
      invariant Run(pow, Reader(expr[i..], Both(values, ops, missing), last)) == Run(pow, Reader(expr, start, Nothing))
    {
      i, last, missing := ReadToken(pow, expr, i, last, values, ops, missing);
    }
  }

  /** The value of the whole expression. */
  method Evaluate(pow: Power, expr: string) returns (value: real)
    ensures value == Result(pow, expr)
  {
    var values := new Arraylist<real>(32, false, true, (a, b) => 0, true);
    var ops := new Arraylist<string>(32, false, true, (a, b) => 0, true);
    value := EvaluateOn(pow, expr, values, ops);
    values.Free();
    ops.Free();
  }

  /** The same on two empty stacks. */
  method EvaluateOn(pow: Power, expr: string, values: ValueStack, ops: OpStack) returns (value: real)
    requires AreStacks(values, ops) && values.Contents() == [] && ops.Contents() == []
    modifies values, values.data, ops, ops.data
    ensures AreStacks(values, ops)
    ensures values.data == old(values.data) || fresh(values.data)
    ensures ops.data == old(ops.data) || fresh(ops.data)
    ensures value == Result(pow, expr)
  {
    ghost var missing := ReadAll(pow, expr, values, ops);
    missing := OperateToEnd(pow, values, ops, missing);
    value := PopValue(values);
  }

  /** calc_expression: the text of the value; "0" without an expression. */
  method CalcExpression(pow: Power, expr: Option<string>) returns (result: string)
    ensures result == match expr case None => "0" case Some(s) => Answer(pow, s)
  {
    var strResult := new char[BUFFER](_ => NUL);
    Snprintf(strResult, BUFFER, "0");
    if expr.Some? {
      var value := Evaluate(pow, expr.value);
      FormatResult(value, strResult, BUFFER);
    }
    var n := StringLength(strResult);
    result := strResult[..n];
  }
}
