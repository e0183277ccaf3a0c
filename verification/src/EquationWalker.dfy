/** The evaluate_ functions of MathematicalEquation with their loops (src/core/math/MathematicalEquation.cpp:157-486). */
module EquationWalker {
  import opened Base
  import opened Equation

  method EvaluateNode<R>(a: Arith<R>, level: nat, t: Tree) returns (result: Option<R>)
    ensures result == Eval(a, level, t)
    decreases t, 0
  {
    if t.Leaf? || t.rule != Level(level) || t.children == [] {
      return None;
    }
    var cs := t.children;
    if level == 0 {
      result := EvaluateFactor(a, cs);
      return;
    }
    if level == CONDITION {
      result := EvaluateCondition(a, cs);
      return;
    }
    var first := EvaluateNode(a, level - 1, cs[0]);
    if first.None? {
      return None;
    }
    var left := first.value;
    var current := 1;
    while current < |cs|
      invariant 1 <= current && EvalTail(a, level, left, cs, current) == EvalTail(a, level, first.value, cs, 1)
    {
      if current + 1 >= |cs| || cs[current].Node? {
        return None;
      }
      var operator := cs[current].text;
      current := current + 1;
      var right := EvaluateNode(a, if level == 1 then 1 else level - 1, cs[current]);
      if right.None? {
        return None;
      }
      var next := Apply(a, level, operator, left, right.value);
      if next.None? {
        return None;
      }
      left := next.value;
      current := current + 1;
    }
    return Some(left);
  }

  method EvaluateCondition<R>(a: Arith<R>, cs: seq<Tree>) returns (result: Option<R>)
    requires cs != []
    ensures result == EvalCondition(a, cs)
    decreases cs, 1
  {
    var condition := EvaluateNode(a, 7, cs[0]);
    if condition.None? || |cs| == 1 {
      return condition;
    }
    if |cs| < 5 || cs[1] != Leaf("?") || cs[3] != Leaf(":") {
      return None;
    }
    var trueExpression := EvaluateNode(a, 7, cs[2]);
    var falseExpression := EvaluateNode(a, 7, cs[4]);
    if trueExpression.None? || falseExpression.None? {
      return None;
    }
    return if !a.isZero(condition.value) then trueExpression else falseExpression;
  }

  method EvaluateFactor<R>(a: Arith<R>, cs: seq<Tree>) returns (result: Option<R>)
    requires cs != []
    ensures result == EvalFactor(a, cs)
    decreases cs, 1
  {
    match cs[0]
    case Node(Number, ns) =>
      return if ns != [] && ns[0].Leaf? then Some(a.number(ns[0].text)) else None;
    case Node(FunctionCall, fs) =>
      if |fs| < 4 || fs[0].Node? || fs[1] != Leaf("(") || fs[3] != Leaf(")") {
        return None;
      }
      var x := EvaluateNode(a, CONDITION, fs[2]);
      return if x.None? then None else Some(CallFunction(a, fs[0].text, x.value));
    case Node(_, _) =>
      return None;
    case Leaf(text) =>
      if |cs| < 2 {
        return None;
      }
      if text == "(" {
        result := EvaluateNode(a, CONDITION, cs[1]);
      } else if text == "-" {
        var x := EvaluateNode(a, 0, cs[1]);
        result := if x.None? then None else Some(a.neg(x.value));
      } else if text == "+" {
        result := EvaluateNode(a, 0, cs[1]);
      } else if text == "$" && cs[1].Node? && cs[1].rule == Index && cs[1].children != [] {
        var index := cs[1].children[0];
        result := if index.Leaf? && |index.text| == 1 then Some(a.variable(index.text[0])) else None;
      } else {
        return None;
      }
  }

  /** evaluate; no result stands for the exception on a text that is not matched as a whole. */
  method EvaluateText<R>(a: Arith<R>, equation: string) returns (result: Option<R>)
    ensures result == Evaluate(a, equation)
  {
    var info := Parse(CONDITION, equation);
    if info.None? || info.value.rest != "" {
      return None;
    }
    result := EvaluateNode(a, CONDITION, info.value.tree);
  }
}
