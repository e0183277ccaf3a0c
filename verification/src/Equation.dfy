/**
 * MathematicalEquation (src/core/math/MathematicalEquation.cpp): the grammar as ordered choice with
 * greedy repetition, the parse tree it builds, and the functions that walk the tree. The arithmetic on
 * doubles is abstract.
 */
module Equation {
  import opened Base

  // ---- Parse trees ----

  /** Levels: 0 factor, 1 power, 2 term, 3 expression, 4 comparison, 5 equality, 6 and, 7 or, 8 condition. */
  datatype Rule = Level(level: nat) | Number | Index | FunctionCall

  datatype Tree = Leaf(text: string) | Node(rule: Rule, children: seq<Tree>)

  const CONDITION: nat := 8

  /** A match consumes the front of the text; `rest` is what is left of it. */
  datatype Match = Match(tree: Tree, rest: string)

  // ---- Tokens ----

  predicate IsDigit(c: char)
  {
    '0' <= c <= '9'
  }

  predicate IsAlpha(c: char)
  {
    'a' <= c <= 'z' || 'A' <= c <= 'Z'
  }

  predicate IsSign(c: char)
  {
    c == '-' || c == '+'
  }

  function Digits(s: string): (n: nat)
    ensures n <= |s|
  {
    if s == "" || !IsDigit(s[0]) then 0 else 1 + Digits(s[1..])
  }

  function Letters(s: string): (n: nat)
    ensures n <= |s|
  {
    if s == "" || !IsAlpha(s[0]) then 0 else 1 + Letters(s[1..])
  }

  /** An exponent: none at all, or a prefix that needs digits. */
  function Exponent(s: string): (n: Option<nat>)
    ensures n.Some? ==> n.value <= |s|
  {
    if s == "" || !(s[0] == 'e' || s[0] == 'E') then Some(0)
    else
      var k := if |s| > 1 && IsSign(s[1]) then 2 else 1;
      var digits := Digits(s[k..]);
      if digits == 0 then None else Some(k + digits)
  }

  /** The digits behind a decimal point, with the point. */
  function Fraction(s: string): (n: nat)
    ensures n <= |s|
  {
    if s != "" && s[0] == '.' then 1 + Digits(s[1..]) else 0
  }

  /** Digits and fraction, of which at least one has a digit. */
  function Mantissa(s: string): (n: nat)
    ensures n <= |s|
  {
    var whole := Digits(s);
    var fraction := Fraction(s[whole..]);
    if whole == 0 && fraction <= 1 then 0 else whole + fraction
  }

  function Unsigned(s: string): (n: Option<nat>)
    ensures n.Some? ==> 0 < n.value <= |s|
  {
    var mantissa := Mantissa(s);
    if mantissa == 0 then None
    else
      var exponent := Exponent(s[mantissa..]);
      if exponent.None? then None else Some(mantissa + exponent.value)
  }

  /** real_p, which takes a sign into the token. */
  function Real(s: string): (n: Option<nat>)
    ensures n.Some? ==> 0 < n.value <= |s|
  {
    if s != "" && IsSign(s[0]) then
      var n := Unsigned(s[1..]);
      if n.None? then None else Some(1 + n.value)
    else Unsigned(s)
  }

  predicate StartsWith(s: string, op: string)
  {
    op <= s
  }

  // ---- Grammar ----

  /** The operators of a level, in the order in which they are tried. */
  function Operators(level: nat): seq<string>
  {
    match level
    case 2 => ["*", "/"]
    case 3 => ["+", "-"]
    case 4 => ["<=", "<", ">=", ">"]
    case 5 => ["==", "!="]
    case 6 => ["&&"]
    case 7 => ["||"]
    case _ => []
  }

  function Parse(level: nat, s: string): (m: Option<Match>)
    requires level <= CONDITION
    ensures m.Some? ==> |m.value.rest| < |s|
    decreases |s|, level, 3
  {
    if level == 0 then ParseFactor(s)
    else if level == 1 then ParsePower(s)
    else if level == CONDITION then ParseCondition(s)
    else
      var first := Parse(level - 1, s);
      if first.None? then None
      else
        var tail := ParseTail(level, first.value.rest);
        Some(Match(Node(Level(level), [first.value.tree] + tail.0), tail.1))
  }

  /** The starred part of a level: operators and operands, as many as there are. */
  function ParseTail(level: nat, s: string): (tail: (seq<Tree>, string))
    requires 2 <= level < CONDITION
    ensures |tail.1| <= |s|
    decreases |s|, level, 1
  {
    var next := ParseAlternatives(level, Operators(level), s);
    if next.None? then ([], s)
    else
      var tail := ParseTail(level, next.value.rest);
      (next.value.tree.children + tail.0, tail.1)
  }

  /** The first alternative whose operator and operand both match, as a node with these two children. */
  function ParseAlternatives(level: nat, ops: seq<string>, s: string): (m: Option<Match>)
    requires 2 <= level < CONDITION
    requires forall i :: 0 <= i < |ops| ==> ops[i] != ""
    ensures m.Some? ==> |m.value.rest| < |s| && m.value.tree.Node? && |m.value.tree.children| == 2
    decreases |s|, level, 0, |ops|
  {
    if ops == [] then None
    else if StartsWith(s, ops[0]) && Parse(level - 1, s[|ops[0]|..]).Some? then
      var operand := Parse(level - 1, s[|ops[0]|..]).value;
      Some(Match(Node(Level(level), [Leaf(ops[0]), operand.tree]), operand.rest))
    else ParseAlternatives(level, ops[1..], s)
  }

  function ParsePower(s: string): (m: Option<Match>)
    ensures m.Some? ==> |m.value.rest| < |s|
    decreases |s|, 1, 0
  {
    var base := ParseFactor(s);
    if base.None? then None
    else
      var rest := base.value.rest;
      var exponent := if StartsWith(rest, "^") then ParsePower(rest[1..]) else None;
      if exponent.None? then Some(Match(Node(Level(1), [base.value.tree]), rest))
      else Some(Match(Node(Level(1), [base.value.tree, Leaf("^"), exponent.value.tree]), exponent.value.rest))
  }

  function ParseCondition(s: string): (m: Option<Match>)
    ensures m.Some? ==> |m.value.rest| < |s|
    decreases |s|, CONDITION, 0
  {
    var condition := Parse(7, s);
    if condition.None? then None
    else
      var rest := condition.value.rest;
      var plain := Some(Match(Node(Level(CONDITION), [condition.value.tree]), rest));
      var yes := if StartsWith(rest, "?") then Parse(7, rest[1..]) else None;
      if yes.None? || !StartsWith(yes.value.rest, ":") then plain
      else
        var no := Parse(7, yes.value.rest[1..]);
        if no.None? then plain
        else
          Some(Match(Node(Level(CONDITION), [condition.value.tree, Leaf("?"), yes.value.tree, Leaf(":"), no.value.tree]),
                     no.value.rest))
  }

  /** '(' condition ')' */
  function ParseParenthesized(s: string): (m: Option<Match>)
    ensures m.Some? ==> |m.value.rest| < |s|
    decreases |s|, 0, 0
  {
    if !StartsWith(s, "(") then None
    else
      var inner := Parse(CONDITION, s[1..]);
      if inner.None? || !StartsWith(inner.value.rest, ")") then None
      else Some(Match(inner.value.tree, inner.value.rest[1..]))
  }

  function ParseFactor(s: string): (m: Option<Match>)
    ensures m.Some? ==> |m.value.rest| < |s|
    decreases |s|, 0, 1
  {
    var number := Real(s);
    if number.Some? then Some(Match(Node(Level(0), [Node(Number, [Leaf(s[..number.value])])]), s[number.value..]))
    else if s == "" then None
    else if s[0] == '(' then
      var inner := ParseParenthesized(s);
      if inner.None? then None
      else Some(Match(Node(Level(0), [Leaf("("), inner.value.tree, Leaf(")")]), inner.value.rest))
    else if IsSign(s[0]) then
      var operand := ParseFactor(s[1..]);
      if operand.None? then None
      else Some(Match(Node(Level(0), [Leaf([s[0]]), operand.value.tree]), operand.value.rest))
    else if s[0] == '$' then
      if |s| < 2 || !IsDigit(s[1]) then None
      else Some(Match(Node(Level(0), [Leaf("$"), Node(Index, [Leaf([s[1]])])]), s[2..]))
    else
      var name := Letters(s);
      var inner := if name == 0 then None else ParseParenthesized(s[name..]);
      if inner.None? then None
      else
        Some(Match(Node(Level(0), [Node(FunctionCall, [Leaf(s[..name]), Leaf("("), inner.value.tree, Leaf(")")])]),
                   inner.value.rest))
  }

  // ---- Evaluation ----

  /** The operations on doubles. */
  datatype Arith<!R> = Arith(
    zero: R, one: R,
    number: string -> R,                 // lexical_cast of a token
    variable: char -> R,                 // the variable with that digit
    neg: R -> R,
    add: (R, R) -> R, sub: (R, R) -> R, mul: (R, R) -> R, div: (R, R) -> R, pow: (R, R) -> R,
    less: (R, R) -> bool, lessEqual: (R, R) -> bool, greater: (R, R) -> bool, greaterEqual: (R, R) -> bool,
    equal: (R, R) -> bool,
    isZero: R -> bool,
    library: Library<R>)

  /** The functions of the C library, and the numbers 3.141592 and 180. */
  datatype Library<!R> = Library(
    abs: R -> R, sin: R -> R, asin: R -> R, cos: R -> R, acos: R -> R, log: R -> R, log10: R -> R, pi: R, degrees: R)

  /** A function that is not known gives 0. */
  function CallFunction<R>(a: Arith<R>, name: string, x: R): R
  {
    if name == "abs" then a.library.abs(x)
    else if name == "sin" then a.library.sin(x)
    else if name == "asin" then a.library.asin(x)
    else if name == "cos" then a.library.cos(x)
    else if name == "acos" then a.library.acos(x)
    else if name == "rad" then a.div(a.mul(a.library.pi, x), a.library.degrees)
    else if name == "deg" then a.div(a.mul(a.library.degrees, x), a.library.pi)
    else if name == "ln" then a.library.log(x)
    else if name == "ln10" then a.library.log10(x)
    else a.zero
  }

  function FromBool<R>(a: Arith<R>, b: bool): R
  {
    if b then a.one else a.zero
  }

  /** What the loop of a level does with an operator; None where it runs into assert(0). */
  function Apply<R>(a: Arith<R>, level: nat, op: string, left: R, right: R): Option<R>
  {
    match level
    case 1 => if op == "^" then Some(a.pow(left, right)) else None
    case 2 =>
      if op == "*" then Some(a.mul(left, right)) else if op == "/" then Some(a.div(left, right)) else None
    case 3 =>
      if op == "+" then Some(a.add(left, right)) else if op == "-" then Some(a.sub(left, right)) else None
    case 4 =>
      if op == ">=" then Some(FromBool(a, a.greaterEqual(left, right)))
      else if op == ">" then Some(FromBool(a, a.greater(left, right)))
      else if op == "<" then Some(FromBool(a, a.less(left, right)))
      else if op == "<=" then Some(FromBool(a, a.lessEqual(left, right)))
      else None
    case 5 =>
      if op == "==" then Some(FromBool(a, a.equal(left, right)))
      else if op == "!=" then Some(FromBool(a, !a.equal(left, right)))
      else None
    case 6 => if op == "&&" then Some(if !a.isZero(left) then right else left) else None
    case 7 => if op == "||" then Some(if a.isZero(left) then right else left) else None
    case _ => None
  }

  /** The evaluate_ function of a level; None where an assert fails or a child is missing. */
  function Eval<R>(a: Arith<R>, level: nat, t: Tree): Option<R>
    decreases t, 0
  {
    if t.Leaf? || t.rule != Level(level) || t.children == [] then None
    else if level == 0 then EvalFactor(a, t.children)
    else if level == CONDITION then EvalCondition(a, t.children)
    else
      var left := Eval(a, level - 1, t.children[0]);
      if left.None? then None else EvalTail(a, level, left.value, t.children, 1)
  }

  /** The loop over operators and operands, from child `k` on. */
  function EvalTail<R>(a: Arith<R>, level: nat, left: R, cs: seq<Tree>, k: nat): Option<R>
    requires 1 <= level
    decreases cs, if k < |cs| then |cs| - k else 0
  {
    if k >= |cs| then Some(left)
    else if k + 1 >= |cs| || cs[k].Node? then None
    else
      var right := Eval(a, if level == 1 then 1 else level - 1, cs[k + 1]);
      if right.None? then None
      else
        var result := Apply(a, level, cs[k].text, left, right.value);
        if result.None? then None else EvalTail(a, level, result.value, cs, k + 2)
  }

  function EvalCondition<R>(a: Arith<R>, cs: seq<Tree>): Option<R>
    requires cs != []
    decreases cs, 1
  {
    var condition := Eval(a, 7, cs[0]);
    if condition.None? || |cs| == 1 then condition
    else if |cs| < 5 || cs[1] != Leaf("?") || cs[3] != Leaf(":") then None
    else
      var yes, no := Eval(a, 7, cs[2]), Eval(a, 7, cs[4]);
      if yes.None? || no.None? then None
      else if !a.isZero(condition.value) then yes else no
  }

  function EvalFactor<R>(a: Arith<R>, cs: seq<Tree>): Option<R>
    requires cs != []
    decreases cs, 1
  {
    match cs[0]
    case Node(Number, ns) => if ns != [] && ns[0].Leaf? then Some(a.number(ns[0].text)) else None
    case Node(FunctionCall, fs) => EvalCall(a, fs)
    case Node(_, _) => None
    case Leaf(text) =>
      if |cs| < 2 then None
      else if text == "(" then Eval(a, CONDITION, cs[1])
      else if text == "-" then
        var x := Eval(a, 0, cs[1]);
        if x.None? then None else Some(a.neg(x.value))
      else if text == "+" then Eval(a, 0, cs[1])
      else if text == "$" then
        match cs[1]
        case Node(Index, ns) => if ns != [] && ns[0].Leaf? && |ns[0].text| == 1 then Some(a.variable(ns[0].text[0])) else None
        case _ => None
      else None
  }

  function EvalCall<R>(a: Arith<R>, fs: seq<Tree>): Option<R>
    decreases fs, 1
  {
    if |fs| < 4 || fs[0].Node? || fs[1] != Leaf("(") || fs[3] != Leaf(")") then None
    else
      var x := Eval(a, CONDITION, fs[2]);
      if x.None? then None else Some(CallFunction(a, fs[0].text, x.value))
  }

  /** evaluate: None when the text is not an expression as a whole, or when an assert fails. */
  function Evaluate<R>(a: Arith<R>, text: string): Option<R>
  {
    var m := Parse(CONDITION, text);
    if m.None? || m.value.rest != "" then None else Eval(a, CONDITION, m.value.tree)
  }
}
