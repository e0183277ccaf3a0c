/**
 * Expressions, their texts with only the needed parentheses, and their meaning; what evaluate makes of
 * any text, and of the text of an expression.
 */
module EquationProofs {
  import opened Base
  import opened Equation

  // ---- Whatever is parsed can be evaluated ----

  /** An alternative that matched is one of the operators, with the operand behind it. */
  lemma {:induction false} AlternativeIs(level: nat, ops: seq<string>, s: string) returns (op: string)
    requires 2 <= level < CONDITION
    requires forall i :: 0 <= i < |ops| ==> ops[i] != ""
    requires ParseAlternatives(level, ops, s).Some?
    ensures op in ops && 0 < |op| <= |s| && Parse(level - 1, s[|op|..]).Some?
    ensures var operand := Parse(level - 1, s[|op|..]).value;
            ParseAlternatives(level, ops, s) == Some(Match(Node(Level(level), [Leaf(op), operand.tree]), operand.rest))
    decreases |ops|
  {
    if StartsWith(s, ops[0]) && Parse(level - 1, s[|ops[0]|..]).Some? {
      op := ops[0];
    } else {
      op := AlternativeIs(level, ops[1..], s);
    }
  }

  lemma OperatorsApply<R>(a: Arith<R>, level: nat, op: string, left: R, right: R)
    requires 2 <= level < CONDITION && op in Operators(level)
    ensures Apply(a, level, op, left, right).Some?
  {}

  /** No assert in the tree walker fires on a tree that the grammar built, whatever the text was. */
  lemma {:induction false} ParsedEvaluates<R>(a: Arith<R>, level: nat, s: string)
    requires level <= CONDITION && Parse(level, s).Some?
    ensures Eval(a, level, Parse(level, s).value.tree).Some?
    decreases |s|, level, 3
  {
    if level == 0 {
      FactorEvaluates(a, s);
    } else if level == 1 {
      PowerEvaluates(a, s);
    } else if level == CONDITION {
      ConditionEvaluates(a, s);
    } else {
      ParsedEvaluates(a, level - 1, s);
      var first := Parse(level - 1, s).value;
      var left := Eval(a, level - 1, first.tree).value;
      TailEvaluates(a, level, first.rest, [first.tree], left);
    }
  }

  lemma {:induction false} TailEvaluates<R>(a: Arith<R>, level: nat, s: string, front: seq<Tree>, left: R)
    requires 2 <= level < CONDITION
    ensures EvalTail(a, level, left, front + ParseTail(level, s).0, |front|).Some?
    decreases |s|, level, 1
  {
    var cs := front + ParseTail(level, s).0;
    if ParseAlternatives(level, Operators(level), s).Some? {
      var op := AlternativeIs(level, Operators(level), s);
      var operand := Parse(level - 1, s[|op|..]).value;
      ParsedEvaluates(a, level - 1, s[|op|..]);
      var right := Eval(a, level - 1, operand.tree).value;
      OperatorsApply(a, level, op, left, right);
      var front' := front + [Leaf(op), operand.tree];
      assert cs == front' + ParseTail(level, operand.rest).0;
      TailEvaluates(a, level, operand.rest, front', Apply(a, level, op, left, right).value);
    }
  }

  lemma {:induction false} PowerEvaluates<R>(a: Arith<R>, s: string)
    requires ParsePower(s).Some?
    ensures Eval(a, 1, ParsePower(s).value.tree).Some?
    decreases |s|, 1, 0
  {
    FactorEvaluates(a, s);
    var rest := ParseFactor(s).value.rest;
    if StartsWith(rest, "^") && ParsePower(rest[1..]).Some? {
      PowerEvaluates(a, rest[1..]);
      var cs := ParsePower(s).value.tree.children;
      var left, right := Eval(a, 0, cs[0]).value, Eval(a, 1, cs[2]).value;
      assert EvalTail(a, 1, a.pow(left, right), cs, 3).Some?;
    }
  }

  lemma {:induction false} ConditionEvaluates<R>(a: Arith<R>, s: string)
    requires ParseCondition(s).Some?
    ensures Eval(a, CONDITION, ParseCondition(s).value.tree).Some?
    decreases |s|, CONDITION, 0
  {
    ParsedEvaluates(a, 7, s);
    var rest := Parse(7, s).value.rest;
    if StartsWith(rest, "?") && Parse(7, rest[1..]).Some? {
      ParsedEvaluates(a, 7, rest[1..]);
      var rest' := Parse(7, rest[1..]).value.rest;
      if StartsWith(rest', ":") && Parse(7, rest'[1..]).Some? {
        ParsedEvaluates(a, 7, rest'[1..]);
      }
    }
  }

  lemma {:induction false} FactorEvaluates<R>(a: Arith<R>, s: string)
    requires ParseFactor(s).Some?
    ensures Eval(a, 0, ParseFactor(s).value.tree).Some?
    decreases |s|, 0, 1
  {
    if Real(s).Some? {
    } else if s[0] == '(' {
      ParsedEvaluates(a, CONDITION, s[1..]);
    } else if IsSign(s[0]) {
      FactorEvaluates(a, s[1..]);
    } else if s[0] != '$' {
      var name := Letters(s);
      ParsedEvaluates(a, CONDITION, s[name..][1..]);
      var call := ParseFactor(s).value.tree.children[0];
      assert call.rule == FunctionCall && EvalCall(a, call.children).Some?;
    }
  }

  /** So evaluate gives a result exactly for the texts that the grammar matches as a whole; else it throws. */
  lemma EvaluatesIffMatched<R>(a: Arith<R>, text: string)
    ensures Evaluate(a, text).Some? <==> Parse(CONDITION, text).Some? && Parse(CONDITION, text).value.rest == ""
  {
    if Parse(CONDITION, text).Some? {
      ParsedEvaluates(a, CONDITION, text);
    }
  }

  // ---- Expressions ----

  datatype Op = Mul | Div | Add | Sub | LessEqual | Less | GreaterEqual | Greater | Equal | NotEqual | And | Or

  /** The functions that can be called; "ln10" is not among them, since a name has no digits. */
  datatype Function = Abs | Sin | Asin | Cos | Acos | Rad | Deg | Ln

  datatype Expr =
    | Literal(text: string)
    | Variable(digit: char)
    | Call(f: Function, arg: Expr)
    | Unknown(name: string, arg: Expr)   // a call of any other function
    | Parens(e: Expr)                    // parentheses where none are needed
    | Negative(e: Expr)
    | Positive(e: Expr)
    | Power(base: Expr, exponent: Expr)
    | Binary(op: Op, left: Expr, right: Expr)
    | Choice(condition: Expr, yes: Expr, no: Expr)

  /** A literal is a whole real number token without a sign. */
  predicate IsLiteral(text: string)
  {
    text != "" && !IsSign(text[0]) && Unsigned(text) == Some(|text|)
  }

  function FunctionText(f: Function): string
  {
    match f
    case Abs => "abs" case Sin => "sin" case Asin => "asin" case Cos => "cos" case Acos => "acos"
    case Rad => "rad" case Deg => "deg" case Ln => "ln"
  }

  predicate IsName(name: string)
  {
    name != "" && Letters(name) == |name|
  }

  predicate WellFormed(e: Expr)
  {
    match e
    case Literal(text) => IsLiteral(text)
    case Variable(digit) => IsDigit(digit)
    case Call(_, arg) => WellFormed(arg)
    case Unknown(name, arg) => IsName(name) && (forall f: Function :: name != FunctionText(f)) && WellFormed(arg)
    case Parens(x) => WellFormed(x)
    case Negative(x) => WellFormed(x)
    case Positive(x) => WellFormed(x)
    case Power(b, x) => WellFormed(b) && WellFormed(x)
    case Binary(op, l, r) => WellFormed(l) && WellFormed(r)
    case Choice(c, y, n) => WellFormed(c) && WellFormed(y) && WellFormed(n)
  }

  // ---- Meaning ----

  function Meaning<R>(a: Arith<R>, op: Op, x: R, y: R): R
  {
    match op
    case Mul => a.mul(x, y)
    case Div => a.div(x, y)
    case Add => a.add(x, y)
    case Sub => a.sub(x, y)
    case LessEqual => if a.lessEqual(x, y) then a.one else a.zero
    case Less => if a.less(x, y) then a.one else a.zero
    case GreaterEqual => if a.greaterEqual(x, y) then a.one else a.zero
    case Greater => if a.greater(x, y) then a.one else a.zero
    case Equal => if a.equal(x, y) then a.one else a.zero
    case NotEqual => if a.equal(x, y) then a.zero else a.one
    case And => if a.isZero(x) then x else y
    case Or => if a.isZero(x) then y else x
  }

  /** Angles are converted with six digits of pi. */
  function FunctionMeaning<R>(a: Arith<R>, f: Function, x: R): R
  {
    match f
    case Abs => a.library.abs(x)
    case Sin => a.library.sin(x)
    case Asin => a.library.asin(x)
    case Cos => a.library.cos(x)
    case Acos => a.library.acos(x)
    case Rad => a.div(a.mul(a.library.pi, x), a.library.degrees)
    case Deg => a.div(a.mul(a.library.degrees, x), a.library.pi)
    case Ln => a.library.log(x)
  }

  function Denote<R>(a: Arith<R>, e: Expr): R
  {
    match e
    case Literal(text) => a.number(text)
    case Variable(digit) => a.variable(digit)
    case Call(f, arg) => FunctionMeaning(a, f, Denote(a, arg))
    case Unknown(_, _) => a.zero
    case Parens(x) => Denote(a, x)
    case Negative(x) => a.neg(Denote(a, x))
    case Positive(x) => Denote(a, x)
    case Power(b, x) => a.pow(Denote(a, b), Denote(a, x))
    case Binary(op, l, r) => Meaning(a, op, Denote(a, l), Denote(a, r))
    case Choice(c, y, n) => if a.isZero(Denote(a, c)) then Denote(a, n) else Denote(a, y)
  }

  /** Reading a literal with a sign in front gives the negative or the same number. */
  ghost predicate Lawful<R(!new)>(a: Arith<R>)
  {
    forall text: string {:trigger IsLiteral(text)} :: IsLiteral(text) ==>
      a.number("-" + text) == a.neg(a.number(text)) && a.number("+" + text) == a.number(text)
  }

  // ---- Texts ----

  function OpLevel(op: Op): nat
  {
    match op
    case Mul => 2 case Div => 2
    case Add => 3 case Sub => 3
    case LessEqual => 4 case Less => 4 case GreaterEqual => 4 case Greater => 4
    case Equal => 5 case NotEqual => 5
    case And => 6
    case Or => 7
  }

  function Text(op: Op): string
  {
    match op
    case Mul => "*" case Div => "/"
    case Add => "+" case Sub => "-"
    case LessEqual => "<=" case Less => "<" case GreaterEqual => ">=" case Greater => ">"
    case Equal => "==" case NotEqual => "!="
    case And => "&&"
    case Or => "||"
  }

  function LevelOf(e: Expr): nat
  {
    match e
    case Power(_, _) => 1
    case Binary(op, _, _) => OpLevel(op)
    case Choice(_, _, _) => CONDITION
    case _ => 0
  }

  /** The operators of a level group to the left, the power to the right, and a condition has no condition as a part. */
  function Print(e: Expr): string
    decreases e, 0
  {
    match e
    case Literal(text) => text
    case Variable(digit) => "$" + [digit]
    case Call(f, arg) => FunctionText(f) + "(" + Print(arg) + ")"
    case Unknown(name, arg) => name + "(" + Print(arg) + ")"
    case Parens(x) => "(" + Print(x) + ")"
    case Negative(x) => "-" + PrintAt(0, x)
    case Positive(x) => "+" + PrintAt(0, x)
    case Power(b, x) => PrintAt(0, b) + "^" + PrintAt(1, x)
    case Binary(op, l, r) => PrintAt(OpLevel(op), l) + Text(op) + PrintAt(OpLevel(op) - 1, r)
    case Choice(c, y, n) => PrintAt(7, c) + "?" + PrintAt(7, y) + ":" + PrintAt(7, n)
  }

  /** Parentheses only where the level requires them. */
  function PrintAt(level: nat, e: Expr): string
    decreases e, 1
  {
    if LevelOf(e) <= level then Print(e) else "(" + Print(e) + ")"
  }

  // ---- What may follow ----

  /** The level at which a character continues an expression; letters, digits and dots continue a token. */
  function Rank(c: char): nat
  {
    match c
    case '^' => 1
    case '*' => 2 case '/' => 2
    case '+' => 3 case '-' => 3
    case '<' => 4 case '>' => 4
    case '=' => 5 case '!' => 5
    case '&' => 6
    case '|' => 7
    case '?' => 8
    case ':' => 9 case ')' => 9
    case _ => 0
  }

  predicate Follows(level: nat, rest: string)
  {
    rest == "" || Rank(rest[0]) > level
  }

  /** The text is parsed up to `rest`, and evaluates to `v`. */
  ghost predicate Means<R>(a: Arith<R>, level: nat, s: string, rest: string, v: R)
    requires level <= CONDITION
  {
    var m := Parse(level, s);
    m.Some? && m.value.rest == rest && Eval(a, level, m.value.tree) == Some(v)
  }

  // ---- Tokens ----

  lemma NoToken(rest: string)
    requires Follows(0, rest) && rest != ""
    ensures !IsDigit(rest[0]) && !IsAlpha(rest[0]) && rest[0] != '.'
  {}

  lemma {:induction false} DigitsStop(s: string, rest: string)
    requires Follows(0, rest)
    ensures Digits(s + rest) == Digits(s)
  {
    if s == "" {
      assert s + rest == rest;
      if rest != "" {
        NoToken(rest);
      }
    } else {
      assert (s + rest)[1..] == s[1..] + rest;
      DigitsStop(s[1..], rest);
    }
  }

  lemma {:induction false} LettersStop(s: string, rest: string)
    requires Letters(s) == |s| && (rest == "" || !IsAlpha(rest[0]))
    ensures Letters(s + rest) == |s|
  {
    if s == "" {
      assert s + rest == rest;
    } else {
      assert (s + rest)[1..] == s[1..] + rest;
      LettersStop(s[1..], rest);
    }
  }

  lemma ExponentStops(s: string, rest: string)
    requires Exponent(s) == Some(|s|) && Follows(0, rest)
    ensures Exponent(s + rest) == Some(|s|)
  {
    if s == "" {
      assert s + rest == rest;
      if rest != "" {
        NoToken(rest);
      }
    } else {
      var k := if |s| > 1 && IsSign(s[1]) then 2 else 1;
      assert (s + rest)[k..] == s[k..] + rest;
      DigitsStop(s[k..], rest);
    }
  }

  lemma FractionStops(s: string, rest: string)
    requires Follows(0, rest)
    ensures Fraction(s + rest) == Fraction(s)
  {
    if s == "" {
      assert s + rest == rest;
      if rest != "" {
        NoToken(rest);
      }
    } else {
      assert (s + rest)[1..] == s[1..] + rest;
      DigitsStop(s[1..], rest);
    }
  }

  lemma MantissaStops(s: string, rest: string)
    requires Follows(0, rest)
    ensures Mantissa(s + rest) == Mantissa(s)
  {
    DigitsStop(s, rest);
    var whole := Digits(s);
    assert (s + rest)[whole..] == s[whole..] + rest;
    FractionStops(s[whole..], rest);
  }

  lemma LiteralStops(text: string, rest: string)
    requires IsLiteral(text) && Follows(0, rest)
    ensures Unsigned(text + rest) == Some(|text|)
  {
    MantissaStops(text, rest);
    var n := Mantissa(text);
    assert (text + rest)[n..] == text[n..] + rest;
    ExponentStops(text[n..], rest);
  }

  lemma NotANumber(s: string)
    requires s == "" || !(IsDigit(s[0]) || s[0] == '.')
    ensures Unsigned(s).None?
  {}

  // ---- A level that has nothing to do ----

  lemma {:induction false} NoAlternative(level: nat, ops: seq<string>, s: string)
    requires 2 <= level < CONDITION
    requires forall i :: 0 <= i < |ops| ==> ops[i] != "" && !StartsWith(s, ops[i])
    ensures ParseAlternatives(level, ops, s).None?
    decreases |ops|
  {
    if ops != [] {
      NoAlternative(level, ops[1..], s);
    }
  }

  lemma NoOperator(level: nat, s: string)
    requires 2 <= level < CONDITION && Follows(level, s)
    ensures ParseTail(level, s) == ([], s)
  {
    forall i | 0 <= i < |Operators(level)| ensures !StartsWith(s, Operators(level)[i]) {
      assert Rank(Operators(level)[i][0]) == level;
    }
    NoAlternative(level, Operators(level), s);
  }

  lemma Lift<R>(a: Arith<R>, level: nat, s: string, rest: string, v: R)
    requires 1 <= level <= CONDITION && Means(a, level - 1, s, rest, v) && Follows(level, rest)
    ensures Means(a, level, s, rest, v)
  {
    var tree := Parse(level - 1, s).value.tree;
    if 2 <= level < CONDITION {
      NoOperator(level, rest);
      assert [tree] + [] == [tree];
    }
    assert Parse(level, s) == Some(Match(Node(Level(level), [tree]), rest));
  }

  lemma {:induction false} LiftTo<R>(a: Arith<R>, low: nat, high: nat, s: string, rest: string, v: R)
    requires low <= high <= CONDITION && Means(a, low, s, rest, v) && Follows(high, rest)
    ensures Means(a, high, s, rest, v)
    decreases high
  {
    if low < high {
      LiftTo(a, low, high - 1, s, rest, v);
      Lift(a, high, s, rest, v);
    }
  }

  // ---- The text of an expression is parsed to its meaning ----

  /** How the text of an expression begins. */
  predicate Starts(c: char)
  {
    IsDigit(c) || IsAlpha(c) || IsSign(c) || c == '.' || c == '(' || c == '$'
  }

  lemma {:induction false} LettersAll(s: string)
    requires forall i :: 0 <= i < |s| ==> IsAlpha(s[i])
    ensures Letters(s) == |s|
  {
    if s != "" {
      LettersAll(s[1..]);
    }
  }

  lemma {:induction false} LettersOnly(s: string)
    requires Letters(s) == |s|
    ensures forall i :: 0 <= i < |s| ==> IsAlpha(s[i])
  {
    if s != "" {
      LettersOnly(s[1..]);
    }
  }

  lemma FunctionIsName(f: Function)
    ensures IsName(FunctionText(f)) && IsAlpha(FunctionText(f)[0])
  {
    LettersAll(FunctionText(f));
  }

  /** The functions are told apart by their texts. */
  lemma FunctionOf<R>(a: Arith<R>, f: Function, x: R)
    ensures CallFunction(a, FunctionText(f), x) == FunctionMeaning(a, f, x)
  {}

  lemma OtherFunction<R>(a: Arith<R>, name: string, x: R)
    requires IsName(name) && forall f: Function :: name != FunctionText(f)
    ensures CallFunction(a, name, x) == a.zero
  {
    assert name != FunctionText(Abs) && name != FunctionText(Sin) && name != FunctionText(Asin) && name != FunctionText(Cos);
    assert name != FunctionText(Acos) && name != FunctionText(Rad) && name != FunctionText(Deg) && name != FunctionText(Ln);
    var ln10 := "ln10";
    LettersOnly(name);
    assert !IsAlpha(ln10[2]) && name != ln10;
  }

  lemma InFront(text: string, behind: string)
    requires text != "" && Starts(text[0])
    ensures text + behind != "" && Starts((text + behind)[0])
  {}

  lemma {:induction false} PrintStarts(e: Expr)
    requires WellFormed(e)
    ensures Print(e) != "" && Starts(Print(e)[0])
    decreases e, 0
  {
    match e
    case Literal(text) => LiteralStarts(text);
    case Call(f, _) => FunctionIsName(f);
    case Unknown(name, _) => assert IsAlpha(name[0]);
    case Power(b, x) =>
      PrintAtStarts(0, b);
      InFront(PrintAt(0, b), "^");
      InFront(PrintAt(0, b) + "^", PrintAt(1, x));
    case Binary(op, l, r) =>
      var level := OpLevel(op);
      PrintAtStarts(level, l);
      InFront(PrintAt(level, l), Text(op));
      InFront(PrintAt(level, l) + Text(op), PrintAt(level - 1, r));
    case Choice(c, y, n) => ChoiceStarts(c, y, n);
    case _ =>
  }

  lemma LiteralStarts(text: string)
    requires IsLiteral(text)
    ensures Starts(text[0])
  {
    if !IsDigit(text[0]) && text[0] != '.' {
      NotANumber(text);
    }
  }

  lemma {:induction false} ChoiceStarts(c: Expr, y: Expr, n: Expr)
    requires WellFormed(c)
    ensures var text := PrintAt(7, c) + "?" + PrintAt(7, y) + ":" + PrintAt(7, n); text != "" && Starts(text[0])
    decreases c, 2
  {
    var condition := PrintAt(7, c);
    PrintAtStarts(7, c);
    InFront(condition, "?");
    InFront(condition + "?", PrintAt(7, y));
    InFront(condition + "?" + PrintAt(7, y), ":");
    InFront(condition + "?" + PrintAt(7, y) + ":", PrintAt(7, n));
  }

  lemma {:induction false} PrintAtStarts(level: nat, e: Expr)
    requires WellFormed(e)
    ensures PrintAt(level, e) != "" && Starts(PrintAt(level, e)[0])
    decreases e, 1
  {
    PrintStarts(e);
  }

  lemma WrappedStarts(text: string)
    ensures ("(" + text + ")")[0] == '('
  {}

  lemma OnlyLiteralsStartLikeOne(x: Expr)
    requires WellFormed(x) && !x.Literal?
    ensures PrintAt(0, x) != "" && !IsDigit(PrintAt(0, x)[0]) && PrintAt(0, x)[0] != '.'
  {
    if LevelOf(x) > 0 {
      WrappedStarts(Print(x));
    } else {
      FactorStarts(x);
    }
  }

  lemma FactorStarts(x: Expr)
    requires WellFormed(x) && !x.Literal? && LevelOf(x) == 0
    ensures Print(x) != "" && !IsDigit(Print(x)[0]) && Print(x)[0] != '.'
  {
    match x
    case Call(f, _) => FunctionIsName(f);
    case Unknown(name, _) => assert Print(x)[0] == name[0] && IsAlpha(name[0]);
    case Parens(_) => assert Print(x)[0] == '(';
    case Negative(_) => assert Print(x)[0] == '-';
    case Positive(_) => assert Print(x)[0] == '+';
    case Variable(_) => assert Print(x)[0] == '$';
  }

  lemma OperatorOf<R>(a: Arith<R>, op: Op, x: R, y: R)
    ensures 2 <= OpLevel(op) < CONDITION
    ensures Text(op) in Operators(OpLevel(op)) && Text(op) != "" && Rank(Text(op)[0]) == OpLevel(op)
    ensures Apply(a, OpLevel(op), Text(op), x, y) == Some(Meaning(a, op, x, y))
  {}

  /** Its place among the operators of its level. */
  function Place(op: Op): nat
  {
    match op
    case Mul => 0 case Div => 1
    case Add => 0 case Sub => 1
    case LessEqual => 0 case Less => 1 case GreaterEqual => 2 case Greater => 3
    case Equal => 0 case NotEqual => 1
    case And => 0
    case Or => 0
  }

  /** The first operator that the text begins with is tried first, and with an operand behind it, it is taken. */
  lemma {:induction false} TakesFirst(level: nat, ops: seq<string>, k: nat, s: string)
    requires 2 <= level < CONDITION && k < |ops| && forall i :: 0 <= i < |ops| ==> ops[i] != ""
    requires StartsWith(s, ops[k]) && forall i :: 0 <= i < k ==> !StartsWith(s, ops[i])
    requires Parse(level - 1, s[|ops[k]|..]).Some?
    ensures var operand := Parse(level - 1, s[|ops[k]|..]).value;
            ParseAlternatives(level, ops, s) == Some(Match(Node(Level(level), [Leaf(ops[k]), operand.tree]), operand.rest))
    decreases |ops|
  {
    if k > 0 {
      TakesFirst(level, ops[1..], k - 1, s);
    }
  }

  lemma EarlierIsNoPrefix(op: Op, operand: string, i: nat)
    requires i < Place(op) && operand != "" && Starts(operand[0])
    ensures !StartsWith(Text(op) + operand, Operators(OpLevel(op))[i])
  {
    var s := Text(op) + operand;
    var other := Operators(OpLevel(op))[i];
    assert s[0] == Text(op)[0] && s[|Text(op)|] == operand[0] != '=';
    assert s[0] != other[0] || (|other| > 1 && s[1] != other[1]);
  }

  /** An operator in front of an operand is recognized: an earlier one is no prefix of the text. */
  lemma Chooses(op: Op, operand: string)
    requires operand != "" && Starts(operand[0]) && Parse(OpLevel(op) - 1, operand).Some?
    ensures var m := Parse(OpLevel(op) - 1, operand).value;
            ParseAlternatives(OpLevel(op), Operators(OpLevel(op)), Text(op) + operand)
            == Some(Match(Node(Level(OpLevel(op)), [Leaf(Text(op)), m.tree]), m.rest))
  {
    var level, s := OpLevel(op), Text(op) + operand;
    var ops := Operators(level);
    assert ops[Place(op)] == Text(op) && s[|Text(op)|..] == operand;
    forall i | 0 <= i < Place(op) ensures !StartsWith(s, ops[i]) {
      EarlierIsNoPrefix(op, operand, i);
    }
    TakesFirst(level, ops, Place(op), s);
  }

  /** While the loop of a level is at `rest`: what it has collected up to child `k` evaluates to `v`. */
  ghost predicate Collected<R>(a: Arith<R>, level: nat, s: string, rest: string, v: R, k: nat)
    requires 2 <= level < CONDITION
  {
    var m := Parse(level, s);
    && m.Some? && m.value.tree.Node? && m.value.tree.rule == Level(level)
    && var cs := m.value.tree.children;
       && 1 <= k <= |cs| && cs[k..] == ParseTail(level, rest).0 && m.value.rest == ParseTail(level, rest).1
       && Eval(a, level, m.value.tree) == EvalTail(a, level, v, cs, k)
  }

  lemma CollectFirst<R>(a: Arith<R>, level: nat, s: string, rest: string, v: R)
    requires 2 <= level < CONDITION && Means(a, level - 1, s, rest, v)
    ensures Collected(a, level, s, rest, v, 1)
  {
    var first := Parse(level - 1, s).value.tree;
    var cs := [first] + ParseTail(level, rest).0;
    assert Parse(level, s) == Some(Match(Node(Level(level), cs), ParseTail(level, rest).1));
    assert cs[1..] == ParseTail(level, rest).0;
  }

  lemma CollectNext<R>(a: Arith<R>, op: Op, s: string, behind: string, left: R, operand: string, rest: string, right: R, k: nat)
    requires operand != "" && Starts(operand[0]) && behind == Text(op) + operand
    requires Collected(a, OpLevel(op), s, behind, left, k)
    requires Means(a, OpLevel(op) - 1, operand, rest, right)
    ensures Collected(a, OpLevel(op), s, rest, Meaning(a, op, left, right), k + 2)
  {
    var level := OpLevel(op);
    var cs := Parse(level, s).value.tree.children;
    var tree := Parse(level - 1, operand).value.tree;
    Chooses(op, operand);
    OperatorOf(a, op, left, right);
    var more := ParseTail(level, rest).0;
    assert cs[k..] == [Leaf(Text(op)), tree] + more;
    assert cs[k] == cs[k..][0] && cs[k + 1] == cs[k..][1] && cs[k + 2..] == cs[k..][2..] == more;
  }

  lemma CollectAll<R>(a: Arith<R>, level: nat, s: string, rest: string, v: R, k: nat)
    requires 2 <= level < CONDITION && Collected(a, level, s, rest, v, k) && Follows(level, rest)
    ensures Means(a, level, s, rest, v)
  {
    NoOperator(level, rest);
    var cs := Parse(level, s).value.tree.children;
    assert |cs| == k + |cs[k..]|;
  }

  /** Parentheses have the meaning of what is inside. */
  lemma Parenthesized<R>(a: Arith<R>, text: string, rest: string, v: R)
    requires Means(a, CONDITION, text, ")" + rest, v)
    ensures Means(a, 0, "(" + text, rest, v)
  {
    var s := "(" + text;
    var tree := Parse(CONDITION, text).value.tree;
    assert s[1..] == text && (")" + rest)[1..] == rest;
    NotANumber(s);
    assert ParseParenthesized(s) == Some(Match(tree, rest));
    assert Parse(0, s) == Some(Match(Node(Level(0), [Leaf("("), tree, Leaf(")")]), rest));
  }

  lemma TokenParses(token: string, rest: string, s: string)
    requires token != "" && s == token + rest && Real(s) == Some(|token|)
    ensures Parse(0, s) == Some(Match(Node(Level(0), [Node(Number, [Leaf(token)])]), rest))
  {
    assert s[..|token|] == token && s[|token|..] == rest;
  }

  lemma TokenMeans<R>(a: Arith<R>, token: string, rest: string, s: string)
    requires token != "" && s == token + rest && Real(s) == Some(|token|)
    ensures Means(a, 0, s, rest, a.number(token))
  {
    TokenParses(token, rest, s);
    assert EvalFactor(a, [Node(Number, [Leaf(token)])]) == Some(a.number(token));
  }

  lemma LiteralMeans<R(!new)>(a: Arith<R>, text: string, rest: string)
    requires IsLiteral(text) && Follows(0, rest)
    ensures Means(a, 0, text + rest, rest, a.number(text))
  {
    LiteralStops(text, rest);
    assert (text + rest)[0] == text[0];
    TokenMeans(a, text, rest, text + rest);
  }

  lemma SignedToken(sign: string, text: string, rest: string, token: string, s: string)
    requires (sign == "-" || sign == "+") && token == sign + text && s == token + rest && IsLiteral(text) && Follows(0, rest)
    ensures Real(s) == Some(|token|)
  {
    LiteralStops(text, rest);
    assert s[1..] == text + rest;
  }

  /** A sign in front of a literal goes into the number token, with the same effect. */
  lemma SignedLiteralMeans<R(!new)>(a: Arith<R>, sign: string, text: string, rest: string, s: string)
    requires (sign == "-" || sign == "+") && s == sign + text + rest
    requires Lawful(a) && IsLiteral(text) && Follows(0, rest)
    ensures Means(a, 0, s, rest, if sign == "-" then a.neg(a.number(text)) else a.number(text))
  {
    var token := sign + text;
    SignedToken(sign, text, rest, token, s);
    TokenMeans(a, token, rest, s);
  }

  lemma SignMeans<R>(a: Arith<R>, sign: string, operand: string, rest: string, v: R)
    requires sign == "-" || sign == "+"
    requires Unsigned(operand).None? && Means(a, 0, operand, rest, v)
    ensures Means(a, 0, sign + operand, rest, if sign == "-" then a.neg(v) else v)
  {
    var s := sign + operand;
    assert s[1..] == operand && [s[0]] == sign;
    assert Parse(0, s) == Some(Match(Node(Level(0), [Leaf(sign), Parse(0, operand).value.tree]), rest));
  }

  lemma VariableMeans<R>(a: Arith<R>, digit: char, rest: string)
    requires IsDigit(digit)
    ensures Means(a, 0, "$" + [digit] + rest, rest, a.variable(digit))
  {
    var s := "$" + [digit] + rest;
    NotANumber(s);
    assert s[1] == digit && s[2..] == rest;
    assert Parse(0, s) == Some(Match(Node(Level(0), [Leaf("$"), Node(Index, [Leaf([digit])])]), rest));
  }

  lemma CallParses(name: string, behind: string, inner: Match)
    requires IsName(name) && behind != "" && behind[0] == '('
    requires ParseParenthesized(behind) == Some(inner)
    ensures Parse(0, name + behind)
            == Some(Match(Node(Level(0), [Node(FunctionCall, [Leaf(name), Leaf("("), inner.tree, Leaf(")")])]), inner.rest))
  {
    var s := name + behind;
    assert s[0] == name[0] && IsAlpha(s[0]);
    LettersStop(name, behind);
    NotANumber(s);
    assert s[..|name|] == name && s[|name|..] == behind;
    assert Real(s).None? && !IsSign(s[0]) && s[0] != '(' && s[0] != '$';
    assert Parse(0, s) == ParseFactor(s);
  }

  lemma CallEvaluates<R>(a: Arith<R>, name: string, tree: Tree, v: R)
    requires Eval(a, CONDITION, tree) == Some(v)
    ensures Eval(a, 0, Node(Level(0), [Node(FunctionCall, [Leaf(name), Leaf("("), tree, Leaf(")")])]))
            == Some(CallFunction(a, name, v))
  {
    var fs := [Leaf(name), Leaf("("), tree, Leaf(")")];
    assert EvalCall(a, fs) == Some(CallFunction(a, name, v));
  }

  lemma CallMeans<R>(a: Arith<R>, name: string, text: string, rest: string, v: R, s: string)
    requires IsName(name)
    requires Means(a, CONDITION, text, ")" + rest, v)
    requires s == name + ("(" + text)
    ensures Means(a, 0, s, rest, CallFunction(a, name, v))
  {
    var behind := "(" + text;
    var tree := Parse(CONDITION, text).value.tree;
    assert behind[1..] == text && (")" + rest)[1..] == rest;
    assert ParseParenthesized(behind) == Some(Match(tree, rest));
    CallParses(name, behind, Match(tree, rest));
    CallEvaluates(a, name, tree, v);
  }

  lemma PowerMeans<R>(a: Arith<R>, s: string, exponent: string, rest: string, v: R, w: R)
    requires Means(a, 0, s, "^" + exponent, v) && Means(a, 1, exponent, rest, w)
    ensures Means(a, 1, s, rest, a.pow(v, w))
  {
    assert ("^" + exponent)[1..] == exponent;
    var cs := [Parse(0, s).value.tree, Leaf("^"), Parse(1, exponent).value.tree];
    assert Parse(1, s) == Some(Match(Node(Level(1), cs), rest));
    assert EvalTail(a, 1, a.pow(v, w), cs, 3) == Some(a.pow(v, w));
  }

  lemma ChoiceMeans<R>(a: Arith<R>, s: string, yes: string, no: string, rest: string, c: R, y: R, n: R)
    requires Means(a, 7, s, "?" + yes, c) && Means(a, 7, yes, ":" + no, y) && Means(a, 7, no, rest, n)
    ensures Means(a, CONDITION, s, rest, if a.isZero(c) then n else y)
  {
    assert ("?" + yes)[1..] == yes && (":" + no)[1..] == no;
    var cs := [Parse(7, s).value.tree, Leaf("?"), Parse(7, yes).value.tree, Leaf(":"), Parse(7, no).value.tree];
    assert Parse(CONDITION, s) == Some(Match(Node(Level(CONDITION), cs), rest));
  }

  function Wrapped(level: nat, e: Expr): nat
  {
    if LevelOf(e) > level then 1 else 0
  }

  /** The text of an expression, in front of anything that cannot continue it, is parsed as a whole and evaluates to its meaning. */
  lemma {:induction false} PrintedMeans<R(!new)>(a: Arith<R>, level: nat, e: Expr, rest: string, s: string)
    requires Lawful(a) && WellFormed(e) && level <= CONDITION && Follows(level, rest)
    requires s == PrintAt(level, e) + rest
    ensures Means(a, level, s, rest, Denote(a, e))
    decreases e, Wrapped(level, e), level, 2
  {
    if LevelOf(e) > level {
      WrappedMeans(a, e, rest, s);
      LiftTo(a, 0, level, s, rest, Denote(a, e));
    } else if LevelOf(e) < level {
      PrintedMeans(a, level - 1, e, rest, s);
      Lift(a, level, s, rest, Denote(a, e));
    } else {
      ExactMeans(a, e, rest, s);
    }
  }

  lemma {:induction false} ExactMeans<R(!new)>(a: Arith<R>, e: Expr, rest: string, s: string)
    requires Lawful(a) && WellFormed(e) && Follows(LevelOf(e), rest) && s == Print(e) + rest
    ensures LevelOf(e) <= CONDITION && Means(a, LevelOf(e), s, rest, Denote(a, e))
    decreases e, 0, LevelOf(e), 1
  {
    var level := LevelOf(e);
    if level == 0 {
      FactorMeans(a, e, rest, s);
    } else if level == 1 {
      PrintedPowerMeans(a, e, rest, s);
    } else if level == CONDITION {
      PrintedChoiceMeans(a, e, rest, s);
    } else {
      SpineMeans(a, level, e, rest, s);
      var k :| Collected(a, level, s, rest, Denote(a, e), k);
      CollectAll(a, level, s, rest, Denote(a, e), k);
    }
  }

  lemma {:induction false} WrappedMeans<R(!new)>(a: Arith<R>, e: Expr, rest: string, s: string)
    requires Lawful(a) && WellFormed(e) && s == "(" + Print(e) + ")" + rest
    ensures Means(a, 0, s, rest, Denote(a, e))
    decreases e, 0, CONDITION, 3
  {
    var text, behind := WrappedText(e, rest, s);
    PrintedMeans(a, CONDITION, e, behind, text);
    Parenthesized(a, text, rest, Denote(a, e));
  }

  lemma WrappedText(e: Expr, rest: string, s: string) returns (text: string, behind: string)
    requires s == "(" + Print(e) + ")" + rest
    ensures behind == ")" + rest && Follows(CONDITION, behind)
    ensures s == "(" + text && text == PrintAt(CONDITION, e) + behind
  {
    behind := ")" + rest;
    text := Print(e) + behind;
    ParenthesesText(Print(e), rest);
  }

  lemma ParenthesesText(inner: string, rest: string)
    ensures "(" + inner + ")" + rest == "(" + (inner + (")" + rest))
  {}

  lemma {:induction false} PrintedPowerMeans<R(!new)>(a: Arith<R>, e: Expr, rest: string, s: string)
    requires Lawful(a) && WellFormed(e) && e.Power? && Follows(1, rest) && s == Print(e) + rest
    ensures Means(a, 1, s, rest, Denote(a, e))
    decreases e, 0, 0, 0
  {
    var exponent, behind := PowerText(e, rest, s);
    PrintedMeans(a, 0, e.base, behind, s);
    PrintedMeans(a, 1, e.exponent, rest, exponent);
    PowerMeans(a, s, exponent, rest, Denote(a, e.base), Denote(a, e.exponent));
  }

  lemma PowerText(e: Expr, rest: string, s: string) returns (exponent: string, behind: string)
    requires e.Power? && s == Print(e) + rest
    ensures exponent == PrintAt(1, e.exponent) + rest && behind == "^" + exponent && s == PrintAt(0, e.base) + behind
    ensures Follows(0, behind)
  {
    var b, x := PrintAt(0, e.base), PrintAt(1, e.exponent);
    exponent := x + rest;
    behind := "^" + exponent;
    assert s == b + "^" + x + rest == b + behind;
  }

  lemma {:induction false} PrintedChoiceMeans<R(!new)>(a: Arith<R>, e: Expr, rest: string, s: string)
    requires Lawful(a) && WellFormed(e) && e.Choice? && Follows(CONDITION, rest) && s == Print(e) + rest
    ensures Means(a, CONDITION, s, rest, Denote(a, e))
    decreases e, 0, 0, 0
  {
    var yes, no := ChoiceText(e, rest, s);
    PrintedMeans(a, 7, e.condition, "?" + yes, s);
    PrintedMeans(a, 7, e.yes, ":" + no, yes);
    PrintedMeans(a, 7, e.no, rest, no);
    ChoiceMeans(a, s, yes, no, rest, Denote(a, e.condition), Denote(a, e.yes), Denote(a, e.no));
  }

  lemma ChoiceText(e: Expr, rest: string, s: string) returns (yes: string, no: string)
    requires e.Choice? && s == Print(e) + rest
    ensures no == PrintAt(7, e.no) + rest && yes == PrintAt(7, e.yes) + (":" + no) && s == PrintAt(7, e.condition) + ("?" + yes)
    ensures Follows(7, ":" + no) && Follows(7, "?" + yes)
  {
    var c, y, n := PrintAt(7, e.condition), PrintAt(7, e.yes), PrintAt(7, e.no);
    no := n + rest;
    yes := y + (":" + no);
    assert s == c + "?" + y + ":" + n + rest == c + ("?" + yes);
  }

  lemma {:induction false} FactorMeans<R(!new)>(a: Arith<R>, e: Expr, rest: string, s: string)
    requires Lawful(a) && WellFormed(e) && LevelOf(e) == 0 && Follows(0, rest) && s == Print(e) + rest
    ensures Means(a, 0, s, rest, Denote(a, e))
    decreases e, 0, 0, 0
  {
    match e
    case Literal(text) =>
      LiteralMeans(a, text, rest);
    case Variable(digit) =>
      VariableMeans(a, digit, rest);
    case Call(f, arg) =>
      FunctionIsName(f);
      FunctionOf(a, f, Denote(a, arg));
      PrintedCallMeans(a, FunctionText(f), arg, rest, s);
    case Unknown(name, arg) =>
      OtherFunction(a, name, Denote(a, arg));
      PrintedCallMeans(a, name, arg, rest, s);
    case Parens(x) =>
      WrappedMeans(a, x, rest, s);
    case Negative(x) =>
      SignedMeans(a, "-", x, rest, s);
    case Positive(x) =>
      SignedMeans(a, "+", x, rest, s);
  }

  lemma {:induction false} PrintedCallMeans<R(!new)>(a: Arith<R>, name: string, arg: Expr, rest: string, s: string)
    requires Lawful(a) && WellFormed(arg) && IsName(name) && s == name + "(" + Print(arg) + ")" + rest
    ensures Means(a, 0, s, rest, CallFunction(a, name, Denote(a, arg)))
    decreases arg, 2, 0, 0
  {
    var text, behind := CallText(name, arg, rest, s);
    PrintedMeans(a, CONDITION, arg, behind, text);
    CallMeans(a, name, text, rest, Denote(a, arg), s);
  }

  lemma CallText(name: string, arg: Expr, rest: string, s: string) returns (text: string, behind: string)
    requires s == name + "(" + Print(arg) + ")" + rest
    ensures behind == ")" + rest && Follows(CONDITION, behind) && text == PrintAt(CONDITION, arg) + behind && s == name + ("(" + text)
  {
    var inner := Print(arg);
    behind := ")" + rest;
    text := inner + behind;
    assert s == name + "(" + inner + ")" + rest == name + ("(" + text);
  }

  lemma {:induction false} SignedMeans<R(!new)>(a: Arith<R>, sign: string, x: Expr, rest: string, s: string)
    requires sign == "-" || sign == "+"
    requires Lawful(a) && WellFormed(x) && Follows(0, rest) && s == sign + PrintAt(0, x) + rest
    ensures Means(a, 0, s, rest, if sign == "-" then a.neg(Denote(a, x)) else Denote(a, x))
    decreases x, 2, 0, 0
  {
    if x.Literal? {
      SignedLiteralMeans(a, sign, x.text, rest, s);
    } else {
      var operand := PrintAt(0, x) + rest;
      assert s == sign + operand;
      PrintedMeans(a, 0, x, rest, operand);
      OnlyLiteralsStartLikeOne(x);
      NotANumber(operand);
      SignMeans(a, sign, operand, rest, Denote(a, x));
    }
  }

  /** The loop of a level gets to `rest`, and what it has collected by then evaluates to `v`. */
  ghost predicate Gathered<R>(a: Arith<R>, level: nat, s: string, rest: string, v: R)
    requires 2 <= level < CONDITION
  {
    exists k :: Collected(a, level, s, rest, v, k)
  }

  /** The operands of a left-associative level are collected one by one, the leftmost first. */
  lemma {:induction false} SpineMeans<R(!new)>(a: Arith<R>, level: nat, e: Expr, rest: string, s: string)
    requires Lawful(a) && WellFormed(e) && 2 <= level < CONDITION && Follows(level - 1, rest)
    requires s == PrintAt(level, e) + rest
    ensures Gathered(a, level, s, rest, Denote(a, e))
    decreases e, Wrapped(level, e), level, 0
  {
    if LevelOf(e) != level {
      assert PrintAt(level, e) == PrintAt(level - 1, e);
      PrintedMeans(a, level - 1, e, rest, s);
      CollectFirst(a, level, s, rest, Denote(a, e));
    } else {
      var operand := BinaryText(e, rest, s);
      LeftMeans(a, e.op, e.left, s, operand);
      GatherOperand(a, e.op, s, Denote(a, e.left), operand, rest, e.right);
      assert Denote(a, e) == Meaning(a, e.op, Denote(a, e.left), Denote(a, e.right));
    }
  }

  lemma OperatorFollows(op: Op, operand: string)
    ensures Follows(OpLevel(op) - 1, Text(op) + operand)
  {}

  lemma {:induction false} LeftMeans<R(!new)>(a: Arith<R>, op: Op, l: Expr, s: string, operand: string)
    requires Lawful(a) && WellFormed(l) && s == PrintAt(OpLevel(op), l) + (Text(op) + operand)
    ensures Gathered(a, OpLevel(op), s, Text(op) + operand, Denote(a, l))
    decreases l, 2, 0, 0
  {
    OperatorFollows(op, operand);
    SpineMeans(a, OpLevel(op), l, Text(op) + operand, s);
  }

  lemma {:induction false} GatherOperand<R(!new)>(a: Arith<R>, op: Op, s: string, left: R, operand: string, rest: string, r: Expr)
    requires Lawful(a) && WellFormed(r) && operand == PrintAt(OpLevel(op) - 1, r) + rest && Follows(OpLevel(op) - 1, rest)
    requires Gathered(a, OpLevel(op), s, Text(op) + operand, left)
    ensures Gathered(a, OpLevel(op), s, rest, Meaning(a, op, left, Denote(a, r)))
    decreases r, 2, 0, 0
  {
    var k :| Collected(a, OpLevel(op), s, Text(op) + operand, left, k);
    PrintedMeans(a, OpLevel(op) - 1, r, rest, operand);
    PrintAtStarts(OpLevel(op) - 1, r);
    CollectNext(a, op, s, Text(op) + operand, left, operand, rest, Denote(a, r), k);
  }

  lemma BinaryText(e: Expr, rest: string, s: string) returns (operand: string)
    requires WellFormed(e) && e.Binary? && s == PrintAt(OpLevel(e.op), e) + rest
    ensures operand == PrintAt(OpLevel(e.op) - 1, e.right) + rest && s == PrintAt(OpLevel(e.op), e.left) + (Text(e.op) + operand)
  {
    var l, op, r := PrintAt(OpLevel(e.op), e.left), Text(e.op), PrintAt(OpLevel(e.op) - 1, e.right);
    operand := r + rest;
    assert s == l + op + r + rest == l + (op + operand);
  }

  /** For every expression: its text is fully consumed, no assert fires, and the result is its meaning. */
  lemma EvaluateIsDenotation<R(!new)>(a: Arith<R>, e: Expr)
    requires Lawful(a) && WellFormed(e)
    ensures Evaluate(a, Print(e)) == Some(Denote(a, e))
  {
    var s := Print(e);
    assert s == s + "";
    PrintedMeans(a, CONDITION, e, "", s);
  }

  /** A function name is made of letters alone, so the branch for "ln10" is never taken: such a text is not even matched. */
  lemma Ln10IsNotMatched(behind: string)
    ensures ParseFactor("ln10" + behind).None?
  {
    var s := "ln10" + behind;
    assert s[0] == 'l' && s[1] == 'n' && s[2] == '1';
    assert Letters(s) == 1 + Letters(s[1..]) && Letters(s[1..]) == 1 + Letters(s[1..][1..]);
    assert s[1..][1..] == s[2..] && Letters(s[2..]) == 0;
    NotANumber(s);
    assert !StartsWith(s[2..], "(");
  }
}
