/**
 * The texts that evaluate accepts are exactly the texts of expressions, and the result is the meaning of the
 * expression: the proofs about printing, in the other direction.
 */
module EquationTexts {
  import opened Base
  import opened Equation
  import opened EquationProofs

  /** What is matched up to `rest` is the text of this expression, and evaluates to its meaning. */
  ghost predicate Reads<R>(a: Arith<R>, level: nat, s: string, rest: string, e: Expr)
    requires level <= CONDITION
  {
    WellFormed(e) && LevelOf(e) <= level && s == Print(e) + rest && Means(a, level, s, rest, Denote(a, e))
  }

  // ---- Tokens ----

  lemma {:induction false} DigitsPrefix(s: string, n: nat)
    requires Digits(s) <= n <= |s|
    ensures Digits(s[..n]) == Digits(s)
  {
    if s != "" && IsDigit(s[0]) {
      assert s[..n][1..] == s[1..][..n - 1];
      DigitsPrefix(s[1..], n - 1);
    }
  }

  lemma FractionPrefix(s: string, n: nat)
    requires Fraction(s) <= n <= |s|
    ensures Fraction(s[..n]) == Fraction(s)
  {
    if s != "" && s[0] == '.' {
      assert s[..n][1..] == s[1..][..n - 1];
      DigitsPrefix(s[1..], n - 1);
    }
  }

  lemma PrefixBehind(s: string, n: nat, k: nat)
    requires k <= n <= |s|
    ensures s[..n][k..] == s[k..][..n - k]
  {}

  lemma MantissaPrefix(s: string, n: nat, whole: nat, tail: string, t: string)
    requires whole == Digits(s) && tail == s[whole..] && whole + Fraction(tail) <= n <= |s| && t == s[..n]
    ensures Digits(t) == whole && Fraction(t[whole..]) == Fraction(tail)
  {
    DigitsPrefix(s, n);
    PrefixBehind(s, n, whole);
    var k := n - whole;
    FractionPrefix(tail, k);
    assert t[whole..] == tail[..k];
  }

  lemma ExponentPrefix(s: string)
    requires Exponent(s).Some?
    ensures Exponent(s[..Exponent(s).value]) == Exponent(s)
  {
    var n := Exponent(s).value;
    if n != 0 {
      var k := if |s| > 1 && IsSign(s[1]) then 2 else 1;
      assert s[..n][k..] == s[k..][..n - k];
      DigitsPrefix(s[k..], n - k);
    }
  }

  /** A number token, cut out of the text, is a literal. */
  lemma TokenIsLiteral(s: string)
    requires Unsigned(s).Some?
    ensures IsLiteral(s[..Unsigned(s).value])
  {
    var mantissa, n := Mantissa(s), Unsigned(s).value;
    var behind, token := s[mantissa..], s[..n];
    MantissaPrefix(s, n, Digits(s), s[Digits(s)..], token);
    PrefixBehind(s, n, mantissa);
    ExponentPrefix(behind);
    TokenParts(token, mantissa, behind[..n - mantissa]);
    NotSigned(s);
  }

  lemma TokenParts(token: string, mantissa: nat, exponent: string)
    requires mantissa == Mantissa(token) > 0 && exponent == token[mantissa..] && Exponent(exponent) == Some(|exponent|)
    ensures Unsigned(token) == Some(|token|)
  {}

  lemma NotSigned(s: string)
    requires Unsigned(s).Some?
    ensures s != "" && !IsSign(s[0])
  {
    if s == "" || !(IsDigit(s[0]) || s[0] == '.') {
      NotANumber(s);
    }
  }

  lemma {:induction false} LettersPrefix(s: string)
    ensures Letters(s[..Letters(s)]) == Letters(s)
  {
    if Letters(s) > 0 {
      var n := Letters(s);
      assert s[..n][1..] == s[1..][..n - 1];
      LettersPrefix(s[1..]);
    }
  }

  // ---- Factors ----

  lemma Regroup(first: string, second: string, third: string)
    ensures first + (second + third) == first + second + third
  {}

  lemma CutAt(s: string, n: nat)
    requires n <= |s|
    ensures s == s[..n] + s[n..] && |s[..n]| == n
  {}

  lemma NumberReads<R(!new)>(a: Arith<R>, s: string) returns (e: Expr)
    requires Lawful(a) && Real(s).Some?
    ensures Reads(a, 0, s, s[Real(s).value..], e)
  {
    var n := Real(s).value;
    CutAt(s, n);
    TokenMeans(a, s[..n], s[n..], s);
    e := TokenExpr(a, s, n, s[..n]);
  }

  lemma SignedTokenCut(s: string, n: nat, token: string) returns (sign: string, text: string)
    requires Real(s) == Some(n) && token == s[..n] && IsSign(s[0])
    ensures (sign == "-" || sign == "+") && IsLiteral(text) && token == sign + text
  {
    var behind := s[1..];
    sign, text := s[..1], behind[..n - 1];
    TokenIsLiteral(behind);
    assert token == sign + text;
  }

  lemma TokenExpr<R(!new)>(a: Arith<R>, s: string, n: nat, token: string) returns (e: Expr)
    requires Lawful(a) && Real(s) == Some(n) && token == s[..n]
    ensures WellFormed(e) && LevelOf(e) == 0 && Print(e) == token && Denote(a, e) == a.number(token)
  {
    if IsSign(s[0]) {
      var sign, text := SignedTokenCut(s, n, token);
      e := SignedNumber(a, sign, text);
    } else {
      TokenIsLiteral(s);
      e := Literal(token);
    }
  }

  lemma SignedNumber<R(!new)>(a: Arith<R>, sign: string, text: string) returns (e: Expr)
    requires Lawful(a) && (sign == "-" || sign == "+") && IsLiteral(text)
    ensures WellFormed(e) && LevelOf(e) == 0 && Print(e) == sign + text && Denote(a, e) == a.number(sign + text)
  {
    e := Signed(sign, Literal(text));
    SignPrints(sign, Literal(text));
    SignDenotes(a, sign, Literal(text));
    assert Print(Literal(text)) == text && Denote(a, Literal(text)) == a.number(text);
  }

  function Signed(sign: string, x: Expr): Expr
  {
    if sign == "-" then Negative(x) else Positive(x)
  }

  lemma SignPrints(sign: string, x: Expr)
    requires (sign == "-" || sign == "+") && LevelOf(x) == 0
    ensures Print(Signed(sign, x)) == sign + Print(x)
  {}

  lemma SignDenotes<R>(a: Arith<R>, sign: string, x: Expr)
    requires sign == "-" || sign == "+"
    ensures Denote(a, Signed(sign, x)) == if sign == "-" then a.neg(Denote(a, x)) else Denote(a, x)
  {}

  lemma VariableReads<R(!new)>(a: Arith<R>, s: string) returns (e: Expr)
    requires ParseFactor(s).Some? && Real(s).None? && s[0] == '$'
    ensures Reads(a, 0, s, ParseFactor(s).value.rest, e)
  {
    e := Variable(s[1]);
    assert s == "$" + [s[1]] + s[2..];
    VariableMeans(a, s[1], s[2..]);
  }

  /** What is inside of parentheses is the text of an expression. */
  lemma {:induction false} InsideReads<R(!new)>(a: Arith<R>, s: string) returns (e: Expr, text: string, rest: string)
    requires Lawful(a) && ParseParenthesized(s).Some?
    ensures rest == ParseParenthesized(s).value.rest && s == "(" + text && text == Print(e) + (")" + rest)
    ensures WellFormed(e) && Means(a, CONDITION, text, ")" + rest, Denote(a, e))
    decreases |s|, 0, 0
  {
    text := s[1..];
    rest := ParseParenthesized(s).value.rest;
    e := ParsedReads(a, CONDITION, text);
    CutAt(s, 1);
    CutAt(Parse(CONDITION, text).value.rest, 1);
  }

  lemma ParensPrint(e: Expr, front: string, s: string, rest: string)
    requires s == front + ("(" + (Print(e) + (")" + rest)))
    ensures s == front + "(" + Print(e) + ")" + rest
  {
    var inner := Print(e);
    assert front + ("(" + (inner + (")" + rest))) == front + "(" + inner + ")" + rest;
  }

  lemma {:induction false} ParensRead<R(!new)>(a: Arith<R>, s: string) returns (e: Expr)
    requires Lawful(a) && ParseParenthesized(s).Some?
    ensures Reads(a, 0, s, ParseParenthesized(s).value.rest, e)
    decreases |s|, 0, 1
  {
    var inner, text, rest := InsideReads(a, s);
    Parenthesized(a, text, rest, Denote(a, inner));
    ParensPrint(inner, "", s, rest);
    assert "" + "(" == "(";
    e := Parens(inner);
  }

  lemma CalledExpr<R(!new)>(a: Arith<R>, name: string, arg: Expr) returns (e: Expr)
    requires IsName(name) && WellFormed(arg)
    ensures WellFormed(e) && LevelOf(e) == 0 && Print(e) == name + "(" + Print(arg) + ")"
    ensures Denote(a, e) == CallFunction(a, name, Denote(a, arg))
  {
    if f: Function :| name == FunctionText(f) {
      FunctionOf(a, f, Denote(a, arg));
      e := Call(f, arg);
    } else {
      OtherFunction(a, name, Denote(a, arg));
      e := Unknown(name, arg);
    }
  }

  lemma {:induction false} CallReads<R(!new)>(a: Arith<R>, s: string, n: nat) returns (e: Expr)
    requires Lawful(a) && n == Letters(s) > 0 && ParseParenthesized(s[n..]).Some?
    ensures Reads(a, 0, s, ParseParenthesized(s[n..]).value.rest, e)
    decreases |s|, 0, 1
  {
    var name := s[..n];
    LettersPrefix(s);
    var arg, text, rest := InsideReads(a, s[n..]);
    CutAt(s, n);
    CallMeans(a, name, text, rest, Denote(a, arg), s);
    ParensPrint(arg, name, s, rest);
    e := CalledExpr(a, name, arg);
  }

  lemma SignOf<R(!new)>(a: Arith<R>, s: string, sign: string, operand: string, rest: string, x: Expr)
    requires (sign == "-" || sign == "+") && s == sign + operand && Unsigned(operand).None? && Reads(a, 0, operand, rest, x)
    ensures Reads(a, 0, s, rest, Signed(sign, x))
  {
    SignMeans(a, sign, operand, rest, Denote(a, x));
    SignDenotes(a, sign, x);
    SignPrints(sign, x);
    Regroup(sign, Print(x), rest);
  }

  lemma {:induction false} SignReads<R(!new)>(a: Arith<R>, s: string, operand: string) returns (e: Expr)
    requires Lawful(a) && s != "" && IsSign(s[0]) && operand == s[1..] && Unsigned(operand).None? && ParseFactor(operand).Some?
    ensures Reads(a, 0, s, ParseFactor(operand).value.rest, e)
    decreases |s|, 0, 1
  {
    var x := FactorReads(a, operand);
    CutAt(s, 1);
    SignOf(a, s, s[..1], operand, ParseFactor(operand).value.rest, x);
    e := Signed(s[..1], x);
  }

  lemma {:induction false} FactorReads<R(!new)>(a: Arith<R>, s: string) returns (e: Expr)
    requires Lawful(a) && ParseFactor(s).Some?
    ensures Reads(a, 0, s, ParseFactor(s).value.rest, e)
    decreases |s|, 0, 2
  {
    if Real(s).Some? {
      e := NumberReads(a, s);
    } else if s[0] == '(' {
      e := ParensRead(a, s);
    } else if IsSign(s[0]) {
      e := SignReads(a, s, s[1..]);
    } else if s[0] == '$' {
      e := VariableReads(a, s);
    } else {
      e := CallReads(a, s, Letters(s));
    }
  }

  // ---- Levels ----

  /** A level with a single child. */
  lemma SingleMeans<R>(a: Arith<R>, level: nat, s: string, rest: string, v: R)
    requires 1 <= level <= CONDITION && Means(a, level - 1, s, rest, v)
    requires Parse(level, s) == Some(Match(Node(Level(level), [Parse(level - 1, s).value.tree]), rest))
    ensures Means(a, level, s, rest, v)
  {}

  lemma PowerWithExponent(s: string, exponent: string)
    requires ParseFactor(s).Some? && ParseFactor(s).value.rest == "^" + exponent && ParsePower(exponent).Some?
    ensures ParsePower(s).Some? && ParsePower(s).value.rest == ParsePower(exponent).value.rest
  {
    assert ("^" + exponent)[1..] == exponent;
  }

  lemma PowerAlone(s: string, behind: string)
    requires ParseFactor(s).Some? && ParseFactor(s).value.rest == behind
    requires StartsWith(behind, "^") ==> ParsePower(behind[1..]).None?
    ensures Parse(1, s) == Some(Match(Node(Level(1), [Parse(0, s).value.tree]), behind))
  {}

  lemma {:induction false} PowerReads<R(!new)>(a: Arith<R>, s: string) returns (e: Expr)
    requires Lawful(a) && ParsePower(s).Some?
    ensures Reads(a, 1, s, ParsePower(s).value.rest, e)
    decreases |s|, 1, 0
  {
    var b := FactorReads(a, s);
    var behind := ParseFactor(s).value.rest;
    if StartsWith(behind, "^") && ParsePower(behind[1..]).Some? {
      var exponent := behind[1..];
      CutAt(behind, 1);
      PowerWithExponent(s, exponent);
      e := WholePowerReads(a, s, b, exponent);
    } else {
      PowerAlone(s, behind);
      SingleMeans(a, 1, s, behind, Denote(a, b));
      e := b;
    }
  }

  lemma {:induction false} WholePowerReads<R(!new)>(a: Arith<R>, s: string, base: Expr, exponent: string) returns (e: Expr)
    requires Lawful(a) && |exponent| < |s| && Reads(a, 0, s, "^" + exponent, base) && ParsePower(exponent).Some?
    ensures Reads(a, 1, s, ParsePower(exponent).value.rest, e)
    decreases |s|, 0, 3
  {
    var x := PowerReads(a, exponent);
    PowerOf(a, s, exponent, ParsePower(exponent).value.rest, base, x);
    e := Power(base, x);
  }

  lemma PowerOf<R(!new)>(a: Arith<R>, s: string, exponent: string, rest: string, base: Expr, x: Expr)
    requires Reads(a, 0, s, "^" + exponent, base) && Reads(a, 1, exponent, rest, x)
    ensures Reads(a, 1, s, rest, Power(base, x))
  {
    PowerMeans(a, s, exponent, rest, Denote(a, base), Denote(a, x));
    PowerPrints(base, x, s, exponent, rest);
  }

  lemma PowerPrints(base: Expr, x: Expr, s: string, exponent: string, rest: string)
    requires LevelOf(base) == 0 && LevelOf(x) <= 1 && s == Print(base) + ("^" + exponent) && exponent == Print(x) + rest
    ensures s == Print(Power(base, x)) + rest
  {
    Regroup(Print(base), "^", exponent);
    Regroup(Print(base) + "^", Print(x), rest);
  }

  /** The operators that are tried at a level are the operators of that level. */
  lemma OperatorIs(level: nat, text: string) returns (op: Op)
    requires 2 <= level < CONDITION && text in Operators(level)
    ensures OpLevel(op) == level && Text(op) == text
  {
    match level
    case 2 => op := if text == "*" then Mul else Div;
    case 3 => op := if text == "+" then Add else Sub;
    case 4 => op := if text == "<=" then LessEqual else if text == "<" then Less else if text == ">=" then GreaterEqual else Greater;
    case 5 => op := if text == "==" then Equal else NotEqual;
    case 6 => op := And;
    case 7 => op := Or;
  }

  /** The operator that was taken stands at the front of the text. */
  lemma {:induction false} AlternativeStarts(level: nat, ops: seq<string>, s: string, op: string)
    requires 2 <= level < CONDITION && forall i :: 0 <= i < |ops| ==> ops[i] != ""
    requires ParseAlternatives(level, ops, s).Some? && ParseAlternatives(level, ops, s).value.tree.children[0] == Leaf(op)
    ensures StartsWith(s, op)
    decreases |ops|
  {
    if !(StartsWith(s, ops[0]) && Parse(level - 1, s[|ops[0]|..]).Some?) {
      AlternativeStarts(level, ops[1..], s, op);
    }
  }

  /** The operator and the operand that the loop finds next. */
  lemma Alternative(level: nat, s: string) returns (op: Op, operand: string)
    requires 2 <= level < CONDITION && ParseAlternatives(level, Operators(level), s).Some?
    ensures OpLevel(op) == level && s == Text(op) + operand && |operand| < |s|
    ensures Parse(level - 1, operand).Some? && Parse(level - 1, operand).value.rest == ParseAlternatives(level, Operators(level), s).value.rest
  {
    var text := AlternativeIs(level, Operators(level), s);
    AlternativeStarts(level, Operators(level), s, text);
    op := OperatorIs(level, text);
    operand := s[|text|..];
    CutAt(s, |text|);
  }

  lemma NothingToCollect<R>(a: Arith<R>, level: nat, s: string, rest: string, v: R, k: nat)
    requires 2 <= level < CONDITION && Collected(a, level, s, rest, v, k) && ParseTail(level, rest) == ([], rest)
    ensures Means(a, level, s, rest, v)
  {
    var cs := Parse(level, s).value.tree.children;
    assert |cs| == k + |cs[k..]|;
  }

  lemma OperandStarts(e: Expr, operand: string, rest: string)
    requires WellFormed(e) && operand == Print(e) + rest
    ensures operand != "" && Starts(operand[0])
  {
    PrintStarts(e);
  }

  lemma BinaryPrints(op: Op, left: Expr, right: Expr, s: string, operand: string, rest: string)
    requires LevelOf(left) <= OpLevel(op) && LevelOf(right) <= OpLevel(op) - 1
    requires s == Print(left) + (Text(op) + operand) && operand == Print(right) + rest
    ensures s == Print(Binary(op, left, right)) + rest
  {
    Regroup(Print(left), Text(op), operand);
    Regroup(Print(left) + Text(op), Print(right), rest);
  }

  lemma CollectOne<R>(a: Arith<R>, op: Op, s: string, left: R, operand: string, rest: string, right: Expr, k: nat)
    requires Collected(a, OpLevel(op), s, Text(op) + operand, left, k) && Reads(a, OpLevel(op) - 1, operand, rest, right)
    ensures Collected(a, OpLevel(op), s, rest, Meaning(a, op, left, Denote(a, right)), k + 2)
  {
    OperandStarts(right, operand, rest);
    CollectNext(a, op, s, Text(op) + operand, left, operand, rest, Denote(a, right), k);
  }

  lemma TailAfter(level: nat, s: string, rest: string)
    requires 2 <= level < CONDITION && ParseAlternatives(level, Operators(level), s).Some?
    requires rest == ParseAlternatives(level, Operators(level), s).value.rest
    ensures ParseTail(level, s).1 == ParseTail(level, rest).1
  {}

  lemma TailEnds<R(!new)>(a: Arith<R>, level: nat, s: string, behind: string, left: Expr, k: nat)
    requires 2 <= level < CONDITION && WellFormed(left) && LevelOf(left) <= level && s == Print(left) + behind
    requires Collected(a, level, s, behind, Denote(a, left), k) && ParseAlternatives(level, Operators(level), behind).None?
    ensures Reads(a, level, s, ParseTail(level, behind).1, left)
  {
    NothingToCollect(a, level, s, behind, Denote(a, left), k);
  }

  /** One turn of the loop of a level: `left` is what has been collected so far, `next` what is collected then. */
  lemma {:induction false} TurnReads<R(!new)>(a: Arith<R>, level: nat, s: string, behind: string, left: Expr, k: nat)
    returns (next: Expr, rest: string)
    requires Lawful(a) && 2 <= level < CONDITION && WellFormed(left) && LevelOf(left) <= level && s == Print(left) + behind
    requires Collected(a, level, s, behind, Denote(a, left), k) && ParseAlternatives(level, Operators(level), behind).Some?
    ensures WellFormed(next) && LevelOf(next) <= level && s == Print(next) + rest && |rest| < |behind|
    ensures Collected(a, level, s, rest, Denote(a, next), k + 2) && ParseTail(level, behind).1 == ParseTail(level, rest).1
    decreases |behind|, level, 0
  {
    var op, operand := Alternative(level, behind);
    rest := Parse(level - 1, operand).value.rest;
    var right := ParsedReads(a, level - 1, operand);
    CollectOne(a, op, s, Denote(a, left), operand, rest, right, k);
    TailAfter(level, behind, rest);
    BinaryPrints(op, left, right, s, operand, rest);
    next := Binary(op, left, right);
    assert Denote(a, next) == Meaning(a, op, Denote(a, left), Denote(a, right));
  }

  lemma {:induction false} TailReads<R(!new)>(a: Arith<R>, level: nat, s: string, behind: string, left: Expr, k: nat) returns (e: Expr)
    requires Lawful(a) && 2 <= level < CONDITION && WellFormed(left) && LevelOf(left) <= level && s == Print(left) + behind
    requires Collected(a, level, s, behind, Denote(a, left), k)
    ensures Reads(a, level, s, ParseTail(level, behind).1, e)
    decreases |behind|, level, 1
  {
    if ParseAlternatives(level, Operators(level), behind).None? {
      TailEnds(a, level, s, behind, left, k);
      e := left;
    } else {
      var next, rest := TurnReads(a, level, s, behind, left, k);
      e := TailReads(a, level, s, rest, next, k + 2);
    }
  }

  lemma ChoiceParses(s: string, yes: string, no: string)
    requires Parse(7, s).Some? && Parse(7, s).value.rest == "?" + yes
    requires Parse(7, yes).Some? && Parse(7, yes).value.rest == ":" + no && Parse(7, no).Some?
    ensures ParseCondition(s).Some? && ParseCondition(s).value.rest == Parse(7, no).value.rest
  {
    assert ("?" + yes)[1..] == yes && (":" + no)[1..] == no;
  }

  lemma {:induction false} ChoiceReads<R(!new)>(a: Arith<R>, s: string) returns (e: Expr)
    requires Lawful(a) && ParseCondition(s).Some?
    ensures Reads(a, CONDITION, s, ParseCondition(s).value.rest, e)
    decreases |s|, CONDITION, 0
  {
    e := ParsedReads(a, 7, s);
    var behind := Parse(7, s).value.rest;
    if StartsWith(behind, "?") && Parse(7, behind[1..]).Some? && StartsWith(Parse(7, behind[1..]).value.rest, ":")
       && Parse(7, Parse(7, behind[1..]).value.rest[1..]).Some? {
      var yes, colon := behind[1..], Parse(7, behind[1..]).value.rest;
      CutAt(behind, 1);
      CutAt(colon, 1);
      ChoiceParses(s, yes, colon[1..]);
      e := WholeChoiceReads(a, s, e, yes, colon[1..]);
    } else {
      SingleMeans(a, CONDITION, s, behind, Denote(a, e));
    }
  }

  lemma {:induction false} WholeChoiceReads<R(!new)>(a: Arith<R>, s: string, condition: Expr, yes: string, no: string) returns (e: Expr)
    requires Lawful(a) && |no| < |yes| < |s| && Reads(a, 7, s, "?" + yes, condition)
    requires Parse(7, yes).Some? && Parse(7, yes).value.rest == ":" + no && Parse(7, no).Some?
    ensures Reads(a, CONDITION, s, Parse(7, no).value.rest, e)
    decreases |s|, 7, 4
  {
    var y := ParsedReads(a, 7, yes);
    var n := ParsedReads(a, 7, no);
    ChoiceOf(a, s, yes, no, Parse(7, no).value.rest, condition, y, n);
    e := Choice(condition, y, n);
  }

  lemma ChoiceOf<R(!new)>(a: Arith<R>, s: string, yes: string, no: string, rest: string, c: Expr, y: Expr, n: Expr)
    requires Reads(a, 7, s, "?" + yes, c) && Reads(a, 7, yes, ":" + no, y) && Reads(a, 7, no, rest, n)
    ensures Reads(a, CONDITION, s, rest, Choice(c, y, n))
  {
    ChoiceMeans(a, s, yes, no, rest, Denote(a, c), Denote(a, y), Denote(a, n));
    ChoicePrints(c, y, n, s, yes, no, rest);
  }

  lemma ChoicePrints(condition: Expr, y: Expr, n: Expr, s: string, yes: string, no: string, rest: string)
    requires LevelOf(condition) <= 7 && LevelOf(y) <= 7 && LevelOf(n) <= 7
    requires s == Print(condition) + ("?" + yes) && yes == Print(y) + (":" + no) && no == Print(n) + rest
    ensures s == Print(Choice(condition, y, n)) + rest
  {
    var p, q, r := Print(condition), Print(y), Print(n);
    assert Print(Choice(condition, y, n)) == p + "?" + q + ":" + r;
    ChoiceRegroups(p, q, r, rest, no, yes);
  }

  lemma ChoiceRegroups(p: string, q: string, r: string, rest: string, no: string, yes: string)
    requires no == r + rest && yes == q + (":" + no)
    ensures p + ("?" + yes) == p + "?" + q + ":" + r + rest
  {
    Regroup(p, "?", yes);
    Regroup(p + "?", q, ":" + no);
    Regroup(p + "?" + q, ":", no);
    Regroup(p + "?" + q + ":", r, rest);
  }

  /** Whatever is matched at a level is the text of an expression of that level, and evaluates to its meaning. */
  lemma {:induction false} ParsedReads<R(!new)>(a: Arith<R>, level: nat, s: string) returns (e: Expr)
    requires Lawful(a) && level <= CONDITION && Parse(level, s).Some?
    ensures Reads(a, level, s, Parse(level, s).value.rest, e)
    decreases |s|, level, 3
  {
    if level == 0 {
      e := FactorReads(a, s);
    } else if level == 1 {
      e := PowerReads(a, s);
    } else if level == CONDITION {
      e := ChoiceReads(a, s);
    } else {
      var left := ParsedReads(a, level - 1, s);
      var behind := Parse(level - 1, s).value.rest;
      CollectFirst(a, level, s, behind, Denote(a, left));
      e := TailReads(a, level, s, behind, left, 1);
    }
  }

  // ---- The language ----

  /**
   * evaluate gives a result exactly for the texts of expressions, with parentheses wherever they are needed and
   * anywhere else, and the result is the meaning of the expression.
   */
  lemma EvaluateIffExpression<R(!new)>(a: Arith<R>, text: string, v: R)
    requires Lawful(a)
    ensures Evaluate(a, text) == Some(v) <==> exists e :: WellFormed(e) && Print(e) == text && Denote(a, e) == v
  {
    if Evaluate(a, text) == Some(v) {
      var e := ParsedReads(a, CONDITION, text);
      assert Print(e) + "" == Print(e);
      assert WellFormed(e) && Print(e) == text && Denote(a, e) == v;
    }
    if e :| WellFormed(e) && Print(e) == text && Denote(a, e) == v {
      EvaluateIsDenotation(a, e);
    }
  }

  /** No text means two things. */
  lemma OneMeaning<R(!new)>(a: Arith<R>, e: Expr, e': Expr)
    requires Lawful(a) && WellFormed(e) && WellFormed(e') && Print(e) == Print(e')
    ensures Denote(a, e) == Denote(a, e')
  {
    EvaluateIsDenotation(a, e);
    EvaluateIsDenotation(a, e');
  }
}
