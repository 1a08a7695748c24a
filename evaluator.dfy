/** The two evaluators of src/evaluator.py. Each simplifies an assignment, then runs the
    sub-assignments in order against the caller's name-to-integer map, which it updates in
    place, and returns the last `(name, value)` pair.

    `ASTEvaluator` works on the tree `ast.parse` builds; the parser is a parameter `parse` and
    its output the datatype `Parsed`. `RegexEvaluator` works on the text. */
module Evaluator {
  import opened Wrappers
  import opened Text
  import ExpressionSimplifier

  // ---------------------------------------------------------------------------------------
  // The output of `ast.parse`

  /** The binary operators of `ast.BinOp`; `OtherOp` stands for the rest (`//`, `%`, `**`, ...). */
  datatype BinaryOp = Add | Sub | Mult | Div | OtherOp

  /** Expression nodes: `ast.Name`, an integer `ast.Constant`, `ast.BinOp`, and any other
      node (a unary minus, a call, ...). */
  datatype Node = Name(id: string) | Constant(value: int) | BinOp(left: Node, op: BinaryOp, right: Node) | OtherNode

  /** The first target of an `ast.Assign`: a name, or anything without an `id`. */
  datatype AssignTarget = NameTarget(id: string) | OtherTarget

  /** A statement: an assignment, or any other statement. */
  datatype Stmt = Assign(target: AssignTarget, value: Node) | OtherStmt

  /** `ast.parse`: a module body, or `SyntaxError`. */
  datatype Parsed = Module(body: seq<Stmt>) | SyntaxError

  /** `EvaluationStrategy`. */
  datatype Strategy = AST | REGEX

  /** The exceptions evaluation raises: `NameError`, `ValueError` (unsupported syntax, a
      failed parse or simplification, too many `=`), `ZeroDivisionError`, and the
      `IndexError` and `AttributeError` of `tree.body[0].targets[0].id`. */
  datatype EvalError = NameError(name: string) | ValueError | ZeroDivisionError | IndexError | AttributeError

  /** A `(name, value)` pair an evaluation returns. */
  type Pair = (string, int)

  // ---------------------------------------------------------------------------------------
  // Arithmetic

  /** Python's `//`: the quotient rounded toward negative infinity. */
  function FloorDiv(a: int, b: int): (q: int)
    requires b != 0
    ensures b > 0 ==> b * q <= a < b * q + b
    ensures b < 0 ==> b * q + b < a <= b * q
  {
    if b > 0 || a % b == 0 then a / b else a / b - 1
  }

  // ---------------------------------------------------------------------------------------
  // ASTEvaluator

  /** The names a node reads. */
  function NamesOf(n: Node): set<string> {
    match n
    case Name(id) => {id}
    case Constant(_) => {}
    case BinOp(l, _, r) => NamesOf(l) + NamesOf(r)
    case OtherNode => {}
  }

  /** A node built from names, constants and the four supported operators only. */
  predicate Supported(n: Node) {
    match n
    case Name(_) => true
    case Constant(_) => true
    case BinOp(l, op, r) => op != OtherOp && Supported(l) && Supported(r)
    case OtherNode => false
  }

  /** `_evaluate_node`: the left operand, then the right one, then the operator. */
  function EvalNode(n: Node, vars: map<string, int>): Result<int, EvalError> {
    match n
    case Name(id) => if id in vars then Success(vars[id]) else Failure(NameError(id))
    case Constant(c) => Success(c)
    case BinOp(l, op, r) =>
      (match EvalNode(l, vars)
       case Failure(e) => Failure(e)
       case Success(a) =>
         match EvalNode(r, vars)
         case Failure(e) => Failure(e)
         case Success(b) => Apply(op, a, b))
    case OtherNode => Failure(ValueError)
  }

  /** One operator on two evaluated operands. */
  function Apply(op: BinaryOp, a: int, b: int): Result<int, EvalError> {
    match op
    case Add => Success(a + b)
    case Sub => Success(a - b)
    case Mult => Success(a * b)
    case Div => if b == 0 then Failure(ZeroDivisionError) else Success(FloorDiv(a, b))
    case OtherOp => Failure(ValueError)
  }

  /** A node evaluates the same under two maps that agree on the names it reads. */
  lemma {:induction false} EvalNodeFrame(n: Node, v1: map<string, int>, v2: map<string, int>)
    requires forall x :: x in NamesOf(n) ==> (x in v1 <==> x in v2) && (x in v1 ==> v1[x] == v2[x])
    ensures EvalNode(n, v1) == EvalNode(n, v2)
  {
    match n
    case BinOp(l, op, r) =>
      EvalNodeFrame(l, v1, v2);
      EvalNodeFrame(r, v1, v2);
    case _ =>
  }

  /** A node that evaluates reads only names of the map and uses only the supported forms. */
  lemma {:induction false} EvalNodeDefined(n: Node, vars: map<string, int>)
    requires EvalNode(n, vars).Success?
    ensures NamesOf(n) <= vars.Keys && Supported(n)
  {
    match n
    case BinOp(l, op, r) =>
      EvalNodeDefined(l, vars);
      EvalNodeDefined(r, vars);
    case _ =>
  }

  /** A node of names, constants and the four operators whose names are all in the map
      evaluates, unless a division by zero occurs. */
  lemma {:induction false} EvalNodeTotal(n: Node, vars: map<string, int>)
    requires Supported(n) && NamesOf(n) <= vars.Keys
    ensures EvalNode(n, vars).Success? || EvalNode(n, vars).error == ZeroDivisionError
  {
    match n
    case BinOp(l, op, r) =>
      EvalNodeTotal(l, vars);
      EvalNodeTotal(r, vars);
    case _ =>
  }

  /** `ASTEvaluator._evaluate_single_expression` on the tree of one line: `None` for a
      statement that is not an assignment, else the target and the value of the right side. */
  function AstSingle(tree: Parsed, vars: map<string, int>): Result<Option<Pair>, EvalError> {
    match tree
    case SyntaxError => Failure(ValueError)
    case Module(body) =>
      if body == [] then Failure(IndexError)
      else
        match body[0]
        case OtherStmt => Success(None)
        case Assign(target, value) =>
          if !target.NameTarget? then Failure(AttributeError)
          else
            match value
            case Constant(c) => Success(Some((target.id, c)))
            case Name(id) =>
              if id !in vars then Failure(NameError(id)) else Success(Some((target.id, vars[id])))
            case BinOp(_, _, _) =>
              (match EvalNode(value, vars)
               case Failure(e) => Failure(e)
               case Success(v) => Success(Some((target.id, v))))
            case OtherNode => Failure(ValueError)
  }

  /** An assignment to a name succeeds exactly when its right side is not some other node and
      evaluates; it returns the target with that value. */
  lemma AstSingleAssign(t: string, value: Node, rest: seq<Stmt>, vars: map<string, int>)
    ensures var r := AstSingle(Module([Assign(NameTarget(t), value)] + rest), vars);
      (r.Success? <==> value != OtherNode && EvalNode(value, vars).Success?) &&
      (r.Success? ==> r.value == Some((t, EvalNode(value, vars).value))) &&
      (r.Failure? && value != OtherNode ==> r.error == EvalNode(value, vars).error)
  {
  }

  // ---------------------------------------------------------------------------------------
  // RegexEvaluator

  // The `re.match` of the regex evaluator: a leading word, spaces, one of + - * /, spaces
  // and a word; whatever follows is ignored. Its `\d+` alternative adds nothing to `\w+`,
  // and a word followed by a non-word character never backtracks to a shorter run.
  function ArithmeticMatch(s: string): Option<(string, char, string)> {
    var w := WordRun(s, 0);
    if w == 0 then None else OperatorAfter(s, w, w + SpaceRun(s, w))
  }

  /** The operators of the regex evaluator. */
  predicate IsOperatorChar(c: char) {
    c == '+' || c == '-' || c == '*' || c == '/'
  }

  /** The match once the first operand `s[..w]` and the spaces after it are read. */
  function OperatorAfter(s: string, w: nat, j: nat): Option<(string, char, string)>
    requires w <= j <= |s|
  {
    if j == |s| || !IsOperatorChar(s[j]) then None
    else SecondOperand(s, w, j, j + 1 + SpaceRun(s, j + 1))
  }

  /** The match once the operator `s[j]` and the spaces after it are read. */
  function SecondOperand(s: string, w: nat, j: nat, m: nat): Option<(string, char, string)>
    requires w <= j < m <= |s|
  {
    var w2 := WordRun(s, m);
    if w2 == 0 then None else Some((s[..w], s[j], s[m..m + w2]))
  }

  /** An operand of the regex evaluator: digits, or a name of the map. */
  function Operand(token: string, vars: map<string, int>): Result<int, EvalError> {
    if IsDigits(token) then Success(DigitsValue(token))
    else if token in vars then Success(vars[token])
    else Failure(NameError(token))
  }

  /** The operator characters of the regex evaluator. */
  function ApplyChar(op: char, a: int, b: int): Result<int, EvalError> {
    if op == '+' then Success(a + b)
    else if op == '-' then Success(a - b)
    else if op == '*' then Success(a * b)
    else if b == 0 then Failure(ZeroDivisionError) else Success(FloorDiv(a, b))
  }

  /** `RegexEvaluator._evaluate_single_expression` on one line. */
  function RegexSingle(line: string, vars: map<string, int>): Result<Option<Pair>, EvalError> {
    var i := IndexOf(line, '=');
    if i == |line| then Success(None)
    else if '=' in line[i + 1..] then Failure(ValueError)
    else
      var target := Strip(line[..i]);
      var value := Strip(line[i + 1..]);
      if IsDigits(value) then Success(Some((target, DigitsValue(value))))
      else if IsIdentifier(value) then
        if value in vars then Success(Some((target, vars[value]))) else Failure(NameError(value))
      else
        match ArithmeticMatch(value)
        case None => Failure(ValueError)
        case Some((left, op, right)) =>
          match Operand(left, vars)
          case Failure(e) => Failure(e)
          case Success(a) =>
            match Operand(right, vars)
            case Failure(e) => Failure(e)
            case Success(b) =>
              match ApplyChar(op, a, b)
              case Failure(e) => Failure(e)
              case Success(v) => Success(Some((target, v)))
  }

  /** Exactly the lines without `=` are skipped. */
  lemma RegexEquals(line: string, vars: map<string, int>)
    ensures '=' !in line ==> RegexSingle(line, vars) == Success(None)
    ensures RegexSingle(line, vars) == Success(None) ==> '=' !in line
  {
    IndexOfSpec(line, '=');
  }

  /** A line with two or more `=` raises `ValueError`. */
  lemma RegexTooManyEquals(a: string, b: string, c: string, vars: map<string, int>)
    requires '=' !in a
    ensures RegexSingle(a + "=" + b + "=" + c, vars) == Failure(ValueError)
  {
    var s := a + "=" + b + "=" + c;
    IndexOfSpec(s, '=');
    assert s[|a|] == '=';
    assert forall k :: 0 <= k < |a| ==> s[k] == a[k];
    assert IndexOf(s, '=') == |a|;
    assert s[|a| + 1..][|b|] == '=';
  }

  /** With one `=`, a right side of digits assigns its value, and an identifier right side
      assigns the name's value or raises `NameError` naming it. */
  lemma RegexSimpleValue(a: string, b: string, vars: map<string, int>)
    requires '=' !in a && '=' !in b
    ensures IsDigits(Strip(b)) ==> RegexSingle(a + "=" + b, vars) == Success(Some((Strip(a), DigitsValue(Strip(b)))))
    ensures IsIdentifier(Strip(b)) ==>
      RegexSingle(a + "=" + b, vars) ==
        if Strip(b) in vars then Success(Some((Strip(a), vars[Strip(b)]))) else Failure(NameError(Strip(b)))
  {
    RegexSplit(a, b);
  }

  /** With one `=` and a right side that is neither digits nor an identifier, the line is
      the arithmetic form: the left operand, the right operand and the operator are applied in
      that order, and the first error is the result. */
  lemma RegexArithmetic(a: string, b: string, vars: map<string, int>, left: string, op: char, right: string)
    requires '=' !in a && '=' !in b && !IsDigits(Strip(b)) && !IsIdentifier(Strip(b))
    requires ArithmeticMatch(Strip(b)) == Some((left, op, right))
    ensures var r := RegexSingle(a + "=" + b, vars);
      (Operand(left, vars).Failure? ==> r == Failure(Operand(left, vars).error)) &&
      (Operand(left, vars).Success? && Operand(right, vars).Failure? ==> r == Failure(Operand(right, vars).error))
    ensures Operand(left, vars).Success? && Operand(right, vars).Success? ==>
      var applied := ApplyChar(op, Operand(left, vars).value, Operand(right, vars).value);
      RegexSingle(a + "=" + b, vars) == if applied.Success? then Success(Some((Strip(a), applied.value))) else Failure(applied.error)
  {
    RegexSplit(a, b);
  }

  /** A right side that is neither digits, nor an identifier, nor the arithmetic form raises
      `ValueError`. */
  lemma RegexUnsupported(a: string, b: string, vars: map<string, int>)
    requires '=' !in a && '=' !in b && !IsDigits(Strip(b)) && !IsIdentifier(Strip(b))
    requires ArithmeticMatch(Strip(b)).None?
    ensures RegexSingle(a + "=" + b, vars) == Failure(ValueError)
  {
    RegexSplit(a, b);
  }

  /** A line `a=b` with no other `=` splits into `a` and `b`. */
  lemma RegexSplit(a: string, b: string)
    requires '=' !in a && '=' !in b
    ensures var s := a + "=" + b;
      IndexOf(s, '=') == |a| && s[..|a|] == a && s[|a| + 1..] == b && '=' !in s[|a| + 1..]
  {
    var s := a + "=" + b;
    IndexOfSpec(s, '=');
    assert s[|a|] == '=';
    assert forall k :: 0 <= k < |a| ==> s[k] == a[k];
    assert s[..|a|] == a && s[|a| + 1..] == b;
  }

  /** The arithmetic form reads only a leading `operand op operand`: text after the second
      operand that starts with a non-word character changes nothing. */
  lemma ArithmeticIgnoresRest(s: string, rest: string)
    requires ArithmeticMatch(s).Some? && (rest == [] || !IsWordChar(rest[0]))
    ensures ArithmeticMatch(s + rest) == ArithmeticMatch(s)
  {
    ArithmeticShape(s);
    var w := WordRun(s, 0);
    var j := w + SpaceRun(s, w);
    var m := j + 1 + SpaceRun(s, j + 1);
    RunsOfExtension(s, rest, w, j, m);
    ArithmeticUnfold(s + rest, w, j, m);
    SameSecondOperand(s, s + rest, w, j, m);
  }

  /** Appending text that does not continue the second operand leaves the runs the match
      reads as they are. */
  lemma RunsOfExtension(s: string, rest: string, w: nat, j: nat, m: nat)
    requires w == WordRun(s, 0) && j == w + SpaceRun(s, w) && j < |s|
    requires m == j + 1 + SpaceRun(s, j + 1) && m < |s|
    requires rest == [] || !IsWordChar(rest[0])
    ensures var t := s + rest;
      WordRun(t, 0) == w && j == w + SpaceRun(t, w) && t[j] == s[j] &&
      m == j + 1 + SpaceRun(t, j + 1) && WordRun(t, m) == WordRun(s, m) &&
      t[..w] == s[..w] && t[m..m + WordRun(s, m)] == s[m..m + WordRun(s, m)]
  {
    WordRunPrefix(s, rest, 0);
    SpaceRunPrefix(s, rest, w);
    SpaceRunPrefix(s, rest, j + 1);
    WordRunPrefix(s, rest, m);
  }

  /** A match read off its positions. */
  lemma ArithmeticUnfold(t: string, w: nat, j: nat, m: nat)
    requires w == WordRun(t, 0) && 0 < w && j == w + SpaceRun(t, w) && j < |t| && IsOperatorChar(t[j])
    requires m == j + 1 + SpaceRun(t, j + 1)
    ensures ArithmeticMatch(t) == SecondOperand(t, w, j, m)
  {
  }

  /** The positions a successful match reads: the first operand, the operator, the second
      operand. */
  lemma ArithmeticShape(s: string)
    requires ArithmeticMatch(s).Some?
    ensures var w := WordRun(s, 0);
      var j := w + SpaceRun(s, w);
      0 < w && j < |s| && IsOperatorChar(s[j]) &&
      var m := j + 1 + SpaceRun(s, j + 1);
      m < |s| && 0 < WordRun(s, m) && ArithmeticMatch(s) == SecondOperand(s, w, j, m)
  {
  }

  /** Two strings that agree on the operands, the operator and the second word run match
      alike. */
  lemma SameSecondOperand(s: string, t: string, w: nat, j: nat, m: nat)
    requires w <= j < m <= |s| && m <= |t|
    requires WordRun(t, m) == WordRun(s, m) && t[j] == s[j] && t[..w] == s[..w]
    requires t[m..m + WordRun(s, m)] == s[m..m + WordRun(s, m)]
    ensures SecondOperand(t, w, j, m) == SecondOperand(s, w, j, m)
  {
  }

  // ---------------------------------------------------------------------------------------
  // evaluate

  /** One simplified line under either strategy. */
  function Single(strategy: Strategy, parse: string -> Parsed, line: string, vars: map<string, int>): Result<Option<Pair>, EvalError> {
    match strategy
    case AST => AstSingle(parse(line), vars)
    case REGEX => RegexSingle(line, vars)
  }

  /** The map after one line: a returned pair is stored, anything else changes nothing. */
  function Store(vars: map<string, int>, r: Result<Option<Pair>, EvalError>): map<string, int> {
    if r.Success? && r.value.Some? then vars[r.value.value.0 := r.value.value.1] else vars
  }

  /** What `evaluate` returns or raises, and the caller's map after it (after an error, the
      updates of the lines before it remain). */
  datatype Outcome = Outcome(result: Result<Option<Pair>, EvalError>, vars: map<string, int>)

  /** The loop of `evaluate` over the simplified lines, from the map `vars` and the last pair
      so far. */
  function RunLines(strategy: Strategy, parse: string -> Parsed, lines: seq<string>, vars: map<string, int>, last: Option<Pair>): Outcome
    decreases |lines|
  {
    if lines == [] then Outcome(Success(last), vars)
    else
      var r := Single(strategy, parse, lines[0], vars);
      if r.Failure? then Outcome(Failure(r.error), vars)
      else RunLines(strategy, parse, lines[1..], Store(vars, r), if r.value.Some? then r.value else last)
  }

  /** `evaluate`: simplify, then run the lines; `(None, None)` is `None`. */
  function Evaluate(strategy: Strategy, parse: string -> Parsed, expression: string, vars: map<string, int>): Outcome {
    match ExpressionSimplifier.Simplify(expression)
    case Failure(_) => Outcome(Failure(ValueError), vars)
    case Success(lines) => RunLines(strategy, parse, lines, vars, None)
  }

  /** Evaluation adds or overwrites names and never removes one; the pair it returns is
      stored in the map, and when it returns none the map is unchanged. */
  lemma {:induction false} RunLinesSpec(strategy: Strategy, parse: string -> Parsed, lines: seq<string>, vars: map<string, int>, last: Option<Pair>)
    requires last.Some? ==> last.value.0 in vars && vars[last.value.0] == last.value.1
    ensures var o := RunLines(strategy, parse, lines, vars, last);
      vars.Keys <= o.vars.Keys &&
      (o.result.Success? && o.result.value.Some? ==>
        o.result.value.value.0 in o.vars && o.vars[o.result.value.value.0] == o.result.value.value.1) &&
      (o.result == Success(None) ==> o.vars == vars) &&
      (last.Some? ==> o.result != Success(None))
    decreases |lines|
  {
    if lines != [] {
      var r := Single(strategy, parse, lines[0], vars);
      if r.Success? {
        RunLinesSpec(strategy, parse, lines[1..], Store(vars, r), if r.value.Some? then r.value else last);
      }
    }
  }

  /** `evaluate` never removes a name, and the pair it returns is stored in the map. */
  lemma EvaluateSpec(strategy: Strategy, parse: string -> Parsed, expression: string, vars: map<string, int>)
    ensures var o := Evaluate(strategy, parse, expression, vars);
      vars.Keys <= o.vars.Keys &&
      (o.result.Success? && o.result.value.Some? ==>
        o.result.value.value.0 in o.vars && o.vars[o.result.value.value.0] == o.result.value.value.1) &&
      (o.result == Success(None) ==> o.vars == vars)
  {
    if ExpressionSimplifier.Simplify(expression).Success? {
      RunLinesSpec(strategy, parse, ExpressionSimplifier.Simplify(expression).value, vars, None);
    }
  }

  /** An evaluator as the executors see it: an expression and a map to an outcome. */
  type EvaluateFn = (string, map<string, int>) -> Outcome

  /** `EvaluatorFactory.create_evaluator`: the evaluator of a strategy. */
  function EvaluatorOf(strategy: Strategy, parse: string -> Parsed): EvaluateFn {
    (expression, vars) => Evaluate(strategy, parse, expression, vars)
  }

  /** An evaluator that never removes a name from the map. */
  ghost predicate KeepsNames(eval: EvaluateFn) {
    forall e: string, vars: map<string, int> :: vars.Keys <= eval(e, vars).vars.Keys
  }

  /** Both evaluators keep every name. */
  lemma EvaluatorKeepsNames(strategy: Strategy, parse: string -> Parsed)
    ensures KeepsNames(EvaluatorOf(strategy, parse))
  {
    forall e: string, vars: map<string, int> ensures vars.Keys <= EvaluatorOf(strategy, parse)(e, vars).vars.Keys {
      EvaluateSpec(strategy, parse, e, vars);
    }
  }

  /** An expression whose successful evaluation writes exactly the pair it returns. */
  ghost predicate WritesOnlyResult(eval: EvaluateFn, e: string) {
    forall vars :: eval(e, vars).result.Success? ==> eval(e, vars).vars == Store(vars, eval(e, vars).result)
  }

  /** An expression the simplifier leaves as one line writes only the pair it returns. */
  lemma OneLineWritesOnlyResult(strategy: Strategy, parse: string -> Parsed, e: string)
    requires ExpressionSimplifier.Simplify(e).Success? && |ExpressionSimplifier.Simplify(e).value| == 1
    ensures WritesOnlyResult(EvaluatorOf(strategy, parse), e)
  {
    var lines := ExpressionSimplifier.Simplify(e).value;
    forall vars | EvaluatorOf(strategy, parse)(e, vars).result.Success?
      ensures EvaluatorOf(strategy, parse)(e, vars).vars == Store(vars, EvaluatorOf(strategy, parse)(e, vars).result)
    {
      assert Evaluate(strategy, parse, e, vars) == RunLines(strategy, parse, lines, vars, None);
      assert lines[1..] == [];
      var r := Single(strategy, parse, lines[0], vars);
      if r.Success? {
        assert RunLines(strategy, parse, lines[1..], Store(vars, r), if r.value.Some? then r.value else None) ==
          Outcome(Success(r.value), Store(vars, r));
      }
    }
  }

  // ---------------------------------------------------------------------------------------
  // The caller's map, updated in place

  /** The `variables` dict an evaluation writes into. */
  class Variables {
    var values: map<string, int>

    constructor (values: map<string, int>)
      ensures this.values == values
    {
      this.values := values;
    }
  }

  /** `_evaluate_single_expression` of the chosen evaluator, storing the pair it returns. */
  method EvaluateSingle(strategy: Strategy, parse: string -> Parsed, line: string, variables: Variables) returns (r: Result<Option<Pair>, EvalError>)
    modifies variables
    ensures r == Single(strategy, parse, line, old(variables.values))
    ensures variables.values == Store(old(variables.values), r)
  {
    r := Single(strategy, parse, line, variables.values);
    if r.Success? && r.value.Some? {
      variables.values := variables.values[r.value.value.0 := r.value.value.1];
    }
  }

  /** `ASTEvaluator.evaluate` / `RegexEvaluator.evaluate`. */
  method EvaluateWith(strategy: Strategy, parse: string -> Parsed, expression: string, variables: Variables) returns (r: Result<Option<Pair>, EvalError>)
    modifies variables
    ensures Outcome(r, variables.values) == Evaluate(strategy, parse, expression, old(variables.values))
  {
    var simplified := ExpressionSimplifier.SimplifyWith(expression);
    if simplified.Failure? {
      return Failure(ValueError);
    }
    var lines := simplified.value;
    var last: Option<Pair> := None;
    var i := 0;
    while i < |lines|
      invariant i <= |lines|
      invariant RunLines(strategy, parse, lines[i..], variables.values, last) ==
        RunLines(strategy, parse, lines, old(variables.values), None)
    {
      assert lines[i..][1..] == lines[i + 1..];
      var step := EvaluateSingle(strategy, parse, lines[i], variables);
      if step.Failure? {
        return Failure(step.error);
      }
      if step.value.Some? {
        last := step.value;
      }
      i := i + 1;
    }
    return Success(last);
  }
}
