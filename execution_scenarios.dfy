/** Documented runs of the evaluators and the executors, worked out from the definitions and
    the general lemmas: one `evaluate` call, a sequential batch, a chain of levels, and a pair
    of levels where the leveled run and the sequential run part ways. */
module ExecutionScenarios {
  import opened Wrappers
  import opened Text
  import opened ExpressionSimplifier
  import opened Evaluator
  import opened Executor
  import Scenarios

  // ---------------------------------------------------------------------------------------
  // evaluate

  /** `ast.parse` on the lines of the documented examples: each is one assignment to a name. */
  predicate ParsesExamples(parse: string -> Parsed) {
    parse("i = 0") == Module([Assign(NameTarget("i"), Constant(0))]) &&
    parse("i = i + 1") == Module([Assign(NameTarget("i"), BinOp(Name("i"), Add, Constant(1)))]) &&
    parse("j = i") == Module([Assign(NameTarget("j"), Name("i"))]) &&
    parse("j = i + 5") == Module([Assign(NameTarget("j"), BinOp(Name("i"), Add, Constant(5)))]) &&
    parse("x = i + 5") == Module([Assign(NameTarget("x"), BinOp(Name("i"), Add, Constant(5)))]) &&
    parse("y = (5 + 3) * 10") == Module([Assign(NameTarget("y"), BinOp(BinOp(Constant(5), Add, Constant(3)), Mult, Constant(10)))]) &&
    parse("i = i + y") == Module([Assign(NameTarget("i"), BinOp(Name("i"), Add, Name("y")))])
  }

  /** `evaluate("j = i++ + 5")` on `{i: 0}`: the lines `j = i + 5` and `i = i + 1` run in
      order, the map ends as `{i: 1, j: 5}`, and the last pair `("i", 1)` is returned. */
  lemma EvaluateExample(s: string, parse: string -> Parsed, vars: map<string, int>)
    requires s == "j = i++ + 5" && vars == map["i" := 0] && ParsesExamples(parse)
    ensures Evaluate(AST, parse, s, vars) == Outcome(Success(Some(("i", 1))), map["i" := 1, "j" := 5])
  {
    PostLines(s, "j", "j = i + 5");
    EvaluateRun(s, parse, vars);
  }

  lemma EvaluateRun(s: string, parse: string -> Parsed, vars: map<string, int>)
    requires Simplify(s) == Success(["j = i + 5", "i = i + 1"])
    requires vars == map["i" := 0] && ParsesExamples(parse)
    ensures Evaluate(AST, parse, s, vars) == Outcome(Success(Some(("i", 1))), map["i" := 1, "j" := 5])
  {
    var v1 := vars["j" := 5];
    AstLine(parse, "j = i + 5", "j", BinOp(Name("i"), Add, Constant(5)), vars, 5);
    AstLine(parse, "i = i + 1", "i", BinOp(Name("i"), Add, Constant(1)), v1, 1);
    RunTwoLines(AST, parse, s, vars, "j = i + 5", "i = i + 1", ("j", 5), ("i", 1));
    MapOf2(v1["i" := 1], "i", 1, "j", 5);
  }

  /** `j = i++ + 5` and `x = i++ + 5` simplify to the assignment and then the increment. */
  lemma PostLines(s: string, t: string, line: string)
    requires (s, t, line) == ("j = i++ + 5", "j", "j = i + 5") || (s, t, line) == ("x = i++ + 5", "x", "x = i + 5")
    ensures Simplify(s) == Success([line, "i = i + 1"])
  {
    PostPieces(s, t, line);
    PostLinesOf(s, t, line);
  }

  lemma PostPieces(s: string, t: string, line: string)
    requires (s, t, line) == ("j = i++ + 5", "j", "j = i + 5") || (s, t, line) == ("x = i++ + 5", "x", "x = i + 5")
    ensures IsIdentifier(t) && s == t + " = i++ + 5" && line == t + " = i + 5"
  {
  }

  /** `t = i++ + 5` simplifies to `t = i + 5`, `i = i + 1`. */
  lemma PostLinesOf(s: string, t: string, line: string)
    requires IsIdentifier(t) && s == t + " = i++ + 5" && line == t + " = i + 5"
    ensures Simplify(s) == Success([line, "i = i + 1"])
  {
    Scenarios.PostIncrementExample(s, t);
  }

  /** A map with exactly two entries. */
  lemma MapOf2(m: map<string, int>, a: string, x: int, b: string, y: int)
    requires a != b && m.Keys == {a, b} && m[a] == x && m[b] == y
    ensures m == map[a := x, b := y]
  {
  }

  /** A line that parses as one assignment of a supported node to a name returns that name
      and the node's value. */
  lemma AstLine(parse: string -> Parsed, line: string, t: string, node: Node, vars: map<string, int>, v: int)
    requires parse(line) == Module([Assign(NameTarget(t), node)])
    requires node != OtherNode && EvalNode(node, vars) == Success(v)
    ensures Single(AST, parse, line, vars) == Success(Some((t, v)))
  {
    AstSingleAssign(t, node, [], vars);
    assert [Assign(NameTarget(t), node)] + [] == [Assign(NameTarget(t), node)];
  }

  /** `evaluate` of an expression that simplifies to two lines, each returning a pair. */
  lemma RunTwoLines(strategy: Strategy, parse: string -> Parsed, s: string, vars: map<string, int>, l1: string, l2: string, p1: Pair, p2: Pair)
    requires Simplify(s) == Success([l1, l2])
    requires Single(strategy, parse, l1, vars) == Success(Some(p1))
    requires Single(strategy, parse, l2, vars[p1.0 := p1.1]) == Success(Some(p2))
    ensures Evaluate(strategy, parse, s, vars) == Outcome(Success(Some(p2)), vars[p1.0 := p1.1][p2.0 := p2.1])
  {
    var lines := [l1, l2];
    var v1 := vars[p1.0 := p1.1];
    assert lines[1..] == [l2] && [l2][1..] == [];
    assert RunLines(strategy, parse, lines, vars, None) == RunLines(strategy, parse, [l2], v1, Some(p1));
    assert RunLines(strategy, parse, [l2], v1, Some(p1)) == RunLines(strategy, parse, [], v1[p2.0 := p2.1], Some(p2));
  }

  /** `evaluate` of an expression that simplifies to one line returning a pair. */
  lemma RunOneLine(strategy: Strategy, parse: string -> Parsed, s: string, vars: map<string, int>, l: string, p: Pair)
    requires Simplify(s) == Success([l])
    requires Single(strategy, parse, l, vars) == Success(Some(p))
    ensures Evaluate(strategy, parse, s, vars) == Outcome(Success(Some(p)), vars[p.0 := p.1])
  {
    assert [l][1..] == [];
    assert RunLines(strategy, parse, [l], vars, None) == RunLines(strategy, parse, [], vars[p.0 := p.1], Some(p));
  }

  /** A map with exactly four entries. */
  lemma MapOf4(m: map<string, int>, a: string, x: int, b: string, y: int, c: string, z: int, d: string, w: int)
    requires a != b && a != c && a != d && b != c && b != d && c != d
    requires m.Keys == {a, b, c, d} && m[a] == x && m[b] == y && m[c] == z && m[d] == w
    ensures m == map[a := x, b := y, c := z, d := w]
  {
  }

  // ---------------------------------------------------------------------------------------
  // SequentialExecutor

  /** The sequential run of `i = 0`, `j = ++i`, `x = i++ + 5`, `y = (5 + 3) * 10`, `i += y`
      with the AST evaluator ends with `{i: 82, j: 1, x: 6, y: 80}`. */
  lemma SequentialBatchExample(es: seq<string>, parse: string -> Parsed)
    requires es == ["i = 0", "j = ++i", "x = i++ + 5", "y = (5 + 3) * 10", "i += y"] && ParsesExamples(parse)
    ensures SequentialExecute(EvaluatorOf(AST, parse), es) == Success(map["i" := 82, "j" := 1, "x" := 6, "y" := 80])
  {
    BatchLines(es);
    BatchRun(es, parse);
  }

  /** What each expression of the batch simplifies to. */
  lemma BatchLines(es: seq<string>)
    requires es == ["i = 0", "j = ++i", "x = i++ + 5", "y = (5 + 3) * 10", "i += y"]
    ensures |es| == 5
    ensures Simplify(es[0]) == Success(["i = 0"])
    ensures Simplify(es[1]) == Success(["i = i + 1", "j = i"])
    ensures Simplify(es[2]) == Success(["x = i + 5", "i = i + 1"])
    ensures Simplify(es[3]) == Success(["y = (5 + 3) * 10"])
    ensures Simplify(es[4]) == Success(["i = i + y"])
  {
    Scenarios.PlainExample(es[0]);
    Scenarios.PreIncrementExample(es[1]);
    PostLines(es[2], "x", "x = i + 5");
    Scenarios.PlainExample(es[3]);
    Scenarios.CompoundExample(es[4], "i = i + y");
  }

  /** The batch run from what its expressions simplify to. */
  lemma BatchRun(es: seq<string>, parse: string -> Parsed)
    requires |es| == 5 && ParsesExamples(parse)
    requires Simplify(es[0]) == Success(["i = 0"])
    requires Simplify(es[1]) == Success(["i = i + 1", "j = i"])
    requires Simplify(es[2]) == Success(["x = i + 5", "i = i + 1"])
    requires Simplify(es[3]) == Success(["y = (5 + 3) * 10"])
    requires Simplify(es[4]) == Success(["i = i + y"])
    ensures SequentialExecute(EvaluatorOf(AST, parse), es) == Success(map["i" := 82, "j" := 1, "x" := 6, "y" := 80])
  {
    var v0: map<string, int> := map[];
    var v1 := v0["i" := 0];
    var v2 := v1["i" := 1]["j" := 1];
    var v3 := v2["x" := 6]["i" := 2];
    var v4 := v3["y" := 80];
    var v5 := v4["i" := 82];
    BatchSteps(es, parse, v0, v1, v2, v3, v4, v5);
    FiveSteps(EvaluatorOf(AST, parse), es, v0, v1, v2, v3, v4, v5);
  }

  /** Each expression of the batch, from the map the ones before it leave. */
  lemma BatchSteps(es: seq<string>, parse: string -> Parsed, v0: map<string, int>, v1: map<string, int>, v2: map<string, int>,
                   v3: map<string, int>, v4: map<string, int>, v5: map<string, int>)
    requires |es| == 5 && ParsesExamples(parse)
    requires Simplify(es[0]) == Success(["i = 0"])
    requires Simplify(es[1]) == Success(["i = i + 1", "j = i"])
    requires Simplify(es[2]) == Success(["x = i + 5", "i = i + 1"])
    requires Simplify(es[3]) == Success(["y = (5 + 3) * 10"])
    requires Simplify(es[4]) == Success(["i = i + y"])
    requires v0 == map[] && v1 == v0["i" := 0] && v2 == v1["i" := 1]["j" := 1] && v3 == v2["x" := 6]["i" := 2]
    requires v4 == v3["y" := 80] && v5 == v4["i" := 82]
    ensures var eval := EvaluatorOf(AST, parse);
      eval(es[0], v0).result.Success? && eval(es[0], v0).vars == v1 &&
      eval(es[1], v1).result.Success? && eval(es[1], v1).vars == v2 &&
      eval(es[2], v2).result.Success? && eval(es[2], v2).vars == v3 &&
      eval(es[3], v3).result.Success? && eval(es[3], v3).vars == v4 &&
      eval(es[4], v4).result.Success? && eval(es[4], v4).vars == v5
  {
    FirstRun(es[0], parse, v0);
    SecondRun(es[1], parse, v1);
    ThirdRun(es[2], parse, v2);
    FourthRun(es[3], parse, v3);
    FifthRun(es[4], parse, v4);
  }

  /** Five expressions that each evaluate without error run in order from map to map, here
      from the empty map to the batch's final one. */
  lemma FiveSteps(eval: EvaluateFn, es: seq<string>, v0: map<string, int>, v1: map<string, int>, v2: map<string, int>,
                  v3: map<string, int>, v4: map<string, int>, v5: map<string, int>)
    requires |es| == 5
    requires eval(es[0], v0).result.Success? && eval(es[0], v0).vars == v1
    requires eval(es[1], v1).result.Success? && eval(es[1], v1).vars == v2
    requires eval(es[2], v2).result.Success? && eval(es[2], v2).vars == v3
    requires eval(es[3], v3).result.Success? && eval(es[3], v3).vars == v4
    requires eval(es[4], v4).result.Success? && eval(es[4], v4).vars == v5
    requires v0 == map[] && v1 == v0["i" := 0] && v2 == v1["i" := 1]["j" := 1] && v3 == v2["x" := 6]["i" := 2]
    requires v4 == v3["y" := 80] && v5 == v4["i" := 82]
    ensures SequentialExecute(eval, es) == Success(map["i" := 82, "j" := 1, "x" := 6, "y" := 80])
  {
    MapOf4(v5, "i", 82, "j", 1, "x", 6, "y", 80);
    var t1, t2, t3, t4 := es[1..], es[2..], es[3..], es[4..];
    assert t1[0] == es[1] && t1[1..] == t2;
    assert t2[0] == es[2] && t2[1..] == t3;
    assert t3[0] == es[3] && t3[1..] == t4;
    assert t4[0] == es[4] && t4[1..] == [];
    assert RunSequential(eval, t4, v4) == Success(v5);
    assert RunSequential(eval, t3, v3) == Success(v5);
    assert RunSequential(eval, t2, v2) == Success(v5);
    assert RunSequential(eval, t1, v1) == Success(v5);
  }

  lemma FirstRun(e: string, parse: string -> Parsed, vars: map<string, int>)
    requires Simplify(e) == Success(["i = 0"]) && ParsesExamples(parse)
    ensures Evaluate(AST, parse, e, vars) == Outcome(Success(Some(("i", 0))), vars["i" := 0])
  {
    AstLine(parse, "i = 0", "i", Constant(0), vars, 0);
    RunOneLine(AST, parse, e, vars, "i = 0", ("i", 0));
  }

  lemma SecondRun(e: string, parse: string -> Parsed, vars: map<string, int>)
    requires Simplify(e) == Success(["i = i + 1", "j = i"])
    requires ParsesExamples(parse) && "i" in vars && vars["i"] == 0
    ensures Evaluate(AST, parse, e, vars) == Outcome(Success(Some(("j", 1))), vars["i" := 1]["j" := 1])
  {
    AstLine(parse, "i = i + 1", "i", BinOp(Name("i"), Add, Constant(1)), vars, 1);
    AstLine(parse, "j = i", "j", Name("i"), vars["i" := 1], 1);
    RunTwoLines(AST, parse, e, vars, "i = i + 1", "j = i", ("i", 1), ("j", 1));
  }

  lemma ThirdRun(e: string, parse: string -> Parsed, vars: map<string, int>)
    requires Simplify(e) == Success(["x = i + 5", "i = i + 1"])
    requires ParsesExamples(parse) && "i" in vars && vars["i"] == 1
    ensures Evaluate(AST, parse, e, vars) == Outcome(Success(Some(("i", 2))), vars["x" := 6]["i" := 2])
  {
    AstLine(parse, "x = i + 5", "x", BinOp(Name("i"), Add, Constant(5)), vars, 6);
    AstLine(parse, "i = i + 1", "i", BinOp(Name("i"), Add, Constant(1)), vars["x" := 6], 2);
    RunTwoLines(AST, parse, e, vars, "x = i + 5", "i = i + 1", ("x", 6), ("i", 2));
  }

  lemma FourthRun(e: string, parse: string -> Parsed, vars: map<string, int>)
    requires Simplify(e) == Success(["y = (5 + 3) * 10"]) && ParsesExamples(parse)
    ensures Evaluate(AST, parse, e, vars) == Outcome(Success(Some(("y", 80))), vars["y" := 80])
  {
    var n := BinOp(BinOp(Constant(5), Add, Constant(3)), Mult, Constant(10));
    assert EvalNode(n, vars) == Success(80) by {
      assert EvalNode(BinOp(Constant(5), Add, Constant(3)), vars) == Success(8);
    }
    AstLine(parse, "y = (5 + 3) * 10", "y", n, vars, 80);
    RunOneLine(AST, parse, e, vars, "y = (5 + 3) * 10", ("y", 80));
  }

  lemma FifthRun(e: string, parse: string -> Parsed, vars: map<string, int>)
    requires Simplify(e) == Success(["i = i + y"])
    requires ParsesExamples(parse) && "i" in vars && "y" in vars && vars["i"] == 2 && vars["y"] == 80
    ensures Evaluate(AST, parse, e, vars) == Outcome(Success(Some(("i", 82))), vars["i" := 82])
  {
    AstLine(parse, "i = i + y", "i", BinOp(Name("i"), Add, Name("y")), vars, 82);
    RunOneLine(AST, parse, e, vars, "i = i + y", ("i", 82));
  }

  // ---------------------------------------------------------------------------------------
  // QueueBasedExecutor against SequentialExecutor

  /** The levels `[["i = 0"], ["j = ++i"]]`: the worker of `j = ++i` sets `i` to 1 in its copy
      of the snapshot but reports only `("j", 1)`, so the leveled run ends with `{i: 0, j: 1}`
      while the sequential run of the same expressions ends with `{i: 1, j: 1}`. */
  lemma LevelsDivergeExample(levels: seq<seq<string>>, parse: string -> Parsed)
    requires levels == [["i = 0"], ["j = ++i"]] && ParsesExamples(parse)
    ensures RunLevels(EvaluatorOf(AST, parse), levels, 0, map[]) == Success(map["i" := 0, "j" := 1])
    ensures SequentialExecute(EvaluatorOf(AST, parse), Flatten(levels)) == Success(map["i" := 1, "j" := 1])
  {
    DivergeLines(levels);
    DivergeRun(levels, parse);
  }

  /** What the two expressions simplify to. */
  lemma DivergeLines(levels: seq<seq<string>>)
    requires levels == [["i = 0"], ["j = ++i"]]
    ensures |levels| == 2 && |levels[0]| == 1 && |levels[1]| == 1
    ensures Simplify(levels[0][0]) == Success(["i = 0"])
    ensures Simplify(levels[1][0]) == Success(["i = i + 1", "j = i"])
  {
    Scenarios.PlainExample(levels[0][0]);
    Scenarios.PreIncrementExample(levels[1][0]);
  }

  /** Both runs from what the two expressions simplify to. */
  lemma DivergeRun(levels: seq<seq<string>>, parse: string -> Parsed)
    requires |levels| == 2 && |levels[0]| == 1 && |levels[1]| == 1 && ParsesExamples(parse)
    requires Simplify(levels[0][0]) == Success(["i = 0"])
    requires Simplify(levels[1][0]) == Success(["i = i + 1", "j = i"])
    ensures RunLevels(EvaluatorOf(AST, parse), levels, 0, map[]) == Success(map["i" := 0, "j" := 1])
    ensures SequentialExecute(EvaluatorOf(AST, parse), Flatten(levels)) == Success(map["i" := 1, "j" := 1])
  {
    var eval := EvaluatorOf(AST, parse);
    var v0: map<string, int> := map[];
    var v1 := v0["i" := 0];
    FirstRun(levels[0][0], parse, v0);
    SecondRun(levels[1][0], parse, v1);
    OneExpressionLevel(eval, levels[0], v0, ("i", 0));
    OneExpressionLevel(eval, levels[1], v1, ("j", 1));
    TwoLevels(eval, levels, v0, v1, v1["j" := 1]);
    TwoSteps(eval, Flatten(levels), v0, v1, v1["i" := 1]["j" := 1]);
    MapOf2(v1["i" := 1]["j" := 1], "i", 1, "j", 1);
    MapOf2(v1["j" := 1], "i", 0, "j", 1);
  }

  /** A level of one expression that returns a pair not named "error" merges that pair. */
  lemma OneExpressionLevel(eval: EvaluateFn, level: seq<string>, shared: map<string, int>, p: Pair)
    requires |level| == 1 && eval(level[0], shared).result == Success(Some(p)) && p.0 != "error"
    ensures Collect(WorkerMessages(eval, level, shared)) == Some([p])
    ensures Merge(shared, Collect(WorkerMessages(eval, level, shared)).value) == shared[p.0 := p.1]
  {
    OneMessage(eval, level, shared, p);
    CollectOne(p);
    MergeOne(shared, p);
  }

  lemma OneMessage(eval: EvaluateFn, level: seq<string>, shared: map<string, int>, p: Pair)
    requires |level| == 1 && eval(level[0], shared).result == Success(Some(p))
    ensures WorkerMessages(eval, level, shared) == [Reported(p.0, p.1)]
  {
    assert level[..0] == [];
  }

  lemma CollectOne(p: Pair)
    requires p.0 != "error"
    ensures Collect([Reported(p.0, p.1)]) == Some([p])
  {
    var ms := [Reported(p.0, p.1)];
    assert ms[..0] == [];
    assert Collect(ms[..0]) == Some([]);
    assert (p.0, p.1) == p && [] + [p] == [p];
  }

  lemma MergeOne(shared: map<string, int>, p: Pair)
    ensures Merge(shared, [p]) == shared[p.0 := p.1]
  {
    assert [p][1..] == [];
  }

  /** Two levels that each merge one pair, and their flattening. */
  lemma TwoLevels(eval: EvaluateFn, levels: seq<seq<string>>, v0: map<string, int>, v1: map<string, int>, v2: map<string, int>)
    requires |levels| == 2 && |levels[0]| == 1 && |levels[1]| == 1
    requires Collect(WorkerMessages(eval, levels[0], v0)).Some?
    requires Merge(v0, Collect(WorkerMessages(eval, levels[0], v0)).value) == v1
    requires Collect(WorkerMessages(eval, levels[1], v1)).Some?
    requires Merge(v1, Collect(WorkerMessages(eval, levels[1], v1)).value) == v2
    ensures RunLevels(eval, levels, 0, v0) == Success(v2)
    ensures Flatten(levels) == [levels[0][0], levels[1][0]]
  {
    var rest := levels[1..];
    assert rest[0] == levels[1] && rest[1..] == [];
    assert RunLevels(eval, rest, 1, v1) == Success(v2);
    assert Flatten(rest) == levels[1] + [];
  }

  /** Two expressions that each evaluate without error run in order from map to map. */
  lemma TwoSteps(eval: EvaluateFn, es: seq<string>, v0: map<string, int>, v1: map<string, int>, v2: map<string, int>)
    requires |es| == 2
    requires eval(es[0], v0).result.Success? && eval(es[0], v0).vars == v1
    requires eval(es[1], v1).result.Success? && eval(es[1], v1).vars == v2
    ensures RunSequential(eval, es, v0) == Success(v2)
  {
    var t1 := es[1..];
    assert t1[0] == es[1] && t1[1..] == [];
    assert RunSequential(eval, t1, v1) == Success(v2);
  }

  // ---------------------------------------------------------------------------------------
  // QueueBasedExecutor: a chain of levels

  /** `2 ** i`. */
  function Pow2(i: nat): (r: nat)
    ensures r >= 1
  {
    if i == 0 then 1 else 2 * Pow2(i - 1)
  }

  /** Line `i` of the chain over the names `ns`: `x0 = 1`, then `x<i> = x<i-1> * 2`. */
  function ChainLine(ns: seq<string>, i: nat): string
    requires i < |ns|
  {
    if i == 0 then ns[0] + " = 1" else ns[i] + " = " + ns[i - 1] + " * 2"
  }

  /** The node `ast.parse` gives line `i` of the chain. */
  function ChainNode(ns: seq<string>, i: nat): Node
    requires i < |ns|
  {
    if i == 0 then Constant(1) else BinOp(Name(ns[i - 1]), Mult, Constant(2))
  }

  /** The chain one line per level, each level depending on the one before it. */
  function ChainLevels(ns: seq<string>): (levels: seq<seq<string>>)
    ensures |levels| == |ns|
    ensures forall i :: 0 <= i < |ns| ==> levels[i] == [ChainLine(ns, i)]
  {
    seq(|ns|, i requires 0 <= i < |ns| => [ChainLine(ns, i)])
  }

  /** `ast.parse` on the chain's lines. */
  predicate ChainParses(parse: string -> Parsed, ns: seq<string>) {
    forall i :: 0 <= i < |ns| ==> parse(ChainLine(ns, i)) == Module([Assign(NameTarget(ns[i]), ChainNode(ns, i))])
  }

  /** Distinct identifiers, none of them "error". */
  predicate ChainNames(ns: seq<string>) {
    (forall i :: 0 <= i < |ns| ==> IsIdentifier(ns[i]) && ns[i] != "error") &&
    (forall i, j :: 0 <= i < j < |ns| ==> ns[i] != ns[j])
  }

  /** The shared map after the first `k` levels. */
  function ChainMap(ns: seq<string>, k: nat): map<string, int>
    requires k <= |ns|
  {
    if k == 0 then map[] else ChainMap(ns, k - 1)[ns[k - 1] := Pow2(k - 1)]
  }

  /** The chain `x0 = 1`, `x<i> = x<i-1> * 2`, one line per level, ends with `x<i>` set to
      `2 ** i` and nothing else. */
  lemma ChainExample(ns: seq<string>, parse: string -> Parsed)
    requires ChainNames(ns) && ChainParses(parse, ns)
    ensures var r := RunLevels(EvaluatorOf(AST, parse), ChainLevels(ns), 0, map[]);
      r.Success? && r.value.Keys == (set i | 0 <= i < |ns| :: ns[i]) &&
      forall i :: 0 <= i < |ns| ==> r.value[ns[i]] == Pow2(i)
  {
    ChainFrom(ns, parse, 0);
    assert ChainLevels(ns)[0..] == ChainLevels(ns);
    ChainMapSpec(ns, |ns|);
  }

  /** The levels from `k` on, from the map the first `k` levels leave. */
  lemma {:induction false} ChainFrom(ns: seq<string>, parse: string -> Parsed, k: nat)
    requires ChainNames(ns) && ChainParses(parse, ns) && k <= |ns|
    ensures RunLevels(EvaluatorOf(AST, parse), ChainLevels(ns)[k..], k, ChainMap(ns, k)) == Success(ChainMap(ns, |ns|))
    decreases |ns| - k
  {
    if k < |ns| {
      var eval := EvaluatorOf(AST, parse);
      var levels := ChainLevels(ns)[k..];
      var vars := ChainMap(ns, k);
      ChainStep(ns, parse, k);
      OneExpressionLevel(eval, levels[0], vars, (ns[k], Pow2(k)));
      assert levels[1..] == ChainLevels(ns)[k + 1..];
      ChainFrom(ns, parse, k + 1);
    }
  }

  /** Line `k` of the chain returns `(x<k>, 2 ** k)` on the map the first `k` levels leave. */
  lemma ChainStep(ns: seq<string>, parse: string -> Parsed, k: nat)
    requires ChainNames(ns) && ChainParses(parse, ns) && k < |ns|
    ensures EvaluatorOf(AST, parse)(ChainLine(ns, k), ChainMap(ns, k)).result == Success(Some((ns[k], Pow2(k))))
  {
    var line := ChainLine(ns, k);
    var vars := ChainMap(ns, k);
    ChainLinePlain(ns, k);
    ChainNodeValue(ns, k);
    AstLine(parse, line, ns[k], ChainNode(ns, k), vars, Pow2(k));
    RunOneLine(AST, parse, line, vars, line, (ns[k], Pow2(k)));
  }

  /** Node `k` of the chain evaluates to `2 ** k` on the map the first `k` levels leave. */
  lemma ChainNodeValue(ns: seq<string>, k: nat)
    requires k < |ns|
    ensures ChainNode(ns, k) != OtherNode && EvalNode(ChainNode(ns, k), ChainMap(ns, k)) == Success(Pow2(k))
  {
    if k > 0 {
      var vars := ChainMap(ns, k);
      assert vars[ns[k - 1]] == Pow2(k - 1);
      assert EvalNode(Name(ns[k - 1]), vars) == Success(Pow2(k - 1));
    }
  }

  /** The map after `k` levels holds the first `k` names, name `i` mapped to `2 ** i`. */
  lemma {:induction false} ChainMapSpec(ns: seq<string>, k: nat)
    requires ChainNames(ns) && k <= |ns|
    ensures ChainMap(ns, k).Keys == set i | 0 <= i < k :: ns[i]
    ensures forall i :: 0 <= i < k ==> ChainMap(ns, k)[ns[i]] == Pow2(i)
  {
    if k > 0 {
      ChainMapSpec(ns, k - 1);
      var now, before := set i | 0 <= i < k :: ns[i], set i | 0 <= i < k - 1 :: ns[i];
      assert now == before + {ns[k - 1]} by {
        forall x | x in now ensures x in before + {ns[k - 1]} {
          var i :| 0 <= i < k && ns[i] == x;
          if i < k - 1 {
            assert x in before;
          }
        }
      }
    }
  }

  /** Every line of the chain is its own simplification: it has no `+`, `-` or `/`, and its
      one `*` is followed by a space. */
  lemma ChainLinePlain(ns: seq<string>, k: nat)
    requires ChainNames(ns) && k < |ns|
    ensures Simplify(ChainLine(ns, k)) == Success([ChainLine(ns, k)])
  {
    var s := ChainLine(ns, k);
    var a := ns[k];
    assert forall j :: 0 <= j < |a| ==> IsWordChar(a[j]);
    var r := if k == 0 then "1" else ns[k - 1] + " * 2";
    assert s == a + " = " + r;
    assert s[|a| + 1] == '=';
    forall j | 0 <= j < |s|
      ensures s[j] != '+' && s[j] != '-' && s[j] != '/'
      ensures s[j] == '*' ==> j + 1 < |s| && s[j + 1] == ' '
    {
      if j < |a| {
        assert s[j] == a[j];
      } else if j >= |a| + 3 && k > 0 {
        var b := ns[k - 1];
        assert forall i :: 0 <= i < |b| ==> IsWordChar(b[i]);
        assert s[j] == r[j - |a| - 3];
        if j - |a| - 3 < |b| {
          assert r[j - |a| - 3] == b[j - |a| - 3];
        } else if s[j] == '*' {
          assert j - |a| - 3 == |b| + 1 && s[j + 1] == r[|b| + 2];
        }
      }
    }
    NotAdjacentFrom(s, '+', '+', 0);
    NotAdjacentFrom(s, '+', '=', 0);
    NotAdjacentFrom(s, '-', '=', 0);
    NotAdjacentFrom(s, '*', '=', 0);
    NotAdjacentFrom(s, '/', '=', 0);
    Scenarios.PlainLine(s);
  }

  /** The documented chain `x0 = 1`, `x1 = x0 * 2`, ..., `x9 = x8 * 2`: it ends with exactly
      the names `x0` to `x9`, `x9` set to 512. */
  lemma ChainOfTenExample(ns: seq<string>, parse: string -> Parsed)
    requires ns == ["x0", "x1", "x2", "x3", "x4", "x5", "x6", "x7", "x8", "x9"] && ChainParses(parse, ns)
    ensures ChainLine(ns, 0) == "x0 = 1" && ChainLine(ns, 9) == "x9 = x8 * 2"
    ensures var r := RunLevels(EvaluatorOf(AST, parse), ChainLevels(ns), 0, map[]);
      r.Success? && r.value.Keys == (set i | 0 <= i < 10 :: ns[i]) &&
      (forall i :: 0 <= i < 10 ==> r.value[ns[i]] == Pow2(i)) && r.value["x9"] == 512
  {
    TenNames(ns);
    ChainOfTen(ns, parse);
    TenLines(ns);
  }

  lemma TenLines(ns: seq<string>)
    requires |ns| == 10 && ns[0] == "x0" && ns[8] == "x8" && ns[9] == "x9"
    ensures ChainLine(ns, 0) == "x0 = 1" && ChainLine(ns, 9) == "x9 = x8 * 2"
  {
  }

  lemma ChainOfTen(ns: seq<string>, parse: string -> Parsed)
    requires |ns| == 10 && ns[9] == "x9" && ChainNames(ns) && ChainParses(parse, ns)
    ensures var r := RunLevels(EvaluatorOf(AST, parse), ChainLevels(ns), 0, map[]);
      r.Success? && r.value.Keys == (set i | 0 <= i < 10 :: ns[i]) &&
      (forall i :: 0 <= i < 10 ==> r.value[ns[i]] == Pow2(i)) && r.value["x9"] == 512
  {
    ChainExample(ns, parse);
    assert Pow2(9) == 512;
  }

  lemma TenNames(ns: seq<string>)
    requires ns == ["x0", "x1", "x2", "x3", "x4", "x5", "x6", "x7", "x8", "x9"]
    ensures |ns| == 10 && ns[0] == "x0" && ns[8] == "x8" && ns[9] == "x9" && ChainNames(ns)
  {
    forall i | 0 <= i < |ns| ensures IsIdentifier(ns[i]) && ns[i] != "error" {
      assert |ns[i]| == 2 && ns[i][0] == 'x' && IsDigit(ns[i][1]);
    }
    forall i, j | 0 <= i < j < |ns| ensures ns[i] != ns[j] {
      assert ns[i][1] != ns[j][1];
    }
  }
}
