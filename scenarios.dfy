/** Documented examples of the simplifier, the evaluators and the dependency graph, each
    derived from the general lemmas about them or from the definitions step by step. */
module Scenarios {
  import opened Wrappers
  import opened Text
  import opened ExpressionSimplifier
  import opened Evaluator
  import opened TopoSort
  import DG = DependencyGraph

  /** The compound assignments of the documented examples: `x += 1` becomes `x = x + 1`,
      `i += y` becomes `i = i + y`, and `x += 3` and `y *= 2` of the compound batch become
      `x = x + 3` and `y = y * 2`. */
  lemma CompoundExample(s: string, line: string)
    requires (s, line) == ("x += 1", "x = x + 1") || (s, line) == ("i += y", "i = i + y") ||
             (s, line) == ("x += 3", "x = x + 3") || (s, line) == ("y *= 2", "y = y * 2")
    ensures Simplify(s) == Success([line])
  {
    if s == "x += 1" {
      CompoundPieces(s, "x", "+=", "1", line);
      CompoundAssign(s, "x", "+=", "1", line);
    } else if s == "i += y" {
      CompoundPieces(s, "i", "+=", "y", line);
      CompoundAssign(s, "i", "+=", "y", line);
    } else if s == "x += 3" {
      CompoundPieces(s, "x", "+=", "3", line);
      CompoundAssign(s, "x", "+=", "3", line);
    } else {
      CompoundPieces(s, "y", "*=", "2", line);
      CompoundAssign(s, "y", "*=", "2", line);
    }
  }

  lemma CompoundPieces(s: string, x: string, op: string, v: string, line: string)
    requires (s, x, op, v, line) == ("x += 1", "x", "+=", "1", "x = x + 1") ||
             (s, x, op, v, line) == ("i += y", "i", "+=", "y", "i = i + y") ||
             (s, x, op, v, line) == ("x += 3", "x", "+=", "3", "x = x + 3") ||
             (s, x, op, v, line) == ("y *= 2", "y", "*=", "2", "y = y * 2")
    ensures IsWordString(x) && IsWordString(v) && op in CompoundOperators
    ensures s == x + " " + op + " " + v && line == x + " = " + x + " " + op[..1] + " " + v
  {
  }

  /** `x op= v` for two words becomes `x = x op v`. */
  lemma CompoundAssign(s: string, x: string, op: string, v: string, line: string)
    requires IsWordString(x) && IsWordString(v) && op in CompoundOperators
    requires s == x + " " + op + " " + v && line == x + " = " + x + " " + op[..1] + " " + v
    ensures Simplify(s) == Success([line])
  {
    CompoundAssignParse(s, x, op, v);
    WordNoPlusPlus(v);
    CompoundLineOf(x, op, v, line);
    CompoundSimplified(s, Expression(x, Some(op), v, s), line);
  }

  lemma CompoundLineOf(x: string, op: string, v: string, line: string)
    requires |op| == 2 && line == x + " = " + x + " " + op[..1] + " " + v
    ensures AssignLine(x, x + " " + op[..1] + " " + v) == line
  {
  }

  /** A compound parse whose value has no `++` simplifies to its one rewritten line. */
  lemma CompoundSimplified(s: string, e: Expression, line: string)
    requires Parse(s) == Success(e) && e.operator.Some? && !Contains(e.value, "++")
    requires AssignLine(e.target, e.target + " " + e.operator.value[..1] + " " + e.value) == line
    ensures Simplify(s) == Success([line])
  {
    CompoundRewritten(s);
  }

  lemma CompoundAssignParse(s: string, x: string, op: string, v: string)
    requires IsWordString(x) && IsWordString(v) && op in CompoundOperators && s == x + " " + op + " " + v
    ensures Parse(s) == Success(Expression(x, Some(op), v, s))
  {
    assert '\n' !in v && !IsSpace(v[0]) && !IsSpace(v[|v| - 1]);
    ParseCompound(x, " ", op, " ", v);
    StripClean(v);
  }

  lemma WordNoPlusPlus(v: string)
    requires IsWordString(v)
    ensures !Contains(v, "++")
  {
    AdjacentFromSpec(v, "++", 0);
    NotAdjacentFrom(v, '+', '+', 0);
  }

  /** `x +=` misses the compound pattern, whose `.+` needs a character after the operator;
      the parse then splits at the `=` and the target is `x +`. */
  lemma UnmatchedCompoundExample(s: string)
    requires s == "x +="
    ensures Parse(s) == Success(Expression("x +", None, "", s))
  {
    assert "x +" + "=" + "" == s;
    assert OnlyLineBreaks("");
    ParseRegular("x +", "");
    assert Strip("x +") == "x +" by {
      StripClean("x +");
    }
  }

  /** `x y += 1` misses the compound pattern, so it is split at its `=`, and the `+=` in its
      text stops the simple handler: it simplifies to no lines, and `evaluate` returns no pair
      and leaves the map as it was. */
  lemma DroppedExample(s: string)
    requires s == "x y += 1"
    ensures Simplify(s) == Success([])
    ensures forall strategy, parse, vars :: Evaluate(strategy, parse, s, vars) == Outcome(Success(None), vars)
  {
    DroppedPieces(s);
    SimplifyDropped("x y +", " 1");
  }

  lemma DroppedPieces(s: string)
    requires s == "x y += 1"
    ensures s == "x y +" + "=" + " 1" && '=' !in "x y +" && !CompoundLeft("x y +")
    ensures HasCompoundOperator(s) && !Contains(Strip(" 1"), "++")
  {
    assert OccursAt(s, "+=", 4);
    ContainsAt(s, "+=", 4);
    assert Strip(" 1") == "1" by {
      StripClean("1");
    }
  }

  /** The pairs of characters the simple handler and the compound pattern look for. */
  predicate NoOperatorPairs(s: string) {
    !AdjacentFrom(s, '+', '+', 0) && !AdjacentFrom(s, '+', '=', 0) && !AdjacentFrom(s, '-', '=', 0) &&
    !AdjacentFrom(s, '*', '=', 0) && !AdjacentFrom(s, '/', '=', 0)
  }

  /** An assignment without `++` and without a compound operator is its own simplification. */
  lemma PlainLine(s: string)
    requires '=' in s && NoOperatorPairs(s)
    ensures Simplify(s) == Success([s])
  {
    AdjacentFromSpec(s, "++", 0);
    AdjacentFromSpec(s, "+=", 0);
    AdjacentFromSpec(s, "-=", 0);
    AdjacentFromSpec(s, "*=", 0);
    AdjacentFromSpec(s, "/=", 0);
    SimplifyPlain(s);
  }

  lemma PlainLiterals()
    ensures NoOperatorPairs("i = 0") && NoOperatorPairs("y = (5 + 3) * 10")
  {
    ShortLiteral();
    LongLiteral();
  }

  lemma ShortLiteral()
    ensures !AdjacentFrom("i = 0", '+', '+', 0) && !AdjacentFrom("i = 0", '+', '=', 0)
    ensures !AdjacentFrom("i = 0", '-', '=', 0) && !AdjacentFrom("i = 0", '*', '=', 0)
    ensures !AdjacentFrom("i = 0", '/', '=', 0)
  {
  }

  lemma LongLiteral()
    ensures NoOperatorPairs("y = (5 + 3) * 10")
  {
    var s := "y = (5 + 3) * 10";
    forall k | 0 <= k < |s| - 1 && s[k] in "+-*/" ensures s[k + 1] == ' ' {
    }
    SpacedOperators(s);
  }

  /** A line where a space follows every `+`, `-`, `*` and `/` holds none of the pairs. */
  lemma SpacedOperators(s: string)
    requires forall k :: 0 <= k < |s| - 1 && s[k] in "+-*/" ==> s[k + 1] == ' '
    ensures NoOperatorPairs(s)
  {
    NotAdjacentFrom(s, '+', '+', 0);
    NotAdjacentFrom(s, '+', '=', 0);
    NotAdjacentFrom(s, '-', '=', 0);
    NotAdjacentFrom(s, '*', '=', 0);
    NotAdjacentFrom(s, '/', '=', 0);
  }

  /** `i = 0` and `y = (5 + 3) * 10` pass the simple handler unchanged. */
  lemma PlainExample(s: string)
    requires s == "i = 0" || s == "y = (5 + 3) * 10"
    ensures Simplify(s) == Success([s])
  {
    PlainLiterals();
    assert s[2] == '=';
    PlainLine(s);
  }

  /** So do `x = 5` and `y = 10`. */
  lemma PlainBatchExample(s: string)
    requires s == "x = 5" || s == "y = 10"
    ensures Simplify(s) == Success([s])
  {
    PlainBatchLiterals();
    assert s[2] == '=';
    PlainLine(s);
  }

  lemma PlainBatchLiterals()
    ensures !AdjacentFrom("x = 5", '+', '+', 0) && !AdjacentFrom("x = 5", '+', '=', 0)
    ensures !AdjacentFrom("x = 5", '-', '=', 0) && !AdjacentFrom("x = 5", '*', '=', 0)
    ensures !AdjacentFrom("x = 5", '/', '=', 0)
    ensures !AdjacentFrom("y = 10", '+', '+', 0) && !AdjacentFrom("y = 10", '+', '=', 0)
    ensures !AdjacentFrom("y = 10", '-', '=', 0) && !AdjacentFrom("y = 10", '*', '=', 0)
    ensures !AdjacentFrom("y = 10", '/', '=', 0)
  {
  }

  /** `j = ++i` becomes `i = i + 1` then `j = i`. */
  lemma PreIncrementExample(s: string)
    requires s == "j = ++i"
    ensures Simplify(s) == Success(["i = i + 1", "j = i"])
  {
    var e := Expression("j", None, "++i", s);
    RegularPieces(s, "j ", " ++i");
    ParseRegular("j ", " ++i");
    StripPieces();
    assert Parse(s) == Success(e);
    assert StartsWith("++i", "++");
    PreIncrementRewritten(e);
    PreIncrementLoop();
    PreIncrementLines();
  }

  lemma RegularPieces(s: string, a: string, b: string)
    requires (s, a, b) == ("j = ++i", "j ", " ++i")
    ensures a + "=" + b == s
  {
  }

  lemma StripPieces()
    ensures Strip("j ") == "j" && Strip(" ++i") == "++i" && Strip(" i++ + 5") == "i++ + 5"
  {
  }

  /** The `++v` loop on `++i`: one pass, then no match. */
  lemma PreIncrementLoop()
    ensures PreRewrite("++i") == ("i", [Increment("i")])
  {
    assert PreMatchFrom("++i", 0) == Some(0);
    assert PreWord("++i", 0) == "i" && PreCut("++i", 0) == "i";
    PreLoopStep("++i", [], 0, "i", "i");
    assert PreMatchFrom("i", 0) == None;
    PreLoopDone("i", [Increment("i")]);
    assert [] + [Increment("i")] == [Increment("i")];
  }

  lemma PreIncrementLines()
    ensures [Increment("i")] + [AssignLine("j", "i")] == ["i = i + 1", "j = i"]
  {
    assert Increment("i") == "i = i + 1";
    assert AssignLine("j", "i") == "j = i";
  }

  /** `t = i++ + 5` becomes `t = i + 5` then `i = i + 1` for any name `t`, as the test shows for
      `j`: the value neither starts nor ends with `++`, so the complex handler rewrites it. */
  lemma PostIncrementExample(s: string, t: string)
    requires IsIdentifier(t) && s == t + " = i++ + 5"
    ensures Simplify(s) == Success([t + " = i + 5", "i = i + 1"])
  {
    var e := Expression(t, None, "i++ + 5", s);
    assert (t + " ") + "=" + " i++ + 5" == s;
    NameThenSpace(t);
    ParseRegular(t + " ", " i++ + 5");
    StripPieces();
    assert Parse(s) == Success(e);
    PostIncrementShape();
    ComplexIncrementRewritten(e);
    PostIncrementLoops();
    PostIncrementLines(t);
  }

  /** A name followed by a space: no `=`, stripped back to the name, and not the left side of
      a compound operator. */
  lemma NameThenSpace(t: string)
    requires IsIdentifier(t)
    ensures '=' !in t + " " && Strip(t + " ") == t && !CompoundLeft(t + " ")
  {
    var a := t + " ";
    assert forall k :: 0 <= k < |t| ==> a[k] == t[k];
    assert a[..|t|] == t;
    StripClean(t);
  }

  lemma PostIncrementShape()
    ensures Contains("i++ + 5", "++") && !StartsWith("i++ + 5", "++") && !EndsWith("i++ + 5", "++")
  {
    var v := "i++ + 5";
    assert v[1..3] == "++";
    ContainsAt(v, "++", 1);
    assert v[..2] != "++" by { assert v[..2][0] == 'i'; }
    assert v[|v| - 2..] != "++" by { assert v[|v| - 2..][1] == '5'; }
  }

  /** Neither `++v` pass applies to `i++ + 5`; one `v++` pass leaves `i + 5`. */
  lemma PostIncrementLoops()
    ensures PreRewrite("i++ + 5") == ("i++ + 5", [])
    ensures PostRewrite("i++ + 5") == ("i + 5", [Increment("i")])
  {
    NoPreMatch();
    PreLoopDone("i++ + 5", []);
    OnePostMatch();
    PostLoopStep("i++ + 5", [], 0, "i", "i + 5");
    PostLoopDone("i + 5", [Increment("i")]);
    assert [] + [Increment("i")] == [Increment("i")];
  }

  lemma NoPreMatch()
    ensures PreMatchFrom("i++ + 5", 0) == None
  {
  }

  lemma OnePostMatch()
    ensures PostMatchFrom("i++ + 5", 0) == Some(0)
    ensures PostWord("i++ + 5", 0) == "i" && PostCut("i++ + 5", 0) == "i + 5"
    ensures PostMatchFrom("i + 5", 0) == None
  {
  }

  lemma PostIncrementLines(t: string)
    ensures [] + [AssignLine(t, "i + 5")] + [Increment("i")] == [t + " = i + 5", "i = i + 1"]
  {
    assert Increment("i") == "i = i + 1";
    assert AssignLine(t, "i + 5") == t + " = i + 5" by {
      assert " = " + "i + 5" == " = i + 5";
    }
  }

  /** The regex evaluator's arithmetic pattern reads `2 * 3 + 100` as `2 * 3`: it matches
      only the leading `operand op operand`. */
  lemma TrailingTextIgnoredExample(v: string)
    requires v == "2 * 3 + 100"
    ensures ArithmeticMatch(v) == Some(("2", '*', "3"))
  {
    assert "2 * 3" + " + 100" == v;
    ArithmeticHead();
    ArithmeticIgnoresRest("2 * 3", " + 100");
  }

  lemma ArithmeticHead()
    ensures ArithmeticMatch("2 * 3") == Some(("2", '*', "3"))
  {
    var s := "2 * 3";
    assert WordRun(s, 0) == 1 && SpaceRun(s, 1) == 1;
    assert SpaceRun(s, 3) == 1 && WordRun(s, 4) == 1;
    assert s[..1] == "2" && s[2] == '*' && s[4..5] == "3";
  }

  /** A `/` node (`ast.Div`) with the operands 7 and -2 evaluates to -4 in the AST evaluator,
      which computes `/` as Python's floor division `//`, not truncation. (The text `7 // -2`
      itself would parse to `ast.FloorDiv` and a unary minus, both refused.) */
  lemma FloorDivisionExample()
    ensures EvalNode(BinOp(Constant(7), Div, Constant(-2)), map[]) == Success(-4)
  {
    assert FloorDiv(7, -2) == -4;
  }

  /** `["a = 1", "b = a", "b = a"]` in names: two expressions assign `b` from `a`. In the input
      order every expression comes after the ones it reads, yet `in_degree[b]` counts both
      expressions' reads (2) while the graph entry of `b` holds `a` once, so emitting `a`
      releases only the second `b` and the sort fails as if there were a cycle. */
  lemma DuplicateTargetRejected(a: string, b: string)
    requires a != b
    ensures var ts, ds := [a, b, b], [{}, {a}, {a}];
      (forall p, q :: 0 <= p < 3 && 0 <= q < 3 && ts[p] in ds[q] ==> p < q) &&
      TopologicalOrder(ts, DG.GraphOf(ts, ds, 3), DG.DegOf(ts, ds, 3)) == None
  {
    var ts, ds := [a, b, b], [{}, {a}, {a}];
    DuplicateBuilt(a, b);
    var g, deg := map[a := {}, b := {a}], map[b := 2];
    assert Deg(deg, a) == 0 && Deg(deg, b) == 2;
    assert Ready(ts, deg, 2) == [];
    assert Ready(ts, deg, 1) == [];
    assert Ready(ts, deg, 0) == [0];
    DuplicateDrain(a, b);
  }

  /** Kahn's loop on the built graph: `a` is emitted, then the second `b`, and nothing is left
      to release the first `b`. */
  lemma DuplicateDrain(a: string, b: string)
    requires a != b
    ensures var ts, g := [a, b, b], map[a := {}, b := {a}];
      Invariant(ts, [], Worklist([0], map[b := 2])) &&
      Drain(ts, g, [], Worklist([0], map[b := 2])) == None
  {
    var ts, g := [a, b, b], map[a := {}, b := {a}];
    DuplicateSweeps(a, b);
    DuplicateDrainTail(a, b);
    var w := Worklist([0], map[b := 2]);
    assert w.stack[..0] == [] && ts[0] == a && [] + [0] == [0];
    assert Invariant(ts, [], w);
  }

  lemma DuplicateDrainTail(a: string, b: string)
    requires a != b
    ensures var ts, g := [a, b, b], map[a := {}, b := {a}];
      Invariant(ts, [0], Worklist([2], map[b := 0])) &&
      Drain(ts, g, [0], Worklist([2], map[b := 0])) == None
  {
    var ts, g := [a, b, b], map[a := {}, b := {a}];
    DuplicateSweeps(a, b);
    assert Drain(ts, g, [0, 2], Worklist([], map[b := 0])) == None;
  }

  /** The graph and the in-degrees the two passes build for targets `[a, b, b]`. */
  lemma DuplicateBuilt(a: string, b: string)
    requires a != b
    ensures var ts, ds := [a, b, b], [{}, {a}, {a}];
      DG.GraphOf(ts, ds, 3) == map[a := {}, b := {a}] && DG.DegOf(ts, ds, 3) == map[b := 2]
  {
    var ts, ds := [a, b, b], [{}, {a}, {a}];
    assert DG.Registered(ts) == map[a := {}, b := {}] by {
      assert DG.Names(ts) == {a, b};
    }
    assert DG.GraphOf(ts, ds, 0) == map[a := {}, b := {}];
    var g0: map<string, set<string>> := map[a := {}, b := {}];
    assert Get(g0, a) + ds[0] == {};
    assert DG.GraphOf(ts, ds, 1) == g0[a := {}];
    assert DG.GraphOf(ts, ds, 1) == map[a := {}, b := {}];
    assert Get(g0, b) + ds[1] == {a};
    assert DG.GraphOf(ts, ds, 2) == map[a := {}, b := {a}];
    assert Get(map[a := {}, b := {a}], b) + ds[2] == {a};
    assert DG.DegOf(ts, ds, 1) == map[];
    assert DG.DegOf(ts, ds, 2) == map[b := 1];
  }

  /** Emitting `a` releases only the second `b`; emitting `b` releases nothing. */
  lemma DuplicateSweeps(a: string, b: string)
    requires a != b
    ensures var ts, g := [a, b, b], map[a := {}, b := {a}];
      Sweep(ts, g, a, 0, Worklist([], map[b := 2])) == Worklist([2], map[b := 0]) &&
      Sweep(ts, g, b, 0, Worklist([], map[b := 0])) == Worklist([], map[b := 0])
  {
    var ts, g := [a, b, b], map[a := {}, b := {a}];
    assert Step(ts, g, a, 0, Worklist([], map[b := 2])) == Worklist([], map[b := 2]);
    assert Step(ts, g, a, 1, Worklist([], map[b := 2])) == Worklist([], map[b := 1]);
    assert Step(ts, g, a, 2, Worklist([], map[b := 1])) == Worklist([2], map[b := 0]);
    assert Sweep(ts, g, a, 2, Worklist([], map[b := 1])) == Worklist([2], map[b := 0]);
    assert Sweep(ts, g, a, 1, Worklist([], map[b := 2])) == Worklist([2], map[b := 0]);
    var w := Worklist([], map[b := 0]);
    assert Step(ts, g, b, 0, w) == w && Step(ts, g, b, 1, w) == w && Step(ts, g, b, 2, w) == w;
    assert Sweep(ts, g, b, 2, w) == w;
    assert Sweep(ts, g, b, 1, w) == w;
  }

  /** `["a = b", "b = a"]` in names: each reads the other's target, so the sort fails. */
  lemma CycleRejected(a: string, b: string)
    requires a != b
    ensures var ts, ds := [a, b], [{b}, {a}];
      TopologicalOrder(ts, DG.GraphOf(ts, ds, 2), DG.DegOf(ts, ds, 2)) == None
  {
    var ts, ds := [a, b], [{b}, {a}];
    DG.OrderFailsIffStuck(ts, ds, DG.GraphOf(ts, ds, 2), DG.DegOf(ts, ds, 2));
    StuckPair(ts, ds);
  }

  /** Two expressions that read each other's targets are stuck together. */
  lemma StuckPair(ts: seq<string>, ds: seq<set<string>>)
    requires |ts| == 2 && |ds| == 2 && ts[1] in ds[0] && ts[0] in ds[1]
    ensures DG.Stuck(ts, ds, {0, 1})
  {
    var S: set<nat> := {0, 1};
    assert forall k :: 0 <= k < |ts| ==> k in S;
    assert forall j :: j in S ==> j == 0 || j == 1;
  }
}
