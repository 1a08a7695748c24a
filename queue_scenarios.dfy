/** The documented compound batch `x = 5`, `x += 3`, `y = 10`, `y *= 2` run by the queue
    executor: the targets and reads the graph is built from, Kahn's loop on that graph, the
    levels `get_expression_levels` packs, and the run of those levels with the AST evaluator;
    and a line without `=` that the build refuses. */
module QueueScenarios {
  import opened Wrappers
  import opened Text
  import opened Extract
  import opened TopoSort
  import opened Levels
  import DG = DependencyGraph
  import Ev = Evaluator
  import Simp = ExpressionSimplifier
  import Ex = Executor
  import ExecutionScenarios
  import Scenarios

  // ---------------------------------------------------------------------------------------
  // Targets and reads

  /** A one-character word splits into itself and is no compound left side. */
  lemma OneWord(s: string)
    requires |s| == 1 && !IsSpace(s[0])
    ensures Split(s) == [s] && CompoundName(s) == {}
  {
    assert SplitFrom(s, 1) == [];
    assert Split(s) == [s[0..1]] + SplitFrom(s, 1);
    assert s[0..1] == s;
  }

  /** A two-character token splits into itself. */
  lemma TwoChars(s: string)
    requires |s| == 2 && !IsSpace(s[0]) && !IsSpace(s[1])
    ensures Split(s) == [s]
  {
    assert SpaceRun(s, 2) == 0 && SplitFrom(s, 2) == [];
    assert TokenRun(s, 2) == 0 && TokenRun(s, 1) == 1 && TokenRun(s, 0) == 2 && SpaceRun(s, 0) == 0;
    assert Split(s) == [s[0..2]] + SplitFrom(s, 2);
    assert s[0..2] == s;
  }

  /** A left side `x +` is compound: its first word is read. */
  lemma TwoWords(s: string)
    requires |s| == 3 && !IsSpace(s[0]) && IsSpace(s[1]) && !IsSpace(s[2])
    ensures CompoundName(s) == {s[..1]}
  {
    assert SpaceRun(s, 3) == 0 && SplitFrom(s, 3) == [];
    assert TokenRun(s, 3) == 0 && TokenRun(s, 2) == 1;
    assert SpaceRun(s, 2) == 0 && SpaceRun(s, 1) == 1;
    assert SplitFrom(s, 1) == [s[2..3]] + SplitFrom(s, 3);
    assert TokenRun(s, 1) == 0 && TokenRun(s, 0) == 1 && SpaceRun(s, 0) == 0;
    assert Split(s) == [s[0..1]] + SplitFrom(s, 1);
  }

  /** `a b` has no `=`: it is its own target and reads `a`. */
  lemma NoEqualsPieces(s: string)
    requires s == "a b"
    ensures '=' !in s && Strip(s) == s && CompoundName(s) == {"a"}
  {
    StripClean(s);
    TwoWords(s);
    assert s[..1] == "a";
  }

  /** The batch `["a b"]`: the line's target is `a b` and it reads `a`, which nothing assigns,
      so building the graph raises the undefined-variable error for `a` in `a b`. */
  lemma NoEqualsExample(es: seq<string>)
    requires es == ["a b"]
    ensures Target(es[0]) == "a b" && Dependencies(es[0]) == {"a"}
    ensures !DG.AllDefined(DG.Targets(es), DG.Reads(es))
    ensures DG.ReportsUndefined(es, DG.Targets(es), DG.Reads(es), DG.UndefinedVariable("a", "a b"))
  {
    NoEqualsPieces(es[0]);
    NoEqualsLine(es[0]);
    NoEqualsBuild(es, "a b", "a");
  }

  /** One expression that reads a name other than its own target fails the build. */
  lemma NoEqualsBuild(es: seq<string>, t: string, d: string)
    requires |es| == 1 && Target(es[0]) == t && Dependencies(es[0]) == {d} && d != t
    ensures !DG.AllDefined(DG.Targets(es), DG.Reads(es))
    ensures DG.ReportsUndefined(es, DG.Targets(es), DG.Reads(es), DG.UndefinedVariable(d, es[0]))
  {
    var ts, ds := DG.Targets(es), DG.Reads(es);
    DG.TargetsAt(es, 0);
    assert ts == [t];
    assert d !in DG.Names(ts);
    DG.UndefinedReported(es, ts, ds, 0, d);
  }

  lemma XSides() ensures Target("x = 5") == "x" && RightSide("x = 5") == Some("5") {}
  lemma XValue() ensures IncrementName("5") == {} && TokenNames(Split("5")) == {} {}

  /** `x = 5` assigns `x` and reads nothing. */
  lemma XPlain()
    ensures Target("x = 5") == "x" && Dependencies("x = 5") == {}
  {
    XSides();
    OneWord("x");
    XValue();
  }

  lemma XAddSides() ensures Target("x += 3") == "x +" && RightSide("x += 3") == Some("3") {}
  lemma XAddValue() ensures IncrementName("3") == {} && TokenNames(Split("3")) == {} {}

  /** `x += 3` has the target `x +`, which no expression assigns, and reads `x`. */
  lemma XAdd()
    ensures Target("x += 3") == "x +" && Dependencies("x += 3") == {"x"}
  {
    XAddSides();
    TwoWords("x +");
    assert "x +"[..1] == "x";
    XAddValue();
  }

  lemma YSides() ensures Target("y = 10") == "y" && RightSide("y = 10") == Some("10") {}
  lemma YValue() ensures IncrementName("10") == {} && TokenNames(Split("10")) == {} { TwoChars("10"); }

  /** `y = 10` assigns `y` and reads nothing. */
  lemma YPlain()
    ensures Target("y = 10") == "y" && Dependencies("y = 10") == {}
  {
    YSides();
    OneWord("y");
    YValue();
  }

  lemma YMulSides() ensures Target("y *= 2") == "y *" && RightSide("y *= 2") == Some("2") {}
  lemma YMulValue() ensures IncrementName("2") == {} && TokenNames(Split("2")) == {} {}

  /** `y *= 2` has the target `y *` and reads `y`. */
  lemma YMul()
    ensures Target("y *= 2") == "y *" && Dependencies("y *= 2") == {"y"}
  {
    YMulSides();
    TwoWords("y *");
    assert "y *"[..1] == "y";
    YMulValue();
  }

  /** The targets and the dependency sets of the batch. */
  lemma BatchExtracted(es: seq<string>)
    requires es == ["x = 5", "x += 3", "y = 10", "y *= 2"]
    ensures DG.Targets(es) == ["x", "x +", "y", "y *"] && DG.Reads(es) == [{}, {"x"}, {}, {"y"}]
  {
    BatchEntries(es);
    XPlain();
    XAdd();
    YPlain();
    YMul();
    ExtractedFrom(es);
  }

  lemma BatchEntries(es: seq<string>)
    requires es == ["x = 5", "x += 3", "y = 10", "y *= 2"]
    ensures |es| == 4 && es[0] == "x = 5" && es[1] == "x += 3" && es[2] == "y = 10" && es[3] == "y *= 2"
  {
  }

  /** Four expressions with these targets and reads. */
  lemma ExtractedFrom(es: seq<string>)
    requires |es| == 4
    requires Target(es[0]) == "x" && Dependencies(es[0]) == {}
    requires Target(es[1]) == "x +" && Dependencies(es[1]) == {"x"}
    requires Target(es[2]) == "y" && Dependencies(es[2]) == {}
    requires Target(es[3]) == "y *" && Dependencies(es[3]) == {"y"}
    ensures DG.Targets(es) == ["x", "x +", "y", "y *"] && DG.Reads(es) == [{}, {"x"}, {}, {"y"}]
  {
    ExtractedAt(es);
  }

  /** The targets and reads of four expressions, entry by entry. */
  lemma ExtractedAt(es: seq<string>)
    requires |es| == 4
    ensures DG.Targets(es) == [Target(es[0]), Target(es[1]), Target(es[2]), Target(es[3])]
    ensures DG.Reads(es) == [Dependencies(es[0]), Dependencies(es[1]), Dependencies(es[2]), Dependencies(es[3])]
  {
    TargetsOfFour(es);
    ReadsOfFour(es);
  }

  lemma TargetsOfFour(es: seq<string>)
    requires |es| == 4
    ensures DG.Targets(es) == [Target(es[0]), Target(es[1]), Target(es[2]), Target(es[3])]
  {
    DG.TargetsAt(es, 0);
    DG.TargetsAt(es, 1);
    DG.TargetsAt(es, 2);
    DG.TargetsAt(es, 3);
    FourOf(DG.Targets(es), Target(es[0]), Target(es[1]), Target(es[2]), Target(es[3]));
  }

  lemma ReadsOfFour(es: seq<string>)
    requires |es| == 4
    ensures DG.Reads(es) == [Dependencies(es[0]), Dependencies(es[1]), Dependencies(es[2]), Dependencies(es[3])]
  {
    DG.TargetsAt(es, 0);
    DG.TargetsAt(es, 1);
    DG.TargetsAt(es, 2);
    DG.TargetsAt(es, 3);
    FourOf(DG.Reads(es), Dependencies(es[0]), Dependencies(es[1]), Dependencies(es[2]), Dependencies(es[3]));
  }

  /** A sequence of four entries is the display of those entries. */
  lemma FourOf<T>(s: seq<T>, a: T, b: T, c: T, d: T)
    requires |s| == 4 && s[0] == a && s[1] == b && s[2] == c && s[3] == d
    ensures s == [a, b, c, d]
  {
  }

  // ---------------------------------------------------------------------------------------
  // The graph, Kahn's loop and the levels, over four distinct names: `x`, the compound target
  // `xp` (`x +`), `y` and `yp` (`y *`)

  /** The two passes of `build_graph`: every read name is assigned, each compound target's
      entry holds the name it reads, and only the compound targets get an in-degree of 1. */
  lemma BatchBuilt(x: string, xp: string, y: string, yp: string)
    requires x != xp && x != y && x != yp && xp != y && xp != yp && y != yp
    ensures var ts, ds := [x, xp, y, yp], [{}, {x}, {}, {y}];
      DG.AllDefined(ts, ds) &&
      DG.GraphOf(ts, ds, 4) == map[x := {}, xp := {x}, y := {}, yp := {y}] &&
      DG.DegOf(ts, ds, 4) == map[xp := 1][yp := 1]
  {
    var ts, ds := [x, xp, y, yp], [{}, {x}, {}, {y}];
    assert DG.Names(ts) == {x, xp, y, yp};
    var g0: map<string, set<string>> := map[x := {}, xp := {}, y := {}, yp := {}];
    assert DG.Registered(ts) == g0;
    assert DG.GraphOf(ts, ds, 0) == g0;
    assert Get(g0, x) + ds[0] == {};
    assert DG.GraphOf(ts, ds, 1) == g0;
    assert Get(g0, xp) + ds[1] == {x};
    var g1 := g0[xp := {x}];
    assert DG.GraphOf(ts, ds, 2) == g1;
    assert Get(g1, y) + ds[2] == {};
    assert DG.GraphOf(ts, ds, 3) == g1;
    assert Get(g1, yp) + ds[3] == {y};
    assert DG.GraphOf(ts, ds, 4) == g1[yp := {y}];
    assert DG.DegOf(ts, ds, 1) == map[];
    assert DG.DegOf(ts, ds, 2) == map[xp := 1];
    assert DG.DegOf(ts, ds, 3) == map[xp := 1];
    assert |ds[3]| == 1;
  }

  /** Emitting `y` releases `yp`. */
  lemma SweepY(x: string, xp: string, y: string, yp: string)
    requires x != xp && x != y && x != yp && xp != y && xp != yp && y != yp
    ensures var ts, g, deg := [x, xp, y, yp], map[x := {}, xp := {x}, y := {}, yp := {y}], map[xp := 1][yp := 1];
      Sweep(ts, g, y, 0, Worklist([0], deg)) == Worklist([0, 3], deg[yp := 0])
  {
    var ts, g, deg := [x, xp, y, yp], map[x := {}, xp := {x}, y := {}, yp := {y}], map[xp := 1][yp := 1];
    var w0, w1 := Worklist([0], deg), Worklist([0, 3], deg[yp := 0]);
    assert Get(g, x) == {} && Get(g, xp) == {x} && Get(g, y) == {} && Get(g, yp) == {y};
    assert Step(ts, g, y, 0, w0) == w0 && Step(ts, g, y, 1, w0) == w0 && Step(ts, g, y, 2, w0) == w0;
    assert Deg(deg, yp) == 1 && [0] + [3] == [0, 3];
    assert Step(ts, g, y, 3, w0) == w1;
    assert Sweep(ts, g, y, 4, w1) == w1;
    assert Sweep(ts, g, y, 3, w0) == w1;
    assert Sweep(ts, g, y, 2, w0) == w1;
    assert Sweep(ts, g, y, 1, w0) == w1;
  }

  /** Emitting `x` releases `xp`. */
  lemma SweepX(x: string, xp: string, y: string, yp: string)
    requires x != xp && x != y && x != yp && xp != y && xp != yp && y != yp
    ensures var ts, g, deg := [x, xp, y, yp], map[x := {}, xp := {x}, y := {}, yp := {y}], map[xp := 1][yp := 1][yp := 0];
      Sweep(ts, g, x, 0, Worklist([], deg)) == Worklist([1], deg[xp := 0])
  {
    var ts, g, deg := [x, xp, y, yp], map[x := {}, xp := {x}, y := {}, yp := {y}], map[xp := 1][yp := 1][yp := 0];
    var w0, w1 := Worklist([], deg), Worklist([1], deg[xp := 0]);
    assert Get(g, x) == {} && Get(g, xp) == {x} && Get(g, y) == {} && Get(g, yp) == {y};
    assert Step(ts, g, x, 0, w0) == w0;
    assert Deg(deg, xp) == 1 && [] + [1] == [1];
    assert Step(ts, g, x, 1, w0) == w1;
    assert Step(ts, g, x, 2, w1) == w1 && Step(ts, g, x, 3, w1) == w1;
    assert Sweep(ts, g, x, 4, w1) == w1;
    assert Sweep(ts, g, x, 3, w1) == w1;
    assert Sweep(ts, g, x, 2, w1) == w1;
    assert Sweep(ts, g, x, 1, w0) == w1;
  }

  /** Emitting a compound target releases nothing: no expression reads it. */
  lemma SweepNothing(x: string, xp: string, y: string, yp: string, c: string, w: Worklist)
    requires x != xp && x != y && x != yp && xp != y && xp != yp && y != yp
    requires c == xp || c == yp
    ensures var ts, g := [x, xp, y, yp], map[x := {}, xp := {x}, y := {}, yp := {y}];
      Sweep(ts, g, c, 0, w) == w
  {
    var ts, g := [x, xp, y, yp], map[x := {}, xp := {x}, y := {}, yp := {y}];
    assert Get(g, x) == {} && Get(g, xp) == {x} && Get(g, y) == {} && Get(g, yp) == {y};
    assert Step(ts, g, c, 0, w) == w && Step(ts, g, c, 1, w) == w;
    assert Step(ts, g, c, 2, w) == w && Step(ts, g, c, 3, w) == w;
    assert Sweep(ts, g, c, 4, w) == w;
    assert Sweep(ts, g, c, 3, w) == w;
    assert Sweep(ts, g, c, 2, w) == w;
    assert Sweep(ts, g, c, 1, w) == w;
  }

  /** Round one: the stack is `[x, y]` and `y` is popped first (the ready list is a stack). */
  lemma DrainRound1(x: string, xp: string, y: string, yp: string)
    requires x != xp && x != y && x != yp && xp != y && xp != yp && y != yp
    ensures var ts, g, deg := [x, xp, y, yp], map[x := {}, xp := {x}, y := {}, yp := {y}], map[xp := 1][yp := 1];
      Invariant(ts, [], Worklist([0, 2], deg)) &&
      Invariant(ts, [2], Worklist([0, 3], deg[yp := 0])) &&
      Drain(ts, g, [], Worklist([0, 2], deg)) == Drain(ts, g, [2], Worklist([0, 3], deg[yp := 0]))
  {
    var ts, g, deg := [x, xp, y, yp], map[x := {}, xp := {x}, y := {}, yp := {y}], map[xp := 1][yp := 1];
    SweepY(x, xp, y, yp);
    assert [0, 2][..1] == [0] && [] + [2] == [2] && [2] + [0, 3] == [2, 0, 3];
    assert Deg(deg, x) == 0 && Deg(deg, y) == 0;
    assert Deg(deg[yp := 0], x) == 0 && Deg(deg[yp := 0], y) == 0 && Deg(deg[yp := 0], yp) == 0;
    assert Invariant(ts, [], Worklist([0, 2], deg));
    assert Invariant(ts, [2], Worklist([0, 3], deg[yp := 0]));
  }

  /** Round two: `yp` is popped and releases nothing. */
  lemma DrainRound2(x: string, xp: string, y: string, yp: string)
    requires x != xp && x != y && x != yp && xp != y && xp != yp && y != yp
    ensures var ts, g, deg := [x, xp, y, yp], map[x := {}, xp := {x}, y := {}, yp := {y}], map[xp := 1][yp := 1][yp := 0];
      Invariant(ts, [2], Worklist([0, 3], deg)) &&
      Invariant(ts, [2, 3], Worklist([0], deg)) &&
      Drain(ts, g, [2], Worklist([0, 3], deg)) == Drain(ts, g, [2, 3], Worklist([0], deg))
  {
    var ts, g, deg := [x, xp, y, yp], map[x := {}, xp := {x}, y := {}, yp := {y}], map[xp := 1][yp := 1][yp := 0];
    SweepNothing(x, xp, y, yp, yp, Worklist([0], deg));
    assert [0, 3][..1] == [0] && [2] + [3] == [2, 3] && [2] + [0, 3] == [2, 0, 3] && [2, 3] + [0] == [2, 3, 0];
    assert Deg(deg, x) == 0 && Deg(deg, y) == 0 && Deg(deg, yp) == 0;
    assert Invariant(ts, [2], Worklist([0, 3], deg));
    assert Invariant(ts, [2, 3], Worklist([0], deg));
  }

  /** Round three: `x` is popped and releases `xp`. */
  lemma DrainRound3(x: string, xp: string, y: string, yp: string)
    requires x != xp && x != y && x != yp && xp != y && xp != yp && y != yp
    ensures var ts, g, deg := [x, xp, y, yp], map[x := {}, xp := {x}, y := {}, yp := {y}], map[xp := 1][yp := 1][yp := 0];
      Invariant(ts, [2, 3], Worklist([0], deg)) &&
      Invariant(ts, [2, 3, 0], Worklist([1], deg[xp := 0])) &&
      Drain(ts, g, [2, 3], Worklist([0], deg)) == Drain(ts, g, [2, 3, 0], Worklist([1], deg[xp := 0]))
  {
    var ts, g, deg := [x, xp, y, yp], map[x := {}, xp := {x}, y := {}, yp := {y}], map[xp := 1][yp := 1][yp := 0];
    SweepX(x, xp, y, yp);
    assert [0][..0] == [] && [2, 3] + [0] == [2, 3, 0] && [2, 3, 0] + [1] == [2, 3, 0, 1];
    assert Deg(deg, x) == 0 && Deg(deg, y) == 0 && Deg(deg, yp) == 0;
    var deg2 := deg[xp := 0];
    assert Deg(deg2, x) == 0 && Deg(deg2, xp) == 0 && Deg(deg2, y) == 0 && Deg(deg2, yp) == 0;
    assert Invariant(ts, [2, 3], Worklist([0], deg));
    assert Invariant(ts, [2, 3, 0], Worklist([1], deg2));
  }

  /** Round four: `xp` is popped, the stack is empty and all four are emitted. */
  lemma DrainRound4(x: string, xp: string, y: string, yp: string)
    requires x != xp && x != y && x != yp && xp != y && xp != yp && y != yp
    ensures var ts, g, deg := [x, xp, y, yp], map[x := {}, xp := {x}, y := {}, yp := {y}], map[xp := 1][yp := 1][yp := 0][xp := 0];
      Invariant(ts, [2, 3, 0], Worklist([1], deg)) &&
      Drain(ts, g, [2, 3, 0], Worklist([1], deg)) == Some([2, 3, 0, 1])
  {
    var ts, g, deg := [x, xp, y, yp], map[x := {}, xp := {x}, y := {}, yp := {y}], map[xp := 1][yp := 1][yp := 0][xp := 0];
    SweepNothing(x, xp, y, yp, xp, Worklist([], deg));
    assert [1][..0] == [] && [2, 3, 0] + [1] == [2, 3, 0, 1];
    assert Deg(deg, x) == 0 && Deg(deg, xp) == 0 && Deg(deg, y) == 0 && Deg(deg, yp) == 0;
    assert Invariant(ts, [2, 3, 0], Worklist([1], deg));
    assert Invariant(ts, [2, 3, 0, 1], Worklist([], deg));
    assert Drain(ts, g, [2, 3, 0, 1], Worklist([], deg)) == Some([2, 3, 0, 1]);
  }

  /** `topological_sort` orders the batch `y`, `yp`, `x`, `xp`. */
  lemma BatchOrder(x: string, xp: string, y: string, yp: string)
    requires x != xp && x != y && x != yp && xp != y && xp != yp && y != yp
    ensures var ts, g, deg := [x, xp, y, yp], map[x := {}, xp := {x}, y := {}, yp := {y}], map[xp := 1][yp := 1];
      TopologicalOrder(ts, g, deg) == Some([2, 3, 0, 1])
  {
    var ts, deg := [x, xp, y, yp], map[xp := 1][yp := 1];
    assert Deg(deg, x) == 0 && Deg(deg, xp) == 1 && Deg(deg, y) == 0 && Deg(deg, yp) == 1;
    assert Ready(ts, deg, 4) == [];
    assert Ready(ts, deg, 3) == [];
    assert Ready(ts, deg, 2) == [2];
    assert Ready(ts, deg, 1) == [2];
    assert Ready(ts, deg, 0) == [0, 2];
    DrainRound1(x, xp, y, yp);
    DrainRound2(x, xp, y, yp);
    DrainRound3(x, xp, y, yp);
    DrainRound4(x, xp, y, yp);
  }

  /** `get_expression_levels` on that order: `yp` reads `y`, placed just before it, and `xp`
      reads `x`, so the levels are `[y]`, `[yp, x]`, `[xp]`. */
  lemma BatchLevels(x: string, xp: string, y: string, yp: string, key: string -> string)
    requires x != xp && x != y && x != yp && xp != y && xp != yp && y != yp
    requires key(x) == x && key(y) == y
    ensures var ts, g := [x, xp, y, yp], map[x := {}, xp := {x}, y := {}, yp := {y}];
      LevelsOf(ts, g, key, [2, 3, 0, 1]) == [[2], [3, 0], [1]]
  {
    var ts, g := [x, xp, y, yp], map[x := {}, xp := {x}, y := {}, yp := {y}];
    assert Get(g, yp) == {y} && Get(g, x) == {} && Get(g, xp) == {x};
    assert Conflicts(ts, g, key, 3, [2]) by {
      assert y in Get(g, ts[3]) && key(y) == ts[[2][0]];
    }
    assert !Conflicts(ts, g, key, 0, [3]);
    assert Conflicts(ts, g, key, 1, [3, 0]) by {
      assert x in Get(g, ts[1]) && key(x) == ts[[3, 0][1]];
    }
    assert [2, 3, 0, 1][1..] == [3, 0, 1] && [3, 0, 1][1..] == [0, 1] && [0, 1][1..] == [1] && [1][1..] == [];
    assert [] + [2] == [2] && [3] + [0] == [3, 0];
    assert [] + [[2]] == [[2]] && [[2]] + [[3, 0]] == [[2], [3, 0]] && [[2], [3, 0]] + [[1]] == [[2], [3, 0], [1]];
    assert Pack(ts, g, key, [], [[2], [3, 0]], [1]) == [[2], [3, 0], [1]];
    assert Pack(ts, g, key, [1], [[2]], [3, 0]) == [[2], [3, 0], [1]];
    assert Pack(ts, g, key, [0, 1], [[2]], [3]) == [[2], [3, 0], [1]];
    assert Pack(ts, g, key, [3, 0, 1], [], [2]) == [[2], [3, 0], [1]];
  }

  // ---------------------------------------------------------------------------------------
  // The planned levels

  /** `get_expression_levels` on four expressions with these targets and reads: the graph
      builds, and the levels are expressions 2, then 3 and 0, then 1. */
  lemma PlannedFrom(es: seq<string>, x: string, xp: string, y: string, yp: string)
    requires |es| == 4 && x != xp && x != y && x != yp && xp != y && xp != yp && y != yp
    requires DG.Targets(es) == [x, xp, y, yp] && DG.Reads(es) == [{}, {x}, {}, {y}]
    requires Target(x) == x && Target(y) == y
    ensures DG.AllDefined(DG.Targets(es), DG.Reads(es))
    ensures Ex.PlannedLevels(es) == Success([[es[2]], [es[3], es[0]], [es[1]]])
  {
    var ts, ds := DG.Targets(es), DG.Reads(es);
    var g, deg := DG.GraphOf(ts, ds, |ts|), DG.DegOf(ts, ds, |ts|);
    BatchBuilt(x, xp, y, yp);
    BatchSorted(x, xp, y, yp, g, deg);
    LevelsFromGraph(es, ts, g, deg);
  }

  /** Kahn's order and the packing of the batch's graph. */
  lemma BatchSorted(x: string, xp: string, y: string, yp: string, g: map<string, set<string>>, deg: map<string, int>)
    requires x != xp && x != y && x != yp && xp != y && xp != yp && y != yp
    requires Target(x) == x && Target(y) == y
    requires g == map[x := {}, xp := {x}, y := {}, yp := {y}] && deg == map[xp := 1][yp := 1]
    ensures TopologicalOrder([x, xp, y, yp], g, deg) == Some([2, 3, 0, 1])
    ensures LevelsOf([x, xp, y, yp], g, Target, [2, 3, 0, 1]) == [[2], [3, 0], [1]]
  {
    BatchOrder(x, xp, y, yp);
    BatchLevels(x, xp, y, yp, Target);
  }

  /** `get_expression_levels` of four expressions sorted as `[2, 3, 0, 1]` and packed as
      `[[2], [3, 0], [1]]`. */
  lemma LevelsFromGraph(es: seq<string>, ts: seq<string>, g: map<string, set<string>>, deg: map<string, int>)
    requires |es| == 4 && |ts| == 4
    requires TopologicalOrder(ts, g, deg) == Some([2, 3, 0, 1])
    requires LevelsOf(ts, g, Target, [2, 3, 0, 1]) == [[2], [3, 0], [1]]
    ensures DG.ExpressionLevels(es, ts, g, deg) == Success([[es[2]], [es[3], es[0]], [es[1]]])
  {
    LevelsOfOrder(es, ts, g, deg, [2, 3, 0, 1], [[2], [3, 0], [1]]);
    PickBatch(es);
  }

  /** `get_expression_levels` picks the expressions of the levels its packing forms. */
  lemma LevelsOfOrder(es: seq<string>, ts: seq<string>, g: map<string, set<string>>, deg: map<string, int>,
                      order: seq<nat>, levels: seq<seq<nat>>)
    requires |ts| == |es| && InRange(order, |ts|)
    requires TopologicalOrder(ts, g, deg) == Some(order) && LevelsOf(ts, g, Target, order) == levels
    ensures forall i :: 0 <= i < |levels| ==> InRange(levels[i], |es|)
    ensures DG.ExpressionLevels(es, ts, g, deg) == Success(DG.PickLevels(es, levels))
  {
    LevelsPartitionOrder(ts, g, Target, order);
  }

  lemma PickBatch(es: seq<string>)
    requires |es| == 4
    ensures DG.PickLevels(es, [[2], [3, 0], [1]]) == [[es[2]], [es[3], es[0]], [es[1]]]
  {
    assert DG.Pick(es, [2]) == [es[2]] && DG.Pick(es, [3, 0]) == [es[3], es[0]] && DG.Pick(es, [1]) == [es[1]];
  }

  /** `x` and `y` are their own targets. */
  lemma NamesAreTargets()
    ensures Target("x") == "x" && Target("y") == "y"
  {
    XPlain();
    YPlain();
    TargetOfTarget("x = 5");
    TargetOfTarget("y = 10");
  }

  /** The batch is planned as `[y = 10]`, `[y *= 2, x = 5]`, `[x += 3]`: the stack pops `y = 10`
      before `x = 5`, and each compound target lands right after the name it reads. */
  lemma BatchPlanned(es: seq<string>)
    requires es == ["x = 5", "x += 3", "y = 10", "y *= 2"]
    ensures DG.AllDefined(DG.Targets(es), DG.Reads(es))
    ensures Ex.PlannedLevels(es) == Success([["y = 10"], ["y *= 2", "x = 5"], ["x += 3"]])
  {
    BatchExtracted(es);
    BatchEntries(es);
    NamesAreTargets();
    PlannedFrom(es, "x", "x +", "y", "y *");
  }

  // ---------------------------------------------------------------------------------------
  // The runs

  /** `ast.parse` on the lines the batch simplifies to: each is one assignment to a name. */
  predicate ParsesBatch(parse: string -> Ev.Parsed) {
    parse("x = 5") == Ev.Module([Ev.Assign(Ev.NameTarget("x"), Ev.Constant(5))]) &&
    parse("x = x + 3") == Ev.Module([Ev.Assign(Ev.NameTarget("x"), Ev.BinOp(Ev.Name("x"), Ev.Add, Ev.Constant(3)))]) &&
    parse("y = 10") == Ev.Module([Ev.Assign(Ev.NameTarget("y"), Ev.Constant(10))]) &&
    parse("y = y * 2") == Ev.Module([Ev.Assign(Ev.NameTarget("y"), Ev.BinOp(Ev.Name("y"), Ev.Mult, Ev.Constant(2)))])
  }

  /** An expression that simplifies to one assignment of a supported node to a name returns
      that name and the node's value, and stores it. */
  lemma LineRun(parse: string -> Ev.Parsed, e: string, line: string, t: string, node: Ev.Node, vars: map<string, int>, v: int)
    requires Simp.Simplify(e) == Success([line]) && parse(line) == Ev.Module([Ev.Assign(Ev.NameTarget(t), node)])
    requires node != Ev.OtherNode && Ev.EvalNode(node, vars) == Success(v)
    ensures Ev.EvaluatorOf(Ev.AST, parse)(e, vars) == Ev.Outcome(Success(Some((t, v))), vars[t := v])
  {
    ExecutionScenarios.AstLine(parse, line, t, node, vars, v);
    ExecutionScenarios.RunOneLine(Ev.AST, parse, e, vars, line, (t, v));
  }

  /** What the four expressions simplify to. */
  lemma BatchLines(es: seq<string>)
    requires es == ["x = 5", "x += 3", "y = 10", "y *= 2"]
    ensures |es| == 4
    ensures Simp.Simplify(es[0]) == Success(["x = 5"]) && Simp.Simplify(es[1]) == Success(["x = x + 3"])
    ensures Simp.Simplify(es[2]) == Success(["y = 10"]) && Simp.Simplify(es[3]) == Success(["y = y * 2"])
  {
    Scenarios.PlainBatchExample(es[0]);
    Scenarios.PlainBatchExample(es[2]);
    Scenarios.CompoundExample(es[1], "x = x + 3");
    Scenarios.CompoundExample(es[3], "y = y * 2");
  }

  /** `x = 5` on any map. */
  lemma XFive(e: string, parse: string -> Ev.Parsed, vars: map<string, int>)
    requires Simp.Simplify(e) == Success(["x = 5"]) && ParsesBatch(parse)
    ensures Ev.EvaluatorOf(Ev.AST, parse)(e, vars) == Ev.Outcome(Success(Some(("x", 5))), vars["x" := 5])
  {
    LineRun(parse, e, "x = 5", "x", Ev.Constant(5), vars, 5);
  }

  /** `y = 10` on any map. */
  lemma YTen(e: string, parse: string -> Ev.Parsed, vars: map<string, int>)
    requires Simp.Simplify(e) == Success(["y = 10"]) && ParsesBatch(parse)
    ensures Ev.EvaluatorOf(Ev.AST, parse)(e, vars) == Ev.Outcome(Success(Some(("y", 10))), vars["y" := 10])
  {
    LineRun(parse, e, "y = 10", "y", Ev.Constant(10), vars, 10);
  }

  /** `x += 3` on a map where `x` is 5. */
  lemma XAddThree(e: string, parse: string -> Ev.Parsed, vars: map<string, int>)
    requires Simp.Simplify(e) == Success(["x = x + 3"]) && ParsesBatch(parse)
    requires "x" in vars && vars["x"] == 5
    ensures Ev.EvaluatorOf(Ev.AST, parse)(e, vars) == Ev.Outcome(Success(Some(("x", 8))), vars["x" := 8])
  {
    AddNode(vars);
    LineRun(parse, e, "x = x + 3", "x", Ev.BinOp(Ev.Name("x"), Ev.Add, Ev.Constant(3)), vars, 8);
  }

  /** `y *= 2` on a map where `y` is 10. */
  lemma YMulTwo(e: string, parse: string -> Ev.Parsed, vars: map<string, int>)
    requires Simp.Simplify(e) == Success(["y = y * 2"]) && ParsesBatch(parse)
    requires "y" in vars && vars["y"] == 10
    ensures Ev.EvaluatorOf(Ev.AST, parse)(e, vars) == Ev.Outcome(Success(Some(("y", 20))), vars["y" := 20])
  {
    MulNode(vars);
    LineRun(parse, e, "y = y * 2", "y", Ev.BinOp(Ev.Name("y"), Ev.Mult, Ev.Constant(2)), vars, 20);
  }

  lemma AddNode(vars: map<string, int>)
    requires "x" in vars && vars["x"] == 5
    ensures Ev.EvalNode(Ev.BinOp(Ev.Name("x"), Ev.Add, Ev.Constant(3)), vars) == Success(8)
  {
    assert Ev.EvalNode(Ev.Name("x"), vars) == Success(5);
  }

  lemma MulNode(vars: map<string, int>)
    requires "y" in vars && vars["y"] == 10
    ensures Ev.EvalNode(Ev.BinOp(Ev.Name("y"), Ev.Mult, Ev.Constant(2)), vars) == Success(20)
  {
    assert Ev.EvalNode(Ev.Name("y"), vars) == Success(10);
  }

  /** A level of two expressions that each return a pair not named "error" merges both
      pairs, in level order. */
  lemma TwoExpressionLevel(eval: Ev.EvaluateFn, level: seq<string>, shared: map<string, int>, p: Ev.Pair, q: Ev.Pair)
    requires |level| == 2 && p.0 != "error" && q.0 != "error"
    requires eval(level[0], shared).result == Success(Some(p)) && eval(level[1], shared).result == Success(Some(q))
    ensures Ex.Collect(Ex.WorkerMessages(eval, level, shared)) == Some([p, q])
    ensures Ex.Merge(shared, [p, q]) == shared[p.0 := p.1][q.0 := q.1]
  {
    TwoMessages(eval, level, shared, p, q);
    CollectTwo(p, q);
    MergeTwo(shared, p, q);
  }

  lemma TwoMessages(eval: Ev.EvaluateFn, level: seq<string>, shared: map<string, int>, p: Ev.Pair, q: Ev.Pair)
    requires |level| == 2
    requires eval(level[0], shared).result == Success(Some(p)) && eval(level[1], shared).result == Success(Some(q))
    ensures Ex.WorkerMessages(eval, level, shared) == [Ex.Reported(p.0, p.1), Ex.Reported(q.0, q.1)]
  {
    assert level[..1][..0] == [] && level[..1][0] == level[0];
    assert Ex.WorkerMessages(eval, level[..1], shared) == [Ex.Reported(p.0, p.1)];
  }

  lemma CollectTwo(p: Ev.Pair, q: Ev.Pair)
    requires p.0 != "error" && q.0 != "error"
    ensures Ex.Collect([Ex.Reported(p.0, p.1), Ex.Reported(q.0, q.1)]) == Some([p, q])
  {
    var ms := [Ex.Reported(p.0, p.1), Ex.Reported(q.0, q.1)];
    var m1 := ms[..1];
    assert m1 == [Ex.Reported(p.0, p.1)] && m1[..0] == [];
    assert Ex.Collect(m1[..0]) == Some([]);
    assert (p.0, p.1) == p && [] + [p] == [p] && (q.0, q.1) == q;
    assert Ex.Collect(m1) == Some([p]);
    assert [p] + [q] == [p, q];
  }

  lemma MergeTwo(shared: map<string, int>, p: Ev.Pair, q: Ev.Pair)
    ensures Ex.Merge(shared, [p, q]) == shared[p.0 := p.1][q.0 := q.1]
  {
    assert [p, q][1..] == [q] && [q][1..] == [];
    var after := shared[p.0 := p.1][q.0 := q.1];
    assert Ex.Merge(after, []) == after;
    assert Ex.Merge(shared[p.0 := p.1], [q]) == after;
  }

  /** The queue run of the three planned levels: `{y: 10}`, then `{y: 20, x: 5}` merged from
      the two results computed on the snapshot `{y: 10}`, then `{x: 8, y: 20}`. */
  lemma QueueRun(es: seq<string>, parse: string -> Ev.Parsed)
    requires |es| == 4 && ParsesBatch(parse)
    requires Simp.Simplify(es[0]) == Success(["x = 5"]) && Simp.Simplify(es[1]) == Success(["x = x + 3"])
    requires Simp.Simplify(es[2]) == Success(["y = 10"]) && Simp.Simplify(es[3]) == Success(["y = y * 2"])
    ensures Ex.RunLevels(Ev.EvaluatorOf(Ev.AST, parse), [[es[2]], [es[3], es[0]], [es[1]]], 0, map[]) ==
      Success(map["x" := 8, "y" := 20])
  {
    var eval := Ev.EvaluatorOf(Ev.AST, parse);
    var levels := [[es[2]], [es[3], es[0]], [es[1]]];
    var v0: map<string, int> := map[];
    var v1 := v0["y" := 10];
    var v2 := v1["y" := 20]["x" := 5];
    var v3 := v2["x" := 8];
    YTen(es[2], parse, v0);
    YMulTwo(es[3], parse, v1);
    XFive(es[0], parse, v1);
    XAddThree(es[1], parse, v2);
    LevelsRun(eval, levels, v0, v1, v2, v3, ("y", 10), ("y", 20), ("x", 5), ("x", 8));
    ExecutionScenarios.MapOf2(v3, "x", 8, "y", 20);
  }

  /** Levels of one, two and one expressions, whose expressions return the pairs `a`, then `b`
      and `c`, then `d`, none named "error", run from `v0` to `v3` by merging those pairs. */
  lemma LevelsRun(eval: Ev.EvaluateFn, levels: seq<seq<string>>, v0: map<string, int>, v1: map<string, int>,
                  v2: map<string, int>, v3: map<string, int>, a: Ev.Pair, b: Ev.Pair, c: Ev.Pair, d: Ev.Pair)
    requires |levels| == 3 && |levels[0]| == 1 && |levels[1]| == 2 && |levels[2]| == 1
    requires a.0 != "error" && b.0 != "error" && c.0 != "error" && d.0 != "error"
    requires eval(levels[0][0], v0).result == Success(Some(a)) && v1 == v0[a.0 := a.1]
    requires eval(levels[1][0], v1).result == Success(Some(b)) && eval(levels[1][1], v1).result == Success(Some(c))
    requires v2 == v1[b.0 := b.1][c.0 := c.1]
    requires eval(levels[2][0], v2).result == Success(Some(d)) && v3 == v2[d.0 := d.1]
    ensures Ex.RunLevels(eval, levels, 0, v0) == Success(v3)
  {
    ExecutionScenarios.OneExpressionLevel(eval, levels[0], v0, a);
    TwoExpressionLevel(eval, levels[1], v1, b, c);
    ExecutionScenarios.OneExpressionLevel(eval, levels[2], v2, d);
    ThreeLevels(eval, levels, v0, v1, v2, v3);
  }

  /** Three levels, each merging what it collects into the map the one before it leaves. */
  lemma ThreeLevels(eval: Ev.EvaluateFn, levels: seq<seq<string>>, v0: map<string, int>, v1: map<string, int>,
                    v2: map<string, int>, v3: map<string, int>)
    requires |levels| == 3
    requires Ex.Collect(Ex.WorkerMessages(eval, levels[0], v0)).Some?
    requires Ex.Merge(v0, Ex.Collect(Ex.WorkerMessages(eval, levels[0], v0)).value) == v1
    requires Ex.Collect(Ex.WorkerMessages(eval, levels[1], v1)).Some?
    requires Ex.Merge(v1, Ex.Collect(Ex.WorkerMessages(eval, levels[1], v1)).value) == v2
    requires Ex.Collect(Ex.WorkerMessages(eval, levels[2], v2)).Some?
    requires Ex.Merge(v2, Ex.Collect(Ex.WorkerMessages(eval, levels[2], v2)).value) == v3
    ensures Ex.RunLevels(eval, levels, 0, v0) == Success(v3)
  {
    var r1, r2 := levels[1..], levels[2..];
    assert r1[0] == levels[1] && r1[1..] == r2 && r2[0] == levels[2] && r2[1..] == [];
    assert Ex.RunLevels(eval, r2, 2, v2) == Success(v3);
    assert Ex.RunLevels(eval, r1, 1, v1) == Success(v3);
  }

  /** The sequential run in input order: `{x: 5}`, `{x: 8}`, `{x: 8, y: 10}`, `{x: 8, y: 20}`. */
  lemma SequentialRun(es: seq<string>, parse: string -> Ev.Parsed)
    requires |es| == 4 && ParsesBatch(parse)
    requires Simp.Simplify(es[0]) == Success(["x = 5"]) && Simp.Simplify(es[1]) == Success(["x = x + 3"])
    requires Simp.Simplify(es[2]) == Success(["y = 10"]) && Simp.Simplify(es[3]) == Success(["y = y * 2"])
    ensures Ex.SequentialExecute(Ev.EvaluatorOf(Ev.AST, parse), es) == Success(map["x" := 8, "y" := 20])
  {
    var v0: map<string, int> := map[];
    var v1 := v0["x" := 5];
    var v2 := v1["x" := 8];
    var v3 := v2["y" := 10];
    var v4 := v3["y" := 20];
    XFive(es[0], parse, v0);
    XAddThree(es[1], parse, v1);
    YTen(es[2], parse, v2);
    YMulTwo(es[3], parse, v3);
    FourSteps(Ev.EvaluatorOf(Ev.AST, parse), es, v0, v1, v2, v3, v4);
    ExecutionScenarios.MapOf2(v4, "x", 8, "y", 20);
  }

  /** Four expressions that each evaluate without error run in order from map to map. */
  lemma FourSteps(eval: Ev.EvaluateFn, es: seq<string>, v0: map<string, int>, v1: map<string, int>,
                  v2: map<string, int>, v3: map<string, int>, v4: map<string, int>)
    requires |es| == 4 && v0 == map[]
    requires eval(es[0], v0).result.Success? && eval(es[0], v0).vars == v1
    requires eval(es[1], v1).result.Success? && eval(es[1], v1).vars == v2
    requires eval(es[2], v2).result.Success? && eval(es[2], v2).vars == v3
    requires eval(es[3], v3).result.Success? && eval(es[3], v3).vars == v4
    ensures Ex.SequentialExecute(eval, es) == Success(v4)
  {
    var t1, t2, t3 := es[1..], es[2..], es[3..];
    assert t1[0] == es[1] && t1[1..] == t2 && t2[0] == es[2] && t2[1..] == t3 && t3[0] == es[3] && t3[1..] == [];
    assert Ex.RunSequential(eval, t3, v3) == Success(v4);
    assert Ex.RunSequential(eval, t2, v2) == Success(v4);
    assert Ex.RunSequential(eval, t1, v1) == Success(v4);
  }

  /** The documented compound batch `x = 5`, `x += 3`, `y = 10`, `y *= 2` with the AST
      evaluator: the queue executor runs the levels `[y = 10]`, `[y *= 2, x = 5]`,
      `[x += 3]` and ends with `{x: 8, y: 20}`, as the sequential executor does. */
  lemma CompoundBatchExample(es: seq<string>, parse: string -> Ev.Parsed)
    requires es == ["x = 5", "x += 3", "y = 10", "y *= 2"] && ParsesBatch(parse)
    ensures DG.AllDefined(DG.Targets(es), DG.Reads(es))
    ensures Ex.PlannedLevels(es) == Success([["y = 10"], ["y *= 2", "x = 5"], ["x += 3"]])
    ensures Ex.QueueResult(Ev.EvaluatorOf(Ev.AST, parse), Ex.PlannedLevels(es)) == Success(map["x" := 8, "y" := 20])
    ensures Ex.SequentialExecute(Ev.EvaluatorOf(Ev.AST, parse), es) == Success(map["x" := 8, "y" := 20])
  {
    BatchPlanned(es);
    BatchEntries(es);
    BatchLines(es);
    QueueRun(es, parse);
    SequentialRun(es, parse);
  }
}
