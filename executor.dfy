/** The two executors of src/executor.py, which run a batch of assignments and return the
    final name-to-integer map.

    `SequentialExecutor` evaluates the batch in order against one map.
    `QueueBasedExecutor` builds the dependency graph, splits the batch into levels and runs
    each level on worker processes. Every worker evaluates against a snapshot of the shared
    map taken when the level starts. The collector reads the workers' messages, and the pairs
    they return are merged into the shared map once the whole level is done. The workers are
    modelled one after another, in level order. */
module Executor {
  import opened Wrappers
  import opened Evaluator
  import DG = DependencyGraph

  /** What an execution raises: an evaluation error (sequential mode), an error of the
      dependency graph, or the `RuntimeError` that reports a failed level. */
  datatype ExecError = Evaluation(cause: EvalError) | Graph(reason: DG.GraphError) | LevelFailed(level: nat)

  // ---------------------------------------------------------------------------------------
  // SequentialExecutor

  /** The loop of `SequentialExecutor.execute` from the map `vars`: the first error is
      raised, otherwise the map after the last expression is the result. */
  function RunSequential(eval: EvaluateFn, es: seq<string>, vars: map<string, int>): Result<map<string, int>, ExecError>
    decreases |es|
  {
    if es == [] then Success(vars)
    else
      var o := eval(es[0], vars);
      if o.result.Failure? then Failure(Evaluation(o.result.error))
      else RunSequential(eval, es[1..], o.vars)
  }

  /** `SequentialExecutor.execute`. */
  function SequentialExecute(eval: EvaluateFn, es: seq<string>): Result<map<string, int>, ExecError> {
    if es == [] then Success(map[]) else RunSequential(eval, es, map[])
  }

  /** Running two batches one after the other is running their concatenation. */
  lemma {:induction false} RunSequentialConcat(eval: EvaluateFn, a: seq<string>, b: seq<string>, vars: map<string, int>)
    ensures RunSequential(eval, a + b, vars) ==
      match RunSequential(eval, a, vars)
      case Failure(e) => Failure(e)
      case Success(v) => RunSequential(eval, b, v)
    decreases |a|
  {
    if a == [] {
      assert a + b == b;
    } else {
      assert (a + b)[0] == a[0] && (a + b)[1..] == a[1..] + b;
      RunSequentialConcat(eval, a[1..], b, eval(a[0], vars).vars);
    }
  }

  /** A sequential run never loses a name of the map it starts from. */
  lemma {:induction false} RunSequentialKeys(eval: EvaluateFn, es: seq<string>, vars: map<string, int>)
    requires KeepsNames(eval)
    ensures RunSequential(eval, es, vars).Success? ==> vars.Keys <= RunSequential(eval, es, vars).value.Keys
    decreases |es|
  {
    if es != [] {
      RunSequentialKeys(eval, es[1..], eval(es[0], vars).vars);
    }
  }

  /** `SequentialExecutor.execute`: the evaluator writes into `variables`, and after every
      expression `results` is updated from it. */
  method SequentialExecuteWith(strategy: Strategy, parse: string -> Parsed, expressions: seq<string>) returns (r: Result<map<string, int>, ExecError>)
    ensures r == SequentialExecute(EvaluatorOf(strategy, parse), expressions)
  {
    if expressions == [] {
      return Success(map[]);
    }
    ghost var eval := EvaluatorOf(strategy, parse);
    EvaluatorKeepsNames(strategy, parse);
    var variables := new Variables(map[]);
    var results: map<string, int> := map[];
    for i := 0 to |expressions|
      invariant results == variables.values
      invariant RunSequential(eval, expressions[i..], variables.values) == RunSequential(eval, expressions, map[])
    {
      ghost var before := variables.values;
      var step := EvaluateWith(strategy, parse, expressions[i], variables);
      assert eval(expressions[i], before) == Outcome(step, variables.values);
      SequentialStep(eval, expressions, i, before);
      if step.Failure? {
        return Failure(Evaluation(step.error));
      }
      results := results + variables.values;
    }
    return Success(results);
  }

  /** One step of the sequential loop: an error is raised, otherwise the run goes on from the
      map the expression left, which holds every name of the map before it. */
  lemma SequentialStep(eval: EvaluateFn, es: seq<string>, i: nat, vars: map<string, int>)
    requires i < |es| && KeepsNames(eval)
    ensures var o := eval(es[i], vars);
      vars.Keys <= o.vars.Keys &&
      RunSequential(eval, es[i..], vars) ==
        if o.result.Failure? then Failure(Evaluation(o.result.error)) else RunSequential(eval, es[i + 1..], o.vars)
  {
    assert es[i..][0] == es[i] && es[i..][1..] == es[i + 1..];
  }

  // ---------------------------------------------------------------------------------------
  // QueueBasedExecutor: the workers

  /** A message on the result queue: a returned pair, or the report of a failed expression,
      which the worker puts under the name "error". */
  datatype Message = Reported(name: string, value: int) | ErrorReport(expression: string)

  /** The name the collector tests. */
  function MessageName(m: Message): string {
    if m.Reported? then m.name else "error"
  }

  /** What `worker_process` puts on the result queue for one expression: the returned pair, an
      error report, or nothing when the expression returns `(None, None)`. */
  function WorkerMessage(eval: EvaluateFn, expression: string, snapshot: map<string, int>): seq<Message> {
    var r := eval(expression, snapshot).result;
    if r.Failure? then [ErrorReport(expression)]
    else if r.value.Some? then [Reported(r.value.value.0, r.value.value.1)]
    else []
  }

  /** The messages of a level, in level order. */
  function WorkerMessages(eval: EvaluateFn, level: seq<string>, snapshot: map<string, int>): seq<Message>
    decreases |level|
  {
    if level == [] then []
    else WorkerMessages(eval, level[..|level| - 1], snapshot) + WorkerMessage(eval, level[|level| - 1], snapshot)
  }

  /** A level sends at most one message per expression, each about one of its expressions. */
  lemma {:induction false} WorkerMessagesSpec(eval: EvaluateFn, level: seq<string>, snapshot: map<string, int>)
    ensures |WorkerMessages(eval, level, snapshot)| <= |level|
    ensures forall m :: m in WorkerMessages(eval, level, snapshot) ==>
      exists k :: 0 <= k < |level| && m in WorkerMessage(eval, level[k], snapshot)
    decreases |level|
  {
    if level != [] {
      var init := level[..|level| - 1];
      WorkerMessagesSpec(eval, init, snapshot);
      forall k | 0 <= k < |init| ensures init[k] == level[k] {}
    }
  }

  /** The level's workers, one expression at a time, each on a copy of the snapshot. */
  method RunWorkers(strategy: Strategy, parse: string -> Parsed, level: seq<string>, snapshot: map<string, int>) returns (messages: seq<Message>)
    ensures messages == WorkerMessages(EvaluatorOf(strategy, parse), level, snapshot)
  {
    messages := [];
    for k := 0 to |level|
      invariant messages == WorkerMessages(EvaluatorOf(strategy, parse), level[..k], snapshot)
    {
      assert level[..k + 1][..k] == level[..k];
      var currentVars := new Variables(snapshot);
      var r := EvaluateWith(strategy, parse, level[k], currentVars);
      if r.Failure? {
        messages := messages + [ErrorReport(level[k])];
      } else if r.value.Some? {
        messages := messages + [Reported(r.value.value.0, r.value.value.1)];
      }
    }
    assert level[..|level|] == level;
  }

  // ---------------------------------------------------------------------------------------
  // QueueBasedExecutor: the collector

  /** The collector on the messages read so far: `None` once a message named "error" is
      read, otherwise the pairs in the order read. */
  function Collect(messages: seq<Message>): Option<seq<Pair>>
    decreases |messages|
  {
    if messages == [] then Some([])
    else
      match Collect(messages[..|messages| - 1])
      case None => None
      case Some(pairs) =>
        var m := messages[|messages| - 1];
        if MessageName(m) == "error" then None else Some(pairs + [(m.name, m.value)])
  }

  /** The collector fails exactly when some message is named "error", and otherwise returns
      one pair per message, in order. */
  lemma {:induction false} CollectSpec(messages: seq<Message>)
    ensures Collect(messages).None? <==> exists k :: 0 <= k < |messages| && MessageName(messages[k]) == "error"
    ensures Collect(messages).Some? ==>
      var pairs := Collect(messages).value;
      |pairs| == |messages| &&
      forall k :: 0 <= k < |messages| ==> messages[k].Reported? && pairs[k] == (messages[k].name, messages[k].value)
    decreases |messages|
  {
    if messages != [] {
      var init := messages[..|messages| - 1];
      CollectSpec(init);
      forall k | 0 <= k < |init| ensures init[k] == messages[k] {}
    }
  }

  /** The collection loop of `execute`: it reads until all `expected` results are in, an
      error report arrives, or the queue runs dry (the timeout). */
  method CollectResults(messages: seq<Message>, expected: nat) returns (errors: seq<string>, levelResults: seq<Pair>)
    requires |messages| <= expected
    ensures errors != [] <==> Collect(messages).None?
    ensures errors == [] ==> levelResults == Collect(messages).value
  {
    errors, levelResults := [], [];
    var completed := 0;
    var i := 0;
    while completed < expected
      invariant completed == i <= |messages|
      invariant Collect(messages[..i]) == Some(levelResults) && errors == []
    {
      if i == |messages| {
        break;
      }
      assert messages[..i + 1][..i] == messages[..i];
      var m := messages[i];
      if MessageName(m) == "error" {
        errors := [if m.ErrorReport? then m.expression else m.name];
        CollectExtends(messages, i + 1);
        return;
      }
      levelResults := levelResults + [(m.name, m.value)];
      completed := completed + 1;
      i := i + 1;
    }
    CollectExtends(messages, i);
  }

  /** A failed collection stays failed as more messages arrive. */
  lemma {:induction false} CollectExtends(messages: seq<Message>, i: nat)
    requires i <= |messages|
    ensures Collect(messages[..i]).None? ==> Collect(messages).None?
    ensures i == |messages| ==> messages[..i] == messages
    decreases |messages| - i
  {
    if i < |messages| {
      assert messages[..i + 1][..i] == messages[..i];
      CollectExtends(messages, i + 1);
    } else {
      assert messages[..i] == messages;
    }
  }

  // ---------------------------------------------------------------------------------------
  // QueueBasedExecutor: the merge and the levels

  /** The merge of a level's results into the shared map, in order. */
  function Merge(shared: map<string, int>, pairs: seq<Pair>): map<string, int>
    decreases |pairs|
  {
    if pairs == [] then shared else Merge(shared[pairs[0].0 := pairs[0].1], pairs[1..])
  }

  /** The names the pairs assign. */
  function PairNames(pairs: seq<Pair>): set<string> {
    set p | p in pairs :: p.0
  }

  /** The merge adds the names of the pairs, leaves every other name as it was, and the last
      pair wins. */
  lemma {:induction false} MergeSpec(shared: map<string, int>, pairs: seq<Pair>)
    ensures Merge(shared, pairs).Keys == shared.Keys + PairNames(pairs)
    ensures forall x :: x in shared && x !in PairNames(pairs) ==> Merge(shared, pairs)[x] == shared[x]
    ensures pairs != [] ==> Merge(shared, pairs)[pairs[|pairs| - 1].0] == pairs[|pairs| - 1].1
    decreases |pairs|
  {
    if pairs != [] {
      var next := shared[pairs[0].0 := pairs[0].1];
      MergeSpec(next, pairs[1..]);
      assert PairNames(pairs) == {pairs[0].0} + PairNames(pairs[1..]) by {
        forall x | x in PairNames(pairs) ensures x in {pairs[0].0} + PairNames(pairs[1..]) {
          var p :| p in pairs && p.0 == x;
          if p != pairs[0] {
            assert p in pairs[1..];
          }
        }
      }
    }
  }

  /** The levels from level number `n` on, each run against the map merged from the levels
      before it; the first failing level is raised. */
  function RunLevels(eval: EvaluateFn, levels: seq<seq<string>>, n: nat, shared: map<string, int>): Result<map<string, int>, ExecError>
    decreases |levels|
  {
    if levels == [] then Success(shared)
    else
      match Collect(WorkerMessages(eval, levels[0], shared))
      case None => Failure(LevelFailed(n))
      case Some(pairs) => RunLevels(eval, levels[1..], n + 1, Merge(shared, pairs))
  }

  /** An expression that stops its level: it raises, or it returns a pair named "error",
      which the collector takes for an error report. */
  predicate StopsLevel(eval: EvaluateFn, expression: string, snapshot: map<string, int>) {
    var r := eval(expression, snapshot).result;
    r.Failure? || (r.value.Some? && r.value.value.0 == "error")
  }

  /** A level fails exactly when one of its expressions stops it, evaluated against the map
      the earlier levels left; no later level runs then. */
  lemma LevelFails(eval: EvaluateFn, levels: seq<seq<string>>, n: nat, shared: map<string, int>)
    requires levels != []
    ensures RunLevels(eval, levels, n, shared) == Failure(LevelFailed(n)) <==>
      exists k :: 0 <= k < |levels[0]| && StopsLevel(eval, levels[0][k], shared)
  {
    var msgs := WorkerMessages(eval, levels[0], shared);
    CollectSpec(msgs);
    WorkerMessagesSpec(eval, levels[0], shared);
    FailsAtFirst(eval, levels, n, shared);
    if k :| 0 <= k < |levels[0]| && StopsLevel(eval, levels[0][k], shared) {
      WorkerMessagesHas(eval, levels[0], shared, k);
      var m := WorkerMessage(eval, levels[0][k], shared)[0];
      assert m in msgs && MessageName(m) == "error";
    }
    if Collect(msgs).None? {
      var j :| 0 <= j < |msgs| && MessageName(msgs[j]) == "error";
      assert msgs[j] in msgs;
      var k :| 0 <= k < |levels[0]| && msgs[j] in WorkerMessage(eval, levels[0][k], shared);
      assert StopsLevel(eval, levels[0][k], shared);
    }
  }

  /** A run that fails at its first level does so because that level's collection fails. */
  lemma FailsAtFirst(eval: EvaluateFn, levels: seq<seq<string>>, n: nat, shared: map<string, int>)
    requires levels != []
    ensures RunLevels(eval, levels, n, shared) == Failure(LevelFailed(n)) ==>
      Collect(WorkerMessages(eval, levels[0], shared)).None?
  {
    var c := Collect(WorkerMessages(eval, levels[0], shared));
    if c.Some? {
      RunLevelsLater(eval, levels[1..], n + 1, Merge(shared, c.value));
    }
  }

  /** Each expression's message is among its level's messages. */
  lemma {:induction false} WorkerMessagesHas(eval: EvaluateFn, level: seq<string>, snapshot: map<string, int>, k: nat)
    requires k < |level|
    ensures forall m :: m in WorkerMessage(eval, level[k], snapshot) ==> m in WorkerMessages(eval, level, snapshot)
    decreases |level|
  {
    if k < |level| - 1 {
      var init := level[..|level| - 1];
      assert init[k] == level[k];
      WorkerMessagesHas(eval, init, snapshot, k);
    }
  }

  /** A failure of the levels from number `n` on names a level `n` or later. */
  lemma {:induction false} RunLevelsLater(eval: EvaluateFn, levels: seq<seq<string>>, n: nat, shared: map<string, int>)
    ensures RunLevels(eval, levels, n, shared).Failure? ==>
      RunLevels(eval, levels, n, shared).error.LevelFailed? && RunLevels(eval, levels, n, shared).error.level >= n
    decreases |levels|
  {
    if levels != [] {
      match Collect(WorkerMessages(eval, levels[0], shared))
      case None =>
      case Some(pairs) => RunLevelsLater(eval, levels[1..], n + 1, Merge(shared, pairs));
    }
  }

  /** The levels, flattened in order. */
  function Flatten(levels: seq<seq<string>>): seq<string>
    decreases |levels|
  {
    if levels == [] then [] else levels[0] + Flatten(levels[1..])
  }

  /** When every level holds one expression that writes only the pair it returns, a
      successful queue run computes what the sequential loop computes on the expressions in
      level order. */
  lemma {:induction false} ChainAgreesWithSequential(eval: EvaluateFn, levels: seq<seq<string>>, n: nat, shared: map<string, int>)
    requires forall i :: 0 <= i < |levels| ==> |levels[i]| == 1 && WritesOnlyResult(eval, levels[i][0])
    ensures RunLevels(eval, levels, n, shared).Success? ==>
      RunSequential(eval, Flatten(levels), shared) == RunLevels(eval, levels, n, shared)
    decreases |levels|
  {
    if levels != [] && RunLevels(eval, levels, n, shared).Success? {
      assert |levels[0]| == 1 && WritesOnlyResult(eval, levels[0][0]);
      SingleLevel(eval, levels[0], shared);
      assert Flatten(levels)[1..] == Flatten(levels[1..]);
      ChainAgreesWithSequential(eval, levels[1..], n + 1, eval(levels[0][0], shared).vars);
    }
  }

  /** A level of one expression that writes only the pair it returns merges what the
      expression writes. */
  lemma SingleLevel(eval: EvaluateFn, level: seq<string>, shared: map<string, int>)
    requires |level| == 1 && WritesOnlyResult(eval, level[0])
    requires Collect(WorkerMessages(eval, level, shared)).Some?
    ensures eval(level[0], shared).result.Success?
    ensures eval(level[0], shared).vars == Merge(shared, Collect(WorkerMessages(eval, level, shared)).value)
  {
    assert level[..0] == [];
    assert WorkerMessages(eval, level[..0], shared) == [];
    assert WorkerMessages(eval, level, shared) == WorkerMessage(eval, level[0], shared);
  }

  /** The workers a level starts: `min(num_workers, len(level_expressions))`; a non-empty
      level on a machine with a CPU gets at least one. */
  function Workers(cpus: nat, levelSize: nat): (n: nat)
    ensures n <= cpus && n <= levelSize
    ensures n == cpus || n == levelSize
    ensures cpus > 0 && levelSize > 0 ==> n > 0
  {
    if cpus < levelSize then cpus else levelSize
  }

  /** The levels `get_expression_levels` returns for a batch whose graph builds. */
  ghost function PlannedLevels(es: seq<string>): Result<seq<seq<string>>, DG.GraphError>
    requires DG.AllDefined(DG.Targets(es), DG.Reads(es))
  {
    var ts, ds := DG.Targets(es), DG.Reads(es);
    DG.ExpressionLevels(es, ts, DG.GraphOf(ts, ds, |ts|), DG.DegOf(ts, ds, |ts|))
  }

  /** The result of a queue run over planned levels, starting from the cleared shared map. */
  function QueueResult(eval: EvaluateFn, plan: Result<seq<seq<string>>, DG.GraphError>): Result<map<string, int>, ExecError> {
    match plan
    case Failure(e) => Failure(Graph(e))
    case Success(levels) => RunLevels(eval, levels, 0, map[])
  }

  /** `QueueBasedExecutor`: the shared map outlives a call to `execute`. */
  class QueueExecutor {
    const strategy: Strategy
    const parse: string -> Parsed
    const numWorkers: nat
    var sharedVariables: map<string, int>

    /** `QueueBasedExecutor(strategy)` on a machine with `cpus` CPUs. */
    constructor (strategy: Strategy, parse: string -> Parsed, cpus: nat)
      ensures this.strategy == strategy && this.parse == parse && numWorkers == cpus
      ensures sharedVariables == map[]
    {
      this.strategy := strategy;
      this.parse := parse;
      numWorkers := cpus;
      sharedVariables := map[];
    }

    /** `QueueBasedExecutor.execute`. */
    method Execute(expressions: seq<string>) returns (r: Result<map<string, int>, ExecError>)
      modifies this
      ensures expressions == [] ==> r == Success(map[]) && sharedVariables == old(sharedVariables)
      ensures expressions != [] && !DG.AllDefined(DG.Targets(expressions), DG.Reads(expressions)) ==>
        r.Failure? && r.error.Graph? &&
        DG.ReportsUndefined(expressions, DG.Targets(expressions), DG.Reads(expressions), r.error.reason)
      ensures expressions != [] && DG.AllDefined(DG.Targets(expressions), DG.Reads(expressions)) ==>
        r == QueueResult(EvaluatorOf(strategy, parse), PlannedLevels(expressions))
      ensures expressions != [] && r.Success? ==> r.value == sharedVariables
    {
      if expressions == [] {
        return Success(map[]);
      }
      sharedVariables := map[];
      var built := DG.DependencyGraph.New(expressions);
      if built.Failure? {
        return Failure(Graph(built.error));
      }
      var planned := built.value.GetExpressionLevels();
      assert planned == PlannedLevels(expressions) by {
        assert built.value.Built();
      }
      if planned.Failure? {
        return Failure(Graph(planned.error));
      }
      var levels := planned.value;
      for level := 0 to |levels|
        invariant RunLevels(EvaluatorOf(strategy, parse), levels[level..], level, sharedVariables) ==
          RunLevels(EvaluatorOf(strategy, parse), levels, 0, map[])
      {
        assert levels[level..][1..] == levels[level + 1..];
        var levelExpressions := levels[level];
        var snapshot := sharedVariables;
        var messages := RunWorkers(strategy, parse, levelExpressions, snapshot);
        WorkerMessagesSpec(EvaluatorOf(strategy, parse), levelExpressions, snapshot);
        var errors, levelResults := CollectResults(messages, |levelExpressions|);
        if errors != [] {
          assert RunLevels(EvaluatorOf(strategy, parse), levels[level..], level, snapshot) == Failure(LevelFailed(level));
          return Failure(LevelFailed(level));
        }
        for k := 0 to |levelResults|
          invariant Merge(sharedVariables, levelResults[k..]) == Merge(snapshot, levelResults)
        {
          assert levelResults[k..][1..] == levelResults[k + 1..];
          sharedVariables := sharedVariables[levelResults[k].0 := levelResults[k].1];
        }
        assert levelResults[|levelResults|..] == [];
      }
      assert levels[|levels|..] == [];
      return Success(sharedVariables);
    }
  }
}
