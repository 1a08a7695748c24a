# expressions_calc — a Dafny model of the executor core

expressions_calc evaluates a batch of integer assignments such as `a = 1`, `c = a + b`,
`x += 1` or `j = ++i` and returns the final name-to-integer map. This project models the four
files of its core and proves properties of the model:

- **Dependency graph** (`src/dependency_graph.py`). The target and dependency extraction is
  module `Extract`. The two-pass `build_graph`, `topological_sort` (Kahn's algorithm) and
  `get_expression_levels` (greedy packing into levels) are class
  `DependencyGraph.DependencyGraph`. Each of its methods is proved against a specification
  function: `TopoSort.TopologicalOrder` for the sort and `Levels.LevelsOf` for the packing.
- **Expression simplifier** (`src/expression_simplifier.py`). `parse_expression`, the chain
  of five handlers (simple, pre-increment, post-increment, compound, complex increment) and
  `simplify` are module `ExpressionSimplifier`. The handlers' rewriting loops are methods
  proved against the functions `PreLoop`/`PostLoop`.
- **Evaluators** (`src/evaluator.py`) are module `Evaluator`:
  - the AST evaluator over the tree that `ast.parse` builds (the parser is a parameter);
  - the regex evaluator over the text;
  - the per-call variable map is the class `Evaluator.Variables`, which `evaluate` updates in
    place.
- **Executors** (`src/executor.py`) are module `Executor`:
  - `SequentialExecutor.execute`;
  - the level-by-level `QueueBasedExecutor`: a class whose `sharedVariables` field is
    the shared map, with the workers, the result collector and the merge of each level.

Strings are `seq<char>`. Python's `str.strip`, `split`, `isidentifier` and `isdigit` are
modelled over ASCII in module `Text`; `Option`/`Result` are in module `Wrappers`. Module
`Scenarios` derives the documented examples (the simplifier's test cases, floor division,
the cycle and duplicate-target cases) from the general lemmas. Module `ExecutionScenarios`
works out documented runs: one `evaluate` call, the sequential batch of the calculator's
tests, the chain `x0 = 1`, `x<i> = x<i-1> * 2` run level by level, and two levels where the
leveled run and the sequential run give different maps. Module `QueueScenarios` follows the
compound batch `x = 5`, `x += 3`, `y = 10`, `y *= 2` through the whole queue executor: its
targets and reads, the graph, Kahn's loop, the planned levels, and the run of those levels.
These runs use the AST evaluator with `ast.parse` fixed on the lines involved.

Behaviour of the code that the model keeps, and the lemmas that state it:

- The sort fails exactly when some set of expressions is stuck reading each other's targets
  (`DependencyGraph.SortFailsIffStuck`), provided the targets are distinct.
- With a repeated target, `in_degree` counts every expression's reads, but the graph entry
  holds their union. So `["a = 1", "b = a", "b = a"]` raises `CyclicDependencyError` although
  no cycle exists (`Scenarios.DuplicateTargetRejected`).
- `_get_target` of a line without `=` is the whole stripped line, and `_get_dependencies`
  still reads its first word when it has several (`Extract.NoEqualsLine`). So the batch
  `["a b"]` raises `UndefinedVariableError` for `a` (`QueueScenarios.NoEqualsExample`); a
  one-word line without `=` reads nothing.
- `topological_sort` pops from the end of its ready list: the ready list is a stack, so
  among expressions ready together the last one found is emitted first.
- A `(name, value)` result whose name is literally `error` makes the collector treat it as an
  error report and fail the level (`Executor.StopsLevel`, `Executor.LevelFails`).
- An expression that yields no pair puts nothing on the result queue. One example is
  `x y += 1`: it misses the compound pattern, so it is split at its `=`, and the `+=` in its
  text stops the simple handler, so it simplifies to no lines at all
  (`Scenarios.DroppedExample`). A line that `ast.parse` does not read as an assignment is
  another. The collector then waits for its timeout, breaks out of its loop and merges the
  partial results, without an error. The model skips such results.
- The regex evaluator matches only a leading `operand op operand`, so `2 * 3 + 100` evaluates
  to `6` (`Evaluator.ArithmeticIgnoresRest`, `Scenarios.TrailingTextIgnoredExample`).
- A worker evaluates on its own copy of the level's snapshot and reports only the pair
  `evaluate` returns. The other writes of a multi-line expression such as `j = ++i` are lost,
  so the leveled run and the sequential run can give different maps
  (`ExecutionScenarios.LevelsDivergeExample`). When every level holds one expression that
  writes only the pair it returns, they agree (`Executor.ChainAgreesWithSequential`).
- Division is Python floor division `//` in both evaluators (`Evaluator.FloorDiv`).
- The simplifier rewrites only `++`; `--` is recognised only by the dependency extraction.

## Model

| member | source | states |
|---|---|---|
| Extract.TargetShape | src/dependency_graph.py:34-36 | the target of an expression contains no `=` and has no surrounding white space, and a line without `=` is its own stripped target |
| Extract.NoEqualsLine | src/dependency_graph.py:34-50 | a line without `=` is its stripped text as target and reads exactly the first word of that text when it has several words, nothing otherwise |
| Extract.TargetOfTarget | src/dependency_graph.py:113-117 | taking the target of a target changes nothing, so the levels check by target names equals the check by dependency names |
| Extract.TokenName | src/dependency_graph.py:64-72 | a token yields a name only if the name is an identifier, and every identifier token yields itself |
| Extract.TokenNamesSpec | src/dependency_graph.py:64-72 | the names collected from the right side's tokens are identifiers, and every identifier token is collected |
| Extract.DependenciesCharacterized | src/dependency_graph.py:38-74 | the compound target, the increment operand and every identifier token are dependencies, and every dependency is one of the first two or an identifier |
| TopoSort.Ready | src/dependency_graph.py:82 | the initial ready list holds exactly the indices whose in-degree is 0, in input order |
| TopoSort.InitialInvariant | src/dependency_graph.py:78-82 | the loop invariant (no index emitted or waiting twice, counters of those at most 0) holds at the start |
| TopoSort.SweepKeepsInvariant | src/dependency_graph.py:89-96 | the decrement loop after emitting a target keeps the invariant |
| TopoSort.TopologicalOrderIsPermutation | src/dependency_graph.py:84-99 | a successful sort lists every expression index exactly once |
| TopoSort.DrainPermutation | src/dependency_graph.py:84-97 | the main loop, from any state satisfying the invariant, ends in a permutation when it succeeds |
| TopoSort.DrainOrdered | src/dependency_graph.py:84-97 | the main loop emits every expression after the expressions whose targets it reads, and fails only when a blocked set exists |
| TopoSort.SweepOrdered | src/dependency_graph.py:89-96 | the decrement loop leaves each counter equal to the number of the target's reads not yet emitted, and pushes exactly the expressions that reach 0 |
| TopoSort.TopologicalOrderRespectsDependencies | src/dependency_graph.py:76-101 | with distinct targets and counts from the graph, every expression comes after every expression it depends on |
| TopoSort.TopologicalOrderFailsIffBlocked | src/dependency_graph.py:84-99 | the sort fails if and only if some nonempty set of expressions each wait on a member of the set |
| Levels.PackKeeps | src/dependency_graph.py:113-127 | the greedy packing keeps every level nonempty and free of an expression reading a target placed earlier in the same level, and closes a level only on such a conflict |
| Levels.PackFlatten | src/dependency_graph.py:113-127 | the levels, concatenated, are the closed levels, the open level and the remaining order, in that order |
| Levels.LevelsPartitionOrder | src/dependency_graph.py:108-129 | the levels, concatenated, are exactly the sorted order, and they satisfy the packing rule |
| Levels.LevelsRespectDependencies | src/dependency_graph.py:113-123 | when the order respects dependencies, an expression read by another sits in a strictly earlier level |
| DependencyGraph.TargetsAt | src/dependency_graph.py:19-27 | entry k of the target and dependency sequences is the target and the dependency set of expression k |
| DependencyGraph.DepUnionMembers | src/dependency_graph.py:25-31 | a name is in a target's graph entry if and only if some expression assigning that target reads it |
| DependencyGraph.DepCountBounds | src/dependency_graph.py:28-32 | a target's in-degree is at least the size of its graph entry, and 0 when nothing assigns it |
| DependencyGraph.GraphOfUnion | src/dependency_graph.py:16-31 | the graph has an entry for exactly the targets, and each entry is the union of the reads of the target's expressions |
| DependencyGraph.DegOfCount | src/dependency_graph.py:28-32 | the in-degree of a target is the count of reads over all expressions assigning it |
| DependencyGraph.UndefinedReported | src/dependency_graph.py:28-30 | an expression reading a name that no expression assigns, with all earlier expressions defined, is reported with that name and expression |
| DependencyGraph.BuiltCountsMatch | src/dependency_graph.py:16-32 | with distinct targets, each graph entry is its expression's dependency set and each in-degree its size |
| DependencyGraph.SortIsPermutation | src/dependency_graph.py:98-101 | a successful sort returns a permutation of the input; a failed one raises the cyclic-dependency error |
| DependencyGraph.OrderRespectsReads | src/dependency_graph.py:76-101 | after a build from distinct targets, the order places each expression after those whose targets it reads |
| DependencyGraph.SortRespectsReads | src/dependency_graph.py:76-101 | the sorted expressions place each one after every expression whose target it reads |
| DependencyGraph.OrderFailsIffStuck | src/dependency_graph.py:84-99 | after a build from distinct targets, the order fails if and only if the dependencies contain a stuck set |
| DependencyGraph.SortFailsIffStuck | src/dependency_graph.py:98-99 | the sort raises the cyclic-dependency error if and only if some set of expressions is stuck |
| DependencyGraph.SelfReadFails | src/dependency_graph.py:82-99 | an expression that reads its own target makes the sort fail |
| DependencyGraph.LevelsShape | src/dependency_graph.py:103-129 | the levels fail exactly when the order fails, and otherwise are the greedy packing of the order |
| DependencyGraph.LevelsRespectReads | src/dependency_graph.py:103-129 | the levels succeed exactly when the sort does, concatenate to the sorted expressions, are nonempty, and put every read target in a strictly earlier level |
| DependencyGraph.DependencyGraph.Init | src/dependency_graph.py:9-13 | a graph starts with the expressions and empty graph, in-degrees and variables |
| DependencyGraph.DependencyGraph.New | src/dependency_graph.py:9-14 | construction succeeds if and only if every dependency is a target, leaving a built graph; otherwise it reports an undefined name |
| DependencyGraph.DependencyGraph.BuildGraph | src/dependency_graph.py:16-32 | the two passes record every target and succeed if and only if every dependency is defined, leaving the graph and in-degrees of the specification |
| DependencyGraph.DependencyGraph.RegisterTargets | src/dependency_graph.py:18-22 | the first pass records every target as a variable with an empty graph entry |
| DependencyGraph.DependencyGraph.AddDependencies | src/dependency_graph.py:24-32 | the second pass fails exactly when a dependency is undefined, reporting the first such expression, and otherwise builds the specified graph |
| DependencyGraph.DependencyGraph.AddReads | src/dependency_graph.py:28-32 | adding one expression's reads fails exactly when one is undefined, and otherwise unites them into the entry and adds their number to the in-degree |
| DependencyGraph.DependencyGraph.SortOrder | src/dependency_graph.py:76-97 | the loop with its ready stack computes the specified topological order |
| DependencyGraph.DependencyGraph.ReleaseDependents | src/dependency_graph.py:89-96 | the decrement loop computes the specified sweep |
| DependencyGraph.DependencyGraph.TopologicalSort | src/dependency_graph.py:76-101 | returns the sorted expressions, or the cyclic-dependency error, of the specification |
| DependencyGraph.DependencyGraph.GetExpressionLevels | src/dependency_graph.py:103-129 | returns the levels of the specification |
| DependencyGraph.DependencyGraph.PackLevels | src/dependency_graph.py:108-127 | the packing loop computes the greedy levels of the order |
| ExpressionSimplifier.LineRun | src/expression_simplifier.py:194 | the `.+` group stays within the line |
| ExpressionSimplifier.LastLineStart | src/expression_simplifier.py:194 | the backtracking start for `.+` is inside the range and not a line break |
| ExpressionSimplifier.PreMatchFrom | src/expression_simplifier.py:85 | a `\+\+(\w+)` match found is a `++` followed by a word character within the string |
| ExpressionSimplifier.PostMatchFrom | src/expression_simplifier.py:158 | a `(\w+)\+\+` match found is a nonempty word followed by `++` within the string |
| ExpressionSimplifier.PreLoopSpec | src/expression_simplifier.py:84-93 | the pre-increment loop removes two characters per increment it appends, keeps the earlier increments, and ends with no `++word` left |
| ExpressionSimplifier.PostLoopSpec | src/expression_simplifier.py:157-166 | the post-increment loop removes two characters per increment it appends, keeps the earlier increments, and ends with no `word++` left |
| ExpressionSimplifier.PreLoopDone | src/expression_simplifier.py:84-87 | with no match the loop returns the value and increments unchanged |
| ExpressionSimplifier.PostLoopDone | src/expression_simplifier.py:157-160 | with no match the loop returns the value and increments unchanged |
| ExpressionSimplifier.PreLoopAdvance | src/expression_simplifier.py:89-93 | one round replaces the match by its word and appends the increment line |
| ExpressionSimplifier.PostLoopAdvance | src/expression_simplifier.py:162-166 | one round replaces the match by its word and appends the increment line |
| ExpressionSimplifier.NoPlusPlusNoPreMatch | src/expression_simplifier.py:84-87 | text without `++` has no pre-increment match |
| ExpressionSimplifier.NoPlusPlusNoPostMatch | src/expression_simplifier.py:157-160 | text without `++` has no post-increment match |
| ExpressionSimplifier.RewritePreIncrements | src/expression_simplifier.py:79-93 | the loop computes the specified pre-increment rewriting |
| ExpressionSimplifier.RewritePostIncrements | src/expression_simplifier.py:156-166 | the loop computes the specified post-increment rewriting |
| ExpressionSimplifier.HandleWith | src/expression_simplifier.py:60-175 | each handler returns the lines of the specified handler |
| ExpressionSimplifier.ProcessWith | src/expression_simplifier.py:41-53 | the chain walk returns the specified first nonempty answer |
| ExpressionSimplifier.SimplifyWith | src/expression_simplifier.py:211-227 | `simplify` parses and runs the chain as specified, raising the parse error |
| ExpressionSimplifier.ParseSucceedsIffEquals | src/expression_simplifier.py:188-209 | parsing succeeds if and only if the text holds `=`, and otherwise raises the invalid-format error for that text |
| ExpressionSimplifier.ParseCompound | src/expression_simplifier.py:193-199 | a word, spaces, a compound operator, spaces and a rest parse as that target, operator and stripped value |
| ExpressionSimplifier.ParseRegular | src/expression_simplifier.py:194-206 | `a = b` with no `=` in `a` parses as the stripped sides split at the first `=`, whenever the compound pattern misses: `a` is not a word, spaces and one of `+ - * /`, or `b` holds only line breaks |
| ExpressionSimplifier.NoCompoundMatch | src/expression_simplifier.py:194-195 | for `a = b` with no `=` in `a`, the compound pattern fails if and only if `a` is not a word, optional spaces and one of `+ - * /`, or `b` holds only line breaks (nothing for `.+` to match) |
| ExpressionSimplifier.CompoundOperatorOf | src/expression_simplifier.py:194-199 | a compound match carries one of the four compound operators, which therefore occurs in the text |
| ExpressionSimplifier.ProcessFirstNonEmpty | src/expression_simplifier.py:41-53 | the chain answers empty if and only if every handler does, and otherwise with the first handler's nonempty answer |
| ExpressionSimplifier.ProcessChain | src/expression_simplifier.py:177-186 | the chain tries simple, pre-increment, post-increment, compound and complex increment in that order |
| ExpressionSimplifier.SimplifyPlain | src/expression_simplifier.py:211-227 | a line with `=`, without `++` and without a compound operator simplifies to itself alone |
| ExpressionSimplifier.SimpleUnchanged | src/expression_simplifier.py:63-66 | an expression without `++` and without a compound operator is returned as written |
| ExpressionSimplifier.CompoundRewritten | src/expression_simplifier.py:117-126 | `x op= v` simplifies to `x = x op v` |
| ExpressionSimplifier.CompoundParsed | src/expression_simplifier.py:194-199 | a parsed compound expression carries a compound operator that occurs in its text |
| ExpressionSimplifier.CompoundHandled | src/expression_simplifier.py:117-126 | a compound expression without `++` passes the earlier handlers and is rewritten by the compound handler |
| ExpressionSimplifier.PreIncrementRewritten | src/expression_simplifier.py:69-101 | a value starting with `++` becomes its increments followed by the assignment of the rewritten value, two characters shorter per increment |
| ExpressionSimplifier.PostIncrementRewritten | src/expression_simplifier.py:103-115 | a value ending with `++` becomes the assignment of its operand followed by that operand's increment |
| ExpressionSimplifier.ComplexIncrementRewritten | src/expression_simplifier.py:128-175 | a value with `++` elsewhere becomes the pre-increments, the assignment, then the post-increments, two characters shorter per increment |
| Evaluator.FloorDiv | src/evaluator.py:108-109 | `//` rounds toward negative infinity: the remainder has the divisor's sign |
| Evaluator.EvalNodeFrame | src/evaluator.py:88-111 | a tree's value depends only on the names it reads |
| Evaluator.EvalNodeDefined | src/evaluator.py:88-111 | a tree that evaluates reads only names of the map and uses only the supported forms |
| Evaluator.EvalNodeTotal | src/evaluator.py:88-111 | a tree of supported forms whose names are all in the map evaluates, unless it divides by zero |
| Evaluator.AstSingleAssign | src/evaluator.py:50-86 | an assignment to a name succeeds exactly when its value is supported and evaluates, returning that name and value, and otherwise raises the value's error |
| Evaluator.RegexEquals | src/evaluator.py:139-140 | a line yields no pair if and only if it has no `=` |
| Evaluator.RegexTooManyEquals | src/evaluator.py:142 | a line with two `=` fails when it is split |
| Evaluator.RegexSimpleValue | src/evaluator.py:146-158 | a digit string assigns its value; an identifier assigns the variable's value or raises a name error |
| Evaluator.RegexSplit | src/evaluator.py:142 | `a = b` with one `=` splits into `a` and `b` |
| Evaluator.RegexArithmetic | src/evaluator.py:160-192 | `a op b` raises the first operand's error, else the second's, else assigns `op` applied to the values (division by zero raises) |
| Evaluator.RegexUnsupported | src/evaluator.py:160-194 | a value that is neither a number, a name nor `a op b` raises a value error |
| Evaluator.ArithmeticIgnoresRest | src/evaluator.py:161 | text after a matched `a op b` does not change the match |
| Evaluator.RunLinesSpec | src/evaluator.py:39-48 | running the lines never removes a name, stores the pair it returns, and returns none only when nothing was stored |
| Evaluator.EvaluateSpec | src/evaluator.py:31-48 | `evaluate` never removes a name, the returned pair is in the map, and a `None` result leaves the map unchanged |
| Evaluator.EvaluatorKeepsNames | src/evaluator.py:31-48 | both evaluators only add or overwrite names |
| Evaluator.OneLineWritesOnlyResult | src/evaluator.py:39-46 | an expression the simplifier leaves as one line writes, when it succeeds, exactly the pair it returns |
| Evaluator.Variables.constructor | src/evaluator.py:31 | the caller's map object holds the given values |
| Evaluator.EvaluateSingle | src/evaluator.py:50-86 | one line returns the specified result and stores its pair in the caller's map |
| Evaluator.EvaluateWith | src/evaluator.py:31-48 | `evaluate` returns the specified result and leaves the caller's map as specified |
| Executor.RunSequentialConcat | src/executor.py:51-61 | running two batches in sequence is running the first and, if it succeeds, the second from its map |
| Executor.RunSequentialKeys | src/executor.py:48-63 | sequential execution never removes a name |
| Executor.SequentialExecuteWith | src/executor.py:41-63 | the sequential loop returns the specified map or the first evaluation error |
| Executor.SequentialStep | src/executor.py:51-61 | one round raises the expression's error or continues from the map it leaves, which keeps every name |
| Executor.WorkerMessagesSpec | src/executor.py:104-124 | the workers of a level post at most one message per expression, each from one of the level's expressions |
| Executor.RunWorkers | src/executor.py:104-124 | the worker loop posts the specified messages for the level's snapshot |
| Executor.CollectSpec | src/executor.py:171-188 | the collector fails if and only if a message is named `error`, and otherwise returns every message's pair in order |
| Executor.CollectResults | src/executor.py:171-188 | the collection loop reports an error exactly when the specification fails, and otherwise returns its pairs |
| Executor.CollectExtends | src/executor.py:177-182 | an error in the first messages makes the whole collection fail |
| Executor.MergeSpec | src/executor.py:200-203 | merging adds exactly the pairs' names, leaves other names alone, and the last pair's value wins |
| Executor.LevelFails | src/executor.py:171-198 | the first level fails if and only if one of its expressions stops the level (an evaluation error or a result named `error`) |
| Executor.FailsAtFirst | src/executor.py:177-198 | a failed level is one whose collection failed |
| Executor.RunLevelsLater | src/executor.py:150-198 | levels only fail with a level error at or after the current level |
| Executor.ChainAgreesWithSequential | src/executor.py:130-210 | when every level has one expression, whose expression writes only the pair it returns, a successful leveled run and the sequential run give the same map |
| Executor.SingleLevel | src/executor.py:171-203 | a one-expression level that succeeds, whose expression writes only the pair it returns, leaves exactly the map a sequential evaluation would |
| Executor.Workers | src/executor.py:157 | the number of workers is the smaller of the CPU count and the level size: at most both and equal to one of them, so positive when both are |
| Executor.QueueExecutor.constructor | src/executor.py:69-79 | a new executor holds its strategy, CPU count and an empty shared map |
| Executor.QueueExecutor.Execute | src/executor.py:130-214 | an empty batch returns `{}`; an undefined name is reported; otherwise the result is the level-by-level run of the planned levels, equal to the shared map on success |
| Scenarios.CompoundExample | tests/test_expression_simplifier.py:18-22 | `x += 1` simplifies to `x = x + 1`, and the compound lines of the documented batches do likewise: `i += y` to `i = i + y`, `x += 3` to `x = x + 3`, `y *= 2` to `y = y * 2` |
| Scenarios.CompoundAssign | src/expression_simplifier.py:117-126 | `x op= v` for words `x` and `v` and any of `+= -= *= /=` simplifies to the one line `x = x op v` |
| ExpressionSimplifier.SimplifyDropped | src/expression_simplifier.py:211-227 | a line split at its first `=` whose text holds a compound operator and whose value has no `++` is refused by every handler and simplifies to no lines |
| Scenarios.DroppedExample | src/evaluator.py:31-48 | `x y += 1` simplifies to no lines, so `evaluate` returns no pair and leaves the map unchanged under either strategy |
| Scenarios.UnmatchedCompoundExample | src/expression_simplifier.py:194-206 | `x +=` misses the compound pattern, whose `.+` needs a character after the operator, and parses as target `x +` with an empty value |
| Scenarios.PlainLine | src/expression_simplifier.py:63-66 | a line with `=` where neither `++` nor `+= -= *= /=` stands is its own simplification |
| Scenarios.PlainExample | tests/test_calculator.py:297-306 | `i = 0` and `y = (5 + 3) * 10` simplify to themselves |
| Scenarios.PreIncrementExample | tests/test_expression_simplifier.py:6-10 | `j = ++i` simplifies to `i = i + 1`, `j = i` |
| Scenarios.PostIncrementExample | tests/test_expression_simplifier.py:12-16 | for any identifier `t`, `t = i++ + 5` simplifies to `t = i + 5`, `i = i + 1` (the test's `j`, and the `x` of the documented batch) |
| Scenarios.TrailingTextIgnoredExample | src/evaluator.py:161 | the regex evaluator reads `2 * 3 + 100` as `2 * 3` |
| Scenarios.FloorDivisionExample | src/evaluator.py:108-109 | a `/` node with operands 7 and -2 evaluates to `7 // -2`, that is -4 |
| Scenarios.DuplicateTargetRejected | src/dependency_graph.py:28-32 | two expressions assigning one target from an earlier one make the sort fail although the input order is valid |
| Scenarios.CycleRejected | src/dependency_graph.py:98-99 | `a = b`, `b = a` make the sort fail |
| ExecutionScenarios.EvaluateExample | src/evaluator.py:31-48 | the AST evaluator on `j = i++ + 5` with `{i: 0}` runs `j = i + 5` then `i = i + 1`, leaves `{i: 1, j: 5}` and returns `("i", 1)` |
| ExecutionScenarios.SequentialBatchExample | tests/test_calculator.py:297-306 | the sequential executor on `i = 0`, `j = ++i`, `x = i++ + 5`, `y = (5 + 3) * 10`, `i += y` returns `{i: 82, j: 1, x: 6, y: 80}` |
| ExecutionScenarios.LevelsDivergeExample | src/executor.py:112-119 | with levels `[i = 0]`, `[j = ++i]` the worker's write of `i` to its copy is lost: the leveled run gives `{i: 0, j: 1}`, the sequential run `{i: 1, j: 1}` |
| ExecutionScenarios.OneExpressionLevel | src/executor.py:116-119 | a level of one expression returning a pair not named `error` collects that one pair and merges it into the shared map |
| ExecutionScenarios.ChainExample | tests/test_queue_executor.py:70-86 | for distinct identifiers `x0 ... xn`, the levels `[x0 = 1]`, `[x1 = x0 * 2]`, ... run to a map holding exactly those names, `xi` set to `2 ** i` |
| ExecutionScenarios.ChainFrom | tests/test_queue_executor.py:70-86 | the chain's levels from level `k` on, from the map of the first `k` levels, end in the map of all levels |
| ExecutionScenarios.ChainStep | tests/test_queue_executor.py:72-74 | chain line `k` returns `(xk, 2 ** k)` on the map of the first `k` levels |
| ExecutionScenarios.ChainLinePlain | src/expression_simplifier.py:63-66 | every chain line has no `+`, `-` or `/` and a `*` followed by a space, so it is its own simplification |
| ExecutionScenarios.ChainOfTenExample | tests/test_queue_executor.py:70-86 | the test's ten names `x0` to `x9` meet the chain's conditions, and the run holds exactly them, `x9` set to 512 |
| Scenarios.PlainBatchExample | tests/test_calculator.py:124-129 | `x = 5` and `y = 10` simplify to themselves |
| QueueScenarios.NoEqualsExample | src/dependency_graph.py:16-32 | `a b` is its own target and reads `a`, so building the graph of `["a b"]` reports `a` undefined in `a b` |
| QueueScenarios.XAdd | src/dependency_graph.py:34-48 | `x += 3` has the target `x +`, a name of its own, and reads `x` through its compound left side |
| QueueScenarios.YMul | src/dependency_graph.py:34-48 | `y *= 2` has the target `y *` and reads `y` |
| QueueScenarios.BatchExtracted | src/dependency_graph.py:19-27 | the targets of `x = 5`, `x += 3`, `y = 10`, `y *= 2` are `x`, `x +`, `y`, `y *`, and their reads are none, `x`, none, `y` |
| QueueScenarios.BatchBuilt | src/dependency_graph.py:16-32 | for four distinct names `x`, `xp`, `y`, `yp` with those reads, every read is assigned, the graph maps `xp` to `{x}`, `yp` to `{y}` and the others to `{}`, and only `xp` and `yp` get in-degree 1 |
| QueueScenarios.SweepY | src/dependency_graph.py:89-96 | emitting `y` decrements `yp` to 0 and pushes it |
| QueueScenarios.SweepX | src/dependency_graph.py:89-96 | emitting `x` decrements `xp` to 0 and pushes it |
| QueueScenarios.SweepNothing | src/dependency_graph.py:89-96 | emitting `xp` or `yp` changes nothing, since no expression reads them |
| QueueScenarios.BatchOrder | src/dependency_graph.py:76-101 | the ready stack starts as `[x, y]`, `y` is popped first, and the sort returns `y`, `yp`, `x`, `xp` |
| QueueScenarios.BatchLevels | src/dependency_graph.py:103-129 | that order packs into the levels `[y]`, `[yp, x]`, `[xp]`: `yp` reads `y` in the open level, `x` reads nothing, `xp` reads `x` |
| QueueScenarios.PlannedFrom | src/dependency_graph.py:103-129 | any four expressions with those targets and reads build and are planned as expressions 2, then 3 and 0, then 1 |
| QueueScenarios.BatchPlanned | tests/test_calculator.py:117-143 | the batch is planned as `[y = 10]`, `[y *= 2, x = 5]`, `[x += 3]` |
| QueueScenarios.TwoExpressionLevel | src/executor.py:171-203 | a level of two expressions that each return a pair not named `error` collects both pairs and merges them in order |
| QueueScenarios.QueueRun | src/executor.py:152-210 | those levels run from `{}` through `{y: 10}` and `{y: 20, x: 5}` to `{x: 8, y: 20}`, each level evaluated on the map the levels before it left |
| QueueScenarios.SequentialRun | src/executor.py:40-63 | the sequential executor on the batch in input order ends with `{x: 8, y: 20}` |
| QueueScenarios.CompoundBatchExample | tests/test_calculator.py:117-143 | with the AST evaluator the queue executor's planned run and the sequential run of `x = 5`, `x += 3`, `y = 10`, `y *= 2` both give `{x: 8, y: 20}` |

## Left out

- Logging: every `logger` call is left out; it does not affect results.
- Processes, queues and locks: the workers of a level are modelled one after another, in level
  order. The messages they post arrive in that order, and the merge applies the pairs in that
  order. With two results for one target in a level, the value that wins in the source depends
  on process scheduling.
- Timing: the 10-second collection timeout and the 5-second join and terminate are not
  modelled. A missing message is modelled as a skipped result, which is what the timeout path
  does after its wait.
- Worker stop after an error: a worker in the source stops taking work after an error. The
  expressions it leaves stay in the executor's work queue, where a later `execute` on the same
  executor would pick them up. The model fails the level and does not carry a queue across calls.
- `ast.parse` is the parameter `parse`. Its output datatype `Parsed` covers assignments to a
  name, integer constants, names and binary operators; every other statement, target, node
  and operator is `OtherStmt`, `OtherTarget`, `OtherNode` or `OtherOp`. Non-integer constants
  are not modelled.
- Error messages: exceptions are datatypes carrying the failing name or expression; message
  texts and the exception class hierarchy are left out.
- `ExecutorFactory.create_executor` and `Config` choose between the two executors from global
  configuration; that selection is not modelled; both executors are.
- `cpu_count()` is the constructor parameter `cpus`; `Executor.Workers` models the worker count,
  which does not change the result.
- Text helpers are ASCII: white space, identifiers and digits beyond ASCII are not modelled.
- DependencyGraph.DependencyGraph.New: which undefined name is reported when an expression
  reads several is left open ("some undefined dependency of the first expression that has
  one"), because the source iterates a Python set.
- Executor.QueueExecutor.Execute: the contents of the shared map after a failed run are not
  stated; the source leaves there the levels merged before the failure.
- Executor.QueueExecutor.Execute: the run of the regex evaluator on a full concrete batch is
  not worked out as an example.
- ExecutionScenarios.ChainExample and ExecutionScenarios.LevelsDivergeExample start from the
  levels, one expression per level; that `get_expression_levels` plans those levels for the
  batch is not derived in them.
- The ordering and level lemmas (`TopoSort.TopologicalOrderRespectsDependencies`,
  `DependencyGraph.SortFailsIffStuck`, `DependencyGraph.LevelsRespectReads`) assume distinct
  targets. With a repeated target the in-degree counts do not match the graph, as
  `Scenarios.DuplicateTargetRejected` shows.
