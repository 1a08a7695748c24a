/** `DependencyGraph` of src/dependency_graph.py: the graph of the names each assignment reads,
    built in two passes, sorted with Kahn's algorithm and packed into levels.

    Expressions are handled by index so that two equal strings stay two expressions; the
    methods hand back strings, as the source does. The specification functions take the target
    and the dependency set of every expression, `Targets(es)` and `Reads(es)`, rather than the
    strings themselves. */
module DependencyGraph {
  import opened Wrappers
  import opened Text
  import opened Extract
  import opened TopoSort
  import opened Levels

  /** The two exceptions of the dependency layer. */
  datatype GraphError = UndefinedVariable(name: string, expression: string) | CyclicDependency

  /** `_get_target` of each expression, by index. */
  function Targets(es: seq<string>): (ts: seq<string>)
    ensures |ts| == |es|
  {
    if es == [] then [] else [Target(es[0])] + Targets(es[1..])
  }

  /** `_get_dependencies` of each expression, by index. */
  function Reads(es: seq<string>): (ds: seq<set<string>>)
    ensures |ds| == |es|
  {
    if es == [] then [] else [Dependencies(es[0])] + Reads(es[1..])
  }

  /** Entry `k` of `Targets` and `Reads` is the target and the dependency set of expression `k`. */
  lemma {:induction false} TargetsAt(es: seq<string>, k: nat)
    requires k < |es|
    ensures Targets(es)[k] == Target(es[k]) && Reads(es)[k] == Dependencies(es[k])
  {
    if k > 0 {
      TargetsAt(es[1..], k - 1);
    }
  }

  /** The names some expression assigns: `variables` after the first pass. */
  function Names(ts: seq<string>): set<string> {
    set t | t in ts
  }

  /** The union of the dependency sets of the first `n` expressions whose target is `t`:
      `graph[t]` once `n` expressions have been added. */
  function DepUnion(ts: seq<string>, ds: seq<set<string>>, n: nat, t: string): set<string>
    requires n <= |ts| && n <= |ds|
  {
    if n == 0 then {}
    else DepUnion(ts, ds, n - 1, t) + (if ts[n - 1] == t then ds[n - 1] else {})
  }

  /** The sum of the sizes of those dependency sets: `in_degree[t]` once `n` expressions have
      been added. */
  function DepCount(ts: seq<string>, ds: seq<set<string>>, n: nat, t: string): nat
    requires n <= |ts| && n <= |ds|
  {
    if n == 0 then 0
    else DepCount(ts, ds, n - 1, t) + (if ts[n - 1] == t then |ds[n - 1]| else 0)
  }

  /** `graph[t]` holds exactly the names read by some expression that assigns `t`. */
  lemma {:induction false} DepUnionMembers(ts: seq<string>, ds: seq<set<string>>, n: nat, t: string, d: string)
    requires n <= |ts| && n <= |ds|
    ensures d in DepUnion(ts, ds, n, t) <==> exists k :: 0 <= k < n && ts[k] == t && d in ds[k]
  {
    if n > 0 {
      DepUnionMembers(ts, ds, n - 1, t, d);
      if d in ds[n - 1] && ts[n - 1] == t {
        assert d in DepUnion(ts, ds, n, t);
      }
    }
  }

  /** `in_degree[t]` is at least the size of `graph[t]` (a name read by two expressions that
      assign `t` is counted twice), and 0 when no expression assigns `t`. */
  lemma {:induction false} DepCountBounds(ts: seq<string>, ds: seq<set<string>>, n: nat, t: string)
    requires n <= |ts| && n <= |ds|
    ensures DepCount(ts, ds, n, t) >= |DepUnion(ts, ds, n, t)|
    ensures (forall k :: 0 <= k < n ==> ts[k] != t) ==> DepCount(ts, ds, n, t) == 0
  {
    if n > 0 {
      DepCountBounds(ts, ds, n - 1, t);
      UnionCard(DepUnion(ts, ds, n - 1, t), if ts[n - 1] == t then ds[n - 1] else {});
    }
  }

  lemma {:induction false} UnionCard(a: set<string>, b: set<string>)
    ensures |a + b| <= |a| + |b|
  {
    if b != {} {
      var x :| x in b;
      UnionCard(a, b - {x});
      assert a + b == (a + (b - {x})) + {x};
    } else {
      assert a + b == a;
    }
  }

  /** Nothing is recorded for a name none of the first `n` expressions assigns. */
  lemma {:induction false} NoneAssigned(ts: seq<string>, ds: seq<set<string>>, n: nat, t: string)
    requires n <= |ts| && n <= |ds|
    requires forall m :: 0 <= m < n ==> ts[m] != t
    ensures DepUnion(ts, ds, n, t) == {} && DepCount(ts, ds, n, t) == 0
  {
    if n > 0 {
      NoneAssigned(ts, ds, n - 1, t);
    }
  }

  /** When exactly one of the first `n` expressions, `k`, assigns `t`, the graph entry is its
      dependency set. */
  lemma {:induction false} SingleAssignmentUnion(ts: seq<string>, ds: seq<set<string>>, n: nat, t: string, k: nat)
    requires n <= |ts| && n <= |ds| && k < n && ts[k] == t
    requires forall m :: 0 <= m < n && m != k ==> ts[m] != t
    ensures DepUnion(ts, ds, n, t) == ds[k]
  {
    if k == n - 1 {
      NoneAssigned(ts, ds, n - 1, t);
    } else {
      SingleAssignmentUnion(ts, ds, n - 1, t, k);
    }
  }

  /** ... and the in-degree is the size of that set. */
  lemma {:induction false} SingleAssignmentCount(ts: seq<string>, ds: seq<set<string>>, n: nat, t: string, k: nat)
    requires n <= |ts| && n <= |ds| && k < n && ts[k] == t
    requires forall m :: 0 <= m < n && m != k ==> ts[m] != t
    ensures DepCount(ts, ds, n, t) == |ds[k]|
  {
    if k == n - 1 {
      NoneAssigned(ts, ds, n - 1, t);
    } else {
      SingleAssignmentCount(ts, ds, n - 1, t, k);
    }
  }

  /** `graph` after the first pass: an empty entry for every target. */
  function Registered(ts: seq<string>): map<string, set<string>> {
    map t | t in Names(ts) :: {}
  }

  /** `graph` once the reads of the first `n` expressions have been added: each expression's
      dependency set joins the entry of its target. */
  function GraphOf(ts: seq<string>, ds: seq<set<string>>, n: nat): map<string, set<string>>
    requires n <= |ts| && n <= |ds|
  {
    if n == 0 then Registered(ts)
    else
      var g := GraphOf(ts, ds, n - 1);
      g[ts[n - 1] := Get(g, ts[n - 1]) + ds[n - 1]]
  }

  /** `deg` after `k` increments of `deg[t]`; a `defaultdict` gains no key when there are none. */
  function Bump(deg: map<string, int>, t: string, k: nat): map<string, int> {
    if k == 0 then deg else deg[t := Deg(deg, t) + k]
  }

  /** `in_degree` once the first `n` expressions have been added: each counts every name it
      reads against its target. */
  function DegOf(ts: seq<string>, ds: seq<set<string>>, n: nat): map<string, int>
    requires n <= |ts| && n <= |ds|
  {
    if n == 0 then map[] else Bump(DegOf(ts, ds, n - 1), ts[n - 1], |ds[n - 1]|)
  }

  /** The graph has an entry for exactly the targets, and the entry of each is the union of
      the dependency sets of the expressions that assign it. */
  lemma {:induction false} GraphOfUnion(ts: seq<string>, ds: seq<set<string>>, n: nat, t: string)
    requires n <= |ts| && n <= |ds|
    ensures GraphOf(ts, ds, n).Keys == Names(ts)
    ensures Get(GraphOf(ts, ds, n), t) == DepUnion(ts, ds, n, t)
  {
    if n > 0 {
      GraphOfUnion(ts, ds, n - 1, t);
      GraphOfUnion(ts, ds, n - 1, ts[n - 1]);
      assert ts[n - 1] in Names(ts);
    }
  }

  /** The in-degree of each name is the sum of the sizes of the dependency sets of the
      expressions that assign it. */
  lemma {:induction false} DegOfCount(ts: seq<string>, ds: seq<set<string>>, n: nat, t: string)
    requires n <= |ts| && n <= |ds|
    ensures Deg(DegOf(ts, ds, n), t) == DepCount(ts, ds, n, t)
  {
    if n > 0 {
      DegOfCount(ts, ds, n - 1, t);
    }
  }

  /** Moving `dep` from the names still to visit to the names visited keeps the two a
      partition of `deps`. */
  lemma Visit(deps: set<string>, added: set<string>, remaining: set<string>, dep: string, base: set<string>, entry: set<string>, d0: int, count: int)
    requires added + remaining == deps && added !! remaining && dep in remaining
    requires entry == base + added && count == d0 + |added|
    ensures (added + {dep}) + (remaining - {dep}) == deps && (added + {dep}) !! (remaining - {dep})
    ensures entry + {dep} == base + (added + {dep}) && count + 1 == d0 + |added + {dep}|
    ensures |remaining - {dep}| < |remaining|
  {
    assert |added + {dep}| == |added| + 1;
  }

  /** Every name any expression reads is assigned by some expression of the batch. */
  ghost predicate AllDefined(ts: seq<string>, ds: seq<set<string>>) {
    DefinedUpTo(ds, |ds|, Names(ts))
  }

  /** The first `n` expressions read only names among `vs`. */
  ghost predicate DefinedUpTo(ds: seq<set<string>>, n: nat, vs: set<string>) {
    forall k :: 0 <= k < n && k < |ds| ==> ds[k] <= vs
  }

  lemma DefinedStep(ds: seq<set<string>>, n: nat, vs: set<string>)
    requires n < |ds| && DefinedUpTo(ds, n, vs) && ds[n] <= vs
    ensures DefinedUpTo(ds, n + 1, vs)
  {
  }

  /** `err` is the error `build_graph` raises: it names a dependency of the first expression
      that reads a name nothing assigns, and that expression. Which of its undefined names is
      named depends on Python's set iteration order, so any of them may be. */
  ghost predicate ReportsUndefined(es: seq<string>, ts: seq<string>, ds: seq<set<string>>, err: GraphError) {
    exists i :: 0 <= i < |es| && i < |ds| && DefinedUpTo(ds, i, Names(ts)) &&
      err.UndefinedVariable? && err.expression == es[i] &&
      err.name in ds[i] && err.name !in Names(ts)
  }

  /** An expression that reads an unassigned name after expressions that read only assigned
      ones is what the second pass reports. */
  lemma UndefinedReported(es: seq<string>, ts: seq<string>, ds: seq<set<string>>, i: nat, name: string)
    requires i < |es| && i < |ds| && DefinedUpTo(ds, i, Names(ts))
    requires name in ds[i] && name !in Names(ts)
    ensures ReportsUndefined(es, ts, ds, UndefinedVariable(name, es[i]))
    ensures !AllDefined(ts, ds)
  {
  }

  /** The graph and in-degrees a successful `build_graph` leaves behind. */
  ghost predicate BuiltFrom(ts: seq<string>, ds: seq<set<string>>, g: map<string, set<string>>, deg: map<string, int>) {
    |ds| == |ts| && g == GraphOf(ts, ds, |ts|) && deg == DegOf(ts, ds, |ts|)
  }

  /** With distinct targets, the graph entry of each target is the dependency set of the one
      expression that assigns it, and its in-degree the size of that set: the counts Kahn's
      algorithm needs. */
  lemma BuiltCountsMatch(ts: seq<string>, ds: seq<set<string>>, g: map<string, set<string>>, deg: map<string, int>)
    requires BuiltFrom(ts, ds, g, deg) && DistinctTargets(ts)
    ensures forall j :: 0 <= j < |ts| ==> Get(g, ts[j]) == ds[j]
    ensures CountsMatch(ts, g, deg)
  {
    forall j | 0 <= j < |ts| ensures Get(g, ts[j]) == ds[j] && Deg(deg, ts[j]) == |ds[j]| {
      GraphOfUnion(ts, ds, |ts|, ts[j]);
      DegOfCount(ts, ds, |ts|, ts[j]);
      SingleAssignmentUnion(ts, ds, |ts|, ts[j], j);
      SingleAssignmentCount(ts, ds, |ts|, ts[j], j);
    }
  }

  /** The expressions at the given indices. */
  function Pick<T>(es: seq<T>, order: seq<nat>): (r: seq<T>)
    requires InRange(order, |es|)
    ensures |r| == |order| && forall k :: 0 <= k < |order| ==> r[k] == es[order[k]]
  {
    seq(|order|, k requires 0 <= k < |order| => es[order[k]])
  }

  /** The expressions at the indices of each level. */
  function PickLevels(es: seq<string>, levels: seq<seq<nat>>): (r: seq<seq<string>>)
    requires forall i :: 0 <= i < |levels| ==> InRange(levels[i], |es|)
    ensures |r| == |levels| && forall i :: 0 <= i < |levels| ==> r[i] == Pick(es, levels[i])
  {
    seq(|levels|, i requires 0 <= i < |levels| => Pick(es, levels[i]))
  }

  /** `ts` and `ds` are the targets and the dependency sets of the expressions `es`, entry by
      entry. The facts are released only where an expression's own `Target` or `Dependencies`
      is mentioned. */
  ghost predicate Extracted(es: seq<string>, ts: seq<string>, ds: seq<set<string>>) {
    |ts| == |es| && |ds| == |es| &&
    (forall k {:trigger Target(es[k])} :: 0 <= k < |es| ==> ts[k] == Target(es[k])) &&
    (forall k {:trigger Dependencies(es[k])} :: 0 <= k < |es| ==> ds[k] == Dependencies(es[k]))
  }

  /** `Targets` and `Reads` extract every expression. */
  lemma TargetsExtracted(es: seq<string>)
    ensures Extracted(es, Targets(es), Reads(es))
  {
    forall k | 0 <= k < |es| ensures Targets(es)[k] == Target(es[k]) && Reads(es)[k] == Dependencies(es[k]) {
      TargetsAt(es, k);
    }
  }

  /** What `topological_sort` returns or raises, given the targets `ts` of the expressions. */
  function SortedExpressions(es: seq<string>, ts: seq<string>, g: map<string, set<string>>, deg: map<string, int>): Result<seq<string>, GraphError>
    requires |ts| == |es|
  {
    TopologicalOrderIsPermutation(ts, g, deg);
    match TopologicalOrder(ts, g, deg)
    case None => Failure(CyclicDependency)
    case Some(order) => Success(Pick(es, order))
  }

  /** What `get_expression_levels` returns or raises; level `i` is the source's key `i`. */
  function ExpressionLevels(es: seq<string>, ts: seq<string>, g: map<string, set<string>>, deg: map<string, int>): Result<seq<seq<string>>, GraphError>
    requires |ts| == |es|
  {
    TopologicalOrderIsPermutation(ts, g, deg);
    match TopologicalOrder(ts, g, deg)
    case None => Failure(CyclicDependency)
    case Some(order) =>
      var levels := LevelsOf(ts, g, Target, order);
      LevelsPartitionOrder(ts, g, Target, order);
      Success(PickLevels(es, levels))
  }

  /** `Pick` distributes over concatenation. */
  lemma PickConcat<T>(es: seq<T>, a: seq<nat>, b: seq<nat>)
    requires InRange(a, |es|) && InRange(b, |es|)
    ensures InRange(a + b, |es|) && Pick(es, a + b) == Pick(es, a) + Pick(es, b)
  {
    forall k | 0 <= k < |a + b| ensures (a + b)[k] < |es| {
      if k < |a| {
        assert (a + b)[k] == a[k];
      } else {
        assert (a + b)[k] == b[k - |a|];
      }
    }
  }

  /** Taking out one element keeps a sequence free of duplicates, and within the bound its
      remaining elements already kept. */
  lemma RemoveAt(order: seq<nat>, p: nat, n: nat)
    requires NoDup(order) && InRange(order, n + 1) && p < |order| && order[p] == n
    ensures var rest := order[..p] + order[p + 1..];
      NoDup(rest) && InRange(rest, n) && order == order[..p] + [n] + order[p + 1..]
  {
    var rest := order[..p] + order[p + 1..];
    assert forall k :: 0 <= k < |rest| ==> rest[k] == order[if k < p then k else k + 1];
    forall k | 0 <= k < |rest| ensures rest[k] < n {
      var k' := if k < p then k else k + 1;
      assert order[k'] != order[p];
    }
  }

  lemma SliceInRange(s: seq<nat>, i: nat, j: nat, n: nat)
    requires i <= j <= |s| && InRange(s, n)
    ensures InRange(s[i..j], n)
  {
    assert forall k :: 0 <= k < j - i ==> s[i..j][k] == s[i + k];
  }

  /** Picking the expressions at a permutation of the first `n` indices gives the first `n`
      expressions, each as often as there. */
  lemma {:induction false} PickPermutation<T>(es: seq<T>, order: seq<nat>, n: nat)
    requires n <= |es| && |order| == n && NoDup(order) && InRange(order, n)
    ensures InRange(order, |es|) && multiset(Pick(es, order)) == multiset(es[..n])
    decreases n
  {
    assert InRange(order, |es|);
    if n > 0 {
      var p := Locate(order, n - 1);
      RemoveAt(order, p, n - 1);
      var rest := order[..p] + order[p + 1..];
      PickPermutation(es, rest, n - 1);
      PickPermutationStep(es, order, p, n);
    }
  }

  /** Where a permutation of the first `n` indices holds `v < n`. */
  lemma Locate(order: seq<nat>, v: nat) returns (p: nat)
    requires NoDup(order) && InRange(order, |order|) && v < |order|
    ensures p < |order| && order[p] == v
  {
    NoDupFull(order, |order|);
    assert v in order;
    p :| 0 <= p < |order| && order[p] == v;
  }

  /** The inductive step of `PickPermutation`: the index `n - 1` taken out at `p` and put back. */
  lemma PickPermutationStep<T>(es: seq<T>, order: seq<nat>, p: nat, n: nat)
    requires 0 < n <= |es| && InRange(order, |es|) && p < |order| && order[p] == n - 1
    requires InRange(order[..p] + order[p + 1..], |es|)
    requires multiset(Pick(es, order[..p] + order[p + 1..])) == multiset(es[..n - 1])
    ensures multiset(Pick(es, order)) == multiset(es[..n])
  {
    var a, b := order[..p], order[p + 1..];
    PickSplice(es, order, p);
    PickConcat(es, a, b);
    var pa, pb, pre := Pick(es, a), Pick(es, b), es[..n - 1];
    assert multiset(pa + pb) == multiset(pre);
    MultisetSplice(pa, pb, es[n - 1], pre);
    assert Pick(es, order) == pa + [es[n - 1]] + pb;
    TakeLast(es, n);
  }

  lemma TakeLast<T>(s: seq<T>, n: nat)
    requires 0 < n <= |s|
    ensures s[..n] == s[..n - 1] + [s[n - 1]]
  {
  }

  /** The picked expressions around position `p` of the order. */
  lemma PickSplice<T>(es: seq<T>, order: seq<nat>, p: nat)
    requires InRange(order, |es|) && p < |order|
    ensures InRange(order[..p], |es|) && InRange(order[p + 1..], |es|)
    ensures Pick(es, order) == Pick(es, order[..p]) + [es[order[p]]] + Pick(es, order[p + 1..])
  {
    SliceInRange(order, 0, p, |es|);
    SliceInRange(order, p + 1, |order|, |es|);
    var l, r := Pick(es, order[..p]), Pick(es, order[p + 1..]);
    assert forall k :: 0 <= k < |order| ==> Pick(es, order)[k] == (l + [es[order[p]]] + r)[k];
  }

  /** Putting one element back into both sides keeps two sequences permutations of each other. */
  lemma MultisetSplice<T>(u: seq<T>, w: seq<T>, x: T, pre: seq<T>)
    requires multiset(u + w) == multiset(pre)
    ensures multiset(u + [x] + w) == multiset(pre + [x])
  {
    calc {
      multiset(u + [x] + w);
      multiset(u) + multiset{x} + multiset(w);
      multiset(u + w) + multiset{x};
    }
  }

  /** `topological_sort` raises `CyclicDependencyError` exactly when Kahn's algorithm over
      the targets fails, and otherwise returns the expressions in the order it produces. */
  lemma SortedShape(es: seq<string>, ts: seq<string>, g: map<string, set<string>>, deg: map<string, int>)
    requires |ts| == |es|
    ensures SortedExpressions(es, ts, g, deg).Failure? <==> TopologicalOrder(ts, g, deg).None?
    ensures SortedExpressions(es, ts, g, deg).Failure? ==> SortedExpressions(es, ts, g, deg).error == CyclicDependency
    ensures TopologicalOrder(ts, g, deg).Some? ==>
      InRange(TopologicalOrder(ts, g, deg).value, |es|) &&
      SortedExpressions(es, ts, g, deg).value == Pick(es, TopologicalOrder(ts, g, deg).value)
  {
    TopologicalOrderIsPermutation(ts, g, deg);
  }

  /** `topological_sort` returns the input reordered, every expression exactly as often as it
      was given, or raises `CyclicDependencyError`. */
  lemma SortIsPermutation(es: seq<string>, ts: seq<string>, g: map<string, set<string>>, deg: map<string, int>)
    requires |ts| == |es|
    ensures SortedExpressions(es, ts, g, deg).Success? ==> multiset(SortedExpressions(es, ts, g, deg).value) == multiset(es)
    ensures SortedExpressions(es, ts, g, deg).Failure? ==> SortedExpressions(es, ts, g, deg).error == CyclicDependency
  {
    SortedShape(es, ts, g, deg);
    TopologicalOrderIsPermutation(ts, g, deg);
    if TopologicalOrder(ts, g, deg).Some? {
      PickPermutation(es, TopologicalOrder(ts, g, deg).value, |es|);
      assert es[..|es|] == es;
    }
  }

  /** After a build from distinct targets, the order puts each expression after every
      expression whose target it reads. */
  lemma OrderRespectsReads(ts: seq<string>, ds: seq<set<string>>, g: map<string, set<string>>, deg: map<string, int>)
    requires BuiltFrom(ts, ds, g, deg) && DistinctTargets(ts)
    ensures TopologicalOrder(ts, g, deg).Some? ==>
      var order := TopologicalOrder(ts, g, deg).value;
      InRange(order, |ts|) &&
      forall p, q :: 0 <= p < |order| && 0 <= q < |order| && ts[order[p]] in ds[order[q]] ==> p < q
  {
    BuiltCountsMatch(ts, ds, g, deg);
    TopologicalOrderRespectsDependencies(ts, g, deg);
  }

  /** With distinct targets, every expression the sort returns comes after each expression
      whose target it reads. */
  lemma SortRespectsReads(es: seq<string>, ts: seq<string>, ds: seq<set<string>>, g: map<string, set<string>>, deg: map<string, int>)
    requires Extracted(es, ts, ds) && BuiltFrom(ts, ds, g, deg) && DistinctTargets(ts)
    ensures SortedExpressions(es, ts, g, deg).Success? ==>
      var r := SortedExpressions(es, ts, g, deg).value;
      forall p, q :: 0 <= p < |r| && 0 <= q < |r| && Target(r[p]) in Dependencies(r[q]) ==> p < q
  {
    SortedShape(es, ts, g, deg);
    OrderRespectsReads(ts, ds, g, deg);
    if TopologicalOrder(ts, g, deg).Some? {
      var order := TopologicalOrder(ts, g, deg).value;
      var r := Pick(es, order);
      forall p, q | 0 <= p < |r| && 0 <= q < |r| && Target(r[p]) in Dependencies(r[q])
        ensures p < q
      {
        assert r[p] == es[order[p]] && r[q] == es[order[q]];
        assert ts[order[p]] in ds[order[q]];
      }
    }
  }

  /** A set of expressions none of which can run first: each reads a name that only members of
      the set assign. `ts` and `ds` are the targets and dependency sets of the expressions. */
  ghost predicate Stuck(ts: seq<string>, ds: seq<set<string>>, S: set<nat>) {
    S != {} && (forall j :: j in S ==> j < |ts| && j < |ds|) &&
    forall j :: j in S ==> exists d :: d in ds[j] && forall k :: 0 <= k < |ts| && ts[k] == d ==> k in S
  }

  /** Once each target's graph entry is its expression's dependency set, `Blocked` and `Stuck`
      agree. */
  lemma BlockedIsStuck(ts: seq<string>, ds: seq<set<string>>, g: map<string, set<string>>, S: set<nat>)
    requires |ds| == |ts| && forall j :: 0 <= j < |ts| ==> Get(g, ts[j]) == ds[j]
    ensures Blocked(ts, g, S) <==> Stuck(ts, ds, S)
  {
  }

  /** Some set of expressions is stuck: the expressions read each other's targets in a cycle. */
  ghost predicate HasCycle(ts: seq<string>, ds: seq<set<string>>) {
    exists S :: Stuck(ts, ds, S)
  }

  /** After a build from distinct targets, Kahn's algorithm fails exactly when some set of
      expressions is stuck. */
  lemma OrderFailsIffStuck(ts: seq<string>, ds: seq<set<string>>, g: map<string, set<string>>, deg: map<string, int>)
    requires BuiltFrom(ts, ds, g, deg) && DistinctTargets(ts)
    ensures TopologicalOrder(ts, g, deg).None? <==> HasCycle(ts, ds)
  {
    BuiltCountsMatch(ts, ds, g, deg);
    TopologicalOrderFailsIffBlocked(ts, g, deg);
    forall S ensures Blocked(ts, g, S) <==> Stuck(ts, ds, S) {
      BlockedIsStuck(ts, ds, g, S);
    }
  }

  /** With distinct targets, the sort raises `CyclicDependencyError` exactly when some set of
      expressions is stuck: after a successful build every name read is assigned, so that is a
      dependency cycle. */
  lemma SortFailsIffStuck(es: seq<string>, ts: seq<string>, ds: seq<set<string>>, g: map<string, set<string>>, deg: map<string, int>)
    requires Extracted(es, ts, ds) && BuiltFrom(ts, ds, g, deg) && DistinctTargets(ts)
    ensures SortedExpressions(es, ts, g, deg).Failure? <==> HasCycle(ts, ds)
  {
    SortedShape(es, ts, g, deg);
    OrderFailsIffStuck(ts, ds, g, deg);
  }

  /** With distinct targets, an expression that reads its own target, such as `x = x + 1`,
      makes the sort raise `CyclicDependencyError`. */
  lemma SelfReadFails(es: seq<string>, ts: seq<string>, ds: seq<set<string>>, g: map<string, set<string>>, deg: map<string, int>, k: nat)
    requires Extracted(es, ts, ds) && BuiltFrom(ts, ds, g, deg) && DistinctTargets(ts)
    requires k < |es| && Target(es[k]) in Dependencies(es[k])
    ensures SortedExpressions(es, ts, g, deg) == Failure(CyclicDependency)
  {
    SelfReadStuck(ts, ds, k);
    OrderFailsIffStuck(ts, ds, g, deg);
    SortedShape(es, ts, g, deg);
  }

  /** With distinct targets, an expression that reads its own target is stuck on its own. */
  lemma SelfReadStuck(ts: seq<string>, ds: seq<set<string>>, k: nat)
    requires DistinctTargets(ts) && |ds| == |ts| && k < |ts| && ts[k] in ds[k]
    ensures Stuck(ts, ds, {k})
  {
    forall k' | 0 <= k' < |ts| && ts[k'] == ts[k] ensures k' in {k} {
    }
  }

  /** The picked levels laid end to end are the expressions at the flattened indices. */
  lemma {:induction false} FlattenPickLevels(es: seq<string>, levels: seq<seq<nat>>)
    requires forall i :: 0 <= i < |levels| ==> InRange(levels[i], |es|)
    ensures InRange(Flatten(levels), |es|) && Flatten(PickLevels(es, levels)) == Pick(es, Flatten(levels))
  {
    if levels != [] {
      var rest := levels[1..];
      assert forall i :: 0 <= i < |rest| ==> rest[i] == levels[i + 1];
      FlattenPickLevels(es, rest);
      PickConcat(es, levels[0], Flatten(rest));
      assert PickLevels(es, levels)[1..] == PickLevels(es, rest);
    }
  }

  /** `get_expression_levels` raises exactly when `topological_sort` does, and otherwise packs
      the sorted order. */
  lemma LevelsShape(es: seq<string>, ts: seq<string>, g: map<string, set<string>>, deg: map<string, int>)
    requires |ts| == |es|
    ensures ExpressionLevels(es, ts, g, deg).Failure? <==> TopologicalOrder(ts, g, deg).None?
    ensures ExpressionLevels(es, ts, g, deg).Failure? ==> ExpressionLevels(es, ts, g, deg).error == CyclicDependency
    ensures TopologicalOrder(ts, g, deg).Some? ==>
      var order := TopologicalOrder(ts, g, deg).value;
      InRange(order, |ts|) &&
      var levels := LevelsOf(ts, g, Target, order);
      Flatten(levels) == order && (forall i :: 0 <= i < |levels| ==> InRange(levels[i], |ts|)) &&
      ExpressionLevels(es, ts, g, deg).value == PickLevels(es, levels)
  {
    TopologicalOrderIsPermutation(ts, g, deg);
    if TopologicalOrder(ts, g, deg).Some? {
      LevelsPartitionOrder(ts, g, Target, TopologicalOrder(ts, g, deg).value);
    }
  }

  /** After a build from distinct targets that are their own targets, the levels are
      non-empty, flatten to the sorted order, and put an expression in a strictly later level
      than every expression whose target it reads. */
  lemma OrderLevels(ts: seq<string>, ds: seq<set<string>>, g: map<string, set<string>>, deg: map<string, int>)
    requires BuiltFrom(ts, ds, g, deg) && DistinctTargets(ts)
    requires forall k :: 0 <= k < |ts| ==> Target(ts[k]) == ts[k]
    ensures TopologicalOrder(ts, g, deg).Some? ==>
      var order := TopologicalOrder(ts, g, deg).value;
      InRange(order, |ts|) &&
      var levels := LevelsOf(ts, g, Target, order);
      (forall i :: 0 <= i < |levels| ==> levels[i] != [] && InRange(levels[i], |ts|)) &&
      forall i, j, p, q ::
        0 <= i < |levels| && 0 <= j < |levels| && 0 <= p < |levels[i]| && 0 <= q < |levels[j]| &&
        ts[levels[i][p]] in ds[levels[j][q]]
        ==> i < j
  {
    BuiltCountsMatch(ts, ds, g, deg);
    TopologicalOrderRespectsDependencies(ts, g, deg);
    if TopologicalOrder(ts, g, deg).Some? {
      var order := TopologicalOrder(ts, g, deg).value;
      LevelsPartitionOrder(ts, g, Target, order);
      LevelsRespectDependencies(ts, g, Target, order);
    }
  }

  /** With distinct targets, `get_expression_levels` raises exactly when `topological_sort`
      does; otherwise its levels are non-empty, laid end to end they are the sorted
      expressions, and an expression sits in a strictly later level than every expression
      whose target it reads, so no level reads a target of its own. */
  lemma LevelsRespectReads(es: seq<string>, ts: seq<string>, ds: seq<set<string>>, g: map<string, set<string>>, deg: map<string, int>)
    requires Extracted(es, ts, ds) && BuiltFrom(ts, ds, g, deg) && DistinctTargets(ts)
    ensures ExpressionLevels(es, ts, g, deg).Success? <==> SortedExpressions(es, ts, g, deg).Success?
    ensures ExpressionLevels(es, ts, g, deg).Failure? ==> ExpressionLevels(es, ts, g, deg).error == CyclicDependency
    ensures ExpressionLevels(es, ts, g, deg).Success? ==>
      var ls := ExpressionLevels(es, ts, g, deg).value;
      Flatten(ls) == SortedExpressions(es, ts, g, deg).value &&
      (forall i :: 0 <= i < |ls| ==> ls[i] != []) &&
      forall i, j, p, q ::
        0 <= i < |ls| && 0 <= j < |ls| && 0 <= p < |ls[i]| && 0 <= q < |ls[j]| &&
        Target(ls[i][p]) in Dependencies(ls[j][q])
        ==> i < j
  {
    SortedShape(es, ts, g, deg);
    LevelsShape(es, ts, g, deg);
    forall k | 0 <= k < |ts| ensures Target(ts[k]) == ts[k] {
      TargetOfTarget(es[k]);
    }
    OrderLevels(ts, ds, g, deg);
    if TopologicalOrder(ts, g, deg).Some? {
      var order := TopologicalOrder(ts, g, deg).value;
      var levels := LevelsOf(ts, g, Target, order);
      var ls := PickLevels(es, levels);
      FlattenPickLevels(es, levels);
      forall i | 0 <= i < |ls| ensures ls[i] != [] {
        assert |ls[i]| == |levels[i]|;
      }
      forall i, j, p, q |
          0 <= i < |ls| && 0 <= j < |ls| && 0 <= p < |ls[i]| && 0 <= q < |ls[j]| &&
          Target(ls[i][p]) in Dependencies(ls[j][q])
        ensures i < j
      {
        assert ls[i][p] == es[levels[i][p]] && ls[j][q] == es[levels[j][q]];
        assert ts[levels[i][p]] in ds[levels[j][q]];
      }
    }
  }

  class DependencyGraph {
    var expressions: seq<string>
    var graph: map<string, set<string>>
    var inDegree: map<string, int>
    var variables: set<string>

    /** The state after a successful `build_graph`. */
    ghost predicate Built()
      reads this
    {
      var ts := Targets(expressions);
      var ds := Reads(expressions);
      BuiltFrom(ts, ds, graph, inDegree) && variables == Names(ts) && AllDefined(ts, ds)
    }

    /** The fields as `__init__` sets them before it calls `build_graph`. */
    constructor Init(expressions: seq<string>)
      ensures this.expressions == expressions && graph == map[] && inDegree == map[] && variables == {}
    {
      this.expressions := expressions;
      graph := map[];
      inDegree := map[];
      variables := {};
    }

    /** `DependencyGraph(expressions)`: the fields, then `build_graph`, whose error the
        constructor raises. */
    static method New(expressions: seq<string>) returns (r: Result<DependencyGraph, GraphError>)
      ensures r.Success? <==> AllDefined(Targets(expressions), Reads(expressions))
      ensures r.Success? ==> fresh(r.value) && r.value.expressions == expressions && r.value.Built()
      ensures r.Failure? ==> ReportsUndefined(expressions, Targets(expressions), Reads(expressions), r.error)
    {
      var dg := new DependencyGraph.Init(expressions);
      var err := dg.BuildGraph();
      if err.Some? {
        return Failure(err.value);
      }
      return Success(dg);
    }

    /** `build_graph`: register every target first, then add each expression's dependencies,
        raising on the first name no expression assigns. */
    method BuildGraph() returns (err: Option<GraphError>)
      requires graph == map[] && inDegree == map[] && variables == {}
      modifies this
      ensures expressions == old(expressions) && variables == Names(Targets(expressions))
      ensures err.None? <==> AllDefined(Targets(expressions), Reads(expressions))
      ensures err.None? ==> Built()
      ensures err.Some? ==> ReportsUndefined(expressions, Targets(expressions), Reads(expressions), err.value)
    {
      var ts := Targets(expressions);
      var ds := Reads(expressions);
      RegisterTargets(ts);
      err, graph, inDegree := AddDependencies(expressions, ts, ds, variables, graph, inDegree);
    }

    /** The first pass of `build_graph`: every target becomes a variable with an empty entry. */
    method RegisterTargets(ts: seq<string>)
      requires graph == map[] && inDegree == map[] && variables == {}
      modifies this`variables, this`graph
      ensures variables == Names(ts) && graph == Registered(ts)
    {
      var i := 0;
      while i < |ts|
        invariant 0 <= i <= |ts|
        invariant variables == Names(ts[..i]) && graph == Registered(ts[..i])
      {
        var target := ts[i];
        variables := variables + {target};
        if target !in graph {
          graph := graph[target := {}];
        }
        assert ts[..i + 1] == ts[..i] + [target];
        i := i + 1;
      }
      assert ts[..i] == ts;
    }

    /** The second pass of `build_graph`, over the targets `ts` and dependency sets `ds` of the
        expressions: record each dependency in the graph and count it in the in-degree, or
        report the first expression that reads an unassigned name. */
    static method AddDependencies(es: seq<string>, ts: seq<string>, ds: seq<set<string>>, vs: set<string>,
                                  g0: map<string, set<string>>, d0: map<string, int>)
      returns (err: Option<GraphError>, g: map<string, set<string>>, d: map<string, int>)
      requires |ts| == |ds| == |es| && vs == Names(ts) && g0 == Registered(ts) && d0 == map[]
      ensures err.None? <==> AllDefined(ts, ds)
      ensures err.None? ==> BuiltFrom(ts, ds, g, d)
      ensures err.Some? ==> ReportsUndefined(es, ts, ds, err.value)
    {
      g, d := g0, d0;
      err := None;
      var i := 0;
      while i < |ds|
        invariant 0 <= i <= |ds|
        invariant g == GraphOf(ts, ds, i) && d == DegOf(ts, ds, i)
        invariant DefinedUpTo(ds, i, vs)
        invariant err.None?
      {
        var target := ts[i];
        GraphOfUnion(ts, ds, i, target);
        assert target in vs;
        var undefined, g', d' := AddReads(g, d, vs, target, ds[i]);
        if undefined.Some? {
          err := Some(UndefinedVariable(undefined.value, es[i]));
          UndefinedReported(es, ts, ds, i, undefined.value);
          break;
        }
        DefinedStep(ds, i, vs);
        g, d := g', d';
        i := i + 1;
      }
    }

    /** The inner loop of the second pass of `build_graph`: add each name `deps` holds to the
        entry of `target` in `g` and count it in `deg`, or stop at a name that is not among
        `variables`. Python visits the set in an unspecified order, so the name reported may
        be any undefined one. */
    static method AddReads(g: map<string, set<string>>, deg: map<string, int>, variables: set<string>, target: string, deps: set<string>)
      returns (undefined: Option<string>, g': map<string, set<string>>, deg': map<string, int>)
      requires target in g
      ensures undefined.None? <==> deps <= variables
      ensures undefined.Some? ==> undefined.value in deps && undefined.value !in variables
      ensures undefined.None? ==> g' == g[target := g[target] + deps] && deg' == Bump(deg, target, |deps|)
    {
      var entry, count := g[target], Deg(deg, target);
      var remaining := deps;
      undefined := None;
      ghost var added: set<string> := {};
      while remaining != {}
        invariant added + remaining == deps && added !! remaining && added <= variables
        invariant entry == g[target] + added && count == Deg(deg, target) + |added|
        invariant undefined.None?
        decreases |remaining|
      {
        var dep :| dep in remaining;
        if dep !in variables {
          undefined := Some(dep);
          break;
        }
        Visit(deps, added, remaining, dep, g[target], entry, Deg(deg, target), count);
        entry := entry + {dep};
        count := count + 1;
        added := added + {dep};
        remaining := remaining - {dep};
      }
      if undefined.None? {
        AllAdded(g, deg, target, deps, added, entry, count);
      }
      g' := g[target := entry];
      deg' := if deps == {} then deg else deg[target := count];
    }

    /** Once every name is added, the entry and the count are those of the whole set. */
    static lemma AllAdded(g: map<string, set<string>>, deg: map<string, int>, target: string, deps: set<string>,
                          added: set<string>, entry: set<string>, count: int)
      requires target in g && added == deps
      requires entry == g[target] + added && count == Deg(deg, target) + |added|
      ensures g[target := entry] == g[target := g[target] + deps]
      ensures (if deps == {} then deg else deg[target := count]) == Bump(deg, target, |deps|)
    {
      assert deps == {} <==> |deps| == 0;
    }

    /** Kahn's algorithm on the indices, as `topological_sort` runs it on the strings. */
    method SortOrder() returns (r: Option<seq<nat>>)
      ensures r == TopologicalOrder(Targets(expressions), graph, inDegree)
    {
      var ts := Targets(expressions);
      var deg := inDegree;
      var zero: seq<nat> := Ready(ts, inDegree, 0);
      var sorted: seq<nat> := [];
      InitialInvariant(ts, inDegree);
      while zero != []
        invariant Invariant(ts, sorted, Worklist(zero, deg))
        invariant Drain(ts, graph, sorted, Worklist(zero, deg)) == TopologicalOrder(ts, graph, inDegree)
        decreases |ts| - |sorted|
      {
        PopKeepsInvariant(ts, sorted, Worklist(zero, deg));
        var cur := zero[|zero| - 1];
        zero := zero[..|zero| - 1];
        sorted := sorted + [cur];
        var c := ts[cur];
        SweepKeepsInvariant(ts, graph, c, 0, sorted, Worklist(zero, deg));
        zero, deg := ReleaseDependents(ts, c, zero, deg);
      }
      if |sorted| == |expressions| {
        r := Some(sorted);
      } else {
        r := None;
      }
    }

    /** The inner loop of `topological_sort`: after emitting an expression whose target is
        `c`, decrement the counter of every expression whose target reads `c`, in input order,
        and push each whose counter reaches 0. */
    method ReleaseDependents(ts: seq<string>, c: string, zero: seq<nat>, deg: map<string, int>)
      returns (zero': seq<nat>, deg': map<string, int>)
      ensures Worklist(zero', deg') == Sweep(ts, graph, c, 0, Worklist(zero, deg))
    {
      zero', deg' := zero, deg;
      var k := 0;
      while k < |ts|
        invariant k <= |ts|
        invariant Sweep(ts, graph, c, k, Worklist(zero', deg')) == Sweep(ts, graph, c, 0, Worklist(zero, deg))
      {
        ghost var w := Worklist(zero', deg');
        var t := ts[k];
        if c in Get(graph, t) {
          var d := Deg(deg', t) - 1;
          deg' := deg'[t := d];
          if d == 0 {
            zero' := zero' + [k];
          }
        }
        assert Worklist(zero', deg') == Step(ts, graph, c, k, w);
        k := k + 1;
      }
    }

    /** `topological_sort`: the expressions in Kahn order, or `CyclicDependencyError`. */
    method TopologicalSort() returns (r: Result<seq<string>, GraphError>)
      ensures r == SortedExpressions(expressions, Targets(expressions), graph, inDegree)
    {
      var order := SortOrder();
      TopologicalOrderIsPermutation(Targets(expressions), graph, inDegree);
      if order.None? {
        return Failure(CyclicDependency);
      }
      return Success(Pick(expressions, order.value));
    }

    /** `get_expression_levels`: the sorted expressions packed greedily into levels. */
    method GetExpressionLevels() returns (r: Result<seq<seq<string>>, GraphError>)
      ensures r == ExpressionLevels(expressions, Targets(expressions), graph, inDegree)
    {
      var ts := Targets(expressions);
      var sorted := SortOrder();
      TopologicalOrderIsPermutation(ts, graph, inDegree);
      if sorted.None? {
        return Failure(CyclicDependency);
      }
      var order := sorted.value;
      var levels := PackLevels(ts, Target, order);
      LevelsPartitionOrder(ts, graph, Target, order);
      return Success(PickLevels(expressions, levels));
    }

    /** The loop of `get_expression_levels` over the sorted expressions `order`, comparing
        `key` of each dependency (`_get_target` in the source) with the targets of the open
        level. */
    method PackLevels(ts: seq<string>, key: string -> string, order: seq<nat>) returns (levels: seq<seq<nat>>)
      requires InRange(order, |ts|)
      ensures levels == LevelsOf(ts, graph, key, order)
    {
      levels := [];
      var current: seq<nat> := [];
      var i := 0;
      while i < |order|
        invariant i <= |order| && InRange(current, |ts|)
        invariant Pack(ts, graph, key, order[i..], levels, current) == LevelsOf(ts, graph, key, order)
      {
        var x := order[i];
        assert order[i..][0] == x && order[i..][1..] == order[i + 1..];
        assert InRange(current + [x], |ts|) && InRange(order[i + 1..], |ts|);
        assert Pack(ts, graph, key, order[i..], levels, current) ==
          if Conflicts(ts, graph, key, x, current) && current != [] then Pack(ts, graph, key, order[i + 1..], levels + [current], [x])
          else Pack(ts, graph, key, order[i + 1..], levels, current + [x]);
        if Conflicts(ts, graph, key, x, current) && current != [] {
          levels := levels + [current];
          current := [];
          assert current + [x] == [x];
        }
        current := current + [x];
        i := i + 1;
      }
      if current != [] {
        levels := levels + [current];
      }
    }
  }
}
