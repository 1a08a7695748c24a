/** Kahn's algorithm exactly as `DependencyGraph.topological_sort` runs it
    (src/dependency_graph.py:76-101), as functions over expression indices.

    Expression `i` has target `ts[i]`; `g` maps a target to the union of the names read by the
    expressions that assign it, and `deg` maps a target to its remaining in-degree. The ready list
    is a stack: the most recently appended index is taken first. After emitting an expression
    whose target is `c`, the sweep visits EVERY expression `j` in input order and, when `c` is
    one of the names `ts[j]` reads, decrements the counter of `ts[j]` and pushes `j` when that
    counter reaches exactly 0. */
module TopoSort {
  import opened Wrappers

  /** `graph[t]` of a `defaultdict(set)`. */
  function Get(g: map<string, set<string>>, t: string): set<string> {
    if t in g then g[t] else {}
  }

  /** `in_degree[t]` of a `defaultdict(int)`. */
  function Deg(deg: map<string, int>, t: string): int {
    if t in deg then deg[t] else 0
  }

  predicate NoDup(s: seq<nat>) {
    forall a, b :: 0 <= a < b < |s| ==> s[a] != s[b]
  }

  predicate InRange(s: seq<nat>, n: nat) {
    forall k :: 0 <= k < |s| ==> s[k] < n
  }

  /** The initial ready list: the indices from `from` on whose target has in-degree 0, in
      input order. */
  function Ready(ts: seq<string>, deg: map<string, int>, from: nat): (r: seq<nat>)
    requires from <= |ts|
    ensures forall k :: 0 <= k < |r| ==> from <= r[k] < |ts| && Deg(deg, ts[r[k]]) == 0
    ensures forall a, b :: 0 <= a < b < |r| ==> r[a] < r[b]
    ensures forall j :: from <= j < |ts| && Deg(deg, ts[j]) == 0 ==> j in r
    decreases |ts| - from
  {
    if from == |ts| then []
    else if Deg(deg, ts[from]) == 0 then [from] + Ready(ts, deg, from + 1)
    else Ready(ts, deg, from + 1)
  }

  /** The ready stack together with the working copy of the in-degrees. */
  datatype Worklist = Worklist(stack: seq<nat>, deg: map<string, int>)

  /** One visit of the decrement loop, to expression `j`, after emitting target `c`. */
  function Step(ts: seq<string>, g: map<string, set<string>>, c: string, j: nat, w: Worklist): Worklist
    requires j < |ts|
  {
    if c in Get(g, ts[j]) then
      var d := Deg(w.deg, ts[j]) - 1;
      Worklist(if d == 0 then w.stack + [j] else w.stack, w.deg[ts[j] := d])
    else
      w
  }

  /** The decrement loop after emitting an expression whose target is `c`, from index `j` on. */
  function Sweep(ts: seq<string>, g: map<string, set<string>>, c: string, j: nat, w: Worklist): Worklist
    requires j <= |ts|
    decreases |ts| - j
  {
    if j == |ts| then w else Sweep(ts, g, c, j + 1, Step(ts, g, c, j, w))
  }

  /** What keeps the loop going and finite: every index is emitted or waiting at most once, and
      the counter of every emitted or waiting expression's target is at most 0, so an index can
      only be pushed again if its counter were to come back up to 1, which never happens. */
  ghost predicate Invariant(ts: seq<string>, sorted: seq<nat>, w: Worklist) {
    var all := sorted + w.stack;
    NoDup(all) && InRange(all, |ts|) &&
    forall k :: 0 <= k < |all| ==> Deg(w.deg, ts[all[k]]) <= 0
  }

  /** The main loop: pop, emit, sweep; `None` when fewer expressions were emitted than exist
      (the source raises `CyclicDependencyError`). */
  function Drain(ts: seq<string>, g: map<string, set<string>>, sorted: seq<nat>, w: Worklist): Option<seq<nat>>
    requires Invariant(ts, sorted, w)
    decreases |ts| - |sorted|
  {
    if w.stack == [] then
      if |sorted| == |ts| then Some(sorted) else None
    else
      var cur := w.stack[|w.stack| - 1];
      var popped := Worklist(w.stack[..|w.stack| - 1], w.deg);
      PopKeepsInvariant(ts, sorted, w);
      SweepKeepsInvariant(ts, g, ts[cur], 0, sorted + [cur], popped);
      Drain(ts, g, sorted + [cur], Sweep(ts, g, ts[cur], 0, popped))
  }

  /** `topological_sort` over targets `ts`, graph `g` and in-degrees `deg`. */
  function TopologicalOrder(ts: seq<string>, g: map<string, set<string>>, deg: map<string, int>): Option<seq<nat>> {
    var start := Worklist(Ready(ts, deg, 0), deg);
    InitialInvariant(ts, deg);
    Drain(ts, g, [], start)
  }

  lemma InitialInvariant(ts: seq<string>, deg: map<string, int>)
    ensures Invariant(ts, [], Worklist(Ready(ts, deg, 0), deg))
  {
    var r := Ready(ts, deg, 0);
    assert [] + r == r;
  }

  lemma PopKeepsInvariant(ts: seq<string>, sorted: seq<nat>, w: Worklist)
    requires Invariant(ts, sorted, w) && w.stack != []
    ensures w.stack[|w.stack| - 1] < |ts| && |sorted| + |w.stack| <= |ts|
    ensures Invariant(ts, sorted + [w.stack[|w.stack| - 1]], Worklist(w.stack[..|w.stack| - 1], w.deg))
  {
    var n := |w.stack|;
    var cur := w.stack[n - 1];
    var before := sorted + w.stack;
    var after := sorted + [cur] + w.stack[..n - 1];
    assert before[|before| - 1] == cur;
    NoDupBound(before, |ts|);
    // `after` moves the last element of `before` to position |sorted|.
    forall a, b | 0 <= a < b < |after| ensures after[a] != after[b] {
      var a' := if a < |sorted| then a else if a == |sorted| then |before| - 1 else a - 1;
      var b' := if b < |sorted| then b else if b == |sorted| then |before| - 1 else b - 1;
      assert after[a] == before[a'] && after[b] == before[b'];
      assert a' != b';
    }
    forall k | 0 <= k < |after| ensures after[k] < |ts| && Deg(w.deg, ts[after[k]]) <= 0 {
      var k' := if k < |sorted| then k else if k == |sorted| then |before| - 1 else k - 1;
      assert after[k] == before[k'];
    }
  }

  lemma StepKeepsInvariant(ts: seq<string>, g: map<string, set<string>>, c: string, j: nat, sorted: seq<nat>, w: Worklist)
    requires j < |ts|
    requires Invariant(ts, sorted, w)
    ensures Invariant(ts, sorted, Step(ts, g, c, j, w))
  {
    if c in Get(g, ts[j]) {
      var d := Deg(w.deg, ts[j]) - 1;
      var w' := Step(ts, g, c, j, w);
      var all := sorted + w.stack;
      var all' := sorted + w'.stack;
      if d == 0 {
        assert all' == all + [j];
        assert forall k :: 0 <= k < |all| ==> all[k] != j;
      }
      forall k | 0 <= k < |all'| ensures Deg(w'.deg, ts[all'[k]]) <= 0 {
        if k < |all| {
          assert all'[k] == all[k];
        }
      }
    }
  }

  lemma {:induction false} SweepKeepsInvariant(ts: seq<string>, g: map<string, set<string>>, c: string, j: nat, sorted: seq<nat>, w: Worklist)
    requires j <= |ts|
    requires Invariant(ts, sorted, w)
    ensures Invariant(ts, sorted, Sweep(ts, g, c, j, w))
    decreases |ts| - j
  {
    if j < |ts| {
      StepKeepsInvariant(ts, g, c, j, sorted, w);
      SweepKeepsInvariant(ts, g, c, j + 1, sorted, Step(ts, g, c, j, w));
    }
  }

  function Elems(s: seq<nat>): set<nat> {
    set x | x in s
  }

  /** The indices `0 .. n-1`, `n` of them. */
  function Below(n: nat): (r: set<nat>)
    ensures forall i: nat :: i in r <==> i < n
    ensures |r| == n
  {
    if n == 0 then {} else Below(n - 1) + {n - 1}
  }

  lemma {:induction false} NoDupCard(s: seq<nat>)
    requires NoDup(s)
    ensures |Elems(s)| == |s|
  {
    if s != [] {
      var init := s[..|s| - 1];
      assert NoDup(init);
      NoDupCard(init);
      assert Elems(s) == Elems(init) + {s[|s| - 1]};
      assert s[|s| - 1] !in Elems(init);
    } else {
      assert Elems(s) == {};
    }
  }

  lemma {:induction false} SubsetCard(a: set<nat>, b: set<nat>)
    requires a <= b
    ensures |a| <= |b|
  {
    if a != {} {
      var x :| x in a;
      SubsetCard(a - {x}, b - {x});
    }
  }

  /** Pigeonhole: distinct indices below `n` are at most `n`. */
  lemma NoDupBound(s: seq<nat>, n: nat)
    requires NoDup(s) && InRange(s, n)
    ensures |s| <= n
  {
    NoDupCard(s);
    SubsetCard(Elems(s), Below(n));
  }

  /** Distinct indices below `n`, `n` of them, are all of `0 .. n-1`. */
  lemma NoDupFull(s: seq<nat>, n: nat)
    requires NoDup(s) && InRange(s, n) && |s| == n
    ensures forall i :: 0 <= i < n ==> i in s
  {
    NoDupCard(s);
    forall i | 0 <= i < n ensures i in s {
      if i !in s {
        assert Elems(s) <= Below(n) - {i};
        SubsetCard(Elems(s), Below(n) - {i});
      }
    }
  }

  /** Python's `len(result) != len(expressions)` check never fires when the sort succeeds:
      the order lists every expression exactly once. */
  lemma TopologicalOrderIsPermutation(ts: seq<string>, g: map<string, set<string>>, deg: map<string, int>)
    ensures TopologicalOrder(ts, g, deg).Some? ==>
      var order := TopologicalOrder(ts, g, deg).value;
      |order| == |ts| && NoDup(order) && InRange(order, |ts|) &&
      forall i :: 0 <= i < |ts| ==> i in order
  {
    InitialInvariant(ts, deg);
    DrainPermutation(ts, g, [], Worklist(Ready(ts, deg, 0), deg));
    if TopologicalOrder(ts, g, deg).Some? {
      NoDupFull(TopologicalOrder(ts, g, deg).value, |ts|);
    }
  }

  lemma {:induction false} DrainPermutation(ts: seq<string>, g: map<string, set<string>>, sorted: seq<nat>, w: Worklist)
    requires Invariant(ts, sorted, w)
    ensures Drain(ts, g, sorted, w).Some? ==>
      var order := Drain(ts, g, sorted, w).value;
      |order| == |ts| && NoDup(order) && InRange(order, |ts|)
    decreases |ts| - |sorted|
  {
    if w.stack == [] {
      assert sorted + w.stack == sorted;
    } else {
      var cur := w.stack[|w.stack| - 1];
      var popped := Worklist(w.stack[..|w.stack| - 1], w.deg);
      assert (sorted + w.stack)[|sorted| + |w.stack| - 1] == cur;
      PopKeepsInvariant(ts, sorted, w);
      SweepKeepsInvariant(ts, g, ts[cur], 0, sorted + [cur], popped);
      NoDupBound(sorted + w.stack, |ts|);
      DrainPermutation(ts, g, sorted + [cur], Sweep(ts, g, ts[cur], 0, popped));
    }
  }

  /** No two expressions assign the same name. */
  ghost predicate DistinctTargets(ts: seq<string>) {
    forall a, b :: 0 <= a < |ts| && 0 <= b < |ts| && a != b ==> ts[a] != ts[b]
  }

  /** Each target's in-degree is the number of distinct names it reads, as `build_graph`
      leaves it when targets are distinct. */
  ghost predicate CountsMatch(ts: seq<string>, g: map<string, set<string>>, deg: map<string, int>) {
    forall j :: 0 <= j < |ts| ==> Deg(deg, ts[j]) == |Get(g, ts[j])|
  }

  /** The targets of the expressions listed in `s`. */
  function Emitted(ts: seq<string>, s: seq<nat>): set<string>
    requires InRange(s, |ts|)
  {
    set p | 0 <= p < |s| :: ts[s[p]]
  }

  lemma EmittedAppend(ts: seq<string>, s: seq<nat>, x: nat)
    requires InRange(s, |ts|) && x < |ts|
    ensures Emitted(ts, s + [x]) == Emitted(ts, s) + {ts[x]}
  {
    var s' := s + [x];
    assert forall p :: 0 <= p < |s| ==> s'[p] == s[p];
    assert s'[|s|] == x;
  }

  /** A set of expressions none of which can ever run first: each reads a name that only
      members of the set assign (or that nothing assigns). */
  ghost predicate Blocked(ts: seq<string>, g: map<string, set<string>>, S: set<nat>) {
    S != {} && (forall j :: j in S ==> j < |ts|) &&
    forall j :: j in S ==> exists d :: d in Get(g, ts[j]) && forall k :: 0 <= k < |ts| && ts[k] == d ==> k in S
  }

  /** Every counter is the number of names its target reads outside `e`. */
  ghost predicate CountsUpTo(ts: seq<string>, g: map<string, set<string>>, e: set<string>, w: Worklist) {
    forall j :: 0 <= j < |ts| ==> Deg(w.deg, ts[j]) == |Get(g, ts[j]) - e|
  }

  /** Every listed expression reads only names in `e`. */
  ghost predicate ReadsWithin(ts: seq<string>, g: map<string, set<string>>, xs: seq<nat>, e: set<string>) {
    forall k :: 0 <= k < |xs| ==> xs[k] < |ts| && Get(g, ts[xs[k]]) <= e
  }

  /** An expression comes after every listed expression whose target it reads. */
  ghost predicate AfterItsReads(ts: seq<string>, g: map<string, set<string>>, xs: seq<nat>)
    requires InRange(xs, |ts|)
  {
    forall p, q :: 0 <= p < |xs| && 0 <= q < |xs| && ts[xs[p]] in Get(g, ts[xs[q]]) ==> p < q
  }

  /** Every expression whose counter is 0 is listed. */
  ghost predicate ZerosListed(ts: seq<string>, w: Worklist, xs: seq<nat>) {
    forall j :: 0 <= j < |ts| && Deg(w.deg, ts[j]) == 0 ==> j in xs
  }

  /** What the main loop keeps when targets are distinct, besides `Invariant`: each counter is
      the number of names its target reads that have not been emitted yet, every emitted or
      waiting expression reads only emitted names, emitted expressions come after the ones
      they read, and every expression whose counter is 0 has been emitted or is waiting. */
  ghost predicate Ordered(ts: seq<string>, g: map<string, set<string>>, sorted: seq<nat>, w: Worklist) {
    InRange(sorted, |ts|) &&
    var e := Emitted(ts, sorted);
    CountsUpTo(ts, g, e, w) && ReadsWithin(ts, g, sorted, e) && AfterItsReads(ts, g, sorted) &&
    ReadsWithin(ts, g, w.stack, e) && ZerosListed(ts, w, sorted + w.stack)
  }

  /** The names seen by expression `k` while sweeping after emitting `c`, at position `j`. */
  function Seen(e: set<string>, c: string, k: nat, j: nat): set<string> {
    if k < j then e + {c} else e
  }

  /** `Ordered` part-way through a sweep after emitting target `c`: expressions before `j` have
      had their counters brought up to date with `c`. */
  ghost predicate SweepState(ts: seq<string>, g: map<string, set<string>>, e: set<string>, c: string, j: nat, sorted: seq<nat>, w: Worklist) {
    j <= |ts| &&
    (forall k :: 0 <= k < |ts| ==> Deg(w.deg, ts[k]) == |Get(g, ts[k]) - Seen(e, c, k, j)|) &&
    ReadsWithin(ts, g, w.stack, e + {c}) && ZerosListed(ts, w, sorted + w.stack)
  }

  /** A step changes no counter but that of expression `j`'s target. */
  lemma StepOthers(ts: seq<string>, g: map<string, set<string>>, c: string, j: nat, w: Worklist)
    requires DistinctTargets(ts) && j < |ts|
    ensures forall k :: 0 <= k < |ts| && k != j ==> Deg(Step(ts, g, c, j, w).deg, ts[k]) == Deg(w.deg, ts[k])
  {
    forall k | 0 <= k < |ts| && k != j
      ensures Deg(Step(ts, g, c, j, w).deg, ts[k]) == Deg(w.deg, ts[k])
    {
      assert ts[k] != ts[j];
    }
  }

  /** A step takes the counter of expression `j` from the names outside `e` to those outside
      `e + {c}`. */
  lemma StepSelf(ts: seq<string>, g: map<string, set<string>>, e: set<string>, c: string, j: nat, w: Worklist)
    requires c !in e && j < |ts|
    requires Deg(w.deg, ts[j]) == |Get(g, ts[j]) - e|
    ensures Deg(Step(ts, g, c, j, w).deg, ts[j]) == |Get(g, ts[j]) - (e + {c})|
  {
    var gj := Get(g, ts[j]);
    if c in gj {
      var rest := (gj - e) - {c};
      assert gj - (e + {c}) == rest;
      assert gj - e == rest + {c};
    } else {
      assert gj - (e + {c}) == gj - e;
    }
  }

  /** The counters after a step: only expression `j`'s target changes, by one when it reads `c`. */
  lemma StepCounts(ts: seq<string>, g: map<string, set<string>>, e: set<string>, c: string, j: nat, w: Worklist)
    requires DistinctTargets(ts) && c !in e && j < |ts|
    requires forall k :: 0 <= k < |ts| ==> Deg(w.deg, ts[k]) == |Get(g, ts[k]) - Seen(e, c, k, j)|
    ensures var w' := Step(ts, g, c, j, w);
      forall k :: 0 <= k < |ts| ==> Deg(w'.deg, ts[k]) == |Get(g, ts[k]) - Seen(e, c, k, j + 1)|
  {
    var w' := Step(ts, g, c, j, w);
    StepOthers(ts, g, c, j, w);
    assert Seen(e, c, j, j) == e;
    StepSelf(ts, g, e, c, j, w);
    forall k | 0 <= k < |ts|
      ensures Deg(w'.deg, ts[k]) == |Get(g, ts[k]) - Seen(e, c, k, j + 1)|
    {
      if k != j {
        assert Seen(e, c, k, j + 1) == Seen(e, c, k, j);
      }
    }
  }

  lemma StepOrdered(ts: seq<string>, g: map<string, set<string>>, e: set<string>, c: string, j: nat, sorted: seq<nat>, w: Worklist)
    requires DistinctTargets(ts) && c !in e && j < |ts|
    requires SweepState(ts, g, e, c, j, sorted, w)
    ensures SweepState(ts, g, e, c, j + 1, sorted, Step(ts, g, c, j, w))
  {
    var w' := Step(ts, g, c, j, w);
    var gj := Get(g, ts[j]);
    StepCounts(ts, g, e, c, j, w);
    if w'.stack != w.stack {
      assert Deg(w'.deg, ts[j]) == |gj - Seen(e, c, j, j + 1)| == 0;
      assert gj - (e + {c}) == {};
    }
    assert ReadsWithin(ts, g, w'.stack, e + {c});
    forall k | 0 <= k < |ts| && Deg(w'.deg, ts[k]) == 0
      ensures k in sorted + w'.stack
    {
      if k != j || c !in gj {
        assert ts[k] != ts[j] ==> Deg(w'.deg, ts[k]) == Deg(w.deg, ts[k]);
        assert k in sorted + w.stack;
      }
    }
  }

  lemma {:induction false} SweepOrdered(ts: seq<string>, g: map<string, set<string>>, e: set<string>, c: string, j: nat, sorted: seq<nat>, w: Worklist)
    requires DistinctTargets(ts) && c !in e
    requires SweepState(ts, g, e, c, j, sorted, w)
    ensures SweepState(ts, g, e, c, |ts|, sorted, Sweep(ts, g, c, j, w))
    decreases |ts| - j
  {
    if j < |ts| {
      StepOrdered(ts, g, e, c, j, sorted, w);
      SweepOrdered(ts, g, e, c, j + 1, sorted, Step(ts, g, c, j, w));
    }
  }

  /** Emitting `cur`, which reads only emitted names and is not emitted itself, keeps the
      emitted sequence in dependency order. */
  lemma ExtendOrder(ts: seq<string>, g: map<string, set<string>>, sorted: seq<nat>, cur: nat, e: set<string>)
    requires InRange(sorted, |ts|) && cur < |ts| && ts[cur] !in e
    requires ReadsWithin(ts, g, sorted, e) && AfterItsReads(ts, g, sorted) && Get(g, ts[cur]) <= e
    ensures InRange(sorted + [cur], |ts|)
    ensures ReadsWithin(ts, g, sorted + [cur], e + {ts[cur]}) && AfterItsReads(ts, g, sorted + [cur])
  {
    var sorted' := sorted + [cur];
    var c := ts[cur];
    forall p, q | 0 <= p < |sorted'| && 0 <= q < |sorted'| && ts[sorted'[p]] in Get(g, ts[sorted'[q]])
      ensures p < q
    {
      if p == |sorted| {
        assert Get(g, ts[sorted'[q]]) <= e;
      } else if q < |sorted| {
        assert sorted'[p] == sorted[p] && sorted'[q] == sorted[q];
      }
    }
  }

  /** Popping the top of the stack lists the same indices. */
  lemma PopZeros(ts: seq<string>, sorted: seq<nat>, w: Worklist)
    requires w.stack != [] && ZerosListed(ts, w, sorted + w.stack)
    ensures var n := |w.stack|;
      ZerosListed(ts, Worklist(w.stack[..n - 1], w.deg), sorted + [w.stack[n - 1]] + w.stack[..n - 1])
  {
    var n := |w.stack|;
    var popped := w.stack[..n - 1];
    var cur := w.stack[n - 1];
    assert w.stack == popped + [cur];
    forall k | 0 <= k < |ts| && Deg(w.deg, ts[k]) == 0 ensures k in sorted + [cur] + popped {
      assert k in sorted + w.stack;
    }
  }

  /** The sweep starts from the popped state. */
  lemma SweepStart(ts: seq<string>, g: map<string, set<string>>, e: set<string>, sorted: seq<nat>, w: Worklist)
    requires w.stack != [] && InRange(w.stack, |ts|)
    requires CountsUpTo(ts, g, e, w) && ReadsWithin(ts, g, w.stack, e) && ZerosListed(ts, w, sorted + w.stack)
    ensures var cur := w.stack[|w.stack| - 1];
      SweepState(ts, g, e, ts[cur], 0, sorted + [cur], Worklist(w.stack[..|w.stack| - 1], w.deg))
  {
    var n := |w.stack|;
    var cur := w.stack[n - 1];
    var c := ts[cur];
    var popped := Worklist(w.stack[..n - 1], w.deg);
    assert forall k :: 0 <= k < |ts| ==> Deg(popped.deg, ts[k]) == |Get(g, ts[k]) - Seen(e, c, k, 0)| by {
      forall k | 0 <= k < |ts| ensures Seen(e, c, k, 0) == e {
      }
    }
    assert ReadsWithin(ts, g, popped.stack, e + {c}) by {
      assert forall k :: 0 <= k < |popped.stack| ==> popped.stack[k] == w.stack[k];
    }
    PopZeros(ts, sorted, w);
  }

  /** The sweep ends with every counter up to date with the newly emitted target. */
  lemma SweepEnd(ts: seq<string>, g: map<string, set<string>>, e: set<string>, c: string, sorted: seq<nat>, w: Worklist)
    requires SweepState(ts, g, e, c, |ts|, sorted, w)
    ensures CountsUpTo(ts, g, e + {c}, w) && ReadsWithin(ts, g, w.stack, e + {c}) && ZerosListed(ts, w, sorted + w.stack)
  {
    forall k | 0 <= k < |ts| ensures Seen(e, c, k, |ts|) == e + {c} {
    }
  }

  /** With distinct targets, the target on top of the stack has not been emitted. */
  lemma NotYetEmitted(ts: seq<string>, sorted: seq<nat>, w: Worklist)
    requires DistinctTargets(ts) && Invariant(ts, sorted, w) && w.stack != []
    ensures InRange(sorted, |ts|) && w.stack[|w.stack| - 1] < |ts|
    ensures ts[w.stack[|w.stack| - 1]] !in Emitted(ts, sorted)
  {
    var all := sorted + w.stack;
    var last := |all| - 1;
    assert all[last] == w.stack[|w.stack| - 1];
    forall p | 0 <= p < |sorted| ensures sorted[p] < |ts| && ts[sorted[p]] != ts[all[last]] {
      assert all[p] == sorted[p];
      assert all[p] != all[last];
    }
  }

  /** One round of the main loop keeps `Ordered`. */
  lemma RoundOrdered(ts: seq<string>, g: map<string, set<string>>, sorted: seq<nat>, w: Worklist)
    requires DistinctTargets(ts)
    requires Invariant(ts, sorted, w) && Ordered(ts, g, sorted, w) && w.stack != []
    ensures var cur := w.stack[|w.stack| - 1];
      cur < |ts| &&
      var w2 := Sweep(ts, g, ts[cur], 0, Worklist(w.stack[..|w.stack| - 1], w.deg));
      Invariant(ts, sorted + [cur], w2) && Ordered(ts, g, sorted + [cur], w2)
  {
    var n := |w.stack|;
    var cur := w.stack[n - 1];
    var c := ts[cur];
    var e := Emitted(ts, sorted);
    var popped := Worklist(w.stack[..n - 1], w.deg);
    var sorted' := sorted + [cur];
    PopKeepsInvariant(ts, sorted, w);
    SweepKeepsInvariant(ts, g, c, 0, sorted', popped);
    NotYetEmitted(ts, sorted, w);
    SweepStart(ts, g, e, sorted, w);
    SweepOrdered(ts, g, e, c, 0, sorted', popped);
    var w2 := Sweep(ts, g, c, 0, popped);
    SweepEnd(ts, g, e, c, sorted', w2);
    EmittedAppend(ts, sorted, cur);
    assert Get(g, ts[cur]) <= e by {
      assert w.stack[n - 1] == cur;
    }
    ExtendOrder(ts, g, sorted, cur, e);
  }

  /** When the stack runs dry before every expression is emitted, the rest are blocked. */
  lemma DryOrdered(ts: seq<string>, g: map<string, set<string>>, sorted: seq<nat>, w: Worklist)
    requires Invariant(ts, sorted, w) && Ordered(ts, g, sorted, w)
    requires w.stack == [] && |sorted| != |ts|
    ensures exists S :: Blocked(ts, g, S)
  {
    var e := Emitted(ts, sorted);
    assert sorted + w.stack == sorted;
    NoDupBound(sorted, |ts|);
    var j0 := MissingIndex(sorted, |ts|);
    var S := set j | 0 <= j < |ts| && j !in sorted;
    assert j0 in S;
    forall j | j in S
      ensures exists d :: d in Get(g, ts[j]) && forall k :: 0 <= k < |ts| && ts[k] == d ==> k in S
    {
      assert Deg(w.deg, ts[j]) != 0;
      assert Get(g, ts[j]) - e != {};
      var d :| d in Get(g, ts[j]) - e;
      forall k | 0 <= k < |ts| && ts[k] == d ensures k in S {
        NotEmittedNotListed(ts, sorted, k);
      }
    }
    assert Blocked(ts, g, S);
  }

  /** An index whose target has not been emitted is not among the emitted indices. */
  lemma NotEmittedNotListed(ts: seq<string>, s: seq<nat>, k: nat)
    requires InRange(s, |ts|) && k < |ts| && ts[k] !in Emitted(ts, s)
    ensures k !in s
  {
    forall p | 0 <= p < |s| ensures s[p] != k {
      assert ts[s[p]] in Emitted(ts, s);
    }
  }

  lemma {:induction false} DrainOrdered(ts: seq<string>, g: map<string, set<string>>, sorted: seq<nat>, w: Worklist)
    requires DistinctTargets(ts)
    requires Invariant(ts, sorted, w) && Ordered(ts, g, sorted, w)
    ensures Drain(ts, g, sorted, w).Some? ==>
      var order := Drain(ts, g, sorted, w).value;
      InRange(order, |ts|) && ReadsWithin(ts, g, order, Emitted(ts, order)) && AfterItsReads(ts, g, order)
    ensures Drain(ts, g, sorted, w).None? ==> exists S :: Blocked(ts, g, S)
    decreases |ts| - |sorted|
  {
    if w.stack == [] {
      assert sorted + w.stack == sorted;
      if |sorted| != |ts| {
        DryOrdered(ts, g, sorted, w);
      }
    } else {
      var cur := w.stack[|w.stack| - 1];
      var popped := Worklist(w.stack[..|w.stack| - 1], w.deg);
      RoundOrdered(ts, g, sorted, w);
      PopKeepsInvariant(ts, sorted, w);
      DrainOrdered(ts, g, sorted + [cur], Sweep(ts, g, ts[cur], 0, popped));
    }
  }

  lemma MissingIndex(s: seq<nat>, n: nat) returns (j: nat)
    requires NoDup(s) && |s| < n
    ensures j < n && j !in s
  {
    NoDupCard(s);
    if forall i :: 0 <= i < n ==> i in s {
      assert Below(n) <= Elems(s);
      SubsetCard(Below(n), Elems(s));
    }
    j :| j < n && j !in s;
  }

  lemma InitialOrdered(ts: seq<string>, g: map<string, set<string>>, deg: map<string, int>)
    requires CountsMatch(ts, g, deg)
    ensures Invariant(ts, [], Worklist(Ready(ts, deg, 0), deg))
    ensures Ordered(ts, g, [], Worklist(Ready(ts, deg, 0), deg))
  {
    var w := Worklist(Ready(ts, deg, 0), deg);
    InitialInvariant(ts, deg);
    assert Emitted(ts, []) == {};
    assert [] + w.stack == w.stack;
    forall k | 0 <= k < |w.stack| ensures Get(g, ts[w.stack[k]]) <= {} {
      assert |Get(g, ts[w.stack[k]])| == 0;
    }
  }

  /** With distinct targets, a successful sort puts every expression after the expressions
      that assign the names it reads. */
  lemma TopologicalOrderRespectsDependencies(ts: seq<string>, g: map<string, set<string>>, deg: map<string, int>)
    requires DistinctTargets(ts) && CountsMatch(ts, g, deg)
    ensures TopologicalOrder(ts, g, deg).Some? ==>
      var order := TopologicalOrder(ts, g, deg).value;
      InRange(order, |ts|) &&
      forall p, q :: 0 <= p < |order| && 0 <= q < |order| && ts[order[p]] in Get(g, ts[order[q]]) ==> p < q
  {
    InitialOrdered(ts, g, deg);
    DrainOrdered(ts, g, [], Worklist(Ready(ts, deg, 0), deg));
  }

  /** With distinct targets, the sort fails exactly when some non-empty set of expressions is
      blocked: each reads a name assigned only inside the set (for a graph whose names are all
      assigned, that is a dependency cycle). */
  lemma TopologicalOrderFailsIffBlocked(ts: seq<string>, g: map<string, set<string>>, deg: map<string, int>)
    requires DistinctTargets(ts) && CountsMatch(ts, g, deg)
    ensures TopologicalOrder(ts, g, deg).None? <==> exists S :: Blocked(ts, g, S)
  {
    InitialOrdered(ts, g, deg);
    DrainOrdered(ts, g, [], Worklist(Ready(ts, deg, 0), deg));
    if TopologicalOrder(ts, g, deg).Some? {
      TopologicalOrderIsPermutation(ts, g, deg);
      var order := TopologicalOrder(ts, g, deg).value;
      forall S | Blocked(ts, g, S) ensures false {
        CompleteOrderUnblocked(ts, g, order, S);
      }
    }
  }

  /** An order listing every expression, each after the expressions whose targets it reads and
      reading only listed targets, leaves no set blocked. */
  lemma CompleteOrderUnblocked(ts: seq<string>, g: map<string, set<string>>, order: seq<nat>, S: set<nat>)
    requires InRange(order, |ts|) && forall i :: 0 <= i < |ts| ==> i in order
    requires ReadsWithin(ts, g, order, Emitted(ts, order)) && AfterItsReads(ts, g, order)
    ensures !Blocked(ts, g, S)
  {
    if Blocked(ts, g, S) {
      var j :| j in S;
      assert j < |ts| && j in order;
      var p :| 0 <= p < |order| && order[p] == j;
      NotBlockedAt(ts, g, order, S, p);
    }
  }

  /** No member of a blocked set appears in a successful order: induction on the position. */
  lemma {:induction false} NotBlockedAt(ts: seq<string>, g: map<string, set<string>>, order: seq<nat>, S: set<nat>, p: nat)
    requires InRange(order, |ts|) && p < |order|
    requires ReadsWithin(ts, g, order, Emitted(ts, order)) && AfterItsReads(ts, g, order)
    requires Blocked(ts, g, S)
    ensures order[p] !in S
    decreases p
  {
    if order[p] in S {
      var d :| d in Get(g, ts[order[p]]) && forall k :: 0 <= k < |ts| && ts[k] == d ==> k in S;
      assert d in Emitted(ts, order);
      var p' :| 0 <= p' < |order| && ts[order[p']] == d;
      assert p' < p;
      NotBlockedAt(ts, g, order, S, p');
    }
  }
}
