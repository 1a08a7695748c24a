/** The greedy level packing of `DependencyGraph.get_expression_levels`
    (src/dependency_graph.py:103-129), as functions over expression indices.

    The sorted expressions are visited in order; an expression that reads a name whose target
    (`_get_target` of the name) is the target of an expression already in the current level
    closes that level and opens the next one. Level `i` of the result is key `i` of the
    source's dictionary.

    `key` is the function the conflict test applies to each dependency name; the dependency
    graph passes `Extract.Target`, as the source applies `_get_target` to the names. */
module Levels {
  import opened TopoSort

  /** `any(_get_target(dep) in [targets of current] for dep in graph[target of x])`. */
  predicate Conflicts(ts: seq<string>, g: map<string, set<string>>, key: string -> string, x: nat, current: seq<nat>)
    requires x < |ts| && InRange(current, |ts|)
  {
    exists d, k :: d in Get(g, ts[x]) && 0 <= k < |current| && key(d) == ts[current[k]]
  }

  /** The loop over the sorted expressions, with the closed levels and the open one. */
  function Pack(ts: seq<string>, g: map<string, set<string>>, key: string -> string, order: seq<nat>, levels: seq<seq<nat>>, current: seq<nat>): seq<seq<nat>>
    requires InRange(order, |ts|) && InRange(current, |ts|)
    decreases |order|
  {
    if order == [] then
      if current != [] then levels + [current] else levels
    else
      var x := order[0];
      if Conflicts(ts, g, key, x, current) && current != [] then
        Pack(ts, g, key, order[1..], levels + [current], [x])
      else
        Pack(ts, g, key, order[1..], levels, current + [x])
  }

  /** `get_expression_levels` after a successful sort producing `order`. */
  function LevelsOf(ts: seq<string>, g: map<string, set<string>>, key: string -> string, order: seq<nat>): seq<seq<nat>>
    requires InRange(order, |ts|)
  {
    Pack(ts, g, key, order, [], [])
  }

  /** The levels laid end to end. */
  function Flatten<T>(levels: seq<seq<T>>): (r: seq<T>)
    ensures |levels| == 0 ==> r == []
  {
    if levels == [] then [] else levels[0] + Flatten(levels[1..])
  }

  /** No member of a level reads the target of an earlier member of the same level. */
  ghost predicate Independent(ts: seq<string>, g: map<string, set<string>>, key: string -> string, level: seq<nat>)
    requires InRange(level, |ts|)
  {
    forall a, b, d :: 0 <= a < b < |level| && d in Get(g, ts[level[b]]) ==> key(d) != ts[level[a]]
  }

  /** Each level after the first opened because its first member reads a target of the level
      before it: no two consecutive levels could have been merged by the greedy rule. */
  ghost predicate Greedy(ts: seq<string>, g: map<string, set<string>>, key: string -> string, levels: seq<seq<nat>>) {
    forall i, j {:trigger levels[i], levels[j]} :: 0 <= i && j == i + 1 && j < |levels| ==>
      InRange(levels[i], |ts|) && |levels[j]| > 0 && levels[j][0] < |ts| &&
      Conflicts(ts, g, key, levels[j][0], levels[i])
  }

  lemma FlattenAppend<T>(levels: seq<seq<T>>, last: seq<T>)
    ensures Flatten(levels + [last]) == Flatten(levels) + last
  {
    if levels != [] {
      assert (levels + [last])[1..] == levels[1..] + [last];
      FlattenAppend(levels[1..], last);
    } else {
      assert Flatten([last]) == last + Flatten([]);
    }
  }

  /** Closed levels: each non-empty and independent, each after the first opened by a conflict. */
  ghost predicate Packed(ts: seq<string>, g: map<string, set<string>>, key: string -> string, levels: seq<seq<nat>>) {
    (forall i :: 0 <= i < |levels| ==> InRange(levels[i], |ts|) && levels[i] != [] && Independent(ts, g, key, levels[i])) &&
    Greedy(ts, g, key, levels)
  }

  /** The closed levels and the open one during the loop. */
  ghost predicate PackState(ts: seq<string>, g: map<string, set<string>>, key: string -> string, levels: seq<seq<nat>>, current: seq<nat>) {
    Packed(ts, g, key, levels) && InRange(current, |ts|) && Independent(ts, g, key, current) &&
    (current == [] ==> levels == []) &&
    (current != [] && |levels| > 0 ==> Conflicts(ts, g, key, current[0], levels[|levels| - 1]))
  }

  /** Closing a non-empty open level keeps the closed levels packed. */
  lemma CloseLevel(ts: seq<string>, g: map<string, set<string>>, key: string -> string, levels: seq<seq<nat>>, current: seq<nat>)
    requires PackState(ts, g, key, levels, current) && current != []
    ensures Packed(ts, g, key, levels + [current])
  {
    var levels' := levels + [current];
    forall i | 0 <= i < |levels'|
      ensures InRange(levels'[i], |ts|) && levels'[i] != [] && Independent(ts, g, key, levels'[i])
    {
      if i < |levels| {
        assert levels'[i] == levels[i];
      }
    }
    CloseGreedy(ts, g, key, levels, current);
  }

  lemma CloseGreedy(ts: seq<string>, g: map<string, set<string>>, key: string -> string, levels: seq<seq<nat>>, current: seq<nat>)
    requires PackState(ts, g, key, levels, current) && current != []
    ensures Greedy(ts, g, key, levels + [current])
  {
    var levels' := levels + [current];
    forall i, j | 0 <= i && j == i + 1 && j < |levels'|
      ensures InRange(levels'[i], |ts|) && |levels'[j]| > 0 && levels'[j][0] < |ts| &&
              Conflicts(ts, g, key, levels'[j][0], levels'[i])
    {
      assert levels'[i] == levels[i];
      if j < |levels| {
        assert levels'[j] == levels[j];
      } else {
        assert levels'[j] == current;
      }
    }
  }

  /** Opening a level with `x`, which reads a target of the level just closed. */
  lemma OpenLevel(ts: seq<string>, g: map<string, set<string>>, key: string -> string, levels: seq<seq<nat>>, current: seq<nat>, x: nat)
    requires Packed(ts, g, key, levels + [current]) && x < |ts| && InRange(current, |ts|) && Conflicts(ts, g, key, x, current)
    ensures PackState(ts, g, key, levels + [current], [x])
  {
    assert (levels + [current])[|levels|] == current;
  }

  /** Adding `x`, which reads no target of the open level, to that level keeps the packing state. */
  lemma ExtendLevel(ts: seq<string>, g: map<string, set<string>>, key: string -> string, levels: seq<seq<nat>>, current: seq<nat>, x: nat)
    requires PackState(ts, g, key, levels, current) && x < |ts| && !(Conflicts(ts, g, key, x, current) && current != [])
    ensures PackState(ts, g, key, levels, current + [x])
  {
    var current' := current + [x];
    assert InRange(current', |ts|);
    forall a, b, d | 0 <= a < b < |current'| && d in Get(g, ts[current'[b]])
      ensures key(d) != ts[current'[a]]
    {
      assert current'[a] == current[a];
      if b < |current| {
        assert current'[b] == current[b];
      } else {
        assert !Conflicts(ts, g, key, x, current);
      }
    }
  }

  lemma {:induction false} PackKeeps(ts: seq<string>, g: map<string, set<string>>, key: string -> string, order: seq<nat>, levels: seq<seq<nat>>, current: seq<nat>)
    requires InRange(order, |ts|) && PackState(ts, g, key, levels, current)
    ensures Packed(ts, g, key, Pack(ts, g, key, order, levels, current))
    decreases |order|
  {
    if order == [] {
      if current != [] {
        CloseLevel(ts, g, key, levels, current);
      }
    } else {
      var x := order[0];
      if Conflicts(ts, g, key, x, current) && current != [] {
        CloseLevel(ts, g, key, levels, current);
        OpenLevel(ts, g, key, levels, current, x);
        PackKeeps(ts, g, key, order[1..], levels + [current], [x]);
      } else {
        ExtendLevel(ts, g, key, levels, current, x);
        PackKeeps(ts, g, key, order[1..], levels, current + [x]);
      }
    }
  }

  lemma Regroup(f: seq<nat>, current: seq<nat>, x: nat, rest: seq<nat>)
    ensures f + current + [x] + rest == f + current + ([x] + rest)
    ensures f + (current + [x]) + rest == f + current + ([x] + rest)
  {
  }

  lemma {:induction false} PackFlatten(ts: seq<string>, g: map<string, set<string>>, key: string -> string, order: seq<nat>, levels: seq<seq<nat>>, current: seq<nat>)
    requires InRange(order, |ts|) && InRange(current, |ts|)
    ensures Flatten(Pack(ts, g, key, order, levels, current)) == Flatten(levels) + current + order
    decreases |order|
  {
    if order == [] {
      if current != [] {
        FlattenAppend(levels, current);
      }
    } else {
      var x := order[0];
      var rest := order[1..];
      assert order == [x] + rest;
      Regroup(Flatten(levels), current, x, rest);
      if Conflicts(ts, g, key, x, current) && current != [] {
        PackFlatten(ts, g, key, rest, levels + [current], [x]);
        FlattenAppend(levels, current);
      } else {
        assert InRange(current + [x], |ts|);
        PackFlatten(ts, g, key, rest, levels, current + [x]);
      }
    }
  }

  /** The levels are non-empty, laid end to end they give the sorted order back, each is free
      of reads of its own earlier members' targets, and each after the first was opened by a
      conflict with the one before. */
  lemma LevelsPartitionOrder(ts: seq<string>, g: map<string, set<string>>, key: string -> string, order: seq<nat>)
    requires InRange(order, |ts|)
    ensures var levels := LevelsOf(ts, g, key, order);
      Flatten(levels) == order && Packed(ts, g, key, levels)
  {
    EmptyPackState(ts, g, key);
    PackKeeps(ts, g, key, order, [], []);
    PackFlatten(ts, g, key, order, [], []);
    assert Flatten<nat>([]) + [] + order == order;
  }

  /** The loop starts with no levels and an empty open level. */
  lemma EmptyPackState(ts: seq<string>, g: map<string, set<string>>, key: string -> string)
    ensures PackState(ts, g, key, [], [])
  {
  }

  /** Where member `p` of level `i` sits in the flattened levels. */
  lemma {:induction false} FlattenAt<T>(levels: seq<seq<T>>, i: nat, p: nat)
    requires i < |levels| && p < |levels[i]|
    ensures |Flatten(levels[..i])| + p < |Flatten(levels)|
    ensures Flatten(levels)[|Flatten(levels[..i])| + p] == levels[i][p]
  {
    if i == 0 {
      assert levels[..0] == [];
    } else {
      assert levels[..i][1..] == levels[1..][..i - 1];
      FlattenAt(levels[1..], i - 1, p);
    }
  }

  /** Earlier levels occupy a prefix of the flattened levels. */
  lemma {:induction false} FlattenPrefix<T>(levels: seq<seq<T>>, i: nat, j: nat)
    requires i < j <= |levels|
    ensures |Flatten(levels[..i])| + |levels[i]| <= |Flatten(levels[..j])|
  {
    if i == 0 {
      assert levels[..0] == [];
      assert levels[..j][1..] == levels[1..][..j - 1];
      assert Flatten(levels[..j]) == levels[0] + Flatten(levels[1..][..j - 1]);
    } else {
      assert levels[..i][1..] == levels[1..][..i - 1];
      assert levels[..j][1..] == levels[1..][..j - 1];
      FlattenPrefix(levels[1..], i - 1, j - 1);
    }
  }

  /** Where member `p` of level `i` sits in the order the levels flatten to. */
  lemma PositionOf(levels: seq<seq<nat>>, order: seq<nat>, i: nat, p: nat) returns (pos: nat)
    requires Flatten(levels) == order && i < |levels| && p < |levels[i]|
    ensures pos == |Flatten(levels[..i])| + p && pos < |order| && order[pos] == levels[i][p]
  {
    FlattenAt(levels, i, p);
    pos := |Flatten(levels[..i])| + p;
  }

  /** One pair of members of the levels: the one whose target is read sits in an earlier level. */
  lemma LevelPairOrdered(ts: seq<string>, g: map<string, set<string>>, key: string -> string, order: seq<nat>, levels: seq<seq<nat>>, i: nat, j: nat, p: nat, q: nat)
    requires InRange(order, |ts|) && Flatten(levels) == order
    requires forall p, q :: 0 <= p < |order| && 0 <= q < |order| && ts[order[p]] in Get(g, ts[order[q]]) ==> p < q
    requires forall k :: 0 <= k < |ts| ==> key(ts[k]) == ts[k]
    requires i < |levels| && j < |levels| && p < |levels[i]| && q < |levels[j]|
    requires InRange(levels[i], |ts|) && Independent(ts, g, key, levels[i])
    requires levels[i][p] < |ts| && levels[j][q] < |ts| && ts[levels[i][p]] in Get(g, ts[levels[j][q]])
    ensures i < j
  {
    var P := PositionOf(levels, order, i, p);
    var Q := PositionOf(levels, order, j, q);
    assert P < Q;
    if i == j {
      assert false;
    } else if j < i {
      FlattenPrefix(levels, j, i);
      assert false;
    }
  }

  /** When the order puts every expression after those whose targets it reads, and targets are
      their own targets, an expression lands in a strictly later level than every expression
      whose target it reads: every level can run on the state left by the levels before it. */
  lemma LevelsRespectDependencies(ts: seq<string>, g: map<string, set<string>>, key: string -> string, order: seq<nat>)
    requires InRange(order, |ts|)
    requires forall p, q :: 0 <= p < |order| && 0 <= q < |order| && ts[order[p]] in Get(g, ts[order[q]]) ==> p < q
    requires forall k :: 0 <= k < |ts| ==> key(ts[k]) == ts[k]
    ensures var levels := LevelsOf(ts, g, key, order);
      forall i, j, p, q ::
        0 <= i < |levels| && 0 <= j < |levels| && 0 <= p < |levels[i]| && 0 <= q < |levels[j]| &&
        levels[i][p] < |ts| && levels[j][q] < |ts| && ts[levels[i][p]] in Get(g, ts[levels[j][q]])
        ==> i < j
  {
    var levels := LevelsOf(ts, g, key, order);
    LevelsPartitionOrder(ts, g, key, order);
    forall i, j, p, q |
        0 <= i < |levels| && 0 <= j < |levels| && 0 <= p < |levels[i]| && 0 <= q < |levels[j]| &&
        levels[i][p] < |ts| && levels[j][q] < |ts| && ts[levels[i][p]] in Get(g, ts[levels[j][q]])
      ensures i < j
    {
      LevelPairOrdered(ts, g, key, order, levels, i, j, p, q);
    }
  }
}
