/** `ExpressionSimplifier` of src/expression_simplifier.py: parse one assignment and rewrite
    compound and `++` forms into plain assignments through a chain of five handlers.

    The two regular expressions of the rewriting loops, `\+\+(\w+)` and `(\w+)\+\+`, and the
    compound pattern of `parse_expression` are written out as leftmost-match functions. */
module ExpressionSimplifier {
  import opened Wrappers
  import opened Text

  /** The `Expression` dataclass. `operator` is `None` for a plain `=`. */
  datatype Expression = Expression(target: string, operator: Option<string>, value: string, original: string)

  /** The `ValueError` `parse_expression` raises for a string without `=`. */
  datatype SimplifyError = InvalidFormat(expression: string)

  /** The operators the compound pattern and the simple and compound handlers look for. */
  const CompoundOperators: set<string> := {"+=", "-=", "*=", "/="}

  /** Whether some compound operator occurs anywhere in `s`. */
  predicate HasCompoundOperator(s: string) {
    Contains(s, "+=") || Contains(s, "-=") || Contains(s, "*=") || Contains(s, "/=")
  }

  // ---------------------------------------------------------------------------------------
  // parse_expression

  /** The length of the run of characters other than a line break starting at `i` (a greedy
      `.+` or `.*`). */
  function LineRun(s: string, i: nat): (n: nat)
    requires i <= |s|
    ensures i + n <= |s|
    decreases |s| - i
  {
    if i < |s| && s[i] != '\n' then 1 + LineRun(s, i + 1) else 0
  }

  /** Backtracking of `\s*` before `(.+)` when the greedy run reached the end of the string:
      the last position in `[k, m)` that is not a line break, where `.+` can start. */
  function LastLineStart(s: string, k: nat, m: nat): (r: Option<nat>)
    requires k <= m <= |s|
    ensures r.Some? ==> k <= r.value < m && s[r.value] != '\n'
    decreases m
  {
    if m == k then None
    else if s[m - 1] != '\n' then Some(m - 1)
    else LastLineStart(s, k, m - 1)
  }

  /** `re.match(r'(\w+)\s*(\+=|-=|\*=|/=)\s*(.+)', s)`: the three groups, when it matches.
      A `\w+` followed by a non-word character cannot backtrack to a shorter run, so the word
      is the whole leading run. */
  function CompoundMatch(s: string): Option<(string, string, string)> {
    var w := WordRun(s, 0);
    var j := w + SpaceRun(s, w);
    if w == 0 || j + 2 > |s| || s[j..j + 2] !in CompoundOperators then None
    else
      var k := j + 2;
      var m := k + SpaceRun(s, k);
      if m < |s| then Some((s[..w], s[j..j + 2], s[m..m + LineRun(s, m)]))
      else
        match LastLineStart(s, k, m)
        case None => None
        case Some(p) => Some((s[..w], s[j..j + 2], s[p..p + LineRun(s, p)]))
  }

  /** `parse_expression`: a compound assignment, else a split at the first `=`, else
      `ValueError`. The compound target is a `\w+` run, which `strip` leaves as it is. */
  function Parse(s: string): Result<Expression, SimplifyError> {
    match CompoundMatch(s)
    case Some((target, op, value)) => Success(Expression(target, Some(op), Strip(value), s))
    case None =>
      var i := IndexOf(s, '=');
      if i < |s| then Success(Expression(Strip(s[..i]), None, Strip(s[i + 1..]), s))
      else Failure(InvalidFormat(s))
  }

  // ---------------------------------------------------------------------------------------
  // The rewriting loops

  /** The line that increments `v`. */
  function Increment(v: string): string {
    v + " = " + v + " + 1"
  }

  /** `re.search(r'\+\+(\w+)', s)` from position `p` on: the leftmost start of `++` followed
      by a word character. */
  function PreMatchFrom(s: string, p: nat): (r: Option<nat>)
    requires p <= |s|
    ensures r.Some? ==> p <= r.value && r.value + 3 <= |s|
    ensures r.Some? ==> s[r.value] == '+' && s[r.value + 1] == '+' && IsWordChar(s[r.value + 2])
    decreases |s| - p
  {
    if p + 3 > |s| then None
    else if s[p] == '+' && s[p + 1] == '+' && IsWordChar(s[p + 2]) then Some(p)
    else PreMatchFrom(s, p + 1)
  }

  /** `re.search(r'(\w+)\+\+', s)` from position `p` on: the leftmost start of a word run
      that `++` follows. */
  function PostMatchFrom(s: string, p: nat): (r: Option<nat>)
    requires p <= |s|
    ensures r.Some? ==> p <= r.value < |s| && 0 < WordRun(s, r.value) && r.value + WordRun(s, r.value) + 2 <= |s|
    ensures r.Some? ==> s[r.value + WordRun(s, r.value)] == '+' && s[r.value + WordRun(s, r.value) + 1] == '+'
    decreases |s| - p
  {
    if p >= |s| then None
    else
      var w := WordRun(s, p);
      if 0 < w && p + w + 2 <= |s| && s[p + w] == '+' && s[p + w + 1] == '+' then Some(p)
      else PostMatchFrom(s, p + 1)
  }

  /** The loop `while '++' in value` over `\+\+(\w+)`, from the state `(value, increments)`:
      each matched `++v` is replaced by `v` and the line incrementing `v` is appended. A match
      holds `++`, so the loop test adds nothing to the stop on a failed search
      (`NoPlusPlusNoPreMatch`). */
  function PreLoop(value: string, increments: seq<string>): (string, seq<string>)
    decreases |value|
  {
    match PreMatchFrom(value, 0)
    case None => (value, increments)
    case Some(p) => PreLoop(PreCut(value, p), increments + [Increment(PreWord(value, p))])
  }

  /** The word after the `++` at `p`. */
  function PreWord(value: string, p: nat): string
    requires p + 2 <= |value|
  {
    value[p + 2..p + 2 + WordRun(value, p + 2)]
  }

  /** `value` without the `++` at `p`. */
  function PreCut(value: string, p: nat): (r: string)
    requires p + 2 <= |value|
    ensures |r| + 2 == |value|
  {
    value[..p] + value[p + 2..]
  }

  /** The loop `while '++' in value` over `(\w+)\+\+`, from the state `(value, increments)`:
      each matched `v++` is replaced by `v` and the line incrementing `v` is appended; as for
      `PreLoop`, the stop on a failed search covers the loop test. */
  function PostLoop(value: string, increments: seq<string>): (string, seq<string>)
    decreases |value|
  {
    match PostMatchFrom(value, 0)
    case None => (value, increments)
    case Some(p) => PostLoop(PostCut(value, p), increments + [Increment(PostWord(value, p))])
  }

  /** The word at `p`, before its `++`. */
  function PostWord(value: string, p: nat): string
    requires p <= |value|
  {
    value[p..p + WordRun(value, p)]
  }

  /** `value` without the `++` after the word at `p`. */
  function PostCut(value: string, p: nat): (r: string)
    requires p <= |value| && p + WordRun(value, p) + 2 <= |value|
    ensures |r| + 2 == |value|
  {
    value[..p + WordRun(value, p)] + value[p + WordRun(value, p) + 2..]
  }

  /** The `++v` loop from the handler's starting state: the rewritten value and the
      increments, in order. */
  function PreRewrite(value: string): (string, seq<string>) {
    PreLoop(value, [])
  }

  /** The `v++` loop from the handler's starting state. */
  function PostRewrite(value: string): (string, seq<string>) {
    PostLoop(value, [])
  }

  /** A non-empty run of word characters. */
  predicate IsWordString(v: string) {
    |v| > 0 && forall i :: 0 <= i < |v| ==> IsWordChar(v[i])
  }

  /** A line `v = v + 1` for a non-empty word `v`. */
  ghost predicate IsIncrement(line: string) {
    exists v :: IsWordString(v) && line == Increment(v)
  }

  /** The increments the `++v` loop appends: it keeps those it started with, removes exactly
      two characters per appended line, appends only increments of non-empty words, and stops
      with no `++v` left. */
  lemma {:induction false} PreLoopSpec(value: string, increments: seq<string>)
    ensures |PreLoop(value, increments).0| + 2 * |PreLoop(value, increments).1| == |value| + 2 * |increments|
    ensures PreMatchFrom(PreLoop(value, increments).0, 0) == None
    ensures Appended(increments, PreLoop(value, increments).1)
    decreases |value|
  {
    var m := PreMatchFrom(value, 0);
    if m.None? {
      PreLoopDone(value, increments);
      AppendedNothing(increments);
    } else {
      var p := m.value;
      var v := PreWord(value, p);
      var next := PreCut(value, p);
      WordSlice(value, p + 2);
      PreLoopStep(value, increments, p, v, next);
      PreLoopSpec(next, increments + [Increment(v)]);
      LoopCombine(value, increments, v, next, PreLoop(next, increments + [Increment(v)]));
    }
  }

  /** The `v++` loop keeps the increments it started with, removes exactly two characters
      per appended line, appends only increments of non-empty words, and stops with no
      `v++` left. */
  lemma {:induction false} PostLoopSpec(value: string, increments: seq<string>)
    ensures |PostLoop(value, increments).0| + 2 * |PostLoop(value, increments).1| == |value| + 2 * |increments|
    ensures PostMatchFrom(PostLoop(value, increments).0, 0) == None
    ensures Appended(increments, PostLoop(value, increments).1)
    decreases |value|
  {
    var m := PostMatchFrom(value, 0);
    if m.None? {
      PostLoopDone(value, increments);
      AppendedNothing(increments);
    } else {
      var p := m.value;
      var v := PostWord(value, p);
      var next := PostCut(value, p);
      WordSlice(value, p);
      PostLoopStep(value, increments, p, v, next);
      PostLoopSpec(next, increments + [Increment(v)]);
      LoopCombine(value, increments, v, next, PostLoop(next, increments + [Increment(v)]));
    }
  }

  /** One pass of either loop, from `value` to `next`, two characters shorter, and the rest
      of the loop from there: what the rest keeps holds from `value`. */
  lemma LoopCombine(value: string, increments: seq<string>, v: string, next: string, r: (string, seq<string>))
    requires |next| + 2 == |value| && IsWordString(v)
    requires |r.0| + 2 * |r.1| == |next| + 2 * |increments + [Increment(v)]|
    requires Appended(increments + [Increment(v)], r.1)
    ensures |r.0| + 2 * |r.1| == |value| + 2 * |increments|
    ensures Appended(increments, r.1)
  {
    AppendedOne(increments, v, r.1);
  }

  /** `after` is `before` followed by increment lines only. */
  ghost predicate Appended(before: seq<string>, after: seq<string>) {
    |before| <= |after| && after[..|before|] == before &&
    forall k :: |before| <= k < |after| ==> IsIncrement(after[k])
  }

  lemma AppendedNothing(before: seq<string>)
    ensures Appended(before, before)
  {
  }

  lemma AppendedOne(before: seq<string>, v: string, after: seq<string>)
    requires IsWordString(v) && Appended(before + [Increment(v)], after)
    ensures Appended(before, after)
  {
    assert after[..|before|] == (after[..|before| + 1])[..|before|];
    assert after[|before|] == (before + [Increment(v)])[|before|];
  }

  /** One pass of the `++v` loop. */
  lemma PreLoopStep(value: string, increments: seq<string>, p: nat, v: string, next: string)
    requires PreMatchFrom(value, 0) == Some(p)
    requires v == PreWord(value, p) && next == PreCut(value, p)
    ensures PreLoop(value, increments) == PreLoop(next, increments + [Increment(v)])
  {
  }

  /** The `++v` loop stops when there is no `++` or no `++v` match. */
  lemma PreLoopDone(value: string, increments: seq<string>)
    requires !Contains(value, "++") || PreMatchFrom(value, 0) == None
    ensures PreLoop(value, increments) == (value, increments) && PreMatchFrom(value, 0) == None
  {
    if !Contains(value, "++") {
      NoPlusPlusNoPreMatch(value, 0);
    }
  }

  /** One pass of the `v++` loop. */
  lemma PostLoopStep(value: string, increments: seq<string>, p: nat, v: string, next: string)
    requires PostMatchFrom(value, 0) == Some(p)
    requires v == PostWord(value, p) && next == PostCut(value, p)
    ensures PostLoop(value, increments) == PostLoop(next, increments + [Increment(v)])
  {
  }

  /** The `v++` loop stops when there is no `++` or no `v++` match. */
  lemma PostLoopDone(value: string, increments: seq<string>)
    requires !Contains(value, "++") || PostMatchFrom(value, 0) == None
    ensures PostLoop(value, increments) == (value, increments) && PostMatchFrom(value, 0) == None
  {
    if !Contains(value, "++") {
      NoPlusPlusNoPostMatch(value, 0);
    }
  }

  /** A run of word characters taken from `s` is a word. */
  lemma WordSlice(s: string, i: nat)
    requires i < |s| && IsWordChar(s[i])
    ensures IsWordString(s[i..i + WordRun(s, i)])
  {
    WordRunSpec(s, i);
  }

  /** Without `++` in `s` there is no `++v` match. */
  lemma {:induction false} NoPlusPlusNoPreMatch(s: string, p: nat)
    requires p <= |s| && !Contains(s, "++")
    ensures PreMatchFrom(s, p) == None
    decreases |s| - p
  {
    if p + 3 <= |s| {
      NotContains(s, "++");
      assert !OccursAt(s, "++", p);
      NoPlusPlusNoPreMatch(s, p + 1);
    }
  }

  /** Without `++` in `s` there is no `v++` match. */
  lemma {:induction false} NoPlusPlusNoPostMatch(s: string, p: nat)
    requires p <= |s| && !Contains(s, "++")
    ensures PostMatchFrom(s, p) == None
    decreases |s| - p
  {
    if p < |s| {
      var w := WordRun(s, p);
      if p + w + 2 <= |s| {
        NotContains(s, "++");
        assert !OccursAt(s, "++", p + w);
      }
      NoPlusPlusNoPostMatch(s, p + 1);
    }
  }

  /** The `++v` loop of `PreIncrementHandler` and `ComplexIncrementHandler`. */
  method RewritePreIncrements(value0: string) returns (value: string, increments: seq<string>)
    ensures (value, increments) == PreRewrite(value0)
  {
    value, increments := value0, [];
    while Contains(value, "++")
      invariant PreLoop(value, increments) == PreRewrite(value0)
      decreases |value|
    {
      var m := PreMatchFrom(value, 0);
      if m.None? {
        break;
      }
      var p := m.value;
      var v := value[p + 2..p + 2 + WordRun(value, p + 2)];
      PreLoopAdvance(value, increments, p, v);
      value := value[..p] + v + value[p + 2 + |v|..];
      increments := increments + [Increment(v)];
    }
    PreLoopDone(value, increments);
  }

  /** The `v++` loop of `ComplexIncrementHandler`. */
  method RewritePostIncrements(value0: string) returns (value: string, increments: seq<string>)
    ensures (value, increments) == PostRewrite(value0)
  {
    value, increments := value0, [];
    while Contains(value, "++")
      invariant PostLoop(value, increments) == PostRewrite(value0)
      decreases |value|
    {
      var m := PostMatchFrom(value, 0);
      if m.None? {
        break;
      }
      var p := m.value;
      var v := value[p..p + WordRun(value, p)];
      PostLoopAdvance(value, increments, p, v);
      value := value[..p] + v + value[p + |v| + 2..];
      increments := increments + [Increment(v)];
    }
    PostLoopDone(value, increments);
  }

  /** One pass of the `++v` loop, as the source writes the new value. */
  lemma PreLoopAdvance(value: string, increments: seq<string>, p: nat, v: string)
    requires PreMatchFrom(value, 0) == Some(p) && v == value[p + 2..p + 2 + WordRun(value, p + 2)]
    ensures PreLoop(value, increments) == PreLoop(value[..p] + v + value[p + 2 + |v|..], increments + [Increment(v)])
  {
    var next := PreCut(value, p);
    Splice(value, p, |v|);
    assert value[..p] + v + value[p + 2 + |v|..] == next;
    PreLoopStep(value, increments, p, v, next);
  }

  /** One pass of the `v++` loop, as the source writes the new value. */
  lemma PostLoopAdvance(value: string, increments: seq<string>, p: nat, v: string)
    requires PostMatchFrom(value, 0) == Some(p) && v == value[p..p + WordRun(value, p)]
    ensures PostLoop(value, increments) == PostLoop(value[..p] + v + value[p + |v| + 2..], increments + [Increment(v)])
  {
    var next := PostCut(value, p);
    Splice(value, p, |v|);
    assert value[..p] + v + value[p + |v| + 2..] == next;
    PostLoopStep(value, increments, p, v, next);
  }

  /** Replacing `++v` (or `v++`) at `p` by `v` removes the two `+`. */
  lemma Splice(s: string, p: nat, n: nat)
    requires p + 2 + n <= |s|
    ensures s[..p] + s[p + 2..p + 2 + n] + s[p + 2 + n..] == s[..p] + s[p + 2..]
    ensures s[..p] + s[p..p + n] + s[p + n + 2..] == s[..p + n] + s[p + n + 2..]
  {
    assert s[p + 2..] == s[p + 2..p + 2 + n] + s[p + 2 + n..];
    assert s[..p + n] == s[..p] + s[p..p + n];
  }

  // ---------------------------------------------------------------------------------------
  // The handlers and the chain

  /** The five handlers, in the order `ExpressionSimplifier.__init__` links them. */
  datatype Handler = Simple | PreIncrement | PostIncrement | Compound | ComplexIncrement

  const Chain: seq<Handler> := [Simple, PreIncrement, PostIncrement, Compound, ComplexIncrement]

  /** The line that assigns `value` to `target`. */
  function AssignLine(target: string, value: string): string {
    target + " = " + value
  }

  /** `handle` of each handler; `[]` means it does not apply. */
  function Handle(h: Handler, e: Expression): seq<string> {
    match h
    case Simple =>
      if !Contains(e.value, "++") && !HasCompoundOperator(e.original) then [e.original] else []
    case PreIncrement =>
      if !StartsWith(e.value, "++") then []
      else
        var (value, pre) := PreRewrite(e.value);
        pre + [AssignLine(e.target, value)]
    case PostIncrement =>
      if EndsWith(e.value, "++") then
        var v := Strip(e.value[..|e.value| - 2]);
        [AssignLine(e.target, v), Increment(v)]
      else []
    case Compound =>
      if e.operator.Some? && e.operator.value in CompoundOperators then
        [AssignLine(e.target, e.target + " " + e.operator.value[..1] + " " + e.value)]
      else []
    case ComplexIncrement =>
      if !Contains(e.value, "++") then []
      else
        var (value, pre) := PreRewrite(e.value);
        var (value', post) := PostRewrite(value);
        pre + [AssignLine(e.target, value')] + post
  }

  /** `process_expression`: the first handler of the chain with a non-empty result, else `[]`. */
  function Process(chain: seq<Handler>, e: Expression): seq<string> {
    if chain == [] then []
    else
      var r := Handle(chain[0], e);
      if r != [] then r else Process(chain[1..], e)
  }

  /** `simplify`: parse, then run the chain; the parse error propagates. */
  function Simplify(s: string): Result<seq<string>, SimplifyError> {
    match Parse(s)
    case Failure(err) => Failure(err)
    case Success(e) => Success(Process(Chain, e))
  }

  /** `handle` of the two handlers with loops, as the source runs them. */
  method HandleWith(h: Handler, e: Expression) returns (r: seq<string>)
    ensures r == Handle(h, e)
  {
    match h
    case PreIncrement =>
      if !StartsWith(e.value, "++") {
        return [];
      }
      var value, pre := RewritePreIncrements(e.value);
      r := pre + [AssignLine(e.target, value)];
    case ComplexIncrement =>
      if !Contains(e.value, "++") {
        return [];
      }
      var value, pre := RewritePreIncrements(e.value);
      var value', post := RewritePostIncrements(value);
      r := pre + [AssignLine(e.target, value')] + post;
    case _ =>
      r := Handle(h, e);
  }

  /** `process_expression` walking the chain of handlers. */
  method ProcessWith(chain: seq<Handler>, e: Expression) returns (r: seq<string>)
    ensures r == Process(chain, e)
  {
    var i := 0;
    while i < |chain|
      invariant i <= |chain| && Process(chain[i..], e) == Process(chain, e)
    {
      assert chain[i..][1..] == chain[i + 1..];
      r := HandleWith(chain[i], e);
      if r != [] {
        return;
      }
      i := i + 1;
    }
    r := [];
  }

  /** `ExpressionSimplifier.simplify`. */
  method SimplifyWith(s: string) returns (r: Result<seq<string>, SimplifyError>)
    ensures r == Simplify(s)
  {
    var parsed := Parse(s);
    if parsed.Failure? {
      return Failure(parsed.error);
    }
    var lines := ProcessWith(Chain, parsed.value);
    return Success(lines);
  }

  // ---------------------------------------------------------------------------------------
  // Properties

  /** `parse_expression` succeeds exactly when the string holds an `=`. */
  lemma ParseSucceedsIffEquals(s: string)
    ensures Parse(s).Success? <==> '=' in s
    ensures Parse(s).Failure? ==> Parse(s).error == InvalidFormat(s)
  {
    IndexOfSpec(s, '=');
    if CompoundMatch(s).Some? {
      var w := WordRun(s, 0);
      var j := w + SpaceRun(s, w);
      assert s[j..j + 2][1] == '=';
      assert s[j + 1] == '=';
    }
  }

  /** The characters of a compound operator. */
  lemma OperatorChars(op: string)
    requires op in CompoundOperators
    ensures |op| == 2 && op[1] == '=' && op[0] in {'+', '-', '*', '/'}
    ensures !IsWordChar(op[0]) && !IsSpace(op[0]) && op[0] != '='
  {
  }

  /** A word, optional spaces, a compound operator, optional spaces and a rest that starts
      with a visible character and holds no line break parse to the word, the operator and the
      trimmed rest. */
  lemma ParseCompound(w: string, ws: string, op: string, ws2: string, rest: string)
    requires IsWordString(w) && (forall i :: 0 <= i < |ws| ==> IsSpace(ws[i])) && op in CompoundOperators
    requires (forall i :: 0 <= i < |ws2| ==> IsSpace(ws2[i]))
    requires rest != [] && !IsSpace(rest[0]) && '\n' !in rest
    ensures var s := w + ws + op + ws2 + rest;
      Parse(s) == Success(Expression(w, Some(op), Strip(rest), s))
  {
    CompoundMatchOf(w, ws, op, ws2, rest);
  }

  lemma CompoundMatchOf(w: string, ws: string, op: string, ws2: string, rest: string)
    requires IsWordString(w) && (forall i :: 0 <= i < |ws| ==> IsSpace(ws[i])) && op in CompoundOperators
    requires (forall i :: 0 <= i < |ws2| ==> IsSpace(ws2[i]))
    requires rest != [] && !IsSpace(rest[0]) && '\n' !in rest
    ensures CompoundMatch(w + ws + op + ws2 + rest) == Some((w, op, rest))
  {
    var s := w + ws + op + ws2 + rest;
    var j := |w| + |ws|;
    OperatorChars(op);
    HeadFacts(s, w, ws, op, ws2 + rest);
    CompoundTail(w + ws + op, ws2, rest);
    CompoundMatchAt(s, |w|, j, j + 2 + |ws2|, |rest|, w, op, rest);
  }

  /** The word, the spaces and the operator at the head of a compound assignment. */
  lemma HeadFacts(s: string, w: string, ws: string, op: string, tail: string)
    requires IsWordString(w) && (forall i :: 0 <= i < |ws| ==> IsSpace(ws[i]))
    requires |op| == 2 && !IsWordChar(op[0]) && !IsSpace(op[0])
    requires s == w + ws + op + tail
    ensures var j := |w| + |ws|;
      WordRun(s, 0) == |w| && SpaceRun(s, |w|) == |ws| && s[..|w|] == w && s[j..j + 2] == op
  {
    CompoundHead(w, ws, op, tail);
    var j := |w| + |ws|;
    assert s[j..j + 2] == op;
  }

  /** The match read off its positions: the word, the operator and the line after the
      spaces. */
  lemma CompoundMatchAt(s: string, w: nat, j: nat, m: nat, n: nat, target: string, op: string, value: string)
    requires w == WordRun(s, 0) && 0 < w && j == w + SpaceRun(s, w) && j + 2 <= |s|
    requires op == s[j..j + 2] && op in CompoundOperators
    requires m == j + 2 + SpaceRun(s, j + 2) && m < |s| && n == LineRun(s, m)
    requires target == s[..w] && value == s[m..m + n]
    ensures CompoundMatch(s) == Some((target, op, value))
  {
  }

  /** The word and the spaces before the operator are the greedy runs. */
  lemma CompoundHead(w: string, ws: string, op: string, rest: string)
    requires IsWordString(w) && (forall i :: 0 <= i < |ws| ==> IsSpace(ws[i]))
    requires op != [] && !IsWordChar(op[0]) && !IsSpace(op[0])
    ensures var s := w + ws + op + rest;
      WordRun(s, 0) == |w| && SpaceRun(s, |w|) == |ws| && s[..|w|] == w
  {
    HeadWord(w, ws, op, rest);
    HeadSpace(w, ws, op, rest);
  }

  lemma HeadWord(w: string, ws: string, op: string, rest: string)
    requires IsWordString(w) && (forall i :: 0 <= i < |ws| ==> IsSpace(ws[i]))
    requires op != [] && !IsWordChar(op[0])
    ensures WordRun(w + ws + op + rest, 0) == |w| && (w + ws + op + rest)[..|w|] == w
  {
    var t := ws + op + rest;
    assert !IsWordChar(t[0]) by {
      if ws != [] {
        assert t[0] == ws[0];
      }
    }
    WordRunOf(w, t);
    assert w + ws + op + rest == w + t;
  }

  lemma HeadSpace(w: string, ws: string, op: string, rest: string)
    requires forall i :: 0 <= i < |ws| ==> IsSpace(ws[i])
    requires op != [] && !IsSpace(op[0])
    ensures SpaceRun(w + ws + op + rest, |w|) == |ws|
  {
    var u := op + rest;
    SpaceRunOf(w, ws, u);
    assert w + ws + op + rest == w + ws + u;
  }

  lemma WordRunOf(w: string, t: string)
    requires forall k :: 0 <= k < |w| ==> IsWordChar(w[k])
    requires t == [] || !IsWordChar(t[0])
    ensures WordRun(w + t, 0) == |w| && (w + t)[..|w|] == w
  {
    var s := w + t;
    assert s[0..|w|] == w;
    assert |w| < |s| ==> s[|w|] == t[0];
    WordRunFrom(s, w, 0);
  }

  lemma SpaceRunOf(h: string, ws: string, u: string)
    requires forall k :: 0 <= k < |ws| ==> IsSpace(ws[k])
    requires u == [] || !IsSpace(u[0])
    ensures SpaceRun(h + ws + u, |h|) == |ws|
  {
    var s := h + ws + u;
    assert s[|h|..|h| + |ws|] == ws;
    assert |h| + |ws| < |s| ==> s[|h| + |ws|] == u[0];
    SpaceRunFrom(s, ws, |h|);
  }

  /** The spaces after the operator are skipped and the rest starts the greedy `.+`. */
  lemma CompoundTail(head: string, ws2: string, rest: string)
    requires (forall i :: 0 <= i < |ws2| ==> IsSpace(ws2[i]))
    requires rest != [] && !IsSpace(rest[0]) && '\n' !in rest
    ensures var s := head + ws2 + rest;
      var m := |head| + |ws2|;
      SpaceRun(s, |head|) == |ws2| && LineRun(s, m) == |rest| && s[m..m + |rest|] == rest
  {
    var s := head + ws2 + rest;
    var m := |head| + |ws2|;
    SpaceRunOf(head, ws2, rest);
    assert s[m..] == rest;
    LineRunFrom(s, rest, m);
  }

  /** A left side the compound pattern can take up to the first `=`: a word, optional spaces
      and one operator character. */
  predicate CompoundLeft(a: string) {
    var w := WordRun(a, 0);
    0 < w < |a| && w + SpaceRun(a, w) == |a| - 1 && a[|a| - 1] in {'+', '-', '*', '/'}
  }

  /** A right side in which `.+` finds no character to start on. */
  predicate OnlyLineBreaks(b: string) {
    forall i :: 0 <= i < |b| ==> b[i] == '\n'
  }

  /** Whenever the compound pattern fails on `a = b`, the parse splits at the first `=` and
      trims both sides; so `x y += 1` has target `x y +` and `x +=` has target `x +`. */
  lemma ParseRegular(a: string, b: string)
    requires '=' !in a && (!CompoundLeft(a) || OnlyLineBreaks(b))
    ensures Parse(a + "=" + b) == Success(Expression(Strip(a), None, Strip(b), a + "=" + b))
  {
    var s := a + "=" + b;
    NoCompoundMatch(a, b);
    FirstEquals(a, b);
    assert s[..|a|] == a && s[|a| + 1..] == b;
  }

  lemma FirstEquals(a: string, b: string)
    requires '=' !in a
    ensures IndexOf(a + "=" + b, '=') == |a|
  {
    var s := a + "=" + b;
    IndexOfSpec(s, '=');
    assert s[|a|] == '=';
    assert forall k :: 0 <= k < |a| ==> s[k] == a[k];
  }

  /** With no `=` before the first `=`, the compound pattern fails exactly when the left side
      is not a word, spaces and one operator character, or the right side has nothing but
      line breaks. */
  lemma NoCompoundMatch(a: string, b: string)
    requires '=' !in a
    ensures CompoundMatch(a + "=" + b) == None <==> !CompoundLeft(a) || OnlyLineBreaks(b)
  {
    if CompoundLeft(a) {
      CompoundLeftMatch(a, b);
    } else {
      OtherLeftNoMatch(a, b);
    }
  }

  /** A compound left side matches unless the right side has nothing but line breaks. */
  lemma CompoundLeftMatch(a: string, b: string)
    requires '=' !in a && CompoundLeft(a)
    ensures CompoundMatch(a + "=" + b) == None <==> OnlyLineBreaks(b)
  {
    var s := a + "=" + b;
    var k := |a| + 1;
    CompoundLeftOperator(a, b);
    MatchAfterOperator(s, k);
    TailOf(a, b);
    if k + SpaceRun(s, k) == |s| {
      LastLineStartSpec(s, k, |s|);
    }
  }

  /** On a compound left side the pattern's word, spaces and operator end at the first `=`. */
  lemma CompoundLeftOperator(a: string, b: string)
    requires '=' !in a && CompoundLeft(a)
    ensures var s := a + "=" + b;
      var w := WordRun(s, 0);
      var j := w + SpaceRun(s, w);
      w > 0 && j + 2 == |a| + 1 && j + 2 <= |s| && s[j..j + 2] in CompoundOperators
  {
    var s := a + "=" + b;
    var w := WordRun(s, 0);
    var j := w + SpaceRun(s, w);
    LeadingRunsOf(a, b);
    assert j == |a| - 1 && s[j] == a[|a| - 1] && s[j + 1] == '=';
    OperatorAt(s, j);
  }

  /** Once the operator is read at `k - 2`, the pattern fails exactly when `\s*` runs to the
      end and finds no character to give back to `.+`. */
  lemma MatchAfterOperator(s: string, k: nat)
    requires var w := WordRun(s, 0);
      var j := w + SpaceRun(s, w);
      w > 0 && j + 2 == k && k <= |s| && s[j..j + 2] in CompoundOperators
    ensures CompoundMatch(s) == None <==>
      k + SpaceRun(s, k) == |s| && LastLineStart(s, k, |s|).None?
  {
  }

  /** Any other left side does not match. */
  lemma OtherLeftNoMatch(a: string, b: string)
    requires '=' !in a && !CompoundLeft(a)
    ensures CompoundMatch(a + "=" + b) == None
  {
    var s := a + "=" + b;
    var w := WordRun(s, 0);
    var j := w + SpaceRun(s, w);
    LeadingRunsOf(a, b);
    if w > 0 && j + 2 <= |s| {
      NotCompoundAt(a, b, j);
    }
  }

  /** The word and the spaces the compound pattern reads first lie in the left side, and
      they are those of the left side alone. */
  lemma LeadingRunsOf(a: string, b: string)
    requires '=' !in a
    ensures var s := a + "=" + b;
      var w := WordRun(s, 0);
      w == WordRun(a, 0) && w <= |a| && SpaceRun(s, w) == SpaceRun(a, w) && w + SpaceRun(s, w) <= |a|
  {
    var s := a + "=" + b;
    var rest := "=" + b;
    assert s == a + rest && rest[0] == '=';
    WordRunPrefix(a, rest, 0);
    SpaceRunPrefix(a, rest, WordRun(a, 0));
  }

  /** After the first `=`, `\s*` reaches the end of the string exactly when the right side
      is all white space, and it then covers only line breaks when the right side does. */
  lemma TailOf(a: string, b: string)
    ensures var s := a + "=" + b;
      var k := |a| + 1;
      (k + SpaceRun(s, k) == |s| <== OnlyLineBreaks(b)) &&
      (OnlyLineBreaks(b) <==> forall p :: k <= p < |s| ==> s[p] == '\n')
  {
    var s := a + "=" + b;
    var k := |a| + 1;
    assert forall p :: k <= p < |s| ==> s[p] == b[p - k];
    assert forall i :: 0 <= i < |b| ==> b[i] == s[k + i];
    SpaceRunSpec(s, k);
  }

  /** The two characters at `j` form a compound operator when an operator character precedes
      `=`. */
  lemma OperatorAt(s: string, j: nat)
    requires j + 2 <= |s| && s[j] in {'+', '-', '*', '/'} && s[j + 1] == '='
    ensures s[j..j + 2] in CompoundOperators
  {
    assert s[j..j + 2] == [s[j], '='];
  }

  /** When the leading word and spaces stop anywhere but just before an operator character
      at the end of `a`, the next two characters are not a compound operator. */
  lemma NotCompoundAt(a: string, b: string, j: nat)
    requires '=' !in a && 0 < WordRun(a, 0) && j == WordRun(a, 0) + SpaceRun(a, WordRun(a, 0))
    requires j <= |a| && j + 2 <= |a| + 1 + |b| && !CompoundLeft(a)
    ensures (a + "=" + b)[j..j + 2] !in CompoundOperators
  {
    var s := a + "=" + b;
    assert s[j..j + 2] == [s[j], s[j + 1]];
    if j + 1 < |a| {
      assert s[j + 1] == a[j + 1];
    }
  }

  /** `LastLineStart` finds no start exactly when every position in the range is a line
      break. */
  lemma {:induction false} LastLineStartSpec(s: string, k: nat, m: nat)
    requires k <= m <= |s|
    ensures LastLineStart(s, k, m).None? <==> forall p :: k <= p < m ==> s[p] == '\n'
    decreases m
  {
    if m > k && s[m - 1] == '\n' {
      LastLineStartSpec(s, k, m - 1);
    }
  }

  lemma {:induction false} WordRunFrom(s: string, w: string, i: nat)
    requires i + |w| <= |s| && s[i..i + |w|] == w && (forall k :: 0 <= k < |w| ==> IsWordChar(w[k]))
    requires i + |w| == |s| || !IsWordChar(s[i + |w|])
    ensures WordRun(s, i) == |w|
    decreases |w|
  {
    if w != [] {
      assert s[i] == w[0];
      assert s[i + 1..i + 1 + |w[1..]|] == w[1..];
      WordRunFrom(s, w[1..], i + 1);
    }
  }

  lemma {:induction false} SpaceRunFrom(s: string, ws: string, i: nat)
    requires i + |ws| <= |s| && s[i..i + |ws|] == ws && (forall k :: 0 <= k < |ws| ==> IsSpace(ws[k]))
    requires i + |ws| == |s| || !IsSpace(s[i + |ws|])
    ensures SpaceRun(s, i) == |ws|
    decreases |ws|
  {
    if ws != [] {
      assert s[i] == ws[0];
      assert s[i + 1..i + 1 + |ws[1..]|] == ws[1..];
      SpaceRunFrom(s, ws[1..], i + 1);
    }
  }

  lemma {:induction false} LineRunFrom(s: string, rest: string, i: nat)
    requires i + |rest| == |s| && s[i..] == rest && '\n' !in rest
    ensures LineRun(s, i) == |rest|
    decreases |rest|
  {
    if rest != [] {
      assert s[i] == rest[0];
      assert s[i + 1..] == rest[1..];
      LineRunFrom(s, rest[1..], i + 1);
    }
  }

  /** The chain returns the result of its first handler that applies, and `[]` when none does. */
  lemma {:induction false} ProcessFirstNonEmpty(chain: seq<Handler>, e: Expression)
    ensures Process(chain, e) == [] <==> forall i :: 0 <= i < |chain| ==> Handle(chain[i], e) == []
    ensures Process(chain, e) != [] ==>
      exists i :: 0 <= i < |chain| && Process(chain, e) == Handle(chain[i], e) &&
        forall j :: 0 <= j < i ==> Handle(chain[j], e) == []
  {
    if chain != [] {
      ProcessFirstNonEmpty(chain[1..], e);
      assert forall i :: 1 <= i < |chain| ==> chain[i] == chain[1..][i - 1];
      if Handle(chain[0], e) == [] && Process(chain[1..], e) != [] {
        var i :| 0 <= i < |chain[1..]| && Process(chain[1..], e) == Handle(chain[1..][i], e) &&
          forall j :: 0 <= j < i ==> Handle(chain[1..][j], e) == [];
        assert Process(chain, e) == Handle(chain[i + 1], e);
        forall j | 0 <= j < i + 1 ensures Handle(chain[j], e) == [] {
          if j > 0 {
            assert chain[j] == chain[1..][j - 1];
          }
        }
      }
    }
  }

  /** The chain of `ExpressionSimplifier.__init__`, handler by handler. */
  lemma ProcessChain(e: Expression)
    ensures Process(Chain, e) ==
      if Handle(Simple, e) != [] then Handle(Simple, e)
      else if Handle(PreIncrement, e) != [] then Handle(PreIncrement, e)
      else if Handle(PostIncrement, e) != [] then Handle(PostIncrement, e)
      else if Handle(Compound, e) != [] then Handle(Compound, e)
      else Handle(ComplexIncrement, e)
  {
    var c4 := [ComplexIncrement];
    assert c4[1..] == [];
    assert Process(c4, e) == Handle(ComplexIncrement, e);
    var c3 := [Compound] + c4;
    assert c3[1..] == c4;
    var c2 := [PostIncrement] + c3;
    assert c2[1..] == c3;
    assert Process(c2, e) == if Handle(PostIncrement, e) != [] then Handle(PostIncrement, e) else Process(c3, e);
    var c1 := [PreIncrement] + c2;
    assert c1[1..] == c2;
    assert Chain == [Simple] + c1 && Chain[1..] == c1;
  }

  /** A value without `++` in an assignment without a compound operator is returned as it
      was written. */
  lemma SimpleUnchanged(e: Expression)
    requires !Contains(e.value, "++") && !HasCompoundOperator(e.original)
    ensures Process(Chain, e) == [e.original]
  {
    ProcessChain(e);
  }

  /** An assignment with neither `++` nor a compound operator anywhere is its own
      simplification. */
  lemma SimplifyPlain(s: string)
    requires '=' in s && !Contains(s, "++") && !HasCompoundOperator(s)
    ensures Simplify(s) == Success([s])
  {
    if CompoundMatch(s).Some? {
      CompoundOperatorOf(s);
    }
    var i := IndexOf(s, '=');
    IndexOfSpec(s, '=');
    var t := s[i + 1..];
    StripSpec(t);
    var st := StripStart(t);
    assert Strip(t) == s[i + 1 + st..i + 1 + st + |Strip(t)|];
    if Contains(Strip(t), "++") {
      ContainsInSlice(s, i + 1 + st, i + 1 + st + |Strip(t)|, "++");
    }
    SimpleUnchanged(Expression(Strip(s[..i]), None, Strip(t), s));
  }

  /** A line whose text holds a compound operator that the compound pattern misses (so it is
      split at its first `=`), and whose value holds no `++`, is refused by every handler: it
      simplifies to no lines at all. */
  lemma SimplifyDropped(a: string, b: string)
    requires '=' !in a && !CompoundLeft(a) && HasCompoundOperator(a + "=" + b) && !Contains(Strip(b), "++")
    ensures Simplify(a + "=" + b) == Success([])
  {
    ParseRegular(a, b);
    var e := Expression(Strip(a), None, Strip(b), a + "=" + b);
    ProcessChain(e);
    NoPlusPlusEnds(e.value);
  }

  /** A compound assignment whose value holds no `++` becomes `target = target op value`. */
  lemma CompoundRewritten(s: string)
    requires Parse(s).Success? && Parse(s).value.operator.Some? && !Contains(Parse(s).value.value, "++")
    ensures var e := Parse(s).value;
      Simplify(s) == Success([AssignLine(e.target, e.target + " " + e.operator.value[..1] + " " + e.value)])
  {
    CompoundParsed(s);
    CompoundHandled(Parse(s).value);
  }

  /** A parse with an operator came from the compound pattern: the operator is one of the
      four and occurs in the original text. */
  lemma CompoundParsed(s: string)
    requires Parse(s).Success? && Parse(s).value.operator.Some?
    ensures Parse(s).value.operator.value in CompoundOperators && HasCompoundOperator(Parse(s).value.original)
  {
    CompoundOperatorOf(s);
  }

  /** A compound match's operator is one of the four and occurs in the line. */
  lemma CompoundOperatorOf(s: string)
    requires CompoundMatch(s).Some?
    ensures CompoundMatch(s).value.1 in CompoundOperators && HasCompoundOperator(s)
  {
    var w := WordRun(s, 0);
    var j := w + SpaceRun(s, w);
    ContainsAt(s, s[j..j + 2], j);
  }

  lemma CompoundHandled(e: Expression)
    requires e.operator.Some? && e.operator.value in CompoundOperators
    requires HasCompoundOperator(e.original) && !Contains(e.value, "++")
    ensures Process(Chain, e) == [AssignLine(e.target, e.target + " " + e.operator.value[..1] + " " + e.value)]
  {
    ProcessChain(e);
    NoPlusPlusEnds(e.value);
  }

  /** A value without `++` neither starts nor ends with it. */
  lemma NoPlusPlusEnds(value: string)
    requires !Contains(value, "++")
    ensures !StartsWith(value, "++") && !EndsWith(value, "++")
  {
    NotContains(value, "++");
    if |value| >= 2 {
      assert !OccursAt(value, "++", 0) && !OccursAt(value, "++", |value| - 2);
      assert value[..2] == value[0..2];
      assert value[|value| - 2..] == value[|value| - 2..|value|];
    }
  }

  /** A value that starts with `++` goes to the pre-increment handler: the increments, then
      the target line over the value with each `++v` replaced by `v`. */
  lemma PreIncrementRewritten(e: Expression)
    requires StartsWith(e.value, "++")
    ensures var (value, pre) := PreRewrite(e.value);
      Process(Chain, e) == pre + [AssignLine(e.target, value)] &&
      |value| + 2 * |pre| == |e.value|
  {
    ProcessChain(e);
    ContainsAt(e.value, "++", 0);
    PreLoopSpec(e.value, []);
  }

  /** A value that ends with `++` and does not start with it goes to the post-increment
      handler: assign the trimmed text before `++`, then increment it. */
  lemma PostIncrementRewritten(e: Expression)
    requires EndsWith(e.value, "++") && !StartsWith(e.value, "++")
    ensures var v := Strip(e.value[..|e.value| - 2]);
      Process(Chain, e) == [AssignLine(e.target, v), Increment(v)]
  {
    ProcessChain(e);
    ContainsAt(e.value, "++", |e.value| - 2);
  }

  /** Any other value with `++` in a plain assignment goes to the complex handler: the
      pre-increments, the target line, then the post-increments, two characters removed per
      increment. */
  lemma ComplexIncrementRewritten(e: Expression)
    requires Contains(e.value, "++") && !StartsWith(e.value, "++") && !EndsWith(e.value, "++")
    requires e.operator.None?
    ensures var pre := PreRewrite(e.value);
      var post := PostRewrite(pre.0);
      Process(Chain, e) == pre.1 + [AssignLine(e.target, post.0)] + post.1 &&
      |post.0| + 2 * (|pre.1| + |post.1|) == |e.value|
  {
    ProcessChain(e);
    PreLoopSpec(e.value, []);
    PostLoopSpec(PreRewrite(e.value).0, []);
  }
}
