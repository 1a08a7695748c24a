/** Lexical extraction of an assignment's target and of the names it reads
    (`_get_target` and `_get_dependencies` of src/dependency_graph.py). Nothing is evaluated. */
module Extract {
  import opened Wrappers
  import opened Text

  /** The text of `expr` before its first `=` (all of it when there is none). */
  function LeftSide(expr: string): string {
    expr[..IndexOf(expr, '=')]
  }

  /** `_get_target`: the trimmed text before the first `=`. For `x += 3` this is `x +`, a name
      of its own, distinct from `x`. */
  function Target(expr: string): string {
    Strip(LeftSide(expr))
  }

  /** A target holds no `=` and has no surrounding whitespace; a line without `=` is its own
      target, stripped. */
  lemma TargetShape(expr: string)
    ensures '=' !in Target(expr)
    ensures Target(expr) == [] || (!IsSpace(Target(expr)[0]) && !IsSpace(Target(expr)[|Target(expr)| - 1]))
    ensures '=' !in expr ==> Target(expr) == Strip(expr)
  {
    var l := LeftSide(expr);
    IndexOfSpec(expr, '=');
    assert expr[..|expr|] == expr;
    StripSpec(l);
    var i := StripStart(l);
    forall k | 0 <= k < |Target(expr)| ensures Target(expr)[k] != '=' {
      assert Target(expr)[k] == l[i + k] == expr[i + k];
    }
  }

  /** A target is its own target: `_get_target` applied to a name that some expression
      assigns gives that name back. */
  lemma TargetOfTarget(expr: string)
    ensures Target(Target(expr)) == Target(expr)
  {
    var t := Target(expr);
    TargetShape(expr);
    IndexOfSpec(t, '=');
    assert IndexOf(t, '=') == |t|;
    assert LeftSide(t) == t;
    StripIdempotent(LeftSide(expr));
  }

  /** Tokens that are skipped outright. */
  const OperatorTokens: set<string> := {"+", "-", "*", "/", "(", ")", "++", "--"}

  /** Characters stripped from the end of a token before the identifier test. */
  const TrailingOperators: set<char> := {'+', '-', '*', '/'}

  /** The name one whitespace-separated token of the right side contributes, if any. */
  function TokenName(token: string): (r: Option<string>)
    ensures r.Some? ==> IsIdentifier(r.value)
    ensures IsIdentifier(token) ==> r == Some(token)
  {
    if token in OperatorTokens || IsDigits(token) then None
    else
      var part := RStripChars(token, TrailingOperators);
      if IsIdentifier(part) then Some(part) else None
  }

  /** The names the tokens of a right side contribute: every one is an identifier, and every
      token that is an identifier is one of them. */
  function TokenNames(tokens: seq<string>): set<string> {
    if tokens == [] then {}
    else
      var rest := TokenNames(tokens[1..]);
      match TokenName(tokens[0])
      case Some(n) => {n} + rest
      case None => rest
  }

  lemma {:induction false} TokenNamesSpec(tokens: seq<string>)
    ensures forall n :: n in TokenNames(tokens) ==> IsIdentifier(n)
    ensures forall k :: 0 <= k < |tokens| && IsIdentifier(tokens[k]) ==> tokens[k] in TokenNames(tokens)
  {
    if tokens != [] {
      TokenNamesSpec(tokens[1..]);
      assert forall k :: 1 <= k < |tokens| ==> tokens[k] == tokens[1..][k - 1];
    }
  }

  /** The dependency a compound left side such as `x +=` contributes: its first word. */
  function CompoundName(lhs: string): set<string> {
    var words := Split(lhs);
    if |words| > 1 then {words[0]} else {}
  }

  /** The operand of a leading `++`/`--` (everything after those two characters, trimmed), else
      of a trailing one (everything before them, trimmed). */
  function IncrementName(rhs: string): set<string> {
    if StartsWith(rhs, "++") || StartsWith(rhs, "--") then {Strip(rhs[2..])}
    else if EndsWith(rhs, "++") || EndsWith(rhs, "--") then {Strip(rhs[..|rhs| - 2])}
    else {}
  }

  /** The trimmed text after the first `=`, when there is one. */
  function RightSide(expr: string): Option<string> {
    var i := IndexOf(expr, '=');
    if i < |expr| then Some(Strip(expr[i + 1..])) else None
  }

  /** `_get_dependencies`: the names an expression reads, found lexically. */
  function Dependencies(expr: string): set<string> {
    var lhs := CompoundName(Strip(LeftSide(expr)));
    match RightSide(expr)
    case None => lhs
    case Some(rhs) => lhs + IncrementName(rhs) + TokenNames(Split(rhs))
  }

  /** A line without `=` is its whole stripped text as target, and it still reads the first
      word of that text when it has several, by the compound-left-side rule; a line of one word
      reads nothing. */
  lemma NoEqualsLine(expr: string)
    requires '=' !in expr
    ensures Target(expr) == Strip(expr)
    ensures Dependencies(expr) == CompoundName(Strip(expr))
  {
    IndexOfSpec(expr, '=');
    assert LeftSide(expr) == expr;
  }

  /** What an expression reads: the first word of a compound left side, the operand of a
      leading or trailing `++`/`--`, and every identifier token of the right side; any other
      name it reads is an identifier left once trailing operator characters are stripped. */
  lemma DependenciesCharacterized(expr: string)
    ensures CompoundName(Strip(LeftSide(expr))) <= Dependencies(expr)
    ensures RightSide(expr).Some? ==> IncrementName(RightSide(expr).value) <= Dependencies(expr)
    ensures RightSide(expr).Some? ==>
      forall k :: 0 <= k < |Split(RightSide(expr).value)| && IsIdentifier(Split(RightSide(expr).value)[k]) ==>
        Split(RightSide(expr).value)[k] in Dependencies(expr)
    ensures forall d :: d in Dependencies(expr) ==>
      d in CompoundName(Strip(LeftSide(expr))) ||
      (RightSide(expr).Some? && d in IncrementName(RightSide(expr).value)) ||
      IsIdentifier(d)
  {
    if RightSide(expr).Some? {
      TokenNamesSpec(Split(RightSide(expr).value));
    }
  }
}
