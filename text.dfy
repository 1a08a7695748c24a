/** The few Python `str` methods and regular-expression classes the calculator relies on,
    over ASCII: `isspace`, `isdigit`, `isidentifier`, `\w`, `strip`, `split()`, `rstrip(chars)`,
    `startswith`, `endswith`, `in` on substrings and `int()` of a digit string. */
module Text {

  /** `str.isspace` on one ASCII character; also the regular-expression class `\s`. Besides
      space, tab, line feed, carriage return, vertical tab and form feed, Python counts the
      four separators `\x1c`-`\x1f` as white space. */
  predicate IsSpace(c: char) {
    c == ' ' || c == '\t' || c == '\n' || c == '\r' || c == '\U{000B}' || c == '\U{000C}' ||
    ('\U{001C}' <= c <= '\U{001F}')
  }

  predicate IsDigit(c: char) { '0' <= c <= '9' }

  predicate IsLetter(c: char) { 'a' <= c <= 'z' || 'A' <= c <= 'Z' }

  /** The regular-expression class `\w`. */
  predicate IsWordChar(c: char) { IsLetter(c) || IsDigit(c) || c == '_' }

  /** `str.isdigit`: non-empty and all digits. */
  predicate IsDigits(s: string) {
    |s| > 0 && forall i :: 0 <= i < |s| ==> IsDigit(s[i])
  }

  /** `str.isidentifier`: a letter or `_`, then letters, digits or `_`. */
  predicate IsIdentifier(s: string) {
    |s| > 0 && (IsLetter(s[0]) || s[0] == '_') && forall i :: 0 <= i < |s| ==> IsWordChar(s[i])
  }

  /** `str.lstrip()`: drop leading whitespace. */
  function LStrip(s: string): (r: string)
    ensures |r| <= |s|
  {
    if s != [] && IsSpace(s[0]) then LStrip(s[1..]) else s
  }

  /** `str.rstrip()`: drop trailing whitespace. */
  function RStrip(s: string): (r: string)
    ensures |r| <= |s|
  {
    if s != [] && IsSpace(s[|s| - 1]) then RStrip(s[..|s| - 1]) else s
  }

  /** `str.strip()`. */
  function Strip(s: string): (r: string)
    ensures |r| <= |s|
  {
    RStrip(LStrip(s))
  }

  /** Where `Strip(s)` starts inside `s`. */
  function StripStart(s: string): (i: nat)
    ensures i + |Strip(s)| <= |s|
  {
    |s| - |LStrip(s)|
  }

  /** `LStrip(s)` is the longest suffix of `s` that does not start with whitespace. */
  lemma {:induction false} LStripSpec(s: string)
    ensures |LStrip(s)| <= |s| && LStrip(s) == s[|s| - |LStrip(s)|..]
    ensures LStrip(s) == [] || !IsSpace(LStrip(s)[0])
    ensures forall i :: 0 <= i < |s| - |LStrip(s)| ==> IsSpace(s[i])
  {
    if s != [] && IsSpace(s[0]) {
      LStripSpec(s[1..]);
      assert forall i :: 1 <= i < |s| ==> s[i] == s[1..][i - 1];
    }
  }

  /** `RStrip(s)` is the longest prefix of `s` that does not end with whitespace. */
  lemma {:induction false} RStripSpec(s: string)
    ensures |RStrip(s)| <= |s| && RStrip(s) == s[..|RStrip(s)|]
    ensures RStrip(s) == [] || !IsSpace(RStrip(s)[|RStrip(s)| - 1])
    ensures forall i :: |RStrip(s)| <= i < |s| ==> IsSpace(s[i])
  {
    if s != [] && IsSpace(s[|s| - 1]) {
      RStripSpec(s[..|s| - 1]);
    }
  }

  /** `Strip(s)` is a slice of `s` with whitespace on neither end, and only whitespace was
      dropped on either side. */
  lemma StripSpec(s: string)
    ensures Strip(s) == s[StripStart(s)..StripStart(s) + |Strip(s)|]
    ensures forall k :: 0 <= k < StripStart(s) ==> IsSpace(s[k])
    ensures forall k :: StripStart(s) + |Strip(s)| <= k < |s| ==> IsSpace(s[k])
    ensures Strip(s) == [] || (!IsSpace(Strip(s)[0]) && !IsSpace(Strip(s)[|Strip(s)| - 1]))
  {
    var l := LStrip(s);
    LStripSpec(s);
    RStripSpec(l);
    var r := RStrip(l);
    var i := |s| - |l|;
    assert r == s[i..i + |r|];
    if r != [] {
      assert r[0] == l[0];
    }
    forall k | i + |r| <= k < |s| ensures IsSpace(s[k]) {
      assert s[k] == l[k - i];
    }
  }

  /** Stripping a string with whitespace on neither end leaves it unchanged. */
  lemma StripClean(s: string)
    requires s == [] || (!IsSpace(s[0]) && !IsSpace(s[|s| - 1]))
    ensures LStrip(s) == s && RStrip(s) == s && Strip(s) == s
  {
  }

  lemma StripIdempotent(s: string)
    ensures Strip(Strip(s)) == Strip(s)
  {
    StripSpec(s);
    StripClean(Strip(s));
  }

  /** The position of the first `c` in `s`, or `|s|` when there is none; `s[..IndexOf(s, c)]`
      is `s.split(c)[0]` and `s.split(c, 1)` has a second part exactly when the index is below `|s|`. */
  function IndexOf(s: string, c: char): (i: nat)
    ensures i <= |s|
  {
    if s == [] then 0 else if s[0] == c then 0 else 1 + IndexOf(s[1..], c)
  }

  lemma {:induction false} IndexOfSpec(s: string, c: char)
    ensures IndexOf(s, c) < |s| ==> s[IndexOf(s, c)] == c
    ensures forall k :: 0 <= k < IndexOf(s, c) ==> s[k] != c
    ensures IndexOf(s, c) == |s| <==> c !in s
  {
    if s != [] && s[0] != c {
      IndexOfSpec(s[1..], c);
      assert forall k :: 1 <= k < |s| ==> s[k] == s[1..][k - 1];
      assert c in s[1..] ==> c in s;
    }
  }

  /** The length of the longest run of `\w` characters starting at `i`. */
  function WordRun(s: string, i: nat): (n: nat)
    requires i <= |s|
    ensures i + n <= |s|
    decreases |s| - i
  {
    if i < |s| && IsWordChar(s[i]) then 1 + WordRun(s, i + 1) else 0
  }

  /** The length of the longest run of whitespace starting at `i` (a greedy `\s*`). */
  function SpaceRun(s: string, i: nat): (n: nat)
    requires i <= |s|
    ensures i + n <= |s|
    decreases |s| - i
  {
    if i < |s| && IsSpace(s[i]) then 1 + SpaceRun(s, i + 1) else 0
  }

  /** The length of the longest run of non-whitespace characters starting at `i`. */
  function TokenRun(s: string, i: nat): (n: nat)
    requires i <= |s|
    ensures i + n <= |s|
    decreases |s| - i
  {
    if i < |s| && !IsSpace(s[i]) then 1 + TokenRun(s, i + 1) else 0
  }

  /** `WordRun(s, i)` is the length of a run of `\w` that cannot be extended. */
  lemma {:induction false} WordRunSpec(s: string, i: nat)
    requires i <= |s|
    ensures forall k :: i <= k < i + WordRun(s, i) ==> IsWordChar(s[k])
    ensures i + WordRun(s, i) == |s| || !IsWordChar(s[i + WordRun(s, i)])
    decreases |s| - i
  {
    if i < |s| && IsWordChar(s[i]) {
      WordRunSpec(s, i + 1);
    }
  }

  /** `SpaceRun(s, i)` is the length of a run of whitespace that cannot be extended. */
  lemma {:induction false} SpaceRunSpec(s: string, i: nat)
    requires i <= |s|
    ensures forall k :: i <= k < i + SpaceRun(s, i) ==> IsSpace(s[k])
    ensures i + SpaceRun(s, i) == |s| || !IsSpace(s[i + SpaceRun(s, i)])
    decreases |s| - i
  {
    if i < |s| && IsSpace(s[i]) {
      SpaceRunSpec(s, i + 1);
    }
  }

  /** `TokenRun(s, i)` is the length of a run of non-whitespace that cannot be extended. */
  lemma {:induction false} TokenRunSpec(s: string, i: nat)
    requires i <= |s|
    ensures forall k :: i <= k < i + TokenRun(s, i) ==> !IsSpace(s[k])
    ensures i + TokenRun(s, i) == |s| || IsSpace(s[i + TokenRun(s, i)])
    decreases |s| - i
  {
    if i < |s| && !IsSpace(s[i]) {
      TokenRunSpec(s, i + 1);
    }
  }

  /** A word run that stops inside `s`, or is not continued by `rest`, is unchanged by
      appending `rest`. */
  lemma {:induction false} WordRunPrefix(s: string, rest: string, i: nat)
    requires i <= |s| && (i + WordRun(s, i) < |s| || rest == [] || !IsWordChar(rest[0]))
    ensures WordRun(s + rest, i) == WordRun(s, i)
    decreases |s| - i
  {
    if i < |s| {
      assert (s + rest)[i] == s[i];
      if IsWordChar(s[i]) {
        WordRunPrefix(s, rest, i + 1);
      }
    } else if rest != [] {
      assert (s + rest)[i] == rest[0];
    }
  }

  /** A space run that stops inside `s`, or is not continued by `rest`, is unchanged by
      appending `rest`. */
  lemma {:induction false} SpaceRunPrefix(s: string, rest: string, i: nat)
    requires i <= |s| && (i + SpaceRun(s, i) < |s| || rest == [] || !IsSpace(rest[0]))
    ensures SpaceRun(s + rest, i) == SpaceRun(s, i)
    decreases |s| - i
  {
    if i < |s| {
      assert (s + rest)[i] == s[i];
      if IsSpace(s[i]) {
        SpaceRunPrefix(s, rest, i + 1);
      }
    } else if rest != [] {
      assert (s + rest)[i] == rest[0];
    }
  }

  /** A token of `str.split()`: non-empty, without whitespace. */
  predicate IsToken(t: string) {
    |t| > 0 && forall k :: 0 <= k < |t| ==> !IsSpace(t[k])
  }

  /** `str.split()` with no argument: the maximal runs of non-whitespace, in order. */
  function Split(s: string): seq<string> {
    SplitFrom(s, 0)
  }

  /** The tokens of `s[i..]`. */
  function SplitFrom(s: string, i: nat): seq<string>
    requires i <= |s|
    decreases |s| - i
  {
    var j := i + SpaceRun(s, i);
    if j == |s| then []
    else
      var n := TokenRun(s, j);
      [s[j..j + n]] + SplitFrom(s, j + n)
  }

  /** Every piece `str.split()` returns is a token. */
  lemma {:induction false} SplitTokens(s: string, i: nat)
    requires i <= |s|
    ensures forall k :: 0 <= k < |SplitFrom(s, i)| ==> IsToken(SplitFrom(s, i)[k])
    decreases |s| - i
  {
    var j := i + SpaceRun(s, i);
    SpaceRunSpec(s, i);
    if j < |s| {
      var n := TokenRun(s, j);
      TokenRunSpec(s, j);
      SplitTokens(s, j + n);
      var rest := SplitFrom(s, j + n);
      var all := SplitFrom(s, i);
      assert all == [s[j..j + n]] + rest;
      assert IsToken(s[j..j + n]);
      forall k | 0 <= k < |all| ensures IsToken(all[k]) {
        if k > 0 {
          assert all[k] == rest[k - 1];
        }
      }
    }
  }

  /** `s.startswith(p)`. */
  predicate StartsWith(s: string, p: string) {
    |p| <= |s| && s[..|p|] == p
  }

  /** `s.endswith(p)`. */
  predicate EndsWith(s: string, p: string) {
    |p| <= |s| && s[|s| - |p|..] == p
  }

  /** `p` occurs in `s` at position `k`. */
  predicate OccursAt(s: string, p: string, k: nat) {
    k + |p| <= |s| && s[k..k + |p|] == p
  }

  /** `p in s` for strings: `p` occurs at some position of `s`. */
  function Contains(s: string, p: string): (b: bool)
    ensures b ==> |p| <= |s|
  {
    ContainsFrom(s, p, 0)
  }

  /** Whether `p` occurs in `s` at some position from `i` on. */
  function ContainsFrom(s: string, p: string, i: nat): (b: bool)
    requires i <= |s|
    ensures b ==> i + |p| <= |s|
    decreases |s| - i
  {
    if i + |p| > |s| then false
    else if OccursAt(s, p, i) then true
    else ContainsFrom(s, p, i + 1)
  }

  /** `ContainsFrom` holds exactly when `p` occurs at some position from `i` on. */
  lemma {:induction false} ContainsFromSpec(s: string, p: string, i: nat)
    requires i <= |s|
    ensures ContainsFrom(s, p, i) <==> exists k :: i <= k && OccursAt(s, p, k)
    decreases |s| - i
  {
    if i + |p| <= |s| && !OccursAt(s, p, i) {
      ContainsFromSpec(s, p, i + 1);
      if exists k :: i <= k && OccursAt(s, p, k) {
        var k :| i <= k && OccursAt(s, p, k);
        assert k != i;
      }
    }
  }

  /** `p in s` whenever `p` occurs at position `i`. */
  lemma ContainsAt(s: string, p: string, i: nat)
    requires OccursAt(s, p, i)
    ensures Contains(s, p)
  {
    ContainsFromSpec(s, p, 0);
  }

  /** Without `p` in `s`, `p` occurs nowhere in `s`. */
  lemma NotContains(s: string, p: string)
    requires !Contains(s, p)
    ensures forall k: nat :: !OccursAt(s, p, k)
  {
    ContainsFromSpec(s, p, 0);
  }

  /** What occurs in a slice of `s` occurs in `s`. */
  lemma ContainsInSlice(s: string, lo: nat, hi: nat, p: string)
    requires lo <= hi <= |s| && Contains(s[lo..hi], p)
    ensures Contains(s, p)
  {
    var t := s[lo..hi];
    ContainsFromSpec(t, p, 0);
    var k: nat :| OccursAt(t, p, k);
    assert s[lo + k..lo + k + |p|] == t[k..k + |p|];
    ContainsAt(s, p, lo + k);
  }

  /** Whether the two characters `a`, `b` stand side by side in `s` from position `i` on. */
  function AdjacentFrom(s: string, a: char, b: char, i: nat): bool
    decreases |s| - i
  {
    i + 1 < |s| && ((s[i] == a && s[i + 1] == b) || AdjacentFrom(s, a, b, i + 1))
  }

  /** A two-character string occurs in `s` exactly when its characters stand side by side in
      `s`. */
  lemma {:induction false} AdjacentFromSpec(s: string, p: string, i: nat)
    requires |p| == 2 && i <= |s|
    ensures AdjacentFrom(s, p[0], p[1], i) <==> ContainsFrom(s, p, i)
    decreases |s| - i
  {
    if i + 1 < |s| {
      assert s[i..i + 2] == p <==> s[i] == p[0] && s[i + 1] == p[1] by {
        assert s[i..i + 2] == [s[i], s[i + 1]];
        assert p == [p[0], p[1]];
      }
      AdjacentFromSpec(s, p, i + 1);
    }
  }

  /** When no `a` in `s` is followed by `b`, the pair does not stand side by side. */
  lemma {:induction false} NotAdjacentFrom(s: string, a: char, b: char, i: nat)
    requires forall k :: i <= k < |s| - 1 && s[k] == a ==> s[k + 1] != b
    ensures !AdjacentFrom(s, a, b, i)
    decreases |s| - i
  {
    if i + 1 < |s| {
      NotAdjacentFrom(s, a, b, i + 1);
    }
  }

  /** `s.rstrip(cs)`: drop trailing characters that belong to `cs`. */
  function RStripChars(s: string, cs: set<char>): string {
    if s != [] && s[|s| - 1] in cs then RStripChars(s[..|s| - 1], cs) else s
  }

  /** `int(s)` for a string of decimal digits. */
  function DigitsValue(s: string): (n: nat)
    requires forall i :: 0 <= i < |s| ==> IsDigit(s[i])
  {
    if s == [] then 0
    else
      assert IsDigit(s[|s| - 1]);
      10 * DigitsValue(s[..|s| - 1]) + (s[|s| - 1] as int - '0' as int)
  }
}
