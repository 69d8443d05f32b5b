/** The five disconnect patterns of the log filter and the part of Python's
    `re.search(pattern, message, re.IGNORECASE)` they exercise.

    Every pattern has the shape `prefix(.*)suffix` with literal, newline-free
    `prefix` and `suffix`; the second and the fourth have an empty suffix,
    i.e. they end in `(.*)`. For this shape a regular-expression search
    finds the leftmost start at which some match exists, and there the greedy
    `(.*)` (which never crosses a line break) extends to the last occurrence
    of the suffix on the same line. The model states that reading
    declaratively (`IsSearchResult`) and computes it with plain string scans. */
module Patterns {
  import opened Wrappers
  import opened Text

  /** A pattern `prefix(.*)suffix`; an empty `suffix` stands for a pattern
      that ends with the capture group. */
  datatype Pattern = Pattern(prefix: string, suffix: string)

  /** The disconnect patterns, in the order they are tried. */
  const DisconnectPatterns: seq<Pattern> := [
    Pattern("pppoe ", " disconnected"),
    Pattern("PPPoE connection closed for user ", ""),
    Pattern("user ", " disconnected"),
    Pattern("removed pppoe client ", ""),
    Pattern("PPP user ", " closed")
  ]

  /** The literal `t` occurs in `s` at `i`, ignoring case. */
  predicate LiteralAt(s: string, t: string, i: nat)
  {
    i + |t| <= |s| && LowerStr(s[i..i + |t|]) == LowerStr(t)
  }

  /** No line break among `s[k..j]`: the text `.*` may consume. */
  predicate LineFree(s: string, k: nat, j: nat)
  {
    forall m :: k <= m < j && m < |s| ==> s[m] != '\n'
  }

  /** `p` matches `s` with the match starting at `i` and the capture group
      ending at `j` (it starts right after the prefix). */
  predicate MatchSpan(s: string, p: Pattern, i: nat, j: nat)
  {
    && LiteralAt(s, p.prefix, i)
    && i + |p.prefix| <= j
    && LineFree(s, i + |p.prefix|, j)
    && LiteralAt(s, p.suffix, j)
  }

  /** A successful search: where the match starts and where its capture group
      `match.group(1)` lies. */
  datatype Match = Match(start: nat, groupStart: nat, groupEnd: nat)

  /** The text of the capture group. */
  function Group(s: string, m: Match): string
    requires m.groupStart <= m.groupEnd <= |s|
  {
    s[m.groupStart..m.groupEnd]
  }

  /** `m` is what a regular-expression search for `p` in `s` returns: the
      leftmost start that admits a match, and there the longest capture. */
  ghost predicate IsSearchResult(s: string, p: Pattern, m: Match)
  {
    && m.groupStart == m.start + |p.prefix|
    && MatchSpan(s, p, m.start, m.groupEnd)
    && (forall i: nat, j: nat :: i < m.start ==> !MatchSpan(s, p, i, j))
    && (forall j: nat :: MatchSpan(s, p, m.start, j) ==> j <= m.groupEnd)
  }

  /** The end of the line that position `k` lies on. */
  function LineEnd(s: string, k: nat): (e: nat)
    requires k <= |s|
    ensures k <= e <= |s|
    ensures LineFree(s, k, e)
    ensures e == |s| || s[e] == '\n'
    decreases |s| - k
  {
    if k == |s| || s[k] == '\n' then k else LineEnd(s, k + 1)
  }

  /** The last position in `[k, j]` where the literal `t` occurs, ignoring case. */
  function LastLiteral(s: string, t: string, k: nat, j: nat): (r: Option<nat>)
    requires k <= j
    ensures r.Some? ==> k <= r.value <= j && LiteralAt(s, t, r.value)
    ensures forall m: nat :: k <= m <= j && (r.None? || r.value < m) ==> !LiteralAt(s, t, m)
    decreases j - k
  {
    if LiteralAt(s, t, j) then Some(j)
    else if j == k then None
    else LastLiteral(s, t, k, j - 1)
  }

  /** Attempting the pattern at one start position: the prefix must occur
      there, and the capture then runs to the last suffix on that line. */
  function MatchAt(s: string, p: Pattern, i: nat): (r: Option<Match>)
    ensures r.Some? ==> && r.value.start == i
                        && r.value.groupStart == i + |p.prefix|
                        && MatchSpan(s, p, i, r.value.groupEnd)
                        && forall j: nat :: MatchSpan(s, p, i, j) ==> j <= r.value.groupEnd
    ensures r.None? ==> forall j: nat :: !MatchSpan(s, p, i, j)
  {
    if !LiteralAt(s, p.prefix, i) then None
    else
      var k := i + |p.prefix|;
      var e := LineEnd(s, k);
      match LastLiteral(s, p.suffix, k, e)
      case None => None
      case Some(j) => Some(Match(i, k, j))
  }

  /** Scanning start positions from `i` on, as a search does. */
  function SearchFrom(s: string, p: Pattern, i: nat): (r: Option<Match>)
    ensures r.Some? ==> && i <= r.value.start
                        && r.value.groupStart == r.value.start + |p.prefix|
                        && MatchSpan(s, p, r.value.start, r.value.groupEnd)
                        && (forall i': nat, j: nat :: i <= i' < r.value.start ==> !MatchSpan(s, p, i', j))
                        && (forall j: nat :: MatchSpan(s, p, r.value.start, j) ==> j <= r.value.groupEnd)
    ensures r.None? ==> forall i': nat, j: nat :: i <= i' ==> !MatchSpan(s, p, i', j)
    decreases |s| + 1 - i
  {
    match MatchAt(s, p, i)
    case Some(m) => Some(m)
    case None => if |s| <= i then None else SearchFrom(s, p, i + 1)
  }

  /** `re.search(p, s, re.IGNORECASE)`: the match, if any, with its group. */
  function Search(s: string, p: Pattern): (r: Option<Match>)
    ensures r.Some? <==> exists i: nat, j: nat :: MatchSpan(s, p, i, j)
    ensures r.Some? ==> IsSearchResult(s, p, r.value)
  {
    SearchFrom(s, p, 0)
  }

  /** The pattern (by its index in the list) that produced a match. */
  datatype Hit = Hit(index: nat, m: Match)

  /** Trying `pats[n..]` in order; the first one that matches wins. */
  function FirstMatchFrom(s: string, pats: seq<Pattern>, n: nat): (r: Option<Hit>)
    ensures r.Some? ==> n <= r.value.index < |pats| && Search(s, pats[r.value.index]) == Some(r.value.m)
    ensures forall n': nat :: n <= n' < |pats| && (r.None? || n' < r.value.index) ==> Search(s, pats[n']).None?
    decreases |pats| - n
  {
    if |pats| <= n then None
    else
      match Search(s, pats[n])
      case Some(m) => Some(Hit(n, m))
      case None => FirstMatchFrom(s, pats, n + 1)
  }

  /** The loop over the pattern list: the first pattern that matches `s`. */
  function FirstMatch(s: string, pats: seq<Pattern>): (r: Option<Hit>)
    ensures r.Some? ==> r.value.index < |pats| && Search(s, pats[r.value.index]) == Some(r.value.m)
    ensures r.Some? ==> forall n: nat :: n < r.value.index ==> Search(s, pats[n]).None?
    ensures r.None? <==> forall n: nat :: n < |pats| ==> Search(s, pats[n]).None?
  {
    FirstMatchFrom(s, pats, 0)
  }

  /** Round trip: in a line written as `prefix + x + suffix` the search
      captures exactly `x`, whatever `x` contains (other occurrences of the
      prefix or the suffix included), as long as it has no line break;
      whatever follows on later lines does not matter. */
  lemma SearchRoundTrip(p: Pattern, x: string, rest: string)
    requires '\n' !in x && '\n' !in p.suffix
    requires rest == [] || rest[0] == '\n'
    ensures Search(p.prefix + x + p.suffix + rest, p) == Some(Match(0, |p.prefix|, |p.prefix| + |x|))
  {
    var s := p.prefix + x + p.suffix + rest;
    var k := |p.prefix|;
    var e := k + |x| + |p.suffix|;
    assert s[0..k] == p.prefix;
    assert s[k + |x|..e] == p.suffix;
    assert MatchSpan(s, p, 0, k + |x|);
    forall j: nat | MatchSpan(s, p, 0, j)
      ensures j <= k + |x|
    {
      if rest != [] {
        assert s[e] == '\n';
        SuffixBeforeLineBreak(s, p.suffix, k, e, j);
      }
    }
  }

  /** A newline-free literal found on the line that starts at `k` ends
      before the line break at `e`. */
  lemma SuffixBeforeLineBreak(s: string, t: string, k: nat, e: nat, j: nat)
    requires '\n' !in t
    requires k <= e < |s| && s[e] == '\n'
    requires k <= j && LineFree(s, k, j) && LiteralAt(s, t, j)
    ensures j + |t| <= e
  {
    LiteralChar(s, t, j, e - j);
  }

  /** One character of a case-insensitive literal occurrence. */
  lemma LiteralChar(s: string, t: string, j: nat, m: int)
    ensures LiteralAt(s, t, j) && 0 <= m < |t| ==> Lower(s[j + m]) == Lower(t[m]) && t[m] in t
  {
    if LiteralAt(s, t, j) && 0 <= m < |t| {
      assert LowerStr(s[j..j + |t|])[m] == LowerStr(t)[m];
    }
  }
}
