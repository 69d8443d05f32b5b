/** String helpers over `seq<char>`: ASCII lower-casing, substring search
    (Python's `in` on strings) and Python's `str.strip()`. */
module Text {
  import opened Wrappers

  /** ASCII lower-casing of one character: 'A'..'Z' become 'a'..'z'. */
  function Lower(c: char): char
  {
    if 'A' <= c <= 'Z' then (c as int + 32) as char else c
  }

  /** Lower-casing of a whole string, character by character. */
  function LowerStr(s: string): string
  {
    seq(|s|, i requires 0 <= i < |s| => Lower(s[i]))
  }

  /** `t` occurs in `s` at position `i`. */
  predicate OccursAt(s: string, t: string, i: nat)
  {
    i + |t| <= |s| && s[i..i + |t|] == t
  }

  /** The leftmost occurrence of `t` in `s` at or after `from`. */
  function IndexFrom(s: string, t: string, from: nat): (r: Option<nat>)
    ensures r.Some? ==> from <= r.value && OccursAt(s, t, r.value)
    ensures forall i :: from <= i && (r.None? || i < r.value) ==> !OccursAt(s, t, i)
    decreases |s| - from
  {
    if from + |t| > |s| then None
    else if s[from..from + |t|] == t then Some(from)
    else IndexFrom(s, t, from + 1)
  }

  /** Python's `t in s` for strings. */
  function Contains(s: string, t: string): (b: bool)
    ensures b <==> exists i: nat :: OccursAt(s, t, i)
  {
    IndexFrom(s, t, 0).Some?
  }

  /** A witness-based way to establish `Contains`. */
  lemma ContainsAt(s: string, t: string, i: nat)
    requires OccursAt(s, t, i)
    ensures Contains(s, t)
  {
  }

  /** Occurrences are preserved by taking a larger string around them. */
  lemma {:induction false} ContainsInfix(s: string, t: string, u: string)
    requires Contains(u, t)
    requires exists i: nat :: OccursAt(s, u, i)
    ensures Contains(s, t)
  {
    var i: nat :| OccursAt(s, u, i);
    var k: nat :| OccursAt(u, t, k);
    assert u == s[i..i + |u|];
    forall m | 0 <= m < |t|
      ensures s[i + k..i + k + |t|][m] == t[m]
    {
      assert t[m] == u[k + m] == s[i + k + m];
    }
    assert s[i + k..i + k + |t|] == t;
    ContainsAt(s, t, i + k);
  }

  /** Python's `str.isspace()` for a single character: the Unicode characters
      of category Zs or of bidirectional class WS, B or S. */
  predicate IsSpace(c: char)
  {
    || ('\t' <= c <= '\r')
    || ('\U{1C}' <= c <= '\U{1F}')
    || c == ' '
    || c == '\U{85}'
    || c == '\U{A0}'
    || c == '\U{1680}'
    || ('\U{2000}' <= c <= '\U{200A}')
    || c == '\U{2028}'
    || c == '\U{2029}'
    || c == '\U{202F}'
    || c == '\U{205F}'
    || c == '\U{3000}'
  }

  /** Every character of `s` is whitespace. */
  predicate AllSpace(s: string)
  {
    forall i :: 0 <= i < |s| ==> IsSpace(s[i])
  }

  /** Neither end of `s` is whitespace: what `strip()` leaves behind. */
  predicate Trimmed(s: string)
  {
    s == [] || (!IsSpace(s[0]) && !IsSpace(s[|s| - 1]))
  }

  /** The length of the whitespace run that starts `s`. */
  function LeadingSpace(s: string): (a: nat)
    ensures a <= |s|
    ensures AllSpace(s[..a])
    ensures a == |s| || !IsSpace(s[a])
  {
    if s != [] && IsSpace(s[0]) then 1 + LeadingSpace(s[1..]) else 0
  }

  /** The position where the whitespace run that ends `s` begins. */
  function TrailingSpace(s: string): (b: nat)
    ensures b <= |s|
    ensures AllSpace(s[b..])
    ensures b == 0 || !IsSpace(s[b - 1])
  {
    if s != [] && IsSpace(s[|s| - 1]) then TrailingSpace(s[..|s| - 1]) else |s|
  }

  /** Python's `s.strip()`: `s` without its leading and trailing whitespace. */
  function Strip(s: string): (r: string)
    ensures Trimmed(r)
    ensures exists a: nat :: a + |r| <= |s| && s[a..a + |r|] == r && AllSpace(s[..a]) && AllSpace(s[a + |r|..])
  {
    var a := LeadingSpace(s);
    if a == |s| then
      assert s[0..0] == [] && s[0..] == s[..a];
      []
    else
      var b := TrailingSpace(s);
      assert a < b;
      assert s[a + (b - a)..] == s[b..];
      s[a..b]
  }

  /** `strip()` recovers the core of any whitespace-padded trimmed string:
      the decomposition `pad + core + pad` determines its result. */
  lemma {:induction false} StripPadded(w1: string, core: string, w2: string)
    requires AllSpace(w1) && AllSpace(w2) && Trimmed(core)
    ensures Strip(w1 + core + w2) == core
  {
    var s := w1 + core + w2;
    var a := LeadingSpace(s);
    if core == [] {
      assert s == w1 + w2;
      assert AllSpace(s);
    } else {
      assert s[|w1|] == core[0];
      assert a == |w1|;
      var b := TrailingSpace(s);
      assert s[|w1| + |core| - 1] == core[|core| - 1];
      assert b == |w1| + |core|;
      assert s[a..b] == core;
    }
  }

  /** Stripping twice is the same as stripping once. */
  lemma StripIdempotent(s: string)
    ensures Strip(Strip(s)) == Strip(s)
  {
    var r := Strip(s);
    assert [] + r + [] == r;
    StripPadded([], r, []);
  }
}
