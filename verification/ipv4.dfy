/** The address extraction of the log filter: the leftmost substring matched
    by `\d{1,3}\.\d{1,3}\.\d{1,3}\.\d{1,3}` (`re.search`), or "N/A". The
    octets are not range-checked, so "999.1.1.1" counts as an address. */
module Ipv4 {
  import opened Wrappers

  /** The text used when a message carries no address. */
  const NoAddress: string := "N/A"

  predicate IsDigit(c: char)
  {
    '0' <= c <= '9'
  }

  /** `s[lo..hi]` is one `\d{1,3}` group. */
  predicate OctetIn(s: string, lo: nat, hi: nat)
  {
    lo + 1 <= hi <= lo + 3 && hi <= |s| && forall m :: lo <= m < hi ==> IsDigit(s[m])
  }

  /** `s[i..j]` is matched in full by `\d{1,3}\.\d{1,3}\.\d{1,3}\.\d{1,3}`,
      with its three dots at `a`, `b` and `c`. */
  predicate QuadSplit(s: string, i: nat, j: nat, a: nat, b: nat, c: nat)
  {
    && j <= |s|
    && a < |s| && s[a] == '.' && b < |s| && s[b] == '.' && c < |s| && s[c] == '.'
    && OctetIn(s, i, a) && OctetIn(s, a + 1, b) && OctetIn(s, b + 1, c) && OctetIn(s, c + 1, j)
  }

  /** `s[i..j]` is a dotted quad. */
  ghost predicate QuadSpan(s: string, i: nat, j: nat)
  {
    exists a: nat, b: nat, c: nat :: QuadSplit(s, i, j, a, b, c)
  }

  /** `s[i..j]` is what the search returns: the quad that starts leftmost,
      extended as far as the greedy last group allows. */
  ghost predicate IsLeftmostQuad(s: string, i: nat, j: nat)
  {
    && QuadSpan(s, i, j)
    && (forall i': nat, j': nat :: i' < i ==> !QuadSpan(s, i', j'))
    && (forall j': nat :: QuadSpan(s, i, j') ==> j' <= j)
  }

  /** The length of the run of digits that starts at `i`. */
  function DigitRun(s: string, i: nat): (n: nat)
    requires i <= |s|
    ensures i + n <= |s|
    ensures i + n == |s| || !IsDigit(s[i + n])
    decreases |s| - i
  {
    if i < |s| && IsDigit(s[i]) then 1 + DigitRun(s, i + 1) else 0
  }

  /** Every character of the run is a digit. */
  lemma {:induction false} DigitRunDigits(s: string, i: nat)
    requires i <= |s|
    ensures forall m :: i <= m < i + DigitRun(s, i) ==> IsDigit(s[m])
    decreases |s| - i
  {
    if i < |s| && IsDigit(s[i]) {
      DigitRunDigits(s, i + 1);
    }
  }

  /** `\d{1,3}\.` at `i`: the position of the dot. */
  function OctetDot(s: string, i: nat): (r: Option<nat>)
    requires i <= |s|
  {
    var n := DigitRun(s, i);
    if 1 <= n <= 3 && i + n < |s| && s[i + n] == '.' then Some(i + n) else None
  }

  /** What `OctetDot` finds is one group followed by a dot. */
  lemma OctetDotSound(s: string, i: nat)
    requires i <= |s| && OctetDot(s, i).Some?
    ensures var a := OctetDot(s, i).value; OctetIn(s, i, a) && a < |s| && s[a] == '.'
  {
    DigitRunDigits(s, i);
  }

  /** Backtracking cannot find another `\d{1,3}\.` at `i`, since the dot must
      follow the whole run of digits: `OctetDot` finds the only one. */
  lemma OctetDotUnique(s: string, i: nat, a: nat)
    requires OctetIn(s, i, a) && a < |s| && s[a] == '.'
    ensures OctetDot(s, i) == Some(a)
  {
    DigitRunDigits(s, i);
  }

  /** The last, greedy `\d{1,3}` at `i`: its end. */
  function LastOctet(s: string, i: nat): (r: Option<nat>)
    requires i <= |s|
  {
    var n := DigitRun(s, i);
    if n == 0 then None else if n <= 3 then Some(i + n) else Some(i + 3)
  }

  /** What `LastOctet` finds is one group. */
  lemma LastOctetSound(s: string, i: nat)
    requires i <= |s| && LastOctet(s, i).Some?
    ensures OctetIn(s, i, LastOctet(s, i).value)
  {
    DigitRunDigits(s, i);
  }

  /** The greedy group is the longest one that starts at `i`. */
  lemma LastOctetLongest(s: string, i: nat, k: nat)
    requires OctetIn(s, i, k)
    ensures LastOctet(s, i).Some? && k <= LastOctet(s, i).value
  {
    DigitRunDigits(s, i);
  }

  /** The quad that starts at `i`, if there is one: the end of the longest. */
  function QuadAt(s: string, i: nat): (r: Option<nat>)
    requires i <= |s|
  {
    match OctetDot(s, i)
    case None => None
    case Some(a) =>
      match OctetDot(s, a + 1)
      case None => None
      case Some(b) =>
        match OctetDot(s, b + 1)
        case None => None
        case Some(c) => LastOctet(s, c + 1)
  }

  /** What `QuadAt` finds at `i` is a quad. */
  lemma QuadAtSound(s: string, i: nat)
    requires i <= |s| && QuadAt(s, i).Some?
    ensures QuadSpan(s, i, QuadAt(s, i).value)
  {
    var a := OctetDot(s, i).value;
    OctetDotSound(s, i);
    var b := OctetDot(s, a + 1).value;
    OctetDotSound(s, a + 1);
    var c := OctetDot(s, b + 1).value;
    OctetDotSound(s, b + 1);
    QuadAtUnfold(s, i, a, b, c);
    LastOctetSound(s, c + 1);
    assert QuadSplit(s, i, QuadAt(s, i).value, a, b, c);
  }

  /** `QuadAt` finds a quad at `i` exactly when one starts there, and the
      longest one. */
  lemma QuadAtSpec(s: string, i: nat)
    requires i <= |s|
    ensures QuadAt(s, i).Some? ==> QuadSpan(s, i, QuadAt(s, i).value)
    ensures forall j: nat :: QuadSpan(s, i, j) ==> QuadAt(s, i).Some? && j <= QuadAt(s, i).value
  {
    if QuadAt(s, i).Some? {
      QuadAtSound(s, i);
    }
    forall j: nat | QuadSpan(s, i, j)
      ensures QuadAt(s, i).Some? && j <= QuadAt(s, i).value
    {
      var a: nat, b: nat, c: nat :| QuadSplit(s, i, j, a, b, c);
      QuadAtLongest(s, i, j, a, b, c);
    }
  }

  /** Any quad at `i` is found by `QuadAt`, and is no longer than its result. */
  lemma QuadAtLongest(s: string, i: nat, j: nat, a: nat, b: nat, c: nat)
    requires QuadSplit(s, i, j, a, b, c)
    ensures QuadAt(s, i).Some? && j <= QuadAt(s, i).value
  {
    OctetDotUnique(s, i, a);
    OctetDotUnique(s, a + 1, b);
    OctetDotUnique(s, b + 1, c);
    LastOctetLongest(s, c + 1, j);
    QuadAtUnfold(s, i, a, b, c);
  }

  /** `QuadAt` once its three dots are known. */
  lemma QuadAtUnfold(s: string, i: nat, a: nat, b: nat, c: nat)
    requires i <= |s| && a < |s| && b < |s| && c < |s|
    requires OctetDot(s, i) == Some(a) && OctetDot(s, a + 1) == Some(b) && OctetDot(s, b + 1) == Some(c)
    ensures QuadAt(s, i) == LastOctet(s, c + 1)
  {
  }

  /** Scanning start positions from `i` on: the first position where a quad
      starts, with the end `QuadAt` gives it. */
  function FindQuadFrom(s: string, i: nat): (r: Option<(nat, nat)>)
    requires i <= |s|
    ensures r.Some? ==> i <= r.value.0 <= |s| && QuadAt(s, r.value.0) == Some(r.value.1)
    ensures forall i' :: i <= i' <= |s| && (r.None? || i' < r.value.0) ==> QuadAt(s, i').None?
    decreases |s| - i
  {
    match QuadAt(s, i)
    case Some(j) => Some((i, j))
    case None => if i == |s| then None else FindQuadFrom(s, i + 1)
  }

  /** A quad spanning `s[i..j]` is seen by `QuadAt` at `i`. */
  lemma QuadSpanSeen(s: string, i: nat, j: nat)
    ensures QuadSpan(s, i, j) ==> i < |s| && QuadAt(s, i).Some? && j <= QuadAt(s, i).value
  {
    if QuadSpan(s, i, j) {
      var a: nat, b: nat, c: nat :| QuadSplit(s, i, j, a, b, c);
      QuadAtSpec(s, i);
    }
  }

  /** The scan from 0 finds the leftmost, longest quad, and finds none
      exactly when there is none. */
  lemma FindQuadFromStart(s: string)
    ensures var r := FindQuadFrom(s, 0);
            && (r.Some? ==> IsLeftmostQuad(s, r.value.0, r.value.1))
            && (r.None? <==> forall i: nat, j: nat :: !QuadSpan(s, i, j))
  {
    var r := FindQuadFrom(s, 0);
    forall i: nat, j: nat | QuadSpan(s, i, j)
      ensures r.Some? && r.value.0 <= i && (i == r.value.0 ==> j <= r.value.1)
    {
      QuadSpanSeen(s, i, j);
    }
    if r.Some? {
      QuadAtSpec(s, r.value.0);
    }
  }

  /** `re.search` for a dotted quad: its span, if there is one. */
  function FindQuad(s: string): (r: Option<(nat, nat)>)
    ensures r.Some? ==> IsLeftmostQuad(s, r.value.0, r.value.1)
    ensures r.None? <==> forall i: nat, j: nat :: !QuadSpan(s, i, j)
  {
    FindQuadFromStart(s);
    FindQuadFrom(s, 0)
  }

  /** The address reported for a message: the leftmost dotted quad, or "N/A"
      exactly when there is none. */
  function ExtractIp(s: string): (ip: string)
    ensures ip == NoAddress <==> forall i: nat, j: nat :: !QuadSpan(s, i, j)
    ensures ip != NoAddress ==> exists i: nat, j: nat :: IsLeftmostQuad(s, i, j) && ip == s[i..j]
  {
    match FindQuad(s)
    case Some((i, j)) => s[i..j]
    case None => NoAddress
  }

  /** A message without a dot carries no address. */
  lemma NoDotNoAddress(s: string)
    requires '.' !in s
    ensures ExtractIp(s) == NoAddress
  {
  }

  /** A message that ends with a dotted quad and has no digit before it
      reports exactly that quad. */
  lemma TrailingAddress(text: string, q: string)
    requires forall m :: 0 <= m < |text| ==> !IsDigit(text[m])
    requires QuadSpan(q, 0, |q|)
    ensures ExtractIp(text + q) == q
  {
    var s := text + q;
    var n := |text|;
    QuadShift(text, q);
    QuadAtEnd(s, n);
    forall k | 0 <= k < n
      ensures !IsDigit(s[k])
    {
      assert s[k] == text[k];
    }
    FoundAfterNonDigits(s, n, |s|);
    assert s[n..|s|] == q;
  }

  /** A quad that runs to the end of `s` is what `QuadAt` finds. */
  lemma QuadAtEnd(s: string, n: nat)
    requires QuadSpan(s, n, |s|)
    ensures QuadAt(s, n) == Some(|s|)
  {
    QuadAtSpec(s, n);
  }

  /** After a stretch without digits, the scan stops at the first quad. */
  lemma FoundAfterNonDigits(s: string, n: nat, j: nat)
    requires n <= |s| && QuadAt(s, n) == Some(j)
    requires forall k :: 0 <= k < n ==> !IsDigit(s[k])
    ensures FindQuadFrom(s, 0) == Some((n, j))
  {
    forall k | 0 <= k < n
      ensures QuadAt(s, k).None?
    {
      NoQuadAtNonDigit(s, k);
    }
  }

  /** No quad starts at a character that is not a digit. */
  lemma NoQuadAtNonDigit(s: string, i: nat)
    requires i < |s| && !IsDigit(s[i])
    ensures QuadAt(s, i).None?
  {
    assert DigitRun(s, i) == 0;
  }

  /** A dotted quad stays one after `text` is put in front. */
  lemma QuadShift(text: string, q: string)
    requires QuadSpan(q, 0, |q|)
    ensures QuadSpan(text + q, |text|, |text + q|)
  {
    var s, n := text + q, |text|;
    var a: nat, b: nat, c: nat :| QuadSplit(q, 0, |q|, a, b, c);
    OctetShift(text, q, 0, a);
    OctetShift(text, q, a + 1, b);
    OctetShift(text, q, b + 1, c);
    OctetShift(text, q, c + 1, |q|);
    assert s[n + a] == q[a] && s[n + b] == q[b] && s[n + c] == q[c];
    assert QuadSplit(s, n, |s|, n + a, n + b, n + c);
  }

  /** An octet of `q` stays an octet after `text` is put in front. */
  lemma OctetShift(text: string, q: string, lo: nat, hi: nat)
    requires OctetIn(q, lo, hi)
    ensures OctetIn(text + q, |text| + lo, |text| + hi)
  {
    forall m | |text| + lo <= m < |text| + hi
      ensures IsDigit((text + q)[m])
    {
      assert (text + q)[m] == q[m - |text|];
    }
  }
}
