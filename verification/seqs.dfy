/** Sequence filtering with a partial map, the shape of a loop that appends
    at most one output per input element, and in-order subsequences. */
module Seqs {
  import opened Wrappers

  /** The outputs of `f` on `xs`, in order, skipping the elements it maps to `None`. */
  function FilterMap<T, U>(f: T -> Option<U>, xs: seq<T>): (r: seq<U>)
    ensures |r| <= |xs|
    ensures forall k :: 0 <= k < |r| ==> exists n :: 0 <= n < |xs| && f(xs[n]) == Some(r[k])
  {
    if xs == [] then []
    else
      var init := FilterMap(f, xs[..|xs| - 1]);
      match f(xs[|xs| - 1])
      case None => init
      case Some(y) => init + [y]
  }

  /** `FilterMap` distributes over concatenation. */
  lemma {:induction false} FilterMapAppend<T, U>(f: T -> Option<U>, a: seq<T>, b: seq<T>)
    ensures FilterMap(f, a + b) == FilterMap(f, a) + FilterMap(f, b)
    decreases |b|
  {
    if b == [] {
      assert a + b == a;
    } else {
      var b' := b[..|b| - 1];
      assert (a + b)[..|a + b| - 1] == a + b';
      assert (a + b)[|a + b| - 1] == b[|b| - 1];
      FilterMapAppend(f, a, b');
    }
  }

  /** `idx` lists, increasing, exactly the positions of `xs` where `f` gives
      a value, and `r` holds those values in the same order. */
  ghost predicate IsSelection<T, U>(f: T -> Option<U>, xs: seq<T>, idx: seq<nat>, r: seq<U>)
  {
    && |idx| == |r|
    && (forall k :: 0 <= k < |idx| ==> idx[k] < |xs| && f(xs[idx[k]]) == Some(r[k]))
    && (forall k, k' :: 0 <= k < k' < |idx| ==> idx[k] < idx[k'])
    && (forall n :: 0 <= n < |xs| ==> (n in idx <==> f(xs[n]).Some?))
  }

  /** The outputs are the values of `f` at the increasing positions `idx`,
      which are exactly the positions where `f` gives a value. */
  lemma {:induction false} FilterMapSelection<T, U>(f: T -> Option<U>, xs: seq<T>) returns (idx: seq<nat>)
    ensures IsSelection(f, xs, idx, FilterMap(f, xs))
  {
    if xs == [] {
      idx := [];
    } else {
      var idx' := FilterMapSelection(f, xs[..|xs| - 1]);
      idx := SelectionExtend(f, xs, idx', FilterMap(f, xs[..|xs| - 1]));
    }
  }

  /** A selection for all but the last element of `xs` extends to one for `xs`. */
  lemma SelectionExtend<T, U>(f: T -> Option<U>, xs: seq<T>, idx: seq<nat>, r: seq<U>) returns (idx': seq<nat>)
    requires xs != [] && IsSelection(f, xs[..|xs| - 1], idx, r)
    ensures IsSelection(f, xs, idx', match f(xs[|xs| - 1]) case None => r case Some(y) => r + [y])
  {
    var init, x := xs[..|xs| - 1], xs[|xs| - 1];
    if f(x).Some? {
      idx' := idx + [|init|];
      ExtendWithValue(f, init, idx, r, x);
    } else {
      idx' := idx;
      ExtendWithoutValue(f, init, idx, r, x);
    }
    assert init + [x] == xs;
  }

  lemma ExtendWithValue<T, U>(f: T -> Option<U>, xs: seq<T>, idx: seq<nat>, r: seq<U>, x: T)
    requires IsSelection(f, xs, idx, r) && f(x).Some?
    ensures IsSelection(f, xs + [x], idx + [|xs|], r + [f(x).value])
  {
    var ys, idx', r' := xs + [x], idx + [|xs|], r + [f(x).value];
    forall k | 0 <= k < |idx'|
      ensures idx'[k] < |ys| && f(ys[idx'[k]]) == Some(r'[k])
    {
      if k < |idx| {
        assert idx'[k] == idx[k] && r'[k] == r[k] && ys[idx[k]] == xs[idx[k]];
      }
    }
    forall n | 0 <= n < |ys|
      ensures n in idx' <==> f(ys[n]).Some?
    {
      if n < |xs| {
        assert ys[n] == xs[n];
        assert n in idx' <==> n in idx;
      }
    }
  }

  lemma ExtendWithoutValue<T, U>(f: T -> Option<U>, xs: seq<T>, idx: seq<nat>, r: seq<U>, x: T)
    requires IsSelection(f, xs, idx, r) && f(x).None?
    ensures IsSelection(f, xs + [x], idx, r)
  {
    var ys := xs + [x];
    forall k | 0 <= k < |idx|
      ensures idx[k] < |ys| && f(ys[idx[k]]) == Some(r[k])
    {
      assert ys[idx[k]] == xs[idx[k]];
    }
    forall n | 0 <= n < |ys|
      ensures n in idx <==> f(ys[n]).Some?
    {
      if n < |xs| {
        assert ys[n] == xs[n];
      }
    }
  }

  /** An element that `f` maps to `None` can be removed without changing the result. */
  lemma FilterMapDrop<T, U>(f: T -> Option<U>, a: seq<T>, x: T, b: seq<T>)
    requires f(x).None?
    ensures FilterMap(f, a + [x] + b) == FilterMap(f, a + b)
  {
    FilterMapAppend(f, a + [x], b);
    FilterMapAppend(f, a, [x]);
    FilterMapAppend(f, a, b);
    assert [x][..0] == [];
  }

  /** `a` is `b` with some elements left out, the rest in order. */
  predicate IsSubsequence<T(==)>(a: seq<T>, b: seq<T>)
    decreases |b|
  {
    if a == [] then true
    else if b == [] then false
    else if a[0] == b[0] then IsSubsequence(a[1..], b[1..])
    else IsSubsequence(a, b[1..])
  }

  /** Every element of a subsequence is an element of the whole. */
  lemma {:induction false} SubsequenceMembers<T>(a: seq<T>, b: seq<T>, x: T)
    requires IsSubsequence(a, b) && x in a
    ensures x in b
    decreases |b|
  {
    if a[0] == b[0] {
      if x != a[0] {
        assert x in a[1..];
        SubsequenceMembers(a[1..], b[1..], x);
      }
    } else {
      SubsequenceMembers(a, b[1..], x);
    }
  }
}
