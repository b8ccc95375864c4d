/** Generic sequence operations behind the array methods the dashboard uses:
    `slice(0, n)`, `filter` and `some`. */
module Sequences {

  /** `xs.slice(0, n)`: the first `n` elements, or all of them when there are fewer. */
  function Take<T>(xs: seq<T>, n: nat): (r: seq<T>)
    ensures |r| <= n && |r| <= |xs|
    ensures |r| == n || |r| == |xs|
    ensures r == xs[..|r|]
  {
    if n <= |xs| then xs[..n] else xs
  }

  /** True when `a` can be obtained from `b` by deleting elements (order kept). */
  predicate IsSubsequence<T(==)>(a: seq<T>, b: seq<T>)
    decreases |b|
  {
    |a| == 0 ||
    (|b| > 0 &&
     ((a[0] == b[0] && IsSubsequence(a[1..], b[1..])) || IsSubsequence(a, b[1..])))
  }

  /** Every element of a subsequence is an element of the whole. */
  lemma {:induction false} SubsequenceElements<T>(a: seq<T>, b: seq<T>)
    requires IsSubsequence(a, b)
    ensures forall i :: 0 <= i < |a| ==> a[i] in b
    decreases |b|
  {
    if |a| > 0 {
      if a[0] == b[0] && IsSubsequence(a[1..], b[1..]) {
        SubsequenceElements(a[1..], b[1..]);
        assert forall i :: 1 <= i < |a| ==> a[i] == a[1..][i - 1];
      } else {
        SubsequenceElements(a, b[1..]);
      }
    }
  }

  /** `xs.filter(p)`: the elements satisfying `p`, in their original order. */
  function Filter<T(==)>(p: T -> bool, xs: seq<T>): (r: seq<T>)
    ensures |r| <= |xs|
    ensures forall i :: 0 <= i < |r| ==> p(r[i])
    ensures forall i :: 0 <= i < |xs| && p(xs[i]) ==> xs[i] in r
    ensures IsSubsequence(r, xs)
  {
    if |xs| == 0 then []
    else
      var rest := Filter(p, xs[1..]);
      assert forall i :: 1 <= i < |xs| ==> xs[i] == xs[1..][i - 1];
      if p(xs[0]) then [xs[0]] + rest else rest
  }

  /** Filtering keeps everything when every element satisfies the predicate. */
  lemma {:induction false} FilterAll<T>(p: T -> bool, xs: seq<T>)
    requires forall i :: 0 <= i < |xs| ==> p(xs[i])
    ensures Filter(p, xs) == xs
    decreases |xs|
  {
    if |xs| > 0 {
      assert forall i :: 0 <= i < |xs| - 1 ==> xs[1..][i] == xs[i + 1];
      FilterAll(p, xs[1..]);
      assert [xs[0]] + xs[1..] == xs;
    }
  }

  /** `xs.some(p)`: whether at least one element satisfies `p`, scanning left to right. */
  function Any<T>(p: T -> bool, xs: seq<T>): (r: bool)
    ensures r <==> exists i :: 0 <= i < |xs| && p(xs[i])
  {
    if |xs| == 0 then false
    else
      assert forall i :: 1 <= i < |xs| ==> xs[i] == xs[1..][i - 1];
      p(xs[0]) || Any(p, xs[1..])
  }

  /** The positions of `xs` whose element satisfies `p`. */
  ghost function MatchingIndices<T>(p: T -> bool, xs: seq<T>): set<int>
  {
    set i | 0 <= i < |xs| && p(xs[i])
  }

  /** Filtering distributes over concatenation. */
  lemma {:induction false} FilterAppend<T>(p: T -> bool, a: seq<T>, b: seq<T>)
    ensures Filter(p, a + b) == Filter(p, a) + Filter(p, b)
    decreases |a|
  {
    if |a| == 0 {
      assert a + b == b;
    } else {
      assert (a + b)[1..] == a[1..] + b;
      FilterAppend(p, a[1..], b);
    }
  }

  /** The length of `xs.filter(p)` is the number of positions whose element satisfies `p`. */
  lemma {:induction false} FilterLengthIsMatchCount<T>(p: T -> bool, xs: seq<T>)
    ensures |Filter(p, xs)| == |MatchingIndices(p, xs)|
    decreases |xs|
  {
    if |xs| == 0 {
      assert MatchingIndices(p, xs) == {};
    } else {
      var n := |xs| - 1;
      var init := xs[..n];
      assert xs == init + [xs[n]];
      FilterAppend(p, init, [xs[n]]);
      FilterLengthIsMatchCount(p, init);
      MatchingIndicesSnoc(p, xs);
    }
  }

  /** Extending a sequence by one element adds its position when it matches. */
  lemma MatchingIndicesSnoc<T>(p: T -> bool, xs: seq<T>)
    requires |xs| > 0
    ensures var n := |xs| - 1;
      && n !in MatchingIndices(p, xs[..n])
      && MatchingIndices(p, xs) == MatchingIndices(p, xs[..n]) + (if p(xs[n]) then {n} else {})
  {
    var n := |xs| - 1;
    assert MatchingIndices(p, xs[..n]) == set i | 0 <= i < n && p(xs[i]);
  }
}
