/**
 * Sequence helpers shared by the forum model: an Option type, an
 * order-preserving filter, the subsequence relation, an argmax and a
 * stable insertion sort. They stand for the query-builder and collection
 * operations the forum code calls (`where`, `filter`, `orderBy`, `first`).
 */
module Collections {

  datatype Option<+T> = None | Some(value: T)

  /** Keeps the elements of `s` that satisfy `p`, in their original order. */
  function Filter<T>(s: seq<T>, p: T -> bool): (r: seq<T>)
    ensures |r| <= |s|
    ensures forall x :: x in r ==> x in s && p(x)
    ensures forall x :: x in s && p(x) ==> x in r
    decreases |s|
  {
    if s == [] then []
    else
      var rest := Filter(s[..|s| - 1], p);
      assert forall x :: x in s ==> x in s[..|s| - 1] || x == s[|s| - 1];
      if p(s[|s| - 1]) then rest + [s[|s| - 1]] else rest
  }

  /** A filter keeps each element at most as often as `s` holds it. */
  lemma {:induction false} FilterSubMultiset<T>(s: seq<T>, p: T -> bool)
    ensures multiset(Filter(s, p)) <= multiset(s)
    decreases |s|
  {
    if s != [] {
      var n := |s| - 1;
      FilterSubMultiset(s[..n], p);
      assert s == s[..n] + [s[n]];
    }
  }

  /** The indices of `s` whose element satisfies `p`. */
  ghost function IndicesWhere<T>(s: seq<T>, p: T -> bool): set<int>
  {
    set i | 0 <= i < |s| && p(s[i])
  }

  /** The filter keeps exactly one element per index that satisfies `p`. */
  lemma {:induction false} FilterCountsIndices<T>(s: seq<T>, p: T -> bool)
    ensures |Filter(s, p)| == |IndicesWhere(s, p)|
    decreases |s|
  {
    if s != [] {
      var n := |s| - 1;
      var init := s[..n];
      FilterCountsIndices(init, p);
      var before, after := IndicesWhere(init, p), IndicesWhere(s, p);
      var last: set<int> := if p(s[n]) then {n} else {};
      forall i ensures i in after <==> i in before + last {
        if 0 <= i < n { assert s[i] == init[i]; }
      }
      assert after == before + last;
      assert n !in before;
      assert |after| == |before| + |last|;
    }
  }

  /**
   * `r` is an order-preserving subsequence of `s`: `r` can be obtained
   * from `s` by deleting elements.
   */
  predicate IsSubsequence<T(==)>(r: seq<T>, s: seq<T>)
    decreases |s|
  {
    r == [] ||
    (s != [] &&
     ((r[|r| - 1] == s[|s| - 1] && IsSubsequence(r[..|r| - 1], s[..|s| - 1])) ||
      IsSubsequence(r, s[..|s| - 1])))
  }

  /** A weaker condition keeps at least what a stronger one keeps, in the same order. */
  lemma {:induction false} FilterMonotone<T>(s: seq<T>, p: T -> bool, q: T -> bool)
    requires forall x :: p(x) ==> q(x)
    ensures IsSubsequence(Filter(s, p), Filter(s, q))
    decreases |s|
  {
    if s != [] {
      var n := |s| - 1;
      FilterMonotone(s[..n], p, q);
      var fp, fq := Filter(s[..n], p), Filter(s[..n], q);
      if p(s[n]) {
        assert Filter(s, p) == fp + [s[n]] && Filter(s, q) == fq + [s[n]];
        assert (fp + [s[n]])[..|fp|] == fp;
        assert (fq + [s[n]])[..|fq|] == fq;
      } else if q(s[n]) {
        assert Filter(s, q) == fq + [s[n]];
        assert (fq + [s[n]])[..|fq|] == fq;
      }
    }
  }

  /** A filter is a subsequence of what it filters. */
  lemma {:induction false} FilterIsSubsequence<T>(s: seq<T>, p: T -> bool)
    ensures IsSubsequence(Filter(s, p), s)
    decreases |s|
  {
    if s != [] {
      var n := |s| - 1;
      FilterIsSubsequence(s[..n], p);
      var rest := Filter(s[..n], p);
      if p(s[n]) {
        assert (rest + [s[n]])[..|rest|] == rest;
      }
    }
  }

  /**
   * An element of `s` with the largest `key`, the earliest one among equals;
   * None exactly when `s` is empty.
   */
  function MaxBy<T>(s: seq<T>, key: T -> int): (r: Option<T>)
    ensures r.None? <==> s == []
    ensures r.Some? ==> r.value in s && forall x :: x in s ==> key(x) <= key(r.value)
    decreases |s|
  {
    if s == [] then None
    else
      assert forall x :: x in s ==> x == s[0] || x in s[1..];
      match MaxBy(s[1..], key)
      case None => Some(s[0])
      case Some(m) => if key(m) > key(s[0]) then Some(m) else Some(s[0])
  }

  /** `le` is total and transitive, so it can order a listing. */
  ghost predicate TotalPreorder<T(!new)>(le: (T, T) -> bool)
  {
    (forall a, b :: le(a, b) || le(b, a)) &&
    (forall a, b, c :: le(a, b) && le(b, c) ==> le(a, c))
  }

  /** Every element is `le` every later element. */
  predicate SortedBy<T>(xs: seq<T>, le: (T, T) -> bool)
  {
    forall i, j :: 0 <= i < j < |xs| ==> le(xs[i], xs[j])
  }

  /** Inserts `x` before the first element it is `le` to. */
  function Insert<T(!new)>(x: T, xs: seq<T>, le: (T, T) -> bool): (r: seq<T>)
    requires TotalPreorder(le) && SortedBy(xs, le)
    ensures SortedBy(r, le)
    ensures multiset(r) == multiset(xs) + multiset{x}
    decreases |xs|
  {
    if xs == [] || le(x, xs[0]) then
      assert forall j :: 0 < j < |xs| ==> le(xs[0], xs[j]);
      [x] + xs
    else
      var rest := Insert(x, xs[1..], le);
      assert xs == [xs[0]] + xs[1..];
      forall y | y in rest ensures le(xs[0], y) {
        assert y in multiset(rest);
        if y != x {
          assert y in multiset(xs[1..]);
          var k :| 0 <= k < |xs[1..]| && xs[1..][k] == y;
          assert xs[k + 1] == y;
        }
      }
      [xs[0]] + rest
  }

  /**
   * A stable sort by `le`: the result is ordered and is a permutation of
   * the input.
   */
  function SortBy<T(!new)>(xs: seq<T>, le: (T, T) -> bool): (r: seq<T>)
    requires TotalPreorder(le)
    ensures SortedBy(r, le)
    ensures multiset(r) == multiset(xs)
    decreases |xs|
  {
    if xs == [] then []
    else
      assert xs == [xs[0]] + xs[1..];
      Insert(xs[0], SortBy(xs[1..], le), le)
  }
}
