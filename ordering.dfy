/** Orderings used by the pipeline: Python's comparison of strings and of numbers,
    the sorted distinct values of a column (`sorted(col.unique())`, the index of a
    `groupby`) and the descending sort of `sort_values(ascending=False)`. */
module Ordering {
  import opened Seqs

  ghost predicate StrictTotalOrder<K(!new)>(lt: (K, K) -> bool) {
    && (forall x :: !lt(x, x))
    && (forall x, y, z :: lt(x, y) && lt(y, z) ==> lt(x, z))
    && (forall x, y :: x != y ==> lt(x, y) || lt(y, x))
  }

  /** Strictly ascending, hence free of repeats. */
  predicate Sorted<K>(s: seq<K>, lt: (K, K) -> bool) {
    forall i, j :: 0 <= i < j < |s| ==> lt(s[i], s[j])
  }

  /** Python's `a < b` on `str`: lexicographic on code points, a proper prefix first. */
  predicate StrLt(a: string, b: string) {
    if a == [] then b != []
    else if b == [] then false
    else if a[0] == b[0] then StrLt(a[1..], b[1..])
    else a[0] < b[0]
  }

  predicate IntLt(a: int, b: int) {
    a < b
  }

  lemma {:induction false} StrLtIrreflexive(a: string)
    ensures !StrLt(a, a)
  {
    if a != [] {
      StrLtIrreflexive(a[1..]);
    }
  }

  lemma {:induction false} StrLtTransitive(a: string, b: string, c: string)
    requires StrLt(a, b) && StrLt(b, c)
    ensures StrLt(a, c)
  {
    if a != [] && a[0] == b[0] && b[0] == c[0] {
      StrLtTransitive(a[1..], b[1..], c[1..]);
    }
  }

  lemma {:induction false} StrLtTotal(a: string, b: string)
    requires a != b
    ensures StrLt(a, b) || StrLt(b, a)
  {
    if a != [] && b != [] && a[0] == b[0] {
      assert a == [a[0]] + a[1..] && b == [b[0]] + b[1..];
      StrLtTotal(a[1..], b[1..]);
    }
  }

  lemma StrLtIsStrictTotalOrder()
    ensures StrictTotalOrder(StrLt)
  {
    forall a ensures !StrLt(a, a) {
      StrLtIrreflexive(a);
    }
    forall a, b, c | StrLt(a, b) && StrLt(b, c) ensures StrLt(a, c) {
      StrLtTransitive(a, b, c);
    }
    forall a, b | a != b ensures StrLt(a, b) || StrLt(b, a) {
      StrLtTotal(a, b);
    }
  }

  lemma IntLtIsStrictTotalOrder()
    ensures StrictTotalOrder(IntLt)
  {
  }

  /** Adds `x` to an ascending sequence of distinct keys unless it is already there. */
  function InsertKey<K(==)>(x: K, s: seq<K>, lt: (K, K) -> bool): seq<K>
  {
    if s == [] then [x]
    else if x == s[0] then s
    else if lt(x, s[0]) then [x] + s
    else [s[0]] + InsertKey(x, s[1..], lt)
  }

  lemma {:induction false} InsertKeyCorrect<K(!new)>(x: K, s: seq<K>, lt: (K, K) -> bool)
    requires StrictTotalOrder(lt) && Sorted(s, lt)
    ensures Sorted(InsertKey(x, s, lt), lt)
    ensures forall k :: 0 <= k < |InsertKey(x, s, lt)| ==> InsertKey(x, s, lt)[k] == x || InsertKey(x, s, lt)[k] in s
    ensures x in InsertKey(x, s, lt)
    ensures forall k :: 0 <= k < |s| ==> s[k] in InsertKey(x, s, lt)
  {
    if s != [] && x != s[0] && !lt(x, s[0]) {
      var tail := InsertKey(x, s[1..], lt);
      InsertKeyCorrect(x, s[1..], lt);
      assert lt(s[0], x);
      assert forall k :: 0 <= k < |tail| ==> lt(s[0], tail[k]);
      assert forall k :: 1 <= k < |s| ==> s[k] == s[1..][k - 1];
    }
  }

  /** `sorted(set(xs))` for the order `lt`. */
  function SortedDistinct<K(==)>(xs: seq<K>, lt: (K, K) -> bool): seq<K>
  {
    if xs == [] then [] else InsertKey(xs[0], SortedDistinct(xs[1..], lt), lt)
  }

  /** The sorted distinct values are strictly ascending and are exactly the values of `xs`. */
  lemma {:induction false} SortedDistinctCorrect<K(!new)>(xs: seq<K>, lt: (K, K) -> bool)
    requires StrictTotalOrder(lt)
    ensures Sorted(SortedDistinct(xs, lt), lt)
    ensures forall k :: 0 <= k < |SortedDistinct(xs, lt)| ==> SortedDistinct(xs, lt)[k] in xs
    ensures forall k :: 0 <= k < |xs| ==> xs[k] in SortedDistinct(xs, lt)
  {
    if xs != [] {
      SortedDistinctCorrect(xs[1..], lt);
      InsertKeyCorrect(xs[0], SortedDistinct(xs[1..], lt), lt);
      assert forall k :: 1 <= k < |xs| ==> xs[k] == xs[1..][k - 1];
    }
  }

  /** Each element scores at most as much as every element before it. */
  predicate NonIncreasing<T>(s: seq<T>, score: T -> real) {
    forall i, j :: 0 <= i < j < |s| ==> score(s[j]) <= score(s[i])
  }

  function InsertDesc<T(==)>(x: T, s: seq<T>, score: T -> real): (r: seq<T>)
    requires NonIncreasing(s, score)
    ensures NonIncreasing(r, score)
    ensures multiset(r) == multiset(s) + multiset{x}
  {
    if s == [] || score(s[0]) <= score(x) then [x] + s
    else
      var tail := InsertDesc(x, s[1..], score);
      assert s == [s[0]] + s[1..];
      BoundedByHead(s, x, tail, score);
      [s[0]] + tail
  }

  lemma BoundedByHead<T>(s: seq<T>, x: T, tail: seq<T>, score: T -> real)
    requires s != [] && NonIncreasing(s, score) && score(x) < score(s[0])
    requires multiset(tail) == multiset(s[1..]) + multiset{x}
    ensures forall k :: 0 <= k < |tail| ==> score(tail[k]) <= score(s[0])
  {
    forall k | 0 <= k < |tail| ensures score(tail[k]) <= score(s[0]) {
      assert tail[k] in multiset(tail);
      if tail[k] != x {
        assert tail[k] in multiset(s[1..]);
        var j :| 0 <= j < |s[1..]| && s[1..][j] == tail[k];
        assert s[j + 1] == tail[k];
      }
    }
  }

  /** `sort_values(ascending=False)`: a rearrangement of `s` whose scores never increase.
      Ties come out in an unspecified order, as pandas leaves them. */
  function SortDesc<T(==)>(s: seq<T>, score: T -> real): (r: seq<T>)
    ensures NonIncreasing(r, score)
    ensures multiset(r) == multiset(s)
  {
    if s == [] then []
    else
      assert s == [s[0]] + s[1..];
      InsertDesc(s[0], SortDesc(s[1..], score), score)
  }

  /** `sort_values(ascending=False).head(n)` keeps the n best: it has n entries, or all of
      `s` when there are fewer, all taken from `s`; scores never increase, and whatever it
      leaves out scores at most as much as its last entry. */
  lemma TopN<T>(s: seq<T>, score: T -> real, n: nat)
    requires 0 < n
    ensures var top := Prefix(SortDesc(s, score), n);
      && |top| == (if |s| < n then |s| else n)
      && NonIncreasing(top, score)
      && multiset(top) <= multiset(s)
      && (forall x :: x in s && x !in top ==> score(x) <= score(top[|top| - 1]))
  {
    var r := SortDesc(s, score);
    var top := Prefix(r, n);
    assert |r| == |s| by {
      assert |multiset(r)| == |multiset(s)|;
    }
    assert top == r[..|top|];
    DescendingPrefix(r, |top|, score);
    forall x | x in s && x !in top
      ensures x in r
    {
      assert x in multiset(s);
    }
  }

  /** A prefix of a non-increasing list is non-increasing, is part of the list, and scores
      at least as much at its last entry as anything after it. */
  lemma DescendingPrefix<T>(r: seq<T>, k: nat, score: T -> real)
    requires NonIncreasing(r, score) && k <= |r|
    ensures NonIncreasing(r[..k], score)
    ensures multiset(r[..k]) <= multiset(r)
    ensures 0 < k ==> forall x :: x in r && x !in r[..k] ==> score(x) <= score(r[..k][k - 1])
  {
    var top := r[..k];
    assert multiset(r) == multiset(top) + multiset(r[k..]) by {
      assert r == top + r[k..];
    }
    if 0 < k {
      forall x | x in r && x !in top
        ensures score(x) <= score(top[k - 1])
      {
        var i := Beyond(r, top, x);
        assert score(r[i]) <= score(r[k - 1]);
      }
    }
  }

  /** An element of `r` that is not in its prefix `top` sits after it. */
  lemma Beyond<T>(r: seq<T>, top: seq<T>, x: T) returns (i: nat)
    requires top <= r && x in r && x !in top
    ensures |top| <= i < |r| && r[i] == x
  {
    i :| 0 <= i < |r| && r[i] == x;
  }
}
