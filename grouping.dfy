/** `df.groupby(key)[col].agg()`: rows with a missing key form no group; the groups come
    out in ascending key order. */
module Grouping {
  import opened Wrappers
  import opened Seqs
  import opened Ordering

  /** The defined values of the key column, in row order (`col.dropna()`). */
  function KeysOf<T, K(==)>(rows: seq<T>, key: T -> Option<K>): (ks: seq<K>)
    ensures forall i :: 0 <= i < |rows| && key(rows[i]).Some? ==> key(rows[i]).value in ks
    ensures forall j :: 0 <= j < |ks| ==> exists i :: 0 <= i < |rows| && key(rows[i]) == Some(ks[j])
  {
    if rows == [] then []
    else
      var rest := KeysOf(rows[1..], key);
      assert forall j :: 0 <= j < |rest| ==> exists i :: 1 <= i < |rows| && key(rows[i]) == Some(rest[j]) by {
        forall j | 0 <= j < |rest| ensures exists i :: 1 <= i < |rows| && key(rows[i]) == Some(rest[j]) {
          var i :| 0 <= i < |rows[1..]| && key(rows[1..][i]) == Some(rest[j]);
          assert key(rows[i + 1]) == Some(rest[j]);
        }
      }
      match key(rows[0])
      case Some(k) => [k] + rest
      case None => rest
  }

  /** The index of a groupby result: the distinct defined keys, ascending. */
  function GroupIndex<T, K(==)>(rows: seq<T>, key: T -> Option<K>, lt: (K, K) -> bool): seq<K> {
    SortedDistinct(KeysOf(rows, key), lt)
  }

  /** The group index is strictly ascending and holds exactly the keys that occur. */
  lemma GroupIndexCorrect<T, K(!new)>(rows: seq<T>, key: T -> Option<K>, lt: (K, K) -> bool)
    requires StrictTotalOrder(lt)
    ensures var ks := GroupIndex(rows, key, lt);
      && Sorted(ks, lt)
      && Distinct(ks)
      && (forall i :: 0 <= i < |rows| && key(rows[i]).Some? ==> key(rows[i]).value in ks)
      && (forall j :: 0 <= j < |ks| ==> exists i :: 0 <= i < |rows| && key(rows[i]) == Some(ks[j]))
  {
    var ks := GroupIndex(rows, key, lt);
    SortedDistinctCorrect(KeysOf(rows, key), lt);
  }

  /** The sum of `val` over the group with key `k`. */
  function SumWhere<T, K(==)>(rows: seq<T>, key: T -> Option<K>, val: T -> real, k: K): real {
    if rows == [] then 0.0
    else (if key(rows[0]) == Some(k) then val(rows[0]) else 0.0) + SumWhere(rows[1..], key, val, k)
  }

  /** The number of rows of the group with key `k` that satisfy `counted`. */
  function CountWhere<T, K(==)>(rows: seq<T>, key: T -> Option<K>, counted: T -> bool, k: K): nat {
    if rows == [] then 0
    else (if key(rows[0]) == Some(k) && counted(rows[0]) then 1 else 0) + CountWhere(rows[1..], key, counted, k)
  }

  /** The number of rows of the group with key `k`. */
  function GroupSize<T, K(==)>(rows: seq<T>, key: T -> Option<K>, k: K): nat {
    CountWhere(rows, key, (_: T) => true, k)
  }

  /** The sum of `val` over the rows whose key is defined. */
  function SumDefined<T, K>(rows: seq<T>, key: T -> Option<K>, val: T -> real): real {
    if rows == [] then 0.0
    else (if key(rows[0]).Some? then val(rows[0]) else 0.0) + SumDefined(rows[1..], key, val)
  }

  /** `groupby(key)[val].sum()` over the index `ks`: one (key, group total) entry per key. */
  function GroupSums<T, K(==)>(rows: seq<T>, key: T -> Option<K>, val: T -> real, ks: seq<K>): (g: seq<(K, real)>)
    ensures |g| == |ks|
    ensures forall i :: 0 <= i < |g| ==> g[i].0 == ks[i] && g[i].1 == SumWhere(rows, key, val, ks[i])
  {
    if ks == [] then []
    else [(ks[0], SumWhere(rows, key, val, ks[0]))] + GroupSums(rows, key, val, ks[1..])
  }

  /** The sum of the values of a grouped result. */
  function Total<K>(g: seq<(K, real)>): real {
    if g == [] then 0.0 else g[0].1 + Total(g[1..])
  }

  lemma {:induction false} GroupSumsOfNothing<T, K>(key: T -> Option<K>, val: T -> real, ks: seq<K>)
    ensures Total(GroupSums([], key, val, ks)) == 0.0
  {
    if ks != [] {
      GroupSumsOfNothing(key, val, ks[1..]);
    }
  }

  /** One more row adds its value to exactly one group, if its key is in the index. */
  lemma {:induction false} GroupSumsCons<T, K>(r: T, rest: seq<T>, key: T -> Option<K>, val: T -> real, ks: seq<K>)
    requires Distinct(ks)
    ensures Total(GroupSums([r] + rest, key, val, ks))
      == Total(GroupSums(rest, key, val, ks)) + (if key(r).Some? && key(r).value in ks then val(r) else 0.0)
  {
    if ks != [] {
      assert ([r] + rest)[1..] == rest;
      GroupSumsCons(r, rest, key, val, ks[1..]);
      assert key(r) == Some(ks[0]) ==> ks[0] !in ks[1..];
    }
  }

  /** Conservation of totals: when every defined key is in the (repeat-free) index, the
      group totals add up to the sum over the rows whose key is defined. */
  lemma {:induction false} GroupSumsConserve<T, K>(rows: seq<T>, key: T -> Option<K>, val: T -> real, ks: seq<K>)
    requires Distinct(ks)
    requires forall i :: 0 <= i < |rows| && key(rows[i]).Some? ==> key(rows[i]).value in ks
    ensures Total(GroupSums(rows, key, val, ks)) == SumDefined(rows, key, val)
  {
    if rows == [] {
      GroupSumsOfNothing(key, val, ks);
    } else {
      var rest := rows[1..];
      assert rows == [rows[0]] + rest;
      GroupSumsConserve(rest, key, val, ks);
      GroupSumsCons(rows[0], rest, key, val, ks);
    }
  }

  /** `groupby(key)[val].mean()` over the index `ks`: (key, group total / group size). */
  function GroupMeans<T, K(==)>(rows: seq<T>, key: T -> Option<K>, val: T -> real, ks: seq<K>): (g: seq<(K, real)>)
    requires forall k :: k in ks ==> GroupSize(rows, key, k) > 0
    ensures |g| == |ks|
    ensures forall i :: 0 <= i < |g| ==>
      g[i].0 == ks[i] && g[i].1 == SumWhere(rows, key, val, ks[i]) / (GroupSize(rows, key, ks[i]) as real)
  {
    if ks == [] then []
    else
      var n := GroupSize(rows, key, ks[0]) as real;
      [(ks[0], SumWhere(rows, key, val, ks[0]) / n)] + GroupMeans(rows, key, val, ks[1..])
  }

  /** A key that occurs in some row has a non-empty group. */
  lemma {:induction false} OccurringKeyCounted<T, K>(rows: seq<T>, key: T -> Option<K>, i: nat)
    requires i < |rows| && key(rows[i]).Some?
    ensures GroupSize(rows, key, key(rows[i]).value) > 0
  {
    if i > 0 {
      OccurringKeyCounted(rows[1..], key, i - 1);
    }
  }

  /** `groupby(key)[col].count()` over the index `ks`: for each key, how many rows of its
      group satisfy `counted` (`count()` skips NaN cells of `col`). */
  function GroupCounts<T, K(==)>(rows: seq<T>, key: T -> Option<K>, counted: T -> bool, ks: seq<K>): (g: seq<(K, nat)>)
    ensures |g| == |ks|
    ensures forall i :: 0 <= i < |g| ==> g[i].0 == ks[i] && g[i].1 == CountWhere(rows, key, counted, ks[i])
  {
    if ks == [] then []
    else [(ks[0], CountWhere(rows, key, counted, ks[0]))] + GroupCounts(rows, key, counted, ks[1..])
  }

  /** Every key of the group index has a non-empty group. */
  lemma GroupIndexNonEmpty<T, K(!new)>(rows: seq<T>, key: T -> Option<K>, lt: (K, K) -> bool)
    requires StrictTotalOrder(lt)
    ensures forall k :: k in GroupIndex(rows, key, lt) ==> GroupSize(rows, key, k) > 0
  {
    GroupIndexCorrect(rows, key, lt);
    var ks := GroupIndex(rows, key, lt);
    forall k | k in ks ensures GroupSize(rows, key, k) > 0 {
      var j :| 0 <= j < |ks| && ks[j] == k;
      var i :| 0 <= i < |rows| && key(rows[i]) == Some(ks[j]);
      OccurringKeyCounted(rows, key, i);
    }
  }

  /** A result laid out on the group index has its keys strictly ascending, one entry for
      every key that occurs, and no entry for a key that does not. */
  lemma GroupedKeys<T, K(!new), V>(rows: seq<T>, key: T -> Option<K>, lt: (K, K) -> bool, g: seq<(K, V)>)
    requires StrictTotalOrder(lt)
    requires |g| == |GroupIndex(rows, key, lt)|
    requires forall j :: 0 <= j < |g| ==> g[j].0 == GroupIndex(rows, key, lt)[j]
    ensures forall i, j :: 0 <= i < j < |g| ==> lt(g[i].0, g[j].0)
    ensures forall i :: 0 <= i < |rows| && key(rows[i]).Some? ==> exists j :: 0 <= j < |g| && g[j].0 == key(rows[i]).value
    ensures forall j :: 0 <= j < |g| ==> exists i :: 0 <= i < |rows| && key(rows[i]) == Some(g[j].0)
  {
    var ks := GroupIndex(rows, key, lt);
    GroupIndexCorrect(rows, key, lt);
    forall i | 0 <= i < |rows| && key(rows[i]).Some?
      ensures exists j :: 0 <= j < |g| && g[j].0 == key(rows[i]).value
    {
      var j :| 0 <= j < |ks| && ks[j] == key(rows[i]).value;
      assert g[j].0 == ks[j];
    }
  }
}
