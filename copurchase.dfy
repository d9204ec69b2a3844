/** Products bought together (app.py:133-136): every order with more than one line item
    gives one combination, its products joined by ", " in row order; the ten most
    frequent combinations are reported. */
module CoPurchase {
  import opened Wrappers
  import opened Seqs
  import opened Text
  import opened Ordering
  import opened Grouping
  import opened Table

  /** The Order ID column. */
  function Ids(rows: seq<Row>): (ids: seq<Option<string>>)
    ensures |ids| == |rows|
    ensures forall i :: 0 <= i < |rows| ==> ids[i] == rows[i].orderId
  {
    seq(|rows|, i requires 0 <= i < |rows| => rows[i].orderId)
  }

  /** `df['Order ID'].duplicated(keep=False)`: the row's Order ID cell occurs more than
      once (pandas treats NaN cells as equal to each other here). */
  predicate Duplicated(rows: seq<Row>, r: Row) {
    Count(Ids(rows), r.orderId) > 1
  }

  /** app.py:133. */
  function DuplicatedRows(rows: seq<Row>): seq<Row> {
    Where(rows, r => Duplicated(rows, r))
  }

  /** `', '.join` raises TypeError on a NaN product: every line item of a multi-item order
      must name its product. */
  predicate Joinable(rows: seq<Row>) {
    forall r :: r in rows && r.orderId.Some? && Duplicated(rows, r) ==> r.product.Some?
  }

  /** The products of the line items of order `id`, in row order. */
  function ProductsOf(rows: seq<Row>, id: string): seq<string>
    requires forall r :: r in rows && r.orderId == Some(id) ==> r.product.Some?
  {
    if rows == [] then []
    else if rows[0].orderId == Some(id) then [rows[0].product.value] + ProductsOf(rows[1..], id)
    else ProductsOf(rows[1..], id)
  }

  /** The 'All Products' cell of app.py:134: the joined products of the row's order, or NaN
      for a row without an Order ID (groupby drops the NaN group). */
  function Combination(dup: seq<Row>, r: Row): Option<string>
    requires forall x :: x in dup && x.orderId.Some? ==> x.product.Some?
  {
    match r.orderId
    case None => None
    case Some(id) => Some(Join(ProductsOf(dup, id), ", "))
  }

  lemma DuplicatedRowsJoinable(rows: seq<Row>)
    requires Joinable(rows)
    ensures forall x :: x in DuplicatedRows(rows) && x.orderId.Some? ==> x.product.Some?
  {
  }

  /** app.py:134-135: the (Order ID, All Products) pairs of the duplicated rows, with
      repeated pairs dropped. */
  function Orders(rows: seq<Row>): seq<(Option<string>, Option<string>)>
    requires Joinable(rows)
  {
    var dup := DuplicatedRows(rows);
    DuplicatedRowsJoinable(rows);
    Unique(seq(|dup|, i requires 0 <= i < |dup| => (dup[i].orderId, Combination(dup, dup[i]))))
  }

  function CombinationOf(p: (Option<string>, Option<string>)): Option<string> { p.1 }

  /** `df_dup['All Products']` without its NaN cells, which `value_counts` ignores. */
  function Combinations(rows: seq<Row>): seq<string>
    requires Joinable(rows)
  {
    KeysOf(Orders(rows), CombinationOf)
  }

  /** `value_counts()` before its sort: each distinct value with its number of occurrences. */
  function Tally(xs: seq<string>): seq<(string, nat)> {
    var vs := Unique(xs);
    seq(|vs|, i requires 0 <= i < |vs| => (vs[i], Count(xs, vs[i])))
  }

  function Frequency(e: (string, nat)): real { e.1 as real }

  /** `value_counts().head(10)`: the ten most frequent values with their counts. */
  function Ranked(xs: seq<string>): seq<(string, nat)> {
    Prefix(SortDesc(Tally(xs), Frequency), 10)
  }

  /** app.py:136. */
  function TopCombinations(rows: seq<Row>): seq<(string, nat)>
    requires Joinable(rows)
  {
    Ranked(Combinations(rows))
  }

  /** Only multi-item orders are kept, and all their line items are. */
  lemma DuplicatedRowsKeepOrders(rows: seq<Row>, id: string)
    requires Count(Ids(rows), Some(id)) > 1
    requires forall r :: r in rows && r.orderId == Some(id) ==> r.product.Some?
    ensures forall r :: r in DuplicatedRows(rows) && r.orderId == Some(id) ==> r.product.Some?
    ensures ProductsOf(DuplicatedRows(rows), id) == ProductsOf(rows, id)
  {
    KeepWholeOrder(rows, r => Duplicated(rows, r), id);
  }

  /** A filter that keeps every line item of order `id` keeps its product list. */
  lemma {:induction false} KeepWholeOrder(rows: seq<Row>, keep: Row -> bool, id: string)
    requires forall r :: r in rows && r.orderId == Some(id) ==> r.product.Some? && keep(r)
    ensures forall r :: r in Where(rows, keep) && r.orderId == Some(id) ==> r.product.Some?
    ensures ProductsOf(Where(rows, keep), id) == ProductsOf(rows, id)
  {
    if rows != [] {
      var x, tail := rows[0], rows[1..];
      assert rows == [x] + tail;
      KeepWholeOrder(tail, keep, id);
      var rest := Where(tail, keep);
      WhereCons(x, tail, keep);
      if keep(x) {
        var w := [x] + rest;
        assert Where(rows, keep) == w;
        assert w[0] == x && w[1..] == rest;
        assert ProductsOf(w, id) == (if x.orderId == Some(id) then [x.product.value] else []) + ProductsOf(rest, id);
      } else {
        assert Where(rows, keep) == rest;
      }
    }
  }

  /** Order `id` has more than one line item. */
  predicate MultiItem(rows: seq<Row>, id: string) {
    Count(Ids(rows), Some(id)) > 1
  }

  /** The combination recorded for a multi-item order: its products joined by ", ". */
  function JoinedProducts(rows: seq<Row>, id: string): string
    requires Joinable(rows) && MultiItem(rows, id)
  {
    Join(ProductsOf(rows, id), ", ")
  }

  /** Each deduplicated entry is either the NaN order with no combination, or a multi-item
      order with its joined products. */
  lemma OrdersShape(rows: seq<Row>)
    requires Joinable(rows)
    ensures WellShaped(rows, Orders(rows))
  {
    var dup := DuplicatedRows(rows);
    DuplicatedRowsJoinable(rows);
    var pairs := seq(|dup|, i requires 0 <= i < |dup| => (dup[i].orderId, Combination(dup, dup[i])));
    assert Orders(rows) == Unique(pairs);
    forall k | 0 <= k < |Orders(rows)|
      ensures var p := Orders(rows)[k];
        (p.0.None? ==> p.1.None?) &&
        (p.0.Some? ==> MultiItem(rows, p.0.value) && p.1 == Some(JoinedProducts(rows, p.0.value)))
    {
      var p := Orders(rows)[k];
      assert p in pairs;
      var i :| 0 <= i < |dup| && pairs[i] == p;
      assert dup[i] in rows && Duplicated(rows, dup[i]);
      if p.0.Some? {
        DuplicatedRowsKeepOrders(rows, p.0.value);
      }
    }
  }

  /** `drop_duplicates` leaves one entry per order: no Order ID appears twice, and every
      multi-item order appears. */
  lemma OneEntryPerOrder(rows: seq<Row>)
    requires Joinable(rows)
    ensures forall i, j :: 0 <= i < j < |Orders(rows)| ==> Orders(rows)[i].0 != Orders(rows)[j].0
    ensures forall id :: MultiItem(rows, id) ==>
      exists k :: 0 <= k < |Orders(rows)| && Orders(rows)[k].0 == Some(id)
  {
    var os := Orders(rows);
    OrdersShape(rows);
    forall i, j | 0 <= i < j < |os| ensures os[i].0 != os[j].0 {
      assert os[i] != os[j];
    }
    forall id | MultiItem(rows, id) ensures exists k :: 0 <= k < |os| && os[k].0 == Some(id) {
      MultiItemListed(rows, id);
    }
  }

  /** A multi-item order has an entry among the deduplicated orders. */
  lemma MultiItemListed(rows: seq<Row>, id: string)
    requires Joinable(rows) && MultiItem(rows, id)
    ensures exists k :: 0 <= k < |Orders(rows)| && Orders(rows)[k].0 == Some(id)
  {
    var os := Orders(rows);
    var dup := DuplicatedRows(rows);
    DuplicatedRowsJoinable(rows);
    var pairs := seq(|dup|, i requires 0 <= i < |dup| => (dup[i].orderId, Combination(dup, dup[i])));
    assert os == Unique(pairs);
    assert Some(id) in Ids(rows);
    var r :| 0 <= r < |rows| && Ids(rows)[r] == Some(id);
    assert Duplicated(rows, rows[r]);
    assert rows[r] in dup;
    var i :| 0 <= i < |dup| && dup[i] == rows[r];
    assert pairs[i] in os;
  }

  /** Every listed combination belongs to some multi-item order. */
  lemma CombinationsFromOrders(rows: seq<Row>)
    requires Joinable(rows)
    ensures forall c :: c in Combinations(rows) ==>
      exists id :: MultiItem(rows, id) && c == JoinedProducts(rows, id)
  {
    OrdersShape(rows);
    CombinationsOfEntries(rows, Orders(rows));
  }

  /** The entry shape that `OrdersShape` establishes. */
  predicate WellShaped(rows: seq<Row>, os: seq<(Option<string>, Option<string>)>)
    requires Joinable(rows)
  {
    forall k :: 0 <= k < |os| ==>
      (os[k].0.None? ==> os[k].1.None?) &&
      (os[k].0.Some? ==> MultiItem(rows, os[k].0.value) && os[k].1 == Some(JoinedProducts(rows, os[k].0.value)))
  }

  /** Each combination taken from well-shaped entries is the joined products of a multi-item order. */
  lemma CombinationsOfEntries(rows: seq<Row>, os: seq<(Option<string>, Option<string>)>)
    requires Joinable(rows) && WellShaped(rows, os)
    ensures forall c :: c in KeysOf(os, CombinationOf) ==>
      exists id :: MultiItem(rows, id) && c == JoinedProducts(rows, id)
  {
    var xs := KeysOf(os, CombinationOf);
    forall c | c in xs ensures exists id :: MultiItem(rows, id) && c == JoinedProducts(rows, id) {
      var j :| 0 <= j < |xs| && xs[j] == c;
      var k :| 0 <= k < |os| && CombinationOf(os[k]) == Some(c);
      var id := os[k].0.value;
      assert MultiItem(rows, id) && c == JoinedProducts(rows, id);
    }
  }

  /** `value_counts` pairs each distinct value with its number of occurrences. */
  lemma TallyCorrect(xs: seq<string>)
    ensures var t := Tally(xs);
      && (forall i, j :: 0 <= i < j < |t| ==> t[i].0 != t[j].0)
      && (forall e :: e in t ==> e.1 == Count(xs, e.0) && e.0 in xs)
      && (forall x :: x in xs ==> (x, Count(xs, x)) in t)
  {
    var t := Tally(xs);
    var vs := Unique(xs);
    forall x | x in xs ensures (x, Count(xs, x)) in t {
      var i :| 0 <= i < |xs| && xs[i] == x;
      var j :| 0 <= j < |vs| && vs[j] == x;
      assert t[j] == (x, Count(xs, x));
    }
  }

  /** Every ranked entry is an entry of the tally. */
  lemma RankedFromTally(xs: seq<string>)
    ensures forall e :: e in Ranked(xs) ==> e in Tally(xs)
  {
    var t := Tally(xs);
    var top := Ranked(xs);
    TopN(t, Frequency, 10);
    forall e | e in top ensures e in t {
      assert e in multiset(top);
    }
  }

  /** No value is ranked twice. */
  lemma RankedDistinct(xs: seq<string>)
    ensures var top := Ranked(xs);
      forall i, j :: 0 <= i < j < |top| ==> top[i].0 != top[j].0
  {
    var t := Tally(xs);
    var sorted := SortDesc(t, Frequency);
    var top := Ranked(xs);
    TallyCorrect(xs);
    RankedFromTally(xs);
    assert Distinct(t);
    DistinctPermutation(t, sorted);
    assert top <= sorted;
    forall i, j | 0 <= i < j < |top| ensures top[i].0 != top[j].0 {
      assert top[i] == sorted[i] && top[j] == sorted[j];
    }
  }

  /** `value_counts().head(10)`: ten values, or all of them when there are fewer, most frequent first, each listed once
      with its number of occurrences, and none left out that is more frequent than the
      last one listed. */
  lemma RankedCorrect(xs: seq<string>)
    ensures var top := Ranked(xs); var values := |set x | x in xs|;
      && |top| == (if values < 10 then values else 10)
      && NonIncreasing(top, Frequency)
      && (forall i, j :: 0 <= i < j < |top| ==> top[i].0 != top[j].0)
      && (forall e :: e in top ==> e.0 in xs && 1 <= e.1 == Count(xs, e.0))
      && (forall x :: x in xs && (x, Count(xs, x)) !in top ==> Count(xs, x) as real <= Frequency(top[|top| - 1]))
  {
    TopN(Tally(xs), Frequency, 10);
    TallySize(xs);
    RankedCounts(xs);
    RankedDistinct(xs);
    RankedComplete(xs);
  }

  /** The tally has one entry per distinct value. */
  lemma TallySize(xs: seq<string>)
    ensures |Tally(xs)| == |set x | x in xs|
  {
    var vs := Unique(xs);
    DistinctCardinality(vs);
    assert (set x | x in vs) == (set x | x in xs);
  }

  /** Each ranked value occurs in the input, as often as its count says. */
  lemma RankedCounts(xs: seq<string>)
    ensures forall e :: e in Ranked(xs) ==> e.0 in xs && 1 <= e.1 == Count(xs, e.0)
  {
    TallyCorrect(xs);
    RankedFromTally(xs);
  }

  /** A value left out of the ranking occurs no more often than the last one listed. */
  lemma RankedComplete(xs: seq<string>)
    ensures var top := Ranked(xs);
      forall x :: x in xs && (x, Count(xs, x)) !in top ==> Count(xs, x) as real <= Frequency(top[|top| - 1])
  {
    var t := Tally(xs);
    var top := Ranked(xs);
    TallyCorrect(xs);
    TopN(t, Frequency, 10);
    forall x | x in xs && (x, Count(xs, x)) !in top
      ensures Count(xs, x) as real <= Frequency(top[|top| - 1])
    {
      assert (x, Count(xs, x)) in t;
    }
  }

  /** The co-purchase ranking: ten combinations, or all of them when there are fewer, most frequent first, each with the
      number of distinct multi-item orders that bought exactly that combination, each listed once,
      each the joined products of some multi-item order, and none left out that is more
      frequent than the last one listed. */
  lemma TopCombinationsCorrect(rows: seq<Row>)
    requires Joinable(rows)
    ensures var top := TopCombinations(rows); var combos := |set c | c in Combinations(rows)|;
      && |top| == (if combos < 10 then combos else 10)
      && NonIncreasing(top, Frequency)
      && (forall i, j :: 0 <= i < j < |top| ==> top[i].0 != top[j].0)
      && (forall e :: e in top ==> 1 <= e.1 == |Buyers(rows, e.0)|)
      && (forall e :: e in top ==> exists id :: MultiItem(rows, id) && e.0 == JoinedProducts(rows, id))
      && (forall c :: c in Combinations(rows) && (c, |Buyers(rows, c)|) !in top ==>
            |Buyers(rows, c)| as real <= Frequency(top[|top| - 1]))
  {
    var xs := Combinations(rows);
    var top := TopCombinations(rows);
    assert top == Ranked(xs);
    RankedCorrect(xs);
    CombinationsFromOrders(rows);
    CombinationCounts(rows);
    forall e | e in top ensures exists id :: MultiItem(rows, id) && e.0 == JoinedProducts(rows, id) {
      assert e.0 in xs;
    }
  }

  /** The multi-item orders whose products, joined, give the combination `c`. */
  function Buyers(rows: seq<Row>, c: string): set<string>
    requires Joinable(rows)
  {
    set i | 0 <= i < |rows| && rows[i].orderId.Some? && MultiItem(rows, rows[i].orderId.value)
      && JoinedProducts(rows, rows[i].orderId.value) == c :: rows[i].orderId.value
  }

  /** The Order IDs of the deduplicated entries that carry the combination `c`. */
  function EntryIds(os: seq<(Option<string>, Option<string>)>, c: string): set<string> {
    set p | p in os && p.0.Some? && p.1 == Some(c) :: p.0.value
  }

  /** Each combination is counted once per order that bought it: `value_counts` over the
      deduplicated column counts orders, not line items. */
  lemma CombinationCounts(rows: seq<Row>)
    requires Joinable(rows)
    ensures forall c :: Count(Combinations(rows), c) == |Buyers(rows, c)|
  {
    var os := Orders(rows);
    OrdersShape(rows);
    OneEntryPerOrder(rows);
    forall c ensures Count(Combinations(rows), c) == |Buyers(rows, c)| {
      CountEntries(os, c);
      BuyersAreEntries(rows, c);
    }
  }

  /** Over entries with distinct Order IDs, where every combination has an Order ID, a
      combination occurs as often as there are Order IDs carrying it. */
  lemma {:induction false} CountEntries(os: seq<(Option<string>, Option<string>)>, c: string)
    requires forall i, j :: 0 <= i < j < |os| ==> os[i].0 != os[j].0
    requires forall k :: 0 <= k < |os| && os[k].1.Some? ==> os[k].0.Some?
    ensures Count(KeysOf(os, CombinationOf), c) == |EntryIds(os, c)|
  {
    if os == [] {
      assert EntryIds(os, c) == {};
    } else {
      var rest := os[1..];
      assert forall i, j :: 0 <= i < j < |rest| ==> rest[i].0 != rest[j].0 by {
        forall i, j | 0 <= i < j < |rest| ensures rest[i].0 != rest[j].0 {
          assert rest[i] == os[i + 1] && rest[j] == os[j + 1];
        }
      }
      CountEntries(rest, c);
      CountStep(os, c);
      EntryIdsStep(os, c);
      if os[0].1 == Some(c) {
        FirstIdNotLater(os, c);
      }
    }
  }

  /** With distinct Order IDs, the first entry's Order ID is carried by no later entry. */
  lemma FirstIdNotLater(os: seq<(Option<string>, Option<string>)>, c: string)
    requires forall i, j :: 0 <= i < j < |os| ==> os[i].0 != os[j].0
    requires os != [] && os[0].0.Some?
    ensures os[0].0.value !in EntryIds(os[1..], c)
  {
    forall p | p in os[1..] && p.0.Some? ensures p.0.value != os[0].0.value {
      var j :| 0 <= j < |os[1..]| && os[1..][j] == p;
      assert os[j + 1] == p;
    }
  }

  /** The first entry adds one to the count of its own combination only. */
  lemma CountStep(os: seq<(Option<string>, Option<string>)>, c: string)
    requires os != []
    ensures Count(KeysOf(os, CombinationOf), c)
      == (if os[0].1 == Some(c) then 1 else 0) + Count(KeysOf(os[1..], CombinationOf), c)
  {
    var ks := KeysOf(os, CombinationOf);
    if os[0].1.Some? {
      assert ks == [os[0].1.value] + KeysOf(os[1..], CombinationOf);
      assert ks[1..] == KeysOf(os[1..], CombinationOf);
    }
  }

  /** The first entry adds its own Order ID to the Order IDs of its own combination only. */
  lemma EntryIdsStep(os: seq<(Option<string>, Option<string>)>, c: string)
    requires os != []
    ensures EntryIds(os, c)
      == (if os[0].0.Some? && os[0].1 == Some(c) then {os[0].0.value} else {}) + EntryIds(os[1..], c)
  {
    assert forall p :: p in os <==> p == os[0] || p in os[1..];
  }

  /** The buyers of a combination are exactly the Order IDs of the deduplicated entries
      that carry it. */
  lemma BuyersAreEntries(rows: seq<Row>, c: string)
    requires Joinable(rows)
    ensures Buyers(rows, c) == EntryIds(Orders(rows), c)
  {
    var os := Orders(rows);
    OrdersShape(rows);
    OneEntryPerOrder(rows);
    forall id | id in EntryIds(os, c) ensures id in Buyers(rows, c) {
      var p :| p in os && p.0 == Some(id) && p.1 == Some(c);
      var k :| 0 <= k < |os| && os[k] == p;
      assert Some(id) in Ids(rows);
      var i :| 0 <= i < |rows| && Ids(rows)[i] == Some(id);
    }
    forall id | id in Buyers(rows, c) ensures id in EntryIds(os, c) {
      var k :| 0 <= k < |os| && os[k].0 == Some(id);
      assert os[k] in os;
    }
  }

  /** Two line items of one order and a single-item order: only the first order is a
      co-purchase, and its combination is reported once. */
  lemma PairedOrderExample(rows: seq<Row>, a: Row, b: Row, c: Row, first: string, second: string)
    requires rows == [a, b, c]
    requires a.orderId == b.orderId && a.orderId.Some?
    requires c.orderId.Some? && c.orderId != a.orderId
    requires a.product == Some(first) && b.product == Some(second)
    ensures Joinable(rows)
    ensures TopCombinations(rows) == [(first + ", " + second, 1)]
  {
    var combo := first + ", " + second;
    ExampleOrders(rows, a, b, c, first, second);
    var pair: (Option<string>, Option<string>) := (a.orderId, Some(combo));
    assert KeysOf([pair], CombinationOf) == [combo] by {
      assert |[pair][1..]| == 0;
    }
    assert Combinations(rows) == [combo];
    SingleRanked(combo);
    assert TopCombinations(rows) == Ranked([combo]);
  }

  /** The example's deduplicated orders: one entry, for the two-item order. */
  lemma ExampleOrders(rows: seq<Row>, a: Row, b: Row, c: Row, first: string, second: string)
    requires rows == [a, b, c]
    requires a.orderId == b.orderId && a.orderId.Some?
    requires c.orderId.Some? && c.orderId != a.orderId
    requires a.product == Some(first) && b.product == Some(second)
    ensures Joinable(rows)
    ensures Orders(rows) == [(a.orderId, Some(first + ", " + second))]
  {
    ExampleDuplicates(rows, a, b, c);
    var dup := DuplicatedRows(rows);
    var pair: (Option<string>, Option<string>) := (a.orderId, Some(first + ", " + second));
    ExampleCombination(dup, a, b, first, second);
    var pairs := seq(|dup|, i requires 0 <= i < |dup| => (dup[i].orderId, Combination(dup, dup[i])));
    assert pairs == [pair, pair];
    DuplicatePair(pair);
  }

  /** Both line items of the example's shared order carry the combination "first, second". */
  lemma ExampleCombination(dup: seq<Row>, a: Row, b: Row, first: string, second: string)
    requires dup == [a, b]
    requires a.orderId == b.orderId && a.orderId.Some?
    requires a.product == Some(first) && b.product == Some(second)
    ensures Combination(dup, a) == Some(first + ", " + second)
    ensures Combination(dup, b) == Some(first + ", " + second)
  {
    var id := a.orderId.value;
    assert ProductsOf(dup, id) == [first, second] by {
      assert ProductsOf([b], id) == [second] by {
        assert |[b][1..]| == 0;
      }
      assert dup[1..] == [b];
    }
    assert Join([first, second], ", ") == first + ", " + second by {
      assert [first, second][1..] == [second];
    }
  }

  /** `drop_duplicates` keeps one copy of a repeated entry. */
  lemma DuplicatePair<T>(p: T)
    ensures Unique([p, p]) == [p]
  {
    assert Unique([p]) == [p] by {
      assert |[p][..0]| == 0;
    }
    assert [p, p][..1] == [p];
  }

  /** The example's duplicated rows: the two line items of the shared order. */
  lemma ExampleDuplicates(rows: seq<Row>, a: Row, b: Row, c: Row)
    requires rows == [a, b, c]
    requires a.orderId == b.orderId && c.orderId != a.orderId
    ensures DuplicatedRows(rows) == [a, b]
  {
    assert Ids(rows) == [a.orderId, a.orderId, c.orderId];
    assert Count(Ids(rows), a.orderId) == 2;
    assert Count(Ids(rows), c.orderId) == 1;
    var keep := r => Duplicated(rows, r);
    assert Where([c], keep) == [] by {
      assert |[c][1..]| == 0;
    }
    WhereCons(b, [c], keep);
    WhereCons(a, [b, c], keep);
    assert [b] + [c] == [b, c] && [a] + [b, c] == rows;
  }

  /** A single combination is ranked first, with count one. */
  lemma SingleRanked(combo: string)
    ensures Ranked([combo]) == [(combo, 1)]
  {
    assert Tally([combo]) == [(combo, 1)] by {
      assert Unique([combo]) == [combo] by {
        assert |[combo][..0]| == 0;
      }
      assert |[combo][1..]| == 0;
    }
    assert SortDesc([(combo, 1)], Frequency) == [(combo, 1)] by {
      assert multiset(SortDesc([(combo, 1)], Frequency)) == multiset{(combo, 1)};
    }
  }
}
