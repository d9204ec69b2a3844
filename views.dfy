/** The grouped views behind the charts (app.py:80-117). */
module Views {
  import opened Wrappers
  import opened Seqs
  import opened Ordering
  import opened Grouping
  import opened Table
  import opened Selection
  import opened Metrics

  function HourKey(r: Row): Option<int> { r.hour }
  function ProductKey(r: Row): Option<string> { r.product }
  function SalesOf(r: Row): real { r.sales }
  function QuantityOf(r: Row): real { r.quantity }
  function PriceOf(r: Row): real { r.price }
  function HasOrderId(r: Row): bool { r.orderId.Some? }
  function Value<K>(e: (K, real)): real { e.1 }

  /** `df.groupby('Month')['Sales'].sum().sort_index()`. */
  function MonthlyRevenue(rows: seq<Row>): seq<(string, real)> {
    GroupSums(rows, MonthKey, SalesOf, GroupIndex(rows, MonthKey, StrLt))
  }

  /** Monthly revenue has one entry per month that occurs and no other, months strictly ascending, each
      holding the sales of that month; the entries add up to the sales of the rows that
      have a month. */
  lemma MonthlyRevenueCorrect(rows: seq<Row>)
    ensures var g := MonthlyRevenue(rows);
      && (forall i, j :: 0 <= i < j < |g| ==> StrLt(g[i].0, g[j].0))
      && (forall i :: 0 <= i < |rows| && rows[i].month.Some? ==> exists j :: 0 <= j < |g| && g[j].0 == rows[i].month.value)
      && (forall j :: 0 <= j < |g| ==> exists i :: 0 <= i < |rows| && rows[i].month == Some(g[j].0))
      && (forall j :: 0 <= j < |g| ==> g[j].1 == SumWhere(rows, MonthKey, SalesOf, g[j].0))
      && Total(g) == SumDefined(rows, MonthKey, SalesOf)
  {
    StrLtIsStrictTotalOrder();
    GroupIndexCorrect(rows, MonthKey, StrLt);
    GroupSumsConserve(rows, MonthKey, SalesOf, GroupIndex(rows, MonthKey, StrLt));
    GroupedKeys(rows, MonthKey, StrLt, MonthlyRevenue(rows));
  }

  /** When every row has a month, the sales of rows with a month are all the sales. */
  lemma {:induction false} AllDatedSales(rows: seq<Row>)
    requires forall i :: 0 <= i < |rows| ==> rows[i].month.Some?
    ensures SumDefined(rows, MonthKey, SalesOf) == TotalSales(rows)
  {
    if rows != [] {
      AllDatedSales(rows[1..]);
    }
  }

  /** Conservation of totals on the dashboard: after filtering, monthly revenue adds up to
      the total sales metric. */
  lemma MonthlyRevenueConserves(rows: seq<Row>, months: seq<string>, cities: seq<string>)
    ensures Total(MonthlyRevenue(Filter(rows, months, cities))) == TotalSales(Filter(rows, months, cities))
  {
    var f := Filter(rows, months, cities);
    MonthlyRevenueCorrect(f);
    assert forall i :: 0 <= i < |f| ==> f[i].month.Some?;
    AllDatedSales(f);
  }

  /** `df.groupby('City')['Sales'].sum().sort_values(ascending=False)`. */
  function CityRevenue(rows: seq<Row>): seq<(string, real)> {
    SortDesc(CityGroupSums(rows), Value)
  }

  /** City revenue lists every city that occurs, once, and no other, with its sales,
      largest first. */
  lemma CityRevenueCorrect(rows: seq<Row>)
    ensures var g := CityRevenue(rows);
      && NonIncreasing(g, Value)
      && (forall i, j :: 0 <= i < j < |g| ==> g[i].0 != g[j].0)
      && (forall i :: 0 <= i < |rows| ==> exists j :: 0 <= j < |g| && g[j].0 == rows[i].city)
      && (forall j :: 0 <= j < |g| ==> exists i :: 0 <= i < |rows| && rows[i].city == g[j].0)
      && (forall j :: 0 <= j < |g| ==> g[j].1 == SumWhere(rows, CityKey, SalesOf, g[j].0))
  {
    var g := CityRevenue(rows);
    CityGroups(rows);
    CityRevenueCovers(rows);
    CityRevenueOccurs(rows);
    CityRevenueSums(rows);
    KeptKeysDistinct(CityGroupSums(rows), g, g);
  }

  /** The city groups before sorting, in city order. */
  function CityGroupSums(rows: seq<Row>): seq<(string, real)> {
    GroupSums(rows, CityKey, SalesOf, GroupIndex(rows, CityKey, StrLt))
  }

  /** Every city that occurs is listed. */
  lemma CityRevenueCovers(rows: seq<Row>)
    ensures var g := CityRevenue(rows);
      forall i :: 0 <= i < |rows| ==> exists j :: 0 <= j < |g| && g[j].0 == rows[i].city
  {
    var byKey := CityGroupSums(rows);
    var g := CityRevenue(rows);
    CityGroups(rows);
    forall i | 0 <= i < |rows| ensures exists j :: 0 <= j < |g| && g[j].0 == rows[i].city {
      var k :| 0 <= k < |byKey| && byKey[k].0 == rows[i].city;
      var j := Rearranged(byKey, g, k);
    }
  }

  /** An entry of a sequence is found again in any rearrangement of it. */
  lemma Rearranged<T>(a: seq<T>, b: seq<T>, k: int) returns (j: int)
    requires multiset(a) == multiset(b) && 0 <= k < |a|
    ensures 0 <= j < |b| && b[j] == a[k]
  {
    assert a[k] in multiset(b);
    j :| 0 <= j < |b| && b[j] == a[k];
  }

  /** Every city listed occurs. */
  lemma CityRevenueOccurs(rows: seq<Row>)
    ensures var g := CityRevenue(rows);
      forall j :: 0 <= j < |g| ==> exists i :: 0 <= i < |rows| && rows[i].city == g[j].0
  {
    var byKey := CityGroupSums(rows);
    var g := CityRevenue(rows);
    CityGroups(rows);
    forall j | 0 <= j < |g| ensures exists i :: 0 <= i < |rows| && rows[i].city == g[j].0 {
      var k := Rearranged(g, byKey, j);
      var i :| 0 <= i < |rows| && rows[i].city == byKey[k].0;
    }
  }

  /** Each city listed carries its sales sum. */
  lemma CityRevenueSums(rows: seq<Row>)
    ensures var g := CityRevenue(rows);
      forall j :: 0 <= j < |g| ==> g[j].1 == SumWhere(rows, CityKey, SalesOf, g[j].0)
  {
    var byKey := CityGroupSums(rows);
    var g := CityRevenue(rows);
    forall j | 0 <= j < |g| ensures g[j].1 == SumWhere(rows, CityKey, SalesOf, g[j].0) {
      var k := Rearranged(g, byKey, j);
    }
  }

  /** The city groups before sorting: one entry per city that occurs, and no other. */
  lemma CityGroups(rows: seq<Row>)
    ensures var byKey := CityGroupSums(rows);
      && (forall i, j :: 0 <= i < j < |byKey| ==> byKey[i].0 != byKey[j].0)
      && (forall i :: 0 <= i < |rows| ==> exists j :: 0 <= j < |byKey| && byKey[j].0 == rows[i].city)
      && (forall j :: 0 <= j < |byKey| ==> exists i :: 0 <= i < |rows| && rows[i].city == byKey[j].0)
  {
    StrLtIsStrictTotalOrder();
    var byKey := CityGroupSums(rows);
    GroupedKeys(rows, CityKey, StrLt, byKey);
    forall i | 0 <= i < |rows| ensures exists j :: 0 <= j < |byKey| && byKey[j].0 == rows[i].city {
      assert CityKey(rows[i]).Some?;
    }
    forall i, j | 0 <= i < j < |byKey| ensures byKey[i].0 != byKey[j].0 {
      StrLtIrreflexive(byKey[i].0);
    }
  }

  /** `df.groupby('Hour')['Order ID'].count()`: per hour, the rows with an Order ID. */
  function HourlyCounts(rows: seq<Row>): seq<(int, nat)> {
    GroupCounts(rows, HourKey, HasOrderId, GroupIndex(rows, HourKey, IntLt))
  }

  /** Hours come out ascending, one entry per hour that occurs; rows whose date did not
      parse belong to no hour. */
  lemma HourlyCountsCorrect(rows: seq<Row>)
    ensures var g := HourlyCounts(rows);
      && (forall i, j :: 0 <= i < j < |g| ==> g[i].0 < g[j].0)
      && (forall i :: 0 <= i < |rows| && rows[i].hour.Some? ==> exists j :: 0 <= j < |g| && g[j].0 == rows[i].hour.value)
      && (forall j :: 0 <= j < |g| ==> exists i :: 0 <= i < |rows| && rows[i].hour == Some(g[j].0))
      && (forall j :: 0 <= j < |g| ==> g[j].1 == CountWhere(rows, HourKey, HasOrderId, g[j].0))
  {
    IntLtIsStrictTotalOrder();
    GroupedKeys(rows, HourKey, IntLt, HourlyCounts(rows));
  }

  /** `df.groupby('Product')['Quantity Ordered'].sum()` in product order. */
  function ProductQuantities(rows: seq<Row>): seq<(string, real)> {
    GroupSums(rows, ProductKey, QuantityOf, GroupIndex(rows, ProductKey, StrLt))
  }

  /** `...sum().sort_values(ascending=False).head(10)`. */
  function TopProducts(rows: seq<Row>): seq<(string, real)> {
    Prefix(SortDesc(ProductQuantities(rows), Value), 10)
  }

  /** Ten products, or all of them when there are fewer; largest quantity first; each a
      product that occurs, listed once with its summed quantity; a product left out sold
      no more than the last one listed. */
  lemma TopProductsCorrect(rows: seq<Row>)
    ensures var top := TopProducts(rows); var all := ProductQuantities(rows);
      && |top| == (if |all| < 10 then |all| else 10)
      && NonIncreasing(top, Value)
      && multiset(top) <= multiset(all)
      && (forall i, j :: 0 <= i < j < |top| ==> top[i].0 != top[j].0)
      && (forall j :: 0 <= j < |top| ==> exists i :: 0 <= i < |rows| && rows[i].product == Some(top[j].0))
      && (forall j :: 0 <= j < |top| ==> top[j].1 == SumWhere(rows, ProductKey, QuantityOf, top[j].0))
      && (forall e :: e in all && e !in top ==> e.1 <= top[|top| - 1].1)
  {
    TopN(ProductQuantities(rows), Value, 10);
    TopProductsDistinct(rows);
    TopProductsEntries(rows);
  }

  /** The products listed in the top ten are distinct. */
  lemma TopProductsDistinct(rows: seq<Row>)
    ensures var top := TopProducts(rows);
      forall i, j :: 0 <= i < j < |top| ==> top[i].0 != top[j].0
  {
    var all := ProductQuantities(rows);
    ProductOverlayAligned(rows);
    StrLtIsStrictTotalOrder();
    forall i, j | 0 <= i < j < |all| ensures all[i].0 != all[j].0 {
      StrLtIrreflexive(all[i].0);
    }
    KeptKeysDistinct(all, SortDesc(all, Value), TopProducts(rows));
  }

  /** Each product in the top ten occurs in some row and carries its summed quantity. */
  lemma TopProductsEntries(rows: seq<Row>)
    ensures var top := TopProducts(rows);
      && (forall j :: 0 <= j < |top| ==> exists i :: 0 <= i < |rows| && rows[i].product == Some(top[j].0))
      && (forall j :: 0 <= j < |top| ==> top[j].1 == SumWhere(rows, ProductKey, QuantityOf, top[j].0))
  {
    var all := ProductQuantities(rows);
    var sorted := SortDesc(all, Value);
    var top := TopProducts(rows);
    ProductOverlayAligned(rows);
    forall j | 0 <= j < |top|
      ensures (exists i :: 0 <= i < |rows| && rows[i].product == Some(top[j].0))
      ensures top[j].1 == SumWhere(rows, ProductKey, QuantityOf, top[j].0)
    {
      assert top[j] == sorted[j];
      var k := Rearranged(sorted, all, j);
    }
  }

  /** Taking a prefix of a rearrangement of entries with distinct keys keeps the keys distinct. */
  lemma KeptKeysDistinct<K, V>(all: seq<(K, V)>, sorted: seq<(K, V)>, top: seq<(K, V)>)
    requires forall i, j :: 0 <= i < j < |all| ==> all[i].0 != all[j].0
    requires multiset(sorted) == multiset(all) && top <= sorted
    ensures forall i, j :: 0 <= i < j < |top| ==> top[i].0 != top[j].0
  {
    assert Distinct(all);
    DistinctPermutation(all, sorted);
    forall i, j | 0 <= i < j < |top| ensures top[i].0 != top[j].0 {
      assert top[i] == sorted[i] && top[j] == sorted[j];
      assert top[i] != top[j];
      assert top[i] in multiset(all) && top[j] in multiset(all);
      var p :| 0 <= p < |all| && all[p] == top[i];
      var q :| 0 <= q < |all| && all[q] == top[j];
      assert p != q;
    }
  }

  /** app.py:116-117: per product (ascending), the summed quantity and the mean unit price,
      aligned entry by entry. */
  function ProductOverlay(rows: seq<Row>): (seq<(string, real)>, seq<(string, real)>) {
    (ProductQuantities(rows), MeanPrices(rows))
  }

  /** `df.groupby('Product')['Price Each'].mean()`. */
  function MeanPrices(rows: seq<Row>): seq<(string, real)> {
    var ks := GroupIndex(rows, ProductKey, StrLt);
    StrLtIsStrictTotalOrder();
    GroupIndexNonEmpty(rows, ProductKey, StrLt);
    GroupMeans(rows, ProductKey, PriceOf, ks)
  }

  /** The two series of the overlay cover the same products in the same order, ascending,
      every product that occurs and no other, each with its summed quantity. */
  lemma ProductOverlayAligned(rows: seq<Row>)
    ensures var qty := ProductOverlay(rows).0; var price := ProductOverlay(rows).1;
      && |qty| == |price|
      && (forall i :: 0 <= i < |qty| ==> qty[i].0 == price[i].0)
      && (forall i, j :: 0 <= i < j < |qty| ==> StrLt(qty[i].0, qty[j].0))
      && (forall i :: 0 <= i < |rows| && rows[i].product.Some? ==> exists j :: 0 <= j < |qty| && qty[j].0 == rows[i].product.value)
      && (forall j :: 0 <= j < |qty| ==> exists i :: 0 <= i < |rows| && rows[i].product == Some(qty[j].0))
      && (forall i :: 0 <= i < |qty| ==> qty[i].1 == SumWhere(rows, ProductKey, QuantityOf, qty[i].0))
  {
    var qty, price := ProductQuantities(rows), MeanPrices(rows);
    var ks := GroupIndex(rows, ProductKey, StrLt);
    assert |qty| == |ks| == |price|;
    assert forall i :: 0 <= i < |qty| ==> qty[i].0 == ks[i] == price[i].0;
    StrLtIsStrictTotalOrder();
    GroupedKeys(rows, ProductKey, StrLt, qty);
  }

  /** Each mean price is the sum of the product's unit prices over its (non-empty) count
      of line items. */
  lemma ProductOverlayMeans(rows: seq<Row>)
    ensures var price := ProductOverlay(rows).1;
      forall i :: 0 <= i < |price| ==>
        && GroupSize(rows, ProductKey, price[i].0) > 0
        && price[i].1 == SumWhere(rows, ProductKey, PriceOf, price[i].0) / (GroupSize(rows, ProductKey, price[i].0) as real)
  {
    StrLtIsStrictTotalOrder();
    GroupIndexNonEmpty(rows, ProductKey, StrLt);
  }
}
