/** The three headline numbers (app.py:68-70). */
module Metrics {
  import opened Wrappers
  import opened Table

  /** `df['Sales'].sum()`. */
  function TotalSales(rows: seq<Row>): real {
    if rows == [] then 0.0 else rows[0].sales + TotalSales(rows[1..])
  }

  /** The distinct Order IDs present (NaN is not an ID). */
  function OrderIds(rows: seq<Row>): set<string> {
    if rows == [] then {}
    else
      var rest := OrderIds(rows[1..]);
      match rows[0].orderId
      case Some(id) => {id} + rest
      case None => rest
  }

  /** The IDs counted are exactly those some row carries. */
  lemma {:induction false} OrderIdsMembers(rows: seq<Row>)
    ensures forall id :: id in OrderIds(rows) <==> exists i :: 0 <= i < |rows| && rows[i].orderId == Some(id)
  {
    if rows != [] {
      OrderIdsMembers(rows[1..]);
      forall id | id in OrderIds(rows[1..]) ensures exists i :: 0 <= i < |rows| && rows[i].orderId == Some(id) {
        var i :| 0 <= i < |rows[1..]| && rows[1..][i].orderId == Some(id);
        assert rows[i + 1].orderId == Some(id);
      }
      forall id, i | 0 <= i < |rows| && rows[i].orderId == Some(id) ensures id in OrderIds(rows) {
        if i > 0 {
          assert rows[1..][i - 1].orderId == Some(id);
        }
      }
    }
  }

  /** `df['Order ID'].nunique()`. */
  function TotalOrders(rows: seq<Row>): nat {
    |OrderIds(rows)|
  }

  /** `total / count if count else 0`. */
  function SafeRatio(total: real, count: nat): (v: real)
    ensures count == 0 ==> v == 0.0
    ensures count > 0 ==> v * (count as real) == total
  {
    if count == 0 then 0.0
    else
      var v := total / (count as real);
      assert v * (count as real) == total;
      v
  }

  /** `total_sales / total_orders if total_orders else 0`: the average order value, and 0
      instead of a division by zero when there are no orders. */
  function AvgOrderValue(rows: seq<Row>): (v: real)
    ensures TotalOrders(rows) == 0 ==> v == 0.0
    ensures TotalOrders(rows) > 0 ==> v * (TotalOrders(rows) as real) == TotalSales(rows)
  {
    SafeRatio(TotalSales(rows), TotalOrders(rows))
  }

  /** Orders are counted, not line items: there are never more orders than rows, and
      none exactly when no row has an Order ID. */
  lemma {:induction false} TotalOrdersBound(rows: seq<Row>)
    ensures TotalOrders(rows) <= |rows|
    ensures TotalOrders(rows) == 0 <==> forall i :: 0 <= i < |rows| ==> rows[i].orderId.None?
  {
    OrderIdsMembers(rows);
    if rows != [] {
      TotalOrdersBound(rows[1..]);
      var rest := OrderIds(rows[1..]);
      match rows[0].orderId {
        case Some(id) =>
          assert |{id} + rest| <= 1 + |rest|;
        case None =>
      }
    }
  }

  /** Two line items of one order make one order. */
  lemma OneOrderTwoItems(a: Row, b: Row)
    requires a.orderId.Some? && b.orderId == a.orderId
    ensures TotalOrders([a, b]) == 1
  {
    assert [a, b][1..] == [b];
    assert [b][1..] == [];
    assert OrderIds([b]) == {a.orderId.value};
    assert OrderIds([a, b]) == {a.orderId.value};
  }
}
