/** The cleaning stage (app.py:34-48): the concatenated raw sales table becomes a table
    of typed line items with the derived Sales, Month, Hour and City columns. */
module Table {
  import opened Wrappers
  import opened Seqs
  import opened Text

  /** A parsed Order Date (a pandas Timestamp); only its hour is read downstream. */
  datatype Timestamp = Timestamp(year: int, month: int, day: int, hour: int, minute: int)

  /** The two foreign parsers, `pd.to_numeric(..., errors='coerce')` and
      `pd.to_datetime(..., errors='coerce')`: text in, a value or NaN/NaT out. */
  datatype Coercions = Coercions(toNumeric: string -> Option<real>, toDatetime: string -> Option<Timestamp>)

  /** One line of the concatenated CSV input. Every cell holds its text or is missing (NaN). */
  datatype RawRow = RawRow(
    orderId: Option<string>,
    product: Option<string>,
    quantity: Option<string>,
    price: Option<string>,
    orderDate: Option<string>,
    address: Option<string>)

  /** The concatenated input; `hasAddress` says whether a 'Purchase Address' column exists
      at all (when it does not, the rows' `address` cells are not part of the table). */
  datatype RawTable = RawTable(hasAddress: bool, rows: seq<RawRow>)

  /** A cleaned line item. */
  datatype Row = Row(
    orderId: Option<string>,
    product: Option<string>,
    quantity: real,
    price: real,
    orderDate: Option<Timestamp>,
    address: Option<string>,
    sales: real,
    month: Option<string>,
    hour: Option<int>,
    city: string)

  /** The working table after the numeric coercions of app.py:36-37, before app.py:38. */
  datatype Coerced = Coerced(raw: RawRow, quantity: Option<real>, price: Option<real>)

  /** `dropna(how='all')` drops a row whose every existing column is NaN. */
  predicate AllEmpty(r: RawRow, hasAddress: bool) {
    && r.orderId.None? && r.product.None? && r.quantity.None?
    && r.price.None? && r.orderDate.None?
    && (hasAddress ==> r.address.None?)
  }

  /** A header line inside an uploaded file's data: its Order Date text starts with "Or".
      A missing date is not one (NaN != 'Or' holds). */
  predicate IsHeaderLine(r: RawRow) {
    r.orderDate.Some? && Prefix(r.orderDate.value, 2) == "Or"
  }

  function ToNumber(cell: Option<string>, co: Coercions): Option<real> {
    match cell
    case None => None
    case Some(text) => co.toNumeric(text)
  }

  function ToTimestamp(cell: Option<string>, co: Coercions): Option<Timestamp> {
    match cell
    case None => None
    case Some(text) => co.toDatetime(text)
  }

  /** `Order Date.str[0:2]`, taken from the raw text. */
  function MonthOf(cell: Option<string>): Option<string> {
    match cell
    case None => None
    case Some(text) => Some(Prefix(text, 2))
  }

  /** `Order Date.dt.hour`; NaT has no hour. */
  function HourOf(ts: Option<Timestamp>): Option<int> {
    match ts
    case None => None
    case Some(t) => Some(t.hour)
  }

  /** The lambda of app.py:46. */
  function CityOf(address: string): string {
    if ',' in address then Split(address, ',')[1] else "Unknown"
  }

  /** A row that reaches the derivations of app.py:39-48. */
  predicate Kept(r: RawRow, hasAddress: bool, co: Coercions) {
    && !AllEmpty(r, hasAddress)
    && !IsHeaderLine(r)
    && ToNumber(r.quantity, co).Some?
    && ToNumber(r.price, co).Some?
  }

  /** The lambda of app.py:46 raises TypeError on a NaN address; the pipeline is only
      defined when every row that reaches it has an address. */
  predicate AddressesPresent(rows: seq<RawRow>, hasAddress: bool, co: Coercions) {
    hasAddress ==> forall r :: r in rows && Kept(r, hasAddress, co) ==> r.address.Some?
  }

  predicate Derivable(c: Coerced, hasAddress: bool) {
    c.quantity.Some? && c.price.Some? && (hasAddress ==> c.raw.address.Some?)
  }

  /** The columns written by app.py:39-48 for one surviving row. */
  function Derive(c: Coerced, hasAddress: bool, co: Coercions): Row
    requires Derivable(c, hasAddress)
  {
    var q, p := c.quantity.value, c.price.value;
    var ts := ToTimestamp(c.raw.orderDate, co);
    Row(c.raw.orderId, c.raw.product, q, p, ts,
        if hasAddress then c.raw.address else None,
        q * p,
        MonthOf(c.raw.orderDate),
        HourOf(ts),
        if hasAddress then CityOf(c.raw.address.value) else "Unknown")
  }

  /** What cleaning does to one raw row: drop it, or turn it into one line item. */
  function CleanRow(r: RawRow, hasAddress: bool, co: Coercions): Option<Row>
    requires hasAddress && Kept(r, hasAddress, co) ==> r.address.Some?
  {
    if Kept(r, hasAddress, co) then
      Some(Derive(Coerced(r, ToNumber(r.quantity, co), ToNumber(r.price, co)), hasAddress, co))
    else None
  }

  /** The cleaned table, row by row: the specification of `Clean`. */
  function Cleaned(rows: seq<RawRow>, hasAddress: bool, co: Coercions): seq<Row>
    requires AddressesPresent(rows, hasAddress, co)
  {
    if rows == [] then []
    else
      match CleanRow(rows[0], hasAddress, co)
      case Some(x) => [x] + Cleaned(rows[1..], hasAddress, co)
      case None => Cleaned(rows[1..], hasAddress, co)
  }

  // The whole-column steps of app.py:34-48, in the order the script applies them.

  function DropEmpty(rows: seq<RawRow>, hasAddress: bool): seq<RawRow> {
    Where(rows, r => !AllEmpty(r, hasAddress))
  }

  function DropHeaderLines(rows: seq<RawRow>): seq<RawRow> {
    Where(rows, r => !IsHeaderLine(r))
  }

  /** `pd.to_numeric(..., errors='coerce')` on both number columns: each row converted on
      its own, in place, an unparsable cell becoming NaN. */
  function CoerceNumbers(rows: seq<RawRow>, co: Coercions): (cs: seq<Coerced>)
    ensures |cs| == |rows|
    ensures forall i :: 0 <= i < |rows| ==>
      cs[i] == Coerced(rows[i], ToNumber(rows[i].quantity, co), ToNumber(rows[i].price, co))
  {
    if rows == [] then []
    else
      var c := Coerced(rows[0], ToNumber(rows[0].quantity, co), ToNumber(rows[0].price, co));
      [c] + CoerceNumbers(rows[1..], co)
  }

  function DropNonNumeric(cs: seq<Coerced>): seq<Coerced> {
    Where(cs, (c: Coerced) => c.quantity.Some? && c.price.Some?)
  }

  function DeriveColumns(cs: seq<Coerced>, hasAddress: bool, co: Coercions): seq<Row>
    requires forall c :: c in cs ==> Derivable(c, hasAddress)
  {
    if cs == [] then [] else [Derive(cs[0], hasAddress, co)] + DeriveColumns(cs[1..], hasAddress, co)
  }

  /** The invariant every cleaned row satisfies. */
  predicate CleanLineItem(x: Row, hasAddress: bool) {
    && x.sales == x.quantity * x.price
    && x.month != Some("Or")
    && (x.month.Some? ==> |x.month.value| <= 2)
    && (x.orderDate.None? ==> x.hour.None?)
    && (x.orderDate.Some? ==> x.hour == Some(x.orderDate.value.hour))
    && (!hasAddress ==> x.city == "Unknown")
  }

  /** app.py:34-48. The working table is rebound step by step as in the script; the
      result is the row-by-row specification `Cleaned`, and every row is a clean line item. */
  method Clean(t: RawTable, co: Coercions) returns (df: seq<Row>)
    requires AddressesPresent(t.rows, t.hasAddress, co)
    ensures df == Cleaned(t.rows, t.hasAddress, co)
    ensures |df| <= |t.rows|
    ensures forall x :: x in df ==> CleanLineItem(x, t.hasAddress)
  {
    var rows := DropEmpty(t.rows, t.hasAddress);
    rows := DropHeaderLines(rows);
    var coerced := CoerceNumbers(rows, co);
    coerced := DropNonNumeric(coerced);
    SurvivorsDerivable(t.rows, t.hasAddress, co);
    StepsAreRowwise(t.rows, t.hasAddress, co);
    assert coerced == Survivors(t.rows, t.hasAddress, co);
    df := DeriveColumns(coerced, t.hasAddress, co);
    CleanedFacts(t.rows, t.hasAddress, co);
  }

  /** app.py:34-38 applied to a table: the rows that reach the derivations. */
  function Survivors(rows: seq<RawRow>, hasAddress: bool, co: Coercions): seq<Coerced> {
    DropNonNumeric(CoerceNumbers(DropHeaderLines(DropEmpty(rows, hasAddress)), co))
  }

  /** The column steps, looked at one row at a time. */
  lemma SurvivorsCons(rows: seq<RawRow>, hasAddress: bool, co: Coercions)
    requires rows != []
    ensures var r := rows[0];
      var c := Coerced(r, ToNumber(r.quantity, co), ToNumber(r.price, co));
      Survivors(rows, hasAddress, co)
        == (if Kept(r, hasAddress, co) then [c] else []) + Survivors(rows[1..], hasAddress, co)
  {
    var r, rest := rows[0], rows[1..];
    var c := Coerced(r, ToNumber(r.quantity, co), ToNumber(r.price, co));
    var e := DropEmpty(rest, hasAddress);
    var h := DropHeaderLines(e);
    var cs := CoerceNumbers(h, co);
    if !AllEmpty(r, hasAddress) {
      assert DropEmpty(rows, hasAddress) == [r] + e;
      assert ([r] + e)[1..] == e;
      if !IsHeaderLine(r) {
        assert DropHeaderLines([r] + e) == [r] + h;
        assert ([r] + h)[1..] == h;
        assert CoerceNumbers([r] + h, co) == [c] + cs;
        assert ([c] + cs)[1..] == cs;
        assert DropNonNumeric([c] + cs)
          == (if c.quantity.Some? && c.price.Some? then [c] else []) + DropNonNumeric(cs);
      } else {
        assert DropHeaderLines([r] + e) == h;
      }
    } else {
      assert DropEmpty(rows, hasAddress) == e;
    }
  }

  lemma {:induction false} SurvivorsDerivable(rows: seq<RawRow>, hasAddress: bool, co: Coercions)
    requires AddressesPresent(rows, hasAddress, co)
    ensures forall c :: c in Survivors(rows, hasAddress, co) ==> Derivable(c, hasAddress)
  {
    if rows != [] {
      SurvivorsCons(rows, hasAddress, co);
      assert AddressesPresent(rows[1..], hasAddress, co) by {
        forall r | r in rows[1..] ensures r in rows { }
      }
      SurvivorsDerivable(rows[1..], hasAddress, co);
    }
  }

  /** Running the column steps one after another does to each row what `CleanRow` does. */
  lemma {:induction false} StepsAreRowwise(rows: seq<RawRow>, hasAddress: bool, co: Coercions)
    requires AddressesPresent(rows, hasAddress, co)
    requires forall c :: c in Survivors(rows, hasAddress, co) ==> Derivable(c, hasAddress)
    ensures DeriveColumns(Survivors(rows, hasAddress, co), hasAddress, co) == Cleaned(rows, hasAddress, co)
  {
    if rows != [] {
      var r, rest := rows[0], rows[1..];
      assert AddressesPresent(rest, hasAddress, co) by {
        forall x | x in rest ensures x in rows { }
      }
      SurvivorsDerivable(rest, hasAddress, co);
      StepsAreRowwise(rest, hasAddress, co);
      SurvivorsCons(rows, hasAddress, co);
      var c := Coerced(r, ToNumber(r.quantity, co), ToNumber(r.price, co));
      var ss := Survivors(rest, hasAddress, co);
      if Kept(r, hasAddress, co) {
        assert ([c] + ss)[1..] == ss;
        assert DeriveColumns([c] + ss, hasAddress, co) == [Derive(c, hasAddress, co)] + DeriveColumns(ss, hasAddress, co);
        assert CleanRow(r, hasAddress, co) == Some(Derive(c, hasAddress, co));
      } else {
        assert Survivors(rows, hasAddress, co) == ss;
        assert CleanRow(r, hasAddress, co) == None;
      }
    }
  }

  /** Properties of every row of the cleaned table, and its size. */
  lemma {:induction false} CleanedFacts(rows: seq<RawRow>, hasAddress: bool, co: Coercions)
    requires AddressesPresent(rows, hasAddress, co)
    ensures |Cleaned(rows, hasAddress, co)| <= |rows|
    ensures forall x :: x in Cleaned(rows, hasAddress, co) ==> CleanLineItem(x, hasAddress)
  {
    if rows != [] {
      assert AddressesPresent(rows[1..], hasAddress, co) by {
        forall r | r in rows[1..] ensures r in rows { }
      }
      CleanedFacts(rows[1..], hasAddress, co);
    }
  }

  /** A raw row is dropped exactly when it is all NaN, a header line, or has a
      quantity or price that is not a number; a date that fails to parse does not drop
      it. A kept row carries its id and product, the parsed numbers, Sales = quantity *
      price, the Month cut from the raw date text (not from the parsed date), and an
      Hour only when the date parsed. */
  lemma CleanRowSpec(r: RawRow, hasAddress: bool, co: Coercions)
    requires hasAddress && Kept(r, hasAddress, co) ==> r.address.Some?
    ensures CleanRow(r, hasAddress, co).Some? <==>
      !AllEmpty(r, hasAddress) && !IsHeaderLine(r)
      && ToNumber(r.quantity, co).Some? && ToNumber(r.price, co).Some?
    ensures CleanRow(r, hasAddress, co).Some? ==>
      var x := CleanRow(r, hasAddress, co).value;
      && x.orderId == r.orderId && x.product == r.product
      && Some(x.quantity) == ToNumber(r.quantity, co) && Some(x.price) == ToNumber(r.price, co)
      && x.sales == x.quantity * x.price
      && x.month == MonthOf(r.orderDate)
      && (x.hour.Some? <==> ToTimestamp(r.orderDate, co).Some?)
      && (x.hour.Some? ==> x.hour.value == ToTimestamp(r.orderDate, co).value.hour)
  {
  }

  /** The month is the first two characters of the raw Order Date text; it is never the
      header-line marker "Or". */
  lemma MonthFromRawText(r: RawRow, hasAddress: bool, co: Coercions)
    requires hasAddress && Kept(r, hasAddress, co) ==> r.address.Some?
    requires CleanRow(r, hasAddress, co).Some?
    ensures var x := CleanRow(r, hasAddress, co).value;
      && (r.orderDate.None? <==> x.month.None?)
      && (r.orderDate.Some? ==>
            && x.month.value <= r.orderDate.value
            && |x.month.value| == (if |r.orderDate.value| < 2 then |r.orderDate.value| else 2))
      && x.month != Some("Or")
  {
  }

  /** The City column: with an address column, the piece of the address between its first
      and second comma (leading space kept) when the address has a comma, else "Unknown";
      without the column, "Unknown" for every row. */
  lemma CityFromAddress(r: RawRow, hasAddress: bool, co: Coercions)
    requires hasAddress && Kept(r, hasAddress, co) ==> r.address.Some?
    requires CleanRow(r, hasAddress, co).Some?
    ensures var x := CleanRow(r, hasAddress, co).value;
      && (!hasAddress ==> x.city == "Unknown")
      && (hasAddress && ',' !in r.address.value ==> x.city == "Unknown")
      && (hasAddress && ',' in r.address.value ==>
            var a, i := r.address.value, IndexOf(r.address.value, ',');
            && i + 1 + |x.city| <= |a|
            && a[i + 1..i + 1 + |x.city|] == x.city
            && ',' !in x.city
            && (i + 1 + |x.city| == |a| || a[i + 1 + |x.city|] == ','))
  {
    if hasAddress && ',' in r.address.value {
      SecondPiece(r.address.value, ',');
    }
  }

  /** The example address of the sample data keeps the space after the comma. */
  lemma CityExample(address: string)
    requires address == "136 Church St, New York City, NY 10001"
    ensures CityOf(address) == " New York City"
  {
    var street, city, rest := "136 Church St", " New York City", " NY 10001";
    assert address == street + [','] + city + [','] + rest;
    SplitSecondOf(street, city, rest, ',');
  }

  /** Every cleaned row comes from one raw row that cleaning keeps, and every raw row that
      cleaning keeps gives one cleaned row. */
  lemma {:induction false} CleanedOrigin(rows: seq<RawRow>, hasAddress: bool, co: Coercions)
    requires AddressesPresent(rows, hasAddress, co)
    ensures forall x :: x in Cleaned(rows, hasAddress, co) ==>
      exists r :: r in rows && Kept(r, hasAddress, co) && CleanRow(r, hasAddress, co) == Some(x)
    ensures forall r :: r in rows && Kept(r, hasAddress, co) ==>
      CleanRow(r, hasAddress, co).value in Cleaned(rows, hasAddress, co)
  {
    if rows != [] {
      var rest := rows[1..];
      assert AddressesPresent(rest, hasAddress, co) by {
        forall x | x in rest ensures x in rows { }
      }
      CleanedOrigin(rest, hasAddress, co);
      assert rows == [rows[0]] + rest;
    }
  }
}
