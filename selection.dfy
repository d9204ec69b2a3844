/** The sidebar filter (app.py:54-61): the month and city choices offered, and the rows
    kept for the months and cities selected. */
module Selection {
  import opened Wrappers
  import opened Seqs
  import opened Ordering
  import opened Grouping
  import opened Table

  function MonthKey(r: Row): Option<string> { r.month }
  function CityKey(r: Row): Option<string> { Some(r.city) }

  /** `sorted(df['Month'].dropna().unique())`: the months offered, and selected by default. */
  function Months(rows: seq<Row>): seq<string> {
    SortedDistinct(KeysOf(rows, MonthKey), StrLt)
  }

  /** `sorted(df['City'].dropna().unique())`: the cities offered, and selected by default. */
  function Cities(rows: seq<Row>): seq<string> {
    SortedDistinct(KeysOf(rows, CityKey), StrLt)
  }

  /** `Month.isin(months)` and `City.isin(cities)`: a NaN month is in no selection. */
  predicate Selected(r: Row, months: seq<string>, cities: seq<string>) {
    r.month.Some? && r.month.value in months && r.city in cities
  }

  /** app.py:60-61. */
  function Filter(rows: seq<Row>, months: seq<string>, cities: seq<string>): seq<Row> {
    Where(rows, r => Selected(r, months, cities))
  }

  /** The choices offered are ascending, without repeats, and are exactly the months
      (the cities) that occur in the cleaned table. */
  lemma ChoicesCorrect(rows: seq<Row>)
    ensures Sorted(Months(rows), StrLt) && Sorted(Cities(rows), StrLt)
    ensures forall m :: m in Months(rows) <==> exists i :: 0 <= i < |rows| && rows[i].month == Some(m)
    ensures forall c :: c in Cities(rows) <==> exists i :: 0 <= i < |rows| && rows[i].city == c
  {
    StrLtIsStrictTotalOrder();
    GroupIndexCorrect(rows, MonthKey, StrLt);
    GroupIndexCorrect(rows, CityKey, StrLt);
    forall c | exists i :: 0 <= i < |rows| && rows[i].city == c
      ensures c in Cities(rows)
    {
      var i :| 0 <= i < |rows| && rows[i].city == c;
      assert CityKey(rows[i]) == Some(c);
    }
  }

  /** Filtering keeps exactly the rows whose month and city are both selected, every copy
      of each, in their original order. */
  lemma FilterCorrect(rows: seq<Row>, months: seq<string>, cities: seq<string>)
    ensures forall r :: r in Filter(rows, months, cities) <==> r in rows && Selected(r, months, cities)
    ensures forall r ::
      multiset(Filter(rows, months, cities))[r] == if Selected(r, months, cities) then multiset(rows)[r] else 0
    ensures IsSubsequence(Filter(rows, months, cities), rows)
  {
    WhereIsSubsequence(rows, r => Selected(r, months, cities));
    WhereMultiplicity(rows, r => Selected(r, months, cities));
    var f := Filter(rows, months, cities);
    forall r | r in rows && Selected(r, months, cities) ensures r in f {
      var i :| 0 <= i < |rows| && rows[i] == r;
    }
  }

  /** Under the default selections every row with a month is kept: the only rows the
      default filter drops are those whose Order Date was missing. */
  lemma DefaultSelectionKeepsDatedRows(rows: seq<Row>)
    ensures Filter(rows, Months(rows), Cities(rows)) == Where(rows, (r: Row) => r.month.Some?)
  {
    ChoicesCorrect(rows);
    forall r | r in rows
      ensures Selected(r, Months(rows), Cities(rows)) == r.month.Some?
    {
      var i :| 0 <= i < |rows| && rows[i] == r;
    }
    WhereCongruent(rows, r => Selected(r, Months(rows), Cities(rows)), (r: Row) => r.month.Some?);
  }

  /** If every row has a month, the default selections give back the whole table. */
  lemma DefaultSelectionIsIdentity(rows: seq<Row>)
    requires forall r :: r in rows ==> r.month.Some?
    ensures Filter(rows, Months(rows), Cities(rows)) == rows
  {
    DefaultSelectionKeepsDatedRows(rows);
    WhereAll(rows, (r: Row) => r.month.Some?);
  }

  /** An empty month or city selection leaves nothing ("empty" does not mean "all"). */
  lemma {:induction false} EmptySelection(rows: seq<Row>, months: seq<string>, cities: seq<string>)
    requires months == [] || cities == []
    ensures Filter(rows, months, cities) == []
  {
    if rows != [] {
      EmptySelection(rows[1..], months, cities);
    }
  }
}
