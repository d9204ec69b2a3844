# Sales Analytics Dashboard: the data pipeline

`app.py` is a Streamlit dashboard over monthly sales CSV files (columns Order ID, Product,
Quantity Ordered, Price Each, Order Date, Purchase Address). Once the uploaded files are
concatenated, the script runs a fixed pipeline. This project models that pipeline on values
and proves what each stage promises:

- **Cleaning** (app.py:34-48), in `table.dfy`. It drops all-empty rows and the rows whose
  Order Date text starts with "Or", which are header lines inside an uploaded file's data. It coerces quantity and
  price to numbers and drops rows where either does not parse. It then derives Sales, Month
  (the first two characters of the raw date text), Hour (from the parsed date) and City (the
  address text from just after the first comma to the next comma or the end, or "Unknown"). `Table.Clean` is a
  method that rebinds the working table step by step, as the script does. It is proved equal
  to the row-by-row specification `Table.Cleaned`.
- **Sidebar filters** (app.py:54-61), in `selection.dfy`: the sorted distinct months and
  cities offered, and the `isin` filters.
- **Key metrics** (app.py:68-70), in `metrics.dfy`: total sales, distinct order count, and
  average order value with its zero guard.
- **Charts** (app.py:80-117), in `views.dfy` on top of the generic group-by of
  `grouping.dfy`: revenue by month, revenue by city, order lines by hour, the top ten
  products, and the quantity and mean-price overlay.
- **Products bought together** (app.py:133-136), in `copurchase.dfy`: rows of orders with
  several line items, each order's products joined by ", ", one entry per order, and the ten
  most frequent combinations.

Supporting modules:

- `seqs.dfy`: boolean-mask filtering, counting, `unique`, and the prefix taken by `str[0:2]` and `head`.
- `text.dfy`: `index`, `split`, `join`.
- `ordering.dfy`: Python's string order and sorting.
- `wrappers.dfy`: `Option`, where `None` stands for a NaN cell.

Modelling choices:

- A CSV cell is `Option<string>`, and `None` is NaN.
- The parsers `pd.to_numeric(errors='coerce')` and `pd.to_datetime(errors='coerce')` are not
  modelled. They are the two fields of the parameter `Table.Coercions`, and every result is
  stated in terms of them.
- Numbers are mathematical reals.
- The order of group keys is Python's string order (`Ordering.StrLt`) or integer order.

## Model

| member | source | states |
|---|---|---|
| Seqs.Where | app.py:60-61 | a boolean-mask filter keeps only rows satisfying the mask, every such row, and nothing new |
| Seqs.WhereIsSubsequence | app.py:60-61 | filtering keeps the surviving rows in their original order |
| Seqs.WhereMultiplicity | app.py:60-61 | a mask keeps every copy of each value it accepts and no copy of any other |
| Seqs.WhereCons | app.py:34-35 | a mask applied to a table is the mask applied to its first row followed by the rest |
| Seqs.WhereCongruent | app.py:60-61 | two masks that agree on every row of the table keep the same rows |
| Seqs.WhereAll | app.py:60-61 | a mask every row passes keeps the whole table |
| Seqs.Count | app.py:133 | the number of occurrences of a value is at most the length, and positive exactly when the value occurs |
| Seqs.Unique | app.py:135-136 | `unique()` has no repeats and holds exactly the values of its input |
| Seqs.DistinctCardinality | app.py:136 | a sequence without repeats has exactly as many entries as distinct values |
| Seqs.DistinctAtMostOnce | app.py:135 | a sequence without repeats holds each value at most once |
| Seqs.DistinctPermutation | app.py:88 | reordering a sequence without repeats leaves it without repeats |
| Text.IndexOf | app.py:46 | the found position holds the character and no earlier position does |
| Text.IndexOfFirst | app.py:46 | a position holding the character with none earlier is where the search stops |
| Text.Split | app.py:46 | `split(',')` yields at least one piece and no piece holds a comma |
| Text.SplitSecondOf | app.py:46 | the piece at index 1 is the text between the first and the second separator |
| Text.JoinSplit | app.py:46 | joining the pieces of a split with the separator gives the text back |
| Text.SecondPiece | app.py:46 | piece 1 of a text containing the separator starts right after the first separator and ends at the next one or at the end |
| Ordering.StrLtIrreflexive | app.py:54-55 | Python's string order never puts a string before itself |
| Ordering.StrLtTransitive | app.py:54-55 | Python's string order is transitive |
| Ordering.StrLtTotal | app.py:54-55 | of two different strings, one comes before the other |
| Ordering.StrLtIsStrictTotalOrder | app.py:54-55 | `sorted` on strings uses a strict total order |
| Ordering.IntLtIsStrictTotalOrder | app.py:96 | hours are ordered by a strict total order |
| Ordering.InsertKeyCorrect | app.py:54-55 | inserting a key into a sorted list without repeats keeps it sorted, adds the key and loses nothing |
| Ordering.SortedDistinctCorrect | app.py:54-55 | `sorted(unique())` is strictly ascending and holds exactly the input's values |
| Ordering.InsertDesc | app.py:88 | inserting into a descending list keeps it descending and adds exactly the one element |
| Ordering.BoundedByHead | app.py:88 | in a descending list nothing scores above the first element |
| Ordering.SortDesc | app.py:88 | `sort_values(ascending=False)` yields a non-increasing rearrangement of its input |
| Seqs.Prefix | app.py:105 | `head(n)`, and `str[0:2]` at app.py:35, keep the first n entries, or all of them when there are fewer |
| Ordering.TopN | app.py:105 | the first n of a descending sort are exactly n, or all of the input when it is shorter, non-increasing, drawn from the input, and nothing left out scores above the last kept |
| Ordering.DescendingPrefix | app.py:105 | a prefix of a descending list is descending, part of the list, and its last entry scores at least as much as anything after it |
| Ordering.Beyond | app.py:105 | an element of the sorted list missing from its head sits beyond it |
| Grouping.KeysOf | app.py:80 | the non-NaN group keys are exactly the keys some row carries |
| Grouping.GroupIndexCorrect | app.py:80 | `groupby` keys are ascending, distinct, and exactly the non-NaN keys that occur |
| Grouping.GroupSums | app.py:80 | a grouped `sum()` has one entry per key, in key order, each the sum over the rows with that key |
| Grouping.GroupSumsOfNothing | app.py:80 | the groups of an empty table total zero |
| Grouping.GroupSumsCons | app.py:80 | one more row raises the groups' total by its value when its key is one of the groups, and leaves it unchanged otherwise |
| Grouping.GroupSumsConserve | app.py:80 | the group sums add up to the total over all rows with a key |
| Grouping.GroupMeans | app.py:117 | a grouped `mean()` is each group's sum divided by its size |
| Grouping.OccurringKeyCounted | app.py:117 | a key some row carries has a non-empty group |
| Grouping.GroupCounts | app.py:96 | a grouped `count()` has one entry per key, each the number of counted rows with that key |
| Grouping.GroupIndexNonEmpty | app.py:117 | every group that `groupby` produces has at least one row |
| Grouping.GroupedKeys | app.py:80 | grouped results list the occurring keys ascending, each carried by some row |
| Table.CoerceNumbers | app.py:36-37 | numeric coercion keeps every row in place, each row becoming itself with its quantity and price cells parsed (NaN where they do not parse) |
| Table.Clean | app.py:34-48 | the cleaned table is `Cleaned` of the input, no longer than it, and every row is a clean line item (sales = quantity x price, month never "Or", hour from the parsed date, "Unknown" city without an address column) |
| Table.SurvivorsCons | app.py:34-38 | the dropping steps decide each row on its own |
| Table.SurvivorsDerivable | app.py:38-48 | every surviving row has numbers, and an address when the column exists |
| Table.StepsAreRowwise | app.py:34-48 | running the column steps one after another equals cleaning row by row |
| Table.CleanedFacts | app.py:34-48 | the cleaned table is no longer than the input and all its rows are clean line items |
| Table.CleanRowSpec | app.py:34-42 | a row is kept iff it is not all NaN, is not a header line (date text starting with "Or"), and both numbers parse; a kept row keeps id and product, has the parsed numbers, sales = their product, month from the raw date text, and an hour exactly when the date parses |
| Table.MonthFromRawText | app.py:40 | the month is NaN exactly when the date cell is, is a prefix of the raw date text of length up to two, and is never "Or" |
| Table.CityFromAddress | app.py:45-48 | the city is "Unknown" without an address column or comma, else the comma-free text right after the first comma, up to the next comma or the end |
| Table.CityExample | app.py:46 | the sample address "136 Church St, New York City, NY 10001" gives " New York City" with its leading space |
| Table.CleanedOrigin | app.py:34-48 | every cleaned row comes from a kept raw row, and every kept raw row gives a cleaned row |
| Selection.ChoicesCorrect | app.py:54-55 | the months and cities offered are ascending and exactly those that occur |
| Selection.FilterCorrect | app.py:60-61 | a row survives the filters iff its month and its city are both selected; every copy of a selected row survives and none of an unselected one; the order is kept |
| Selection.DefaultSelectionKeepsDatedRows | app.py:57-61 | under the default selections the filters drop exactly the rows with a NaN month |
| Selection.DefaultSelectionIsIdentity | app.py:57-61 | when every row has a month the default selections keep the whole table |
| Selection.EmptySelection | app.py:60-61 | an empty month or city selection leaves no rows |
| Metrics.OrderIdsMembers | app.py:69 | the distinct order ids counted are exactly the non-NaN ids carried by some row |
| Metrics.SafeRatio | app.py:70 | the ratio is 0 when the count is 0, and otherwise times the count gives the total |
| Metrics.AvgOrderValue | app.py:70 | the average order value is 0 with no orders, and otherwise times the order count gives total sales |
| Metrics.TotalOrdersBound | app.py:69 | there are never more orders than rows, and none exactly when no row has an id |
| Metrics.OneOrderTwoItems | app.py:69 | two line items of one order count as one order |
| Views.MonthlyRevenueCorrect | app.py:80 | monthly revenue lists each occurring month once and no other month, ascending, with its sales sum, and adds up to the sales of dated rows |
| Views.AllDatedSales | app.py:68 | when every row has a month, the sales of dated rows are all the sales |
| Views.MonthlyRevenueConserves | app.py:60-80 | after filtering, monthly revenue adds up to total sales |
| Views.CityRevenueCorrect | app.py:88 | city revenue is non-increasing, lists every city that occurs once and no other city, and gives each its sales sum |
| Views.CityRevenueCovers | app.py:88 | every city that occurs is listed in city revenue |
| Views.CityRevenueOccurs | app.py:88 | every city listed in city revenue occurs in some row |
| Views.CityRevenueSums | app.py:88 | every city listed carries the sum of its sales |
| Views.CityGroups | app.py:88 | the city groups before sorting have distinct cities, cover every city, and list no city that does not occur |
| Views.Rearranged | app.py:88 | an entry of a sequence is found again in any rearrangement of it |
| Views.HourlyCountsCorrect | app.py:96 | hours ascend, exactly the hours that occur appear, and each counts the rows of that hour with an Order ID |
| Views.TopProductsCorrect | app.py:105 | exactly ten products, or all of them when there are fewer, largest quantity first, drawn from the product totals, each a product that occurs, listed once with its summed quantity, none left out above the last |
| Views.TopProductsDistinct | app.py:105 | no product is listed twice in the top ten |
| Views.TopProductsEntries | app.py:105 | each product in the top ten occurs in some row and carries its summed quantity |
| Views.KeptKeysDistinct | app.py:105 | the head of a rearrangement of entries with distinct keys has distinct keys |
| Views.ProductOverlayAligned | app.py:116-118 | the quantity and price series list the same products in the same ascending order, covering every product that occurs and no other, with summed quantities |
| Views.ProductOverlayMeans | app.py:117 | each mean price is the product's summed unit price over its non-empty row count |
| CoPurchase.DuplicatedRowsJoinable | app.py:133-134 | the duplicated rows with an id all name a product |
| CoPurchase.DuplicatedRowsKeepOrders | app.py:133 | `duplicated(keep=False)` keeps every line item of a multi-item order, so its product list is unchanged |
| CoPurchase.KeepWholeOrder | app.py:133 | a filter keeping all of one order's rows keeps that order's product list |
| CoPurchase.OrdersShape | app.py:134-135 | each deduplicated entry is a multi-item order paired with its products joined by ", " in row order, or the NaN id with no combination |
| CoPurchase.OneEntryPerOrder | app.py:135 | after `drop_duplicates` no order id appears twice, and every multi-item order appears |
| CoPurchase.MultiItemListed | app.py:133-135 | a multi-item order has an entry after `drop_duplicates` |
| CoPurchase.CombinationsFromOrders | app.py:134-136 | every combination counted is the joined products of some multi-item order |
| CoPurchase.CombinationsOfEntries | app.py:134-136 | every combination taken from entries of that shape is the joined products of some multi-item order |
| CoPurchase.TallySize | app.py:136 | `value_counts` has one entry per distinct value |
| CoPurchase.TallyCorrect | app.py:136 | `value_counts` lists each value once with its number of occurrences, and covers every value |
| CoPurchase.RankedFromTally | app.py:136 | every ranked entry is a counted value |
| CoPurchase.RankedDistinct | app.py:136 | no value is ranked twice |
| CoPurchase.RankedCounts | app.py:136 | each ranked value occurs in the input as often as its count says |
| CoPurchase.RankedComplete | app.py:136 | a value left out of the top ten occurs no more often than the last one listed |
| CoPurchase.RankedCorrect | app.py:136 | `value_counts().head(10)` gives ten distinct values, or all of them when there are fewer, most frequent first, with their counts, none left out above the last |
| CoPurchase.TopCombinationsCorrect | app.py:133-136 | the co-purchase table: ten combinations, or all of them when there are fewer, most frequent first, each listed once with the number of distinct multi-item orders buying exactly it, each the joined products of some such order, none left out above the last |
| CoPurchase.CombinationCounts | app.py:134-136 | each combination is counted once per distinct multi-item order whose joined products it is |
| CoPurchase.CountEntries | app.py:135-136 | over entries with distinct Order IDs, a combination occurs as often as there are Order IDs carrying it |
| CoPurchase.CountStep | app.py:136 | the first entry adds one to the count of its own combination only |
| CoPurchase.EntryIdsStep | app.py:135 | the first entry adds its Order ID to the Order IDs of its own combination only |
| CoPurchase.FirstIdNotLater | app.py:135 | with distinct Order IDs the first entry's Order ID is carried by no later entry |
| CoPurchase.BuyersAreEntries | app.py:133-135 | the multi-item orders buying a combination are exactly the Order IDs of the deduplicated entries carrying it |
| CoPurchase.PairedOrderExample | app.py:133-136 | two line items A and B of one order and a one-item order give exactly one combination "A, B" with count 1 |
| CoPurchase.ExampleOrders | app.py:134-135 | in that example the deduplicated orders are the one two-item order with "A, B" |
| CoPurchase.ExampleCombination | app.py:134 | in that example both line items of the shared order carry the combination "A, B" |
| CoPurchase.DuplicatePair | app.py:135 | `drop_duplicates` keeps one copy of a repeated entry |
| CoPurchase.ExampleDuplicates | app.py:133 | in that example `duplicated(keep=False)` keeps exactly the two line items of the shared order |
| CoPurchase.SingleRanked | app.py:136 | a single combination is ranked alone with count 1 |

## Left out

- Streamlit and matplotlib: page layout, file upload, messages, metric widgets, plots and the
  interactive multiselect. The selected months and cities are parameters of
  `Selection.Filter`.
- `pd.read_csv` and `pd.concat` (app.py:28-29): the model starts from the concatenated rows.
- The parsers behind `pd.to_numeric` and `pd.to_datetime` are parameters (`Table.Coercions`),
  not modelled code.
- Floating point: sums, products and means are exact reals, so rounding and summation order
  are not modelled.
- Views.CityRevenueCorrect: the order of cities with equal revenue is left unspecified,
  because `sort_values` does not promise a stable order for ties. Only the non-increasing
  order is stated.
- Views.TopProductsCorrect: for the same reason, which of several products tied at the tenth
  place are shown is left unspecified.
- CoPurchase.TopCombinationsCorrect: for the same reason, the order of equally frequent
  combinations from `value_counts`, and which of those tied at the tenth place are shown,
  are left unspecified.
- Table.Clean: the TypeError that the city lambda raises on a NaN address in a surviving row
  is not modelled as an error. The precondition `AddressesPresent` excludes that input.
- CoPurchase.Joinable: the TypeError that `', '.join` raises on a NaN product in a
  multi-item order is not modelled as an error. The precondition `Joinable` excludes that
  input.
- Table.Coercions: the date parser is modelled one cell at a time, as pandas 1.x parses each
  element on its own. Since pandas 2.0, `pd.to_datetime` without `format=` (app.py:41) infers
  the format from the first non-NaN date and applies it to the whole column. With
  `errors='coerce'`, a later date in another format then becomes NaT, so one row's Hour can
  depend on another row's text. `Table.StepsAreRowwise` and `Table.CleanRowSpec` hold only
  for the per-cell parser.
- Seqs.Unique: the order of the kept values (first occurrences) is not stated. It only
  decides the order of ties in `value_counts`, which is left unspecified anyway.
- Columns other than the six named ones are not carried through.
- The `.str` accessor raising on a column that pandas does not infer as text (for example, an
  Order Date column that is entirely NaN) is not modelled.
- Hourly distribution: app.py:13, 95 and 100 label the chart as a number of orders ("đơn
  hàng"). But app.py:96 (`['Order ID'].count()`) counts the line items of each hour that have
  a non-NaN Order ID, so an order with three line items counts three times. The model
  follows the code: `Views.HourlyCountsCorrect` states the count of line items.
- pandas' `SettingWithCopyWarning` on app.py:134 has no effect on the values and is not
  modelled.
