# Telangana market-prices dashboard: the data-selection state of `App`

The dashboard fetches agricultural market-price records once. It keeps the
records of the trailing seven days, lets the user filter them by district,
market and exact date, and shows a table, statistics and a price graph for
one selected product. This project models the only logic in the `App`
component: its seven state slots and the transitions that update them.

- `sequences.dfy`, module `Sequences`: the two JavaScript array idioms the
  component relies on. `Keep` is `Array.prototype.filter`. `Distinct` is
  `Array.from(new Set(xs))`, which lists each value once in first-seen order.
  Both come with lemmas that characterise their results completely.
- `market.dfy`, module `Market`: the record type and the pure computations:
  - the seven-day window (`Recent`);
  - the district and market lists;
  - the three-way filter (`FilterView`);
  - the selection-repair rule (`Repaired`);
  - the price-graph series (`Series`).
- `app.dfy`, module `Dashboard`: class `App`, whose fields are the seven
  `useState` slots (`marketData`, `filteredData`, `districts`, `markets`,
  `selectedProduct`, `loading`, `error`), and its transitions:
  - `LoadSuccess`: the `try` branch of `loadData`;
  - `LoadFailure`: the `catch` branch;
  - `HandleFilter`;
  - `SelectProduct`: the setter handed to the data table.

  `App.Valid()` is the invariant every transition keeps:
  - the filtered view is a subsequence of the windowed data;
  - the district and market lists are those of the windowed data.

  Client methods show what callers can derive from the contracts alone: the
  filter is idempotent and not cumulative. Three scenario methods call the
  class's transitions on concrete records, and their outcomes are proved.

Dates are abstract. The window compares `parse(record.date)` against
`now - 7 * 86_400_000` (milliseconds). `parse` stands for `new Date(...)`.
It returns `None` for an invalid date, and such a record is excluded,
because a comparison with `NaN` is false. The exact-date filter compares the
raw date strings, as the source does. The current time `now`, the date
constructor and the fetched records are parameters of `LoadSuccess`.

`LoadSuccess` leaves `error` as it was, because the success branch never
clears it. With the single load per mount, `error` is still `null` there.

## Model

| member | source | states |
|---|---|---|
| Sequences.Keep | src/App.tsx:30-32 | a filter result is never longer than its input and every element in it satisfies the predicate |
| Sequences.KeepIsSubsequence | src/App.tsx:30-32 | a filter result is an order-preserving subsequence of its input |
| Sequences.KeepCount | src/App.tsx:62 | a filter keeps every copy of each element that satisfies the predicate and no copy of one that fails it |
| Sequences.KeepMembers | src/App.tsx:66 | a value is in the filter result iff it is in the input and satisfies the predicate |
| Sequences.KeepUnique | src/App.tsx:70 | the filter result is the only subsequence of the input with those element counts, so subsequence plus counts pin it down exactly |
| Sequences.KeepKeep | src/App.tsx:61-71 | filtering by one predicate and then another equals one filter by their conjunction |
| Sequences.IndexOf | src/App.tsx:37 | the result is the position of the first occurrence of the value |
| Sequences.Distinct | src/App.tsx:37-38 | the deduplicated list is never longer than its input and is non-empty when the input is; that it lists each value once in first-seen order, and is the only such list, is proved by `Sequences.DistinctMembers`, `Sequences.DistinctIsDistinctOf` and `Sequences.DistinctUnique` |
| Sequences.DistinctMembers | src/App.tsx:37-38 | the deduplicated list holds exactly the values of the input, each once |
| Sequences.DistinctIsDistinctOf | src/App.tsx:37-38 | the deduplicated list is ordered strictly by each value's first occurrence in the input |
| Sequences.DistinctUnique | src/App.tsx:37-38 | any list with the same values as the input, ordered by first occurrence, equals the deduplicated list |
| Market.InWindow | src/App.tsx:29-31 | a record is in the window iff its date parses and the instant is at or after now minus seven days; an unparseable date (`NaN`) is outside. The window itself is characterised by `Market.RecentExactly` |
| Market.Recent | src/App.tsx:29-32 | the window is a subsequence of the fetched data and every record in it passes `InWindow`; that it keeps every such record, with every repetition, is `Market.RecentExactly` |
| Market.RecentExactly | src/App.tsx:29-32 | the window is a subsequence of the fetched data and keeps every copy of exactly the records whose parsed date is at or after now minus seven days (inclusive bound; invalid dates excluded) |
| Market.DistrictColumn | src/App.tsx:37 | the column has one entry per record, the i-th being the i-th record's district |
| Market.MarketColumn | src/App.tsx:38 | the column has one entry per record, the i-th being the i-th record's market |
| Market.DistinctDistricts | src/App.tsx:37 | at most one district per windowed record, and at least one when the window is non-empty; no duplicates, first-seen order and exact membership are `Market.DistinctDistrictsExactly` |
| Market.DistinctMarkets | src/App.tsx:38 | at most one market per windowed record, and at least one when the window is non-empty; no duplicates, first-seen order and exact membership are `Market.DistinctMarketsExactly` |
| Market.DistinctDistrictsExactly | src/App.tsx:37 | the district list has no duplicates, is in first-seen order, and names a district iff some windowed record has it |
| Market.DistinctMarketsExactly | src/App.tsx:38 | the market list has no duplicates, is in first-seen order, and names a market iff some windowed record has it |
| Market.DistrictIs | src/App.tsx:62 | the district test of the first `filter`; how the staged tests combine is `Market.StagedFilterIsView` |
| Market.MarketIs | src/App.tsx:66 | the market test of the second `filter`; how the staged tests combine is `Market.StagedFilterIsView` |
| Market.DateIs | src/App.tsx:70 | the date test of the third `filter`, comparing the raw strings; how the staged tests combine is `Market.StagedFilterIsView` |
| Market.Matches | src/App.tsx:61-71 | a record passes when it equals every non-empty selection; an empty selection imposes no constraint. Its effect on the view is `Market.FilterViewExactly` |
| Market.Criteria | src/App.tsx:61-71 | `Matches` as the predicate handed to the one-pass filter; `Market.StagedFilterIsView` proves the staged filters equal it |
| Market.FilterView | src/App.tsx:58-71 | the view is a subsequence of the data it is cut from; that it keeps every copy of exactly the matching records is `Market.FilterViewExactly` |
| Market.FilterViewExactly | src/App.tsx:58-71 | the filtered view is a subsequence of the data and keeps every copy of exactly the records equal to each non-empty selection (empty selection = no constraint) |
| Market.FilterViewUnconstrained | src/App.tsx:59-71 | with all three selections empty the view is the whole window |
| Market.StagedFilterIsView | src/App.tsx:59-71 | the three conditional `filter` calls applied in turn give the one-pass conjunction |
| Market.ShowsProduct | src/App.tsx:75 | the `some` scan, from the front of the view; `Market.ShowsProductExactly` proves it true iff some record of the view has the product |
| Market.ShowsProductExactly | src/App.tsx:75 | the `some` scan finds the product iff some record of the view has it |
| Market.Repaired | src/App.tsx:75-77 | after repair a non-empty view shows the selected product. A selection the view shows, or any selection when the view is empty (stale case), is kept. Otherwise the selection becomes the view's first product |
| Market.RepairedIdempotent | src/App.tsx:75-77 | repairing twice against the same view is repairing once |
| Market.ProductIs | src/App.tsx:117 | the product test of the graph's `filter`; its effect is `Market.SeriesExactly` |
| Market.Series | src/App.tsx:117 | the series is a subsequence of the data it is drawn from and holds only records of the product; that it holds every such record is `Market.SeriesExactly` |
| Market.SeriesExactly | src/App.tsx:117 | the graph series is a subsequence of the window holding every copy of exactly the records of the selected product |
| Market.SeriesCoversView | src/App.tsx:117 | every record of a view cut from the window that has the product is in that product's series |
| Dashboard.App.constructor | src/App.tsx:14-20 | initial state: empty data, lists and selection, loading true, no error; the invariant holds |
| Dashboard.App.LoadSuccess | src/App.tsx:24-47 | marketData is the window of the input. filteredData equals it. The lists are the distinct districts and markets of the window. The selection is the first windowed record's product when the window is non-empty and is unchanged otherwise. loading is false and error is unchanged |
| Dashboard.App.LoadFailure | src/App.tsx:48-51 | error is the fixed message and loading is false. Data slots, lists and selection are unchanged |
| Dashboard.App.HandleFilter | src/App.tsx:58-78 | filteredData is the one-pass filter of marketData (never of the previous view). The selection is repaired against it, and a non-empty view shows the selected product. marketData, lists, loading and error are unchanged |
| Dashboard.App.ApplyFilters | src/App.tsx:59-71 | the local `filtered`, copied from the window and narrowed by each non-empty selection in turn, ends as the one-pass filter view |
| Dashboard.App.SelectProduct | src/App.tsx:110 | sets the selected product and nothing else |
| Dashboard.App.GraphSeries | src/App.tsx:117 | the graph data is a subsequence of the whole window (`marketData`, not the filtered view) holding every copy of exactly the windowed records of the selected product, so every windowed record of that product is drawn, including filtered-out ones, and every shown row of it too |
| Dashboard.FilterTwice | src/App.tsx:58-78 | a second call with the same selections leaves the view and the selection as the first call left them |
| Dashboard.FilterAgain | src/App.tsx:59 | after two calls the view depends only on the second call's selections |
| Dashboard.FilterScenario | src/App.tsx:58-77 | three day-0 records, then the filter district "A" while "Corn" is selected: the view is the two district-A records and the selection becomes "Rice" |
| Dashboard.EmptyLoadScenario | src/App.tsx:37-47 | an empty fetch ends loading with empty district and market lists and no product selected |
| Dashboard.FailedLoadScenario | src/App.tsx:48-50 | a failed fetch shows the message, ends loading and leaves no data |

## Left out

- The JSX rendering and the child components `Header`, `FilterSection`, `DataTable`, `PriceGraph`, `PriceStatistics`, `VisitorCounter` and `Footer` (src/App.tsx:80-131). They are presentation, and their sources are not part of this model. This includes the `loading ? … : error ? … :` branching and the `selectedProduct &&` guard around the graph.
- `fetchMarketData`: a network call into a service that is not part of this model. Its successful result is the `data` parameter of `LoadSuccess`; its failure is `LoadFailure`.
- `new Date()`, `subDays` and `new Date(item.date)`: wall-clock time and library date arithmetic. `now` is a parameter and the date constructor is the abstract `parse`. The window start is exactly `now - 7 * 86_400_000` ms, so `subDays`'s calendar-day behaviour across a daylight-saving change is not modelled.
- The `useEffect` mount scheduling, the `await` suspension, React's batching of state updates and the missing cancellation on unmount. Each transition is one atomic step. `handleFilter` closing over a stale render's `marketData` and `selectedProduct` is also not modelled.
- `console.error` logging in the `catch` branch: I/O.
- The price is a JavaScript number. It is carried as an `int` field and never computed on, as in the source.
- Dashboard.App.LoadSuccess: the contract names `Recent`, `DistinctDistricts` and `DistinctMarkets`. Their meaning (window bound, no duplicates, first-seen order, membership) is stated by `Market.RecentExactly`, `Market.DistinctDistrictsExactly` and `Market.DistinctMarketsExactly`, not repeated in the method's own postconditions.
- Dashboard.App.HandleFilter: likewise, the meaning of `FilterView` (subsequence, exact matches) is stated by `Market.FilterViewExactly` and `Sequences.KeepUnique`, not repeated in the method's postconditions.
- Dashboard.App.SelectProduct: the data table may pass any product. Which products it offers is set in `DataTable`, which is not part of this model, so no constraint is put on the argument.
