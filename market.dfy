/** The market-price records the dashboard shows and the pure computations
    over them: the trailing seven-day window, the distinct district and
    market lists, the district/market/date filter, the selection-repair
    rule and the price-graph series. */
module Market {
  import opened Sequences

  datatype Option<T> = None | Some(value: T)

  /** One market-price observation. The price is carried, never computed on. */
  datatype Record = Record(district: string, market: string, product: string, date: string, price: int)

  /** Dates are instants in milliseconds; a day is 24 hours. */
  const MsPerDay: int := 86_400_000
  const WindowDays: int := 7

  /** The instant seven days before `now`. */
  function WindowStart(now: int): int {
    now - WindowDays * MsPerDay
  }

  /** `new Date(r.date) >= sevenDaysAgo`. `parse` stands for the date
      constructor; `None` is an invalid date, which compares false. */
  predicate InWindow(parse: string -> Option<int>, now: int, r: Record) {
    match parse(r.date)
    case None => false
    case Some(t) => t >= WindowStart(now)
  }

  function WindowTest(parse: string -> Option<int>, now: int): Record -> bool {
    r => InWindow(parse, now, r)
  }

  /** The records of the trailing seven-day window, in input order. */
  function Recent(data: seq<Record>, parse: string -> Option<int>, now: int): (r: seq<Record>)
    ensures IsSubsequence(r, data)
    ensures forall k :: 0 <= k < |r| ==> InWindow(parse, now, r[k])
  {
    KeepIsSubsequence(data, WindowTest(parse, now));
    Keep(data, WindowTest(parse, now))
  }

  /** The window keeps, in order and with every repetition, exactly the records
      whose parsed date is at or after `now` minus seven days. */
  lemma RecentExactly(data: seq<Record>, parse: string -> Option<int>, now: int, x: Record)
    ensures IsSubsequence(Recent(data, parse, now), data)
    ensures multiset(Recent(data, parse, now))[x] ==
              if parse(x.date).Some? && parse(x.date).value >= now - 7 * 86_400_000
              then multiset(data)[x] else 0
  {
    KeepCount(data, WindowTest(parse, now), x);
  }

  /** `recentData.map(item => item.district)` */
  function DistrictColumn(rs: seq<Record>): (column: seq<string>)
    ensures |column| == |rs|
    ensures forall i :: 0 <= i < |rs| ==> column[i] == rs[i].district
  {
    if rs == [] then [] else [rs[0].district] + DistrictColumn(rs[1..])
  }

  /** `recentData.map(item => item.market)` */
  function MarketColumn(rs: seq<Record>): (column: seq<string>)
    ensures |column| == |rs|
    ensures forall i :: 0 <= i < |rs| ==> column[i] == rs[i].market
  {
    if rs == [] then [] else [rs[0].market] + MarketColumn(rs[1..])
  }

  /** `Array.from(new Set(recentData.map(item => item.district)))` */
  function DistinctDistricts(rs: seq<Record>): (ds: seq<string>)
    ensures |ds| <= |rs|
    ensures rs != [] ==> ds != []
  {
    Distinct(DistrictColumn(rs))
  }

  /** `Array.from(new Set(recentData.map(item => item.market)))` */
  function DistinctMarkets(rs: seq<Record>): (ms: seq<string>)
    ensures |ms| <= |rs|
    ensures rs != [] ==> ms != []
  {
    Distinct(MarketColumn(rs))
  }

  /** The district list names every district of `rs` once, in first-seen order, and nothing else. */
  lemma DistinctDistrictsExactly(rs: seq<Record>)
    ensures NoDuplicates(DistinctDistricts(rs))
    ensures IsDistinctOf(DistinctDistricts(rs), DistrictColumn(rs))
    ensures forall d :: d in DistinctDistricts(rs) <==> exists r :: r in rs && r.district == d
  {
    var column := DistrictColumn(rs);
    DistinctIsDistinctOf(column);
    DistinctMembers(column);
    forall d ensures d in Distinct(column) <==> d in column {
      if d in Distinct(column) {
        var k :| 0 <= k < |Distinct(column)| && Distinct(column)[k] == d;
      }
      if d in column {
        var k :| 0 <= k < |column| && column[k] == d;
      }
    }
    forall d ensures d in column <==> exists r :: r in rs && r.district == d {
      if d in column {
        var i :| 0 <= i < |column| && column[i] == d;
        assert rs[i] in rs;
      }
      if exists r :: r in rs && r.district == d {
        var r :| r in rs && r.district == d;
        var i :| 0 <= i < |rs| && rs[i] == r;
        assert column[i] == d;
      }
    }
  }

  /** The market list names every market of `rs` once, in first-seen order, and nothing else. */
  lemma DistinctMarketsExactly(rs: seq<Record>)
    ensures NoDuplicates(DistinctMarkets(rs))
    ensures IsDistinctOf(DistinctMarkets(rs), MarketColumn(rs))
    ensures forall m :: m in DistinctMarkets(rs) <==> exists r :: r in rs && r.market == m
  {
    var column := MarketColumn(rs);
    DistinctIsDistinctOf(column);
    DistinctMembers(column);
    forall m ensures m in Distinct(column) <==> m in column {
      if m in Distinct(column) {
        var k :| 0 <= k < |Distinct(column)| && Distinct(column)[k] == m;
      }
      if m in column {
        var k :| 0 <= k < |column| && column[k] == m;
      }
    }
    forall m ensures m in column <==> exists r :: r in rs && r.market == m {
      if m in column {
        var i :| 0 <= i < |column| && column[i] == m;
        assert rs[i] in rs;
      }
      if exists r :: r in rs && r.market == m {
        var r :| r in rs && r.market == m;
        var i :| 0 <= i < |rs| && rs[i] == r;
        assert column[i] == m;
      }
    }
  }

  /** The single-field tests of the filter: `item => item.district === selectedDistrict` and its siblings. */
  function DistrictIs(district: string): Record -> bool {
    (r: Record) => r.district == district
  }

  function MarketIs(market: string): Record -> bool {
    (r: Record) => r.market == market
  }

  function DateIs(date: string): Record -> bool {
    (r: Record) => r.date == date
  }

  function ProductIs(product: string): Record -> bool {
    (r: Record) => r.product == product
  }

  /** A record passes the filter when it equals every non-empty selection;
      an empty selection imposes no constraint. The date is compared as text. */
  predicate Matches(r: Record, district: string, market: string, date: string) {
    && (district == "" || r.district == district)
    && (market == "" || r.market == market)
    && (date == "" || r.date == date)
  }

  function Criteria(district: string, market: string, date: string): Record -> bool {
    r => Matches(r, district, market, date)
  }

  /** The filtered view: one pass of the conjunction of the three selections. */
  function FilterView(data: seq<Record>, district: string, market: string, date: string): (view: seq<Record>)
    ensures IsSubsequence(view, data)
  {
    KeepIsSubsequence(data, Criteria(district, market, date));
    Keep(data, Criteria(district, market, date))
  }

  /** The filtered view is the order-preserving subsequence of `data` holding
      every record that matches all non-empty selections, and no other. */
  lemma FilterViewExactly(data: seq<Record>, district: string, market: string, date: string, x: Record)
    ensures IsSubsequence(FilterView(data, district, market, date), data)
    ensures multiset(FilterView(data, district, market, date))[x] ==
              if (district == "" || x.district == district)
                 && (market == "" || x.market == market)
                 && (date == "" || x.date == date)
              then multiset(data)[x] else 0
  {
    KeepCount(data, Criteria(district, market, date), x);
  }

  /** With no selection at all the view is the whole data set. */
  lemma FilterViewUnconstrained(data: seq<Record>)
    ensures FilterView(data, "", "", "") == data
  {
    KeepEverything(data, Criteria("", "", ""));
  }

  /** The source's three successive `filter` calls, each skipped when its
      selection is empty, give the single-pass view. */
  lemma StagedFilterIsView(data: seq<Record>, district: string, market: string, date: string)
    ensures
      var s1 := if district == "" then data else Keep(data, DistrictIs(district));
      var s2 := if market == "" then s1 else Keep(s1, MarketIs(market));
      var s3 := if date == "" then s2 else Keep(s2, DateIs(date));
      s3 == FilterView(data, district, market, date)
  {
    var s1 := if district == "" then data else Keep(data, DistrictIs(district));
    var s2 := if market == "" then s1 else Keep(s1, MarketIs(market));
    var s3 := if date == "" then s2 else Keep(s2, DateIs(date));
    var c1, c2, c3 := Criteria(district, "", ""), Criteria(district, market, ""), Criteria(district, market, date);
    if district == "" {
      KeepEverything(data, c1);
    } else {
      KeepExtensional(data, DistrictIs(district), c1);
    }
    assert s1 == Keep(data, c1);
    if market == "" {
      KeepExtensional(data, c1, c2);
    } else {
      KeepKeep(data, c1, MarketIs(market), c2);
    }
    assert s2 == Keep(data, c2);
    if date == "" {
      KeepExtensional(data, c2, c3);
    } else {
      KeepKeep(data, c2, DateIs(date), c3);
    }
  }

  /** `view.some(item => item.product === product)`: a scan from the front. */
  predicate ShowsProduct(view: seq<Record>, product: string) {
    view != [] && (view[0].product == product || ShowsProduct(view[1..], product))
  }

  /** The scan finds the product iff some record of the view has it. */
  lemma {:induction false} ShowsProductExactly(view: seq<Record>, product: string)
    ensures ShowsProduct(view, product) <==> exists r :: r in view && r.product == product
  {
    if view != [] {
      ShowsProductExactly(view[1..], product);
      assert view == [view[0]] + view[1..];
    }
  }

  /** The selection-repair rule: a selection the new view does not show moves
      to the view's first product; an empty view keeps even a stale selection. */
  function Repaired(selected: string, view: seq<Record>): (r: string)
    ensures view != [] ==> ShowsProduct(view, r)
    ensures ShowsProduct(view, selected) || view == [] ==> r == selected
    ensures view != [] && !ShowsProduct(view, selected) ==> r == view[0].product
  {
    if |view| > 0 && !ShowsProduct(view, selected) then view[0].product else selected
  }

  /** Repairing twice against the same view is repairing once. */
  lemma RepairedIdempotent(selected: string, view: seq<Record>)
    ensures Repaired(Repaired(selected, view), view) == Repaired(selected, view)
  {
  }

  /** The price-graph series: the windowed records of one product. */
  function Series(marketData: seq<Record>, product: string): (series: seq<Record>)
    ensures IsSubsequence(series, marketData)
    ensures forall k :: 0 <= k < |series| ==> series[k].product == product
  {
    KeepIsSubsequence(marketData, ProductIs(product));
    Keep(marketData, ProductIs(product))
  }

  /** The series holds, in order, every windowed record of the product and nothing else. */
  lemma SeriesExactly(marketData: seq<Record>, product: string, x: Record)
    ensures IsSubsequence(Series(marketData, product), marketData)
    ensures multiset(Series(marketData, product))[x] ==
              if x.product == product then multiset(marketData)[x] else 0
  {
    KeepCount(marketData, ProductIs(product), x);
  }

  /** The series is drawn from the whole window, so it holds every record of the
      product that any view cut from the window shows, including filtered-out ones. */
  lemma SeriesCoversView(marketData: seq<Record>, view: seq<Record>, product: string, x: Record)
    requires IsSubsequence(view, marketData)
    requires x in view && x.product == product
    ensures x in Series(marketData, product)
  {
    SubsequenceMembers(view, marketData, x);
    KeepMembers(marketData, ProductIs(product), x);
  }
}
