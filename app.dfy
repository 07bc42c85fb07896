/** The dashboard's top-level component state: the seven state slots of the
    `App` component and the transitions that update them, namely the two
    outcomes of the initial data load, the filter handler and the product
    selection coming from the data table. */
module Dashboard {
  import opened Sequences
  import opened Market

  /** The one user-facing error message. */
  const LoadErrorMessage: string := "Failed to load market data. Please try again later."

  class App {
    var marketData: seq<Record>     // the windowed records
    var filteredData: seq<Record>   // the current filtered view
    var districts: seq<string>
    var markets: seq<string>
    var selectedProduct: string
    var loading: bool
    var error: Option<string>      // `null` is None

    /** What every transition keeps: the view is cut from the window, and the
        district and market lists are those of the window. */
    ghost predicate Valid()
      reads this
    {
      && IsSubsequence(filteredData, marketData)
      && districts == DistinctDistricts(marketData)
      && markets == DistinctMarkets(marketData)
    }

    /** The initial values of the state slots. */
    constructor ()
      ensures Valid()
      ensures marketData == [] && filteredData == [] && districts == [] && markets == []
      ensures selectedProduct == "" && loading && error == None
    {
      marketData, filteredData := [], [];
      districts, markets := [], [];
      selectedProduct := "";
      loading := true;
      error := None;
    }

    /** The load succeeded with the fetched records `data`; `now` is the
        current instant and `parse` the date constructor. */
    method LoadSuccess(data: seq<Record>, parse: string -> Option<int>, now: int)
      modifies this
      ensures Valid()
      ensures marketData == Recent(data, parse, now)
      ensures IsSubsequence(marketData, data)
      ensures filteredData == marketData
      ensures districts == DistinctDistricts(marketData)
      ensures markets == DistinctMarkets(marketData)
      ensures selectedProduct == if marketData != [] then marketData[0].product else old(selectedProduct)
      ensures marketData != [] ==> ShowsProduct(filteredData, selectedProduct)
      ensures !loading && error == old(error)
    {
      loading := true;
      var recentData := Recent(data, parse, now);
      marketData := recentData;
      filteredData := recentData;
      districts := DistinctDistricts(recentData);
      markets := DistinctMarkets(recentData);
      if |recentData| > 0 {
        selectedProduct := recentData[0].product;
        assert recentData[0] in recentData;
      }
      loading := false;

      SubsequenceReflexive(recentData);
    }

    /** The load failed: show the message and stop the spinner; nothing else changes. */
    method LoadFailure()
      requires Valid()
      modifies this
      ensures Valid()
      ensures error == Some(LoadErrorMessage) && !loading
      ensures marketData == old(marketData) && filteredData == old(filteredData)
      ensures districts == old(districts) && markets == old(markets)
      ensures selectedProduct == old(selectedProduct)
    {
      error := Some(LoadErrorMessage);
      loading := false;
    }

    /** Recompute the view from the whole window with the three selections
        (an empty one imposes no constraint), then repair the selected product. */
    method HandleFilter(district: string, market: string, date: string)
      requires Valid()
      modifies this
      ensures Valid()
      ensures filteredData == FilterView(marketData, district, market, date)
      ensures selectedProduct == Repaired(old(selectedProduct), filteredData)
      ensures filteredData != [] ==> ShowsProduct(filteredData, selectedProduct)
      ensures filteredData == [] ==> selectedProduct == old(selectedProduct)
      ensures marketData == old(marketData) && districts == old(districts) && markets == old(markets)
      ensures loading == old(loading) && error == old(error)
    {
      var filtered := ApplyFilters(marketData, district, market, date);
      filteredData := filtered;
      if |filtered| > 0 && !ShowsProduct(filtered, selectedProduct) {
        selectedProduct := filtered[0].product;
      }
    }

    /** The local `filtered` of the filter handler: a copy of the window,
        narrowed by each non-empty selection in turn. */
    static method ApplyFilters(data: seq<Record>, district: string, market: string, date: string)
        returns (filtered: seq<Record>)
      ensures filtered == FilterView(data, district, market, date)
    {
      filtered := data;
      if district != "" {
        filtered := Keep(filtered, DistrictIs(district));
      }
      if market != "" {
        filtered := Keep(filtered, MarketIs(market));
      }
      if date != "" {
        filtered := Keep(filtered, DateIs(date));
      }
      StagedFilterIsView(data, district, market, date);
    }

    /** The data table's product selection (the table passes this setter down). */
    method SelectProduct(product: string)
      requires Valid()
      modifies this
      ensures Valid()
      ensures selectedProduct == product
      ensures marketData == old(marketData) && filteredData == old(filteredData)
      ensures districts == old(districts) && markets == old(markets)
      ensures loading == old(loading) && error == old(error)
    {
      selectedProduct := product;
    }

    /** The records handed to the price graph: the whole window's records of
        the selected product, not only those of the filtered view. */
    function GraphSeries(): (series: seq<Record>)
      reads this
      requires Valid()
      ensures IsSubsequence(series, marketData)
      ensures forall k :: 0 <= k < |series| ==> series[k].product == selectedProduct
      ensures forall x :: multiset(series)[x] ==
                if x.product == selectedProduct then multiset(marketData)[x] else 0
      ensures forall x :: x in marketData && x.product == selectedProduct ==> x in series
      ensures forall x :: x in filteredData && x.product == selectedProduct ==> x in series
    {
      SeriesCountsAll(marketData, selectedProduct);
      SeriesCoversViewAll(marketData, filteredData, selectedProduct);
      Series(marketData, selectedProduct)
    }
  }

  lemma SeriesCountsAll(marketData: seq<Record>, product: string)
    ensures forall x :: multiset(Series(marketData, product))[x] ==
              if x.product == product then multiset(marketData)[x] else 0
    ensures forall x :: x in marketData && x.product == product ==> x in Series(marketData, product)
  {
    forall x
      ensures multiset(Series(marketData, product))[x] ==
                if x.product == product then multiset(marketData)[x] else 0
    {
      SeriesExactly(marketData, product, x);
    }
  }

  lemma SeriesCoversViewAll(marketData: seq<Record>, view: seq<Record>, product: string)
    requires IsSubsequence(view, marketData)
    ensures forall x :: x in view && x.product == product ==> x in Series(marketData, product)
  {
    forall x | x in view && x.product == product
      ensures x in Series(marketData, product)
    {
      SeriesCoversView(marketData, view, product, x);
    }
  }

  /** Filtering twice with the same selections leaves the state of the first call. */
  method FilterTwice(app: App, district: string, market: string, date: string)
      returns (onceView: seq<Record>, onceSelected: string)
    requires app.Valid()
    modifies app
    ensures app.Valid()
    ensures onceView == FilterView(old(app.marketData), district, market, date)
    ensures app.filteredData == onceView && app.selectedProduct == onceSelected
  {
    app.HandleFilter(district, market, date);
    onceView, onceSelected := app.filteredData, app.selectedProduct;
    app.HandleFilter(district, market, date);
    RepairedIdempotent(onceSelected, onceView);
  }

  /** Filters do not accumulate: the second call's view depends only on its own selections. */
  method FilterAgain(app: App, d1: string, m1: string, t1: string, d2: string, m2: string, t2: string)
    requires app.Valid()
    modifies app
    ensures app.Valid()
    ensures app.filteredData == FilterView(old(app.marketData), d2, m2, t2)
  {
    app.HandleFilter(d1, m1, t1);
    app.HandleFilter(d2, m2, t2);
  }

  /** Three records from day 0, filtered by district "A" while "Corn" is selected:
      the view is the first two records and the selection moves to "Rice". */
  method FilterScenario() returns (view: seq<Record>, selected: string)
    ensures view == [Record("A", "M1", "Rice", "day0", 30), Record("A", "M1", "Wheat", "day0", 25)]
    ensures selected == "Rice"
  {
    var rice := Record("A", "M1", "Rice", "day0", 30);
    var wheat := Record("A", "M1", "Wheat", "day0", 25);
    var riceB := Record("B", "M2", "Rice", "day0", 32);
    var now := 1000 * MsPerDay;
    var parse := (s: string) => if s == "day0" then Some(now) else None;
    var app := new App();
    var fetched := [rice, wheat, riceB];
    KeepEverything(fetched, WindowTest(parse, now));
    app.LoadSuccess(fetched, parse, now);
    app.SelectProduct("Corn");
    app.HandleFilter("A", "", "");
    FilterScenarioFacts(rice, wheat, riceB);
    view, selected := app.filteredData, app.selectedProduct;
  }

  lemma FilterScenarioFacts(rice: Record, wheat: Record, riceB: Record)
    requires rice == Record("A", "M1", "Rice", "day0", 30)
    requires wheat == Record("A", "M1", "Wheat", "day0", 25)
    requires riceB == Record("B", "M2", "Rice", "day0", 32)
    ensures FilterView([rice, wheat, riceB], "A", "", "") == [rice, wheat]
    ensures Repaired("Corn", [rice, wheat]) == "Rice"
  {
    assert [rice, wheat][1..] == [wheat];
    assert !ShowsProduct([wheat][1..], "Corn");
    assert !ShowsProduct([rice, wheat], "Corn");
    var c := Criteria("A", "", "");
    assert c(rice) && c(wheat) && !c(riceB);
    assert [riceB][1..] == [];
    assert Keep([riceB], c) == [];
    assert [wheat, riceB][1..] == [riceB];
    assert Keep([wheat, riceB], c) == [wheat];
    assert [rice, wheat, riceB][1..] == [wheat, riceB];
  }

  /** An empty fetch result: loading ends with no districts, no markets and no product selected. */
  method EmptyLoadScenario() returns (districts: seq<string>, markets: seq<string>, selected: string, loading: bool)
    ensures districts == [] && markets == [] && selected == "" && !loading
  {
    var app := new App();
    app.LoadSuccess([], (s: string) => None, 0);
    districts, markets, selected, loading := app.districts, app.markets, app.selectedProduct, app.loading;
  }

  /** A failed fetch: the message is shown, loading ends and there is no data. */
  method FailedLoadScenario() returns (error: Option<string>, loading: bool, view: seq<Record>)
    ensures error == Some(LoadErrorMessage) && !loading && view == []
  {
    var app := new App();
    app.LoadFailure();
    error, loading, view := app.error, app.loading, app.filteredData;
  }
}
