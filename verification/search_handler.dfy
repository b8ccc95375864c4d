/** The `handleSearch` lifecycle of App.tsx as a pure transition over the
    dashboard state. The two awaited service calls are parameters whose
    settled outcomes are `Ok` or `Err`; one search runs at a time. */
module SearchHandler {
  import opened Outcomes
  import opened Types

  /** The state `App` keeps with `useState`. */
  datatype ViewState = ViewState(
    activeTab: DashboardTab,
    loading: bool,
    searchQuery: string,
    city: string,
    marketData: Option<MarketData>,
    report: Option<string>)   // `null` before the first report, `undefined` when the provider gave no text

  /** The state on mount, before the first search settles. */
  function InitialState(): (s: ViewState)
    ensures s.activeTab == Overview && !s.loading
    ensures s.marketData.None? && s.report.None?
    ensures s.searchQuery == "Taj Lands End" && s.city == "Mumbai"
  {
    ViewState(Overview, false, "Taj Lands End", "Mumbai", None, None)
  }

  /** The states one search passes through, one per state update, in order:
      loading is switched on first, the snapshot is stored as soon as the
      structured fetch resolves, the report once the summary resolves, and
      loading is switched off in the `finally` block on every path. The
      structured fetch sees the query and city held when the search began,
      and the summary is asked for the snapshot just fetched. */
  function SearchTrace(
    s: ViewState,
    fetch: (string, string) -> Result<MarketData>,
    summarize: MarketData -> Result<Option<string>>): (trace: seq<ViewState>)
    ensures 2 <= |trace| <= 4
    ensures trace[0] == s.(loading := true)
    ensures forall i :: 0 <= i < |trace| - 1 ==> trace[i].loading
    ensures !trace[|trace| - 1].loading
    ensures forall i :: 0 <= i < |trace| ==>
      trace[i].activeTab == s.activeTab && trace[i].searchQuery == s.searchQuery && trace[i].city == s.city
    // A failed structured fetch changes nothing but the loading flag.
    ensures fetch(s.searchQuery, s.city).Err? ==> |trace| == 2 && trace[1] == s.(loading := false)
    // Once the structured fetch succeeds its snapshot is kept whatever the summary does.
    ensures fetch(s.searchQuery, s.city).Ok? ==>
      forall i :: 1 <= i < |trace| ==> trace[i].marketData == Some(fetch(s.searchQuery, s.city).value)
    // A failed summary keeps the previous report.
    ensures fetch(s.searchQuery, s.city).Ok? && summarize(fetch(s.searchQuery, s.city).value).Err? ==>
      |trace| == 3 && trace[2].report == s.report
    ensures fetch(s.searchQuery, s.city).Ok? && summarize(fetch(s.searchQuery, s.city).value).Ok? ==>
      |trace| == 4 && trace[3].report == summarize(fetch(s.searchQuery, s.city).value).value
  {
    var started := s.(loading := true);
    match fetch(s.searchQuery, s.city)
    case Err(_) => [started, started.(loading := false)]
    case Ok(data) =>
      var stored := started.(marketData := Some(data));
      match summarize(data)
      case Err(_) => [started, stored, stored.(loading := false)]
      case Ok(text) =>
        var reported := stored.(report := text);
        [started, stored, reported, reported.(loading := false)]
  }

  /** The state once a search has settled. */
  function HandleSearch(
    s: ViewState,
    fetch: (string, string) -> Result<MarketData>,
    summarize: MarketData -> Result<Option<string>>): (r: ViewState)
    ensures !r.loading
    ensures r.activeTab == s.activeTab && r.searchQuery == s.searchQuery && r.city == s.city
    ensures fetch(s.searchQuery, s.city).Err? ==> r == s.(loading := false)
    ensures fetch(s.searchQuery, s.city).Ok? ==>
      && r.marketData == Some(fetch(s.searchQuery, s.city).value)
      && r.report == (match summarize(fetch(s.searchQuery, s.city).value)
                      case Ok(text) => text
                      case Err(_) => s.report)
  {
    var trace := SearchTrace(s, fetch, summarize);
    trace[|trace| - 1]
  }
}
