/** The shapes declared in types.ts, plus the grounding envelope the service
    attaches. Numbers are modelled as `real`; nothing checks these shapes at run
    time, because the provider output is untyped. */
module Types {
  import opened Outcomes

  /** Market tier of a competitor. */
  datatype Positioning = Luxury | Midscale | Economy | Upscale

  /** One OTA listing of a competitor. */
  datatype OtaQuote = OtaQuote(
    platform: string,
    rate: real,
    cancellationPolicy: string,
    breakfast: bool,
    visibilityScore: real,
    parityGap: real)   // signed percentage difference from the official/lowest rate

  /** A competitor hotel; `otaData` may be missing altogether. */
  datatype Hotel = Hotel(
    id: string,
    name: string,
    category: string,
    starLevel: real,
    distance: string,
    location: string,
    currentRate: real,
    otaRanking: real,
    rating: real,
    reviewCount: real,
    positioning: Positioning,
    otaData: Option<seq<OtaQuote>>)

  /** Market-average parity gap per channel on one (unparsed) date label. */
  datatype HistoricalParity = HistoricalParity(
    date: string,
    bookingGap: real,
    mmtGap: real,
    agodaGap: real)

  datatype Impact = High | Medium | Low

  datatype DemandEvent = DemandEvent(
    name: string,
    date: string,
    distance: string,
    impact: Impact,
    description: string,
    suggestedUplift: real)

  datatype Status = Critical | Warning | Optimal

  datatype PricingInsights = PricingInsights(
    recommendedBar: real,
    cpi: real,
    visibilityScore: real,
    revenueOpportunity: real,
    status: Status,
    summary: string)

  /** The four dashboard views. */
  datatype DashboardTab = Overview | Competitors | Demand | Pricing

  /** A web citation the provider returned as grounding. */
  datatype WebSource = WebSource(uri: string, title: string)

  /** One grounding chunk; only chunks carrying `web` are rendered as links. */
  datatype GroundingChunk = GroundingChunk(web: Option<WebSource>)

  /** The snapshot the dashboard holds after a successful fetch. */
  datatype MarketData = MarketData(
    competitors: seq<Hotel>,
    events: seq<DemandEvent>,
    insights: PricingInsights,
    historicalParity: seq<HistoricalParity>,
    sources: Option<seq<GroundingChunk>>)

  /** The string value of each `DashboardTab` member. */
  function TabValue(t: DashboardTab): string {
    match t
    case Overview => "overview"
    case Competitors => "competitors"
    case Demand => "demand"
    case Pricing => "pricing"
  }

  /** `DashboardTab` has exactly four members, with pairwise distinct values. */
  function AllTabs(): (r: set<DashboardTab>)
    ensures Overview in r && Competitors in r && Demand in r && Pricing in r
    ensures |r| == 4
    ensures |set t | t in r :: TabValue(t)| == 4
  {
    var r := {Overview, Competitors, Demand, Pricing};
    assert (set t | t in r :: TabValue(t)) == {"overview", "competitors", "demand", "pricing"};
    r
  }

  /** The literal each `positioning` value stands for. */
  function PositioningName(p: Positioning): string {
    match p
    case Luxury => "Luxury"
    case Midscale => "Midscale"
    case Economy => "Economy"
    case Upscale => "Upscale"
  }

  /** The tier badge chosen for a `positioning` string: one of the four tiers,
      or `None` for the fallback badge that shows the raw string. */
  function BadgeTier(s: string): (r: Option<Positioning>)
    ensures r.Some? ==> PositioningName(r.value) == s
    ensures forall p :: PositioningName(p) == s ==> r == Some(p)
  {
    match s
    case "Luxury" => Some(Luxury)
    case "Upscale" => Some(Upscale)
    case "Midscale" => Some(Midscale)
    case "Economy" => Some(Economy)
    case _ => None
  }
}
