/** The analytics dashboard client: its fetch state machine (period, loading
    flag, data, error) and the screen it decides to show. */
module AnalyticsView {
  import opened Wrappers
  import opened JsText
  import opened AnalyticsFormat
  import opened GAnalytics
  import AnalyticsCard
  import AnalyticsTable

  datatype ViewState = ViewState(data: Option<GAData>, loading: bool, error: Option<string>, period: string)

  /** The state of a freshly mounted dashboard. */
  const Initial := ViewState(None, true, None, "7d")

  /** How the request for analytics data ended: a non-ok status, a parsed body
      (`null` is `None`), or a thrown value (an `Error` with its message, or
      something else, `None`). */
  datatype FetchResult = NotOk | Received(body: Option<GAData>) | Threw(message: Option<string>)

  datatype Event = PeriodSelected(period: string) | FetchStarted | FetchFinished(result: FetchResult)

  const RequestPrefix := "/api/analytics/detailed?period="

  /** The request path of the effect that fetches a period's data: the
      period follows the fixed prefix unencoded. */
  function RequestPath(period: string): (r: string)
    ensures |r| == |RequestPrefix| + |period|
    ensures r[..|RequestPrefix|] == RequestPrefix && r[|RequestPrefix|..] == period
  {
    RequestPrefix + period
  }

  /** Different periods request different paths. */
  lemma RequestPathInjective(a: string, b: string)
    requires RequestPath(a) == RequestPath(b)
    ensures a == b
  {
    assert a == RequestPath(a)[|RequestPrefix|..];
  }

  /** One transition of the dashboard state. */
  function Step(s: ViewState, e: Event): (r: ViewState)
    ensures e.PeriodSelected? ==> r == s.(period := e.period)
    ensures e == FetchStarted ==> r == s.(loading := true)
    ensures e.FetchFinished? ==> !r.loading && r.period == s.period
    ensures e == FetchFinished(NotOk) ==> r.error == Some("Failed to fetch analytics data") && r.data == s.data
    ensures e.FetchFinished? && e.result.Received? ==> r.error == s.error && r.data == e.result.body
    ensures e.FetchFinished? && e.result.Threw? ==>
      r.error == Some(e.result.message.GetOr("An error occurred")) && r.data == s.data
  {
    match e
    case PeriodSelected(p) => s.(period := p)
    case FetchStarted => s.(loading := true)
    case FetchFinished(result) =>
      match result
      case NotOk => s.(error := Some("Failed to fetch analytics data"), loading := false)
      case Received(body) => s.(data := body, loading := false)
      case Threw(message) => s.(error := Some(message.GetOr("An error occurred")), loading := false)
  }

  function Run(s: ViewState, events: seq<Event>): ViewState
    decreases |events|
  {
    if |events| == 0 then s else Run(Step(s, events[0]), events[1..])
  }

  /** `error` is truthy: set and non-empty. */
  predicate ErrorShown(s: ViewState) {
    s.error.Some? && s.error.value != ""
  }

  /* ---------------- Screens ---------------- */

  /** The runtime's number printing, which the formatters depend on. */
  datatype Runtime = Runtime(halfUp: bool, fraction: real -> string, numberOf: string -> real)

  datatype Realtime = Realtime(dotColor: string, animation: string, caption: string)

  datatype Chart = AreaChart(points: seq<TimePoint>) | NoChartData(message: string)

  datatype Dashboard = Dashboard(
    period: string,
    realtime: Realtime,
    cards: seq<AnalyticsCard.CardView>,
    chart: Chart,
    pages: AnalyticsTable.Table,
    sources: AnalyticsTable.Table,
    events: Option<AnalyticsTable.Table>)

  datatype Screen = Loading | ErrorScreen(message: string) | DashboardScreen(dashboard: Dashboard)

  predicate EndsWith(s: string, suffix: string) {
    |suffix| <= |s| && s[|s| - |suffix|..] == suffix
  }

  /** The caption after the count: "visitor", an "s" unless the count is
      exactly 1, then "online now". */
  const Plural := " visitors online now"
  const Singular := " visitor online now"

  lemma PluralCaption(count: string)
    ensures EndsWith(count + Plural, Plural) && !EndsWith(count + Plural, Singular)
  {
    var text := count + Plural;
    assert text[|text| - |Plural|..] == Plural;
    assert text[|text| - |Singular|..][0] == 'v';
  }

  lemma SingularCaption(count: string)
    ensures EndsWith(count + Singular, Singular) && !EndsWith(count + Singular, Plural)
  {
    var text := count + Singular;
    assert text[|text| - |Singular|..] == Singular;
    if |Plural| <= |text| {
      assert text[|text| - |Plural|..][8] == 'r';
    }
  }

  /** The caption ends in the plural phrase exactly when it is plural, and in
      the singular phrase otherwise. */
  lemma CaptionSuffix(count: string, plural: bool)
    ensures var text := count + (if plural then Plural else Singular);
      (EndsWith(text, Plural) <==> plural) && (EndsWith(text, Singular) <==> !plural)
  {
    if plural {
      PluralCaption(count);
    } else {
      SingularCaption(count);
    }
  }

  /** The "N visitors online now" indicator. */
  function RealtimeIndicator(visitors: real, rt: Runtime): (r: Realtime)
    ensures r.dotColor == AnalyticsCard.Green <==> visitors > 0.0
    ensures r.animation != "none" <==> visitors > 0.0
    ensures EndsWith(r.caption, Singular) <==> visitors == 1.0
    ensures EndsWith(r.caption, Plural) <==> visitors != 1.0
    ensures r.caption == NumberToString(visitors, rt.fraction) + (if visitors == 1.0 then Singular else Plural)
  {
    var count := NumberToString(visitors, rt.fraction);
    CaptionSuffix(count, visitors != 1.0);
    Realtime(if visitors > 0.0 then AnalyticsCard.Green else "#666",
             if visitors > 0.0 then "pulse 2s infinite" else "none",
             count + (if visitors != 1.0 then Plural else Singular))
  }

  /** The chart, or a notice when the period has no points. */
  function ChartFor(points: seq<TimePoint>): (c: Chart)
    ensures c.AreaChart? <==> |points| > 0
    ensures c.AreaChart? ==> c.points == points
    ensures c.NoChartData? ==> c.message == "No data available for this period"
  {
    if |points| > 0 then AreaChart(points) else NoChartData("No data available for this period")
  }

  /** A formatter of numbers used on a table column; the records built below
      always hold numbers under the formatted keys. */
  function OnNumber(f: real -> string, fraction: real -> string): AnalyticsTable.CellValue -> string {
    (v: AnalyticsTable.CellValue) => match v
      case Num(n) => f(n)
      case _ => AnalyticsTable.CellString(v, fraction)
  }

  function PageRecord(p: PageRow): AnalyticsTable.Record {
    map["page" := AnalyticsTable.Text(p.page), "visitors" := AnalyticsTable.Num(p.visitors),
        "pageViews" := AnalyticsTable.Num(p.pageViews), "bounceRate" := AnalyticsTable.Num(p.bounceRate),
        "visitDuration" := AnalyticsTable.Num(p.visitDuration)]
  }

  function SourceRecord(p: SourceRow): AnalyticsTable.Record {
    map["source" := AnalyticsTable.Text(p.source), "visitors" := AnalyticsTable.Num(p.visitors),
        "bounceRate" := AnalyticsTable.Num(p.bounceRate), "visitDuration" := AnalyticsTable.Num(p.visitDuration)]
  }

  function EventRecord(p: EventRow): AnalyticsTable.Record {
    map["goal" := AnalyticsTable.Text(p.goal), "visitors" := AnalyticsTable.Num(p.visitors),
        "events" := AnalyticsTable.Num(p.events), "conversionRate" := AnalyticsTable.Num(p.conversionRate)]
  }

  /** A card that shows `m`'s value through `format` and its change against
      the previous period, green when the change goes the good way. */
  predicate ShowsStat(card: AnalyticsCard.CardView, title: string, m: MetricValue, format: real -> string, positiveIsGood: bool) {
    card.title == title
    && card.shown == AnalyticsCard.ShownText(format(m.value))
    && card.changeLine.Some?
    && card.changeLine.value.text == FormatChange(m.change).text + " from previous period"
    && (card.changeLine.value.color == AnalyticsCard.Green <==> FormatChange(m.change).isPositive == positiveIsGood)
  }

  /** One headline card. */
  function StatCard(title: string, m: MetricValue, format: real -> string, positiveIsGood: bool, rt: Runtime): (card: AnalyticsCard.CardView)
    ensures ShowsStat(card, title, m, format, positiveIsGood)
  {
    assert AnalyticsCard.NormaliseChange(ChangeOf(m)) == m.change || m.change == Some(0.0);
    AnalyticsCard.Card(AnalyticsCard.CardProps(title, AnalyticsCard.NumValue(m.value),
      ChangeOf(m), Some(format), Some(positiveIsGood)), rt.numberOf)
  }

  lemma CardsInOrder(a: AnalyticsCard.CardView, b: AnalyticsCard.CardView, c: AnalyticsCard.CardView, d: AnalyticsCard.CardView)
    ensures var cards := [a, b, c, d];
      |cards| == 4 && cards[0] == a && cards[1] == b && cards[2] == c && cards[3] == d
  {
  }

  /** `formatNumber` with the runtime's locale behaviour. */
  function NumberFormat(rt: Runtime): real -> string {
    (x: real) => FormatNumber(x, rt.halfUp, rt.fraction)
  }

  /** The four headline cards in order: visitors, page views, bounce rate
      and visit duration; only a lower bounce rate counts as good. */
  predicate CardsShown(cards: seq<AnalyticsCard.CardView>, stats: StatsData, rt: Runtime) {
    |cards| == 4
    && ShowsStat(cards[0], "Visitors", stats.visitors, NumberFormat(rt), true)
    && ShowsStat(cards[1], "Page Views", stats.pageViews, NumberFormat(rt), true)
    && ShowsStat(cards[2], "Bounce Rate", stats.bounceRate, FormatPercentage, false)
    && ShowsStat(cards[3], "Avg. Visit Duration", stats.visitDuration, FormatDuration, true)
  }

  function Cards(stats: StatsData, rt: Runtime): (cards: seq<AnalyticsCard.CardView>)
    ensures CardsShown(cards, stats, rt)
  {
    var visitors := StatCard("Visitors", stats.visitors, NumberFormat(rt), true, rt);
    var pageViews := StatCard("Page Views", stats.pageViews, NumberFormat(rt), true, rt);
    var bounceRate := StatCard("Bounce Rate", stats.bounceRate, FormatPercentage, false, rt);
    var duration := StatCard("Avg. Visit Duration", stats.visitDuration, FormatDuration, true, rt);
    CardsInOrder(visitors, pageViews, bounceRate, duration);
    [visitors, pageViews, bounceRate, duration]
  }

  /** A stat's change as the card's prop: always passed, possibly `null`. */
  function ChangeOf(m: MetricValue): AnalyticsCard.ChangeProp {
    match m.change
    case None => AnalyticsCard.Null
    case Some(c) => AnalyticsCard.Change(c)
  }

  function MapRecords<T>(rows: seq<T>, f: T -> AnalyticsTable.Record): (r: seq<AnalyticsTable.Record>)
    ensures |r| == |rows| && forall i :: 0 <= i < |rows| ==> r[i] == f(rows[i])
  {
    if |rows| == 0 then [] else [f(rows[0])] + MapRecords(rows[1..], f)
  }

  function NumberColumn(rt: Runtime): AnalyticsTable.CellValue -> string {
    OnNumber(NumberFormat(rt), rt.fraction)
  }

  /* ---------------- Tables ---------------- */

  function PageColumns(rt: Runtime): seq<AnalyticsTable.Column> {
    [ AnalyticsTable.Column("page", "Page", None),
      AnalyticsTable.Column("visitors", "Visitors", Some(NumberColumn(rt))),
      AnalyticsTable.Column("pageViews", "Pageviews", Some(NumberColumn(rt))),
      AnalyticsTable.Column("bounceRate", "Bounce Rate", Some(OnNumber(FormatPercentage, rt.fraction))) ]
  }

  function SourceColumns(rt: Runtime): seq<AnalyticsTable.Column> {
    [ AnalyticsTable.Column("source", "Source", None),
      AnalyticsTable.Column("visitors", "Visitors", Some(NumberColumn(rt))),
      AnalyticsTable.Column("bounceRate", "Bounce Rate", Some(OnNumber(FormatPercentage, rt.fraction))),
      AnalyticsTable.Column("visitDuration", "Visit Duration", Some(OnNumber(FormatDuration, rt.fraction))) ]
  }

  function EventColumns(rt: Runtime): seq<AnalyticsTable.Column> {
    [ AnalyticsTable.Column("goal", "Event", None),
      AnalyticsTable.Column("visitors", "Unique Visitors", Some(NumberColumn(rt))),
      AnalyticsTable.Column("events", "Total Events", Some(NumberColumn(rt))),
      AnalyticsTable.Column("conversionRate", "Conversion Rate", Some(OnNumber(FormatPercentage, rt.fraction))) ]
  }

  /** What a row of each table shows for its data row. */
  function PageCells(p: PageRow, rt: Runtime): seq<string> {
    [p.page, NumberFormat(rt)(p.visitors), NumberFormat(rt)(p.pageViews), FormatPercentage(p.bounceRate)]
  }

  function SourceCells(p: SourceRow, rt: Runtime): seq<string> {
    [p.source, NumberFormat(rt)(p.visitors), FormatPercentage(p.bounceRate), FormatDuration(p.visitDuration)]
  }

  function EventCells(p: EventRow, rt: Runtime): seq<string> {
    [p.goal, NumberFormat(rt)(p.visitors), NumberFormat(rt)(p.events), FormatPercentage(p.conversionRate)]
  }

  /** The pages table: its title and headers, and for every page the path,
      the formatted visitors and page views, and the bounce rate. */
  predicate PagesShown(t: AnalyticsTable.Table, pages: seq<PageRow>, rt: Runtime) {
    t.title == "Top Pages" && t.header == ["Page", "Visitors", "Pageviews", "Bounce Rate"]
    && |t.body| == |pages|
    && forall k :: 0 <= k < |pages| ==> t.body[k].cells == PageCells(pages[k], rt)
  }

  /** The sources table: for every source its name, the formatted visitors,
      the bounce rate and the visit duration. */
  predicate SourcesShown(t: AnalyticsTable.Table, sources: seq<SourceRow>, rt: Runtime) {
    t.title == "Top Sources" && t.header == ["Source", "Visitors", "Bounce Rate", "Visit Duration"]
    && |t.body| == |sources|
    && forall k :: 0 <= k < |sources| ==> t.body[k].cells == SourceCells(sources[k], rt)
  }

  /** The goals table: for every event its goal, the formatted counts and the
      conversion rate. */
  predicate EventsShown(t: AnalyticsTable.Table, events: seq<EventRow>, rt: Runtime) {
    t.title == "Custom Events / Goals"
    && t.header == ["Event", "Unique Visitors", "Total Events", "Conversion Rate"]
    && |t.body| == |events|
    && forall k :: 0 <= k < |events| ==> t.body[k].cells == EventCells(events[k], rt)
  }

  /** What each kind of column shows for a value. */
  lemma TextCell(key: string, header: string, row: AnalyticsTable.Record, text: string, fraction: real -> string)
    requires AnalyticsTable.Lookup(row, key) == AnalyticsTable.Text(text)
    ensures AnalyticsTable.Cell(AnalyticsTable.Column(key, header, None), row, fraction) == text
  {
  }

  lemma NumberCell(key: string, header: string, row: AnalyticsTable.Record, x: real, rt: Runtime)
    requires AnalyticsTable.Lookup(row, key) == AnalyticsTable.Num(x)
    ensures AnalyticsTable.Cell(AnalyticsTable.Column(key, header, Some(NumberColumn(rt))), row, rt.fraction) == NumberFormat(rt)(x)
  {
  }

  lemma FormattedCell(key: string, header: string, row: AnalyticsTable.Record, x: real, f: real -> string, fraction: real -> string)
    requires AnalyticsTable.Lookup(row, key) == AnalyticsTable.Num(x)
    ensures AnalyticsTable.Cell(AnalyticsTable.Column(key, header, Some(OnNumber(f, fraction))), row, fraction) == f(x)
  {
  }

  lemma PageLookups(p: PageRow)
    ensures AnalyticsTable.Lookup(PageRecord(p), "page") == AnalyticsTable.Text(p.page)
    ensures AnalyticsTable.Lookup(PageRecord(p), "visitors") == AnalyticsTable.Num(p.visitors)
    ensures AnalyticsTable.Lookup(PageRecord(p), "pageViews") == AnalyticsTable.Num(p.pageViews)
    ensures AnalyticsTable.Lookup(PageRecord(p), "bounceRate") == AnalyticsTable.Num(p.bounceRate)
  {
  }

  lemma PageRowCells(p: PageRow, rt: Runtime)
    ensures AnalyticsTable.RowCells(PageColumns(rt), PageRecord(p), rt.fraction) == PageCells(p, rt)
  {
    PageLookups(p);
    var row := PageRecord(p);
    TextCell("page", "Page", row, p.page, rt.fraction);
    NumberCell("visitors", "Visitors", row, p.visitors, rt);
    NumberCell("pageViews", "Pageviews", row, p.pageViews, rt);
    FormattedCell("bounceRate", "Bounce Rate", row, p.bounceRate, FormatPercentage, rt.fraction);
    var cols := PageColumns(rt);
    AnalyticsTable.FourCells(cols[0], cols[1], cols[2], cols[3], row, rt.fraction);
  }

  lemma SourceLookups(p: SourceRow)
    ensures AnalyticsTable.Lookup(SourceRecord(p), "source") == AnalyticsTable.Text(p.source)
    ensures AnalyticsTable.Lookup(SourceRecord(p), "visitors") == AnalyticsTable.Num(p.visitors)
    ensures AnalyticsTable.Lookup(SourceRecord(p), "bounceRate") == AnalyticsTable.Num(p.bounceRate)
    ensures AnalyticsTable.Lookup(SourceRecord(p), "visitDuration") == AnalyticsTable.Num(p.visitDuration)
  {
  }

  lemma SourceRowCells(p: SourceRow, rt: Runtime)
    ensures AnalyticsTable.RowCells(SourceColumns(rt), SourceRecord(p), rt.fraction) == SourceCells(p, rt)
  {
    SourceLookups(p);
    var row := SourceRecord(p);
    TextCell("source", "Source", row, p.source, rt.fraction);
    NumberCell("visitors", "Visitors", row, p.visitors, rt);
    FormattedCell("bounceRate", "Bounce Rate", row, p.bounceRate, FormatPercentage, rt.fraction);
    FormattedCell("visitDuration", "Visit Duration", row, p.visitDuration, FormatDuration, rt.fraction);
    var cols := SourceColumns(rt);
    AnalyticsTable.FourCells(cols[0], cols[1], cols[2], cols[3], row, rt.fraction);
  }

  lemma EventLookups(p: EventRow)
    ensures AnalyticsTable.Lookup(EventRecord(p), "goal") == AnalyticsTable.Text(p.goal)
    ensures AnalyticsTable.Lookup(EventRecord(p), "visitors") == AnalyticsTable.Num(p.visitors)
    ensures AnalyticsTable.Lookup(EventRecord(p), "events") == AnalyticsTable.Num(p.events)
    ensures AnalyticsTable.Lookup(EventRecord(p), "conversionRate") == AnalyticsTable.Num(p.conversionRate)
  {
  }

  lemma EventRowCells(p: EventRow, rt: Runtime)
    ensures AnalyticsTable.RowCells(EventColumns(rt), EventRecord(p), rt.fraction) == EventCells(p, rt)
  {
    EventLookups(p);
    var row := EventRecord(p);
    TextCell("goal", "Event", row, p.goal, rt.fraction);
    NumberCell("visitors", "Unique Visitors", row, p.visitors, rt);
    NumberCell("events", "Total Events", row, p.events, rt);
    FormattedCell("conversionRate", "Conversion Rate", row, p.conversionRate, FormatPercentage, rt.fraction);
    var cols := EventColumns(rt);
    AnalyticsTable.FourCells(cols[0], cols[1], cols[2], cols[3], row, rt.fraction);
  }

  lemma PageRows(pages: seq<PageRow>, rt: Runtime)
    ensures var records := MapRecords(pages, PageRecord);
      |records| == |pages| &&
      forall k :: 0 <= k < |pages| ==> AnalyticsTable.RowCells(PageColumns(rt), records[k], rt.fraction) == PageCells(pages[k], rt)
  {
    var records := MapRecords(pages, PageRecord);
    forall k | 0 <= k < |pages|
      ensures AnalyticsTable.RowCells(PageColumns(rt), records[k], rt.fraction) == PageCells(pages[k], rt)
    {
      PageRowCells(pages[k], rt);
    }
  }

  function PagesTable(pages: seq<PageRow>, rt: Runtime): (t: AnalyticsTable.Table)
    ensures PagesShown(t, pages, rt)
  {
    var t := AnalyticsTable.Grid("Top Pages", PageColumns(rt), MapRecords(pages, PageRecord), rt.fraction);
    PageRows(pages, rt);
    t
  }

  lemma SourceRows(sources: seq<SourceRow>, rt: Runtime)
    ensures var records := MapRecords(sources, SourceRecord);
      |records| == |sources| &&
      forall k :: 0 <= k < |sources| ==> AnalyticsTable.RowCells(SourceColumns(rt), records[k], rt.fraction) == SourceCells(sources[k], rt)
  {
    var records := MapRecords(sources, SourceRecord);
    forall k | 0 <= k < |sources|
      ensures AnalyticsTable.RowCells(SourceColumns(rt), records[k], rt.fraction) == SourceCells(sources[k], rt)
    {
      SourceRowCells(sources[k], rt);
    }
  }

  function SourcesTable(sources: seq<SourceRow>, rt: Runtime): (t: AnalyticsTable.Table)
    ensures SourcesShown(t, sources, rt)
  {
    var t := AnalyticsTable.Grid("Top Sources", SourceColumns(rt), MapRecords(sources, SourceRecord), rt.fraction);
    SourceRows(sources, rt);
    t
  }

  lemma EventRows(events: seq<EventRow>, rt: Runtime)
    ensures var records := MapRecords(events, EventRecord);
      |records| == |events| &&
      forall k :: 0 <= k < |events| ==> AnalyticsTable.RowCells(EventColumns(rt), records[k], rt.fraction) == EventCells(events[k], rt)
  {
    var records := MapRecords(events, EventRecord);
    forall k | 0 <= k < |events|
      ensures AnalyticsTable.RowCells(EventColumns(rt), records[k], rt.fraction) == EventCells(events[k], rt)
    {
      EventRowCells(events[k], rt);
    }
  }

  function EventsGrid(events: seq<EventRow>, rt: Runtime): (t: AnalyticsTable.Table)
    ensures EventsShown(t, events, rt)
  {
    var t := AnalyticsTable.Grid("Custom Events / Goals", EventColumns(rt), MapRecords(events, EventRecord), rt.fraction);
    EventRows(events, rt);
    t
  }

  /** The goals table, rendered only when there are events. */
  function EventsTable(events: seq<EventRow>, rt: Runtime): (t: Option<AnalyticsTable.Table>)
    ensures t.Some? <==> |events| > 0
    ensures t.Some? ==> EventsShown(t.value, events, rt)
  {
    if |events| > 0 then Some(EventsGrid(events, rt)) else None
  }

  /** The dashboard of a period's data: the realtime indicator of the
      realtime count, the four headline cards of the stats, the chart of the
      timeseries, and the pages, sources and goals tables of the rows. */
  function DashboardFor(period: string, data: GAData, rt: Runtime): (d: Dashboard)
    ensures d.period == period
    ensures d.realtime == RealtimeIndicator(data.realtimeVisitors, rt)
    ensures CardsShown(d.cards, data.stats, rt)
    ensures d.chart == ChartFor(data.timeseries)
    ensures d.chart.AreaChart? <==> |data.timeseries| > 0
    ensures PagesShown(d.pages, data.pages, rt)
    ensures SourcesShown(d.sources, data.sources, rt)
    ensures d.events.Some? <==> |data.events| > 0
    ensures d.events.Some? ==> EventsShown(d.events.value, data.events, rt)
  {
    Dashboard(period, RealtimeIndicator(data.realtimeVisitors, rt), Cards(data.stats, rt),
              ChartFor(data.timeseries), PagesTable(data.pages, rt), SourcesTable(data.sources, rt),
              EventsTable(data.events, rt))
  }

  /** `AnalyticsClient`'s render decision. */
  function View(s: ViewState, rt: Runtime): (screen: Screen)
    ensures s.loading ==> screen == Loading
    ensures !s.loading && (ErrorShown(s) || s.data.None?) ==>
      screen == ErrorScreen(if ErrorShown(s) then s.error.value else "Unable to load analytics data")
    ensures screen.DashboardScreen? <==> !s.loading && !ErrorShown(s) && s.data.Some?
    ensures screen.DashboardScreen? ==> screen.dashboard == DashboardFor(s.period, s.data.value, rt)
  {
    if s.loading then Loading
    else if ErrorShown(s) || s.data.None? then
      ErrorScreen(if ErrorShown(s) then s.error.value else "Unable to load analytics data")
    else DashboardScreen(DashboardFor(s.period, s.data.value, rt))
  }

  /** A fresh dashboard shows the loading screen and will ask for "7d". */
  lemma InitialScreen(rt: Runtime)
    ensures View(Initial, rt) == Loading
    ensures RequestPath(Initial.period) == "/api/analytics/detailed?period=7d"
  {
  }

  /** Once an error message is shown it is never cleared: later successful
      fetches leave it in place, so the dashboard never appears again. Only a
      thrown `Error` whose message is empty would replace it by a falsy one. */
  lemma {:induction false} ErrorPersists(s: ViewState, events: seq<Event>, rt: Runtime)
    requires ErrorShown(s)
    requires forall i :: 0 <= i < |events| ==> events[i] != FetchFinished(Threw(Some("")))
    ensures ErrorShown(Run(s, events))
    ensures !View(Run(s, events), rt).DashboardScreen?
    decreases |events|
  {
    if |events| > 0 {
      var next := Step(s, events[0]);
      assert ErrorShown(next);
      ErrorPersists(next, events[1..], rt);
    }
  }

  /** The one way out: a thrown `Error` with an empty message sets a falsy
      error, after which a successful fetch shows the dashboard again. */
  lemma EmptyMessageHidesError(s: ViewState, data: GAData, rt: Runtime)
    ensures !ErrorShown(Step(s, FetchFinished(Threw(Some("")))))
    ensures View(Run(s, [FetchFinished(Threw(Some(""))), FetchFinished(Received(Some(data)))]), rt).DashboardScreen?
  {
    var events := [FetchFinished(Threw(Some(""))), FetchFinished(Received(Some(data)))];
    var hidden := Step(s, events[0]);
    assert events[1..] == [events[1]];
    assert Run(s, events) == Run(hidden, [events[1]]);
    assert [events[1]][1..] == [];
    assert Run(hidden, [events[1]]) == Run(Step(hidden, events[1]), []);
    SuccessShowsDashboard(hidden, data, rt);
  }

  /** Without an earlier error, a successful fetch shows the dashboard. */
  lemma SuccessShowsDashboard(s: ViewState, data: GAData, rt: Runtime)
    requires !ErrorShown(s)
    ensures View(Step(s, FetchFinished(Received(Some(data)))), rt).DashboardScreen?
  {
  }
}
