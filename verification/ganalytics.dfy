/** The server side of the analytics dashboard: the relative date ranges
    requested for each period, the credential guard, the period-over-period
    change, and the shaping of already-parsed report rows into the data the
    dashboard shows. The analytics client itself is a parameter. */
module GAnalytics {
  import opened Wrappers
  import opened JsText

  /* ---------------- Date ranges ---------------- */

  datatype DateRange = DateRange(startDate: string, endDate: string)

  predicate KnownPeriod(period: string) {
    period == "day" || period == "7d" || period == "30d" || period == "12mo"
  }

  /** `getDateRange`: the current period always ends today and starts 0, 7,
      30 or 365 days back for "day", "7d", "30d" and "12mo"; any other period
      is treated as "7d". */
  function GetDateRange(period: string): (r: DateRange)
    ensures r.endDate == "today"
    ensures DayOffset(r.startDate)
         == Some(if period == "day" then 0 else if period == "30d" then 30 else if period == "12mo" then 365 else 7)
  {
    Offset7();
    Offset30();
    Offset365();
    var startDate :=
      if period == "day" then "today"
      else if period == "7d" then "7daysAgo"
      else if period == "30d" then "30daysAgo"
      else if period == "12mo" then "365daysAgo"
      else "7daysAgo";
    DateRange(startDate, "today")
  }

  /** `getPreviousDateRange`: the comparison period, as day offsets from
      today: 1 to 1 for "day", 14 to 8 for "7d" (and any unknown period),
      60 to 31 for "30d", 730 to 366 for "12mo". */
  function GetPreviousDateRange(period: string): (r: DateRange)
    ensures r.startDate != "today" && r.endDate != "today"
    ensures DayOffset(r.startDate)
         == Some(if period == "day" then 1 else if period == "30d" then 60 else if period == "12mo" then 730 else 14)
    ensures DayOffset(r.endDate)
         == Some(if period == "day" then 1 else if period == "30d" then 31 else if period == "12mo" then 366 else 8)
  {
    Offset14();
    Offset8();
    Offset60();
    Offset31();
    Offset730();
    Offset366();
    if period == "day" then DateRange("yesterday", "yesterday")
    else if period == "7d" then DateRange("14daysAgo", "8daysAgo")
    else if period == "30d" then DateRange("60daysAgo", "31daysAgo")
    else if period == "12mo" then DateRange("730daysAgo", "366daysAgo")
    else DateRange("14daysAgo", "8daysAgo")
  }

  /** Any period other than the four known ones is treated as "7d". */
  lemma UnknownPeriodIsSevenDays(period: string)
    requires !KnownPeriod(period)
    ensures GetDateRange(period) == GetDateRange("7d")
    ensures GetPreviousDateRange(period) == GetPreviousDateRange("7d")
  {
  }

  /** How many days before today a relative date token names:
      "today" is 0, "yesterday" is 1 and "NdaysAgo" is N. */
  function DayOffset(token: string): Option<nat> {
    if token == "today" then Some(0)
    else if token == "yesterday" then Some(1)
    else if |token| > 7 && token[|token| - 7..] == "daysAgo" && AllDigits(token[..|token| - 7])
    then Some(DigitsValue(token[..|token| - 7]))
    else None
  }

  /** Number of calendar days a range covers, today included. */
  function RangeDays(r: DateRange): Option<int> {
    match (DayOffset(r.startDate), DayOffset(r.endDate))
    case (Some(s), Some(e)) => var days := s as int - e as int + 1; Some(days)
    case _ => None
  }

  lemma DaysAgoOffset(n: nat)
    ensures DayOffset(NatToString(n) + "daysAgo") == Some(n)
  {
    var t := NatToString(n) + "daysAgo";
    assert t[|t| - 7..] == "daysAgo";
    assert t[..|t| - 7] == NatToString(n);
    NatToStringRoundTrip(n);
  }

  lemma Offset7()
    ensures DayOffset("7daysAgo") == Some(7)
  {
    DaysAgoOffset(7);
    assert NatToString(7) == [DigitChar(7)];
    assert DigitChar(7) == '7';
    assert NatToString(7) == "7";
    assert NatToString(7) + "daysAgo" == "7daysAgo";
  }

  lemma Offset8()
    ensures DayOffset("8daysAgo") == Some(8)
  {
    DaysAgoOffset(8);
    assert NatToString(8) == [DigitChar(8)];
    assert DigitChar(8) == '8';
    assert NatToString(8) == "8";
    assert NatToString(8) + "daysAgo" == "8daysAgo";
  }

  lemma Offset14()
    ensures DayOffset("14daysAgo") == Some(14)
  {
    DaysAgoOffset(14);
    assert NatToString(1) == [DigitChar(1)];
    assert NatToString(14) == NatToString(1) + [DigitChar(4)];
    assert DigitChar(1) == '1';
    assert DigitChar(4) == '4';
    assert NatToString(14) == "14";
    assert NatToString(14) + "daysAgo" == "14daysAgo";
  }

  lemma Offset30()
    ensures DayOffset("30daysAgo") == Some(30)
  {
    DaysAgoOffset(30);
    assert NatToString(3) == [DigitChar(3)];
    assert NatToString(30) == NatToString(3) + [DigitChar(0)];
    assert DigitChar(0) == '0';
    assert DigitChar(3) == '3';
    assert NatToString(30) == "30";
    assert NatToString(30) + "daysAgo" == "30daysAgo";
  }

  lemma Offset31()
    ensures DayOffset("31daysAgo") == Some(31)
  {
    DaysAgoOffset(31);
    assert NatToString(3) == [DigitChar(3)];
    assert NatToString(31) == NatToString(3) + [DigitChar(1)];
    assert DigitChar(1) == '1';
    assert DigitChar(3) == '3';
    assert NatToString(31) == "31";
    assert NatToString(31) + "daysAgo" == "31daysAgo";
  }

  lemma Offset60()
    ensures DayOffset("60daysAgo") == Some(60)
  {
    DaysAgoOffset(60);
    assert NatToString(6) == [DigitChar(6)];
    assert NatToString(60) == NatToString(6) + [DigitChar(0)];
    assert DigitChar(0) == '0';
    assert DigitChar(6) == '6';
    assert NatToString(60) == "60";
    assert NatToString(60) + "daysAgo" == "60daysAgo";
  }

  lemma Offset365()
    ensures DayOffset("365daysAgo") == Some(365)
  {
    DaysAgoOffset(365);
    assert NatToString(3) == [DigitChar(3)];
    assert NatToString(36) == NatToString(3) + [DigitChar(6)];
    assert NatToString(365) == NatToString(36) + [DigitChar(5)];
    assert DigitChar(3) == '3';
    assert DigitChar(5) == '5';
    assert DigitChar(6) == '6';
    assert NatToString(365) == "365";
    assert NatToString(365) + "daysAgo" == "365daysAgo";
  }

  lemma Offset366()
    ensures DayOffset("366daysAgo") == Some(366)
  {
    DaysAgoOffset(366);
    assert NatToString(3) == [DigitChar(3)];
    assert NatToString(36) == NatToString(3) + [DigitChar(6)];
    assert NatToString(366) == NatToString(36) + [DigitChar(6)];
    assert DigitChar(3) == '3';
    assert DigitChar(6) == '6';
    assert NatToString(366) == "366";
    assert NatToString(366) + "daysAgo" == "366daysAgo";
  }

  lemma Offset730()
    ensures DayOffset("730daysAgo") == Some(730)
  {
    DaysAgoOffset(730);
    assert NatToString(7) == [DigitChar(7)];
    assert NatToString(73) == NatToString(7) + [DigitChar(3)];
    assert NatToString(730) == NatToString(73) + [DigitChar(0)];
    assert DigitChar(0) == '0';
    assert DigitChar(3) == '3';
    assert DigitChar(7) == '7';
    assert NatToString(730) == "730";
    assert NatToString(730) + "daysAgo" == "730daysAgo";
  }

  lemma TokenOffsets()
    ensures DayOffset("today") == Some(0) && DayOffset("yesterday") == Some(1)
    ensures DayOffset("7daysAgo") == Some(7) && DayOffset("8daysAgo") == Some(8)
    ensures DayOffset("14daysAgo") == Some(14) && DayOffset("30daysAgo") == Some(30)
    ensures DayOffset("31daysAgo") == Some(31) && DayOffset("60daysAgo") == Some(60)
    ensures DayOffset("365daysAgo") == Some(365) && DayOffset("366daysAgo") == Some(366)
    ensures DayOffset("730daysAgo") == Some(730)
  {
    Offset7();
    Offset8();
    Offset14();
    Offset30();
    Offset31();
    Offset60();
    Offset365();
    Offset366();
    Offset730();
  }

  /** For every period, both ranges are well formed, the current range ends
      today, and the previous range ends the day before the current one
      starts: the two are disjoint and leave no gap. */
  lemma PreviousRangeAdjoinsCurrent(period: string)
    ensures DayOffset(GetDateRange(period).endDate) == Some(0)
    ensures DayOffset(GetDateRange(period).startDate).Some?
    ensures DayOffset(GetPreviousDateRange(period).endDate).Some?
    ensures DayOffset(GetPreviousDateRange(period).startDate).Some?
    ensures DayOffset(GetPreviousDateRange(period).endDate).value
         == DayOffset(GetDateRange(period).startDate).value + 1
    ensures DayOffset(GetPreviousDateRange(period).startDate).value
         >= DayOffset(GetPreviousDateRange(period).endDate).value
  {
    TokenOffsets();
  }

  /** The comparison range is one day shorter than the current one, except
      for "day" where both are a single day: the current range counts today
      as well as the N days before it. */
  lemma PreviousRangeLength(period: string)
    ensures RangeDays(GetDateRange(period)).Some?
    ensures RangeDays(GetPreviousDateRange(period)).Some?
    ensures period == "day" ==> RangeDays(GetDateRange(period)) == RangeDays(GetPreviousDateRange(period)) == Some(1)
    ensures period != "day" ==>
      RangeDays(GetDateRange(period)).value == RangeDays(GetPreviousDateRange(period)).value + 1
  {
    if period == "day" {
      RangeDaysOf("today", "today", 0, 0);
      RangeDaysOf("yesterday", "yesterday", 1, 1);
    } else if period == "30d" {
      Offset30();
      Offset60();
      Offset31();
      RangeDaysOf("30daysAgo", "today", 30, 0);
      RangeDaysOf("60daysAgo", "31daysAgo", 60, 31);
    } else if period == "12mo" {
      Offset365();
      Offset730();
      Offset366();
      RangeDaysOf("365daysAgo", "today", 365, 0);
      RangeDaysOf("730daysAgo", "366daysAgo", 730, 366);
    } else {
      Offset7();
      Offset14();
      Offset8();
      RangeDaysOf("7daysAgo", "today", 7, 0);
      RangeDaysOf("14daysAgo", "8daysAgo", 14, 8);
    }
  }

  lemma RangeDaysOf(startDate: string, endDate: string, s: nat, e: nat)
    requires DayOffset(startDate) == Some(s) && DayOffset(endDate) == Some(e)
    ensures RangeDays(DateRange(startDate, endDate)) == Some(s - e + 1)
  {
  }

  /* ---------------- Percentage change ---------------- */

  function Sign(x: real): int {
    if x > 0.0 then 1 else if x < 0.0 then -1 else 0
  }

  /** `calculateChange`: percentage change from `previous` to `current`,
      with a zero previous value mapped to 100 (growth from nothing) or
      `null` (nothing to nothing, or a fall to a negative). */
  function CalculateChange(current: real, previous: real): (r: Option<real>)
    ensures previous == 0.0 ==> r == (if current > 0.0 then Some(100.0) else None)
    ensures previous != 0.0 ==> r.Some? && previous + previous * r.value / 100.0 == current
    ensures previous != 0.0 && current == previous ==> r == Some(0.0)
    ensures previous > 0.0 && r.Some? ==> Sign(r.value) == Sign(current - previous)
  {
    if previous == 0.0 then (if current > 0.0 then Some(100.0) else None)
    else Some(((current - previous) / previous) * 100.0)
  }

  /* ---------------- Report rows ---------------- */

  /** One report row: dimension strings and metric values, each possibly
      absent, with the metric strings already parsed as numbers. */
  datatype Row = Row(dimensions: seq<Option<string>>, metrics: seq<Option<real>>)

  /** `row.dimensionValues?.[i]?.value || fallback`. */
  function DimensionOr(row: Row, i: nat, fallback: string): (r: string)
    ensures r == fallback <==> (i >= |row.dimensions| || row.dimensions[i].None? || row.dimensions[i].value in {"", fallback})
    ensures i < |row.dimensions| && row.dimensions[i].Some? && row.dimensions[i].value != "" ==>
      r == row.dimensions[i].value
  {
    if i < |row.dimensions| && row.dimensions[i].Some? && row.dimensions[i].value != ""
    then row.dimensions[i].value else fallback
  }

  /** `parseFloat(row.metricValues?.[i]?.value || '0')`: a missing metric is 0. */
  function Metric(row: Row, i: nat): (r: real)
    ensures (i >= |row.metrics| || row.metrics[i].None?) ==> r == 0.0
    ensures i < |row.metrics| && row.metrics[i].Some? ==> r == row.metrics[i].value
  {
    if i < |row.metrics| && row.metrics[i].Some? then row.metrics[i].value else 0.0
  }

  /** `parseInt` of a decimal number: its integer part, truncated towards zero. */
  function TruncToInt(x: real): (r: int)
    ensures 0.0 <= x ==> r as real <= x < r as real + 1.0
    ensures x < 0.0 ==> r as real - 1.0 < x <= r as real
  {
    if x >= 0.0 then x.Floor else -((-x).Floor)
  }

  /** `parseInt(row.metricValues?.[i]?.value || '0')`. */
  function IntMetric(row: Row, i: nat): (r: real)
    ensures (i >= |row.metrics| || row.metrics[i].None?) ==> r == 0.0
    ensures i < |row.metrics| && row.metrics[i].Some? ==> r == TruncToInt(row.metrics[i].value) as real
  {
    TruncToInt(Metric(row, i)) as real
  }

  /** Metrics of the first row of a report, or of no row at all. */
  function FirstRow(rows: seq<Row>): Row {
    if |rows| > 0 then rows[0] else Row([], [])
  }

  datatype MetricValue = MetricValue(value: real, change: Option<real>)
  datatype StatsData = StatsData(visitors: MetricValue, pageViews: MetricValue,
                                 bounceRate: MetricValue, visitDuration: MetricValue)
  datatype TimePoint = TimePoint(date: string, visitors: real)
  datatype PageRow = PageRow(page: string, visitors: real, pageViews: real,
                             bounceRate: real, visitDuration: real)
  datatype SourceRow = SourceRow(source: string, visitors: real, bounceRate: real, visitDuration: real)
  datatype EventRow = EventRow(goal: string, visitors: real, events: real, conversionRate: real)
  datatype GAData = GAData(stats: StatsData, timeseries: seq<TimePoint>, pages: seq<PageRow>,
                           sources: seq<SourceRow>, events: seq<EventRow>, realtimeVisitors: real)

  /** The four headline numbers of one period: visitors, page views, bounce
      rate (a fraction in the report, a percentage here) and visit duration. */
  datatype Totals = Totals(visitors: real, pageViews: real, bounceRate: real, visitDuration: real)

  function ReadTotals(row: Row): (t: Totals)
    ensures t.visitors == IntMetric(row, 0) && t.pageViews == IntMetric(row, 1)
    ensures t.bounceRate == 100.0 * Metric(row, 2)
    ensures t.visitDuration == Metric(row, 3)
    ensures row.metrics == [] ==> t == Totals(0.0, 0.0, 0.0, 0.0)
  {
    Totals(IntMetric(row, 0), IntMetric(row, 1), Metric(row, 2) * 100.0, Metric(row, 3))
  }

  /** A headline value that shows `current` and its change against
      `previous`: 100 for growth from zero, null from zero to zero or below,
      and otherwise the percentage that, applied to `previous`, gives
      `current`. */
  predicate Compares(m: MetricValue, current: real, previous: real) {
    m.value == current
    && (previous == 0.0 ==> m.change == (if current > 0.0 then Some(100.0) else None))
    && (previous != 0.0 ==> m.change.Some? && previous + previous * m.change.value / 100.0 == current)
  }

  /** Each headline value paired with its change against the previous period. */
  function Stats(current: Totals, previous: Totals): (s: StatsData)
    ensures Compares(s.visitors, current.visitors, previous.visitors)
    ensures Compares(s.pageViews, current.pageViews, previous.pageViews)
    ensures Compares(s.bounceRate, current.bounceRate, previous.bounceRate)
    ensures Compares(s.visitDuration, current.visitDuration, previous.visitDuration)
  {
    StatsData(MetricValue(current.visitors, CalculateChange(current.visitors, previous.visitors)),
              MetricValue(current.pageViews, CalculateChange(current.pageViews, previous.pageViews)),
              MetricValue(current.bounceRate, CalculateChange(current.bounceRate, previous.bounceRate)),
              MetricValue(current.visitDuration, CalculateChange(current.visitDuration, previous.visitDuration)))
  }

  /** The change is determined by the two values: the percentage that maps
      a non-zero `previous` to `current` is unique. */
  lemma ChangeUnique(c: real, current: real, previous: real)
    requires previous != 0.0 && previous + previous * c / 100.0 == current
    ensures c == ((current - previous) / previous) * 100.0
  {
    assert previous * (c / 100.0) == current - previous;
    assert c / 100.0 == (current - previous) / previous;
  }

  /** `Compares` pins a headline value down completely. */
  lemma ComparesUnique(m: MetricValue, current: real, previous: real)
    requires Compares(m, current, previous)
    ensures m == MetricValue(current, CalculateChange(current, previous))
  {
    if previous != 0.0 {
      ChangeUnique(m.change.value, current, previous);
    }
  }

  /** The headline data is the only one comparing the two periods. */
  lemma StatsUnique(s: StatsData, current: Totals, previous: Totals)
    requires Compares(s.visitors, current.visitors, previous.visitors)
    requires Compares(s.pageViews, current.pageViews, previous.pageViews)
    requires Compares(s.bounceRate, current.bounceRate, previous.bounceRate)
    requires Compares(s.visitDuration, current.visitDuration, previous.visitDuration)
    ensures s == Stats(current, previous)
  {
    ComparesUnique(s.visitors, current.visitors, previous.visitors);
    ComparesUnique(s.pageViews, current.pageViews, previous.pageViews);
    ComparesUnique(s.bounceRate, current.bounceRate, previous.bounceRate);
    ComparesUnique(s.visitDuration, current.visitDuration, previous.visitDuration);
  }

  /* ---------------- Dates ---------------- */

  function Min(a: int, b: int): int {
    if a < b then a else b
  }

  /** `s.slice(from, to)` for 0 <= from <= to: indices past the end are clamped. */
  function Slice(s: string, from: nat, to: nat): (r: string)
    requires from <= to
    ensures r == s[Min(from, |s|)..Min(to, |s|)]
  {
    s[Min(from, |s|)..Min(to, |s|)]
  }

  function RemoveHyphens(s: string): (r: string)
    ensures |r| <= |s|
  {
    if |s| == 0 then ""
    else (if s[0] == '-' then "" else [s[0]]) + RemoveHyphens(s[1..])
  }

  lemma {:induction false} RemoveHyphensAppend(a: string, b: string)
    ensures RemoveHyphens(a + b) == RemoveHyphens(a) + RemoveHyphens(b)
  {
    if |a| > 0 {
      assert (a + b)[1..] == a[1..] + b;
      RemoveHyphensAppend(a[1..], b);
    } else {
      assert a + b == b;
    }
  }

  lemma {:induction false} RemoveHyphensNone(s: string)
    requires '-' !in s
    ensures RemoveHyphens(s) == s
  {
    if |s| > 0 {
      assert s[0] in s;
      RemoveHyphensNone(s[1..]);
    }
  }

  /** The YYYYMMDD to YYYY-MM-DD reshaping of a date dimension: hyphens
      after the year and the month digits, at most eight characters kept. */
  function ReshapeDate(s: string): (r: string)
    ensures |r| == Min(|s|, 8) + 2
    ensures |s| == 8 ==> r == s[..4] + "-" + s[4..6] + "-" + s[6..]
    ensures s == "" ==> r == "--"
  {
    Slice(s, 0, 4) + "-" + Slice(s, 4, 6) + "-" + Slice(s, 6, 8)
  }

  lemma RemoveHyphensAround(x: string, y: string)
    ensures RemoveHyphens(x + "-" + y) == RemoveHyphens(x) + RemoveHyphens(y)
  {
    var h := "-";
    assert RemoveHyphens(h) == "" by {
      assert h[0] == '-' && h[1..] == "";
    }
    RemoveHyphensAppend(x + h, y);
    RemoveHyphensAppend(x, h);
    assert RemoveHyphens(x) + "" == RemoveHyphens(x);
  }

  lemma NoHyphenInSlice(s: string, i: nat, j: nat)
    requires '-' !in s && i <= j <= |s|
    ensures RemoveHyphens(s[i..j]) == s[i..j]
  {
    var t := s[i..j];
    forall x | 0 <= x < |t|
      ensures t[x] != '-'
    {
      assert t[x] == s[i + x];
    }
    assert '-' !in t;
    RemoveHyphensNone(t);
  }

  /** Dropping the two inserted hyphens gives back the characters kept. */
  lemma ReshapeDateRoundTrip(s: string)
    requires '-' !in s
    ensures RemoveHyphens(ReshapeDate(s)) == s[..Min(|s|, 8)]
  {
    var i4, i6, k := Min(4, |s|), Min(6, |s|), Min(|s|, 8);
    var a, b, c := s[0..i4], s[i4..i6], s[i6..k];
    assert ReshapeDate(s) == (a + "-" + b) + "-" + c;
    RemoveHyphensAround(a + "-" + b, c);
    RemoveHyphensAround(a, b);
    NoHyphenInSlice(s, 0, i4);
    NoHyphenInSlice(s, i4, i6);
    NoHyphenInSlice(s, i6, k);
    assert s[..k] == a + b + c;
  }

  /* ---------------- Row shaping ---------------- */

  /** A timeseries point: a YYYYMMDD date becomes YYYY-MM-DD, from which
      the date comes back by dropping the hyphens; a missing date gives
      "--"; visitors is metric 0 truncated, or 0 when missing. */
  function ShapeTimePoint(row: Row): (p: TimePoint)
    ensures var d := DimensionOr(row, 0, "");
      |d| == 8 ==> p.date == d[..4] + "-" + d[4..6] + "-" + d[6..]
    ensures var d := DimensionOr(row, 0, "");
      |d| == 8 && '-' !in d ==> RemoveHyphens(p.date) == d
    ensures (|row.dimensions| == 0 || row.dimensions[0] in {None, Some("")}) ==> p.date == "--"
    ensures p.visitors == IntMetric(row, 0)
  {
    var d := DimensionOr(row, 0, "");
    ReshapedDateRecovers(d);
    TimePoint(ReshapeDate(d), IntMetric(row, 0))
  }

  /** `ReshapeDateRoundTrip` for a date whose form is not yet known. */
  lemma ReshapedDateRecovers(d: string)
    ensures |d| == 8 && '-' !in d ==> RemoveHyphens(ReshapeDate(d)) == d
  {
    if |d| == 8 && '-' !in d {
      ReshapeDateRoundTrip(d);
      assert d[..Min(|d|, 8)] == d;
    }
  }

  function ShapePage(row: Row): (p: PageRow)
    ensures p.page == DimensionOr(row, 0, "")
    ensures p.visitors == IntMetric(row, 0) && p.pageViews == IntMetric(row, 1)
    ensures p.bounceRate == 100.0 * Metric(row, 2) && p.visitDuration == Metric(row, 3)
    ensures row.metrics == [] ==> p.visitors == p.pageViews == p.bounceRate == p.visitDuration == 0.0
  {
    PageRow(DimensionOr(row, 0, ""), IntMetric(row, 0), IntMetric(row, 1),
            Metric(row, 2) * 100.0, Metric(row, 3))
  }

  function ShapeSource(row: Row): (p: SourceRow)
    ensures p.source == DimensionOr(row, 0, "(direct)")
    ensures (|row.dimensions| == 0 || row.dimensions[0] in {None, Some("")}) ==> p.source == "(direct)"
    ensures p.visitors == IntMetric(row, 0)
    ensures p.bounceRate == 100.0 * Metric(row, 1) && p.visitDuration == Metric(row, 2)
    ensures row.metrics == [] ==> p.visitors == p.bounceRate == p.visitDuration == 0.0
  {
    SourceRow(DimensionOr(row, 0, "(direct)"), IntMetric(row, 0),
              Metric(row, 1) * 100.0, Metric(row, 2))
  }

  /** `currentVisitors || 1`: the denominator of the conversion rate. */
  function TotalUsers(currentVisitors: real): (d: real)
    ensures d != 0.0
    ensures currentVisitors != 0.0 ==> d == currentVisitors
  {
    if currentVisitors == 0.0 then 1.0 else currentVisitors
  }

  function ShapeEvent(row: Row, currentVisitors: real): (e: EventRow)
    ensures e.goal == DimensionOr(row, 0, "")
    ensures e.visitors == IntMetric(row, 0) && e.events == IntMetric(row, 1)
    ensures e.conversionRate * TotalUsers(currentVisitors) == 100.0 * e.visitors
    ensures currentVisitors == 0.0 ==> e.conversionRate == 100.0 * e.visitors
  {
    EventRow(DimensionOr(row, 0, ""), IntMetric(row, 0), IntMetric(row, 1),
             (IntMetric(row, 0) / TotalUsers(currentVisitors)) * 100.0)
  }

  /** Realtime visitors; a failed realtime report (`None`) or one without
      rows counts as nobody online. */
  function RealtimeVisitors(report: Option<seq<Row>>): (v: real)
    ensures report.None? || report == Some([]) ==> v == 0.0
    ensures report.Some? && |report.value| > 0 ==> v == IntMetric(report.value[0], 0)
  {
    match report
    case None => 0.0
    case Some(rows) => IntMetric(FirstRow(rows), 0)
  }

  /* ---------------- getGAData ---------------- */

  datatype Config = Config(propertyId: string, clientEmail: string, privateKey: string)

  predicate Configured(c: Config) {
    c.propertyId != "" && c.clientEmail != "" && c.privateKey != ""
  }

  /** The seven report responses; `realtime` is `None` when that one report
      failed, which is tolerated. */
  datatype Responses = Responses(currentStats: seq<Row>, previousStats: seq<Row>,
                                 timeseries: seq<Row>, pages: seq<Row>, sources: seq<Row>,
                                 events: seq<Row>, realtime: Option<seq<Row>>)

  /** Which ranges were requested (none when the guard fails) and the data
      returned (`null` is `None`). */
  datatype FetchOutcome = FetchOutcome(requested: Option<(DateRange, DateRange)>, data: Option<GAData>)

  function MapTimePoints(rows: seq<Row>): (r: seq<TimePoint>)
    ensures |r| == |rows| && forall i :: 0 <= i < |rows| ==> r[i] == ShapeTimePoint(rows[i])
  {
    if |rows| == 0 then [] else [ShapeTimePoint(rows[0])] + MapTimePoints(rows[1..])
  }

  function MapPages(rows: seq<Row>): (r: seq<PageRow>)
    ensures |r| == |rows| && forall i :: 0 <= i < |rows| ==> r[i] == ShapePage(rows[i])
  {
    if |rows| == 0 then [] else [ShapePage(rows[0])] + MapPages(rows[1..])
  }

  function MapSources(rows: seq<Row>): (r: seq<SourceRow>)
    ensures |r| == |rows| && forall i :: 0 <= i < |rows| ==> r[i] == ShapeSource(rows[i])
  {
    if |rows| == 0 then [] else [ShapeSource(rows[0])] + MapSources(rows[1..])
  }

  function MapEvents(rows: seq<Row>, currentVisitors: real): (r: seq<EventRow>)
    ensures |r| == |rows| && forall i :: 0 <= i < |rows| ==> r[i] == ShapeEvent(rows[i], currentVisitors)
  {
    if |rows| == 0 then [] else [ShapeEvent(rows[0], currentVisitors)] + MapEvents(rows[1..], currentVisitors)
  }

  /** Shapes a complete set of responses into dashboard data. */
  function Shape(resp: Responses): (d: GAData)
    ensures d.stats == Stats(ReadTotals(FirstRow(resp.currentStats)), ReadTotals(FirstRow(resp.previousStats)))
    ensures |d.timeseries| == |resp.timeseries| && |d.pages| == |resp.pages|
    ensures |d.sources| == |resp.sources| && |d.events| == |resp.events|
    ensures forall i :: 0 <= i < |resp.timeseries| ==> d.timeseries[i] == ShapeTimePoint(resp.timeseries[i])
    ensures forall i :: 0 <= i < |resp.pages| ==> d.pages[i] == ShapePage(resp.pages[i])
    ensures forall i :: 0 <= i < |resp.sources| ==> d.sources[i] == ShapeSource(resp.sources[i])
    ensures forall i :: 0 <= i < |resp.events| ==>
      d.events[i] == ShapeEvent(resp.events[i], d.stats.visitors.value)
    ensures d.realtimeVisitors == RealtimeVisitors(resp.realtime)
  {
    var current := ReadTotals(FirstRow(resp.currentStats));
    var previous := ReadTotals(FirstRow(resp.previousStats));
    GAData(Stats(current, previous), MapTimePoints(resp.timeseries), MapPages(resp.pages),
           MapSources(resp.sources), MapEvents(resp.events, current.visitors),
           RealtimeVisitors(resp.realtime))
  }

  /** `getGAData`: without complete credentials nothing is requested and the
      result is `null`; otherwise the current and previous ranges of the
      period are requested, and a failure of any report other than the
      realtime one makes the result `null`. */
  function GetGAData(config: Config, period: string,
                     run: (DateRange, DateRange) -> Option<Responses>): (r: FetchOutcome)
    ensures !Configured(config) ==> r == FetchOutcome(None, None)
    ensures Configured(config) ==>
      r.requested == Some((GetDateRange(period), GetPreviousDateRange(period)))
    ensures Configured(config) ==>
      (r.data.Some? <==> run(GetDateRange(period), GetPreviousDateRange(period)).Some?)
    ensures r.data.Some? ==>
      Configured(config) && r.data.value == Shape(run(GetDateRange(period), GetPreviousDateRange(period)).value)
  {
    if !Configured(config) then FetchOutcome(None, None)
    else
      var current := GetDateRange(period);
      var previous := GetPreviousDateRange(period);
      match run(current, previous)
      case None => FetchOutcome(Some((current, previous)), None)
      case Some(resp) => FetchOutcome(Some((current, previous)), Some(Shape(resp)))
  }
}
