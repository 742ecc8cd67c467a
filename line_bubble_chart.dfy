/**
 * js/line_bubble_chart.js: a bubble chart whose radius multiplier follows the container's aspect ratio, and a
 * line chart of every category's proportion over the last seven days.
 */
module LineBubbleChart {
  import opened Results
  import opened CsvTable
  import opened Snapshot
  import opened Layout

  // ---------------------------------------------------------------------------------------------------------
  // renderBubbleChart
  // ---------------------------------------------------------------------------------------------------------

  /** What the bubble chart's `catch` block writes into its container. */
  const BubbleFailureMessage: string := "Failed to load bubble chart data."

  /** `5.4 * width / height`: the radius multiplier, which grows with the container's aspect ratio. */
  function RadiusScale(width: real, height: real): (scale: real)
    requires 0.0 < height
    ensures scale * height == 5.4 * width
    ensures 0.0 <= width ==> 0.0 <= scale
    ensures 0.0 < width ==> 0.0 < scale
  {
    5.4 * width / height
  }

  /** A larger proportion gets a strictly larger radius in a container of positive width and height. */
  lemma RadiusMonotoneInContainer(sqrt: real -> real, p: real, q: real, width: real, height: real)
    requires IsSqrt(sqrt) && 0.0 <= p < q && 0.0 < width && 0.0 < height
    ensures Radius(sqrt, p, RadiusScale(width, height)) < Radius(sqrt, q, RadiusScale(width, height))
  {
  }

  /** `Math.max(d.r / 8, 8)`: the label's font size, an eighth of the radius but never below 8 pixels. */
  function FontSize(r: real): (size: real)
    ensures 8.0 <= size && r / 8.0 <= size
    ensures size == 8.0 || size == r / 8.0
  {
    if r / 8.0 < 8.0 then 8.0 else r / 8.0
  }

  /** The bubble chart's nodes, or its failure message when the table has no record. */
  function BubbleNodes(t: Table, sqrt: real -> real, width: real, height: real, draws: seq<(real, real)>)
    : (r: Result<seq<NodeInit>, string>)
    requires Valid(t) && ProportionTable(t) && IsSqrt(sqrt) && 0.0 <= width && 0.0 < height
    requires ValidDraws(draws) && |draws| == |CategoryColumns(t.header)|
    ensures r.Err? <==> |t.rows| == 0
    ensures r.Err? ==> r.error == BubbleFailureMessage
    ensures r.Ok? ==> NormalizedFrom(t, r.value, RadiusScale(width, height), width, height)
  {
    var scale := RadiusScale(width, height);
    match Normalize(t, sqrt, scale, width, height, draws)
    case Err(_) => Err(BubbleFailureMessage)
    case Ok(nodes) =>
      NormalizeCorrect(t, sqrt, scale, width, height, draws);
      Ok(nodes)
  }

  /** renderBubbleChart's `try` block up to the simulation: fresh nodes made from the latest record. */
  method RenderBubbleChart(t: Table, sqrt: real -> real, width: real, height: real, draws: seq<(real, real)>)
    returns (r: Result<array<Node>, string>)
    requires Valid(t) && ProportionTable(t) && IsSqrt(sqrt) && 0.0 <= width && 0.0 < height
    requires ValidDraws(draws) && |draws| == |CategoryColumns(t.header)|
    ensures r.Err? <==> |t.rows| == 0
    ensures r.Err? ==> r.error == BubbleFailureMessage
    ensures r.Ok? ==> fresh(r.value) && Distinct(r.value)
    ensures r.Ok? ==> NormalizedFrom(t, Values(r.value), RadiusScale(width, height), width, height)
  {
    match BubbleNodes(t, sqrt, width, height, draws)
    case Err(e) =>
      r := Err(e);
    case Ok(inits) =>
      var nodes := CreateNodes(inits);
      r := Ok(nodes);
  }

  // ---------------------------------------------------------------------------------------------------------
  // renderLineChart
  // ---------------------------------------------------------------------------------------------------------

  /** What the line chart's `catch` block writes into its container. */
  const LineFailureMessage: string := "Failed to load line chart data."

  /** `7 * 24 * 60 * 60 * 1000`: seven days in milliseconds. */
  const WeekMillis: int := 7 * 24 * 60 * 60 * 1000

  /**
   * `d.record_time >= new Date(Date.now() - 7 * 24 * 60 * 60 * 1000)`: the record was made at most 604800000
   * milliseconds (seven days) before now, or at any time after.
   */
  predicate Recent(header: seq<string>, row: Row, now: int)
    requires RecordTime in header && WellFormedRow(header, row)
    ensures Recent(header, row, now) <==> now - TimeOf(header, row) <= 604_800_000
  {
    TimeOf(header, row) >= now - WeekMillis
  }

  /** The `.filter(...)` that keeps the records of the last seven days, in their original order. */
  function LastWeek(header: seq<string>, rows: seq<Row>, now: int): (kept: seq<Row>)
    requires RecordTime in header && WellFormedRows(header, rows)
    ensures |kept| <= |rows|
    ensures WellFormedRows(header, kept)
    ensures forall row :: row in kept <==> row in rows && Recent(header, row, now)
  {
    if |rows| == 0 then []
    else
      var n := |rows| - 1;
      var prev := LastWeek(header, rows[..n], now);
      assert rows == rows[..n] + [rows[n]];
      if Recent(header, rows[n], now) then prev + [rows[n]] else prev
  }

  /** Filtering commutes with concatenation: the kept records stay in their original order. */
  lemma {:induction false} LastWeekAppend(header: seq<string>, a: seq<Row>, b: seq<Row>, now: int)
    requires RecordTime in header && WellFormedRows(header, a) && WellFormedRows(header, b)
    ensures WellFormedRows(header, a + b)
    ensures LastWeek(header, a + b, now) == LastWeek(header, a, now) + LastWeek(header, b, now)
  {
    assert WellFormedRows(header, a + b);
    if |b| == 0 {
      assert a + b == a;
    } else {
      var n := |b| - 1;
      assert WellFormedRows(header, b[..n]);
      LastWeekAppend(header, a, b[..n], now);
      assert (a + b)[..|a + b| - 1] == a + b[..n];
      assert (a + b)[|a + b| - 1] == b[n];
    }
  }

  /** A table whose records are all recent is kept whole. */
  lemma {:induction false} LastWeekKeepsRecent(header: seq<string>, rows: seq<Row>, now: int)
    requires RecordTime in header && WellFormedRows(header, rows)
    requires forall row :: row in rows ==> Recent(header, row, now)
    ensures LastWeek(header, rows, now) == rows
  {
    if |rows| > 0 {
      var n := |rows| - 1;
      assert WellFormedRows(header, rows[..n]);
      LastWeekKeepsRecent(header, rows[..n], now);
      assert rows == rows[..n] + [rows[n]];
    }
  }

  /** One point of a category's line: `{ record_time, value: +d[category] }`. */
  datatype Point = Point(time: int, value: real)

  /** `parsedData.map(d => ({ record_time: d.record_time, value: +d[category] }))` for the category in column c. */
  function CategorySeries(header: seq<string>, rows: seq<Row>, c: nat): (points: seq<Point>)
    requires RecordTime in header && WellFormedRows(header, rows)
    requires c < |header| && header[c] != RecordTime
    ensures |points| == |rows|
    ensures forall i :: 0 <= i < |rows| ==> points[i].time == TimeOf(header, rows[i])
    ensures forall i :: 0 <= i < |rows| ==> points[i].value == rows[i][c].value
  {
    seq(|rows|, i requires 0 <= i < |rows| => Point(TimeOf(header, rows[i]), rows[i][c].value))
  }

  /** Every listed column of every row holds a number. */
  ghost predicate NumericColumns(rows: seq<Row>, cols: seq<nat>)
  {
    forall i, k :: 0 <= i < |rows| && 0 <= k < |cols| ==> cols[k] < |rows[i]| && rows[i][cols[k]].Num?
  }

  /** `d3.max(categories, cat => +d[cat])` for one record: undefined when there is no category. */
  function RowMax(row: Row, cols: seq<nat>): (m: Option<real>)
    requires forall k :: 0 <= k < |cols| ==> cols[k] < |row| && row[cols[k]].Num?
    ensures m.None? <==> |cols| == 0
    ensures m.Some? ==> forall k :: 0 <= k < |cols| ==> row[cols[k]].value <= m.value
    ensures m.Some? ==> exists k :: 0 <= k < |cols| && row[cols[k]].value == m.value
  {
    if |cols| == 0 then None
    else
      var n := |cols| - 1;
      var v := row[cols[n]].value;
      match RowMax(row, cols[..n])
      case None => Some(v)
      case Some(m) =>
        if m < v then Some(v)
        else
          assert forall k :: 0 <= k < n ==> cols[..n][k] == cols[k];
          Some(m)
  }

  /**
   * `d3.max(parsedData, d => d3.max(categories, cat => +d[cat]))`: the y domain's upper bound, the largest value
   * of any category in any record; undefined when there is no record or no category.
   */
  function TableMax(rows: seq<Row>, cols: seq<nat>): (m: Option<real>)
    requires NumericColumns(rows, cols)
    ensures m.None? <==> |rows| == 0 || |cols| == 0
    ensures m.Some? ==> forall i, k :: 0 <= i < |rows| && 0 <= k < |cols| ==> rows[i][cols[k]].value <= m.value
    ensures m.Some? ==> exists i, k :: 0 <= i < |rows| && 0 <= k < |cols| && rows[i][cols[k]].value == m.value
  {
    if |rows| == 0 then None
    else
      var n := |rows| - 1;
      assert NumericColumns(rows[..n], cols);
      assert forall i :: 0 <= i < n ==> rows[..n][i] == rows[i];
      var here := RowMax(rows[n], cols);
      match TableMax(rows[..n], cols)
      case None => here
      case Some(m) =>
        if m < here.value then here else Some(m)
  }

  /** `categories.forEach(category => …)`: one series per category column, in column order. */
  function AllSeries(header: seq<string>, rows: seq<Row>): (series: seq<seq<Point>>)
    requires RecordTime in header && WellFormedRows(header, rows)
    ensures |series| == |CategoryColumns(header)|
    ensures forall k :: 0 <= k < |series| ==> |series[k]| == |rows|
    ensures forall k, i :: 0 <= k < |series| && 0 <= i < |rows| ==>
      series[k][i] == Point(TimeOf(header, rows[i]), rows[i][CategoryColumns(header)[k]].value)
  {
    var cols := CategoryColumns(header);
    seq(|cols|, k requires 0 <= k < |cols| => CategorySeries(header, rows, cols[k]))
  }

  /**
   * The y domain's upper bound covers every plotted point and is the value of one of them; it is undefined
   * exactly when there is no record or no category.
   */
  lemma TableMaxBoundsSeries(header: seq<string>, rows: seq<Row>)
    requires RecordTime in header && WellFormedRows(header, rows)
    ensures |AllSeries(header, rows)| == |CategoryColumns(header)|
    ensures TableMax(rows, CategoryColumns(header)).None? <==> |rows| == 0 || |AllSeries(header, rows)| == 0
    ensures TableMax(rows, CategoryColumns(header)).Some? ==>
      forall k, i :: 0 <= k < |AllSeries(header, rows)| && 0 <= i < |rows| ==>
        AllSeries(header, rows)[k][i].value <= TableMax(rows, CategoryColumns(header)).value
    ensures TableMax(rows, CategoryColumns(header)).Some? ==>
      exists k, i :: 0 <= k < |AllSeries(header, rows)| && 0 <= i < |rows| &&
        AllSeries(header, rows)[k][i].value == TableMax(rows, CategoryColumns(header)).value
  {
  }

  /** What renderLineChart draws: the category names, one series per category and the y domain. */
  datatype LineChart = LineChart(categories: seq<string>, series: seq<seq<Point>>, yDomain: (real, Option<real>))

  /**
   * renderLineChart's data preparation: the last seven days' records, the categories taken from the first of
   * them, one series per category and the y domain `[0, max]`. With no recent record, `parsedData[0]` is
   * undefined, `Object.keys` throws and the failure message is shown.
   */
  function PrepareLineChart(t: Table, now: int): (r: Result<LineChart, string>)
    requires Valid(t)
    ensures r.Err? <==> forall row :: row in t.rows ==> !Recent(t.header, row, now)
    ensures r.Err? ==> r.error == LineFailureMessage
    ensures r.Ok? ==> r.value.categories == Categories(t.header)
    ensures r.Ok? ==> r.value.series == AllSeries(t.header, LastWeek(t.header, t.rows, now))
    ensures r.Ok? ==> r.value.yDomain == (0.0, TableMax(LastWeek(t.header, t.rows, now), CategoryColumns(t.header)))
  {
    var kept := LastWeek(t.header, t.rows, now);
    if |kept| == 0 then Err(LineFailureMessage)
    else
      assert kept[0] in kept;
      var cols := CategoryColumns(t.header);
      Ok(LineChart(Categories(t.header), AllSeries(t.header, kept), (0.0, TableMax(kept, cols))))
  }

  /**
   * A drawn line chart has one series per category, one point per recent record in each, and a y domain that
   * starts at 0 and whose upper bound is the largest plotted value (absent when there is no category).
   */
  lemma PrepareLineChartBounds(t: Table, now: int)
    requires Valid(t) && PrepareLineChart(t, now).Ok?
    ensures |PrepareLineChart(t, now).value.series| == |PrepareLineChart(t, now).value.categories|
    ensures PrepareLineChart(t, now).value.yDomain.0 == 0.0
    ensures PrepareLineChart(t, now).value.yDomain.1.None? <==> |PrepareLineChart(t, now).value.categories| == 0
    ensures var chart := PrepareLineChart(t, now).value;
      chart.yDomain.1.Some? ==> forall k, i :: 0 <= k < |chart.series| && 0 <= i < |chart.series[k]| ==>
        chart.series[k][i].value <= chart.yDomain.1.value
  {
    var kept := LastWeek(t.header, t.rows, now);
    assert |kept| > 0;
    TableMaxBoundsSeries(t.header, kept);
  }
}
