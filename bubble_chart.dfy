/**
 * js/bubble_chart.js: the standalone bubble chart. It normalises the latest record with a radius multiplier of
 * 15, creates the simulation nodes, labels them with `min(r / 4, 10)` pixel text, and shows a failure message
 * when the `try` block throws.
 */
module BubbleChart {
  import opened Results
  import opened CsvTable
  import opened Snapshot
  import opened Layout

  /** The radius multiplier: `Math.sqrt(d.proportion) * 15`. */
  const RadiusScale: real := 15.0

  /** What the `catch` block writes into the chart's container. */
  const FailureMessage: string := "Failed to load bubble chart data."

  /** `Math.min(d.r / 4, 10)`: the label's font size, a quarter of the radius but never above 10 pixels. */
  function FontSize(r: real): (size: real)
    ensures size <= 10.0 && size <= r / 4.0
    ensures size == 10.0 || size == r / 4.0
  {
    if r / 4.0 < 10.0 then r / 4.0 else 10.0
  }

  /** Each node's circle area is proportional to its rescaled proportion: `r * r == 225 * proportion`. */
  lemma RadiusSquared(sqrt: real -> real, p: real)
    requires IsSqrt(sqrt) && 0.0 <= p
    ensures Radius(sqrt, p, RadiusScale) * Radius(sqrt, p, RadiusScale) == 225.0 * p
  {
  }

  /** The nodes of the chart, or the failure message when the table has no record. */
  function Nodes(t: Table, sqrt: real -> real, width: real, height: real, draws: seq<(real, real)>)
    : (r: Result<seq<NodeInit>, string>)
    requires Valid(t) && ProportionTable(t) && IsSqrt(sqrt) && 0.0 <= width && 0.0 <= height
    requires ValidDraws(draws) && |draws| == |CategoryColumns(t.header)|
    ensures r.Err? <==> |t.rows| == 0
    ensures r.Err? ==> r.error == FailureMessage
    ensures r.Ok? ==> NormalizedFrom(t, r.value, RadiusScale, width, height)
  {
    match Normalize(t, sqrt, RadiusScale, width, height, draws)
    case Err(_) => Err(FailureMessage)
    case Ok(nodes) =>
      NormalizeCorrect(t, sqrt, RadiusScale, width, height, draws);
      Ok(nodes)
  }

  /**
   * The `try` block up to the simulation: the latest record normalised into freshly allocated nodes, or the
   * failure message when the seedless `reduce` throws on an empty table.
   */
  method Render(t: Table, sqrt: real -> real, width: real, height: real, draws: seq<(real, real)>)
    returns (r: Result<array<Node>, string>)
    requires Valid(t) && ProportionTable(t) && IsSqrt(sqrt) && 0.0 <= width && 0.0 <= height
    requires ValidDraws(draws) && |draws| == |CategoryColumns(t.header)|
    ensures r.Err? <==> |t.rows| == 0
    ensures r.Err? ==> r.error == FailureMessage
    ensures r.Ok? ==> fresh(r.value) && Distinct(r.value)
    ensures r.Ok? ==> NormalizedFrom(t, Values(r.value), RadiusScale, width, height)
  {
    match Nodes(t, sqrt, width, height, draws)
    case Err(e) =>
      r := Err(e);
    case Ok(inits) =>
      var nodes := CreateNodes(inits);
      r := Ok(nodes);
  }
}
