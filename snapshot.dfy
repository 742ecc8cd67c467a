/**
 * Snapshot normalisation, written out in both js/bubble_chart.js and renderBubbleChart of js/line_bubble_chart.js,
 * which differ only in the radius multiplier (a parameter here): pick the latest record, turn its category fields into (name, proportion) items,
 * rescale them so that the largest is 100, and give each a radius and a random initial position.
 */
module Snapshot {
  import opened Results
  import opened CsvTable

  /** `{ name, proportion }`: one category of the latest record. */
  datatype Item = Item(name: string, proportion: real)

  /** A node as created before the simulation starts: `{ name, proportion, r, x, y }`. */
  datatype NodeInit = NodeInit(name: string, proportion: real, r: real, x: real, y: real)

  /** What the chart's `try` block can throw. */
  datatype ChartError =
    | EmptyReduce  // `reduce` of an empty array without an initial value throws a TypeError

  /**
   * The seedless `reduce` that keeps the record with the greatest record_time: the accumulator starts at the
   * first record and is replaced only by a strictly later one. The result is the index of the record kept.
   */
  function LatestIndex(header: seq<string>, rows: seq<Row>): (k: nat)
    requires RecordTime in header && |rows| > 0 && WellFormedRows(header, rows)
    ensures k < |rows|
    ensures forall j :: 0 <= j < |rows| ==> TimeOf(header, rows[j]) <= TimeOf(header, rows[k])
    ensures forall j :: 0 <= j < k ==> TimeOf(header, rows[j]) < TimeOf(header, rows[k])
  {
    if |rows| == 1 then 0
    else
      var n := |rows| - 1;
      var acc := LatestIndex(header, rows[..n]);
      if TimeOf(header, rows[n]) > TimeOf(header, rows[acc]) then n else acc
  }

  /** The latest record's index, or the TypeError that the seedless `reduce` throws on an empty table. */
  function Latest(t: Table): (r: Result<nat, ChartError>)
    requires Valid(t)
    ensures r.Err? <==> |t.rows| == 0
    ensures r.Err? ==> r.error == EmptyReduce
    ensures r.Ok? ==> r.value < |t.rows| && IsLatest(t.header, t.rows, r.value)
  {
    if |t.rows| == 0 then Err(EmptyReduce) else Ok(LatestIndex(t.header, t.rows))
  }

  /** Record k has the greatest record_time, and every earlier record an earlier one (the first on a tie). */
  ghost predicate IsLatest(header: seq<string>, rows: seq<Row>, k: nat)
    requires RecordTime in header && WellFormedRows(header, rows) && k < |rows|
  {
    (forall j :: 0 <= j < |rows| ==> TimeOf(header, rows[j]) <= TimeOf(header, rows[k])) &&
    (forall j :: 0 <= j < k ==> TimeOf(header, rows[j]) < TimeOf(header, rows[k]))
  }

  /** The tie rule pins the record down: exactly one index satisfies IsLatest, the one the `reduce` keeps. */
  lemma LatestIsUnique(header: seq<string>, rows: seq<Row>, k: nat)
    requires RecordTime in header && |rows| > 0 && WellFormedRows(header, rows) && k < |rows|
    ensures IsLatest(header, rows, k) <==> k == LatestIndex(header, rows)
  {
  }

  /**
   * `Object.entries(latest).filter(key !== "record_time").map(([name, p]) => ({ name, proportion: +p }))`:
   * one item per category column, in column order, carrying the column name and the cell's number.
   */
  function Format(header: seq<string>, row: Row): (items: seq<Item>)
    requires WellFormedRow(header, row)
    ensures |items| == |CategoryColumns(header)|
    ensures forall i :: 0 <= i < |items| ==>
      var c := CategoryColumns(header)[i]; items[i] == Item(header[c], row[c].value)
  {
    if |header| == 0 then []
    else
      var n := |header| - 1;
      var prev := Format(header[..n], row[..n]);
      if header[n] == RecordTime then prev else prev + [Item(header[n], row[n].value)]
  }

  /** The names of the formatted items are the record's categories, in order. */
  lemma FormatNames(header: seq<string>, row: Row)
    requires WellFormedRow(header, row)
    ensures |Format(header, row)| == |Categories(header)|
    ensures forall i :: 0 <= i < |Format(header, row)| ==> Format(header, row)[i].name == Categories(header)[i]
  {
  }

  /** `d3.max(items, d => d.proportion)` on a non-empty list: one of the proportions, and none exceeds it. */
  function MaxProportion(items: seq<Item>): (m: real)
    requires |items| > 0
    ensures forall i :: 0 <= i < |items| ==> items[i].proportion <= m
    ensures exists i :: 0 <= i < |items| && items[i].proportion == m
  {
    MaxOfFirst(items, |items|)
  }

  /**
   * d3.max's scan over the first n proportions, replacing the running maximum only by a larger value: the
   * result is one of them, and none of them exceeds it.
   */
  function MaxOfFirst(items: seq<Item>, n: nat): (m: real)
    requires 0 < n <= |items|
    ensures forall i :: 0 <= i < n ==> items[i].proportion <= m
    ensures exists i :: 0 <= i < n && items[i].proportion == m
  {
    if n == 1 then
      assert items[0].proportion == items[0].proportion;
      items[0].proportion
    else
      var m := MaxOfFirst(items, n - 1);
      if m < items[n - 1].proportion then
        assert items[n - 1].proportion == items[n - 1].proportion;
        items[n - 1].proportion
      else m
  }

  /** A value that is attained and bounds every proportion is the maximum. */
  lemma MaxProportionIs(items: seq<Item>, v: real)
    requires |items| > 0
    requires forall i :: 0 <= i < |items| ==> items[i].proportion <= v
    requires exists i :: 0 <= i < |items| && items[i].proportion == v
    ensures MaxProportion(items) == v
  {
    var i :| 0 <= i < |items| && items[i].proportion == v;
    var j :| 0 <= j < |items| && items[j].proportion == MaxProportion(items);
    assert items[j].proportion <= v && v <= MaxProportion(items);
  }

  /** `(p / max) * 100`: p's share of the maximum, as a percentage. */
  function Percent(p: real, max: real): (s: real)
    requires 0.0 < max
    ensures s * max == p * 100.0
  {
    p / max * 100.0
  }

  /**
   * `formattedData.map(d => ({ name: d.name, proportion: (d.proportion / maxProp) * 100 }))`. The source
   * divides by the maximum, so a non-empty list must have a positive maximum; an empty list maps to itself.
   */
  function Rescale(items: seq<Item>): (scaled: seq<Item>)
    requires |items| == 0 || MaxProportion(items) > 0.0
    ensures |scaled| == |items|
    ensures forall i :: 0 <= i < |items| ==> scaled[i].name == items[i].name
    ensures |items| > 0 ==> var m := MaxProportion(items);
      forall i :: 0 <= i < |items| ==> scaled[i].proportion * m == items[i].proportion * 100.0
  {
    if |items| == 0 then []
    else
      var m := MaxProportion(items);
      seq(|items|, i requires 0 <= i < |items| => Item(items[i].name, Percent(items[i].proportion, m)))
  }

  /** If a and b are p and q scaled by the same positive factor, they are in the same order. */
  lemma OrderOfScaled(p: real, q: real, a: real, b: real, m: real)
    requires 0.0 < m && a * m == p * 100.0 && b * m == q * 100.0
    ensures p < q <==> a < b
  {
  }

  /** What `s * m == p * 100` with a positive m says about s. */
  lemma ScaledFacts(p: real, s: real, m: real)
    requires 0.0 < m && s * m == p * 100.0
    ensures p == m ==> s == 100.0
    ensures 0.0 <= p <= m ==> 0.0 <= s <= 100.0
  {
  }

  /**
   * Rescaling keeps the order of the proportions, gives exactly 100 to every item holding the maximum, and maps
   * every non-negative proportion into [0, 100].
   */
  lemma RescaleProperties(items: seq<Item>)
    requires |items| > 0 && MaxProportion(items) > 0.0
    ensures |Rescale(items)| == |items|
    ensures forall i :: 0 <= i < |items| && items[i].proportion == MaxProportion(items) ==>
      Rescale(items)[i].proportion == 100.0
    ensures forall i, j :: 0 <= i < |items| && 0 <= j < |items| ==>
      (items[i].proportion < items[j].proportion <==> Rescale(items)[i].proportion < Rescale(items)[j].proportion)
    ensures forall i :: 0 <= i < |items| && 0.0 <= items[i].proportion ==>
      0.0 <= Rescale(items)[i].proportion <= 100.0
  {
    RescaleFacts(items, MaxProportion(items), Rescale(items));
  }

  /** Rescale's properties for a list `scaled` related to `items` by `s * m == p * 100`, m a positive upper bound. */
  lemma RescaleFacts(items: seq<Item>, m: real, scaled: seq<Item>)
    requires 0.0 < m && |scaled| == |items|
    requires forall i :: 0 <= i < |items| ==> items[i].proportion <= m
    requires forall i :: 0 <= i < |items| ==> scaled[i].proportion * m == items[i].proportion * 100.0
    ensures forall i :: 0 <= i < |items| && items[i].proportion == m ==> scaled[i].proportion == 100.0
    ensures forall i, j :: 0 <= i < |items| && 0 <= j < |items| ==>
      (items[i].proportion < items[j].proportion <==> scaled[i].proportion < scaled[j].proportion)
    ensures forall i :: 0 <= i < |items| && 0.0 <= items[i].proportion ==> 0.0 <= scaled[i].proportion <= 100.0
  {
    forall i | 0 <= i < |items|
      ensures items[i].proportion == m ==> scaled[i].proportion == 100.0
      ensures 0.0 <= items[i].proportion ==> 0.0 <= scaled[i].proportion <= 100.0
    {
      ScaledFacts(items[i].proportion, scaled[i].proportion, m);
    }
    forall i, j | 0 <= i < |items| && 0 <= j < |items|
      ensures items[i].proportion < items[j].proportion <==> scaled[i].proportion < scaled[j].proportion
    {
      OrderOfScaled(items[i].proportion, items[j].proportion, scaled[i].proportion, scaled[j].proportion, m);
    }
  }

  /** Rescaling makes the largest proportion exactly 100. */
  lemma RescaledMaxIsHundred(items: seq<Item>)
    requires |items| == 0 || MaxProportion(items) > 0.0
    ensures |items| > 0 ==> MaxProportion(Rescale(items)) == 100.0
  {
    if |items| == 0 { return; }
    var scaled := Rescale(items);
    RescaleProperties(items);
    var k :| 0 <= k < |items| && items[k].proportion == MaxProportion(items);
    forall i | 0 <= i < |items| ensures scaled[i].proportion <= 100.0 {
      assert !(items[k].proportion < items[i].proportion);
    }
    MaxProportionIs(scaled, 100.0);
  }

  /** `Math.sqrt` on the values it is applied to: the non-negative root. */
  ghost predicate IsSqrt(sqrt: real -> real)
  {
    forall p :: 0.0 <= p ==> 0.0 <= sqrt(p) && sqrt(p) * sqrt(p) == p
  }

  /** `Math.sqrt(proportion) * scale`: the circle's area grows with the proportion. */
  function Radius(sqrt: real -> real, proportion: real, scale: real): (r: real)
    requires IsSqrt(sqrt) && 0.0 <= proportion && 0.0 <= scale
    ensures 0.0 <= r
    ensures r * r == proportion * scale * scale
  {
    var root := sqrt(proportion);
    assert root * root == proportion;
    assert (root * scale) * (root * scale) == (root * root) * (scale * scale);
    root * scale
  }

  /** A larger proportion gets a strictly larger radius when the scale is positive. */
  lemma RadiusMonotone(sqrt: real -> real, p: real, q: real, scale: real)
    requires IsSqrt(sqrt) && 0.0 <= p < q && 0.0 < scale
    ensures Radius(sqrt, p, scale) < Radius(sqrt, q, scale)
  {
    assert sqrt(p) * sqrt(p) == p && sqrt(q) * sqrt(q) == q;
    SquareMonotone(sqrt(p), sqrt(q));
  }

  /** Between non-negative numbers, a smaller square means a smaller number. */
  lemma SquareMonotone(a: real, b: real)
    requires 0.0 <= a && 0.0 <= b && a * a < b * b
    ensures a < b
  {
  }

  /**
   * `Math.random() * (extent * 1.2) - extent * 0.1`: a draw u in [0, 1) lands 10% beyond either edge at most,
   * and strictly short of the far limit when the container is not empty.
   */
  function Scatter(u: real, extent: real): (p: real)
    requires 0.0 <= u < 1.0 && 0.0 <= extent
    ensures -extent / 10.0 <= p <= extent * 11.0 / 10.0
    ensures 0.0 < extent ==> p < extent * 11.0 / 10.0
  {
    assert 0.0 <= u * extent <= extent;
    assert 0.0 < extent ==> u * extent < extent;
    u * (extent * 1.2) - extent * 0.1
  }

  /** One random draw per node, for x and for y. */
  ghost predicate ValidDraws(draws: seq<(real, real)>)
  {
    forall i :: 0 <= i < |draws| ==> 0.0 <= draws[i].0 < 1.0 && 0.0 <= draws[i].1 < 1.0
  }

  /** The data the charts read: every category value is non-negative and each record has a positive one. */
  ghost predicate ProportionTable(t: Table)
    requires Valid(t)
  {
    forall row: Row :: row in t.rows ==>
      (forall k :: 0 <= k < |t.header| && t.header[k] != RecordTime ==> 0.0 <= row[k].value) &&
      (|CategoryColumns(t.header)| == 0 ||
       exists k :: 0 <= k < |t.header| && t.header[k] != RecordTime && 0.0 < row[k].value)
  }

  /** The formatted items of a proportion row are non-negative and, if there are any, have a positive maximum. */
  lemma FormatOfProportionRow(t: Table, row: Row)
    requires Valid(t) && ProportionTable(t) && row in t.rows
    ensures forall i :: 0 <= i < |Format(t.header, row)| ==> 0.0 <= Format(t.header, row)[i].proportion
    ensures |Format(t.header, row)| > 0 ==> MaxProportion(Format(t.header, row)) > 0.0
  {
    var items := Format(t.header, row);
    var cols := CategoryColumns(t.header);
    if |items| > 0 {
      var k :| 0 <= k < |t.header| && t.header[k] != RecordTime && 0.0 < row[k].value;
      var i :| 0 <= i < |cols| && cols[i] == k;
      assert items[i].proportion == row[k].value;
    }
  }

  /** The rescaled items of a proportion row lie in [0, 100] and, if there are any, one of them is 100. */
  lemma RescaleOfProportionRow(t: Table, row: Row)
    requires Valid(t) && ProportionTable(t) && row in t.rows
    ensures |Format(t.header, row)| == 0 || MaxProportion(Format(t.header, row)) > 0.0
    ensures |Rescale(Format(t.header, row))| == |Format(t.header, row)|
    ensures forall i :: 0 <= i < |Rescale(Format(t.header, row))| ==>
      0.0 <= Rescale(Format(t.header, row))[i].proportion <= 100.0
    ensures |Rescale(Format(t.header, row))| > 0 ==>
      exists i :: 0 <= i < |Rescale(Format(t.header, row))| && Rescale(Format(t.header, row))[i].proportion == 100.0
  {
    var items := Format(t.header, row);
    FormatOfProportionRow(t, row);
    if |items| > 0 {
      RescaleProperties(items);
      var k :| 0 <= k < |items| && items[k].proportion == MaxProportion(items);
      assert Rescale(items)[k].proportion == 100.0;
    }
  }

  /**
   * `rescaledData.map(d => ({ ...d, r: Math.sqrt(d.proportion) * scale, x: …, y: … }))`: each item keeps its
   * name and proportion and gets a radius whose square is `proportion * scale²` and a scattered position.
   */
  function Place(scaled: seq<Item>, sqrt: real -> real, scale: real, width: real, height: real,
                 draws: seq<(real, real)>): (nodes: seq<NodeInit>)
    requires IsSqrt(sqrt) && 0.0 <= scale && 0.0 <= width && 0.0 <= height
    requires forall i :: 0 <= i < |scaled| ==> 0.0 <= scaled[i].proportion
    requires ValidDraws(draws) && |draws| == |scaled|
    ensures |nodes| == |scaled|
    ensures forall i :: 0 <= i < |nodes| ==>
      nodes[i].name == scaled[i].name && nodes[i].proportion == scaled[i].proportion
    ensures forall i :: 0 <= i < |nodes| ==>
      nodes[i].x == Scatter(draws[i].0, width) && nodes[i].y == Scatter(draws[i].1, height)
    ensures Placed(nodes, scale, width, height)
  {
    seq(|scaled|, i requires 0 <= i < |scaled| =>
      NodeInit(scaled[i].name, scaled[i].proportion,
               Radius(sqrt, scaled[i].proportion, scale),
               Scatter(draws[i].0, width), Scatter(draws[i].1, height)))
  }

  /**
   * The whole normalisation: the latest record's categories, rescaled to a maximum of 100, each with a radius
   * `sqrt(p) * scale` and an initial position drawn from `draws`, or the error the empty `reduce` throws.
   */
  function Normalize(t: Table, sqrt: real -> real, scale: real, width: real, height: real,
                     draws: seq<(real, real)>): (r: Result<seq<NodeInit>, ChartError>)
    requires Valid(t) && ProportionTable(t) && IsSqrt(sqrt)
    requires 0.0 <= scale && 0.0 <= width && 0.0 <= height
    requires ValidDraws(draws) && |draws| == |CategoryColumns(t.header)|
    ensures r.Err? <==> |t.rows| == 0
    ensures r.Err? ==> r.error == EmptyReduce
  {
    match Latest(t)
    case Err(e) => Err(e)
    case Ok(k) =>
      var items := Format(t.header, t.rows[k]);
      RescaleOfProportionRow(t, t.rows[k]);
      Ok(Place(Rescale(items), sqrt, scale, width, height, draws))
  }

  /**
   * A successful normalisation yields nodes satisfying NormalizedFrom: the latest record's categories, rescaled,
   * with their radii and start positions.
   */
  lemma NormalizeCorrect(t: Table, sqrt: real -> real, scale: real, width: real, height: real,
                         draws: seq<(real, real)>)
    requires Valid(t) && ProportionTable(t) && IsSqrt(sqrt)
    requires 0.0 <= scale && 0.0 <= width && 0.0 <= height
    requires ValidDraws(draws) && |draws| == |CategoryColumns(t.header)|
    requires |t.rows| > 0
    ensures Normalize(t, sqrt, scale, width, height, draws).Ok?
    ensures NormalizedFrom(t, Normalize(t, sqrt, scale, width, height, draws).value, scale, width, height)
  {
    var k := LatestIndex(t.header, t.rows);
    var items := Format(t.header, t.rows[k]);
    FormatOfProportionRow(t, t.rows[k]);
    FormatNames(t.header, t.rows[k]);
    PlaceRescaled(items, Categories(t.header), sqrt, scale, width, height, draws);
  }

  /** Placing the rescaled items gives nodes that are rescaled from them, named after `names`, and placed. */
  lemma PlaceRescaled(items: seq<Item>, names: seq<string>, sqrt: real -> real, scale: real, width: real,
                      height: real, draws: seq<(real, real)>)
    requires IsSqrt(sqrt) && 0.0 <= scale && 0.0 <= width && 0.0 <= height
    requires |names| == |items| && forall i :: 0 <= i < |items| ==> items[i].name == names[i]
    requires forall i :: 0 <= i < |items| ==> 0.0 <= items[i].proportion
    requires |items| > 0 ==> MaxProportion(items) > 0.0
    requires ValidDraws(draws) && |draws| == |items|
    ensures RescaledFrom(items, names, Place(Rescale(items), sqrt, scale, width, height, draws))
    ensures Placed(Place(Rescale(items), sqrt, scale, width, height, draws), scale, width, height)
  {
    var scaled := Rescale(items);
    if |items| > 0 {
      RescaleProperties(items);
      var k :| 0 <= k < |items| && items[k].proportion == MaxProportion(items);
      assert scaled[k].proportion == 100.0;
    }
    var nodes := Place(scaled, sqrt, scale, width, height, draws);
    assert |nodes| > 0 ==> exists i :: 0 <= i < |nodes| && nodes[i].proportion == 100.0;
  }

  /**
   * The nodes made from the latest record: one per category, in column order, carrying the category's name
   * and its rescaled proportion, which lies in [0, 100] and is 100 for some node; a radius whose square is
   * `proportion * scale²`; and a position at most 10% outside the container.
   */
  ghost predicate NormalizedFrom(t: Table, nodes: seq<NodeInit>, scale: real, width: real, height: real)
    requires Valid(t)
  {
    |t.rows| > 0 &&
    RescaledFrom(Format(t.header, t.rows[LatestIndex(t.header, t.rows)]), Categories(t.header), nodes) &&
    Placed(nodes, scale, width, height)
  }

  /** The nodes carry, in order, the given names and the items' proportions rescaled to a maximum of 100. */
  ghost predicate RescaledFrom(items: seq<Item>, names: seq<string>, nodes: seq<NodeInit>)
  {
    |nodes| == |items| == |names| &&
    (|items| == 0 || MaxProportion(items) > 0.0) &&
    (forall i :: 0 <= i < |nodes| ==> nodes[i].name == names[i]) &&
    (forall i :: 0 <= i < |nodes| ==> nodes[i].proportion == Rescale(items)[i].proportion) &&
    (forall i :: 0 <= i < |nodes| ==> 0.0 <= nodes[i].proportion <= 100.0) &&
    (|nodes| > 0 ==> exists i :: 0 <= i < |nodes| && nodes[i].proportion == 100.0)
  }

  /** Each node's radius squared is `proportion * scale²`, and it starts at most 10% outside the container. */
  ghost predicate Placed(nodes: seq<NodeInit>, scale: real, width: real, height: real)
  {
    (forall i :: 0 <= i < |nodes| ==>
      0.0 <= nodes[i].r && nodes[i].r * nodes[i].r == nodes[i].proportion * scale * scale) &&
    (forall i :: 0 <= i < |nodes| ==>
      -width / 10.0 <= nodes[i].x <= width * 11.0 / 10.0 &&
      -height / 10.0 <= nodes[i].y <= height * 11.0 / 10.0)
  }
}
