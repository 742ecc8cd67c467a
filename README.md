# Category trend charts: data preparation, tick clamp and aggregation

This project models the data-handling core of a small dashboard of Kaggle dataset categories and proves
properties of it in Dafny. The dashboard has three parts:

- `agg_data.py` merges the "hotest" and "most votes" ranking lists. It turns their `ai_category` column into
  frequency proportions and appends them, stamped with the current time, as one record of `data/cate_trends.csv`.
- `js/bubble_chart.js` reads that CSV and picks the record with the latest `record_time`. It rescales the
  record's category proportions so that the largest is 100 and draws one circle per category. Circle area is
  proportional to the rescaled value. A force simulation moves the circles, and on every tick the `ticked` handler
  clamps each circle back inside the container.
- `js/line_bubble_chart.js` does the same with a radius multiplier of `5.4 * width / height`. It also draws one line per
  category over the records of the last seven days.

Modules:

- `CsvTable` (`csv_table.dfy`): a loaded CSV as a header plus rows of cells. A cell is a `record_time` in
  milliseconds or a number. `Object.entries(row)` is modelled as the header zipped with the row. This assumes
  that no category name is integer-like: JavaScript lists such keys first (see "Left out").
- `Snapshot` (`snapshot.dfy`): the normalisation that both JavaScript files contain. The two copies differ only
  in the radius multiplier, which is a parameter here. It covers the
  latest-record `reduce` with its tie rule, the `record_time` filter, `d3.max`, rescaling to 100, the radius
  `sqrt(p) * scale` and the random initial position.
- `Layout` (`layout.dfy`): the simulation nodes as a `Node` class whose `x` and `y` are rewritten in place. It holds the
  `ticked` handler as a method over an array of nodes: one clamping pass for `cx`, one for `cy`, then the label positions.
- `BubbleChart` and `LineBubbleChart` (`bubble_chart.dfy`, `line_bubble_chart.dfy`): each chart's constants, its
  label font size rule, its `try`/`catch` outcome and, for the line chart, the 7-day filter, the category series and
  the y-domain bound.
- `AggData` (`agg_data.dfy`): `merge_json_files`, `calculate_category_proportions` and the decision logic of
  `append_to_csv_file`. The caller's dict is a `PyDict` object that the append updates in place.
- `Results` (`results.dfy`): `Result` and `Option`.

Inputs that the source gets from the environment are parameters:

- `Math.sqrt` is a function `sqrt` constrained by `IsSqrt`: the root is non-negative and squares back to its argument.
- Each `Math.random()` draw is a number in [0, 1).
- `Date.now()` is an integer `now`. The line chart's filter reads the clock once per record; the model reads it once
  for the whole filter (see "Left out").
- The container size is `width` and `height`.
- For `append_to_csv_file`, the existing file is given as its columns and the calendar day of each record, and the
  clock reading is given as the stamp text and its day.

A few behaviours of the source that shape the model:

- An empty series raises no error of its own. The seedless `reduce` throws a TypeError, which the `catch` block
  turns into the failure message. The same happens when no record is recent enough for the line chart. The model
  returns the failure message in both cases.
- A non-numeric field is not rejected: unary `+` makes it NaN. An all-zero record gives `0 / 0`, which is also NaN.
  Reals have no NaN, so the model excludes both inputs (see "Left out").
- On equal timestamps the first record wins, because `reduce` replaces its accumulator only on a strictly later
  time. The model keeps this rule.

## Model

| member | source | states |
|---|---|---|
| CsvTable.TimeColumn | js/bubble_chart.js:40 | the position of the record_time column that `current.record_time` reads (the only one under distinct keys) |
| CsvTable.TimeOfIsRecordTime | js/bubble_chart.js:40 | `new Date(current.record_time)` is the date held in the record's record_time cell |
| CsvTable.CategoryColumns | js/bubble_chart.js:46-47 | exactly the columns other than record_time, in header order |
| CsvTable.CategoryColumnsCount | js/bubble_chart.js:46-48 | with unique keys there are as many categories as columns minus the record_time column |
| CsvTable.Categories | js/line_bubble_chart.js:130 | the category names are the keys other than record_time, in header order; every such key is among them, record_time is not |
| Snapshot.LatestIndex | js/bubble_chart.js:39-41 | the kept record has a record_time at least every other record's, and every earlier record has a strictly earlier time (first wins on ties) |
| Snapshot.Latest | js/bubble_chart.js:39-41 | an error exactly when there is no record, otherwise an index satisfying the latest-record rule |
| Snapshot.LatestIsUnique | js/bubble_chart.js:39-41 | the latest-record rule holds for exactly one index, the one the `reduce` keeps |
| Snapshot.Format | js/bubble_chart.js:46-48 | one item per category column, in column order, with that column's name and the cell's number |
| Snapshot.FormatNames | js/bubble_chart.js:46-48 | the formatted names are the record's categories, in order |
| Snapshot.MaxOfFirst | js/bubble_chart.js:51 | d3.max's left-to-right scan returns one of the scanned proportions and none exceeds it |
| Snapshot.MaxProportion | js/bubble_chart.js:51 | `maxProp` bounds every proportion and is attained |
| Snapshot.MaxProportionIs | js/bubble_chart.js:51 | any attained upper bound is `maxProp` |
| Snapshot.Percent | js/bubble_chart.js:54 | `(p / max) * 100` times max gives back `p * 100` |
| Snapshot.Rescale | js/bubble_chart.js:52-55 | same length and names; each new proportion times the maximum equals the old one times 100 |
| Snapshot.RescaleProperties | js/bubble_chart.js:51-55 | the entry holding the maximum becomes exactly 100; order between any two entries is kept in both directions; non-negative proportions land in [0, 100] |
| Snapshot.RescaledMaxIsHundred | js/bubble_chart.js:51-55 | after rescaling, the maximum is 100 |
| Snapshot.Radius | js/bubble_chart.js:60 | the radius is non-negative and its square is `proportion * scale²` |
| Snapshot.RadiusMonotone | js/bubble_chart.js:60 | with a positive multiplier a larger proportion gets a strictly larger radius |
| Snapshot.Scatter | js/bubble_chart.js:61-62 | a draw in [0, 1) lands in [-0.1·extent, 1.1·extent], strictly below the upper end when the extent is positive |
| Snapshot.FormatOfProportionRow | js/bubble_chart.js:46-51 | on the aggregated data the formatted proportions are non-negative and their maximum is positive |
| Snapshot.RescaleOfProportionRow | js/bubble_chart.js:46-55 | on the aggregated data the rescaled proportions lie in [0, 100] and one of them is 100 |
| Snapshot.Place | js/bubble_chart.js:58-63 | one node per item with its name and proportion, its radius relation, and x and y scattered from that item's pair of draws |
| Snapshot.PlaceRescaled | js/bubble_chart.js:51-63 | placing the rescaled items gives nodes named in order, with the rescaled proportions in [0, 100], one of them 100, and their radii and positions |
| Snapshot.Normalize | js/bubble_chart.js:39-63 | fails, with the empty-`reduce` error, exactly when the table has no record |
| Snapshot.NormalizeCorrect | js/bubble_chart.js:39-63 | a successful run gives one node per category of the latest record, in order, with the category's name, its rescaled proportion in [0, 100] (100 for some node), radius² = proportion·scale² and a start position at most 10% outside the container |
| Layout.Node.constructor | js/bubble_chart.js:58-63 | a node holds the given name, proportion, radius and position |
| Layout.CreateNodes | js/bubble_chart.js:58-63 | one fresh node per initial value, in order, pairwise distinct |
| Layout.Clamp | js/bubble_chart.js:100-101 | the result is at least r; at most extent − r when the circle fits; unchanged when already inside; r when the circle does not fit |
| Layout.ClampIdempotent | js/bubble_chart.js:100-101 | clamping twice equals clamping once |
| Layout.ClampIsNearest | js/bubble_chart.js:100-101 | when the circle fits, the clamped coordinate is the nearest point of [r, extent − r] |
| Layout.ClampMonotone | js/bubble_chart.js:100-101 | clamping keeps the order of coordinates |
| Layout.ClampNode | js/bubble_chart.js:100-101 | name, proportion and r are kept; x and y are clamped into the container; an inside node is unchanged |
| Layout.ClampNodeIdempotent | js/bubble_chart.js:100-101 | a second tick without forces in between changes nothing |
| Layout.ClampNodeInside | js/bubble_chart.js:100-101 | a node whose circle fits is inside the container after a tick |
| Layout.Ticked | js/bubble_chart.js:98-106 | every node becomes its clamped self and no other field changes; labels sit at (x, y + 4); js/line_bubble_chart.js:86-94 is the same handler |
| Layout.ClampAll | js/bubble_chart.js:99-101 | one `cx` or `cy` pass clamps every node's x (or y) and touches nothing else |
| Layout.LabelPositions | js/bubble_chart.js:103-105 | one label per node at (x, y + 4) |
| BubbleChart.FontSize | js/bubble_chart.js:94 | the label size is at most 10 and at most r / 4, and equals one of them |
| BubbleChart.RadiusSquared | js/bubble_chart.js:60 | with multiplier 15, r² = 225 · proportion |
| BubbleChart.Nodes | js/bubble_chart.js:34-109 | the failure message exactly when there is no record, otherwise the normalised nodes with multiplier 15 |
| BubbleChart.Render | js/bubble_chart.js:34-109 | fresh, distinct node objects holding the normalised nodes, or the failure message |
| LineBubbleChart.RadiusScale | js/line_bubble_chart.js:53 | the multiplier times the height is 5.4 · width; non-negative, and positive for a positive width |
| LineBubbleChart.RadiusMonotoneInContainer | js/line_bubble_chart.js:53 | in a container of positive size a larger proportion gets a strictly larger radius |
| LineBubbleChart.FontSize | js/line_bubble_chart.js:83 | the label size is never below 8 nor below r / 8, and equals one of them |
| LineBubbleChart.BubbleNodes | js/line_bubble_chart.js:35-56 | the same normalisation and tie rule as the standalone chart, with multiplier 5.4 · width / height |
| LineBubbleChart.RenderBubbleChart | js/line_bubble_chart.js:35-97 | fresh, distinct node objects holding those nodes, or the failure message |
| LineBubbleChart.Recent | js/line_bubble_chart.js:128 | a record is recent exactly when it was made at most 604800000 ms (seven days) before now |
| LineBubbleChart.LastWeek | js/line_bubble_chart.js:125-128 | a record is kept if and only if it is in the table and its time is at least now minus seven days |
| LineBubbleChart.LastWeekAppend | js/line_bubble_chart.js:125-128 | filtering commutes with concatenation, so kept records stay in their original order |
| LineBubbleChart.LastWeekKeepsRecent | js/line_bubble_chart.js:125-128 | a table of recent records is kept whole |
| LineBubbleChart.CategorySeries | js/line_bubble_chart.js:166-169 | one point per kept record, in order, with its time and the category's value |
| LineBubbleChart.RowMax | js/line_bubble_chart.js:138 | the inner `d3.max` is undefined exactly when there is no category, else bounds every category value and is attained |
| LineBubbleChart.TableMax | js/line_bubble_chart.js:138 | the outer `d3.max` is undefined exactly when there is no record or no category, else bounds every value and is attained |
| LineBubbleChart.AllSeries | js/line_bubble_chart.js:165-169 | one series per category column, each with one point per record |
| LineBubbleChart.TableMaxBoundsSeries | js/line_bubble_chart.js:137-169 | every plotted point lies at or below the y bound, and some point reaches it |
| LineBubbleChart.PrepareLineChart | js/line_bubble_chart.js:123-181 | the failure message exactly when no record is recent; otherwise the categories, the series of the recent records and the domain [0, max] |
| LineBubbleChart.PrepareLineChartBounds | js/line_bubble_chart.js:137-169 | one series per category; the domain starts at 0; its bound is absent only without categories and covers every plotted value |
| AggData.Tag | agg_data.py:25-26 | every record tagged with the given ranking type, in order |
| AggData.Merge | agg_data.py:25-29 | the hotest rows tagged 'hotest' followed by the upvote rows tagged 'upvote'; length is the sum |
| AggData.MergeRecovers | agg_data.py:25-29 | selecting the merged rows by tag gives back each input list in order |
| AggData.DistinctCategories | agg_data.py:43 | each category that occurs appears once |
| AggData.Proportions | agg_data.py:43 | KeyError exactly when no record has an ai_category; otherwise the keys are exactly the categories that occur |
| AggData.CountBounds | agg_data.py:43 | a category's count is at most the non-null total and positive when it occurs |
| AggData.ProportionsAreShares | agg_data.py:43 | each value is the category's count over the number of non-null rows |
| AggData.ProportionsInRange | agg_data.py:43 | each proportion lies in (0, 1] |
| AggData.SumCountsDistinctCategories | agg_data.py:43 | the counts of the distinct categories add up to the non-null total |
| AggData.ProportionsSumToOne | agg_data.py:43 | the proportions sum to 1 when some row has a category |
| AggData.Get | agg_data.py:76 | a lookup fails exactly for an absent key and otherwise returns a stored entry |
| AggData.SetItem | agg_data.py:55 | an existing key is overwritten in place; a new key is appended; other entries are kept |
| AggData.SetItemGet | agg_data.py:55 | after the assignment the key maps to the new value, other keys to their old ones, and keys stay unique |
| AggData.LatestDay | agg_data.py:63 | the latest record day, absent for a file without records |
| AggData.ColumnSet | agg_data.py:67 | the set of column names |
| AggData.Reindex | agg_data.py:76 | position i of the record holds the dict's value for the file's i-th column |
| AggData.Decide | agg_data.py:58-80 | no file: write with a header in dict order. File without record_time: KeyError. Different column set: ValueError. Latest day equals today: skip. Otherwise write in the file's column order without a header |
| AggData.PyDict.constructor | agg_data.py:46 | the caller's dict holds the given entries, with unique keys |
| AggData.AppendToCsvFile | agg_data.py:46-80 | the caller's dict keeps unique keys and has record_time set to the stamp on every path, errors and skips included; the outcome is the decision on the stamped dict |
| AggData.AppendedLinesUp | agg_data.py:76-80 | a written record carries, column by column, the stamp under record_time and the dict's value elsewhere |

## Left out

- The d3 force simulation is left out: `forceSimulation`, `forceCenter`, `forceCollide`, `forceX`/`forceY` and
  `alphaDecay`. It is a library's iterative floating-point physics whose code is not part of this model. Only the
  clamp applied on each tick is modelled.
- SVG and DOM work is left out: creating elements, colours, `innerHTML`, the d3 time and linear scales (including
  `.nice()` and the x extent), axes, `curveCatmullRom`, and the resize and DOMContentLoaded listeners.
- `d3.csv`, `fetch`, `Date` string parsing and the `strftime`/`to_datetime` formatting are left out. Timestamps are
  integers, and the day of a stamp is given alongside it.
- File I/O in agg_data.py is left out: `json.load`, `os.path.exists`, `read_csv` and `to_csv`. The file's state is an
  input and the lines to append are the output. An empty or unreadable CSV is not modelled.
- fetch_kaggle.py and ai_categorization.py are not part of this model. They hold network calls to Kaggle and Gemini.
- Python dict order of `value_counts(normalize=True).to_dict()` (descending count) is not modelled. The result is a
  Dafny map, and sums run over the categories in first-appearance order.
- Floating point is left out: values are exact reals, so rounding in the division, the square root and the sums is
  not modelled.
- Snapshot.Rescale: requires a positive maximum for a non-empty record. The source divides by the maximum, and a zero
  maximum gives NaN proportions, which reals cannot represent.
- Snapshot.Normalize: requires the aggregated data's shape. Every category value must be non-negative, and each
  record must have a positive one when it has categories. Non-numeric fields (NaN after `+`) are not modelled.
- Snapshot.Normalize: takes exactly one pair of random draws per category, in node order.
- LineBubbleChart.RadiusScale: requires a positive height. A zero-height container makes the source divide by zero and
  draw radii of Infinity or NaN.
- LineBubbleChart.LastWeek: the source calls `Date.now()` inside the `.filter` callback, once per record, so the cutoff
  can move forward while the filter runs. The model compares every record with one reading `now`. A record that the
  clock passes during the filter is kept by the model but dropped by the source.
- LineBubbleChart.PrepareLineChart: its failure condition and its series come from LastWeek, so they use the same single
  reading `now` where the source reads `Date.now()` once per record.
- LineBubbleChart.PrepareLineChart: the stroke colour `d3.schemeCategory10[index]` is left out. It is undefined beyond
  ten categories.
- AggData.Proportions: a category value that is not a string (a number, a list) is not distinguished from a name.
  Only an absent key, null and a name are modelled.
- The reordering of integer-like keys by `Object.entries` and `Object.keys` is not modelled: rows and category lists
  follow header order. The category names come unchecked from a language model's reply, so a name such as "2024"
  would be listed first by the charts.
- AggData.Decide: pandas' renaming of duplicate CSV column names is not modelled.
