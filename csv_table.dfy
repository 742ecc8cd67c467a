/**
 * The category-trend table that both charts load from data/cate_trends.csv.
 *
 * d3.csv turns every line into an object whose keys are the header's column names, so a row is modelled as one
 * cell per header column. JavaScript lists an object's integer-like keys first; the model assumes that no category
 * name is integer-like, so that `Object.entries(row)` and `Object.keys(row)` follow header order. The record_time column holds a date, which the charts compare as
 * milliseconds; every other column holds one category's proportion, which the charts coerce with unary `+`.
 */
module CsvTable {

  /** The name of the timestamp column. */
  const RecordTime: string := "record_time"

  /** One parsed cell: a record_time date in milliseconds, or a category's numeric value. */
  datatype Cell = Stamp(millis: int) | Num(value: real)

  type Row = seq<Cell>

  datatype Table = Table(header: seq<string>, rows: seq<Row>)

  /** Object keys are unique. */
  ghost predicate DistinctKeys(header: seq<string>)
  {
    forall i, j :: 0 <= i < j < |header| ==> header[i] != header[j]
  }

  /** A row has one cell per column; the record_time cell is a date and every other cell a number. */
  ghost predicate WellFormedRow(header: seq<string>, row: Row)
  {
    |row| == |header| &&
    forall i :: 0 <= i < |row| ==> (row[i].Stamp? <==> header[i] == RecordTime)
  }

  ghost predicate WellFormedRows(header: seq<string>, rows: seq<Row>)
  {
    forall i :: 0 <= i < |rows| ==> WellFormedRow(header, rows[i])
  }

  /** A table as written by the aggregation script: distinct columns, one of them record_time. */
  ghost predicate Valid(t: Table)
  {
    RecordTime in t.header && DistinctKeys(t.header) && WellFormedRows(t.header, t.rows)
  }

  /**
   * The position of the record_time column, which `row.record_time` reads. Under Valid the header has exactly
   * one such column.
   */
  function TimeColumn(header: seq<string>): (k: nat)
    requires RecordTime in header
    ensures k < |header| && header[k] == RecordTime
    ensures forall j :: 0 <= j < k ==> header[j] != RecordTime
  {
    if header[0] == RecordTime then 0 else 1 + TimeColumn(header[1..])
  }

  /** `new Date(row.record_time)`, as milliseconds. */
  function TimeOf(header: seq<string>, row: Row): int
    requires RecordTime in header && WellFormedRow(header, row)
  {
    row[TimeColumn(header)].millis
  }

  /** With distinct keys, TimeOf is the date held in the row's one record_time cell. */
  lemma TimeOfIsRecordTime(header: seq<string>, row: Row)
    requires DistinctKeys(header) && RecordTime in header && WellFormedRow(header, row)
    ensures forall k :: 0 <= k < |header| && header[k] == RecordTime ==> row[k] == Stamp(TimeOf(header, row))
  {
  }

  /**
   * The positions of the category columns: every column except record_time, in header order. This is the
   * `key !== "record_time"` filter that both charts apply to a record's keys.
   */
  function CategoryColumns(header: seq<string>): (cols: seq<nat>)
    ensures forall i :: 0 <= i < |cols| ==> cols[i] < |header| && header[cols[i]] != RecordTime
    ensures forall i, j :: 0 <= i < j < |cols| ==> cols[i] < cols[j]
    ensures forall k :: 0 <= k < |header| && header[k] != RecordTime ==> k in cols
  {
    if |header| == 0 then []
    else
      var n := |header| - 1;
      var prev := CategoryColumns(header[..n]);
      if header[n] == RecordTime then prev else prev + [n]
  }

  /** A header with a single record_time column has exactly one fewer category columns than columns. */
  lemma {:induction false} CategoryColumnsCount(header: seq<string>)
    requires DistinctKeys(header)
    ensures |CategoryColumns(header)| == if RecordTime in header then |header| - 1 else |header|
  {
    if |header| > 0 {
      var n := |header| - 1;
      assert DistinctKeys(header[..n]);
      CategoryColumnsCount(header[..n]);
      if header[n] == RecordTime {
        assert RecordTime !in header[..n];
      } else {
        assert RecordTime in header <==> RecordTime in header[..n];
      }
    }
  }

  /** The category names of a record: its keys other than record_time, in key order. */
  function Categories(header: seq<string>): (names: seq<string>)
    ensures |names| == |CategoryColumns(header)|
    ensures forall i :: 0 <= i < |names| ==> names[i] == header[CategoryColumns(header)[i]]
    ensures RecordTime !in names
    ensures forall k :: 0 <= k < |header| && header[k] != RecordTime ==> header[k] in names
  {
    var cols := CategoryColumns(header);
    var names := seq(|cols|, i requires 0 <= i < |cols| => header[cols[i]]);
    assert forall k :: 0 <= k < |header| && header[k] != RecordTime ==>
      exists i :: 0 <= i < |cols| && cols[i] == k && names[i] == header[k];
    names
  }
}
