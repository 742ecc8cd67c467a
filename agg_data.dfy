/**
 * agg_data.py: merges the "hotest" and "upvote" ranking lists, turns their ai_category column into frequency
 * proportions, and appends those proportions, stamped with the current time, as one record of the trends CSV.
 */
module AggData {
  import opened Results
  import opened CsvTable

  // ---------------------------------------------------------------------------------------------------------
  // merge_json_files
  // ---------------------------------------------------------------------------------------------------------

  /** The two values of the ranking_type column added by `.assign(ranking_type=…)`. */
  const Hotest: string := "hotest"
  const Upvote: string := "upvote"

  /** One row of the merged frame: a dataset record and its ranking_type. */
  datatype Tagged<T> = Tagged(record: T, rankingType: string)

  /** `pd.DataFrame(records).assign(ranking_type=tag)`: every record tagged, in order. */
  function Tag<T>(records: seq<T>, tag: string): (rows: seq<Tagged<T>>)
    ensures |rows| == |records|
    ensures forall i :: 0 <= i < |records| ==> rows[i] == Tagged(records[i], tag)
  {
    seq(|records|, i requires 0 <= i < |records| => Tagged(records[i], tag))
  }

  /** `pd.concat([df1, df2], ignore_index=True)`: the hotest rows, then the upvote rows. */
  function Merge<T>(hotest: seq<T>, upvote: seq<T>): (merged: seq<Tagged<T>>)
    ensures |merged| == |hotest| + |upvote|
    ensures forall i :: 0 <= i < |hotest| ==> merged[i] == Tagged(hotest[i], Hotest)
    ensures forall j :: 0 <= j < |upvote| ==> merged[|hotest| + j] == Tagged(upvote[j], Upvote)
  {
    Tag(hotest, Hotest) + Tag(upvote, Upvote)
  }

  /** `merged[merged.ranking_type == tag]`: the records carrying the given tag, in order. */
  function WithTag<T>(rows: seq<Tagged<T>>, tag: string): (records: seq<T>)
    ensures |records| <= |rows|
  {
    if |rows| == 0 then []
    else (if rows[0].rankingType == tag then [rows[0].record] else []) + WithTag(rows[1..], tag)
  }

  /** Selecting by tag distributes over concatenation. */
  lemma {:induction false} WithTagAppend<T>(a: seq<Tagged<T>>, b: seq<Tagged<T>>, tag: string)
    ensures WithTag(a + b, tag) == WithTag(a, tag) + WithTag(b, tag)
  {
    if |a| == 0 {
      assert a + b == b;
    } else {
      var head := if a[0].rankingType == tag then [a[0].record] else [];
      calc {
        WithTag(a + b, tag);
      == { assert (a + b)[0] == a[0]; assert (a + b)[1..] == a[1..] + b; }
        head + WithTag(a[1..] + b, tag);
      == { WithTagAppend(a[1..], b, tag); }
        head + (WithTag(a[1..], tag) + WithTag(b, tag));
      ==
        (head + WithTag(a[1..], tag)) + WithTag(b, tag);
      ==
        WithTag(a, tag) + WithTag(b, tag);
      }
    }
  }

  /** Selecting by tag from rows that all carry one tag gives all or nothing. */
  lemma {:induction false} WithTagOfTag<T>(records: seq<T>, tag: string, wanted: string)
    ensures WithTag(Tag(records, tag), wanted) == if tag == wanted then records else []
  {
    if |records| > 0 {
      WithTagOfTag(records[1..], tag, wanted);
      assert Tag(records, tag)[1..] == Tag(records[1..], tag);
    }
  }

  /** The merge loses nothing: each input list is recovered, in order, from the rows bearing its tag. */
  lemma MergeRecovers<T>(hotest: seq<T>, upvote: seq<T>)
    ensures WithTag(Merge(hotest, upvote), Hotest) == hotest
    ensures WithTag(Merge(hotest, upvote), Upvote) == upvote
  {
    WithTagAppend(Tag(hotest, Hotest), Tag(upvote, Upvote), Hotest);
    WithTagAppend(Tag(hotest, Hotest), Tag(upvote, Upvote), Upvote);
    WithTagOfTag(hotest, Hotest, Hotest);
    WithTagOfTag(upvote, Upvote, Hotest);
    WithTagOfTag(hotest, Hotest, Upvote);
    WithTagOfTag(upvote, Upvote, Upvote);
  }

  // ---------------------------------------------------------------------------------------------------------
  // calculate_category_proportions
  // ---------------------------------------------------------------------------------------------------------

  /**
   * A merged row's ai_category: the key may be absent from its JSON record, present but null, or a name.
   * pandas gives the frame an ai_category column as soon as one record has the key, and NaN to the others.
   */
  datatype CategoryCell = Missing | Null | Named(category: string)

  /** The exceptions the script can raise. */
  datatype PyError = KeyError(key: string) | ValueError(message: string)

  const AiCategory: string := "ai_category"

  /** How many rows carry category c. */
  function Count(cells: seq<CategoryCell>, c: string): nat
  {
    if |cells| == 0 then 0
    else Count(cells[..|cells| - 1], c) + if cells[|cells| - 1] == Named(c) then 1 else 0
  }

  /** How many rows carry a category at all: `value_counts` drops the null ones. */
  function Total(cells: seq<CategoryCell>): nat
  {
    if |cells| == 0 then 0
    else Total(cells[..|cells| - 1]) + if cells[|cells| - 1].Named? then 1 else 0
  }

  /** The distinct categories, in order of first appearance. */
  function DistinctCategories(cells: seq<CategoryCell>): (names: seq<string>)
    ensures forall c :: c in names <==> exists i :: 0 <= i < |cells| && cells[i] == Named(c)
    ensures forall i, j :: 0 <= i < j < |names| ==> names[i] != names[j]
  {
    if |cells| == 0 then []
    else
      var n := |cells| - 1;
      var prev := DistinctCategories(cells[..n]);
      assert forall c :: (exists i :: 0 <= i < n && cells[..n][i] == Named(c)) ==>
        exists i :: 0 <= i < |cells| && cells[i] == Named(c);
      assert forall c, i :: 0 <= i < n && cells[i] == Named(c) ==> cells[..n][i] == Named(c);
      if cells[n].Named? && cells[n].category !in prev then prev + [cells[n].category] else prev
  }

  /** The column exists in the merged frame iff some record has the key. */
  predicate HasColumn(cells: seq<CategoryCell>)
  {
    exists i :: 0 <= i < |cells| && cells[i] != Missing
  }

  /**
   * `df['ai_category'].value_counts(normalize=True).to_dict()`: each category's share of the non-null rows, or the
   * KeyError that indexing a frame without the column raises.
   */
  function Proportions(cells: seq<CategoryCell>): (r: Result<map<string, real>, PyError>)
    ensures r.Err? <==> !HasColumn(cells)
    ensures r.Err? ==> r.error == KeyError(AiCategory)
    ensures r.Ok? ==> forall c :: c in r.value <==> exists i :: 0 <= i < |cells| && cells[i] == Named(c)
  {
    if !HasColumn(cells) then Err(KeyError(AiCategory))
    else
      var names := DistinctCategories(cells);
      CountsOfNames(cells);
      Ok(map c | c in names :: Count(cells, c) as real / Total(cells) as real)
  }

  /** A category that occurs is counted at least once and at most as often as all categories together. */
  lemma {:induction false} CountBounds(cells: seq<CategoryCell>, c: string)
    ensures Count(cells, c) <= Total(cells)
    ensures (exists i :: 0 <= i < |cells| && cells[i] == Named(c)) ==> 0 < Count(cells, c)
  {
    if |cells| > 0 {
      var n := |cells| - 1;
      CountBounds(cells[..n], c);
      if exists i :: 0 <= i < |cells| && cells[i] == Named(c) {
        var i :| 0 <= i < |cells| && cells[i] == Named(c);
        if i < n {
          assert cells[..n][i] == Named(c);
        }
      }
    }
  }

  /** Every category that occurs has a count between 1 and the total. */
  lemma CountsOfNames(cells: seq<CategoryCell>)
    ensures forall c :: c in DistinctCategories(cells) ==> 0 < Count(cells, c) <= Total(cells)
  {
    forall c | c in DistinctCategories(cells) ensures 0 < Count(cells, c) <= Total(cells) {
      CountBounds(cells, c);
    }
  }

  /** A count between 1 and a positive total gives a share in (0, 1]. */
  lemma ShareBounds(k: real, t: real)
    requires 0.0 < k <= t
    ensures 0.0 < k / t <= 1.0
  {
  }

  /** Each proportion is its category's count divided by the number of non-null rows, which is positive. */
  lemma ProportionsAreShares(cells: seq<CategoryCell>)
    requires Proportions(cells).Ok?
    ensures forall c :: c in Proportions(cells).value ==> 0 < Count(cells, c) <= Total(cells)
    ensures forall c :: c in Proportions(cells).value ==>
      Proportions(cells).value[c] == Count(cells, c) as real / Total(cells) as real
  {
    CountsOfNames(cells);
  }

  /** Every proportion lies in (0, 1]. */
  lemma ProportionsInRange(cells: seq<CategoryCell>)
    requires Proportions(cells).Ok?
    ensures forall c :: c in Proportions(cells).value ==>
      0.0 < Proportions(cells).value[c] <= 1.0
  {
    var m := Proportions(cells).value;
    ProportionsAreShares(cells);
    forall c | c in m ensures 0.0 < m[c] <= 1.0 {
      ShareBounds(Count(cells, c) as real, Total(cells) as real);
    }
  }

  /** The sum of the counts of the given categories. */
  function SumCounts(names: seq<string>, cells: seq<CategoryCell>): nat
  {
    if |names| == 0 then 0 else Count(cells, names[0]) + SumCounts(names[1..], cells)
  }

  /** The sum of the map's values at the given keys. */
  function SumAt(names: seq<string>, m: map<string, real>): real
    requires forall c :: c in names ==> c in m
  {
    if |names| == 0 then 0.0 else m[names[0]] + SumAt(names[1..], m)
  }

  /** One more row adds one to the sum of counts of distinct names exactly when it names one of them. */
  lemma {:induction false} SumCountsSnoc(names: seq<string>, cells: seq<CategoryCell>, x: CategoryCell)
    requires forall i, j :: 0 <= i < j < |names| ==> names[i] != names[j]
    ensures SumCounts(names, cells + [x]) == SumCounts(names, cells) + if x.Named? && x.category in names then 1 else 0
  {
    if |names| > 0 {
      SumCountsSnoc(names[1..], cells, x);
      assert (cells + [x])[..|cells + [x]| - 1] == cells;
      assert x.Named? && x.category == names[0] ==> x.category !in names[1..];
    }
  }

  /** A category never seen has a count of zero. */
  lemma {:induction false} CountAbsent(cells: seq<CategoryCell>, c: string)
    requires forall i :: 0 <= i < |cells| ==> cells[i] != Named(c)
    ensures Count(cells, c) == 0
  {
    if |cells| > 0 {
      CountAbsent(cells[..|cells| - 1], c);
    }
  }

  /** The counts of the distinct categories add up to the number of non-null rows. */
  lemma {:induction false} SumCountsDistinctCategories(cells: seq<CategoryCell>)
    ensures SumCounts(DistinctCategories(cells), cells) == Total(cells)
  {
    if |cells| > 0 {
      var n := |cells| - 1;
      var prev := DistinctCategories(cells[..n]);
      SumCountsDistinctCategories(cells[..n]);
      assert cells == cells[..n] + [cells[n]];
      SumCountsSnoc(prev, cells[..n], cells[n]);
      if cells[n].Named? && cells[n].category !in prev {
        var c := cells[n].category;
        SumCountsAppendName(prev, c, cells);
        assert forall i :: 0 <= i < n ==> cells[..n][i] != Named(c);
        CountAbsent(cells[..n], c);
      }
    }
  }

  /** Adding one name to the list adds its count to the sum. */
  lemma {:induction false} SumCountsAppendName(names: seq<string>, c: string, cells: seq<CategoryCell>)
    ensures SumCounts(names + [c], cells) == SumCounts(names, cells) + Count(cells, c)
  {
    if |names| > 0 {
      SumCountsAppendName(names[1..], c, cells);
      assert (names + [c])[1..] == names[1..] + [c];
    }
  }

  /** Shares of one positive total add up like their counts. */
  lemma AddShares(a: real, b: real, t: real)
    requires 0.0 < t
    ensures a / t + b / t == (a + b) / t
  {
  }

  /** Summing shares of a positive total: the sum of `count / total` is the sum of the counts over the total. */
  lemma {:induction false} SumAtShares(names: seq<string>, m: map<string, real>, cells: seq<CategoryCell>, t: real)
    requires 0.0 < t
    requires forall c :: c in names ==> c in m && m[c] == Count(cells, c) as real / t
    ensures SumAt(names, m) == SumCounts(names, cells) as real / t
  {
    if |names| > 0 {
      assert forall c :: c in names[1..] ==> c in names;
      SumAtShares(names[1..], m, cells, t);
      assert names[0] in names;
      AddShares(Count(cells, names[0]) as real, SumCounts(names[1..], cells) as real, t);
    }
  }

  /** The proportions, summed over the categories once each, make 1. */
  lemma ProportionsSumToOne(cells: seq<CategoryCell>)
    requires Proportions(cells).Ok? && Total(cells) > 0
    ensures forall c :: c in DistinctCategories(cells) <==> c in Proportions(cells).value
    ensures SumAt(DistinctCategories(cells), Proportions(cells).value) == 1.0
  {
    var m := Proportions(cells).value;
    ProportionsAreShares(cells);
    SumAtShares(DistinctCategories(cells), m, cells, Total(cells) as real);
    SumCountsDistinctCategories(cells);
    WholeShare(Total(cells) as real);
  }

  /** The whole of a positive total is a share of 1. */
  lemma WholeShare(t: real)
    requires 0.0 < t
    ensures t / t == 1.0
  {
  }

  // ---------------------------------------------------------------------------------------------------------
  // append_to_csv_file
  // ---------------------------------------------------------------------------------------------------------

  /** A value of the record: a category's proportion or the record_time text. */
  datatype Value = Prop(p: real) | Text(s: string)

  /** A Python dict: its entries in insertion order. */
  type Dict = seq<(string, Value)>

  /** The dict's keys, in order. */
  function Keys(d: Dict): (ks: seq<string>)
    ensures |ks| == |d| && forall i :: 0 <= i < |d| ==> ks[i] == d[i].0
  {
    seq(|d|, i requires 0 <= i < |d| => d[i].0)
  }

  /** Dict keys are unique. */
  ghost predicate UniqueKeys(d: Dict)
  {
    forall i, j :: 0 <= i < j < |d| ==> d[i].0 != d[j].0
  }

  /** `d.get(k)`. */
  function Get(d: Dict, k: string): (v: Option<Value>)
    ensures v.None? <==> k !in Keys(d)
    ensures v.Some? ==> (k, v.value) in d
  {
    if |d| == 0 then None
    else if d[0].0 == k then Some(d[0].1)
    else
      var rest := Get(d[1..], k);
      assert Keys(d) == [d[0].0] + Keys(d[1..]);
      assert rest.Some? ==> (k, rest.value) in d by {
        if rest.Some? {
          var j :| 0 <= j < |d[1..]| && d[1..][j] == (k, rest.value);
          assert d[j + 1] == (k, rest.value);
        }
      }
      rest
  }

  /** In a dict with unique keys, the entry stored under a key is the one found for it. */
  lemma GetStored(d: Dict, k: string, x: Value)
    requires UniqueKeys(d) && (k, x) in d
    ensures Get(d, k) == Some(x)
  {
  }

  /** `d[k] = v`: an existing key keeps its place with the new value, a new key goes last. */
  function SetItem(d: Dict, k: string, v: Value): (r: Dict)
    ensures k in Keys(d) ==> |r| == |d|
    ensures k !in Keys(d) ==> |r| == |d| + 1 && r[|d|] == (k, v)
    ensures forall i :: 0 <= i < |d| ==> r[i] == if d[i].0 == k then (k, v) else d[i]
  {
    if k in Keys(d) then seq(|d|, i requires 0 <= i < |d| => if d[i].0 == k then (k, v) else d[i])
    else d + [(k, v)]
  }

  /** After `d[k] = v`, looking k up gives v, every other key gives what it gave before, and keys stay unique. */
  lemma SetItemGet(d: Dict, k: string, v: Value)
    requires UniqueKeys(d)
    ensures UniqueKeys(SetItem(d, k, v))
    ensures Get(SetItem(d, k, v), k) == Some(v)
    ensures forall k' :: k' != k ==> Get(SetItem(d, k, v), k') == Get(d, k')
  {
  }

  /** What the script knows of data/cate_trends.csv before appending. */
  datatype CsvFile =
    | NoFile
      // the header's columns, and the calendar day of each record's record_time
    | Existing(columns: seq<string>, recordDays: seq<int>)

  /** The clock reading: `now.strftime("%Y-%m-%d %H:%M:%S")` and the calendar day it falls on. */
  datatype Now = Now(stamp: string, day: int)

  /** What `df.to_csv(file_path, mode='a', header=…)` writes: an optional header line and one record. */
  datatype Write = Write(header: Option<seq<string>>, columns: seq<string>, record: seq<Value>)

  /** The append either writes or stops after "No new data to append.". */
  datatype Outcome = Appended(write: Write) | Skipped

  /** `existing_df['record_time'].dt.date.max()`: the latest day, or NaT for a file with no record. */
  function LatestDay(days: seq<int>): (m: Option<int>)
    ensures m.None? <==> |days| == 0
    ensures m.Some? ==> (forall i :: 0 <= i < |days| ==> days[i] <= m.value) && m.value in days
  {
    if |days| == 0 then None
    else
      var rest := LatestDay(days[1..]);
      if rest.Some? && days[0] < rest.value then rest else Some(days[0])
  }

  /** `df.reindex(columns=existing_df.columns)`: the record's values in the given column order. */
  function Reindex(d: Dict, columns: seq<string>): (record: seq<Value>)
    requires forall c :: c in columns ==> c in Keys(d)
    ensures |record| == |columns|
    ensures forall i :: 0 <= i < |columns| ==> Get(d, columns[i]) == Some(record[i])
  {
    seq(|columns|, i requires 0 <= i < |columns| => Get(d, columns[i]).value)
  }

  /** The set of the given column names: `set(df.columns)`. */
  function ColumnSet(columns: seq<string>): (s: set<string>)
    ensures forall c :: c in s <==> c in columns
  {
    set c | c in columns
  }

  /** The message of the ValueError raised when the record's columns differ from the file's. */
  const MismatchMessage: string := "Column names do not match with existing CSV file."

  /**
   * The decision that follows `data['record_time'] = today`, given the updated dict: with no file, the record is
   * written with a header in the dict's order; an existing file without a record_time column raises KeyError;
   * a different column set raises ValueError; a latest record from today skips; otherwise the record is
   * written in the file's column order without a header.
   */
  function Decide(d: Dict, file: CsvFile, now: Now): (r: Result<Outcome, PyError>)
    requires RecordTime in Keys(d)
    ensures file.NoFile? ==> r == Ok(Appended(Write(Some(Keys(d)), Keys(d), seq(|d|, i requires 0 <= i < |d| => d[i].1))))
    ensures file.Existing? && RecordTime !in file.columns ==> r == Err(KeyError(RecordTime))
    ensures file.Existing? && RecordTime in file.columns ==>
      (r.Err? <==> ColumnSet(Keys(d)) != ColumnSet(file.columns))
    ensures file.Existing? && RecordTime in file.columns && ColumnSet(Keys(d)) != ColumnSet(file.columns) ==>
      r == Err(ValueError(MismatchMessage))
    ensures r.Err? ==> file.Existing? && r.error in {KeyError(RecordTime), ValueError(MismatchMessage)}
    ensures r == Ok(Skipped) <==>
      file.Existing? && RecordTime in file.columns && ColumnSet(Keys(d)) == ColumnSet(file.columns) &&
      LatestDay(file.recordDays) == Some(now.day)
    ensures r.Ok? && r.value.Appended? && file.Existing? ==>
      r.value.write.header.None? && r.value.write.columns == file.columns &&
      r.value.write.record == Reindex(d, file.columns)
  {
    match file
    case NoFile =>
      Ok(Appended(Write(Some(Keys(d)), Keys(d), seq(|d|, i requires 0 <= i < |d| => d[i].1))))
    case Existing(columns, days) =>
      if RecordTime !in columns then Err(KeyError(RecordTime))
      else if ColumnSet(Keys(d)) != ColumnSet(columns) then
        Err(ValueError(MismatchMessage))
      else if LatestDay(days) == Some(now.day) then Ok(Skipped)
      else Ok(Appended(Write(None, columns, Reindex(d, columns))))
  }

  /** The caller's dict, which `append_to_csv_file` updates in place. */
  class PyDict {
    var entries: Dict

    /** A Python dict never holds a key twice. */
    ghost predicate Valid()
      reads this
    {
      UniqueKeys(entries)
    }

    constructor (entries: Dict)
      requires UniqueKeys(entries)
      ensures Valid() && this.entries == entries
    {
      this.entries := entries;
    }
  }

  /**
   * `append_to_csv_file(data, file_path)`: stamps the caller's dict with record_time before anything else, so
   * the stamp stays even when the append raises or skips, then decides what to write.
   */
  method AppendToCsvFile(data: PyDict, file: CsvFile, now: Now) returns (r: Result<Outcome, PyError>)
    requires data.Valid()
    modifies data
    ensures data.Valid()
    ensures data.entries == SetItem(old(data.entries), RecordTime, Text(now.stamp))
    ensures r == Decide(data.entries, file, now)
  {
    SetItemGet(data.entries, RecordTime, Text(now.stamp));
    data.entries := SetItem(data.entries, RecordTime, Text(now.stamp));
    r := Decide(data.entries, file, now);
  }

  /**
   * A record written to an existing file carries, column by column, exactly the values of the stamped dict, so
   * the new line lines up with the file's header; its record_time is the stamp.
   */
  lemma AppendedLinesUp(d: Dict, file: CsvFile, now: Now)
    requires UniqueKeys(d)
    requires file.Existing?
    requires var r := Decide(SetItem(d, RecordTime, Text(now.stamp)), file, now); r.Ok? && r.value.Appended?
    ensures var w := Decide(SetItem(d, RecordTime, Text(now.stamp)), file, now).value.write;
      |w.record| == |file.columns| &&
      (forall i :: 0 <= i < |file.columns| && file.columns[i] == RecordTime ==> w.record[i] == Text(now.stamp)) &&
      (forall i :: 0 <= i < |file.columns| && file.columns[i] != RecordTime ==> Some(w.record[i]) == Get(d, file.columns[i]))
  {
  }
}
