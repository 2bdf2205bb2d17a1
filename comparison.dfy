/** The comparison series of a staged upload (`get_temp_comparison_data`):
    the records read back from the staging table are either passed through
    or, when sampling is asked for and there are more records than sampling
    points, averaged per time bucket with the same bucket rule as the
    sampled envelope. */
module Comparison {
  import opened Wrappers
  import opened Rows
  import opened Sorting
  import opened Bucketing

  /** The `data` part of a successful result. */
  datatype ComparisonData = ComparisonData(
    timePoints: seq<real>,
    series: map<string, seq<real>>,
    samplingMethod: string,
    samplingPoints: nat,
    originalPoints: nat,
    timeMin: real,
    timeMax: real)

  /** The failures: the read-back query failed, it returned no record, a
      requested column is not in the first record, or an exception inside
      the computation (a missing key, edges pandas refuses). */
  datatype ComparisonError = QueryFailed | NoData | MissingColumn(column: string) | ComputationFailed

  datatype Answer = Ok(value: ComparisonData) | Refused(error: ComparisonError)

  const TimeInterval: string := "time_interval"
  const FullData: string := "full_data"

  /** The first requested column the record lacks. */
  function FirstMissing(first: Row, selected: seq<string>): (m: Option<string>)
    ensures m.None? <==> forall c :: c in selected ==> c in first
    ensures m.Some? ==> m.value in selected && m.value !in first
  {
    if selected == [] then None
    else if selected[0] !in first then Some(selected[0])
    else
      assert forall c :: c in selected <==> c == selected[0] || c in selected[1..];
      FirstMissing(first, selected[1..])
  }

  /** The mean of the non-null values of `c`, or 0 when there are none. */
  function MeanOrZero(rows: seq<Row>, c: string): real {
    var vs := ColumnValues(rows, c);
    if vs == [] then 0.0 else Mean(vs)
  }

  /** The record a bucket becomes: the time column holds the centre, and
      each requested column the mean of its values in the bucket. The
      columns are written after the time, so a requested column that is the
      time column itself holds its mean, which is the centre again. */
  function SampledRow(g: Group, t: string, selected: seq<string>): (r: Row)
    requires g.rows != [] && t in g.rows[0]
  {
    map k | k in [t] + selected :: if k in selected then MeanOrZero(g.rows, k) else Center(g, t)
  }

  /** One record per non-empty bucket, in bucket order. */
  function SampledRows(p: Plan, rows: seq<Row>, t: string, selected: seq<string>): (sampled: seq<Row>)
    requires ValidPlan(p) && InRange(p, rows, t)
    ensures |sampled| == |Groups(p, rows, t)|
  {
    var gs := Groups(p, rows, t);
    seq(|gs|, k requires 0 <= k < |gs| =>
      (assert GroupWellFormed(p, rows, t, gs[k]) && gs[k].rows[0] in gs[k].rows;
       SampledRow(gs[k], t, selected)))
  }

  /** A record from which `row[time_column]` and every `row[column]` can be read. */
  predicate Complete(r: Row, t: string, selected: seq<string>) {
    t in r && forall c :: c in selected ==> c in r
  }

  predicate AllComplete(processed: seq<Row>, t: string, selected: seq<string>) {
    forall i :: 0 <= i < |processed| ==> Complete(processed[i], t, selected)
  }

  /** `[row[c] for row in processed]`. */
  function SeriesOf(processed: seq<Row>, c: string): (s: seq<real>)
    requires forall i :: 0 <= i < |processed| ==> c in processed[i]
    ensures |s| == |processed|
  {
    seq(|processed|, i requires 0 <= i < |processed| => processed[i][c])
  }

  /** The result dictionary built from the processed records; a record
      without a key that is read raises. */
  function Tabulate(processed: seq<Row>, t: string, selected: seq<string>,
                    samplingMethod: string, original: nat): Answer
  {
    if !AllComplete(processed, t, selected) then Refused(ComputationFailed)
    else
      var times := SeriesOf(processed, t);
      Ok(ComparisonData(
        times,
        map c | c in selected :: SeriesOf(processed, c),
        samplingMethod, |processed|, original,
        if times == [] then 0.0 else MinOf(times),
        if times == [] then 0.0 else MaxOf(times)))
  }

  /** Sampling happens only when asked for and the records outnumber the
      sampling points. */
  predicate Samples(rows: seq<Row>, useSampling: bool, samplingPoints: int) {
    useSampling && |rows| > samplingPoints
  }

  /** The sampled branch: pandas' bucketing of the records' times, then
      one averaged record per non-empty bucket. */
  function SampledComparison(rows: seq<Row>, t: string, selected: seq<string>, samplingPoints: int): Answer
    requires t in KeysOf(rows)
  {
    TimesNonEmpty(rows, t);
    var plan := PlanFor(ColumnValues(rows, t), samplingPoints, |rows|);
    if plan.None? then Refused(ComputationFailed)
    else
      TimesInRange(rows, t);
      assert InRange(plan.value, rows, t);
      Tabulate(SampledRows(plan.value, rows, t, selected), t, selected, TimeInterval, |rows|)
  }

  /** What `get_temp_comparison_data` returns for the records the query
      read back. */
  function ComparisonOf(rows: seq<Row>, t: string, selected: seq<string>,
                        useSampling: bool, samplingPoints: int): Answer
  {
    if rows == [] then Refused(NoData)
    else
      var missing := FirstMissing(rows[0], selected);
      if missing.Some? then Refused(MissingColumn(missing.value))
      else if !Samples(rows, useSampling, samplingPoints) then
        Tabulate(rows, t, selected, FullData, |rows|)
      else if t !in KeysOf(rows) then Refused(ComputationFailed)
      else SampledComparison(rows, t, selected, samplingPoints)
  }

  // ---------------------------------------------------------------------------
  // The loops

  /** The column check: `for column in selected_columns: if column not in data[0]`. */
  method CheckColumns(first: Row, selected: seq<string>) returns (missing: Option<string>)
    ensures missing == FirstMissing(first, selected)
  {
    for j := 0 to |selected|
      invariant FirstMissing(first, selected) == FirstMissing(first, selected[j..])
    {
      assert selected[j..][1..] == selected[j + 1..];
      if selected[j] !in first {
        return Some(selected[j]);
      }
    }
    assert selected[|selected|..] == [];
    return None;
  }

  /** `row_data` for one group: the centre, then each column's mean. */
  method SampleGroup(g: Group, t: string, selected: seq<string>) returns (row: Row)
    requires g.rows != [] && t in g.rows[0]
    ensures row == SampledRow(g, t, selected)
  {
    row := map[t := Center(g, t)];
    for j := 0 to |selected|
      invariant forall k :: k in row <==> k in [t] + selected[..j]
      invariant forall k :: k in row ==>
                  row[k] == if k in selected[..j] then MeanOrZero(g.rows, k) else Center(g, t)
    {
      var column := selected[j];
      assert forall c :: c in selected[..j + 1] <==> c in selected[..j] || c == column;
      var columnValues := ColumnValues(g.rows, column);
      if |columnValues| > 0 {
        row := row[column := Mean(columnValues)];
      } else {
        row := row[column := 0.0];
      }
    }
    assert selected[..|selected|] == selected;
  }

  /** The loop over the groups that fills `sampled_data`. */
  method SampleRows(p: Plan, rows: seq<Row>, t: string, selected: seq<string>) returns (sampled: seq<Row>)
    requires ValidPlan(p) && InRange(p, rows, t)
    ensures sampled == SampledRows(p, rows, t, selected)
  {
    var gs := Groups(p, rows, t);
    ghost var target := SampledRows(p, rows, t, selected);
    sampled := [];
    for k := 0 to |gs|
      invariant sampled == target[..k]
    {
      var g := gs[k];
      SampledRowIs(p, rows, t, selected, k);
      var row := SampleGroup(g, t, selected);
      PrefixStep(target, k);
      sampled := sampled + [row];
    }
    assert target[..|gs|] == target;
  }

  lemma SampledRowIs(p: Plan, rows: seq<Row>, t: string, selected: seq<string>, k: nat)
    requires ValidPlan(p) && InRange(p, rows, t)
    requires k < |Groups(p, rows, t)|
    ensures var g := Groups(p, rows, t)[k];
            && g.rows != [] && t in g.rows[0]
            && SampledRows(p, rows, t, selected)[k] == SampledRow(g, t, selected)
  {
    var g := Groups(p, rows, t)[k];
    assert GroupWellFormed(p, rows, t, g) && g.rows[0] in g.rows;
  }

  /** `[row[c] for row in processed]`, raising on a record without `c`. */
  method ReadSeries(processed: seq<Row>, c: string) returns (s: Option<seq<real>>)
    ensures s.None? <==> exists i :: 0 <= i < |processed| && c !in processed[i]
    ensures s.Some? ==> s.value == SeriesOf(processed, c)
  {
    var values: seq<real> := [];
    for i := 0 to |processed|
      invariant |values| == i
      invariant forall k :: 0 <= k < i ==> c in processed[k] && values[k] == processed[k][c]
    {
      if c !in processed[i] {
        return None;
      }
      values := values + [processed[i][c]];
    }
    return Some(values);
  }

  /** The formatting at the end: the time points, then one series per
      requested column, then the time range. */
  method TabulateLoop(processed: seq<Row>, t: string, selected: seq<string>,
                      samplingMethod: string, original: nat) returns (res: Answer)
    ensures res == Tabulate(processed, t, selected, samplingMethod, original)
  {
    var timePoints := ReadSeries(processed, t);
    if timePoints.None? {
      return Refused(ComputationFailed);
    }
    var times := timePoints.value;
    var series: map<string, seq<real>> := map[];
    for j := 0 to |selected|
      invariant forall c :: c in series <==> c in selected[..j]
      invariant forall c :: c in selected[..j] ==> forall i :: 0 <= i < |processed| ==> c in processed[i]
      invariant forall c :: c in series ==> series[c] == SeriesOf(processed, c)
    {
      var column := selected[j];
      assert forall c :: c in selected[..j + 1] <==> c in selected[..j] || c == column;
      var values := ReadSeries(processed, column);
      if values.None? {
        var i :| 0 <= i < |processed| && column !in processed[i];
        assert !Complete(processed[i], t, selected);
        return Refused(ComputationFailed);
      }
      series := series[column := values.value];
    }
    assert selected[..|selected|] == selected;
    assert AllComplete(processed, t, selected);
    assert series == map c | c in selected :: SeriesOf(processed, c);
    var timeMin := if times == [] then 0.0 else MinOf(times);
    var timeMax := if times == [] then 0.0 else MaxOf(times);
    res := Ok(ComparisonData(times, series, samplingMethod, |processed|, original, timeMin, timeMax));
  }

  /** `get_temp_comparison_data` after the read-back query. */
  method ComputeComparison(rows: seq<Row>, t: string, selected: seq<string>,
                           useSampling: bool, samplingPoints: int) returns (res: Answer)
    ensures res == ComparisonOf(rows, t, selected, useSampling, samplingPoints)
  {
    if rows == [] {
      return Refused(NoData);
    }
    var missing := CheckColumns(rows[0], selected);
    if missing.Some? {
      return Refused(MissingColumn(missing.value));
    }
    if !(useSampling && |rows| > samplingPoints) {
      res := TabulateLoop(rows, t, selected, FullData, |rows|);
      return;
    }
    if t !in KeysOf(rows) {
      return Refused(ComputationFailed);
    }
    TimesNonEmpty(rows, t);
    var times := ColumnValues(rows, t);
    var plan := PlanFor(times, samplingPoints, |rows|);
    if plan.None? {
      return Refused(ComputationFailed);
    }
    TimesInRange(rows, t);
    assert InRange(plan.value, rows, t);
    var sampled := SampleRows(plan.value, rows, t, selected);
    res := TabulateLoop(sampled, t, selected, TimeInterval, |rows|);
  }

  // ---------------------------------------------------------------------------
  // Properties

  /** The failures before any computation: no record, and a requested
      column missing from the first record (the first such column is named). */
  lemma ComparisonEarlyErrors(rows: seq<Row>, t: string, selected: seq<string>,
                              useSampling: bool, samplingPoints: int)
    ensures var r := ComparisonOf(rows, t, selected, useSampling, samplingPoints);
            && (r == Refused(NoData) <==> rows == [])
            && (r.Refused? && r.error.MissingColumn? <==>
                  rows != [] && exists c :: c in selected && c !in rows[0])
            && (r.Refused? && r.error.MissingColumn? ==>
                  r.error.column in selected && r.error.column !in rows[0])
            && r != Refused(QueryFailed)
  {
    if rows != [] && FirstMissing(rows[0], selected).None? {
      var r := ComparisonOf(rows, t, selected, useSampling, samplingPoints);
      assert r.Ok? || r == Refused(ComputationFailed);
    }
  }

  /** Without sampling the records pass through: it succeeds exactly when
      every record has the time and every requested column, and then the
      i-th time point and the i-th value of each series are the i-th
      record's. */
  lemma ComparisonPassThrough(rows: seq<Row>, t: string, selected: seq<string>,
                              useSampling: bool, samplingPoints: int)
    requires rows != [] && !Samples(rows, useSampling, samplingPoints)
    requires forall c :: c in selected ==> c in rows[0]
    ensures var r := ComparisonOf(rows, t, selected, useSampling, samplingPoints);
            && (r.Ok? <==> AllComplete(rows, t, selected))
            && (r.Refused? ==> r.error == ComputationFailed)
            && (r.Ok? ==>
                  && r.value.samplingMethod == FullData
                  && r.value.samplingPoints == |rows| && r.value.originalPoints == |rows|
                  && |r.value.timePoints| == |rows|
                  && (forall i :: 0 <= i < |rows| ==> t in rows[i] && r.value.timePoints[i] == rows[i][t])
                  && (forall c :: c in r.value.series <==> c in selected)
                  && (forall c, i :: c in r.value.series && 0 <= i < |rows| ==>
                        |r.value.series[c]| == |rows| && c in rows[i] && r.value.series[c][i] == rows[i][c]))
  {
    assert FirstMissing(rows[0], selected).None?;
  }

  /** The k-th sampled record holds the k-th centre under the time column
      and the k-th bucket's mean under each requested column. */
  lemma SampledRowsAt(p: Plan, rows: seq<Row>, t: string, selected: seq<string>, k: nat)
    requires ValidPlan(p) && InRange(p, rows, t)
    requires k < |Groups(p, rows, t)|
    ensures var g := Groups(p, rows, t)[k];
            var r := SampledRows(p, rows, t, selected)[k];
            && GroupWellFormed(p, rows, t, g) && t in g.rows[0]
            && Complete(r, t, selected)
            && r[t] == Centers(p, rows, t)[k] == Center(g, t)
            && forall c :: c in selected ==> r[c] == MeanOrZero(g.rows, c)
  {
    var g := Groups(p, rows, t)[k];
    assert GroupWellFormed(p, rows, t, g) && g.rows[0] in g.rows;
    assert SampledRows(p, rows, t, selected)[k] == SampledRow(g, t, selected);
    if t in selected {
      var vs := ColumnValues(g.rows, t);
      ColumnValuesNonEmpty(g.rows, t);
      assert MeanOrZero(g.rows, t) == Mean(vs) == Center(g, t);
    }
  }

  /** The sampled records are complete and their times are the centres. */
  lemma SampledRowsComplete(p: Plan, rows: seq<Row>, t: string, selected: seq<string>)
    requires ValidPlan(p) && InRange(p, rows, t)
    ensures AllComplete(SampledRows(p, rows, t, selected), t, selected)
    ensures SeriesOf(SampledRows(p, rows, t, selected), t) == Centers(p, rows, t)
  {
    var sampled := SampledRows(p, rows, t, selected);
    forall k | 0 <= k < |sampled| ensures Complete(sampled[k], t, selected) && sampled[k][t] == Centers(p, rows, t)[k] {
      SampledRowsAt(p, rows, t, selected, k);
    }
  }

  /** With sampling, it succeeds exactly when some record has a time and
      pandas accepts the edges (the same condition as the sampled
      envelope). */
  lemma ComparisonSampledSucceeds(rows: seq<Row>, t: string, selected: seq<string>,
                                  useSampling: bool, samplingPoints: int)
    requires rows != [] && Samples(rows, useSampling, samplingPoints)
    requires forall c :: c in selected ==> c in rows[0]
    ensures var r := ComparisonOf(rows, t, selected, useSampling, samplingPoints);
            && (r.Refused? ==> r.error == ComputationFailed)
            && (r.Ok? <==>
                  && t in KeysOf(rows)
                  && var times := ColumnValues(rows, t);
                  && times != []
                  && var n := IntervalCount(samplingPoints, |rows|);
                  && n >= 1 && (MinOf(times) < MaxOf(times) || n == 1))
  {
    assert FirstMissing(rows[0], selected).None?;
    if t in KeysOf(rows) {
      TimesNonEmpty(rows, t);
      var plan := PlanFor(ColumnValues(rows, t), samplingPoints, |rows|);
      if plan.Some? {
        TimesInRange(rows, t);
        assert InRange(plan.value, rows, t);
        SampledRowsComplete(plan.value, rows, t, selected);
      }
    }
  }

  /** A successful sampled comparison is the table of the sampled records
      of the plan from the least time to the greatest in n intervals. */
  lemma SampledBranch(rows: seq<Row>, t: string, selected: seq<string>,
                      useSampling: bool, samplingPoints: int)
    requires ComparisonOf(rows, t, selected, useSampling, samplingPoints).Ok?
    requires Samples(rows, useSampling, samplingPoints)
    ensures var times := ColumnValues(rows, t);
            && times != []
            && var p := Plan(MinOf(times), MaxOf(times), IntervalCount(samplingPoints, |rows|));
            && ValidPlan(p) && InRange(p, rows, t)
            && AllComplete(SampledRows(p, rows, t, selected), t, selected)
            && ComparisonOf(rows, t, selected, useSampling, samplingPoints)
               == Tabulate(SampledRows(p, rows, t, selected), t, selected, TimeInterval, |rows|)
  {
    assert rows != [] && FirstMissing(rows[0], selected).None? && t in KeysOf(rows);
    TimesNonEmpty(rows, t);
    var p := PlanFor(ColumnValues(rows, t), samplingPoints, |rows|).value;
    TimesInRange(rows, t);
    assert InRange(p, rows, t);
    SampledRowsComplete(p, rows, t, selected);
  }

  /** A sampled comparison: one point per non-empty bucket, at most n, with
      strictly ascending time points, every series as long as the time
      axis, and the counts as reported. */
  lemma ComparisonSampledShape(rows: seq<Row>, t: string, selected: seq<string>,
                               useSampling: bool, samplingPoints: int)
    requires ComparisonOf(rows, t, selected, useSampling, samplingPoints).Ok?
    requires Samples(rows, useSampling, samplingPoints)
    ensures var d := ComparisonOf(rows, t, selected, useSampling, samplingPoints).value;
            && d.samplingMethod == TimeInterval
            && d.samplingPoints == |d.timePoints| <= IntervalCount(samplingPoints, |rows|)
            && d.originalPoints == |rows|
            && StrictlyAscending(d.timePoints)
            && (forall c :: c in d.series <==> c in selected)
            && (forall c :: c in d.series ==> |d.series[c]| == |d.timePoints|)
  {
    SampledBranch(rows, t, selected, useSampling, samplingPoints);
    var times := ColumnValues(rows, t);
    var p := Plan(MinOf(times), MaxOf(times), IntervalCount(samplingPoints, |rows|));
    SampledRowsComplete(p, rows, t, selected);
    CentersStrictlyAscending(p, rows, t);
  }

  /** The i-th point of the table of the sampled records: the i-th centre,
      in its bucket, and the i-th bucket's mean of each requested column. */
  lemma SampledTableAt(p: Plan, rows: seq<Row>, t: string, selected: seq<string>, c: string, i: nat)
    requires ValidPlan(p) && InRange(p, rows, t)
    requires c in selected && i < |Groups(p, rows, t)|
    ensures var d := Tabulate(SampledRows(p, rows, t, selected), t, selected, TimeInterval, |rows|);
            var g := Groups(p, rows, t)[i];
            && d.Ok? && GroupWellFormed(p, rows, t, g) && t in g.rows[0]
            && i < |d.value.timePoints| && d.value.timePoints[i] == Center(g, t)
            && InBucket(p, d.value.timePoints[i], g.index)
            && c in d.value.series && i < |d.value.series[c]|
            && d.value.series[c][i] == MeanOrZero(g.rows, c)
  {
    var sampled := SampledRows(p, rows, t, selected);
    SampledRowsComplete(p, rows, t, selected);
    SampledRowsAt(p, rows, t, selected, i);
    CenterInBucket(p, rows, t, Groups(p, rows, t)[i]);
    TabulateAt(sampled, t, selected, TimeInterval, |rows|, c, i);
  }

  /** The i-th point of a table of complete records: the i-th record's time
      and value. */
  lemma TabulateAt(processed: seq<Row>, t: string, selected: seq<string>,
                   samplingMethod: string, original: nat, c: string, i: nat)
    requires AllComplete(processed, t, selected)
    requires c in selected && i < |processed|
    ensures var d := Tabulate(processed, t, selected, samplingMethod, original);
            && d.Ok? && i < |d.value.timePoints| && d.value.timePoints[i] == processed[i][t]
            && c in d.value.series && i < |d.value.series[c]|
            && d.value.series[c][i] == processed[i][c]
  {
    var d := Tabulate(processed, t, selected, samplingMethod, original);
    assert d.value.timePoints == SeriesOf(processed, t) && d.value.series[c] == SeriesOf(processed, c);
  }

  /** What each sampled point is: the i-th time point is the mean time of
      the i-th non-empty bucket and lies in it, and each series holds at i
      the mean of the column's values in that bucket (0 when it has none),
      which lies between their least and greatest. */
  lemma ComparisonSampledValues(rows: seq<Row>, t: string, selected: seq<string>,
                                useSampling: bool, samplingPoints: int, c: string, i: nat)
    requires ComparisonOf(rows, t, selected, useSampling, samplingPoints).Ok?
    requires Samples(rows, useSampling, samplingPoints)
    requires c in selected
    requires i < |ComparisonOf(rows, t, selected, useSampling, samplingPoints).value.timePoints|
    ensures var d := ComparisonOf(rows, t, selected, useSampling, samplingPoints).value;
            var times := ColumnValues(rows, t);
            && times != []
            && var p := Plan(MinOf(times), MaxOf(times), IntervalCount(samplingPoints, |rows|));
            && ValidPlan(p) && InRange(p, rows, t)
            && var gs := Groups(p, rows, t);
            && i < |gs| && gs[i].rows != [] && t in gs[i].rows[0]
            && d.timePoints[i] == Center(gs[i], t)
            && InBucket(p, d.timePoints[i], gs[i].index)
            && c in d.series && i < |d.series[c]|
            && d.series[c][i] == MeanOrZero(gs[i].rows, c)
            && var vs := ColumnValues(gs[i].rows, c);
            && (vs != [] ==> MinOf(vs) <= d.series[c][i] <= MaxOf(vs))
  {
    SampledBranch(rows, t, selected, useSampling, samplingPoints);
    var times := ColumnValues(rows, t);
    var p := Plan(MinOf(times), MaxOf(times), IntervalCount(samplingPoints, |rows|));
    SampledRowsComplete(p, rows, t, selected);
    SampledTableAt(p, rows, t, selected, c, i);
    var vs := ColumnValues(Groups(p, rows, t)[i].rows, c);
    if vs != [] {
      MeanWithin(vs, MinOf(vs), MaxOf(vs));
    }
  }

  /** Every successful result has at least one time point, and its time
      range is the least and greatest of them. */
  lemma ComparisonTimeRange(rows: seq<Row>, t: string, selected: seq<string>,
                            useSampling: bool, samplingPoints: int)
    requires ComparisonOf(rows, t, selected, useSampling, samplingPoints).Ok?
    ensures var d := ComparisonOf(rows, t, selected, useSampling, samplingPoints).value;
            && d.timePoints != []
            && d.timeMin in d.timePoints && d.timeMax in d.timePoints
            && forall x :: x in d.timePoints ==> d.timeMin <= x <= d.timeMax
  {
    assert rows != [];
    if Samples(rows, useSampling, samplingPoints) {
      assert t in KeysOf(rows);
      TimesNonEmpty(rows, t);
      var p := PlanFor(ColumnValues(rows, t), samplingPoints, |rows|).value;
      TimesInRange(rows, t);
      assert InRange(p, rows, t);
      CentersNonEmpty(p, rows, t);
      SampledRowsComplete(p, rows, t, selected);
    }
  }
}
