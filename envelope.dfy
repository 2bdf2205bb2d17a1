/** The envelope engine: per time slot, the greatest and least value each
    selected column takes across the historical datasets. Three variants:
    the sampled envelope over time buckets (`_compute_envelope_with_sampling`),
    the exact-time envelope that skips missing entries
    (`_compute_envelope_full_data`), and the exact-time envelope that fills
    them with 0 (`calculate_envelope_simple`). Each is a method with the
    source's loops, proved equal to a specification function whose
    properties are proved as lemmas. */
module Envelope {
  import opened Wrappers
  import opened Rows
  import opened Sorting
  import opened Bucketing

  /** The upper and lower curve of one column. */
  datatype Band = Band(upper: seq<real>, lower: seq<real>)

  /** The result dictionary of the sampled and full-data envelopes. */
  datatype EnvelopeData = EnvelopeData(
    timePoints: seq<real>,
    bands: map<string, Band>,
    dataCount: nat,
    samplingMethod: string,
    samplingPoints: nat,
    originalPoints: nat,
    timeMin: real,
    timeMax: real)

  /** The result dictionary of `calculate_envelope_simple`. */
  datatype SimpleEnvelope = SimpleEnvelope(
    timePoints: seq<real>,
    bands: map<string, Band>,
    dataCount: nat,
    timeMin: real,
    timeMax: real)

  /** The error results: no historical record, the fetch of the historical
      rows failed, no usable rows, unknown experiment type, and an exception
      inside the computation (caught and reported). */
  datatype EnvelopeError = NoHistoricalData | FetchFailed | NoValidData | TypeNotFound | ComputationFailed

  datatype Outcome<T> = Computed(value: T) | Failed(error: EnvelopeError)

  const TimeInterval: string := "time_interval"
  const FullData: string := "full_data"

  // ---------------------------------------------------------------------------
  // Sampled envelope

  /** The greatest non-null value of `c` in the group, or 0 when there is none. */
  function UpperOf(g: Group, c: string): real {
    var vs := ColumnValues(g.rows, c);
    if vs == [] then 0.0 else MaxOf(vs)
  }

  /** The least non-null value of `c` in the group, or 0 when there is none. */
  function LowerOf(g: Group, c: string): real {
    var vs := ColumnValues(g.rows, c);
    if vs == [] then 0.0 else MinOf(vs)
  }

  function SampledBand(p: Plan, rows: seq<Row>, t: string, c: string): Band
    requires ValidPlan(p) && InRange(p, rows, t)
  {
    var gs := Groups(p, rows, t);
    Band(seq(|gs|, k requires 0 <= k < |gs| => UpperOf(gs[k], c)),
         seq(|gs|, k requires 0 <= k < |gs| => LowerOf(gs[k], c)))
  }

  /** The selected columns the fetched frame has; others are skipped. */
  function PresentColumns(rows: seq<Row>, selected: seq<string>): set<string> {
    set c | c in selected && c in KeysOf(rows)
  }

  /** What `_compute_envelope_with_sampling` returns for the concatenated
      historical rows: an error for an empty frame, a missing time column or
      edges pandas refuses; otherwise, per present selected column, the
      bucket maxima and minima, with the bucket centres as time axis. */
  function SampledEnvelope(rows: seq<Row>, t: string, selected: seq<string>,
                           samplingPoints: int, dataCount: nat): Outcome<EnvelopeData>
  {
    if rows == [] || KeysOf(rows) == {} then Failed(NoValidData)
    else if t !in KeysOf(rows) then Failed(ComputationFailed)
    else
      TimesNonEmpty(rows, t);
      var times := ColumnValues(rows, t);
      var plan := PlanFor(times, samplingPoints, |rows|);
      if plan.None? then Failed(ComputationFailed)
      else
        var p := plan.value;
        TimesInRange(rows, t);
        var present := PresentColumns(rows, selected);
        var centers := if present == {} then [] else Centers(p, rows, t);
        Computed(EnvelopeData(
          Sort(centers, RealLe),
          map c | c in present :: SampledBand(p, rows, t, c),
          dataCount, TimeInterval, |centers|, |rows|, p.lo, p.hi))
  }

  /** One pass of the inner loop of `_compute_envelope_with_sampling`: for
      each group, its centre and the column's maximum and minimum. */
  method ColumnOverGroups(p: Plan, rows: seq<Row>, t: string, column: string)
    returns (band: Band, current: seq<real>)
    requires ValidPlan(p) && InRange(p, rows, t)
    ensures band == SampledBand(p, rows, t, column)
    ensures current == Centers(p, rows, t)
  {
    var gs := Groups(p, rows, t);
    ghost var target := SampledBand(p, rows, t, column);
    ghost var centers := Centers(p, rows, t);
    var upper: seq<real> := [];
    var lower: seq<real> := [];
    current := [];
    for k := 0 to |gs|
      invariant upper == target.upper[..k] && lower == target.lower[..k]
      invariant current == centers[..k]
    {
      var g := gs[k];
      BucketAt(p, rows, t, column, k);
      PrefixStep(target.upper, k);
      PrefixStep(target.lower, k);
      PrefixStep(centers, k);
      current := current + [Center(g, t)];
      var columnValues := ColumnValues(g.rows, column);
      if |columnValues| > 0 {
        upper := upper + [MaxOf(columnValues)];
        lower := lower + [MinOf(columnValues)];
      } else {
        upper := upper + [0.0];
        lower := lower + [0.0];
      }
    }
    assert target.upper[..|gs|] == target.upper && target.lower[..|gs|] == target.lower;
    assert centers[..|gs|] == centers;
    band := Band(upper, lower);
  }

  /** The k-th point of a sampled band and of the centres. */
  lemma BucketAt(p: Plan, rows: seq<Row>, t: string, c: string, k: nat)
    requires ValidPlan(p) && InRange(p, rows, t) && k < |Groups(p, rows, t)|
    ensures var g := Groups(p, rows, t)[k];
            && g.rows != [] && t in g.rows[0]
            && |SampledBand(p, rows, t, c).upper| == |Groups(p, rows, t)|
            && |SampledBand(p, rows, t, c).lower| == |Groups(p, rows, t)|
            && SampledBand(p, rows, t, c).upper[k] == UpperOf(g, c)
            && SampledBand(p, rows, t, c).lower[k] == LowerOf(g, c)
            && Centers(p, rows, t)[k] == Center(g, t)
  {
    var g := Groups(p, rows, t)[k];
    assert GroupWellFormed(p, rows, t, g) && g.rows[0] in g.rows;
  }

  /** `_compute_envelope_with_sampling` after the fetch: the loop over the
      selected columns. */
  method ComputeSampled(rows: seq<Row>, t: string, selected: seq<string>,
                        samplingPoints: int, dataCount: nat) returns (res: Outcome<EnvelopeData>)
    ensures res == SampledEnvelope(rows, t, selected, samplingPoints, dataCount)
  {
    var cols := KeysOf(rows);
    if rows == [] || cols == {} {
      return Failed(NoValidData);
    }
    if t !in cols {
      return Failed(ComputationFailed);
    }
    TimesNonEmpty(rows, t);
    var times := ColumnValues(rows, t);
    var plan := PlanFor(times, samplingPoints, |rows|);
    if plan.None? {
      return Failed(ComputationFailed);
    }
    var p := plan.value;
    TimesInRange(rows, t);
    assert InRange(p, rows, t);
    var bands, timePoints := BandsOverColumns(p, rows, t, selected);
    res := Computed(EnvelopeData(Sort(timePoints, RealLe), bands, dataCount, TimeInterval,
                                 |timePoints|, |rows|, p.lo, p.hi));
  }

  /** The loop over the selected columns: a band for each one the data
      has, and the bucket centres once some band was computed. */
  method BandsOverColumns(p: Plan, rows: seq<Row>, t: string, selected: seq<string>)
    returns (bands: map<string, Band>, timePoints: seq<real>)
    requires ValidPlan(p) && InRange(p, rows, t) && t in KeysOf(rows)
    ensures bands == map c | c in PresentColumns(rows, selected) :: SampledBand(p, rows, t, c)
    ensures timePoints == if PresentColumns(rows, selected) == {} then [] else Centers(p, rows, t)
  {
    CentersNonEmpty(p, rows, t);
    bands := map[];
    timePoints := [];
    var centers := Centers(p, rows, t);
    for j := 0 to |selected|
      invariant forall c :: c in bands <==> c in selected[..j] && c in KeysOf(rows)
      invariant forall c :: c in bands ==> bands[c] == SampledBand(p, rows, t, c)
      invariant bands == map[] ==> timePoints == []
      invariant bands != map[] ==> timePoints == centers
    {
      var column := selected[j];
      assert forall c :: c in selected[..j + 1] <==> c in selected[..j] || c == column;
      if column in KeysOf(rows) {
        var band, current := ColumnOverGroups(p, rows, t, column);
        if timePoints == [] {
          timePoints := current;
        }
        bands := bands[column := band];
      }
    }
    assert selected[..|selected|] == selected;
    BandsOfPresent(bands, p, rows, t, selected);
  }

  lemma BandsOfPresent(bands: map<string, Band>, p: Plan, rows: seq<Row>, t: string, selected: seq<string>)
    requires ValidPlan(p) && InRange(p, rows, t)
    requires forall c :: c in bands <==> c in selected && c in KeysOf(rows)
    requires forall c :: c in bands ==> bands[c] == SampledBand(p, rows, t, c)
    ensures bands == map c | c in PresentColumns(rows, selected) :: SampledBand(p, rows, t, c)
    ensures bands == map[] <==> PresentColumns(rows, selected) == {}
  {
    var present := PresentColumns(rows, selected);
    assert forall c :: c in bands <==> c in present;
    if present != {} {
      var c :| c in present;
      assert c in bands;
    }
  }

  /** All values equal: what makes the least and greatest time coincide. */
  ghost predicate SingleInstant(s: seq<real>) {
    forall i, j :: 0 <= i < |s| && 0 <= j < |s| ==> s[i] == s[j]
  }

  lemma MinMaxEqual(s: seq<real>)
    requires |s| > 0
    ensures MinOf(s) == MaxOf(s) <==> SingleInstant(s)
  {
    if MinOf(s) == MaxOf(s) {
      forall i, j | 0 <= i < |s| && 0 <= j < |s| ensures s[i] == s[j] {
        assert s[i] in s && s[j] in s;
      }
    } else {
      assert MinOf(s) in s && MaxOf(s) in s;
    }
  }

  /** The sampled envelope fails exactly in these cases: no rows or no
      columns (no valid data); no time column, a negative interval count, or
      one instant with more than one interval (pandas' duplicate edges). */
  lemma SampledEnvelopeErrors(rows: seq<Row>, t: string, selected: seq<string>,
                              samplingPoints: int, dataCount: nat)
    ensures var r := SampledEnvelope(rows, t, selected, samplingPoints, dataCount);
            && (r == Failed(NoValidData) <==> rows == [] || KeysOf(rows) == {})
            && (r == Failed(ComputationFailed) <==>
                  && rows != [] && KeysOf(rows) != {}
                  && var n := IntervalCount(samplingPoints, |rows|);
                     t !in KeysOf(rows) || n < 1 || (n >= 2 && SingleInstant(ColumnValues(rows, t))))
            && (r.Failed? ==> r.error == NoValidData || r.error == ComputationFailed)
  {
    if rows != [] && KeysOf(rows) != {} && t in KeysOf(rows) {
      TimesNonEmpty(rows, t);
      MinMaxEqual(ColumnValues(rows, t));
    }
  }

  /** The shape of a sampled envelope: the band columns are the selected
      columns the data has; every band is as long as the time axis, which
      has at most n points that strictly ascend; upper is never below lower;
      the counts and the time range are as reported. */
  lemma SampledEnvelopeShape(rows: seq<Row>, t: string, selected: seq<string>,
                             samplingPoints: int, dataCount: nat)
    requires SampledEnvelope(rows, t, selected, samplingPoints, dataCount).Computed?
    ensures var e := SampledEnvelope(rows, t, selected, samplingPoints, dataCount).value;
            && e.samplingMethod == TimeInterval && e.dataCount == dataCount
            && e.samplingPoints == |e.timePoints| && e.originalPoints == |rows|
            && |e.timePoints| <= IntervalCount(samplingPoints, |rows|)
            && StrictlyAscending(e.timePoints)
            && (forall c :: c in e.bands <==> c in selected && c in KeysOf(rows))
            && (forall c :: c in e.bands ==>
                  |e.bands[c].upper| == |e.timePoints| && |e.bands[c].lower| == |e.timePoints|)
            && (forall c, i :: c in e.bands && 0 <= i < |e.bands[c].upper| ==>
                  i < |e.bands[c].lower| && e.bands[c].lower[i] <= e.bands[c].upper[i])
            && e.timeMin == MinOf(ColumnValues(rows, t)) && e.timeMax == MaxOf(ColumnValues(rows, t))
  {
    SampledAxisShape(rows, t, selected, samplingPoints, dataCount);
    SampledBandsShape(rows, t, selected, samplingPoints, dataCount);
  }

  lemma SampledAxisShape(rows: seq<Row>, t: string, selected: seq<string>,
                             samplingPoints: int, dataCount: nat)
    requires SampledEnvelope(rows, t, selected, samplingPoints, dataCount).Computed?
    ensures var e := SampledEnvelope(rows, t, selected, samplingPoints, dataCount).value;
            && e.samplingMethod == TimeInterval && e.dataCount == dataCount
            && e.samplingPoints == |e.timePoints| && e.originalPoints == |rows|
            && |e.timePoints| <= IntervalCount(samplingPoints, |rows|)
            && StrictlyAscending(e.timePoints)
            && (forall c :: c in e.bands <==> c in selected && c in KeysOf(rows))
            && e.timeMin == MinOf(ColumnValues(rows, t)) && e.timeMax == MaxOf(ColumnValues(rows, t))
  {
    TimesNonEmpty(rows, t);
    var times := ColumnValues(rows, t);
    var p := PlanFor(times, samplingPoints, |rows|).value;
    TimesInRange(rows, t);
    assert InRange(p, rows, t);
    var present := PresentColumns(rows, selected);
    var centers := if present == {} then [] else Centers(p, rows, t);
    SortedCenters(p, rows, t, centers);
  }

  lemma SampledBandsShape(rows: seq<Row>, t: string, selected: seq<string>,
                             samplingPoints: int, dataCount: nat)
    requires SampledEnvelope(rows, t, selected, samplingPoints, dataCount).Computed?
    ensures var e := SampledEnvelope(rows, t, selected, samplingPoints, dataCount).value;
            && (forall c :: c in e.bands ==>
                  |e.bands[c].upper| == |e.timePoints| && |e.bands[c].lower| == |e.timePoints|)
            && (forall c, i :: c in e.bands && 0 <= i < |e.bands[c].upper| ==>
                  i < |e.bands[c].lower| && e.bands[c].lower[i] <= e.bands[c].upper[i])
  {
    var p := SampledPlan(rows, t, selected, samplingPoints, dataCount);
    var e := SampledEnvelope(rows, t, selected, samplingPoints, dataCount).value;
    forall c | c in e.bands
      ensures |e.bands[c].upper| == |e.timePoints| && |e.bands[c].lower| == |e.timePoints|
      ensures forall i :: 0 <= i < |e.bands[c].upper| ==> e.bands[c].lower[i] <= e.bands[c].upper[i]
    {
      SampledBandOrdered(p, rows, t, c);
    }
  }

  /** The bucketing plan behind a computed sampled envelope, and its time
      axis and bands in terms of that plan. */
  lemma SampledPlan(rows: seq<Row>, t: string, selected: seq<string>,
                    samplingPoints: int, dataCount: nat) returns (p: Plan)
    requires SampledEnvelope(rows, t, selected, samplingPoints, dataCount).Computed?
    ensures ValidPlan(p) && InRange(p, rows, t)
    ensures var e := SampledEnvelope(rows, t, selected, samplingPoints, dataCount).value;
            && (e.bands != map[] ==> e.timePoints == Centers(p, rows, t))
            && forall c :: c in e.bands ==> e.bands[c] == SampledBand(p, rows, t, c)
  {
    TimesNonEmpty(rows, t);
    var times := ColumnValues(rows, t);
    p := PlanFor(times, samplingPoints, |rows|).value;
    TimesInRange(rows, t);
    assert InRange(p, rows, t);
    var e := SampledEnvelope(rows, t, selected, samplingPoints, dataCount).value;
    var present := PresentColumns(rows, selected);
    var centers := if present == {} then [] else Centers(p, rows, t);
    SortedCenters(p, rows, t, centers);
    if e.bands != map[] {
      var c :| c in e.bands;
      assert c in present;
    }
  }

  lemma SortedCenters(p: Plan, rows: seq<Row>, t: string, centers: seq<real>)
    requires ValidPlan(p) && InRange(p, rows, t)
    requires centers == [] || centers == Centers(p, rows, t)
    ensures Sort(centers, RealLe) == centers && StrictlyAscending(centers)
  {
    CentersStrictlyAscending(p, rows, t);
    RealLeIsTotalOrder();
    assert SortedBy(centers, RealLe);
    SortOfSorted(centers, RealLe);
  }

  /** A sampled band has one point per bucket, the upper never below the lower. */
  lemma SampledBandOrdered(p: Plan, rows: seq<Row>, t: string, c: string)
    requires ValidPlan(p) && InRange(p, rows, t)
    ensures var b := SampledBand(p, rows, t, c);
            && |b.upper| == |Groups(p, rows, t)| && |b.lower| == |Groups(p, rows, t)|
            && forall i :: 0 <= i < |b.upper| ==> b.lower[i] <= b.upper[i]
  {
    var gs := Groups(p, rows, t);
    var b := SampledBand(p, rows, t, c);
    forall i | 0 <= i < |b.upper| ensures b.lower[i] <= b.upper[i] {
      var vs := ColumnValues(gs[i].rows, c);
      if vs != [] {
        assert MinOf(vs) in vs;
      }
    }
  }

  /** What each point of a sampled envelope is: the i-th time point is the
      mean time of the i-th non-empty bucket, and the bands hold the greatest
      and least non-null value of the column in that bucket, or 0 and 0 when
      the column has none there. */
  lemma SampledEnvelopeBuckets(rows: seq<Row>, t: string, selected: seq<string>,
                               samplingPoints: int, dataCount: nat, c: string, i: nat)
    requires SampledEnvelope(rows, t, selected, samplingPoints, dataCount).Computed?
    requires c in SampledEnvelope(rows, t, selected, samplingPoints, dataCount).value.bands
    requires i < |SampledEnvelope(rows, t, selected, samplingPoints, dataCount).value.timePoints|
    ensures var e := SampledEnvelope(rows, t, selected, samplingPoints, dataCount).value;
            var p := Plan(e.timeMin, e.timeMax, IntervalCount(samplingPoints, |rows|));
            && ValidPlan(p) && InRange(p, rows, t)
            && var gs := Groups(p, rows, t);
            && |gs| == |e.timePoints|
            && var vs := ColumnValues(gs[i].rows, c);
            && gs[i].rows != [] && t in gs[i].rows[0]
            && e.timePoints[i] == Center(gs[i], t)
            && InBucket(p, e.timePoints[i], gs[i].index)
            && (vs == [] ==> e.bands[c].upper[i] == 0.0 && e.bands[c].lower[i] == 0.0)
            && (vs != [] ==> e.bands[c].upper[i] in vs && e.bands[c].lower[i] in vs
                             && forall x :: x in vs ==> e.bands[c].lower[i] <= x <= e.bands[c].upper[i])
  {
    SampledEnvelopeShape(rows, t, selected, samplingPoints, dataCount);
    TimesNonEmpty(rows, t);
    var times := ColumnValues(rows, t);
    var p := PlanFor(times, samplingPoints, |rows|).value;
    TimesInRange(rows, t);
    assert InRange(p, rows, t);
    var e := SampledEnvelope(rows, t, selected, samplingPoints, dataCount).value;
    var present := PresentColumns(rows, selected);
    assert present != {};
    var centers := Centers(p, rows, t);
    CentersStrictlyAscending(p, rows, t);
    RealLeIsTotalOrder();
    SortOfSorted(centers, RealLe);
    var gs := Groups(p, rows, t);
    assert GroupWellFormed(p, rows, t, gs[i]) && gs[i].rows[0] in gs[i].rows;
    CenterInBucket(p, rows, t, gs[i]);
  }

  // ---------------------------------------------------------------------------
  // Exact-time envelopes

  /** The values of column `c` in the rows whose time is exactly `tp`, in
      row order. */
  function ValuesAt(rows: seq<Row>, t: string, tp: real, c: string): (vs: seq<real>)
    ensures forall x :: x in vs <==> exists r :: r in rows && t in r && r[t] == tp && c in r && r[c] == x
  {
    if rows == [] then []
    else
      var last := rows[|rows| - 1];
      var init := rows[..|rows| - 1];
      assert rows == init + [last];
      assert forall r :: r in rows <==> r in init || r == last;
      ValuesAt(init, t, tp, c) + (if t in last && last[t] == tp && c in last then [last[c]] else [])
  }

  /** The distinct times of the rows that have one, in first-seen order. */
  function DistinctTimes(rows: seq<Row>, t: string): (ds: seq<real>)
    ensures forall i, j :: 0 <= i < j < |ds| ==> ds[i] != ds[j]
    ensures forall x :: x in ds <==> exists r :: r in rows && t in r && r[t] == x
  {
    if rows == [] then []
    else
      var last := rows[|rows| - 1];
      var init := rows[..|rows| - 1];
      assert rows == init + [last];
      assert forall r :: r in rows <==> r in init || r == last;
      var d := DistinctTimes(init, t);
      if t in last && last[t] !in d then d + [last[t]] else d
  }

  /** `sorted(...)` of the distinct times. */
  function ExactAxis(rows: seq<Row>, t: string): seq<real> {
    Sort(DistinctTimes(rows, t), RealLe)
  }

  /** The exact-time axis has one entry per distinct time of the rows, in
      strictly ascending order. */
  lemma ExactAxisProperties(rows: seq<Row>, t: string)
    ensures StrictlyAscending(ExactAxis(rows, t))
    ensures forall x :: x in ExactAxis(rows, t) <==> exists r :: r in rows && t in r && r[t] == x
    ensures ExactAxis(rows, t) == [] <==> forall r :: r in rows ==> t !in r
  {
    var ds := DistinctTimes(rows, t);
    SortDistinctReals(ds);
    var axis := ExactAxis(rows, t);
    assert axis == Sort(ds, RealLe);
    if axis != [] {
      assert axis[0] in axis;
    }
    if exists r :: r in rows && t in r {
      var r :| r in rows && t in r;
      assert r[t] in ds;
      assert r[t] in axis;
    }
  }

  /** The same values, regardless of order and repetition. */
  ghost predicate SameElements(a: seq<real>, b: seq<real>) {
    forall x :: x in a <==> x in b
  }

  lemma MaxMinSameElements(a: seq<real>, b: seq<real>)
    requires b != [] && SameElements(a, b)
    ensures a != [] && MaxOf(a) == MaxOf(b) && MinOf(a) == MinOf(b)
  {
    var x := b[0];
    assert x in b;
    assert x in a <==> x in b;
    assert MaxOf(a) in b && MaxOf(b) in a;
    assert MinOf(a) in b && MinOf(b) in a;
  }

  /** The list under a key, or none. */
  function ListAt(acc: map<(real, string), seq<real>>, key: (real, string)): seq<real> {
    if key in acc then acc[key] else []
  }

  /** The inner loop over the selected columns for one row at time `tp`:
      each selected column the row has gets the row's value appended under
      (tp, column). */
  method AddRow(acc0: map<(real, string), seq<real>>, row: Row, tp: real, selected: seq<string>)
    returns (acc: map<(real, string), seq<real>>)
    ensures forall key :: key in acc <==> key in acc0 || (key.0 == tp && key.1 in selected && key.1 in row)
    ensures forall key :: key in acc ==>
              SameElements(acc[key], ListAt(acc0, key) + if key.0 == tp && key.1 in selected && key.1 in row then [row[key.1]] else [])
  {
    acc := acc0;
    for j := 0 to |selected|
      invariant forall key :: key in acc <==> key in acc0 || (key.0 == tp && key.1 in selected[..j] && key.1 in row)
      invariant forall key :: key in acc ==>
                  SameElements(acc[key], ListAt(acc0, key) + if key.0 == tp && key.1 in selected[..j] && key.1 in row then [row[key.1]] else [])
    {
      var column := selected[j];
      assert forall c :: c in selected[..j + 1] <==> c in selected[..j] || c == column;
      if column in row {
        var key := (tp, column);
        if key in acc {
          acc := acc[key := acc[key] + [row[column]]];
        } else {
          acc := acc[key := [row[column]]];
        }
      }
    }
    assert selected[..|selected|] == selected;
  }

  /** The loops that fill `all_data_by_time[time][column]` (full data) and
      `all_envelope_data[column][time]` (simple): both nested dictionaries
      are one map keyed by the (time, column) pair here, and `seen` holds
      the times in the order they were first met. Rows without a time are
      skipped. */
  method CollectByTime(rows: seq<Row>, t: string, selected: seq<string>)
    returns (acc: map<(real, string), seq<real>>, seen: seq<real>)
    ensures seen == DistinctTimes(rows, t)
    ensures forall key :: key in acc <==> key.1 in selected && ValuesAt(rows, t, key.0, key.1) != []
    ensures forall key :: key in acc ==> SameElements(acc[key], ValuesAt(rows, t, key.0, key.1))
  {
    acc := map[];
    seen := [];
    for k := 0 to |rows|
      invariant seen == DistinctTimes(rows[..k], t)
      invariant forall key :: key in acc <==> key.1 in selected && ValuesAt(rows[..k], t, key.0, key.1) != []
      invariant forall key :: key in acc ==> SameElements(acc[key], ValuesAt(rows[..k], t, key.0, key.1))
    {
      var row := rows[k];
      assert rows[..k + 1][..k] == rows[..k] && rows[..k + 1][k] == row;
      if t in row {
        var tp := row[t];
        if tp !in seen {
          seen := seen + [tp];
        }
        acc := AddRow(acc, row, tp, selected);
      }
    }
    assert rows[..|rows|] == rows;
  }

  /** The upper value at one exact time: the greatest value there, or 0. */
  function HighAt(rows: seq<Row>, t: string, tp: real, c: string): real {
    var vs := ValuesAt(rows, t, tp, c);
    if vs == [] then 0.0 else MaxOf(vs)
  }

  /** The lower value at one exact time: the least value there, or 0. */
  function LowAt(rows: seq<Row>, t: string, tp: real, c: string): real {
    var vs := ValuesAt(rows, t, tp, c);
    if vs == [] then 0.0 else MinOf(vs)
  }

  /** The axis points at which column `c` has a value. */
  function PresentTimes(rows: seq<Row>, t: string, c: string, axis: seq<real>): (ps: seq<real>)
    ensures |ps| <= |axis|
    ensures forall x :: x in ps <==> x in axis && ValuesAt(rows, t, x, c) != []
  {
    if axis == [] then []
    else
      var init := axis[..|axis| - 1];
      var last := axis[|axis| - 1];
      assert axis == init + [last];
      var ps := PresentTimes(rows, t, c, init);
      if ValuesAt(rows, t, last, c) != [] then ps + [last] else ps
  }

  /** Full-data band: one entry per axis point at which the column has a
      value, skipping the others. */
  function FullBand(rows: seq<Row>, t: string, c: string, axis: seq<real>): (b: Band)
    ensures |b.upper| == |PresentTimes(rows, t, c, axis)| == |b.lower|
    ensures forall i :: 0 <= i < |b.upper| ==>
              var vs := ValuesAt(rows, t, PresentTimes(rows, t, c, axis)[i], c);
              vs != [] && b.upper[i] == MaxOf(vs) && b.lower[i] == MinOf(vs)
  {
    if axis == [] then Band([], [])
    else
      var init := axis[..|axis| - 1];
      var last := axis[|axis| - 1];
      var b := FullBand(rows, t, c, init);
      var vs := ValuesAt(rows, t, last, c);
      if vs == [] then b else Band(b.upper + [MaxOf(vs)], b.lower + [MinOf(vs)])
  }

  /** Simple band: one entry per axis point, 0 where the column has none. */
  function SimpleBand(rows: seq<Row>, t: string, c: string, axis: seq<real>): Band {
    Band(seq(|axis|, i requires 0 <= i < |axis| => HighAt(rows, t, axis[i], c)),
         seq(|axis|, i requires 0 <= i < |axis| => LowAt(rows, t, axis[i], c)))
  }

  /** Every row has the time column. */
  predicate AllTimed(rows: seq<Row>, t: string) {
    forall i :: 0 <= i < |rows| ==> t in rows[i]
  }

  /** Looks up `row[time_column]` in every row, as the full-data loop does. */
  method CheckTimed(rows: seq<Row>, t: string) returns (b: bool)
    ensures b == AllTimed(rows, t)
  {
    for k := 0 to |rows|
      invariant forall i :: 0 <= i < k ==> t in rows[i]
    {
      if t !in rows[k] {
        return false;
      }
    }
    return true;
  }

  /** `_compute_envelope_full_data` for the rows read from the datasets'
      tables: a row without the time column raises (an error result); no rows
      is "no valid data"; otherwise the exact-time axis with, per selected
      column, the band that skips missing entries. */
  function FullEnvelope(rows: seq<Row>, t: string, selected: seq<string>, dataCount: nat): Outcome<EnvelopeData> {
    if !AllTimed(rows, t) then Failed(ComputationFailed)
    else
      var axis := ExactAxis(rows, t);
      if axis == [] then Failed(NoValidData)
      else
        Computed(EnvelopeData(axis, map c | c in selected :: FullBand(rows, t, c, axis),
                              dataCount, FullData, |axis|, |axis|, MinOf(axis), MaxOf(axis)))
  }

  /** `calculate_envelope_simple` for the rows read from the datasets'
      tables: rows without the time column are skipped; no time at all is
      "no valid data"; otherwise every band has one entry per time point. */
  function SimpleEnvelopeOf(rows: seq<Row>, t: string, selected: seq<string>): Outcome<SimpleEnvelope> {
    var axis := ExactAxis(rows, t);
    if axis == [] then Failed(NoValidData)
    else
      Computed(SimpleEnvelope(axis, map c | c in selected :: SimpleBand(rows, t, c, axis),
                              |axis|, MinOf(axis), MaxOf(axis)))
  }

  /** The band loop of `_compute_envelope_full_data` for one column. */
  method FullBandLoop(acc: map<(real, string), seq<real>>, rows: seq<Row>, t: string,
                      selected: seq<string>, c: string, axis: seq<real>) returns (band: Band)
    requires c in selected
    requires forall key :: key in acc <==> key.1 in selected && ValuesAt(rows, t, key.0, key.1) != []
    requires forall key :: key in acc ==> SameElements(acc[key], ValuesAt(rows, t, key.0, key.1))
    ensures band == FullBand(rows, t, c, axis)
  {
    var upper: seq<real> := [];
    var lower: seq<real> := [];
    for i := 0 to |axis|
      invariant Band(upper, lower) == FullBand(rows, t, c, axis[..i])
    {
      var tp := axis[i];
      assert axis[..i + 1][..i] == axis[..i] && axis[..i + 1][i] == tp;
      var key := (tp, c);
      if key in acc && |acc[key]| > 0 {
        MaxMinSameElements(acc[key], ValuesAt(rows, t, tp, c));
        upper := upper + [MaxOf(acc[key])];
        lower := lower + [MinOf(acc[key])];
      }
    }
    assert axis[..|axis|] == axis;
    band := Band(upper, lower);
  }

  /** The band loop of `calculate_envelope_simple` for one column. */
  method SimpleBandLoop(acc: map<(real, string), seq<real>>, rows: seq<Row>, t: string,
                        selected: seq<string>, c: string, axis: seq<real>) returns (band: Band)
    requires c in selected
    requires forall key :: key in acc <==> key.1 in selected && ValuesAt(rows, t, key.0, key.1) != []
    requires forall key :: key in acc ==> SameElements(acc[key], ValuesAt(rows, t, key.0, key.1))
    ensures band == SimpleBand(rows, t, c, axis)
  {
    var upper: seq<real> := [];
    var lower: seq<real> := [];
    for i := 0 to |axis|
      invariant |upper| == i && |lower| == i
      invariant forall k :: 0 <= k < i ==> upper[k] == HighAt(rows, t, axis[k], c) && lower[k] == LowAt(rows, t, axis[k], c)
    {
      var tp := axis[i];
      var key := (tp, c);
      if key in acc {
        MaxMinSameElements(acc[key], ValuesAt(rows, t, tp, c));
        upper := upper + [MaxOf(acc[key])];
        lower := lower + [MinOf(acc[key])];
      } else {
        upper := upper + [0.0];
        lower := lower + [0.0];
      }
    }
    band := Band(upper, lower);
  }

  /** The loop over the selected columns of `_compute_envelope_full_data`. */
  method FullBands(acc: map<(real, string), seq<real>>, rows: seq<Row>, t: string,
                   selected: seq<string>, axis: seq<real>) returns (bands: map<string, Band>)
    requires forall key :: key in acc <==> key.1 in selected && ValuesAt(rows, t, key.0, key.1) != []
    requires forall key :: key in acc ==> SameElements(acc[key], ValuesAt(rows, t, key.0, key.1))
    ensures bands == map c | c in selected :: FullBand(rows, t, c, axis)
  {
    bands := map[];
    for j := 0 to |selected|
      invariant forall c :: c in bands <==> c in selected[..j]
      invariant forall c :: c in bands ==> bands[c] == FullBand(rows, t, c, axis)
    {
      var column := selected[j];
      assert forall c :: c in selected[..j + 1] <==> c in selected[..j] || c == column;
      var band := FullBandLoop(acc, rows, t, selected, column, axis);
      bands := bands[column := band];
    }
    assert selected[..|selected|] == selected;
  }

  /** The loop over the selected columns of `calculate_envelope_simple`. */
  method SimpleBands(acc: map<(real, string), seq<real>>, rows: seq<Row>, t: string,
                     selected: seq<string>, axis: seq<real>) returns (bands: map<string, Band>)
    requires forall key :: key in acc <==> key.1 in selected && ValuesAt(rows, t, key.0, key.1) != []
    requires forall key :: key in acc ==> SameElements(acc[key], ValuesAt(rows, t, key.0, key.1))
    ensures bands == map c | c in selected :: SimpleBand(rows, t, c, axis)
  {
    bands := map[];
    for j := 0 to |selected|
      invariant forall c :: c in bands <==> c in selected[..j]
      invariant forall c :: c in bands ==> bands[c] == SimpleBand(rows, t, c, axis)
    {
      var column := selected[j];
      assert forall c :: c in selected[..j + 1] <==> c in selected[..j] || c == column;
      var band := SimpleBandLoop(acc, rows, t, selected, column, axis);
      bands := bands[column := band];
    }
    assert selected[..|selected|] == selected;
  }

  /** `_compute_envelope_full_data` after the reads. The source raises on
      the first row without the time column and discards everything, so the
      check comes first here. */
  method ComputeFull(rows: seq<Row>, t: string, selected: seq<string>, dataCount: nat)
    returns (res: Outcome<EnvelopeData>)
    ensures res == FullEnvelope(rows, t, selected, dataCount)
  {
    var timed := CheckTimed(rows, t);
    if !timed {
      return Failed(ComputationFailed);
    }
    var acc, seen := CollectByTime(rows, t, selected);
    if seen == [] {
      assert ExactAxis(rows, t) == [];
      return Failed(NoValidData);
    }
    var axis := Sort(seen, RealLe);
    var bands := FullBands(acc, rows, t, selected, axis);
    res := Computed(EnvelopeData(axis, bands, dataCount, FullData, |axis|, |axis|, MinOf(axis), MaxOf(axis)));
    ghost var spec := FullEnvelope(rows, t, selected, dataCount);
    assert spec.Computed? && spec.value.timePoints == axis && spec.value.bands == bands;
  }

  /** `calculate_envelope_simple` after the reads. */
  method ComputeSimple(rows: seq<Row>, t: string, selected: seq<string>)
    returns (res: Outcome<SimpleEnvelope>)
    ensures res == SimpleEnvelopeOf(rows, t, selected)
  {
    var acc, seen := CollectByTime(rows, t, selected);
    if seen == [] {
      assert ExactAxis(rows, t) == [];
      return Failed(NoValidData);
    }
    var axis := Sort(seen, RealLe);
    var bands := SimpleBands(acc, rows, t, selected, axis);
    res := Computed(SimpleEnvelope(axis, bands, |axis|, MinOf(axis), MaxOf(axis)));
  }

  /** The least and greatest of a strictly ascending sequence are its ends. */
  lemma AscendingEnds(s: seq<real>)
    requires |s| > 0 && StrictlyAscending(s)
    ensures MinOf(s) == s[0] && MaxOf(s) == s[|s| - 1]
  {
    var lo :| 0 <= lo < |s| && s[lo] == MinOf(s);
    var hi :| 0 <= hi < |s| && s[hi] == MaxOf(s);
    assert s[0] in s && s[|s| - 1] in s;
  }

  /** Restricting a strictly ascending axis keeps it strictly ascending. */
  lemma {:induction false} PresentTimesAscending(rows: seq<Row>, t: string, c: string, axis: seq<real>)
    requires StrictlyAscending(axis)
    ensures StrictlyAscending(PresentTimes(rows, t, c, axis))
  {
    if axis != [] {
      var init := axis[..|axis| - 1];
      var last := axis[|axis| - 1];
      PresentTimesAscending(rows, t, c, init);
      var ps := PresentTimes(rows, t, c, init);
      forall x | x in ps ensures x < last {
        var k :| 0 <= k < |init| && init[k] == x;
      }
      if ValuesAt(rows, t, last, c) != [] {
        var qs := ps + [last];
        forall i, j | 0 <= i < j < |qs| ensures qs[i] < qs[j] {
          if j == |qs| - 1 {
            assert qs[i] in ps;
          }
        }
      }
    }
  }

  /** A simple band grows by one entry per axis point. */
  lemma SimpleBandSnoc(rows: seq<Row>, t: string, c: string, axis: seq<real>)
    requires axis != []
    ensures var s := SimpleBand(rows, t, c, axis[..|axis| - 1]);
            var last := axis[|axis| - 1];
            SimpleBand(rows, t, c, axis) ==
              Band(s.upper + [HighAt(rows, t, last, c)], s.lower + [LowAt(rows, t, last, c)])
  {
  }

  /** Where the column has a value at every axis point, skipping and filling
      coincide: the full-data band is the simple band. */
  lemma {:induction false} FullBandAllPresent(rows: seq<Row>, t: string, c: string, axis: seq<real>)
    requires forall i :: 0 <= i < |axis| ==> ValuesAt(rows, t, axis[i], c) != []
    ensures FullBand(rows, t, c, axis) == SimpleBand(rows, t, c, axis)
  {
    if axis != [] {
      var init := axis[..|axis| - 1];
      var last := axis[|axis| - 1];
      assert forall i :: 0 <= i < |init| ==> init[i] == axis[i];
      FullBandAllPresent(rows, t, c, init);
      SimpleBandSnoc(rows, t, c, axis);
      var vs := ValuesAt(rows, t, last, c);
      assert vs != [];
      var f := FullBand(rows, t, c, init);
      assert FullBand(rows, t, c, axis) == Band(f.upper + [MaxOf(vs)], f.lower + [MinOf(vs)]);
    }
  }

  /** The axis points at which the column has a value, and the i-th
      full-data entry: the greatest and least value the column takes in the
      rows at the i-th of those points. */
  lemma FullBandValues(rows: seq<Row>, t: string, c: string, axis: seq<real>, i: nat)
    requires StrictlyAscending(axis)
    requires i < |FullBand(rows, t, c, axis).upper|
    ensures var ps := PresentTimes(rows, t, c, axis);
            var b := FullBand(rows, t, c, axis);
            && StrictlyAscending(ps)
            && (forall x :: x in ps <==> x in axis && exists r :: r in rows && t in r && r[t] == x && c in r)
            && i < |ps| && i < |b.lower|
            && (exists r :: r in rows && t in r && r[t] == ps[i] && c in r && r[c] == b.upper[i])
            && (exists r :: r in rows && t in r && r[t] == ps[i] && c in r && r[c] == b.lower[i])
            && (forall r :: r in rows && t in r && r[t] == ps[i] && c in r ==> b.lower[i] <= r[c] <= b.upper[i])
  {
    PresentTimesAscending(rows, t, c, axis);
    var ps := PresentTimes(rows, t, c, axis);
    var b := FullBand(rows, t, c, axis);
    forall x | x in axis && exists r :: r in rows && t in r && r[t] == x && c in r
      ensures x in ps
    {
      var r :| r in rows && t in r && r[t] == x && c in r;
      assert r[c] in ValuesAt(rows, t, x, c);
    }
    var vs := ValuesAt(rows, t, ps[i], c);
    assert MaxOf(vs) in vs && MinOf(vs) in vs;
    forall r | r in rows && t in r && r[t] == ps[i] && c in r
      ensures b.lower[i] <= r[c] <= b.upper[i]
    {
      assert r[c] in vs;
    }
  }

  /** The full-data envelope fails exactly when some row lacks the time
      column (the computation raises) or there are no rows at all. */
  lemma FullEnvelopeErrors(rows: seq<Row>, t: string, selected: seq<string>, dataCount: nat)
    ensures var r := FullEnvelope(rows, t, selected, dataCount);
            && (r == Failed(ComputationFailed) <==> exists i :: 0 <= i < |rows| && t !in rows[i])
            && (r == Failed(NoValidData) <==> rows == [])
            && (r.Failed? ==> r.error == ComputationFailed || r.error == NoValidData)
  {
    ExactAxisProperties(rows, t);
    if rows != [] && AllTimed(rows, t) {
      assert rows[0] in rows && t in rows[0];
    }
  }

  /** The shape of a full-data envelope: the time axis holds each distinct
      time of the rows once, strictly ascending; every selected column has a
      band no longer than the axis, with upper and lower equally long; the
      counts and the time range are as reported. */
  lemma FullEnvelopeShape(rows: seq<Row>, t: string, selected: seq<string>, dataCount: nat)
    requires FullEnvelope(rows, t, selected, dataCount).Computed?
    ensures var e := FullEnvelope(rows, t, selected, dataCount).value;
            && e.samplingMethod == FullData && e.dataCount == dataCount
            && e.samplingPoints == |e.timePoints| && e.originalPoints == |e.timePoints|
            && StrictlyAscending(e.timePoints)
            && (forall x :: x in e.timePoints <==> exists r :: r in rows && t in r && r[t] == x)
            && (forall c :: c in e.bands <==> c in selected)
            && (forall c :: c in e.bands ==>
                  |e.bands[c].upper| == |e.bands[c].lower| <= |e.timePoints|)
            && |e.timePoints| > 0
            && e.timeMin == e.timePoints[0] && e.timeMax == e.timePoints[|e.timePoints| - 1]
  {
    ExactAxisProperties(rows, t);
    AscendingEnds(ExactAxis(rows, t));
  }

  /** What each entry of a full-data band is: the band follows the axis
      points at which the column has a value, in ascending order, and its
      i-th upper and lower values are the greatest and least value the
      column takes in the rows at that time. */
  lemma FullEnvelopeValues(rows: seq<Row>, t: string, selected: seq<string>, dataCount: nat,
                           c: string, i: nat)
    requires FullEnvelope(rows, t, selected, dataCount).Computed?
    requires c in FullEnvelope(rows, t, selected, dataCount).value.bands
    requires i < |FullEnvelope(rows, t, selected, dataCount).value.bands[c].upper|
    ensures var e := FullEnvelope(rows, t, selected, dataCount).value;
            var ps := PresentTimes(rows, t, c, e.timePoints);
            var b := e.bands[c];
            && StrictlyAscending(ps)
            && (forall x :: x in ps <==> x in e.timePoints && exists r :: r in rows && t in r && r[t] == x && c in r)
            && i < |ps| && i < |b.lower|
            && (exists r :: r in rows && t in r && r[t] == ps[i] && c in r && r[c] == b.upper[i])
            && (exists r :: r in rows && t in r && r[t] == ps[i] && c in r && r[c] == b.lower[i])
            && (forall r :: r in rows && t in r && r[t] == ps[i] && c in r ==> b.lower[i] <= r[c] <= b.upper[i])
  {
    ExactAxisProperties(rows, t);
    FullBandValues(rows, t, c, ExactAxis(rows, t), i);
  }

  /** The simple envelope fails exactly when no row has the time column, and
      then reports "no valid data". */
  lemma SimpleEnvelopeErrors(rows: seq<Row>, t: string, selected: seq<string>)
    ensures var r := SimpleEnvelopeOf(rows, t, selected);
            && (r.Failed? <==> forall row :: row in rows ==> t !in row)
            && (r.Failed? ==> r.error == NoValidData)
  {
    ExactAxisProperties(rows, t);
  }

  /** The shape of a simple envelope: the same time axis as the full-data
      one; every selected column has a band exactly as long as the axis; the
      data count is the number of time points. */
  lemma SimpleEnvelopeShape(rows: seq<Row>, t: string, selected: seq<string>)
    requires SimpleEnvelopeOf(rows, t, selected).Computed?
    ensures var e := SimpleEnvelopeOf(rows, t, selected).value;
            && e.dataCount == |e.timePoints| > 0
            && StrictlyAscending(e.timePoints)
            && (forall x :: x in e.timePoints <==> exists r :: r in rows && t in r && r[t] == x)
            && (forall c :: c in e.bands <==> c in selected)
            && (forall c :: c in e.bands ==>
                  |e.bands[c].upper| == |e.timePoints| && |e.bands[c].lower| == |e.timePoints|)
            && e.timeMin == e.timePoints[0] && e.timeMax == e.timePoints[|e.timePoints| - 1]
  {
    ExactAxisProperties(rows, t);
    AscendingEnds(ExactAxis(rows, t));
  }

  /** What each entry of a simple band is: at a time where the column has
      values, the greatest and least of them; elsewhere 0 and 0. */
  lemma SimpleEnvelopeValues(rows: seq<Row>, t: string, selected: seq<string>, c: string, i: nat)
    requires SimpleEnvelopeOf(rows, t, selected).Computed?
    requires c in selected
    requires i < |SimpleEnvelopeOf(rows, t, selected).value.timePoints|
    ensures var e := SimpleEnvelopeOf(rows, t, selected).value;
            var tp := e.timePoints[i];
            && c in e.bands && i < |e.bands[c].upper| && i < |e.bands[c].lower|
            && var b := e.bands[c];
            && ((forall r :: r in rows && t in r && r[t] == tp ==> c !in r) ==>
                  b.upper[i] == 0.0 && b.lower[i] == 0.0)
            && ((exists r :: r in rows && t in r && r[t] == tp && c in r) ==>
                  && (exists r :: r in rows && t in r && r[t] == tp && c in r && r[c] == b.upper[i])
                  && (exists r :: r in rows && t in r && r[t] == tp && c in r && r[c] == b.lower[i])
                  && (forall r :: r in rows && t in r && r[t] == tp && c in r ==> b.lower[i] <= r[c] <= b.upper[i]))
  {
    var e := SimpleEnvelopeOf(rows, t, selected).value;
    var tp := e.timePoints[i];
    var vs := ValuesAt(rows, t, tp, c);
    assert (exists r :: r in rows && t in r && r[t] == tp && c in r) ==> vs != [] by {
      if exists r :: r in rows && t in r && r[t] == tp && c in r {
        var r :| r in rows && t in r && r[t] == tp && c in r;
        assert r[c] in vs;
      }
    }
    if vs != [] {
      assert MaxOf(vs) in vs && MinOf(vs) in vs;
      forall r | r in rows && t in r && r[t] == tp && c in r
        ensures e.bands[c].lower[i] <= r[c] <= e.bands[c].upper[i]
      {
        assert r[c] in vs;
      }
    }
  }

  /** The two exact-time envelopes agree where they should: when the
      full-data one succeeds, the simple one does too, on the same axis, and
      a column with a value at every time point gets the same band in both. */
  lemma SimpleFullAgree(rows: seq<Row>, t: string, selected: seq<string>, dataCount: nat, c: string)
    requires FullEnvelope(rows, t, selected, dataCount).Computed?
    requires c in selected
    requires forall x :: x in ExactAxis(rows, t) ==> exists r :: r in rows && t in r && r[t] == x && c in r
    ensures SimpleEnvelopeOf(rows, t, selected).Computed?
    ensures SimpleEnvelopeOf(rows, t, selected).value.timePoints == FullEnvelope(rows, t, selected, dataCount).value.timePoints
    ensures SimpleEnvelopeOf(rows, t, selected).value.bands[c] == FullEnvelope(rows, t, selected, dataCount).value.bands[c]
  {
    var axis := ExactAxis(rows, t);
    forall i | 0 <= i < |axis| ensures ValuesAt(rows, t, axis[i], c) != [] {
      assert axis[i] in axis;
      var r :| r in rows && t in r && r[t] == axis[i] && c in r;
      assert r[c] in ValuesAt(rows, t, axis[i], c);
    }
    FullBandAllPresent(rows, t, c, axis);
  }
}
