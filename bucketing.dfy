/** Time-interval bucketing as the sampled envelope and the comparison
    downsampling do it: `n = min(sampling_points, rows // 5) or 20`, `n + 1`
    evenly spaced edges from the least to the greatest time
    (`np.linspace`), and `pd.cut(..., include_lowest=True)`, whose buckets are
    right-closed, the first one also holding its left edge. Edges are exact
    reals here. */
module Bucketing {
  import opened Wrappers
  import opened Rows

  const DefaultSamplingPoints: int := 200
  const FallbackIntervals: int := 20

  function Min(a: int, b: int): int { if a <= b then a else b }

  /** `min(sampling_points, rows // 5) or 20`: the fallback 20 applies only
      when the minimum is 0; a negative request stays negative. */
  function IntervalCount(samplingPoints: int, rows: nat): (n: int)
    ensures n != 0
    ensures n < 0 <==> samplingPoints < 0
    ensures samplingPoints > 0 && rows >= 5 ==> n <= samplingPoints && 5 * n <= rows
    ensures samplingPoints == 0 || (samplingPoints > 0 && rows < 5) ==> n == FallbackIntervals
  {
    var m := Min(samplingPoints, rows / 5);
    if m == 0 then FallbackIntervals else m
  }

  /** The count is not a floor of 20: 50 rows give 10 intervals. */
  lemma FewRowsFewIntervals()
    ensures IntervalCount(DefaultSamplingPoints, 50) == 10
  {
  }

  /** and four rows give 20 intervals, more than there are rows. */
  lemma FallbackExceedsRows()
    ensures IntervalCount(DefaultSamplingPoints, 4) == 20
  {
  }

  /** The range and number of buckets. */
  datatype Plan = Plan(lo: real, hi: real, n: nat)

  /** The edges are increasing and pandas accepts them: at least one
      bucket, and equal ends only with a single bucket (two equal edges are
      the one repetition `pd.cut` allows). */
  predicate ValidPlan(p: Plan) {
    p.n >= 1 && p.lo <= p.hi && (p.lo == p.hi ==> p.n == 1)
  }

  /** `np.linspace(lo, hi, n + 1)[i]`. */
  function Edge(p: Plan, i: nat): real
    requires p.n >= 1
  {
    p.lo + (p.hi - p.lo) * (i as real) / (p.n as real)
  }

  lemma EdgeEnds(p: Plan)
    requires p.n >= 1
    ensures Edge(p, 0) == p.lo && Edge(p, p.n) == p.hi
  {
  }

  lemma EdgeMonotone(p: Plan, i: nat, j: nat)
    requires ValidPlan(p) && i <= j
    ensures Edge(p, i) <= Edge(p, j)
  {
    var d := p.hi - p.lo;
    var n := p.n as real;
    assert d * (j as real) - d * (i as real) == d * ((j - i) as real);
    assert d * ((j - i) as real) >= 0.0;
    assert d * (i as real) / n <= d * (j as real) / n;
  }

  lemma EdgeStrictlyMonotone(p: Plan, i: nat, j: nat)
    requires ValidPlan(p) && p.lo < p.hi && i < j
    ensures Edge(p, i) < Edge(p, j)
  {
    var d := p.hi - p.lo;
    var n := p.n as real;
    assert d * (j as real) - d * (i as real) == d * ((j - i) as real);
    assert d * ((j - i) as real) > 0.0;
    assert d * (i as real) / n < d * (j as real) / n;
  }

  /** The interval of bucket i: (edge i, edge i+1], and [lo, edge 1] for the
      first. */
  predicate InBucket(p: Plan, v: real, i: nat)
    requires p.n >= 1
  {
    && i < p.n
    && (if i == 0 then p.lo <= v else Edge(p, i) < v)
    && v <= Edge(p, i + 1)
  }

  /** The least bucket at or after i whose right edge is not below v. */
  function BucketFrom(p: Plan, v: real, i: nat): (b: nat)
    requires ValidPlan(p) && i < p.n
    ensures i <= b < p.n
    decreases p.n - i
  {
    if i == p.n - 1 || v <= Edge(p, i + 1) then i else BucketFrom(p, v, i + 1)
  }

  /** The bucket `pd.cut` assigns to a value in [lo, hi]. */
  function BucketOf(p: Plan, v: real): (b: nat)
    requires ValidPlan(p)
    ensures b < p.n
  {
    BucketFrom(p, v, 0)
  }

  lemma {:induction false} BucketFromInBucket(p: Plan, v: real, i: nat)
    requires ValidPlan(p) && i < p.n && v <= p.hi
    requires if i == 0 then p.lo <= v else Edge(p, i) < v
    ensures InBucket(p, v, BucketFrom(p, v, i))
    decreases p.n - i
  {
    if i == p.n - 1 {
      EdgeEnds(p);
    } else if !(v <= Edge(p, i + 1)) {
      BucketFromInBucket(p, v, i + 1);
    }
  }

  /** Every value in [lo, hi] lies in exactly one bucket: the one `pd.cut`
      assigns. */
  lemma BucketUnique(p: Plan, v: real, i: nat)
    requires ValidPlan(p) && p.lo <= v <= p.hi
    ensures InBucket(p, v, i) <==> i == BucketOf(p, v)
  {
    var b := BucketOf(p, v);
    BucketFromInBucket(p, v, 0);
    if InBucket(p, v, i) && i != b {
      var (x, y) := if i < b then (i, b) else (b, i);
      assert InBucket(p, v, x) && InBucket(p, v, y);
      EdgeMonotone(p, x + 1, y);
      assert false;
    }
  }

  /** A value on an interior edge goes to the lower bucket. */
  lemma InteriorEdgeGoesLower(p: Plan, k: nat)
    requires ValidPlan(p) && 1 <= k < p.n
    ensures BucketOf(p, Edge(p, k)) == k - 1
  {
    EdgeEnds(p);
    EdgeMonotone(p, 0, k);
    EdgeMonotone(p, k, p.n);
    if k > 1 {
      EdgeStrictlyMonotone(p, k - 1, k);
    }
    assert InBucket(p, Edge(p, k), k - 1);
    BucketUnique(p, Edge(p, k), k - 1);
  }

  /** The least time goes to the first bucket, the greatest to the last. */
  lemma EndsGoToEndBuckets(p: Plan)
    requires ValidPlan(p)
    ensures BucketOf(p, p.lo) == 0 && BucketOf(p, p.hi) == p.n - 1
  {
    EdgeEnds(p);
    EdgeMonotone(p, 1, p.n);
    assert InBucket(p, p.lo, 0);
    BucketUnique(p, p.lo, 0);
    if p.n > 1 {
      EdgeStrictlyMonotone(p, p.n - 1, p.n);
    }
    assert InBucket(p, p.hi, p.n - 1);
    BucketUnique(p, p.hi, p.n - 1);
  }

  /** The plan for the given times, or None where numpy or pandas raises:
      fewer than one interval, or equal ends with more than one interval
      (duplicate edges). */
  function PlanFor(times: seq<real>, samplingPoints: int, rows: nat): (r: Option<Plan>)
    requires |times| > 0
    ensures var n := IntervalCount(samplingPoints, rows);
            r.Some? <==> n >= 1 && (MinOf(times) < MaxOf(times) || n == 1)
    ensures r.Some? ==> ValidPlan(r.value) && r.value.n == IntervalCount(samplingPoints, rows)
    ensures r.Some? ==> r.value.lo == MinOf(times) && r.value.hi == MaxOf(times)
  {
    var n := IntervalCount(samplingPoints, rows);
    var lo := MinOf(times);
    var hi := MaxOf(times);
    if n < 1 || (lo == hi && n >= 2) then None else Some(Plan(lo, hi, n))
  }

  /** Equal least and greatest times with more than one interval is the
      duplicate-edge error; rows all at one time with few rows still plan. */
  lemma SingleInstantNeedsOneInterval(times: seq<real>, samplingPoints: int, rows: nat)
    requires |times| > 0 && forall k :: 0 <= k < |times| ==> times[k] == times[0]
    ensures PlanFor(times, samplingPoints, rows).Some? <==> IntervalCount(samplingPoints, rows) == 1
  {
    assert MinOf(times) in times && MaxOf(times) in times;
    assert MinOf(times) == MaxOf(times);
  }

  // ---------------------------------------------------------------------------
  // Groups (`df.groupby("time_group", observed=True)`)

  /** Every row that has the time column has it within the plan's range. */
  ghost predicate InRange(p: Plan, rows: seq<Row>, t: string) {
    forall r :: r in rows && t in r ==> p.lo <= r[t] <= p.hi
  }

  /** Some row has a time, so there is a least and a greatest time. */
  lemma TimesNonEmpty(rows: seq<Row>, t: string)
    requires t in KeysOf(rows)
    ensures ColumnValues(rows, t) != []
  {
    var r :| r in rows && t in r;
    assert r[t] in ColumnValues(rows, t);
  }

  /** Every time lies between the least and the greatest. */
  lemma TimesInRange(rows: seq<Row>, t: string)
    requires ColumnValues(rows, t) != []
    ensures InRange(Plan(MinOf(ColumnValues(rows, t)), MaxOf(ColumnValues(rows, t)), 1), rows, t)
  {
    var times := ColumnValues(rows, t);
    forall r | r in rows && t in r ensures MinOf(times) <= r[t] <= MaxOf(times) {
      assert r[t] in times;
    }
  }

  /** One non-empty bucket and its rows in their original order. */
  datatype Group = Group(index: nat, rows: seq<Row>)

  /** The rows of bucket i; rows with a null time belong to no bucket. */
  function Members(p: Plan, rows: seq<Row>, t: string, i: nat): (m: seq<Row>)
    requires ValidPlan(p)
    ensures forall r :: r in m <==> r in rows && t in r && BucketOf(p, r[t]) == i
  {
    if rows == [] then []
    else
      var rest := Members(p, rows[1..], t, i);
      assert forall r :: r in rows <==> r == rows[0] || r in rows[1..];
      if t in rows[0] && BucketOf(p, rows[0][t]) == i then [rows[0]] + rest else rest
  }

  /** The rows of a group all lie in its bucket. */
  ghost predicate GroupWellFormed(p: Plan, rows: seq<Row>, t: string, g: Group)
    requires p.n >= 1
  {
    && g.rows != []
    && g.index < p.n
    && forall r :: r in g.rows ==> r in rows && t in r && InBucket(p, r[t], g.index)
  }

  /** The non-empty buckets from i on, in bucket order. */
  function GroupsFrom(p: Plan, rows: seq<Row>, t: string, i: nat): (gs: seq<Group>)
    requires ValidPlan(p) && InRange(p, rows, t) && i <= p.n
    ensures |gs| <= p.n - i
    ensures forall k :: 0 <= k < |gs| ==> i <= gs[k].index && GroupWellFormed(p, rows, t, gs[k])
    ensures forall k, l :: 0 <= k < l < |gs| ==> gs[k].index < gs[l].index
    decreases p.n - i
  {
    if i == p.n then []
    else
      var m := Members(p, rows, t, i);
      var rest := GroupsFrom(p, rows, t, i + 1);
      forall r | r in m ensures InBucket(p, r[t], i) {
        BucketUnique(p, r[t], i);
      }
      if m != [] then [Group(i, m)] + rest else rest
  }

  /** `df.groupby("time_group", observed=True)`: one group per non-empty
      bucket, in bucket order. */
  function Groups(p: Plan, rows: seq<Row>, t: string): (gs: seq<Group>)
    requires ValidPlan(p) && InRange(p, rows, t)
    ensures |gs| <= p.n
    ensures forall k :: 0 <= k < |gs| ==> GroupWellFormed(p, rows, t, gs[k])
    ensures forall k, l :: 0 <= k < l < |gs| ==> gs[k].index < gs[l].index
  {
    GroupsFrom(p, rows, t, 0)
  }

  /** Every row with a time is in the group of its bucket. */
  lemma {:induction false} GroupsFromCover(p: Plan, rows: seq<Row>, t: string, i: nat, r: Row)
    requires ValidPlan(p) && InRange(p, rows, t) && i <= p.n
    requires r in rows && t in r && i <= BucketOf(p, r[t])
    ensures exists k :: 0 <= k < |GroupsFrom(p, rows, t, i)| && r in GroupsFrom(p, rows, t, i)[k].rows
    decreases p.n - i
  {
    var gs := GroupsFrom(p, rows, t, i);
    var m := Members(p, rows, t, i);
    if BucketOf(p, r[t]) == i {
      assert r in m;
      assert gs[0] == Group(i, m);
    } else {
      GroupsFromCover(p, rows, t, i + 1, r);
      var rest := GroupsFrom(p, rows, t, i + 1);
      var k :| 0 <= k < |rest| && r in rest[k].rows;
      if m != [] {
        assert gs[k + 1] == rest[k];
      }
    }
  }

  lemma GroupsCover(p: Plan, rows: seq<Row>, t: string, r: Row)
    requires ValidPlan(p) && InRange(p, rows, t)
    requires r in rows && t in r
    ensures exists k :: 0 <= k < |Groups(p, rows, t)| && r in Groups(p, rows, t)[k].rows
  {
    GroupsFromCover(p, rows, t, 0, r);
    var gs := GroupsFrom(p, rows, t, 0);
    assert Groups(p, rows, t) == gs;
    var k :| 0 <= k < |gs| && r in gs[k].rows;
    assert r in Groups(p, rows, t)[k].rows;
  }

  /** Each row with a time belongs to exactly one group. */
  lemma GroupsDisjoint(p: Plan, rows: seq<Row>, t: string, r: Row, k: nat, l: nat)
    requires ValidPlan(p) && InRange(p, rows, t)
    requires k < |Groups(p, rows, t)| && l < |Groups(p, rows, t)|
    requires r in Groups(p, rows, t)[k].rows && r in Groups(p, rows, t)[l].rows
    ensures k == l
  {
    var gs := Groups(p, rows, t);
    assert GroupWellFormed(p, rows, t, gs[k]) && GroupWellFormed(p, rows, t, gs[l]);
    BucketUnique(p, r[t], gs[k].index);
    BucketUnique(p, r[t], gs[l].index);
  }

  /** Some row has a time, so there is at least one group. */
  lemma CentersNonEmpty(p: Plan, rows: seq<Row>, t: string)
    requires ValidPlan(p) && InRange(p, rows, t) && t in KeysOf(rows)
    ensures |Centers(p, rows, t)| > 0
  {
    var r :| r in rows && t in r;
    GroupsCover(p, rows, t, r);
  }

  // ---------------------------------------------------------------------------
  // Bucket centres

  lemma ColumnValuesNonEmpty(rows: seq<Row>, c: string)
    requires rows != [] && c in rows[0]
    ensures ColumnValues(rows, c) != []
  {
    assert rows[0] in rows;
    assert rows[0][c] in ColumnValues(rows, c);
  }

  /** `group_data[time_column].mean()`. */
  function Center(g: Group, t: string): real
    requires g.rows != [] && t in g.rows[0]
  {
    ColumnValuesNonEmpty(g.rows, t);
    Mean(ColumnValues(g.rows, t))
  }

  /** A group's centre lies in its bucket. */
  lemma CenterInBucket(p: Plan, rows: seq<Row>, t: string, g: Group)
    requires ValidPlan(p) && GroupWellFormed(p, rows, t, g)
    ensures InBucket(p, Center(g, t), g.index)
  {
    assert g.rows[0] in g.rows;
    var vs := ColumnValues(g.rows, t);
    ColumnValuesNonEmpty(g.rows, t);
    var lo := if g.index == 0 then p.lo else Edge(p, g.index);
    var hi := Edge(p, g.index + 1);
    forall x | x in vs ensures lo <= x <= hi && (g.index > 0 ==> lo < x) {
      var r :| r in g.rows && t in r && r[t] == x;
    }
    MeanWithin(vs, lo, hi);
    if g.index > 0 {
      MeanAbove(vs, lo);
    }
  }

  /** The centres of the groups, in group order. */
  function Centers(p: Plan, rows: seq<Row>, t: string): (cs: seq<real>)
    requires ValidPlan(p) && InRange(p, rows, t)
    ensures |cs| == |Groups(p, rows, t)|
  {
    var gs := Groups(p, rows, t);
    seq(|gs|, k requires 0 <= k < |gs| => (assert gs[k].rows[0] in gs[k].rows; Center(gs[k], t)))
  }

  /** The centres strictly ascend, so sorting them (as the envelope does)
      leaves them where they are, next to their buckets' values. */
  lemma CentersStrictlyAscending(p: Plan, rows: seq<Row>, t: string)
    requires ValidPlan(p) && InRange(p, rows, t)
    ensures Sorting.StrictlyAscending(Centers(p, rows, t))
  {
    var gs := Groups(p, rows, t);
    var cs := Centers(p, rows, t);
    forall k, l | 0 <= k < l < |cs| ensures cs[k] < cs[l] {
      assert GroupWellFormed(p, rows, t, gs[k]) && GroupWellFormed(p, rows, t, gs[l]);
      assert gs[k].rows[0] in gs[k].rows && gs[l].rows[0] in gs[l].rows;
      assert cs[k] == Center(gs[k], t) && cs[l] == Center(gs[l], t);
      CenterInBucket(p, rows, t, gs[k]);
      CenterInBucket(p, rows, t, gs[l]);
      assert gs[k].index < gs[l].index;
      EdgeMonotone(p, gs[k].index + 1, gs[l].index);
    }
  }
}
