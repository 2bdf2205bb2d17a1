/** Records, frames and the column statistics the envelope engine takes
    (pandas' `max`, `min`, `mean` and `dropna` over one column). */
module Rows {
  import opened Wrappers
  import opened Sorting

  /** One record: column name to value. A column absent from the map is a
      null (NaN) cell, which pandas' `dropna` skips. */
  type Row = map<string, real>

  /** A pandas DataFrame as the core sees it: the column labels in order, the
      labels whose dtype is numeric, and the records. */
  datatype Frame = Frame(columns: seq<string>, numeric: set<string>, rows: seq<Row>)

  /** The value of `c` in `r`, or 0 for a null cell (pandas' `fillna(0)`). */
  function At(r: Row, c: string): real {
    if c in r then r[c] else 0.0
  }

  function MaxOf(s: seq<real>): (m: real)
    requires |s| > 0
    ensures m in s
    ensures forall x :: x in s ==> x <= m
  {
    if |s| == 1 then s[0]
    else
      var rest := MaxOf(s[1..]);
      assert forall x :: x in s ==> x == s[0] || x in s[1..];
      if s[0] >= rest then s[0] else rest
  }

  function MinOf(s: seq<real>): (m: real)
    requires |s| > 0
    ensures m in s
    ensures forall x :: x in s ==> m <= x
  {
    if |s| == 1 then s[0]
    else
      var rest := MinOf(s[1..]);
      assert forall x :: x in s ==> x == s[0] || x in s[1..];
      if s[0] <= rest then s[0] else rest
  }

  function Sum(s: seq<real>): real {
    if s == [] then 0.0 else s[0] + Sum(s[1..])
  }

  /** pandas' `Series.mean()` over non-null values. */
  function Mean(s: seq<real>): real
    requires |s| > 0
  {
    Sum(s) / (|s| as real)
  }

  lemma {:induction false} SumBounds(s: seq<real>, lo: real, hi: real)
    requires forall x :: x in s ==> lo <= x <= hi
    ensures (|s| as real) * lo <= Sum(s) <= (|s| as real) * hi
  {
    if s != [] {
      assert forall x :: x in s[1..] ==> x in s;
      assert s[0] in s;
      SumBounds(s[1..], lo, hi);
      var k := |s[1..]| as real;
      assert |s| as real == k + 1.0;
      Distribute(k, lo);
      Distribute(k, hi);
      assert Sum(s) == s[0] + Sum(s[1..]);
    }
  }

  lemma Distribute(k: real, x: real)
    ensures (k + 1.0) * x == x + k * x
  {
  }

  /** A mean lies within any bounds of the values averaged. */
  lemma MeanWithin(s: seq<real>, lo: real, hi: real)
    requires |s| > 0
    requires forall x :: x in s ==> lo <= x <= hi
    ensures lo <= Mean(s) <= hi
  {
    SumBounds(s, lo, hi);
    QuotientBounds(Sum(s), |s| as real, lo, hi);
  }

  lemma {:induction false} SumAbove(s: seq<real>, a: real)
    requires |s| > 0
    requires forall x :: x in s ==> a < x
    ensures (|s| as real) * a < Sum(s)
  {
    assert s[0] in s;
    if |s| > 1 {
      assert forall x :: x in s[1..] ==> x in s;
      SumAbove(s[1..], a);
      var k := |s[1..]| as real;
      assert |s| as real == k + 1.0;
      Distribute(k, a);
      assert Sum(s) == s[0] + Sum(s[1..]);
    }
  }

  /** A mean of values all above `a` is above `a`. */
  lemma MeanAbove(s: seq<real>, a: real)
    requires |s| > 0
    requires forall x :: x in s ==> a < x
    ensures a < Mean(s)
  {
    SumAbove(s, a);
    var n := |s| as real;
    var q := Sum(s) / n;
    assert q * n == Sum(s);
  }

  lemma QuotientBounds(total: real, n: real, lo: real, hi: real)
    requires n > 0.0
    requires n * lo <= total <= n * hi
    ensures lo <= total / n <= hi
  {
    var q := total / n;
    assert q * n == total;
  }

  /** The values of the cells of column `c` that are not null, in row order:
      pandas' `frame[c].dropna()`. */
  function ColumnValues(rows: seq<Row>, c: string): (vs: seq<real>)
    ensures |vs| <= |rows|
    ensures forall v :: v in vs <==> exists r :: r in rows && c in r && r[c] == v
  {
    if rows == [] then []
    else
      var rest := ColumnValues(rows[1..], c);
      assert forall r :: r in rows <==> r == rows[0] || r in rows[1..];
      if c in rows[0] then [rows[0][c]] + rest else rest
  }

  lemma {:induction false} ColumnValuesAppend(a: seq<Row>, b: seq<Row>, c: string)
    ensures ColumnValues(a + b, c) == ColumnValues(a, c) + ColumnValues(b, c)
  {
    if a == [] {
      assert a + b == b;
    } else {
      assert (a + b)[1..] == a[1..] + b;
      ColumnValuesAppend(a[1..], b, c);
    }
  }

  /** The column labels of a frame built from records: pandas' union of the
      records' keys. */
  function KeysOf(rows: seq<Row>): (ks: set<string>)
    ensures forall c :: c in ks <==> exists r :: r in rows && c in r
  {
    if rows == [] then {}
    else
      assert forall r :: r in rows <==> r == rows[0] || r in rows[1..];
      rows[0].Keys + KeysOf(rows[1..])
  }

  /** Orders records by column `c` (nulls compare as 0; callers sort only
      records that all have `c`). */
  function ByColumn(c: string): (Row, Row) -> bool {
    (a: Row, b: Row) => At(a, c) <= At(b, c)
  }

  lemma ByColumnIsTotalPreorder(c: string)
    ensures TotalPreorder(ByColumn(c))
  {
  }

  /** Records ascending in column `c`. */
  ghost predicate AscendingIn(rows: seq<Row>, c: string) {
    && (forall i :: 0 <= i < |rows| ==> c in rows[i])
    && (forall i, j :: 0 <= i < j < |rows| ==> rows[i][c] <= rows[j][c])
  }

  /** Sorting records by a column they all have gives them ascending in that
      column, as a permutation of the input. */
  lemma SortByColumnAscending(rows: seq<Row>, c: string)
    requires forall i :: 0 <= i < |rows| ==> c in rows[i]
    ensures AscendingIn(Sort(rows, ByColumn(c)), c)
    ensures multiset(Sort(rows, ByColumn(c))) == multiset(rows)
  {
    var le := ByColumn(c);
    var r := Sort(rows, le);
    ByColumnIsTotalPreorder(c);
    SortSorted(rows, le);
    SortMembers(rows, le);
    forall i | 0 <= i < |r| ensures c in r[i] {
      assert r[i] in rows;
    }
    forall i, j | 0 <= i < j < |r| ensures r[i][c] <= r[j][c] {
      assert le(r[i], r[j]);
    }
  }
}
