/** The column-store adapter (`ClickHouseManager`): table-name sanitising, the
    shape of the tables it creates, the column order of inserts, the clauses of
    range queries, the conversion of result rows into records, and an
    in-memory store that gives these operations ClickHouse's semantics. */
module ClickHouse {
  import opened Wrappers
  import opened Rows
  import opened Sorting

  // ---------------------------------------------------------------------------
  // Table names

  const MaxNameLength: nat := 60

  predicate IsAsciiLetter(c: char) { 'a' <= c <= 'z' || 'A' <= c <= 'Z' }

  predicate IsAsciiDigit(c: char) { '0' <= c <= '9' }

  /** The character class `[a-zA-Z0-9_]`. */
  predicate IsNameChar(c: char) { IsAsciiLetter(c) || IsAsciiDigit(c) || c == '_' }

  /** A name the three sanitising rules leave alone. */
  predicate IsSafeName(s: string) {
    && 0 < |s| <= MaxNameLength
    && (forall i :: 0 <= i < |s| ==> IsNameChar(s[i]))
    && (IsAsciiLetter(s[0]) || s[0] == '_')
  }

  /** `re.sub(r'[^a-zA-Z0-9_]', '_', s)`. */
  function ReplaceDisallowed(s: string): (r: string)
    ensures |r| == |s|
    ensures forall i :: 0 <= i < |s| ==> r[i] == if IsNameChar(s[i]) then s[i] else '_'
  {
    seq(|s|, i requires 0 <= i < |s| => if IsNameChar(s[i]) then s[i] else '_')
  }

  /** How many characters sanitising puts in front of the name: the 4 of
      "exp_" exactly when the name starts with an ASCII digit (any other
      first character is a letter, '_' or becomes '_'). */
  function PrefixLength(name: string): nat
    requires |name| > 0
  {
    if IsAsciiDigit(name[0]) then 4 else 0
  }

  function Min(a: int, b: int): int { if a <= b then a else b }

  /** `sanitize_table_name`. Python raises IndexError on the empty name; the
      adapter's callers turn that into their failure result. */
  function SanitizeTableName(name: string): (r: string)
    requires |name| > 0
    ensures IsSafeName(r)
    ensures IsSafeName(name) ==> r == name
    ensures |r| == Min(MaxNameLength, PrefixLength(name) + |name|)
    ensures PrefixLength(name) == 4 ==> r[..4] == "exp_"
    ensures forall i :: 0 <= i < |name| && PrefixLength(name) + i < |r| ==>
              r[PrefixLength(name) + i] == if IsNameChar(name[i]) then name[i] else '_'
  {
    var s := ReplaceDisallowed(name);
    var p := if !IsAsciiLetter(s[0]) && s[0] != '_' then "exp_" + s else s;
    if |p| > MaxNameLength then p[..MaxNameLength] else p
  }

  /** Sanitising twice is sanitising once, so a name the adapter reports back
      (the sanitised one) addresses the same physical table again. */
  lemma SanitizeIdempotent(name: string)
    requires |name| > 0
    ensures SanitizeTableName(SanitizeTableName(name)) == SanitizeTableName(name)
  {
  }

  // ---------------------------------------------------------------------------
  // Table shape and insert column order

  predicate NoDuplicates<T(==)>(s: seq<T>) {
    forall i, j :: 0 <= i < j < |s| ==> s[i] != s[j]
  }

  function ColumnSet(cols: seq<string>): set<string> {
    set c | c in cols
  }

  const TimestampColumn: string := "timestamp"

  function Float64Definition(c: string): string {
    "`" + c + "` Float64"
  }

  const TimestampDefinition: string := "timestamp DateTime DEFAULT now()"

  /** The column definitions `create_timeseries_table` lists, built as its
      loop builds them: time column, insertion timestamp, then each data
      column as Float64. */
  method ColumnDefinitions(timeColumn: string, dataColumns: seq<string>) returns (defs: seq<string>)
    ensures |defs| == |dataColumns| + 2
    ensures defs[0] == Float64Definition(timeColumn) && defs[1] == TimestampDefinition
    ensures forall i :: 0 <= i < |dataColumns| ==> defs[i + 2] == Float64Definition(dataColumns[i])
  {
    defs := [Float64Definition(timeColumn), TimestampDefinition];
    for k := 0 to |dataColumns|
      invariant |defs| == k + 2
      invariant defs[0] == Float64Definition(timeColumn) && defs[1] == TimestampDefinition
      invariant forall i :: 0 <= i < k ==> defs[i + 2] == Float64Definition(dataColumns[i])
    {
      defs := defs + [Float64Definition(dataColumns[k])];
    }
  }

  /** The frame columns other than the time column and 'timestamp', in their
      original order. */
  function OtherColumns(cols: seq<string>, timeColumn: string): (r: seq<string>)
    ensures |r| <= |cols|
    ensures forall c :: c in r <==> c in cols && c != timeColumn && c != TimestampColumn
  {
    if cols == [] then []
    else
      var rest := OtherColumns(cols[1..], timeColumn);
      assert forall c :: c in cols <==> c == cols[0] || c in cols[1..];
      if cols[0] != timeColumn && cols[0] != TimestampColumn then [cols[0]] + rest else rest
  }

  /** Filtering a list without repetitions gives one without repetitions. */
  lemma {:induction false} OtherColumnsNoDuplicates(cols: seq<string>, timeColumn: string)
    requires NoDuplicates(cols)
    ensures NoDuplicates(OtherColumns(cols, timeColumn))
  {
    if cols != [] {
      var tail := cols[1..];
      forall i, j | 0 <= i < j < |tail| ensures tail[i] != tail[j] {
        assert cols[i + 1] != cols[j + 1];
      }
      OtherColumnsNoDuplicates(tail, timeColumn);
      forall k | 0 <= k < |tail| ensures tail[k] != cols[0] {
        assert cols[k + 1] != cols[0];
      }
      assert cols[0] !in tail;
      var rest := OtherColumns(tail, timeColumn);
      if cols[0] != timeColumn && cols[0] != TimestampColumn {
        var r := [cols[0]] + rest;
        forall i, j | 0 <= i < j < |r| ensures r[i] != r[j] {
          if i == 0 {
            assert r[j] in rest;
          } else {
            assert r[i] == rest[i - 1] && r[j] == rest[j - 1];
          }
        }
      }
    }
  }

  /** Filtering keeps the original order: it distributes over concatenation
      and keeps a column list that holds neither excluded name as it is. */
  lemma {:induction false} OtherColumnsAppend(a: seq<string>, b: seq<string>, timeColumn: string)
    ensures OtherColumns(a + b, timeColumn) == OtherColumns(a, timeColumn) + OtherColumns(b, timeColumn)
  {
    if a == [] {
      assert a + b == b;
    } else {
      var ab := a + b;
      assert ab[0] == a[0];
      assert ab[1..] == a[1..] + b;
      OtherColumnsAppend(a[1..], b, timeColumn);
    }
  }

  lemma {:induction false} OtherColumnsUnchanged(cols: seq<string>, timeColumn: string)
    requires timeColumn !in cols && TimestampColumn !in cols
    ensures OtherColumns(cols, timeColumn) == cols
  {
    if cols != [] {
      OtherColumnsUnchanged(cols[1..], timeColumn);
    }
  }

  /** `insert_dataframe`'s column order: time column, 'timestamp', then the
      rest of the frame's columns in their order. */
  function InsertColumnOrder(frameColumns: seq<string>, timeColumn: string): (r: seq<string>)
    ensures |r| >= 2 && r[0] == timeColumn && r[1] == TimestampColumn
    ensures forall c :: c in r <==> c in frameColumns || c == timeColumn || c == TimestampColumn
  {
    [timeColumn, TimestampColumn] + OtherColumns(frameColumns, timeColumn)
  }

  /** A frame without repeated labels gives an insert without repeated
      columns. */
  lemma InsertColumnOrderDistinct(frameColumns: seq<string>, timeColumn: string)
    requires timeColumn != TimestampColumn && NoDuplicates(frameColumns)
    ensures NoDuplicates(InsertColumnOrder(frameColumns, timeColumn))
  {
    var rest := OtherColumns(frameColumns, timeColumn);
    OtherColumnsNoDuplicates(frameColumns, timeColumn);
    var r := InsertColumnOrder(frameColumns, timeColumn);
    forall i, j | 0 <= i < j < |r| ensures r[i] != r[j] {
      if i >= 2 {
        assert r[i] == rest[i - 2] && r[j] == rest[j - 2];
      } else {
        assert j >= 2 ==> r[j] in rest;
      }
    }
  }

  // ---------------------------------------------------------------------------
  // Stored tables

  /** A stored table: its time column, its value columns (time column first,
      then the data columns; the DateTime `timestamp` column is not carried)
      and its rows. */
  datatype Table = Table(timeColumn: string, columns: seq<string>, rows: seq<Row>)

  /** Every stored row has a (non-null) value for exactly the table's columns. */
  ghost predicate WellFormed(t: Table) {
    && |t.columns| > 0
    && t.columns[0] == t.timeColumn
    && forall r :: r in t.rows ==> r.Keys == ColumnSet(t.columns)
  }

  /** A frame row as ClickHouse stores it: each table column takes the frame's
      value (null read as 0 by `fillna(0)`), or the Float64 default 0 when the
      insert did not list the column. */
  function StoredRow(r: Row, tableColumns: seq<string>, insertColumns: seq<string>): (s: Row)
    ensures s.Keys == ColumnSet(tableColumns)
  {
    map c | c in ColumnSet(tableColumns) :: if c in insertColumns then At(r, c) else 0.0
  }

  function StoredRows(rows: seq<Row>, tableColumns: seq<string>, insertColumns: seq<string>): (s: seq<Row>)
    ensures |s| == |rows|
    ensures forall i :: 0 <= i < |rows| ==> s[i] == StoredRow(rows[i], tableColumns, insertColumns)
  {
    seq(|rows|, i requires 0 <= i < |rows| => StoredRow(rows[i], tableColumns, insertColumns))
  }

  // ---------------------------------------------------------------------------
  // Range queries (`query_data`)

  datatype Condition = AtLeast(column: string, bound: real) | AtMost(column: string, bound: real)

  /** The clauses of the SQL text `query_data` builds:
      SELECT <list or *> FROM `<table>` [WHERE ...] ORDER BY `<time>` [LIMIT n]. */
  datatype SelectQuery = SelectQuery(
    projection: Option<seq<string>>,
    table: string,
    conditions: seq<Condition>,
    orderBy: string,
    limit: Option<nat>)

  /** The query `query_data` sends: `*` when no columns are given, both
      inclusive bounds only for a time range, LIMIT only for a non-zero limit
      (Python's `if limit`). */
  function QueryFor(tableName: string, timeColumn: string, columns: seq<string>,
                    timeRange: Option<(real, real)>, limit: nat): (q: SelectQuery)
    requires |tableName| > 0
    ensures q.table == SanitizeTableName(tableName) && q.orderBy == timeColumn
    ensures q.projection.None? <==> columns == []
    ensures q.projection.Some? ==> q.projection.value == columns
    ensures timeRange.None? ==> q.conditions == []
    ensures timeRange.Some? ==> q.conditions == [AtLeast(timeColumn, timeRange.value.0), AtMost(timeColumn, timeRange.value.1)]
    ensures q.limit.Some? <==> limit > 0
    ensures q.limit.Some? ==> q.limit.value == limit
  {
    var conditions := if timeRange.Some? then [AtLeast(timeColumn, timeRange.value.0), AtMost(timeColumn, timeRange.value.1)] else [];
    SelectQuery(if columns == [] then None else Some(columns), SanitizeTableName(tableName),
                conditions, timeColumn, if limit > 0 then Some(limit) else None)
  }

  predicate Holds(r: Row, cond: Condition) {
    match cond
    case AtLeast(c, b) => At(r, c) >= b
    case AtMost(c, b) => At(r, c) <= b
  }

  predicate HoldsAll(r: Row, conds: seq<Condition>) {
    forall k :: 0 <= k < |conds| ==> Holds(r, conds[k])
  }

  /** The rows a WHERE clause keeps, in their order. */
  function Where(rows: seq<Row>, conds: seq<Condition>): (kept: seq<Row>)
    ensures forall r :: r in kept <==> r in rows && HoldsAll(r, conds)
    ensures multiset(kept) <= multiset(rows)
  {
    if rows == [] then []
    else
      var rest := Where(rows[1..], conds);
      assert rows == [rows[0]] + rows[1..];
      assert forall r :: r in rows <==> r == rows[0] || r in rows[1..];
      if HoldsAll(rows[0], conds) then [rows[0]] + rest else rest
  }

  function Project(r: Row, cols: seq<string>): (p: Row)
    ensures p.Keys == r.Keys * ColumnSet(cols)
    ensures forall c :: c in p ==> p[c] == r[c]
  {
    map c | c in r.Keys * ColumnSet(cols) :: r[c]
  }

  /** The rows of a query after WHERE and ORDER BY. */
  function Ordered(t: Table, q: SelectQuery): seq<Row> {
    Sort(Where(t.rows, q.conditions), ByColumn(q.orderBy))
  }

  /** The rows of a query after WHERE, ORDER BY and LIMIT. */
  function Limited(t: Table, q: SelectQuery): seq<Row> {
    var ordered := Ordered(t, q);
    if q.limit.Some? && q.limit.value < |ordered| then ordered[..q.limit.value] else ordered
  }

  /** The columns a query selects: its list, or all of them for `*`. */
  function Selected(t: Table, q: SelectQuery): seq<string> {
    q.projection.GetOr(t.columns)
  }

  /** What ClickHouse answers to a query: None when it names a column the
      table does not have; otherwise the rows that satisfy the WHERE clause,
      ordered by the ORDER BY column, cut to the LIMIT and projected. */
  function RunSelect(t: Table, q: SelectQuery): Option<seq<Row>> {
    var cols := Selected(t, q);
    if !(forall c :: c in cols ==> c in t.columns) || q.orderBy !in t.columns
       || !(forall k :: 0 <= k < |q.conditions| ==> q.conditions[k].column in t.columns)
    then None
    else
      var limited := Limited(t, q);
      Some(seq(|limited|, i requires 0 <= i < |limited| => Project(limited[i], cols)))
  }

  /** An accepted query answers the projection of its limited rows. */
  lemma RunSelectRows(t: Table, q: SelectQuery)
    requires RunSelect(t, q).Some?
    ensures |RunSelect(t, q).value| == |Limited(t, q)|
    ensures forall i :: 0 <= i < |Limited(t, q)| ==> RunSelect(t, q).value[i] == Project(Limited(t, q)[i], Selected(t, q))
  {
  }

  /** Before projection, the rows of a query on the time column are rows of
      the table that satisfy its conditions, ascending in time, no more than
      the limit, and without a limit all such rows. */
  lemma LimitedRows(t: Table, q: SelectQuery)
    requires WellFormed(t) && q.orderBy == t.timeColumn
    ensures var ls := Limited(t, q);
            && (forall i :: 0 <= i < |ls| ==> ls[i] in t.rows && HoldsAll(ls[i], q.conditions))
            && AscendingIn(ls, t.timeColumn)
            && (q.limit.Some? ==> |ls| <= q.limit.value)
            && (q.limit.None? ==> multiset(ls) == multiset(Where(t.rows, q.conditions)))
  {
    OrderedRows(t, q);
    var ordered := Ordered(t, q);
    var ls := Limited(t, q);
    assert |ls| <= |ordered|;
    forall i | 0 <= i < |ls| ensures ls[i] == ordered[i] {
    }
    forall i | 0 <= i < |ls| ensures ls[i] in t.rows && HoldsAll(ls[i], q.conditions) {
      assert ordered[i] in ordered;
    }
    PrefixAscending(ordered, |ls|, t.timeColumn);
    assert ls == ordered[..|ls|];
  }

  /** The ordered rows of a query on the time column: the rows meeting its
      conditions, ascending in time, as a permutation. */
  lemma OrderedRows(t: Table, q: SelectQuery)
    requires WellFormed(t) && q.orderBy == t.timeColumn
    ensures AscendingIn(Ordered(t, q), t.timeColumn)
    ensures multiset(Ordered(t, q)) == multiset(Where(t.rows, q.conditions))
    ensures forall r :: r in Ordered(t, q) ==> r in t.rows && HoldsAll(r, q.conditions)
  {
    var kept := Where(t.rows, q.conditions);
    forall i | 0 <= i < |kept| ensures t.timeColumn in kept[i] {
      assert kept[i] in kept;
      assert kept[i].Keys == ColumnSet(t.columns);
    }
    SortByColumnAscending(kept, t.timeColumn);
    SortMembers(kept, ByColumn(t.timeColumn));
  }

  lemma PrefixAscending(s: seq<Row>, n: nat, c: string)
    requires n <= |s| && AscendingIn(s, c)
    ensures AscendingIn(s[..n], c)
  {
  }

  /** An accepted query on the time column of a well-formed table. */
  ghost predicate TimeQuery(t: Table, q: SelectQuery) {
    && WellFormed(t)
    && q.orderBy == t.timeColumn
    && RunSelect(t, q).Some?
  }

  /** Each answered row has exactly the selected columns and, when the time
      column is selected, the time of the row it came from. */
  lemma SelectedRows(t: Table, q: SelectQuery)
    requires TimeQuery(t, q)
    ensures var rs := RunSelect(t, q).value;
            forall i :: 0 <= i < |rs| ==>
              && rs[i].Keys == ColumnSet(Selected(t, q))
              && (t.timeColumn in Selected(t, q) ==>
                    t.timeColumn in rs[i] && t.timeColumn in Limited(t, q)[i] && rs[i][t.timeColumn] == Limited(t, q)[i][t.timeColumn])
  {
    RunSelectRows(t, q);
    LimitedRows(t, q);
    var ls := Limited(t, q);
    forall i | 0 <= i < |ls| ensures ls[i].Keys == ColumnSet(t.columns) {
    }
  }

  lemma SelectedAscending(t: Table, q: SelectQuery)
    requires TimeQuery(t, q) && t.timeColumn in Selected(t, q)
    ensures AscendingIn(RunSelect(t, q).value, t.timeColumn)
  {
    SelectedRows(t, q);
    LimitedRows(t, q);
    RunSelectRows(t, q);
  }

  lemma SelectedInRange(t: Table, q: SelectQuery, lo: real, hi: real)
    requires TimeQuery(t, q) && t.timeColumn in Selected(t, q)
    requires q.conditions == [AtLeast(t.timeColumn, lo), AtMost(t.timeColumn, hi)]
    ensures var rs := RunSelect(t, q).value;
            forall i :: 0 <= i < |rs| ==> t.timeColumn in rs[i] && lo <= rs[i][t.timeColumn] <= hi
  {
    LimitedInRange(t, q, lo, hi);
    SelectedRows(t, q);
    var rs := RunSelect(t, q).value;
    var ls := Limited(t, q);
    forall i | 0 <= i < |rs| ensures t.timeColumn in rs[i] && lo <= rs[i][t.timeColumn] <= hi {
      assert rs[i][t.timeColumn] == ls[i][t.timeColumn];
    }
  }

  lemma LimitedInRange(t: Table, q: SelectQuery, lo: real, hi: real)
    requires WellFormed(t) && q.orderBy == t.timeColumn
    requires q.conditions == [AtLeast(t.timeColumn, lo), AtMost(t.timeColumn, hi)]
    ensures var ls := Limited(t, q);
            forall i :: 0 <= i < |ls| ==> t.timeColumn in ls[i] && lo <= ls[i][t.timeColumn] <= hi
  {
    LimitedRows(t, q);
    var ls := Limited(t, q);
    forall i | 0 <= i < |ls| ensures t.timeColumn in ls[i] && lo <= ls[i][t.timeColumn] <= hi {
      assert ls[i] in t.rows;
      assert t.timeColumn in ls[i];
      assert HoldsAll(ls[i], q.conditions);
      assert Holds(ls[i], q.conditions[0]);
      assert Holds(ls[i], q.conditions[1]);
    }
  }

  /** The rows `query_data` returns from a well-formed table: each has exactly
      the selected columns, they ascend in time, lie in the inclusive range
      when one is given, number at most the limit when one is given, and
      without a limit they are exactly the table's rows in range. */
  lemma QueryDataResult(t: Table, tableName: string, columns: seq<string>,
                        timeRange: Option<(real, real)>, limit: nat)
    requires WellFormed(t) && |tableName| > 0
    requires forall c :: c in columns ==> c in t.columns
    ensures var q := QueryFor(tableName, t.timeColumn, columns, timeRange, limit);
            var cols := if columns == [] then t.columns else columns;
            && RunSelect(t, q).Some?
            && var rs := RunSelect(t, q).value;
            && (forall i :: 0 <= i < |rs| ==> rs[i].Keys == ColumnSet(cols))
            && (t.timeColumn in cols ==> AscendingIn(rs, t.timeColumn))
            && (timeRange.Some? && t.timeColumn in cols ==>
                  forall i :: 0 <= i < |rs| ==> t.timeColumn in rs[i] && timeRange.value.0 <= rs[i][t.timeColumn] <= timeRange.value.1)
            && (limit > 0 ==> |rs| <= limit)
            && (limit == 0 && columns == [] ==>
                  forall r :: r in rs <==> r in t.rows && HoldsAll(r, q.conditions))
  {
    var q := QueryFor(tableName, t.timeColumn, columns, timeRange, limit);
    assert Selected(t, q) == if columns == [] then t.columns else columns;
    assert t.timeColumn in t.columns;
    assert TimeQuery(t, q);
    SelectedRows(t, q);
    LimitedRows(t, q);
    RunSelectRows(t, q);
    if t.timeColumn in Selected(t, q) {
      SelectedAscending(t, q);
      if timeRange.Some? {
        SelectedInRange(t, q, timeRange.value.0, timeRange.value.1);
      }
    }
    if limit == 0 && columns == [] {
      assert q.limit.None? && Selected(t, q) == t.columns;
      ProjectAll(t, q);
      var rs := RunSelect(t, q).value;
      assert forall r :: r in rs <==> r in t.rows && HoldsAll(r, q.conditions);
    }
  }

  /** Selecting every column of a well-formed table without a limit returns
      exactly the rows that satisfy the conditions. */
  lemma ProjectAll(t: Table, q: SelectQuery)
    requires WellFormed(t) && q.orderBy == t.timeColumn
    requires Selected(t, q) == t.columns && q.limit.None?
    requires RunSelect(t, q).Some?
    ensures forall r :: r in RunSelect(t, q).value <==> r in t.rows && HoldsAll(r, q.conditions)
  {
    LimitedRows(t, q);
    RunSelectRows(t, q);
    var ls := Limited(t, q);
    var rs := RunSelect(t, q).value;
    forall i | 0 <= i < |rs| ensures rs[i] == ls[i] {
      assert ls[i].Keys == ColumnSet(t.columns);
    }
    assert rs == ls;
    var kept := Where(t.rows, q.conditions);
    forall r ensures r in rs <==> r in kept {
      assert r in rs <==> r in multiset(rs);
      assert r in kept <==> r in multiset(kept);
    }
  }

  // ---------------------------------------------------------------------------
  // Result rows to records (`execute_query`)

  /** The record a result row becomes: `row_dict[column_names[i]] = row[i]`
      for i in order, so a later repeated name wins. */
  function Zip(names: seq<string>, values: seq<real>): Row
    requires |values| <= |names|
  {
    if values == [] then map[]
    else
      var k := |values| - 1;
      Zip(names, values[..k])[names[k] := values[k]]
  }

  /** With distinct column names and a full-width row, the record maps the
      i-th name to the i-th value and has exactly those names. */
  lemma {:induction false} ZipAt(names: seq<string>, values: seq<real>, i: nat)
    requires |values| <= |names| && NoDuplicates(names)
    requires i < |values|
    ensures names[i] in Zip(names, values) && Zip(names, values)[names[i]] == values[i]
  {
    var k := |values| - 1;
    if i < k {
      assert values[..k][i] == values[i];
      ZipAt(names, values[..k], i);
    }
  }

  lemma {:induction false} ZipKeys(names: seq<string>, values: seq<real>)
    requires |values| <= |names|
    ensures Zip(names, values).Keys == ColumnSet(names[..|values|])
  {
    if values != [] {
      var k := |values| - 1;
      ZipKeys(names, values[..k]);
      assert names[..|values|] == names[..k] + [names[k]];
    }
  }

  /** `execute_query`'s conversion loop. It fails (Python's IndexError, caught
      as a failed query) when a row is longer than the column list; no rows
      give no records. */
  method RowsToRecords(names: seq<string>, resultRows: seq<seq<real>>) returns (ok: bool, data: seq<Row>)
    ensures ok <==> forall k :: 0 <= k < |resultRows| ==> |resultRows[k]| <= |names|
    ensures ok ==> |data| == |resultRows|
    ensures ok ==> forall k :: 0 <= k < |resultRows| ==> data[k] == Zip(names, resultRows[k])
    ensures !ok ==> data == []
  {
    data := [];
    var n := 0;
    while n < |resultRows|
      invariant 0 <= n <= |resultRows|
      invariant forall k :: 0 <= k < n ==> |resultRows[k]| <= |names|
      invariant |data| == n
      invariant forall k :: 0 <= k < n ==> data[k] == Zip(names, resultRows[k])
    {
      var row := resultRows[n];
      var record: Row := map[];
      var i := 0;
      while i < |row|
        invariant 0 <= i <= |row|
        invariant i <= |names| ==> record == Zip(names, row[..i])
        invariant i <= |names|
      {
        if i >= |names| {
          return false, [];
        }
        assert row[..i + 1][..i] == row[..i];
        record := record[names[i] := row[i]];
        i := i + 1;
      }
      assert row[..i] == row;
      data := data + [record];
      n := n + 1;
    }
    ok := true;
  }

  datatype QueryResult = QueryResult(success: bool, data: seq<Row>)

  const Failed: QueryResult := QueryResult(false, [])

  /** The statements the data processor sends through `execute_query`:
      `SELECT `t`, `c`... FROM `table` ORDER BY `t``, `SELECT count(*) as total
      FROM table`, `RENAME TABLE a TO b`, `DROP TABLE IF EXISTS table`. Raw
      statements use the name as given, without sanitising. */
  datatype Statement =
    | SelectOrdered(table: string, timeColumn: string, columns: seq<string>)
    | CountRows(table: string)
    | RenameTable(from: string, to: string)
    | DropTableIfExists(table: string)

  /** A name that may stand unquoted in ClickHouse SQL. */
  predicate IsPlainIdentifier(s: string) {
    && |s| > 0
    && (forall i :: 0 <= i < |s| ==> IsNameChar(s[i]))
    && !IsAsciiDigit(s[0])
  }

  /** The column names and rows ClickHouse answers to a SELECT statement, or
      None when it refuses it. With no requested column the ordered SELECT
      ends its column list in a dangling comma, which is refused here. */
  function SelectAnswer(tables: map<string, Table>, stmt: Statement): Option<(seq<string>, seq<seq<real>>)>
    requires stmt.SelectOrdered? || stmt.CountRows?
  {
    match stmt
    case SelectOrdered(name, t, cols) =>
      if cols == [] || name !in tables then None
      else
        var tbl := tables[name];
        var names := [t] + cols;
        if !(forall c :: c in names ==> c in tbl.columns) then None
        else
          var ordered := Sort(tbl.rows, ByColumn(t));
          Some((names, seq(|ordered|, i requires 0 <= i < |ordered| =>
                              seq(|names|, j requires 0 <= j < |names| => At(ordered[i], names[j])))))
    case CountRows(name) =>
      if !IsPlainIdentifier(name) || name !in tables then None
      else Some((["total"], [[|tables[name].rows| as real]]))
  }

  /** The tables after a RENAME or DROP statement, or None when it fails. */
  function CommandEffect(tables: map<string, Table>, stmt: Statement): Option<map<string, Table>>
    requires stmt.RenameTable? || stmt.DropTableIfExists?
  {
    match stmt
    case RenameTable(a, b) =>
      if !IsPlainIdentifier(a) || !IsPlainIdentifier(b) || a !in tables || b in tables then None
      else Some((tables - {a})[b := tables[a]])
    case DropTableIfExists(name) =>
      if !IsPlainIdentifier(name) then None
      else Some(tables - {name})
  }

  datatype InsertResult = InsertResult(success: bool, rowCount: nat, tableName: string)

  /** `get_table_info`: sanitised name, columns, row count and up to ten sample
      rows on success; the name as given and `exists` false on failure. */
  datatype TableInfo = TableInfo(tableName: string, found: bool, columns: seq<string>, rowCount: nat, sample: seq<Row>)

  /** What `query_data` returns from the tables of a server that answers
      (`online`) or not: the rows of the query as a frame whose columns are
      the selected ones, or the empty frame when the query fails. */
  function QueryFrame(tables: map<string, Table>, online: bool, name: string, timeColumn: string,
                      columns: seq<string>, timeRange: Option<(real, real)>, limit: nat): Frame
  {
    if !online || |name| == 0 then Frame([], {}, [])
    else
      var safe := SanitizeTableName(name);
      var q := QueryFor(name, timeColumn, columns, timeRange, limit);
      if safe !in tables || RunSelect(tables[safe], q).None? then Frame([], {}, [])
      else
        var cols := if columns == [] then tables[safe].columns else columns;
        Frame(cols, ColumnSet(cols), RunSelect(tables[safe], q).value)
  }

  /** What `execute_query` returns for a SELECT statement. */
  function SelectResult(tables: map<string, Table>, online: bool, stmt: Statement): (res: QueryResult)
    requires stmt.SelectOrdered? || stmt.CountRows?
    ensures !online || SelectAnswer(tables, stmt).None? ==> res == Failed
    ensures online && SelectAnswer(tables, stmt).Some? ==>
              var (names, rows) := SelectAnswer(tables, stmt).value;
              && res.success
              && |res.data| == |rows|
              && forall k :: 0 <= k < |rows| ==> |rows[k]| <= |names| && res.data[k] == Zip(names, rows[k])
  {
    if !online then Failed
    else match SelectAnswer(tables, stmt)
      case None => Failed
      case Some((names, rows)) =>
        SelectAnswerWidth(tables, stmt);
        QueryResult(true, seq(|rows|, k requires 0 <= k < |rows| => Zip(names, rows[k])))
  }

  /** Every answered row is as wide as the column list. */
  lemma SelectAnswerWidth(tables: map<string, Table>, stmt: Statement)
    requires stmt.SelectOrdered? || stmt.CountRows?
    requires SelectAnswer(tables, stmt).Some?
    ensures var (names, rows) := SelectAnswer(tables, stmt).value;
            forall k :: 0 <= k < |rows| ==> |rows[k]| == |names|
  {
  }

  /** `SELECT count(*) as total` answers one record whose `total` is the
      table's row count. */
  lemma CountRowsRecord(tables: map<string, Table>, name: string)
    requires SelectResult(tables, true, CountRows(name)).success
    ensures name in tables
    ensures SelectResult(tables, true, CountRows(name)).data == [map["total" := |tables[name].rows| as real]]
  {
    var values := [|tables[name].rows| as real];
    assert values[..0] == [];
    assert Zip(["total"], values) == map[]["total" := values[0]];
  }

  /** `DROP TABLE IF EXISTS` twice has the effect of doing it once. */
  lemma DropIdempotent(tables: map<string, Table>, name: string)
    requires CommandEffect(tables, DropTableIfExists(name)).Some?
    ensures var once := CommandEffect(tables, DropTableIfExists(name)).value;
            && name !in once
            && CommandEffect(once, DropTableIfExists(name)) == Some(once)
  {
    var once := tables - {name};
    assert once - {name} == once;
  }

  // ---------------------------------------------------------------------------
  // Table creation and insertion, as functions of the tables

  /** Whether `create_timeseries_table` succeeds: the server answers, the
      name is non-empty, and the table exists already or the statement is
      accepted: distinct columns, and a time column that may stand unquoted
      in `ORDER BY`. */
  predicate CreateSucceeds(tables: map<string, Table>, online: bool, name: string,
                           timeColumn: string, dataColumns: seq<string>) {
    && online && |name| > 0
    && (|| SanitizeTableName(name) in tables
        || (NoDuplicates([timeColumn, TimestampColumn] + dataColumns) && IsPlainIdentifier(timeColumn)))
  }

  /** A new table whose time column holds a space is refused, since
      `ORDER BY (Time (s))` is not the column. */
  lemma SpacedTimeColumnRefused(tables: map<string, Table>, online: bool, name: string, dataColumns: seq<string>)
    requires |name| > 0 && SanitizeTableName(name) !in tables
    ensures !CreateSucceeds(tables, online, name, "Time (s)", dataColumns)
  {
    assert !IsNameChar("Time (s)"[4]);
  }

  /** The tables after a successful `create_timeseries_table`: an existing
      table is kept, otherwise an empty one is added under the sanitised
      name. */
  function CreatedTables(tables: map<string, Table>, name: string,
                         timeColumn: string, dataColumns: seq<string>): (r: map<string, Table>)
    requires |name| > 0
    ensures SanitizeTableName(name) in r && r.Keys == tables.Keys + {SanitizeTableName(name)}
    ensures forall n :: n in tables ==> r[n] == tables[n]
  {
    var safe := SanitizeTableName(name);
    if safe in tables then tables else tables[safe := Table(timeColumn, [timeColumn] + dataColumns, [])]
  }

  /** Whether `insert_dataframe` succeeds on these tables. */
  predicate InsertAcceptedBy(tables: map<string, Table>, online: bool, name: string, frame: Frame, timeColumn: string) {
    && online && |name| > 0
    && timeColumn != TimestampColumn
    && timeColumn in frame.columns
    && SanitizeTableName(name) in tables
    && var cols := InsertColumnOrder(frame.columns, timeColumn);
       forall k :: 0 <= k < |cols| && k != 1 ==> cols[k] in tables[SanitizeTableName(name)].columns
  }

  /** The tables after a successful `insert_dataframe`: the frame's rows, as
      stored, appended to the sanitised table. */
  function InsertedTables(tables: map<string, Table>, name: string, frame: Frame, timeColumn: string): (r: map<string, Table>)
    requires |name| > 0 && SanitizeTableName(name) in tables
    ensures r.Keys == tables.Keys
    ensures forall n :: n in tables && n != SanitizeTableName(name) ==> r[n] == tables[n]
  {
    var safe := SanitizeTableName(name);
    var t := tables[safe];
    tables[safe := t.(rows := t.rows + StoredRows(frame.rows, t.columns, InsertColumnOrder(frame.columns, timeColumn)))]
  }

  // ---------------------------------------------------------------------------
  // The in-memory store

  /** The ClickHouse server as the adapter sees it: named tables, and whether
      the server answers at all (`online == false` stands for the connection
      errors every adapter method catches). */
  class ColumnStore {
    var tables: map<string, Table>
    var online: bool

    ghost predicate Valid()
      reads this
    {
      forall name :: name in tables ==> WellFormed(tables[name])
    }

    constructor (online: bool)
      ensures Valid() && tables == map[] && this.online == online
    {
      tables := map[];
      this.online := online;
    }

    /** `create_timeseries_table`: CREATE TABLE IF NOT EXISTS under the
        sanitised name. It fails on the empty name, an unreachable server, and,
        for a new table, a column list with a repeated name or a time column
        that is not a plain identifier (it stands unquoted in `ORDER BY`). */
    method CreateTimeseriesTable(name: string, timeColumn: string, dataColumns: seq<string>) returns (ok: bool)
      requires Valid()
      modifies this`tables
      ensures Valid()
      ensures ok <==> online && |name| > 0 &&
                      (|| SanitizeTableName(name) in old(tables)
                       || (NoDuplicates([timeColumn, TimestampColumn] + dataColumns) && IsPlainIdentifier(timeColumn)))
      ensures ok && SanitizeTableName(name) !in old(tables) ==>
                tables == old(tables)[SanitizeTableName(name) := Table(timeColumn, [timeColumn] + dataColumns, [])]
      ensures !ok || SanitizeTableName(name) in old(tables) ==> tables == old(tables)
    {
      if !online || |name| == 0 {
        return false;
      }
      var safe := SanitizeTableName(name);
      var defs := ColumnDefinitions(timeColumn, dataColumns);
      if safe in tables {
        return true;
      }
      if !NoDuplicates([timeColumn, TimestampColumn] + dataColumns) || !IsPlainIdentifier(timeColumn) {
        return false;
      }
      tables := tables[safe := Table(timeColumn, [timeColumn] + dataColumns, [])];
      ok := true;
    }

    /** Whether `insert_dataframe` succeeds: the server answers, the name is
        non-empty, the frame has the time column, and the sanitised table
        exists with every column the insert lists. A time column named
        `timestamp` is overwritten by the insertion time and listed twice,
        which the insert refuses. */
    ghost predicate InsertAccepted(name: string, frame: Frame, timeColumn: string)
      reads this
    {
      InsertAcceptedBy(tables, online, name, frame, timeColumn)
    }

    /** `insert_dataframe`: appends the frame's rows, nulls as 0, to the
        sanitised table. Success reports the row count and the sanitised name;
        failure reports no rows and the name as given. */
    method InsertDataframe(name: string, frame: Frame, timeColumn: string) returns (res: InsertResult)
      requires Valid()
      modifies this`tables
      ensures Valid()
      ensures res.success <==> old(InsertAccepted(name, frame, timeColumn))
      ensures res.success ==>
                && res.rowCount == |frame.rows| && res.tableName == SanitizeTableName(name)
                && var safe := SanitizeTableName(name);
                   var t := old(tables)[safe];
                   tables == old(tables)[safe := t.(rows := t.rows + StoredRows(frame.rows, t.columns, InsertColumnOrder(frame.columns, timeColumn)))]
      ensures !res.success ==> res == InsertResult(false, 0, name) && tables == old(tables)
    {
      if !online || |name| == 0 || timeColumn == TimestampColumn || timeColumn !in frame.columns {
        return InsertResult(false, 0, name);
      }
      var safe := SanitizeTableName(name);
      var cols := InsertColumnOrder(frame.columns, timeColumn);
      if safe !in tables {
        return InsertResult(false, 0, name);
      }
      var t := tables[safe];
      if !(forall k :: 0 <= k < |cols| && k != 1 ==> cols[k] in t.columns) {
        return InsertResult(false, 0, name);
      }
      var stored := StoredRows(frame.rows, t.columns, cols);
      assert WellFormed(t);
      assert forall r :: r in stored ==> r.Keys == ColumnSet(t.columns);
      tables := tables[safe := t.(rows := t.rows + stored)];
      res := InsertResult(true, |frame.rows|, safe);
    }

    /** `query_data`: the answer to `QueryFor` as a frame, or an empty frame
        when the query fails. */
    method QueryData(name: string, timeColumn: string, columns: seq<string>,
                     timeRange: Option<(real, real)>, limit: nat) returns (f: Frame)
      ensures f == QueryFrame(tables, online, name, timeColumn, columns, timeRange, limit)
    {
      if !online || |name| == 0 {
        return Frame([], {}, []);
      }
      var q := QueryFor(name, timeColumn, columns, timeRange, limit);
      if q.table !in tables {
        return Frame([], {}, []);
      }
      var answer := RunSelect(tables[q.table], q);
      if answer.None? {
        return Frame([], {}, []);
      }
      var cols := if columns == [] then tables[q.table].columns else columns;
      f := Frame(cols, ColumnSet(cols), answer.value);
    }

    /** `table_exists`: whether the sanitised name is a table; false when the
        check itself fails. */
    method TableExists(name: string) returns (b: bool)
      ensures b <==> online && |name| > 0 && SanitizeTableName(name) in tables
    {
      b := online && |name| > 0 && SanitizeTableName(name) in tables;
    }

    /** `get_table_info`. */
    method GetTableInfo(name: string) returns (info: TableInfo)
      requires Valid()
      ensures info.found <==> online && |name| > 0 && SanitizeTableName(name) in tables
      ensures info.found ==>
                var t := tables[SanitizeTableName(name)];
                && info.tableName == SanitizeTableName(name)
                && info.columns == [t.columns[0], TimestampColumn] + t.columns[1..]
                && info.rowCount == |t.rows|
                && info.sample == t.rows[..Min(10, |t.rows|)]
      ensures !info.found ==> info.tableName == name
    {
      if !online || |name| == 0 || SanitizeTableName(name) !in tables {
        return TableInfo(name, false, [], 0, []);
      }
      var safe := SanitizeTableName(name);
      var t := tables[safe];
      assert WellFormed(t);
      info := TableInfo(safe, true, [t.columns[0], TimestampColumn] + t.columns[1..], |t.rows|, t.rows[..Min(10, |t.rows|)]);
    }

    /** `drop_table`: DROP TABLE IF EXISTS under the sanitised name. */
    method DropTable(name: string) returns (ok: bool)
      requires Valid()
      modifies this`tables
      ensures Valid()
      ensures ok <==> online && |name| > 0
      ensures ok ==> tables == old(tables) - {SanitizeTableName(name)}
      ensures !ok ==> tables == old(tables)
    {
      if !online || |name| == 0 {
        return false;
      }
      tables := tables - {SanitizeTableName(name)};
      ok := true;
    }

    /** `execute_query` with a SELECT statement: ClickHouse's answer turned
        into records, or a failed result with no data. */
    method ExecuteSelect(stmt: Statement) returns (res: QueryResult)
      requires stmt.SelectOrdered? || stmt.CountRows?
      ensures res == SelectResult(tables, online, stmt)
    {
      if !online {
        return Failed;
      }
      var answer := SelectAnswer(tables, stmt);
      if answer.None? {
        return Failed;
      }
      var (names, rows) := answer.value;
      var ok, data := RowsToRecords(names, rows);
      res := QueryResult(true, data);
    }

    /** `execute_query` with a RENAME or DROP statement: no records; the
        tables change only on success. */
    method ExecuteCommand(stmt: Statement) returns (res: QueryResult)
      requires Valid() && (stmt.RenameTable? || stmt.DropTableIfExists?)
      modifies this`tables
      ensures Valid()
      ensures res.data == []
      ensures res.success <==> online && CommandEffect(old(tables), stmt).Some?
      ensures res.success ==> tables == CommandEffect(old(tables), stmt).value
      ensures !res.success ==> tables == old(tables)
    {
      if !online {
        return Failed;
      }
      var effect := CommandEffect(tables, stmt);
      if effect.None? {
        return Failed;
      }
      tables := effect.value;
      res := QueryResult(true, []);
    }
  }
}
