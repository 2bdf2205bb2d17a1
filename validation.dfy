/** Upload checks: the file-name filter, the format validation of a parsed
    frame against its experiment type, and the cleaning that precedes
    storage. */
module Validation {
  import opened Wrappers
  import opened Rows
  import opened Sorting
  import PyText

  // ---------------------------------------------------------------------------
  // is_allowed_file

  const AllowedExtensions: set<string> := {"csv", "xlsx", "xls"}

  /** `"." in filename and filename.rsplit(".", 1)[1].lower() in allowed`. */
  predicate IsAllowedFile(filename: string) {
    match PyText.LastIndex(filename, '.')
    case None => false
    case Some(i) => PyText.Lower(filename[i + 1..]) in AllowedExtensions
  }

  /** Position `i` holds the last dot of the name, and the text after it
      lowercases to one of the allowed extensions. */
  predicate AllowedAt(filename: string, i: int) {
    && 0 <= i < |filename| && filename[i] == '.' && '.' !in filename[i + 1..]
    && PyText.Lower(filename[i + 1..]) in AllowedExtensions
  }

  /** A name is accepted exactly when it has a dot, and the text after its
      last dot lowercases to one of the three extensions. */
  lemma IsAllowedFileIff(filename: string)
    ensures IsAllowedFile(filename) <==> exists i :: AllowedAt(filename, i)
  {
    if IsAllowedFile(filename) {
      var k := PyText.LastIndex(filename, '.').value;
      assert AllowedAt(filename, k);
    }
    forall i | AllowedAt(filename, i) ensures IsAllowedFile(filename) {
      LastDotIs(filename, i);
    }
  }

  /** A dot with no dot after it is the one `rsplit` finds. */
  lemma LastDotIs(filename: string, i: nat)
    requires i < |filename| && filename[i] == '.' && '.' !in filename[i + 1..]
    ensures PyText.LastIndex(filename, '.') == Some(i)
  {
    assert filename[i] in filename;
    var r := PyText.LastIndex(filename, '.');
    LastOccurrenceUnique(filename, '.', i, r.value);
  }

  /** Two positions of `d` with no `d` after either are the same position. */
  lemma LastOccurrenceUnique(s: string, d: char, i: nat, j: nat)
    requires i < |s| && j < |s| && s[i] == d && s[j] == d
    requires d !in s[i + 1..] && d !in s[j + 1..]
    ensures i == j
  {
  }

  /** Upper-case extensions are accepted; only the last extension counts;
      a name without a dot is refused, even if it spells an extension. */
  lemma IsAllowedFileExamples()
    ensures IsAllowedFile("run.CSV")
    ensures !IsAllowedFile("run.csv.zip")
    ensures !IsAllowedFile("csv")
  {
    UpperAccepted();
    LastExtensionCounts();
    NoDotRefused();
  }

  lemma UpperAccepted()
    ensures IsAllowedFile("run.CSV")
  {
    var n := "run.CSV";
    assert n[3] == '.' && n[4..] == "CSV";
    assert '.' !in n[4..];
    var r := PyText.LastIndex(n, '.');
    assert n[3] in n;
    LastOccurrenceUnique(n, '.', r.value, 3);
    assert PyText.Lower("CSV") == "csv";
  }

  lemma LastExtensionCounts()
    ensures !IsAllowedFile("run.csv.zip")
  {
    var n := "run.csv.zip";
    assert n[7] == '.' && n[8..] == "zip";
    assert '.' !in n[8..];
    var r := PyText.LastIndex(n, '.');
    assert n[7] in n;
    LastOccurrenceUnique(n, '.', r.value, 7);
    assert PyText.Lower("zip") == "zip";
  }

  lemma NoDotRefused()
    ensures !IsAllowedFile("csv")
  {
    assert '.' !in "csv";
  }

  // ---------------------------------------------------------------------------
  // validate_data_format

  /** The columns an experiment type requires: its time column, then its
      data columns. */
  function Required(timeColumn: string, dataColumns: seq<string>): seq<string> {
    [timeColumn] + dataColumns
  }

  datatype Issue =
    | MissingColumns(columns: seq<string>)
    | TimeNotNumeric(column: string)
    | DataNotNumeric(column: string)
    | NoRows

  datatype Verdict = Verdict(isValid: bool, issues: seq<Issue>)

  /** `[col for col in required if col not in df.columns]`. */
  function Missing(required: seq<string>, columns: seq<string>): (r: seq<string>)
    ensures forall c :: c in r <==> c in required && c !in columns
  {
    if required == [] then []
    else
      var init := required[..|required| - 1];
      var c := required[|required| - 1];
      var front := Missing(init, columns);
      assert forall d :: d in required <==> d == c || d in init;
      if c !in columns then front + [c] else front
  }

  /** The issue raised, in order, for each data column present but not numeric. */
  function NonNumeric(f: Frame, dataColumns: seq<string>): (r: seq<Issue>)
    ensures forall x :: x in r <==>
              exists c :: c in dataColumns && c in f.columns && c !in f.numeric && x == DataNotNumeric(c)
  {
    if dataColumns == [] then []
    else
      var init := dataColumns[..|dataColumns| - 1];
      var c := dataColumns[|dataColumns| - 1];
      var front := NonNumeric(f, init);
      assert forall d :: d in dataColumns <==> d == c || d in init;
      if c in f.columns && c !in f.numeric then front + [DataNotNumeric(c)] else front
  }

  /** The issues `validate_data_format` reports, in its order. */
  function Issues(f: Frame, timeColumn: string, dataColumns: seq<string>): seq<Issue> {
    var missing := Missing(Required(timeColumn, dataColumns), f.columns);
    (if missing != [] then [MissingColumns(missing)] else [])
    + (if timeColumn in f.columns && timeColumn !in f.numeric then [TimeNotNumeric(timeColumn)] else [])
    + NonNumeric(f, dataColumns)
    + (if |f.rows| == 0 then [NoRows] else [])
  }

  function Validate(f: Frame, timeColumn: string, dataColumns: seq<string>): Verdict {
    var issues := Issues(f, timeColumn, dataColumns);
    Verdict(issues == [], issues)
  }

  /** A frame is valid exactly when every required column is present and
      numeric and there is at least one row. */
  lemma ValidateIff(f: Frame, timeColumn: string, dataColumns: seq<string>)
    ensures Validate(f, timeColumn, dataColumns).isValid <==>
              && (forall c :: c in Required(timeColumn, dataColumns) ==> c in f.columns && c in f.numeric)
              && |f.rows| > 0
  {
    var req := Required(timeColumn, dataColumns);
    var missing := Missing(req, f.columns);
    var v := Validate(f, timeColumn, dataColumns);
    assert forall c :: c in req <==> c == timeColumn || c in dataColumns;
    if !v.isValid {
      var issues := Issues(f, timeColumn, dataColumns);
      if missing != [] {
        assert missing[0] in missing;
      } else if timeColumn in f.columns && timeColumn !in f.numeric {
      } else if NonNumeric(f, dataColumns) != [] {
        assert NonNumeric(f, dataColumns)[0] in NonNumeric(f, dataColumns);
      }
    } else {
      forall c | c in req ensures c in f.columns && c in f.numeric {
        assert c !in missing;
        if c != timeColumn {
          assert DataNotNumeric(c) !in NonNumeric(f, dataColumns);
        }
      }
    }
  }

  /** Each kind of issue is reported exactly when its condition holds. */
  lemma IssuesMeaning(f: Frame, timeColumn: string, dataColumns: seq<string>)
    ensures var issues := Issues(f, timeColumn, dataColumns);
            && ((exists cs :: MissingColumns(cs) in issues) <==>
                  exists c :: c in Required(timeColumn, dataColumns) && c !in f.columns)
            && (TimeNotNumeric(timeColumn) in issues <==> timeColumn in f.columns && timeColumn !in f.numeric)
            && (forall c :: DataNotNumeric(c) in issues <==> c in dataColumns && c in f.columns && c !in f.numeric)
            && (NoRows in issues <==> |f.rows| == 0)
  {
    MissingIssue(f, timeColumn, dataColumns);
    var issues := Issues(f, timeColumn, dataColumns);
    var parts := IssueParts(f, timeColumn, dataColumns);
    InFour(parts.0, parts.1, parts.2, parts.3, TimeNotNumeric(timeColumn));
    InFour(parts.0, parts.1, parts.2, parts.3, NoRows);
    forall c ensures DataNotNumeric(c) in issues <==> c in dataColumns && c in f.columns && c !in f.numeric {
      InFour(parts.0, parts.1, parts.2, parts.3, DataNotNumeric(c));
    }
  }

  /** The four groups of issues, in their order. */
  function IssueParts(f: Frame, timeColumn: string, dataColumns: seq<string>)
    : (r: (seq<Issue>, seq<Issue>, seq<Issue>, seq<Issue>))
    ensures Issues(f, timeColumn, dataColumns) == r.0 + r.1 + r.2 + r.3
    ensures forall x :: x in r.0 ==> x.MissingColumns?
    ensures forall x :: x in r.1 ==> x.TimeNotNumeric?
    ensures forall x :: x in r.2 ==> x.DataNotNumeric?
    ensures forall x :: x in r.3 ==> x.NoRows?
  {
    var missing := Missing(Required(timeColumn, dataColumns), f.columns);
    ((if missing != [] then [MissingColumns(missing)] else []),
     (if timeColumn in f.columns && timeColumn !in f.numeric then [TimeNotNumeric(timeColumn)] else []),
     NonNumeric(f, dataColumns),
     (if |f.rows| == 0 then [NoRows] else []))
  }

  lemma AppendEmpty<T>(s: seq<T>)
    ensures s + [] == s
  {
  }

  lemma InFour<T>(a: seq<T>, b: seq<T>, c: seq<T>, d: seq<T>, x: T)
    ensures x in a + b + c + d <==> x in a || x in b || x in c || x in d
  {
  }

  /** A missing-columns issue is reported exactly when a required column
      is absent. */
  lemma MissingIssue(f: Frame, timeColumn: string, dataColumns: seq<string>)
    ensures (exists cs :: MissingColumns(cs) in Issues(f, timeColumn, dataColumns)) <==>
              exists c :: c in Required(timeColumn, dataColumns) && c !in f.columns
  {
    var req := Required(timeColumn, dataColumns);
    var missing := Missing(req, f.columns);
    var issues := Issues(f, timeColumn, dataColumns);
    var parts := IssueParts(f, timeColumn, dataColumns);
    if exists c :: c in req && c !in f.columns {
      var c :| c in req && c !in f.columns;
      assert c in missing;
      assert parts.0 == [MissingColumns(missing)];
      InFour(parts.0, parts.1, parts.2, parts.3, MissingColumns(missing));
    }
    if exists cs :: MissingColumns(cs) in issues {
      var cs :| MissingColumns(cs) in issues;
      InFour(parts.0, parts.1, parts.2, parts.3, MissingColumns(cs));
      assert missing != [] && missing[0] in missing;
    }
  }

  /** `validate_data_format`. */
  method ValidateDataFormat(f: Frame, timeColumn: string, dataColumns: seq<string>) returns (v: Verdict)
    ensures v == Validate(f, timeColumn, dataColumns)
  {
    ghost var parts := IssueParts(f, timeColumn, dataColumns);
    var missing := MissingLoop(Required(timeColumn, dataColumns), f.columns);
    var issues: seq<Issue> := [];
    if missing != [] {
      issues := issues + [MissingColumns(missing)];
    }
    assert issues == parts.0;
    if timeColumn in f.columns && timeColumn !in f.numeric {
      issues := issues + [TimeNotNumeric(timeColumn)];
    } else {
      AppendEmpty(issues);
    }
    assert issues == parts.0 + parts.1;
    var found := NonNumericLoop(f, dataColumns);
    issues := issues + found;
    if |f.rows| == 0 {
      issues := issues + [NoRows];
    } else {
      AppendEmpty(issues);
    }
    assert issues == parts.0 + parts.1 + parts.2 + parts.3;
    v := Verdict(|issues| == 0, issues);
  }

  /** The list comprehension collecting the missing required columns. */
  method MissingLoop(required: seq<string>, columns: seq<string>) returns (missing: seq<string>)
    ensures missing == Missing(required, columns)
  {
    missing := [];
    for i := 0 to |required|
      invariant missing == Missing(required[..i], columns)
    {
      assert required[..i + 1][..i] == required[..i];
      if required[i] !in columns {
        missing := missing + [required[i]];
      }
    }
    assert required[..|required|] == required;
  }

  /** The loop over the data columns appending a non-numeric issue. */
  method NonNumericLoop(f: Frame, dataColumns: seq<string>) returns (found: seq<Issue>)
    ensures found == NonNumeric(f, dataColumns)
  {
    found := [];
    for j := 0 to |dataColumns|
      invariant found == NonNumeric(f, dataColumns[..j])
    {
      var col := dataColumns[j];
      assert dataColumns[..j + 1][..j] == dataColumns[..j];
      if col in f.columns && col !in f.numeric {
        found := found + [DataNotNumeric(col)];
      }
    }
    assert dataColumns[..|dataColumns|] == dataColumns;
  }

  // ---------------------------------------------------------------------------
  // clean_data

  datatype Cleaned = Cleaned(rows: seq<Row>) | MissingRequired

  /** The record restricted to the required columns (`df[required_columns]`). */
  function Project(r: Row, columns: seq<string>): (p: Row)
    ensures p.Keys == r.Keys * set c | c in columns
    ensures forall k :: k in p ==> p[k] == r[k]
  {
    map k | k in r && k in columns :: r[k]
  }

  predicate HasAll(r: Row, columns: seq<string>) {
    forall c :: c in columns ==> c in r
  }

  /** `dropna()` after the projection: the projected records with no null
      among the required columns, in order. */
  function KeptRows(rows: seq<Row>, columns: seq<string>): (r: seq<Row>)
    ensures |r| <= |rows|
    ensures forall x :: x in r ==> HasAll(x, columns) && x.Keys == set c | c in columns
    ensures forall x :: x in r <==> exists y :: y in rows && HasAll(y, columns) && x == Project(y, columns)
  {
    if rows == [] then []
    else
      var rest := KeptRows(rows[1..], columns);
      assert forall y :: y in rows <==> y == rows[0] || y in rows[1..];
      if HasAll(rows[0], columns) then [Project(rows[0], columns)] + rest else rest
  }

  /** `clean_data`: select the required columns (a missing one is a
      KeyError), drop rows with a null, and sort by the time column. */
  function Clean(f: Frame, timeColumn: string, dataColumns: seq<string>): Cleaned {
    var req := Required(timeColumn, dataColumns);
    if Missing(req, f.columns) != [] then MissingRequired
    else Cleaned(Sort(KeptRows(f.rows, req), ByColumn(timeColumn)))
  }

  /** The cleaned rows are exactly the complete rows, restricted to the
      required columns, each once per occurrence, ascending in time. */
  lemma CleanProperties(f: Frame, timeColumn: string, dataColumns: seq<string>)
    ensures Clean(f, timeColumn, dataColumns).MissingRequired? <==>
              exists c :: c in Required(timeColumn, dataColumns) && c !in f.columns
    ensures var req := Required(timeColumn, dataColumns);
            var res := Clean(f, timeColumn, dataColumns);
            res.Cleaned? ==>
              && AscendingIn(res.rows, timeColumn)
              && multiset(res.rows) == multiset(KeptRows(f.rows, req))
              && |res.rows| <= |f.rows|
              && (forall i :: 0 <= i < |res.rows| ==> res.rows[i].Keys == set c | c in req)
              && (forall x :: x in res.rows <==>
                    exists y :: y in f.rows && HasAll(y, req) && x == Project(y, req))
  {
    var req := Required(timeColumn, dataColumns);
    if exists c :: c in req && c !in f.columns {
      var c :| c in req && c !in f.columns;
      assert c in Missing(req, f.columns);
    }
    var missing := Missing(req, f.columns);
    if missing != [] {
      assert missing[0] in missing;
    }
    var res := Clean(f, timeColumn, dataColumns);
    if res.Cleaned? {
      assert res.rows == Sort(KeptRows(f.rows, req), ByColumn(timeColumn));
      SortKept(f.rows, req, timeColumn);
    }
  }

  /** Sorting the kept rows by a required column. */
  lemma SortKept(rows: seq<Row>, req: seq<string>, timeColumn: string)
    requires timeColumn in req
    ensures var kept := KeptRows(rows, req);
            var sorted := Sort(kept, ByColumn(timeColumn));
            && AscendingIn(sorted, timeColumn)
            && multiset(sorted) == multiset(kept)
            && |sorted| <= |rows|
            && (forall i :: 0 <= i < |sorted| ==> sorted[i].Keys == set c | c in req)
            && (forall x :: x in sorted <==> exists y :: y in rows && HasAll(y, req) && x == Project(y, req))
  {
    var kept := KeptRows(rows, req);
    var sorted := Sort(kept, ByColumn(timeColumn));
    forall i | 0 <= i < |kept| ensures timeColumn in kept[i] {
      assert kept[i] in kept;
    }
    SortByColumnAscending(kept, timeColumn);
    assert |sorted| == |kept| by {
      assert |multiset(sorted)| == |multiset(kept)|;
    }
    forall x ensures x in sorted <==> x in kept {
      assert x in sorted <==> x in multiset(sorted);
      assert x in kept <==> x in multiset(kept);
    }
    forall i | 0 <= i < |sorted| ensures sorted[i].Keys == set c | c in req {
      assert sorted[i] in sorted;
    }
  }
}
