/** The data processor service (`DataProcessor`): the catalog of uploaded
    datasets, the fetches that gather historical rows from the column store,
    the envelope result cache, temporary comparison uploads with their
    promotion and discard, and the upload with its compensation. */
module Processor {
  import opened Wrappers
  import opened Rows
  import opened Sorting
  import B = Bucketing
  import E = Envelope
  import C = Comparison
  import CH = ClickHouse
  import V = Validation
  import PyText

  // ---------------------------------------------------------------------------
  // Catalog

  /** An experiment type: its time column and its data columns. */
  datatype ExperimentType = ExperimentType(id: nat, timeColumn: string, dataColumns: seq<string>)

  /** An `ExperimentData` row of the catalog. */
  datatype ExperimentRecord = ExperimentRecord(
    id: nat,
    typeId: nat,
    dataName: string,
    fileName: string,
    tableName: string,
    rowCount: nat,
    active: bool,
    historical: bool)

  function IdsOf(rs: seq<ExperimentRecord>): (ids: seq<nat>)
    ensures |ids| == |rs| && forall k :: 0 <= k < |rs| ==> ids[k] == rs[k].id
  {
    seq(|rs|, k requires 0 <= k < |rs| => rs[k].id)
  }

  /** `filter_by(experiment_type_id=..., is_historical=True, status="active")`,
      in catalog order. */
  function HistoricalOf(records: seq<ExperimentRecord>, typeId: nat): (h: seq<ExperimentRecord>)
    ensures forall r :: r in h <==> r in records && r.typeId == typeId && r.historical && r.active
    ensures |h| <= |records|
  {
    if records == [] then []
    else
      var init := records[..|records| - 1];
      var last := records[|records| - 1];
      var front := HistoricalOf(init, typeId);
      assert forall r :: r in records <==> r == last || r in init;
      if last.typeId == typeId && last.historical && last.active then front + [last] else front
  }

  /** `ExperimentData.query.get(id)`. */
  function RecordWithId(records: seq<ExperimentRecord>, id: nat): (r: Option<ExperimentRecord>)
    ensures r.Some? ==> r.value in records && r.value.id == id
    ensures r.None? ==> forall k :: 0 <= k < |records| ==> records[k].id != id
  {
    if records == [] then None
    else if records[0].id == id then Some(records[0])
    else RecordWithId(records[1..], id)
  }

  // ---------------------------------------------------------------------------
  // Envelope cache

  const CacheLifetime: int := 3600

  /** The canonical parameters whose digest keys a cache entry: the sorted
      columns, the sampling points or "full" (None), and the sampling flag.
      The MD5 digest of their JSON is replaced by the parameters
      themselves. */
  datatype CacheKey = CacheKey(columns: seq<string>, samplingPoints: Option<int>, useSampling: bool)

  /** An `EnvelopeCache` row; `dataIds` is the sorted id list its JSON spells. */
  datatype CacheEntry = CacheEntry(
    typeId: nat,
    key: CacheKey,
    dataIds: seq<nat>,
    envelope: E.Outcome<E.EnvelopeData>,
    createdAt: int,
    expiresAt: int)

  function KeyOf(selected: seq<string>, samplingPoints: int, useSampling: bool): CacheKey {
    CacheKey(Sort(selected, StrLe), if useSampling then Some(samplingPoints) else None, useSampling)
  }

  /** The order of the selected columns and of the dataset ids does not
      change the key or the id list an entry is looked up by. */
  lemma KeyOrderIndependent(a: seq<string>, b: seq<string>, ids: seq<nat>, idsB: seq<nat>,
                            samplingPoints: int, useSampling: bool)
    requires multiset(a) == multiset(b) && multiset(ids) == multiset(idsB)
    ensures KeyOf(a, samplingPoints, useSampling) == KeyOf(b, samplingPoints, useSampling)
    ensures Sort(ids, NatLe) == Sort(idsB, NatLe)
  {
    StrLeIsTotalOrder();
    SortOrderIndependent(a, b, StrLe);
    NatLeIsTotalOrder();
    SortOrderIndependent(ids, idsB, NatLe);
  }

  /** Without sampling the point count is not part of the key. */
  lemma FullKeyIgnoresPoints(selected: seq<string>, p: int, q: int)
    ensures KeyOf(selected, p, false) == KeyOf(selected, q, false)
    ensures p != q ==> KeyOf(selected, p, true) != KeyOf(selected, q, true)
  {
  }

  predicate Matches(e: CacheEntry, typeId: nat, key: CacheKey, ids: seq<nat>) {
    e.typeId == typeId && e.key == key && e.dataIds == ids
  }

  /** The query's `.first()`: the earliest matching entry. */
  function FindEntry(cache: seq<CacheEntry>, typeId: nat, key: CacheKey, ids: seq<nat>): (r: Option<nat>)
    ensures r.Some? ==> r.value < |cache| && Matches(cache[r.value], typeId, key, ids)
    ensures r.Some? ==> forall k :: 0 <= k < r.value ==> !Matches(cache[k], typeId, key, ids)
    ensures r.None? ==> forall k :: 0 <= k < |cache| ==> !Matches(cache[k], typeId, key, ids)
  {
    if cache == [] then None
    else if Matches(cache[0], typeId, key, ids) then Some(0)
    else
      var rest := FindEntry(cache[1..], typeId, key, ids);
      if rest.Some? then Some(rest.value + 1) else None
  }

  /** `EnvelopeCache.is_expired`. */
  predicate Expired(e: CacheEntry, now: int) {
    now > e.expiresAt
  }

  /** The cache after a recomputation at `now`: the matched entry is
      overwritten in place, or a new entry is appended; either lives for an
      hour. */
  function CacheStore(cache: seq<CacheEntry>, hit: Option<nat>, typeId: nat, key: CacheKey, ids: seq<nat>,
                      envelope: E.Outcome<E.EnvelopeData>, now: int): (r: seq<CacheEntry>)
    requires hit.Some? ==> hit.value < |cache|
  {
    var entry := CacheEntry(typeId, key, ids, envelope, now, now + CacheLifetime);
    if hit.Some? then cache[hit.value := entry] else cache + [entry]
  }

  /** A stored result is found again by the same parameters and served for
      the following hour; the other entries are untouched. */
  lemma StoredIsServed(cache: seq<CacheEntry>, typeId: nat, key: CacheKey, ids: seq<nat>,
                       envelope: E.Outcome<E.EnvelopeData>, now: int, later: int)
    requires now <= later <= now + CacheLifetime
    ensures var hit := FindEntry(cache, typeId, key, ids);
            var after := CacheStore(cache, hit, typeId, key, ids, envelope, now);
            var found := FindEntry(after, typeId, key, ids);
            && found.Some?
            && after[found.value].envelope == envelope
            && !Expired(after[found.value], later)
            && |after| == |cache| + (if hit.Some? then 0 else 1)
            && (forall k :: 0 <= k < |cache| && Some(k) != hit ==> after[k] == cache[k])
  {
    var hit := FindEntry(cache, typeId, key, ids);
    var after := CacheStore(cache, hit, typeId, key, ids, envelope, now);
    var found := FindEntry(after, typeId, key, ids);
    if hit.Some? {
      FindEntryAt(after, typeId, key, ids, hit.value);
    } else {
      FindEntryAt(after, typeId, key, ids, |cache|);
    }
  }

  /** When the entries before `i` do not match and entry `i` does, the
      lookup finds `i`. */
  lemma {:induction false} FindEntryAt(cache: seq<CacheEntry>, typeId: nat, key: CacheKey, ids: seq<nat>, i: nat)
    requires i < |cache| && Matches(cache[i], typeId, key, ids)
    requires forall k :: 0 <= k < i ==> !Matches(cache[k], typeId, key, ids)
    ensures FindEntry(cache, typeId, key, ids) == Some(i)
  {
    if i > 0 {
      FindEntryAt(cache[1..], typeId, key, ids, i - 1);
    }
  }

  // ---------------------------------------------------------------------------
  // Upload outcomes

  datatype UploadError = UnsupportedFile | Invalid(issues: seq<V.Issue>) | StoreFailed

  datatype Upload = Uploaded(dataId: nat, rowCount: nat, tableName: string) | UploadRejected(error: UploadError)

  datatype TempUpload =
    | TempUploaded(tempName: string, rowCount: nat, columns: seq<string>, timeRange: Option<(real, real)>)
    | TempRejected(error: UploadError)

  /** Whether `upload_to_clickhouse` succeeds: the table is created (or
      already there), then the insert is accepted. */
  predicate UploadSucceeds(tables: map<string, CH.Table>, online: bool, frame: Frame,
                           tableName: string, et: ExperimentType) {
    && CH.CreateSucceeds(tables, online, tableName, et.timeColumn, et.dataColumns)
    && CH.InsertAcceptedBy(CH.CreatedTables(tables, tableName, et.timeColumn, et.dataColumns),
                           online, tableName, frame, et.timeColumn)
  }

  /** The tables after `upload_to_clickhouse`, whether it succeeds or not: a
      failed creation changes nothing, and a failed insert leaves the
      created table. */
  function UploadedTables(tables: map<string, CH.Table>, online: bool, frame: Frame,
                          tableName: string, et: ExperimentType): map<string, CH.Table> {
    if !CH.CreateSucceeds(tables, online, tableName, et.timeColumn, et.dataColumns) then tables
    else
      var created := CH.CreatedTables(tables, tableName, et.timeColumn, et.dataColumns);
      if CH.InsertAcceptedBy(created, online, tableName, frame, et.timeColumn)
      then CH.InsertedTables(created, tableName, frame, et.timeColumn)
      else created
  }

  /** A successful upload appends every row of the frame, as stored, to the
      sanitised table (empty when it was new) and leaves every other table
      as it was. */
  lemma UploadStoresFrame(tables: map<string, CH.Table>, online: bool, frame: Frame,
                          tableName: string, et: ExperimentType)
    requires UploadSucceeds(tables, online, frame, tableName, et)
    ensures var safe := CH.SanitizeTableName(tableName);
            var r := UploadedTables(tables, online, frame, tableName, et);
            var before := if safe in tables then tables[safe].rows else [];
            && r.Keys == tables.Keys + {safe}
            && (forall n :: n in tables && n != safe ==> r[n] == tables[n])
            && r[safe].columns == (if safe in tables then tables[safe].columns else [et.timeColumn] + et.dataColumns)
            && r[safe].rows == before + CH.StoredRows(frame.rows, r[safe].columns,
                                                      CH.InsertColumnOrder(frame.columns, et.timeColumn))
            && |r[safe].rows| == |before| + |frame.rows|
  {
  }

  /** A failed upload loses nothing: every table keeps its rows, and at most
      the sanitised table is added, empty. */
  lemma UploadFailureKeepsTables(tables: map<string, CH.Table>, online: bool, frame: Frame,
                                 tableName: string, et: ExperimentType)
    requires !UploadSucceeds(tables, online, frame, tableName, et)
    ensures var r := UploadedTables(tables, online, frame, tableName, et);
            && (forall n :: n in tables ==> n in r && r[n] == tables[n])
            && (forall n :: n in r && n !in tables ==>
                  |tableName| > 0 && n == CH.SanitizeTableName(tableName) && r[n].rows == [])
  {
  }

  /** The frame `process_upload` hands to the store: the required columns
      of the cleaned rows. */
  function UploadFrame(frame: Frame, et: ExperimentType): Frame {
    var required := V.Required(et.timeColumn, et.dataColumns);
    var cleaned := V.Clean(frame, et.timeColumn, et.dataColumns);
    Frame(required, frame.numeric * CH.ColumnSet(required), if cleaned.Cleaned? then cleaned.rows else [])
  }

  datatype PromotionError = CountFailed | RenameFailed

  datatype Promotion = Promoted(dataId: nat) | NotPromoted(error: PromotionError)

  const TempPrefix: string := "temp_envelope_data_"

  /** The name a staged table is promoted to: every "temp_" removed. */
  function PromotedName(tempName: string): string {
    PyText.Replace(tempName, "temp_", "")
  }

  /** A staged table whose timestamp has no 't' (the `%Y%m%d_%H%M%S` format
      has only digits and '_') is promoted to `envelope_data_<timestamp>`. */
  lemma PromotedNameOfStamp(stamp: string)
    requires 't' !in stamp
    ensures PromotedName(TempPrefix + stamp) == "envelope_data_" + stamp
  {
    var tail := "envelope_data_" + stamp;
    TempSplit(stamp);
    PyText.ReplaceFront("temp_", tail, "");
    assert "" + PyText.Replace(tail, "temp_", "") == PyText.Replace(tail, "temp_", "");
    DataKept(stamp);
  }

  lemma TempSplit(stamp: string)
    ensures TempPrefix + stamp == "temp_" + ("envelope_data_" + stamp)
  {
    assert TempPrefix == "temp_" + "envelope_data_";
    Assoc("temp_", "envelope_data_", stamp);
  }

  /** "envelope_data_" holds no "temp_". */
  lemma DataKept(stamp: string)
    requires 't' !in stamp
    ensures PyText.Replace("envelope_data_" + stamp, "temp_", "") == "envelope_data_" + stamp
  {
    assert "envelope_data_" == "envelope_da" + "ta_";
    Assoc("envelope_da", "ta_", stamp);
    PyText.ReplaceSkips("envelope_da", "ta_" + stamp, "temp_", "");
    KeepsTa(stamp);
  }

  lemma Assoc(a: string, b: string, c: string)
    ensures (a + b) + c == a + (b + c)
  {
  }

  /** The "ta" of "data" starts no "temp_". */
  lemma KeepsTa(stamp: string)
    requires 't' !in stamp
    ensures PyText.Replace("ta_" + stamp, "temp_", "") == "ta_" + stamp
  {
    var s := "ta_" + stamp;
    assert s[1] == 'a';
    assert !(|s| >= 5 && s[..5] == "temp_") by {
      if |s| >= 5 { assert s[..5][1] == s[1]; }
    }
    assert s[1..] == "a_" + stamp;
    PyText.ReplaceSkips("a_", stamp, "temp_", "");
    PyText.ReplaceAbsent(stamp, "temp_", "");
    assert PyText.ReplaceFrom(s, "temp_", "") == [s[0]] + PyText.ReplaceFrom(s[1..], "temp_", "");
  }

  /** The store table name `process_upload` chooses. */
  function UploadTableName(typeId: nat, timestamp: nat): string {
    "exp_" + PyText.Decimal(typeId) + "_" + PyText.Decimal(timestamp)
  }

  /** The chosen name survives sanitising unless it is longer than the
      limit, so the catalog record keeps it. */
  lemma UploadTableNameSafe(typeId: nat, timestamp: nat)
    requires |UploadTableName(typeId, timestamp)| <= CH.MaxNameLength
    ensures CH.SanitizeTableName(UploadTableName(typeId, timestamp)) == UploadTableName(typeId, timestamp)
  {
    var name := UploadTableName(typeId, timestamp);
    var a := PyText.Decimal(typeId);
    var b := PyText.Decimal(timestamp);
    forall i | 0 <= i < |name| ensures CH.IsNameChar(name[i]) {
      if 4 <= i < 4 + |a| {
        assert name[i] == a[i - 4];
      } else if 5 + |a| <= i {
        assert name[i] == b[i - 5 - |a|];
      }
    }
    assert CH.IsSafeName(name);
  }

  /** The range of the time column's non-null values (`df[t].min()`,
      `.max()`), or None where pandas would answer NaN. */
  function TimeRange(rows: seq<Row>, t: string): Option<(real, real)> {
    var ts := ColumnValues(rows, t);
    if ts == [] then None else Some((MinOf(ts), MaxOf(ts)))
  }

  /** A `SELECT *` answers stored rows unchanged. */
  lemma StarQueryRows(t: CH.Table, q: CH.SelectQuery, row: Row)
    requires CH.WellFormed(t) && q.projection.None?
    requires CH.RunSelect(t, q).Some? && row in CH.RunSelect(t, q).value
    ensures row in t.rows
  {
    var rs := CH.RunSelect(t, q).value;
    var ls := CH.Limited(t, q);
    CH.RunSelectRows(t, q);
    var i :| 0 <= i < |rs| && rs[i] == row;
    LimitedIn(t, q, i);
    assert ls[i] in t.rows;
    ProjectOwnKeys(ls[i], t.columns);
  }

  lemma ProjectOwnKeys(r: Row, cols: seq<string>)
    requires r.Keys == CH.ColumnSet(cols)
    ensures CH.Project(r, cols) == r
  {
  }

  /** The rows a query keeps are rows of the table. */
  lemma LimitedIn(t: CH.Table, q: CH.SelectQuery, i: nat)
    requires i < |CH.Limited(t, q)|
    ensures CH.Limited(t, q)[i] in t.rows
  {
    var kept := CH.Where(t.rows, q.conditions);
    var ordered := Sort(kept, ByColumn(q.orderBy));
    var x := CH.Limited(t, q)[i];
    assert x == ordered[i];
    assert x in multiset(ordered);
    assert x in kept;
  }

  // ---------------------------------------------------------------------------
  // The service

  class DataProcessor {
    var records: seq<ExperimentRecord>
    var nextId: nat
    var types: map<nat, ExperimentType>
    var cache: seq<CacheEntry>
    const store: CH.ColumnStore

    /** Record ids ascend in catalog order and stay below the next id. */
    ghost predicate Valid()
      reads this, store
    {
      && store.Valid()
      && (forall k :: 0 <= k < |records| ==> records[k].id < nextId)
      && (forall i, j :: 0 <= i < j < |records| ==> records[i].id < records[j].id)
    }

    constructor (store: CH.ColumnStore, types: map<nat, ExperimentType>)
      requires store.Valid()
      ensures Valid()
      ensures this.store == store && this.types == types && records == [] && cache == [] && nextId == 0
    {
      this.store := store;
      this.types := types;
      records := [];
      cache := [];
      nextId := 0;
    }

    // -------------------------------------------------------------------------
    // Fetching

    /** `get_experiment_data` for one id: None when the record, its table
        name or its type is missing; otherwise the rows `query_data` returns
        (none when the query fails). */
    function FetchOne(id: nat): Option<seq<Row>>
      reads this, store
    {
      match RecordWithId(records, id)
      case None => None
      case Some(r) =>
        if r.tableName == [] || r.typeId !in types then None
        else Some(CH.QueryFrame(store.tables, store.online, r.tableName, types[r.typeId].timeColumn, [], None, 0).rows)
    }

    /** The rows `get_multiple_experiment_data` concatenates, in id order. */
    function FetchAll(ids: seq<nat>): seq<Row>
      reads this, store
    {
      if ids == [] then []
      else FetchAll(ids[..|ids| - 1]) + FetchOne(ids[|ids| - 1]).GetOr([])
    }

    method GetExperimentData(id: nat) returns (res: Option<seq<Row>>)
      ensures res == FetchOne(id)
    {
      var r := RecordWithId(records, id);
      if r.None? || r.value.tableName == [] || r.value.typeId !in types {
        return None;
      }
      var et := types[r.value.typeId];
      var frame := store.QueryData(r.value.tableName, et.timeColumn, [], None, 0);
      res := Some(frame.rows);
    }

    /** `get_multiple_experiment_data`: the concatenated rows, or None
        ("no valid data obtained") when there are none. */
    method GetMultipleExperimentData(ids: seq<nat>) returns (res: Option<seq<Row>>)
      ensures res.None? <==> FetchAll(ids) == []
      ensures res.Some? ==> res.value == FetchAll(ids)
    {
      var all: seq<Row> := [];
      for k := 0 to |ids|
        invariant all == FetchAll(ids[..k])
      {
        assert ids[..k + 1][..k] == ids[..k];
        var result := GetExperimentData(ids[k]);
        if result.Some? {
          all := all + result.value;
        }
      }
      assert ids[..|ids|] == ids;
      if all == [] {
        return None;
      }
      res := Some(all);
    }

    /** Every fetched row is a stored row of the table of one of the
        requested datasets. */
    lemma {:induction false} FetchedRowsStored(ids: seq<nat>, row: Row)
      requires Valid()
      requires row in FetchAll(ids)
      ensures exists k :: 0 <= k < |ids| && StoredIn(ids[k], row)
    {
      var init := ids[..|ids| - 1];
      var last := ids[|ids| - 1];
      if row in FetchAll(init) {
        FetchedRowsStored(init, row);
        var k :| 0 <= k < |init| && StoredIn(init[k], row);
        assert ids[k] == init[k];
      } else {
        FetchOneStored(last, row);
        assert ids[|ids| - 1] == last;
      }
    }

    /** The row is stored in the table of the dataset with this id. */
    ghost predicate StoredIn(id: nat, row: Row)
      reads this, store
    {
      && RecordWithId(records, id).Some?
      && var name := RecordWithId(records, id).value.tableName;
         |name| > 0 && CH.SanitizeTableName(name) in store.tables
         && row in store.tables[CH.SanitizeTableName(name)].rows
    }

    lemma FetchOneStored(id: nat, row: Row)
      requires Valid()
      requires FetchOne(id).Some? && row in FetchOne(id).value
      ensures StoredIn(id, row)
    {
      var r := RecordWithId(records, id).value;
      var safe := CH.SanitizeTableName(r.tableName);
      var q := CH.QueryFor(r.tableName, types[r.typeId].timeColumn, [], None, 0);
      var t := store.tables[safe];
      assert CH.WellFormed(t);
      StarQueryRows(t, q, row);
    }

    /** The rows the exact-time envelopes read: for each record whose table
        exists, the answer to `SELECT t, columns... FROM table ORDER BY t`;
        unreadable tables and failed queries contribute nothing. The simple
        variant's check for a missing table name is implied by
        `table_exists`, which is false for the empty name. */
    function ExactRowsOf(hist: seq<ExperimentRecord>, t: string, selected: seq<string>): seq<Row>
      reads this, store
    {
      if hist == [] then []
      else
        var name := hist[|hist| - 1].tableName;
        var front := ExactRowsOf(hist[..|hist| - 1], t, selected);
        if !(store.online && |name| > 0 && CH.SanitizeTableName(name) in store.tables) then front
        else
          var r := CH.SelectResult(store.tables, store.online, CH.SelectOrdered(name, t, selected));
          if r.success then front + r.data else front
    }

    method ReadExactRows(hist: seq<ExperimentRecord>, t: string, selected: seq<string>) returns (rows: seq<Row>)
      ensures rows == ExactRowsOf(hist, t, selected)
    {
      rows := [];
      for k := 0 to |hist|
        invariant rows == ExactRowsOf(hist[..k], t, selected)
      {
        assert hist[..k + 1][..k] == hist[..k];
        var name := hist[k].tableName;
        var exists_ := store.TableExists(name);
        if exists_ {
          var result := store.ExecuteSelect(CH.SelectOrdered(name, t, selected));
          if result.success {
            rows := rows + result.data;
          }
        }
      }
      assert hist[..|hist|] == hist;
    }

    // -------------------------------------------------------------------------
    // Envelopes

    /** The uncached envelope of `calculate_envelope_for_columns`. Sampled:
        the rows of all historical datasets (a failed fetch is an error),
        bucketed on the type's time column. Full: the type's time column
        looked up first, then the exact-time envelope of the rows read. */
    function EnvelopeOf(hist: seq<ExperimentRecord>, selected: seq<string>, samplingPoints: int,
                        useSampling: bool): E.Outcome<E.EnvelopeData>
      requires hist != []
      reads this, store
    {
      var typeId := hist[0].typeId;
      if useSampling then
        var rows := FetchAll(IdsOf(hist));
        if rows == [] then E.Failed(E.FetchFailed)
        else if typeId !in types then E.Failed(E.ComputationFailed)
        else E.SampledEnvelope(rows, types[typeId].timeColumn, selected, samplingPoints, |hist|)
      else if typeId !in types then E.Failed(E.ComputationFailed)
      else
        var t := types[typeId].timeColumn;
        E.FullEnvelope(ExactRowsOf(hist, t, selected), t, selected, |hist|)
    }

    method ComputeEnvelope(hist: seq<ExperimentRecord>, selected: seq<string>, samplingPoints: int,
                           useSampling: bool) returns (res: E.Outcome<E.EnvelopeData>)
      requires hist != []
      ensures res == EnvelopeOf(hist, selected, samplingPoints, useSampling)
    {
      var typeId := hist[0].typeId;
      if useSampling {
        var combined := GetMultipleExperimentData(IdsOf(hist));
        if combined.None? {
          return E.Failed(E.FetchFailed);
        }
        if typeId !in types {
          return E.Failed(E.ComputationFailed);
        }
        res := E.ComputeSampled(combined.value, types[typeId].timeColumn, selected, samplingPoints, |hist|);
      } else {
        if typeId !in types {
          return E.Failed(E.ComputationFailed);
        }
        var t := types[typeId].timeColumn;
        var rows := ReadExactRows(hist, t, selected);
        res := E.ComputeFull(rows, t, selected, |hist|);
      }
    }

    /** `calculate_envelope_for_columns`: no historical record is an error
        before the cache is consulted; an unexpired entry matching the type,
        the canonical parameters and the sorted ids is served; otherwise the
        envelope is recomputed (an error result too) and stored for an hour,
        over the matching entry when there is one. */
    method CalculateEnvelopeForColumns(typeId: nat, selected: seq<string>, samplingPoints: Option<int>,
                                       useSampling: bool, now: int) returns (res: E.Outcome<E.EnvelopeData>)
      modifies this`cache
      ensures var hist := HistoricalOf(records, typeId);
              var sp := samplingPoints.GetOr(B.DefaultSamplingPoints);
              var key := KeyOf(selected, sp, useSampling);
              var ids := Sort(IdsOf(hist), NatLe);
              var hit := FindEntry(old(cache), typeId, key, ids);
              if hist == [] then res == E.Failed(E.NoHistoricalData) && cache == old(cache)
              else if hit.Some? && !Expired(old(cache)[hit.value], now) then
                res == old(cache)[hit.value].envelope && cache == old(cache)
              else
                && res == old(EnvelopeOf(hist, selected, sp, useSampling))
                && cache == CacheStore(old(cache), hit, typeId, key, ids, res, now)
    {
      var hist := HistoricalOf(records, typeId);
      if hist == [] {
        return E.Failed(E.NoHistoricalData);
      }
      var sp := samplingPoints.GetOr(B.DefaultSamplingPoints);
      var key := KeyOf(selected, sp, useSampling);
      var ids := Sort(IdsOf(hist), NatLe);
      var hit := FindEntry(cache, typeId, key, ids);
      if hit.Some? && !Expired(cache[hit.value], now) {
        return cache[hit.value].envelope;
      }
      res := ComputeEnvelope(hist, selected, sp, useSampling);
      StoreEntry(hit, CacheEntry(typeId, key, ids, res, now, now + CacheLifetime));
    }

    /** The matched entry is overwritten in place, or the new one appended. */
    method StoreEntry(hit: Option<nat>, entry: CacheEntry)
      requires hit.Some? ==> hit.value < |cache|
      modifies this`cache
      ensures cache == if hit.Some? then old(cache)[hit.value := entry] else old(cache) + [entry]
    {
      if hit.Some? {
        cache := cache[hit.value := entry];
      } else {
        cache := cache + [entry];
      }
    }

    /** `calculate_envelope_simple`. */
    function SimpleOf(typeId: nat, selected: seq<string>): E.Outcome<E.SimpleEnvelope>
      reads this, store
    {
      if typeId !in types then E.Failed(E.TypeNotFound)
      else
        var hist := HistoricalOf(records, typeId);
        if hist == [] then E.Failed(E.NoHistoricalData)
        else
          var t := types[typeId].timeColumn;
          E.SimpleEnvelopeOf(ExactRowsOf(hist, t, selected), t, selected)
    }

    method CalculateEnvelopeSimple(typeId: nat, selected: seq<string>) returns (res: E.Outcome<E.SimpleEnvelope>)
      ensures res == SimpleOf(typeId, selected)
    {
      if typeId !in types {
        return E.Failed(E.TypeNotFound);
      }
      var t := types[typeId].timeColumn;
      var hist := HistoricalOf(records, typeId);
      if hist == [] {
        return E.Failed(E.NoHistoricalData);
      }
      var rows := ReadExactRows(hist, t, selected);
      res := E.ComputeSimple(rows, t, selected);
    }

    /** `get_temp_comparison_data`: the ordered SELECT of the staged table,
        then the comparison series; a failed query is an error. */
    function TempComparisonOf(tempName: string, t: string, selected: seq<string>,
                              useSampling: bool, samplingPoints: int): C.Answer
      reads this, store
    {
      var r := CH.SelectResult(store.tables, store.online, CH.SelectOrdered(tempName, t, selected));
      if !r.success then C.Refused(C.QueryFailed)
      else C.ComparisonOf(r.data, t, selected, useSampling, samplingPoints)
    }

    method GetTempComparisonData(tempName: string, t: string, selected: seq<string>,
                                 useSampling: bool, samplingPoints: int) returns (res: C.Answer)
      ensures res == TempComparisonOf(tempName, t, selected, useSampling, samplingPoints)
    {
      var result := store.ExecuteSelect(CH.SelectOrdered(tempName, t, selected));
      if !result.success {
        return C.Refused(C.QueryFailed);
      }
      res := C.ComputeComparison(result.data, t, selected, useSampling, samplingPoints);
    }

    // -------------------------------------------------------------------------
    // Uploads, staging, promotion and discard

    /** `upload_to_clickhouse`: create the table, then insert the frame. */
    method UploadToStore(frame: Frame, tableName: string, et: ExperimentType) returns (res: CH.InsertResult)
      requires Valid()
      modifies store
      ensures Valid() && unchanged(this)
      ensures !res.success ==> res.rowCount == 0
      ensures res.success ==>
                && |tableName| > 0
                && res.rowCount == |frame.rows|
                && res.tableName == CH.SanitizeTableName(tableName)
                && CH.SanitizeTableName(tableName) in store.tables
      ensures res.success <==> UploadSucceeds(old(store.tables), old(store.online), frame, tableName, et)
      ensures store.tables == UploadedTables(old(store.tables), old(store.online), frame, tableName, et)
      ensures store.online == old(store.online)
    {
      var created := store.CreateTimeseriesTable(tableName, et.timeColumn, et.dataColumns);
      if !created {
        return CH.InsertResult(false, 0, tableName);
      }
      res := store.InsertDataframe(tableName, frame, et.timeColumn);
    }

    /** `process_upload` after parsing: the file-name check, validation and
        cleaning, then a catalog record, then the store upload; a failed
        upload deletes the record again, and a sanitised table name is
        written back into the record. */
    method ProcessUpload(fileName: string, dataName: string, et: ExperimentType, frame: Frame, timestamp: nat)
      returns (res: Upload)
      requires Valid()
      modifies this`records, this`nextId, store
      ensures Valid()
      ensures !V.IsAllowedFile(fileName) ==> res == UploadRejected(UnsupportedFile)
      ensures V.IsAllowedFile(fileName) && !V.Validate(frame, et.timeColumn, et.dataColumns).isValid ==>
                res == UploadRejected(Invalid(V.Validate(frame, et.timeColumn, et.dataColumns).issues))
      ensures res.UploadRejected? && res.error != StoreFailed ==>
                records == old(records) && nextId == old(nextId) && store.tables == old(store.tables)
      ensures res.UploadRejected? ==> records == old(records)
      ensures res.Uploaded? ==>
                && V.IsAllowedFile(fileName) && V.Validate(frame, et.timeColumn, et.dataColumns).isValid
                && var cleaned := V.Clean(frame, et.timeColumn, et.dataColumns);
                   var name := CH.SanitizeTableName(UploadTableName(et.id, timestamp));
                   && cleaned.Cleaned?
                   && res == Uploaded(old(nextId), |cleaned.rows|, name)
                   && records == old(records) + [ExperimentRecord(old(nextId), et.id, dataName, fileName, name,
                                                                  |cleaned.rows|, true, false)]
                   && name in store.tables
      ensures V.IsAllowedFile(fileName) && V.Validate(frame, et.timeColumn, et.dataColumns).isValid ==>
                && var upload := UploadFrame(frame, et);
                   var tableName := UploadTableName(et.id, timestamp);
                   && (res.Uploaded? <==> UploadSucceeds(old(store.tables), old(store.online), upload, tableName, et))
                   && store.tables == UploadedTables(old(store.tables), old(store.online), upload, tableName, et)
    {
      if !V.IsAllowedFile(fileName) {
        return UploadRejected(UnsupportedFile);
      }
      var verdict := V.ValidateDataFormat(frame, et.timeColumn, et.dataColumns);
      if !verdict.isValid {
        return UploadRejected(Invalid(verdict.issues));
      }
      var required := V.Required(et.timeColumn, et.dataColumns);
      assert V.Missing(required, frame.columns) == [];
      var cleaned := V.Clean(frame, et.timeColumn, et.dataColumns);
      var upload := UploadFrame(frame, et);
      res := RecordAndUpload(dataName, fileName, et, upload, UploadTableName(et.id, timestamp));
    }

    /** The catalog record added before the store upload and deleted again
        when the upload fails. */
    method RecordAndUpload(dataName: string, fileName: string, et: ExperimentType, frame: Frame, tableName: string)
      returns (res: Upload)
      requires Valid() && |tableName| > 0
      modifies this`records, this`nextId, store
      ensures Valid() && nextId == old(nextId) + 1
      ensures res.UploadRejected? ==> res.error == StoreFailed && records == old(records)
      ensures res.Uploaded? ==>
                var name := CH.SanitizeTableName(tableName);
                && res == Uploaded(old(nextId), |frame.rows|, name)
                && records == old(records) + [ExperimentRecord(old(nextId), et.id, dataName, fileName, name,
                                                               |frame.rows|, true, false)]
                && name in store.tables
      ensures res.Uploaded? <==> UploadSucceeds(old(store.tables), old(store.online), frame, tableName, et)
      ensures store.tables == UploadedTables(old(store.tables), old(store.online), frame, tableName, et)
    {
      var id := nextId;
      var record := ExperimentRecord(id, et.id, dataName, fileName, tableName, |frame.rows|, true, false);
      AddRecord(record);
      var result := UploadToStore(frame, tableName, et);
      if !result.success {
        DropLastRecord();
        return UploadRejected(StoreFailed);
      }
      if result.tableName != tableName {
        RenameLastRecord(result.tableName);
      }
      res := Uploaded(id, |frame.rows|, result.tableName);
    }

    /** `db.session.add` of a record under the next id. */
    method AddRecord(record: ExperimentRecord)
      requires Valid() && record.id == nextId
      modifies this`records, this`nextId
      ensures Valid() && records == old(records) + [record] && nextId == old(nextId) + 1
    {
      records := records + [record];
      nextId := nextId + 1;
    }

    /** `db.session.delete` of the record just added. */
    method DropLastRecord()
      requires Valid() && records != []
      modifies this`records
      ensures Valid() && records == old(records)[..|old(records)| - 1]
    {
      records := records[..|records| - 1];
    }

    /** The sanitised table name written back into the record just added. */
    method RenameLastRecord(name: string)
      requires Valid() && records != []
      modifies this`records
      ensures Valid()
      ensures records == old(records)[|old(records)| - 1 := old(records)[|old(records)| - 1].(tableName := name)]
    {
      records := records[|records| - 1 := records[|records| - 1].(tableName := name)];
    }

    /** `process_temp_upload` after parsing: validation, then the uncleaned
        frame uploaded to `temp_envelope_data_<timestamp>`; no catalog
        record is written. */
    method ProcessTempUpload(frame: Frame, et: ExperimentType, stamp: string) returns (res: TempUpload)
      requires Valid()
      modifies store
      ensures Valid() && unchanged(this)
      ensures !V.Validate(frame, et.timeColumn, et.dataColumns).isValid ==>
                && res == TempRejected(Invalid(V.Validate(frame, et.timeColumn, et.dataColumns).issues))
                && store.tables == old(store.tables)
      ensures res.TempUploaded? ==>
                && V.Validate(frame, et.timeColumn, et.dataColumns).isValid
                && res.tempName == TempPrefix + stamp
                && CH.SanitizeTableName(res.tempName) in store.tables
                && res.rowCount == |frame.rows|
                && res.columns == frame.columns
                && res.timeRange == TimeRange(frame.rows, et.timeColumn)
      ensures res.TempRejected? && V.Validate(frame, et.timeColumn, et.dataColumns).isValid ==>
                res.error == StoreFailed
      ensures V.Validate(frame, et.timeColumn, et.dataColumns).isValid ==>
                && (res.TempUploaded? <==> UploadSucceeds(old(store.tables), old(store.online), frame, TempPrefix + stamp, et))
                && store.tables == UploadedTables(old(store.tables), old(store.online), frame, TempPrefix + stamp, et)
    {
      var verdict := V.ValidateDataFormat(frame, et.timeColumn, et.dataColumns);
      if !verdict.isValid {
        return TempRejected(Invalid(verdict.issues));
      }
      var tempName := TempPrefix + stamp;
      var result := UploadToStore(frame, tempName, et);
      if !result.success {
        return TempRejected(StoreFailed);
      }
      res := TempUploaded(tempName, |frame.rows|, frame.columns, TimeRange(frame.rows, et.timeColumn));
    }

    /** `save_temp_data_to_mysql`: count the staged rows, write a record
        under the promoted name, then rename the table; a failed rename
        deletes the record again. */
    method SaveTempDataToMysql(tempName: string, dataName: string, et: ExperimentType, fileName: string)
      returns (res: Promotion)
      requires Valid()
      modifies this`records, this`nextId, store
      ensures Valid()
      ensures store.online == old(store.online)
      ensures !CH.SelectResult(old(store.tables), old(store.online), CH.CountRows(tempName)).success ==>
                && res == NotPromoted(CountFailed)
                && records == old(records) && nextId == old(nextId) && store.tables == old(store.tables)
      ensures CH.SelectResult(old(store.tables), old(store.online), CH.CountRows(tempName)).success ==>
                nextId == old(nextId) + 1
      ensures res.Promoted? <==>
                && CH.SelectResult(old(store.tables), old(store.online), CH.CountRows(tempName)).success
                && CH.CommandEffect(old(store.tables), CH.RenameTable(tempName, PromotedName(tempName))).Some?
      ensures res == NotPromoted(RenameFailed) ==>
                records == old(records) && store.tables == old(store.tables)
      ensures res.Promoted? ==>
                && tempName in old(store.tables)
                && var target := PromotedName(tempName);
                   && res.dataId == old(nextId)
                   && records == old(records) + [ExperimentRecord(old(nextId), et.id, dataName, fileName, target,
                                                                  |old(store.tables)[tempName].rows|, true, false)]
                   && store.tables == (old(store.tables) - {tempName})[target := old(store.tables)[tempName]]
    {
      var count := store.ExecuteSelect(CH.CountRows(tempName));
      if !count.success {
        return NotPromoted(CountFailed);
      }
      CH.CountRowsRecord(store.tables, tempName);
      var total := count.data[0]["total"];
      var rowCount := total.Floor;
      assert rowCount == |store.tables[tempName].rows|;
      var target := PromotedName(tempName);
      var id := nextId;
      AddRecord(ExperimentRecord(id, et.id, dataName, fileName, target, rowCount, true, false));
      var renamed := store.ExecuteCommand(CH.RenameTable(tempName, target));
      if !renamed.success {
        DropLastRecord();
        return NotPromoted(RenameFailed);
      }
      res := Promoted(id);
    }

    /** `delete_temp_table`: `DROP TABLE IF EXISTS`, so discarding a table
        that is already gone succeeds and changes nothing. */
    method DeleteTempTable(tempName: string) returns (ok: bool)
      requires Valid()
      modifies store
      ensures Valid() && unchanged(this)
      ensures ok <==> store.online && CH.IsPlainIdentifier(tempName)
      ensures ok ==> store.tables == old(store.tables) - {tempName}
      ensures !ok ==> store.tables == old(store.tables)
    {
      var result := store.ExecuteCommand(CH.DropTableIfExists(tempName));
      ok := result.success;
    }
  }
}
