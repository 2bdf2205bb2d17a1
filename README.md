# Envelope analysis service — a verified Dafny model

This project models the data service of a test-data "envelope" analysis tool. Users upload time-series test runs (CSV or Excel), and each run becomes a table in a ClickHouse column store plus a record in a relational catalog. Runs marked *historical* for an experiment type are combined into an envelope: an upper and a lower curve per selected column over time. A temporary upload can then be compared against that envelope, promoted into the catalog, or discarded.

The model covers:

- **Envelope engine** (`Bucketing`, `Envelope`):
  - the interval count `min(sampling_points, rows // 5) or 20`;
  - pandas' `cut` with `include_lowest=True`;
  - the sampled envelope;
  - the two exact-time envelopes (full data, and "simple", which fills zeros).
- **Comparison series** (`Comparison`): the series of a temporary upload, with mean-per-bucket downsampling.
- **Envelope result cache** (`Processor.DataProcessor.CalculateEnvelopeForColumns`): keyed by type, canonical parameters and sorted historical ids, with a one-hour lifetime.
- **Upload flows** (`Processor`): the normal upload with its compensation, and the staging / promotion / discard flows. They are modelled as methods over a catalog (`records`) and an in-memory column store.
- **Validation and cleaning** (`Validation`): data validation, data cleaning and the file-name check.
- **Special-format preprocessing** (`SpecialFormat`): the string handling applied before pandas parses the text. Python's string built-ins are in `PyText`.
- **ClickHouse adapter** (`ClickHouse`):
  - table-name sanitising, DDL column lists and insert column order;
  - the `query_data` SQL clauses;
  - record conversion in `execute_query`;
  - an in-memory `ColumnStore` class with the adapter's methods.

A row is a `map<string, real>`; a missing key stands for a null (NaN) cell. The relational catalog is a `seq` of records, in insertion order. The ids are auto-increment values that only grow; a deleted record's id is not reused. The SQL the processor sends through `execute_query` is modelled as a `Statement` value (ordered SELECT, `count(*)`, RENAME, DROP IF EXISTS), not as text.

The code is followed where it departs from its own description: the interval count falls back to 20 only when `min(sampling_points, rows // 5)` is 0. It is not `max(20, …)`.

## Model

| member | source | states |
|---|---|---|
| Sorting.SortOrderIndependent | baoluofenxi/services/data_processor.py:543 | under a total order, any two permutations of a list sort to the same list, so `sorted(...)` canonicalises |
| Sorting.StrLeIsTotalOrder | baoluofenxi/services/data_processor.py:543 | Python's string comparison (lexicographic by code point) is a total, antisymmetric order |
| Sorting.SortSorted | baoluofenxi/services/data_processor.py:893 | the sort used for `sorted` is ordered and, by its contract, a permutation of its input |
| Sorting.SortDistinctReals | baoluofenxi/services/data_processor.py:893 | sorting distinct reals gives a strictly ascending list with the same elements |
| Rows.MeanWithin | baoluofenxi/services/data_processor.py:802 | the mean of a non-empty list lies between its minimum and its maximum |
| Rows.SortByColumnAscending | baoluofenxi/services/data_processor.py:499 | `sort_values(column)` orders rows ascending in that column and keeps them as a permutation |
| Rows.ColumnValuesAppend | baoluofenxi/services/data_processor.py:474 | a column's non-null values over concatenated frames are the concatenation of each frame's values |
| Bucketing.IntervalCount | baoluofenxi/services/data_processor.py:773 | the interval count is never 0; it is negative exactly when the requested points are; with positive points and at least 5 rows it is at most the points and at most rows/5; otherwise it is 20 |
| Bucketing.FewRowsFewIntervals | baoluofenxi/services/data_processor.py:773 | 50 rows with the default 200 points give 10 intervals (no floor of 20) |
| Bucketing.FallbackExceedsRows | baoluofenxi/services/data_processor.py:773 | 4 rows give 20 intervals, more than there are rows |
| Bucketing.EdgeEnds | baoluofenxi/services/data_processor.py:777-779 | the first of the n+1 evenly spaced edges is the least time and the last is the greatest |
| Bucketing.EdgeStrictlyMonotone | baoluofenxi/services/data_processor.py:777-779 | when the least and the greatest time differ, the edges strictly increase |
| Bucketing.BucketUnique | baoluofenxi/services/data_processor.py:777-782 | every time in [min, max] lies in exactly one right-closed bucket, the one `cut` assigns |
| Bucketing.InteriorEdgeGoesLower | baoluofenxi/services/data_processor.py:777-782 | a time on an interior edge k goes to bucket k-1 |
| Bucketing.EndsGoToEndBuckets | baoluofenxi/services/data_processor.py:777-782 | the least time goes to the first bucket and the greatest to the last |
| Bucketing.PlanFor | baoluofenxi/services/data_processor.py:769-782 | a plan exists exactly when the count is at least 1, and, when min equals max, the count is exactly 1 (duplicate edges raise otherwise); the plan spans [min, max] |
| Bucketing.SingleInstantNeedsOneInterval | baoluofenxi/services/data_processor.py:777-779 | when all times are equal, bucketing succeeds if and only if there is exactly one interval |
| Bucketing.GroupsCover | baoluofenxi/services/data_processor.py:784 | every row with a time belongs to the group of its bucket |
| Bucketing.GroupsDisjoint | baoluofenxi/services/data_processor.py:784 | no row belongs to two groups |
| Bucketing.Groups | baoluofenxi/services/data_processor.py:784 | groups are non-empty, in strictly increasing bucket order, at most n of them, and every row of a group lies in that group's bucket |
| Bucketing.CenterInBucket | baoluofenxi/services/data_processor.py:802 | the mean time of a group lies inside its bucket |
| Bucketing.CentersStrictlyAscending | baoluofenxi/services/data_processor.py:802-828 | the group centres strictly ascend, so the final `sorted` keeps them aligned with the bands |
| Envelope.ComputeSampled | baoluofenxi/services/data_processor.py:738-839 | the loops of the sampled envelope compute `SampledEnvelope` |
| Envelope.ColumnOverGroups | baoluofenxi/services/data_processor.py:795-820 | one pass over the groups yields the centres and the column's bucket max/min (0/0 with no value) |
| Envelope.SampledEnvelopeErrors | baoluofenxi/services/data_processor.py:763-779 | the sampled envelope fails exactly when there are no rows, no time column, or no valid bucketing plan |
| Envelope.SampledEnvelopeShape | baoluofenxi/services/data_processor.py:786-835 | the bands are the selected columns present in the data; every band is as long as the time axis, which has at most n points; upper ≥ lower; `sampling_points` is the axis length and `original_points` the row count |
| Envelope.SampledEnvelopeBuckets | baoluofenxi/services/data_processor.py:797-815 | the i-th point is the i-th non-empty bucket: its mean time, and the bucket's max/min of the column or 0/0 |
| Envelope.CollectByTime | baoluofenxi/services/data_processor.py:859-887 | filling `all_data_by_time` keeps under each (time, column) exactly the values of the rows at that time |
| Envelope.ExactAxisProperties | baoluofenxi/services/data_processor.py:893 | the exact axis has each distinct time once, strictly ascending, and is empty exactly when no row has a time |
| Envelope.ComputeFull | baoluofenxi/services/data_processor.py:841-929 | the loops of the full-data envelope compute `FullEnvelope` |
| Envelope.FullEnvelopeErrors | baoluofenxi/services/data_processor.py:877-890 | the full-data envelope fails exactly when a row lacks the time column or there is no time point |
| Envelope.FullEnvelopeShape | baoluofenxi/services/data_processor.py:893-925 | the axis is the strictly ascending distinct times; each band has equal upper/lower length, at most the axis length |
| Envelope.FullEnvelopeValues | baoluofenxi/services/data_processor.py:896-912 | each band entry is the max/min over all rows at that time point, and missing points are skipped |
| Envelope.ComputeSimple | baoluofenxi/services/data_processor.py:1228-1365 | the loops of the simple envelope compute `SimpleEnvelopeOf` |
| Envelope.SimpleEnvelopeErrors | baoluofenxi/services/data_processor.py:1297-1325 | the simple envelope fails exactly when no row has a time |
| Envelope.SimpleEnvelopeShape | baoluofenxi/services/data_processor.py:1328-1348 | every selected column has a band exactly as long as the axis |
| Envelope.SimpleEnvelopeValues | baoluofenxi/services/data_processor.py:1331-1348 | each entry is the max/min over the rows at that exact time, or 0/0 where the column has no value |
| Envelope.SimpleFullAgree | baoluofenxi/services/data_processor.py:893-910 | where a column has a value at every time point, the simple and full envelopes give the same axis and band |
| Comparison.ComputeComparison | baoluofenxi/services/data_processor.py:1026-1151 | the comparison loops compute `ComparisonOf` |
| Comparison.ComparisonEarlyErrors | baoluofenxi/services/data_processor.py:1061-1075 | no record is an error; otherwise the first requested column missing from the first record is the error |
| Comparison.ComparisonPassThrough | baoluofenxi/services/data_processor.py:1121-1131 | without sampling, records pass through unchanged as "full_data", and the result fails exactly when some record lacks a column |
| Comparison.ComparisonSampledSucceeds | baoluofenxi/services/data_processor.py:1081-1101 | with sampling (requested and records > points), the result succeeds exactly when some record has a time and bucketing is possible |
| Comparison.ComparisonSampledShape | baoluofenxi/services/data_processor.py:1081-1131 | a sampled comparison has one point per non-empty bucket, at most n, ascending, and every series is as long as the axis |
| Comparison.ComparisonSampledValues | baoluofenxi/services/data_processor.py:1097-1115 | each sampled point is the bucket's mean time and the bucket's mean of the column, or 0 |
| Comparison.ComparisonTimeRange | baoluofenxi/services/data_processor.py:1142-1145 | the time range is the least and greatest emitted time |
| PyText.SplitOnJoin | baoluofenxi/services/data_processor.py:99 | joining parts that avoid the separator and splitting again gives the parts back |
| PyText.JoinSplitOn | baoluofenxi/services/data_processor.py:99 | splitting on a separator and joining with it restores the text |
| PyText.SplitWhitespaceAvoids | baoluofenxi/services/data_processor.py:108 | `split()` gives non-empty fields without whitespace, and a character absent from the text is absent from every field |
| PyText.ReplaceSkips | baoluofenxi/services/data_processor.py:1176-1177 | `replace` copies a prefix in which the pattern's first character does not occur |
| PyText.DecimalValue | baoluofenxi/services/data_processor.py:291 | the decimal spelling of a number reads back as that number |
| SpecialFormat.CsvLineFields | baoluofenxi/services/data_processor.py:108 | a rewritten line has no whitespace, and a comma-free line splits on commas into exactly its whitespace-separated fields |
| SpecialFormat.ConvertLines | baoluofenxi/services/data_processor.py:93-148 | both special-format parsers' loops compute `SpecialCsv`: fewer than two lines is an error; the preview keeps `preview_rows + 1` lines; blank lines are dropped |
| SpecialFormat.SpecialCsvLines | baoluofenxi/services/data_processor.py:99-116 | the text handed to pandas splits back into one rewritten line per kept non-blank line |
| SpecialFormat.ConvertedNoSpace | baoluofenxi/services/data_processor.py:104-110 | no line of the rewritten text holds whitespace |
| SpecialFormat.ConvertedAppend | baoluofenxi/services/data_processor.py:104-110 | one more input line adds its rewritten form exactly when it is not blank |
| SpecialFormat.TabSeparatorFails | baoluofenxi/services/data_processor.py:1403-1434 | as written, the spelled-out separator `\t` always ends in a failure |
| SpecialFormat.ReadSpecialTab | baoluofenxi/services/data_processor.py:1367-1432 | in the intended reading `\t` behaves as the tab; for every other separator both readings agree |
| SpecialFormat.TabsBecomeCommas | baoluofenxi/services/data_processor.py:1420-1431 | an example: the content `t<tab>v` with the separator spelled `\t` becomes `t,v` |
| SpecialFormat.TabLineFields | baoluofenxi/services/data_processor.py:1404-1412 | in the multi-space branch a non-blank line splits on tabs into exactly its whitespace-separated fields |
| SpecialFormat.CommaLineFields | baoluofenxi/services/data_processor.py:1419-1426 | in the comma branch, for any one-character separator, a comma-free line splits on commas into exactly its stripped pieces between separators |
| SpecialFormat.ReadSpecialLines | baoluofenxi/services/data_processor.py:1395-1431 | the intended reading always yields text, and that text splits on newlines back into exactly the rewritten lines after the skipped ones, tab form or comma form |
| SpecialFormat.RewriteSpecial | baoluofenxi/services/data_processor.py:1367-1432 | the loops of `read_special_format_csv` (intended reading) compute `ReadSpecial`: the lines after `skip_rows`, each stripped, tab-collapsed in the multi-space branch and comma-replaced otherwise |
| Validation.IsAllowedFileIff | baoluofenxi/services/data_processor.py:29-34 | a file name is accepted if and only if it has a dot and the text after its last dot lowercases to csv, xlsx or xls |
| Validation.IsAllowedFileExamples | baoluofenxi/services/data_processor.py:29-34 | "run.CSV" is accepted; "run.csv.zip" and "csv" are refused |
| Validation.ValidateDataFormat | baoluofenxi/services/data_processor.py:369-414 | the validation loops compute `Validate`: first the missing required columns, then a non-numeric time column, then the non-numeric data columns, then no rows |
| Validation.ValidateIff | baoluofenxi/services/data_processor.py:375-402 | a frame is valid if and only if every required column is present and numeric and there is a row |
| Validation.IssuesMeaning | baoluofenxi/services/data_processor.py:379-399 | each kind of issue is reported exactly when its condition holds |
| Validation.Missing | baoluofenxi/services/data_processor.py:379 | the missing columns are exactly the required ones the frame lacks, in order |
| Validation.KeptRows | baoluofenxi/services/data_processor.py:493-496 | the rows kept are exactly the complete rows restricted to the required columns |
| Validation.CleanProperties | baoluofenxi/services/data_processor.py:486-508 | cleaning fails exactly when a required column is absent; otherwise the rows are the complete rows projected to the required columns, as a permutation, ascending in time |
| ClickHouse.SanitizeTableName | baoluofenxi/services/clickhouse_manager.py:52-65 | the result uses only [A-Za-z0-9_], starts with a letter or '_', has at most 60 characters, maps each disallowed character to '_', prefixes a leading digit with "exp_", and leaves a safe name unchanged |
| ClickHouse.SanitizeIdempotent | baoluofenxi/services/clickhouse_manager.py:52-65 | sanitising twice is sanitising once |
| ClickHouse.ColumnDefinitions | baoluofenxi/services/clickhouse_manager.py:74-80 | the DDL lists the time column, then `timestamp`, then each data column, all Float64 except `timestamp` |
| ClickHouse.InsertColumnOrder | baoluofenxi/services/clickhouse_manager.py:128-140 | the insert lists the time column, then `timestamp`, then the other frame columns in their order |
| ClickHouse.InsertColumnOrderDistinct | baoluofenxi/services/clickhouse_manager.py:128-140 | with distinct frame columns and a time column not named `timestamp`, the insert columns are distinct |
| ClickHouse.QueryFor | baoluofenxi/services/clickhouse_manager.py:183-205 | the query orders by the time column, has both inclusive bounds only with a time range, a LIMIT only for a non-zero limit, and `*` when no columns are given |
| ClickHouse.LimitedRows | baoluofenxi/services/clickhouse_manager.py:183-210 | the rows of a query are table rows meeting its conditions, ascending in time, at most the limit, and all of them without a limit |
| ClickHouse.QueryDataResult | baoluofenxi/services/clickhouse_manager.py:162-214 | a range query answers exactly the stored rows in the range, ascending, projected; a failed query gives the empty frame |
| ClickHouse.ZipAt | baoluofenxi/services/clickhouse_manager.py:318-322 | the record of a result row maps the i-th column name to the i-th value |
| ClickHouse.RowsToRecords | baoluofenxi/services/clickhouse_manager.py:313-330 | the conversion loop gives one record per result row, each mapping column names to values |
| ClickHouse.SelectResult | baoluofenxi/services/clickhouse_manager.py:295-340 | a SELECT on an unreachable server, or one naming an unknown table or column, fails with no data; otherwise it answers one record per row |
| ClickHouse.CountRowsRecord | baoluofenxi/services/data_processor.py:1162-1167 | a successful `count(*) as total` answers one record whose `total` is the table's row count |
| ClickHouse.DropIdempotent | baoluofenxi/services/data_processor.py:1209-1214 | dropping a table "if exists" twice has the effect of dropping it once |
| ClickHouse.ColumnStore.CreateTimeseriesTable | baoluofenxi/services/clickhouse_manager.py:67-109 | creates the table under the sanitised name if absent; fails on the empty name or an unreachable server, and for a new table on repeated columns or a time column that is not a plain identifier (it stands unquoted in `ORDER BY`); an existing table is kept |
| ClickHouse.SpacedTimeColumnRefused | baoluofenxi/services/clickhouse_manager.py:94-98 | a new table whose time column is `Time (s)` is not created |
| ClickHouse.ColumnStore.InsertDataframe | baoluofenxi/services/clickhouse_manager.py:111-160 | succeeds exactly when the insert is accepted; it then appends the frame's rows, nulls as 0, reports the row count and the sanitised name; on failure it reports the given name and changes nothing |
| ClickHouse.ColumnStore.QueryData | baoluofenxi/services/clickhouse_manager.py:162-214 | answers `QueryFrame`, the query's rows or the empty frame |
| ClickHouse.ColumnStore.TableExists | baoluofenxi/services/clickhouse_manager.py:216-227 | true exactly when the server answers and the sanitised non-empty name is a table |
| ClickHouse.ColumnStore.GetTableInfo | baoluofenxi/services/clickhouse_manager.py:229-282 | info on the sanitised table: columns with `timestamp` second, the row count and a sample of at most 10 rows |
| ClickHouse.ColumnStore.DropTable | baoluofenxi/services/clickhouse_manager.py:284-293 | removes the sanitised table if present; fails only on the empty name or an unreachable server |
| ClickHouse.ColumnStore.ExecuteSelect | baoluofenxi/services/clickhouse_manager.py:295-340 | its result is `SelectResult` on the current tables |
| ClickHouse.ColumnStore.ExecuteCommand | baoluofenxi/services/clickhouse_manager.py:295-340 | a RENAME or DROP succeeds exactly when the server answers and the command applies; the tables then take its effect, else they are unchanged; no records |
| Processor.HistoricalOf | baoluofenxi/services/data_processor.py:528-532 | the historical records of a type are exactly the active, historical records of that type |
| Processor.RecordWithId | baoluofenxi/services/data_processor.py:422 | a found record has the id; none is found only when no record has it |
| Processor.KeyOrderIndependent | baoluofenxi/services/data_processor.py:541-562 | reordering the selected columns or the historical ids leaves the cache key and the id list unchanged |
| Processor.FullKeyIgnoresPoints | baoluofenxi/services/data_processor.py:542-546 | without sampling the point count does not affect the key; with sampling different counts give different keys |
| Processor.FindEntry | baoluofenxi/services/data_processor.py:553-562 | the lookup answers the first entry matching type, key and ids, or none when no entry matches |
| Processor.StoredIsServed | baoluofenxi/services/data_processor.py:577-596 | after storing, the same parameters find the stored result and it is not expired for an hour; the store overwrites the match or appends, and other entries are unchanged |
| Processor.PromotedNameOfStamp | baoluofenxi/services/data_processor.py:1176-1186 | a staged table `temp_envelope_data_<stamp>` is promoted to `envelope_data_<stamp>` (every "temp_" removed) |
| Processor.UploadTableNameSafe | baoluofenxi/services/data_processor.py:291-323 | the upload table name `exp_<type>_<seconds>` survives sanitising unless it exceeds 60 characters |
| Processor.DataProcessor.GetExperimentData | baoluofenxi/services/data_processor.py:416-455 | fails for a missing record, table name or type; otherwise answers the rows of the record's table |
| Processor.DataProcessor.GetMultipleExperimentData | baoluofenxi/services/data_processor.py:457-484 | concatenates the rows of the requested datasets in order, and fails exactly when there are none |
| Processor.DataProcessor.FetchedRowsStored | baoluofenxi/services/data_processor.py:457-484 | every fetched row is a stored row of the table of one of the requested datasets |
| Processor.DataProcessor.ReadExactRows | baoluofenxi/services/data_processor.py:859-877 | reads the ordered SELECT of every historical table that exists; missing tables and failed queries add nothing |
| Processor.DataProcessor.ComputeEnvelope | baoluofenxi/services/data_processor.py:569-576 | computes the sampled envelope of the fetched rows or the full-data envelope of the rows read, per `EnvelopeOf` |
| Processor.DataProcessor.CalculateEnvelopeForColumns | baoluofenxi/services/data_processor.py:510-600 | no historical record is an error and the cache is untouched; an unexpired matching entry is served and the cache is untouched; otherwise the result is recomputed and stored for an hour over the match or appended |
| Processor.DataProcessor.CalculateEnvelopeSimple | baoluofenxi/services/data_processor.py:1228-1365 | an unknown type and no historical record are errors; otherwise the simple envelope of the rows read |
| Processor.DataProcessor.GetTempComparisonData | baoluofenxi/services/data_processor.py:1026-1151 | a failed read-back is an error; otherwise the comparison series of the rows |
| Processor.DataProcessor.UploadToStore | baoluofenxi/services/data_processor.py:343-367 | create then insert; it succeeds exactly when the creation and then the insert are accepted; success reports the frame's row count and the sanitised name; the new tables are `UploadedTables` in every outcome |
| Processor.UploadStoresFrame | baoluofenxi/services/data_processor.py:343-367 | after a successful upload the sanitised table holds its earlier rows (none if it was new) followed by every row of the frame as stored, and every other table is unchanged |
| Processor.UploadFailureKeepsTables | baoluofenxi/services/data_processor.py:343-367 | after a failed upload every table keeps its contents, and at most the sanitised table is added, empty |
| Processor.DataProcessor.ProcessUpload | baoluofenxi/services/data_processor.py:239-341 | a refused file name or invalid frame is rejected with nothing changed; otherwise the store is `UploadedTables` of the projected cleaned frame (so, by `UploadStoresFrame`, on success the cleaned rows are appended to the sanitised table), and a record with the sanitised name and the cleaned row count is added exactly when the upload succeeds; a failed store upload leaves the catalog unchanged |
| Processor.DataProcessor.RecordAndUpload | baoluofenxi/services/data_processor.py:294-323 | the record is written before the upload and deleted if it fails; on success it carries the sanitised table name; the store is `UploadedTables` of the frame, success or failure |
| Processor.DataProcessor.ProcessTempUpload | baoluofenxi/services/data_processor.py:955-1024 | an invalid frame is rejected with the store unchanged; a valid one leaves the store as `UploadedTables` of the uncleaned frame under `temp_envelope_data_<stamp>`, succeeding exactly when that upload does; success writes no record and reports the row count, the columns and the time range |
| Processor.DataProcessor.SaveTempDataToMysql | baoluofenxi/services/data_processor.py:1153-1207 | it promotes exactly when the `count(*)` succeeds and the RENAME to the promoted name applies; a failed count changes nothing; a failed rename leaves catalog and store unchanged but uses up the id; success adds a record under the promoted name with the staged row count and moves the table to that name |
| Processor.DataProcessor.DeleteTempTable | baoluofenxi/services/data_processor.py:1209-1226 | succeeds exactly when the server answers and the name is a plain identifier; it then removes the table if present, else nothing changes |

## Left out

- File reading: `read_csv`, `read_excel`, utf-8 decoding and `detect_csv_format` (its pandas check) are library behaviour. The model starts from the parsed frame (`columns`, the set of numeric-dtype columns, and the rows). For the special formats it stops at the text handed to pandas.
- The frame pandas builds from JSON records: the fetched concatenation is kept as a sequence of rows. A column is "in the frame" when some row has it.
- MD5 and `json.dumps` of the cache parameters: the key is the canonical parameter value itself, which is injective. Digest collisions are not modelled.
- The wall clock: `now`, the upload's seconds and the staging timestamp are parameters. UTC versus local time in the expiry check is not modelled.
- Processor.DataProcessor.CalculateEnvelopeForColumns: error outcomes are cached like envelopes, as the source stores whatever it computed. Exceptions from the database session (the outer `except`) are not modelled.
- Messages, logging and the Chinese message texts: errors are constructors of result datatypes.
- The connection layer (`connect`, `ensure_database_exists`, `close`, the manager singleton) and every exception from the server: an unreachable server is `online == false`.
- SQL text: statements are structured values, and the order of `WHERE`/`ORDER BY`/`LIMIT` is fixed by the datatype. Quoting and injection through unsanitised names in raw statements are not modelled. A raw statement naming a table that is not a plain identifier fails.
- ClickHouse.ColumnStore.InsertDataframe: a time column named `timestamp` is refused, because the insertion time overwrites it and the column is listed twice.
- ClickHouse.ColumnStore.CreateTimeseriesTable: the unquoted time column in `ORDER BY` is accepted exactly when it is a plain identifier. ClickHouse also accepts some other expressions there, and rejects keywords, which is not modelled.
- ClickHouse.ColumnStore.GetTableInfo: the sample is modelled as the first 10 rows in insertion order. `LIMIT 10` without `ORDER BY` lets ClickHouse return any 10 rows, typically in sorting-key order.
- The DateTime `timestamp` column ClickHouse adds is not stored in rows. `get_table_info` lists it.
- Sorting stability: `sort_values` is modelled by a stable insertion sort. Ties between rows with equal times may be ordered differently by pandas.
- ASCII-only `lower()` in file-name checks: non-ASCII case folding is not modelled.
- Negative `preview_rows`, and non-integer `skip_rows`: not modelled (`preview_rows` is a natural number).
- `_compute_envelope_from_data` and `calculate_envelope`: the random sine fallback is not on the cache path. `get_data_statistics` and `preview_file` return statistics and previews for the UI.
- Floating point: values are reals, so rounding in means and edge positions is not modelled.
- The HTTP routes and the frontend.

## Findings

| source | as written | input that shows it | evidently intended | confidence | as-written member | corrected member |
|---|---|---|---|---|---|---|
| baoluofenxi/services/data_processor.py:1403-1434 | the branch for the separator spelled `\t` rebinds `separator` to a tab but never builds the frame, so reading the frame afterwards raises `UnboundLocalError` | separator `"\\t"`, any content | `\t` stands for the tab and the lines are rewritten with commas like any other separator | not executed | SpecialFormat.TabSeparatorFails | SpecialFormat.ReadSpecialTab |
