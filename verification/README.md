# NBA analytics ETL core, modelled in Dafny

This project models the extract-transform-load engine of the NBA analytics
repository. The engine is the `NBAETLPipeline` class together with the parts of
`NBADataCollector` it drives. The model covers the following:

- **Retry.** The retry loop around every request to the statistics API: at most
  three attempts. After a failed attempt that is not the last, the loop sleeps
  `1 * 2^attempt` seconds. Once the attempts are spent, the last exception is
  re-raised.
- **Parsing.** The three getters turn `resultSets[0]['rowSet']` rows into records
  by position. `collect_all_data` fetches the player list, then the
  regular-season advanced statistics. Only after both arrived does it save both as
  raw CSV files.
- **Extraction.** `extract_data` chooses one of three strategies:
  - a full collection;
  - the "incremental" strategy while the season's watermark
    `last_update_<season>.json` is younger than the lookback period: it makes no
    request and reads the raw files back;
  - the incremental strategy otherwise: a collection followed by a new watermark.
- **Transformation.** `transform_data` has two table transforms.
  - Players: names are stripped, the team id and active flag are filled, an
    `is_valid` flag is added, and a `processed_at` stamp is added.
  - Advanced statistics: eleven columns are coerced to numbers and capped at the
    IQR fences `Q1 - 1.5 IQR` and `Q3 + 1.5 IQR`. Then `games_played`,
    `minutes_per_game`, the efficiency rating and the stamp are added.
- **Quality gate.** Fewer than 10 rows fails. A null-cell fraction strictly above
  the configured maximum fails. Repeated `player_id`s only log a warning.
- **Loading.** `load_data` first writes one processed file
  `<table>_<stamp>.csv` per table. Then, when a warehouse client exists, it is
  meant to run one `WRITE_TRUNCATE` load job per table `<dataset>.<table>`, and
  the first failing job raises. As written, the job configuration is looked up on
  the client object, which has no such attribute; the model logs that under
  "## Findings" and otherwise uses the intended load.
- **Orchestration.** `run_pipeline` runs the three steps in order and stops at the
  first exception. It never raises: it returns a report with the completed steps,
  the status, the record counts, one error string for a failed run, and the
  duration.

The model's building blocks:

- A DataFrame is a `Table`: an ordered list of distinct `Column`s and one
  `map<Column, Value>` per row.
- A dict of DataFrames is a `DataSet`: a sequence of named entries in insertion
  order.
- Everything a run changes outside itself is a `World`:
  - the request counter;
  - the raw files, watermark files and processed files;
  - the warehouse.
- The remote API is a scripted `Provider`: the outcome of the n-th request of the
  run.
- Every operation returns the new world, the result or the exception, and the
  events it produced in order (attempts, sleeps, saved files, load jobs).
- Clock readings are parameters, in seconds.
- The efficiency-rating formula is a parameter `per: Record -> real`.

The configuration defaults are those of `_load_config`:

- a maximum null fraction of 0.1;
- the warehouse disabled;
- dataset `nba_analytics`;
- incremental extraction enabled, with a lookback of 7 days.

They appear in `Extract.DefaultConfig`.

Behaviour of the code worth knowing:

- Every `RequestException` is retried the same way, whatever its kind
  (`Retry.ErrorKindIrrelevant`).
- Only the incremental path writes the watermark, after a successful collection;
  a full extraction (`incremental=False`) writes none.
- `is_valid` requires a non-null player name and a present, positive id.
- Duplicate ids are logged as a warning and never fail the gate.

## Model

Source paths are relative to the repository root.

| member | source | states |
|---|---|---|
| Retry.Request | nba_analytics/src/data_collection/nba_api_collector.py:116-136 | one request makes 1 to 3 attempts; every attempt but the last failed; it succeeds exactly when the last attempt's reply is a response, which is then the result; a failure happens only after all 3 attempts and carries the last exception; the events are attempts and sleeps |
| Retry.ScheduleShape | nba_analytics/src/data_collection/nba_api_collector.py:120-133 | attempts `from .. last` make `last - from + 1` attempts, and the sleeps between them are `1 * 2^attempt` for every attempt but the last |
| Retry.AlwaysFailing | nba_analytics/src/data_collection/nba_api_collector.py:120-136 | a provider that always fails gets exactly 3 attempts, with sleeps of 1 then 2 seconds and none after the last, and the last exception is raised |
| Retry.FirstSuccess | nba_analytics/src/data_collection/nba_api_collector.py:120-133 | when attempt k is the first to succeed, its response is returned, no later attempt is made, and k - 1 sleeps happened |
| Retry.ErrorKindIrrelevant | nba_analytics/src/data_collection/nba_api_collector.py:127-136 | two providers that fail and succeed at the same requests make the same attempts and sleeps and get the same success: the kind of exception never matters |
| Collector.RowsToTable | nba_analytics/src/data_collection/nba_api_collector.py:166-177 | building the frame succeeds exactly when every row has every position the dict literal reads; otherwise it fails with an index error |
| Collector.ProjectCell | nba_analytics/src/data_collection/nba_api_collector.py:168-175 | when a dict literal's keys are distinct, each field's value is found under its own key |
| Collector.ParseResponse | nba_analytics/src/data_collection/nba_api_collector.py:163-167 | a response without a result set fails as malformed; otherwise the table is the parse of `resultSets[0]['rowSet']` |
| Collector.FetchTable | nba_analytics/src/data_collection/nba_api_collector.py:116-177 | a getter moves only the request counter, by 1 to 3; its events are one request trace; every request but the last failed, and fewer than 3 requests means the last one returned a response; the result is the parse of that response, or the last exception once all 3 failed |
| Collector.FetchFirstOk | nba_analytics/src/data_collection/nba_api_collector.py:120-125 | a response to the first request ends the loop: exactly one request, and its parse is the result |
| Collector.FetchAllFail | nba_analytics/src/data_collection/nba_api_collector.py:120-136 | three failed requests in a row make exactly 3 requests and surface the third exception |
| Collector.GetPlayersList | nba_analytics/src/data_collection/nba_api_collector.py:157-177 | the request counter moves by the number of retried requests to `commonallplayers`; every one but the last failed, stopping early only on a response; the result is the parse of that response with the players layout, or the last exception after 3 failures |
| Collector.PlayersParsed | nba_analytics/src/data_collection/nba_api_collector.py:166-177 | each parsed row keeps its place: `player_id`, `player_name`, `team_id`, `team_name` and `is_active` are positions 0, 2, 7, 8 and 1, and `season` is the argument; the columns are in the literal's order and the table is well formed |
| Collector.PlayersColumnsDistinct | nba_analytics/src/data_collection/nba_api_collector.py:168-175 | the player literal's six keys are distinct, in the literal's order |
| Collector.GetPlayerGameLogs | nba_analytics/src/data_collection/nba_api_collector.py:199-239 | the request counter moves by the number of retried requests to `playergamelog`; every one but the last failed, stopping early only on a response; the result is the parse of that response with the game-log layout, or the last exception after 3 failures |
| Collector.GameLogParsed | nba_analytics/src/data_collection/nba_api_collector.py:210-239 | each parsed row carries the argument player id, and the 23 game columns from positions 2 .. 24 in order |
| Collector.GetAdvancedStats | nba_analytics/src/data_collection/nba_api_collector.py:260-304 | the request counter moves by the number of retried requests to `leaguedashplayerstats`; every one but the last failed, stopping early only on a response; the result is the parse of that response with the advanced layout, or the last exception after 3 failures |
| Collector.AdvancedParsed | nba_analytics/src/data_collection/nba_api_collector.py:272-304 | each parsed row maps positions 0 .. 24 one-to-one onto the 25 statistics columns, then `season` and `season_type` from the arguments |
| Collector.AdvancedColumnsDistinct | nba_analytics/src/data_collection/nba_api_collector.py:274-302 | the advanced literal's 27 keys are distinct |
| Collector.SaveCollected | nba_analytics/src/data_collection/nba_api_collector.py:421-424 | saving adds exactly the two raw files `players_<season>.csv` and `advanced_stats_<season>.csv`, holding the two tables, and leaves every other file as it was |
| Collector.CollectAdvanced | nba_analytics/src/data_collection/nba_api_collector.py:414-424 | after the player list: only advanced-statistics requests follow, and no request comes after a saved file; a failure saves nothing; a success returns the keys `players` and `advanced_stats` |
| Collector.CollectAllData | nba_analytics/src/data_collection/nba_api_collector.py:405-432 | the player list is requested first and never after an advanced-statistics request, and no request follows a saved file; only the counter and the raw files change; a failure, or `save_data=False`, saves nothing; a success returns `players` then `advanced_stats` |
| Collector.CollectedTables | nba_analytics/src/data_collection/nba_api_collector.py:407-424 | collection succeeds exactly when both getters do; it then returns the two tables under their keys and, when saving, writes each to its raw file |
| Collector.PlayersFailureStops | nba_analytics/src/data_collection/nba_api_collector.py:407-430 | a failed player-list fetch is the whole outcome: its exception propagates and no other endpoint is requested |
| Text.Trim | nba_analytics/src/etl/data_pipeline.py:287-288 | `str.strip()`: the result is a slice of the input framed by whitespace on both sides, and has no whitespace at either end |
| Text.TrimIdempotent | nba_analytics/src/etl/data_pipeline.py:287-288 | stripping twice is stripping once |
| Text.ReplaceDash | nba_analytics/src/etl/data_pipeline.py:190 | `season.replace('-', '_')` keeps the length, turns every dash into an underscore, keeps every other character, and leaves no dash |
| Text.RawFileNamesDiffer | nba_analytics/src/etl/data_pipeline.py:230-231 | the raw files of the two tables of a season never collide |
| Text.ParseNumber | nba_analytics/src/etl/data_pipeline.py:325 | text containing a character outside the numeral syntax, and the empty text, coerce to null |
| Text.ParseFraction | nba_analytics/src/etl/data_pipeline.py:325 | a numeral `whole.frac` reads as the whole digits' value plus the fraction digits' value over the matching power of ten |
| Text.ParseSigned | nba_analytics/src/etl/data_pipeline.py:325 | a leading `-` negates an unsigned numeral's value and a leading `+` keeps it |
| Text.ParseFractionExamples | nba_analytics/src/etl/data_pipeline.py:325 | `"1.25"` reads as 1.25 and `"-0.5"` as -0.5 |
| Text.ParseShownInt | nba_analytics/src/etl/data_pipeline.py:325 | an integer written out in decimal, with or without a sign, coerces back to the same number |
| Stats.Sort | nba_analytics/src/etl/data_pipeline.py:330-331 | the sample the quantile reads is a sorted permutation of the column's values |
| Stats.SortedUnique | nba_analytics/src/etl/data_pipeline.py:330-331 | any two sorted permutations of the same values are equal, so the quantile does not depend on the row order |
| Stats.Quantile | nba_analytics/src/etl/data_pipeline.py:330-331 | the linear-interpolation quantile of a sorted sample lies between its least and greatest value |
| Stats.QuantileMonotone | nba_analytics/src/etl/data_pipeline.py:330-331 | a larger probability never gives a smaller quantile, so `Q1 <= Q3` |
| Stats.IqrBounds | nba_analytics/src/etl/data_pipeline.py:330-334 | the fences enclose both quartiles, lie equally far outside them, and are four times the interquartile range apart: `Q1 - 1.5 IQR` and `Q3 + 1.5 IQR` |
| Stats.IqrBoundsOrderFree | nba_analytics/src/etl/data_pipeline.py:330-334 | two samples with the same values, in any order, have the same fences |
| Stats.Clamp | nba_analytics/src/etl/data_pipeline.py:337 | `clip(lower, upper)` keeps a value between the fences unchanged and otherwise gives the nearer fence; with ordered fences the result lies between them |
| Stats.ClampIdempotent | nba_analytics/src/etl/data_pipeline.py:337 | clipping twice to the same fences is clipping once |
| Stats.ClampMonotone | nba_analytics/src/etl/data_pipeline.py:337 | clipping keeps the order of values |
| Quality.NullCount | nba_analytics/src/etl/data_pipeline.py:393 | the null cells of a table are at most its cells |
| Quality.ExceedsIsFraction | nba_analytics/src/etl/data_pipeline.py:393-394 | the null check, stated without a division, is `nulls / cells > max_missing_pct` |
| Quality.Check | nba_analytics/src/etl/data_pipeline.py:388-395 | a table passes exactly when it has at least 10 rows and its null fraction is not above the maximum; with fewer rows it fails with the row count; with enough rows and too many nulls it fails with the missing-values error, carrying the null count and cell count |
| Quality.DuplicatesAreRepeats | nba_analytics/src/etl/data_pipeline.py:398-399 | `duplicated().sum()` is the number of cells minus the number of distinct values |
| Quality.WarningOf | nba_analytics/src/etl/data_pipeline.py:398-401 | a table warns exactly when it has a `player_id` column with repeated values, and the warning counts the repeats |
| Quality.Validate | nba_analytics/src/etl/data_pipeline.py:385-403 | the gate passes exactly when every table passes its check; otherwise its error is the one of the first failing table, in dict order |
| Quality.WarningsFromTables | nba_analytics/src/etl/data_pipeline.py:397-401 | every warning of a passing gate is the duplicate warning of one of its tables |
| Quality.TenRowsPass | nba_analytics/src/etl/data_pipeline.py:389-390 | a table with ten rows meets the row minimum |
| Quality.NineRowsFail | nba_analytics/src/etl/data_pipeline.py:389-390 | a table with nine rows fails with `InsufficientData(name, 9)`, whatever else it holds |
| Quality.ExactFractionPasses | nba_analytics/src/etl/data_pipeline.py:393-394 | a null fraction exactly at the maximum passes: the comparison is strict |
| Quality.IdsNeverFail | nba_analytics/src/etl/data_pipeline.py:397-401 | two table lists with the same names, columns, row counts and null counts get the same verdict and the same error, whatever their ids: duplicates only warn |
| Transform.AddColumn | nba_analytics/src/etl/data_pipeline.py:295-302 | assigning a column keeps an existing column in its place and appends a new one last; distinct columns stay distinct |
| Transform.FirstMissing | nba_analytics/src/etl/data_pipeline.py:287-298 | none of the columns read is missing exactly when the result is None; otherwise it is the first missing column in reading order |
| Transform.TransformPlayers | nba_analytics/src/etl/data_pipeline.py:284-305 | the players transform fails with the first missing column it reads; then it fails with a type error exactly when some `player_id` is a string; otherwise it keeps every row, and the columns gain `is_valid` and `processed_at` |
| Transform.PlayersNames | nba_analytics/src/etl/data_pipeline.py:287-288 | a string name or team name comes out stripped, with no whitespace at either end; any other value comes out null |
| Transform.PlayersFilled | nba_analytics/src/etl/data_pipeline.py:291-292 | a null `team_id` becomes 0 and a null `is_active` becomes false; other values stay |
| Transform.PlayersValidity | nba_analytics/src/etl/data_pipeline.py:295-299 | `is_valid` holds exactly when the id is present and positive and the name is a string; invalid rows are kept |
| Transform.PlayersFrame | nba_analytics/src/etl/data_pipeline.py:284-302 | a cleaned row has the input row's keys plus the written columns; every cell the transform does not write is copied; `processed_at` is `now` |
| Transform.PlayersWellFormed | nba_analytics/src/etl/data_pipeline.py:284-305 | the cleaned table is a table again: distinct columns, every row keyed by exactly them |
| Transform.StripIdempotent | nba_analytics/src/etl/data_pipeline.py:287-288 | stripping a stripped cell changes nothing |
| Transform.PlayersIdempotent | nba_analytics/src/etl/data_pipeline.py:284-305 | cleaning a cleaned player list again only renews the `processed_at` stamp |
| Transform.PlayersReadsKept | nba_analytics/src/etl/data_pipeline.py:287-298 | the cleaned table still has every column the players transform reads |
| Transform.Coerce | nba_analytics/src/etl/data_pipeline.py:325 | `pd.to_numeric(errors='coerce')` on one cell gives a number or null and never raises: null stays null, an integer becomes the same real, a real is kept, a boolean is 1 or 0, and text is null exactly when it is not a numeral and otherwise the numeral's value |
| Transform.CoerceIdempotent | nba_analytics/src/etl/data_pipeline.py:325 | coercing a coerced cell changes nothing |
| Transform.CoerceShownInt | nba_analytics/src/etl/data_pipeline.py:325 | an integer written as text coerces like the integer itself |
| Transform.Reals | nba_analytics/src/etl/data_pipeline.py:330-331 | the sample of a column is its non-null numbers: each value as many times as the column holds it, and nothing else |
| Transform.TransformAdvanced | nba_analytics/src/etl/data_pipeline.py:317-348 | the advanced transform fails exactly when `gp` or `min` is missing, `gp` first; otherwise it keeps every row, and the columns gain the derived ones in order |
| Transform.CoercedColumn | nba_analytics/src/etl/data_pipeline.py:323-325 | after the coercion loop a listed column holds the coerced cells of the input column, and its sample is the one the fences come from |
| Transform.AdvancedNumeric | nba_analytics/src/etl/data_pipeline.py:323-337 | a listed numeric cell that does not coerce comes out null; a number comes out capped at the IQR fences of its column's coerced values, and unchanged when it lies between them |
| Transform.AdvancedDerived | nba_analytics/src/etl/data_pipeline.py:340-345 | `games_played` and `minutes_per_game` are the capped `gp` and `min`, the rating is a number, and the stamp is `now` |
| Transform.AdvancedFrame | nba_analytics/src/etl/data_pipeline.py:317-345 | every cell that is neither a listed numeric column nor a derived column is left as it was |
| Transform.AdvancedOrderKept | nba_analytics/src/etl/data_pipeline.py:337 | capping keeps the order of the numbers within a column |
| Transform.AdvancedColumns | nba_analytics/src/etl/data_pipeline.py:340-345 | the output's columns are the input's plus the derived ones, distinct when the input's are |
| Transform.AdvancedWellFormed | nba_analytics/src/etl/data_pipeline.py:317-348 | the transformed statistics are a table again |
| Transform.PlayersStep | nba_analytics/src/etl/data_pipeline.py:257-258 | no `players` table gives nothing; otherwise the step fails exactly when the players transform does, with its error, and succeeds with the one entry `players` holding the cleaned table |
| Transform.AdvancedStep | nba_analytics/src/etl/data_pipeline.py:261-262 | no `advanced_stats` table gives nothing; otherwise the step fails exactly when the advanced transform does, with its error, and succeeds with the one entry `advanced_stats` holding the transformed table |
| Transform.TransformData | nba_analytics/src/etl/data_pipeline.py:253-272 | a players failure propagates first, then an advanced failure; once both transforms succeed, the stage succeeds exactly when the quality gate passes on their output, returns that output, and otherwise fails with the gate's error; a success holds exactly the known tables of the input, players first; any other table is dropped |
| Transform.TransformedTablesLargeEnough | nba_analytics/src/etl/data_pipeline.py:256-265 | a successful stage saw at least 10 rows in each known input table |
| Transform.TransformedLargeTables | nba_analytics/src/etl/data_pipeline.py:265 | every table a successful stage returns has at least 10 rows |
| Transform.TransformKeepsRecords | nba_analytics/src/etl/data_pipeline.py:253-268 | when the input holds just the known tables in order, a successful stage returns as many records as it was given |
| Transform.TransformedNamesUnique | nba_analytics/src/etl/data_pipeline.py:253-262 | a successful stage returns each table under its own name |
| Extract.LoadExisting | nba_analytics/src/etl/data_pipeline.py:227-236 | reading back gives `players` then `advanced_stats`, each present exactly when its raw file exists and holding that file's table; a missing file is skipped |
| Extract.Mark | nba_analytics/src/etl/data_pipeline.py:208-213 | writing the watermark adds or replaces only the season's file, with the new time, the season and the number of records collected |
| Extract.CollectAndMark | nba_analytics/src/etl/data_pipeline.py:204-215 | an incremental collection returns the collection's result; a failure writes no watermark, and a success writes the watermark with the record count |
| Extract.ExtractData | nba_analytics/src/etl/data_pipeline.py:160-175 | a fresh watermark returns the stored tables, with no event and no change; otherwise the result, the raw files and the request counter are those of a saving collection, in collection order; a successful incremental collection writes the season's watermark with the time and record count, a full one writes none, and a watermark changes only then; a failure changes no file |
| Extract.SkipsRequestsIffFresh | nba_analytics/src/etl/data_pipeline.py:192-202 | an extraction makes no request and changes nothing exactly when it is incremental, incremental extraction is enabled, and the watermark is younger than the lookback period |
| Extract.SavedDataLoadsBack | nba_analytics/src/etl/data_pipeline.py:230-233 | reading back the raw files of a saving collection gives the collected tables |
| Extract.RepeatWithinLookback | nba_analytics/src/etl/data_pipeline.py:190-213 | a second incremental extraction within the lookback period of one that collected makes no request and returns the same data |
| Load.ProcessedFileNameInjective | nba_analytics/src/etl/data_pipeline.py:438 | distinct table names give distinct processed files |
| Load.TableIdInjective | nba_analytics/src/etl/data_pipeline.py:452 | distinct table names give distinct table ids in one dataset |
| Load.SaveFiles | nba_analytics/src/etl/data_pipeline.py:435-440 | saving adds exactly the tables' processed files, leaves every other file, and with distinct names each file holds its table |
| Load.SaveEvents | nba_analytics/src/etl/data_pipeline.py:437-440 | one save per table, in dict order |
| Load.FirstRejected | nba_analytics/src/etl/data_pipeline.py:451-465 | every load job before the returned position succeeds, and the job at it, if any, fails |
| Load.LoadTables | nba_analytics/src/etl/data_pipeline.py:449-466 | one load job per table in order, up to and including the first failing one, whose table id is the error; success exactly when none fails (the intended load; see Findings) |
| Load.LoadTablesAsWritten | nba_analytics/src/etl/data_pipeline.py:449-458 | as written, the first table raises `AttributeError` on `LoadJobConfig` before any load job; only an empty dict loads successfully; the warehouse is untouched |
| Load.AsWrittenLoadsNothing | nba_analytics/src/etl/data_pipeline.py:455-462 | for any non-empty dict the warehouse would accept, the intended load runs one job per table and succeeds, while the load as written runs none and fails |
| Load.LoadedContents | nba_analytics/src/etl/data_pipeline.py:451-466 | afterwards the warehouse holds its old table ids plus the ids of the tables before the first failure, and every other id is unchanged |
| Load.LoadedValues | nba_analytics/src/etl/data_pipeline.py:451-466 | with distinct names, each table loaded before the first failure is what its warehouse table holds afterwards |
| Load.LoadTwice | nba_analytics/src/etl/data_pipeline.py:455-457 | `WRITE_TRUNCATE`: loading the same tables again into the warehouse a successful load produced leaves it as it is, with the same jobs |
| Load.LoadData | nba_analytics/src/etl/data_pipeline.py:414-426 | the processed files are written whatever happens next; without a client that is all, and it succeeds; with one, it succeeds exactly when no load job fails; only files and warehouse change; any error is a load error |
| Load.SavedBeforeLoaded | nba_analytics/src/etl/data_pipeline.py:414-420 | every processed file is written before the first load job starts |
| Load.LoadedOutputs | nba_analytics/src/etl/data_pipeline.py:414-420 | after a successful load of distinctly named tables each table is in its processed file and, with a client, in its warehouse table |
| Pipeline.Connect | nba_analytics/src/etl/data_pipeline.py:75-77 | a warehouse client exists exactly when the configuration enables the warehouse and initialising it succeeded |
| Pipeline.LoadStage | nba_analytics/src/etl/data_pipeline.py:504-527 | after the load step the report is consistent, counts the records of both earlier steps, and is complete exactly when the load succeeded; a load failure needs a client and is a load error |
| Pipeline.TransformStage | nba_analytics/src/etl/data_pipeline.py:498-527 | a transform failure stops the run after `extract` with that error and no change to files or warehouse; otherwise the load step follows |
| Pipeline.RunPipeline | nba_analytics/src/etl/data_pipeline.py:479-531 | the completed steps are a prefix of extract, transform, load; the status is completed exactly when all three completed, with no error, and a failed run reports exactly one; each record count is present exactly once its step completed; an extraction failure stops the run with no step completed; a run that stopped before the load changed no processed file and no warehouse |
| Pipeline.CompletedOutputs | nba_analytics/src/etl/data_pipeline.py:504-515 | after a completed load step every transformed table is in its processed file and, with a client, in the warehouse table of the same name |
| Pipeline.CompletedRunOutputs | nba_analytics/src/etl/data_pipeline.py:491-515 | after a completed run the extraction and transform succeeded, and every transformed table is in its processed file and, with a client, in its warehouse table |
| Pipeline.StoredTablesKept | nba_analytics/src/etl/data_pipeline.py:227-236 | the tables read back are named exactly as the transform step keeps them, in its order |
| Pipeline.ExtractedKept | nba_analytics/src/etl/data_pipeline.py:160-171 | whatever the strategy, an extraction yields exactly the two known tables in the transform step's order |
| Pipeline.RecordsAgree | nba_analytics/src/etl/data_pipeline.py:494-502 | once the transform step completed, the report counts as many transformed records as extracted ones |

## Left out

- Network, file and warehouse I/O. They are replaced by the `World` record and the
  scripted provider. The CSV round trip of a table through a file is assumed to
  give the table back; pandas' re-typing of columns on `read_csv` is not modelled.
- `time.sleep`, logging and `datetime.now()`. Sleeps are events. Clock readings are
  parameters, in whole seconds. `isoformat` parsing of the watermark and the
  `%Y%m%d_%H%M%S` stamp formatting are replaced by an integer time and a stamp
  string.
- Reading the configuration file. Only the keys the core reads are modelled, with
  the defaults of `_load_config`. The unused keys (`seasons`, `min_games_played`,
  `outlier_threshold`, `location`) are left out.
- The warehouse client's creation. `Pipeline.Connect` takes its outcome as a
  parameter: a client or none when initialisation raised. The details of
  `bigquery.Client` and `get_dataset` are left out. A load job either succeeds or
  fails; the failing table ids are part of the warehouse.
- `_calculate_per`. The rating formula is a parameter. Only its place in the row
  and its `fillna(0)` (never null) are modelled.
- `Coerce`: only the numeral syntax of an optional sign and decimal digits with an
  optional fraction is read. Exponents, `inf`, `nan`, surrounding whitespace and
  other formats that `pd.to_numeric` accepts coerce to null in the model.
- `Transform.TransformPlayers`: `.str.strip()` raising on a column with no string
  at all is not modelled; any non-string cell becomes null.
- Pandas dtype merging is not modelled: integer columns that become floats, and
  booleans that become numbers in a mixed column.
- `calculate_advanced_metrics`, `save_data`'s directory creation, and the two
  `main` functions. None of them is on the pipeline's path.
- The `rosters` table that the `collect_all_data` docstring lists
  (nba_analytics/src/data_collection/nba_api_collector.py:395-398). The code never
  builds it and returns only `players` and `advanced_stats`, and the model follows
  the code.
- `get_player_game_logs` is modelled (`Collector.GetPlayerGameLogs`), but
  `collect_all_data` never calls it.
- The request parameters (`LeagueID`, `PerMode`, `MeasureType`). The provider is
  indexed by request number, not by endpoint and parameters.
- Exceptions are reduced to the `Error` kinds the code can raise. The report's
  error string is the error value itself.
- Real numbers are exact. Floating-point rounding in the quantiles and in the
  null fraction is not modelled.

## Findings

| source | as written | input that shows it | evidently intended | confidence | as-written member | corrected member |
|---|---|---|---|---|---|---|
| nba_analytics/src/etl/data_pipeline.py:455-458 | the load job configuration is requested from the client object, `self.bigquery_client.LoadJobConfig(...)`; `google.cloud.bigquery.Client` has no such attribute, so the first table raises `AttributeError` before any job starts | any run with the warehouse enabled, a client created, and at least one transformed table | `bigquery.LoadJobConfig(...)`, the class of the library's module | medium: not executed; it rests on the library's API, where `LoadJobConfig` is a module-level class | `Load.LoadTablesAsWritten`, `Load.AsWrittenLoadsNothing` | `Load.LoadTables`, with `Load.LoadedValues` and `Load.LoadTwice` proved about it; `Load.LoadData` and the pipeline use it |
