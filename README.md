# Weather ETL: a verified model of staging, validation and loading

This project models the core of a small weather ETL written in Python over
PostgreSQL. Payloads fetched from OpenWeather are staged in `weather_raw` with
a deduplicating insert. A loader later validates each pending record. It
resolves the record to a `dim_location` row and a `dim_time` row, appends a
`weather_fact` row and flags the raw record as processed. The repository holds
three versions of the loader:

- the application package (`app/`): each record is skipped on its own when it
  fails, and a `KeyError` rolls back the whole transaction so far;
- an older top-level package (`extract/`, `transform/`, `load/`): validation
  gates each record, and any exception rolls back the whole run;
- the single-file `weather_service.py`: no validation at all, and any
  exception rolls back the whole run.

The model works on in-memory tables:
- `weather_raw` is a sequence of rows;
- `dim_location` and `dim_time` are maps keyed by their unique keys;
- `weather_fact` is a sequence;
- SERIAL sequences are explicit counters.

Each SQL statement is a function over the session state. It follows the
PostgreSQL `INSERT … ON CONFLICT` rules:
- `DO UPDATE … RETURNING` returns the id on both insert and conflict;
- `DO NOTHING … RETURNING` returns no row on conflict;
- every INSERT attempt draws a sequence value, and a rollback never gives one back.

A connection is the class `Store.Database`. Its fields are the live tables, the
sequences and the last committed tables. Each of its methods performs exactly
one statement, and `Commit`/`Rollback` end the transaction. The validators and
the three `populate_data_warehouse` loops are methods with loops. Each is
proved equal to a specification function (`Validation`, `AppPopulate`,
`LegacyPopulate`, `ServicePopulate`). The lemmas about a run are proved over
those functions.

Modules, by file:
- `json.dfy`: payload values, with Python's lookups, `isinstance` and exceptions.
- `utc_time.dfy`: conversion of a Unix timestamp to a UTC minute, written as
  proleptic Gregorian day arithmetic.
- `checks.dfy`, `app_validate.dfy`, `legacy_validate.dfy`: the two validators.
- `app_transform.dfy`, `legacy_transform.dfy`: the two sets of extractors.
- `warehouse.dfy`, `store.dfy`: the schema, the statements and the connection.
- `raw_staging.dfy`: `save_raw_data`. The code is the same in
  `app/load/insert_raw_data.py` and in `weather_service.py`.
- `app_load.dfy`, `legacy_load.dfy`, `weather_service.dfy`: the three loaders.
  The service reuses the older loader's record step, because its extractors and
  insert functions are the same code.
- `runs.dfy`: the loop the older loader and the service share, over an abstract
  iteration, with the facts about where in a batch an exception escapes.
- `samples.dfy`: the London observation used by the example lemmas.

The application's imports (`from extract.validate_data import …`, `from
transform.transform_weather import …`) resolve to the `app/` modules, because
the application runs from inside `app/`. The application loader is therefore
modelled with the application validator and extractors.

Two points about the statements:
- The fact insert is a plain append. The code has no conflict handling, and
  the schema file is not part of this model.
- The time insert is `ON CONFLICT DO NOTHING RETURNING`. It returns no row for
  a stored minute, so `fetchone()[0]` raises (see Findings).

## Model

| member | source | states |
|---|---|---|
| Json.GetGroup | app/transform/transform_weather.py:7-9 | `data.get(k, {})` gives `{}` when the group is absent and the object when it is one; any other value makes the following `.get` raise `AttributeError` |
| Json.GetIn | transform/transform_weather.py:5 | `data.get(g, {}).get(k)`: the field, or `None`, or `AttributeError` when the group is not an object |
| UtcTime.CivilFromDays | app/transform/transform_weather.py:22-25 | the date of a proleptic Gregorian day number is a valid date, and its day number is the input (round trip) |
| UtcTime.MonthAndDay | app/transform/transform_weather.py:22-25 | the month and day reached by counting days into a year form a valid date with the given offset from January 1 |
| UtcTime.CivilFromCycles | app/transform/transform_weather.py:22-25 | a split into 400-, 100-, 4- and 1-year cycles gives a valid date with the day number those cycles add up to |
| UtcTime.ToUtc | app/transform/transform_weather.py:24-25 | `fromtimestamp(t, tz=utc)` cut to the minute: a valid date, hour 0..23, minute 0..59 |
| UtcTime.FromMinutes | app/transform/transform_weather.py:24-25 | a count of minutes since the epoch gives a valid date, hour 0..23 and minute 0..59 |
| UtcTime.ToUtcRoundTrip | app/transform/transform_weather.py:24-25 | the start of the computed minute, in Unix seconds, is `t` with its seconds dropped |
| UtcTime.ToUtcSameMinute | app/transform/transform_weather.py:24-25 | timestamps in the same minute give the same five fields |
| UtcTime.ValidTimestampSameMinute | app/extract/validate_data.py:17-21 | timestamps in the same minute are both convertible or both not |
| UtcTime.ValidTimestampRange | app/extract/validate_data.py:17-21 | a timestamp is convertible exactly when its UTC year lies in 1..9999 |
| UtcTime.TimestampDays | app/extract/validate_data.py:17-21 | a timestamp is convertible exactly when its day number lies in the 3652059 days of years 1..9999 |
| UtcTime.YearRange | app/transform/transform_weather.py:24 | a day number lies in those 3652059 days exactly when its year is in 1..9999 |
| UtcTime.DaysBeforeYearMonotone | app/transform/transform_weather.py:24 | later years start on later day numbers (by induction) |
| UtcTime.DayNumberWithinYear | app/transform/transform_weather.py:24 | the day number of a valid date lies within its year |
| UtcTime.ToUtcExample | app/transform/transform_weather.py:22-25 | 1700000000 is 2023-11-14 22:13 UTC |
| Checks.TypeEntry | app/extract/validate_data.py:28-29 | an entry is appended exactly when the field is absent or not an int/float (booleans count as ints), and it holds the name and `.get` value |
| AppValidate.ValidateWeatherData | app/extract/validate_data.py:4-44 | the method computes `Validation(data)`: it raises on a non-object `main` or `wind`, otherwise it returns the list of invalid fields, and the result is true exactly when the list is empty |
| AppValidate.CheckRequiredKeys | app/extract/validate_data.py:8-11 | the loop over the required keys appends one entry per absent key, in order |
| AppValidate.CheckMainFields | app/extract/validate_data.py:24-32 | the loop over `temp`, `humidity`, `pressure` appends the type entry and, for `temp`, the range entry |
| AppValidate.RequiredKeysPresent | app/extract/validate_data.py:8-11 | the required-keys loop records nothing exactly when `dt`, `main`, `wind`, `sys`, `name` are all present |
| AppValidate.MainFieldsPass | app/extract/validate_data.py:24-32 | the main-fields loop records nothing exactly when the three fields are numbers and `temp > -100` |
| AppValidate.AcceptsIff | app/extract/validate_data.py:4-44 | the validator accepts exactly the payloads with all required keys, an int `dt` in years 1..9999, numeric main fields, `temp > -100` and a numeric `wind.speed` |
| AppValidate.MissingKeyRejects | app/extract/validate_data.py:8-11 | any absent required key rejects |
| AppValidate.BadTimestampRejects | app/extract/validate_data.py:14-21 | a missing, non-int or out-of-range `dt` rejects and is recorded |
| AppValidate.MissingDtRecordedTwice | app/extract/validate_data.py:8-21 | checks are not short-circuited: a missing `dt` is recorded exactly twice |
| AppValidate.MissingKeysOccurrences | app/extract/validate_data.py:8-11 | the required-keys loop records a key as often as it is listed, when absent, and never when present |
| AppValidate.CoordNeverChecked | app/extract/validate_data.py:4-44 | the verdict does not depend on `coord` |
| AppValidate.LondonAccepted | app/extract/validate_data.py:4-44 | the London observation is accepted |
| AppValidate.TemperatureBoundary | app/extract/validate_data.py:31-32 | `temp = -100` is rejected and `temp = -99.9` is accepted |
| AppValidate.WithTempAccepts | app/extract/validate_data.py:31-32 | the London observation with any `temp` is accepted exactly when `temp > -100` |
| AppValidate.BooleanPassesNumericCheck | app/extract/validate_data.py:28 | a JSON boolean passes the numeric check |
| LegacyValidate.ValidateWeatherData | extract/validate_data.py:3-27 | the method computes the older `Validation(data)`: raises on a non-object `main`/`wind`, else true exactly when nothing was recorded |
| LegacyValidate.CheckMainFields | extract/validate_data.py:11-16 | the loop appends one type entry per absent or non-numeric main field |
| LegacyValidate.MainFieldsPass | extract/validate_data.py:11-16 | the loop records nothing exactly when the three fields are numbers |
| LegacyValidate.AcceptsIff | extract/validate_data.py:3-27 | the older validator accepts exactly an int `dt` together with numeric main fields when `main` is present and a numeric `wind.speed` when `wind` is present |
| LegacyValidate.BadTimestampRejects | extract/validate_data.py:8-9 | a missing or non-int `dt` rejects |
| LegacyValidate.AbsentGroupsNotFlagged | extract/validate_data.py:11-21 | without `main` and `wind` only the `dt` check applies |
| LegacyValidate.TimestampAloneAccepted | extract/validate_data.py:8-27 | `{"dt": 1700000000}` alone is accepted |
| LegacyValidate.AppAcceptsImpliesLegacy | extract/validate_data.py:3-27 | whatever the application validator accepts, the older one accepts |
| LegacyValidate.TimestampAloneOnlyLegacy | extract/validate_data.py:3-27 | the converse fails: `{"dt": 1700000000}` alone passes the older validator and not the application one |
| LegacyValidate.ColdTemperatureOnlyLegacy | extract/validate_data.py:11-16 | the converse fails: the London observation with `temp = -150` passes the older validator and not the application one |
| AppTransform.ExtractLocationData | app/transform/transform_weather.py:4-19 | `None` exactly when `sys` or `coord` is not an object, `coord` is absent, or `lat`/`lon` is missing or null; otherwise the argument city, the (possibly null) country and the coordinates |
| AppTransform.LondonLocation | app/transform/transform_weather.py:4-16 | London gives (London, GB, 51.5, -0.1) |
| AppTransform.ExtractTimeData | app/transform/transform_weather.py:22-25 | a non-number raises `TypeError`, a timestamp outside years 1..9999 raises `ValueError`; otherwise a valid date, hour and minute in range, starting at the timestamp with its seconds dropped |
| AppTransform.SameMinuteSameFields | app/transform/transform_weather.py:22-25 | two timestamps in the same minute give the same five fields, or both raise `ValueError` |
| AppTransform.ExtractTimeExample | app/transform/transform_weather.py:22-25 | 1700000000 gives (2023, 11, 14, 22, 13) |
| AppTransform.Measurements | app/transform/transform_weather.py:29-36 | `main.temp`, `main.humidity`, `wind.speed` and `main.pressure`, each `None` when absent; a non-object `main` or `wind` raises `AttributeError` |
| AppTransform.ExtractFactData | app/transform/transform_weather.py:27-39 | the tuple binds the time id to `timestamp_id` and the location id to `location_id`, followed by the measurements |
| LegacyTransform.ExtractLocationData | transform/transform_weather.py:3-5 | always a 4-tuple, with null country or coordinates when missing; raises only when `sys` or `coord` is not an object |
| LegacyTransform.ExtractFactData | transform/transform_weather.py:12-21 | the tuple has the location id first and the time id second, followed by the measurements |
| LegacyTransform.FactIdsSwapped | transform/transform_weather.py:12-21 | bound to `(timestamp_id, location_id, …)`, the older tuple stores the location id as `timestamp_id` and the time id as `location_id`; it equals the newer tuple with the ids exchanged |
| LegacyTransform.MissingCoordinatesKept | transform/transform_weather.py:3-5 | without `coord` the older extractor still gives a location with null coordinates, where the newer one gives `None` |
| LegacyTransform.AgreesWhereGuarded | transform/transform_weather.py:3-5 | wherever the newer extractor gives a location, the older one gives the same |
| Warehouse.UpsertLocation | app/load/insert_transformed_data.py:15-32 | a new `(city, country)` gets the next sequence value, and an existing one keeps its id with its coordinates overwritten; no other row changes, the sequence advances, and unique ids are preserved |
| Warehouse.InsertTime | app/load/insert_transformed_data.py:40-50 | a new minute is inserted and its id returned; a stored minute returns no row and leaves the table unchanged; the sequence advances either way; unique ids are preserved |
| Warehouse.ResolveTime | app/load/insert_transformed_data.py:40-50 | the corrected time lookup: a stored minute keeps its row, a new one is inserted as by `InsertTime`, and the minute's id is returned either way |
| Warehouse.ResolveTimeIdempotent | app/load/insert_transformed_data.py:40-50 | resolving the same minute again returns the same id and changes no table |
| Warehouse.BindFact | app/load/insert_transformed_data.py:55-61 | the fact columns take the tuple's values by position |
| Warehouse.InsertFact | app/load/insert_transformed_data.py:52-61 | exactly one row is appended, with no duplicate check |
| Warehouse.SetProcessed | app/load/insert_transformed_data.py:96 | the UPDATE on a session's tables changes only `weather_raw`, and keeps ids unique |
| Warehouse.MarkProcessed | app/load/insert_transformed_data.py:96 | `UPDATE … SET processed = TRUE WHERE id = …` flags the rows with that id and changes nothing else |
| Warehouse.InsertRaw | app/load/insert_raw_data.py:18-21 | one unprocessed row with the next id is appended |
| Warehouse.Unprocessed | app/load/insert_transformed_data.py:68-69 | the selection holds exactly the unprocessed rows |
| Warehouse.Rollback | app/load/insert_transformed_data.py:99 | the tables return to the last commit and the sequences keep their values |
| Warehouse.RollbackKeepsWellFormed | app/load/insert_transformed_data.py:97-99 | since sequences only move forward, a rollback keeps ids unique and below their sequences |
| Warehouse.ProgressedTrans | app/load/insert_transformed_data.py:96 | switching flags on, twice, is switching flags on |
| Warehouse.RefIntegrityGrows | app/load/insert_transformed_data.py:15-50 | facts keep referring to existing rows while ids are only added |
| Store.Database.constructor | app/load/insert_transformed_data.py:67 | a connection opens on the given tables and sequences, with no uncommitted work |
| Store.Database.UpsertLocation | app/load/insert_transformed_data.py:15-25 | the statement on the connection is `Warehouse.UpsertLocation` and leaves the commit point alone |
| Store.Database.InsertTime | app/load/insert_transformed_data.py:41-50 | the statement on the connection is `Warehouse.InsertTime` |
| Store.Database.InsertFact | app/load/insert_transformed_data.py:55-61 | the statement on the connection is `Warehouse.InsertFact` |
| Store.Database.SetProcessed | app/load/insert_transformed_data.py:96 | the UPDATE on the connection |
| Store.Database.InsertRaw | app/load/insert_raw_data.py:18-21 | the INSERT on the connection |
| Store.Database.Commit | app/load/insert_transformed_data.py:103 | `conn.commit()` makes the live tables the commit point |
| Store.Database.Rollback | app/load/insert_transformed_data.py:99 | `conn.rollback()` restores the commit point |
| RawStaging.SaveRaw | app/load/insert_raw_data.py:5-27 | no change when `dt` is missing (the caught `KeyError`) or a row with the same city and text of `dt` exists; otherwise exactly one unprocessed row is appended; earlier rows are kept; unique ids are preserved |
| RawStaging.SaveRawData | weather_service.py:65-87 | the method (the same code as `app/load/insert_raw_data.py:5-27`) computes `SaveRaw` and commits |
| RawStaging.ComparableText | app/load/insert_raw_data.py:10-13 | for an int or string `dt`, Python's `str` and PostgreSQL's `->>` give the same text |
| RawStaging.SaveRawIdempotent | app/load/insert_raw_data.py:14-25 | saving the same payload again is a no-op |
| RawStaging.SaveRawKeepsKeysUnique | app/load/insert_raw_data.py:10-22 | if each (city, `dt` text) is in at most one row, it stays so after saving |
| RawStaging.BooleanTimestampNeverDeduplicated | app/load/insert_raw_data.py:10-13 | a boolean `dt` is written `True` by Python and `true` by PostgreSQL, so saving it twice adds two rows |
| AppLoad.LocationUpsert | app/load/insert_transformed_data.py:7-36 | `None`, with nothing written, exactly when extraction fails; otherwise the upsert and its id |
| AppLoad.TimeInsert | app/load/insert_transformed_data.py:38-50 | an id exactly when the timestamp converts and its minute is new, with that minute added; otherwise the tables are unchanged and the call raises |
| AppLoad.FactInsert | app/load/insert_transformed_data.py:52-61 | one appended fact, unless reading the measurements raises |
| AppLoad.InsertLocationData | app/load/insert_transformed_data.py:7-36 | the method computes `LocationUpsert` on the connection |
| AppLoad.InsertTimeData | app/load/insert_transformed_data.py:38-50 | the method computes `TimeInsert` on the connection |
| AppLoad.InsertFactData | app/load/insert_transformed_data.py:52-61 | the method computes `FactInsert` on the connection |
| AppLoad.TryInsert | app/load/insert_transformed_data.py:85-101 | the `try` block computes `InsertRecord`; a `KeyError` rolls back to the commit point and any other exception is swallowed |
| AppLoad.ProcessRecord | app/load/insert_transformed_data.py:72-101 | one iteration computes `AppStep`: a NULL payload or a rejected record is skipped, and a raising validator ends the loop |
| AppLoad.PopulateDataWarehouse | app/load/insert_transformed_data.py:64-106 | the run computes `AppPopulate`: the loop over the unprocessed records commits at the end, and an escaping exception rolls everything back |
| AppLoad.SnapshotUnused | app/load/insert_transformed_data.py:92-99 | an accepted payload has a `dt`, so the `KeyError` rollback is never reached |
| AppLoad.ReadyConverts | app/load/insert_transformed_data.py:82-93 | a record the validator accepts has an integer `dt` that converts, and readable measurements |
| AppLoad.ReadyStepStores | app/load/insert_transformed_data.py:85-96 | a ready record whose minute is new gets through: the record is flagged, its minute gets the next time id, and the fact `(time id, location id, temp, humidity, speed, pressure)` is appended after the earlier facts, so the minute, the location and that fact are all stored |
| AppLoad.StoredCityNewMinute | app/load/insert_transformed_data.py:85-96 | a city stored before and seen in a new minute: the appended fact carries the new minute's id as `timestamp_id` and the city's stored id as `location_id`, and referential integrity holds afterwards |
| AppLoad.StepEffect | app/load/insert_transformed_data.py:78-101 | an iteration only adds dimension rows and facts, and either leaves `weather_raw` as it was or flags a ready record whose minute was new |
| AppLoad.StepFlags | app/load/insert_transformed_data.py:78-101 | one iteration keeps the invariant that every flagged row was ready and has its minute, its location and its fact stored |
| AppLoad.BatchGrows | app/load/insert_transformed_data.py:71-101 | over any part of the loop, rows and facts are only added and flags only switched on |
| AppLoad.BatchPending | app/load/insert_transformed_data.py:71-101 | after a loop that ends without an exception, every ready record of the batch is flagged or its minute is in `dim_time` |
| AppLoad.PendingHead | app/load/insert_transformed_data.py:71-101 | the first record of such a loop, when ready, is flagged at the end or its minute is in `dim_time` |
| AppLoad.PopulateFlags | app/load/insert_transformed_data.py:64-106 | flags are only switched on, and only on records that pass validation and yield a location; a flagged record has its minute, its location and a fact naming both with its measurements stored; a run that commits leaves a ready record unflagged only when its minute is in `dim_time` |
| AppLoad.BatchFlags | app/load/insert_transformed_data.py:71-101 | over any part of the loop, flags are only switched on, and only on ready records whose minute, location and fact are stored |
| AppLoad.PopulateRefIntegrity | app/load/insert_transformed_data.py:64-106 | a run keeps every fact pointing to an existing location and minute |
| AppLoad.BatchRefIntegrity | app/load/insert_transformed_data.py:71-101 | the loop keeps referential integrity, also across a rollback to the commit point |
| AppLoad.InsertRefIntegrity | app/load/insert_transformed_data.py:85-101 | the `try` block keeps referential integrity |
| AppLoad.StepRefIntegrity | app/load/insert_transformed_data.py:78-101 | one iteration keeps referential integrity |
| AppLoad.PopulateWellFormed | app/load/insert_transformed_data.py:64-106 | a run keeps ids unique and below their sequences |
| AppLoad.BatchWellFormed | app/load/insert_transformed_data.py:71-101 | the loop keeps ids unique, also across rollbacks, and sequences never go back |
| AppLoad.InsertWellFormed | app/load/insert_transformed_data.py:85-101 | the `try` block keeps ids unique and sequences moving forward |
| AppLoad.StepWellFormed | app/load/insert_transformed_data.py:78-101 | one iteration keeps ids unique and sequences moving forward |
| AppLoad.TimeConflictKeepsLocation | app/load/insert_transformed_data.py:92-101 | a ready record whose minute is stored is left unprocessed, but its location upsert stays in the transaction |
| AppLoad.RaisingRecordAborts | app/load/insert_transformed_data.py:71-106 | a payload that makes the validator raise ends the loop |
| AppLoad.RaisingRecordUndoesRun | app/load/insert_transformed_data.py:64-106 | one such payload among the selected records and the run has no effect |
| AppLoad.FreshStep | app/load/insert_transformed_data.py:85-96 | a ready record on empty dimension and fact tables leaves exactly one location, one minute and one fact naming both, and flags the record |
| AppLoad.SingleRecordRun | app/load/insert_transformed_data.py:64-106 | a run over one pending record whose iteration goes on commits exactly that iteration's tables |
| AppLoad.LondonRun | app/load/insert_transformed_data.py:64-106 | the London observation on a fresh warehouse: the location `(London, GB, 51.5, -0.1)` with id 1, the minute 2023-11-14 22:13 with id 1, the fact `(1, 1, 15.2, 80, 3.1, 1012)`, and the record flagged |
| AppLoad.SkippedRecordInert | app/load/insert_transformed_data.py:78-90 | a skipped record (NULL payload, rejected, no location) can be dropped from the batch without changing the outcome |
| LegacyLoad.LocationUpsert | load/insert_transformed_data.py:7-19 | the older location upsert: the extractor's exception, or the upsert and its id |
| LegacyLoad.FactInsert | load/insert_transformed_data.py:35-44 | one appended fact built from the older tuple, unless reading the measurements raises |
| LegacyLoad.LegacyPopulate | load/insert_transformed_data.py:47-69 | a run that raises leaves the tables as they were |
| LegacyLoad.InsertLocationData | load/insert_transformed_data.py:7-19 | the method computes `LocationUpsert` on the connection |
| LegacyLoad.InsertFactData | load/insert_transformed_data.py:35-44 | the method computes `FactInsert` on the connection |
| LegacyLoad.LoadRecord | load/insert_transformed_data.py:60-64 | the three inserts and the UPDATE compute `InsertRecord`; any exception ends the loop |
| LegacyLoad.ProcessRecord | load/insert_transformed_data.py:55-64 | one iteration computes `LegacyStep`: a rejected record is skipped, and a raising validator ends the loop |
| LegacyLoad.PopulateDataWarehouse | load/insert_transformed_data.py:47-69 | the run computes `LegacyPopulate`: commit at the end, or roll back entirely |
| LegacyLoad.InsertRecordOutcome | load/insert_transformed_data.py:7-64 | the inserts get through exactly when the record has a payload, a location, a `dt` that converts to a new minute and readable measurements; then the record is flagged, the minute gets the next time id, and the fact `(location id, time id, measurements)` is appended after the earlier facts |
| LegacyLoad.StepContinues | load/insert_transformed_data.py:57-64 | an iteration that lets the loop go on either skips a rejected record unchanged, or flags the record and appends, after the earlier facts, the row `(location id, new time id, temp, humidity, speed, pressure)` |
| LegacyLoad.StepAppendsReadings | load/insert_transformed_data.py:57-64 | an iteration that goes on keeps the earlier facts and appends one with the record's measurements exactly when the record passes validation |
| LegacyLoad.StepKeepsWellFormed | load/insert_transformed_data.py:57-64 | an iteration keeps ids unique and below their sequences, and moves no sequence back |
| LegacyLoad.PopulateWellFormed | load/insert_transformed_data.py:47-69 | a run keeps ids unique and below their sequences, also when it rolls back |
| LegacyLoad.BatchReadings | load/insert_transformed_data.py:54-64 | a loop that ends without an exception keeps the earlier facts and appends one fact per accepted record, with that record's measurements, in batch order |
| LegacyLoad.BatchOutcome | load/insert_transformed_data.py:54-64 | a loop that ends without an exception flags exactly the accepted records and appends one fact for each |
| LegacyLoad.MarkedLoaded | load/insert_transformed_data.py:51-64 | with unique raw ids, flagging the accepted pending records' ids flags exactly those rows |
| LegacyLoad.PopulateOutcome | load/insert_transformed_data.py:47-69 | all or nothing: a run leaves the tables unchanged, or it flags exactly the pending records the older validator accepts and, keeping the earlier facts, appends one fact for each with its measurements, in order |
| LegacyLoad.StoredFactSwapsIds | load/insert_transformed_data.py:37-43 | the fact an iteration stores has the location's id as `timestamp_id` and the minute's id as `location_id` |
| LegacyLoad.LoadsContinues | load/insert_transformed_data.py:60-64 | an accepted record with a location and a new minute gets through: the minute gets the next time id, and one fact whose `location_id` is that id is appended |
| LegacyLoad.SwappedIdsBreakIntegrity | load/insert_transformed_data.py:37-43 | when a known city is seen again in a new minute (sequences at location ≤ time), the committed run leaves a fact whose `location_id` names no location |
| Runs.RunContinues | load/insert_transformed_data.py:54-64 | an iteration that does not raise hands the rest of the batch to the next one |
| Runs.AbortingRecordRun | load/insert_transformed_data.py:54-69 | a record whose iteration always raises ends the loop wherever it is in the batch (the same loop as `weather_service.py` lines 169-176) |
| Runs.BlockedRun | load/insert_transformed_data.py:54-69 | when iterations keep stored minutes, a record blocked by a stored minute ends the loop |
| Runs.StoredThenBlockedRun | load/insert_transformed_data.py:54-69 | a record that stores a minute followed by one that minute blocks ends the loop |
| Runs.StoredFirstRun | load/insert_transformed_data.py:54-69 | the same when the storing record comes first |
| Runs.RunWellFormed | load/insert_transformed_data.py:54-64 | when each iteration keeps ids unique and sequences moving forward, so does the loop |
| Runs.RunReadings | load/insert_transformed_data.py:54-64 | when each iteration that goes on appends the selected record's measurements after the earlier facts, a loop that goes on appends them all, in batch order |
| LegacyLoad.StoredMinuteAborts | load/insert_transformed_data.py:21-33 | a record that reaches the time insert ends the loop whenever its minute is stored, and stores its minute when it gets through |
| LegacyLoad.StepKeepsMinutes | load/insert_transformed_data.py:54-64 | stored minutes stay stored while the loop goes on |
| LegacyLoad.StoredMinuteBlocksEveryRun | load/insert_transformed_data.py:47-69 | a pending record whose minute is stored makes this run and the next one no-ops |
| LegacyLoad.SameMinuteBlocksEveryRun | load/insert_transformed_data.py:47-69 | two pending records of the same minute make this run and the next one no-ops |
| LegacyLoad.AbortingRecords | load/insert_transformed_data.py:57-64 | a NULL payload, a non-object `main` or `wind`, an accepted record whose `sys` or `coord` is not an object, and an accepted int `dt` outside years 1..9999 (there is no range check) each end the loop in any state |
| LegacyLoad.AbortingRecordBlocksEveryRun | load/insert_transformed_data.py:47-69 | one such pending record makes this run and the next one no-ops |
| LegacyLoad.TimeResolve | load/insert_transformed_data.py:21-33 | the corrected `insert_time_data`: a converted timestamp always yields the id stored for its minute |
| LegacyLoad.CorrectedLoadsEveryRecord | load/insert_transformed_data.py:47-69 | with the time id resolved and the ids in column order, every record that reaches the time insert is stored, and its fact names its own location and minute, which keeps referential integrity |
| WeatherService.ServicePopulate | weather_service.py:162-181 | a run that raises leaves the tables as they were |
| WeatherService.PopulateDataWarehouse | weather_service.py:162-181 | the run computes `ServicePopulate`: every pending record goes to the inserts, with no validation; commit at the end, or roll back entirely |
| WeatherService.InsertContinues | weather_service.py:172-176 | the inserts either end the loop, or reach a new minute with readable measurements, flag the record and append, after the earlier facts, the row `(location id, new time id, temp, humidity, speed, pressure)` |
| WeatherService.StepAppendsReadings | weather_service.py:172-176 | an iteration that goes on keeps the earlier facts and appends one with the record's measurements |
| WeatherService.StepKeepsWellFormed | weather_service.py:172-176 | an iteration keeps ids unique and below their sequences, and moves no sequence back |
| WeatherService.PopulateWellFormed | weather_service.py:162-181 | a run keeps ids unique and below their sequences, also when it rolls back |
| WeatherService.BatchReadings | weather_service.py:169-176 | a loop that ends without an exception keeps the earlier facts and appends one fact per record, with its measurements, in batch order |
| WeatherService.BatchOutcome | weather_service.py:169-176 | a loop that ends without an exception flags every record of the batch and appends one fact for each |
| WeatherService.MarkedPending | weather_service.py:166-176 | flagging the pending rows' ids flags every row |
| WeatherService.PopulateOutcome | weather_service.py:162-181 | all or nothing: a run leaves the tables unchanged, or flags every pending record and, keeping the earlier facts, appends one fact for each with its measurements, in order |
| WeatherService.AbortingRecords | weather_service.py:172-174 | any of these ends the loop in any state: a NULL payload, a non-object `sys`/`coord`/`main`/`wind`, a missing `dt`, or a `dt` that is not a number or lies outside years 1..9999 |
| WeatherService.AbortingRecordBlocksEveryRun | weather_service.py:162-181 | one such pending record makes this run and the next one no-ops |
| WeatherService.StoredMinuteAborts | weather_service.py:132-144 | a record that reaches the time insert ends the loop whenever its minute is stored, and stores its minute when it gets through |
| WeatherService.StepKeepsMinutes | weather_service.py:169-176 | stored minutes stay stored while the loop goes on |
| WeatherService.StoredMinuteBlocksEveryRun | weather_service.py:162-181 | such a record makes this run and the next one no-ops |
| WeatherService.SameMinuteBlocksEveryRun | weather_service.py:162-181 | two pending records of the same minute make this run and the next one no-ops |
| WeatherService.NullCoordinatesStored | weather_service.py:118-130 | an observation without `coord` is stored with a location whose latitude and longitude are NULL |

## Left out

- Fetching from OpenWeather, the scheduler, schema initialisation, configuration, connection set-up and `main`. These are network, thread, file and environment I/O. The payload a fetch returns is a parameter.
- Logging. It has no effect on the tables. The validators' invalid-field list is kept, as `Verdict.invalid`.
- JSON arrays. `Json` has no array case and a stored payload is always an object. No core path looks inside an array, and every group that is not an object is handled as a non-object.
- Floating point. Measurements and coordinates are `real` values that are only compared (`temp <= -100`).
- `fromtimestamp` of a float. It is floored to whole seconds (a negative fraction goes down), and rounding to the microsecond is left out. Platform limits of `fromtimestamp` are left out: convertible means UTC year 1..9999, and `OverflowError` is modelled as `ValueError`. On Linux an int `dt` whose magnitude lies between about 6.8e16 and 2^63 seconds, positive or negative, makes `gmtime` fail with `OSError`. The application validator's `except (ValueError, OverflowError)` does not catch it, so the run ends instead of rejecting the record; the model rejects such a record. From 2^63 on, converting the int to `time_t` raises `OverflowError`, which is caught, so the record is rejected, as in the model.
- NULL-distinct unique keys. `dim_location` is a map keyed by `(city, country)`, so two NULL countries for one city fall on one row. In PostgreSQL they would be two rows.
- SQL errors from the server, for example a value of the wrong type for a column, and the aborted-transaction state they leave. The only exceptions modelled are Python's own (`KeyError`, `TypeError`, `AttributeError`, `ValueError`). The `except` in the application's `insert_location_data` can therefore only catch an extractor failure, which the extractor already turns into `None`.
- RawStaging.StoredText: PostgreSQL's `->>` text of a float or object `dt` is not modelled. Such a value never matches, so it is never deduplicated. Python's `str` and PostgreSQL's text can differ for a float: `str(1e16)` is `1e+16`, while `->>` of the `jsonb` number gives `10000000000000000`.
- Row order. `SELECT … WHERE NOT processed` is taken in table order. PostgreSQL guarantees no order.
- Concurrency. Two runs at once and interleaved `save_raw_data` calls are not modelled. Each operation runs on a fresh connection of its own.
- Uniqueness of `weather_fact`. The schema file is not part of this model, and the code appends facts with no conflict handling.

## Findings

| source | as written | input that shows it | evidently intended | confidence | as-written member | corrected member |
|---|---|---|---|---|---|---|
| transform/transform_weather.py:12-21 | the older fact tuple (also `weather_service.py`, lines 103-112), used by `load/insert_transformed_data.py` (lines 35-44) and `weather_service.py` (lines 146-155), is `(location_id, time_id, …)`, bound to the columns `(timestamp_id, location_id, …)`, so the ids are stored swapped | London stored earlier: location 1, time 1, sequences at 2. A new London observation in a new minute: the upsert returns location 1 (the sequence moves to 3) and the minute gets time id 2. The stored fact has `timestamp_id` 1 and `location_id` 2, and no location 2 exists | the tuple in column order, `(time_id, location_id, …)`, as the application extractor builds it | high: not executed | LegacyLoad.SwappedIdsBreakIntegrity | AppLoad.StoredCityNewMinute |
| load/insert_transformed_data.py:21-33 | in all three loaders (also `weather_service.py` lines 132-144 and `app/load/insert_transformed_data.py` lines 38-50), `ON CONFLICT DO NOTHING RETURNING timestamp_id` returns no row for a stored minute, and `fetchone()[0]` raises `TypeError` | Two cities observed in the same UTC minute, or any pending record whose minute is already in `dim_time`. In the older loader and in the service, every later run rolls back and the record stays pending for good. In the application, the record is skipped on every run | the existing minute's id is returned, as the location upsert does with `DO UPDATE … RETURNING` | high: not executed | LegacyLoad.SameMinuteBlocksEveryRun | LegacyLoad.CorrectedLoadsEveryRecord |
