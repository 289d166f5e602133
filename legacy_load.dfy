/** The older `populate_data_warehouse`: records that pass the older validator
    get a location upsert, a time insert, a fact append and their processed
    flag; there is no handler, so any exception escapes the loop, the
    `with conn` block rolls the transaction back and the run has no effect. */
module LegacyLoad {
  import opened Json
  import opened UtcTime
  import opened Warehouse
  import opened Store
  import opened Checks
  import AppValidate
  import LegacyValidate
  import LegacyTransform
  import AppTransform
  import AppLoad
  import Samples
  import Runs

  // ---------------------------------------------------------------------
  // The insert steps, as functions
  // ---------------------------------------------------------------------

  /** The older `insert_location_data`: the upsert's id, or the exception of the extractor. */
  function LocationUpsert(d: Db, city: string, data: Obj): (r: Result<(Db, int)>)
    ensures r.Raise? <==> LegacyTransform.ExtractLocationData(city, data).Raise?
    ensures r.Ok? ==> r.value == UpsertLocation(d, LegacyTransform.ExtractLocationData(city, data).value)
  {
    match LegacyTransform.ExtractLocationData(city, data)
    case Raise(e) => Raise(e)
    case Ok(loc) => Ok(UpsertLocation(d, loc))
  }

  /** The older `insert_fact_data`, with the location id first in the tuple. */
  function FactInsert(d: Db, locationId: int, timeId: int, data: Obj): (r: Result<Db>)
    ensures r.Raise? <==> AppTransform.Measurements(data).Raise?
    ensures r.Ok? ==> r.value == InsertFact(d, LegacyTransform.ExtractFactData(locationId, timeId, data).value)
  {
    match LegacyTransform.ExtractFactData(locationId, timeId, data)
    case Raise(e) => Raise(e)
    case Ok(t) => Ok(InsertFact(d, t))
  }

  /** The three inserts and the UPDATE for one record; any exception ends the
      loop. `insert_time_data` is the same code as in the application package. */
  function InsertRecord(d: Db, rec: RawRow): Step {
    if rec.data.None? then Abort(d)
    else
      var data := rec.data.value;
      match LocationUpsert(d, rec.city, data)
      case Raise(_) => Abort(d)
      case Ok((d1, locationId)) =>
        if "dt" !in data then Abort(d1)
        else
          var (d2, time) := AppLoad.TimeInsert(d1, data["dt"]);
          match time
          case Raise(_) => Abort(d2)
          case Ok(timeId) =>
            match FactInsert(d2, locationId, timeId, data)
            case Raise(_) => Abort(d2)
            case Ok(d3) => Continue(SetProcessed(d3, rec.id))
  }

  /** What the inserts need to get through for `rec` on `d`: a payload, a
      location, a convertible `dt` whose minute is not yet stored, and
      measurements that can be read. */
  predicate GetsThrough(d: Db, rec: RawRow) {
    && rec.data.Some? && LegacyTransform.ExtractLocationData(rec.city, rec.data.value).Ok?
    && "dt" in rec.data.value && AppTransform.ExtractTimeData(rec.data.value["dt"]).Ok?
    && AppTransform.ExtractTimeData(rec.data.value["dt"]).value !in d.tables.times
    && AppTransform.Measurements(rec.data.value).Ok?
  }

  /** The inserts get through exactly when `GetsThrough` holds; then the
      location is upserted, the minute gets the next time id, one fact is
      appended with the location id first and the time id second, the record
      is flagged, and nothing else changes. */
  lemma InsertRecordOutcome(d: Db, rec: RawRow)
    ensures InsertRecord(d, rec).Continue? <==> GetsThrough(d, rec)
    ensures GetsThrough(d, rec) ==>
      var data := rec.data.value;
      var (d1, locationId) := UpsertLocation(d, LegacyTransform.ExtractLocationData(rec.city, data).value);
      var (temp, humidity, speed, pressure) := AppTransform.Readings(data);
      InsertRecord(d, rec).db == Db(
        Tables(MarkProcessed(d.tables.raw, rec.id), d1.tables.locations,
               d.tables.times[AppTransform.ExtractTimeData(data["dt"]).value := d.next.time],
               d.tables.facts + [FactRow(locationId, d.next.time, temp, humidity, speed, pressure)]),
        d.next.(location := d.next.location + 1, time := d.next.time + 1))
  {
  }

  /** Whether the older validator accepts the record; a `None` payload
      makes it raise (`'dt' in None`). */
  predicate Valid(rec: RawRow) {
    rec.data.Some? && LegacyValidate.Validation(rec.data.value) == Returns(true, [])
  }

  /** One iteration of the loop. */
  function LegacyStep(d: Db, rec: RawRow): Step {
    if rec.data.None? || LegacyValidate.Validation(rec.data.value).Raises? then Abort(d)
    else if !Valid(rec) then Continue(d)
    else InsertRecord(d, rec)
  }

  /** The loop over `recs`, stopping at the first escaping exception. */
  function LegacyBatch(d: Db, recs: seq<RawRow>): Step {
    Runs.Run(LegacyStep, d, recs)
  }

  /** Whether a run on `d` ends in an exception. */
  predicate Aborts(d: Db) {
    LegacyBatch(d, Unprocessed(d.tables.raw)).Abort?
  }

  /** A whole run: committed at the end, or rolled back entirely. */
  function LegacyPopulate(d: Db): (r: Db)
    ensures Aborts(d) ==> r.tables == d.tables
  {
    match LegacyBatch(d, Unprocessed(d.tables.raw))
    case Abort(e) => Rollback(e, d.tables)
    case Continue(e) => e
  }

  // ---------------------------------------------------------------------
  // The code
  // ---------------------------------------------------------------------

  method InsertLocationData(db: Database, city: string, data: Obj) returns (locationId: Result<int>)
    modifies db
    ensures LocationUpsert(old(db.State()), city, data) == if locationId.Raise? then Raise(locationId.exc) else Ok((db.State(), locationId.value))
    ensures locationId.Raise? ==> db.State() == old(db.State())
    ensures db.committed == old(db.committed)
  {
    var location := LegacyTransform.ExtractLocationData(city, data);
    if location.Raise? {
      return Raise(location.exc);
    }
    var id := db.UpsertLocation(location.value);
    return Ok(id);
  }

  method InsertFactData(db: Database, locationId: int, timeId: int, data: Obj) returns (inserted: bool)
    modifies db
    ensures var r := FactInsert(old(db.State()), locationId, timeId, data);
      inserted == r.Ok? && db.State() == (if inserted then r.value else old(db.State()))
    ensures db.committed == old(db.committed)
  {
    var fact := LegacyTransform.ExtractFactData(locationId, timeId, data);
    if fact.Raise? {
      return false;
    }
    db.InsertFact(fact.value);
    return true;
  }

  /** The inserts and the UPDATE for one record; `aborted` means an exception escapes. */
  method LoadRecord(db: Database, rec: RawRow) returns (aborted: bool)
    modifies db
    ensures InsertRecord(old(db.State()), rec) == if aborted then Abort(db.State()) else Continue(db.State())
    ensures db.committed == old(db.committed)
  {
    if rec.data.None? {
      return true;
    }
    var data := rec.data.value;
    var locationId := InsertLocationData(db, rec.city, data);
    if locationId.Raise? {
      return true;
    }
    if "dt" !in data {
      return true;
    }
    var timeId := AppLoad.InsertTimeData(db, data["dt"]);
    if timeId.Raise? {
      return true;
    }
    var inserted := InsertFactData(db, locationId.value, timeId.value, data);
    if !inserted {
      return true;
    }
    db.SetProcessed(rec.id);
    return false;
  }

  method ProcessRecord(db: Database, rec: RawRow) returns (aborted: bool)
    modifies db
    ensures LegacyStep(old(db.State()), rec) == if aborted then Abort(db.State()) else Continue(db.State())
    ensures db.committed == old(db.committed)
  {
    if rec.data.None? {
      return true;
    }
    var verdict := LegacyValidate.ValidateWeatherData(rec.data.value);
    if verdict.Raises? {
      return true;
    }
    if !verdict.valid {
      return false;
    }
    aborted := LoadRecord(db, rec);
  }

  /** The older `populate_data_warehouse()` on a fresh connection. */
  method PopulateDataWarehouse(db: Database)
    requires db.Idle()
    modifies db
    ensures db.State() == LegacyPopulate(old(db.State())) && db.Idle()
  {
    ghost var start := db.State();
    var records := Unprocessed(db.raw);
    for i := 0 to |records|
      invariant db.committed == start.tables
      invariant LegacyBatch(db.State(), records[i..]) == LegacyBatch(start, records)
    {
      assert records[i..][1..] == records[i + 1..];
      var aborted := ProcessRecord(db, records[i]);
      if aborted {
        db.Rollback();
        return;
      }
    }
    db.Commit();
  }

  // ---------------------------------------------------------------------
  // Properties of a run
  // ---------------------------------------------------------------------

  /** The selected records that pass the older validator, in order. */
  function Loaded(recs: seq<RawRow>): (r: seq<RawRow>)
    ensures forall x :: x in r <==> x in recs && Valid(x)
    decreases |recs|
  {
    if recs == [] then []
    else (if Valid(recs[0]) then [recs[0]] else []) + Loaded(recs[1..])
  }

  function Ids(recs: seq<RawRow>): (r: set<int>)
    ensures forall id :: id in r <==> exists x :: x in recs && x.id == id
    decreases |recs|
  {
    if recs == [] then {} else {recs[0].id} + Ids(recs[1..])
  }

  /** `raw` with the processed flag switched on for every row whose id is in `ids`. */
  function Marked(raw: seq<RawRow>, ids: set<int>): (r: seq<RawRow>)
    ensures |r| == |raw|
    ensures forall i :: 0 <= i < |raw| ==> r[i] == if raw[i].id in ids then raw[i].(processed := true) else raw[i]
  {
    seq(|raw|, i requires 0 <= i < |raw| => if raw[i].id in ids then raw[i].(processed := true) else raw[i])
  }

  lemma MarkOneMore(raw: seq<RawRow>, ids: set<int>, id: int)
    ensures MarkProcessed(Marked(raw, ids), id) == Marked(raw, ids + {id})
  {
  }

  /** An iteration that lets the loop go on either skips the record or
      stores one fact and flags it; `weather_raw` changes in no other way. */
  lemma StepContinues(d: Db, rec: RawRow)
    requires LegacyStep(d, rec).Continue?
    ensures !Valid(rec) ==> LegacyStep(d, rec).db == d
    ensures Valid(rec) ==> LegacyStep(d, rec).db.tables.raw == MarkProcessed(d.tables.raw, rec.id)
    ensures Valid(rec) ==> |LegacyStep(d, rec).db.tables.facts| == |d.tables.facts| + 1
    ensures Valid(rec) ==> Loads(rec) && MinuteOf(rec) !in d.tables.times && GetsThrough(d, rec)
    ensures Valid(rec) ==>
      var locationId := UpsertLocation(d, LegacyTransform.ExtractLocationData(rec.city, rec.data.value).value).1;
      var (temp, humidity, speed, pressure) := AppTransform.Readings(rec.data.value);
      LegacyStep(d, rec).db.tables.facts == d.tables.facts + [FactRow(locationId, d.next.time, temp, humidity, speed, pressure)]
  {
    InsertRecordOutcome(d, rec);
  }

  /** When the loop goes on, an iteration has kept the earlier facts and
      appended one with the record's measurements exactly when the record
      passes validation. */
  lemma StepAppendsReadings()
    ensures Runs.AppendsReadings(LegacyStep, Valid)
  {
    forall d: Db, rec: RawRow | LegacyStep(d, rec).Continue?
      ensures AppendedFacts(d.tables.facts, LegacyStep(d, rec).db.tables.facts, if Valid(rec) then Runs.RecordReadings(rec) else [])
    {
      var f, f' := d.tables.facts, LegacyStep(d, rec).db.tables.facts;
      StepContinues(d, rec);
      if Valid(rec) {
        InsertRecordOutcome(d, rec);
        assert f'[..|f|] == f && f'[|f|..] == [f'[|f|]];
      } else {
        assert f'[..|f|] == f && f'[|f|..] == [];
      }
    }
  }

  lemma StepKeepsWellFormed()
    ensures Runs.KeepsWellFormed(LegacyStep)
  {
  }

  /** A run keeps every surrogate key unique and below its sequence, also
      when it rolls back, because the sequences are not given back. */
  lemma PopulateWellFormed(d: Db)
    requires WellFormed(d)
    ensures WellFormed(LegacyPopulate(d))
  {
    StepKeepsWellFormed();
    Runs.RunWellFormed(LegacyStep, d, Unprocessed(d.tables.raw));
    RollbackKeepsWellFormed(LegacyBatch(d, Unprocessed(d.tables.raw)).db, d);
  }

  /** A run that ends without an exception has flagged exactly the records
      that passed validation, on top of the flags `start` had, and stored one
      fact for each. */
  lemma {:induction false} BatchOutcome(d: Db, recs: seq<RawRow>, start: seq<RawRow>, ids: set<int>)
    requires d.tables.raw == Marked(start, ids)
    requires LegacyBatch(d, recs).Continue?
    ensures LegacyBatch(d, recs).db.tables.raw == Marked(start, ids + Ids(Loaded(recs)))
    ensures |LegacyBatch(d, recs).db.tables.facts| == |d.tables.facts| + |Loaded(recs)|
    decreases |recs|
  {
    if recs == [] {
      assert ids + Ids(Loaded(recs)) == ids;
    } else {
      var r := recs[0];
      var e := LegacyStep(d, r).db;
      StepContinues(d, r);
      BatchContinues(d, recs);
      var rest := Loaded(recs[1..]);
      if Valid(r) {
        MarkOneMore(start, ids, r.id);
        BatchOutcome(e, recs[1..], start, ids + {r.id});
        assert Loaded(recs) == [r] + rest;
        assert ([r] + rest)[0] == r && ([r] + rest)[1..] == rest;
        assert ids + {r.id} + Ids(rest) == ids + Ids(Loaded(recs));
      } else {
        BatchOutcome(e, recs[1..], start, ids);
        assert Loaded(recs) == rest;
      }
    }
  }

  /** A loop that ends without an exception has kept the earlier facts and
      appended one fact per record that passed validation, with that
      record's measurements, in batch order. */
  lemma BatchReadings(d: Db, recs: seq<RawRow>)
    requires LegacyBatch(d, recs).Continue?
    ensures AppendedFacts(d.tables.facts, LegacyBatch(d, recs).db.tables.facts, Runs.ReadingsOf(Valid, recs))
  {
    StepAppendsReadings();
    Runs.RunReadings(LegacyStep, Valid, d, recs);
  }

  /** Flagging the ids of the loaded records among the pending rows flags
      exactly the pending rows that pass validation. */
  lemma MarkedLoaded(raw: seq<RawRow>)
    requires AppLoad.DistinctIds(raw)
    ensures var raw' := Marked(raw, Ids(Loaded(Unprocessed(raw))));
      forall i :: 0 <= i < |raw| ==>
        raw'[i] == if !raw[i].processed && Valid(raw[i]) then raw[i].(processed := true) else raw[i]
  {
    var recs := Unprocessed(raw);
    forall i | 0 <= i < |raw| && !raw[i].processed && !Valid(raw[i])
      ensures raw[i].id !in Ids(Loaded(recs))
    {
      forall x | x in Loaded(recs) ensures x.id != raw[i].id {
        var j :| 0 <= j < |raw| && raw[j] == x;
        assert x != raw[i];
      }
    }
    forall i | 0 <= i < |raw| && !raw[i].processed && Valid(raw[i])
      ensures raw[i].id in Ids(Loaded(recs))
    {
      assert raw[i] in Loaded(recs);
    }
  }

  /** A run has no effect on the tables, or it flags exactly the pending
      records that pass the older validator, keeps the earlier facts and
      appends one for each such record, with its measurements. */
  lemma PopulateOutcome(d: Db)
    requires AppLoad.DistinctIds(d.tables.raw)
    ensures Aborts(d) ==> LegacyPopulate(d).tables == d.tables
    ensures !Aborts(d) ==>
      var (raw, raw') := (d.tables.raw, LegacyPopulate(d).tables.raw);
      && |raw'| == |raw|
      && (forall i :: 0 <= i < |raw| ==>
            raw'[i] == if !raw[i].processed && Valid(raw[i]) then raw[i].(processed := true) else raw[i])
      && |LegacyPopulate(d).tables.facts| == |d.tables.facts| + |Loaded(Unprocessed(raw))|
      && AppendedFacts(d.tables.facts, LegacyPopulate(d).tables.facts, Runs.ReadingsOf(Valid, Unprocessed(raw)))
  {
    if !Aborts(d) {
      var raw := d.tables.raw;
      assert Marked(raw, {}) == raw;
      BatchOutcome(d, Unprocessed(raw), raw, {});
      BatchReadings(d, Unprocessed(raw));
      assert {} + Ids(Loaded(Unprocessed(raw))) == Ids(Loaded(Unprocessed(raw)));
      MarkedLoaded(raw);
    }
  }

  /** The older fact extractor puts the location id first, so the fact an
      iteration stores has the location's id in `timestamp_id` and the
      minute's id in `location_id`. */
  lemma StoredFactSwapsIds(d: Db, rec: RawRow)
    requires Valid(rec) && LegacyStep(d, rec).Continue?
    ensures LegacyTransform.ExtractLocationData(rec.city, rec.data.value).Ok?
    ensures "dt" in rec.data.value && AppTransform.ExtractTimeData(rec.data.value["dt"]).Ok?
    ensures var e := LegacyStep(d, rec).db.tables;
      var loc := LegacyTransform.ExtractLocationData(rec.city, rec.data.value).value;
      var m := AppTransform.ExtractTimeData(rec.data.value["dt"]).value;
      && LocKey(loc.city, loc.country) in e.locations && m in e.times
      && |e.facts| == |d.tables.facts| + 1
      && e.facts[|d.tables.facts|].timestampId == e.locations[LocKey(loc.city, loc.country)].id
      && e.facts[|d.tables.facts|].locationId == e.times[m]
  {
  }

  /** A record the loop carries through to the time insert. */
  predicate Loads(rec: RawRow) {
    && Valid(rec)
    && LegacyTransform.ExtractLocationData(rec.city, rec.data.value).Ok?
    && "dt" in rec.data.value
    && AppTransform.ExtractTimeData(rec.data.value["dt"]).Ok?
  }

  function MinuteOf(rec: RawRow): Minute
    requires Loads(rec)
  {
    AppTransform.ExtractTimeData(rec.data.value["dt"]).value
  }

  /** `ON CONFLICT DO NOTHING RETURNING` gives no row for a minute already in
      `dim_time`, and `fetchone()[0]` raises: such a record ends the loop;
      when it gets through, it has stored its minute. */
  lemma StoredMinuteAborts(rec: RawRow)
    requires Loads(rec)
    ensures Runs.BlockedBy(LegacyStep, rec, MinuteOf(rec)) && Runs.Stores(LegacyStep, rec, MinuteOf(rec))
  {
  }

  /** Minutes stay in `dim_time` while the loop goes on. */
  lemma StepKeepsMinutes()
    ensures Runs.KeepsMinutes(LegacyStep)
  {
  }

  /** An iteration that does not end the loop hands the rest of the batch on. */
  lemma BatchContinues(d: Db, recs: seq<RawRow>)
    requires recs != [] && LegacyStep(d, recs[0]).Continue?
    ensures LegacyBatch(d, recs) == LegacyBatch(LegacyStep(d, recs[0]).db, recs[1..])
  {
    Runs.RunContinues(LegacyStep, d, recs);
  }

  /** A pending record whose minute is already stored makes every run a
      no-op: the rollback leaves it pending and the minute stored, so the
      next run aborts in the same way. */
  lemma StoredMinuteBlocksEveryRun(d: Db, k: int)
    requires 0 <= k < |Unprocessed(d.tables.raw)|
    requires Loads(Unprocessed(d.tables.raw)[k]) && MinuteOf(Unprocessed(d.tables.raw)[k]) in d.tables.times
    ensures LegacyPopulate(d).tables == d.tables
    ensures Aborts(LegacyPopulate(d))
  {
    var recs := Unprocessed(d.tables.raw);
    StoredMinuteAborts(recs[k]);
    StepKeepsMinutes();
    Runs.BlockedRun(LegacyStep, d, recs, k, MinuteOf(recs[k]));
    Runs.BlockedRun(LegacyStep, LegacyPopulate(d), recs, k, MinuteOf(recs[k]));
  }

  /** Two pending records in the same minute (two cities observed in the
      same minute, say) make every run a no-op: the second one's time insert
      returns no row. */
  lemma SameMinuteBlocksEveryRun(d: Db, i: int, j: int)
    requires 0 <= i < j < |Unprocessed(d.tables.raw)|
    requires var recs := Unprocessed(d.tables.raw);
      Loads(recs[i]) && Loads(recs[j]) && MinuteOf(recs[i]) == MinuteOf(recs[j])
    ensures LegacyPopulate(d).tables == d.tables
    ensures Aborts(LegacyPopulate(d))
  {
    var recs := Unprocessed(d.tables.raw);
    StoredMinuteAborts(recs[i]);
    StoredMinuteAborts(recs[j]);
    StepKeepsMinutes();
    Runs.StoredThenBlockedRun(LegacyStep, d, recs, i, j, MinuteOf(recs[i]));
    Runs.StoredThenBlockedRun(LegacyStep, LegacyPopulate(d), recs, i, j, MinuteOf(recs[i]));
  }

  /** The records that end every run: a NULL payload (`'dt' in None` raises
      in the validator), a `main` or `wind` that is not an object, an
      accepted record whose `sys` or `coord` is not an object (`.get` on it
      raises `AttributeError` in the extractor), and, as the older validator
      has no range check, an accepted integer `dt` outside years 1..9999, on
      which `fromtimestamp` raises. */
  lemma AbortingRecords(rec: RawRow)
    ensures rec.data.None? ==> Runs.AlwaysAborts(LegacyStep, rec)
    ensures rec.data.Some? && RaisesOn(rec.data.value) ==> Runs.AlwaysAborts(LegacyStep, rec)
    ensures (Valid(rec) && LegacyTransform.ExtractLocationData(rec.city, rec.data.value).Raise?)
            ==> Runs.AlwaysAborts(LegacyStep, rec)
    ensures (Valid(rec) && "dt" in rec.data.value && IsInt(rec.data.value["dt"])
             && !ValidTimestamp(IntValue(rec.data.value["dt"]))) ==> Runs.AlwaysAborts(LegacyStep, rec)
  {
  }

  /** One such record among the pending ones and no run ever changes the
      tables: it stays pending and aborts the next run too. */
  lemma AbortingRecordBlocksEveryRun(d: Db, k: int)
    requires 0 <= k < |Unprocessed(d.tables.raw)| && Runs.AlwaysAborts(LegacyStep, Unprocessed(d.tables.raw)[k])
    ensures LegacyPopulate(d).tables == d.tables
    ensures Aborts(LegacyPopulate(d))
  {
    Runs.AbortingRecordRun(LegacyStep, d, Unprocessed(d.tables.raw), k);
    Runs.AbortingRecordRun(LegacyStep, LegacyPopulate(d), Unprocessed(d.tables.raw), k);
  }

  /** A loadable record whose minute is new gets through its iteration. */
  lemma LoadsContinues(d: Db, rec: RawRow)
    requires Loads(rec) && MinuteOf(rec) !in d.tables.times
    ensures LegacyStep(d, rec).Continue?
    ensures var loc := LegacyTransform.ExtractLocationData(rec.city, rec.data.value).value;
      var (d1, locationId) := UpsertLocation(d, loc);
      var (temp, humidity, speed, pressure) := AppTransform.Readings(rec.data.value);
      var e := LegacyStep(d, rec).db.tables;
      && e.raw == MarkProcessed(d.tables.raw, rec.id)
      && e.locations == d.tables.locations[LocKey(loc.city, loc.country) := LocRow(locationId, loc.lat, loc.lon)]
      && e.times == d.tables.times[MinuteOf(rec) := d.next.time]
      && e.facts == d.tables.facts + [FactRow(locationId, d.next.time, temp, humidity, speed, pressure)]
  {
    LegacyValidate.AcceptsIff(rec.data.value);
    assert AppTransform.Measurements(rec.data.value).Ok?;
    InsertRecordOutcome(d, rec);
  }

  /** A city loaded before keeps its location id when its coordinates are
      upserted again, but the upsert still draws a sequence value; from then
      on the two sequences stand apart. The next observation of that city
      in a new minute is stored as a fact whose `location_id` is the new
      minute's id, which no location has: the run commits a fact that
      breaks referential integrity. */
  lemma SwappedIdsBreakIntegrity(d: Db)
    requires WellFormed(d) && d.next.location <= d.next.time
    requires |Unprocessed(d.tables.raw)| == 1 && Loads(Unprocessed(d.tables.raw)[0])
    requires MinuteOf(Unprocessed(d.tables.raw)[0]) !in d.tables.times
    requires var rec := Unprocessed(d.tables.raw)[0];
      var loc := LegacyTransform.ExtractLocationData(rec.city, rec.data.value).value;
      LocKey(loc.city, loc.country) in d.tables.locations
    ensures !Aborts(d)
    ensures !RefIntegrity(LegacyPopulate(d).tables)
  {
    var recs := Unprocessed(d.tables.raw);
    var rec := recs[0];
    LoadsContinues(d, rec);
    var e := LegacyStep(d, rec).db;
    BatchContinues(d, recs);
    assert recs[1..] == [];
    assert LegacyPopulate(d) == e;
    var loc := LegacyTransform.ExtractLocationData(rec.city, rec.data.value).value;
    var key := LocKey(loc.city, loc.country);
    assert e.tables.locations[key].id == d.tables.locations[key].id by {
      var (d1, id) := UpsertLocation(d, loc);
      assert LocationUpsert(d, rec.city, rec.data.value) == Ok((d1, id));
    }
    assert d.next.time !in LocationIds(e.tables) by {
      forall r | r in e.tables.locations.Values ensures r.id < d.next.location {
        var k :| k in e.tables.locations && e.tables.locations[k] == r;
        assert k in d.tables.locations;
      }
    }
    assert e.tables.facts[|d.tables.facts|].locationId !in LocationIds(e.tables);
  }

  // ---------------------------------------------------------------------
  // The insert steps as evidently intended
  // ---------------------------------------------------------------------

  /** `insert_time_data` with the conflict resolved to the existing row. */
  function TimeResolve(d: Db, ts: Json): (r: (Db, Result<int>))
    ensures r.1.Ok? <==> AppTransform.ExtractTimeData(ts).Ok?
    ensures r.1.Ok? ==> r.0 == ResolveTime(d, AppTransform.ExtractTimeData(ts).value).0
    ensures r.1.Ok? ==> r.1.value == r.0.tables.times[AppTransform.ExtractTimeData(ts).value]
    ensures r.1.Raise? ==> r.0 == d
  {
    match AppTransform.ExtractTimeData(ts)
    case Raise(e) => (d, Raise(e))
    case Ok(m) =>
      var (d', id) := ResolveTime(d, m);
      (d', Ok(id))
  }

  /** The inserts for one record with both corrections: the minute's id is
      resolved instead of raising, and the fact tuple has the time id first. */
  function InsertRecordCorrected(d: Db, rec: RawRow): Step {
    if rec.data.None? then Abort(d)
    else
      var data := rec.data.value;
      match LocationUpsert(d, rec.city, data)
      case Raise(_) => Abort(d)
      case Ok((d1, locationId)) =>
        if "dt" !in data then Abort(d1)
        else
          var (d2, time) := TimeResolve(d1, data["dt"]);
          match time
          case Raise(_) => Abort(d2)
          case Ok(timeId) =>
            match AppLoad.FactInsert(d2, locationId, timeId, data)
            case Raise(_) => Abort(d2)
            case Ok(d3) => Continue(SetProcessed(d3, rec.id))
  }

  /** With the corrections every loadable record is stored, whether or not
      its minute is already in `dim_time`, and its fact names its own
      location and minute, so referential integrity is kept. */
  lemma CorrectedLoadsEveryRecord(d: Db, rec: RawRow)
    requires Loads(rec)
    ensures InsertRecordCorrected(d, rec).Continue?
    ensures var e := InsertRecordCorrected(d, rec).db.tables;
      var loc := LegacyTransform.ExtractLocationData(rec.city, rec.data.value).value;
      && LocKey(loc.city, loc.country) in e.locations && MinuteOf(rec) in e.times
      && |e.facts| == |d.tables.facts| + 1
      && e.facts[|d.tables.facts|].locationId == e.locations[LocKey(loc.city, loc.country)].id
      && e.facts[|d.tables.facts|].timestampId == e.times[MinuteOf(rec)]
    ensures RefIntegrity(d.tables) ==> RefIntegrity(InsertRecordCorrected(d, rec).db.tables)
  {
    var data := rec.data.value;
    LegacyValidate.AcceptsIff(data);
    var loc := LegacyTransform.ExtractLocationData(rec.city, data).value;
    var (d1, locationId) := UpsertLocation(d, loc);
    var (d2, time) := TimeResolve(d1, data["dt"]);
    assert AppTransform.Measurements(data).Ok?;
    var d3 := AppLoad.FactInsert(d2, locationId, time.value, data).value;
    assert d3.tables.facts == d.tables.facts + [d3.tables.facts[|d.tables.facts|]];
    if RefIntegrity(d.tables) {
      RefIntegrityGrows(d.tables, d1.tables);
      RefIntegrityGrows(d1.tables, d2.tables);
      assert locationId in LocationIds(d2.tables);
      assert time.value in d2.tables.times.Values;
    }
  }
}
