/** `populate_data_warehouse` of the application package: each unprocessed
    raw record is validated, resolved to a location and a minute, and stored
    as a fact; a record that fails is skipped and left unprocessed. A
    `KeyError` rolls back the whole transaction so far, any other exception
    in the insert steps is swallowed, and the work is committed at the end. */
module AppLoad {
  import opened Json
  import opened UtcTime
  import opened Warehouse
  import opened Store
  import opened Checks
  import AppValidate
  import AppTransform
  import Samples

  // ---------------------------------------------------------------------
  // The insert steps, as functions of the session state
  // ---------------------------------------------------------------------

  /** `insert_location_data(cursor, city, data)`: `None`, with nothing written,
      when extraction gives `None`; otherwise the upsert and its id. */
  function LocationUpsert(d: Db, city: string, data: Obj): (r: Option<(Db, int)>)
    ensures r.None? <==> AppTransform.ExtractLocationData(city, data).None?
    ensures r.Some? ==> r.value == UpsertLocation(d, AppTransform.ExtractLocationData(city, data).value)
  {
    match AppTransform.ExtractLocationData(city, data)
    case None => None
    case Some(loc) => Some(UpsertLocation(d, loc))
  }

  /** `insert_time_data(cursor, timestamp)`: the id of a newly inserted
      minute. It raises when the timestamp does not convert (nothing is
      executed) and when the minute already exists (`fetchone()` is `None`),
      after the INSERT has drawn a sequence value. */
  function TimeInsert(d: Db, ts: Json): (r: (Db, Result<int>))
    ensures r.1.Ok? <==> AppTransform.ExtractTimeData(ts).Ok? && AppTransform.ExtractTimeData(ts).value !in d.tables.times
    ensures r.1.Ok? ==> r.0.tables == d.tables.(times := d.tables.times[AppTransform.ExtractTimeData(ts).value := r.1.value])
    ensures r.1.Raise? ==> r.0.tables == d.tables
    ensures d.tables.times.Values <= r.0.tables.times.Values
    ensures r.1.Ok? ==> r.1.value == d.next.time && r.1.value in r.0.tables.times.Values
    ensures WellFormed(d) ==> WellFormed(r.0)
    ensures SerialsAtLeast(r.0.next, d.next)
  {
    match AppTransform.ExtractTimeData(ts)
    case Raise(e) => (d, Raise(e))
    case Ok(m) =>
      var (d', id) := InsertTime(d, m);
      if id.None? then (d', Raise(TypeError)) else (d', Ok(id.value))
  }

  /** `insert_fact_data(cursor, location_id, time_id, data)`: one appended row,
      unless reading the measurements raises. */
  function FactInsert(d: Db, locationId: int, timeId: int, data: Obj): (r: Result<Db>)
    ensures r.Raise? <==> AppTransform.Measurements(data).Raise?
    ensures r.Ok? ==> r.value == InsertFact(d, AppTransform.ExtractFactData(locationId, timeId, data).value)
  {
    match AppTransform.ExtractFactData(locationId, timeId, data)
    case Raise(e) => Raise(e)
    case Ok(t) => Ok(InsertFact(d, t))
  }

  // ---------------------------------------------------------------------
  // The loop, as functions
  // ---------------------------------------------------------------------

  /** The `try` block for a record that passed validation; every exception
      in it is caught, so the loop always goes on. `snap` is the state
      `conn.rollback()` returns to. */
  function InsertRecord(d: Db, snap: Tables, rec: RawRow, data: Obj): Db {
    match LocationUpsert(d, rec.city, data)
    case None => d
    case Some((d1, locationId)) =>
      if "dt" !in data then Rollback(d1, snap)
      else
        var (d2, time) := TimeInsert(d1, data["dt"]);
        match time
        case Raise(_) => d2
        case Ok(timeId) =>
          match FactInsert(d2, locationId, timeId, data)
          case Raise(_) => d2
          case Ok(d3) => SetProcessed(d3, rec.id)
  }

  /** One iteration of the loop over the selected records. */
  function AppStep(d: Db, snap: Tables, rec: RawRow): Step {
    if rec.data.None? then Continue(d)
    else
      match AppValidate.Validation(rec.data.value)
      case Raises => Abort(d)
      case Returns(valid, _) =>
        if !valid then Continue(d) else Continue(InsertRecord(d, snap, rec, rec.data.value))
  }

  /** The loop over `recs`, stopping at the first escaping exception. */
  function AppBatch(d: Db, snap: Tables, recs: seq<RawRow>): Step
    decreases |recs|
  {
    if recs == [] then Continue(d)
    else match AppStep(d, snap, recs[0])
      case Abort(e) => Abort(e)
      case Continue(e) => AppBatch(e, snap, recs[1..])
  }

  /** A whole run on a fresh connection: the selected records are processed
      and committed; an escaping exception rolls everything back. */
  function AppPopulate(d: Db): Db {
    match AppBatch(d, d.tables, Unprocessed(d.tables.raw))
    case Abort(e) => Rollback(e, d.tables)
    case Continue(e) => e
  }

  // ---------------------------------------------------------------------
  // The code
  // ---------------------------------------------------------------------

  method InsertLocationData(db: Database, city: string, data: Obj) returns (locationId: Option<int>)
    modifies db
    ensures LocationUpsert(old(db.State()), city, data) == if locationId.None? then None else Some((db.State(), locationId.value))
    ensures locationId.None? ==> db.State() == old(db.State())
    ensures db.committed == old(db.committed)
  {
    var location := AppTransform.ExtractLocationData(city, data);
    if location.None? {
      return None;
    }
    var id := db.UpsertLocation(location.value);
    return Some(id);
  }

  method InsertTimeData(db: Database, ts: Json) returns (timeId: Result<int>)
    modifies db
    ensures TimeInsert(old(db.State()), ts) == (db.State(), timeId)
    ensures db.committed == old(db.committed)
  {
    var time := AppTransform.ExtractTimeData(ts);
    if time.Raise? {
      return Raise(time.exc);
    }
    var row := db.InsertTime(time.value);
    if row.None? {
      return Raise(TypeError);
    }
    return Ok(row.value);
  }

  /** Returns whether the INSERT was executed (`false`: extraction raised). */
  method InsertFactData(db: Database, locationId: int, timeId: int, data: Obj) returns (inserted: bool)
    modifies db
    ensures var r := FactInsert(old(db.State()), locationId, timeId, data);
      inserted == r.Ok? && db.State() == (if inserted then r.value else old(db.State()))
    ensures db.committed == old(db.committed)
  {
    var fact := AppTransform.ExtractFactData(locationId, timeId, data);
    if fact.Raise? {
      return false;
    }
    db.InsertFact(fact.value);
    return true;
  }

  /** The body of the loop; `aborted` means an exception escapes it. */
  method ProcessRecord(db: Database, rec: RawRow) returns (aborted: bool)
    modifies db
    ensures AppStep(old(db.State()), old(db.committed), rec) == if aborted then Abort(db.State()) else Continue(db.State())
    ensures db.committed == old(db.committed)
  {
    if rec.data.None? {
      return false;
    }
    var data := rec.data.value;
    var verdict := AppValidate.ValidateWeatherData(data);
    if verdict.Raises? {
      return true;
    }
    if !verdict.valid {
      return false;
    }
    TryInsert(db, rec, data);
    return false;
  }

  /** The `try` block with its two handlers. */
  method TryInsert(db: Database, rec: RawRow, data: Obj)
    modifies db
    ensures db.State() == InsertRecord(old(db.State()), old(db.committed), rec, data)
    ensures db.committed == old(db.committed)
  {
    var locationId := InsertLocationData(db, rec.city, data);
    if locationId.None? {
      return;
    }
    if "dt" !in data {
      db.Rollback();
      return;
    }
    var timeId := InsertTimeData(db, data["dt"]);
    if timeId.Raise? {
      return;
    }
    var inserted := InsertFactData(db, locationId.value, timeId.value, data);
    if !inserted {
      return;
    }
    db.SetProcessed(rec.id);
  }

  /** `populate_data_warehouse()` on a fresh connection. */
  method PopulateDataWarehouse(db: Database)
    requires db.Idle()
    modifies db
    ensures db.State() == AppPopulate(old(db.State())) && db.Idle()
  {
    ghost var start := db.State();
    var records := Unprocessed(db.raw);
    for i := 0 to |records|
      invariant db.committed == start.tables
      invariant AppBatch(db.State(), start.tables, records[i..]) == AppBatch(start, start.tables, records)
    {
      assert records[i..][1..] == records[i + 1..];
      var aborted := ProcessRecord(db, records[i]);
      if aborted {
        db.Rollback();
        return;
      }
    }
    db.Commit();
  }

  // ---------------------------------------------------------------------
  // Properties of a run
  // ---------------------------------------------------------------------

  /** A record the loop can carry through to the fact insert: a payload
      that passes validation and yields a location. */
  predicate Ready(rec: RawRow) {
    && rec.data.Some? && AppValidate.Accepts(rec.data.value)
    && AppTransform.ExtractLocationData(rec.city, rec.data.value).Some?
  }

  /** A ready record has an integer `dt` that converts, and measurements that can be read. */
  lemma ReadyConverts(rec: RawRow)
    requires Ready(rec)
    ensures "dt" in rec.data.value && AppTransform.ExtractTimeData(rec.data.value["dt"]).Ok?
    ensures AppTransform.Measurements(rec.data.value).Ok?
  {
    AppValidate.AcceptsIff(rec.data.value);
    assert AppTransform.Seconds(rec.data.value["dt"]) == IntValue(rec.data.value["dt"]);
  }

  /** The UTC minute of a ready record. */
  function MinuteOf(rec: RawRow): Minute
    requires Ready(rec)
  {
    ReadyConverts(rec);
    AppTransform.ExtractTimeData(rec.data.value["dt"]).value
  }

  /** The `dim_location` key of a ready record. */
  function KeyOf(rec: RawRow): LocKey
    requires Ready(rec)
  {
    var loc := AppTransform.ExtractLocationData(rec.city, rec.data.value).value;
    LocKey(loc.city, loc.country)
  }

  /** The tables hold the record's minute and location, and a fact that
      names both by their ids and carries the record's measurements. */
  predicate Recorded(t: Tables, rec: RawRow)
    requires Ready(rec)
  {
    var (temp, humidity, speed, pressure) := AppTransform.Readings(rec.data.value);
    && MinuteOf(rec) in t.times && KeyOf(rec) in t.locations
    && FactRow(t.times[MinuteOf(rec)], t.locations[KeyOf(rec)].id, temp, humidity, speed, pressure) in t.facts
  }

  /** A ready record whose minute is new gets through the whole `try` block:
      the location is upserted, the minute gets the next time id, one fact is
      appended with the time id first and the location id second, the record
      is flagged, and nothing else changes. */
  lemma ReadyStepStores(d: Db, snap: Tables, rec: RawRow)
    requires Ready(rec) && MinuteOf(rec) !in d.tables.times
    ensures AppStep(d, snap, rec).Continue?
    ensures var (d1, locationId) := UpsertLocation(d, AppTransform.ExtractLocationData(rec.city, rec.data.value).value);
      var (temp, humidity, speed, pressure) := AppTransform.Readings(rec.data.value);
      AppStep(d, snap, rec).db == Db(
        Tables(MarkProcessed(d.tables.raw, rec.id), d1.tables.locations,
               d.tables.times[MinuteOf(rec) := d.next.time],
               d.tables.facts + [FactRow(d.next.time, locationId, temp, humidity, speed, pressure)]),
        d.next.(location := d.next.location + 1, time := d.next.time + 1))
    ensures Recorded(AppStep(d, snap, rec).db.tables, rec)
  {
    ReadyConverts(rec);
  }

  /** A city stored before, observed in a new minute: the fact names the
      new minute's id and the city's stored location id, each in its own
      column, and referential integrity survives. This is the case in which
      the older loaders store the two ids swapped. */
  lemma StoredCityNewMinute(d: Db, snap: Tables, rec: RawRow)
    requires RefIntegrity(d.tables) && RefIntegrity(snap)
    requires Ready(rec) && MinuteOf(rec) !in d.tables.times && KeyOf(rec) in d.tables.locations
    ensures AppStep(d, snap, rec).Continue?
    ensures var (temp, humidity, speed, pressure) := AppTransform.Readings(rec.data.value);
      AppStep(d, snap, rec).db.tables.facts == d.tables.facts
        + [FactRow(d.next.time, d.tables.locations[KeyOf(rec)].id, temp, humidity, speed, pressure)]
    ensures RefIntegrity(AppStep(d, snap, rec).db.tables)
  {
    ReadyStepStores(d, snap, rec);
    StepRefIntegrity(d, snap, rec);
  }

  /** The records the loop skips without touching the database: no payload,
      a payload the validator rejects, or no location. */
  predicate Skipped(rec: RawRow) {
    || rec.data.None?
    || (var v := AppValidate.Validation(rec.data.value);
        v.Returns? && (!v.valid || AppTransform.ExtractLocationData(rec.city, rec.data.value).None?))
  }

  /** A payload that passes validation has a `dt`, so the `KeyError` handler
      and its rollback are never reached: the step does not depend on the
      snapshot. */
  lemma SnapshotUnused(d: Db, s1: Tables, s2: Tables, rec: RawRow)
    ensures AppStep(d, s1, rec) == AppStep(d, s2, rec)
  {
    if rec.data.Some? {
      AppValidate.AcceptsIff(rec.data.value);
    }
  }

  /** `t2` keeps the ids of every minute and location of `t1`, and every fact of `t1`. */
  predicate Grows(t1: Tables, t2: Tables) {
    && (forall m :: m in t1.times ==> m in t2.times && t2.times[m] == t1.times[m])
    && (forall k :: k in t1.locations ==> k in t2.locations && t2.locations[k].id == t1.locations[k].id)
    && (forall f :: f in t1.facts ==> f in t2.facts)
  }

  lemma GrowsTrans(t1: Tables, t2: Tables, t3: Tables)
    requires Grows(t1, t2) && Grows(t2, t3)
    ensures Grows(t1, t3)
  {
  }

  lemma RecordedGrows(t1: Tables, t2: Tables, rec: RawRow)
    requires Ready(rec) && Recorded(t1, rec) && Grows(t1, t2)
    ensures Recorded(t2, rec)
  {
  }

  /** Every row with that id is flagged. */
  predicate Flagged(raw: seq<RawRow>, id: int) {
    forall i :: 0 <= i < |raw| && raw[i].id == id ==> raw[i].processed
  }

  lemma FlaggedKept(raw: seq<RawRow>, raw': seq<RawRow>, id: int)
    requires Flagged(raw, id) && Progressed(raw, raw')
    ensures Flagged(raw', id)
  {
    forall i | 0 <= i < |raw'| && raw'[i].id == id ensures raw'[i].processed {
      assert raw'[i] == raw[i] || raw'[i] == raw[i].(processed := true);
    }
  }

  /** What one iteration does: the dimensions and facts only grow, flags
      only go on, and `weather_raw` is either unchanged or has the processed
      flag of a ready record whose minute was new; the rollback of the
      `KeyError` handler is never reached. */
  lemma StepEffect(d: Db, snap: Tables, rec: RawRow)
    ensures var e := AppStep(d, snap, rec).db.tables;
      && Grows(d.tables, e) && Progressed(d.tables.raw, e.raw)
      && (|| e.raw == d.tables.raw
          || (Ready(rec) && MinuteOf(rec) !in d.tables.times && e.raw == MarkProcessed(d.tables.raw, rec.id)))
  {
    if rec.data.Some? && AppValidate.Validation(rec.data.value).Returns? && AppValidate.Validation(rec.data.value).valid {
      var data := rec.data.value;
      assert AppValidate.Accepts(data);
      if AppTransform.ExtractLocationData(rec.city, data).Some? {
        ReadyConverts(rec);
        if MinuteOf(rec) !in d.tables.times {
          ReadyStepStores(d, snap, rec);
        } else {
          TimeConflictKeepsLocation(d, snap, rec);
        }
      }
    }
  }

  /** Which rows a run may have flagged so far: only records that were
      ready and are recorded in `t`, and nothing else about `weather_raw`
      changes. */
  predicate FlagsFrom(start: seq<RawRow>, t: Tables) {
    && Progressed(start, t.raw)
    && forall i :: 0 <= i < |start| && t.raw[i].processed && !start[i].processed ==> Ready(start[i]) && Recorded(t, start[i])
  }

  predicate DistinctIds(raw: seq<RawRow>) {
    forall i, j :: 0 <= i < j < |raw| ==> raw[i].id != raw[j].id
  }

  /** An iteration keeps `FlagsFrom`. */
  lemma StepFlags(d: Db, snap: Tables, rec: RawRow, start: seq<RawRow>)
    requires FlagsFrom(start, d.tables) && DistinctIds(start) && rec in start
    ensures FlagsFrom(start, AppStep(d, snap, rec).db.tables)
  {
    var t, e := d.tables, AppStep(d, snap, rec).db.tables;
    StepEffect(d, snap, rec);
    ProgressedTrans(start, t.raw, e.raw);
    if e.raw == t.raw {
      forall i | 0 <= i < |start| && e.raw[i].processed && !start[i].processed
        ensures Ready(start[i]) && Recorded(e, start[i])
      {
        RecordedGrows(t, e, start[i]);
      }
    } else {
      ReadyStepStores(d, snap, rec);
      var k :| 0 <= k < |start| && start[k] == rec;
      forall i | 0 <= i < |start| && e.raw[i].processed && !start[i].processed
        ensures Ready(start[i]) && Recorded(e, start[i])
      {
        if t.raw[i].id == rec.id {
          assert t.raw[i].id == start[i].id;
          assert i == k;
        } else {
          RecordedGrows(t, e, start[i]);
        }
      }
    }
  }

  lemma {:induction false} BatchFlags(d: Db, snap: Tables, recs: seq<RawRow>, start: seq<RawRow>)
    requires FlagsFrom(start, d.tables)
    requires DistinctIds(start) && forall r :: r in recs ==> r in start
    ensures FlagsFrom(start, AppBatch(d, snap, recs).db.tables)
    decreases |recs|
  {
    if recs != [] {
      StepFlags(d, snap, recs[0], start);
      match AppStep(d, snap, recs[0])
      case Abort(e) =>
      case Continue(e) =>
        assert forall r :: r in recs[1..] ==> r in recs;
        BatchFlags(e, snap, recs[1..], start);
    }
  }

  /** Over a whole loop the dimensions and facts only grow and flags only go on. */
  lemma {:induction false} BatchGrows(d: Db, snap: Tables, recs: seq<RawRow>)
    ensures Grows(d.tables, AppBatch(d, snap, recs).db.tables)
    ensures Progressed(d.tables.raw, AppBatch(d, snap, recs).db.tables.raw)
    decreases |recs|
  {
    if recs != [] {
      StepEffect(d, snap, recs[0]);
      match AppStep(d, snap, recs[0])
      case Abort(e) =>
      case Continue(e) =>
        BatchGrows(e, snap, recs[1..]);
        GrowsTrans(d.tables, e.tables, AppBatch(d, snap, recs).db.tables);
        ProgressedTrans(d.tables.raw, e.tables.raw, AppBatch(d, snap, recs).db.tables.raw);
    }
  }

  /** After a loop that ends without an exception, every ready record of the
      batch is flagged, or its minute is in `dim_time` (the time insert
      returned no row for it). */
  lemma {:induction false} BatchPending(d: Db, snap: Tables, recs: seq<RawRow>)
    requires AppBatch(d, snap, recs).Continue?
    ensures var e := AppBatch(d, snap, recs).db.tables;
      forall r :: r in recs && Ready(r) ==> Flagged(e.raw, r.id) || MinuteOf(r) in e.times
    decreases |recs|
  {
    if recs != [] {
      var r0 := recs[0];
      var e1 := AppStep(d, snap, r0).db;
      var e := AppBatch(d, snap, recs).db.tables;
      assert AppStep(d, snap, r0).Continue? && e == AppBatch(e1, snap, recs[1..]).db.tables;
      BatchPending(e1, snap, recs[1..]);
      if Ready(r0) {
        PendingHead(d, snap, r0, recs[1..]);
      }
      assert forall r :: r in recs ==> r == r0 || r in recs[1..];
    }
  }

  /** The first record of a loop that goes on to the end is flagged at the
      end, or its minute is in `dim_time`. */
  lemma PendingHead(d: Db, snap: Tables, r0: RawRow, rest: seq<RawRow>)
    requires Ready(r0) && AppStep(d, snap, r0).Continue?
    ensures var e := AppBatch(AppStep(d, snap, r0).db, snap, rest).db.tables;
      Flagged(e.raw, r0.id) || MinuteOf(r0) in e.times
  {
    var e1 := AppStep(d, snap, r0).db;
    var e := AppBatch(e1, snap, rest).db.tables;
    StepEffect(d, snap, r0);
    BatchGrows(e1, snap, rest);
    if MinuteOf(r0) !in d.tables.times {
      ReadyStepStores(d, snap, r0);
      FlaggedKept(e1.tables.raw, e.raw, r0.id);
    }
  }

  /** A run only switches processed flags on, never off, and changes nothing
      else about `weather_raw`. A record it flags passed validation and had a
      location, and its minute, its location and a fact naming both with its
      measurements are stored. A run that commits leaves a ready record
      pending only when its minute is in `dim_time`. */
  lemma PopulateFlags(d: Db)
    requires DistinctIds(d.tables.raw)
    ensures Progressed(d.tables.raw, AppPopulate(d).tables.raw)
    ensures forall i :: 0 <= i < |d.tables.raw| && AppPopulate(d).tables.raw[i].processed && !d.tables.raw[i].processed
              ==> Ready(d.tables.raw[i]) && Recorded(AppPopulate(d).tables, d.tables.raw[i])
    ensures AppBatch(d, d.tables, Unprocessed(d.tables.raw)).Continue? ==>
      forall i :: 0 <= i < |d.tables.raw| && !d.tables.raw[i].processed && Ready(d.tables.raw[i])
                  && !AppPopulate(d).tables.raw[i].processed
        ==> MinuteOf(d.tables.raw[i]) in AppPopulate(d).tables.times
  {
    var raw := d.tables.raw;
    assert FlagsFrom(raw, d.tables);
    BatchFlags(d, d.tables, Unprocessed(raw), raw);
    if AppBatch(d, d.tables, Unprocessed(raw)).Continue? {
      BatchPending(d, d.tables, Unprocessed(raw));
      BatchGrows(d, d.tables, Unprocessed(raw));
      var e := AppPopulate(d).tables;
      forall i | 0 <= i < |raw| && !raw[i].processed && Ready(raw[i]) && !e.raw[i].processed
        ensures MinuteOf(raw[i]) in e.times
      {
        assert raw[i] in Unprocessed(raw);
        assert e.raw[i].id == raw[i].id;
      }
    }
  }

  /** Each iteration keeps every fact pointing at an existing location and minute. */
  lemma StepRefIntegrity(d: Db, snap: Tables, rec: RawRow)
    requires RefIntegrity(d.tables) && RefIntegrity(snap)
    ensures RefIntegrity(AppStep(d, snap, rec).db.tables)
  {
    if rec.data.Some? {
      InsertRefIntegrity(d, snap, rec, rec.data.value);
    }
  }

  lemma InsertRefIntegrity(d: Db, snap: Tables, rec: RawRow, data: Obj)
    requires RefIntegrity(d.tables) && RefIntegrity(snap)
    ensures RefIntegrity(InsertRecord(d, snap, rec, data).tables)
  {
    match LocationUpsert(d, rec.city, data)
    case None =>
    case Some((d1, locationId)) =>
      RefIntegrityGrows(d.tables, d1.tables);
      if "dt" in data {
        var (d2, time) := TimeInsert(d1, data["dt"]);
        if time.Ok? {
          RefIntegrityGrows(d1.tables, d2.tables);
          assert LocationIds(d2.tables) == LocationIds(d1.tables);
          var fact := FactInsert(d2, locationId, time.value, data);
          if fact.Ok? {
            var d3 := fact.value;
            var row := BindFact(AppTransform.ExtractFactData(locationId, time.value, data).value);
            assert row.timestampId == time.value && row.locationId == locationId;
            assert d3.tables.facts == d2.tables.facts + [row];
            RefIntegrityGrows(d3.tables, SetProcessed(d3, rec.id).tables);
          }
        }
      }
  }

  lemma {:induction false} BatchRefIntegrity(d: Db, snap: Tables, recs: seq<RawRow>)
    requires RefIntegrity(d.tables) && RefIntegrity(snap)
    ensures RefIntegrity(AppBatch(d, snap, recs).db.tables)
    decreases |recs|
  {
    if recs != [] {
      StepRefIntegrity(d, snap, recs[0]);
      match AppStep(d, snap, recs[0])
      case Abort(e) =>
      case Continue(e) => BatchRefIntegrity(e, snap, recs[1..]);
    }
  }

  /** A run keeps referential integrity: every stored fact's `location_id`
      and `timestamp_id` name existing dimension rows. */
  lemma PopulateRefIntegrity(d: Db)
    requires RefIntegrity(d.tables)
    ensures RefIntegrity(AppPopulate(d).tables)
  {
    BatchRefIntegrity(d, d.tables, Unprocessed(d.tables.raw));
  }

  /** Each iteration keeps ids unique and drawn from their sequences, also
      across a rollback, because the sequence values are not given back. */
  lemma StepWellFormed(d: Db, snap: Db, rec: RawRow)
    requires WellFormed(d) && WellFormed(snap) && SerialsAtLeast(d.next, snap.next)
    ensures WellFormed(AppStep(d, snap.tables, rec).db)
    ensures SerialsAtLeast(AppStep(d, snap.tables, rec).db.next, d.next)
  {
    if rec.data.Some? && AppValidate.Validation(rec.data.value).Returns? && AppValidate.Validation(rec.data.value).valid {
      assert AppStep(d, snap.tables, rec).db == InsertRecord(d, snap.tables, rec, rec.data.value);
      InsertWellFormed(d, snap, rec, rec.data.value);
    } else {
      assert AppStep(d, snap.tables, rec).db == d;
    }
  }

  lemma InsertWellFormed(d: Db, snap: Db, rec: RawRow, data: Obj)
    requires WellFormed(d) && WellFormed(snap) && SerialsAtLeast(d.next, snap.next)
    ensures WellFormed(InsertRecord(d, snap.tables, rec, data))
    ensures SerialsAtLeast(InsertRecord(d, snap.tables, rec, data).next, d.next)
  {
    match LocationUpsert(d, rec.city, data)
    case None =>
    case Some((d1, locationId)) =>
      if "dt" !in data {
        RollbackKeepsWellFormed(d1, snap);
      } else {
        var (d2, time) := TimeInsert(d1, data["dt"]);
        if time.Ok? {
          var fact := FactInsert(d2, locationId, time.value, data);
          if fact.Ok? {
            assert WellFormed(SetProcessed(fact.value, rec.id));
          }
        }
      }
  }

  lemma {:induction false} BatchWellFormed(d: Db, snap: Db, recs: seq<RawRow>)
    requires WellFormed(d) && WellFormed(snap) && SerialsAtLeast(d.next, snap.next)
    ensures WellFormed(AppBatch(d, snap.tables, recs).db)
    ensures SerialsAtLeast(AppBatch(d, snap.tables, recs).db.next, d.next)
    decreases |recs|
  {
    if recs != [] {
      StepWellFormed(d, snap, recs[0]);
      match AppStep(d, snap.tables, recs[0])
      case Abort(e) =>
      case Continue(e) => BatchWellFormed(e, snap, recs[1..]);
    }
  }

  /** A run keeps every surrogate key unique and below its sequence. */
  lemma PopulateWellFormed(d: Db)
    requires WellFormed(d)
    ensures WellFormed(AppPopulate(d))
  {
    BatchWellFormed(d, d, Unprocessed(d.tables.raw));
    RollbackKeepsWellFormed(AppBatch(d, d.tables, Unprocessed(d.tables.raw)).db, d);
  }

  /** A ready record whose minute is already in `dim_time` is left
      unprocessed, but its location upsert stays in the transaction. */
  lemma TimeConflictKeepsLocation(d: Db, snap: Tables, rec: RawRow)
    requires Ready(rec)
    requires AppTransform.ExtractTimeData(rec.data.value["dt"]).Ok? ==>
      AppTransform.ExtractTimeData(rec.data.value["dt"]).value in d.tables.times
    ensures "dt" in rec.data.value
    ensures AppStep(d, snap, rec).Continue?
    ensures AppStep(d, snap, rec).db.tables
         == UpsertLocation(d, AppTransform.ExtractLocationData(rec.city, rec.data.value).value).0.tables
  {
    AppValidate.AcceptsIff(rec.data.value);
  }

  /** A record whose payload makes the validator raise ends the loop. */
  lemma {:induction false} RaisingRecordAborts(d: Db, snap: Tables, recs: seq<RawRow>, k: int)
    requires 0 <= k < |recs| && recs[k].data.Some? && AppValidate.Validation(recs[k].data.value).Raises?
    ensures AppBatch(d, snap, recs).Abort?
    decreases k
  {
    if k > 0 {
      match AppStep(d, snap, recs[0])
      case Abort(e) =>
      case Continue(e) => RaisingRecordAborts(e, snap, recs[1..], k - 1);
    }
  }

  /** One raising payload among the selected records (a `main` or `wind`
      that is not an object) and the run has no effect at all. */
  lemma RaisingRecordUndoesRun(d: Db, k: int)
    requires 0 <= k < |Unprocessed(d.tables.raw)|
    requires Unprocessed(d.tables.raw)[k].data.Some?
    requires AppValidate.Validation(Unprocessed(d.tables.raw)[k].data.value).Raises?
    ensures AppPopulate(d).tables == d.tables
  {
    RaisingRecordAborts(d, d.tables, Unprocessed(d.tables.raw), k);
  }

  /** Skipped records are isolated: dropping one from the batch changes nothing. */
  lemma {:induction false} SkippedRecordInert(d: Db, snap: Tables, recs: seq<RawRow>, k: int)
    requires 0 <= k < |recs| && Skipped(recs[k])
    ensures AppBatch(d, snap, recs) == AppBatch(d, snap, recs[..k] + recs[k + 1..])
    decreases k
  {
    if k == 0 {
      assert recs[..0] + recs[1..] == recs[1..];
    } else {
      var rest := recs[..k] + recs[k + 1..];
      assert rest[0] == recs[0] && rest[1..] == recs[1..][..k - 1] + recs[1..][k..];
      match AppStep(d, snap, recs[0])
      case Abort(e) =>
      case Continue(e) => SkippedRecordInert(e, snap, recs[1..], k - 1);
    }
  }

  /** A run over a single pending record is that record's iteration. */
  lemma SingleRecordRun(d: Db, rec: RawRow)
    requires d.tables.raw == [rec] && !rec.processed && AppStep(d, d.tables, rec).Continue?
    ensures AppPopulate(d) == AppStep(d, d.tables, rec).db
  {
    var recs := Unprocessed(d.tables.raw);
    assert recs == [rec] by {
      assert d.tables.raw[0] == rec && d.tables.raw[1..] == [];
      assert Unprocessed(d.tables.raw[1..]) == [];
      assert [rec] + [] == [rec];
    }
    var e := AppStep(d, d.tables, rec).db;
    assert recs[0] == rec && recs[1..] == [];
    assert AppBatch(e, d.tables, []) == Continue(e);
    assert AppBatch(d, d.tables, recs) == Continue(e);
  }

  /** A ready record that is the only row of an empty warehouse is stored with
      the first location id and the first time id. */
  lemma FreshStep(d: Db, rec: RawRow)
    requires Ready(rec) && d.tables == Tables([rec], map[], map[], [])
    ensures AppStep(d, d.tables, rec).Continue?
    ensures var loc := AppTransform.ExtractLocationData(rec.city, rec.data.value).value;
      var (temp, humidity, speed, pressure) := AppTransform.Readings(rec.data.value);
      AppStep(d, d.tables, rec).db.tables == Tables(
        [rec.(processed := true)],
        map[KeyOf(rec) := LocRow(d.next.location, loc.lat, loc.lon)],
        map[MinuteOf(rec) := d.next.time],
        [FactRow(d.next.time, d.next.location, temp, humidity, speed, pressure)])
  {
    ReadyStepStores(d, d.tables, rec);
    assert MarkProcessed([rec], rec.id) == [rec.(processed := true)];
  }

  /** The London observation on a fresh warehouse: one run stores the
      location, the minute and one fact naming both, and flags the record. */
  lemma LondonRun(d: Db)
    requires d == Db(Tables([RawRow(1, "London", Some(Samples.London), false)], map[], map[], []), Serials(2, 1, 1))
    ensures AppPopulate(d).tables == Tables(
      [RawRow(1, "London", Some(Samples.London), true)],
      map[LocKey("London", JStr("GB")) := LocRow(1, JReal(51.5), JReal(-0.1))],
      map[Minute(2023, 11, 14, 22, 13) := 1],
      [FactRow(1, 1, JReal(15.2), JInt(80), JReal(3.1), JInt(1012))])
  {
    var rec := RawRow(1, "London", Some(Samples.London), false);
    LondonReady(rec);
    LondonKey(rec);
    LondonMinute(rec);
    LondonReadings();
    FreshStep(d, rec);
    SingleRecordRun(d, rec);
  }

  lemma LondonReady(rec: RawRow)
    requires rec == RawRow(1, "London", Some(Samples.London), false)
    ensures Ready(rec)
  {
    AppValidate.LondonAccepted();
    AppTransform.LondonLocation();
  }

  lemma LondonKey(rec: RawRow)
    requires rec == RawRow(1, "London", Some(Samples.London), false) && Ready(rec)
    ensures KeyOf(rec) == LocKey("London", JStr("GB"))
    ensures AppTransform.ExtractLocationData(rec.city, rec.data.value).value.lat == JReal(51.5)
    ensures AppTransform.ExtractLocationData(rec.city, rec.data.value).value.lon == JReal(-0.1)
  {
    AppTransform.LondonLocation();
  }

  lemma LondonMinute(rec: RawRow)
    requires rec == RawRow(1, "London", Some(Samples.London), false) && Ready(rec)
    ensures MinuteOf(rec) == Minute(2023, 11, 14, 22, 13)
  {
    LondonDt();
    AppTransform.ExtractTimeExample();
  }

  lemma LondonDt()
    ensures "dt" in Samples.London && Samples.London["dt"] == JInt(1700000000)
  {
  }

  lemma LondonReadings()
    ensures AppTransform.Readings(Samples.London) == (JReal(15.2), JInt(80), JReal(3.1), JInt(1012))
  {
  }
}
