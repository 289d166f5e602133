/** The single-file service: the same extractors and statements as the older
    loader, but `populate_data_warehouse` validates nothing, so every pending
    record goes straight to the inserts and any exception (a NULL payload, a
    missing or non-numeric `dt`, a minute already stored) escapes the loop,
    rolling the whole run back. */
module WeatherService {
  import opened Json
  import opened UtcTime
  import opened Warehouse
  import opened Store
  import opened Checks
  import LegacyLoad
  import LegacyTransform
  import AppTransform
  import Runs
  import AppLoad

  /** The loop over `recs`: every record goes to the inserts. */
  function ServiceBatch(d: Db, recs: seq<RawRow>): Step {
    Runs.Run(LegacyLoad.InsertRecord, d, recs)
  }

  predicate Aborts(d: Db) {
    ServiceBatch(d, Unprocessed(d.tables.raw)).Abort?
  }

  /** A whole run: committed at the end, or rolled back entirely. */
  function ServicePopulate(d: Db): (r: Db)
    ensures Aborts(d) ==> r.tables == d.tables
  {
    match ServiceBatch(d, Unprocessed(d.tables.raw))
    case Abort(e) => Rollback(e, d.tables)
    case Continue(e) => e
  }

  /** `populate_data_warehouse()` of the service on a fresh connection. */
  method PopulateDataWarehouse(db: Database)
    requires db.Idle()
    modifies db
    ensures db.State() == ServicePopulate(old(db.State())) && db.Idle()
  {
    ghost var start := db.State();
    var records := Unprocessed(db.raw);
    for i := 0 to |records|
      invariant db.committed == start.tables
      invariant ServiceBatch(db.State(), records[i..]) == ServiceBatch(start, records)
    {
      assert records[i..][1..] == records[i + 1..];
      var aborted := LegacyLoad.LoadRecord(db, records[i]);
      if aborted {
        db.Rollback();
        return;
      }
    }
    db.Commit();
  }

  // ---------------------------------------------------------------------
  // Properties of a run
  // ---------------------------------------------------------------------

  /** The inserts either end the loop or store one fact and flag the record;
      `weather_raw` changes in no other way. Getting through means the record
      reaches the time insert with a new minute and readable measurements. */
  lemma InsertContinues(d: Db, rec: RawRow)
    requires LegacyLoad.InsertRecord(d, rec).Continue?
    ensures LegacyLoad.InsertRecord(d, rec).db.tables.raw == MarkProcessed(d.tables.raw, rec.id)
    ensures |LegacyLoad.InsertRecord(d, rec).db.tables.facts| == |d.tables.facts| + 1
    ensures Reaches(rec) && MinuteOf(rec) !in d.tables.times && AppTransform.Measurements(rec.data.value).Ok?
    ensures var locationId := UpsertLocation(d, LegacyTransform.ExtractLocationData(rec.city, rec.data.value).value).1;
      var (temp, humidity, speed, pressure) := AppTransform.Readings(rec.data.value);
      LegacyLoad.InsertRecord(d, rec).db.tables.facts == d.tables.facts + [FactRow(locationId, d.next.time, temp, humidity, speed, pressure)]
  {
    LegacyLoad.InsertRecordOutcome(d, rec);
  }

  /** Every record is sent to the inserts. */
  predicate Any(rec: RawRow) {
    true
  }

  /** When the loop goes on, the inserts have kept the earlier facts and
      appended one with the record's measurements. */
  lemma StepAppendsReadings()
    ensures Runs.AppendsReadings(LegacyLoad.InsertRecord, Any)
  {
    forall d: Db, rec: RawRow | LegacyLoad.InsertRecord(d, rec).Continue?
      ensures AppendedFacts(d.tables.facts, LegacyLoad.InsertRecord(d, rec).db.tables.facts, Runs.RecordReadings(rec))
    {
      var f, f' := d.tables.facts, LegacyLoad.InsertRecord(d, rec).db.tables.facts;
      LegacyLoad.InsertRecordOutcome(d, rec);
      assert f'[..|f|] == f && f'[|f|..] == [f'[|f|]];
    }
  }

  /** A loop that ends without an exception has kept the earlier facts and
      appended one fact per record, with that record's measurements, in
      batch order. */
  lemma BatchReadings(d: Db, recs: seq<RawRow>)
    requires ServiceBatch(d, recs).Continue?
    ensures AppendedFacts(d.tables.facts, ServiceBatch(d, recs).db.tables.facts, Runs.ReadingsOf(Any, recs))
  {
    StepAppendsReadings();
    Runs.RunReadings(LegacyLoad.InsertRecord, Any, d, recs);
  }

  lemma StepKeepsWellFormed()
    ensures Runs.KeepsWellFormed(LegacyLoad.InsertRecord)
  {
  }

  /** A run keeps every surrogate key unique and below its sequence, also
      when it rolls back. */
  lemma PopulateWellFormed(d: Db)
    requires WellFormed(d)
    ensures WellFormed(ServicePopulate(d))
  {
    StepKeepsWellFormed();
    Runs.RunWellFormed(LegacyLoad.InsertRecord, d, Unprocessed(d.tables.raw));
    RollbackKeepsWellFormed(ServiceBatch(d, Unprocessed(d.tables.raw)).db, d);
  }

  lemma BatchContinues(d: Db, recs: seq<RawRow>)
    requires recs != [] && LegacyLoad.InsertRecord(d, recs[0]).Continue?
    ensures ServiceBatch(d, recs) == ServiceBatch(LegacyLoad.InsertRecord(d, recs[0]).db, recs[1..])
  {
    Runs.RunContinues(LegacyLoad.InsertRecord, d, recs);
  }

  /** A run that ends without an exception has flagged every record of the
      batch and stored one fact for each. */
  lemma {:induction false} BatchOutcome(d: Db, recs: seq<RawRow>, start: seq<RawRow>, ids: set<int>)
    requires d.tables.raw == LegacyLoad.Marked(start, ids)
    requires ServiceBatch(d, recs).Continue?
    ensures ServiceBatch(d, recs).db.tables.raw == LegacyLoad.Marked(start, ids + LegacyLoad.Ids(recs))
    ensures |ServiceBatch(d, recs).db.tables.facts| == |d.tables.facts| + |recs|
    decreases |recs|
  {
    if recs == [] {
      assert ids + LegacyLoad.Ids(recs) == ids;
    } else {
      var r := recs[0];
      InsertContinues(d, r);
      BatchContinues(d, recs);
      LegacyLoad.MarkOneMore(start, ids, r.id);
      BatchOutcome(LegacyLoad.InsertRecord(d, r).db, recs[1..], start, ids + {r.id});
      assert ids + {r.id} + LegacyLoad.Ids(recs[1..]) == ids + LegacyLoad.Ids(recs);
    }
  }

  /** Flagging the ids of the pending rows flags every row. */
  lemma MarkedPending(raw: seq<RawRow>)
    ensures var raw' := LegacyLoad.Marked(raw, LegacyLoad.Ids(Unprocessed(raw)));
      forall i :: 0 <= i < |raw| ==> raw'[i] == raw[i].(processed := true)
  {
    forall i | 0 <= i < |raw| && !raw[i].processed
      ensures raw[i].id in LegacyLoad.Ids(Unprocessed(raw))
    {
      assert raw[i] in Unprocessed(raw);
    }
  }

  /** A run has no effect on the tables, or it flags every pending record,
      keeps the earlier facts and appends one for each pending record, with
      its measurements. */
  lemma PopulateOutcome(d: Db)
    ensures Aborts(d) ==> ServicePopulate(d).tables == d.tables
    ensures !Aborts(d) ==>
      var (raw, raw') := (d.tables.raw, ServicePopulate(d).tables.raw);
      && |raw'| == |raw|
      && (forall i :: 0 <= i < |raw| ==> raw'[i] == raw[i].(processed := true))
      && |ServicePopulate(d).tables.facts| == |d.tables.facts| + |Unprocessed(raw)|
      && AppendedFacts(d.tables.facts, ServicePopulate(d).tables.facts, Runs.ReadingsOf(Any, Unprocessed(raw)))
  {
    if !Aborts(d) {
      var raw := d.tables.raw;
      assert LegacyLoad.Marked(raw, {}) == raw;
      BatchOutcome(d, Unprocessed(raw), raw, {});
      BatchReadings(d, Unprocessed(raw));
      assert {} + LegacyLoad.Ids(Unprocessed(raw)) == LegacyLoad.Ids(Unprocessed(raw));
      MarkedPending(raw);
    }
  }

  /** The records that end every run: a NULL payload, a `sys` or `coord`
      that is not an object, a missing `dt` (`KeyError`), a `dt` that is
      not a number or lies outside years 1..9999, and a `main` or `wind`
      that is not an object. */
  lemma AbortingRecords(rec: RawRow)
    ensures rec.data.None? ==> Runs.AlwaysAborts(LegacyLoad.InsertRecord, rec)
    ensures rec.data.Some? && LegacyTransform.ExtractLocationData(rec.city, rec.data.value).Raise? ==> Runs.AlwaysAborts(LegacyLoad.InsertRecord, rec)
    ensures rec.data.Some? && "dt" !in rec.data.value ==> Runs.AlwaysAborts(LegacyLoad.InsertRecord, rec)
    ensures (rec.data.Some? && "dt" in rec.data.value
             && AppTransform.ExtractTimeData(rec.data.value["dt"]).Raise?) ==> Runs.AlwaysAborts(LegacyLoad.InsertRecord, rec)
    ensures rec.data.Some? && RaisesOn(rec.data.value) ==> Runs.AlwaysAborts(LegacyLoad.InsertRecord, rec)
  {
  }

  /** One such record among the pending ones and no run ever changes the
      tables: it stays pending and aborts the next run too. */
  lemma AbortingRecordBlocksEveryRun(d: Db, k: int)
    requires 0 <= k < |Unprocessed(d.tables.raw)| && Runs.AlwaysAborts(LegacyLoad.InsertRecord, Unprocessed(d.tables.raw)[k])
    ensures ServicePopulate(d).tables == d.tables
    ensures Aborts(ServicePopulate(d))
  {
    Runs.AbortingRecordRun(LegacyLoad.InsertRecord, d, Unprocessed(d.tables.raw), k);
    Runs.AbortingRecordRun(LegacyLoad.InsertRecord, ServicePopulate(d), Unprocessed(d.tables.raw), k);
  }

  /** A record whose inserts get as far as the time insert. */
  predicate Reaches(rec: RawRow) {
    && rec.data.Some? && LegacyTransform.ExtractLocationData(rec.city, rec.data.value).Ok?
    && "dt" in rec.data.value && AppTransform.ExtractTimeData(rec.data.value["dt"]).Ok?
  }

  function MinuteOf(rec: RawRow): Minute
    requires Reaches(rec)
  {
    AppTransform.ExtractTimeData(rec.data.value["dt"]).value
  }

  /** A record whose inserts get as far as the time insert is blocked by its
      own minute, and stores that minute when it gets through. */
  lemma StoredMinuteAborts(rec: RawRow)
    requires Reaches(rec)
    ensures Runs.BlockedBy(LegacyLoad.InsertRecord, rec, MinuteOf(rec))
    ensures Runs.Stores(LegacyLoad.InsertRecord, rec, MinuteOf(rec))
  {
  }

  lemma StepKeepsMinutes()
    ensures Runs.KeepsMinutes(LegacyLoad.InsertRecord)
  {
  }

  /** Once an observation's minute is stored, a pending observation of
      another city in that minute blocks every run for good. */
  lemma StoredMinuteBlocksEveryRun(d: Db, k: int)
    requires 0 <= k < |Unprocessed(d.tables.raw)|
    requires Reaches(Unprocessed(d.tables.raw)[k]) && MinuteOf(Unprocessed(d.tables.raw)[k]) in d.tables.times
    ensures ServicePopulate(d).tables == d.tables
    ensures Aborts(ServicePopulate(d))
  {
    var recs := Unprocessed(d.tables.raw);
    StoredMinuteAborts(recs[k]);
    StepKeepsMinutes();
    Runs.BlockedRun(LegacyLoad.InsertRecord, d, recs, k, MinuteOf(recs[k]));
    Runs.BlockedRun(LegacyLoad.InsertRecord, ServicePopulate(d), recs, k, MinuteOf(recs[k]));
  }

  /** Two pending observations in the same minute block every run for good. */
  lemma SameMinuteBlocksEveryRun(d: Db, i: int, j: int)
    requires 0 <= i < j < |Unprocessed(d.tables.raw)|
    requires var recs := Unprocessed(d.tables.raw);
      Reaches(recs[i]) && Reaches(recs[j]) && MinuteOf(recs[i]) == MinuteOf(recs[j])
    ensures ServicePopulate(d).tables == d.tables
    ensures Aborts(ServicePopulate(d))
  {
    var recs := Unprocessed(d.tables.raw);
    StoredMinuteAborts(recs[i]);
    StoredMinuteAborts(recs[j]);
    StepKeepsMinutes();
    Runs.StoredThenBlockedRun(LegacyLoad.InsertRecord, d, recs, i, j, MinuteOf(recs[i]));
    Runs.StoredThenBlockedRun(LegacyLoad.InsertRecord, ServicePopulate(d), recs, i, j, MinuteOf(recs[i]));
  }

  /** Without a guard on the coordinates, an observation with no `coord` is
      stored with a location whose latitude and longitude are NULL. */
  lemma NullCoordinatesStored(d: Db, rec: RawRow)
    requires rec.data.Some? && "coord" !in rec.data.value
    requires LegacyLoad.InsertRecord(d, rec).Continue?
    ensures var loc := LegacyTransform.ExtractLocationData(rec.city, rec.data.value).value;
      var e := LegacyLoad.InsertRecord(d, rec).db.tables;
      && LocKey(rec.city, loc.country) in e.locations
      && e.locations[LocKey(rec.city, loc.country)].lat == JNull
      && e.locations[LocKey(rec.city, loc.country)].lon == JNull
  {
  }
}
