/** The star schema as in-memory tables, and what each SQL statement of the
    loaders does to them under PostgreSQL's `INSERT … ON CONFLICT` rules.

    Surrogate keys come from SERIAL sequences. A sequence value is drawn by
    every INSERT attempt, also one that ends in a conflict, and sequences are
    not transactional: a rollback gives back the rows, never the values. */
module Warehouse {
  import opened Json
  import opened UtcTime

  /** A row of `weather_raw`; `data` is `None` when the JSON column is NULL. */
  datatype RawRow = RawRow(id: int, city: string, data: Option<Obj>, processed: bool)

  /** The measurements of a fact: temperature, humidity, wind speed and pressure. */
  type Reading = (Json, Json, Json, Json)

  /** The unique key of `dim_location`. */
  datatype LocKey = LocKey(city: string, country: Json)

  datatype LocRow = LocRow(id: int, lat: Json, lon: Json)

  /** A row of `weather_fact`, in column order. */
  datatype FactRow = FactRow(timestampId: int, locationId: int,
                             temperature: Json, humidity: Json, windSpeed: Json, pressure: Json)

  /** The measurements of each fact, in table order. */
  function FactReadings(facts: seq<FactRow>): (r: seq<Reading>)
    ensures |r| == |facts|
    decreases |facts|
  {
    if facts == [] then []
    else [(facts[0].temperature, facts[0].humidity, facts[0].windSpeed, facts[0].pressure)] + FactReadings(facts[1..])
  }

  lemma {:induction false} FactReadingsAppend(a: seq<FactRow>, b: seq<FactRow>)
    ensures FactReadings(a + b) == FactReadings(a) + FactReadings(b)
    decreases |a|
  {
    if a == [] {
      assert a + b == b;
    } else {
      assert (a + b)[0] == a[0] && (a + b)[1..] == a[1..] + b;
      FactReadingsAppend(a[1..], b);
    }
  }

  /** `after` keeps the facts of `before` as they were and appends rows with
      the measurements `readings`, in that order. */
  predicate AppendedFacts(before: seq<FactRow>, after: seq<FactRow>, readings: seq<Reading>) {
    |before| <= |after| && after[..|before|] == before && FactReadings(after[|before|..]) == readings
  }

  /** `weather_raw`, `dim_location` (keyed by `(city, country)`), `dim_time`
      (keyed by the five calendar fields) and `weather_fact`. */
  datatype Tables = Tables(raw: seq<RawRow>, locations: map<LocKey, LocRow>,
                           times: map<Minute, int>, facts: seq<FactRow>)

  /** The next value of each SERIAL sequence. */
  datatype Serials = Serials(raw: int, location: int, time: int)

  /** What one session sees: its (possibly uncommitted) tables and the sequences. */
  datatype Db = Db(tables: Tables, next: Serials)

  /** How one record of a populate run ends: the loop goes on, or an exception
      escapes it, which ends the run (the session's tables are then rolled back). */
  datatype Step = Continue(db: Db) | Abort(db: Db)

  /** The parameter tuple of the `dim_location` INSERT: `(city, country, latitude, longitude)`. */
  datatype Location = Location(city: string, country: Json, lat: Json, lon: Json)

  /** The six-value parameter tuple of the `weather_fact` INSERT, by position. */
  datatype FactTuple = FactTuple(first: int, second: int,
                                 temp: Json, humidity: Json, windSpeed: Json, pressure: Json)

  // ---------------------------------------------------------------------
  // Invariants of the schema
  // ---------------------------------------------------------------------

  /** Raw ids are distinct and below the sequence. */
  predicate RawWellFormed(raw: seq<RawRow>, next: int) {
    && (forall i :: 0 <= i < |raw| ==> raw[i].id < next)
    && (forall i, j :: 0 <= i < j < |raw| ==> raw[i].id != raw[j].id)
  }

  /** Location ids are distinct and below the sequence. */
  predicate LocationsWellFormed(locations: map<LocKey, LocRow>, next: int) {
    && (forall k :: k in locations ==> locations[k].id < next)
    && (forall k1, k2 :: k1 in locations && k2 in locations && k1 != k2 ==> locations[k1].id != locations[k2].id)
  }

  /** Time ids are distinct and below the sequence. */
  predicate TimesWellFormed(times: map<Minute, int>, next: int) {
    && (forall m :: m in times ==> times[m] < next)
    && (forall m1, m2 :: m1 in times && m2 in times && m1 != m2 ==> times[m1] != times[m2])
  }

  /** Every surrogate key is unique within its table and was drawn from its sequence. */
  predicate WellFormed(d: Db) {
    && RawWellFormed(d.tables.raw, d.next.raw)
    && LocationsWellFormed(d.tables.locations, d.next.location)
    && TimesWellFormed(d.tables.times, d.next.time)
  }

  function LocationIds(t: Tables): set<int> {
    set r | r in t.locations.Values :: r.id
  }

  /** Every fact refers to an existing location and an existing minute. */
  predicate RefIntegrity(t: Tables) {
    forall i :: 0 <= i < |t.facts| ==>
      t.facts[i].locationId in LocationIds(t) && t.facts[i].timestampId in t.times.Values
  }

  /** `after` is `before` with some processed flags switched on and nothing else changed. */
  predicate Progressed(before: seq<RawRow>, after: seq<RawRow>) {
    && |after| == |before|
    && forall i :: 0 <= i < |before| ==> after[i] == before[i] || after[i] == before[i].(processed := true)
  }

  lemma ProgressedTrans(a: seq<RawRow>, b: seq<RawRow>, c: seq<RawRow>)
    requires Progressed(a, b) && Progressed(b, c)
    ensures Progressed(a, c)
  {
    forall i | 0 <= i < |a| ensures c[i] == a[i] || c[i] == a[i].(processed := true) {
      assert b[i] == a[i] || b[i] == a[i].(processed := true);
      assert c[i] == b[i] || c[i] == b[i].(processed := true);
    }
  }

  // ---------------------------------------------------------------------
  // The statements
  // ---------------------------------------------------------------------

  /** `INSERT INTO dim_location … ON CONFLICT (city, country) DO UPDATE SET
      latitude, longitude … RETURNING location_id`: a new key gets the next
      sequence value, an existing key keeps its id and has its coordinates
      overwritten; the id is returned either way and no other row changes. */
  function UpsertLocation(d: Db, loc: Location): (r: (Db, int))
    ensures var key, locs := LocKey(loc.city, loc.country), d.tables.locations;
      && (key !in locs ==> r.1 == d.next.location)
      && (key in locs ==> r.1 == locs[key].id)
      && r.0.tables == d.tables.(locations := locs[key := LocRow(r.1, loc.lat, loc.lon)])
      && r.0.next == d.next.(location := d.next.location + 1)
    ensures WellFormed(d) ==> WellFormed(r.0)
    ensures LocationIds(d.tables) <= LocationIds(r.0.tables)
    ensures r.1 in LocationIds(r.0.tables)
  {
    var key, locs := LocKey(loc.city, loc.country), d.tables.locations;
    var id := if key in locs then locs[key].id else d.next.location;
    var locs' := locs[key := LocRow(id, loc.lat, loc.lon)];
    assert locs'[key].id == id;
    assert forall k :: k in locs && k != key ==> locs'[k] == locs[k];
    assert forall k :: k in locs ==> locs'[k].id == locs[k].id;
    (Db(d.tables.(locations := locs'), d.next.(location := d.next.location + 1)), id)
  }

  /** `INSERT INTO dim_time … ON CONFLICT (…) DO NOTHING RETURNING timestamp_id`:
      a new minute is inserted and its id returned; an existing minute leaves
      the table as it is and returns no row. A sequence value is used up either way. */
  function InsertTime(d: Db, m: Minute): (r: (Db, Option<int>))
    ensures m in d.tables.times ==> r.1 == None && r.0.tables == d.tables
    ensures m !in d.tables.times ==>
      r.1 == Some(d.next.time) && r.0.tables == d.tables.(times := d.tables.times[m := d.next.time])
    ensures r.0.next == d.next.(time := d.next.time + 1)
    ensures WellFormed(d) ==> WellFormed(r.0)
    ensures r.1.Some? ==> r.0.tables.times[m] == r.1.value
    ensures d.tables.times.Values <= r.0.tables.times.Values
  {
    var d' := Db(d.tables, d.next.(time := d.next.time + 1));
    if m in d.tables.times then (d', None)
    else
      var times := d.tables.times[m := d.next.time];
      assert d.tables.times.Values <= times.Values by {
        forall v | v in d.tables.times.Values ensures v in times.Values {
          var k :| k in d.tables.times && d.tables.times[k] == v;
          assert k in times && times[k] == v;
        }
      }
      (d'.(tables := d.tables.(times := times)), Some(d.next.time))
  }

  /** The time lookup the loaders evidently intend, written like their
      location upsert (`ON CONFLICT … DO UPDATE … RETURNING timestamp_id`):
      a new minute is inserted as by `InsertTime`, an existing minute keeps
      its row, and the minute's id is returned either way. */
  function ResolveTime(d: Db, m: Minute): (r: (Db, int))
    ensures m in d.tables.times ==> r.1 == d.tables.times[m] && r.0.tables == d.tables
    ensures m !in d.tables.times ==> (r.0, Some(r.1)) == InsertTime(d, m)
    ensures m in r.0.tables.times && r.0.tables.times[m] == r.1
    ensures r.0.tables == d.tables.(times := r.0.tables.times)
    ensures r.0.next == d.next.(time := d.next.time + 1)
    ensures WellFormed(d) ==> WellFormed(r.0)
    ensures d.tables.times.Values <= r.0.tables.times.Values
  {
    var (d', id) := InsertTime(d, m);
    if id.Some? then (d', id.value) else (d', d.tables.times[m])
  }

  /** Resolving a minute a second time finds the row the first call left. */
  lemma ResolveTimeIdempotent(d: Db, m: Minute)
    ensures var (d1, id) := ResolveTime(d, m);
      ResolveTime(d1, m).1 == id && ResolveTime(d1, m).0.tables == d1.tables
  {
  }

  /** The row the `weather_fact` INSERT stores: the columns `(timestamp_id,
      location_id, temperature, humidity, wind_speed, pressure)` take the
      tuple's values by position. */
  function BindFact(t: FactTuple): (f: FactRow)
    ensures f.timestampId == t.first && f.locationId == t.second
    ensures (f.temperature, f.humidity, f.windSpeed, f.pressure) == (t.temp, t.humidity, t.windSpeed, t.pressure)
  {
    FactRow(t.first, t.second, t.temp, t.humidity, t.windSpeed, t.pressure)
  }

  /** The plain fact INSERT: exactly one row is appended, with no duplicate check. */
  function InsertFact(d: Db, t: FactTuple): (r: Db)
    ensures r.tables == d.tables.(facts := d.tables.facts + [BindFact(t)]) && r.next == d.next
    ensures WellFormed(d) ==> WellFormed(r)
  {
    Db(d.tables.(facts := d.tables.facts + [BindFact(t)]), d.next)
  }

  /** `UPDATE weather_raw SET processed = TRUE WHERE id = …`. */
  function MarkProcessed(raw: seq<RawRow>, id: int): (r: seq<RawRow>)
    ensures |r| == |raw|
    ensures forall i :: 0 <= i < |raw| ==> r[i] == if raw[i].id == id then raw[i].(processed := true) else raw[i]
    ensures Progressed(raw, r)
  {
    seq(|raw|, i requires 0 <= i < |raw| => if raw[i].id == id then raw[i].(processed := true) else raw[i])
  }

  /** The UPDATE on a session's tables. */
  function SetProcessed(d: Db, id: int): (r: Db)
    ensures r.tables == d.tables.(raw := MarkProcessed(d.tables.raw, id)) && r.next == d.next
    ensures WellFormed(d) ==> WellFormed(r)
  {
    var raw := MarkProcessed(d.tables.raw, id);
    assert forall i :: 0 <= i < |raw| ==> raw[i].id == d.tables.raw[i].id;
    Db(d.tables.(raw := raw), d.next)
  }

  /** `INSERT INTO weather_raw (city, data, processed) VALUES (…, …, False)`. */
  function InsertRaw(d: Db, city: string, data: Obj): (r: Db)
    ensures r.tables == d.tables.(raw := d.tables.raw + [RawRow(d.next.raw, city, Some(data), false)])
    ensures r.next == d.next.(raw := d.next.raw + 1)
    ensures WellFormed(d) ==> WellFormed(r)
  {
    Db(d.tables.(raw := d.tables.raw + [RawRow(d.next.raw, city, Some(data), false)]),
       d.next.(raw := d.next.raw + 1))
  }

  /** `SELECT id, city, data FROM weather_raw WHERE NOT processed`, in table order. */
  function Unprocessed(raw: seq<RawRow>): (r: seq<RawRow>)
    ensures forall x :: x in r <==> x in raw && !x.processed
    decreases |raw|
  {
    if raw == [] then []
    else (if raw[0].processed then [] else [raw[0]]) + Unprocessed(raw[1..])
  }

  /** Going back to the tables of the last commit; the sequences keep their values. */
  function Rollback(d: Db, snap: Tables): (r: Db)
    ensures r.tables == snap && r.next == d.next
  {
    Db(snap, d.next)
  }

  /** Every sequence of `d` is at least where it is in `e`. */
  predicate SerialsAtLeast(d: Serials, e: Serials) {
    d.raw >= e.raw && d.location >= e.location && d.time >= e.time
  }

  /** Only the processed flags of `weather_raw` may differ between `a` and `b`. */
  predicate SameExceptFlags(a: Tables, b: Tables) {
    Progressed(a.raw, b.raw) && a.locations == b.locations && a.times == b.times && a.facts == b.facts
  }

  /** Facts only ever refer to ids that stay in their tables. */
  lemma RefIntegrityGrows(t1: Tables, t2: Tables)
    requires RefIntegrity(t1) && t1.facts == t2.facts
    requires LocationIds(t1) <= LocationIds(t2) && t1.times.Values <= t2.times.Values
    ensures RefIntegrity(t2)
  {
  }

  /** Sequences only move forward, so a rollback to tables that were
      well-formed under earlier sequence values keeps the schema well-formed. */
  lemma RollbackKeepsWellFormed(d: Db, snap: Db)
    requires WellFormed(snap)
    requires SerialsAtLeast(d.next, snap.next)
    ensures WellFormed(Rollback(d, snap.tables))
  {
  }
}
