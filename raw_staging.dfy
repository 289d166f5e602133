/** `save_raw_data`: stage a fetched payload in `weather_raw` unless a row
    for the same city and the same textual `dt` is already there. The query
    compares `str(data["dt"])` (Python's rendering) with `data->>'dt'`
    (PostgreSQL's text of the stored JSON value). */
module RawStaging {
  import opened Json
  import opened Warehouse
  import opened Store

  function DecimalDigits(n: nat): string
    decreases n
  {
    if n < 10 then ["0123456789"[n]] else DecimalDigits(n / 10) + ["0123456789"[n % 10]]
  }

  /** The decimal text of an integer, as both Python and PostgreSQL write it. */
  function IntText(i: int): string {
    if i < 0 then "-" + DecimalDigits(-i) else DecimalDigits(i)
  }

  /** `str(v)`: defined here for ints, booleans, strings and `None`. */
  function PyStr(v: Json): Option<string> {
    match v
    case JInt(i) => Some(IntText(i))
    case JBool(b) => Some(if b then "True" else "False")
    case JStr(s) => Some(s)
    case JNull => Some("None")
    case _ => None
  }

  /** `data->>'dt'` of a stored row: SQL NULL for a NULL payload, an absent
      key or a JSON null; JSON booleans are written in lower case. */
  function StoredText(data: Option<Obj>): Option<string> {
    if data.None? || "dt" !in data.value then None
    else match data.value["dt"]
      case JInt(i) => Some(IntText(i))
      case JBool(b) => Some(if b then "true" else "false")
      case JStr(s) => Some(s)
      case _ => None
  }

  /** The WHERE clause `city = %s AND data->>'dt' = %s`; a NULL operand never matches. */
  predicate Matches(row: RawRow, city: string, dt: Json) {
    row.city == city && PyStr(dt).Some? && StoredText(row.data) == PyStr(dt)
  }

  /** Whether the existence query returns a row. */
  predicate Exists(raw: seq<RawRow>, city: string, dt: Json) {
    exists i :: 0 <= i < |raw| && Matches(raw[i], city, dt)
  }

  /** What one call of `save_raw_data(city, data)` leaves behind: nothing when
      `data` has no `dt` (the `KeyError` is caught) or a matching row exists,
      otherwise one new unprocessed row, committed. */
  function SaveRaw(d: Db, city: string, data: Obj): (r: Db)
    ensures "dt" !in data || Exists(d.tables.raw, city, data["dt"]) ==> r == d
    ensures "dt" in data && !Exists(d.tables.raw, city, data["dt"]) ==>
      r.tables == d.tables.(raw := d.tables.raw + [RawRow(d.next.raw, city, Some(data), false)])
    ensures WellFormed(d) ==> WellFormed(r)
    ensures r.tables.raw[..|d.tables.raw|] == d.tables.raw
  {
    if "dt" !in data || Exists(d.tables.raw, city, data["dt"]) then d
    else InsertRaw(d, city, data)
  }

  /** Each (city, text of `dt`) occurs in at most one row. */
  predicate UniqueKeys(raw: seq<RawRow>) {
    forall i, j :: 0 <= i < j < |raw| && raw[i].city == raw[j].city && StoredText(raw[i].data).Some?
      ==> StoredText(raw[i].data) != StoredText(raw[j].data)
  }

  /** The dt values whose Python text is the text PostgreSQL gives back once stored. */
  predicate Comparable(dt: Json) {
    dt.JInt? || dt.JStr?
  }

  lemma ComparableText(data: Obj)
    requires "dt" in data && Comparable(data["dt"])
    ensures StoredText(Some(data)) == PyStr(data["dt"]) && PyStr(data["dt"]).Some?
  {
  }

  /** Saving the same payload again is a no-op. */
  lemma SaveRawIdempotent(d: Db, city: string, data: Obj)
    requires "dt" in data ==> Comparable(data["dt"])
    ensures SaveRaw(SaveRaw(d, city, data), city, data) == SaveRaw(d, city, data)
  {
    if "dt" in data && !Exists(d.tables.raw, city, data["dt"]) {
      var raw := SaveRaw(d, city, data).tables.raw;
      ComparableText(data);
      assert Matches(raw[|raw| - 1], city, data["dt"]);
    }
  }

  /** Staging keeps (city, dt) unique for ints and strings. */
  lemma SaveRawKeepsKeysUnique(d: Db, city: string, data: Obj)
    requires UniqueKeys(d.tables.raw)
    requires "dt" in data ==> Comparable(data["dt"])
    ensures UniqueKeys(SaveRaw(d, city, data).tables.raw)
  {
    if "dt" in data && !Exists(d.tables.raw, city, data["dt"]) {
      var raw := SaveRaw(d, city, data).tables.raw;
      var n := |d.tables.raw|;
      ComparableText(data);
      forall i | 0 <= i < n && raw[i].city == city && StoredText(raw[i].data).Some?
        ensures StoredText(raw[i].data) != StoredText(raw[n].data)
      {
        assert !Matches(d.tables.raw[i], city, data["dt"]);
      }
    }
  }

  /** A boolean `dt` is written `True` by Python and `true` by PostgreSQL, so
      the query never finds the row just staged and every call adds one. */
  lemma BooleanTimestampNeverDeduplicated(d: Db, city: string, data: Obj)
    requires "dt" in data && data["dt"].JBool?
    requires !Exists(d.tables.raw, city, data["dt"])
    ensures |SaveRaw(SaveRaw(d, city, data), city, data).tables.raw| == |d.tables.raw| + 2
  {
    var once := SaveRaw(d, city, data);
    forall i | 0 <= i < |once.tables.raw| ensures !Matches(once.tables.raw[i], city, data["dt"]) {
      if i < |d.tables.raw| {
        assert once.tables.raw[i] == d.tables.raw[i];
      }
    }
  }

  /** `save_raw_data(city, data)` on a fresh connection. */
  method SaveRawData(db: Database, city: string, data: Obj)
    requires db.Idle()
    modifies db
    ensures db.State() == SaveRaw(old(db.State()), city, data) && db.Idle()
  {
    if "dt" !in data {
      return;
    }
    var existing := Exists(db.raw, city, data["dt"]);
    if !existing {
      db.InsertRaw(city, data);
      db.Commit();
    }
  }
}
