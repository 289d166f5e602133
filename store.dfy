/** A connection to the warehouse database: the tables as this session sees
    them, the sequences, and the tables as of the last commit, which is
    what a rollback returns to. Each method is one SQL statement (or
    `conn.commit()` / `conn.rollback()`), specified by the statement's
    function over `Warehouse.Db`. */
module Store {
  import opened Json
  import opened UtcTime
  import opened Warehouse

  class Database {
    var raw: seq<RawRow>
    var locations: map<LocKey, LocRow>
    var times: map<Minute, int>
    var facts: seq<FactRow>
    var next: Serials
    /** The tables as of the last commit. */
    var committed: Tables

    /** The tables this session sees, uncommitted work included. */
    function Live(): Tables
      reads this
    {
      Tables(raw, locations, times, facts)
    }

    function State(): Db
      reads this
    {
      Db(Live(), next)
    }

    /** No uncommitted work: what a fresh connection sees. */
    predicate Idle()
      reads this
    {
      committed == Live()
    }

    constructor (t: Tables, n: Serials)
      ensures State() == Db(t, n) && Idle()
    {
      raw, locations, times, facts := t.raw, t.locations, t.times, t.facts;
      next := n;
      committed := t;
    }

    method UpsertLocation(loc: Location) returns (id: int)
      modifies this
      ensures (State(), id) == Warehouse.UpsertLocation(old(State()), loc)
      ensures committed == old(committed)
    {
      var key := LocKey(loc.city, loc.country);
      id := if key in locations then locations[key].id else next.location;
      locations := locations[key := LocRow(id, loc.lat, loc.lon)];
      next := next.(location := next.location + 1);
    }

    /** Returns the RETURNING row's id, `None` when no row came back. */
    method InsertTime(m: Minute) returns (id: Option<int>)
      modifies this
      ensures (State(), id) == Warehouse.InsertTime(old(State()), m)
      ensures committed == old(committed)
    {
      if m in times {
        id := None;
      } else {
        id := Some(next.time);
        times := times[m := next.time];
      }
      next := next.(time := next.time + 1);
    }

    method InsertFact(t: FactTuple)
      modifies this
      ensures State() == Warehouse.InsertFact(old(State()), t)
      ensures committed == old(committed)
    {
      facts := facts + [BindFact(t)];
    }

    method SetProcessed(id: int)
      modifies this
      ensures State() == Warehouse.SetProcessed(old(State()), id)
      ensures committed == old(committed)
    {
      raw := MarkProcessed(raw, id);
    }

    method InsertRaw(city: string, data: Obj)
      modifies this
      ensures State() == Warehouse.InsertRaw(old(State()), city, data)
      ensures committed == old(committed)
    {
      raw := raw + [RawRow(next.raw, city, Some(data), false)];
      next := next.(raw := next.raw + 1);
    }

    /** `conn.commit()`. */
    method Commit()
      modifies this
      ensures State() == old(State()) && Idle()
    {
      committed := Live();
    }

    /** `conn.rollback()`, also what leaving `with conn` by an exception does. */
    method Rollback()
      modifies this
      ensures State() == Warehouse.Rollback(old(State()), old(committed)) && Idle()
    {
      raw, locations, times, facts := committed.raw, committed.locations, committed.times, committed.facts;
    }
  }
}
