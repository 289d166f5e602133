/** The loop both all-or-nothing loaders share: the selected records are
    visited in order, `step` is one iteration, and the first escaping
    exception ends the loop. What one iteration does is abstracted into the
    predicates below, so the facts about a whole loop hold for either loader. */
module Runs {
  import opened UtcTime
  import opened Warehouse
  import AppTransform

  function Run(step: (Db, RawRow) -> Step, d: Db, recs: seq<RawRow>): Step
    decreases |recs|
  {
    if recs == [] then Continue(d)
    else match step(d, recs[0])
      case Abort(e) => Abort(e)
      case Continue(e) => Run(step, e, recs[1..])
  }

  /** The iteration for `rec` ends the loop, whatever the tables. */
  ghost predicate AlwaysAborts(step: (Db, RawRow) -> Step, rec: RawRow) {
    forall d: Db :: step(d, rec).Abort?
  }

  /** Whenever `m` is already in `dim_time`, the iteration for `rec` ends the loop. */
  ghost predicate BlockedBy(step: (Db, RawRow) -> Step, rec: RawRow, m: Minute) {
    forall d: Db :: m in d.tables.times ==> step(d, rec).Abort?
  }

  /** Whenever the iteration for `rec` lets the loop go on, `m` is in `dim_time` after it. */
  ghost predicate Stores(step: (Db, RawRow) -> Step, rec: RawRow, m: Minute) {
    forall d: Db :: step(d, rec).Continue? ==> m in step(d, rec).db.tables.times
  }

  /** Minutes stay in `dim_time` while the loop goes on. */
  ghost predicate KeepsMinutes(step: (Db, RawRow) -> Step) {
    forall d: Db, rec: RawRow :: step(d, rec).Continue? ==> d.tables.times.Keys <= step(d, rec).db.tables.times.Keys
  }

  /** The iteration keeps every surrogate key unique and below its sequence,
      and moves no sequence backwards. */
  ghost predicate KeepsWellFormed(step: (Db, RawRow) -> Step) {
    forall d: Db, rec: RawRow :: WellFormed(d) ==> WellFormed(step(d, rec).db) && SerialsAtLeast(step(d, rec).db.next, d.next)
  }

  /** The measurements a record's payload carries into a fact. */
  function RecordReadings(rec: RawRow): seq<Reading> {
    if rec.data.Some? then [AppTransform.Readings(rec.data.value)] else []
  }

  /** The measurements of the records of `recs` that `keep` selects, in order. */
  function ReadingsOf(keep: RawRow -> bool, recs: seq<RawRow>): seq<Reading>
    decreases |recs|
  {
    if recs == [] then []
    else (if keep(recs[0]) then RecordReadings(recs[0]) else []) + ReadingsOf(keep, recs[1..])
  }

  /** When the loop goes on, the iteration has kept the earlier facts and
      appended one fact with the record's measurements if `keep` selects the
      record, and none otherwise. */
  ghost predicate AppendsReadings(step: (Db, RawRow) -> Step, keep: RawRow -> bool) {
    forall d: Db, rec: RawRow :: step(d, rec).Continue? ==>
      AppendedFacts(d.tables.facts, step(d, rec).db.tables.facts, if keep(rec) then RecordReadings(rec) else [])
  }

  /** An iteration that does not end the loop hands the rest of the batch on. */
  lemma RunContinues(step: (Db, RawRow) -> Step, d: Db, recs: seq<RawRow>)
    requires recs != [] && step(d, recs[0]).Continue?
    ensures Run(step, d, recs) == Run(step, step(d, recs[0]).db, recs[1..])
  {
  }

  /** A record that always ends the loop, anywhere in the batch, ends it. */
  lemma {:induction false} AbortingRecordRun(step: (Db, RawRow) -> Step, d: Db, recs: seq<RawRow>, k: int)
    requires 0 <= k < |recs| && AlwaysAborts(step, recs[k])
    ensures Run(step, d, recs).Abort?
    decreases k
  {
    var s := step(d, recs[0]);
    if k > 0 && s.Continue? {
      assert recs[1..][k - 1] == recs[k];
      AbortingRecordRun(step, s.db, recs[1..], k - 1);
    }
  }

  /** A record blocked by a minute that is already stored ends the loop. */
  lemma {:induction false} BlockedRun(step: (Db, RawRow) -> Step, d: Db, recs: seq<RawRow>, k: int, m: Minute)
    requires KeepsMinutes(step)
    requires 0 <= k < |recs| && BlockedBy(step, recs[k], m) && m in d.tables.times
    ensures Run(step, d, recs).Abort?
    decreases k
  {
    var s := step(d, recs[0]);
    if k > 0 && s.Continue? {
      assert recs[1..][k - 1] == recs[k];
      BlockedRun(step, s.db, recs[1..], k - 1, m);
    }
  }

  /** A record that stores `m`, followed later in the batch by one that `m`
      blocks, ends the loop. */
  lemma {:induction false} StoredThenBlockedRun(step: (Db, RawRow) -> Step, d: Db, recs: seq<RawRow>, i: int, j: int, m: Minute)
    requires KeepsMinutes(step)
    requires 0 <= i < j < |recs| && Stores(step, recs[i], m) && BlockedBy(step, recs[j], m)
    ensures Run(step, d, recs).Abort?
    decreases i
  {
    if i == 0 {
      StoredFirstRun(step, d, recs, j, m);
    } else {
      var s := step(d, recs[0]);
      if s.Continue? {
        RunContinues(step, d, recs);
        var rest := recs[1..];
        assert rest[i - 1] == recs[i] && rest[j - 1] == recs[j];
        StoredThenBlockedRun(step, s.db, rest, i - 1, j - 1, m);
      }
    }
  }

  /** The first record stores `m` and a later one is blocked by it. */
  lemma StoredFirstRun(step: (Db, RawRow) -> Step, d: Db, recs: seq<RawRow>, j: int, m: Minute)
    requires KeepsMinutes(step)
    requires 0 < j < |recs| && Stores(step, recs[0], m) && BlockedBy(step, recs[j], m)
    ensures Run(step, d, recs).Abort?
  {
    var s := step(d, recs[0]);
    if s.Continue? {
      assert m in s.db.tables.times;
      assert recs[1..][j - 1] == recs[j];
      BlockedRun(step, s.db, recs[1..], j - 1, m);
    }
  }

  /** The loop keeps the schema well-formed. */
  lemma {:induction false} RunWellFormed(step: (Db, RawRow) -> Step, d: Db, recs: seq<RawRow>)
    requires KeepsWellFormed(step) && WellFormed(d)
    ensures WellFormed(Run(step, d, recs).db) && SerialsAtLeast(Run(step, d, recs).db.next, d.next)
    decreases |recs|
  {
    if recs != [] {
      var s := step(d, recs[0]);
      if s.Continue? {
        RunWellFormed(step, s.db, recs[1..]);
      }
    }
  }

  /** A loop that ends without an exception has kept the earlier facts and
      appended one fact per selected record, with that record's measurements,
      in batch order. */
  lemma {:induction false} RunReadings(step: (Db, RawRow) -> Step, keep: RawRow -> bool, d: Db, recs: seq<RawRow>)
    requires AppendsReadings(step, keep) && Run(step, d, recs).Continue?
    ensures AppendedFacts(d.tables.facts, Run(step, d, recs).db.tables.facts, ReadingsOf(keep, recs))
    decreases |recs|
  {
    var f := d.tables.facts;
    if recs == [] {
      assert f[..|f|] == f && f[|f|..] == [];
    } else {
      var s := step(d, recs[0]);
      RunReadings(step, keep, s.db, recs[1..]);
      var f1, f2 := s.db.tables.facts, Run(step, d, recs).db.tables.facts;
      assert f2[|f|..] == f1[|f|..] + f2[|f1|..] by {
        assert f2[..|f1|] == f1;
      }
      FactReadingsAppend(f1[|f|..], f2[|f1|..]);
      assert f2[..|f|] == f2[..|f1|][..|f|];
    }
  }
}
