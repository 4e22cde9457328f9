/**
 The migration runner (src/infrastructure/postgres/migrate.ts): one transaction under an advisory lock runs the
 migrations not yet recorded, in list order, and refuses a recorded one whose checksum changed. Any number of runners
 compete for the lock.
 */
module Migrations {
  import opened Wrappers

  datatype Migration = Migration(name: string, sql: string, checksum: string)

  /** The recorded checksums, and the migrations whose scripts took effect, in order. */
  datatype Db = Db(table: map<string, string>, executed: seq<Migration>)

  /** Whether a script succeeds against a database. */
  type SqlOk = (Db, Migration) -> bool

  predicate Known(table: map<string, string>, m: Migration) {
    m.name in table && table[m.name] != ""
  }

  // ---------------------------------------------------------------- one transaction

  /** The work done for one migration; none when it throws. `recorded` is the table as read once, after locking. */
  function Step(recorded: map<string, string>, work: Db, m: Migration, ok: SqlOk): Option<Db> {
    if Known(recorded, m) then
      if recorded[m.name] != m.checksum then None else Some(work)
    else if !ok(work, m) || m.name in work.table then None
    else Some(Db(work.table[m.name := m.checksum], work.executed + [m]))
  }

  function Applied(db: Db, ms: seq<Migration>, ok: SqlOk): Option<Db> {
    if ms == [] then Some(db)
    else
      var before := Applied(db, ms[..|ms| - 1], ok);
      if before.None? then None else Step(db.table, before.value, ms[|ms| - 1], ok)
  }

  /** The migrations of a list that are, or are not, recorded. */
  function Recorded(table: map<string, string>, ms: seq<Migration>): seq<Migration> {
    if ms == [] then []
    else Recorded(table, ms[..|ms| - 1]) + if Known(table, ms[|ms| - 1]) then [ms[|ms| - 1]] else []
  }

  function Unrecorded(table: map<string, string>, ms: seq<Migration>): seq<Migration> {
    if ms == [] then []
    else Unrecorded(table, ms[..|ms| - 1]) + if Known(table, ms[|ms| - 1]) then [] else [ms[|ms| - 1]]
  }

  /** These are the names of those migrations, in order. */
  predicate Lists(names: seq<string>, ms: seq<Migration>) {
    |names| == |ms| && forall i :: 0 <= i < |ms| ==> names[i] == ms[i].name
  }

  datatype Result = Failed | Done(applied: seq<string>, skipped: seq<string>)

  class MigrationRunner {
    var db: Db

    constructor (db: Db)
      ensures this.db == db
    {
      this.db := db;
    }

    method Apply(ms: seq<Migration>, ok: SqlOk) returns (r: Result)
      modifies this
      ensures r.Failed? <==> Applied(old(db), ms, ok).None?
      ensures r.Failed? ==> db == old(db)
      ensures r.Done? ==> Some(db) == Applied(old(db), ms, ok)
      ensures r.Done? ==> Lists(r.applied, Unrecorded(old(db).table, ms))
      ensures r.Done? ==> Lists(r.skipped, Recorded(old(db).table, ms))
    {
      var work, recorded := db, db.table;
      var applied, skipped := [], [];
      for i := 0 to |ms|
        invariant db == old(db) && Applied(db, ms[..i], ok) == Some(work)
        invariant Lists(applied, Unrecorded(recorded, ms[..i]))
        invariant Lists(skipped, Recorded(recorded, ms[..i]))
      {
        var m := ms[i];
        assert ms[..i + 1][..i] == ms[..i];
        if Known(recorded, m) {
          if recorded[m.name] != m.checksum {
            FailureIsFinal(db, ms, ok, i + 1);
            return Failed;
          }
          skipped := skipped + [m.name];
        } else {
          if !ok(work, m) || m.name in work.table {
            FailureIsFinal(db, ms, ok, i + 1);
            return Failed;
          }
          work := Db(work.table[m.name := m.checksum], work.executed + [m]);
          applied := applied + [m.name];
        }
      }
      assert ms[..|ms|] == ms;
      db := work;
      r := Done(applied, skipped);
    }
  }

  lemma {:induction false} FailureIsFinal(db: Db, ms: seq<Migration>, ok: SqlOk, n: nat)
    requires n <= |ms| && Applied(db, ms[..n], ok) == None
    ensures Applied(db, ms, ok) == None
    decreases |ms| - n
  {
    if n == |ms| {
      assert ms[..n] == ms;
    } else {
      assert ms[..n + 1][..n] == ms[..n];
      FailureIsFinal(db, ms, ok, n + 1);
    }
  }

  // ---------------------------------------------------------------- what one call does

  ghost predicate DistinctNames(ms: seq<Migration>) {
    forall i, j :: 0 <= i < j < |ms| ==> ms[i].name != ms[j].name
  }

  ghost predicate Ran(executed: seq<Migration>, name: string) {
    exists i :: 0 <= i < |executed| && executed[i].name == name
  }

  /** The record says exactly what ran: each name at most once, with the checksum recorded for it. */
  ghost predicate Tidy(db: Db) {
    && DistinctNames(db.executed)
    && (forall i :: 0 <= i < |db.executed| ==>
          db.executed[i].name in db.table && db.table[db.executed[i].name] == db.executed[i].checksum)
    && (forall name :: name in db.table ==> Ran(db.executed, name))
  }

  /** The work for a list, or for the part of it processed so far: its unrecorded migrations ran, in order. */
  ghost predicate RanTheRest(db: Db, ms: seq<Migration>, work: Db) {
    Tidy(work) && work.executed == db.executed + Unrecorded(db.table, ms)
  }

  lemma ExecuteKeepsTidy(db: Db, m: Migration)
    requires Tidy(db) && m.name !in db.table
    ensures Tidy(Db(db.table[m.name := m.checksum], db.executed + [m]))
  {
    var after := Db(db.table[m.name := m.checksum], db.executed + [m]);
    forall name | name in after.table
      ensures Ran(after.executed, name)
    {
      if name == m.name {
        assert after.executed[|db.executed|].name == name;
      } else {
        assert Ran(db.executed, name);
        var i :| 0 <= i < |db.executed| && db.executed[i].name == name;
        assert after.executed[i].name == name;
      }
    }
  }

  lemma StepKeeps(db: Db, init: seq<Migration>, work: Db, m: Migration, ok: SqlOk)
    requires RanTheRest(db, init, work) && Step(db.table, work, m, ok).Some?
    ensures RanTheRest(db, init + [m], Step(db.table, work, m, ok).value)
  {
    assert (init + [m])[..|init|] == init;
    if !Known(db.table, m) {
      ExecuteKeepsTidy(work, m);
    }
  }

  /** Exactly the unrecorded migrations run, once each and in list order, and the record keeps up. */
  lemma {:induction false} AppliedRunsTheRest(db: Db, ms: seq<Migration>, ok: SqlOk)
    requires Tidy(db) && Applied(db, ms, ok).Some?
    ensures RanTheRest(db, ms, Applied(db, ms, ok).value)
  {
    if ms != [] {
      var init := ms[..|ms| - 1];
      AppliedRunsTheRest(db, init, ok);
      StepKeeps(db, init, Applied(db, init, ok).value, ms[|ms| - 1], ok);
      assert init + [ms[|ms| - 1]] == ms;
    }
  }

  /** What ran earlier stays recorded as it was. */
  lemma RecordKept(db: Db, work: Db, name: string)
    requires Tidy(db) && Tidy(work) && db.executed <= work.executed && name in db.table
    ensures name in work.table && work.table[name] == db.table[name]
  {
    assert Ran(db.executed, name);
    var i :| 0 <= i < |db.executed| && db.executed[i].name == name;
    assert work.executed[i] == db.executed[i];
  }

  /** Every listed migration is recorded unchanged, or new: its name neither recorded nor listed twice. */
  ghost predicate Clean(table: map<string, string>, ms: seq<Migration>) {
    && (forall i :: 0 <= i < |ms| ==> CleanEntry(table, ms[i]))
    && forall i, j :: 0 <= i < j < |ms| && ms[i].name == ms[j].name ==> ms[i].name in table
  }

  /** An empty checksum in the record never passes: it does not count as recorded, and its name is taken. */
  predicate CleanEntry(table: map<string, string>, m: Migration) {
    m.name in table ==> table[m.name] == m.checksum && m.checksum != ""
  }

  lemma {:induction false} UnrecordedMembers(table: map<string, string>, ms: seq<Migration>)
    ensures forall m :: m in Unrecorded(table, ms) <==> m in ms && !Known(table, m)
  {
    if ms != [] {
      UnrecordedMembers(table, ms[..|ms| - 1]);
      assert forall m :: m in ms <==> m in ms[..|ms| - 1] || m == ms[|ms| - 1];
    }
  }

  /** Applied and skipped together are the list: nothing lost, nothing reported twice. */
  lemma {:induction false} AppliedAndSkippedPartition(table: map<string, string>, ms: seq<Migration>)
    ensures multiset(Unrecorded(table, ms)) + multiset(Recorded(table, ms)) == multiset(ms)
  {
    if ms != [] {
      AppliedAndSkippedPartition(table, ms[..|ms| - 1]);
      assert ms == ms[..|ms| - 1] + [ms[|ms| - 1]];
    }
  }

  lemma {:induction false} AppliedNeedsClean(db: Db, ms: seq<Migration>, ok: SqlOk, i: nat)
    requires Tidy(db) && Applied(db, ms, ok).Some? && i < |ms|
    ensures CleanEntry(db.table, ms[i])
    decreases |ms|
  {
    var init := ms[..|ms| - 1];
    if i < |init| {
      AppliedNeedsClean(db, init, ok, i);
    } else if ms[i].name in db.table {
      AppliedRunsTheRest(db, init, ok);
      RecordKept(db, Applied(db, init, ok).value, ms[i].name);
    }
  }

  lemma AppliedDistinct(db: Db, ms: seq<Migration>, ok: SqlOk)
    requires Tidy(db) && Applied(db, ms, ok).Some?
    ensures DistinctNames(Unrecorded(db.table, ms))
  {
    AppliedRunsTheRest(db, ms, ok);
    TailDistinct(db.executed, Unrecorded(db.table, ms));
  }

  lemma TailDistinct(a: seq<Migration>, b: seq<Migration>)
    requires DistinctNames(a + b)
    ensures DistinctNames(b)
  {
    forall i, j | 0 <= i < j < |b|
      ensures b[i].name != b[j].name
    {
      assert (a + b)[|a| + i] == b[i] && (a + b)[|a| + j] == b[j];
    }
  }

  lemma CleanPrefix(table: map<string, string>, ms: seq<Migration>)
    requires ms != [] && Clean(table, ms)
    ensures Clean(table, ms[..|ms| - 1])
    ensures forall m :: m in Unrecorded(table, ms[..|ms| - 1]) && !Known(table, ms[|ms| - 1]) ==>
      m.name != ms[|ms| - 1].name
  {
    var init, last := ms[..|ms| - 1], ms[|ms| - 1];
    assert forall i :: 0 <= i < |init| ==> init[i] == ms[i];
    UnrecordedMembers(table, init);
    forall m | m in Unrecorded(table, init) && !Known(table, last)
      ensures m.name != last.name
    {
      var i :| 0 <= i < |init| && init[i] == m;
      assert CleanEntry(table, last) && ms[i] == m;
    }
  }

  /** A new name listed twice stays twice among the unrecorded ones. */
  lemma {:induction false} ListedTwice(table: map<string, string>, ms: seq<Migration>, i: nat, j: nat)
    requires i < j < |ms| && ms[i].name == ms[j].name && ms[i].name !in table
    ensures !DistinctNames(Unrecorded(table, ms))
  {
    var init, last := ms[..|ms| - 1], ms[|ms| - 1];
    var before, rest := Unrecorded(table, init), Unrecorded(table, ms);
    assert forall k :: 0 <= k < |before| ==> before[k] == rest[k];
    if j < |init| {
      ListedTwice(table, init, i, j);
    } else {
      UnrecordedMembers(table, init);
      assert init[i] in before;
      var k :| 0 <= k < |before| && before[k] == init[i];
      assert rest[|before|] == last && rest[k] == init[i];
    }
  }

  lemma {:induction false} CleanApplies(db: Db, ms: seq<Migration>, ok: SqlOk)
    requires Tidy(db) && Clean(db.table, ms) && forall d, m :: ok(d, m)
    ensures Applied(db, ms, ok).Some?
  {
    if ms != [] {
      var init, last := ms[..|ms| - 1], ms[|ms| - 1];
      CleanPrefix(db.table, ms);
      CleanApplies(db, init, ok);
      AppliedRunsTheRest(db, init, ok);
      var work := Applied(db, init, ok).value;
      assert CleanEntry(db.table, last);
      assert last.name in work.table ==> Ran(work.executed, last.name);
      assert forall i :: 0 <= i < |db.executed| ==> db.executed[i].name in db.table;
    }
  }

  /** As long as no script fails, a call succeeds exactly on clean lists. */
  lemma AppliesIffClean(db: Db, ms: seq<Migration>, ok: SqlOk)
    requires Tidy(db) && forall d, m :: ok(d, m)
    ensures Applied(db, ms, ok).Some? <==> Clean(db.table, ms)
  {
    if Applied(db, ms, ok).Some? {
      AppliedDistinct(db, ms, ok);
      forall i | 0 <= i < |ms|
        ensures CleanEntry(db.table, ms[i])
      {
        AppliedNeedsClean(db, ms, ok, i);
      }
      forall i, j | 0 <= i < j < |ms| && ms[i].name == ms[j].name
        ensures ms[i].name in db.table
      {
        if ms[i].name !in db.table {
          ListedTwice(db.table, ms, i, j);
        }
      }
    }
    if Clean(db.table, ms) {
      CleanApplies(db, ms, ok);
    }
  }

  /** A call that succeeds runs exactly the listed migrations whose names were not in the record. */
  lemma RunsExactlyTheNew(db: Db, ms: seq<Migration>, ok: SqlOk, m: Migration)
    requires Tidy(db) && Applied(db, ms, ok).Some?
    ensures db.executed <= Applied(db, ms, ok).value.executed
    ensures m in Applied(db, ms, ok).value.executed[|db.executed|..] <==> m in ms && m.name !in db.table
  {
    AppliedRunsTheRest(db, ms, ok);
    UnrecordedMembers(db.table, ms);
    assert Applied(db, ms, ok).value.executed[|db.executed|..] == Unrecorded(db.table, ms);
    if m in ms {
      var i :| 0 <= i < |ms| && ms[i] == m;
      AppliedNeedsClean(db, ms, ok, i);
    }
  }

  /** After a call that succeeds, every listed migration is recorded with its own checksum. */
  lemma AllRecorded(db: Db, ms: seq<Migration>, ok: SqlOk, i: nat)
    requires Tidy(db) && Applied(db, ms, ok).Some? && i < |ms|
    ensures ms[i].name in Applied(db, ms, ok).value.table
    ensures Applied(db, ms, ok).value.table[ms[i].name] == ms[i].checksum
  {
    var after := Applied(db, ms, ok).value;
    AppliedRunsTheRest(db, ms, ok);
    AppliedNeedsClean(db, ms, ok, i);
    if Known(db.table, ms[i]) {
      RecordKept(db, after, ms[i].name);
    } else {
      UnrecordedMembers(db.table, ms);
      assert ms[i] in Unrecorded(db.table, ms);
      assert ms[i] in after.executed;
    }
  }

  lemma {:induction false} NothingLeft(db: Db, ms: seq<Migration>, ok: SqlOk)
    requires forall i :: 0 <= i < |ms| ==> Known(db.table, ms[i]) && db.table[ms[i].name] == ms[i].checksum
    ensures Applied(db, ms, ok) == Some(db) && Unrecorded(db.table, ms) == []
  {
    if ms != [] {
      NothingLeft(db, ms[..|ms| - 1], ok);
    }
  }

  /** Once a list has succeeded, running it again does nothing, whatever ran in between. */
  lemma ReapplyDoesNothing(db: Db, ms: seq<Migration>, ok: SqlOk, later: Db)
    requires Tidy(db) && Applied(db, ms, ok).Some? && forall i :: 0 <= i < |ms| ==> ms[i].checksum != ""
    requires Tidy(later) && Applied(db, ms, ok).value.executed <= later.executed
    ensures Applied(later, ms, ok) == Some(later) && Unrecorded(later.table, ms) == []
  {
    AppliedRunsTheRest(db, ms, ok);
    forall i | 0 <= i < |ms|
      ensures Known(later.table, ms[i]) && later.table[ms[i].name] == ms[i].checksum
    {
      AllRecorded(db, ms, ok, i);
      RecordKept(Applied(db, ms, ok).value, later, ms[i].name);
    }
    NothingLeft(later, ms, ok);
  }

  /** A recorded migration that changed makes every call that lists it fail. */
  lemma ChangedMigrationRefused(db: Db, ms: seq<Migration>, ok: SqlOk, i: nat)
    requires Tidy(db) && i < |ms| && Known(db.table, ms[i]) && db.table[ms[i].name] != ms[i].checksum
    ensures Applied(db, ms, ok) == None
  {
    if Applied(db, ms, ok).Some? {
      AppliedNeedsClean(db, ms, ok, i);
    }
  }

  // ---------------------------------------------------------------- runners that compete for the lock

  /** A runner's open transaction: the list, how far it got, the table as it read it, and its uncommitted work. */
  datatype Tx = Tx(ms: seq<Migration>, pos: nat, recorded: map<string, string>, work: Db)

  /** The committed database, the runners waiting for the lock, and the one inside it. */
  datatype System = System(db: Db, waiting: map<nat, seq<Migration>>, holder: Option<Tx>)

  datatype Event =
    | Starts(runner: nat, ms: seq<Migration>)
    | Locks(runner: nat)
    | RunsOne(ok: SqlOk)
    | Commits
    | Aborts

  predicate Enabled(s: System, e: Event) {
    match e
    case Starts(runner, _) => runner !in s.waiting
    case Locks(runner) => runner in s.waiting && s.holder.None?
    case RunsOne(ok) =>
      && s.holder.Some? && s.holder.value.pos < |s.holder.value.ms|
      && Step(s.holder.value.recorded, s.holder.value.work, s.holder.value.ms[s.holder.value.pos], ok).Some?
    case Commits => s.holder.Some? && s.holder.value.pos == |s.holder.value.ms|
    case Aborts => s.holder.Some?
  }

  /** A script or checksum that throws leads to `Aborts`; so does a lost connection. */
  function Next(s: System, e: Event): System
    requires Enabled(s, e)
  {
    match e
    case Starts(runner, ms) => s.(waiting := s.waiting[runner := ms])
    case Locks(runner) =>
      s.(waiting := s.waiting - {runner}, holder := Some(Tx(s.waiting[runner], 0, s.db.table, s.db)))
    case RunsOne(ok) =>
      var t := s.holder.value;
      s.(holder := Some(t.(pos := t.pos + 1, work := Step(t.recorded, t.work, t.ms[t.pos], ok).value)))
    case Commits => s.(db := s.holder.value.work, holder := None)
    case Aborts => s.(holder := None)
  }

  /** The lock holder works on the committed record, never on a stale one. */
  ghost predicate Inv(s: System) {
    && Tidy(s.db)
    && (s.holder.Some? ==>
          var t := s.holder.value;
          t.pos <= |t.ms| && t.recorded == s.db.table && RanTheRest(s.db, t.ms[..t.pos], t.work))
  }

  lemma StepInv(s: System, e: Event)
    requires Inv(s) && Enabled(s, e)
    ensures Inv(Next(s, e))
  {
    if e.RunsOne? {
      var t := s.holder.value;
      StepKeeps(s.db, t.ms[..t.pos], t.work, t.ms[t.pos], e.ok);
      assert t.ms[..t.pos] + [t.ms[t.pos]] == t.ms[..t.pos + 1];
    }
  }

  ghost predicate IsRun(run: seq<System>, events: seq<Event>) {
    && |run| == |events| + 1
    && run[0] == System(Db(map[], []), map[], None)
    && forall i :: 0 <= i < |events| ==> Enabled(run[i], events[i]) && run[i + 1] == Next(run[i], events[i])
  }

  lemma {:induction false} RunInv(run: seq<System>, events: seq<Event>, i: nat)
    requires IsRun(run, events) && i < |run|
    ensures Inv(run[i])
  {
    if i > 0 {
      RunInv(run, events, i - 1);
      StepInv(run[i - 1], events[i - 1]);
    }
  }

  // ---------------------------------------------------------------- what every interleaving guarantees

  /** However runners interleave, no migration takes effect twice and the record matches what ran. */
  lemma EachMigrationOnce(run: seq<System>, events: seq<Event>, i: nat)
    requires IsRun(run, events) && i < |run|
    ensures Tidy(run[i].db)
  {
    RunInv(run, events, i);
  }

  /** A transaction that commits has run exactly what the record, at that moment, lacked of its list. */
  lemma CommitRunsTheRest(run: seq<System>, events: seq<Event>, i: nat)
    requires IsRun(run, events) && i < |events| && events[i] == Commits
    ensures var list := run[i].holder.value.ms;
            run[i + 1].db.executed == run[i].db.executed + Unrecorded(run[i].db.table, list)
  {
    RunInv(run, events, i);
    var t := run[i].holder.value;
    assert t.ms[..t.pos] == t.ms;
  }

  lemma {:induction false} OnlyCommitsChange(run: seq<System>, events: seq<Event>, i: nat, j: nat)
    requires IsRun(run, events) && i <= j < |run|
    ensures run[i].db.executed <= run[j].db.executed
    ensures (forall k :: i <= k < j ==> events[k] != Commits) ==> run[j].db == run[i].db
    decreases j
  {
    if i < j {
      OnlyCommitsChange(run, events, i, j - 1);
      if events[j - 1] == Commits {
        CommitRunsTheRest(run, events, j - 1);
      }
    }
  }

  /** Once a migration is recorded, a changed version of it is refused in every later state, whoever lists it. */
  lemma ChangedRefusedForever(
      run: seq<System>, events: seq<Event>, i: nat, j: nat, ms: seq<Migration>, k: nat, ok: SqlOk)
    requires IsRun(run, events) && i <= j < |run| && k < |ms|
    requires Known(run[i].db.table, ms[k]) && run[i].db.table[ms[k].name] != ms[k].checksum
    ensures Applied(run[j].db, ms, ok) == None
  {
    EachMigrationOnce(run, events, i);
    EachMigrationOnce(run, events, j);
    OnlyCommitsChange(run, events, i, j);
    RecordKept(run[i].db, run[j].db, ms[k].name);
    ChangedMigrationRefused(run[j].db, ms, ok, k);
  }
}
