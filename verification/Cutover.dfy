/**
  The whole migration as steps that interleave: the two halves of live inserts, the backfill's cursor,
  its batches and retries, and the stage changes.
 */
module Cutover {
  import opened Outcomes
  import opened DualWrite
  import opened Backfill

  /** The backfill has not begun, reads its cursor, retries a batch row by row from `next` on, or has ended. */
  datatype Phase = Idle | Reading | Retrying(next: nat) | Finished

  datatype State = State(
    sqlite: Table,
    pg: Table,
    stage: nat,
    /** live inserts whose SQLite half is done and whose PostgreSQL half is not */
    halfDone: map<Id, Row>,
    /** inserts that SQLite refused, for an error or a taken id, and whose PostgreSQL half is not done */
    strays: map<Id, Row>,
    /** live inserts for which the PostgreSQL half reported an error */
    reported: set<Id>,
    phase: Phase,
    /** ids that the cursor will still yield */
    ahead: set<Id>,
    batch: seq<IdRow>,
    /** rows whose retry reported an error */
    failed: set<Id>,
    rowsRead: nat,
    rowsInserted: nat,
    rowsFailed: nat)

  datatype Event =
    | SqliteHalf(id: Id, row: Row, seenByCursor: bool)
    | PgHalf(id: Id, fault: Fault)
    | SqliteFails(id: Id, row: Row)
    | StrayPgHalf(id: Id, fault: Fault)
    | ChangeStage(to: nat)
    | BeginBackfill
    | ReadRow(id: Id)
    | FlushBatch
    | FlushRaises(left: nat)
    | RetryRow(fault: Fault)
    | EndBackfill

  function Initial(sqlite: Table, pg: Table): State {
    State(sqlite, pg, 0, map[], map[], {}, Idle, {}, [], {}, 0, 0, 0)
  }

  /** The rows that the current batch has still to deliver. */
  function Waiting(s: State): seq<IdRow> {
    if s.phase.Retrying? && s.phase.next <= |s.batch| then s.batch[s.phase.next..] else s.batch
  }

  predicate BatchDue(s: State, batchSize: int) {
    s.phase.Reading? && s.batch != [] && (|s.batch| >= batchSize || s.ahead == {})
  }

  predicate Enabled(batchSize: int, s: State, e: Event) {
    match e
    case SqliteHalf(id, _, _) => s.stage < |STAGES| && WritesSqlite(STAGES[s.stage].write) && id !in s.sqlite
    case PgHalf(id, _) => id in s.halfDone
    case SqliteFails(id, _) => s.stage < |STAGES| && WritesSqlite(STAGES[s.stage].write) && id !in s.strays
    case StrayPgHalf(id, _) => id in s.strays
    case ChangeStage(to) => to < |STAGES|
    case BeginBackfill => s.phase.Idle?
    case ReadRow(id) => s.phase.Reading? && id in s.ahead && id in s.sqlite && (s.batch == [] || |s.batch| < batchSize)
    case FlushBatch => BatchDue(s, batchSize)
    case FlushRaises(_) => BatchDue(s, batchSize)
    case RetryRow(_) => s.phase.Retrying? && s.phase.next < |s.batch|
    case EndBackfill => s.phase.Reading? && s.ahead == {} && s.batch == []
  }

  const NO_REJECTS: IdRow -> bool := r => false

  function After(batchSize: int, rule: Rule, s: State, e: Event): State
    requires Enabled(batchSize, s, e)
  {
    match e
    case SqliteHalf(id, row, seen) =>
      s.(sqlite := Inserted(s.sqlite, id, row, NoFault),
         halfDone := s.halfDone[id := row],
         ahead := if seen && (s.phase.Reading? || s.phase.Retrying?) then s.ahead + {id} else s.ahead)
    case PgHalf(id, fault) =>
      s.(pg := Inserted(s.pg, id, s.halfDone[id], fault),
         reported := if InsertOk(s.pg, id, fault) then s.reported else s.reported + {id},
         halfDone := s.halfDone - {id})
    case SqliteFails(id, row) => s.(strays := s.strays[id := row])
    case StrayPgHalf(id, fault) => s.(pg := Inserted(s.pg, id, s.strays[id], fault), strays := s.strays - {id})
    case ChangeStage(to) => s.(stage := to)
    case BeginBackfill => s.(phase := Reading, ahead := s.sqlite.Keys)
    case ReadRow(id) =>
      s.(batch := s.batch + [IdRow(id, s.sqlite[id])], ahead := s.ahead - {id}, rowsRead := s.rowsRead + 1)
    case FlushBatch =>
      s.(pg := UpsertAll(rule, NO_REJECTS, s.pg, s.batch), batch := [], rowsInserted := s.rowsInserted + |s.batch|)
    case FlushRaises(left) =>
      s.(pg := UpsertAll(rule, NO_REJECTS, s.pg, if left <= |s.batch| then s.batch[..left] else s.batch),
         phase := Retrying(0))
    case RetryRow(fault) =>
      var r := s.batch[s.phase.next];
      var tried := s.(
        pg := if fault.Refused? then s.pg else Upsert(rule, s.pg, r),
        rowsInserted := if fault.NoFault? then s.rowsInserted + 1 else s.rowsInserted,
        rowsFailed := if fault.NoFault? then s.rowsFailed else s.rowsFailed + 1,
        failed := if fault.NoFault? then s.failed else s.failed + {r.id});
      if s.phase.next + 1 == |s.batch| then tried.(phase := Reading, batch := [])
      else tried.(phase := Retrying(s.phase.next + 1))
    case EndBackfill => s.(phase := Finished)
  }

  /** An event that cannot happen in a state leaves it as it is. */
  function Next(batchSize: int, rule: Rule, s: State, e: Event): State {
    if Enabled(batchSize, s, e) then After(batchSize, rule, s, e) else s
  }

  function Reached(batchSize: int, rule: Rule, start: State, events: seq<Event>): State {
    if events == [] then start
    else Next(batchSize, rule, Reached(batchSize, rule, start, events[..|events| - 1]), events[|events| - 1])
  }

  // ---- the invariant ----

  /** PostgreSQL, the batch, the cursor and the half-done inserts hold only SQLite's rows. */
  ghost predicate OnlySqliteRows(s: State) {
    && SubMap(s.pg, s.sqlite)
    && SubMap(s.halfDone, s.sqlite)
    && RowsFrom(s.batch, s.sqlite)
    && (forall id :: id in s.ahead || id in s.reported || id in s.failed ==> id in s.sqlite)
  }

  ghost predicate InRows(rows: seq<IdRow>, id: Id) {
    exists i :: 0 <= i < |rows| && rows[i].id == id
  }

  /** Where a row of SQLite can be, once the backfill has begun. */
  ghost predicate Accounted(s: State, id: Id) {
    id in s.pg || id in s.halfDone || id in s.ahead || InRows(Waiting(s), id) || id in s.reported || id in s.failed
  }

  ghost predicate NothingLost(s: State) {
    !s.phase.Idle? ==> forall id :: id in s.sqlite ==> Accounted(s, id)
  }

  ghost predicate PhaseFits(s: State) {
    && (s.phase.Idle? || s.phase.Finished? ==> s.ahead == {} && s.batch == [])
    && (s.phase.Retrying? ==> s.phase.next < |s.batch|)
    && (s.rowsFailed == 0 ==> s.failed == {})
    && s.rowsRead == s.rowsInserted + s.rowsFailed + |Waiting(s)|
  }

  ghost predicate Inv(s: State) {
    OnlySqliteRows(s) && NothingLost(s) && PhaseFits(s)
  }

  lemma UpsertBatch(rule: Rule, pg: Table, sqlite: Table, rows: seq<IdRow>)
    requires SubMap(pg, sqlite) && RowsFrom(rows, sqlite)
    ensures SubMap(UpsertAll(rule, NO_REJECTS, pg, rows), sqlite)
    ensures forall id :: id in pg || InRows(rows, id) ==> id in UpsertAll(rule, NO_REJECTS, pg, rows)
  {
    CopyOf(rule, NO_REJECTS, pg, sqlite, rows);
    forall id | InRows(rows, id) ensures id in UpsertAll(rule, NO_REJECTS, pg, rows) {
      var i :| 0 <= i < |rows| && rows[i].id == id;
      assert rows[i] in rows;
      assert rows[i] == IdRow(id, sqlite[id]);
    }
  }

  lemma KeepSqliteHalf(batchSize: int, rule: Rule, s: State, e: Event)
    requires Inv(s) && e.SqliteHalf? && Enabled(batchSize, s, e)
    ensures Inv(After(batchSize, rule, s, e))
  {
    var t := After(batchSize, rule, s, e);
    assert Waiting(t) == Waiting(s);
    forall id | id in t.sqlite && !t.phase.Idle? ensures Accounted(t, id) {
      if id != e.id {
        assert Accounted(s, id);
      }
    }
  }

  lemma KeepPgHalf(batchSize: int, rule: Rule, s: State, e: Event)
    requires Inv(s) && e.PgHalf? && Enabled(batchSize, s, e)
    ensures Inv(After(batchSize, rule, s, e))
  {
    var t := After(batchSize, rule, s, e);
    assert Waiting(t) == Waiting(s);
    forall id | id in t.sqlite && !t.phase.Idle? ensures Accounted(t, id) {
      assert Accounted(s, id);
    }
  }

  lemma KeepRead(batchSize: int, rule: Rule, s: State, e: Event)
    requires Inv(s) && e.ReadRow? && Enabled(batchSize, s, e)
    ensures Inv(After(batchSize, rule, s, e))
  {
    var t := After(batchSize, rule, s, e);
    var r := IdRow(e.id, s.sqlite[e.id]);
    assert Waiting(s) == s.batch && Waiting(t) == s.batch + [r];
    forall id | id in t.sqlite ensures Accounted(t, id) {
      assert Accounted(s, id);
      if id == e.id {
        assert Waiting(t)[|s.batch|].id == id;
      } else if InRows(s.batch, id) {
        var i :| 0 <= i < |s.batch| && s.batch[i].id == id;
        assert Waiting(t)[i].id == id;
      }
    }
  }

  lemma KeepFlush(batchSize: int, rule: Rule, s: State, e: Event)
    requires Inv(s) && (e.FlushBatch? || e.FlushRaises?) && Enabled(batchSize, s, e)
    ensures Inv(After(batchSize, rule, s, e))
  {
    var t := After(batchSize, rule, s, e);
    assert Waiting(s) == s.batch;
    if e.FlushBatch? {
      UpsertBatch(rule, s.pg, s.sqlite, s.batch);
      assert Waiting(t) == [];
    } else {
      UpsertBatch(rule, s.pg, s.sqlite, if e.left <= |s.batch| then s.batch[..e.left] else s.batch);
      assert Waiting(t) == s.batch;
    }
    forall id | id in t.sqlite ensures Accounted(t, id) {
      assert Accounted(s, id);
    }
  }

  lemma RowsTail(rows: seq<IdRow>, id: Id)
    requires rows != [] && InRows(rows, id) && id != rows[0].id
    ensures InRows(rows[1..], id)
  {
    var i :| 0 <= i < |rows| && rows[i].id == id;
    assert rows[1..][i - 1].id == id;
  }

  lemma FirstWaiting(rows: seq<IdRow>, next: nat)
    requires next < |rows|
    ensures rows[next..] != [] && rows[next..][0] == rows[next] && rows[next..][1..] == rows[next + 1..]
  {
  }

  lemma RetryMoves(batchSize: int, rule: Rule, s: State, e: Event)
    requires e.RetryRow? && Enabled(batchSize, s, e)
    ensures Waiting(s) != [] && Waiting(s)[0] == s.batch[s.phase.next]
    ensures Waiting(After(batchSize, rule, s, e)) == Waiting(s)[1..]
  {
    FirstWaiting(s.batch, s.phase.next);
  }

  lemma RetryFits(batchSize: int, rule: Rule, s: State, e: Event)
    requires PhaseFits(s) && e.RetryRow? && Enabled(batchSize, s, e)
    ensures PhaseFits(After(batchSize, rule, s, e))
  {
    RetryMoves(batchSize, rule, s, e);
  }

  lemma RetryKeepsRows(batchSize: int, rule: Rule, s: State, e: Event)
    requires OnlySqliteRows(s) && e.RetryRow? && Enabled(batchSize, s, e)
    ensures OnlySqliteRows(After(batchSize, rule, s, e))
  {
    var r := s.batch[s.phase.next];
    assert r in s.batch;
  }

  lemma RetryAccounts(batchSize: int, rule: Rule, s: State, e: Event, id: Id)
    requires Inv(s) && e.RetryRow? && Enabled(batchSize, s, e) && Accounted(s, id)
    ensures Accounted(After(batchSize, rule, s, e), id)
  {
    RetryMoves(batchSize, rule, s, e);
    if InRows(Waiting(s), id) && id != Waiting(s)[0].id {
      RowsTail(Waiting(s), id);
    }
  }

  lemma KeepRetry(batchSize: int, rule: Rule, s: State, e: Event)
    requires Inv(s) && e.RetryRow? && Enabled(batchSize, s, e)
    ensures Inv(After(batchSize, rule, s, e))
  {
    RetryFits(batchSize, rule, s, e);
    RetryKeepsRows(batchSize, rule, s, e);
    forall id | id in s.sqlite ensures Accounted(After(batchSize, rule, s, e), id) {
      assert Accounted(s, id);
      RetryAccounts(batchSize, rule, s, e, id);
    }
  }

  lemma KeepOther(batchSize: int, rule: Rule, s: State, e: Event)
    requires Inv(s) && (e.ChangeStage? || e.BeginBackfill? || e.EndBackfill?) && Enabled(batchSize, s, e)
    ensures Inv(After(batchSize, rule, s, e))
  {
    var t := After(batchSize, rule, s, e);
    assert Waiting(t) == Waiting(s);
    forall id | id in t.sqlite && !t.phase.Idle? ensures Accounted(t, id) {
      if !s.phase.Idle? {
        assert Accounted(s, id);
      }
    }
  }

  /** PostgreSQL does not take the row of a stray insert, or SQLite holds that very row. */
  predicate Harmless(s: State, e: Event) {
    e.StrayPgHalf? && e.id in s.strays ==>
      e.id in s.pg || e.fault.Refused? || Look(s.sqlite, e.id) == Some(s.strays[e.id])
  }

  lemma KeepStray(batchSize: int, rule: Rule, s: State, e: Event)
    requires Inv(s) && (e.SqliteFails? || e.StrayPgHalf?) && Enabled(batchSize, s, e) && Harmless(s, e)
    ensures Inv(After(batchSize, rule, s, e))
  {
    var t := After(batchSize, rule, s, e);
    assert Waiting(t) == Waiting(s);
    forall id | id in t.sqlite && !t.phase.Idle? ensures Accounted(t, id) {
      assert Accounted(s, id);
    }
  }

  /**
    Every step of the protocol, whatever fails, keeps the invariant, except the PostgreSQL half of a harmful
    stray insert.
   */
  lemma StepKeeps(batchSize: int, rule: Rule, s: State, e: Event)
    requires Inv(s) && Harmless(s, e)
    ensures Inv(Next(batchSize, rule, s, e))
  {
    if Enabled(batchSize, s, e) {
      match e {
        case SqliteHalf(_, _, _) => KeepSqliteHalf(batchSize, rule, s, e);
        case PgHalf(_, _) => KeepPgHalf(batchSize, rule, s, e);
        case SqliteFails(_, _) => KeepStray(batchSize, rule, s, e);
        case StrayPgHalf(_, _) => KeepStray(batchSize, rule, s, e);
        case ChangeStage(_) => KeepOther(batchSize, rule, s, e);
        case BeginBackfill => KeepOther(batchSize, rule, s, e);
        case ReadRow(_) => KeepRead(batchSize, rule, s, e);
        case FlushBatch => KeepFlush(batchSize, rule, s, e);
        case FlushRaises(_) => KeepFlush(batchSize, rule, s, e);
        case RetryRow(_) => KeepRetry(batchSize, rule, s, e);
        case EndBackfill => KeepOther(batchSize, rule, s, e);
      }
    }
  }

  /** No event of the run is harmful in its state. */
  predicate AllHarmless(batchSize: int, rule: Rule, start: State, events: seq<Event>) {
    events == [] ||
    var before := events[..|events| - 1];
    && AllHarmless(batchSize, rule, start, before)
    && Harmless(Reached(batchSize, rule, start, before), events[|events| - 1])
  }

  /** Runs in which SQLite takes every insert are harmless. */
  lemma {:induction false} NoStrays(batchSize: int, rule: Rule, start: State, events: seq<Event>)
    requires forall i :: 0 <= i < |events| ==> !events[i].StrayPgHalf?
    ensures AllHarmless(batchSize, rule, start, events)
  {
    if events != [] {
      var before := events[..|events| - 1];
      assert forall i :: 0 <= i < |before| ==> before[i] == events[i];
      NoStrays(batchSize, rule, start, before);
    }
  }

  /** In every such run, from any SQLite table and any part of it in PostgreSQL, the invariant holds. */
  lemma {:induction false} AlwaysAccounted(batchSize: int, rule: Rule, sqlite: Table, pg: Table, events: seq<Event>)
    requires SubMap(pg, sqlite) && AllHarmless(batchSize, rule, Initial(sqlite, pg), events)
    ensures Inv(Reached(batchSize, rule, Initial(sqlite, pg), events))
  {
    if events != [] {
      var before := events[..|events| - 1];
      AlwaysAccounted(batchSize, rule, sqlite, pg, before);
      StepKeeps(batchSize, rule, Reached(batchSize, rule, Initial(sqlite, pg), before), events[|events| - 1]);
    }
  }

  // ---- what the cursor reads ----

  /** The rows that the cursor has to yield: all that SQLite holds at the beginning, and the later ones that it sees. */
  function ToRead(batchSize: int, rule: Rule, start: State, events: seq<Event>): nat {
    if events == [] then 0
    else
      var before, e := events[..|events| - 1], events[|events| - 1];
      var s := Reached(batchSize, rule, start, before);
      ToRead(batchSize, rule, start, before) +
      match e
      case BeginBackfill => if s.phase.Idle? then |s.sqlite| else 0
      case SqliteHalf(_, _, seen) =>
        if Enabled(batchSize, s, e) && seen && (s.phase.Reading? || s.phase.Retrying?) then 1 else 0
      case _ => 0
  }

  /** The cursor's position: batches never exceed their size, and nothing is ahead outside of a backfill. */
  predicate CursorFits(batchSize: int, s: State) {
    && s.ahead <= s.sqlite.Keys
    && (|s.batch| <= 1 || |s.batch| <= batchSize)
    && (s.phase.Idle? ==> s.ahead == {} && s.rowsRead == 0)
    && (s.phase.Finished? ==> s.ahead == {})
  }

  lemma CursorMoves(batchSize: int, rule: Rule, s: State, e: Event)
    requires CursorFits(batchSize, s) && Enabled(batchSize, s, e)
    ensures var t := After(batchSize, rule, s, e);
            && CursorFits(batchSize, t)
            && t.rowsRead + |t.ahead| == s.rowsRead + |s.ahead| +
               match e
               case BeginBackfill => |s.sqlite|
               case SqliteHalf(_, _, seen) => if seen && (s.phase.Reading? || s.phase.Retrying?) then 1 else 0
               case _ => 0
  {
  }

  lemma {:induction false} CursorReads(batchSize: int, rule: Rule, sqlite: Table, pg: Table, events: seq<Event>)
    ensures var s := Reached(batchSize, rule, Initial(sqlite, pg), events);
            && CursorFits(batchSize, s)
            && s.rowsRead + |s.ahead| == ToRead(batchSize, rule, Initial(sqlite, pg), events)
  {
    if events != [] {
      var before, e := events[..|events| - 1], events[|events| - 1];
      CursorReads(batchSize, rule, sqlite, pg, before);
      var s := Reached(batchSize, rule, Initial(sqlite, pg), before);
      if Enabled(batchSize, s, e) {
        CursorMoves(batchSize, rule, s, e);
      }
    }
  }

  /**
    In every run a finished backfill has read each row that SQLite held when it began, and each later one that
    the cursor saw, exactly once; and every batch that was sent was a full one or the last for the moment.
   */
  lemma EveryRowIsRead(batchSize: int, rule: Rule, sqlite: Table, pg: Table, events: seq<Event>)
    ensures var s := Reached(batchSize, rule, Initial(sqlite, pg), events);
            && (s.phase.Finished? ==> s.rowsRead == ToRead(batchSize, rule, Initial(sqlite, pg), events))
            && (Enabled(batchSize, s, FlushBatch) ==>
                  s.ahead == {} || |s.batch| == if batchSize >= 1 then batchSize else 1)
  {
    CursorReads(batchSize, rule, sqlite, pg, events);
    ReadsAll(batchSize, Reached(batchSize, rule, Initial(sqlite, pg), events),
             ToRead(batchSize, rule, Initial(sqlite, pg), events));
  }

  lemma ReadsAll(batchSize: int, s: State, n: nat)
    requires CursorFits(batchSize, s) && s.rowsRead + |s.ahead| == n
    ensures s.phase.Finished? ==> s.rowsRead == n
    ensures Enabled(batchSize, s, FlushBatch) ==> s.ahead == {} || |s.batch| == if batchSize >= 1 then batchSize else 1
  {
  }

  // ---- the halves are those of one write ----

  /**
    In the stages that write both databases a write is the two halves one after the other: the same tables,
    and an error of PostgreSQL exactly where the second half reports one.
   */
  lemma WriteIsTwoHalves(batchSize: int, rule: Rule, s: State, id: Id, row: Row, sqliteFault: Fault,
                         pgFault: Fault, seen: bool)
    requires s.stage < 3 && id !in s.sqlite && id !in s.reported && sqliteFault != Refused
    ensures var t := Next(batchSize, rule, Next(batchSize, rule, s, SqliteHalf(id, row, seen)), PgHalf(id, pgFault));
            var w := AfterExecute(STAGES[s.stage].write, s.sqlite, s.pg, id, row, sqliteFault, pgFault);
            && t.sqlite == w.sqlite == s.sqlite[id := row]
            && t.pg == w.pg
            && (id in t.reported <==> w.pgError)
  {
    StageWritesBoth(s.stage);
  }

  /** If SQLite does not take the row, the write is a refused first half and the second half of a stray insert. */
  lemma RefusedWriteIsTwoHalves(batchSize: int, rule: Rule, s: State, id: Id, row: Row, sqliteFault: Fault,
                                pgFault: Fault)
    requires s.stage < 3 && id !in s.strays && (id in s.sqlite || sqliteFault == Refused)
    ensures var t := Next(batchSize, rule, Next(batchSize, rule, s, SqliteFails(id, row)), StrayPgHalf(id, pgFault));
            var w := AfterExecute(STAGES[s.stage].write, s.sqlite, s.pg, id, row, sqliteFault, pgFault);
            t.sqlite == w.sqlite == s.sqlite && t.pg == w.pg && w.sqliteError
  {
    StageWritesBoth(s.stage);
  }

  lemma StageWritesBoth(stage: nat)
    requires stage < 3
    ensures WritesSqlite(STAGES[stage].write) && WritesPg(STAGES[stage].write)
  {
  }

  /** The last stage writes PostgreSQL alone, so that no insert of it has a first half. */
  lemma LastStageWrites(batchSize: int, rule: Rule, s: State, id: Id, row: Row, sqliteFault: Fault, pgFault: Fault,
                        seen: bool)
    requires s.stage == 3
    ensures Next(batchSize, rule, s, SqliteHalf(id, row, seen)) == Next(batchSize, rule, s, SqliteFails(id, row)) == s
    ensures var w := AfterExecute(STAGES[3].write, s.sqlite, s.pg, id, row, sqliteFault, pgFault);
            && w.sqlite == s.sqlite && !w.sqliteError
            && w.pg == (if id !in s.pg && pgFault != Refused then s.pg[id := row] else s.pg)
            && (w.pgError <==> id in s.pg || pgFault != NoFault)
  {
  }

  // ---- what follows for the migration ----

  /**
    The backfill loses nothing: once it has ended, a row that PostgreSQL lacks is a live insert still
    half done, or one whose error was reported, or one counted as failed. With none of these the tables
    are equal.
   */
  lemma BackfillLosesNothing(batchSize: int, rule: Rule, sqlite: Table, pg: Table, events: seq<Event>)
    requires SubMap(pg, sqlite) && AllHarmless(batchSize, rule, Initial(sqlite, pg), events)
    ensures var s := Reached(batchSize, rule, Initial(sqlite, pg), events);
            s.phase.Finished? ==>
              && (forall id :: id in s.sqlite && id !in s.pg ==> id in s.halfDone || id in s.reported || id in s.failed)
              && s.rowsRead == s.rowsInserted + s.rowsFailed
              && (s.halfDone == map[] && s.reported == {} && s.rowsFailed == 0 ==> s.pg == s.sqlite)
  {
    AlwaysAccounted(batchSize, rule, sqlite, pg, events);
    var s := Reached(batchSize, rule, Initial(sqlite, pg), events);
    if s.phase.Finished? {
      assert Waiting(s) == [];
      forall id | id in s.sqlite && id !in s.pg ensures id in s.halfDone || id in s.reported || id in s.failed {
        assert Accounted(s, id);
      }
      if forall id :: id in s.sqlite ==> id in s.pg {
        assert s.pg == s.sqlite;
      }
    }
  }

  /** After a finished backfill only the rows with an error need a second look. */
  lemma EqualExactly(batchSize: int, rule: Rule, sqlite: Table, pg: Table, events: seq<Event>)
    requires SubMap(pg, sqlite) && AllHarmless(batchSize, rule, Initial(sqlite, pg), events)
    ensures var s := Reached(batchSize, rule, Initial(sqlite, pg), events);
            s.phase.Finished? && s.halfDone == map[] ==>
              (s.pg == s.sqlite <==> forall id :: id in s.reported || id in s.failed ==> id in s.pg)
  {
    AlwaysAccounted(batchSize, rule, sqlite, pg, events);
    BackfillLosesNothing(batchSize, rule, sqlite, pg, events);
    var s := Reached(batchSize, rule, Initial(sqlite, pg), events);
    if forall id :: id in s.sqlite ==> id in s.pg {
      assert s.pg == s.sqlite;
    }
  }

  /**
    Before the cutover no client can tell the migration from a SQLite-only deployment by reading ids: at
    every moment of every run, between the halves of an insert and inside a batch too.
   */
  lemma MigrationIsInvisible(batchSize: int, rule: Rule, sqlite: Table, pg: Table, events: seq<Event>, id: Id,
                             pgFault: ReadFault)
    requires SubMap(pg, sqlite) && AllHarmless(batchSize, rule, Initial(sqlite, pg), events)
    ensures var s := Reached(batchSize, rule, Initial(sqlite, pg), events);
            s.stage < 3 ==>
              FetchOneResult(STAGES[s.stage].read, s.sqlite, s.pg, id, pgFault, Works) == Look(s.sqlite, id)
  {
    AlwaysAccounted(batchSize, rule, sqlite, pg, events);
    var s := Reached(batchSize, rule, Initial(sqlite, pg), events);
    if s.stage < 3 {
      ReadsLikeSqlite(s.stage, s.sqlite, s.pg, id, pgFault);
    }
  }

  /** At every moment of the run a read by id in the fallback mode answers what SQLite holds. */
  ghost predicate AlwaysInvisible(batchSize: int, rule: Rule, start: State, events: seq<Event>) {
    var s := Reached(batchSize, rule, start, events);
    && (events == [] || AlwaysInvisible(batchSize, rule, start, events[..|events| - 1]))
    && forall id :: FetchOneResult(ReadSqliteFallback, s.sqlite, s.pg, id, Works, Works) == Look(s.sqlite, id)
  }

  lemma HarmIsVisible(batchSize: int, rule: Rule, s: State, e: Event)
    requires !Harmless(s, e)
    ensures !SubMap(Next(batchSize, rule, s, e).pg, Next(batchSize, rule, s, e).sqlite)
  {
    assert e.id in Next(batchSize, rule, s, e).pg;
  }

  /**
    Whatever SQLite refuses and whichever ids are taken: reads by id stay invisible throughout a run exactly
    when no PostgreSQL half brings in a row that SQLite does not hold.
   */
  lemma {:induction false} InvisibleExactly(batchSize: int, rule: Rule, sqlite: Table, pg: Table, events: seq<Event>)
    requires SubMap(pg, sqlite)
    ensures AlwaysInvisible(batchSize, rule, Initial(sqlite, pg), events)
       <==> AllHarmless(batchSize, rule, Initial(sqlite, pg), events)
  {
    var s := Reached(batchSize, rule, Initial(sqlite, pg), events);
    FallbackReadsExactly(s.sqlite, s.pg);
    if events != [] {
      var before := events[..|events| - 1];
      InvisibleExactly(batchSize, rule, sqlite, pg, before);
      if !Harmless(Reached(batchSize, rule, Initial(sqlite, pg), before), events[|events| - 1]) {
        HarmIsVisible(batchSize, rule, Reached(batchSize, rule, Initial(sqlite, pg), before), events[|events| - 1]);
      }
    }
    if AllHarmless(batchSize, rule, Initial(sqlite, pg), events) {
      AlwaysAccounted(batchSize, rule, sqlite, pg, events);
    }
  }

  /** After a clean backfill the final stage answers every read by id as the first one did. */
  lemma CleanCutover(batchSize: int, rule: Rule, sqlite: Table, pg: Table, events: seq<Event>, id: Id,
                     sqliteFault: ReadFault)
    requires SubMap(pg, sqlite) && AllHarmless(batchSize, rule, Initial(sqlite, pg), events)
    ensures var s := Reached(batchSize, rule, Initial(sqlite, pg), events);
            s.phase.Finished? && s.halfDone == map[] && s.reported == {} && s.rowsFailed == 0 ==>
              FetchOneResult(STAGES[3].read, s.sqlite, s.pg, id, Works, sqliteFault) ==
              FetchOneResult(STAGES[0].read, s.sqlite, s.pg, id, Works, Works)
  {
    BackfillLosesNothing(batchSize, rule, sqlite, pg, events);
  }

  // ---- the conditions cannot be dropped ----

  /** A live insert whose PostgreSQL half is refused once the backfill has ended is lost, though reported. */
  lemma RefusedInsertIsLost(batchSize: int, rule: Rule, s: State, id: Id, row: Row)
    requires Inv(s) && s.phase.Finished? && s.stage < 3 && id !in s.sqlite
    ensures var t := Next(batchSize, rule, Next(batchSize, rule, s, SqliteHalf(id, row, true)), PgHalf(id, Refused));
            Inv(t) && t.phase.Finished? && id in t.reported && Look(t.sqlite, id) == Some(row) && Look(t.pg, id) == None
  {
    assert WritesSqlite(STAGES[s.stage].write);
    StepKeeps(batchSize, rule, s, SqliteHalf(id, row, true));
    StepKeeps(batchSize, rule, Next(batchSize, rule, s, SqliteHalf(id, row, true)), PgHalf(id, Refused));
  }

  /**
    A reported error need not mean a lost row: when the backfill copies a row between the two halves of
    its insert, the second half finds the id taken and reports an error although nothing is missing.
   */
  lemma RaceOnlyReports(rule: Rule, id: Id, row: Row)
    ensures var s1 := Next(1, rule, Initial(map[], map[]), SqliteHalf(id, row, false));
            var s2 := Next(1, rule, s1, BeginBackfill);
            var s3 := Next(1, rule, s2, ReadRow(id));
            var s4 := Next(1, rule, s3, FlushBatch);
            var s5 := Next(1, rule, s4, PgHalf(id, NoFault));
            s5.reported == {id} && s5.pg == s5.sqlite == map[id := row]
  {
    var s1 := Next(1, rule, Initial(map[], map[]), SqliteHalf(id, row, false));
    assert s1.sqlite == s1.halfDone == map[id := row];
    var s3 := Next(1, rule, Next(1, rule, s1, BeginBackfill), ReadRow(id));
    assert s3.batch == [IdRow(id, row)];
    assert UpsertAll(rule, NO_REJECTS, map[], [IdRow(id, row)]) == map[id := row] by {
      assert [IdRow(id, row)][..0] == [];
      assert !NO_REJECTS(IdRow(id, row));
    }
    var s4 := Next(1, rule, s3, FlushBatch);
    assert s4.pg == map[id := row];
  }
}
