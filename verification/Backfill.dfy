/**
  The batched copy of the SQLite tables into PostgreSQL. `rejects` are the rows that PostgreSQL refuses;
  a batch fault makes `executemany` raise for another reason and says how many rows it leaves behind.
 */
module Backfill {
  import opened Outcomes
  import opened DualWrite

  /** What an insert does when the id is taken. */
  datatype Rule = DoNothing | DoUpdate

  const TABLES: seq<string> := ["orders", "virtual_goods_codes", "user_profiles"]

  function RuleOf(table: string): Rule {
    if table == "user_profiles" then DoUpdate else DoNothing
  }

  // ---- one row at a time ----

  function Merged(rule: Rule, before: Option<Row>, row: Row): Row {
    match before
    case None => row
    case Some(r) => if rule.DoNothing? then r else Row(r.kept, row.updated)
  }

  function Upsert(rule: Rule, t: Table, r: IdRow): Table {
    t[r.id := Merged(rule, Look(t, r.id), r.row)]
  }

  /** Every row that PostgreSQL accepts, inserted on its own, in order. */
  function UpsertAll(rule: Rule, rejects: IdRow -> bool, t: Table, rows: seq<IdRow>): Table {
    if rows == [] then t
    else
      var before, last := UpsertAll(rule, rejects, t, rows[..|rows| - 1]), rows[|rows| - 1];
      if rejects(last) then before else Upsert(rule, before, last)
  }

  function Accepted(rejects: IdRow -> bool, rows: seq<IdRow>): (n: nat)
    ensures n <= |rows|
  {
    if rows == [] then 0
    else Accepted(rejects, rows[..|rows| - 1]) + if rejects(rows[|rows| - 1]) then 0 else 1
  }

  /** The first accepted row of `rows` with the id. */
  function First(rejects: IdRow -> bool, rows: seq<IdRow>, id: Id): Option<Row> {
    if rows == [] then None
    else
      var before, last := First(rejects, rows[..|rows| - 1], id), rows[|rows| - 1];
      if before.None? && last.id == id && !rejects(last) then Some(last.row) else before
  }

  /** The last accepted row of `rows` with the id. */
  function Last(rejects: IdRow -> bool, rows: seq<IdRow>, id: Id): Option<Row> {
    if rows == [] then None
    else
      var last := rows[|rows| - 1];
      if last.id == id && !rejects(last) then Some(last.row) else Last(rejects, rows[..|rows| - 1], id)
  }

  /** The row that an id ends with: what the rule keeps of the row before, of the first and of the last accepted row. */
  function Final(rule: Rule, before: Option<Row>, first: Option<Row>, last: Option<Row>): Option<Row> {
    if first.None? || last.None? then before
    else if rule.DoNothing? then (if before.Some? then before else first)
    else Some(Row(if before.Some? then before.value.kept else first.value.kept, last.value.updated))
  }

  lemma {:induction false} FinalRow(rule: Rule, rejects: IdRow -> bool, t: Table, rows: seq<IdRow>, id: Id)
    ensures First(rejects, rows, id).Some? <==> Last(rejects, rows, id).Some?
    ensures Look(UpsertAll(rule, rejects, t, rows), id) ==
            Final(rule, Look(t, id), First(rejects, rows, id), Last(rejects, rows, id))
  {
    if rows != [] {
      FinalRow(rule, rejects, t, rows[..|rows| - 1], id);
    }
  }

  lemma SameTable(a: Table, b: Table)
    requires forall id :: Look(a, id) == Look(b, id)
    ensures a == b
  {
    forall id ensures (id in a <==> id in b) && (id in a ==> a[id] == b[id]) {
      assert Look(a, id) == Look(b, id);
    }
  }

  /** Inserting rows a second time changes nothing. */
  lemma Replay(rule: Rule, rejects: IdRow -> bool, t: Table, rows: seq<IdRow>)
    ensures var once := UpsertAll(rule, rejects, t, rows);
            UpsertAll(rule, rejects, once, rows) == once
  {
    var once := UpsertAll(rule, rejects, t, rows);
    forall id ensures Look(UpsertAll(rule, rejects, once, rows), id) == Look(once, id) {
      FinalRow(rule, rejects, t, rows, id);
      FinalRow(rule, rejects, once, rows, id);
    }
    SameTable(UpsertAll(rule, rejects, once, rows), once);
  }

  lemma {:induction false} UpsertAllAppend(rule: Rule, rejects: IdRow -> bool, t: Table, a: seq<IdRow>, b: seq<IdRow>)
    ensures UpsertAll(rule, rejects, t, a + b) == UpsertAll(rule, rejects, UpsertAll(rule, rejects, t, a), b)
    ensures Accepted(rejects, a + b) == Accepted(rejects, a) + Accepted(rejects, b)
  {
    if b == [] {
      assert a + b == a;
    } else {
      assert (a + b)[..|a + b| - 1] == a + b[..|b| - 1];
      UpsertAllAppend(rule, rejects, t, a, b[..|b| - 1]);
    }
  }

  /**
    Whatever prefix of the rows was left behind by an interrupted or failed attempt, inserting all rows
    afterwards ends as if that attempt had not been made.
   */
  lemma RetryForgetsPrefix(rule: Rule, rejects: IdRow -> bool, t: Table, rows: seq<IdRow>, cut: nat)
    requires cut <= |rows|
    ensures UpsertAll(rule, rejects, UpsertAll(rule, rejects, t, rows[..cut]), rows)
            == UpsertAll(rule, rejects, t, rows)
  {
    var left := UpsertAll(rule, rejects, t, rows[..cut]);
    assert rows == rows[..cut] + rows[cut..];
    Replay(rule, rejects, t, rows[..cut]);
    UpsertAllAppend(rule, rejects, left, rows[..cut], rows[cut..]);
    UpsertAllAppend(rule, rejects, t, rows[..cut], rows[cut..]);
  }

  // ---- batches ----

  /** Whether `executemany` raises although it meets no rejected row, and how many rows a raise leaves inserted. */
  datatype BatchFault = BatchFault(raises: bool, left: nat)

  function FirstRejected(rejects: IdRow -> bool, rows: seq<IdRow>): (n: nat)
    ensures n <= |rows|
  {
    if rows == [] || rejects(rows[0]) then 0 else 1 + FirstRejected(rejects, rows[1..])
  }

  /** The rows that `executemany` inserted before it raised. */
  function LeftBehind(rejects: IdRow -> bool, rows: seq<IdRow>, fault: BatchFault): (n: nat)
    ensures n <= |rows|
  {
    var stop := FirstRejected(rejects, rows);
    if fault.left < stop then fault.left else stop
  }

  lemma {:induction false} NoneRejected(rejects: IdRow -> bool, rows: seq<IdRow>)
    requires FirstRejected(rejects, rows) == |rows|
    ensures Accepted(rejects, rows) == |rows|
  {
    if rows != [] {
      NoneRejected(rejects, rows[1..]);
      assert rows == [rows[0]] + rows[1..];
      UpsertAllAppend(DoNothing, rejects, map[], [rows[0]], rows[1..]);
      assert Accepted(rejects, [rows[0]]) == 1 by {
        assert [rows[0]][..0] == [];
      }
    }
  }

  datatype TableStats = TableStats(rowsRead: nat, rowsInserted: nat, rowsFailed: nat)

  datatype RunStats = RunStats(tablesMigrated: nat, rowsMigrated: nat, rowsFailed: nat)

  datatype MigrationError = UnknownTable(name: string) | FailedToMigrate(name: string)

  datatype Check = Check(sqliteCount: nat, pgCount: nat, matches: bool)

  function TableOf(db: map<string, Table>, name: string): Table {
    if name in db then db[name] else map[]
  }

  /**
    From `before` to `after` the rows were copied into the table as if one at a time, and counted as
    inserted or failed; a dry run writes nothing and counts every row as inserted.
   */
  ghost predicate Copied(dryRun: bool, before: map<string, Table>, after: map<string, Table>, name: string,
                         rejects: IdRow -> bool, rows: seq<IdRow>, inserted: nat, failed: nat) {
    && inserted + failed == |rows|
    && (dryRun ==> after == before && failed == 0)
    && (!dryRun ==>
          && TableOf(after, name) == UpsertAll(RuleOf(name), rejects, TableOf(before, name), rows)
          && (forall other :: other != name ==> TableOf(after, other) == TableOf(before, other))
          && inserted == Accepted(rejects, rows))
  }

  lemma CopiedTwice(dryRun: bool, db0: map<string, Table>, db1: map<string, Table>, db2: map<string, Table>,
                    name: string, rejects: IdRow -> bool, a: seq<IdRow>, b: seq<IdRow>,
                    i1: nat, f1: nat, i2: nat, f2: nat)
    requires Copied(dryRun, db0, db1, name, rejects, a, i1, f1)
    requires Copied(dryRun, db1, db2, name, rejects, b, i2, f2)
    ensures Copied(dryRun, db0, db2, name, rejects, a + b, i1 + i2, f1 + f2)
  {
    UpsertAllAppend(RuleOf(name), rejects, TableOf(db0, name), a, b);
  }

  lemma CopiedNext(dryRun: bool, db0: map<string, Table>, db1: map<string, Table>, db2: map<string, Table>,
                   name: string, rejects: IdRow -> bool, rows: seq<IdRow>, sent: nat, read: nat,
                   batch: seq<IdRow>, i1: nat, f1: nat, i2: nat, f2: nat)
    requires sent <= read <= |rows| && batch == rows[sent..read]
    requires Copied(dryRun, db0, db1, name, rejects, rows[..sent], i1, f1)
    requires Copied(dryRun, db1, db2, name, rejects, batch, i2, f2)
    ensures Copied(dryRun, db0, db2, name, rejects, rows[..read], i1 + i2, f1 + f2)
  {
    assert rows[..read] == rows[..sent] + batch;
    CopiedTwice(dryRun, db0, db1, db2, name, rejects, rows[..sent], batch, i1, f1, i2, f2);
  }

  // ---- what the copy of each table leaves ----

  /** The first accepted row of its id. */
  predicate IsFirst(rejects: IdRow -> bool, rows: seq<IdRow>, i: nat) {
    && i < |rows| && !rejects(rows[i])
    && forall j :: 0 <= j < i ==> rows[j].id != rows[i].id || rejects(rows[j])
  }

  /** The last accepted row of its id. */
  predicate IsLast(rejects: IdRow -> bool, rows: seq<IdRow>, i: nat) {
    && i < |rows| && !rejects(rows[i])
    && forall j :: i < j < |rows| ==> rows[j].id != rows[i].id || rejects(rows[j])
  }

  lemma {:induction false} FirstIs(rejects: IdRow -> bool, rows: seq<IdRow>, i: nat)
    requires IsFirst(rejects, rows, i)
    ensures First(rejects, rows, rows[i].id) == Some(rows[i].row)
  {
    var front := rows[..|rows| - 1];
    if i < |front| {
      assert forall j :: 0 <= j < |front| ==> front[j] == rows[j];
      FirstIs(rejects, front, i);
    } else {
      NoFirst(rejects, front, rows[i].id);
    }
  }

  lemma {:induction false} NoFirst(rejects: IdRow -> bool, rows: seq<IdRow>, id: Id)
    requires forall j :: 0 <= j < |rows| ==> rows[j].id != id || rejects(rows[j])
    ensures First(rejects, rows, id) == None
  {
    if rows != [] {
      NoFirst(rejects, rows[..|rows| - 1], id);
    }
  }

  lemma {:induction false} LastIs(rejects: IdRow -> bool, rows: seq<IdRow>, i: nat)
    requires IsLast(rejects, rows, i)
    ensures Last(rejects, rows, rows[i].id) == Some(rows[i].row)
  {
    var front := rows[..|rows| - 1];
    if i < |front| {
      assert forall j :: 0 <= j < |front| ==> front[j] == rows[j];
      LastIs(rejects, front, i);
    }
  }

  /** No accepted row has the id. */
  predicate NoneAccepted(rejects: IdRow -> bool, rows: seq<IdRow>, id: Id) {
    forall j :: 0 <= j < |rows| ==> rows[j].id != id || rejects(rows[j])
  }

  /** The rows of other ids, and the ids of rejected rows only, are as before. */
  ghost predicate OthersStay(rejects: IdRow -> bool, before: Table, after: Table, rows: seq<IdRow>) {
    forall id :: NoneAccepted(rejects, rows, id) ==>
      (id in after <==> id in before) && (id in before ==> after[id] == before[id])
  }

  /** Rows that were there are unchanged, and every new id has its first accepted row. */
  ghost predicate KeepsExisting(rejects: IdRow -> bool, before: Table, after: Table, rows: seq<IdRow>) {
    && (forall id :: id in before ==> id in after && after[id] == before[id])
    && (forall i :: 0 <= i < |rows| && IsFirst(rejects, rows, i) && rows[i].id !in before ==>
          rows[i].id in after && after[rows[i].id] == rows[i].row)
  }

  /**
    Every accepted id has the updated columns of its last accepted row; the other columns are those of the
    row that was there or, for a new id, of its first accepted row.
   */
  ghost predicate UpdatesExisting(rejects: IdRow -> bool, before: Table, after: Table, rows: seq<IdRow>) {
    && (forall id :: id in before ==> id in after && after[id].kept == before[id].kept)
    && (forall i :: 0 <= i < |rows| && IsLast(rejects, rows, i) ==>
          rows[i].id in after && after[rows[i].id].updated == rows[i].row.updated)
    && (forall i :: 0 <= i < |rows| && IsFirst(rejects, rows, i) && rows[i].id !in before ==>
          rows[i].id in after && after[rows[i].id].kept == rows[i].row.kept)
  }

  lemma CopyKeepsOthers(rule: Rule, rejects: IdRow -> bool, t: Table, rows: seq<IdRow>)
    ensures OthersStay(rejects, t, UpsertAll(rule, rejects, t, rows), rows)
  {
    forall id | NoneAccepted(rejects, rows, id)
      ensures Look(UpsertAll(rule, rejects, t, rows), id) == Look(t, id)
    {
      NoFirst(rejects, rows, id);
      FinalRow(rule, rejects, t, rows, id);
    }
    forall id | NoneAccepted(rejects, rows, id)
      ensures var u := UpsertAll(rule, rejects, t, rows); (id in u <==> id in t) && (id in t ==> u[id] == t[id])
    {
      assert Look(UpsertAll(rule, rejects, t, rows), id) == Look(t, id);
    }
  }

  lemma DoNothingKeeps(rejects: IdRow -> bool, t: Table, rows: seq<IdRow>)
    ensures KeepsExisting(rejects, t, UpsertAll(DoNothing, rejects, t, rows), rows)
  {
    var u := UpsertAll(DoNothing, rejects, t, rows);
    forall id | id in t ensures id in u && u[id] == t[id] {
      FinalRow(DoNothing, rejects, t, rows, id);
      assert Look(u, id) == Some(t[id]);
    }
    forall i | 0 <= i < |rows| && IsFirst(rejects, rows, i) && rows[i].id !in t
      ensures rows[i].id in u && u[rows[i].id] == rows[i].row
    {
      FirstIs(rejects, rows, i);
      FinalRow(DoNothing, rejects, t, rows, rows[i].id);
      assert Look(u, rows[i].id) == Some(rows[i].row);
    }
  }

  lemma DoUpdateUpdates(rejects: IdRow -> bool, t: Table, rows: seq<IdRow>)
    ensures UpdatesExisting(rejects, t, UpsertAll(DoUpdate, rejects, t, rows), rows)
  {
    var u := UpsertAll(DoUpdate, rejects, t, rows);
    forall id | id in t ensures id in u && u[id].kept == t[id].kept {
      FinalRow(DoUpdate, rejects, t, rows, id);
      assert Look(u, id).Some? && Look(u, id).value.kept == t[id].kept;
    }
    forall i | 0 <= i < |rows| && IsLast(rejects, rows, i)
      ensures rows[i].id in u && u[rows[i].id].updated == rows[i].row.updated
    {
      LastIs(rejects, rows, i);
      FinalRow(DoUpdate, rejects, t, rows, rows[i].id);
      assert Look(u, rows[i].id).Some? && Look(u, rows[i].id).value.updated == rows[i].row.updated;
    }
    forall i | 0 <= i < |rows| && IsFirst(rejects, rows, i) && rows[i].id !in t
      ensures rows[i].id in u && u[rows[i].id].kept == rows[i].row.kept
    {
      FirstIs(rejects, rows, i);
      FinalRow(DoUpdate, rejects, t, rows, rows[i].id);
      assert Look(u, rows[i].id).Some? && Look(u, rows[i].id).value.kept == rows[i].row.kept;
    }
  }

  /** By table: user profiles are updated, orders and codes are left as they are where they exist. */
  lemma TablesByName(dryRun: bool, before: map<string, Table>, after: map<string, Table>, name: string,
                     rejects: IdRow -> bool, rows: seq<IdRow>, inserted: nat, failed: nat)
    requires Copied(dryRun, before, after, name, rejects, rows, inserted, failed) && !dryRun
    ensures OthersStay(rejects, TableOf(before, name), TableOf(after, name), rows)
    ensures name == "user_profiles" ==> UpdatesExisting(rejects, TableOf(before, name), TableOf(after, name), rows)
    ensures name == "orders" || name == "virtual_goods_codes" ==>
              KeepsExisting(rejects, TableOf(before, name), TableOf(after, name), rows)
    ensures inserted == |set i | 0 <= i < |rows| && !rejects(rows[i])|
    ensures failed == |set i | 0 <= i < |rows| && rejects(rows[i])|
  {
    CopyKeepsOthers(RuleOf(name), rejects, TableOf(before, name), rows);
    DoUpdateUpdates(rejects, TableOf(before, name), rows);
    DoNothingKeeps(rejects, TableOf(before, name), rows);
    NamesDiffer();
    AcceptedAtCount(rejects, rows);
    RejectedAtCount(rejects, rows);
    assert AcceptedAt(rejects, rows) == set i | 0 <= i < |rows| && !rejects(rows[i]);
    assert RejectedAt(rejects, rows) == set i | 0 <= i < |rows| && rejects(rows[i]);
  }

  lemma NamesDiffer()
    ensures "user_profiles" != "orders" && "user_profiles" != "virtual_goods_codes"
  {
    assert |"user_profiles"| == 13 && |"orders"| == 6 && |"virtual_goods_codes"| == 19;
  }

  function AcceptedAt(rejects: IdRow -> bool, rows: seq<IdRow>): set<int> {
    set i | 0 <= i < |rows| && !rejects(rows[i])
  }

  function RejectedAt(rejects: IdRow -> bool, rows: seq<IdRow>): set<int> {
    set i | 0 <= i < |rows| && rejects(rows[i])
  }

  lemma AcceptedAtSnoc(rejects: IdRow -> bool, rows: seq<IdRow>)
    requires rows != []
    ensures var n, front := |rows| - 1, rows[..|rows| - 1];
            AcceptedAt(rejects, rows) == AcceptedAt(rejects, front) + if rejects(rows[n]) then {} else {n}
  {
  }

  lemma RejectedAtSnoc(rejects: IdRow -> bool, rows: seq<IdRow>)
    requires rows != []
    ensures var n, front := |rows| - 1, rows[..|rows| - 1];
            RejectedAt(rejects, rows) == RejectedAt(rejects, front) + if rejects(rows[n]) then {n} else {}
  {
  }

  lemma {:induction false} AcceptedAtCount(rejects: IdRow -> bool, rows: seq<IdRow>)
    ensures |AcceptedAt(rejects, rows)| == Accepted(rejects, rows)
  {
    if rows != [] {
      AcceptedAtCount(rejects, rows[..|rows| - 1]);
      AcceptedAtSnoc(rejects, rows);
    }
  }

  lemma {:induction false} RejectedAtCount(rejects: IdRow -> bool, rows: seq<IdRow>)
    ensures |RejectedAt(rejects, rows)| == |rows| - Accepted(rejects, rows)
  {
    if rows != [] {
      RejectedAtCount(rejects, rows[..|rows| - 1]);
      RejectedAtSnoc(rejects, rows);
    }
  }

  class DataMigrator {
    const batchSize: int
    const dryRun: bool
    /** The PostgreSQL side, table by table. */
    var target: map<string, Table>
    var stats: RunStats

    constructor (batchSize: int, dryRun: bool, target: map<string, Table>)
      ensures this.batchSize == batchSize && this.dryRun == dryRun && this.target == target
      ensures stats == RunStats(0, 0, 0)
    {
      this.batchSize, this.dryRun, this.target := batchSize, dryRun, target;
      stats := RunStats(0, 0, 0);
    }

    method InsertBatch(name: string, rejects: IdRow -> bool, batch: seq<IdRow>, fault: BatchFault)
      returns (inserted: nat, failed: nat)
      modifies `target
      ensures Copied(dryRun, old(target), target, name, rejects, batch, inserted, failed)
    {
      if dryRun {
        return |batch|, 0;
      }
      var t0 := TableOf(target, name);
      if FirstRejected(rejects, batch) == |batch| && !fault.raises {
        NoneRejected(rejects, batch);
        target := target[name := UpsertAll(RuleOf(name), rejects, t0, batch)];
        return |batch|, 0;
      }
      var cut := LeftBehind(rejects, batch, fault);
      var t := UpsertAll(RuleOf(name), rejects, t0, batch[..cut]);
      inserted, failed := 0, 0;
      for i := 0 to |batch|
        invariant inserted == Accepted(rejects, batch[..i]) && failed == i - inserted
        invariant t == UpsertAll(RuleOf(name), rejects, UpsertAll(RuleOf(name), rejects, t0, batch[..cut]), batch[..i])
        invariant target == old(target)
      {
        assert batch[..i + 1][..i] == batch[..i];
        if rejects(batch[i]) {
          failed := failed + 1;
        } else {
          t := Upsert(RuleOf(name), t, batch[i]);
          inserted := inserted + 1;
        }
      }
      assert batch[..|batch|] == batch;
      RetryForgetsPrefix(RuleOf(name), rejects, t0, batch, cut);
      target := target[name := t];
    }

    /** Sends the rows `sent` to `read`, after those before were copied from `db0` on. */
    method SendBatch(name: string, rejects: IdRow -> bool, batch: seq<IdRow>, fault: BatchFault, rowsInserted: nat,
                     rowsFailed: nat, ghost db0: map<string, Table>, ghost rows: seq<IdRow>, ghost sent: nat,
                     ghost read: nat)
      returns (allInserted: nat, allFailed: nat)
      requires sent <= read <= |rows| && batch == rows[sent..read]
      requires Copied(dryRun, db0, target, name, rejects, rows[..sent], rowsInserted, rowsFailed)
      modifies `target
      ensures Copied(dryRun, db0, target, name, rejects, rows[..read], allInserted, allFailed)
    {
      ghost var before := target;
      var inserted, failed := InsertBatch(name, rejects, batch, fault);
      CopiedNext(dryRun, db0, before, target, name, rejects, rows, sent, read, batch, rowsInserted,
                 rowsFailed, inserted, failed);
      allInserted, allFailed := rowsInserted + inserted, rowsFailed + failed;
    }

    /** `rows` is what the cursor yields; `faults` gives the fault of each batch, by the rows read when it is sent. */
    method MigrateTable(name: string, rejects: IdRow -> bool, rows: seq<IdRow>, faults: nat -> BatchFault)
      returns (r: Result<TableStats, MigrationError>)
      modifies `target
      ensures name !in TABLES ==> r == Failure(UnknownTable(name)) && target == old(target)
      ensures name in TABLES ==>
                && r.Success? && r.value.rowsRead == |rows|
                && Copied(dryRun, old(target), target, name, rejects, rows, r.value.rowsInserted, r.value.rowsFailed)
      ensures name == "user_profiles" && !dryRun ==>
                UpdatesExisting(rejects, TableOf(old(target), name), TableOf(target, name), rows)
      ensures (name == "orders" || name == "virtual_goods_codes") && !dryRun ==>
                KeepsExisting(rejects, TableOf(old(target), name), TableOf(target, name), rows)
      ensures r.Success? && !dryRun ==> OthersStay(rejects, TableOf(old(target), name), TableOf(target, name), rows)
      ensures dryRun ==> target == old(target)
    {
      if name !in TABLES {
        return Failure(UnknownTable(name));
      }
      var rowsRead, rowsInserted, rowsFailed := 0, 0, 0;
      var batch: seq<IdRow> := [];
      ghost var db0, sent := target, 0;
      while rowsRead < |rows|
        invariant 0 <= sent <= rowsRead <= |rows| && batch == rows[sent..rowsRead]
        invariant Copied(dryRun, db0, target, name, rejects, rows[..sent], rowsInserted, rowsFailed)
      {
        assert rows[sent..rowsRead + 1] == rows[sent..rowsRead] + [rows[rowsRead]];
        batch := batch + [rows[rowsRead]];
        rowsRead := rowsRead + 1;
        if |batch| >= batchSize {
          rowsInserted, rowsFailed := SendBatch(name, rejects, batch, faults(rowsRead), rowsInserted, rowsFailed,
                                                db0, rows, sent, rowsRead);
          batch := [];
          sent := rowsRead;
        }
      }
      if batch != [] {
        rowsInserted, rowsFailed := SendBatch(name, rejects, batch, faults(rowsRead), rowsInserted, rowsFailed,
                                              db0, rows, sent, rowsRead);
        sent := rowsRead;
      }
      assert rows[..rowsRead] == rows;
      if !dryRun {
        TablesByName(dryRun, db0, target, name, rejects, rows, rowsInserted, rowsFailed);
      }
      return Success(TableStats(rowsRead, rowsInserted, rowsFailed));
    }

    /** Copies the known tables in turn; a table that SQLite lacks ends the run. The counters are never reset. */
    method MigrateAll(source: map<string, seq<IdRow>>, rejects: string -> IdRow -> bool,
                      faults: string -> nat -> BatchFault)
      returns (r: Result<RunStats, MigrationError>)
      modifies `target, `stats
      ensures stats.tablesMigrated == old(stats.tablesMigrated) + Present(source, |TABLES|)
      ensures stats.rowsMigrated + stats.rowsFailed ==
              old(stats.rowsMigrated) + old(stats.rowsFailed) + RowsOf(source, Present(source, |TABLES|))
      ensures !dryRun ==>
                stats.rowsMigrated == old(stats.rowsMigrated) + AcceptedOf(source, rejects, Present(source, |TABLES|))
      ensures !dryRun ==> CopiedTables(source, rejects, old(target), target, Present(source, |TABLES|))
      ensures dryRun ==> target == old(target)
      ensures r == if Present(source, |TABLES|) == |TABLES| then Success(stats)
                   else Failure(FailedToMigrate(TABLES[Present(source, |TABLES|)]))
    {
      for i := 0 to |TABLES|
        invariant Present(source, i) == i
        invariant stats.tablesMigrated == old(stats.tablesMigrated) + i
        invariant stats.rowsMigrated + stats.rowsFailed == old(stats.rowsMigrated) + old(stats.rowsFailed) +
                RowsOf(source, i)
        invariant !dryRun ==> stats.rowsMigrated == old(stats.rowsMigrated) + AcceptedOf(source, rejects, i)
        invariant dryRun ==> target == old(target)
        invariant !dryRun ==> CopiedTables(source, rejects, old(target), target, i)
      {
        var name := TABLES[i];
        if name !in source {
          PresentStops(source, i, |TABLES|);
          return Failure(FailedToMigrate(name));
        }
        ghost var before := target;
        var r0 := MigrateTable(name, rejects(name), source[name], faults(name));
        stats := RunStats(stats.tablesMigrated + 1,
                          stats.rowsMigrated + r0.value.rowsInserted,
                          stats.rowsFailed + r0.value.rowsFailed);
        if !dryRun {
          CopiedOneMore(source, rejects, old(target), before, target, i);
        }
      }
      return Success(stats);
    }

    /** Compares the row counts of every known table. */
    method Validate(source: map<string, Table>) returns (checks: map<string, Check>)
      ensures checks.Keys == set name | name in TABLES
      ensures forall name :: name in TABLES ==>
                checks[name] == Check(|TableOf(source, name)|, |TableOf(target, name)|,
                                      |TableOf(source, name)| == |TableOf(target, name)|)
      ensures forall name :: name in TABLES && SubMap(TableOf(target, name), TableOf(source, name)) ==>
                (checks[name].matches <==> TableOf(target, name) == TableOf(source, name))
    {
      checks := map[];
      for i := 0 to |TABLES|
        invariant checks.Keys == set name | name in TABLES[..i]
        invariant forall name :: name in TABLES[..i] ==>
                    checks[name] == Check(|TableOf(source, name)|, |TableOf(target, name)|,
                                          |TableOf(source, name)| == |TableOf(target, name)|)
      {
        var name := TABLES[i];
        var sqliteCount, pgCount := |TableOf(source, name)|, |TableOf(target, name)|;
        checks := checks[name := Check(sqliteCount, pgCount, sqliteCount == pgCount)];
      }
      forall name | name in TABLES && SubMap(TableOf(target, name), TableOf(source, name))
        ensures checks[name].matches <==> TableOf(target, name) == TableOf(source, name)
      {
        EqualCounts(TableOf(target, name), TableOf(source, name));
      }
    }
  }

  /** The first `n` known tables were copied as if row by row, and no other table was touched. */
  ghost predicate CopiedTables(source: map<string, seq<IdRow>>, rejects: string -> IdRow -> bool,
                               before: map<string, Table>, after: map<string, Table>, n: nat)
    requires n <= |TABLES| && forall i :: 0 <= i < n ==> TABLES[i] in source
  {
    && (forall i :: 0 <= i < n ==>
          TableOf(after, TABLES[i]) ==
          UpsertAll(RuleOf(TABLES[i]), rejects(TABLES[i]), TableOf(before, TABLES[i]), source[TABLES[i]]))
    && (forall name :: name !in TABLES[..n] ==> TableOf(after, name) == TableOf(before, name))
  }

  lemma CopiedOneMore(source: map<string, seq<IdRow>>, rejects: string -> IdRow -> bool, db0: map<string, Table>,
                      before: map<string, Table>, after: map<string, Table>, i: nat)
    requires i < |TABLES| && forall j :: 0 <= j <= i ==> TABLES[j] in source
    requires CopiedTables(source, rejects, db0, before, i)
    requires TableOf(after, TABLES[i])
          == UpsertAll(RuleOf(TABLES[i]), rejects(TABLES[i]), TableOf(before, TABLES[i]), source[TABLES[i]])
    requires forall other :: other != TABLES[i] ==> TableOf(after, other) == TableOf(before, other)
    ensures CopiedTables(source, rejects, db0, after, i + 1)
  {
    TablesDistinct(i);
    assert TABLES[..i + 1] == TABLES[..i] + [TABLES[i]];
    forall j | 0 <= j < i ensures TABLES[j] != TABLES[i] {
      assert TABLES[..i][j] == TABLES[j];
    }
  }

  /** How many of the first `n` known tables come before the first one that the source lacks. */
  function Present(source: map<string, seq<IdRow>>, n: nat): (k: nat)
    requires n <= |TABLES|
    ensures k <= n && forall i :: 0 <= i < k ==> TABLES[i] in source
  {
    if n == 0 then 0
    else
      var k := Present(source, n - 1);
      if k == n - 1 && TABLES[n - 1] in source then n else k
  }

  function RowsOf(source: map<string, seq<IdRow>>, n: nat): nat
    requires n <= |TABLES| && forall i :: 0 <= i < n ==> TABLES[i] in source
  {
    if n == 0 then 0 else RowsOf(source, n - 1) + |source[TABLES[n - 1]]|
  }

  function AcceptedOf(source: map<string, seq<IdRow>>, rejects: string -> IdRow -> bool, n: nat): nat
    requires n <= |TABLES| && forall i :: 0 <= i < n ==> TABLES[i] in source
  {
    if n == 0 then 0
    else AcceptedOf(source, rejects, n - 1) + Accepted(rejects(TABLES[n - 1]), source[TABLES[n - 1]])
  }

  lemma {:induction false} PresentStops(source: map<string, seq<IdRow>>, i: nat, n: nat)
    requires i < n <= |TABLES| && Present(source, i) == i && TABLES[i] !in source
    ensures Present(source, n) == i
  {
    if i < n - 1 {
      PresentStops(source, i, n - 1);
    }
  }

  /** A run ends at the first table that SQLite lacks: orders, then the codes, then the profiles. */
  lemma MissingTableStops(source: map<string, seq<IdRow>>)
    ensures var n := Present(source, |TABLES|);
            && (n == |TABLES| <==>
                  "orders" in source && "virtual_goods_codes" in source && "user_profiles" in source)
            && (n < |TABLES| ==>
                  TABLES[n] == if "orders" !in source then "orders"
                               else if "virtual_goods_codes" !in source then "virtual_goods_codes"
                               else "user_profiles")
  {
    assert TABLES[0] == "orders" && TABLES[1] == "virtual_goods_codes" && TABLES[2] == "user_profiles";
    assert Present(source, 0) == 0;
    if "orders" !in source {
      PresentStops(source, 0, 3);
    } else if "virtual_goods_codes" !in source {
      assert Present(source, 1) == 1;
      PresentStops(source, 1, 3);
    } else {
      assert Present(source, 1) == 1;
      assert Present(source, 2) == 2;
    }
  }

  lemma TablesDistinct(i: nat)
    requires i < |TABLES|
    ensures TABLES[i] !in TABLES[..i]
  {
    assert |TABLES[0]| == 6 && |TABLES[1]| == 19 && |TABLES[2]| == 13;
  }

  lemma SameSize<T>(a: set<T>, b: set<T>)
    requires a <= b
    ensures |a| <= |b| && (|a| == |b| <==> a == b)
  {
    assert b == a + (b - a);
    assert |b| == |a| + |b - a|;
  }

  /** Inside SQLite's rows, an equal count means an equal table. */
  lemma EqualCounts(pg: Table, sqlite: Table)
    requires SubMap(pg, sqlite)
    ensures |pg| == |sqlite| <==> pg == sqlite
  {
    SameSize(pg.Keys, sqlite.Keys);
    assert pg.Keys == sqlite.Keys ==> pg == sqlite;
  }

  // ---- what a copy ends with ----

  /** `rows` are rows of the table. */
  ghost predicate RowsFrom(rows: seq<IdRow>, source: Table) {
    forall r :: r in rows ==> r.id in source && source[r.id] == r.row
  }

  lemma {:induction false} CopyOf(rule: Rule, rejects: IdRow -> bool, target: Table, source: Table, rows: seq<IdRow>)
    requires SubMap(target, source) && RowsFrom(rows, source)
    ensures var copy := UpsertAll(rule, rejects, target, rows);
            && SubMap(copy, source)
            && forall id :: id in copy <==>
                 id in target || (id in source && IdRow(id, source[id]) in rows && !rejects(IdRow(id, source[id])))
  {
    if rows != [] {
      var before, last := rows[..|rows| - 1], rows[|rows| - 1];
      assert rows == before + [last];
      assert last in rows && forall r :: r in before ==> r in rows;
      CopyOf(rule, rejects, target, source, before);
    }
  }

  /**
    Copying all rows of a table into a part of it gives the table itself exactly when every row that is
    still missing is accepted; in particular after a run in which no row failed.
   */
  lemma FullCopyExactly(rule: Rule, rejects: IdRow -> bool, target: Table, source: Table, rows: seq<IdRow>)
    requires SubMap(target, source) && RowsFrom(rows, source)
    requires forall id :: id in source ==> IdRow(id, source[id]) in rows
    ensures UpsertAll(rule, rejects, target, rows) == source <==>
            forall id :: id in source && id !in target ==> !rejects(IdRow(id, source[id]))
    ensures Accepted(rejects, rows) == |rows| ==> UpsertAll(rule, rejects, target, rows) == source
  {
    CopyOf(rule, rejects, target, source, rows);
    if Accepted(rejects, rows) == |rows| {
      AllAccepted(rejects, rows);
    }
    var copy := UpsertAll(rule, rejects, target, rows);
    if forall id :: id in source ==> id in copy {
      assert copy == source;
    }
  }

  lemma {:induction false} AllAccepted(rejects: IdRow -> bool, rows: seq<IdRow>)
    requires Accepted(rejects, rows) == |rows|
    ensures forall r :: r in rows ==> !rejects(r)
  {
    if rows != [] {
      AllAccepted(rejects, rows[..|rows| - 1]);
      assert rows == rows[..|rows| - 1] + [rows[|rows| - 1]];
    }
  }

  /** A run cut short anywhere, and then repeated in full, ends as one full run. */
  lemma RerunAfterCrash(rule: Rule, rejects: IdRow -> bool, t: Table, rows: seq<IdRow>, sent: nat, cut: nat)
    requires sent <= cut <= |rows|
    ensures var batchesDone := UpsertAll(rule, rejects, t, rows[..sent]);
            var crashed := UpsertAll(rule, rejects, batchesDone, rows[sent..cut]);
            UpsertAll(rule, rejects, crashed, rows) == UpsertAll(rule, rejects, t, rows)
  {
    UpsertAllAppend(rule, rejects, t, rows[..sent], rows[sent..cut]);
    assert rows[..sent] + rows[sent..cut] == rows[..cut];
    RetryForgetsPrefix(rule, rejects, t, rows, cut);
  }
}
