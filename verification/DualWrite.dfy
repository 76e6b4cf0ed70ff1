/**
  The transition layer that writes to SQLite and PostgreSQL during a migration. A table is a map from
  explicit ids to rows; database faults are parameters.
 */
module DualWrite {
  import opened Outcomes

  /** An explicit row id, ordered by its number. */
  datatype Id = Id(num: int)

  /** A row: the columns that the backfill's `DO UPDATE` never overwrites, and those that it does. */
  datatype Row = Row(kept: string, updated: string)

  type Table = map<Id, Row>

  datatype WriteMode = WriteSqliteOnly | WriteDual | WritePgOnly | WritePgPrimary
  datatype ReadMode = ReadSqliteOnly | ReadPgOnly | ReadSqliteFallback | ReadPgFallback

  datatype Stage = Stage(write: WriteMode, read: ReadMode)

  const STAGES: seq<Stage> := [
    Stage(WriteDual, ReadSqliteOnly),
    Stage(WriteDual, ReadSqliteFallback),
    Stage(WriteDual, ReadPgFallback),
    Stage(WritePgOnly, ReadPgOnly)
  ]

  predicate WritesSqlite(m: WriteMode) {
    m == WriteSqliteOnly || m == WriteDual || m == WritePgPrimary
  }

  predicate WritesPg(m: WriteMode) {
    m == WritePgOnly || m == WriteDual || m == WritePgPrimary
  }

  /** What an insert runs into: nothing, an error before it took effect, or an error after it did. */
  datatype Fault = NoFault | Refused | Unacknowledged

  /** A plain `INSERT` of a row with an explicit id. A taken id is an error and changes nothing. */
  function Inserted(t: Table, id: Id, row: Row, fault: Fault): Table {
    if id in t || fault.Refused? then t else t[id := row]
  }

  predicate InsertOk(t: Table, id: Id, fault: Fault) {
    id !in t && fault.NoFault?
  }

  /** What a write leaves: both tables, and which half reported an error. */
  datatype Written = Written(sqlite: Table, pg: Table, sqliteError: bool, pgError: bool)

  function AfterExecute(m: WriteMode, sqlite: Table, pg: Table, id: Id, row: Row, sqliteFault: Fault, pgFault: Fault):
    Written
  {
    Written(
      if WritesSqlite(m) then Inserted(sqlite, id, row, sqliteFault) else sqlite,
      if WritesPg(m) then Inserted(pg, id, row, pgFault) else pg,
      WritesSqlite(m) && !InsertOk(sqlite, id, sqliteFault),
      WritesPg(m) && !InsertOk(pg, id, pgFault))
  }

  /** A read finds no pool, raises, or works. */
  datatype ReadFault = NoPool | Raises | Works

  function Look(t: Table, id: Id): Option<Row> {
    if id in t then Some(t[id]) else None
  }

  predicate TriesPg(m: ReadMode) {
    m == ReadPgOnly || m == ReadSqliteFallback
  }

  predicate TriesSqlite(m: ReadMode) {
    m == ReadSqliteOnly || m == ReadSqliteFallback || m == ReadPgFallback
  }

  /** The answer of `fetchone` to a read by id: a miss falls through, and so does an error. */
  function FetchOneResult(m: ReadMode, sqlite: Table, pg: Table, id: Id, pgFault: ReadFault,
                          sqliteFault: ReadFault): Option<Row> {
    var fromPg := if TriesPg(m) && pgFault.Works? then Look(pg, id) else None;
    if fromPg.Some? then fromPg
    else if TriesSqlite(m) && sqliteFault.Works? then Look(sqlite, id)
    else None
  }

  /** The answer of `fetchall` to a read of the whole table: only an error or a missing pool falls through. */
  function FetchAllResult(m: ReadMode, sqlite: Table, pg: Table, pgFault: ReadFault, sqliteFault: ReadFault): Table {
    if TriesPg(m) && pgFault.Works? then pg
    else if TriesSqlite(m) && sqliteFault.Works? then sqlite
    else map[]
  }

  ghost predicate SubMap(a: Table, b: Table) {
    forall id :: id in a ==> id in b && a[id] == b[id]
  }

  // ---- ordered queries and their comparison ----

  datatype IdRow = IdRow(id: Id, row: Row)

  ghost predicate AscendingIds(rows: seq<IdRow>) {
    forall i, j :: 0 <= i < j < |rows| ==> rows[i].id.num < rows[j].id.num
  }

  /** `rows` is the answer to `SELECT * ... ORDER BY id LIMIT limit`. */
  ghost predicate OrderedRows(t: Table, limit: nat, rows: seq<IdRow>) {
    && |rows| <= limit
    && AscendingIds(rows)
    && (forall i :: 0 <= i < |rows| ==> rows[i].id in t && t[rows[i].id] == rows[i].row)
    && (forall id :: id in t ==> Listed(rows, id) || BeyondLimit(rows, limit, id))
  }

  ghost predicate Listed(rows: seq<IdRow>, id: Id) {
    exists i :: 0 <= i < |rows| && rows[i].id == id
  }

  predicate BeyondLimit(rows: seq<IdRow>, limit: nat, id: Id) {
    |rows| == limit && (limit > 0 ==> rows[limit - 1].id.num < id.num)
  }

  /** The limit that a comparison uses, whatever the caller asked for. */
  function Clamped(limit: int): (n: nat)
    ensures 1 <= n <= 10000
    ensures 1 <= limit <= 10000 ==> n == limit
    ensures (limit < 1 ==> n == 1) && (limit > 10000 ==> n == 10000)
  {
    if limit < 1 then 1 else if limit > 10000 then 10000 else limit
  }

  datatype Mismatch = Mismatch(row: nat, sqlite: IdRow, pg: IdRow)

  datatype Comparison = Comparison(sqliteCount: nat, pgCount: nat, mismatchCount: nat, sample: seq<Mismatch>)

  datatype CompareError = InvalidTable | UnequalLengths

  /** The positions below `n` at which two lists differ, in order. */
  function Differing(a: seq<IdRow>, b: seq<IdRow>, n: nat): (d: seq<Mismatch>)
    requires n <= |a| && n <= |b|
    ensures |d| <= n
  {
    if n == 0 then []
    else
      var d := Differing(a, b, n - 1);
      if a[n - 1] != b[n - 1] then d + [Mismatch(n - 1, a[n - 1], b[n - 1])] else d
  }

  class DualWriteManager {
    var writeMode: WriteMode
    var readMode: ReadMode
    var migrationProgress: real
    var sqlite: Table
    var pg: Table

    constructor (writeMode: WriteMode, readMode: ReadMode, sqlite: Table, pg: Table)
      ensures this.writeMode == writeMode && this.readMode == readMode && migrationProgress == 0.0
      ensures this.sqlite == sqlite && this.pg == pg
    {
      this.writeMode, this.readMode, migrationProgress := writeMode, readMode, 0.0;
      this.sqlite, this.pg := sqlite, pg;
    }

    /** Inserts a row where the write mode says; the PostgreSQL half runs even if the SQLite half failed. */
    method Execute(id: Id, row: Row, sqliteFault: Fault, pgFault: Fault) returns (sqliteError: bool, pgError: bool)
      modifies `sqlite, `pg
      ensures Written(sqlite, pg, sqliteError, pgError)
           == AfterExecute(writeMode, old(sqlite), old(pg), id, row, sqliteFault, pgFault)
      ensures writeMode != WritePgOnly && old(id !in sqlite) && sqliteFault != Refused ==>
                sqlite == old(sqlite)[id := row]
      ensures writeMode == WritePgOnly || old(id in sqlite) || sqliteFault == Refused ==> sqlite == old(sqlite)
      ensures writeMode != WriteSqliteOnly && old(id !in pg) && pgFault != Refused ==> pg == old(pg)[id := row]
      ensures writeMode == WriteSqliteOnly || old(id in pg) || pgFault == Refused ==> pg == old(pg)
      ensures sqliteError <==> writeMode != WritePgOnly && (old(id in sqlite) || sqliteFault != NoFault)
      ensures pgError <==> writeMode != WriteSqliteOnly && (old(id in pg) || pgFault != NoFault)
    {
      sqliteError, pgError := false, false;
      if WritesSqlite(writeMode) {
        sqliteError := id in sqlite || sqliteFault != NoFault;
        if id !in sqlite && sqliteFault != Refused {
          sqlite := sqlite[id := row];
        }
      }
      if WritesPg(writeMode) {
        pgError := id in pg || pgFault != NoFault;
        if id !in pg && pgFault != Refused {
          pg := pg[id := row];
        }
      }
    }

    method FetchOne(id: Id, pgFault: ReadFault, sqliteFault: ReadFault) returns (r: Option<Row>)
      ensures r == FetchOneResult(readMode, sqlite, pg, id, pgFault, sqliteFault)
    {
      if readMode == ReadPgOnly || readMode == ReadSqliteFallback {
        if pgFault == Works && id in pg {
          return Some(pg[id]);
        }
        if pgFault == Raises && readMode == ReadPgOnly {
          return None;
        }
      }
      if readMode == ReadSqliteOnly || readMode == ReadSqliteFallback || readMode == ReadPgFallback {
        if sqliteFault == Works && id in sqlite {
          return Some(sqlite[id]);
        }
      }
      return None;
    }

    method FetchAll(pgFault: ReadFault, sqliteFault: ReadFault) returns (r: Table)
      ensures r == FetchAllResult(readMode, sqlite, pg, pgFault, sqliteFault)
    {
      if readMode == ReadPgOnly || readMode == ReadSqliteFallback {
        if pgFault == Works {
          return pg;
        }
        if pgFault == Raises && readMode == ReadPgOnly {
          return map[];
        }
      }
      if readMode == ReadSqliteOnly || readMode == ReadSqliteFallback || readMode == ReadPgFallback {
        if sqliteFault == Works {
          return sqlite;
        }
      }
      return map[];
    }

    /** Clamps the progress; a complete migration switches both modes. */
    method SetMigrationProgress(progress: real)
      modifies `writeMode, `readMode, `migrationProgress
      ensures 0.0 <= migrationProgress <= 1.0
      ensures 0.0 <= progress <= 1.0 ==> migrationProgress == progress
      ensures progress >= 1.0 ==> writeMode == WritePgOnly && readMode == ReadPgOnly && migrationProgress == 1.0
      ensures progress < 1.0 ==> writeMode == old(writeMode) && readMode == old(readMode)
      ensures progress < 0.0 ==> migrationProgress == 0.0
    {
      var capped := if progress < 1.0 then progress else 1.0;
      migrationProgress := if capped > 0.0 then capped else 0.0;
      if migrationProgress >= 1.0 {
        writeMode := WritePgOnly;
        readMode := ReadPgOnly;
      }
    }

    /** Compares the answers of the two ordered and limited queries, row by row. */
    method CompareData(validTable: bool, limit: int, sqliteData: seq<IdRow>, pgData: seq<IdRow>)
      returns (r: Result<Comparison, CompareError>)
      requires OrderedRows(sqlite, Clamped(limit), sqliteData) && OrderedRows(pg, Clamped(limit), pgData)
      ensures r == if !validTable then Failure(InvalidTable)
                   else if |sqliteData| != |pgData| then Failure(UnequalLengths)
                   else
                     var d := Differing(sqliteData, pgData, |sqliteData|);
                     Success(Comparison(|sqliteData|, |pgData|, |d|, if |d| <= 5 then d else d[..5]))
      ensures validTable ==>
                (r.Success? && r.value.mismatchCount == 0 <==>
                 FirstRows(sqlite, Clamped(limit)) == FirstRows(pg, Clamped(limit)))
      ensures r.Success? && r.value.mismatchCount == 0 && r.value.sqliteCount < Clamped(limit) ==> sqlite == pg
      ensures sqlite == pg && validTable ==> r.Success? && r.value.mismatchCount == 0
    {
      if !validTable {
        return Failure(InvalidTable);
      }
      ComparisonExact(sqlite, pg, limit, sqliteData, pgData);
      r := CompareRows(sqliteData, pgData);
    }
  }

  /** The comparison loop; lists of unequal length raise after their common part. */
  method CompareRows(sqliteData: seq<IdRow>, pgData: seq<IdRow>) returns (r: Result<Comparison, CompareError>)
    ensures r == if |sqliteData| != |pgData| then Failure(UnequalLengths)
                 else
                   var d := Differing(sqliteData, pgData, |sqliteData|);
                   Success(Comparison(|sqliteData|, |pgData|, |d|, if |d| <= 5 then d else d[..5]))
  {
    var mismatchCount: nat := 0;
    var sample: seq<Mismatch> := [];
    var i := 0;
    while i < |sqliteData| && i < |pgData|
      invariant 0 <= i <= |sqliteData| && i <= |pgData|
      invariant mismatchCount == |Differing(sqliteData, pgData, i)|
      invariant sample == var d := Differing(sqliteData, pgData, i); if |d| <= 5 then d else d[..5]
    {
      if sqliteData[i] != pgData[i] {
        mismatchCount := mismatchCount + 1;
        if |sample| < 5 {
          sample := sample + [Mismatch(i, sqliteData[i], pgData[i])];
        }
      }
      i := i + 1;
    }
    if |sqliteData| != |pgData| {
      return Failure(UnequalLengths);
    }
    return Success(Comparison(|sqliteData|, |pgData|, mismatchCount, sample));
  }

  // ---- what each mode writes and reads ----

  /** A fault-free insert of a fresh id ends exactly in the databases of the mode, and reports no error. */
  lemma ModesWrite(sqlite: Table, pg: Table, id: Id, row: Row)
    requires id !in sqlite && id !in pg
    ensures forall m :: m == WriteDual || m == WritePgPrimary ==>
              AfterExecute(m, sqlite, pg, id, row, NoFault, NoFault)
              == Written(sqlite[id := row], pg[id := row], false, false)
    ensures AfterExecute(WriteSqliteOnly, sqlite, pg, id, row, NoFault, NoFault)
         == Written(sqlite[id := row], pg, false, false)
    ensures AfterExecute(WritePgOnly, sqlite, pg, id, row, NoFault, NoFault)
         == Written(sqlite, pg[id := row], false, false)
  {
  }

  /** A write that runs into a fault, or a taken id, reports it for the databases of its mode; the rest is written. */
  lemma FaultsAreReported(m: WriteMode, sqlite: Table, pg: Table, id: Id, row: Row, sqliteFault: Fault, pgFault: Fault)
    ensures var w := AfterExecute(m, sqlite, pg, id, row, sqliteFault, pgFault);
            && (w.sqliteError <==> m != WritePgOnly && (id in sqlite || sqliteFault != NoFault))
            && (w.pgError <==> m != WriteSqliteOnly && (id in pg || pgFault != NoFault))
            && (id in sqlite || sqliteFault == Refused ==> w.sqlite == sqlite)
            && (id in pg || pgFault == Refused ==> w.pg == pg)
            && (m != WritePgOnly && id !in sqlite && sqliteFault == Unacknowledged ==> w.sqlite == sqlite[id := row])
            && (m != WriteSqliteOnly && id !in pg && pgFault == Unacknowledged ==> w.pg == pg[id := row])
  {
  }

  /** The first three stages write both databases, the last one PostgreSQL alone; the reads move over in between. */
  lemma StagesWrite(stage: nat, sqlite: Table, pg: Table, id: Id, row: Row)
    requires stage < 4 && id !in sqlite && id !in pg
    ensures |STAGES| == 4
    ensures AfterExecute(STAGES[stage].write, sqlite, pg, id, row, NoFault, NoFault)
         == Written(if stage < 3 then sqlite[id := row] else sqlite, pg[id := row], false, false)
  {
    ModesWrite(sqlite, pg, id, row);
  }

  /** What a read by id finds, mode by mode, with both databases up; a failing one is passed over. */
  lemma ModesReadOne(sqlite: Table, pg: Table, id: Id)
    ensures id in sqlite ==> FetchOneResult(ReadSqliteOnly, sqlite, pg, id, Works, Works) == Some(sqlite[id])
    ensures id !in sqlite ==> FetchOneResult(ReadSqliteOnly, sqlite, pg, id, Works, Works) == None
    ensures FetchOneResult(ReadPgFallback, sqlite, pg, id, Works, Works)
         == FetchOneResult(ReadSqliteOnly, sqlite, pg, id, Works, Works)
    ensures id in pg ==>
              && FetchOneResult(ReadPgOnly, sqlite, pg, id, Works, Works) == Some(pg[id])
              && FetchOneResult(ReadSqliteFallback, sqlite, pg, id, Works, Works) == Some(pg[id])
    ensures id !in pg ==> FetchOneResult(ReadPgOnly, sqlite, pg, id, Works, Works) == None
    ensures id !in pg && id in sqlite ==>
              FetchOneResult(ReadSqliteFallback, sqlite, pg, id, Works, Works) == Some(sqlite[id])
    ensures id in sqlite ==> FetchOneResult(ReadSqliteFallback, sqlite, pg, id, Raises, Works) == Some(sqlite[id])
    ensures FetchOneResult(ReadPgOnly, sqlite, pg, id, Raises, Works) == None
    ensures FetchOneResult(ReadSqliteOnly, sqlite, pg, id, Works, Raises) == None
  {
  }

  /** What a list read gives, mode by mode, whatever the other database holds or fails with. */
  lemma ModesReadAll(sqlite: Table, pg: Table, pgFault: ReadFault, sqliteFault: ReadFault)
    ensures FetchAllResult(ReadSqliteOnly, sqlite, pg, pgFault, Works) == sqlite
    ensures FetchAllResult(ReadPgFallback, sqlite, pg, pgFault, Works) == sqlite
    ensures FetchAllResult(ReadPgOnly, sqlite, pg, Works, sqliteFault) == pg
    ensures FetchAllResult(ReadSqliteFallback, sqlite, pg, Works, sqliteFault) == pg
    ensures pgFault != Works ==>
              && FetchAllResult(ReadPgOnly, sqlite, pg, pgFault, sqliteFault) == map[]
              && FetchAllResult(ReadSqliteFallback, sqlite, pg, pgFault, Works) == sqlite
    ensures sqliteFault != Works ==>
              && FetchAllResult(ReadSqliteOnly, sqlite, pg, pgFault, sqliteFault) == map[]
              && FetchAllResult(ReadPgFallback, sqlite, pg, pgFault, sqliteFault) == map[]
  {
  }

  /** The list of the first stage is SQLite's, that of the last PostgreSQL's: they agree exactly if the tables do. */
  lemma CutoverListsExactly(sqlite: Table, pg: Table)
    ensures FetchAllResult(STAGES[0].read, sqlite, pg, Works, Works) == sqlite
    ensures FetchAllResult(STAGES[3].read, sqlite, pg, Works, Works) == pg
    ensures FetchAllResult(STAGES[3].read, sqlite, pg, Works, Works)
            == FetchAllResult(STAGES[0].read, sqlite, pg, Works, Works)
       <==> pg == sqlite
  {
    ModesReadAll(sqlite, pg, Works, Works);
  }

  // ---- what a dual write keeps ----

  /**
    A dual write keeps PostgreSQL a part of SQLite exactly when PostgreSQL does not take the row, or
    SQLite takes it or holds it already. A SQLite failure alone does not stop the PostgreSQL half.
   */
  lemma DualWriteKeepsExactly(sqlite: Table, pg: Table, id: Id, row: Row, sqliteFault: Fault, pgFault: Fault)
    requires SubMap(pg, sqlite)
    ensures SubMap(Inserted(pg, id, row, pgFault), Inserted(sqlite, id, row, sqliteFault)) <==>
            id in pg || pgFault.Refused? || (if id in sqlite then sqlite[id] == row else !sqliteFault.Refused?)
  {
    if id !in pg && !pgFault.Refused? {
      assert id in Inserted(pg, id, row, pgFault);
    }
  }

  /** A refused SQLite write leaves PostgreSQL with a row that a SQLite-only read never returns. */
  lemma SqliteFailureShows(sqlite: Table, id: Id, row: Row)
    requires id !in sqlite
    ensures var s, p := Inserted(sqlite, id, row, Refused), Inserted(sqlite, id, row, NoFault);
            && FetchOneResult(ReadSqliteFallback, s, p, id, Works, Works) == Some(row)
            && FetchOneResult(ReadSqliteOnly, s, p, id, Works, Works) == None
  {
  }

  // ---- reads are the same before and after each stage ----

  /** Before the cutover, in whatever read mode, a read by id answers as SQLite would. */
  lemma ReadsLikeSqlite(stage: nat, sqlite: Table, pg: Table, id: Id, pgFault: ReadFault)
    requires stage < 3 && SubMap(pg, sqlite)
    ensures FetchOneResult(STAGES[stage].read, sqlite, pg, id, pgFault, Works) ==
            FetchOneResult(ReadSqliteOnly, sqlite, pg, id, pgFault, Works)
  {
    assert STAGES[0].read == ReadSqliteOnly && STAGES[1].read == ReadSqliteFallback && STAGES[2].read == ReadPgFallback;
  }

  /** The fallback mode hides a backfill gap from reads by id exactly while PostgreSQL holds no foreign row. */
  lemma FallbackReadsExactly(sqlite: Table, pg: Table)
    ensures (forall id :: FetchOneResult(ReadSqliteFallback, sqlite, pg, id, Works, Works) == Look(sqlite, id))
            <==> SubMap(pg, sqlite)
  {
    if !SubMap(pg, sqlite) {
      var id :| id in pg && !(id in sqlite && pg[id] == sqlite[id]);
      assert FetchOneResult(ReadSqliteFallback, sqlite, pg, id, Works, Works) != Look(sqlite, id);
    }
  }

  /** The cutover changes no read by id exactly when the two tables are equal. */
  lemma CutoverReadsExactly(sqlite: Table, pg: Table)
    ensures (forall id :: FetchOneResult(ReadPgOnly, sqlite, pg, id, Works, Works) ==
                          FetchOneResult(ReadSqliteOnly, sqlite, pg, id, Works, Works))
            <==> pg == sqlite
  {
    if forall id :: FetchOneResult(ReadPgOnly, sqlite, pg, id, Works, Works) ==
                    FetchOneResult(ReadSqliteOnly, sqlite, pg, id, Works, Works) {
      forall id ensures (id in pg <==> id in sqlite) && (id in pg ==> pg[id] == sqlite[id]) {
        assert FetchOneResult(ReadPgOnly, sqlite, pg, id, Works, Works) == Look(pg, id);
        assert FetchOneResult(ReadSqliteOnly, sqlite, pg, id, Works, Works) == Look(sqlite, id);
      }
    }
  }

  /**
    A list read in the fallback mode does not fall through on a gap. While PostgreSQL is a part of SQLite
    and both are up, the list holds what reads by id find exactly when the tables are equal already; an
    error of PostgreSQL, and the other fallback mode, give SQLite's list.
   */
  lemma ListsAgreeExactly(sqlite: Table, pg: Table)
    requires SubMap(pg, sqlite)
    ensures (forall id :: Look(FetchAllResult(ReadSqliteFallback, sqlite, pg, Works, Works), id) ==
                          FetchOneResult(ReadSqliteFallback, sqlite, pg, id, Works, Works))
            <==> pg == sqlite
    ensures FetchAllResult(ReadSqliteFallback, sqlite, pg, Works, Works) == sqlite <==> pg == sqlite
    ensures FetchAllResult(ReadSqliteFallback, sqlite, pg, Raises, Works) == sqlite
    ensures FetchAllResult(ReadPgFallback, sqlite, pg, Works, Works) == sqlite
  {
    if pg != sqlite {
      assert !(sqlite.Keys <= pg.Keys);
      var id :| id in sqlite && id !in pg;
      assert Look(pg, id) != FetchOneResult(ReadSqliteFallback, sqlite, pg, id, Works, Works);
    }
  }

  // ---- the comparison is sound and exact ----

  lemma {:induction false} DifferingPositions(a: seq<IdRow>, b: seq<IdRow>, n: nat)
    requires n <= |a| && n <= |b|
    ensures forall x :: x in Differing(a, b, n) <==>
                        x.row < n && a[x.row] != b[x.row] && x.sqlite == a[x.row] && x.pg == b[x.row]
    ensures forall i, j :: 0 <= i < j < |Differing(a, b, n)| ==> Differing(a, b, n)[i].row < Differing(a, b, n)[j].row
  {
    if n > 0 {
      var d := Differing(a, b, n - 1);
      DifferingPositions(a, b, n - 1);
      forall i | 0 <= i < |d| ensures d[i].row < n - 1 {
        assert d[i] in d;
      }
    }
  }

  lemma EarlierRows(a: seq<IdRow>, b: seq<IdRow>, n: nat, i: nat)
    requires AscendingIds(a) && i < n < |a| && n <= |b| && a[..n] == b[..n]
    ensures b[i].id.num < a[n].id.num
  {
    assert a[..n][i] == b[..n][i];
  }

  lemma Placed(t: Table, limit: nat, rows: seq<IdRow>, i: nat, x: Id) returns (k: nat)
    requires OrderedRows(t, limit, rows) && i < |rows| && x in t && x.num < rows[i].id.num
    ensures k < |rows| && rows[k].id == x
  {
    assert Listed(rows, x);
    k :| 0 <= k < |rows| && rows[k].id == x;
  }

  lemma NextRow(t: Table, limit: nat, a: seq<IdRow>, b: seq<IdRow>, n: nat)
    requires OrderedRows(t, limit, a) && OrderedRows(t, limit, b)
    requires n < |a| && n < |b| && a[..n] == b[..n]
    ensures b[n].id.num <= a[n].id.num
  {
    assert a[n].id in t;
    if a[n].id.num < b[n].id.num {
      var k := Placed(t, limit, b, n, a[n].id);
      EarlierRows(a, b, n, k);
    }
  }

  lemma SameRow(t: Table, limit: nat, a: seq<IdRow>, b: seq<IdRow>, n: nat)
    requires OrderedRows(t, limit, a) && OrderedRows(t, limit, b)
    requires n < |a| && n < |b| && a[..n] == b[..n]
    ensures a[n] == b[n]
  {
    NextRow(t, limit, a, b, n);
    NextRow(t, limit, b, a, n);
  }

  /** The rows of an ordered and limited query are determined by the table. */
  lemma {:induction false} OrderedRowsUnique(t: Table, limit: nat, a: seq<IdRow>, b: seq<IdRow>, n: nat)
    requires OrderedRows(t, limit, a) && OrderedRows(t, limit, b)
    requires n <= |a| && n <= |b|
    ensures a[..n] == b[..n]
  {
    if n > 0 {
      OrderedRowsUnique(t, limit, a, b, n - 1);
      SameRow(t, limit, a, b, n - 1);
    }
  }

  lemma OrderedRowsCount(t: Table, limit: nat, a: seq<IdRow>, b: seq<IdRow>)
    requires OrderedRows(t, limit, a) && OrderedRows(t, limit, b)
    ensures |a| >= |b|
  {
    if |a| < |b| {
      assert b[|a|].id in t;
      assert Listed(a, b[|a|].id);
      OrderedRowsUnique(t, limit, a, b, |a|);
      forall i | 0 <= i < |a| ensures a[i].id.num < b[|a|].id.num {
        EarlierRows(b, a, |a|, i);
      }
    }
  }

  lemma NoneDiffer(a: seq<IdRow>, b: seq<IdRow>)
    requires |a| == |b|
    ensures Differing(a, b, |a|) == [] <==> a == b
  {
    DifferingPositions(a, b, |a|);
    forall i | 0 <= i < |a| && a[i] != b[i] ensures Differing(a, b, |a|) != [] {
      assert Mismatch(i, a[i], b[i]) in Differing(a, b, |a|);
    }
    if Differing(a, b, |a|) != [] {
      var x := Differing(a, b, |a|)[0];
      assert x in Differing(a, b, |a|);
    }
  }

  // ---- what a clean comparison says, at any limit ----

  function Below(t: Table, id: Id): set<Id> {
    set x | x in t && x.num < id.num
  }

  /** The first `n` rows by id: those with fewer than `n` smaller ids in the table. */
  function FirstRows(t: Table, n: nat): Table {
    map id | id in t && |Below(t, id)| < n :: t[id]
  }

  function IdsBefore(rows: seq<IdRow>, i: nat): set<Id>
    requires i <= |rows|
  {
    if i == 0 then {} else IdsBefore(rows, i - 1) + {rows[i - 1].id}
  }

  lemma {:induction false} IdsBeforeHas(rows: seq<IdRow>, i: nat, k: nat)
    requires k < i <= |rows|
    ensures rows[k].id in IdsBefore(rows, i)
  {
    if k < i - 1 {
      IdsBeforeHas(rows, i - 1, k);
    }
  }

  lemma {:induction false} IdsBeforeFrom(rows: seq<IdRow>, i: nat, x: Id) returns (k: nat)
    requires i <= |rows| && x in IdsBefore(rows, i)
    ensures k < i && rows[k].id == x
  {
    if rows[i - 1].id == x {
      k := i - 1;
    } else {
      k := IdsBeforeFrom(rows, i - 1, x);
    }
  }

  lemma {:induction false} IdsBeforeCount(rows: seq<IdRow>, i: nat)
    requires AscendingIds(rows) && i <= |rows|
    ensures |IdsBefore(rows, i)| == i
  {
    if i > 0 {
      IdsBeforeCount(rows, i - 1);
      if rows[i - 1].id in IdsBefore(rows, i - 1) {
        var k := IdsBeforeFrom(rows, i - 1, rows[i - 1].id);
      }
    }
  }

  lemma BelowListed(t: Table, limit: nat, rows: seq<IdRow>, i: nat, x: Id)
    requires OrderedRows(t, limit, rows) && i < |rows| && x in Below(t, rows[i].id)
    ensures x in IdsBefore(rows, i)
  {
    var k := Placed(t, limit, rows, i, x);
    IdsBeforeHas(rows, i, k);
  }

  lemma ListedIsBelow(t: Table, limit: nat, rows: seq<IdRow>, i: nat, x: Id)
    requires OrderedRows(t, limit, rows) && i < |rows| && x in IdsBefore(rows, i)
    ensures x in Below(t, rows[i].id)
  {
    var k := IdsBeforeFrom(rows, i, x);
    assert rows[k].id in t;
  }

  lemma ListedBelow(t: Table, limit: nat, rows: seq<IdRow>, i: nat)
    requires OrderedRows(t, limit, rows) && i < |rows|
    ensures |Below(t, rows[i].id)| == i
  {
    forall x | x in Below(t, rows[i].id) ensures x in IdsBefore(rows, i) {
      BelowListed(t, limit, rows, i, x);
    }
    forall x | x in IdsBefore(rows, i) ensures x in Below(t, rows[i].id) {
      ListedIsBelow(t, limit, rows, i, x);
    }
    assert Below(t, rows[i].id) == IdsBefore(rows, i);
    IdsBeforeCount(rows, i);
  }

  lemma BelowUnlisted(t: Table, limit: nat, rows: seq<IdRow>, id: Id, x: Id)
    requires OrderedRows(t, limit, rows) && BeyondLimit(rows, limit, id) && x in IdsBefore(rows, limit)
    ensures x in Below(t, id)
  {
    var k := IdsBeforeFrom(rows, limit, x);
    assert rows[k].id in t;
    assert rows[k].id.num <= rows[limit - 1].id.num;
  }

  lemma UnlistedBelow(t: Table, limit: nat, rows: seq<IdRow>, id: Id)
    requires OrderedRows(t, limit, rows) && id in t && !Listed(rows, id)
    ensures |Below(t, id)| >= limit
  {
    assert BeyondLimit(rows, limit, id);
    forall x | x in IdsBefore(rows, limit) ensures x in Below(t, id) {
      BelowUnlisted(t, limit, rows, id, x);
    }
    IdsBeforeCount(rows, limit);
    SmallerSet(IdsBefore(rows, limit), Below(t, id));
  }

  lemma SmallerSet<T>(a: set<T>, b: set<T>)
    requires a <= b
    ensures |a| <= |b|
  {
    assert b == a + (b - a);
  }

  /** An ordered and limited query answers exactly with the first rows. */
  lemma QueryGivesFirstRows(t: Table, limit: nat, rows: seq<IdRow>)
    requires OrderedRows(t, limit, rows)
    ensures forall id :: id in FirstRows(t, limit) <==> Listed(rows, id)
    ensures OrderedRows(FirstRows(t, limit), limit, rows)
  {
    forall id ensures id in FirstRows(t, limit) <==> Listed(rows, id) {
      if Listed(rows, id) {
        var i :| 0 <= i < |rows| && rows[i].id == id;
        ListedBelow(t, limit, rows, i);
      } else if id in t {
        UnlistedBelow(t, limit, rows, id);
      }
    }
    forall i | 0 <= i < |rows| ensures rows[i].id in FirstRows(t, limit) {
      assert Listed(rows, rows[i].id);
    }
  }

  lemma SameAnswer(t: Table, limit: nat, a: seq<IdRow>, b: seq<IdRow>)
    requires OrderedRows(t, limit, a) && OrderedRows(t, limit, b)
    ensures a == b
  {
    OrderedRowsCount(t, limit, a, b);
    OrderedRowsCount(t, limit, b, a);
    OrderedRowsUnique(t, limit, a, b, |a|);
    assert a[..|a|] == a && b[..|b|] == b;
  }

  lemma AllRowsAreFirst(t: Table, limit: nat, rows: seq<IdRow>)
    requires OrderedRows(t, limit, rows) && |rows| < limit
    ensures FirstRows(t, limit) == t
  {
    QueryGivesFirstRows(t, limit, rows);
    forall id | id in t ensures id in FirstRows(t, limit) {
      assert Listed(rows, id);
    }
  }

  /**
    A comparison returns without mismatches exactly when the first rows of both tables are the same, as many
    as its limit; over fewer rows than the limit these are the whole tables.
   */
  lemma ComparisonExact(sqlite: Table, pg: Table, limit: int, a: seq<IdRow>, b: seq<IdRow>)
    requires OrderedRows(sqlite, Clamped(limit), a) && OrderedRows(pg, Clamped(limit), b)
    ensures |a| == |b| && Differing(a, b, |a|) == [] <==>
            FirstRows(sqlite, Clamped(limit)) == FirstRows(pg, Clamped(limit))
    ensures |a| < Clamped(limit) ==> FirstRows(sqlite, Clamped(limit)) == sqlite
    ensures |b| < Clamped(limit) ==> FirstRows(pg, Clamped(limit)) == pg
  {
    var n := Clamped(limit);
    var x, y := FirstRows(sqlite, n), FirstRows(pg, n);
    QueryGivesFirstRows(sqlite, n, a);
    QueryGivesFirstRows(pg, n, b);
    if x == y {
      SameAnswer(x, n, a, b);
    }
    if |a| == |b| {
      NoneDiffer(a, b);
      if a == b {
        RowsGiveTable(x, y, n, a);
      }
    }
    if |a| < n {
      AllRowsAreFirst(sqlite, n, a);
    }
    if |b| < n {
      AllRowsAreFirst(pg, n, b);
    }
  }

  lemma RowsGiveTable(x: Table, y: Table, limit: nat, rows: seq<IdRow>)
    requires OrderedRows(x, limit, rows) && OrderedRows(y, limit, rows)
    requires forall id :: id in x <==> Listed(rows, id)
    requires forall id :: id in y <==> Listed(rows, id)
    ensures x == y
  {
    forall id | id in x ensures id in y && x[id] == y[id] {
      var i :| 0 <= i < |rows| && rows[i].id == id;
    }
  }
}
