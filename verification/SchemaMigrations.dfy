/**
  The schema migration runner. A run sees the migration files, and for each one whether its script fails
  and what the look at the tables says; those are its environment.
 */
module SchemaMigrations {
  import opened Outcomes
  import opened Text

  const INIT_FILE := "0000_schema_version.sql"

  const EXISTING: set<string> := {
    "20260304_add_order_callback_dedup.sql",
    "20260306_wave_b4_callbacks_lease_and_dims.sql",
    "20260306_wave_b_virtual_goods.sql",
    "20260306_wave_c_manual_takeover_events.sql",
    "20260306_wave_c_order_events.sql",
    "20260306_wave_d_listing_product_mappings.sql",
    "20260306_wave_d_ops_exception_pool.sql",
    "20260306_wave_d_ops_exception_transition_log.sql",
    "20260306_wave_d_ops_fulfillment_eff_daily.sql",
    "20260306_wave_d_ops_funnel_stage_daily.sql",
    "20260306_wave_d_ops_item_daily_snapshot.sql"
  }

  /** The look for `virtual_goods_orders`: found, not found, or the query failed. */
  datatype TableCheck = Found | Missing | CheckFailed

  /** What one run finds: the file names in order (empty without a directory), failing scripts, table checks. */
  datatype Env = Env(files: seq<string>, failing: set<string>, check: string -> TableCheck)

  /** The tracked part of a database: the version table, the names in it, and every script executed so far. */
  datatype Db = Db(hasTable: bool, recorded: set<string>, executed: seq<string>)

  datatype Failed = ScriptFailed(name: string) | NoVersionTable(name: string)

  datatype Outcome = Outcome(db: Db, applied: seq<string>, failure: Option<Failed>)

  // ---- one run ----

  /** `SELECT name FROM schema_versions`, with an error read as nothing recorded. */
  function AppliedNames(db: Db): set<string> {
    if db.hasTable then db.recorded else {}
  }

  function Execute(db: Db, name: string): Db {
    db.(executed := db.executed + [name], hasTable := db.hasTable || name == INIT_FILE)
  }

  function Record(db: Db, name: string): Db
    requires db.hasTable
  {
    db.(recorded := db.recorded + {name})
  }

  predicate SkippedWhenMissing(name: string) {
    IsPrefix("0013", name) && name !in EXISTING
  }

  /** The treatment of one pending file other than the first. */
  function RunFile(env: Env, db: Db, name: string): Result<Db, (Db, Failed)> {
    if name in EXISTING then
      if db.hasTable then Success(Record(db, name)) else Failure((db, NoVersionTable(name)))
    else if SkippedWhenMissing(name) && env.check(name).Missing? && db.hasTable then Success(Record(db, name))
    else if name in env.failing then Failure((db, ScriptFailed(name)))
    else
      var done := Execute(db, name);
      if done.hasTable then Success(Record(done, name)) else Failure((done, NoVersionTable(name)))
  }

  function Prepend(names: seq<string>, out: Outcome): Outcome {
    out.(applied := names + out.applied)
  }

  /** The loop over the files, from those that were recorded when it began. */
  function RunFiles(env: Env, db: Db, skip: set<string>, files: seq<string>): Outcome
    decreases |files|
  {
    if files == [] then Outcome(db, [], None)
    else
      var name := files[0];
      if name == INIT_FILE || name in skip then RunFiles(env, db, skip, files[1..])
      else
        match RunFile(env, db, name)
        case Failure(f) => Outcome(f.0, [], Some(f.1))
        case Success(next) =>
          Prepend([name], RunFiles(env, next, skip, files[1..]))
  }

  function AfterRun(env: Env, db: Db): Outcome {
    if env.files == [] then Outcome(db, [], None)
    else if INIT_FILE in env.files && INIT_FILE !in AppliedNames(db) then
      if INIT_FILE in env.failing then Outcome(db, [], Some(ScriptFailed(INIT_FILE)))
      else
        var first := Record(Execute(db, INIT_FILE), INIT_FILE);
        Prepend([INIT_FILE], RunFiles(env, first, AppliedNames(first), env.files))
    else RunFiles(env, db, AppliedNames(db), env.files)
  }

  class Database {
    var hasTable: bool
    var recorded: set<string>
    var executed: seq<string>

    function Model(): Db
      reads this
    {
      Db(hasTable, recorded, executed)
    }

    method ExecuteScript(name: string)
      modifies this
      ensures Model() == Execute(old(Model()), name)
    {
      executed := executed + [name];
      if name == INIT_FILE {
        hasTable := true;
      }
    }

    /** `INSERT OR IGNORE`; it raises when the version table does not exist. */
    method RecordMigration(name: string) returns (ok: bool)
      modifies `recorded
      ensures ok == hasTable
      ensures Model() == if hasTable then Record(old(Model()), name) else old(Model())
    {
      if hasTable {
        recorded := recorded + {name};
      }
      return hasTable;
    }

    method TreatFile(env: Env, name: string) returns (failure: Option<Failed>)
      modifies this
      ensures match RunFile(env, old(Model()), name)
              case Success(db) => Model() == db && failure.None?
              case Failure(f) => Model() == f.0 && failure == Some(f.1)
    {
      if name in EXISTING {
        var ok := RecordMigration(name);
        return if ok then None else Some(NoVersionTable(name));
      }
      if SkippedWhenMissing(name) && env.check(name) == Missing {
        var ok := RecordMigration(name);
        if ok {
          return None;
        }
      }
      if name in env.failing {
        return Some(ScriptFailed(name));
      }
      ExecuteScript(name);
      var ok := RecordMigration(name);
      return if ok then None else Some(NoVersionTable(name));
    }

    /** The loop over the files, with the names read before it began. */
    method TreatFiles(env: Env, appliedNames: set<string>) returns (applied: seq<string>, failure: Option<Failed>)
      modifies this
      ensures Outcome(Model(), applied, failure) == RunFiles(env, old(Model()), appliedNames, env.files)
    {
      applied, failure := [], None;
      ghost var out := RunFiles(env, Model(), appliedNames, env.files);
      assert env.files[0..] == env.files && Prepend([], out) == out;
      for i := 0 to |env.files|
        invariant failure.None?
        invariant out == Prepend(applied, RunFiles(env, Model(), appliedNames, env.files[i..]))
      {
        var name := env.files[i];
        assert env.files[i..][0] == name && env.files[i..][1..] == env.files[i + 1..];
        if name == INIT_FILE || name in appliedNames {
          continue;
        }
        failure := TreatFile(env, name);
        if failure.Some? {
          assert applied + [] == applied;
          return;
        }
        applied := applied + [name];
      }
      assert applied + [] == applied;
    }

    method RunMigrations(env: Env) returns (r: Result<seq<string>, Failed>)
      modifies this
      ensures var out := AfterRun(env, old(Model()));
              && Model() == out.db
              && r == if out.failure.Some? then Failure(out.failure.value) else Success(out.applied)
    {
      if env.files == [] {
        return Success([]);
      }
      var applied: seq<string> := [];
      var appliedNames := AppliedNames(Model());
      if INIT_FILE in env.files && INIT_FILE !in appliedNames {
        if INIT_FILE in env.failing {
          return Failure(ScriptFailed(INIT_FILE));
        }
        ExecuteScript(INIT_FILE);
        var _ := RecordMigration(INIT_FILE);
        applied := applied + [INIT_FILE];
        assert applied == [INIT_FILE];
        appliedNames := AppliedNames(Model());
      }
      var more, failure := TreatFiles(env, appliedNames);
      if failure.Some? {
        return Failure(failure.value);
      }
      assert applied == [] ==> applied + more == more;
      return Success(applied + more);
    }
  }

  // ---- what one run does ----

  /** No name occurs twice. */
  predicate Distinct(names: seq<string>) {
    names == [] || (names[0] !in names[1..] && Distinct(names[1..]))
  }

  /** The files after the first kind that a run has still to treat, in order. */
  function PendingIn(skip: set<string>, files: seq<string>): seq<string> {
    if files == [] then []
    else if files[0] == INIT_FILE || files[0] in skip then PendingIn(skip, files[1..])
    else [files[0]] + PendingIn(skip, files[1..])
  }

  predicate NeedsInit(env: Env, db: Db) {
    INIT_FILE in env.files && INIT_FILE !in AppliedNames(db)
  }

  /** Everything that a run has still to treat, in the order in which it does. */
  function Pending(env: Env, db: Db): seq<string> {
    var rest := PendingIn(AppliedNames(db), env.files);
    if NeedsInit(env, db) then [INIT_FILE] + rest else rest
  }

  /** Whether a run executes the script of a pending file, rather than only record its name. */
  predicate Executes(env: Env, name: string) {
    name !in EXISTING && !(SkippedWhenMissing(name) && env.check(name).Missing?)
  }

  function Executed(env: Env, names: seq<string>): seq<string> {
    if names == [] then []
    else (if Executes(env, names[0]) then [names[0]] else []) + Executed(env, names[1..])
  }

  /** The version table exists by the time a run reaches its first ordinary file. */
  predicate Tracked(env: Env, db: Db) {
    db.hasTable || env.files == [] || INIT_FILE in env.files
  }

  function Names(names: seq<string>): set<string> {
    set n | n in names
  }

  /**
    `applied` is as much of `pending` as comes before the first script that fails, its names are recorded
    and those of them that need it were executed, in that order; nothing else changed.
   */
  ghost predicate RanUntilFailure(env: Env, before: Db, pending: seq<string>, out: Outcome) {
    && out.applied <= pending
    && out.db.recorded == before.recorded + Names(out.applied)
    && out.db.executed == before.executed + Executed(env, out.applied)
    && (out.failure.None? ==> out.applied == pending)
    && (out.failure.Some? ==>
          && |out.applied| < |pending|
          && out.failure.value == ScriptFailed(pending[|out.applied|])
          && pending[|out.applied|] in env.failing && Executes(env, pending[|out.applied|]))
  }

  lemma NotExistingInit()
    ensures INIT_FILE !in EXISTING && !SkippedWhenMissing(INIT_FILE)
  {
    assert INIT_FILE[..4][2] == '0' && "0013"[2] == '1';
  }

  lemma {:induction false} FilesRun(env: Env, db: Db, skip: set<string>, files: seq<string>)
    requires db.hasTable
    ensures RanUntilFailure(env, db, PendingIn(skip, files), RunFiles(env, db, skip, files))
    ensures RunFiles(env, db, skip, files).db.hasTable
    decreases |files|
  {
    if files != [] {
      var name := files[0];
      if name == INIT_FILE || name in skip {
        FilesRun(env, db, skip, files[1..]);
      } else {
        var r := RunFile(env, db, name);
        if r.Success? {
          FilesRun(env, r.value, skip, files[1..]);
          FirstApplied(env, db, name, r.value, PendingIn(skip, files[1..]), RunFiles(env, r.value, skip, files[1..]));
        }
      }
    }
  }

  lemma FirstApplied(env: Env, db: Db, name: string, next: Db, pending: seq<string>, rest: Outcome)
    requires db.hasTable && RanUntilFailure(env, next, pending, rest)
    requires next.recorded == db.recorded + {name}
    requires next.executed == db.executed + if Executes(env, name) then [name] else []
    ensures RanUntilFailure(env, db, [name] + pending, Prepend([name], rest))
  {
    var applied := [name] + rest.applied;
    assert applied[1..] == rest.applied;
    var ran := if Executes(env, name) then [name] else [];
    assert (db.executed + ran) + Executed(env, rest.applied) == db.executed + (ran + Executed(env, rest.applied));
    assert Names(applied) == {name} + Names(rest.applied);
  }

  /**
    One run treats the pending files in order up to the first failing script: what it returns, what it
    records, what it executes and where it stops.
   */
  lemma RunTreatsPending(env: Env, db: Db)
    requires Tracked(env, db) && (!db.hasTable ==> db.recorded == {})
    ensures RanUntilFailure(env, db, Pending(env, db), AfterRun(env, db))
  {
    NotExistingInit();
    if env.files != [] && INIT_FILE in env.files && INIT_FILE !in AppliedNames(db) {
      if INIT_FILE !in env.failing {
        var first := Record(Execute(db, INIT_FILE), INIT_FILE);
        FilesRun(env, first, AppliedNames(first), env.files);
        PendingWithoutInit(AppliedNames(db), env.files);
        FirstApplied2(env, db, first, PendingIn(AppliedNames(db), env.files),
                      RunFiles(env, first, AppliedNames(first), env.files));
      }
    } else if env.files != [] {
      FilesRun(env, db, AppliedNames(db), env.files);
    }
  }

  lemma FirstApplied2(env: Env, db: Db, first: Db, pending: seq<string>, rest: Outcome)
    requires first == Record(Execute(db, INIT_FILE), INIT_FILE) && RanUntilFailure(env, first, pending, rest)
    ensures RanUntilFailure(env, db, [INIT_FILE] + pending, Prepend([INIT_FILE], rest))
  {
    NotExistingInit();
    FirstApplied(env, db.(hasTable := true), INIT_FILE, first, pending, rest);
  }

  lemma {:induction false} PendingWithoutInit(skip: set<string>, files: seq<string>)
    ensures PendingIn(skip + {INIT_FILE}, files) == PendingIn(skip, files)
  {
    if files != [] {
      PendingWithoutInit(skip, files[1..]);
    }
  }

  // ---- which scripts are executed, by name ----

  /** The eleven files whose tables existing databases already have. */
  predicate IsOld(name: string) {
    || name == "20260304_add_order_callback_dedup.sql"
    || name == "20260306_wave_b4_callbacks_lease_and_dims.sql"
    || name == "20260306_wave_b_virtual_goods.sql"
    || name == "20260306_wave_c_manual_takeover_events.sql"
    || name == "20260306_wave_c_order_events.sql"
    || name == "20260306_wave_d_listing_product_mappings.sql"
    || name == "20260306_wave_d_ops_exception_pool.sql"
    || name == "20260306_wave_d_ops_exception_transition_log.sql"
    || name == "20260306_wave_d_ops_fulfillment_eff_daily.sql"
    || name == "20260306_wave_d_ops_funnel_stage_daily.sql"
    || name == "20260306_wave_d_ops_item_daily_snapshot.sql"
  }

  predicate StartsWith0013(name: string) {
    |name| >= 4 && name[0] == '0' && name[1] == '0' && name[2] == '1' && name[3] == '3'
  }

  lemma SkipsExactly(name: string)
    ensures SkippedWhenMissing(name) <==> StartsWith0013(name) && !IsOld(name)
  {
    if |name| >= 4 {
      assert name[..4] == [name[0], name[1], name[2], name[3]];
    }
  }

  lemma {:induction false} ExecutedElements(env: Env, names: seq<string>, n: string)
    ensures n in Executed(env, names) <==> n in names && Executes(env, n)
  {
    if names != [] {
      ExecutedElements(env, names[1..], n);
    }
  }

  /** An old file, and one that starts with 0013 while its table is missing, is recorded and not executed. */
  lemma OnlyRecorded(env: Env, db: Db, name: string)
    requires Tracked(env, db) && (!db.hasTable ==> db.recorded == {})
    requires IsOld(name) || (StartsWith0013(name) && env.check(name).Missing?)
    ensures var out := AfterRun(env, db);
            && (name in out.db.executed <==> name in db.executed)
            && (name in out.applied ==> name in out.db.recorded)
  {
    SkipsExactly(name);
    RunTreatsPending(env, db);
    ExecutedElements(env, AfterRun(env, db).applied, name);
  }

  /** Every other file that a run treats is executed and recorded, also if the look at the tables fails. */
  lemma OthersAreExecuted(env: Env, db: Db, name: string)
    requires Tracked(env, db) && (!db.hasTable ==> db.recorded == {})
    requires name in AfterRun(env, db).applied && !IsOld(name)
    requires StartsWith0013(name) ==> env.check(name) != Missing
    ensures name in AfterRun(env, db).db.executed && name in AfterRun(env, db).db.recorded
  {
    SkipsExactly(name);
    RunTreatsPending(env, db);
    ExecutedElements(env, AfterRun(env, db).applied, name);
  }

  /** A new database gets the file of the version table first, and nothing if that script fails. */
  lemma VersionTableFirst(env: Env, db: Db)
    requires "0000_schema_version.sql" in env.files && !db.hasTable && db.recorded == {}
    ensures var out := AfterRun(env, db);
            if "0000_schema_version.sql" in env.failing
            then out == Outcome(db, [], Some(ScriptFailed("0000_schema_version.sql")))
            else out.applied != [] && out.applied[0] == "0000_schema_version.sql" && out.db.hasTable &&
                 db.executed + ["0000_schema_version.sql"] <= out.db.executed
  {
    if INIT_FILE !in env.failing {
      RunTreatsPending(env, db);
      TableStays(env, db);
      StartsWithInit(env, db, Pending(env, db), AfterRun(env, db));
    }
  }

  lemma StartsWithInit(env: Env, db: Db, pending: seq<string>, out: Outcome)
    requires RanUntilFailure(env, db, pending, out) && pending != [] && pending[0] == INIT_FILE
    requires INIT_FILE !in env.failing
    ensures out.applied != [] && out.applied[0] == INIT_FILE && db.executed + [INIT_FILE] <= out.db.executed
  {
    NotExistingInit();
    var rest := Executed(env, out.applied[1..]);
    assert db.executed + ([INIT_FILE] + rest) == (db.executed + [INIT_FILE]) + rest;
  }

  // ---- what a run records ----

  lemma {:induction false} PendingElements(skip: set<string>, files: seq<string>)
    ensures forall n :: n in PendingIn(skip, files) <==> n in files && n != INIT_FILE && n !in skip
  {
    if files != [] {
      PendingElements(skip, files[1..]);
      assert forall n :: n in files <==> n == files[0] || n in files[1..];
    }
  }

  /** A run that returns has every file recorded and returns exactly those that were not; it loses no name. */
  lemma SuccessRecordsAll(env: Env, db: Db)
    requires Tracked(env, db) && (!db.hasTable ==> db.recorded == {})
    ensures var out := AfterRun(env, db);
            out.failure.None? ==>
              && out.db.recorded == db.recorded + Names(env.files)
              && (forall n :: n in out.applied <==> n in env.files && n !in db.recorded)
  {
    RunTreatsPending(env, db);
    PendingElements(AppliedNames(db), env.files);
  }

  lemma {:induction false} NothingPending(skip: set<string>, files: seq<string>)
    requires forall n :: n in files ==> n in skip
    ensures PendingIn(skip, files) == []
  {
    if files != [] {
      NothingPending(skip, files[1..]);
    }
  }

  /** A further run over recorded files returns the empty list and changes nothing, whatever its scripts would do. */
  lemma FurtherRunIsIdle(env: Env, db: Db, again: Env)
    requires Tracked(env, db) && (!db.hasTable ==> db.recorded == {})
    requires AfterRun(env, db).failure.None? && again.files == env.files
    ensures AfterRun(again, AfterRun(env, db).db) == Outcome(AfterRun(env, db).db, [], None)
  {
    SuccessRecordsAll(env, db);
    TableStays(env, db);
    var db1 := AfterRun(env, db).db;
    if again.files != [] {
      NothingPending(AppliedNames(db1), again.files);
      NothingToRun(again, db1, AppliedNames(db1), again.files);
    }
  }

  lemma {:induction false} NothingToRun(env: Env, db: Db, skip: set<string>, files: seq<string>)
    requires PendingIn(skip, files) == []
    ensures RunFiles(env, db, skip, files) == Outcome(db, [], None)
    decreases |files|
  {
    if files != [] {
      NothingToRun(env, db, skip, files[1..]);
    }
  }

  lemma TableStays(env: Env, db: Db)
    requires Tracked(env, db)
    ensures db.hasTable || (env.files != [] && INIT_FILE !in env.failing) ==> AfterRun(env, db).db.hasTable
    ensures !AfterRun(env, db).db.hasTable ==> AfterRun(env, db).db == db
  {
    if env.files != [] {
      if INIT_FILE in env.files && INIT_FILE !in AppliedNames(db) {
        if INIT_FILE !in env.failing {
          var first := Record(Execute(db, INIT_FILE), INIT_FILE);
          FilesRun(env, first, AppliedNames(first), env.files);
        }
      } else {
        FilesRun(env, db, AppliedNames(db), env.files);
      }
    }
  }

  // ---- resuming ----

  lemma {:induction false} PendingAfter(skip: set<string>, files: seq<string>, k: nat)
    requires Distinct(files) && k <= |PendingIn(skip, files)|
    ensures PendingIn(skip + Names(PendingIn(skip, files)[..k]), files) == PendingIn(skip, files)[k..]
  {
    if files != [] {
      var pending := PendingIn(skip, files);
      var rest := PendingIn(skip, files[1..]);
      PendingElements(skip, files[1..]);
      if files[0] == INIT_FILE || files[0] in skip {
        PendingAfter(skip, files[1..], k);
      } else if k == 0 {
        assert skip + Names(pending[..0]) == skip;
      } else {
        PendingAfter(skip, files[1..], k - 1);
        assert pending[..k] == [files[0]] + rest[..k - 1];
        var done := skip + Names(rest[..k - 1]);
        assert skip + Names(pending[..k]) == done + {files[0]};
        SkipAbsent(done, files[0], files[1..]);
      }
    }
  }

  lemma {:induction false} SkipAbsent(skip: set<string>, name: string, files: seq<string>)
    requires name !in files
    ensures PendingIn(skip + {name}, files) == PendingIn(skip, files)
  {
    if files != [] {
      SkipAbsent(skip, name, files[1..]);
    }
  }

  /**
    What a run has treated and what the next one has to treat make up what it had to treat: after an
    abort the next run starts with the file that failed, and nothing is treated twice or left out.
   */
  lemma NextRunResumes(env: Env, db: Db, again: Env)
    requires Tracked(env, db) && (!db.hasTable ==> db.recorded == {}) && Distinct(env.files)
    requires again.files == env.files
    ensures Pending(env, db) == AfterRun(env, db).applied + Pending(again, AfterRun(env, db).db)
  {
    var out := AfterRun(env, db);
    RunTreatsPending(env, db);
    TableStays(env, db);
    if !out.db.hasTable {
      AppliedNothing(env, db);
    } else if NeedsInit(env, db) && out.applied == [] {
      assert out.db.recorded == db.recorded;
    } else {
      ResumeAt(env, db, again, out);
    }
  }

  lemma PendingLater(skip: set<string>, files: seq<string>, k: nat)
    requires Distinct(files) && k <= |PendingIn(skip, files)|
    ensures PendingIn(skip + Names([INIT_FILE] + PendingIn(skip, files)[..k]), files) == PendingIn(skip, files)[k..]
  {
    var done := PendingIn(skip, files)[..k];
    assert skip + Names([INIT_FILE] + done) == (skip + Names(done)) + {INIT_FILE};
    PendingWithoutInit(skip + Names(done), files);
    PendingAfter(skip, files, k);
  }

  lemma PrefixCons(a: seq<string>, x: string, b: seq<string>)
    requires a <= [x] + b && a != []
    ensures |a| - 1 <= |b| && a == [x] + b[..|a| - 1] && [x] + b == a + b[|a| - 1..]
  {
    assert a == ([x] + b)[..|a|];
  }

  lemma TailAfterInit(skip: set<string>, files: seq<string>, k: nat, recorded: set<string>)
    requires Distinct(files) && k <= |PendingIn(skip, files)|
    requires recorded == skip + Names([INIT_FILE] + PendingIn(skip, files)[..k])
    ensures PendingIn(recorded, files) == PendingIn(skip, files)[k..] && INIT_FILE in recorded
  {
    PendingLater(skip, files, k);
    assert INIT_FILE in [INIT_FILE] + PendingIn(skip, files)[..k];
  }

  lemma ResumeAfterInit(env: Env, db: Db, again: Env, out: Outcome)
    requires RanUntilFailure(env, db, Pending(env, db), out) && out.db.hasTable
    requires (!db.hasTable ==> db.recorded == {}) && Distinct(env.files) && again.files == env.files
    requires NeedsInit(env, db) && out.applied != []
    ensures Pending(env, db) == out.applied + Pending(again, out.db)
  {
    var skip, pending, k := AppliedNames(db), PendingIn(AppliedNames(db), env.files), |out.applied| - 1;
    PrefixCons(out.applied, INIT_FILE, pending);
    TailAfterInit(skip, env.files, k, AppliedNames(out.db));
  }

  lemma PrefixSplit(a: seq<string>, b: seq<string>)
    requires a <= b
    ensures a == b[..|a|] && b == a + b[|a|..]
  {
  }

  lemma ResumeWithoutInit(env: Env, db: Db, again: Env, out: Outcome)
    requires RanUntilFailure(env, db, Pending(env, db), out) && out.db.hasTable
    requires (!db.hasTable ==> db.recorded == {}) && Distinct(env.files) && again.files == env.files
    requires !NeedsInit(env, db)
    ensures Pending(env, db) == out.applied + Pending(again, out.db)
  {
    PrefixSplit(out.applied, PendingIn(AppliedNames(db), env.files));
    PendingAfter(AppliedNames(db), env.files, |out.applied|);
  }

  lemma ResumeAt(env: Env, db: Db, again: Env, out: Outcome)
    requires RanUntilFailure(env, db, Pending(env, db), out) && out.db.hasTable
    requires (!db.hasTable ==> db.recorded == {}) && Distinct(env.files) && again.files == env.files
    requires NeedsInit(env, db) ==> out.applied != []
    ensures Pending(env, db) == out.applied + Pending(again, out.db)
  {
    if NeedsInit(env, db) {
      ResumeAfterInit(env, db, again, out);
    } else {
      ResumeWithoutInit(env, db, again, out);
    }
  }

  lemma AppliedNothing(env: Env, db: Db)
    requires Tracked(env, db) && !AfterRun(env, db).db.hasTable
    ensures AfterRun(env, db).applied == []
  {
    if env.files != [] && INIT_FILE in env.files && INIT_FILE !in AppliedNames(db) && INIT_FILE !in env.failing {
      var first := Record(Execute(db, INIT_FILE), INIT_FILE);
      FilesRun(env, first, AppliedNames(first), env.files);
    } else if db.hasTable {
      FilesRun(env, db, AppliedNames(db), env.files);
    }
  }

  // ---- any sequence of runs ----

  /** The database after runs in these environments, failed runs included. */
  function AfterRuns(db: Db, envs: seq<Env>): Db {
    if envs == [] then db else AfterRun(envs[|envs| - 1], AfterRuns(db, envs[..|envs| - 1])).db
  }

  /** Every script was executed at most once, was recorded, and is none of those that existing databases have. */
  ghost predicate ExecutedOnce(db: Db) {
    && Distinct(db.executed)
    && (forall n :: n in db.executed ==> n in db.recorded && n !in EXISTING)
    && (!db.hasTable ==> db.recorded == {})
  }

  lemma {:induction false} DistinctAppend(a: seq<string>, b: seq<string>)
    requires Distinct(a) && Distinct(b) && forall n :: n in a ==> n !in b
    ensures Distinct(a + b)
  {
    if a == [] {
      assert a + b == b;
    } else {
      DistinctAppend(a[1..], b);
      assert (a + b)[1..] == a[1..] + b;
    }
  }

  lemma {:induction false} DistinctParts(a: seq<string>, b: seq<string>)
    requires Distinct(a + b)
    ensures Distinct(a)
  {
    if a != [] {
      assert (a + b)[1..] == a[1..] + b;
      DistinctParts(a[1..], b);
    }
  }

  lemma PrefixDistinct(a: seq<string>, all: seq<string>)
    requires a <= all && Distinct(all)
    ensures Distinct(a) && forall n :: n in a ==> n in all
  {
    assert all == a + all[|a|..];
    DistinctParts(a, all[|a|..]);
  }

  lemma {:induction false} PendingDistinct(skip: set<string>, files: seq<string>)
    requires Distinct(files)
    ensures Distinct(PendingIn(skip, files))
  {
    if files != [] {
      PendingDistinct(skip, files[1..]);
      PendingElements(skip, files[1..]);
      var rest := PendingIn(skip, files[1..]);
      assert ([files[0]] + rest)[1..] == rest;
    }
  }

  lemma {:induction false} ExecutedDistinct(env: Env, names: seq<string>)
    requires Distinct(names)
    ensures Distinct(Executed(env, names))
    ensures forall n :: n in Executed(env, names) <==> n in names && Executes(env, n)
  {
    if names != [] {
      var rest := Executed(env, names[1..]);
      ExecutedDistinct(env, names[1..]);
      assert [] + rest == rest && ([names[0]] + rest)[1..] == rest;
      assert forall n :: n in names <==> n == names[0] || n in names[1..];
    }
  }

  lemma AppliedIsNew(env: Env, db: Db)
    requires Tracked(env, db) && (!db.hasTable ==> db.recorded == {}) && Distinct(env.files)
    ensures Distinct(AfterRun(env, db).applied)
    ensures forall n :: n in AfterRun(env, db).applied ==> n in env.files && n !in db.recorded
  {
    var out, pending := AfterRun(env, db), PendingIn(AppliedNames(db), env.files);
    RunTreatsPending(env, db);
    PendingElements(AppliedNames(db), env.files);
    PendingDistinct(AppliedNames(db), env.files);
    assert ([INIT_FILE] + pending)[1..] == pending;
    PrefixDistinct(out.applied, Pending(env, db));
  }

  lemma RunExecutesOnce(env: Env, db: Db)
    requires ExecutedOnce(db) && Tracked(env, db) && Distinct(env.files)
    ensures ExecutedOnce(AfterRun(env, db).db)
    ensures db.recorded <= AfterRun(env, db).db.recorded
  {
    RunTreatsPending(env, db);
    AppliedIsNew(env, db);
    TableStays(env, db);
    ExecutedDistinct(env, AfterRun(env, db).applied);
    DistinctAppend(db.executed, Executed(env, AfterRun(env, db).applied));
  }

  /**
    Over any sequence of runs, aborted ones included, with any files and any failures, no script is
    executed twice, those of existing databases never, and every executed script stays recorded.
   */
  lemma {:induction false} ExactlyOnce(start: Db, envs: seq<Env>)
    requires ExecutedOnce(start)
    requires forall i :: 0 <= i < |envs| ==>
            Distinct(envs[i].files) && (envs[i].files == [] || INIT_FILE in envs[i].files)
    ensures ExecutedOnce(AfterRuns(start, envs)) && start.recorded <= AfterRuns(start, envs).recorded
  {
    if envs != [] {
      var before := envs[..|envs| - 1];
      assert forall i :: 0 <= i < |before| ==> before[i] == envs[i];
      ExactlyOnce(start, before);
      RunExecutesOnce(envs[|envs| - 1], AfterRuns(start, before));
    }
  }

  // ---- without the file that creates the version table ----

  /**
    A run keeps executed scripts recorded exactly when the version table is there or its file is, or the
    first file is not executed; otherwise the script runs and its record fails.
   */
  lemma RecordsExactly(env: Env, db: Db)
    requires ExecutedOnce(db) && Distinct(env.files)
    ensures (forall n :: n in AfterRun(env, db).db.executed ==> n in AfterRun(env, db).db.recorded) <==>
            Tracked(env, db) || env.files[0] in EXISTING || env.files[0] in env.failing
  {
    if Tracked(env, db) {
      RunExecutesOnce(env, db);
    } else {
      var name := env.files[0];
      assert name != INIT_FILE;
      if name !in EXISTING && name !in env.failing {
        assert AfterRun(env, db).db == Execute(db, name);
        assert name in AfterRun(env, db).db.executed;
      }
    }
  }

  /** Then every further run executes that script again. */
  lemma UntrackedRepeats(env: Env, db: Db)
    requires ExecutedOnce(db) && !Tracked(env, db) && env.files[0] !in EXISTING && env.files[0] !in env.failing
    ensures AfterRuns(db, [env, env]).executed == db.executed + [env.files[0], env.files[0]]
  {
    var name := env.files[0];
    assert name != INIT_FILE;
    assert [env, env][..1] == [env] && [env][..0] == [];
    var once := AfterRun(env, db).db;
    assert once == Execute(db, name);
    assert AfterRuns(db, [env]) == once;
    assert AfterRun(env, once).db == Execute(once, name);
    assert (db.executed + [name]) + [name] == db.executed + [name, name];
  }
}
