# Verified model of the shop assistant's stateful components

This project models the parts of the shop assistant whose guarantees show only over whole runs, and
proves them over the inputs, runs and failures that the model covers; "Left out" below says which it does
not. The parts are the two-level cache and its memoising decorator, the migration from SQLite to
PostgreSQL, the schema migration runner, the watchdog, the rate gate, the cookie monitor, the layered
configuration with its masked view, the cookie and `.env` text formats, and the route table.
`dafny verify dfyconfig.toml` checks everything.

Code that changes state is a class with the same fields and in-place methods. Each method is proved equal
to a function of the old state, and the run-level theorems are about sequences of those functions.

| module | what it models |
|---|---|
| `LruCache`, `MultiLevelCache`, `Memoisation` | the memory level, the manager in front of Redis, the `cached` decorator |
| `DualWrite`, `Backfill`, `Cutover` | dual writes and staged reads, the batched copy, and both interleaved with stage changes |
| `SchemaMigrations` | the runner and any sequence of its runs |
| `Watchdog`, `RateGate`, `CookieHealth` | the three time-based machines |
| `LayeredConfig`, `ConfigPrecedence` | defaults, file, dashboard and environment merged, and the one lookup that this refines |
| `ConfigReload`, `RuntimeConfig` | reloads and reads that reload; the configuration object |
| `ConfigSettings` | what a load makes of single settings, by name and value |
| `ConfigMask`, `ConfigSecrets` | the masked view and the two ways to save it; what they do to single settings |
| `CookieMerge`, `EnvFile`, `Router` | the text stores and the dispatch |
| `Outcomes`, `Json`, `Text`, `TextLines` | options and results, JSON values, Python's string operations, lines and their stripping |

Clock readings, errors of the databases, of Redis and of notifiers, probe answers, file contents and
process results are parameters. Clocks are of type `real` and, where a theorem needs it, never go back.

## What the code does against expectation

The model follows the code. Where that misses what its documentation or a reader would expect, a lemma
gives the failing case, and others give the exact condition or the theorem that holds under it:

- A set whose Redis lifetime truncates to less than one second is written to memory and then fails, so the
  earlier value comes back later; and a delete that fails in Redis has cleared memory already, so the deleted
  value comes back (`RefusedSetResurrects`, `FailedDeleteResurrects`; `ServesLastExactly` says exactly when).
- The back-fill gives an entry a second memory lifetime: the staleness bound is the sum of both, and it is
  reached (`BoundIsTight`). `max_size` below one acts like one (`Capacity`).
- A refused SQLite write does not stop the PostgreSQL half (`SqliteFailureShows`, `DualWriteKeepsExactly`; over runs
  `InvisibleExactly`).
- `PG_FALLBACK` never reads PostgreSQL, although its comment says so; and `fetchall` does not fall through
  on rows that are still to be copied (`ListsAgreeExactly`).
- The decorator wraps functions that are no coroutines too, but their calls raise unless something else has
  stored their result (`PlainAlwaysRaises`).
- A reported error need not be a lost row (`RaceOnlyReports`, `EqualExactly`).
- Without the file that creates the version table, each run executes its first script again
  (`UntrackedRepeats`, `RecordsExactly`).
- The rate gate cuts the wait to whole seconds and admits up to a second early (`EarlyByAFraction`,
  `AdmittedExactly`).
- The whole-file strip of `.env` can lose a set to an indented first line, and change another key by cutting
  the blank at the end of the last line (`IndentedLineWins`, `TrailingBlankIsCut`; `SetTakesExactly` and
  `OthersStayExactly` say exactly when).
- Saving ignores edits that look like masks, and the route also ignores names that begin with two
  underscores (`EditsApplyExactly` says exactly when this shows).
- A section that is not a dictionary swallows what the dashboard has for it, without an error, except for
  the cookie service, where the load fails (`SystemLookup`, `LoadFailsExactly`).
- An automatic reload that fails is raised to one reader, if at all, and not tried again until the dashboard's file
  changes (`FailureIsFinal`), and a version of that file that is written between a load and the noting of its
  time is not read at all (`LateWriteIsOverlooked`; `ReadExactly` says exactly when).
- A dashboard file that is no valid UTF-8 fails the load, while one that is no valid JSON is skipped
  (`LoadFailsExactly`).
- The view masks one level of settings, and a save answers with the unmasked configuration
  (`NestedSecretIsShown`, `ConfigMask.ConfigService.Save`).
- A dry run counts every row as inserted (`Backfill.DataMigrator.InsertBatch`).

## Model

| member | source | states |
|---|---|---|
| `LruCache.ExactLru` | services/common/xianyuflow_common/cache.py:54-111 | In any history without deletes, clears or expiry, the keys held are exactly the last `max_size` distinct keys touched by a set or a hit. |
| `LruCache.EvictsLeastRecent` | services/common/xianyuflow_common/cache.py:72-111 | In any history at all, an eviction drops the key whose last touch is the oldest, and keeps every other key. |
| `LruCache.AlwaysInStep` | services/common/xianyuflow_common/cache.py:44-111 | After any history the values, the expiry times and the access order hold the same keys, each once, and no more of them than the bound. |
| `LruCache.StepKeepsInStep` | services/common/xianyuflow_common/cache.py:54-111 | Any single operation keeps the three structures in step and within the bound. |
| `LruCache.OrderIsByRecency` | services/common/xianyuflow_common/cache.py:54-86 | A later place in the access order always means a later last touch. |
| `LruCache.Capacity` | services/common/xianyuflow_common/cache.py:72-76 | The effective bound is `max_size`, and one when `max_size` is below one: a set evicts before it inserts. |
| `LruCache.L1MemoryCache.constructor` | services/common/xianyuflow_common/cache.py:47-52 | A new cache is empty and remembers its size. |
| `LruCache.L1MemoryCache.Get` | services/common/xianyuflow_common/cache.py:54-70 | A live entry is returned and becomes the most recent; an expired one disappears from all three structures; a miss changes nothing. |
| `LruCache.L1MemoryCache.Set` | services/common/xianyuflow_common/cache.py:72-86 | The entry is stored with a fresh expiry as the most recent one; only a new key in a full cache costs an eviction. |
| `LruCache.L1MemoryCache.Delete` | services/common/xianyuflow_common/cache.py:88-91 | The key leaves all three structures; other keys and their order stay. |
| `LruCache.L1MemoryCache.Clear` | services/common/xianyuflow_common/cache.py:93-98 | Nothing is left in any structure. |
| `LruCache.L1MemoryCache.Remove` | services/common/xianyuflow_common/cache.py:100-105 | Removal of one key from all three structures, present or not. |
| `LruCache.L1MemoryCache.EvictOldest` | services/common/xianyuflow_common/cache.py:107-111 | The oldest key of the order is removed everywhere; an empty cache stays empty. |
| `LruCache.SetIsServed` | services/common/xianyuflow_common/cache.py:54-86 | A value that was set is returned up to and including the last moment of its lifetime, and never after. |
| `LruCache.OthersAreServed` | services/common/xianyuflow_common/cache.py:72-86 | A set changes no answer for the keys that it leaves in the cache. |
| `LruCache.SetDrops` | services/common/xianyuflow_common/cache.py:72-86 | A set drops another key exactly when its own is new, the cache is full and that key is the oldest of the order. |
| `LruCache.DeletedIsGone` | services/common/xianyuflow_common/cache.py:88-105 | A deleted key is never returned, and the answers for the others stay. |
| `LruCache.GetForgetsExpired` | services/common/xianyuflow_common/cache.py:54-70 | An expired entry is neither returned nor kept; a live one is both. |
| `MultiLevelCache.NeverStale` | services/common/xianyuflow_common/cache.py:140-195 | In every run whose sets and deletes take effect in Redis, whatever else raises, a value that a lookup returns is that of the last set of the key, with no delete since, at most one Redis lifetime plus one memory lifetime (and the time a back-fill takes) after that set, and at most one memory lifetime after an invalidation that cleared the key. |
| `MultiLevelCache.BoundIsTight` | services/common/xianyuflow_common/cache.py:140-162 | The bound is reached: a value back-filled at any moment before it leaves Redis is served one memory lifetime after that. |
| `MultiLevelCache.TightRunIsLegal` | services/common/xianyuflow_common/cache.py:140-173 | The run that reaches the bound is one that the staleness theorem covers. |
| `MultiLevelCache.ServesLastExactly` | services/common/xianyuflow_common/cache.py:140-195 | With Redis in use, lookups return the last value set in every run exactly when every set and every delete that occurs takes effect: no lifetime truncates below one second and no command is refused. |
| `MultiLevelCache.RefusedSetResurrects` | services/common/xianyuflow_common/cache.py:164-173 | For every set that Redis does not take, for its lifetime or for an error, the value of the set before comes back once the memory level has expired. |
| `MultiLevelCache.FailedDeleteResurrects` | services/common/xianyuflow_common/cache.py:175-180 | A delete that Redis does not take clears memory and fails, and the deleted value is served again. |
| `MultiLevelCache.AlwaysCoherent` | services/common/xianyuflow_common/cache.py:140-195 | The invariant behind it: at every step each memory and Redis entry holds the last set value of its key with a bounded expiry. |
| `MultiLevelCache.Manager.constructor` | services/common/xianyuflow_common/cache.py:124-132 | Each level exists exactly when it is switched on or given a client. |
| `MultiLevelCache.Manager.Get` | services/common/xianyuflow_common/cache.py:140-162 | Memory answers first, then Redis; only a Redis answer is copied into memory, with a new memory lifetime, and an error of Redis is raised. |
| `MultiLevelCache.Manager.Set` | services/common/xianyuflow_common/cache.py:164-173 | Memory is written first; a lifetime below one second or an error of Redis is raised after that, and an absent or zero lifetime means the default. |
| `MultiLevelCache.Manager.Delete` | services/common/xianyuflow_common/cache.py:175-180 | The key leaves memory first, then Redis, also when its use is switched off; an error of Redis is raised in between or afterwards. |
| `MultiLevelCache.Manager.InvalidatePattern` | services/common/xianyuflow_common/cache.py:182-195 | Only Redis forgets the matching keys, whose number is returned; memory keeps them; an error is raised with or without effect. |
| `MultiLevelCache.Manager.PlainCall` | services/common/xianyuflow_common/cache.py:205-236 | For a function that is no coroutine only a cached value is returned; on a miss the wrapper raises and stores nothing. |
| `Memoisation.PlainAlwaysRaises` | services/common/xianyuflow_common/cache.py:205-236 | Such a function can never be cached by its own calls: in every run of them, and of reads, deletes and invalidations, each call raises. |
| `MultiLevelCache.Manager.CachedCall` | services/common/xianyuflow_common/cache.py:197-224 | A cached value is returned as it is; otherwise the function is called and its result stored, `None` included; errors of the read and of the write are raised. |
| `MultiLevelCache.LifetimeGiven` | services/common/xianyuflow_common/cache.py:171-173 | After a set with a lifetime of at least one second that Redis takes, and with memory off or its lifetime over, the value is found exactly until the whole seconds of that lifetime are over. |
| `MultiLevelCache.LifetimeDefault` | services/common/xianyuflow_common/cache.py:171-173 | Without a lifetime, or with zero, the same holds for the configured one. |
| `MultiLevelCache.LifetimeTooShort` | services/common/xianyuflow_common/cache.py:171-173 | A lifetime below one second makes the set raise, and Redis keeps what it had. |
| `MultiLevelCache.MemoryServes` | services/common/xianyuflow_common/cache.py:140-169 | For its memory lifetime a set is served whatever Redis does. |
| `MultiLevelCache.RaisesExactly` | services/common/xianyuflow_common/cache.py:140-151 | A failing Redis makes a lookup raise exactly when it is in use and memory holds no live value. |
| `MultiLevelCache.DeletedIsNotFound` | services/common/xianyuflow_common/cache.py:175-180 | After a delete that Redis takes the key is not found. |
| `MultiLevelCache.BackfillLives` | services/common/xianyuflow_common/cache.py:149-160 | What Redis answers is in memory for one memory lifetime from the back-fill on. |
| `Memoisation.MemoExact` | services/common/xianyuflow_common/cache.py:140-173 | With the memory level on, the decorator is indistinguishable from the function, over every history of calls, reads, deletes, evictions, expiries, invalidations and Redis errors, exactly when calls that share a key share their result. |
| `Memoisation.MemoSound` | services/common/xianyuflow_common/cache.py:197-224 | Such keys make every decorated call return what the function returns, on any clock and whichever level answers. |
| `Memoisation.CollisionIsServed` | services/common/xianyuflow_common/cache.py:205-222 | Two calls with one key and different results: the second is answered with the result of the first. |
| `Memoisation.AlwaysRight` | services/common/xianyuflow_common/cache.py:140-195 | In every reachable state both levels hold only results of the function. |
| `Memoisation.CallsWork` | services/common/xianyuflow_common/cache.py:213-222 | A call without errors returns the cached value, or else what the function returns. |
| `Memoisation.CallsRaise` | services/common/xianyuflow_common/cache.py:213-222 | An error of Redis at the lookup or the set is the result of a call that memory does not answer. |
| `Memoisation.CallIsKept` | services/common/xianyuflow_common/cache.py:217-222 | After a miss the result is in memory for one memory lifetime. |
| `DualWrite.ReadsLikeSqlite` | services/common/xianyuflow_common/dual_write.py:131-164 | While PostgreSQL holds only rows of SQLite, stages 1 to 3 answer every read by id as a SQLite-only read would, PostgreSQL up or down. |
| `DualWrite.FallbackReadsExactly` | services/common/xianyuflow_common/dual_write.py:131-164 | The fallback mode answers every read by id as SQLite does exactly while PostgreSQL holds no row that SQLite lacks or has differently. |
| `DualWrite.CutoverReadsExactly` | services/common/xianyuflow_common/dual_write.py:254-262 | The switch to PostgreSQL only changes no read by id exactly when the tables are equal. |
| `DualWrite.ListsAgreeExactly` | services/common/xianyuflow_common/dual_write.py:131-195 | While PostgreSQL is a part of SQLite and both are up, a list read in fallback mode holds what reads by id find exactly when the tables are equal; an error of PostgreSQL, or the other fallback mode, gives the list of SQLite. |
| `DualWrite.DualWriteKeepsExactly` | services/common/xianyuflow_common/dual_write.py:108-129 | A dual write keeps PostgreSQL a part of SQLite exactly when PostgreSQL does not take the row, or SQLite takes it or holds it already. |
| `DualWrite.SqliteFailureShows` | services/common/xianyuflow_common/dual_write.py:108-129 | A refused SQLite write still reaches PostgreSQL, and the two read modes then disagree on the row. |
| `DualWrite.ComparisonExact` | services/common/xianyuflow_common/dual_write.py:212-252 | A comparison is clean exactly when both tables have the same first rows by id, as many as the limit; over fewer rows these are the whole tables. |
| `DualWrite.QueryGivesFirstRows` | services/common/xianyuflow_common/dual_write.py:215-234 | The answer of the ordered and limited query lists exactly the rows with fewer smaller ids than the limit. |
| `DualWrite.DifferingPositions` | services/common/xianyuflow_common/dual_write.py:239-250 | The mismatches are exactly the differing positions with both rows, in ascending order. |
| `DualWrite.OrderedRowsUnique` | services/common/xianyuflow_common/dual_write.py:215-234 | An ordered and limited query has one answer, fixed by the table and the limit. |
| `DualWrite.Clamped` | services/common/xianyuflow_common/dual_write.py:206 | The limit lies between 1 and 10000 and is the requested one where that does. |
| `DualWrite.CompareRows` | services/common/xianyuflow_common/dual_write.py:239-252 | Counts, number of mismatches and the first five of them, or an error for lists of different lengths. |
| `DualWrite.DualWriteManager.constructor` | services/common/xianyuflow_common/dual_write.py:51-66 | The modes are those given and the progress is zero. |
| `DualWrite.DualWriteManager.Execute` | services/common/xianyuflow_common/dual_write.py:90-129 | The new contents of both tables, and which halves report an error: each half runs by the write mode alone. |
| `DualWrite.DualWriteManager.FetchOne` | services/common/xianyuflow_common/dual_write.py:131-164 | The answer for every read mode and every failure: a miss in PostgreSQL falls through to SQLite, and so does an error unless PostgreSQL is the only source. |
| `DualWrite.DualWriteManager.FetchAll` | services/common/xianyuflow_common/dual_write.py:166-195 | The answer for every read mode and every failure: only an error or a missing pool falls through. |
| `DualWrite.DualWriteManager.SetMigrationProgress` | services/common/xianyuflow_common/dual_write.py:254-262 | Progress is clamped to the unit interval; reaching one switches both modes, anything less leaves them. |
| `DualWrite.DualWriteManager.CompareData` | services/common/xianyuflow_common/dual_write.py:197-252 | An invalid name and unequal lengths are errors; otherwise it is clean exactly when the first rows of both tables are the same. |
| `DualWrite.ModesWrite` | services/common/xianyuflow_common/dual_write.py:108-129 | An insert of a new id without faults ends in both tables in the two dual modes, and in the one table of the other two, and reports nothing. |
| `DualWrite.FaultsAreReported` | services/common/xianyuflow_common/dual_write.py:115-127 | A database that a mode writes reports an error exactly for a fault or a taken id, and holds the row when the fault came after the write. |
| `DualWrite.StagesWrite` | services/common/xianyuflow_common/dual_write.py:296-325 | Stages 1 to 3 write both databases, stage 4 PostgreSQL alone. |
| `DualWrite.ModesReadOne` | services/common/xianyuflow_common/dual_write.py:131-164 | What a read by id finds in each mode: which database answers first, and where a miss or an error falls through. |
| `DualWrite.ModesReadAll` | services/common/xianyuflow_common/dual_write.py:166-195 | What a list read gives in each mode, with either database failing. |
| `DualWrite.CutoverListsExactly` | services/common/xianyuflow_common/dual_write.py:296-325 | Lists come from SQLite in the first stage and from PostgreSQL in the last, and are the same exactly when the tables are. |
| `Backfill.DataMigrator.InsertBatch` | scripts/migrate_data.py:199-224 | However `executemany` fails and whatever it leaves behind, the batch ends as if its rows had been inserted one by one, and inserted plus failed is the batch size; a dry run writes nothing. |
| `Backfill.DataMigrator.SendBatch` | scripts/migrate_data.py:167-188 | Sending the next batch extends the copy so far, with its counts, by the rows of the batch. |
| `Backfill.DataMigrator.MigrateTable` | scripts/migrate_data.py:139-197 | For every batch size and every pattern of failures the table ends as if migrated row by row, with the counts of accepted and rejected rows; by table name, rows of orders and codes that exist stay and profiles are updated. An unknown table is an error. |
| `Backfill.DataMigrator.MigrateAll` | scripts/migrate_data.py:226-256 | The tables are copied in order up to the first one that the source lacks, which ends the run with an error; the counters add up to the rows read. |
| `Backfill.DataMigrator.Validate` | scripts/migrate_data.py:258-294 | Counts and verdict for every table; for a part of the source the verdict is true exactly when the tables are equal. |
| `Backfill.DataMigrator.constructor` | scripts/migrate_data.py:107-117 | A migrator starts with zero counters. |
| `Backfill.FinalRow` | scripts/migrate_data.py:55-59 | What row-by-row insertion leaves for an id: under `DO NOTHING` the earliest row, under `DO UPDATE` the unlisted columns of the earliest row and the listed ones of the last. |
| `Backfill.Replay` | scripts/migrate_data.py:81-103 | Inserting the same rows a second time changes nothing, under both conflict rules. |
| `Backfill.UpsertAllAppend` | scripts/migrate_data.py:165-188 | Splitting the rows into batches anywhere changes neither the final table nor the counts. |
| `Backfill.RetryForgetsPrefix` | scripts/migrate_data.py:209-222 | Any prefix that a failed attempt left behind is forgotten by the retry of all rows. |
| `Backfill.RerunAfterCrash` | scripts/migrate_data.py:154-188 | A migration cut short anywhere and repeated in full ends as one uninterrupted migration. |
| `Backfill.CopyOf` | scripts/migrate_data.py:154-188 | Copying rows of the source into a part of it stays a part of it, and adds exactly the accepted rows. |
| `Backfill.FullCopyExactly` | scripts/migrate_data.py:154-188 | A full copy equals the source exactly when every row still missing is accepted; in particular when no row failed. |
| `Backfill.EqualCounts` | scripts/migrate_data.py:258-294 | Inside the rows of the source, equal counts mean equal tables. |
| `Backfill.TablesByName` | scripts/migrate_data.py:55-103 | After a copy of `user_profiles` each row has the updated columns of its last accepted row and keeps its other ones; after one of `orders` or `virtual_goods_codes` the rows that were there are unchanged and a new id has its first accepted row. |
| `Backfill.AcceptedAtCount` | scripts/migrate_data.py:209-222 | The rows counted as inserted are those at the positions that PostgreSQL does not reject. |
| `Backfill.MissingTableStops` | scripts/migrate_data.py:226-256 | A run over all tables ends at the first missing one, in the order orders, codes, profiles. |
| `Cutover.StepKeeps` | services/common/xianyuflow_common/dual_write.py:108-129 | Every step of the protocol, each half of a live insert, cursor read, batch, failed batch, retry and stage change, with any failure, keeps the invariant: PostgreSQL holds only rows of SQLite, and every row is copied, half done, ahead of the cursor, waiting in the batch, or reported. The one exception is the PostgreSQL half of an insert that SQLite refused, when it brings in a row that SQLite does not hold. |
| `Cutover.AlwaysAccounted` | scripts/migrate_data.py:139-224 | The invariant holds throughout every interleaving of backfill and live inserts without that exception. |
| `Cutover.InvisibleExactly` | services/common/xianyuflow_common/dual_write.py:108-164 | Whatever SQLite refuses and whichever ids are taken, reads by id in fallback mode stay invisible throughout a run exactly when that exception does not occur in it. |
| `Cutover.NoStrays` | services/common/xianyuflow_common/dual_write.py:108-115 | It does not occur where SQLite takes every insert. |
| `Cutover.BackfillLosesNothing` | scripts/migrate_data.py:154-188 | In such a run, when the backfill has ended, a missing row is a half-done insert, one with a reported error, or one counted as failed; with none of these PostgreSQL equals SQLite. |
| `Cutover.EqualExactly` | scripts/migrate_data.py:199-224 | With no insert half done, the tables are then equal exactly when the rows with an error are in PostgreSQL after all. |
| `Cutover.MigrationIsInvisible` | services/common/xianyuflow_common/dual_write.py:296-325 | In every state of stages 1 to 3 that such a run reaches, between the two writes of an insert and inside a batch too, a read by id answers what SQLite holds. |
| `Cutover.CleanCutover` | services/common/xianyuflow_common/dual_write.py:254-262 | After such a run and a backfill without errors, the last stage answers every read by id as the first one. |
| `Cutover.RefusedInsertIsLost` | services/common/xianyuflow_common/dual_write.py:117-129 | The error condition is needed: a live insert that PostgreSQL refuses after the backfill is missing there, and reported. |
| `Cutover.RaceOnlyReports` | services/common/xianyuflow_common/dual_write.py:117-129 | It is not always a loss: a row that the backfill copies between the two halves of its insert reports an error although both tables hold it. |
| `Cutover.WriteIsTwoHalves` | services/common/xianyuflow_common/dual_write.py:108-129 | In stages 1 to 3 a live insert, its tables and its PostgreSQL error, is the two halves of the protocol one after the other. |
| `Cutover.RefusedWriteIsTwoHalves` | services/common/xianyuflow_common/dual_write.py:108-129 | The same for an insert that SQLite refuses. |
| `Cutover.LastStageWrites` | services/common/xianyuflow_common/dual_write.py:296-325 | In stage 4 an insert changes PostgreSQL alone. |
| `Cutover.EveryRowIsRead` | scripts/migrate_data.py:154-188 | In every run a finished backfill has read each row that SQLite held when it began, and each later one that the cursor saw, exactly once, and every batch was full or the last for the moment. |
| `SchemaMigrations.RunTreatsPending` | src/core/migration.py:82-156 | One run treats the pending files in order up to the first failing script: exactly those are returned and recorded, and exactly those that need it are executed, in that order. |
| `SchemaMigrations.NextRunResumes` | src/core/migration.py:82-156 | What a run treated and what the next has to treat make up what there was to treat: after an abort the next run starts with the file that failed. |
| `SchemaMigrations.SuccessRecordsAll` | src/core/migration.py:82-156 | A run that returns has recorded every file and returns exactly those that were not recorded before. |
| `SchemaMigrations.FurtherRunIsIdle` | src/core/migration.py:82-156 | A further run returns the empty list and changes nothing, whatever its scripts would do. |
| `SchemaMigrations.ExactlyOnce` | src/core/migration.py:72-156 | Over any sequence of runs, aborted ones included, no script is executed twice, the pre-existing ones never, and no recorded name is lost. |
| `SchemaMigrations.RunExecutesOnce` | src/core/migration.py:82-156 | One run keeps that property. |
| `SchemaMigrations.RecordsExactly` | src/core/migration.py:82-156 | Executed scripts stay recorded exactly when the version table or its creating file is there, or the first file is pre-existing or fails. |
| `SchemaMigrations.UntrackedRepeats` | src/core/migration.py:51-57 | Otherwise each run executes its first script once more. |
| `SchemaMigrations.Database.ExecuteScript` | src/core/migration.py:145-150 | The script is executed; the first migration creates the version table. |
| `SchemaMigrations.Database.RecordMigration` | src/core/migration.py:72-79 | The name is added once, and an error reported when there is no version table. |
| `SchemaMigrations.Database.TreatFile` | src/core/migration.py:122-154 | One pending file: recorded only, skipped and recorded, or executed and recorded, with both ways to fail. |
| `SchemaMigrations.Database.TreatFiles` | src/core/migration.py:113-154 | The loop over all files, stopping at the first failure with what was done until then. |
| `SchemaMigrations.Database.RunMigrations` | src/core/migration.py:82-156 | The whole run: the new database and the returned names or the error. |
| `SchemaMigrations.OnlyRecorded` | src/core/migration.py:27-41 | The eleven old files, by name, and a file that starts with 0013 while its table is missing, are recorded and not executed by any run. |
| `SchemaMigrations.OthersAreExecuted` | src/core/migration.py:129-154 | Every other file that a run treats is executed and recorded, also when the look for the table fails. |
| `SchemaMigrations.VersionTableFirst` | src/core/migration.py:99-109 | A new database gets `0000_schema_version.sql` first, and nothing at all if that script fails. |
| `Watchdog.AtMostThreePerWindow` | src/dashboard_server.py:875-946 | In every run on a clock that never goes back, any four consecutive successful restarts of a module span at least the cooldown, so no shorter window holds more than three. |
| `Watchdog.NoticeExactly` | src/dashboard_server.py:950-960 | The cooldown notice is sent exactly when a restart brings the count to the maximum. |
| `Watchdog.LeftAloneExactly` | src/dashboard_server.py:921-925 | A module that is down is left alone exactly between a third restart and the end of the cooldown; the first visit after it tries again. |
| `Watchdog.CountIsRight` | src/dashboard_server.py:918-946 | The count is that of the restarts since the last pause of at least the cooldown, and the pauses hold over the whole run. |
| `Watchdog.IsRunning` | src/dashboard_server.py:927-939 | A module runs when its entry is alive, or some listed item with its name is running. |
| `Watchdog.WatchdogLoop.constructor` | src/dashboard_server.py:879-880 | Every module starts with no restart. |
| `Watchdog.WatchdogLoop.RunTick` | src/dashboard_server.py:912-960 | One pass: each module is updated by its own visit, a failing status call changes nothing, and the notices are exactly the due ones. |
| `Watchdog.WatchdogLoop.VisitModule` | src/dashboard_server.py:916-960 | One module is updated and every other one is left as it was. |
| `Watchdog.LeftAlone` | src/dashboard_server.py:918-925 | With three restarts counted and less than 1800 seconds since the last, nothing changes and no notice is sent. |
| `Watchdog.NothingCounted` | src/dashboard_server.py:921-946 | A running module and a failing start leave the time and the count, which is zero after 1800 seconds. |
| `Watchdog.StartCounted` | src/dashboard_server.py:941-960 | A start that succeeds adds one to the count, or begins it again after 1800 seconds, and the third sends a notice. |
| `Watchdog.RestartsAreTimed` | src/dashboard_server.py:912-946 | The restart times of a run are those of the visits whose start succeeds and that do not leave the module alone. |
| `RateGate.AlwaysSpaced` | src/core/compliance.py:110-120 | In every run, with clock readings in any order and intervals that change, each admitted action of a key comes more than its interval less one second after the one before. |
| `RateGate.FixedIntervalSpan` | src/core/compliance.py:110-120 | For a fixed interval `n` of at least one, admitted actions ascend in time and `k` steps among them span more than `k (n - 1)` seconds. |
| `RateGate.WholeSecondSpacing` | src/core/compliance.py:114-118 | On a clock of whole seconds consecutive admitted actions are at least the interval apart. |
| `RateGate.EarlyByAFraction` | src/core/compliance.py:116 | On a finer clock they are not: an action any fraction of a second early is admitted. |
| `RateGate.AdmittedExactly` | src/core/compliance.py:114-120 | An attempt is admitted exactly when more than the interval less one second has passed. |
| `RateGate.ReportedWaitIsExact` | src/core/compliance.py:115-118 | The reported wait is the least whole number of seconds after which the same attempt is admitted. |
| `RateGate.WindowIsLastAdmitted` | src/core/compliance.py:115-120 | The stored time of a key is that of its last admitted attempt: refused attempts and other keys never move it. |
| `RateGate.KeysAreIndependent` | src/core/compliance.py:110-120 | What is admitted for a key depends on the attempts of that key alone. |
| `RateGate.ComplianceGuard.constructor` | src/core/compliance.py:22-29 | A guard starts without any recorded action. |
| `RateGate.ComplianceGuard.Reload` | src/core/compliance.py:31-57 | New rules replace the old ones and leave the recorded actions. |
| `RateGate.ComplianceGuard.EnforceMinInterval` | src/core/compliance.py:110-120 | The verdict, the wait and the new window of one attempt. |
| `RateGate.ComplianceGuard.EvaluatePublishRate` | src/core/compliance.py:122-147 | In warning mode a refused publish is let through with a warning, and in both modes the window moves only for an admitted one. |
| `RateGate.ComplianceGuard.EvaluateBatchPolishRate` | src/core/compliance.py:131-156 | The same for batch polishing with its own cooldown. |
| `RateGate.NextIsAdmittedExactly` | src/core/compliance.py:110-120 | In any run a further attempt is admitted exactly when more than its interval less one second has passed since the last admitted one of its key, or since zero. |
| `CookieHealth.AlertsAreApart` | src/core/cookie_health.py:248-282 | Over every run two sent alerts are at least the cooldown apart, and between them a healthy verdict ends the unhealthy stretch, with a recovery attempt if there is a notifier. |
| `CookieHealth.RecoveryExactly` | src/core/cookie_health.py:273-282 | Recovery is attempted exactly when a healthy verdict directly follows an unhealthy one. |
| `CookieHealth.AlertOnlyOnEdge` | src/core/cookie_health.py:259-271 | An alert is attempted exactly for the first unhealthy verdict of a stretch with the cooldown over; a suppressed or failed one is not made up for. |
| `CookieHealth.VerdictsAreCurrent` | src/core/cookie_health.py:96-142 | In every sequential run a verdict is about the cookie that the checker then holds, cached or not, and a cached one is younger than the interval plus the time of a probe. |
| `CookieHealth.CacheAlwaysRight` | src/core/cookie_health.py:83-142 | The cached verdict is always what the probe said of the current cookie at the noted time. |
| `CookieHealth.AlarmFollowsChecks` | src/core/cookie_health.py:96-142 | The alert machine sees exactly the verdicts of uncached asynchronous checks; cookie changes, synchronous checks and cached answers leave it alone. |
| `CookieHealth.CookieHealthChecker.constructor` | src/core/cookie_health.py:59-77 | No verdict yet, and both periods are at least a minute. |
| `CookieHealth.CookieHealthChecker.SetCookieText` | src/core/cookie_health.py:83-88 | A new cookie forgets the cached verdict and keeps the alert state. |
| `CookieHealth.CookieHealthChecker.CheckSync` | src/core/cookie_health.py:90-111 | A fresh cached verdict is served, otherwise the probe is asked; the alert state stays. |
| `CookieHealth.CookieHealthChecker.CheckAsync` | src/core/cookie_health.py:113-142 | The verdict after a possible cookie refresh, the new cache and alert state, and which messages were sent. |
| `CookieHealth.CookieHealthChecker.HandleStateChange` | src/core/cookie_health.py:248-282 | The new alert state, whether an alert was sent and whether recovery was attempted. |
| `CookieHealth.CheckProbes` | src/core/cookie_health.py:96-142 | A forced check, and one whose verdict is old or missing, answers what the probe says now and keeps that. |
| `CookieHealth.FreshVerdictIsServed` | src/core/cookie_health.py:105-106 | Otherwise the kept verdict is the answer and nothing changes. |
| `CookieHealth.MissingCookieIsUnhealthy` | src/core/cookie_health.py:157-160 | Without a cookie every check is unhealthy, whatever was kept, unless a refresh finds one. |
| `CookieHealth.RefreshedCookieIsProbed` | src/core/cookie_health.py:127-142 | A refreshed cookie replaces an unhealthy one and decides the verdict. |
| `CookieHealth.AlertSentExactly` | src/core/cookie_health.py:248-271 | Over every run an alert is sent exactly for the first unhealthy verdict of a stretch, with a working notifier, outside the cooldown of every alert sent before; a failed send counts for nothing. |
| `CookieMerge.MergeExactly` | src/core/goofish_im_cookie.py:203-219 | Parsing the merged text gives the parse of the existing text overlaid by the new cookies exactly when the new names and values are ones that a cookie text can carry, whatever the existing text is. |
| `CookieMerge.RoundTripExactly` | src/core/goofish_im_cookie.py:208-219 | A dictionary survives printing and parsing exactly when its names and values are clean. |
| `CookieMerge.MergeTwice` | src/core/goofish_im_cookie.py:203-219 | Two merges are one merge of the overlaid cookies. |
| `CookieMerge.MergeAgain` | src/core/goofish_im_cookie.py:203-219 | Merging the same cookies again returns the text unchanged. |
| `CookieMerge.MergeSeesParseOnly` | src/core/goofish_im_cookie.py:208-219 | Two existing texts merge alike for all new cookies exactly when they parse to the same dictionary. |
| `CookieMerge.ParseIsClean` | src/core/goofish_im_cookie.py:209-214 | Parsed names and values carry no surrounding blanks and no semicolon, and names no equals sign. |
| `CookieMerge.ParseText` | src/core/goofish_im_cookie.py:208-214 | The loop assigns the pairs in turn, so that a later one replaces an earlier one. |
| `CookieMerge.SortedNames` | src/core/goofish_im_cookie.py:219 | Repeatedly taking the least name gives the ascending list of all names. |
| `CookieMerge.PrintText` | src/core/goofish_im_cookie.py:219 | The text of the entries in ascending order of their names. |
| `CookieMerge.MergeCookies` | src/core/goofish_im_cookie.py:203-219 | The printed overlay of the parsed text. |
| `Text.AscendingSorts` | src/core/goofish_im_cookie.py:219 | The printed names strictly ascend. |
| `Text.AscendingElements` | src/core/goofish_im_cookie.py:219 | They are the names of the dictionary, all of them. |
| `Text.StripStrips` | src/core/goofish_im_cookie.py:210-214 | Stripping leaves no blank at either end and changes nothing else. |
| `CookieMerge.PairAroundEquals` | src/core/goofish_im_cookie.py:209-214 | A piece is the name and the value around its first equals sign, without the blanks around them. |
| `CookieMerge.LaterPieceWins` | src/core/goofish_im_cookie.py:208-214 | A further piece sets its name to its value over everything before it. |
| `CookieMerge.OtherPiecesAreIgnored` | src/core/goofish_im_cookie.py:210-212 | A piece without an equals sign changes nothing. |
| `CookieMerge.PrintedText` | src/core/goofish_im_cookie.py:219 | The printed text is the entry of the least name, followed after a semicolon and a blank by the text of the rest. |
| `TextLines.StripPads` | src/core/goofish_im_cookie.py:210-214 | Stripping takes exactly the blanks put around a text. |
| `TextLines.BreakEndsLine` | src/dashboard/services/env_service.py:31 | Each of the ten line breaks ends a line. |
| `TextLines.PairEndsLine` | src/dashboard/services/env_service.py:31 | A carriage return and a line feed are one break. |
| `EnvFile.FileRefinesMap` | src/dashboard/services/env_service.py:28-53 | Over any sequence of sets, from a trimmed file, a key reads as last set, and a key never set reads as at the start. |
| `EnvFile.SetIsMapUpdate` | src/dashboard/services/env_service.py:33-53 | One set is one map update, despite the whole-file strip: the key reads as the value without line breaks or trailing blanks that was written, every other key as before. |
| `EnvFile.SetReads` | src/dashboard/services/env_service.py:40-53 | The rewritten file reads back as the updated lines and is trimmed again. |
| `EnvFile.WrittenReads` | src/dashboard/services/env_service.py:28-31 | A trimmed list of lines is read back as it was written. |
| `EnvFile.LookupUpdated` | src/dashboard/services/env_service.py:33-50 | Replacing the first assignment of a key, or adding one, changes the first match of that key only. |
| `EnvFile.SetTakesExactly` | src/dashboard/services/env_service.py:33-53 | Whatever the file was, the key reads as the value just set exactly unless the first line with any text is indented and gives the key another value. |
| `EnvFile.OthersStayExactly` | src/dashboard/services/env_service.py:33-53 | Every other name reads as before exactly unless that line gives it another value or, when it does not, the name was read from the last line with any text and that line ends with a blank. |
| `EnvFile.SetReadsAs` | src/dashboard/services/env_service.py:33-53 | What every name reads as after a set of any file: the value that the strip exposes, the value set, or the value from before, cut where it ended the file. |
| `EnvFile.LaterSetsRefineMap` | src/dashboard/services/env_service.py:40-53 | Only the first set of an untrimmed file can go wrong: all later ones are map updates. |
| `EnvFile.IndentedLineWins` | src/dashboard/services/env_service.py:52 | An indented first line moves to the margin and hides the value just set. |
| `EnvFile.TrailingBlankIsCut` | src/dashboard/services/env_service.py:52 | A set of one key takes the blank from the end of the value of another. |
| `TextLines.StrippedLines` | src/dashboard/services/env_service.py:52 | The stripped text has the lines without blank ones at either end, the first moved to the margin and the last cut. |
| `TextLines.TrimIsTrimmed` | src/dashboard/services/env_service.py:52 | Such lines are trimmed, and trimmed lines stay as they are. |
| `EnvFile.EnvService.ReadEnvLines` | src/dashboard/services/env_service.py:28-31 | A missing file has no lines; otherwise they are the lines of its text. |
| `EnvFile.EnvService.GetEnvValue` | src/dashboard/services/env_service.py:33-38 | The first matching line decides, then the process environment, then the empty string. |
| `EnvFile.EnvService.SetEnvValue` | src/dashboard/services/env_service.py:40-53 | The new file text and the new process environment. |
| `EnvFile.EnvService.UpdateLines` | src/dashboard/services/env_service.py:43-50 | Only the first assignment of the key is replaced; without one a line is added at the end. |
| `EnvFile.FirstAssignmentIsRead` | src/dashboard/services/env_service.py:33-38 | The first line that begins with the key and an equals sign is read, whatever follows. |
| `EnvFile.FirstLineIsRead` | src/dashboard/services/env_service.py:28-38 | From the text of the file: the first line is the value of its key and is passed over for others. |
| `EnvFile.EnvironIsNext` | src/dashboard/services/env_service.py:33-38 | Without a line the process environment answers, and then the empty text. |
| `EnvFile.FirstAssignmentIsReplaced` | src/dashboard/services/env_service.py:43-48 | A set replaces the first line of the key where it stands. |
| `EnvFile.NewAssignmentIsAdded` | src/dashboard/services/env_service.py:49-50 | Without one it adds a line at the end. |
| `EnvFile.WrittenText` | src/dashboard/services/env_service.py:52 | Trimmed lines are written as they are, each ended by a line feed. |
| `Router.DispatchIsLongest` | src/dashboard/router.py:269-285 | After any sequence of registrations the exact route is taken if there is one, otherwise the longest registered prefix, the earliest among equals; prefix and captured parameter make up the path. |
| `Router.TableFindsLongest` | src/dashboard/router.py:214-221 | The sorted table yields that route, and none exactly when no registered prefix fits. |
| `Router.OrderIsIrrelevant` | src/dashboard/router.py:214-221 | With distinct prefixes every order of registration gives the same outcome for every path. |
| `Router.TableIsSorted` | src/dashboard/router.py:214-221 | Sorting after every registration gives the one stable sort of all routes. |
| `Router.SortIsStable` | src/dashboard/router.py:221 | The table descends in prefix length, and routes of one length keep their order. |
| `Router.Routes.constructor` | src/dashboard/router.py:151-161 | The tables start empty. |
| `Router.Routes.AddExact` | src/dashboard/router.py:169-176 | A later registration of a path replaces the earlier one. |
| `Router.Routes.AddPrefix` | src/dashboard/router.py:214-221 | The table with the new route, sorted. |
| `Router.Routes.Dispatch` | src/dashboard/router.py:269-285 | The chosen handler, and the path parameter that is written. |
| `Router.PrefixAndRestIsDispatched` | src/dashboard/router.py:269-285 | A path made of a registered prefix and any rest finds a handler. |
| `Router.OtherPathsAreNotDispatched` | src/dashboard/router.py:269-285 | A path that is no exact route and begins with no registered prefix finds none. |
| `Router.OwnHandlerGetsRest` | src/dashboard/router.py:269-285 | The handler of the prefix is called with the rest as its parameter, unless a longer prefix, or an equal one registered earlier, fits too. |
| `ConfigMask.GetThenPut` | src/dashboard/config_service.py:893-931 | Saving the masked view back unchanged never raises and leaves the configuration as it is, through the service and through the route. |
| `ConfigMask.EditsApplyExactly` | src/dashboard/routes/config.py:209-236 | Saving an edited view equals applying the edits to the unmasked configuration exactly when the edits that a save ignores would change nothing. |
| `ConfigMask.SavingAppliesEdits` | src/dashboard/routes/config.py:209-236 | Saving an edited view never raises and applies exactly the edits that are not ignored. |
| `ConfigMask.ViewShowsExactly` | src/dashboard/config_service.py:893-906 | Two configurations have the same view exactly when they differ at most in secrets of a section beyond their first four characters. |
| `ConfigMask.NestedSecretIsShown` | src/dashboard/config_service.py:898-903 | Only one level is masked: a secret inside a setting that is itself a dictionary is shown in full. |
| `ConfigMask.PutThenGet` | src/dashboard/config_service.py:893-906 | The view after an edit is the view before with the edits on it, masked themselves. |
| `ConfigMask.RouteViewIsSafe` | src/dashboard/routes/config.py:38-50 | The view of the route, with settings shown from the YAML file, can be saved back too: no existing setting changes, only the shown ones are added. |
| `ConfigMask.SecretsSurvive` | src/dashboard/routes/config.py:209-236 | Over any run of saves with any bodies, no mask takes the place of a secret: each final value is the original one or one that a request carried unmasked. |
| `ConfigMask.RequestKeepsNoMask` | src/dashboard/config_service.py:909-931 | One save never stores a mask under a sensitive name. |
| `ConfigMask.ValueOrigin` | src/dashboard/config_service.py:909-931 | A stored value comes from the configuration before or from a kept value of the body. |
| `ConfigMask.MaskIsDropped` | src/dashboard/routes/config.py:220-224 | What the service takes for a mask, the route ignores as well. |
| `ConfigMask.MaskedIsDropped` | src/dashboard/config_service.py:893-906 | Whatever the read masks, both ways of saving ignore. |
| `ConfigMask.SensitiveLowered` | src/dashboard/routes/config.py:223 | The lowered name test of the route covers the exact one of the read. |
| `ConfigMask.MaskFields` | src/dashboard/config_service.py:898-903 | The masked section: sensitive and truthy values keep four characters, all others are unchanged. |
| `ConfigMask.MaskSensitive` | src/dashboard/config_service.py:893-906 | The masked configuration, section by section. |
| `ConfigMask.KeepFields` | src/dashboard/routes/config.py:218-225 | The values of a section that a save keeps. |
| `ConfigMask.MergeSection` | src/dashboard/config_service.py:915-924 | A section after the merge, or the error of merging into something that is not a dictionary. |
| `ConfigMask.MergeOne` | src/dashboard/config_service.py:912-924 | One section of the body: skipped, merged, or failing. |
| `ConfigMask.MergeBody` | src/dashboard/routes/config.py:213-226 | The loop over the body in any order gives the same result, and raises exactly when some section does. |
| `ConfigMask.ConfigService.constructor` | src/dashboard/config_service.py:49-55 | The stored configuration. |
| `ConfigMask.ConfigService.Read` | src/dashboard/config_service.py:893-906 | The masked view of what is stored. |
| `ConfigMask.ConfigService.ReadRoute` | src/dashboard/routes/config.py:38-50 | The masked view of what is stored together with the settings shown from the YAML file. |
| `ConfigMask.ConfigService.Save` | src/dashboard/routes/config.py:209-236 | What is stored after a save, and returned without a mask; one that raises writes nothing. |
| `ConfigSecrets.SensitiveExactly` | src/dashboard/config_service.py:900 | A name is sensitive exactly when one of the five parts `app_secret`, `api_key`, `access_key_secret`, `mch_secret` and `webhook` occurs in it. |
| `ConfigSecrets.LongSecretIsCut` | src/dashboard/config_service.py:898-901 | Under a sensitive name a text longer than four characters is shown as its first four and four stars. |
| `ConfigSecrets.OtherSecretIsCut` | src/dashboard/config_service.py:898-901 | So is a value that is no text, by the text that shows it. |
| `ConfigSecrets.ShortSecretIsShown` | src/dashboard/config_service.py:898-901 | A shorter one is shown whole in front of the stars, an empty one empty. |
| `ConfigSecrets.OtherSettingsAreShown` | src/dashboard/config_service.py:896-905 | Other settings, and sections that are no dictionaries, are shown as they are. |
| `ConfigSecrets.LongSecretsLookAlike` | src/dashboard/config_service.py:893-906 | Two long secrets give one view of the whole configuration exactly when their first four characters are the same. |
| `ConfigSecrets.YamlSliderIsShown` | src/dashboard/routes/config.py:40-44 | The route shows the slider settings of the YAML file exactly when none are stored. |
| `ConfigSecrets.YamlRulesAreShown` | src/dashboard/routes/config.py:45-49 | It shows the rules of the YAML file exactly when the stored automatic-reply settings have none. |
| `ConfigSecrets.ClearValueIsSaved` | src/dashboard/routes/config.py:213-226 | A value without four stars in it is saved, in each of the fourteen sections. |
| `ConfigSecrets.MaskKeepsOld` | src/dashboard/config_service.py:920-923 | A value that ends in four stars under a sensitive name keeps the value before, both ways. |
| `ConfigSecrets.InnerStars` | src/dashboard/routes/config.py:222-223 | Four stars inside a secret are saved by the service and ignored by the route. |
| `ConfigSecrets.StarsUnderOtherNames` | src/dashboard/routes/config.py:218-224 | Under other names stars are saved like anything else. |
| `ConfigSecrets.UpperCaseNames` | src/dashboard/routes/config.py:222-223 | Under a name that is sensitive only in lower case a mask is saved by the service and ignored by the route. |
| `ConfigSecrets.UnderscoredNames` | src/dashboard/routes/config.py:220-221 | The route ignores names that begin with two underscores. |
| `ConfigSecrets.UnsentStays` | src/dashboard/routes/config.py:213-225 | What the body does not have, and sections that cannot be saved, stay. |
| `ConfigSecrets.OtherSections` | src/dashboard/config_service.py:915-917 | A section that is no dictionary replaces the one before in the service and is ignored by the route. |
| `ConfigSecrets.SaveRaisesExactly` | src/dashboard/routes/config.py:225 | A save raises exactly when a section that it merges holds something else than settings, which the route replaces if it is empty. |
| `ConfigPrecedence.Precedence` | src/core/config.py:99-124 | After a load by either branch, a setting is the environment value, else that of the dashboard, else the resolved one of the file, else the default; the connection settings are those of the lower layers with the slider settings in them. |
| `ConfigPrecedence.OverridePrecedence` | src/core/config.py:459-484 | For every row of the override table its own parseable variable wins over the dashboard, the file and the default. |
| `ConfigPrecedence.EnvRows` | src/core/config.py:459-471 | Each row decides its setting alone, and no row touches the connection settings. |
| `ConfigPrecedence.OverriddenLookup` | src/core/config.py:473-484 | The overrides change exactly the settings with a parseable value, and every other setting keeps its value. |
| `ConfigPrecedence.SystemLookup` | src/core/config.py:370-438 | Merging the dashboard configuration sets what it has in every section that is missing or a dictionary, and keeps the rest. |
| `ConfigPrecedence.SliderLookup` | src/core/config.py:419-438 | The slider settings are put inside the connection settings, whose other entries stay. |
| `ConfigPrecedence.ReplySettings` | src/core/config.py:382-417 | Each automatic-reply setting becomes its message setting, keyword replies and rules theirs, and the connection settings are never among them. |
| `ConfigPrecedence.LastLineDecides` | src/core/config.py:401-409 | Among the lines for a keyword the last one gives its reply. |
| `ConfigPrecedence.NoLineGives` | src/core/config.py:401-409 | A keyword that no line gives has no reply. |
| `ConfigPrecedence.NamedRulesAreKept` | src/core/config.py:411-417 | Every named rule is kept, and every kept rule has its name and no unknown key. |
| `ConfigPrecedence.BaseLookup` | src/core/config.py:99-124 | Before the upper layers either branch gives the resolved file value, or the default. |
| `ConfigPrecedence.DefaultsLookup` | src/core/config.py:342-348 | Defaults fill in missing settings and change none. |
| `LayeredConfig.ResolvePlain` | src/core/config.py:189-207 | A value without references resolves to itself, at any depth. |
| `LayeredConfig.ResolveTwice` | src/core/config.py:189-207 | When variables hold no references, resolving again changes nothing. |
| `ConfigPrecedence.LoadFailsExactly` | src/core/config.py:99-124 | A load fails exactly when the file is unreadable or invalid or its `.env` cannot be read, the dashboard file raises an error that is not handled, the cookie service section cannot be merged, or the slider settings hold an unreadable number that would be stored. |
| `ConfigPrecedence.MergeFailsExactly` | src/core/config.py:350-438 | The merge of the dashboard configuration fails exactly in the last three cases; a missing, unopenable or malformed file is skipped. |
| `ConfigReload.LastGoodLoad` | src/core/config.py:587-601 | After any run of reloads the configuration is what the last successful one loaded, and the first one if all failed. |
| `ConfigReload.EachVersionOnce` | src/core/config.py:486-503 | Over any run of reads and explicit reloads in which no successful load turns the noted time back, reads try each version of the dashboard file at most once, failing or not, and their attempts are at least five seconds apart on any clock. |
| `ConfigReload.MissingFileRetries` | src/core/config.py:499-503 | That assumption is needed: if the file is missing when its time is noted, the same version is tried again once it is back. |
| `ConfigReload.OnlyLoadsChange` | src/core/config.py:486-526 | Over any run the configuration is what reloading at the loads made would give: no read changes it otherwise. |
| `ConfigReload.FailureIsFinal` | src/core/config.py:486-497 | After a failed automatic reload every read answers from the old configuration until the dashboard file changes or an explicit reload succeeds, even when a load would succeed by then. |
| `ConfigReload.ReadExactly` | src/core/config.py:99-124 | At every look of every run in which the file time never goes back: a look that attempts has its version read exactly if its load comes to the dashboard file, or an earlier one read it; a look that does not attempt finds its version unread exactly if all earlier loads read older ones and either the last of them succeeded and noted this one, or a read that saw it failed before it came to the file. |
| `ConfigReload.NothingOverlooked` | src/core/config.py:486-503 | Where successful loads note the version that they read, and the loads of reads come to the dashboard file, every look finds its version read or reads it. |
| `ConfigReload.LateWriteIsOverlooked` | src/core/config.py:499-503 | A version written between a load and the noting of its time is seen by the next look and not read. |
| `ConfigReload.FailedReloadReadsNothing` | src/core/config.py:113-118 | An explicit reload in between that fails on the file or the variables before it leaves that version unread. |
| `ConfigReload.BalkedVersionStays` | src/core/config.py:113-118 | A read that saw a version and failed there keeps later looks from reading it. |
| `ConfigReload.OverlookedStays` | src/core/config.py:486-503 | It stays without effect until the file changes again or an explicit reload succeeds. |
| `ConfigPrecedence.DottedKeyReadsSetting` | src/core/config.py:505-526 | A dotted key of two parts reads the setting of that section. |
| `RuntimeConfig.ConfigStore.constructor` | src/core/config.py:65-69 | The configuration starts empty, and no file time is known. |
| `RuntimeConfig.ConfigStore.SetDefaults` | src/core/config.py:342-348 | The defaults filled in, in any order of sections and settings. |
| `RuntimeConfig.ConfigStore.SetSectionDefaults` | src/core/config.py:343-348 | One section with its defaults filled in, created if missing. |
| `RuntimeConfig.ConfigStore.FillMissing` | src/core/config.py:345-348 | One section: present settings stay, missing ones get the default. |
| `RuntimeConfig.ConfigStore.UpdateSection` | src/core/config.py:374-376 | A missing section is created; settings are merged into a dictionary, and anything else stays. |
| `RuntimeConfig.ConfigStore.MergeShared` | src/core/config.py:370-376 | The shared sections merged in turn. |
| `RuntimeConfig.ConfigStore.MapFields` | src/core/config.py:386-396 | The mapped automatic-reply settings over the message settings. |
| `RuntimeConfig.ConfigStore.ReadKeywordReplies` | src/core/config.py:398-409 | The replies of the lines of a text. |
| `RuntimeConfig.ConfigStore.KeepRules` | src/core/config.py:411-417 | The named rules with their known keys, in order. |
| `RuntimeConfig.ConfigStore.ReadReply` | src/core/config.py:386-417 | The message settings with everything that the automatic-reply section sets. |
| `RuntimeConfig.ConfigStore.MergeReply` | src/core/config.py:382-417 | The message section after that, created if missing. |
| `RuntimeConfig.ConfigStore.MergeSlider` | src/core/config.py:419-438 | The slider settings in their place, or the error of an unreadable number. |
| `RuntimeConfig.ConfigStore.MergeSystemConfig` | src/core/config.py:350-438 | The merged configuration or the error; a missing or malformed file changes nothing, one that cannot be decoded fails. |
| `RuntimeConfig.ConfigStore.ApplyEnvOverrides` | src/core/config.py:440-484 | The overrides in the order of the table. |
| `RuntimeConfig.ConfigStore.LoadConfig` | src/core/config.py:99-124 | Both branches of a load, and the first error of one that fails. |
| `RuntimeConfig.ConfigStore.Reload` | src/core/config.py:587-601 | The newly loaded configuration and the noted file time, or the old configuration and the error. |
| `RuntimeConfig.ConfigStore.MaybeAutoReload` | src/core/config.py:486-497 | The new configuration, check time and file time; the only failure is that of an attempted load, and one of the operating system is swallowed. |
| `RuntimeConfig.ConfigStore.Get` | src/core/config.py:505-526 | The value at the dotted path after a possible reload, or the default where the path leaves the dictionaries; a failed reload is raised unless the operating system made it fail. |
| `ConfigSettings.ReferenceResolves` | src/core/config.py:200-206 | A reference to a set variable resolves to its value, one to an unset variable to itself. |
| `ConfigSettings.OtherTextStays` | src/core/config.py:200-207 | Text of any other form stays as it is. |
| `ConfigSettings.ResolvedAt` | src/core/config.py:189-207 | The value at any path of a resolved value is the resolution of the value at that path, and no path comes or goes. |
| `ConfigSettings.ReferenceIsLoaded` | src/core/config.py:111-117 | A setting of the file that refers to a set variable is loaded as its value, unless the dashboard or the environment sets it. |
| `ConfigSettings.InnerReferenceIsLoaded` | src/core/config.py:111-117 | So is a reference at any depth inside a setting. |
| `ConfigSettings.FileOrDefaultIsLoaded` | src/core/config.py:111-124 | Otherwise the setting of the file is loaded as it is, and the default if there is none. |
| `ConfigSettings.AppAndAiVariables` | src/core/config.py:459-484 | The five text variables for `app` and `ai`, by name, decide their settings when they are set and not empty, and leave them otherwise. |
| `ConfigSettings.MessageVariables` | src/core/config.py:459-484 | So do the three text variables for `messages`. |
| `ConfigSettings.EnabledVariable` | src/core/config.py:443-446 | `MESSAGES_ENABLED` switches on for exactly five words, in any case and with blanks around them. |
| `ConfigSettings.NumberVariables` | src/core/config.py:447-456 | The two number variables decide their settings exactly when they can be read. |
| `ConfigSettings.OtherSettingsStay` | src/core/config.py:459-484 | The environment changes no other setting. |
| `ConfigSettings.TextVariablesAreLoaded` | src/core/config.py:111-117 | In every successful load the text variables win, whatever the files hold. |
| `ConfigSettings.DashboardSettingIsLoaded` | src/core/config.py:370-380 | In the four shared sections and the cookie service a setting of the dashboard wins over file and default. |
| `ConfigSettings.SameNameIsLoaded` | src/core/config.py:24-37 | Ten automatic-reply settings are loaded as message settings of the same name. |
| `ConfigSettings.DelayRangeIsLoaded` | src/core/config.py:390-395 | The two delays, written as two numbers with a dash between them, are loaded as the two numbers. |
| `ConfigSettings.OtherDelayIsLoaded` | src/core/config.py:390-395 | A delay of any other form is loaded as it is. |
| `ConfigSettings.KeywordLine` | src/core/config.py:401-407 | A line gives its keyword the reply after the first equals sign, if neither is empty. |
| `ConfigSettings.KeywordRepliesAreLoaded` | src/core/config.py:398-409 | The keyword text is loaded as the replies of its lines. |
| `ConfigSettings.FurtherRule` | src/core/config.py:411-417 | A rule is kept exactly when it has a name, with the ten keys of the runtime alone. |
| `ConfigSettings.RulesAreLoaded` | src/core/config.py:411-417 | The custom rules are loaded as the rules of the runtime. |
| `ConfigSettings.ToIntTruncates` | src/core/config.py:427-428 | A number loses its fraction towards zero. |
| `ConfigSettings.SliderIsLoaded` | src/core/config.py:419-438 | Given slider settings are loaded as they are, next to the other connection settings. |
| `ConfigSettings.DefaultSlider` | src/core/config.py:425-430 | Missing ones get their defaults. |
| `ConfigSettings.FingerprintIsKept` | src/core/config.py:431-437 | A fingerprint browser is kept with its three settings or their defaults. |
| `ConfigPrecedence.LoadErrors` | src/core/config.py:111-124 | The error of a failed load is that of the first file that fails. |
| `ConfigReload.NewVersionIsInForce` | src/core/config.py:486-503 | A later version seen five seconds after the last look is the configuration if its load succeeds. |
| `ConfigReload.FailedVersionIsNoted` | src/core/config.py:486-497 | If it fails the configuration stays, the version is noted, and the error is raised unless it is one of the operating system. |
| `ConfigReload.OtherReadsKeepAll` | src/core/config.py:486-497 | Earlier reads, and reads that see no later version, change nothing but the time of the look. |
| `ConfigReload.ExplicitReload` | src/core/config.py:587-601 | An explicit reload loads whatever the times are, and changes nothing if it fails. |

## Left out

- MultiLevelCache.NeverStale: is about one sequential client; unlocked concurrent `get` calls of one manager, whose back-fill can overtake a delete, are not covered. Redis entries expire on time and on the clock of the client and survive encoding, and no other client writes them.
- MultiLevelCache.Manager.InvalidatePattern: the glob pattern is represented by the set of keys that the scan yields.
- Memoisation.MemoSound: JSON encoding is taken to be faithful, and MD5 keys are a parameter `keyOf`, so that key collisions are part of the theorem instead of being assumed away.
- DualWrite.DualWriteManager.Execute: models inserts with explicit ids; updates, deletes, SQL text, placeholders and generated ids are not modelled.
- DualWrite.DualWriteManager.FetchAll: models reads of the whole table.
- DualWrite.DualWriteManager.CompareData: compares against the answers of the two queries, both pools connected.
- Cutover.BackfillLosesNothing: rows that are updated or deleted while the backfill runs, and PostgreSQL-only writes of the last stage, are outside the claim; an insert that SQLite refuses may occur, unless its PostgreSQL half brings in a row that SQLite does not hold.
- Backfill.DataMigrator.MigrateTable: the set of rows that PostgreSQL rejects is fixed during a copy; a connection that fails to open is not modelled, and the progress bar is not either.
- Backfill.DataMigrator.MigrateAll: the only table error is a table missing in SQLite; start and end times are left out.
- SchemaMigrations.Database.ExecuteScript: a failing script has no effect; partial effects, and a crash between a script and its record, are not modelled. Only the first migration creates the version table, and no script drops it. The version number in a record is left out.
- Watchdog.WatchdogLoop.RunTick: the waiting between ticks, the initial start of the modules, the restart of the cookie refresher and the text and delivery of notices are left out.
- RateGate.ComplianceGuard.Reload: the rules file, its modification time and the content keywords are left out; the intervals are those in force at each attempt. The reported message is its number of seconds.
- CookieHealth.CookieHealthChecker.CheckAsync: the HTTP probe, the token lifetime test and the refresh cascade with its own cooldowns are parameters. Concurrent checks are not covered.
- CookieMerge.MergeCookies: the IM cookies are given; reading them from the browser profile is left out.
- EnvFile.EnvService.SetEnvValue: undecodable bytes and file errors are left out.
- EnvFile.OthersStayExactly: is about names without an equals sign and without a leading blank, the ones that a line at the margin can carry.
- ConfigReload.ReadExactly: the dashboard file is there at every look, and its time never goes back.
- ConfigReload.EachVersionOnce: assumes that no successful load turns the noted time back, as it does when the file is missing then (`MissingFileRetries`).
- Router.Routes.Dispatch: one request method, that is one pair of tables; handlers are never falsy and what they do is left out.
- ConfigMask.KeepFields: setting names are strings, as JSON guarantees; lower-casing is that of ASCII letters.
- ConfigMask.ConfigService.Save: the reload after a save is left out; `str` of a value that is not a string is a parameter, and the stored file is always readable.
- ConfigPrecedence.Precedence: the values of the defaults are a parameter, dictionaries without references; pydantic's validation of the file is its result `yaml`, with the sections that it makes dictionaries; `.env` loading is part of the variables, or an error of it.
- RuntimeConfig.ConfigStore.LoadConfig: number parsing and the text of values are parameters; lower-casing is that of ASCII letters. The path, its rollback, and what is left behind by a first load that fails are left out.
- RuntimeConfig.ConfigStore.SetDefaults: needs sections with defaults to be dictionaries, as validation makes them.
- HTTP serving, streaming, the gateway, message queues and telemetry: plumbing over libraries.
- Browser automation, slider solving, cryptography and request signing: driven by external pages or foreign primitives.
- Doctor, startup checks, command lines and the web client: wrappers without state of their own.
- `CacheWarmer`, `get_stats`, `get_section` and similar accessors: would only add easy members.
