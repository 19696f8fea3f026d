# Verified model of djangogo's state, SQL and eager loading

djangogo keeps three things in step: the database, the project state that migrations replay, and the
SQL that querysets compile to. This project models the code that keeps them in step and proves what it
keeps. `dafny verify dfyconfig.toml` checks all of it.

## What is modelled

**Transactions** (`Transaction`). A connection has a savepoint stack on which names may repeat: the most
recent savepoint of a name is the one meant, ROLLBACK TO keeps it, RELEASE drops it and all above it. A
callback is a tree of writes, data-dependent branches and nested blocks, each block ending in success, an
error or a panic that its caller swallows or passes on, and each given some context in scope. Any BEGIN,
SAVEPOINT, RELEASE, COMMIT or ROLLBACK TO may be refused. `Connection.Atomic` is proved to do what these
statements do on the stack; when blocks use the contexts they are handed it acts as the tree of blocks,
although failed blocks leave stale savepoints of repeated names behind, and as the composition of the
writes of the surviving blocks whenever what is to be undone can be.

**Migration engine** (`Schema`, `Engine`, `Ddl`, `Definitions`, `Commutation`, `Preservation`, `Autodetect`,
`Matching`, `Renames`, `MakeMigrations`, `DiffRun`, `ProjectStates`, `Runner`, `Resume`, `Locality`, `Registry`,
`Interleaving`, `CrossApp`, `Writer`). `Engine` is an abstract database: tables of ordered column definitions
and rows, statements as a datatype, refusals as `None`. Both dialects refuse missing and existing names,
repeated columns and a second primary key; SQLite a table without columns and an added unique column;
PostgreSQL an over-long VARCHAR, a copy into a column of another type, a foreign key to a missing table or to
no unique column of its type, and dropping a table that another refers to. `Ddl` renders the five operations
as both dialects do, and `Definitions` reads the rendered column definitions and clauses back word by word. The two faces of an operation commute, rows survive the temp-table rebuild, `Diff` is
sound and idempotent and, foreign keys unchecked, runs exactly under a condition on the two states and the
table names, interrupted runs that lose no migration resume to the result of one run, and staged runs of
several apps equal one run. `Runner.Store` may
refuse any statement at any time.

**Model registry** (`ModelRegistry`, `ModelSql`, `InitialRun`). Registering discharges what the migration proofs
assume of a project state: unique model names, field names and columns, one primary key, known targets.
`InitialRun` says exactly when the first migration of such a state runs behind the tracking table.

**Queries** (`Like`, `Lookups`, `Clauses`, `Where`, `Pipeline`, `GoSlices`, `QuerySets`, `Ordering`). LIKE patterns
against a LIKE matcher as in section 8.5 of ISO/IEC 9075-2 with literals compared up to an arbitrary
per-character fold; predicates with numbered or positional placeholders in three-valued logic; UPDATE with
its shared counter; querysets over real backing arrays, where sharing would be visible.

**Eager loading** (`SelectRelated`, `Prefetch`). LEFT JOIN loading against row-by-row `Fetch`, and one IN
query against one query per parent.

**Smaller pieces** (`Signals`, `Templates`, `Urls`, `Strings`, `Decimal`, `Forms`): the signal registry with
handlers that register and cancel while it fires, reversing and including routes, and the model-form round
trip.

## What turned out different from the documentation

- A run stopped in the middle is made good by running again exactly when no migration behind the stop has
  the key of one that was pending in front of it (`Resume.ResumedRunIff`, `Resume.InterruptedRunsIff`); the
  recorded keys need not be a prefix of the list. `Resume.SharedKeyIsLost` is an input that loses a migration.
- A failed nested block is undone exactly when its ROLLBACK TO, whose error nobody sees, is accepted or there
  is nothing to undo (`Transaction.BlockResultIff`, input `Transaction.RefusedRollbackKeepsWrite`), and a block
  given an outer context can make its parent keep a write (`Transaction.ReusedContextKeepsWrite`).
- `RemoveField.SQL` drops every field of the name and `RemoveField.Apply` only the first: they agree exactly
  when the name occurs once (`Commutation.RemoveFieldCommutesIff`, input `Commutation.RepeatedNameBreaks`).
- FOREIGN KEY clauses follow the project state except across an `AddField` of a foreign key
  (`Commutation.ForeignKeysMatchIff`, input `Commutation.AddedKeyHasNoClause`).
- `MakeMigrations` writes migrations whose SQL is refused: they render exactly when every field added to a
  surviving model is nullable (`MakeMigrations.DiffRendersIff`, input `MakeMigrations.RequiredFieldIsRefused`).
- Nor does every migration that renders run. It needs free names and well-defined columns for the new models,
  and survivors whose fields can be added, altered and removed one at a time (`DiffRun.DiffRunsIff`): a field
  renamed with its column kept, a model renamed with its table kept and, on PostgreSQL, a text field that
  becomes an integer are refused (`DiffRun.RenamedFieldIsRefused`, `DiffRun.RenamedModelIsRefused`,
  `DiffRun.ChangedKindIsRefused`). Where foreign keys are checked the condition is needed and not enough
  (`DiffRun.DropBeforeKeyIsRefused`).
- On PostgreSQL no table can be rebuilt that another refers to or that refers to itself
  (`Commutation.RebuildEffect`), so altering or removing a field of such a model fails.
- The registry accepts models whose first migration fails. It runs exactly when no two models share a table,
  none uses the tracking table's name and, on PostgreSQL, no VARCHAR is over-long and every foreign key refers
  to its own model or one registered earlier, with an integer key (`InitialRun.InitialRunIff`, inputs
  `InitialRun.TakenTableFails`, `InitialRun.ForwardKeyFails`, `InitialRun.StringKeyFails`,
  `InitialRun.LongStringFails`).
- Applying several apps' migrations one addition at a time gives the schema of one run at the end, whenever
  that run succeeds; it does unless, on PostgreSQL, a foreign key leaves its app
  (`Interleaving.StagedEqualsOnce`, input `CrossApp.LeavingKeyFails`).
- Joined loading cannot assign a non-NULL foreign key of a joined target, and `Fetch` cannot scan a NULL
  scalar; the two read a target row alike exactly when it has neither (`SelectRelated.ReadsAlikeIff`, inputs
  `SelectRelated.ReadsDiffer`), and a whole query agrees with `Fetch` exactly when that holds of the rows it
  joins, no relation is requested twice and no alias is the main table's name
  (`SelectRelated.SelectRelatedRefinesFetchIff`).
- `Prefetch` and `RelatedObjects` agree exactly when the foreign-key column has no double underscore in its
  name, since only the latter takes the column apart as a lookup (`Prefetch.GroupsAgreeIff`, input
  `Prefetch.GroupsDiffer`).
- Blank input to an optional integer or datetime form field is valid and makes `PopulateStruct` panic
  (`Forms.BlankPanicsIff`, for whole forms `Forms.PopulateForm`, inputs `Forms.BlankFieldPanics`), and so does
  an optional zero time that `FromStruct` shows as nothing (`Forms.ThereAndBack`).
- A checkbox counts as set when it is submitted empty or as true, on or 1 (`Forms.EntryMeaning`), not by being
  submitted at all, as the comment at forms/form.go:58-59 has it.
- An included route reverses to the joined path exactly when no argument puts a slash in front of the path
  (`Urls.IncludeReverseIff`, input `Urls.SlashedArgumentDiffers`); nonempty arguments without slashes never do
  (`Urls.IncludeReverses`).
- A migration file on its own compiles unless a `CreateModel` without fields is all that would need the orm
  import, or a field kind has no name (`Writer.RenderMigration`, inputs `Writer.UnloadableMigrations`). Every
  file declares the variable `migration`, so the package of an app compiles exactly while it holds at most one
  (`Writer.PackageLoadsIff`, for generated ones `Writer.GeneratedPackageIff`, input
  `Writer.SecondFileRedeclares`).

## Model

| member | source | states |
|---|---|---|
| `Transaction.SavepointNamesDiffer` | orm/transaction.go:94-95 | savepoint names of different depths are different |
| `Transaction.MeaningIsComposition` | orm/transaction.go:51-55 | what a callback tree does to the data is the composition, in order, of the writes none of whose enclosing blocks failed |
| `Transaction.GoesOn` | orm/transaction.go:78-89 | whatever a nested block ends in, success, an error or a panic, the callback goes on with what it has for that |
| `Transaction.SessionGoesOn` | orm/transaction.go:111-114 | and so it does on the savepoint stack |
| `Transaction.FailurePassedOn` | orm/transaction.go:111-114 | where every callback passes on what its blocks return or panic with, the whole callback ends as the first block on its path that fails |
| `Transaction.FailureUndoesAll` | orm/transaction.go:78-89 | and then the outermost block leaves the data as it found them, whatever was refused |
| `Transaction.BlockResultIff` | orm/transaction.go:100-109 | a block whose callback has its meaning has its own exactly when ROLLBACK TO was accepted or the callback left the data as it was |
| `Transaction.ResultIsMeaning` | orm/transaction.go:93-120 | a callback has its meaning when every failed block in it could be undone or had nothing to undo |
| `Transaction.RefusedRollbackKeepsWrite` | orm/transaction.go:101-108 | a failed block whose ROLLBACK TO is refused leaves its write to a parent that succeeds |
| `Transaction.SessionIsResult` | orm/transaction.go:93-120 | when every block uses the context it was handed, the statements find the blocks' own savepoints: the callback has its result and leaves exactly the stale savepoints of its failed children above its entry stack |
| `Transaction.Connection.Atomic` | orm/transaction.go:56-61 | for every callback tree, every choice of contexts and every refused statement the state is that of the statements on the stack; with contexts as handed, data and outcome are those of the tree, outermost the durable data follows and the stack is empty, nested the durable data stays and a failed block leaves stale savepoints; when all rollbacks inside could be made, the data is the block's meaning exactly when its own could; outermost, the first failure that every callback passes on undoes everything |
| `Transaction.Connection.AtomicBegin` | orm/transaction.go:64-89 | commits exactly on success of callback and COMMIT, rolls everything back on error and panic |
| `Transaction.Connection.AtomicSavepoint` | orm/transaction.go:93-120 | sets the savepoint of the next depth of the context it is given, runs the callback and closes on the stack as it then is |
| `Transaction.Connection.CloseSavepoint` | orm/transaction.go:100-119 | releases after success, otherwise rolls back to the most recent savepoint of the name and leaves it on the stack; a refused RELEASE is a failure, a refused ROLLBACK TO changes nothing and is not noticed |
| `Transaction.Connection.Run` | orm/transaction.go:111-112 | a callback does to the connection what its tree does to the session, with nested blocks at the depth of the context they are given |
| `Transaction.Connection.ExecRollbackTo` | orm/transaction.go:101-108 | ROLLBACK TO restores the most recent savepoint of the name and keeps it, or does nothing when refused |
| `Transaction.Connection.ExecRelease` | orm/transaction.go:115-117 | RELEASE drops the most recent savepoint of the name and everything above it |
| `Transaction.ReusedContextKeepsWrite` | orm/transaction.go:94-112 | a nested block given its parent's outer context reuses the parent's name, and the parent's rollback then keeps a write it should undo |
| `Schema.ApplyAllConcat` | migrations/operations.go:34-198 | applying two runs of operations is applying one after the other, stopping at the first panic |
| `Schema.ApplyKeepsFieldsUnique` | migrations/operations.go:34-198 | an operation that adds no duplicate keeps field names unique in every model |
| `Ddl.CommonColumns` | migrations/ddl.go:43-68 | exactly the columns that old and new fields both have |
| `Ddl.RenderedOpApplies` | migrations/operations.go:51-198 | an operation whose SQL renders cannot panic when applied |
| `Ddl.RunOpsApplies` | migrations/runner.go:41-54 | an accepted run of SQL and Apply leaves the state that replaying the operations gives |
| `Definitions.DefDefines` | orm/backends/postgres/postgres.go:45-79 | reading the rendered definition word by word gives back the type of the field's kind, NOT NULL exactly for a field that is not nullable nor automatic, PRIMARY KEY exactly for a key, UNIQUE exactly for a unique field that is none, on both dialects |
| `Definitions.ClauseReads` | orm/relations.go:60-71 | the words of an ON DELETE clause are those of its action and of no other |
| `Definitions.CreateTableDefines` | migrations/ddl.go:10-38 | every column of a CREATE TABLE defines its field so, and the FOREIGN KEY clauses are those of the keys with a target, each with its column, table, target column and action |
| `Definitions.OpDeclares` | migrations/operations.go:51-198 | and so do CREATE TABLE, ADD COLUMN and the rebuilt table of each rendered operation |
| `Commutation.RebuildEffect` | migrations/ddl.go:43-68 | the statements are accepted, but for NOT NULL, UNIQUE and value conversions on the copied rows, exactly when the temporary name is free, the new columns make a table that takes what is copied and, on PostgreSQL, its foreign keys have targets and nothing, the new table included, refers to the old one; then definition and rows are replaced in place of the table |
| `Commutation.StepEffect` | migrations/operations.go:51-198 | the tables after each of the five operations |
| `Commutation.StepCommutes` | migrations/operations.go:34-198 | after SQL against the pre-op state and then Apply, every model's table has exactly the ordered column names and definitions of its fields |
| `Commutation.RunCommutes` | migrations/runner.go:41-54 | the same after any accepted sequence of operations, and the state is the replayed one |
| `Commutation.WithoutIsRemoveFirst` | migrations/operations.go:124-155 | dropping every field of a name and dropping the first agree exactly when the name does not repeat |
| `Commutation.RemoveFieldCommutesIff` | migrations/operations.go:124-155 | RemoveField keeps the agreement exactly when the model has the name once |
| `Commutation.RepeatedNameBreaks` | migrations/operations.go:124-155 | a model with two columns under one field name loses both in the database and one in the state |
| `Commutation.ForeignKeysMatchIff` | migrations/operations.go:100-111 | FOREIGN KEY clauses keep matching exactly unless a foreign key is added by ADD COLUMN |
| `Commutation.AddedKeyHasNoClause` | migrations/operations.go:100-111 | a nullable foreign key added to a model has no clause in its table |
| `Preservation.StepPreserves` | migrations/ddl.go:43-68 | a table that is not dropped keeps its rows, in order, with the values of the columns before and after; it ends empty exactly when a rebuild has no column in common |
| `Preservation.RunPreserves` | migrations/operations.go:100-198 | over any accepted run a table never dropped nor emptied keeps its row sequence and every value in columns present throughout |
| `Preservation.NeverLostIff` | migrations/operations.go:51-198 | never dropped nor emptied means that no operation the run reaches drops the table or rebuilds it without a column in common |
| `Preservation.PresentIff` | migrations/operations.go:51-198 | and a column present throughout is one the table has at every point the run reaches |
| `Autodetect.FinalFieldsPermute` | migrations/autodetect.go:31-54 | adding, altering and removing leaves a permutation of the new field list |
| `Autodetect.DiffSound` | migrations/autodetect.go:6-68 | the operations, in order, each find their target and lead to a well-formed state with exactly the new models and fields; surviving models keep their table |
| `Autodetect.DiffEmptyIff` | migrations/autodetect.go:64-67 | Diff is empty exactly when the state has the same models with the same fields up to order |
| `Matching.FirstFitMatches` | migrations/autodetect.go:110-125 | first fit uses no element twice, pairs only equal keys, and pairs as many as the multiset intersection of the keys |
| `Matching.FirstFitIsMaximum` | migrations/autodetect.go:110-125 | no other matching has more pairs |
| `Matching.ClaimFirst` | migrations/autodetect.go:117-123 | setting the flag of the first unclaimed element of a type takes exactly it from the unclaimed ones |
| `Renames.EqualIff` | migrations/state.go:31-52 | Equal is equality, and sameType is equality of everything but name and column, hence an equivalence |
| `Renames.ModelPairsAreMaximum` | migrations/autodetect.go:93-128 | the pairs reported for a model use no removed or added field twice, share a type, and are as many as any such pairing can have |
| `Renames.ClaimFor` | migrations/autodetect.go:117-124 | claims and returns the first unclaimed added field of the type, or leaves the flags alone |
| `Renames.DetectInModel` | migrations/autodetect.go:102-125 | the loops with the claimed array report the first-fit pairs of removed and added fields |
| `Renames.DetectPotentialRenames` | migrations/autodetect.go:93-128 | the reports of all models present in both states, in the new order |
| `Renames.DiffFields` | migrations/autodetect.go:31-54 | additions, then alterations, then removals of one model |
| `Renames.DiffStates` | migrations/autodetect.go:6-68 | the loops produce the operations that DiffSound and DiffEmptyIff are about |
| `MakeMigrations.MigrationNameInjective` | migrations/makemigrations.go:17-22 | different numbers give different migration names |
| `MakeMigrations.MigrationNameIs` | migrations/makemigrations.go:17-22 | a name is the number in at least four digits, without needless zeros, and `_initial` for the first or `_auto` for a later one |
| `MakeMigrations.HistoryChained` | migrations/makemigrations.go:17-34 | the migrations of a history are numbered from one, and each depends on the one before it and on nothing else |
| `MakeMigrations.HistoryReplays` | migrations/migration.go:13-21 | migrations each made from their predecessors replay to the schema of the last registry, without ever adding a duplicate field |
| `MakeMigrations.MakeAgain` | migrations/makemigrations.go:10-15 | no changes are reported exactly when the registry has the history's schema; straight after a migration was made none are |
| `MakeMigrations.HistoryKeysDistinct` | migrations/makemigrations.go:17-34 | generated migrations have distinct tracking keys |
| `MakeMigrations.DiffRendersIff` | migrations/operations.go:100-111 | a generated migration renders to SQL exactly when every field added to a surviving model is nullable |
| `MakeMigrations.RequiredFieldIsRefused` | migrations/operations.go:100-111 | a NOT NULL field added to a surviving model gives a migration that cannot be rendered |
| `DiffRun.DiffRunsIff` | migrations/autodetect.go:6-68 | on any database that matches the old state a generated migration runs only if new models find free, different table names and well-defined columns, added fields are nullable, no keys and on new columns, each alteration and removal leaves columns that make a table and take what is copied, and the temporary names are free; without checks of foreign keys it then does run |
| `DiffRun.RenamedFieldIsRefused` | migrations/autodetect.go:31-54 | a field renamed with its column kept gives a migration that both dialects refuse |
| `DiffRun.RenamedModelIsRefused` | migrations/autodetect.go:6-68 | so does a model renamed with its table kept |
| `DiffRun.ChangedKindIsRefused` | migrations/ddl.go:43-68 | and, on PostgreSQL, a text field that becomes an integer |
| `DiffRun.DropBeforeKeyIsRefused` | migrations/autodetect.go:57-62 | on PostgreSQL two models that go, the later with a foreign key to the earlier, meet the condition and are refused |
| `ProjectStates.RenderCreateTable` | migrations/ddl.go:25-38 | the loops render one definition per field, in order, and the FOREIGN KEY clauses, which read back as the fields |
| `ProjectStates.RenderRebuild` | migrations/ddl.go:43-68 | the loops over a column set render CREATE, INSERT of the common columns if there are any, DROP and RENAME |
| `ProjectStates.FieldsWithout` | migrations/operations.go:140-150 | the loop keeps every field of another name and reports whether one was dropped |
| `ProjectStates.FieldsWith` | migrations/operations.go:183-195 | the loop replaces the first field of the name and reports whether there was one |
| `ProjectStates.ProjectState.Apply` | migrations/operations.go:34-198 | the in-place update of models, order and fields is the pure one; on a missing model nothing changes |
| `ProjectStates.ProjectState.Sql` | migrations/operations.go:51-198 | rendering reads the pre-op state and refuses exactly a missing model, a missing field and a non-nullable addition; what is rendered reads back as the fields it declares |
| `Runner.RunPending` | migrations/runner.go:37-62 | one migration commits with its tracking row as a whole or leaves the committed database as it was |
| `Runner.Apply` | migrations/runner.go:13-65 | however it ends, the database is that of the completed migrations and `done` names exactly those that were pending; it fails only if the database refused something or the migrations cannot run |
| `Resume.RecordedGrows` | migrations/runner.go:55-64 | recorded keys are the initial ones plus those done |
| `Resume.ResumedRun` | migrations/runner.go:13-65 | a complete run after one that stopped behind n migrations ends like one uninterrupted run, with success, database and state the same, if no migration behind the stop has the key of one pending in front of it |
| `Resume.ResumedRunIff` | migrations/runner.go:13-65 | where the uninterrupted run succeeds that condition is exact |
| `Resume.InterruptedRuns` | migrations/runner.go:13-65 | the same after any number of interruptions, each seen from the keys applied up to it |
| `Resume.InterruptedRunsIff` | migrations/runner.go:13-65 | exactly then, where the uninterrupted run succeeds |
| `Resume.SharedKeyIsLost` | migrations/runner.go:26-35 | two migrations with one key: resuming skips the second and ends with other tables, on both dialects |
| `Resume.SchemaAfterRuns` | migrations/runner.go:26-63 | however often interrupted, a successful migration of a new database ends with the columns of the replayed state |
| `Resume.GeneratedSchema` | migrations/makemigrations.go:10-44 | end to end: migrations generated from registries and applied with interruptions give each model of the last registry a table with its columns |
| `Registry.Registry.Add` | migrations/registry.go:15-20 | the map and order represent the added sequence with the new migration appended |
| `Registry.Registry.All` | migrations/registry.go:28-34 | every migration, by app in first-seen order, then in insertion order |
| `Registry.ForAppOfAll` | migrations/registry.go:23-34 | grouping keeps each app's migrations in their order |
| `Registry.MemberOfAll` | migrations/registry.go:28-34 | All returns exactly the added migrations |
| `Locality.RunOpsLocal` | migrations/operations.go:34-198 | operations of one app, whose foreign keys stay in the app where they are checked, have the same success and effect on its part wherever that part is the same |
| `Locality.RunOpsElsewhere` | migrations/operations.go:34-198 | operations of one app leave the other apps' models and table shapes alone |
| `Interleaving.RunHolds` | migrations/runner.go:26-63 | a run over tables that hold the first migrations of each app succeeds when each app's migrations do alone, and ends with all of them, though the applied ones are no prefix of the list; checked foreign keys stay in their app |
| `Interleaving.StagedEqualsOnce` | migrations/registry.go:15-34 | adding several apps' migrations in any order and applying after each addition gives every table the columns and the database the keys of one run at the end, whenever that run succeeds; it does when no foreign key leaves its app or none is checked |
| `CrossApp.LeavingKeyFails` | migrations/registry.go:28-34 | three additions that PostgreSQL accepts one by one and refuses as one run, since the registry moves a foreign key in front of the other app's table |
| `Writer.FieldStateParts` | migrations/writer.go:140-170 | the appended keys are the ones FieldRoundTrip evaluates |
| `Writer.FieldRoundTrip` | migrations/writer.go:140-198 | evaluating the printed keys from the zero value, each at most once, gives the field back exactly when its kind has a name |
| `Writer.OpRoundTrip` | migrations/writer.go:81-121 | the same for the literal of every operation |
| `Writer.OpNamesOrmIff` | migrations/writer.go:70-78 | an operation names an orm constant exactly when it prints a field |
| `Writer.RenderMigration` | migrations/writer.go:17-66 | loading the file on its own gives the migration back exactly when the field kinds have names and the orm import is used |
| `Writer.UnloadableMigrations` | migrations/writer.go:17-66 | a CreateModel without fields and a field of an unknown kind give files that do not load |
| `Writer.GeneratedLoads` | migrations/writer.go:70-78 | what Diff generates towards a registry's state always prints to a file that loads on its own |
| `Writer.PackageLoadsIff` | migrations/writer.go:17-66 | files of one package load back to their migrations exactly when there is at most one and it loads |
| `Writer.GeneratedPackageIff` | migrations/makemigrations.go:10-44 | the generated migrations of an app, all written to one package, load back exactly until the second is made |
| `Writer.SecondFileRedeclares` | migrations/writer.go:34 | a model and then one more field of it give two migrations whose package does not compile |
| `ModelRegistry.ResolvePrimaryKey` | orm/registry.go:79-105 | finds the one field tagged pk, else the first integer field named ID, and reports several or none otherwise |
| `ModelRegistry.IndexColumns` | orm/registry.go:115-124 | succeeds exactly when columns are distinct, and indexes every name |
| `ModelRegistry.ApplyChoices` | orm/registry.go:126-140 | succeeds exactly when every key names a string field; each field then has the choices given for its name and no others, and nothing else changes |
| `ModelRegistry.Build` | orm/registry.go:58-155 | a struct becomes a model exactly when its tags parse, it has one primary key without a default, distinct columns and fitting choices |
| `ModelRegistry.Registry.Register` | orm/registry.go:34-156 | succeeds exactly for such a struct of a new name before freezing, and appends the model with its table, promoted key and choices; a failure changes nothing |
| `ModelRegistry.Registry.Resolve` | orm/registry.go:169-186 | succeeds exactly when every target type is registered, links every relation to its type's model, changes nothing else, and nothing at all the second time |
| `ModelRegistry.StateFromRegistry` | migrations/state.go:55-148 | after any calls the snapshot is well-formed and in registration order; each field state carries its field's name, column, promoted kind, key, null, unique, length, relation kind and on_delete; columns are distinct, kinds named, one primary key per model, and integer foreign keys name the table and key of one of its models |
| `ModelRegistry.ResolvedTargets` | migrations/state.go:57-76 | a resolved foreign key names the table and primary-key column of the model registered for its type |
| `ModelSql.CreateTableSQL` | orm/backends/postgres/postgres.go:83-110 | the loops render the definitions of the model's fields and a clause for every resolved relation |
| `ModelSql.SnapshotSqlIff` | migrations/ddl.go:25-38 | CREATE TABLE rendered from the snapshot has the columns of the dialect's own for the model, and the same foreign keys exactly when every resolved relation is a foreign key to a table with a name |
| `InitialRun.InitialRunIff` | migrations/runner.go:13-54 | the first migration of a registry runs behind the tracking table exactly when no two models share a table, none uses the tracking table's name and, on PostgreSQL, no VARCHAR is over-long and every foreign key refers to its own model or one registered earlier, whose key is an integer |
| `InitialRun.TakenTableFails` | orm/registry.go:71-77 | two models on one table, or one on the tracking table, pass registration and fail to run |
| `InitialRun.ForwardKeyFails` | migrations/ddl.go:25-38 | so does, on PostgreSQL, a foreign key to a model registered later |
| `InitialRun.StringKeyFails` | orm/field.go:110-116 | and a foreign key, which is an integer, to a model with a string key |
| `InitialRun.LongStringFails` | orm/backends/postgres/postgres.go:55 | and a max_length beyond that of a VARCHAR |
| `Like.ThreePassesAreOne` | orm/lookups.go:24-29 | the three ReplaceAll passes are one substitution per character |
| `Like.ContainsExact` | orm/lookups.go:73-78 | the pattern matches a text exactly when the value is a substring of it up to the fold |
| `Like.StartsWithExact` | orm/lookups.go:80-82 | exactly the texts of which it is a prefix up to the fold |
| `Like.EndsWithExact` | orm/lookups.go:84-86 | exactly the texts of which it is a suffix up to the fold |
| `Lookups.ParseLookupOf` | orm/lookups.go:13-19 | a key made of a column, which may contain double underscores, and a lookup is taken apart again; a column alone means the exact lookup on it exactly when it has no double underscore |
| `Lookups.ParseSplits` | orm/lookups.go:13-19 | a key is taken apart at its last double underscore, and is a column with the exact lookup if it has none |
| `Lookups.RenderPredicate` | orm/lookups.go:41-118 | the branches and the IN loop draw placeholders in order from the counter and return its new value |
| `Lookups.InEvaluates` | orm/lookups.go:88-103 | IN over numbered or positional placeholders is membership in three-valued logic |
| `Lookups.PredicateMeaning` | orm/lookups.go:41-118 | with its arguments bound in place a predicate has the truth value of the lookup, for both placeholder styles, NULL columns, nil and empty IN included |
| `Lookups.KeyMeaning` | orm/lookups.go:41-118 | for each lookup name the clause compiled from the text column__name is TRUE on a row exactly when the stated comparison holds of the cell |
| `Lookups.BuildsIff` | orm/lookups.go:41-118 | a filter is refused exactly for an unknown column, an unknown lookup name, an `in` without a slice or an `isnull` without a boolean, with that error |
| `Clauses.ParamsInOrder` | orm/compiler.go:13-32 | the placeholders of a conjunction, in text order, are numbered on without gaps, one per argument |
| `Clauses.AllMean` | orm/compiler.go:22-31 | the conjunction is true exactly when every condition holds |
| `Where.RenderWhere` | orm/compiler.go:13-32 | the loop compiles every clause behind the previous ones and stops at the first error |
| `Where.WhereParams` | orm/compiler.go:13-32 | the i-th placeholder of a WHERE is number n + i and carries the i-th argument |
| `Where.WhereCompilesIff` | orm/compiler.go:13-32 | a WHERE compiles exactly when no clause is refused, and otherwise fails with the error of the first refused one |
| `Where.WhereMeaning` | orm/compiler.go:13-32 | a row is selected exactly when for every clause the comparison that its key names is TRUE of the cell, or FALSE for an excluded one |
| `Where.RenderUpdate` | orm/compiler.go:173-202 | the loop renders SET terms and then the WHERE on one counter, refusing unknown columns |
| `Where.UpdateParams` | orm/compiler.go:173-202 | SET arguments come first on the shared counter, each under its column |
| `Where.UpdateCompilesIff` | orm/compiler.go:173-202 | an UPDATE compiles exactly when it assigns only known columns and its WHERE compiles; otherwise the first unknown column, or else the first refused clause, is the error |
| `Where.UpdateMeaning` | orm/compiler.go:173-202 | but for the types and constraints of the columns, an UPDATE is accepted exactly when it assigns something and, on PostgreSQL, no column twice; it writes the last value assigned to each column to the rows the filters select and nothing elsewhere |
| `Where.InjectAutoNow` | orm/execute.go:395-400 | an explicit assignment wins, any other auto_now column gets the time, no other column is added |
| `Pipeline.LimitMeaning` | orm/compiler.go:107-124 | the clause is always accepted by SQLite and leaves the first limit rows behind the first offset ones, negative counting as none |
| `Pipeline.SortSorts` | orm/compiler.go:79-103 | ordering keeps every row as often and puts none behind one it comes before |
| `Pipeline.RunAttached` | orm/selectrelated.go:92-111 | WHERE, ORDER BY, LIMIT and OFFSET on the main columns commute with attaching joined columns |
| `GoSlices.Append` | orm/queryset.go:78 | writes into spare capacity or moves to a new array, and never changes what the old slice shows |
| `QuerySets.QuerySet.CloneOf` | orm/queryset.go:49-70 | the clone shows the same clauses over arrays of its own |
| `QuerySets.QuerySet.AddWheres` | orm/queryset.go:96-111 | the receiver is unchanged; the clone has one clause per pair up to the first bad key, and the first error stays |
| `QuerySets.QuerySet.OrderBy` | orm/queryset.go:122-134 | a leading minus is taken off and means descending; the receiver is unchanged |
| `Ordering.RenderOrderBy` | orm/compiler.go:79-103 | the loop renders one term per clause and fails at the first unknown column |
| `Ordering.OrdersMean` | orm/queryset.go:122-134 | the terms put one row before another exactly when the first text that tells them apart does, smaller values first or, behind a minus, larger ones |
| `Ordering.MinusReverses` | orm/queryset.go:122-134 | a minus turns the order of a column around |
| `Ordering.OrderedRows` | orm/compiler.go:79-103 | the rows under OrderBy are the rows in the order of its texts |
| `QuerySets.AlongStep` | orm/queryset.go:76-148 | one more call turns the clauses of a path into those of the longer path |
| `QuerySets.Grow` | orm/queryset.go:49-148 | over any tree of chained calls made in any order each queryset holds exactly the clauses and first error of its own path |
| `QuerySets.ChainSelects` | orm/queryset.go:84-92 | a chain selects the rows every call on it selects, whatever the order of the calls |
| `SelectRelated.ResolvedInOrder` | orm/selectrelated.go:23-42 | resolved relations follow the requested names and are forward keys with targets |
| `SelectRelated.ResolveIff` | orm/selectrelated.go:23-42 | names resolve exactly when each is the name of a foreign key of the model whose target is known; otherwise the error is that of the first that is not |
| `SelectRelated.AliasesDistinct` | orm/selectrelated.go:39 | join aliases are distinct exactly when the requested names are |
| `SelectRelated.ResolveSelectRelated` | orm/selectrelated.go:23-42 | the loop resolves every name or stops, exactly then, at the first unknown, non-key or unresolved one |
| `SelectRelated.LeftJoinKeepsCountIff` | orm/selectrelated.go:75-82 | a LEFT JOIN keeps the number of rows exactly when no key matches two target rows |
| `SelectRelated.LeftJoinsAttach` | orm/selectrelated.go:63-83 | with unique target keys the joins are accepted exactly when no alias repeats or is taken, and then attach one segment per relation to every row, in order |
| `SelectRelated.JoinsAcceptedIff` | orm/selectrelated.go:23-83 | the joins of requested names are accepted exactly when no name repeats and no alias is the main table's name |
| `SelectRelated.ScanRowsJoined` | orm/execute.go:51-89 | the row loop scans every row, or fails at the first that cannot be read |
| `SelectRelated.ScanIff` | orm/execute.go:51-89 | a row scans to a struct exactly when each field holds its cell's value, where only a foreign key may be NULL, which is key 0 |
| `SelectRelated.AssignIff` | orm/execute.go:97-135 | a joined segment is assigned to a struct exactly when each field holds its cell's value or the zero value for NULL, and every foreign key is NULL |
| `SelectRelated.AttachJoined` | orm/execute.go:97-135 | a NULL target key leaves the FK unloaded, otherwise every holder is assigned and the object attached |
| `SelectRelated.FetchIff` | orm/relations.go:189-200 | Fetch needs exactly one row with the key in the column named `id`, whatever the primary key is, and that row must scan |
| `SelectRelated.FetchFindsMatch` | orm/relations.go:189-200 | Fetch on the scanned key scans exactly the row the join matches, or reports that there is none |
| `SelectRelated.ReadsAlikeIff` | orm/selectrelated.go:117-166 | the joined scan and the plain scan give the same struct exactly when the row has no NULL scalar and no foreign key set |
| `SelectRelated.ReadsDiffer` | orm/selectrelated.go:117-166 | a NULL text is read by the joined scan only, a set foreign key by the plain scan only |
| `SelectRelated.AttachIsFetchIff` | orm/execute.go:97-135 | for one row attaching the joined segment does what Fetch does exactly when the matched row, if any, reads alike |
| `SelectRelated.SelectRelatedRefinesFetchIff` | orm/execute.go:140-165 | under any WHERE, ORDER BY, LIMIT and OFFSET joined loading fails when a name is no foreign key with a known target or the plain query fails, and otherwise returns the plain rows in order with each requested FK as Fetch leaves it, exactly when no name repeats, no alias is the main table's name and every target row a returned row refers to reads alike |
| `Prefetch.GroupByPk` | orm/relations.go:234-238 | the loop groups the children by key, NULL as 0, each group in row order, with no other keys |
| `Prefetch.GroupsAgreeIff` | orm/relations.go:182-240 | on all rows and parents a parent's group is the result of its own query exactly when the FK column has no double underscore in its name |
| `Prefetch.GroupsDiffer` | orm/relations.go:182-184 | with one, a child of the parent is in its group and not in its query, whatever the other columns are |
| `Prefetch.GroupIs` | orm/relations.go:208-240 | the group of a requested parent holds the children that refer to it, no other parent has one |
| `Prefetch.GroupsPartition` | orm/relations.go:234-238 | every fetched child is in the group of its key as often as fetched, and in no other |
| `Prefetch.PrefetchChildren` | orm/relations.go:208-240 | for any parents, repeated or none, each requested parent gets the children that refer to it; an unknown foreign-key column is an error unless there are no parents |
| `Signals.HandlersAreLive` | orm/signals.go:44-76 | after any run of registrations and cancels a handler list is exactly the registrations never cancelled, in order: a cancel removes its own and is idempotent |
| `Signals.HandlersIncrease` | orm/signals.go:48-56 | every handler list is strictly increasing in id |
| `Signals.Registry.Register` | orm/signals.go:44-59 | appends with a fresh id to the list of its key and to no other, in backing arrays that keys do not share |
| `Signals.Registry.Remove` | orm/signals.go:61-76 | removes the entry of the id from the list of its key, and nothing when it is gone |
| `Signals.Registry.Snapshot` | orm/signals.go:80-91 | a copy in an array of its own |
| `Signals.Registry.Fire` | orm/signals.go:135-142 | handlers registered when firing starts run in order up to the first error, which is returned, whatever they register or cancel meanwhile |
| `Signals.Play` | orm/signals.go:44-76 | the real registry, driven through its cancel functions, shows the live registrations |
| `Urls.SplitMethodIff` | urls/route.go:38-51 | a pattern is a method and a path exactly when a slash follows its first space, and otherwise all path |
| `Urls.JoinIs` | urls/route.go:57-66 | one slash, the prefix, one slash unless it ends in one, and the path, each without the slashes in front |
| `Urls.PlaceholderIff` | urls/router.go:57-60 | a placeholder is a name without braces and dollar signs in braces |
| `Templates.FillStep` | urls/router.go:85-94 | one turn of the substitution loop keeps output plus filled remainder equal to the filled text |
| `Urls.Router.Reverse` | urls/router.go:65-95 | substitutes the arguments left to right, or reports an unknown name or a wrong count |
| `Urls.NewRouterChecked` | urls/router.go:31-44 | succeeds exactly when no name is used twice, and indexes every named route |
| `Urls.Include` | urls/route.go:72-90 | prefixes the path, keeps the method and namespaces the name of every route |
| `Urls.IncludedNamesDiffer` | urls/route.go:72-90 | including routes leaves their names different exactly if they were |
| `Urls.IncludedIsServed` | urls/route.go:72-90 | a router of included routes finds each named one under namespace, colon, name |
| `Urls.IncludeReverseIff` | urls/route.go:57-90 | reversing an included route of well-formed segments fails as before, or gives the prefix joined with the original reverse exactly when behind leading empty segments comes a literal, the end or a parameter whose argument does not start with a slash and is empty only in last place |
| `Urls.IncludeReverses` | urls/route.go:57-90 | with nonempty arguments without slashes it always gives the joined path |
| `Urls.SlashedArgumentDiffers` | urls/route.go:57-90 | /{p...} under blog with the argument /x does not |
| `Urls.FillPathText` | urls/router.go:70-93 | filling the text of well-formed segments is filling the segments |
| `Urls.ReverseMatchesIff` | urls/router.go:60-95 | matching the reversed path against its pattern recovers the arguments exactly when every plain parameter got a nonempty one without slashes |
| `Strings.TrimSpaceIs` | forms/field.go:83 | trimming leaves exactly the texts without outer spaces alone |
| `Decimal.ParseIntText` | forms/modelform.go:169-185 | parsing undoes formatting exactly on the 64-bit range |
| `Decimal.ParseIntIff` | forms/field.go:98-102 | a text parses as n exactly when it writes n, behind any zeros and perhaps a sign, and n fits in 64 bits |
| `Forms.TruthyIff` | forms/widgets.go:130-137 | a checkbox value is true exactly when it is true, on or 1 between spaces, in any case |
| `Forms.EntryMeaning` | forms/modelform.go:49-131 | a form shows the model fields that are no automatic key and not stamped; it accepts exactly the entries such a field can take, blank unless required, within length, among the choices, a 64-bit integer, a time; and what is written to the struct is what was entered |
| `Forms.SubmittedIs` | forms/modelform.go:167-200 | a value is shown as its text or digits, and not at all if it is false, the zero time or no key |
| `Forms.FieldRoundTrip` | forms/modelform.go:169-290 | stringify, clean and assign return the value of a field exactly when it is reproducible: trimmed, within length, among the choices, in range, a time that is read as it is shown, not blank when required; what is valid can be assigned, except that a time shown as nothing panics |
| `Forms.BlankPanicsIff` | forms/modelform.go:264-290 | assigning what an integer or datetime field made of its input panics exactly when the input was blank |
| `Forms.PopulateForm` | forms/modelform.go:207-290 | for any bound data populating a valid form panics exactly when an included integer or datetime field got blank input and no foreign key in front of it fails, and succeeds exactly when there is neither |
| `Forms.BlankFieldPanics` | forms/modelform.go:264-290 | a form of one optional integer or datetime field without input is valid and panics |
| `Forms.Form.SetChoices` | forms/form.go:108-122 | prepends the blank choice to the choices of the named field and changes no other |
| `Forms.Form.IsValid` | forms/form.go:39-57 | valid exactly when every field cleans and there is no other error; the cleaned values are those of the fields that clean |
| `Forms.FormOrder` | forms/modelform.go:23-47 | exactly the editable fields that are included and not excluded |
| `Forms.FormOrderLists` | forms/modelform_options.go:70-86 | they stand in the listed order, repetitions and all, or else in the declared one |
| `Forms.FromModel` | forms/modelform.go:23-47 | the form has these fields, each as made for its model field, with its required flag overridden where the configuration does |
| `Forms.FromStruct` | forms/modelform.go:145-165 | the form shows the struct's value of every included field |
| `Forms.PopulateStruct` | forms/modelform.go:207-239 | writes every cleaned field, leaves the others, and succeeds exactly when each can be written |
| `Forms.ThereAndBack` | forms/modelform.go:145-239 | the form is valid and reproduces every included field exactly when each is reproducible; populating a valid form succeeds unless an included time is shown as nothing, and then panics; excluded fields are untouched |

## Left out

- FOREIGN KEY, NOT NULL and UNIQUE enforcement and type conversion on rows, ON DELETE effects, case-insensitive
  identifiers, empty and over-long ones, names a database reserves, such as those starting with `sqlite_` and
  PostgreSQL's system columns, and limits on the number of columns.
- On PostgreSQL the relations a table brings with it, such as the index `a_pkey` beside the table `a` and the sequence
  behind a BIGSERIAL, which a rebuild starts anew.
- A primary key that a table without one gains by ADD COLUMN: PostgreSQL accepts it, the engine does not.
- DiffRun.DiffRunsIff: where foreign keys are checked the condition is necessary only; what else it takes depends on
  the order in which the tables are rebuilt and dropped.
- The SQL text of quoting, CREATE TABLE and SELECT: statements are a datatype; placeholders and the definitions of
  columns and clauses are kept as text, other text is not.
- PostgreSQL's refusal of every statement after a failed one inside a transaction, and its `LIMIT -1`.
- Contexts from outside the transaction given to a nested block, which begins a transaction of its own.
- Interleaving.StagedEqualsOnce: needs apps with disjoint models and tables, which the registry cannot know; rows are
  not compared.
- Commutation.RunCommutes: needs distinct tables and no table named `<table>__new`, which the accepted statements
  imply, and unique field names per model, which registering guarantees.
- SelectRelated.SelectRelatedRefinesFetchIff: asks of the target unique nonzero keys in a column named `id`, the one
  `Fetch` asks for.
- SelectRelated.AttachJoined: driver values are integers, texts, booleans, times and NULL; conversions between widths,
  bytes and floats are not modelled.
- Prefetch.PrefetchChildren: the lookup of the model, and scanning the children.
- Where.UpdateMeaning: a slice as a plain argument, which a driver refuses, is not a value.
- Ordering.OrderedRows: collations; NULL comes first on SQLite and last on PostgreSQL, as by default.
- Like.ContainsExact: `fmt.Sprint` of the value and the database's text of the column are parameters.
- ModelRegistry.Build: what tag parsing (`parseStructField`) yields is its input, with the kinds and lengths it can
  yield, and so is an order of the choices map.
- Signals.Registry.Fire: a handler that itself fires appears by the registrations and cancels made meanwhile, the
  inner calls are not recorded; ids do not wrap around at 64 bits, and calls are atomic as the mutex makes them.
- Urls.ReverseMatchesIff: percent-encoding, the precedence among several ServeMux patterns, and its path cleaning,
  which redirects a path with an empty, `.` or `..` segment before it is matched.
- Urls.NewRouterChecked: the panic of ServeMux on a malformed pattern or two conflicting ones.
- Forms.ThereAndBack: how a time is read and shown is a parameter; email fields, labels and widgets; a foreign key
  is the primary key it holds, not its loaded object; integers narrower than 64 bits.
- Writer.RenderMigration: `gofmt`, `%q` quoting and the file write.
- Writer.PackageLoadsIff: other files of the package, and what registers its migrations.
- Create, Count, Exists, Delete with its signals, and Get with a limit: easy members beside the compiled WHERE.
- HTTP handlers, the admin site, templates, sessions, passwords, CSRF protection and scaffolding.
- PKsOf, `humanize` and rendering of forms: easy members.
