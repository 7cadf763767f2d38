# Reinsteins CRM: verified models of the stateful scripts

Dafny models, with proofs, of the parts of the repository's `server/` directory that hold real state:

* **The collaborative spreadsheet store** (`createMemoryStore`). `MemoryStore.Store` has the program's own
  fields: one worksheet list and one string-keyed cell map shared by all sheets, cached counters, stored
  positions, one queue per sheet. It refines an ideal spreadsheet (`SheetDoc`) that has none of these: a sheet
  is its worksheets in display order, each with a map of cells; sizes are counted, not cached, and adding a
  worksheet is insertion into a list. `SheetWorld` interleaves many sheets and callers; `SheetLaws`,
  `SheetOutcomes` and `SheetHistory` say what every interleaving guarantees. `SheetMeaning` says in plain terms
  what each operation and each refusal is.
* **The two password scripts**. `Accounts` has their SQL conditions under three-valued logic. `Rollout` and `RolloutRun` are the
  rollout over many databases (preflight all, apply in order, stop at the first failure). `RolloutHistory` and
  `ColumnHistory` are overlapping runs on one database, statement by statement, with locks, crashes and other writers.
* **The work item code backfill** (`WorkItemCodes`, on top of the decimal printer and parser in `Decimal`).
* **The company feature backfill** (`CompanyFeatures`), alone and under overlapping runs, owners and crashes.

Objects the program updates in place are classes whose methods are proved against functions on values; lemmas are
about those functions. `dafny verify dfyconfig.toml` checks the whole project.

Findings, each with its exact condition:

* The cell counter and the byte counter arithmetic are each right on every worksheet content if and only if no
  coordinate occurs twice in one operation (`SheetCounters.DeltaExactIffDistinct`). The validator establishes that
  (`SheetValidation.NormalizeCells`).
* A refused operation leaves no trace, except that an operation of unknown kind on a writable sheet has raised the
  revision before it fails (`SheetLaws.RefusedLeavesNoTrace`). So the revisions returned for one sheet are
  consecutive exactly while no such operation has been run on it (`SheetOutcomes.AcceptedRevisionInTrace`). The
  service's validator refuses unknown kinds (lines 371-373 of `server/utils/smartSheetValidation.js`), so this
  concerns direct callers of the store only.
* The feature backfill calls itself safe to repeat (lines 16-18 of the script). It never changes an existing row, but a crash between two inserts
  of one company is not repaired by any later run: a run completes a company exactly when it had no rows or all of them
  (`CompanyFeatures.CompletedExactly`, `InterruptedCompanyStaysIncomplete`, `CrashThenRerunLosesAFeature`).
* The code backfill stops part-way when the numbers pass the 32-bit range of its query's cast. The contract of
  `BackfillCodes` says after how many rows; `WorkItemCodes.BackfillStopsAtTheIntegerRange` gives an input.

PostgreSQL is taken at its word: a commit makes a transaction's writes visible at once, a rollback discards them, an
advisory lock is exclusive until its transaction ends, updated rows and altered tables stay locked until then, and
`ON CONFLICT DO NOTHING` and unique keys do what they say.

## Model

| member | source | states |
|---|---|---|
| SheetKeys.CellKeyInjective | server/_smart_sheets_test_support.js:97 | two cells never share a key, for any ids and coordinates |
| SheetKeys.CellKeyDecodes | server/_smart_sheets_test_support.js:115-117 | `split(":")` and `Number` recover the coordinates from a cell key |
| SheetKeys.CellScan | server/_smart_sheets_test_support.js:115 | the `startsWith` scan for one worksheet matches that worksheet's keys and no others (1 never picks up 11) |
| SheetKeys.AccessKeyInjective | server/_smart_sheets_test_support.js:148 | two grants never share a key |
| SheetKeys.AccessScan | server/_smart_sheets_test_support.js:71 | the grant scan for one sheet matches that sheet's keys and no others |
| AccessList.Access.GrantAccess | server/_smart_sheets_test_support.js:143-153 | exactly the active listed users receive the permission, the returned list has them in the given order with repeats, and every other grant is unchanged |
| AccessList.Access.RevokeAccess | server/_smart_sheets_test_support.js:155-157 | removes exactly that grant and reports whether it existed |
| AccessList.Access.ListAccess | server/_smart_sheets_test_support.js:137-141 | lists exactly the sheet's grants with decoded user ids; the name lookup never fails |
| AccessList.Access.AssignedCount | server/_smart_sheets_test_support.js:69-72 | the count of matching keys is the number of grants of that sheet |
| SheetCounters.DeltasExact | server/_smart_sheets_test_support.js:193-214 | with distinct coordinates both deltas equal the true change in number and bytes: overwrites, clears, clears of absent cells |
| SheetCounters.DeltaExactIffDistinct | server/_smart_sheets_test_support.js:193-203 | each of the two deltas is right on every content if and only if no coordinate is repeated |
| SheetValidation.NormalizeCells | server/utils/smartSheetValidation.js:328-336 | the normalised operation has distinct coordinates and the effect of the raw one: each coordinate keeps its last value and stands where it first occurred |
| SheetLoad.SortedIsDisplayOrder | server/_smart_sheets_test_support.js:113 | sorting by position puts each worksheet at exactly the index its position names |
| SheetLoad.ScanExact | server/_smart_sheets_test_support.js:115-118 | scanning the shared cell map yields exactly the worksheet's cells with their coordinates |
| SheetLoad.LoadShowsDoc | server/_smart_sheets_test_support.js:105-121 | a loaded workbook shows exactly the ideal document; it is refused exactly when the document itself is over a limit |
| SheetLoad.LoadDetermined | server/_smart_sheets_test_support.js:105-121 | what loading returns, worksheet ids included, depends only on the sheet's document and its own worksheet records |
| SheetCreate.CreatedThenLoaded | server/_smart_sheets_test_support.js:86-121 | create then load returns the given name, creator and source, exact sizes, and the given worksheets in order under their generated keys, with exactly the given cells and layouts and the defaulted dimensions |
| SheetCreate.CreatedRecord | server/_smart_sheets_test_support.js:86-101 | the new record: name, creator, source, active, revision 0, and the number and bytes of the given cells |
| SheetStore.InsertRefines | server/_smart_sheets_test_support.js:223-229 | shifting later positions and pushing at the list's end is insertion into the display order; all other sheets keep their documents |
| SheetStore.InsertPositions | server/_smart_sheets_test_support.js:225-228 | positions stay exactly 0..n, each used once |
| SheetStore.AssignRefines | server/_smart_sheets_test_support.js:208-211 | setting or deleting one string key changes one cell of one worksheet of one sheet and nothing else anywhere |
| SheetStore.EditRefines | server/_smart_sheets_test_support.js:235-243 | renaming or re-laying-out a worksheet record changes that worksheet of that sheet only |
| SheetStore.FindAgrees | server/_smart_sheets_test_support.js:178-182 | the key search in the shared list finds the worksheet at the document's position for that key, or neither finds one |
| SheetSteps.CellsRepresent | server/_smart_sheets_test_support.js:207-214 | the storing loop plus both counter updates represents the document with the cells written, counters exact |
| SheetSteps.GrowthCheck | server/_smart_sheets_test_support.js:202-206 | the refusal test on deltas and cached counters is the test on the true sizes before and after |
| SheetMeaning.NotWritableExactly | server/_smart_sheets_test_support.js:170-175 | an absent, deleted or not active sheet is refused and nothing else is, an injected failure aside |
| SheetMeaning.RefusedExactly | server/_smart_sheets_test_support.js:178-235 | each of the four refusals not about size comes back exactly under its own condition on keys, rows, columns, names and count |
| SheetMeaning.FullExactly | server/_smart_sheets_test_support.js:191-206 | a cells operation is refused for size exactly when one of the two sizes would end above both what it was and its limit |
| SheetMeaning.AcceptedRecord | server/_smart_sheets_test_support.js:246-249 | an accepted operation changes the worksheets and raises the revision by one; the rest of the record stays |
| SheetMeaning.CellsMeaning | server/_smart_sheets_test_support.js:207-211 | each written cell holds its new content, revision and size or is gone; all other cells, worksheets and properties stay |
| SheetMeaning.AddMeaning | server/_smart_sheets_test_support.js:223-229 | the new worksheet is empty, of default size, at the index asked for or else last; earlier ones keep their index, later ones move up by one |
| SheetMeaning.RenameMeaning | server/_smart_sheets_test_support.js:235 | the worksheet with the key has the new name and is otherwise as it was, like all others |
| SheetMeaning.LayoutMeaning | server/_smart_sheets_test_support.js:236-244 | widths and heights each: nulls are gone, numbers are set, sizes not mentioned stay |
| MemoryStore.Store.CreateSheet | server/_smart_sheets_test_support.js:86-103 | adds the defined document under a new id with exactly the given record and exact counters; every earlier sheet's document and `loadWorkbook` result are unchanged |
| MemoryStore.Store.LoadWorkbook | server/_smart_sheets_test_support.js:105-121 | returns the sheet's ideal document, or a refusal exactly when it exceeds a limit |
| MemoryStore.Store.UpdateSheet | server/_smart_sheets_test_support.js:123-128 | the given name and status arrive in the record of a live sheet, each where it belongs; otherwise nothing changes |
| MemoryStore.Store.SoftDeleteSheet | server/_smart_sheets_test_support.js:130-135 | sets the deletion date of a live sheet and changes nothing else; a deleted or absent one is untouched and reported |
| MemoryStore.Store.ApplyOperation | server/_smart_sheets_test_support.js:166-168 | a call only joins the end of its own sheet's queue |
| MemoryStore.Store.RunNext | server/_smart_sheets_test_support.js:168-252 | serving the head of a queue is one step of the ideal world; a sheet that is absent, deleted or not active refuses it, and a refusal of a known kind leaves the stored data unchanged |
| MemoryStore.Store.Serve | server/_smart_sheets_test_support.js:186-252 | each known kind on a writable sheet gives the edited tabs under the next revision, or its refusal with nothing changed |
| MemoryStore.Store.WriteCells | server/_smart_sheets_test_support.js:186-214 | every written cell holds its new content or is gone and everything else stays, with the same refusals as the document |
| MemoryStore.Store.AddTab | server/_smart_sheets_test_support.js:215-229 | a new key puts the worksheet at the index asked for, or last, and moves the later ones up; an existing key only raises the revision; the limit and name refusals are those of the document |
| MemoryStore.Store.RenameTab | server/_smart_sheets_test_support.js:230-235 | the one worksheet with the key gets the name, unless another has it ignoring case |
| MemoryStore.Store.LayOutTab | server/_smart_sheets_test_support.js:236-244 | null sizes are removed, others set, all remaining sizes kept |
| MemoryStore.Store.ResizeEntries | server/_smart_sheets_test_support.js:240-241 | the loop over entries computes the merged size map, in any order |
| SheetWorld.Serializable | server/_smart_sheets_test_support.js:165-168 | under any interleaving over any number of sheets each sheet ends as if its operations ran one by one in call order; nothing on other sheets matters; unserved calls are exactly the rest of the call order |
| SheetLaws.DrainedInCallOrder | server/_smart_sheets_test_support.js:165-168 | with the queue drained and no failure or admin change the result is the calls folded in call order |
| SheetLaws.AcceptedRevisionsConsecutive | server/_smart_sheets_test_support.js:246-249 | an accepted operation returns one more than the starting revision and the accepted operations before it in the sheet's log, if and only if no operation of unknown kind ran before on the writable sheet |
| SheetLaws.RevisionIsBumps | server/_smart_sheets_test_support.js:246 | the revision counts the accepted operations plus the unknown ones that failed after line 246 |
| SheetOutcomes.RevisionInTrace | server/_smart_sheets_test_support.js:246 | at every point of every interleaving the revision counts the accepted and the broken runs of that sheet so far |
| SheetOutcomes.AcceptedRevisionInTrace | server/_smart_sheets_test_support.js:246-249 | under any interleaving over any sheets the revision returned is the starting one plus the runs accepted before plus one, if and only if no earlier run had an unknown kind on that sheet while it was writable and the write did not fail |
| SheetOutcomes.BrokenRunFails | server/_smart_sheets_test_support.js:183-252 | a run fails with "not a function" exactly when its kind is unknown, no failure is injected and the sheet is writable |
| SheetOutcomes.AcceptedRunsAreConsecutive | server/_smart_sheets_test_support.js:246-249 | when only known kinds are called the accepted runs of a sheet return consecutive revisions under any interleaving |
| SheetOutcomes.RunOutcomeInLog | server/_smart_sheets_test_support.js:165-168 | each run of a trace has its own entry in the sheet's log, with the same operation and outcome |
| SheetLaws.RefusedLeavesNoTrace | server/_smart_sheets_test_support.js:184-246 | a refused operation leaves the document unchanged if and only if it is not an unknown kind reaching a writable sheet |
| SheetLaws.GrowthBounded | server/_smart_sheets_test_support.js:191-218 | one operation leaves cells, bytes and worksheets each at most max(previous, limit) |
| SheetLaws.GrowthBoundedEverywhere | server/_smart_sheets_test_support.js:191-218 | in every reachable state cells, bytes and worksheets of a sheet are each at most max(initial, limit), however large it was created |
| SheetLaws.EveryReachableSheetIsGood | server/_smart_sheets_test_support.js:108-110 | per sheet, whatever happens to the others: created with distinct names within a size bound and written under limits no looser, it is within the bound in every reachable state, so with the default limits opening it is never refused |
| SheetLaws.EveryReachableSheetIsWellFormed | server/_smart_sheets_test_support.js:215-235 | per sheet: created with distinct names, in any number, its worksheets keep unique keys and unique names ignoring case in every reachable state |
| SheetLaws.DeletedIsFrozen | server/_smart_sheets_test_support.js:130-135 | after a soft delete no later event, queued operations included, changes the sheet |
| SheetLaws.DeletedForGood | server/_smart_sheets_test_support.js:130-135 | soft-deleting a live sheet sets its deletion date, keeps the rest, and no continuation changes it again |
| SheetLaws.ArchivedIsFrozen | server/_smart_sheets_test_support.js:173-175 | while a sheet is not active no operation, queued ones included, changes its worksheets or revision |
| SheetLaws.GeneratedKeysDistinct | server/_smart_sheets_test_support.js:91 | the keys generated for a new sheet's worksheets are distinct |
| MemoryStore.StartsTraces | server/_smart_sheets_test_support.js:36-60 | any state of the store meets what the laws about interleavings assume of their first world |
| SheetHistory.LastWriteWins | server/_smart_sheets_test_support.js:207-211 | after any history a cell holds the value and revision of the last accepted operation that wrote it |
| SheetHistory.LastWriteWinsEverywhere | server/_smart_sheets_test_support.js:165-252 | the same under any interleaving, with the last writer taken from the sheet's own call order |
| Accounts.SelectedMeaning | server/_migrate_flag_existing_accounts_password_change.js:46-52 | exactly which accounts a group's UPDATE selects, for every combination of NULL columns |
| Accounts.SelectedInWords | server/_migrate_flag_existing_accounts_password_change.js:46-52 | the two selections in terms of the columns and their values alone |
| Accounts.SelectedUnderSchema | server/_migrate_flag_existing_accounts_password_change.js:46-52 | with employee id and status NOT NULL, as the schemas declare them: the group's accounts that are not pending, not flagged, never changed and not skipped |
| Accounts.GroupsPartition | server/_migrate_flag_existing_accounts_password_change.js:46-50 | the groups are disjoint and cover every account with role employee or admin |
| Accounts.BackfilledMeaning | server/_migrate_add_must_change_password.js:54-56 | exactly which accounts the first migration flags |
| Accounts.BackfilledInWords | server/_migrate_add_must_change_password.js:54-56 | the same in terms of the columns and their values alone |
| Accounts.FlaggingKeepsOtherGroup | server/_migrate_flag_existing_accounts_password_change.js:168-188 | flagging one group does not change which accounts the other group's UPDATE selects |
| Rollout.AppliedMeaning | server/_migrate_flag_existing_accounts_password_change.js:165-189 | one transaction flags, for each open group, what that group selects on the original data, and records exactly those ids; done groups are untouched |
| Rollout.AppliedInWords | server/_migrate_flag_existing_accounts_password_change.js:165-189 | account by account and group by group: flagged exactly if a covered, unrecorded group selects it; each such group records its accounts; existing markers stay |
| Rollout.OpenInWords | server/_migrate_flag_existing_accounts_password_change.js:128-144 | the open groups are those the scope covers that have no marker, table or not |
| Rollout.AppliedIsDone | server/_migrate_flag_existing_accounts_password_change.js:169-174 | after an apply no group is open, and applying again with any skip list changes nothing |
| Rollout.StagedEqualsAll | server/_migrate_flag_existing_accounts_password_change.js:165-189 | employees then admins gives the flags and marker ids of scope all |
| RolloutRun.Database.Preflight | server/_migrate_flag_existing_accounts_password_change.js:128-144 | reports exactly the open groups with the number of accounts each would flag |
| RolloutRun.Database.ApplyDatabase | server/_migrate_flag_existing_accounts_password_change.js:148-200 | a failure at any statement leaves the database unchanged; success is `Applied`, and the counts returned are the ones the preflight gives on the same data |
| RolloutRun.RunRollout | server/_migrate_flag_existing_accounts_password_change.js:205-256 | the two loops leave every database and the report as the closed forms say, also when several targets share a database |
| RolloutRun.NothingApplied | server/_migrate_flag_existing_accounts_password_change.js:231-237 | one failed preflight, or a dry run, and no database changes |
| RolloutRun.ChangedExactly | server/_migrate_flag_existing_accounts_password_change.js:242-253 | the databases changed are exactly the ready ones with open groups before the first failure |
| RolloutRun.AppliedExactly | server/_migrate_flag_existing_accounts_password_change.js:231-253 | a database is applied exactly when the run applies, no target blocks it, it is ready, and no transaction up to it failed |
| RolloutRun.ReportInWords | server/_migrate_flag_existing_accounts_password_change.js:205-256 | each number of the report, and `ok`, as a count of targets by what the run met there |
| RolloutRun.OpenFallsByApplied | server/_migrate_flag_existing_accounts_password_change.js:240-255 | the number of databases with open groups falls by exactly the reported `applied` |
| RolloutRun.RerunConverges | server/_migrate_flag_existing_accounts_password_change.js:35-37 | any sequence of interrupted runs ended by a successful one leaves each ready database as one uninterrupted run would |
| RolloutHistory.NextValid | server/_migrate_flag_existing_accounts_password_change.js:148-200 | every statement of every run, every crash and every other write keeps the transaction invariant |
| RolloutHistory.FlaggedAtMostOnce | server/_migrate_flag_existing_accounts_password_change.js:38-40 | over every history of overlapping runs a group's UPDATE commits at most once, exactly when its marker appears, and the marker never changes |
| RolloutHistory.CommitFlagsWhatItRecords | server/_migrate_flag_existing_accounts_password_change.js:176-191 | a commit changes exactly the rows its new markers record, each selected by its group until then; every group in scope then has its marker |
| RolloutHistory.NeverFlaggedAgain | server/_migrate_flag_existing_accounts_password_change.js:38-40 | once a group has its marker, an account that stays in it is only ever changed by others: a cleared flag stays cleared |
| RolloutHistory.UndisturbedRunIsApplied | server/_migrate_flag_existing_accounts_password_change.js:148-191 | statement by statement and in one formula are the same when nobody interferes |
| RolloutHistory.UndisturbedRunFinishes | server/_migrate_flag_existing_accounts_password_change.js:148-200 | a run nobody interferes with can always be taken to its commit, has then done what `Applied` says, and has freed the lock |
| RolloutHistory.OneStatementNext | server/_migrate_flag_existing_accounts_password_change.js:165-191 | at every point of a transaction exactly one statement is next |
| RolloutHistory.WhoWaits | server/_migrate_flag_existing_accounts_password_change.js:148-200 | only a running transaction keeps the next one out, only rows it has updated keep other writers out, and a rollback frees both |
| RolloutHistory.OnlyCommitsChange | server/_migrate_flag_existing_accounts_password_change.js:192-199 | without a commit rows follow the other writers alone and markers do not change |
| ColumnMigration.Pool.MigrateDatabase | server/_migrate_add_must_change_password.js:86-154 | the summary, the refusals and the table after a run by itself, with failing unlocked reads and rollback at any statement |
| ColumnMigration.RunTargets | server/_migrate_add_must_change_password.js:161-181 | a failing target does not stop the others; the tables and the two counters follow target by target, shared databases and failing unlocked reads included |
| ColumnMigration.MigratedOnce | server/_migrate_add_must_change_password.js:161-181 | a database named by any number of targets ends migrated once if one of them gets through, else untouched |
| ColumnMigration.OnlyTarget | server/_migrate_add_must_change_password.js:161-181 | a target with a database of its own ends as if it were the only target |
| ColumnMigration.StepsMakeMigratedTable | server/_migrate_add_must_change_password.js:129-141 | the ALTERs and the UPDATE together give the migrated table in one formula |
| ColumnMigration.MigratedInWords | server/_migrate_add_must_change_password.js:119-141 | row by row and column by column what a migration leaves |
| ColumnMigration.ReturnedInWords | server/_migrate_add_must_change_password.js:95-146 | the action returned, and the count as the number of accounts the migrated table flags, dry run included |
| ColumnMigration.FailsInWords | server/_migrate_add_must_change_password.js:166-178 | a target fails exactly when missing and not skippable, unreachable, or unable to do a migration that is still open |
| ColumnMigration.SkippedCounted | server/_migrate_add_must_change_password.js:170-174 | the skipped counter is the number of missing targets that may be skipped |
| ColumnMigration.NoEmployeeLeftToFlag | server/_migrate_flag_existing_accounts_password_change.js:137-141 | right after a migration that created the flag column the rollout's employees group selects nobody, for any table and skip list |
| ColumnMigration.MigrationThenRollout | server/_migrate_flag_existing_accounts_password_change.js:9-12 | who is flagged after the migration and then a rollout over both groups |
| ColumnHistory.NextValid | server/_migrate_add_must_change_password.js:86-154 | every statement of every overlapping run, crash and edit keeps the lock, read and draft invariant |
| ColumnHistory.ColumnsOnlyAppear | server/_migrate_add_must_change_password.js:87-93 | no step removes a column, which is what the two unlocked reads rely on |
| ColumnHistory.CommitIsMigration | server/_migrate_add_must_change_password.js:119-146 | every commit, whatever ran before it, is exactly one undisturbed migration of the committed table |
| ColumnHistory.FlaggedOnlyByTheCreator | server/_migrate_add_must_change_password.js:15-27 | over every history at most one commit creates the column and flags, and none if the column was there |
| ColumnHistory.FlaggedCountsAddUp | server/_migrate_add_must_change_password.js:15-27 | the counts all finished runs return add up to that one commit's count |
| ColumnHistory.FinishedMeansMigrated | server/_migrate_add_must_change_password.js:87-93 | a run that reports skipped or migrated leaves both columns in place, the unlocked shortcut included |
| ColumnHistory.UndisturbedRunFinishes | server/_migrate_add_must_change_password.js:86-154 | a run nobody interferes with gets to its end: a real one migrates, a dry one and one that finds both columns change nothing, each returning what that comes to |
| ColumnHistory.RealRunsReport | server/_migrate_add_must_change_password.js:97-106 | only a run that was asked to be a dry run reports one |
| ColumnHistory.DryRunsChangeNothing | server/_migrate_add_must_change_password.js:97-106 | any number of overlapping dry runs leave table and columns to the other writers |
| ColumnHistory.OnlyCommitsChange | server/_migrate_add_must_change_password.js:147-154 | until a run commits, crashes included, table and columns are what the other writers make them |
| ColumnHistory.WhoWaits | server/_migrate_add_must_change_password.js:108-122 | only the lock keeps a run from going on and only an uncommitted ALTER keeps other writers out; a crash frees the lock |
| ColumnHistory.MigratedRowsAreLeftAlone | server/_migrate_add_must_change_password.js:15-19 | once both columns exist no run changes a row |
| ColumnHistory.FlagsAreLeftAlone | server/_migrate_add_must_change_password.js:15-19 | once the flag column exists nobody is flagged again: a row's flag is what the edits made it |
| Decimal.ParsePrint | server/_migrate_add_techops_recycle_bin.js:94-97 | parsing a printed number gives it back |
| Decimal.PrintStart | server/_migrate_add_techops_recycle_bin.js:97 | a printed number has no leading zero |
| Decimal.ParseLeadingZeros | server/_migrate_add_techops_recycle_bin.js:97 | padding does not change the number read back |
| WorkItemCodes.CodeRoundTrip | server/_migrate_add_techops_recycle_bin.js:82-97 | every code matches the query's pattern and reads back as its number, 1000 and above included |
| WorkItemCodes.CodeLength | server/_migrate_add_techops_recycle_bin.js:97 | a code has the prefix, a dash and the number padded to three digits, no more |
| WorkItemCodes.FirstCodes | server/_migrate_add_techops_recycle_bin.js:97 | EPIC-001, FEAT-042 and US-1000 |
| WorkItemCodes.WellFormedExactly | server/_migrate_add_techops_recycle_bin.js:82-91 | the pattern matches the prefix, a dash and any non-empty run of digits, and nothing else |
| WorkItemCodes.OffsetsAgree | server/_migrate_add_techops_recycle_bin.js:87-94 | the 1-based SQL offset and the 0-based slice select the same suffix |
| WorkItemCodes.CodeFits | server/_migrate_add_techops_recycle_bin.js:128 | the longest code the backfill can write fits the column for each prefix in use |
| WorkItemCodes.NextCodeIsNew | server/_migrate_add_techops_recycle_bin.js:93-99 | a number above the largest gives a code no row has, malformed and padded codes included |
| WorkItemCodes.Table.SelectUncoded | server/_migrate_add_techops_recycle_bin.js:73-75 | lists exactly the rows without a code in ascending id order |
| WorkItemCodes.Table.Highest | server/_migrate_add_techops_recycle_bin.js:82-91 | finds a code with the largest number, none when there is none, and fails exactly when a number does not fit an integer |
| WorkItemCodes.Table.BackfillCodes | server/_migrate_add_techops_recycle_bin.js:71-104 | the k-th uncoded row gets the k-th number after the largest, existing codes are kept, codes stay unique; it stops exactly where the cast overflows |
| WorkItemCodes.BackfillStopsAtTheIntegerRange | server/_migrate_add_techops_recycle_bin.js:82-99 | an input on which one row gets the number after the largest integer and the next row none |
| WorkItemCodes.SecondRunDoesNothing | server/_migrate_add_techops_recycle_bin.js:64-69 | a second run selects nothing and changes nothing |
| CompanyFeatures.Platform.BackfillExistingCompanies | server/_migrate_add_company_features.js:29-45 | a run by itself completes every company without rows and leaves all existing rows alone |
| CompanyFeatures.CompletedExactly | server/_migrate_add_company_features.js:30-34 | a run completes a company if and only if it had no row or every row |
| CompanyFeatures.UndisturbedRunIsBackfilled | server/_migrate_add_company_features.js:29-45 | insert by insert a run nobody interferes with gets to its end and leaves the rows of the one formula |
| CompanyFeatures.CompaniesGrow | server/_migrate_add_company_features.js:30-34 | the companies a run can select are those of the start and those added since |
| CompanyFeatures.FinishedRunCompletes | server/_migrate_add_company_features.js:35-43 | under any interleaving every company a finished run selected has a row for every feature |
| CompanyFeatures.OwnersDecide | server/_migrate_add_company_features.js:16-18 | over every history each row holds the owner's last decision, else its old value, else TRUE; no run changes or removes a row |
| CompanyFeatures.InterruptedCompanyStaysIncomplete | server/_migrate_add_company_features.js:31-33 | a company left incomplete by a crash keeps exactly its rows whatever later runs do |
| CompanyFeatures.CrashThenRerunLosesAFeature | server/_migrate_add_company_features.js:29-45 | a concrete history in which a crash and a complete second run leave a feature missing |

## Left out

- MemoryStore.Store.ApplyOperation: the promise object handed to the caller is not modelled; the outcome is what `RunNext` returns.
- MemoryStore.Store.LoadWorkbook: the order of the cells inside one worksheet (a map's insertion order) is not modelled; they are a set.
- MemoryStore.Store.LayOutTab: records are replaced in their list or map; that a layout object already handed to a reader is updated in place is not modelled.
- MemoryStore.Store.UpdateSheet: only the fields the service passes (name and status) can change.
- MemoryStore.Store.CreateSheet: a sheet definition that lists a coordinate twice; the service creates blank sheets or imports a workbook, which has each cell once.
- MemoryStore.Store.WriteCells: an operation that repeats a coordinate; the validator removes repeats, and `DeltaExactIffDistinct` says what they would do to the counters.
- AccessList.Access.ListAccess: the order of the listing (a map's insertion order) is not modelled; it is a set.
- AccessList.Access.GrantAccess: user accounts are fixed; the access list is an object of its own beside the store.
- RolloutRun.RerunConverges: `DbAfter` and the laws about it take one database per target; `RunRollout` and `ApplyAll` allow shared ones.
- RolloutRun.RunRollout: the privilege and column checks of the preflight are one outcome per database.
- RolloutHistory.NextValid: the read-only preflight of a run is not a step, since the apply transaction decides again from its own reads.
- WorkItemCodes.Table.BackfillCodes: other writers during the loop, and re-running an interrupted migration of a tenant, which a later column check may skip.
- CompanyFeatures.Platform.BackfillExistingCompanies: companies are never deleted.
- Number precision: ids, rows and columns are natural numbers, without JavaScript's 2^53 bound.
- Lower-casing a name and the JSON size of a cell are not computed: a name carries its lower-case image and a cell is its UTF-8 JSON text.
- Argument parsing (`parseArgs`), the target list (`buildTargets`), the table creation DDL and console output.
- The other queries of the store (`getAccount`, `searchEmployees`, the sheet lists apart from the grant count), the Socket.IO and HTTP harnesses, and all other `_migrate_*` and `_setup_*` scripts.
