# Dawn Patrol: migrations, tenants and copies, verified

This project models the parts of Dawn Patrol that keep state, and proves what holds of them over every input and every run.

**The migration runner** (`db/bin/shmig`). A directory of migration files, a table of recorded versions and a schema are
driven by `up`, `down`, `rollback` and `redo`.

- `Text`, `MigrationFiles`: file names, the text order `sort` lists them in, the awk filter for pending files.
- `Sections`, `Generate`: how a file is cut into its UP and DOWN text, and what `create` writes and the runner reads back.
- `Arguments`: the arguments of the commands, read the way the shell reads them.
- `Runner`: the class `Shmig`, with the loops of the script over paths and query output. Every command is proved to do what `Plans` and `Unanswered` say.
- `Plans`: the same commands without loops, as sets and sorted lists of versions. `Unanswered`: what they do when the query for
  recorded versions fails.
- `Loading`: from the lines of a file to the schema, which text a command runs. `LimitedRuns`: which versions a count and a stop
  version let a command take.
- `Discipline`, `Replay`, `Histories`: the version table is a stack ordered by version; the schema is the replay of the record
  after every history; different histories meet.
- `Commands`, `MissingFiles`, `Recovery`: commands undo each other; what `down` does and reports when files are gone; what the next
  command does after one was cut off.

**The tenant store** (`api/pkg/db`, `api/pkg/rails/db`). `Tenants` holds the two tables with their indexes, foreign key and sequences,
`Services` the Go methods over them, `Copying` the copy of Rails events, `Hosts` the host patterns, `TenantRuns` what holds over every
sequence of calls, and `Interleaving` what holds when the statements of copies alternate.

**The retry loop** (`api/pkg/db/databases.go`) is in `Retry`.

`dafny verify dfyconfig.toml` checks the whole project.

## Assumptions

- Versions have ten digits and no leading zero, and no two migrations share one (`Orders.Version`, `MigrationFiles.WellNamed`).
  `create` takes them from `date +%s`. Other files may lie in the directory. Names hold no slash, and none of the characters that `read` and `find` treat specially.
- A script either takes effect as a whole or not at all, and its effect depends on the schema only: `Plans.Engine` maps a script and a
  schema to a new schema or to nothing. Where both sections of a migration run, DOWN undoes UP (`Replay.DownUndoesUp`); results about `up` alone do without this.
  DOWN need not succeed, and nothing is assumed where UP fails. Results that say a command goes through assume more: that DOWN runs wherever UP
  has run (`Commands.Reliable`).
- The query for recorded versions is answered, except in `Runner` and `Unanswered`. Where it fails the command goes on as if nothing were recorded.
- All other trouble from outside ends the command it meets (`Plans.Fault`): before a section has taken effect, or between the section and its
  version row. Results that need the second kind excluded say so (`Histories.Atomic`, `!fault.BeforeRow?`).
- The directory does not change while a command runs. Between commands it may change in any way, except that the
  file of a recorded version is not edited (it may be deleted).
- An argument of `shmig` is one line (see `Arguments.ReadOptions` under "Left out").
- Text is compared by character code, as in the C locale. No shell variable is named by the letters e and E alone. MySQL compares short names without regard to case,
  as its tables in `rails-db/schema.sql` say.
- gorm as vendored: `First` orders by primary key (`api/vendor/github.com/jinzhu/gorm/main.go:285-290`), a nonzero ID in its argument is a
  condition (`scope.go:721-726`), and blank fields of a struct condition are left out (`scope.go:590-594`).
- Inserts meet no trouble but the constraints of `db/schema.sql`; integers are unbounded.
- In `TenantRuns` and `Services` a call ends before the next begins. `Interleaving` drops this for copies and for the creation of associations: there single statements are atomic.

## Where code and documentation disagree

The model follows the code. For each point the first lemma named gives the exact condition, for all inputs, and
the last ones concrete inputs for which the code does not do as it should.

- `redo` should apply again what it took back. On PostgreSQL the version text starts with a blank, which `up` refuses: `redo` ends after its
  first half (`Commands.RedoAppliesAgain`, `Commands.RedoOnPostgreSQL`, `Commands.RedoLosesTheOnlyMigration`).
- A recorded version without a file should be an error. `down` stops there and reports success; it has reverted everything if and only if
  no file is missing (`MissingFiles.MissingFileStopsDown`, `MissingFiles.MissingFileIsNoError`, `MissingFiles.LostFile`).
- A failed query for recorded versions should end the command. It does not: `down` and `redo` report success, `up` runs the oldest migration
  again (`Unanswered.FailedQueryIsAnError`, `Unanswered.AppliedTwice`, `Unanswered.LateFileGoesIn`).
- A section should be refused when it is empty. Inside a bracket `\t` is a backslash and a t, so that some text is refused and blank lines with
  a tab are accepted (`Sections.RefusedWhenEmpty`, `Sections.RefusedWithText`, `Sections.AcceptedThoughBlank`).
- `create` should refuse a name that exists. It does so exactly when the name has no space (`Generate.CreateTwice`, `Generate.CreatedTwice`).
- STEPS should be numeric. `-e` and `-E` pass for a number (`Arguments.CountsThatAreNoNumbers`, `Commands.RollbackOfAnOption`).
- TILL should be a number. `-e` and `-E` pass and are read as 0; with a leading zero it is read as octal, or ignored
  (`Arguments.StopsThatAreNoNumbers`, `Commands.OptionAsStopVersion`, `Arguments.OctalStopVersion`, `Arguments.IgnoredStopVersion`).
- The check behind both should let only digits pass. It looks at single lines, so that text of several lines passes when one of them
  is all digits (`Arguments.WhatPasses`, `Arguments.TwoLinesPass`).
- `ToAssociationTimeZone` should keep the local time. It swaps hour and minute (`Copying.WallClockKept`, `Copying.NineInTheMorning`).
- `FirstOrCreate` should find by acronym. With a blank acronym it takes the oldest row (`TenantRuns.BlankAcronymTakesOldest`,
  `TenantRuns.BlankAcronymFindsAnother`).
- `DefaultOrCreateDefault` should find or create. It can do neither, without an error (`TenantRuns.DefaultMayBeMissing`,
  `TenantRuns.DefaultAfterCopy`).
- `Copy` should copy or report an error. It can get no tenant and report none (`Copying.NothingObtained`, `TenantRuns.CopyInOtherCase`). With
  others at work the moment of its insert decides (`Interleaving.LeftOut`, `Interleaving.Race`).

## Model

| member | source | states |
|---|---|---|
| MigrationFiles.SortBeforeIsVersionOrder | db/bin/shmig:488 | Whatever number `sort` reads from the start of a path, two dated files of one directory are listed in the order of their versions |
| MigrationFiles.PendingIsAboveLast | db/bin/shmig:482-495 | The filtered listing is ascending in version and holds exactly the migrations newer than the last recorded one |
| MigrationFiles.FilterPending | db/bin/shmig:488-494 | The awk program with its count-down limit and early exit prints the first `limit` pending paths, all of them for a negative limit |
| MigrationFiles.VersionOfPath | db/bin/shmig:395-397 | `basename` and `cut` give back the ten digits of the file name, whose value is its version |
| MigrationFiles.GlobFindsVersion | db/bin/shmig:506 | The glob of a recorded version finds its migration file and no other |
| MigrationFiles.NameShape | db/bin/shmig:489 | A migration is named by digits, a dash, anything and `.sql`, and nothing else is one |
| MigrationFiles.FirstMigration | db/bin/shmig:395-397 | Any file named 1507560488-....sql has that version |
| Sections.MigrationSection | db/bin/shmig:422-442 | The sed range, comment filter and emptiness test give the section, or nothing when it has no text |
| Sections.SectionPartition | db/bin/shmig:20-21 | With any number and order of markers, each non-comment line after the first marker is in exactly one section, in order; earlier lines are in neither |
| Sections.CommentShape | db/bin/shmig:429 | The lines dropped are exactly those that begin with two dashes |
| Loading.FileLoads | db/bin/shmig:606-615 | Of a file with one marker of each kind, spelled out, `up` uses the lines between them and `down` the lines behind, comments dropped |
| Loading.GeneratedFileLoads | db/bin/shmig:458-473 | A generated file loads as its two bodies with the blank lines of the layout, each only if it holds text |
| Loading.OneMigration | db/bin/shmig:592-601 | With one migration in the directory, `up` runs its UP lines on the schema and records it, `down` runs its DOWN lines and takes it out; a refused section changes nothing |
| Loading.CreateThenUp | db/bin/shmig:606-609 | `create`, bodies filled in, then `up` on a new database: the new schema is the UP body run on the old one |
| Loading.CreateAssociations | db/migrations/1507560488-create-associations.sql:1-22 | A literal file of this shape has the creation as its UP section and the drop as its DOWN section |
| Sections.RefusedWhenEmpty | db/bin/shmig:433-438 | A section is refused exactly when it is blank, if and only if it is not text of blanks, backslashes and t alone and not blank lines with a tab |
| Sections.RefusedWithText | db/bin/shmig:433 | A concrete file whose section holds a letter and is refused |
| Sections.AcceptedThoughBlank | db/bin/shmig:433 | A concrete file whose section is a tab and is accepted |
| Generate.LayoutSections | db/bin/shmig:458-473 | Both bodies of a generated file come back without their comment lines, provided neither holds the marker that would end it |
| Generate.LayoutName | db/bin/shmig:401-413 | A generated file says its own name if and only if the name is not empty, does not start with a space and does not look like the number zero; the last only where awk still takes the changed line for a number |
| Generate.GenerateThenRead | db/bin/shmig:445-480 | A file in the layout of `create` is read back with the same version, name and bodies, and its sections are usable if and only if the bodies hold text |
| Generate.NameCharacters | db/bin/shmig:449 | The characters a name may have, spelled out |
| Generate.CreateTwice | db/bin/shmig:451-456 | After a creation the same name is accepted again if and only if it has a space |
| Generate.CreatedTwice | db/bin/shmig:451-456 | A concrete name that `create` accepts twice, and one that it does not |
| Generate.CreateKeepsWellNamed | db/bin/shmig:456 | A generated file keeps versions distinct if and only if no other migration was generated in the same second |
| Arguments.ReadOptions | db/bin/shmig:547-574 | For arguments of one line the option loop and the numeric checks, with what `echo` makes of their argument, give the limits of `ParseArguments`, or die where it has none |
| Arguments.UsageForms | db/bin/shmig:130-132 | A count and a stop version, each of them or both, mean the same in every form and order the usage text allows |
| Arguments.LastOnesCount | db/bin/shmig:547-571 | Of any arguments the last count and the last argument that is none are read; the loop dies if and only if one has an unknown name or stands alone behind a stop version |
| Arguments.CountAndStop | db/bin/shmig:550-566 | A literal count and stop version are read as the numbers they spell |
| Arguments.MistypedName | db/bin/shmig:556-558 | A literal argument with a mistyped name is refused |
| Arguments.RollbackForms | db/bin/shmig:739-740 | `rollback` refuses a second argument, takes no or an empty count for 1, and hands on any other |
| Arguments.CountsThatAreNoNumbers | db/bin/shmig:531-533 | Of all texts, a count is refused or taken as it should be if and only if it is none of the options -e and -E of `echo`, which lift the limit of `up` and let `down` do nothing, and has no line of digits among several |
| Arguments.WhatPasses | db/bin/shmig:531-533 | Of all texts, with any number of lines, the check lets exactly the numbers pass, except for the options of `echo` and for texts of several lines with one line all digits |
| Arguments.LinesAddUp | db/bin/shmig:532 | The lines the check looks at hold no line break and make up the text |
| Arguments.TwoLinesPass | db/bin/shmig:532 | A concrete text of two lines that passes for a number |
| Arguments.StopsThatAreNoNumbers | db/bin/shmig:583-588 | Of all texts, a stop version is refused or taken as it should be if and only if it is none of the options of `echo`, which are read as 0, has no line of digits among several, and reads as decimal if it is a number |
| Arguments.StopVersionIsDecimal | db/bin/shmig:583-588 | Of all accepted stop versions exactly those count as the number they spell that are digits and either have no leading zero or are zeros but for a last, octal digit |
| Arguments.OctalStopVersion | db/bin/shmig:586 | The stop version 0100 counts as 64 |
| Arguments.IgnoredStopVersion | db/bin/shmig:586 | The stop version 08 stops nothing |
| Arguments.VersionTextAsArgument | db/bin/shmig:531-534 | The version text of the query is a valid stop version on MySQL and SQLite, and refused on PostgreSQL |
| Runner.Shmig.PendingMigrations | db/bin/shmig:484-495 | Prints the paths of the first n files newer than the newest recorded version, oldest first; newer than 0 when the query fails |
| Runner.Shmig.PreviousMigrations | db/bin/shmig:501-512 | Prints the paths of the n newest recorded versions, newest first, up to the first one without a file; nothing when the query fails |
| Runner.StopCutsSource | db/bin/shmig:582-589 | Breaking off at the stop version leaves of what the source prints exactly the declarative plan |
| Runner.Shmig.Pipe | db/bin/shmig:591-601 | One migration: section first, version row second, with every way it can fail and what is left then |
| Runner.Shmig.Migrate | db/bin/shmig:537-603 | The streaming loop changes record and schema as the declarative plan does, for any one-line arguments, any trouble, and an answered or failed query |
| Runner.Shmig.Up | db/bin/shmig:606-609 | `up` does what `Unanswered.PerformSeeing` says, with every combination of answered and failed queries |
| Runner.Shmig.Down | db/bin/shmig:612-615 | `down` does what `Unanswered.PerformSeeing` says, with every combination of answered and failed queries |
| Runner.Shmig.Rollback | db/bin/shmig:738-741 | `rollback` does what `Unanswered.PerformSeeing` says, with every combination of answered and failed queries |
| Runner.Shmig.Redo | db/bin/shmig:742-747 | `redo` does what `Unanswered.PerformSeeing` says, with every combination of answered and failed queries |
| Unanswered.AllAnswered | db/bin/shmig:484-512 | With every query answered each command does what `Plans.Perform` says |
| Unanswered.DownUnanswered | db/bin/shmig:501-510 | Without an answer `down` does nothing and reports success for all arguments it can read |
| Unanswered.DownCommandsUnanswered | db/bin/shmig:735-741 | So do the commands `down` and `rollback`, which make this query and no other |
| Unanswered.RedoUnanswered | db/bin/shmig:742-747 | When its own query or that of `down` fails `redo` changes nothing; it reports success unless the arguments are refused or PostgreSQL makes its second half fail |
| Unanswered.UpUnanswered | db/bin/shmig:485-495 | Without an answer `up` loses no row, adds rows only below the oldest recorded version it comes to, and goes through only if it comes to none |
| Unanswered.OldestRunsAgain | db/bin/shmig:485-495 | Where the oldest file is recorded the record never changes and `up` fails; the schema stays the replay of the record if and only if the second run of the oldest UP section did not come about, was refused or changed nothing |
| Unanswered.FailedQueryIsAnError | db/bin/shmig:484-512 | With the query failing, `up` and `down` end with an error and leave all as it is if and only if their arguments are refused, or it is `up`, has a file to start from, and that section does not run or changes nothing and gets no row |
| Unanswered.AppliedTwice | db/bin/shmig:195 | A concrete database whose only migration is applied twice |
| Unanswered.LateFileGoesIn | db/bin/shmig:195 | A concrete database in which a late file goes in below a recorded version |
| Discipline.PlanReady | db/bin/shmig:484-615 | Every plan of `up` takes the next pending version each time, and every plan of `down` the newest recorded one, which has a file |
| LimitedRuns.DownTakes | db/bin/shmig:582-589 | A `down` that goes through has taken out the newest versions, none below the stop version, each with a file, at most the count; fewer only if all others from the stop version on are held by a missing file |
| LimitedRuns.DownTill | db/bin/shmig:134-135 | With a version as stop version `down` leaves exactly the versions below it, besides those held by a missing file |
| LimitedRuns.RollbackTakes | db/bin/shmig:137-138 | `rollback n` takes out exactly the newest n versions, or all there are |
| LimitedRuns.UpTakes | db/bin/shmig:582-589 | An `up` that goes through has put in the oldest of the files newer than the record and not beyond the stop version, at most the count; fewer only if there are no more |
| LimitedRuns.UpTill | db/bin/shmig:130-132 | With a version as stop version `up` applies every pending migration up to it, itself included, and no more |
| LimitedRuns.RollbackOfTwo | db/bin/shmig:739 | `rollback` with two arguments fails and changes nothing |
| LimitedRuns.NothingToRedo | db/bin/shmig:744-745 | With nothing recorded `redo` reports success and changes nothing |
| Replay.StepKeepsAgreement | db/bin/shmig:592-601 | One migration keeps the schema equal to the replay of the record, or stops exactly one migration ahead of it |
| Replay.PerformKeepsAgreement | db/bin/shmig:728-747 | The same for each command with any arguments and any trouble, where its queries are answered |
| Histories.NewDatabaseIsSound | db/bin/shmig:183-186 | A database whose version table has just been created is where such a history may start |
| Histories.HistoryKeepsAgreement | db/bin/shmig:484-615 | Replay invariant: after any commands, failures between migrations and changes of the directory, the schema is the UP sections of the recorded versions replayed in ascending order |
| Histories.HistoryCutShort | db/bin/shmig:592-601 | Crash form: cut off anywhere, also between section and version row, the schema is the replay of the record or exactly the next pending migration ahead, or the newest recorded one already undone |
| Histories.HistoryIsStackLike | db/bin/shmig:484-615 | Over every history the rows of the version table go in above everything recorded and come out newest first |
| Histories.LateFileWaits | db/bin/shmig:485-494 | A version below a recorded one is never applied until every recorded version above it has been reverted |
| Histories.HistoryKeepsGapless | db/bin/shmig:484-512 | A record that is all file versions up to a bound stays one under every command and any failure |
| Histories.SameNewestSameSchema | db/bin/migrate:4-5 | Two databases migrated from the same files that end at the same newest version have the same record and the same schema, whatever commands each has seen |
| Commands.UpThenRollback | db/bin/shmig:606-615 | From any record, gaps included, a rollback of as many migrations as `up` applied restores record and schema exactly if it goes through, and it does when DOWN runs whenever UP has run and nothing interferes |
| Commands.PlainRollback | db/bin/shmig:738-741 | Without a count, `rollback` takes out exactly the newest recorded version |
| Commands.RollbackOfAnOption | db/bin/shmig:738-741 | `rollback -e` reports success and does nothing, whatever is recorded |
| Commands.OptionAsStopVersion | db/bin/shmig:583-588 | In any state `down -e` does what a plain `down` does, and `up -e` reports success and does nothing |
| Commands.RedoOutcome | db/bin/shmig:742-747 | Without the blank, `redo` leaves the survivors of its first half and all files above them up to the old newest version; nothing recorded is lost, and the old record comes back if and only if no unapplied file lies in between |
| Commands.RedoRestoresSchema | db/bin/shmig:141-143 | Where `redo` brings back the record it brings back the schema |
| Commands.RedoOnPostgreSQL | db/bin/shmig:296-299 | On PostgreSQL `redo` fails and leaves everything as its first half left it |
| Commands.RedoAppliesAgain | db/bin/shmig:746 | When both halves could go through, `redo` does if and only if the database is not PostgreSQL |
| Commands.RedoLosesTheOnlyMigration | db/bin/shmig:742-747 | A concrete PostgreSQL database that ends with nothing applied |
| Commands.FullUp | db/bin/shmig:130-132 | A plain `up` applies exactly the files above the old newest version, and a second one does nothing |
| MissingFiles.PlainDown | db/bin/shmig:501-512 | A plain `down` that goes through has reverted exactly the recorded versions above the highest one without a file, and so all of them if and only if no file is missing |
| MissingFiles.MissingFileIsNoError | db/bin/shmig:499-509 | For all arguments it can read `down` reports success, whatever files are missing, where DOWN runs whenever UP has run and nothing interferes |
| MissingFiles.MissingFileStopsDown | db/bin/shmig:499-509 | There a plain `down` reports success, keeps the versions up to the highest one without a file, and has emptied the database if and only if no file is missing |
| MissingFiles.MissingNewestIsNotReported | db/bin/shmig:507 | With the newest file missing, `down` does nothing and fails only over its arguments |
| MissingFiles.LostFile | db/bin/shmig:507 | A concrete record of one version, its file gone, that a plain `down` leaves as it is with success |
| Recovery.StepAfterCut | db/bin/shmig:592-601 | A migration that was cut off is taken first by the next command of its direction and its section runs again; after that step the agreement is back if and only if the second run changes nothing |
| Recovery.CutUpStaysAhead | db/bin/shmig:592-601 | Where DOWN undoes UP and runs on the schema a cut-off UP has changed, the next step of `up` does not bring the agreement back |
| Recovery.PlainUpAfterCut | db/bin/shmig:606-609 | Where the second run changes nothing, a plain `up` after a cut-off one ends as if it had not been cut off, with schema and record in agreement, whatever the DOWN sections do |
| Recovery.HistoryThenStep | db/bin/shmig:592-601 | The same after a whole history cut off anywhere in its last command; and where the DOWN section of a cut-off UP runs on the schema left behind, the step never brings the agreement back |
| Recovery.PlainCommandMendsAll | db/bin/shmig:592-615 | Where every section of a direction may run again on its own result, a plain command of that direction that goes through ends in agreement after any number of such commands, each with any arguments and cut off anywhere; for `up` nothing is assumed of DOWN |
| Recovery.CutUpMended | db/bin/shmig:592-601 | A concrete `up` that creates a table if it is absent, is cut off and is mended by the next |
| Recovery.CutDownMended | db/bin/shmig:592-601 | A concrete `down` that drops a table if it is there, is cut off and is mended by the next |
| Recovery.CutUpStuck | db/bin/shmig:592-601 | A concrete `up` whose section cannot run again, after whose cut none goes through |
| Tenants.InsertRefused | db/schema.sql:205-219 | A new association is refused if and only if its acronym, host or name is taken; its sequence number is used up either way |
| Tenants.StopsAtBlank | api/pkg/db/event.go:19-30 | Creating events stops with an error at the first one without an association and keeps those inserted before it |
| Tenants.ReportsBlank | api/pkg/db/event.go:19-30 | Creating events reports an error if and only if some event has no association |
| Tenants.RefusedArePassedOver | api/pkg/db/event.go:26 | A refused event does not stop the others: exactly the events of known associations go in, in order, under the ID of their place |
| Tenants.FindsExactly | api/pkg/db/event.go:33-39 | Each event of an association is found as often as it is stored, and no other |
| Services.AssociationService.Create | api/pkg/db/association.go:17-20 | Inserts the association, or leaves rows and argument alone when refused |
| Services.AssociationService.CreateDefault | api/pkg/db/association.go:23-28 | Inserts the default association, its acronym, host and name spelled out, or returns it with ID 0 when refused |
| Services.AssociationService.FirstOrCreate | api/pkg/db/association.go:57-63 | Fills the argument from the oldest row that matches, else inserts it |
| Services.AssociationService.DefaultOrCreateDefault | api/pkg/db/association.go:40-45 | Returns the stored default association, else tries to insert it; acronym, host and name are the literal ones either way |
| Services.AssociationService.FirstByHost | api/pkg/db/association.go:49-54 | Returns the matching association with the lowest ID, or an error |
| Services.EventService.Create | api/pkg/db/event.go:19-30 | The loop inserts events in order, passes over refused ones and stops at a blank association ID |
| Services.EventService.Find | api/pkg/db/event.go:33-39 | Returns exactly the events of the association |
| Services.RacingAssociationService.Copy | api/pkg/rails/db/racing_association.go:21-66 | Finds or creates the tenant, fills the array of events and inserts them as `Copying.Copy` says, errors included |
| Copying.DateBecomes | api/pkg/rails/db/event.go:33-40 | Every date becomes its own day with minutes counted as hours and hours as minutes; a date at midnight stays what it is |
| Copying.WallClockKept | api/pkg/rails/db/event.go:29-41 | The converted time has the same wall clock if and only if hour equals minute; otherwise it is off by 59 minutes per step |
| Copying.NineInTheMorning | api/pkg/rails/db/event.go:29-32 | Nine in the morning becomes nine minutes past midnight |
| Copying.TenantHost | api/pkg/rails/db/racing_association.go:37 | The host of a new tenant is the two fixed parts and the short name with every letter in lower case, and nothing else changed |
| Copying.HostIgnoresCase | api/pkg/rails/db/racing_association.go:37 | Two short names make the same host if and only if they differ in the case of letters only |
| Copying.CopyReports | api/pkg/rails/db/racing_association.go:30-49 | A copy reports an error if and only if the Rails association is not found or a time cannot be converted; only the tenant is written then |
| Copying.CopyAdds | api/pkg/rails/db/racing_association.go:44-63 | One copy adds to the tenant it obtained exactly the source events, in order, and to no other association anything |
| Copying.AddedFieldByField | api/pkg/rails/db/racing_association.go:50-60 | The i-th added row carries the fields of the i-th source event, the time its date becomes, the tenant ID and the next event ID |
| Copying.NothingObtained | api/pkg/rails/db/racing_association.go:42 | A copy gets no ID if and only if there is no Rails association, or no row answers to the acronym and the new host or name is taken; it reports no error then if and only if it has the association and can convert its times; no event is added |
| TenantRuns.RunKeeps | db/schema.sql:254-255 | Over every sequence of calls acronym, host and name stay unique, events point at associations, and no row is lost or changed |
| TenantRuns.SameAcronymSameTenant | api/pkg/db/association.go:57-63 | Once `FirstOrCreate` has given an ID for an acronym it gives that row ever after, after any calls and with a fresh or the filled argument, and adds none |
| TenantRuns.BlankAcronymTakesOldest | api/pkg/db/association.go:59 | The row handed back has the acronym asked for if and only if that is not blank, or no row answers, or the oldest row that answers has a blank one; the rows that answer to a blank acronym are all, or the one with the ID the argument has |
| TenantRuns.BlankAcronymFindsAnother | api/pkg/db/association.go:59 | A concrete table in which a blank acronym hands back another tenant |
| TenantRuns.DefaultMayBeMissing | api/pkg/db/association.go:38-45 | The default association is not stored afterwards if and only if it was not there as written and its acronym, host or name is in use |
| TenantRuns.DefaultAnswers | api/pkg/db/association_test.go:63-85 | Where no row shares anything with it, the default association is created as spelled out, and the hosts 0.0.0.0, localhost and all that name cbra, unless they resolved before, resolve to it ever after |
| TenantRuns.DefaultAfterCopy | api/pkg/db/association.go:38-45 | After a copy of CBRA under its short name the default association is neither found nor created |
| TenantRuns.CopyInOtherCase | api/pkg/rails/db/racing_association.go:69-73 | A copy of atra after one of ATRA gets no tenant, adds no event and reports no error |
| TenantRuns.InsertAndHost | api/pkg/db/association.go:17-20 | A new row takes over a resolved host if and only if it matches and has a lower ID, which no ID from the sequence has |
| TenantRuns.HostIsStable | api/pkg/db/association.go:47-54 | Once a host resolves, no sequence of calls changes its association |
| TenantRuns.CopyCreates | api/pkg/rails/db/racing_association.go:35-42 | The row of a new tenant has the next ID, the acronym asked for, the short name and times of the Rails association and a host without capitals |
| TenantRuns.HostOfNewTenant | api/pkg/rails/db/racing_association.go:37 | The hosts 0.0.0.0 and localhost, and every host that holds the short name with each letter in either case, with any port, resolve to the new tenant or to an older matching one, and to it if and only if nothing matched before |
| Hosts.HostWithPort | api/pkg/db/association_test.go:81-85 | The pattern of CBRA finds a literal host in other case with a port |
| Hosts.OtherHost | api/pkg/rails/db/racing_association.go:37 | It does not find the host of another tenant |
| TenantRuns.RunAdds | api/pkg/rails/db/racing_association.go:20-66 | Over every run of copies and creations, the events of each association are the old ones followed by the rows of exactly the copies that obtained it |
| TenantRuns.RunCounts | api/pkg/rails/db/racing_association.go:20-66 | Each association gains as many events as the copies that obtained it brought |
| Interleaving.InterleavingKeeps | db/schema.sql:205-219 | After every interleaving of the statements of any number of copies and creations acronym, host and name are unique, events point at associations, no row is lost or changed, and a tenant a copy holds exists with the acronym asked for |
| Interleaving.OneTenantPerAcronym | api/pkg/db/association.go:57-63 | Copies of one acronym that run at the same time never hold two different tenants |
| Interleaving.CopiesAtTheSameTime | api/pkg/rails/db/racing_association.go:42-63 | However statements alternate, the new events are a merge of what the copies write, with consecutive IDs; each copy has its events in source order and for the tenant it holds, and all of them once it is through without an error and with a tenant |
| Interleaving.UndisturbedIsCopy | api/pkg/rails/db/racing_association.go:21-66 | A copy whose statements follow each other leaves the tables, the tenant and the error of `Copying.Copy` |
| Interleaving.LeftOut | api/pkg/db/association.go:60-62 | Over every schedule, a copy of a known Rails association ends without a tenant if and only if at the moment of its insert the acronym, host or name was taken, or the next ID by a row that brought its own |
| Interleaving.Race | api/pkg/db/association.go:57-63 | A concrete schedule of two copies of one acronym that leaves the second without a tenant, an event or an error |
| Retry.OpenWithAttempts | api/pkg/db/databases.go:65-80 | Stops at the first answer having waited for the attempts before it; without one makes every attempt and waits after each |
| Retry.TotalWaitBounds | api/pkg/db/databases.go:75 | n failing attempts wait at most 2((3/2)^n - 1) seconds, and less than n seconds below that |
| Retry.WaitIsAQuotient | api/pkg/db/databases.go:75 | The wait after attempt a is the whole-number quotient of 3 to the power a by 2 to the power a |
| Retry.TenAttempts | api/pkg/db/databases.go:62 | The ten waits one by one, and their sums |
| Retry.OpenURL | api/pkg/db/databases.go:61-63 | Connects if and only if one of ten attempts is answered, after at most 72 seconds, and gives up after exactly 110 |

## Left out

- Database clients, SQL text, passwords, colours, messages, option and configuration parsing of `shmig`, the check for the version table: plumbing around the commands.
- `pending` and `status`: they print what `PendingMigrations` and the version table already give.
- Versions with leading zeros or other widths, versions beyond the 32-bit column, two files with one version, and arguments beyond 64 bits.
- Sections that take effect in part. The migration of db/migrations/1507560488-create-associations.sql has no transaction of its own, so this is an assumption there.
- A query for recorded versions that fails halfway through its output, and a failed query in whole histories: `Histories` has answered queries only.
- Two runs of `shmig` at the same time, and a directory that changes during a run.
- The ordered query of recorded versions and `find` with `sort` are modelled by loops that pick the next element (`PreviousVersions`, `Listing`); the script leaves that to the tools.
- TenantRuns.HostOfNewTenant: says nothing of short names with special characters of patterns, and treats only ASCII letters as having two cases.
- Arguments.ReadOptions: treats an argument of several lines as refused, while the check lets some of them pass (`Arguments.WhatPasses`); what `(( ))`, `awk` and the query then make of the line break is not modelled.
- Interleaving.InterleavingKeeps: covers copies and the creation of associations; `FirstOrCreate` and `DefaultOrCreateDefault` write by such a creation only, but what they hand back in between is not stated, and `EventService.Create` runs there as a part of copies only.
- Services.EventService.Find: returns the order of insertion, which the query leaves to the database.
- Copying.WallClockKept: is about the local time handed to the zone; hours that a change of summer time skips or repeats are not modelled.
- Retry.TotalWaitBounds: takes `math.Pow` as exact, which it is for attempts up to 33, and leaves out the overflow of durations from attempt 57 on.
- Structs filled through pointers: the services take and return values, so that two pointers to one struct are not captured.
- Nested associations inside events, NULL columns, and rows changed or deleted by hand.
- `databaseURL` and `databaseDriver`, HTTP handlers, instrumentation, mocks and everything under `web/`: no state of their own.
