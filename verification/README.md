# DBOS Transact: a verified model of its durable-execution core

This project models the parts of DBOS Transact (Python) on which its guarantees rest, and
proves those guarantees for every input, every interleaving and every crash point of the
model.  `dafny verify dfyconfig.toml` checks all of it.

| modules | what they model |
|---|---|
| `Calendar`, `CronExpression`, `CronSearch`, `CronCorrectness`, `CronTheorems`, `CronExactness`, `Croniter`, `CronUnion`, `CronMisses` | the forward cron search against the reference "test every field of every instant" |
| `Text`, `Scheduler`, `ScheduleThreads` | schedule identifiers, backfill, the shared workflow table, the reconcile pass |
| `WorkflowContext`, `Replay`, `ReplayTheorems`, `ReplayRuns`, `ReplayPatching`, `ContextReplay` | positions, child identifiers, checkpoint and replay, patches |
| `TwoDatabases`, `Transactions`, `Datasources` | effects that commit together with a record in one database and are recorded again in another |
| `Migrations` | the migration runner with crashes and invalid indexes |
| `Streams`, `Kafka`, `Debouncer` | readers and consumers that run beside their writers |
| `GarbageCollection`, `Polling`, `ActiveWorkflows`, `Values` | batched deletes, back-off, in-process ownership, shared datatypes |

Code that updates things in place (`_calc`, the cron iterator, contexts, backfill, the
migration runner, the stream reader, garbage collection, the reconcile pass, the queue
worker, the active-workflow map) is modelled by methods and classes with loops, each proved
against functions or predicates on values.  Protocols between processes (replay,
transactions, datasource steps, debouncing, Kafka consumers) are state machines: `Apply` is
one atomic action of one process, an event list is an interleaving of any number of
processes, and `Run` folds it.  A crash is an event that may happen between any two actions;
clocks, results of user functions and lost connections are event parameters.

## Assumptions

The databases are tables with the following contracts, taken from their keys and queries:

- One row per (workflow, function id) in `operation_outputs`; the first writer wins, and a
  later writer is told of a conflict unless the completion times (in milliseconds) are equal
  (dbos/_sys_db.py:2417-2496).
- One row per workflow id; inserting again touches the row and leaves it as it is
  (dbos/_sys_db.py:693-859).
- One row per (workflow, function id) in `transaction_outputs` and in `datasource_outputs`;
  inserting the row and committing the user's work is one atomic action.
- At most one workflow row per (queue, deduplication id).
- Stream values are appended at consecutive offsets (dbos/_sys_db.py:4196-4227).
- The query and the insertion of a patch marker are one atomic action, as is each statement of a
  bounce; the two statements of a bounce are separate actions.
- Kafka delivers a partition in offset order from the committed offset, or from the start if
  there is none.

Workflows are deterministic: the next operation is a function of what earlier operations
returned.  Cron expressions are in expanded form:
sorted, non-empty lists inside the field's range (`CronExpression.WellFormed`); instants are
whole UTC seconds of the proleptic Gregorian calendar.

## What turned out not to hold

- **Day-of-month jumps can pass a match** (dbos/_croniter.py:556-562).  A jump of "days until
  entry d" runs past the end of a short month: `0 0 1,30 * *` misses 1 March.
  `CronExactness.SkipFreeIsExact` gives the exact condition on the expression, and
  `CronExactness.FirstAndThirtiethSkips` the input.  Nothing else is ever missed: for every
  expression `CronMisses.MissesOnlySkipped` traces a missed match to the day of such a jump.
- **A skip can show through the union** of the two day columns unless a weekday fires in time;
  `CronUnion.UnionExactIff` gives the exact condition, on single passes of the day search.
- **The union fails when one side does** (dbos/_croniter.py:362-370): "31 February or Mondays in
  February" is given up on although it fires.  `CronUnion.AnswersIff` is the exact
  condition, and `Croniter.NextFireSucceedsIff` its simple form without skipping jumps.
- **With `#` or `l` weekdays the union is not one** (dbos/_croniter.py:362-368, 675): both
  searches test these entries.  `0 0 15 * mon#1` is given up on from every start
  (`CronUnion.FirstMondayBlocksFifteenth`); where there is an answer it is the weekday search's
  (`CronUnion.NthHidesDays`), and `CronUnion.NthExactIff` says exactly when that is right.
- **An unfolded 7** means Sunday in six- and seven-column expressions only if 0 is listed too
  (`Croniter.SevenIsSundayIff`).
- **Two executors may disagree on a step** that both complete in the same millisecond
  (`ReplayRuns.SameMillisecondSplits`); `ReplayTheorems.KeepsInvIff` is the exact condition.
  Transactions do not have this problem.
- **A marker left after its patch was deprecated** can shift every later position of the replay
  (`ReplayRuns.DeprecateThenPatchShifts`).  Exactly when: `Replay.FollowGrowsIff` for one
  checkpoint, `ReplayTheorems.KeepsInvIff` for one action of a run; it takes a deprecation at the
  very position where the marker is then left.  `Replay.RetiresPatches` is a condition on the
  program alone under which it never happens.
- **A datasource step can be recorded as failed although its work is committed**, after a lost
  commit or beside a concurrent executor (`Datasources.LostCommitDisagrees`,
  `Datasources.ConcurrentExecutorDisagrees`); `Datasources.AgreesIff` says exactly which action
  decides it and when.
- **A debounced call with a pinned id that is in use** returns without writing its inputs
  anywhere (`Debouncer.PinnedCallIsDropped`), and only such a call does
  (`Debouncer.DroppedIffTaken`).
- **Identifiers are unique for a fixed root or group only.**  Two roots or two groups can share
  an identifier exactly when one extends the other (`WorkflowContext.SameIdIff`,
  `Kafka.GroupsCollideIff`).

## Model

| member | source | states |
|---|---|---|
| `Calendar.DateOfRoundTrip` | dbos/_croniter.py:791-795 | the closed-form day number, with the code's leap rule, inverts stepping from day to day |
| `Calendar.DayNumberRoundTrip` | dbos/_croniter.py:791-795 | every valid date is reached by its day number |
| `Calendar.KnownDates` | dbos/_croniter.py:571 | weekdays are those of the real calendar: 1970-01-01 was a Thursday and 2000-02-29, which 1900 did not have, a Tuesday |
| `CronSearch.NearestDiffSkips` | dbos/_croniter.py:719-739 | the nearest difference lands on an entry, modulo the range, and passes over none |
| `CronSearch.DayDiffForward` | dbos/_croniter.py:540-564 | the day-of-month difference is never negative |
| `CronCorrectness.NthIffCandidate` | dbos/_croniter.py:585-607 | the candidates read off the month's weekday table are exactly the days that a `#n` or `l` entry names |
| `CronCorrectness.EverySeventhDayAt` | dbos/_croniter.py:778-789 | the weekday table is every seventh day, to the month's end |
| `CronSearch.PassAdvances` | dbos/_croniter.py:681-698 | every adjusting pass strictly advances the date, which is why the search ends |
| `CronTheorems.PassSkips` | dbos/_croniter.py:482-669 | the first field that changes the date, whichever it is, jumps over no matching instant |
| `CronTheorems.SameMatches` | dbos/_croniter.py:681-699 | a pass that changes nothing stands on an instant that matches every field |
| `CronTheorems.NextIsLeast` | dbos/_croniter.py:464-703 | for every start, the result is the least matching instant after it; a failure means no match through the last year of the span |
| `CronSearch.RunPass` | dbos/_croniter.py:681-694 | the loop over the field processors computes the first change |
| `CronSearch.Calc` | dbos/_croniter.py:464-703 | the search loop refines the recursive search that the theorems speak of |
| `CronExactness.SkipFreeIsExact` | dbos/_croniter.py:540-564 | the search is right from every start if and only if no day-of-month jump of an allowed month can skip |
| `CronExactness.SkippingGoesWrong` | dbos/_croniter.py:556-562 | an expression that can skip has a start, in an allowed year, whose answer is wrong |
| `CronExactness.SimpleDaysAreSafe` | dbos/_croniter.py:556-562 | entries up to 29 only, or from 3 on only, with `l` beside entries up to 28, cannot skip |
| `CronExactness.FirstAndThirtiethSkips` | dbos/_croniter.py:556-562 | a concrete expression and start with a wrong answer |
| `CronMisses.MissesOnlySkipped` | dbos/_croniter.py:464-703 | for every expression, a match before the answer, or in the span if there is none, lies between a day whose month ends before the next listed day and where the jump from that day lands |
| `CronMisses.AnswersMatch` | dbos/_croniter.py:464-703 | for every expression, an answer matches every field, comes after the start and is in the span |
| `CronMisses.SkippedIsMissed` | dbos/_croniter.py:556-562 | what a skipping jump of the first try's day passes over is missed |
| `CronMisses.FiringsMissed` | dbos/_croniter.py:346-376 | a firing that the iterator misses is passed over by a skipping jump of the search that tests the day of the month |
| `Croniter.NextFireIsLeast` | dbos/_croniter.py:346-376 | with both day columns restricted, the earlier of the two searches is the least instant of the union of POSIX.1 |
| `Croniter.NextFireSucceedsIff` | dbos/_croniter.py:346-376 | without skipping jumps, the union search succeeds if and only if both sides have a match in the span |
| `CronUnion.SearchSucceedsIff` | dbos/_croniter.py:464-703 | any search succeeds if and only if some match in the span is not jumped over on its way |
| `CronUnion.AnswersIff` | dbos/_croniter.py:346-376 | for every expression, the iterator answers if and only if each search it makes has such a match |
| `Croniter.ImpossibleDayBlocksWeekdays` | dbos/_croniter.py:362-370 | an expression that fires and is given up on from every start |
| `CronUnion.UnionExactIff` | dbos/_croniter.py:346-376 | every answer of the union is the first firing if and only if no start exposes a day jump over a match before a weekday fires |
| `CronUnion.AllWeekdaysMask` | dbos/_croniter.py:346-376 | a weekday column that lists all seven days masks every skip |
| `CronUnion.SearchMisses` | dbos/_croniter.py:681-699 | a match that a search misses is jumped over by one single pass, from which the search still answers |
| `CronUnion.NthHidesDays` | dbos/_croniter.py:362-368 | with `#` or `l` entries the result is the weekday search's if the day search finds something, and a failure otherwise |
| `CronUnion.NthExactIff` | dbos/_croniter.py:362-376 | then every answer is the first firing if and only if from no start with an answer the day column alone fires before the `#` and `l` entries select an instant |
| `CronUnion.NthSkipFreeExactIff` | dbos/_croniter.py:362-376 | without skipping jumps: if and only if no firing of the day column alone is followed, in the span, by one that meets both columns |
| `CronUnion.FirstMondayBlocksFifteenth` | dbos/_croniter.py:362-370 | an expression that fires after every start and is given up on from every start |
| `Croniter.NextFireGoesForward` | dbos/_croniter.py:464-703 | the result is strictly later than the start for every well-formed expression |
| `Croniter.SevenIsSundayIff` | dbos/_croniter.py:961-978 | an unfolded 7 has the documented meaning if and only if 0 is listed with it |
| `Croniter.Iterator.GetNext` | dbos/_croniter.py:327-412 | `get_next` moves the current time to the first firing after it, or leaves it when it gives up |
| `Scheduler.ScheduledIdInjective` | dbos/_scheduler.py:80-81 | an identifier stands for one schedule name and one instant up to the year 9999 |
| `Scheduler.OneRowPerFiring` | dbos/_scheduler.py:70-95 | any interleaving of live schedulers and backfills leaves one row per fired schedule and instant, and no other, for identifiers that separate firings |
| `Scheduler.ExecutionIdSeparates` | dbos/_scheduler.py:80-81 | the identifiers in use separate firings up to the year 9999 |
| `Scheduler.OneRowPerExecution` | dbos/_scheduler.py:70-95 | one row per schedule and instant, with the identifiers in use |
| `Scheduler.WorkflowTable.Fire` | dbos/_scheduler.py:195-206 | looking for the workflow and enqueueing it if missing is an insertion that never replaces |
| `Scheduler.FireBetween` | dbos/_scheduler.py:190-209 | the loop fires, in order, what the iterator yields after start and before end, one after the other; it returns nothing if and only if the iterator gives up after the last of them, and otherwise the next yield is at or past the end; where the search is exact these are the firing instants strictly between |
| `Scheduler.FiredAreDistinguished` | dbos/_scheduler.py:195-208 | the identifiers of a backfill do not repeat, and each one's row is its schedule's and instant's |
| `Scheduler.BackfillSchedule` | dbos/_scheduler.py:170-209 | the same with the identifiers in use: a backfill enqueues each yield of the window, returns unless the iterator gives up, and the ids are distinct, each with the row of its own instant |
| `ScheduleThreads.Scheduler.Pass` | dbos/_scheduler.py:270-318 | after a pass the threads are exactly the active schedules with current signatures, whatever ran before; unchanged ones are kept, all others stopped |
| `ScheduleThreads.StopKeepsThreads` | dbos/_scheduler.py:274-276 | every thread ever started still serves one schedule or was stopped |
| `ScheduleThreads.StartKeepsThreads` | dbos/_scheduler.py:316-318 | a started thread serves one schedule and is none of the earlier ones |
| `WorkflowContext.PathIdRoundTrip` | dbos/_context.py:191-216 | the path of positions can be read back from a child's identifier |
| `WorkflowContext.PathIdInjective` | dbos/_context.py:191-216 | under one root, different call paths have different identifiers |
| `WorkflowContext.SameIdIff` | dbos/_context.py:191-216 | two roots and paths give the same identifier if and only if one root lies below the other on the extra part of the path |
| `WorkflowContext.Context.SnapshotStep` | dbos/_context.py:170-189 | a step reserves the next position, and one more for its sleep |
| `WorkflowContext.Context.StartWorkflowChild` | dbos/_context.py:191-216 | a child is named after the reserved position unless a name was assigned, which is used up |
| `ContextReplay.AskPatch` | dbos/_dbos.py:3354-3375 | the context's counter advances only if the patch applies |
| `ContextReplay.AskDeprecated` | dbos/_dbos.py:3427-3443 | deprecating advances the counter only if the marker is there |
| `ContextReplay.LookUp` | dbos/_core.py:1820-1850 | looking up one operation, with or without an assigned child id, moves the context's counter to the position at which the operation is recorded |
| `ContextReplay.ReplayTable` | dbos/_core.py:1820-1850 | a replay with the context's counter reads the history that the table admits and stops at the first operation that is not recorded |
| `Replay.FollowUnique` | dbos/_core.py:1820-1850 | a table of checkpoints admits one history of each length |
| `Replay.FollowGrows` | dbos/_core.py:1784-1877 | a checkpoint that is not taken for the marker of a deprecated patch keeps every observed history and its position |
| `Replay.FollowGrowsIff` | dbos/_dbos.py:3427-3443 | leaving a checkpoint keeps every position if and only if no deprecation read at the end of the table names it |
| `Replay.ShiftMoves` | dbos/_dbos.py:3427-3443 | otherwise the same observations end one position later |
| `Replay.RetiringNeverShifts` | dbos/_dbos.py:3427-3443 | it never happens to a program that does something else between deprecating a patch and leaving its marker |
| `ReplayTheorems.ApplyKeepsInv` | dbos/_core.py:1784-1877 | every harmless action keeps what the executors believe in agreement with a gap-free table |
| `ReplayTheorems.KeepsInvIff` | dbos/_sys_db.py:2417-2496 | for every program, an action keeps the agreement if and only if a writer that takes a checkpoint for its own has the recorded result, and the checkpoint that the action leaves is not taken for a deprecated patch's marker |
| `ReplayTheorems.RunKeepsInv` | dbos/_core.py:1784-1877 | the agreement holds in every run of harmless actions, of any number of executors with any crashes |
| `ReplayTheorems.RetiringIsHarmless` | dbos/_core.py:1784-1877 | for a program that retires its patches the completion times alone decide whether a run is harmless |
| `ReplayTheorems.NeverUnexpected` | dbos/_sys_db.py:2596-2675 | no harmless run from the start meets a checkpoint of another operation |
| `ReplayTheorems.HistoriesArePermanent` | dbos/_core.py:1820-1850 | results, child identifiers and patch decisions once observed are observed by every later replay, at the same positions |
| `ReplayTheorems.ReplaysAgree` | dbos/_core.py:1820-1850 | two executors at any two moments agree on as much as both observed |
| `ReplayTheorems.ResultsAgree` | dbos/_sys_db.py:862-905 | executors that finish return the recorded outcome of the workflow |
| `ReplayRuns.RecordedStepNeverStarts` | dbos/_core.py:1820-1850 | after a step is recorded no executor starts its body again, whatever follows |
| `ReplayRuns.SingleExecutor` | dbos/_core.py:1784-1877 | a single executor never runs the body of a recorded step, needs no assumption about completion times, and is harmless if the program retires its patches |
| `ReplayRuns.StepGoesOn` | dbos/_core.py:1784-1877 | a step that is not recorded is run, its outcome recorded once under its name, however often the answer is lost, and the workflow goes on with it at the next position |
| `ReplayRuns.ChildGoesOn` | dbos/_sys_db.py:2538-2577 | the same for the start of a child: a retry finds its own checkpoint and does not conflict |
| `ReplayRuns.FirstWriterWins` | dbos/_sys_db.py:2417-2496 | of two writers at one position the first goes on; the second joins it exactly for the same child or for equal completion times of a step, and gives way otherwise |
| `ReplayRuns.RecoveryReplays` | dbos/_core.py:1820-1850 | a recovery reads every recorded result back at its position by look-ups alone: no body runs and nothing is written |
| `ReplayRuns.RecoveryIsInvisible` | dbos/_core.py:1784-1877 | an executor that finishes leaves the checkpoints and the result of one crash-free run whose steps give the recorded results |
| `ReplayRuns.SameMillisecondSplits` | dbos/_sys_db.py:2465-2480 | two executors with equal completion times return two different results |
| `ReplayRuns.DeprecateThenPatchShifts` | dbos/_dbos.py:3427-3443 | a program that asks for a patch after deprecating it replays one position later than it ran |
| `ReplayPatching.PatchKeepsOldHistories` | dbos/_dbos.py:3354-3375 | whatever the old code recorded, the patched code, asking at any number of points, reads every old checkpoint at its old position, is answered false wherever one follows, and stands at the end of the table where it can first be answered true |
| `ReplayPatching.PatchedRetires` | dbos/_dbos.py:3354-3375 | patching keeps deprecated patches retired |
| `ReplayPatching.PatchedRunsAreExpected` | dbos/_sys_db.py:2596-2675 | no harmless run of the patched code on a table of the old code meets a checkpoint of another operation |
| `ReplayPatching.PatchedMeansMarker` | dbos/_dbos.py:3354-3375 | a true answer stands for the marker at the reserved position |
| `ReplayPatching.DeprecationKeepsHistories` | dbos/_dbos.py:3427-3443 | a history replays after deprecation, at the same positions, if and only if the patch was applied wherever it was asked for |
| `ReplayPatching.DeprecatedRunsAreExpected` | dbos/_sys_db.py:2596-2675 | no harmless run of the deprecating code, on a table in which the patch was always applied, meets a checkpoint of another operation |
| `TwoDatabases.CommitTogether` | dbos/_app_db.py:110-133 | committing an effect with its output row keeps effects and recorded outputs in one-to-one correspondence |
| `Transactions.ApplyKeepsInv` | dbos/_core.py:1414-1615 | every action keeps: effects are exactly the recorded outputs, step records equal application rows, passed-on outcomes are the recorded ones |
| `Transactions.RunKeepsInv` | dbos/_core.py:1414-1615 | the same over every interleaving of executors, crashes, retries and lost commits |
| `Transactions.ReturnedOnce` | dbos/_core.py:1414-1615 | a call that returned an output has its own effect committed exactly once, for ever |
| `Transactions.ReturnsAgree` | dbos/_core.py:1437-1459 | calls for one position that return, at any two moments, return the same |
| `Transactions.CallReturns` | dbos/_core.py:1437-1615 | from whatever state a run got to, a call that other executors leave alone returns, after any number of roll-backs, lost answers to commits and lost answers to the step record: the recorded outcome, else its first committed output, else the outcome of its last attempt |
| `Transactions.RefusedCommitFails` | dbos/_core.py:1582-1609 | a commit that is refused for good commits nothing of the work, records the error in both databases and returns it |
| `Transactions.FatalLossGivesWay` | dbos/_core.py:1582-1609 | a commit whose answer is lost for good gives way without a step record, with its effect and its output committed once |
| `Transactions.FirstRecordWins` | dbos/_sys_db.py:2417-2496 | of two executors that record one step the first returns; the second returns only for equal completion times, and otherwise gives way or fails with the conflict |
| `Transactions.RowsStay` | dbos/_app_db.py:110-158 | rows of both databases are never replaced |
| `Datasources.RunKeepsInv` | dbos/_datasource.py:585-691 | an effect commits at most once and exactly when its output is recorded, although the retry loop does not look again |
| `Datasources.SavesRowOrError` | dbos/_datasource.py:585-691 | an action that gives an executor its outcome gives it the row if the row was found or is inserted by that action and answered, and otherwise an error |
| `Datasources.CallReturns` | dbos/_datasource.py:585-691 | from whatever state, a call that other executors leave alone returns the recorded outcome, else that of its last attempt after any number of roll-backs, unless the answer to a commit was lost: then a duplicate-row error |
| `Datasources.RefusedCommitFails` | dbos/_datasource.py:660-687 | a commit that is refused for good commits nothing, the error is recorded in the datasource, and the call returns it or the error of a lost answer to that record |
| `Datasources.FirstRecordWins` | dbos/_sys_db.py:2417-2496 | of two executors that record one step the first returns, and the second exactly for equal completion times |
| `Datasources.AgreesIff` | dbos/_datasource.py:585-691 | over whole runs, a step record agrees with a recorded output if and only if the action that decided it took the row: it met no row of another attempt and was answered |
| `Datasources.CrashesAgree` | dbos/_datasource.py:585-691 | for one executor that only crashes, every step record is the datasource's row and no call conflicts |
| `Datasources.LostCommitDisagrees` | dbos/_datasource.py:626-668 | one lost answer: the output is committed and the step is recorded as failed |
| `Datasources.ConcurrentExecutorDisagrees` | dbos/_datasource.py:566-583 | the same with two executors and no lost answer |
| `Migrations.RetryIsFaithful` | dbos/_migration.py:631-721 | after the clean-up, a retried online statement ends where the first attempt would have |
| `Migrations.CleanupKeepsBegun` | dbos/_migration.py:22-46 | dropping invalid indexes, some or all, leaves the migration begun |
| `Migrations.IdealIsValid` | dbos/_migration.py:141-219 | a run without crashes leaves every index valid |
| `Migrations.AppliedExactlyOnce` | dbos/_migration.py:141-219 | wherever a process died, each table, column or function is there as often as the statements of the migrations covered by the version say: once if the last statement about it adds it, not at all otherwise; likewise the primary key |
| `Migrations.IdealMeans` | dbos/_migration.py:141-219 | a run without crashes succeeds if and only if every statement is allowed where it stands; each change, index and the primary key are then as the last statement about them says, an index with its definition and valid |
| `Migrations.IndexesApplied` | dbos/_migration.py:173-184 | wherever a process died, every index but that of an online migration under way is there, valid and with its definition, if and only if the last statement about it creates it |
| `Migrations.CleanupIsNeeded` | dbos/_migration.py:22-46 | without the clean-up a guarded retry would take an invalid index for the one it is to create |
| `Migrations.Database.CleanupInvalidIndexes` | dbos/_migration.py:22-46 | drops the invalid indexes and nothing else; a crash leaves some of them |
| `Migrations.Database.BumpVersion` | dbos/_migration.py:49-65 | there is one version row, inserted the first time and updated afterwards |
| `Migrations.Database.RunOnline` | dbos/_migration.py:173-184 | an online migration ends at the next version's schema, in which each index is what the statements say, or dies with the version unchanged and the statement at most begun |
| `Migrations.Database.RunTransaction` | dbos/_migration.py:186-219 | schema and version commit together or not at all |
| `Migrations.Database.RunMigrations` | dbos/_migration.py:141-219 | however it ends, version k means exactly the migrations 1 to k, plus possibly an online k+1; a completed run has every change and index that the statements say; it fails only if a statement is not allowed where it stands, and dies only if its life is shorter than three actions a migration |
| `Migrations.MigrateWithCrashes` | dbos/_migration.py:141-219 | any number of processes dying at any point: if one completes, every change is there, every index with its definition and valid, one version row; one process that lives long enough is sufficient |
| `Streams.ReadStream` | dbos/_dbos.py:3206-3236 | the reader yields a section of the stream, in order and without gaps, one value a query as long as there is one, whatever the status; stopping without the sentinel it has yielded all that was there when it saw the workflow inactive; it stops in bounded time |
| `Kafka.WorkflowIdInjective` | dbos/_kafka.py:102-105 | within a group an identifier stands for one topic, partition and offset |
| `Kafka.GroupsCollideIff` | dbos/_kafka.py:102-105 | two groups can give two different messages one identifier if and only if one is the other behind a dash and a part that is, or ends in, a numeral |
| `Kafka.GroupsCanCollide` | dbos/_kafka.py:102-105 | a family of such collisions, for every topic and offset |
| `Kafka.RunKeepsInv` | dbos/_kafka.py:64-121 | across crashes, rebalances and replaced consumers, stored and committed offsets cover only messages with workflows |
| `Kafka.HandledIsStored` | dbos/_kafka.py:90-117 | a message handled without trouble has its workflow and the offset behind it stored |
| `Kafka.BacklogIsHandled` | dbos/_kafka.py:64-121 | a consumer left alone enqueues exactly the messages from its position on, one after the other, and stores the offset behind each |
| `Kafka.ResumesBehindCommitted` | dbos/_kafka.py:64-121 | a consumer that starts or replaces another goes on at the offset committed last, whoever committed it |
| `Kafka.MessagesGetOneWorkflow` | dbos/_kafka.py:64-121 | a message behind a stored or committed offset has exactly one workflow, with its payload |
| `Debouncer.ApplyWrites` | dbos/_debouncer.py:269-338 | each action writes nothing, or one call's inputs to a delayed workflow of the same name, new or bounced |
| `Debouncer.ApplyKeepsUnique` | dbos/_sys_db.py:1023-1110 | at most one workflow holds a key |
| `Debouncer.RunKeepsInv` | dbos/_debouncer.py:269-338 | in every interleaving each returned call wrote exactly once, unless its id was taken; such calls are as many as workflows created plus bounces |
| `Debouncer.CallAlone` | dbos/_debouncer.py:112-131 | what a call left alone does, by who holds its key and whether its id is taken: bounce, start, touch, retry or raise; the workflow that it bounces or starts has its inputs and is delayed until the requested time or the deadline, whichever is earlier, and no other changes |
| `Debouncer.WriteDelays` | dbos/_sys_db.py:1048-1071 | every write of every run puts its workflow's delay off to the requested time, capped by a deadline that a bounce does not move, and touches no other workflow |
| `Debouncer.TransitionIff` | dbos/_sys_db.py:3792-3819 | a delayed workflow stays delayed if and only if its time has not come; a debounced one gives up its key when it has |
| `Debouncer.LostRaceRetries` | dbos/_debouncer.py:333-338 | a call whose key was taken between bounce and enqueue writes nothing and tries to bounce again |
| `Debouncer.InputsLostOnlyToBounce` | dbos/_debouncer.py:112-131 | a returned call's inputs are its workflow's, unless a later bounce of that workflow replaced them |
| `Debouncer.DeadlineReleases` | dbos/_sys_db.py:3792-3819 | once the deadline has passed the delay runs out, however often the workflow was bounced |
| `Debouncer.DroppedIffTaken` | dbos/_debouncer.py:269-338 | over whole runs, a returned call has written nothing if and only if it returned by enqueueing under an id that a workflow of the same name had at that moment |
| `Debouncer.PinnedCallIsDropped` | dbos/_debouncer.py:321-332 | a run in which such a call's inputs are written nowhere |
| `GarbageCollection.KthOldestExists` | dbos/_app_db.py:215-229 | the query for the end of a batch has an answer whenever enough rows are eligible |
| `GarbageCollection.BatchIsWellSized` | dbos/_app_db.py:236-244 | a batch that is not the last removes at least the batch size, and beyond it only ties |
| `GarbageCollection.BatchesAreOneDelete` | dbos/_app_db.py:210-245 | batches and one big delete of all rows that were there or arrived leave the same |
| `GarbageCollection.OutputTable.GarbageCollect` | dbos/_app_db.py:186-245 | for every batch size the loop ends, whatever arrives: of all rows that were there or arrived, exactly those of pending workflows and those at or past the cutoff are left; sizes below 1 are refused |
| `GarbageCollection.OutputTable.GarbageCollectAlone` | dbos/_app_db.py:186-245 | on a table that nobody else changes, batches of any size leave exactly the rows of pending workflows and those at or past the cutoff |
| `Polling.QueueWorker` | dbos/_queue.py:440-535 | the interval waited stays between the current minimum and maximum |
| `Polling.QuietDecay` | dbos/_queue.py:534-535 | without contention the interval falls geometrically to the minimum |
| `Polling.ContentionGrowth` | dbos/_queue.py:510-535 | under contention the interval grows by 1.8 each iteration, to nine tenths of the maximum |
| `Polling.BackAtMinimumIff` | dbos/_queue.py:534-535 | the exact number of quiet iterations after which the minimum is reached |
| `Polling.BackAtMinimumWithin` | dbos/_queue.py:534-535 | seven quiet iterations for each doubling from the minimum to the maximum are enough |
| `ActiveWorkflows.Process.BeginExecution` | dbos/_core.py:714-738 | an execution owns its workflow if and only if nobody does, one owner each; the count of its own queue and partition, and no other, rises by one |
| `ActiveWorkflows.Process.FinishExecution` | dbos/_core.py:714-738 | an owner's release never misses its key; the count of its bucket, and no other, falls by one |
| `ActiveWorkflows.Process.CountForQueue` | dbos/_core.py:655-665 | counts the workflows of one queue and partition |
| `ActiveWorkflows.Process.RunAll` | dbos/_core.py:619-665 | over any interleaving from an empty process, the count of a queue and partition is the number of executions going on that began with them while nobody executed their workflow |
| `ActiveWorkflows.CountIsOwners` | dbos/_core.py:619-665 | the count of a bucket is the number of owners running in it |
| `ActiveWorkflows.CountsAddUp` | dbos/_core.py:619-665 | the counts of all buckets and the unqueued workflows add up to the map |

## Left out

- Time zones and daylight saving (dbos/_croniter.py:378-404), `get_prev`, `match`, `match_range`, `croniter_range`, hash expansion and the parsing in `_expand`; the `day_or=False` and `implement_cron_bug` options, which the schedulers do not use; the `*#n` weekday entry; the year-9999 overflow of `datetime`.
- Croniter.NextFireIsLeast: its condition, on the expression alone, is sufficient; the exact conditions are `CronUnion.UnionExactIff` and, with `#` or `l` weekdays, `CronUnion.NthExactIff`.
- Croniter.NextFireSucceedsIff: speaks of expressions without skipping jumps; `CronUnion.AnswersIff` covers all.
- Scheduler.ScheduledIdInjective: instants after the year 9999, which `datetime` cannot represent, are not spoken of.
- Live schedule threads beyond their effect on the workflow table; manual triggers, whose identifiers contain a random part.
- Step retries, preemption and cancellation inside `invoke_step`; steps that run concurrently inside one workflow, and with them the interleaving check of `patch_async`; sleep, send/recv, events and fork.
- ReplayTheorems.NeverUnexpected: speaks of one version of the code at a time; a change of code is the subject of `ReplayPatching`.
- The protocol machines work on values: the local variables and context objects of a single call (`step_output`, `txn_output`, `id_assigned_for_next_workflow`) appear as fields of the executor's state, not as objects updated in place.
- The wait of a conflicted executor for the other's result.
- Transactions.RunKeepsInv: rows removed by garbage collection while an executor still runs are not modelled.
- Debouncer.RunKeepsInv: a bounce that commits and is retried because the answer was lost is not modelled, nor is `DBOS.set_workflow_delay`; `DebouncerClient` computes its first delay in seconds and may exceed the deadline by the time between two clock readings.
- Migrations.MigrateWithCrashes: two processes that migrate at the same time are not modelled.
- Streams.ReadStream: the wake-up by notification only shortens waits and is not modelled.
- The asynchronous variants, which follow the same protocols.
- Serialization, tracing, roles, configuration, command line, conductor, admin server and web middleware.
