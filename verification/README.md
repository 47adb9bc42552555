# Remindi: a verified model of its obligation store, recurrence, scheduler and restore

Remindi keeps obligations ("remindis") in a SQLite database and tells agents which of them are ready.
This project models, in Dafny, the parts of it in which state, order and failure matter, and proves what
they are for.

- **Items.** `Model` holds the data; `Lifecycle` the state machine and the evaluator as functions of an
  item's value, with the invariant they keep; `RemindiObject` the same operations as methods of a mutable
  item, each proved equal to its function. `Recurrence` has the stepping loops, their closed form, and how
  the three policies for missed occurrences relate.
- **Store.** `Evidence`, `Operations` and `Store` say what every request and every late commit of an evaluated
  snapshot does to the tables; `Service` is the service itself, with tables and items changed in place,
  proved against them. `StoreRuns` and `StoreTheorems` are about whole runs in which tool calls, snapshot
  reads and late commits interleave at will; `Retry` about repeated requests. `Witnesses` and `MissedItem`
  give the concrete runs on which a property that one might expect fails. `Columns` says column by column what
  each call writes, what it answers and what it admits.
- **Reading.** `CheckPages`, `CheckWalk` and `CursorText` treat the readiness check, whose pages change
  the very data they page through, at one instant, and `MovingClock` with a clock that moves; `CheckLaws` says by
  name in which order items are shown and which; `ListWalk` is the item listing under concurrent writers;
  `Timestamps` the text forms that stand for instants and identifiers.
- **Scheduler.** `Lease` is the lease row and its protocol, `Drain` the polls and why they end,
  `SchedulerLoop` the poll, the loop and the workload as objects.
- **Restore.** `Storage` is the disk, on which every durable step may fail before or after it took effect
  and the process may die before or after it; `Maintenance` the gate and the pool; `Workloads` the two
  workloads; `Restore` the guarded restore, its rollback and the recovery; `Retention` what expires.

Instants are whole nanoseconds; whatever is stored is cut to milliseconds explicitly. Clocks, identifiers,
adapter answers and the order of rows that a query leaves open are parameters or arbitrary choices. A
database is its tables' contents in the store, and the log of its transactions in the restore.

Where the program's code and its documentation part, the model follows the code (`README.md` is the
program's here):

- The specification document gives stored answers a retention time of 30 days; nothing ever deletes them
  or looks at their expiry (`src/remindi/service.rs:1290-1336`), so retries are answered for ever.
- A repeat of a request is checked against the clock before the stored answer is looked up
  (`src/remindi/service.rs:398-446`), so the promise of `README.md:485-488` holds for repeats under a clock
  and limits that still admit the request; `Retry.RetryAnswer` gives the exact condition.
- `include_scheduled` widens the query but never the result (`src/remindi/service.rs:841-860`), as
  `README.md:627` admits.
- Removing the restore journal logs an unlink error and succeeds (`src/admin/backup.rs:914-917,1186-1192`);
  a journal left behind in a rollback phase makes a later startup put the snapshot back.

## Model

| member | source | states |
|---|---|---|
| RemindiObject.Remindi.Snooze | src/remindi/state_machine.rs:7-33 | Snoozing in place: the refusals in the order the code tests them, each leaving the item unchanged, and otherwise the whole new item, which remembers the readiness it came from. |
| RemindiObject.Remindi.Complete | src/remindi/state_machine.rs:36-54 | Completion in place: refused for a terminal item or without evidence, otherwise the whole new item with its snooze cleared and its version one higher. |
| RemindiObject.Remindi.Cancel | src/remindi/state_machine.rs:57-71 | Cancellation in place: refused for a terminal item or a blank reason, otherwise the whole new item. |
| RemindiObject.Remindi.Replace | src/remindi/state_machine.rs:74-96 | Trigger replacement in place: a snoozed item goes back to a fresh schedule, a ready one keeps its readiness, a failed call changes nothing. |
| RemindiObject.Remindi.EvaluateInPlace | src/triggers/evaluator.rs:35-71 | The evaluator on a mutable item: readiness, event list and every field of the item after it, and what a failed evaluation has already set. |
| RemindiObject.Remindi.TriggerSatisfaction | src/triggers/evaluator.rs:73-156 | The seven trigger kinds on a mutable item: whether one is satisfied, with what readiness, and the condition bookkeeping it leaves; which context, clock and answer satisfy one is the row below. |
| Lifecycle.ScheduledItemIsDueIff | src/triggers/evaluator.rs:73-156 | A scheduled item becomes due if and only if its own condition holds: the instant has come; another session than the source asks; also a continuation of the source's lineage; the goal is one of the active ones; the answer is Satisfied or the manual deadline has passed. It is then due since the clock reading, for manual verification exactly when only the deadline spoke, and its events say so. |
| Lifecycle.ReadyItemIsOverdueIff | src/triggers/evaluator.rs:158-215 | A ready or snoozed item shows nothing before its snooze deadline; otherwise it is overdue if it was or the grace since its first readiness has run out, and due if not. |
| Lifecycle.ConditionIsAskedAgain | src/triggers/evaluator.rs:117-156 | A condition that was answered and does not fire stores the answer and is to be asked again its poll interval, or 30 seconds, later. |
| RemindiObject.Remindi.EvaluateSnoozeInPlace | src/triggers/evaluator.rs:158-196 | Wake-up from a snooze: nothing before the deadline, then due or overdue by the grace since the first readiness. |
| RemindiObject.Remindi.EvaluateDueInPlace | src/triggers/evaluator.rs:198-215 | A due item turns overdue exactly when its grace has run out. |
| Lifecycle.EvaluationKeepsInvariant | src/triggers/evaluator.rs:35-215 | An evaluation fails only for a terminal item; otherwise it keeps the item invariant, the identity, trigger, anchor and occurrence, reports readiness exactly when it leaves the item due or overdue, and raises the version by one exactly when the state changes. |
| Lifecycle.StoringKeepsInvariant | src/remindi/repository.rs:102-201 | Cutting every timestamp to the milliseconds of its column breaks no part of the item invariant. |
| Lifecycle.SnoozeIsTransparentForDueItems | src/remindi/state_machine.rs:7-33 | Snoozing a due item, storing it, and evaluating at any time from the deadline on gives the state, readiness, first readiness and anchor that evaluating the unsnoozed item gives then. |
| Lifecycle.SnoozedOverdueComesBack | src/triggers/evaluator.rs:158-215 | A snoozed overdue item comes back overdue if and only if its grace, as it now is, has run out. |
| Operations.OperationKeepsInvariant | src/remindi/service.rs:387-670 | Each of the four mutations of an existing item starts from a live item, keeps the item invariant and the identity, raises the version by exactly one also when a trigger is replaced, hands over evidence exactly when it completes, and leaves links that fit the trigger. |
| Operations.NormalizationNormalizes | src/remindi/service.rs:1380-1498 | Trimming the texts and cutting the instants of a request twice is doing it once, and keeps its tool and key: the retry of a request has the request that was stored. |
| Model.TrimTrims | src/remindi/service.rs:1471-1482 | Trimming takes all white space off both ends of a text and nothing else, and trimming again takes nothing. |
| Evidence.ValidationIsStable | src/remindi/evidence.rs:68-111 | What validation stores is valid evidence, and validating it again changes nothing: white space and the spelling of a digest are settled. |
| Evidence.EvidenceIsValidIff | src/remindi/evidence.rs:68-151 | Evidence is accepted if and only if it says more than "done" or "looks good", comes from the actor, and has a reference or a digest; the reference a scheme, no white space, and no at sign in the authority behind its first colon with two slashes; the digest 64 hexadecimal digits. |
| Evidence.HashDigitsStay | src/remindi/evidence.rs:145-151 | An accepted digest is stored under its prefix with its own digits, in lower case. |
| Service.Tables.UpdateCas | src/remindi/repository.rs:155-201 | The compare-and-swap: no row matches and nothing changes, or the row is replaced with its identity columns kept, or a constraint fails and nothing changes. |
| Service.Tables.AppendEvents | src/remindi/repository.rs:228-251 | The event rows of one commit follow the rows before them, in order, with one pair of versions. |
| Service.RemindiService.Call | src/remindi/service.rs:265-670 | A mutating call, from trimming and validation to commit, changes the tables exactly as the store's transition function says and answers what it says, on every path. |
| Service.RemindiService.Mutate | src/remindi/service.rs:1059-1175 | Find, compare the version, operate in place, write: the tables and the answer are those of the transition function; every error leaves the tables as they were. |
| Service.RemindiService.Write | src/remindi/service.rs:1117-1175 | Item, links, evidence, event and stored answer are written together or, when a constraint fails half way, not at all. |
| Columns.AddWrites | src/remindi/service.rs:265-385 | An add writes one row, column by column: trimmed texts, the session and lineage each in its own column, the first anchor of the trigger (for an elapsed time the clock plus its seconds), the first evaluation of a condition, everything else empty or at its start; its links; one event. |
| Columns.CompletionWrites | src/remindi/service.rs:387-424 | A completion writes the end, the evidence column by column as it was validated, and one event from the version before to the next; all other columns and tables stay. |
| Columns.SnoozeWrites | src/remindi/service.rs:426-474 | A snooze writes the deadline, the readiness it came from and a count one higher, for a ready item and a deadline after the clock, and nothing else. |
| Columns.CancellationWrites | src/remindi/service.rs:476-507 | A cancellation writes the end, takes the snooze away, and writes nothing else. |
| Columns.UpdateWrites | src/remindi/service.rs:509-678 | An update writes the columns it was given and only those, moves the anchor as its trigger or disposition says, replaces the links if it was given any, and writes one event of its kind. |
| Columns.MutationAnswers | src/remindi/service.rs:1059-1175 | What a mutation answers, in the order of the tests: a date beyond the configured limits, not found, another version than expected, terminal, and then the refusals of its own operation, or the new version. |
| Columns.FailureChangesNothing | src/remindi/service.rs:1059-1175 | A call that fails leaves every table as it was. |
| Columns.KeysSeparate | src/remindi/service.rs:1290-1336 | Two calls share a stored answer if and only if actor, tool and key are the same. |
| Columns.AddIsValidIff | src/remindi/service.rs:265-330 | An add is valid if and only if its key has 8 to 128 of the permitted characters, its texts, once trimmed, are neither empty nor too long, its trigger and recurrence are within their bounds and fit, and its links are at most a hundred, none empty, none twice, and fit the trigger. |
| Columns.MutationIsValidIff | src/remindi/service.rs:387-560 | A valid completion, snooze, cancellation or update, by what was sent: a version, a note or reason of its length, valid evidence; and an update with something to change, each change within its bounds, and the link of a new goal trigger. |
| Columns.TriggerBounds | src/remindi/model.rs:301-344 | A trigger is valid if and only if its numbers and texts are within the bounds of its kind, trimmed or not. |
| Columns.GoalLinkFitsIff | src/remindi/service.rs:1548-1565 | A goal trigger is accepted exactly with one goal link, which names its goal. |
| Service.UpdateInPlace | src/remindi/service.rs:562-675 | The closure of an update run step by step on the item equals the composition of its parts: fields, trigger, recurrence, occurrence, one version step, link check. |
| Service.RemindiService.Persist | src/remindi/service.rs:1011-1057 | An evaluated snapshot is stored exactly when its row still has the snapshot's version and the new row breaks no constraint. |
| Service.RemindiService.EvaluateOne | src/remindi/service.rs:962-1003 | Evaluating a snapshot and committing it equals the commit step of a run, the version step for condition-only evaluations included. |
| Service.RemindiService.Check | src/remindi/service.rs:805-930 | Whatever others wrote between its query and its commit, a check stores and shows what of its page still stands and returns the cursor of what it listed; what it shows is in the order given by name below and at most a page, 50 items unless asked otherwise; without other writers it is a page of the model. A page size over 200, and nothing else, is refused, without effect. |
| Service.RemindiService.CommitPage | src/remindi/service.rs:893-925 | The commit loop stores the evaluated entries of a page one after the other and shows what it could store. |
| Service.RemindiService.SelectRows | src/remindi/repository.rs:371-394 | A selection returns the rows that satisfy it, each once, and no others. |
| StoreRuns.ExecuteOutcome | src/remindi/service.rs:1059-1175 | A call leaves the tables as they were or makes exactly one change, which is the requested operation on the present row (or one new row), stores its answer, and keeps the database invariant. |
| StoreRuns.WritesChangeOneRow | src/remindi/service.rs:1106-1175 | The writes of a successful operation are never stopped by a table constraint: the state rows, the evidence row and the event agree. |
| StoreRuns.CommitChangesOneRow | src/remindi/service.rs:1026-1057 | Committing the evaluation of a current snapshot moves exactly that row by one version and writes no evidence, link or stored answer. |
| StoreRuns.CurrentSnapshotIsRow | src/remindi/service.rs:1026-1040 | A snapshot whose version is still the row's version is the row: the version comparison is enough to see every change in between. |
| StoreRuns.LateCommitIsIgnored | src/remindi/service.rs:1031-1040 | Committing a snapshot the row has moved past changes nothing. |
| StoreRuns.RunKeepsInvariant | src/remindi/service.rs:805-1175 | Every interleaving of tool calls, snapshot reads and late commits keeps the invariants of rows, events, evidence, links, histories and snapshots. |
| StoreTheorems.NoRunViolatesTheInvariants | src/admin/backup.rs:589-609 | After every run from an empty database the invariant query of a backup verification counts zero, and every row satisfies the schema and lifecycle rules and has fitting links. |
| StoreTheorems.StepMovesOneVersion | src/remindi/service.rs:1011-1175 | A step leaves a row alone or raises its version by exactly one; no terminal state is left, no identity changes, no event is rewritten, no row is removed. |
| StoreTheorems.RunMovesOn | src/remindi/service.rs:1011-1175 | Over any run a row that has kept its version is the same row. |
| StoreTheorems.HistoryHasNoGap | src/remindi/repository.rs:228-251 | In every run the events of an item, by sequence, chain none, 1, 2, … up to its version, and every version in between has its event. |
| StoreTheorems.NoUpdateIsLost | src/remindi/service.rs:962-1175 | In every run each version of each item is one operation or evaluation applied to exactly the version before it, the first is what its add request created, and the last is the row. |
| StoreTheorems.EveryVersionIsALegalMove | src/remindi/state_machine.rs:7-96 | In every run each version of an item is a legal move of the lifecycle from the one before: which operation or evaluation may change which state, at what clock reading, under which trigger condition a scheduled item becomes due or stays, and when the first readiness of an occurrence is set, kept or cleared. |
| StoreTheorems.AnchorsStayOnTheLattice | src/remindi/service.rs:593-622 | In every run an interval item's anchor is its first instant plus as many whole intervals as its occurrence number has grown since the trigger was last replaced, and a recurrence it carries has the same interval. |
| StoreTheorems.OnlyUpdatesMoveAnchors | src/remindi/service.rs:426-507 | Completions, snoozes, cancellations, checks and scheduler evaluations move no anchor, occurrence number, trigger or recurrence. |
| StoreTheorems.OccurrencesCountFromOneIff | src/remindi/service.rs:593-600 | Counting occurrences from one gives the anchor if and only if the count has started at one, because replacing a trigger does not reset the occurrence number. |
| Witnesses.AnchorNeedNotCountFromOne | src/remindi/service.rs:593-600 | A concrete run: an item is added, becomes due, is acknowledged and gets its trigger anew; it stands at its first instant with occurrence two. |
| StoreTheorems.SnoozedOverdueReturnsOverdue | src/triggers/evaluator.rs:158-215 | In every run that does not raise this item's grace, when it is overdue and snoozed it comes back overdue from its deadline on at any time not before the run's clock. |
| StoreTheorems.RegracedOverdueComesBack | src/remindi/service.rs:589-592 | After an update of the grace of an overdue item, a snooze brings it back overdue if and only if the new grace has run out. |
| StoreTheorems.RaisedGraceBringsBackDue | src/remindi/service.rs:589-592 | A concrete overdue item whose grace is raised to an hour comes back from a snooze merely due. |
| Retry.RetryAnswer | src/remindi/service.rs:1080-1099 | In every run, the repeat of a call that succeeded earlier changes nothing, and returns the original answer exactly when it passes the clock checks, which come before the stored answer. |
| Retry.RetryReturnsTheOriginalAnswer | src/remindi/service.rs:1290-1309 | Under the same limits and a clock that has not gone back, a repeat returns the original answer even after the item has moved on. |
| Witnesses.RetriesCanBeRefused | src/remindi/service.rs:398-446 | A concrete completion that succeeds and is then, sent again under an earlier clock or a smaller skew, refused instead of answered. |
| Retry.SameNormalizedRequestRepeats | src/remindi/service.rs:1338-1341 | Requests that are the same once trimmed and cut are repeats of each other. |
| Retry.ReusedKeyIsRefused | src/remindi/service.rs:1302-1304 | The key of an earlier successful call with another request is refused and changes nothing, whatever happened in between. |
| Retry.RetriesCanBeErased | src/remindi/service.rs:1083-1099 | Striking every retry from a run leaves the same final database, histories and snapshots. |
| CheckPages.CursorAgreesWithOrder | src/remindi/service.rs:1651-1683 | For stored anchors an item is after the cursor of another if and only if the comparator puts it behind. |
| CursorText.EncodedCursorAgreesWithOrder | src/remindi/service.rs:1634-1683 | The comparison of the encoded tuples, with anchor and identifier as text, says "after" if and only if the comparator says "less". |
| CheckPages.BranchesAreDisjoint | src/remindi/repository.rs:654-708 | No row is in two branches of the UNION ALL. |
| CheckPages.UnselectedIsNotReady | src/remindi/repository.rs:654-708 | A live row that no branch selects would not have been ready, although the query compares millisecond text and the evaluator full instants. |
| CheckPages.QueryFindsEverythingReady | src/remindi/repository.rs:633-710 | Either form of the query, in any row order, yields exactly the ready entries of the scope, each once. |
| CheckPages.QueriesAgree | src/remindi/service.rs:821-861 | The sorted result before paging is one sequence, the same for both forms of the query and for every order of their rows. |
| CheckPages.SortedIsUnique | src/remindi/service.rs:1634-1649 | A set of ready entries has exactly one sorted sequence: the order is total on items. |
| CheckLaws.OrderByName | src/remindi/service.rs:1634-1700 | The order by name: overdue before due before manual verification; of equal readiness critical before high before normal before low; of equal priority the earlier anchor, an item without one last; then the lower identifier. The comparator puts an item first for exactly these reasons. |
| CheckLaws.WalkIsInOrder | src/remindi/service.rs:805-930 | All pages of a walk together show the items in that order. |
| CheckLaws.PageIsInOrder | src/remindi/service.rs:862-925 | A check shows no more than a page, in that order, even of a page others have written into. |
| CheckLaws.ListedExactly | src/remindi/service.rs:805-861 | A first check lists an item if and only if it is of this owner, project and task and is due, overdue, past its snooze, or scheduled with its trigger's condition met. |
| CheckLaws.PagesAreFull | src/remindi/service.rs:862-885 | A page that another one follows is full, and the last page shows all that is left. |
| CheckWalk.PageCommitIsRun | src/remindi/service.rs:893-925 | Committing a page, however late and whatever was written in between, is a run of snapshot commits, so it keeps every invariant of the store. |
| CheckWalk.CommitEntriesEffect | src/remindi/service.rs:893-925 | Serving a page moves exactly the rows of its entries with events, each to its evaluated state, keeps all other rows, and shows every entry. |
| CheckWalk.ServedRowSinksInOrder | src/remindi/service.rs:841-861 | A served item is ready again at the same time and in the same context, and stands no later in the order than it was served. |
| CheckWalk.NextPageContinues | src/remindi/service.rs:862-885 | The check after a served page has left exactly what the served one left, in the same order. |
| CheckWalk.WalkShowsEachReadyItemOnce | src/remindi/service.rs:805-930 | Following the cursors at one time and in one context without other writers shows each item that was ready at the start exactly once, in the order of the check, and ends after at most as many pages as there are items, for any page sizes and either form of the query. |
| MovingClock.StillToComeIff | src/remindi/service.rs:1665-1683 | A row that was ready and still to come behind a cursor is still to come at any later time if and only if it has not become overdue so that, as an overdue item, it stands before the cursor: for every stored row, cursor and pair of clock readings. |
| MovingClock.OvertakenBehindDue | src/remindi/service.rs:1685-1691 | Behind a cursor among the due items or the manual verifications, being overtaken is exactly the end of the grace of a due or snoozed item. |
| MovingClock.StandingClockMissesNothing | src/remindi/service.rs:805-930 | At one instant no item is passed over, so a walk with a standing clock misses none. |
| MovingClock.ServedRowStaysBehind | src/remindi/service.rs:841-864 | A served row is never again after a cursor it was not after, at any later time and in any context. |
| MovingClock.NothingTwice | src/remindi/service.rs:805-930 | With a clock that does not go back and no other writer, no walk shows an item twice. |
| MovingClock.WalkMissesExactlyTheOvertaken | src/remindi/service.rs:805-930 | With a clock that does not go back and no other writer, an item that was ready at the start is shown, once, if and only if between no two checks that had not shown it yet it became overdue and so came to stand before the cursor. |
| MissedItem.AMovingClockCanMissAnItem | src/remindi/service.rs:805-930 | A concrete run and walk: two items are due, the first page shows one, a minute later the grace of the other has run out, and it is never shown. |
| ListWalk.WalkShowsEachItemOnce | src/remindi/repository.rs:322-369 | A listing filtered by project or task shows each matching item that was there when it began exactly once, whatever steps other clients take between its pages. |
| ListWalk.WalkShowsNothingTwice | src/remindi/repository.rs:322-369 | No listing, whatever it filters on, shows an item twice while other clients write. |
| ListWalk.RunKeepsIdentity | src/remindi/repository.rs:155-201 | No run removes an item or changes its identity columns. |
| ListWalk.ListsExactly | src/remindi/repository.rs:322-358 | A listing holds an item if and only if each filter that is set admits it: project, task, one of the states, one of the trigger types, a link to the goal, a link to the memory, and its place after the cursor. |
| ListWalk.ListIsNewestFirst | src/remindi/repository.rs:358-360 | Newer items come first, and of one millisecond the lower identifier. |
| Drain.SelectsExactlyWhatMoves | src/remindi/repository.rs:420-489 | Apart from conditions and context triggers that wait, the scheduler's query selects a row if and only if its evaluation has something to commit; which conditions it selects is the rows below. |
| Drain.BatchHoldsIff | src/remindi/repository.rs:420-489 | A batch holds only rows that wait: past their snooze deadline, due with the grace run out, or scheduled with their instant, their condition's next evaluation or its manual deadline reached. A batch with room holds every such row. |
| Drain.ConditionIsPolledAgain | src/remindi/repository.rs:446-453 | A condition whose answer was stored and did not make it due is in no batch before its poll interval, or 30 seconds, has passed or its manual deadline has come, and in every batch with room from then on, answered before or not. |
| Drain.FirstAskedAt | src/remindi/service.rs:1361-1378 | A new condition is first waited for a poll interval, or 30 seconds, after it was added, or from its manual deadline on. |
| Drain.PollStoresEvaluations | src/scheduler/runner.rs:235-259 | A poll stores for each selected row that is still as it was exactly its evaluation. |
| Drain.EvaluationLowersWeight | src/triggers/evaluator.rs:73-215 | Whatever the adapter answers, committing a selected row lowers the number of transitions it can still make at this instant. |
| Drain.PollSpendsWork | src/scheduler/runner.rs:235-259 | Applying a poll spends at least one unit of work for every candidate, and pays each item's commits from that item's own work. |
| Drain.PollingDrains | src/scheduler/runner.rs:194-259 | Polls at one instant that find something number at most the work there was at the start, their commits together no more than it, and no item commits more than twice, whatever the adapters answer and however small the batches are. |
| Drain.LatePollKeepsInvariant | src/scheduler/runner.rs:235-259 | Applying a poll after others have written keeps the invariants and moves no row that has moved on since it was selected. |
| Drain.IdleExactlyWithoutWork | src/remindi/repository.rs:420-489 | A poll with a positive limit selects nothing if and only if no candidate is left. |
| Recurrence.Advance | src/remindi/recurrence.rs:41-78 | The stepping loop with its exits, by the limits themselves: it ends at previous anchor plus k intervals and occurrence plus k, k-1 skipped when it skips, unless that number is above the maximum or that anchor after the end, which is exactly when it answers that the final occurrence was reached; the other two errors exactly for an interval or a maximum out of range. |
| Recurrence.ReadyOccurrences | src/remindi/recurrence.rs:81-109 | The counting loop counts occurrence k exactly when anchor plus k intervals is neither after now nor after the end and number plus k is not above the maximum; that is the number of anchors repeated catch-up visits, capped; with the errors of an invalid rule or a zero cap. |
| Recurrence.LastOccurrenceHappens | src/remindi/recurrence.rs:41-124 | A valid rule advances to an occurrence whose number is the maximum or whose anchor is the end, and refuses only what lies beyond; catch-up goes one step. |
| Recurrence.StepCountIsFirstFuture | src/remindi/recurrence.rs:53-78 | The closed-form step count is the one j whose anchor is the first after now. |
| Recurrence.ForbiddenStaysForbidden | src/remindi/recurrence.rs:111-124 | Once an occurrence is forbidden every later one is, so checking each step rejects no more than checking the last. |
| Recurrence.CoalesceIsRepeatedCatchUp | src/remindi/recurrence.rs:53-78 | One coalescing advance ends where catch-up advances, repeated at least once until the anchor passes now, end, the final-occurrence error included. |
| Recurrence.SkipCountsWhatCoalescePasses | src/remindi/recurrence.rs:53-78 | Skip moves as Coalesce does and counts exactly the anchors up to now that it passes. |
| Recurrence.CatchUpChainIsReadyAnchors | src/remindi/recurrence.rs:81-109 | The chain of catch-up dispositions visits exactly the permitted anchors up to now, in order. |
| Recurrence.AdvanceConservation | src/remindi/recurrence.rs:41-78 | A successful advance moves the anchor by the interval times the growth of the occurrence number, past now unless it catches up, and to a permitted occurrence. |
| Model.Millis | src/remindi/model.rs:83-91 | The truncation of an instant to canonical text: the latest whole millisecond not after it. |
| Model.StoredBoundComparison | src/remindi/repository.rs:633-710 | Comparing a stored bound with the text of the clock agrees with comparing the full instants, in both directions. |
| Timestamps.TextOrderIsTimeOrder | src/remindi/model.rs:83-91 | For the years 0 to 9999 canonical texts are ordered as their instants at millisecond resolution, and are equal exactly when the instants agree to the millisecond. |
| Timestamps.ParsingUndoesFormatting | src/remindi/model.rs:73-91 | Parsing a canonical text gives the instant back up to the truncation to milliseconds. |
| Timestamps.OffsetsAreNormalized | src/remindi/model.rs:73-80 | A local time with an offset of hours and minutes, and any fraction of a second, is read as the UTC instant it denotes. |
| Timestamps.OffsetIsRequired | src/remindi/model.rs:93-102 | A timestamp without an offset, with or without a fraction of a second, is refused for that reason and not as malformed. |
| Timestamps.UuidTextOrder | src/remindi/service.rs:1665-1683 | Hyphenated lower-case identifier texts are ordered like the identifiers' bytes. |
| Timestamps.YearsInClosedForm | src/remindi/model.rs:73-91 | The days before a year are 365 for each year and one for each leap year of the Gregorian rule before it. |
| Timestamps.MonthsInClosedForm | src/remindi/model.rs:73-91 | The days before a month in closed form, for every month and year: from March on 153 in every five months. |
| Timestamps.EpochIsZero | src/remindi/model.rs:73-91 | The first instant of 1970 is the zero of the instants. |
| Lease.SchedulerLease.Acquire | src/scheduler/lease.rs:84-151 | Acquisition in place: refused while the stored expiry lies in the future, refused at the last version, otherwise the row and the guard it writes. |
| Lease.SchedulerLease.Renew | src/scheduler/lease.rs:154-187 | Renewal in place: guard and row change together or neither changes. |
| Lease.SchedulerLease.Release | src/scheduler/lease.rs:190-206 | Release deletes the row of exactly this holder and version, or changes nothing. |
| Lease.AcquiredLeaseLasts | src/scheduler/lease.rs:84-151 | An acquired lease names its holder and starts its versions at one or goes on; anyone is refused until the duration has passed, to the millisecond of the stored expiry, and admitted from then on. |
| Lease.RenewedLeaseLasts | src/scheduler/lease.rs:154-187 | A renewal needs the row of this holder and version and an expiry ahead; it keeps holder and acquisition, lasts the duration from then, and is due again from half the duration before its end. |
| Lease.ReleaseIff | src/scheduler/lease.rs:190-206 | A release succeeds exactly for the row of this holder and version. |
| Lease.OpenLease | src/scheduler/lease.rs:67-81 | A lease client needs a holder and a positive duration. |
| Lease.MutualExclusion | src/scheduler/lease.rs:84-187 | In every run with a monotone clock at most one guard has a stored expiry in the future. |
| Lease.RenewalExactlyWhenTakeoverRefused | src/scheduler/lease.rs:110-178 | At every instant the writer of the row may renew if and only if anyone else is refused, although one test compares texts and the other parsed instants. |
| Lease.StaleGuardsAreHarmless | src/scheduler/lease.rs:154-206 | In every run in which a holder has at most one guard outstanding, a guard that did not write the present row can neither renew nor delete it, although versions start again from one. |
| Lease.RowChangesOnlyByItsWriter | src/scheduler/lease.rs:84-206 | The row changes only by the hand of the guard that wrote it, or once its expiry has passed. |
| Lease.VersionGrowsUntilRelease | src/scheduler/lease.rs:119-178 | As long as the row is not deleted, every change raises its version by exactly one. |
| Lease.TwoGuardsOfOneHolderClash | src/scheduler/lease.rs:130-142 | Two guards at once under one holder are not harmless: after a release the older guard deletes the newer one's row. |
| Lease.PromptPollsKeepTheLease | src/scheduler/lease.rs:38-40 | With a lease longer than two polls, in whole seconds, a guard that was not due when a poll began can be renewed when the next one begins. |
| SchedulerLoop.Scheduler.PollOnce | src/scheduler/runner.rs:194-259 | A poll stores nothing unless its second renewal succeeded; then it applies exactly the batch selected at its clock reading to whatever others have made of the tables, keeps their invariants, spends work for each candidate if nobody else wrote, and holds the row its guard wrote; a poll soon enough after the last renewal does not lose the lease. |
| SchedulerLoop.Scheduler.AnswersDecide | src/scheduler/runner.rs:218-259 | In a poll the adapter's answer for a scheduled condition is stored with its summary and the clock reading, and makes the item due, from then on not evaluated again, if and only if it was Satisfied or the manual deadline has passed. |
| SchedulerLoop.Scheduler.RunAcquired | src/scheduler/runner.rs:164-191 | A loop that starts with a fresh lease and polls promptly never loses it, whatever rivals try, and gives it back at the end; however a loop ends, unless the desired state cannot be read or the version has run out, the row is no longer its guard's, and the store keeps its invariants amid other writers. |
| SchedulerLoop.ValidConfigKeepsLease | src/scheduler/runner.rs:51-61 | With valid settings in whole seconds a lease that was fresh when one poll began can be renewed one poll interval later and is fresh again, and until then every rival is refused. |
| SchedulerLoop.SchedulerWorkload.Start | src/scheduler/runner.rs:305-335 | A running task is kept; the error of a finished one is returned before anything else; otherwise a task is spawned only with the lease acquired, by a step the lease protocol allows, since the holder has no guard outstanding. |
| SchedulerLoop.SchedulerWorkload.Stop | src/scheduler/runner.rs:338-348 | Stopping ends the task by a release or crash step of the protocol and reports how it ended. |
| SchedulerLoop.OpenScheduler | src/scheduler/runner.rs:51-137 | A scheduler exists only with a lease longer than two polls and nothing zero. |
| Storage.Disk.InstallDatabase | src/admin/backup.rs:1075-1092 | Wherever it fails or the process dies, the live database is the old one or all of the backup. |
| Storage.Disk.RemoveJournal | src/admin/backup.rs:914-917 | The journal goes or stays; a success does not tell which. |
| Restore.RecoverInterrupted | src/admin/backup.rs:849-891 | One attempt at recovery, finished, failed or cut short, keeps the backups and leaves journal and live database as one recovery step may; a refused journal changes nothing; a success leaves no journal and the database recovery aims at; without a failing step it is refused only for an unacceptable journal or a missing snapshot. |
| Restore.RecoveriesKeepTarget | src/admin/backup.rs:849-891 | However often a recovery is cut short and run again, it aims at the same database. |
| Restore.RecoveryIsAtomic | src/admin/backup.rs:649-891 | Whatever a restore left behind, after any number of recoveries cut short, once the journal is gone the live database is the untouched one (journal absent, requested, candidate verified, succeeded) or exactly the snapshot (any other phase), never a mixture. |
| Restore.RecoveryLosesWhatFollowed | src/admin/backup.rs:849-891 | In a rollback phase recovery loses exactly the transactions that followed the snapshot, in any other phase none. |
| Restore.UnrecordedSuccessIsReverted | src/admin/backup.rs:781-800 | A swap that was completed but not recorded as a success is taken back at the next startup: the live database is the snapshot again, and the candidate is gone unless the snapshot descends from it. |
| Restore.LaterWritesCanBeLost | src/admin/backup.rs:678-891 | A transaction committed after the snapshot is lost when recovery finds the journal in a rollback phase, as after an unlink that failed silently. |
| Restore.WritingKeepsSafe | src/admin/backup.rs:628-846 | Transactions and backups of other clients keep a disk that a restore left behind recoverable. |
| Restore.RestoreManager.RestoreBackup | src/admin/backup.rs:628-846 | A confirmed restore of a backup that is there succeeds unless a fault was injected, a disk step failed or a workload could not be started or stopped. At every exit, errors and death of the process included, the disk is recoverable or untouched; success means the candidate is live, all eight phases were journaled in order, one swap was made under the gate with the pool absent and the workloads stopped, and they were restarted after the leases were deleted; a completed rollback leaves the snapshot live and restarted on; and a success whose audit record failed leaves the candidate live under a journal that will take it back. |
| Restore.RestoreManager.Swap | src/admin/backup.rs:691-723 | The swap block: success means candidate live, pool open, leases deleted, its three phases journaled; any failure leaves the snapshot recoverable. |
| Restore.RestoreManager.RollBack | src/admin/backup.rs:805-846 | The rollback: unless one of its own steps fails the snapshot is live, leases were deleted before the workloads were restarted, and the gate is free; if one does, the disk is still recoverable. |
| Restore.RestoreManager.Complete | src/admin/backup.rs:725-803 | After a good swap success is recorded, with the candidate live, unless a disk step failed or a workload could not be started or stopped; otherwise the snapshot is put back; the gate is taken again only after it was released. |
| Restore.RestoreManager.TakeSnapshot | src/admin/backup.rs:663-681 | The snapshot descends from the original, and the phase that makes recovery use it is journaled only once its file is there. |
| Maintenance.DatabaseManager.CheckpointAndClose | src/db/manager.rs:153-167 | Unless the process dies the pool is absent afterwards, also when the checkpoint fails. |
| Maintenance.DatabaseManager.ClearSchedulerLeases | src/db/manager.rs:177-183 | Success means a pool was there and no lease is stored. |
| Maintenance.DatabaseManager.Connection | src/db/manager.rs:94-104 | No connection is handed out under maintenance or without a pool. |
| Storage.QuietKeepsLeaseFree | src/db/manager.rs:177-183 | Transactions that write no lease keep a database without leases so. |
| Retention.BackupManager.ApplyRetention | src/admin/backup.rs:384-444 | Retention expires exactly the ready automatic and uploaded backups beyond the newest ones it keeps, and removes exactly their files. |
| Retention.RetentionKeepsTheNewest | src/admin/backup.rs:398-409 | It leaves the newest ones, or all if there are fewer, and doing it again expires nothing more. |
| Retention.RetentionSparesSnapshots | src/admin/backup.rs:398-409 | A manual backup or a pre-restore snapshot is never expired. |
| Retention.SnapshotPushesNothingOut | src/admin/backup.rs:398-409 | The retention after a pre-restore snapshot expires a backup if and only if the retention before it would have. |
| Retention.KeptCandidateStays | src/admin/backup.rs:665-671 | A candidate that an earlier retention kept survives the one of the restore's own snapshot unless the count was lowered in between. |
| Retention.UploadedCandidateCanGo | src/admin/backup.rs:665-671 | A concrete run: two backups are kept, the count is lowered to one, and the retention of the restore's own snapshot expires the uploaded candidate. |
| Workloads.WorkloadController.ApplyAction | src/admin/workloads.rs:335-369 | After an action the workload is settled: running, stopped, or failed with its error, as the result says, with its intent and the other workload untouched; the runtime was asked for exactly the action, or, when the stop of a restart failed, for the stop alone. |
| Workloads.WorkloadController.ReconcileComponent | src/admin/workloads.rs:311-333 | Success means the runtime runs exactly when it is wanted; it is asked for nothing it does already. |
| Workloads.WorkloadController.Transition | src/admin/workloads.rs:223-244 | The intent of the selected workloads is stored before any is acted on; a refused or unpersisted transition changes nothing and asks nothing; success settles all of them by the action, one after the other. |
| Workloads.WorkloadController.QuiesceForMaintenance | src/admin/workloads.rs:258-278 | Success means neither workload runs, and exactly those that ran were stopped; after a failed stop exactly what had been stopped is started again, each is as it was, or was started again, or has failed, and the intent is never touched. |
| Workloads.WorkloadController.RestartFromPersisted | src/admin/workloads.rs:422-435 | Success means intent and runtimes follow the database that is live now, by exactly the starts and stops that takes. |
| Workloads.WorkloadController.QuiesceAgain | src/admin/workloads.rs:438-447 | Success means neither workload runs, and only those that ran were stopped. |
| Workloads.BoundError | src/admin/workloads.rs:520-529 | An error is stored as its longest beginning of whole characters within 512 bytes of UTF-8. |

## Left out

- Service.RemindiService.Call: a database that is busy, under maintenance or failing makes a call return
  an error without effect; those errors are not modelled. Nor are the contents of event details.
- Request hashing, signed cursors and stored JSON are taken as lossless and injective.
- The integer widths of columns: versions, counters and seconds are unbounded in the store; only the lease
  version carries its limit.
- The years outside 0 to 9999, leap seconds, lower-case or other separators in RFC 3339 input, and the
  calendar arithmetic that turns an instant into a date: dates enter as components.
- SQLite itself: side files, pragmas, busy handling, query plans, migrations; a write transaction is one
  step, and a database file is one value replaced by an atomic rename.
- Durability of a rename before its directory was synced: a rename counts as durable at once.
- The scheduler query compares Julian days in floating point; the model compares exactly. The order of a
  batch is arbitrary in the model, which makes the results about polls stronger.
- SchedulerLoop.Scheduler.PollOnce: adapters run one after the other, and an adapter is any function that
  returns one of four statuses; others write between the query and the first commit, not between two
  commits of one poll; a commit does not fail.
- SchedulerLoop.Scheduler.RunAcquired: the loop is fed a finite list of rounds, whose end counts as a
  cancellation; an endless run is the limit of such lists.
- One clock reading stands for all events of one commit.
- The listing, the single read and the history query as methods: the listing is a relation between tables
  and pages, and the history query pages over an append-only sequence, which would add easy members only.
- Backup upload, manifests, publication, registration and reconciliation: in a restore they are activity
  of others that adds files under new names and transactions to the live database.
- Verification of a database file is an arbitrary success or failure; what its invariant query counts is
  proved to be zero for every run of the store.
- Restore.RestoreManager.RestoreBackup: looking the backup up is an argument; a death of the process
  inside the workload controller coincides with one beside it, since only the disk survives.
- Workloads: a runtime that exits on its own, the status query, and process shutdown.
- Authentication, sessions, HTTP and MCP transport, views, settings and adapter configuration.
