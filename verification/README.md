# Checklists: a verified model

The checklist server keeps shared checklists in PostgreSQL. A checklist is open, awaits
validation, or is complete; people check items, an approver approves or rejects, the creator
may override, users claim checklists and are suspended. Every change goes through one
transaction that loads the checklist, calls one domain method, saves the result and appends
the events the method reports to an audit log.

This project models that server in Dafny 4.11 and proves what it relies on, for every input
and every run, and, where requests race, for every interleaving or with the exact condition
an interleaving has to meet:

* who gets through with which request, what it leaves of every item, and that every check mark
  goes back to someone who had the right to set it (`Requests`, `CheckAuthors`, `Answers`);
* what every request keeps of a checklist, and that the audit log alone tells its whole
  story (`LifecycleLaw`, `Replay`, `StoredLaw`, `Runs`, `RunLaws`);
* that no tenant can tell what another one does (`Tenants`);
* that saving and loading round-trip, whatever order a map is walked in (`ItemStore`, `Store`);
* that row locks make concurrent transactions equivalent to a serial run in commit order, and
  where those belong that committed without having matched anything (`LockRefinement`,
  `CommitOrder`); that nobody is ever stuck (`LockProgress`); and who wins a race of claims, one after the other or interleaved
  (`ClaimRace`, `ClaimInterleavings`);
* the approval protocol, the progress of checking, and whom a request notifies
  (`Approval`, `ApprovalRuns`, `Progress`, `Notices`);
* exactly which reorderings are harmless (`Reordering`, `RunLaws`);
* bounds in time and number: the fixed-window limiter with requests in flight, sliding
  sessions and their sweep, with racing requests and without, and the email outbox
  (`LimiterBounds`, `LimiterSuccess`, `SessionRaces`, `SessionAnswers`, `SessionFates`, `SessionRenewals`,
  `RenewalCounts`, `RenewalBounds`, `SessionRuns`, `Deliveries`, `OutboxFairness`);
* that the template index and the checklist list show exactly what they summarize
  (`TemplateIndex`, `ListQuery`).

## How it is organised

What the source does by changing state step by step is a class or a loop here too:
`Checklist.dfy` (the domain object), `Store.dfy` (the checklist tables), `Limiter.dfy`,
`Sessions.dfy`, `Outbox.dfy` and `Templates.dfy`. Each method is proved equal to a function of
the state before it (`ChecklistSpec`, `Database`, and functions in the same file), and the
theorems are proved about those functions. `Domain`, `Finite` and `Query` hold the data, a
little counting, and ORDER BY as the unique sorted listing of a set.

`dafny verify dfyconfig.toml` checks everything.

## What the model takes as given

* Times are integers on one clock, for sessions in the microseconds that a TIMESTAMPTZ column
  keeps; each call reads the clock once, as a parameter. The source's clock is finer, so a
  stored expiry can lie up to a microsecond before the one that was computed.
  `RecordFailure` reads it twice in a row in the source (internal/auth/auth.go:268-269).
* Sends, lookups, tokens and the users' activity are parameters or arbitrary values.
* A query with no unique order gets a tie-break by id: item positions (which the lifecycle
  keeps distinct) and the ids an UPDATE returns. Text sorts by code point.
* A SQL statement acts at once; a transaction that fails leaves the tables as they were.
* The group-membership trigger is modelled (`Database.TriggerAllows`); its exception is an
  error of the transaction, also of a Save and of a suspension when a membership has lapsed.
* The next item id is a counter that is never wound back.

## Where the code and its documentation differ

* docs/openapi.yaml:409 says a reorder with duplicate ids is refused. The code checks length
  and membership only (internal/domain/checklist.go:248-262), so it accepts such an order and
  loses an item without logging it. The model follows the code:
  `Reordering.RepeatedIdLosesAnItem` is an input, and
  `RunLaws.ReorderIsSafeExactlyWithoutDuplicates` says that a reorder keeps the promises if
  and only if its order has no duplicates. Theorems over runs are stated for such orders.
* internal/domain/ports.go:84-86 says a session has a fixed expiry; internal/auth/auth.go:20-27
  and 116-123 renew it. The model follows the code.

## What only some interleavings keep

* A suspension whose UPDATEs match nothing takes no lock, so a claim by the suspended user can
  commit before it does, and the user then holds the checklist although suspended:
  `LockRefinement.SuspendedUserHolds`. Put at its last UPDATE, such a suspension always has its
  place in the serial order (`CommitOrder.EveryCommitHasItsPlace`); at its commit exactly when
  it still fits there (`CommitOrder.CommitOrderIsSerialExactlyWhenMissedFit`).
* Resolving a user reads the session and may refresh it in a second statement
  (internal/auth/auth.go:107 and 118). A sweep in between takes the session away
  (`SessionRenewals.SweepInBetween`), a refresh that was on its way revives a session already
  rejected (`AcceptedAgain`), and one that is overtaken lowers the expiry (`OvertakenRefresh`).
  The exact conditions are in `SessionFates`, `SessionRenewals` and `RenewalBounds`; without
  overlap, as `SessionRuns` has it, all of them hold.

## Model

| member | source | states |
|---|---|---|
| ChecklistObject.Checklist.AllItemsChecked | internal/domain/checklist.go:112-122 | the loop answers whether there is an item and every item is checked |
| ChecklistObject.Checklist.ItemIndex | internal/domain/checklist.go:81-88 | the loop finds the first index holding the id, or reports that none does |
| ChecklistObject.Checklist.VisibleTo | internal/domain/checklist.go:96-110 | the branches decide exactly: not hidden, or one of its people, or unclaimed and in the group |
| ChecklistObject.Checklist.CheckItem | internal/domain/checklist.go:33-77 | whole new state, events and error order of checking an item; a refusal changes nothing |
| ChecklistObject.Checklist.Approve | internal/domain/checklist.go:128-140 | only the approver of a validating checklist completes it, with the approved and completed events |
| ChecklistObject.Checklist.Reject | internal/domain/checklist.go:147-177 | the loop over indices equals one simultaneous kick-back of the set of indices, whatever repeats |
| ChecklistObject.Checklist.ForceReopen | internal/domain/checklist.go:185-197 | afterwards open; one reopened event naming the previous status, none if it was open |
| ChecklistObject.Checklist.AddItem | internal/domain/checklist.go:204-218 | creator only, at any status: item appended at the next position, reopened, both events |
| ChecklistObject.Checklist.RemoveItem | internal/domain/checklist.go:224-237 | creator only: item gone, the rest keep their order and are renumbered without gaps |
| ChecklistObject.Checklist.ReorderItems | internal/domain/checklist.go:244-270 | creator only: refused for a wrong length or an unknown id, else items follow the order given |
| ChecklistObject.Checklist.SetItemChecked | internal/domain/checklist.go:278-298 | creator only: the check state is set and the checklist is open, never advanced |
| ChecklistObject.Checklist.Mutate | internal/api/checklists.go:177-352 | the handlers' closures: ids are resolved first (unknown ones refuse), then one domain method |
| ChecklistSpec.ResolveIndices | internal/api/checklists.go:234-244 | ids resolve to indices exactly when every id is found, each to its first index |
| Requests.WhoMayCheck | internal/domain/checklist.go:33-45 | for every checklist, item and user: an item is checked exactly while open and by its responsible user, the override if set and else the assignee; each of the three refusals has its exact reason |
| Requests.AcceptedExactly | internal/api/checklists.go:177-352 | each of the seven requests, named by ids: it goes through if and only if status, user and items are as required, and every error is told for exactly its reason, an unknown item first |
| Requests.ResultItemByItem | internal/domain/checklist.go:47-298 | field by field and item by item what an accepted request leaves: who and when of a check, what a rejection hands back, texts and place of an added item, order of the rest after a removal; the status; the rest of the header stays |
| Requests.EventsTellTheStory | internal/domain/checklist.go:52-298 | the events of each request one by one: tenant, checklist, actor, item, action and detail |
| CheckAuthors.StepChecks | internal/domain/checklist.go:33-58 | of all transactions only a check by the responsible user of an open checklist, or the creator's override, makes someone the checker of an item |
| CheckAuthors.CheckerHadTheRight | internal/domain/checklist.go:33-58 | in any run whoever became the checker of an item, also of one removed since, checked it rightfully in a transaction that went through |
| LifecycleLaw.ApplyKeepsLifecycle | internal/domain/checklist.go:33-298 | every duplicate-free request keeps: not open implies non-empty and all checked; check fields agree; ids distinct; item i at position i |
| LifecycleLaw.ApplyKeepsItems | internal/domain/checklist.go:33-298 | item lists stay well formed under each of the seven requests |
| LifecycleLaw.ApplyKeepsHeader | internal/domain/checklist.go:33-298 | no domain method changes anything of the header but the status |
| Reordering.ReorderIsPermutation | internal/domain/checklist.go:244-266 | by pigeonhole: a duplicate-free order is accepted from the creator exactly when it is a permutation of the ids; an accepted order misses an item exactly when it repeats one |
| Reordering.ReorderKeepsContents | internal/domain/checklist.go:252-266 | the result follows the order and keeps the multiset of item contents: none lost, none invented |
| Reordering.RepeatedIdLosesAnItem | internal/domain/checklist.go:248-262 | the check alone is not enough: an accepted order that drops an item |
| Approval.WhoCompletes | internal/domain/checklist.go:59-73 | with an approver only its approval completes; without, only a responsible user's check |
| Approval.WhoChangesItemsWhileValidating | internal/domain/checklist.go:147-298 | while validating, items change only by the approver's rejection or a creator override |
| Approval.OnlyTheCreatorUnfreezes | internal/domain/checklist.go:128-298 | complete, or validating with its approver cleared: only a creator override is accepted, and it reopens |
| Approval.RejectNamesASet | internal/domain/checklist.go:147-177 | every named item is unchecked and handed to its former checker, all others untouched |
| Approval.RejectIgnoresRepetition | internal/api/checklists.go:234-244 | repeating or permuting the named ids changes neither result nor error |
| Progress.CheckRunTracksTouched | internal/domain/checklist.go:33-77 | after any sequence of calls that leaves something unchecked, exactly the touched items are checked; open is left with the call that touches the last one |
| Progress.LeavesOpenExactlyOnTime | internal/domain/checklist.go:33-77 | checking the unchecked items once each leaves open after exactly max(1, number unchecked) calls |
| Progress.FewerCallsStayOpen | internal/domain/checklist.go:112-122 | no shorter sequence of calls, with repetitions or not, leaves open |
| ItemStore.ReadItems | internal/store/postgres/checklists.go:99-118 | Get lists exactly the live rows of the checklist, in position order |
| ItemStore.SaveEachWritesEach | internal/store/postgres/checklists.go:210-235 | after the loop each item is in its row, new ones under fresh distinct ids, and no other row changed or appeared |
| ItemStore.SaveGetRoundTrip | internal/store/postgres/checklists.go:183-246 | Save then Get gives the same items in the same order; exactly the dropped ids are soft-deleted; all other rows stay |
| ItemStore.RepresentedIsRead | internal/store/postgres/checklists.go:86-119 | rows that represent an item list are read back as that list |
| ItemStore.ReadDependsOnOwnRows | internal/store/postgres/checklists.go:99-101 | rows of other checklists do not affect what Get reads |
| Replay.EventsTellAll | internal/domain/checklist.go:33-298 | replaying a request's events reproduces its effect on status, every checker and the presence of every item, and on nothing else |
| Replay.ReplayConcat | internal/store/postgres/events.go:19-39 | the fold over an extended log continues the fold over the log |
| StoredLaw.ApplyIsSavable | internal/store/postgres/checklists.go:173-183 | any one request on a stored checklist hands Save a list it can reconcile |
| StoredLaw.ItemComesFrom | internal/domain/checklist.go:47-57 | every item of a result comes from one before; a new checker has an item_checked event, a new override was the checker |
| StoredLaw.MutateKeepsStored | internal/store/postgres/checklists.go:183-264 | one request keeps: rows represent a lifecycle-keeping checklist, log replays to rows, every checker and override is backed by an event |
| Database.Returning | internal/store/postgres/checklists.go:348-368 | the ids an UPDATE returns: each matching row once |
| Database.MutateKeepsDbOk | internal/api/checklists.go:359-381 | a request keeps ids keyed and ahead of the sequence, items and events on existing checklists |
| Store.Store.Append | internal/store/postgres/events.go:19-39 | the log is append-only: the events go to its end in order |
| Store.Store.Get | internal/store/postgres/checklists.go:86-119 | fails exactly for a checklist the tenant does not have; else a fresh object with the row and its items |
| Store.Store.Claim | internal/store/postgres/checklists.go:127-171 | the compare-and-swap with its event, the lost claim with its notification, the errors: all tables equal the function Claim |
| Store.Store.SaveItem | internal/store/postgres/checklists.go:213-234 | INSERT for a new item, then UPDATE by id, as one step of the reconciliation |
| Store.Store.SaveItemLoop | internal/store/postgres/checklists.go:210-235 | the in-place loop writes every item, fills in new ids, and collects exactly the kept ids |
| Store.Store.SoftDeleteAbsent | internal/store/postgres/checklists.go:237-246 | walking the map in any order soft-deletes exactly the ids not kept |
| Store.Store.Save | internal/store/postgres/checklists.go:183-264 | for every walk order of the id map: status, rows, events and notifications are those of the function Save |
| Store.Store.Notify | internal/store/postgres/checklists.go:254-262 | one notification for each event that implies one, in event order |
| Store.Store.WithChecklistMutation | internal/api/checklists.go:359-381 | Get, domain method, Save in one transaction equal one atomic step; any error rolls every table back |
| Store.UpdateApprovers | internal/store/postgres/checklists.go:348-351 | row by row, the trigger before each write: exactly the rows that have the user lose their approver and are reported in the order of the scan; refused exactly if the trigger refuses some row |
| Store.Store.ClearApprover | internal/store/postgres/checklists.go:348-368 | the scan equals one simultaneous update of the matching rows, each id reported once; one refused row undoes them all |
| Store.Store.ClearAssignee | internal/store/postgres/checklists.go:379-399 | the row-by-row scan equals one simultaneous update of the rows the user holds, each id reported once; never refused |
| Store.Store.ClearUserAssignments | internal/store/postgres/checklists.go:345-414 | both UPDATEs and one event per cleared field; a refused UPDATE rolls back |
| Store.Store.Create | internal/store/postgres/checklists.go:26-76 | the row, one item row per template line and the created event, or no trace |
| Answers.CreationIsAnswered | internal/store/postgres/checklists.go:26-52 | a creation goes through exactly with a template of the tenant and, in a group, a member as assignee; else which error; a refusal changes nothing |
| Answers.CreatedRow | internal/store/postgres/checklists.go:36-55 | the new row field by field: the caller's tenant, template, creator, group, assignee, approver and visibility, the template's name if none is given, open, created now, under the id answered; no other row changes |
| Answers.RequestIsAnswered | internal/api/checklists.go:359-381 | a request to the database goes through if and only if the domain accepts it on what is stored and the holder still belongs to the group; every error for exactly its reason, with the tables left alone |
| Answers.AnswerIsWhatIsStored | internal/api/checklists.go:354-381 | the checklist a request is answered with is what the next reader finds, new ids included |
| Answers.ClaimIsAnswered | internal/store/postgres/checklists.go:127-171 | a claim wins, loses or fails exactly so, and what each of these writes |
| Answers.SuspensionIsAnswered | internal/store/postgres/checklists.go:345-414 | a suspension is refused exactly if a row the user approves has a holder who left the group; else exactly the user's own fields in the tenant are cleared |
| Answers.SuspendedHoldsNothing | internal/store/postgres/checklists.go:342-345 | afterwards the user approves and holds nothing in the tenant |
| Answers.SuspensionIsLogged | internal/store/postgres/checklists.go:361-413 | an event for each cleared field, and no others |
| Answers.HoldersBelongThroughout | internal/store/postgres/migrations/00001_init.sql:158-176 | as long as nobody leaves a group every reachable holder of a group's checklist is a member, and the trigger refuses no request and no suspension |
| Tenants.LogIsFiledByTenant | internal/store/postgres/events.go:19-39 | in every reachable state each line of the log carries the tenant of the checklist it is about |
| Tenants.OtherTenantsAreInvisible | internal/store/postgres/checklists.go:78-97 | whatever other tenants do in any run, a tenant's rows, items, log and notifications stay what they were |
| Tenants.OtherTenantsAreNotListed | internal/store/postgres/checklists.go:303-316 | and so do its lists |
| Runs.CreateCopiesTemplate | internal/store/postgres/checklists.go:38-68 | a new checklist reads back as the template's lines in order, unchecked, under ids no row had |
| Runs.MutateEffect | internal/api/checklists.go:361-375 | a committed request changes only this row's status, the item rows by Save, and appends only own events |
| Runs.MutateKeepsOthers | internal/store/postgres/checklists.go:183-264 | a request on one checklist leaves every other checklist's row, items and replayed log as they were |
| Runs.ClaimKeepsStored | internal/store/postgres/checklists.go:127-146 | a claim keeps log and row in agreement |
| Runs.ClearKeepsStored | internal/store/postgres/checklists.go:345-414 | a suspension keeps log and rows in agreement on every checklist |
| Runs.CreateStoresNew | internal/store/postgres/checklists.go:26-76 | a creation adds exactly one checklist, with rows and log in agreement |
| Runs.StepKeepsWorld | internal/store/postgres/checklists.go:26-414 | every transaction, committed or rolled back, keeps the promise for every checklist |
| Runs.RunKeepsWorld | internal/store/postgres/checklists.go:26-414 | so does every run of transactions |
| RunLaws.EveryRunIsFaithful | internal/store/postgres/events.go:11-39 | in every reachable state each checklist keeps the lifecycle and the log replays to status, people, every checker and every soft deletion; overrides name earlier checkers |
| RunLaws.ReorderIsSafeExactlyWithoutDuplicates | internal/domain/checklist.go:244-270 | from any reachable state an accepted reorder keeps the lifecycle, and keeps log and rows in agreement, if and only if its order has no duplicates |
| RunLaws.GapInPositions | internal/domain/checklist.go:257-265 | after a saved order with duplicates the positions read back have a gap |
| RunLaws.LostItemIsNotLogged | internal/domain/checklist.go:266-269 | the item it drops is soft-deleted, and no event says so |
| ApprovalRuns.StepOnChecklist | internal/store/postgres/checklists.go:26-414 | each transaction of the database carries out a request on the checklist or changes its people only |
| ApprovalRuns.AwaitingApprovalIsFrozen | internal/domain/checklist.go:128-298 | over any run without the creator's override or the approver's rejection a validating checklist keeps its items, and is complete only if an approval by that approver went through and completed it; a cleared approver leaves it as it is |
| ApprovalRuns.CompletionHasAnAuthor | internal/domain/checklist.go:59-73 | in any run that completes a checklist one transaction took it to complete and went through: with an approver set its approval of the validating checklist, without one a responsible user's last check of the open one |
| Notices.RequestNotifies | internal/store/postgres/checklists.go:254-262 | a request leaves at most one notice, told from the status change alone: submission to the approver, rejection or foreign reopening to the holder |
| Notices.ApplyNotifies | internal/store/postgres/checklists.go:416-458 | the events of a request imply exactly that notice, for rejections of any length |
| ClaimRace.EveryAnswerIsRecorded | internal/store/postgres/checklists.go:127-171 | for arbitrary expectations: claimed events plus claim_lost notifications equals the claims answered, wins equals claimed events, errors leave no trace |
| ClaimRace.OneWinner | internal/store/postgres/checklists.go:127-171 | any number of claims on an unclaimed checklist in any order: the first allowed user wins, all after are notified naming the winner |
| ClaimRace.OneWinnerAmongAll | cmd/stresstest/main.go:203-232 | N claims without a group: one winner, one event, N - 1 notifications |
| ClaimInterleavings.InterleavedClaimsHaveOneWinner | cmd/stresstest/main.go:140-216 | any number of concurrent claims on an unclaimed checklist, in any interleaving of their statements: once one is answered exactly one has won, the row names its user, and the log has its event and no other |
| LockRefinement.ActKeepsSystem | internal/store/postgres/db.go:80-95 | every statement of every transaction keeps: the lock holder's reads and writes are current, the history is what is committed |
| LockRefinement.InterleavingsAreSerial | internal/store/postgres/checklists.go:78-119 | any interleaving ends with the row, item rows and log of the committed transactions that wrote, run one by one in commit order; each is there once, aborted ones leave no trace |
| LockRefinement.InterleavingsKeepStored | internal/api/checklists.go:354-381 | so every interleaving keeps the lifecycle and the faithful log |
| LockRefinement.MissedFits | internal/store/postgres/checklists.go:379-381 | at any moment a transaction whose UPDATEs matched nothing would again do nothing if and only if it still fits: a claim its expectation, a suspension that the user does not hold the checklist |
| LockRefinement.SuspendedUserHolds | internal/store/postgres/checklists.go:345-414 | an interleaving in which a suspension no longer fits at its commit |
| LockProgress.AloneItFinishes | internal/api/checklists.go:359-381 | from any state with a free lock a transaction's own statements commit exactly what it does in one step, if and only if it has an effect: a request when the domain accepts it, a claim when its expectation holds, a suspension when the checklist has the user |
| LockProgress.NeverStuck | internal/store/postgres/checklists.go:78-119 | in every state an interleaving reaches, whoever holds the lock or finds it free gets on with its next statement; a request is rolled back only if the domain refuses it on what is committed |
| LockProgress.EveryoneCanFinish | internal/store/postgres/db.go:80-95 | no deadlock: every run can go on until all transactions have finished, where claims and suspensions commit and so does every request not refused when its turn comes |
| CommitOrder.CommitOrderIsSerialExactlyWhenMissedFit | internal/store/postgres/checklists.go:127-171 | at every point of every run all that committed, run one by one in commit order, gives what is committed, if and only if every losing claim and every suspension that matched nothing still fits at its commit |
| CommitOrder.EveryCommitHasItsPlace | internal/store/postgres/checklists.go:345-414 | unconditionally: with those at their last UPDATE and writers at their commit, the committed transactions, each exactly once and nobody else, run one by one give the row, the item rows and the log |
| LockRefinement.SerialIsMutate | internal/api/checklists.go:359-381 | the serial step of a request is the database transaction seen from one checklist |
| LockRefinement.SerialIsClaim | internal/api/checklists.go:160-164 | likewise for a claim |
| LockRefinement.SerialIsClear | internal/store/postgres/checklists.go:345-414 | likewise for a suspension |
| Outbox.OldestPending | internal/store/postgres/notifications.go:101-124 | the batch is exactly the pending notifications with fewer than the limit before them, oldest first |
| Outbox.Repo.ListPendingEmail | internal/store/postgres/notifications.go:101-124 | the scan from the oldest row, stopped at the limit, collects exactly the pending notifications with fewer than the limit before them |
| Outbox.Repo.DeliverOne | cmd/checklists-server/email_delivery.go:65-107 | one turn: a failed lookup or a failed mark changes nothing; then the skip conditions in order, then sent, or one more attempt with its error, failed for good at the tenth |
| Outbox.Repo.DeliverPendingEmails | cmd/checklists-server/email_delivery.go:51-63 | the loop gives every notification of the batch one turn and no other; a failing list query gives none |
| Deliveries.TickExactly | cmd/checklists-server/email_delivery.go:65-107 | what a tick makes of each notification: sent, skipped, tried once more with its error or given up at the tenth failure, and otherwise left as it is |
| Deliveries.MailedExactly | cmd/checklists-server/email_delivery.go:51-107 | over any ticks: mailed if and only if some tick that gave it its turn found its recipient active with an address and its tenant with a mail server, and the send worked; skipped if and only if one found one of these missing |
| Deliveries.DoneIsDone | cmd/checklists-server/email_delivery.go:51-63 | a notification that was sent, skipped or given up is never touched again |
| OutboxFairness.FairnessBound | cmd/checklists-server/email_delivery.go:15-25 | with k older pending ones a notification is sent, failed or skipped once 10 * (k / 50 + 1) ticks have listed, looked up and marked their batch; whatever sends fail, whatever arrives, and whatever goes wrong in other ticks |
| OutboxFairness.FairnessBoundIsReached | cmd/checklists-server/email_delivery.go:15-25 | for every k a run in which one such tick fewer leaves it pending |
| OutboxFairness.RoundMakesProgress | cmd/checklists-server/email_delivery.go:51-107 | per tick: nothing becomes pending again or moves back, and a pending one that had its turn has used an attempt |
| OutboxFairness.StuckBatchStarvesTheRest | cmd/checklists-server/email_delivery.go:58-74 | what the bound rests on: while lookups or marks of the first fifty fail nobody behind them is ever tried |
| Limiter.LoginLimiter.Allow | internal/auth/auth.go:247-260 | allowed exactly with no window, one that is over, or a count below the maximum; only a window that is over is dropped |
| Limiter.LoginLimiter.RecordFailure | internal/auth/auth.go:263-273 | counts in the running window, or starts one at now with count 1 |
| LimiterBounds.EventsKeepWindows | internal/auth/auth.go:247-273 | with at most p requests of a key in flight recorded attempts fall into windows that start more than a window apart, at most max - 1 + p in each |
| LimiterBounds.SlidingBound | internal/auth/auth.go:247-273 | with at most p in flight, other keys in any order, any closed interval as long as the window holds at most 2 * (max - 1 + p) - 1 recorded attempts of a key |
| LimiterBounds.SerialSlidingBound | internal/api/password_reset.go:45-50 | one request of the key after the other: at most 2 * max - 1 |
| LimiterBounds.BoundIsReached | internal/auth/auth.go:247-273 | for all limits and every p some run within the rules records exactly that many |
| LimiterSuccess.BoundedDespiteSuccessExactly | internal/auth/auth.go:247-281 | with successes in between there is any bound on the recorded attempts if and only if the key has one request in flight at a time and a maximum of at most one, and then it is one |
| LimiterSuccess.AnyNumberRecorded | internal/auth/auth.go:275-281 | otherwise, for every n, a run that records n attempts at one moment |
| LimiterStatements.Execute | internal/api/handlers.go:158-187 | the limiter's methods, called by requests that ask, fail or succeed, change it as the events of these bounds do |
| LimiterBounds.ConcurrentBound | internal/api/handlers.go:158-187 | with at most p requests of a key in flight, count plus in-flight never exceeds max - 1 + p |
| LimiterBounds.KeysAreIndependent | internal/auth/auth.go:229-234 | all other keys' events can be left out of any interleaving |
| LimiterBounds.RefusalsDoNotProlong | internal/auth/auth.go:251-259 | a lockout ends at the same moment however often it is asked |
| Sessions.SessionRepo.LogIn | internal/auth/auth.go:65-92 | which of unknown user, inactive user and wrong password is told, and that these change nothing; else the session is stored |
| Sessions.SessionRepo.StartSession | internal/auth/auth.go:77-91 | a login stores a session of full lifetime under a new token |
| Sessions.SessionRepo.ResolveUser | internal/auth/auth.go:106-136 | rejects a missing or expired session, renews in the second half of its life, then looks at the user: table and answer equal CurrentUser |
| SessionStatements.Execute | internal/store/postgres/sessions.go:18-73 | the repository's statements, among them the two halves of resolving a user, change the table and answer as the racing machine does |
| SessionAnswers.AcceptedExactly | internal/auth/auth.go:106-136 | in every state of every race: accepted if and only if a live session was found whose user can be read and is active; the answer names that user and the expiry stored or just written |
| SessionAnswers.SuspendedUserIsRefused | internal/auth/auth.go:125-134 | a live session of an inactive user is answered so, of an unreadable one likewise, also when it has just been renewed |
| SessionAnswers.NotFoundExactly | internal/auth/auth.go:107-114 | no session is reported exactly when there is no live one |
| SessionAnswers.CurrentUserExactly | internal/auth/auth.go:106-136 | the same for a request whose statements follow one another, and what it leaves in the table |
| SessionAnswers.LoginExactly | internal/auth/auth.go:77-91 | a login is refused exactly for a token that is taken; else it stores the user's session of full lifetime and touches no other |
| SessionAnswers.OnlyExpiryChanges | internal/store/postgres/sessions.go:48-57 | in every race a stored session keeps its user and creation; its expiry changes by its own refreshes only |
| SessionAnswers.AcceptedUserLoggedIn | internal/auth/auth.go:65-136 | in every interleaving an accepted request names a user who logged in under this very token, and whose session no logout and no reset had ended when it was read |
| SessionAnswers.ResetEndsSessions | internal/store/postgres/sessions.go:67-73 | after a reset no request is let in as the user until the next login, whatever was on its way |
| SessionAnswers.LogoutEndsSession | internal/store/postgres/sessions.go:40-46 | after a logout nobody is let in with the token, in any interleaving |
| SessionAnswers.SweepDeletesExactlyTheExpired | internal/store/postgres/sessions.go:59-65 | a sweep deletes all sessions that are over and no others |
| SessionFates.DeadForEverExactlyWithoutRefreshDue | internal/auth/auth.go:107-121 | an expired or missing session is rejected in every interleaving that follows if and only if no refresh of it that reaches beyond now is on its way |
| SessionFates.IdleSessionIsRejected | internal/auth/auth.go:107-121 | left unused for longer than its lifetime, whatever else runs, a session is rejected for ever in every interleaving |
| SessionFates.RefreshNeverRevives | internal/store/postgres/sessions.go:40-57 | a refresh racing with logout, reset or sweep never brings a deleted session back |
| SessionFates.SweepIsUnnoticedExactlyWhenHarmless | internal/store/postgres/sessions.go:59-65 | every continuation is answered as without the sweep if and only if it deleted no session with a refresh on its way that reaches beyond now |
| SessionFates.HarmlessSweepsAreUnnoticed | cmd/checklists-server/main.go:203-228 | any number of such sweeps at any points of any interleaving change no answer |
| SessionRenewals.UsedSessionOutlivesRaces | internal/auth/auth.go:20-27 | used at least every gap, with refreshes that take at most delay, a session is never rejected in any interleaving as long as gap + delay is at most half its lifetime |
| SessionRenewals.LoggedInSessionOutlivesRaces | internal/auth/auth.go:65-136 | so from login on |
| SessionRenewals.SessionsInUseSurviveExactlyWithinHalfALifetime | internal/auth/auth.go:107-121 | that half lifetime is exact for every gap and delay: no interleaving rejects a session in use if and only if gap + delay is within it, also when only sessions used ever since their login count |
| SessionRenewals.ExpiryNeverLoweredExactlyInReadOrder | internal/auth/auth.go:107-121 | in any interleaving the stored expiry never goes down if and only if refreshes are written in the order of their reads |
| SessionRenewals.RenewalsApartExactlyWhenOneAtATime | internal/auth/auth.go:24-27 | in any interleaving renewals are more than half a lifetime apart if and only if no two overlap |
| RenewalCounts.OverlappingRenewalsAreBounded | internal/auth/auth.go:24-27 | with at most p requests renewing a session at a time, refreshes in read order, every p + 1 renewals in a row span more than half a lifetime, so n * p + 1 of them take at least n half lifetimes |
| RenewalBounds.RenewalsAreSpacedExactly | internal/auth/auth.go:116-121 | with at most p at a time and refreshes in any order, every n + 1 renewals in a row span more than half a lifetime in every interleaving if and only if n >= p * (p + 1) / 2 |
| RenewalBounds.ReadOrderIsNeededExactlyFromTwo | internal/auth/auth.go:116-121 | so p of them suffice without the read order for p = 1 and for no other p |
| RenewalBounds.MostRenewals | internal/auth/auth.go:107-121 | for every p a run in which p * (p + 1) / 2 renewals start at one moment |
| SessionRenewals.SweepInBetween | cmd/checklists-server/main.go:217 | a sweep between read and refresh turns a later acceptance into a rejection |
| SessionRenewals.AcceptedAgain | internal/auth/auth.go:107-121 | a session rejected as expired is accepted again after a refresh that was on its way |
| SessionRenewals.OvertakenRefresh | internal/auth/auth.go:107-121 | two refreshes written in the other order lower the expiry, one unit of time apart |
| SessionRuns.RunsAreRaces | internal/api/middleware.go:64 | runs of requests one at a time are the races in which the two statements of each request are adjacent: same tables, same answers |
| SessionRuns.UsedSessionLives | internal/auth/auth.go:20-27 | one request at a time: used at least every half lifetime, a session never expires, with or without sweeps |
| SessionRuns.LoggedInSessionIsAccepted | internal/auth/auth.go:65-136 | one request at a time: from login on, each such use by an active user is accepted |
| SessionRuns.IdleSessionIsDead | internal/auth/auth.go:107-114 | one request at a time: idle for longer than its lifetime, while others go on, it is rejected for ever |
| SessionRuns.DeadStaysDead | internal/auth/auth.go:107-114 | one request at a time: once gone or expired a token is never accepted again |
| SessionRuns.RenewalsAreApart | internal/auth/auth.go:116-123 | one request at a time: the stored expiry never decreases and renewals are more than half a lifetime apart |
| SessionRuns.RenewalWritesAreBounded | internal/auth/auth.go:24-27 | so the number of renewal writes is bounded by the time they span |
| SessionRuns.SweepIsUnobservable | internal/store/postgres/sessions.go:59-65 | one request at a time: inserting sweeps at any points of any run changes no answer |
| Templates.Latest | internal/store/postgres/templates.go:65-70 | the highest version of the tenant's name, none exactly if there is none |
| Templates.TemplateRepo.CreateVersion | internal/store/postgres/templates.go:27-63 | the next version after the highest, whatever the caller had in mind; items renumbered and inserted in order |
| Templates.NumberedItems | internal/store/postgres/templates.go:42-61 | a version's lines keep texts and order, are numbered from 0 and get ids of their own |
| Templates.GroupTemplatesByName | internal/web/templates_ui.go:46-59 | the index-building loop gives, per name in order of first appearance, its templates and the last of them |
| TemplateIndex.VersionsAreContiguous | internal/store/postgres/templates.go:22-40 | after any run of creations the versions of a tenant and name are exactly 1 to n, each once |
| TemplateIndex.GroupsPartitionTheList | internal/web/templates_ui.go:42-59 | the groups' versions one after the other are the whole sorted list |
| TemplateIndex.ListIsInOrder | internal/store/postgres/templates.go:94-97 | the list is in the order of names, and versions of one name in the order of their numbers |
| TemplateIndex.IndexAgreesWithStore | internal/web/templates_ui.go:42-59 | one group per stored name, and each group's latest is what the store returns as the latest |
| ListQuery.List | internal/store/postgres/checklists.go:282-340 | the rows listed are exactly those selected, each once, sorted with the id tie-break |
| ListQuery.ListedExactly | internal/store/postgres/checklists.go:303-316 | with the fields written out: the tenant's rows that have the user as creator, approver or holder, or unclaimed in one of the user's groups, with the status asked for and not the excluded one |
| ListQuery.FilteredByStatus | internal/store/postgres/checklists.go:315-316 | of the unfiltered list exactly the rows with the status given and without the excluded one |
| ListQuery.ListedInOrder | internal/store/postgres/checklists.go:294-317 | ascending for "asc", descending for anything else; by name or status text character by character, by creation time for any other column; equal ones by id |
| ListQuery.ShownExactly | internal/domain/checklist.go:90-110 | the read handler shows a checklist to exactly those it concerns, and to everyone unless it is hidden |
| ListQuery.ClaimHidesFromGroup | internal/domain/checklist.go:90-110 | winning a claim takes a hidden checklist out of the sight of the rest of its group |
| ListQuery.ListAgreesWithReading | internal/api/checklists.go:119-136 | unfiltered, it lists every hidden checklist the read handler shows and none it refuses |
| ListQuery.StatusFiltersOnlyRemove | internal/store/postgres/checklists.go:315-316 | status filters strike rows from the unfiltered list and keep the order of the rest |

## Left out

- Store.Store.Get: outside a transaction the row and the items are read by two statements; only the use inside WithTx is modelled.
- Store.Store.Rollback: restoring a snapshot stands for the database's own undo; a panic inside WithTx and a commit that fails are not modelled.
- Store.Store.Save: foreign keys are not modelled, so users, groups and tenants that do not exist are not refused.
- Store.Store.Create: a caller that sets a status of its own is not modelled; the handlers never do.
- Store.Store.Notify: message texts, read_at and wake-ups of waiting pages are not modelled.
- ItemStore.ReadItems: rows with equal positions are read in id order, where SQL promises none; the lifecycle rules such rows out.
- Database.Returning: the ids come in ascending order, where SQL promises none.
- LockRefinement.InterleavingsAreSerial: one checklist at a time, and a Save is one step of the transaction that holds the lock; notifications, those of losing claims too, are outside; what matched nothing is in CommitOrder.
- ClaimInterleavings.InterleavedClaimsHaveOneWinner: a claim the group rule refuses is one that rolls back; the losers' notifications are in ClaimRace.
- LockProgress.EveryoneCanFinish: that a run can go on, not that a scheduler lets it; a claim the group rule refuses is rolled back by its own error.
- Tenants.OtherTenantsAreInvisible: group memberships and templates, which every tenant's tables share here, stay as they are in between.
- SessionAnswers.AcceptedExactly: a failing read of the user and an unknown user are the same answer.
- Outbox.Repo.DeliverOne: the mail itself is a send that works or fails with some error; a second worker is not modelled.
- OutboxFairness.FairnessBound: new notifications sort last; ticks that cannot list, look up or mark their batch do not count, and StuckBatchStarvesTheRest shows why.
- LimiterBounds.SlidingBound: a maximum below one counts as one, since a key without a window is always let through; for keys without successes, LimiterSuccess says when there is a bound with them.
- LimiterSuccess.BoundedDespiteSuccessExactly: for windows of length zero or more; a negative one holds no moment.
- LimiterBounds.BoundIsReached: for windows of at least one unit of time.
- Sessions.SessionRepo.StartSession: the draw of the token comes before it; a repeated token is an error as in the table.
- Sessions.SessionRepo.ResolveUser: both statements of a request with nothing in between; SessionRaces has them apart.
- SessionRuns.UsedSessionLives: one request at a time, as is every row of SessionRuns; the rows of SessionFates and SessionRenewals say what races keep.
- RenewalCounts.OverlappingRenewalsAreBounded: refreshes written in the order of their reads; RenewalBounds has the exact number for refreshes in any order.
- SessionRenewals.SessionsInUseSurviveExactlyWithinHalfALifetime: for gaps of at least one unit of time; with a gap of 0 the clock stands still.
- SessionRuns.SweepIsUnobservable: assumes that no token is drawn twice, as do the rows on sweeps in SessionFates.
- TemplateIndex.VersionsAreContiguous: creations one at a time; of two concurrent first versions of a name the table refuses one, which is not modelled.
- ListQuery.List: text sorts by code point, not by a database collation.
- The web page's claim (internal/web/checklist_detail.go:212-217) runs outside a transaction; no atomicity is claimed for it.
- Confirming a password reset is not one transaction in the source; only its deletion of sessions appears, as one operation.
- HTTP decoding, cookies, CSRF, error mapping, pages and static files: plumbing, or settled by one branch.
- Password hashing, SMTP, CSV import, the notification hub and configuration: library calls and single-function case splits.
