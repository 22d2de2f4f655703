# new-api-pilot: verified models of the durable protocols

This project models the protocols that new-api-pilot keeps in its database and proves what they keep, over every run:
the durable collection queue, the customer and account lifecycle with its remote observations, alert delivery leases,
and the repair, rollup and publication of resource statistics.

Every transaction callback is one atomic step over rows: it commits completely or, when it returns an error, changes
nothing. Runs of the system are arbitrary sequences of such steps by any number of workers. What comes from outside a
step (clocks, request identifiers, which rows other transactions have locked, what a handler or an upstream reports,
whether a configuration fence holds) is a parameter of the step, so every result holds for all of it.

The repository's transactions are methods of classes that update the tables row by row; each is proved against a
function of the old state, and the results are lemmas about histories of those functions.

| file | protocol |
|---|---|
| `CollectionRun.dfy` | one run and its windows: claim, commit, complete, release, recover, heartbeat, fence, derived status |
| `CollectionEffects.dfy` | which windows a claim takes, what an accepted report stores |
| `CollectionHistory.dfy` | any interleaving on one run: status law, conservation, exactly-once resolution, fencing |
| `CollectionBudget.dfy` | wake-ups, retry budget, termination of claiming |
| `CollectionScope.dfy`, `CollectionStore.dfy` | all runs together: contention and mutual exclusion |
| `ClaimScan.dfy`, `CollectionRepository.dfy` | keyset paging; the repository's methods and the claim loop |
| `Materialise.dfy` | crash-safe creation of a run's windows |
| `LockOrder.dfy` | the global lock order and absence of deadlock |
| `Accounts.dfy`, `Lifecycle.dfy`, `LifecycleRepository.dfy` | observations, pauses, archive and restore, disable and enable |
| `AlertDelivery.dfy`, `AlertDeliveryRepository.dfy` | notification leases |
| `AlertEvents.dfy` | the evaluation of alert rules, which enqueues the notifications |
| `ResourceRollup.dfy` | minutes to hours to days |
| `ResourceGap.dfy`, `ResourceDaily.dfy` | gap scan and repair; daily finalisation checks |
| `ResourcePublication.dfy`, `ResourceMaintenance.dfy` | publishing a day while facts change |

`dafny verify dfyconfig.toml` checks the whole project.

## What does not hold

The models follow the code. Where a property one would expect fails, there is a concrete input for which it does, and
the exact condition under which it holds.

- An initial backfill is never woken without work, but not always at its earliest due window: one `MIN` over the retry
  times ignores windows without one. Input: `CollectionBudget.LateWakeExample`, a history of one claim and one commit.
  Condition: `CollectionBudget.WakesAtEarliestExactlyWhen`.
- `ClaimNext` does not always claim the least claimable run: it stops at the first run that fails with any error other
  than "unavailable" or "claim lost". Input: `CollectionRepository.BlockedQueueExample`. Condition:
  `CollectionRepository.ClaimsTheLeastClaimableExactlyWhen` with the guard of `CollectionRepository.BlocksExactly`. That guard
  cannot come from the comparison of configuration versions, because a version bump fails the site's open runs in the same
  transaction (`model/site_fence.go:108-185`). What is left is `siteAllowsTask` and the capability check
  (`model/collection_task.go:1662-1713`, `model/site_run.go:36-92`), as when a required capability is not among the stored
  ones, and an account that is gone, which `DeleteByID` rules out while it has open runs (`model/account.go:744-748`).
- A window row outside the current expectation is never removed and blocks materialisation for ever. Input:
  `Materialise.SettledHourBlocksPublication`. Condition: `Materialise.FinishPassesExactlyWhen`. Overlapping usage runs of a
  site are not created (`model/site_run.go:283-345`), so the hour of this input is settled by something other than a run.
- The automatic completion after a successful rebuild compares the rebuilt range with the pause only, never with the
  completion time. A first backfill that succeeds after the account was archived reopens the account, unasked and with
  hours missing (`Lifecycle.FirstBackfillReopensAnArchivedAccount`); the exact condition is
  `Lifecycle.AutomaticReopeningExactly`.
- The gap recheck compares three columns, so a row with the right counts and outdated readings stays. Input:
  `ResourceGap.OutdatedReadingExample`. Condition: `ResourceGap.RepairRecomputesExactly`.
- The final checks compare the site's hours by number only, so a stray row can stand in for a missing one. Input:
  `ResourceDaily.StrayHourStandsIn`. Condition: `ResourceDaily.ChecksPassExactlyWhen`.
- The daily site transaction checks the cursor but not the revision: with overlapping workers a day can be published with
  a site computed before the facts changed. Input: `ResourcePublication.OutdatedWorkerPublishesStaleBundle`. Condition:
  `ResourcePublication.PublishedDayIsWholeExactlyWhen`, step by step
  `ResourcePublication.SiteStepKeepsPassedExactlyWhen`. Calls that never overlap always meet it.

One property holds only because of who calls: the delivery repository accepts a firing notification enqueued after the
resolved one was claimed, which is then overtaken (`AlertDelivery.LateFiringIsOvertaken`, exactly when:
`AlertDelivery.OvertakenExactlyWhenLate` and, at the enqueue, `AlertDelivery.OvertakingIsDecidedAtTheEnqueue`). The
evaluation of alert rules, which alone enqueues them, never does that, so notifications arrive in order
(`AlertEvents.NotificationsArriveInOrder`).

## Model

| member | source | states |
|---|---|---|
| CollectionRun.CountsPartitionRows | model/collection_task.go:1079-1105 | the five status counts of any list of windows add up to its length |
| CollectionRun.CountMeansPresence | model/collection_task.go:1079-1105 | a status count is positive exactly when a window has that status |
| CollectionRun.MinRetryIsTheLeastRetry | model/collection_task.go:1106-1118 | `MIN(next_retry_at)` over pending windows is the least one present, and absent exactly when none has one |
| CollectionRun.EarliestWakeIsTheLeastWake | model/site_run_state.go:104-219 | the common recalculation wakes at the least of max(now, retry time) over pending windows, attained by one of them |
| CollectionEffects.ClaimTakesTheNewestDue | model/collection_task.go:474-515 | a claim takes only due unlocked windows, exactly as many as the limit and the supply allow, and whatever takeable window is newer than a taken one is taken too |
| CollectionEffects.ForemostCount | model/collection_task.go:477-484 | an ordered `LIMIT n` over distinct windows returns exactly min(n, all) of them |
| CollectionEffects.AcceptedReportsAreStored | model/collection_task.go:960-1048 | an accepted commit puts every reported status, retry time, volume and error on the window it names under the same attempt, and touches no other window |
| CollectionHistory.WakesWithWork | model/collection_task.go:1106-1136 | both wake-up laws pick a time at which some pending window satisfies the claim's due test |
| CollectionHistory.Derivation | model/collection_task.go:1079-1159 | whatever the windows are, a successful recalculation establishes the law between run and windows |
| CollectionHistory.EffectKeepsHistory | model/collection_task.go:1000-1048 | settling, expiring and aborting windows keep attempts resolved once, fences closed, and run volume equal to the logged volume |
| CollectionHistory.StepIsGood | model/collection_task.go:436-1545 | every transaction, committed or rolled back, keeps the whole invariant of run, windows and history |
| CollectionHistory.HistoryIsGood | model/collection_task.go:436-1545 | the invariant holds after any interleaving of claim, commit, complete, release, heartbeat, recover, materialise and fence |
| CollectionHistory.ExactlyOnceResolution | model/collection_task.go:895-931 | in every history each (window, attempt) pair, and the business mutation that goes with it, is resolved at most once |
| CollectionHistory.ResolvedAttemptIsFencedForever | model/collection_task.go:1001-1042 | once an attempt is resolved every later commit or completion naming it is refused and changes nothing, even if the request id is reused |
| CollectionHistory.FencedReportIsRefused | model/collection_task.go:900-915 | a report for an attempt its window has left is refused |
| CollectionHistory.StatusLaw | model/collection_task.go:1119-1159 | in every reachable state the counts add up to total_windows, the stored counters are the counts, the run is terminal iff every window is, success iff also none failed, its active key is held iff it is not terminal, and its volume is the sum of all accepted outcomes and covers what the windows hold |
| CollectionHistory.HistoryComposes | model/collection_task.go:436-1545 | a history continued is the history of the concatenation |
| CollectionHistory.HistoryKeepsTask | model/collection_task.go:960-1159 | no transaction changes what a run is about, and the record of resolutions only grows |
| CollectionBudget.NeverWokenEmpty | model/collection_task.go:1106-1136 | a pending initialised run always has a window due at its next_attempt_at, and a claim with a new request then succeeds, for every mix of absent and future retry times |
| CollectionBudget.SomethingIsChosen | model/collection_task.go:479-484 | if some window is takeable the ordered limited query returns one |
| CollectionBudget.WakesAtEarliestExactlyWhen | model/collection_task.go:1106-1118 | the initial-backfill wake-up is the earliest due one iff it does not mix windows without a retry time with retry times all in the future |
| CollectionBudget.LateWakeExample | model/collection_task.go:1106-1118 | a history of a new run in which a window due since the beginning waits behind another window's retry time |
| CollectionBudget.RetryBudgetHolds | model/collection_task.go:1309-1341 | if handlers ask for another attempt only below the budget, no window exceeds it, every pending window is strictly below it, and the run is claimed at most windows times budget, under any crashes, releases and recoveries |
| CollectionBudget.ClaimingTerminates | model/collection_task.go:498-512 | every accepted claim strictly decreases the remaining attempts, which never go below zero |
| CollectionBudget.EffectSpends | model/collection_task.go:498-512 | only claims use up attempts; every other transaction leaves the remaining attempts unchanged |
| CollectionScope.ContentionIsSymmetric | model/collection_task.go:1715-1739 | contention for a site or customer and task type is symmetric across target kinds |
| CollectionStore.OnlyClaimsStart | model/collection_task.go:525-533 | only a committed claim makes a run running |
| CollectionStore.ApplyKeepsExclusion | model/collection_task.go:442-472 | one transaction of any run keeps contending running runs apart |
| CollectionStore.MutualExclusion | model/collection_task.go:1715-1739 | in every reachable state at most one run is running per site and task type, and at most one per customer and task type across account and customer targets |
| CollectionStore.EveryRunHasItsOwnHistory | model/collection_task.go:436-548 | the interleaving of all runs, seen from one run, is a history of that run alone, so all per-run results hold in the store |
| ClaimScan.CursorOf | model/collection_task.go:419-434 | the cursor computed in Go equals the SQL sort key for every mix of nullable columns and priorities |
| ClaimScan.KeysAreStrictlyTotallyOrdered | model/collection_task.go:395-409 | sort keys are irreflexive, asymmetric, transitive and total, and two rows never share one |
| ClaimScan.Normalised | model/collection_task.go:346-355 | page and window limits are clamped to 1..256 and 1..24, or 1..2048 for initial backfills |
| ClaimScan.CursorsGrow | model/collection_task.go:357-391 | a returned key never lies after a later page's cursor |
| ClaimScan.NeverReturnedAgain | model/collection_task.go:357-391 | a run that stays with an unchanged key is returned by no later page |
| ClaimScan.VisitedEventually | model/collection_task.go:357-391 | a run that stays is returned by some page at or after the first whose cursor precedes it |
| ClaimScan.ScanVisitsExactlyOnce | model/collection_task.go:357-391 | paging with any limit returns every run that stays with an unchanged key exactly once, while other runs leave, arrive or move between pages |
| CollectionRepository.CollectionTaskRepository.QueryPage | model/collection_task.go:358-377 | one page is the first rows after the cursor in key order, up to the limit |
| CollectionRepository.CollectionTaskRepository.ScopeHasRunning | model/collection_task.go:1715-1739 | finds out whether another run of the same scope is running |
| CollectionRepository.CollectionTaskRepository.SelectWindows | model/collection_task.go:479-484 | taking the next unlocked due window until the limit returns exactly the chosen ones, newest hour first and higher id first |
| CollectionRepository.CollectionTaskRepository.StartWindows | model/collection_task.go:498-512 | the selected windows run one attempt more, the others stay |
| CollectionRepository.CollectionTaskRepository.HandOut | model/collection_task.go:473-541 | selection, window updates and run update amount to the claim |
| CollectionRepository.ClaimIsLawful | model/collection_task.go:436-548 | a claim commits iff its scope resolves and is free, nothing is locked or fenced, the row is claimable and there is something to take; it then runs under the request with the newest due unlocked windows, as many as possible, each one attempt further, and nothing else changed; each refusal has its exact condition |
| CollectionRepository.ClaimTakesWhatThereIs | model/collection_task.go:473-541 | a claimable run is claimed iff it has an unlocked due window, or needs none |
| CollectionRepository.CollectionTaskRepository.ClaimCandidate | model/collection_task.go:436-548 | the checks in order, the selection and the updates step by step: the outcome obeys the claim law, and the table changes in the claimed run only |
| CollectionRepository.BlocksExactly | model/collection_task.go:376-384 | an attempt stops the loop with an error iff the account is gone, or the row is claimable and the site's fence refuses it |
| CollectionRepository.ClaimsTheLeastClaimableExactlyWhen | model/collection_task.go:333-393 | the answer is the least claimable run, or idle when there is none, iff every matching run that stops the loop has a claimable one ahead of it |
| CollectionRepository.BlockedQueueExample | model/collection_task.go:376-384 | a table in which a claimable run is not reached |
| CollectionRepository.CollectionTaskRepository.ClaimNext | model/collection_task.go:333-393 | terminates; decides for the first run in key order that is not passed over, which is the least claimable one iff nothing blocks it; the claimed run is handed out as the claim law says |
| CollectionRepository.CollectionTaskRepository.CountWindows | model/collection_task.go:1079-1105 | one pass yields the five status counts |
| CollectionRepository.CollectionTaskRepository.RecalculateBackfill | model/collection_task.go:1079-1159 | the step-by-step derivation of an initial backfill equals its law |
| CollectionRepository.CollectionTaskRepository.RecalculateLockedRun | model/site_run_state.go:104-219 | the common derivation equals its law, refusal of inconsistent runs included |
| CollectionRepository.CollectionTaskRepository.IndexResults | model/collection_task.go:960-990 | malformed or repeated results are refused, otherwise they are indexed by window |
| CollectionRepository.CollectionTaskRepository.SettleWindows | model/collection_task.go:991-1072 | the loop settles all reported windows and adds up their volume, or loses the claim if one is missing or no longer runs the reported attempt |
| CollectionRepository.CollectionTaskRepository.CommitClaim | model/collection_task.go:813-865 | commits exactly as specified or leaves the table unchanged |
| CollectionRepository.CollectionTaskRepository.CompleteClaimedWindow | model/collection_task.go:870-949 | commits one window and applies its mutation once, or neither |
| CollectionRepository.CollectionTaskRepository.ExpireWindows | model/collection_task.go:1302-1341 | every running window goes back to pending below the budget and fails at it; the others stay |
| CollectionRepository.CollectionTaskRepository.ReleaseOwnedRunning | model/collection_task.go:1261-1369 | releases what the request owns, nothing otherwise |
| CollectionRepository.CollectionTaskRepository.Heartbeat | model/collection_task.go:1371-1398 | only the owner renews the lease |
| CollectionRepository.CollectionTaskRepository.RecoverOne | model/collection_task.go:1445-1545 | recovers one stale run as specified |
| CollectionRepository.CollectionTaskRepository.RecoverRunning | model/collection_task.go:1415-1443 | every run is untouched or recovered as specified, and all stale ones are unless an error stops the loop |
| Materialise.ScopeKeysAreOrdered | model/collection_task.go:712-745 | the expected keys are strictly ordered, number sites times whole-hour steps, and are exactly the site-hour pairs |
| Materialise.OpenHoursAreTheUnsettledOnes | model/site_run_state.go:322-370 | a site run expects exactly the hours of its range that are not settled yet, in order |
| Materialise.MaterialisationIsCrashSafe | model/collection_task.go:566-660 | whatever attempts are interrupted, repeated or overlap, with any batch sizes, and whenever a fence fails the run: the rows stay among the expected keys, pending until then, and an initialised run has exactly all of them |
| Materialise.PublishedSetIsExact | model/collection_task.go:620-660 | even if the expectation changes, what is published is exactly that of the publishing moment and never changes afterwards |
| Materialise.StrayRowBlocksPublication | model/collection_task.go:620-640 | once a row is outside the expectation that all later attempts have, none of them ever publishes |
| Materialise.SettledHourBlocksPublication | model/site_run_state.go:322-370 | histories from a new run: two hours are inserted, one is then settled, and the run is never initialised |
| Materialise.PublicationInitialisesTheRun | model/collection_task.go:636-660 | publication yields one pending window per key, and finishes the run at once when there is none |
| Materialise.FinishPassesExactlyWhen | model/collection_task.go:622-640 | after all batches the final check passes iff the rows found were expected and pending |
| Materialise.Materialiser.ExpectedScopeKeys | model/collection_task.go:712-745 | the nested loops yield the ordered keys |
| Materialise.Materialiser.MaterializeRunWindows | model/collection_task.go:566-660 | an attempt that is not interrupted publishes iff the rows it found were expected and pending; an interrupted one only adds expected rows |
| LockOrder.AppendUniqueSortedID | model/site_fence.go:361-376 | the insertion loop keeps the list ascending and adds exactly the positive id |
| LockOrder.UniqueSorted | model/customer.go:467-478 | gathering and sorting yields the ascending list of the members, the same as inserting positive ids one by one |
| LockOrder.AscendingIsCanonical | model/customer.go:467-478 | an ascending list is determined by its members |
| LockOrder.EveryPlanIsOrdered | model/customer.go:391-458 | account and customer scopes, queue transactions, site fences, snapshots, single accounts and window run creation all lock in the one global order, runs of a site only after the site |
| LockOrder.ActKeepsConsistency | model/collection_task.go:1595-1655 | rows are held by one transaction at a time, and a transaction holds all rows it has passed, but for those it skipped in the table at which it will roll back |
| LockOrder.NobodyWaitsForASiteRun | model/site_run.go:269-286 | whoever holds a run of a site, or asks for one, holds the site: so the order of a site's runs does not matter |
| LockOrder.WaitsClimb | model/account.go:537-566 | along a chain of waits the wanted rows strictly climb in the order |
| LockOrder.NoWaitCycle | model/account.go:537-566 | in every reachable state of any number of transactions the wait-for relation has no cycle |
| LockOrder.NoDeadlock | model/account.go:537-566 | from any transaction the waits lead to one that gets its next row for the asking, has them all, or rolls back |
| Accounts.BatchRefinesSingle | model/collection_task.go:1872-1933 | the snapshot loop gives every account exactly the result of one single observation at that time (only the mirrored profile of an isolated account is not refreshed) and leaves accounts with an observation as recent untouched |
| Accounts.StandsAt | model/account.go:354-513 | after any deliveries the account is the replay of the accepted ones, synced at the last of them, isolated iff a conflict was accepted |
| Accounts.OnlyAcceptedObservationsCount | model/account.go:511-513 | duplicates and late arrivals never matter: only observations later than all accepted before count |
| Accounts.RedeliveryIsHarmless | model/account.go:409-426 | an accepted observation delivered again at any later point changes nothing |
| Accounts.MissingCountIsExact | model/account.go:424-436 | while not isolated, the counter is min(2^31-1, accepted absences since the last accepted presence), and the account is missing iff it is at least 2 |
| Lifecycle.Latest | model/account.go:673-684 | the run of a kind and target with the highest id, or none iff there is none |
| Lifecycle.ObservationsOnlyPauseEarlier | model/account.go:466-486 | observations keep ownership and managed status, isolate for good, and only move a pause earlier |
| Lifecycle.AcceptedStepsAchieve | model/account.go:568-671 | archive closes and pauses at the earlier boundary, begin steps record intent and keep status and pause, a restore opens; nothing else moves |
| Lifecycle.DisableReachesEveryActiveAccount | model/customer.go:219-273 | a disable pauses the customer at the earlier boundary and every active account no later, archives none and touches no other |
| Lifecycle.StepKeepsPauseLaw | model/customer.go:219-382 | every step keeps: archived or isolated implies paused, disabled iff paused, active accounts of a disabled customer paused no later than it; and nothing but a completion clears a pause, nothing postpones one |
| Lifecycle.HistoryKeepsPauseLaw | model/customer.go:219-382 | the same over every history |
| Lifecycle.IsolationIsForever | model/account.go:474-481 | between any two moments ownership is the same and an isolated account is still isolated, its pause never cleared and only earlier |
| Lifecycle.PauseOutlivesEverythingElse | model/account.go:614-622 | without a completion in between a pause stays and only moves earlier |
| Lifecycle.CoveringMeansNoGap | model/account.go:686-695 | the covering test implies that the range holds the pause instant and every hour start up to the completion hour, and for whole-hour ranges is exactly that |
| Lifecycle.ReopenedAccountHasNoGap | model/customer.go:335-365 | when a restore or an enable clears an account's pause, the relevant run with the highest id succeeded and leaves no gap |
| Lifecycle.RestoreCommitsExactlyWhen | model/account.go:638-671 | a restore commits iff the account is archived, not isolated, its customer open, and the run with the highest id succeeded without a gap |
| Lifecycle.EnableCommitsExactlyWhen | model/customer.go:309-382 | an enable commits iff the customer is disabled and its own latest rebuild, and for each account it would reopen the deciding run, succeeded without a gap |
| Lifecycle.EnabledCustomerHasNoGap | model/customer.go:347-381 | an accepted enable leaves the customer without a gap, opens every eligible account and leaves archived and isolated ones as they were |
| Lifecycle.AutomaticReopeningExactly | model/local_rebuild.go:138-234 | an automatic reopening rests on the highest run, successful and reaching the pause; it leaves no gap iff the range goes beyond the pause and up to the completion hour |
| Lifecycle.FirstBackfillReopensAnArchivedAccount | model/local_rebuild.go:164-190 | a history without any restore request in which an archived account is reopened with hours missing |
| LifecycleRepository.LifecycleRepository.MarkMissing | model/account.go:412-454 | counts an absence once, up to the 32-bit ceiling, or does nothing |
| LifecycleRepository.LifecycleRepository.MarkIdentityMismatch | model/account.go:456-500 | isolates and pauses at the earlier boundary |
| LifecycleRepository.LifecycleRepository.ApplyAuthoritativeRemoteSnapshot | model/account.go:354-407 | refuses another identity, resets the counter, keeps isolation |
| LifecycleRepository.LifecycleRepository.IndexUsers | model/collection_task.go:1839-1848 | malformed or repeated users refuse the snapshot |
| LifecycleRepository.LifecycleRepository.SnapshotOne | model/collection_task.go:1876-1925 | one account's new row, and the pause from which its statistics are cleaned up |
| LifecycleRepository.LifecycleRepository.ApplySiteUserSnapshot | model/collection_task.go:1827-1937 | all newer accounts of the site or none; counts them and hands exactly the conflicting ones with their pauses to cleanup |
| LifecycleRepository.LifecycleRepository.Archive | model/account.go:568-594 | behaves as the archive step |
| LifecycleRepository.LifecycleRepository.BeginRestore | model/account.go:606-628 | behaves as the step, with its errors in order |
| LifecycleRepository.LifecycleRepository.CompleteRestore | model/account.go:638-671 | behaves as the step, with its errors in order |
| LifecycleRepository.LifecycleRepository.Disable | model/customer.go:219-273 | the account loop amounts to the step |
| LifecycleRepository.LifecycleRepository.BeginEnable | model/customer.go:283-299 | behaves as the step |
| LifecycleRepository.LifecycleRepository.LatestRuns | model/customer.go:335-349 | the single pass finds the highest customer run and each account's highest run |
| LifecycleRepository.LifecycleRepository.AllReady | model/customer.go:355-365 | every account's authoritative run, the higher of its own and the customer's, is a covering success |
| LifecycleRepository.LifecycleRepository.CompleteEnable | model/customer.go:309-382 | opens everything or nothing |
| LifecycleRepository.LifecycleRepository.FinalizeAccount | model/local_rebuild.go:164-190 | behaves as the step |
| LifecycleRepository.LifecycleRepository.FinalizeCustomer | model/local_rebuild.go:192-229 | the check-and-open loop amounts to the step; the first account not reached undoes the others |
| LifecycleRepository.LifecycleRepository.FinalizeLocalRebuild | model/local_rebuild.go:138-162 | only the highest run of its target completes a lifecycle |
| AlertDelivery.ActKeepsTable | model/alert_delivery.go:139-335 | every transaction keeps the lease structure, unique notifications and unique tokens, freezes terminal rows, and changes a token only to a new one |
| AlertDelivery.ActKeepsOrder | model/alert_delivery.go:234-305 | a resolved delivery begins only after the firing one enqueued before it is over |
| AlertDelivery.TableLaw | model/alert_delivery.go:139-335 | in every reachable state a pending delivery is either leased (token, expiry, attempts 1 to 5) or has a retry time, never both; terminal ones hold none of these; and deliveries of one event are in order |
| AlertDelivery.TerminalIsForever | model/alert_delivery.go:307-335 | a succeeded or failed delivery never changes again |
| AlertDelivery.AttemptsAreFreshClaims | model/alert_delivery.go:270-281 | attempts equal the fresh claims, at most five; takeovers are not counted |
| AlertDelivery.ReportTakesEffectExactlyWhen | model/alert_delivery.go:307-335 | a report takes effect iff its sender still holds that attempt and token; it then stores the outcome, ends the lease and touches nothing else |
| AlertDelivery.SpentStaysSpent | model/alert_delivery.go:264-285 | a token out of use never returns |
| AlertDelivery.LateReportChangesNothing | model/alert_delivery.go:325-333 | a worker whose lease was taken over or closed is fenced for good |
| AlertDelivery.OvertakenExactlyWhenLate | model/alert_delivery.go:254-260 | beside a pending firing delivery the resolved one is in hand iff it had begun before that one was enqueued |
| AlertDelivery.OvertakingIsDecidedAtTheEnqueue | model/alert_delivery.go:139-175 | as long as it is pending, a firing delivery is overtaken iff a resolved one of its event had begun in the table it was inserted into |
| AlertDelivery.FiringFirstMeansInOrder | model/alert_delivery.go:254-260 | if no firing delivery is enqueued after the resolved one of its event, no resolved one ever begins before the firing one is over |
| AlertDelivery.LateFiringIsOvertaken | model/alert_delivery.go:254-260 | calls the repository accepts by which a firing delivery is overtaken |
| AlertEvents.EvaluationFits | service/alert.go:460-600 | an evaluation keeps at most one unresolved event per rule and target, moves events from pending to firing to resolved only, and enqueues a firing notice only for an event that was not resolved, a resolved one only for an event that now is |
| AlertEvents.EvaluationsEnqueueFiringFirst | service/alert.go:460-600 | over any evaluations and deliveries no event's firing notification is enqueued after its resolved one |
| AlertEvents.NotificationsArriveInOrder | service/alert.go:1295-1327 | whatever is evaluated, claimed, reported, disabled or exhausted: no resolved notification is handed out before the firing one of its event is over |
| AlertDelivery.NothingIsStuck | model/alert_delivery.go:195-260 | from its due time on every pending delivery can be claimed, taken over or exhausted, a resolved one waiting at most for its own firing delivery, which itself can |
| AlertDeliveryRepository.AlertDeliveryRepository.Enqueue | model/alert_delivery.go:139-175 | inserts a notification once and finds the existing row otherwise |
| AlertDeliveryRepository.AlertDeliveryRepository.Candidate | model/alert_delivery.go:245-266 | the soonest unlocked claimable row, none iff there is none |
| AlertDeliveryRepository.AlertDeliveryRepository.Claim | model/alert_delivery.go:234-305 | leases the soonest claimable row under a token nobody has held, counts fresh claims only, and says whether it is a takeover |
| AlertDeliveryRepository.AlertDeliveryRepository.Complete | model/alert_delivery.go:307-335 | takes effect for the holder, otherwise lease lost |
| AlertDeliveryRepository.AlertDeliveryRepository.DisablePending | model/alert_delivery.go:177-193 | nothing stays pending; counts what was closed |
| AlertDeliveryRepository.AlertDeliveryRepository.FailExhaustedLeases | model/alert_delivery.go:195-212 | closes exactly the unleased deliveries whose attempts are used up and whose retry time has come |
| ResourceRollup.CountSplits | model/data_maintenance_resource.go:334-348 | a count over a range is the sum over its parts |
| ResourceRollup.ColumnSums | model/data_maintenance_resource.go:453-454 | summing a right hourly column gives the count over the day's minutes |
| ResourceRollup.MaximaAgree | model/data_maintenance_resource.go:453-454 | the daily maximum of hourly maxima is the maximum over the minutes, nulls ignored |
| ResourceRollup.LastReadingsAgree | model/data_maintenance_resource.go:453 | the last of the hourly last disk readings is the day's last reading |
| ResourceRollup.InstanceMaximaAgree | model/data_maintenance_resource.go:454 | the daily instance maximum is the maximum over the minutes |
| ResourceRollup.HealthCountsAgree | model/data_maintenance_resource.go:454 | an hour is critical somewhere iff a minute is, and the daily health can be read off the hourly ones |
| ResourceRollup.HierarchicalEqualsDirect | model/data_maintenance_resource.go:444-466 | for any day, pauses and lifecycles the daily row from hourly rows equals the row computed from the minutes in every column but the averages |
| ResourceRollup.WeightedAverageIsDirect | model/data_maintenance_resource.go:453-454 | the sample-weighted average is the direct average when every hour has the day's share of minutes with a reading |
| ResourceRollup.UnevenSharesDisagree | model/data_maintenance_resource.go:453-454 | if one hour's share differs there are readings for the same minutes for which the two averages differ |
| ResourceRollup.FullPresenceMakesTheWholeRowEqual | model/data_maintenance_resource.go:444-466 | with a reading in every counted minute the whole daily row equals the direct one |
| ResourceGap.ScanAgreesExactlyInside | model/data_maintenance_gap.go:243-273 | for disjoint lifecycles scan and recheck agree on a bucket iff no expected minute of it lies outside the scanned range |
| ResourceGap.ScanAgreesExactlyDisjoint | model/data_maintenance_gap.go:243-273 | for whole-hour bounds they agree iff no expected minute is in two known intervals |
| ResourceGap.AlignedScansAgree | service/data_maintenance.go:38-60 | with the whole-hour bounds of the callers and disjoint lifecycles they agree everywhere |
| ResourceGap.KeysAreTotallyOrdered | model/data_maintenance_gap.go:221-241 | the cursor order is strict and total |
| ResourceGap.SiteQueryFollowsTheCursor | model/data_maintenance_gap.go:261-267 | the site query's own comparison is the cursor order |
| ResourceGap.PagesJoin | model/data_maintenance_gap.go:243-273 | a page of node rows filled up with a page of site rows is a page of both |
| ResourceGap.CandidateAdvances | model/data_maintenance_gap.go:140-190 | passing a candidate passes only it and rows that were right all along |
| ResourceGap.CursorAdvanced | model/data_maintenance_gap.go:176-186 | a batch strictly shrinks what the cursor has still to pass |
| ResourceGap.GapRepair.NextCandidates | model/data_maintenance_gap.go:243-273 | the first proposed rows beyond the cursor in cursor order |
| ResourceGap.GapRepair.RepairCandidate | model/data_maintenance_gap.go:140-183 | refuses a cursor that has moved on; recomputes the row iff the recheck differs |
| ResourceGap.GapRepair.RepairBatch | model/data_maintenance_gap.go:67-191 | refuses impossible batch sizes; a new revision starts over, an empty page completes, otherwise the cursor advances; a consistent state, or one of another revision, becomes a consistent one: where scan and recheck agree every row passed is right |
| ResourceGap.GapRepair.RepairAll | model/data_maintenance_gap.go:67-191 | iterating batches terminates from any stored state and only repairs rows in scope; from a consistent state or one of another revision, where scan and recheck agree, every covered row is then present with the recheck's triple, and is the row computed from the minutes iff it was not right before or was that row already |
| ResourceGap.RepairRecomputesExactly | model/data_maintenance_gap.go:36-66 | after a completed repair a row is the computed one iff its three compared columns were wrong or it was that row already |
| ResourceGap.CorrectionsAreInvisible | model/data_maintenance_gap.go:36-66 | rewriting samples with other readings makes no right row wrong |
| ResourceGap.OutdatedReadingExample | model/data_maintenance_gap.go:36-66 | a full repair that keeps a disk reading corrected since |
| ResourceDaily.KnownNodeHours | model/data_maintenance_resource.go:69-123 | the loops yield exactly the visited node hours and their nodes |
| ResourceDaily.VisitedHoursExactly | model/data_maintenance_resource.go:100-105 | an interval's loop visits exactly the hours with one of its minutes, except the first hour when the interval starts after its last minute |
| ResourceDaily.KnownHoursAreTheCoveredOnes | model/data_maintenance_resource.go:81-106 | for whole-minute boundaries the loop yields exactly the hours with a covered minute |
| ResourceDaily.FinalizeSite | model/data_maintenance_resource.go:378-442 | passes iff the site has hourly rows, as many as monitored hours, and every known node hour has its row; then the site's and each known node's daily row comes from its stored hours and other rows stay; otherwise nothing changes |
| ResourceDaily.ChecksPassExactlyWhen | model/data_maintenance_resource.go:378-442 | after the rebuild the six checks pass iff the site has hourly rows, as many as monitored hours, and every known node hour has its row |
| ResourceDaily.StrayHourStandsIn | model/data_maintenance_resource.go:413-418 | a day that passes all six checks with a monitored hour missing |
| ResourceDaily.RightTriplesAddUp | model/data_maintenance_resource.go:444-466 | right hourly triples add up to the day's own triple |
| ResourceDaily.RepairEnablesFinalisation | model/data_maintenance_resource.go:378-442 | after a completed repair over a range that holds the day, a monitored site without stray hourly rows passes all six checks, and its daily rows hold the counts and status of the day's own minutes |
| ResourceDaily.RepairAndFinalise | service/data_maintenance.go:48-66 | repairing everything and then finalising a site's day of the repaired range passes, and the daily rows of the site and of each known node hold the counts and status of the day's own minutes |
| ResourcePublication.SiteStepKeepsPassedExactlyWhen | model/data_maintenance_resource.go:236-285 | a site step keeps all bundles behind the cursor current iff every eligible site between cursor and step has a current bundle already |
| ResourcePublication.CompletionIsWholeExactlyWhen | model/data_maintenance_resource.go:468-561 | completing leaves the day whole iff no eligible site beyond the cursor lacks a current bundle |
| ResourcePublication.PublishedDayIsWholeExactlyWhen | model/data_maintenance_resource.go:134-324 | for any workers and fact changes, a day complete for the current facts shows all their bundles iff since these facts no committed step left an eligible site without a current bundle behind |
| ResourcePublication.UpToDateSkipsNobody | model/data_maintenance_resource.go:230-236 | a worker that listed under the day's revision skips nobody |
| ResourcePublication.PublishedDayIsWhole | model/data_maintenance_resource.go:134-324 | if all site and publish steps are taken under the day's revision, a complete day shows all bundles of the current facts and an incomplete one none |
| ResourcePublication.SerialWorkersAreUpToDate | model/data_maintenance_resource.go:27-56 | calls that never overlap always satisfy that condition, whatever is interrupted |
| ResourcePublication.OutdatedWorkerPublishesStaleBundle | model/data_maintenance_resource.go:231-285 | overlapping calls in which a step skips a site, and publish it as computed before the facts changed |
| ResourceMaintenance.DailyMaintenance.Prepare | model/data_maintenance_resource.go:134-196 | a new revision withdraws the day and starts over, the same one continues |
| ResourceMaintenance.DailyMaintenance.NextSites | model/data_maintenance_resource.go:230-236 | the next eligible sites beyond the cursor in ascending order |
| ResourceMaintenance.DailyMaintenance.RunSite | model/data_maintenance_resource.go:236-285 | finalises one site and moves the cursor, or leaves the day unchanged |
| ResourceMaintenance.DailyMaintenance.Publish | model/data_maintenance_resource.go:468-561 | publishes all eligible rows at once or none |
| ResourceMaintenance.DailyMaintenance.FinalizeResourceDaily | model/data_maintenance_resource.go:27-56 | one call completes the day, advances by a full batch, or stops at a failing site; readers see the whole day or nothing of it |

## Left out

- Controllers, routing, configuration loading, metrics, sessions, encryption, payload validation and the upstream clients.
- SQL text, transaction isolation and hashing: steps are atomic, queries are functions of the tables, revisions are opaque values that are never reused.
- Run columns that no decision reads: error parameters and messages, started and created times; window `updated_at`.
- The positive-id checks on request arguments: an id that is not in the table is refused as not found.
- Handler mutations: a mutation is the volume it reports and the fact that it was applied with its window's resolution.
- `RecalculateTaskBackfillStatuses`: the derived backfill status columns of accounts, customers and sites.
- Configuration, capability and credential fences: whether they hold is a parameter of a step, whose failure rolls it back.
- The lifecycle completion inside the queue's commit is proved in `Lifecycle` on its own; in the queue's model a refusal by it is one of the outside reasons for a rollback.
- Deletion of accounts, customers and runs; the site inventory; the statistics cleanup that follows a pause.
- Graceful release of tasks without windows is not budgeted by the code, so the budget results are about windowed runs.
- Locks on windows and capabilities below an already locked run or site, which only the holder of that row can ask for; locks on statistics buckets.
- The windows a fence finds on a run that is not initialised yet: `CollectionHistory` follows a run's windows from initialisation on, `Materialise` up to it, and neither the `failed_windows` the fence then stores.
- Alert messages, evidence, rule selection and sample cursors: `AlertEvents` gets the broken rule and the kind of resolution with each evaluation, and a sample that is not processed is none.
- `online_instance_count_min`, whose hourly default of zero makes the daily minimum differ from the direct one.
- Node names are numbers in their byte order; `GROUP_CONCAT` length limits are ignored.
- Maintenance of several dates interleaved on one state row: `ResourcePublication` follows one date, whose change is a new revision.
- Export, retention, balance monitoring and list queries: simpler patterns of the same kinds.
