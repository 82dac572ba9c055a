# ReviewPulse: a verified model of the sync engine and its guards

ReviewPulse copies commits and merge requests out of GitLab, project by project,
with tokens its users entrust to it. This project models in Dafny how it does
so and proves what its users rely on. Each file follows one part of the program:

| files | part |
|---|---|
| `Pagination`, `CommitWindow`, `CommitRun`, `LatePush`, `MergeRequests`, `SyncOrchestrator` | crash-resumable incremental sync |
| `JobTable`, `JobHistory`, `JobQueue`, `Worker` | the PostgreSQL job queue, its scheduler and its workers |
| `MembershipCache`, `ProbePool`, `AccessWorld`, `ProjectAccess` | who may see which project |
| `CredentialVault` | token rotation under READ COMMITTED |
| `IpText`, `IpGrammar`, `IpClass`, `Ssrf` | address text, address classes and the egress check |
| `RequestExecutor` | attempts, retries and the time budget of one request |

Code that changes state is modelled as classes with fields (`SyncOrchestrator`,
`PostgresJobQueue`, `RunWorkerIteration`, `LiveProjectAccess`,
`PatCredentialProvider`, `RequestExecutor`); what runs concurrently with it is a
state machine over atomic statements, and the class methods let any number of
steps of others happen between their own. Calls that may fail, times that pass,
answers of GitLab and of name servers are nondeterministic; a database write may
fail before it takes effect, or take effect and not be acknowledged. Where a
contract promises an outcome unless something fails, what may fail is an input:
a candidate is calm or not, a request comes with the calls that may fail
(`mayFail`, `Faults`), and so are the answers that decide an outcome: how a sync
ends, when the budget stops it, what comes over the wire, the jitter drawn, whether
anyone else acts. The statements of a request are told from those of
everyone else, so its contract says what it wrote itself, and not only what was
written.

## What is assumed

- One monotone clock, not before 1980, serves worker, database and GitLab.
- At most one run persists progress for a project at a time. The sync writes are
  not fenced by the job lease: a run whose lease was recovered has to stop
  writing before the next one starts.
- While a window is open, GitLab lists the same commits for a branch and window,
  and a SHA always has the same fields. GitLab hands out cursors of a finite set.
- A commit is listed for its branch by every window that contains its authored
  date and ends no earlier than it was pushed; a window that ended before may miss it.
- While one merge-request list is read it does not change; its filter includes
  its boundary. At any other time, as soon as the last page is read, merge
  requests change freely, and every change stamps `updatedAt`.
- Every update of a job row stamps `updated_at`.
- Worker ids are distinct, and a worker runs one iteration at a time; its last
  heartbeat may still be under way.
- Name resolution and reading the token take no time before an attempt's timer starts.

## Where a stronger claim is false

- A replacement that holds the row lock when an invalidation begins commits a
  token that the invalidation then misses, although `invalidateCredential` is
  documented to move any active credential out of `active`
  (`CredentialVault.InvalidationClears`, `CredentialVault.ReplacementOutlivesInvalidation`).
- A 401 for a token read earlier invalidates whatever token is current
  (`CredentialVault.ActiveIsTheOneRead`, `CredentialVault.PatCredentialProvider.RefuseToken`).
- Which error rejects a batch of probes, and so whether the connection is
  invalidated, depends on the schedule (`ProbePool.RejectedAsUnauthorizedIff`).
- A commit pushed later than the overlap after its authored date can be missed
  for good (`LatePushes.LaterPushesCanBeMissed`).
- A probe's grant that is written back after the key was invalidated revives
  access until the TTL ends (`MembershipCaches.LateWriteBackRevivesAccess`).
- The cache is cleaned after the token was replaced, refused or deleted, in a
  step of its own. If the program stops in between, cached grants of the old
  token survive it until the TTL ends, unless there were none
  (`MembershipCaches.UncleanedCut`, `AccessWorld.ContradictedIsStale`). The
  model keeps the keys concerned in a ghost set `stale`, and says of
  authorisation what holds outside it.
- Taking the merge-request cursor any later than the moment at which the list
  was asked for would lose changes (`MergeRequests.LateCursorLosesChanges`); the
  code takes it before.
- A branch deleted in the middle of a window reads as a refusal of the whole
  project, which is then recorded as hidden from the candidate's user
  (`CommitRuns.CalmRunStopsAt`).
- The negative TTL bounds denials written by the sync only if it is at least the
  300 seconds the sync uses (`MembershipCaches.NegativeTtlBoundsSyncDenials`).
- A scheduler or worker that read its clock long ago inserts a row ahead of
  overdue ones (`JobHistory.AheadGrowsIff`, `JobHistory.LateSchedulerOvertakes`).
- A branch deleted in the middle of a window stalls the window for as long as
  GitLab answers 404 for it (`CommitRuns.DeletedBranchStallsWindow`).
- A pre-snapshot cursor covers only names that do not sort below it: the ledger
  of a window lists the names it gave up as `skipped`.
- With a concurrency below one, the probe pool reports every project as denied
  (`ProbePool.NoWorkersDenyEverything`).

## Model

| member | source | states |
|---|---|---|
| `Pagination.WalkIsReached` | packages/domain/src/sync-orchestrator.ts:815-828 | a finished walk without repeated cursors yields exactly what the cursor-checked loop collects |
| `Pagination.EndsHasWalk` | packages/domain/src/sync-orchestrator.ts:815-828 | and the loop ends only if such a walk to a last page exists |
| `Pagination.DrainPages` | packages/gitlab-client/src/pagination.ts:128-164 | no cursor is fetched twice, at most `maxPages` pages are fetched, and the answer is the whole chain's concatenation or the first bound the chain breaks |
| `Pagination.OutcomeIsUnique` | packages/gitlab-client/src/pagination.ts:128-164 | for any server, start and bounds only one outcome and one list of fetched pages is possible |
| `CommitWindow.RowsLoseNothing` | packages/domain/src/sync-orchestrator.ts:704-720 | a row and its SHA give the commit back field by field; an empty title is stored as none; the stamp is the window's end |
| `CommitWindow.UpsertKeepsDraining` | packages/domain/src/sync-orchestrator.ts:598-617 | writing any listed commit keeps drained branches complete and windows completed earlier intact, stamps only growing |
| `CommitWindow.AppendKeepsProgress` | packages/domain/src/sync-orchestrator.ts:315-327 | branches found on resume can be appended without losing what is already drained |
| `CommitWindow.DrainedIsAtomic` | packages/domain/src/sync-orchestrator.ts:344-391 | with every branch drained, the cache equals one atomic write of all the window's listings over the cache the window began with |
| `CommitWindow.CompletionCovers` | packages/domain/src/sync-orchestrator.ts:302-311 | closing a window leaves no gap between 1980-01-01 and the new watermark |
| `CommitWindow.BeginKeepsInv` | packages/domain/src/sync-orchestrator.ts:336-342 | a new window starts at or before the old watermark for any overlap, and the invariant holds with nothing drained |
| `CommitWindow.ResumeKeepsInv` | packages/domain/src/sync-orchestrator.ts:315-327 | a saved `(branches, nextIndex)` has `nextIndex < length`, so the clamp never binds, and means the first `nextIndex` branches are drained |
| `CommitWindow.LegacyKeepsInv` | packages/domain/src/sync-orchestrator.ts:328-331 | a pre-snapshot cursor resumes with exactly the names below it given up |
| `CommitWindow.AdvanceKeepsInv` | packages/domain/src/sync-orchestrator.ts:373-378 | the cursor may pass a branch once that branch is drained to its last page |
| `CommitWindow.CompleteKeepsInv` | packages/domain/src/sync-orchestrator.ts:390-391 | at completion the cache is the atomic one, every branch not given up drained, and the invariant holds with the new watermark |
| `CommitWindow.NothingMissingUpToWatermark` | packages/domain/src/sync-orchestrator.ts:297-311 | over any number of windows, a commit pushed by the watermark and no more than the overlap after its authored date is in the cache with GitLab's fields, if the windows since knew its branch |
| `LatePushes.LaterPushesCanBeMissed` | packages/domain/src/sync-orchestrator.ts:297-311 | and the overlap is exact: for any later push two calm runs from empty tables on leave the commit out although both windows list its branch and the watermark has passed it |
| `CommitWindow.AtomicIgnoresOrder` | packages/domain/src/sync-orchestrator.ts:344-391 | the cache at completion depends on the set of branches, not on order or repetition |
| `CommitRuns.CalmRunFinishes` | packages/domain/src/sync-orchestrator.ts:283-392 | if no call fails by chance, the budget lasts and the branch list ends, a run finishes if and only if every branch still to be read is there and its commit list ends |
| `CommitRuns.CalmRunStopsAt` | packages/domain/src/sync-orchestrator.ts:346-372 | and a calm run that stops ends with a refusal of the project exactly at a branch GitLab answers 404 for, and with an ordinary error otherwise |
| `CommitRuns.RunMovesBase` | packages/domain/src/sync-orchestrator.ts:343-392 | a run, reported as it may be, moves what is cached on by the atomic write of the window it closes, and otherwise leaves the cache below the open window alone |
| `CommitRuns.WatermarkNeverFalls` | packages/domain/src/sync-orchestrator.ts:629-637 | no run, however it ends, moves the watermark back or takes a completed window away |
| `CommitRuns.WindowSurvives` | packages/domain/src/sync-orchestrator.ts:312-388 | as long as no window is completed, the open one keeps its bounds, the snapshot only grows at its end, each pause passes a further branch, and pauses stay below the branch count |
| `CommitRuns.CacheIsTheWindows` | packages/domain/src/sync-orchestrator.ts:283-392 | along any chain of runs, from before a window was opened on, the cache is that of the completed windows written atomically one after the other, whatever pauses, failures, lost acknowledgements and candidate changes lie between |
| `CommitRuns.InterruptionsDoNotShow` | packages/domain/src/sync-orchestrator.ts:283-392 | for one window, from before it was opened or any moment since: its closing run leaves the cache and watermark of one uninterrupted run, for the bounds it was opened with whose branches are those of the snapshot at the start and those some run was shown, all that the closing run was shown among them |
| `CommitRuns.WindowsAreNew` | packages/domain/src/sync-orchestrator.ts:288-311 | a history that began with no window open works only on windows that end no earlier than it began |
| `CommitRuns.DeletedBranchStallsWindow` | packages/domain/src/sync-orchestrator.ts:267-270 | while an unread branch of the snapshot answers 404, no window is completed, the cursor never passes it and the watermark stays |
| `SyncOrchestration.SortSorts` | packages/domain/src/sync-orchestrator.ts:680-702 | sorting branch names by any total preorder keeps them distinct and ordered |
| `SyncOrchestration.SyncOrchestrator.ListAllBranchNames` | packages/domain/src/sync-orchestrator.ts:680-702 | every name the token sees, each once, sorted; it throws only on a failing call or a repeated cursor |
| `SyncOrchestration.SyncOrchestrator.LowerBound` | packages/domain/src/sync-orchestrator.ts:797-809 | splits the names exactly where they stop sorting below the target |
| `SyncOrchestration.SyncOrchestrator.WritePage` | packages/domain/src/sync-orchestrator.ts:361-366 | stopping before or after any write keeps whatever single writes keep; finishing leaves every commit of the page cached |
| `SyncOrchestration.SyncOrchestrator.DrainBranch` | packages/domain/src/sync-orchestrator.ts:347-369 | finishing means every listed commit of the branch is cached and counted; a calm run fails only on a deleted branch or an endless list |
| `SyncOrchestration.SyncOrchestrator.DrainStep` | packages/domain/src/sync-orchestrator.ts:344-378 | a throw at any call leaves the cursor before the branch, or past it and then the branch is drained: an advance may take effect unacknowledged |
| `SyncOrchestration.SyncOrchestrator.DrainWindow` | packages/domain/src/sync-orchestrator.ts:343-392 | the watermark moves only with every branch drained, acknowledged or not; otherwise the state is the snapshot at the first branch not passed; the run pauses at the first branch before which the budget stops it, and nowhere else |
| `SyncOrchestration.SyncOrchestrator.ResumeWindow` | packages/domain/src/sync-orchestrator.ts:312-327 | the saved window goes on at its cursor, with exactly the newly seen branches appended |
| `SyncOrchestration.SyncOrchestrator.ContinueByName` | packages/domain/src/sync-orchestrator.ts:328-331 | a pre-snapshot cursor gives up exactly the names that sort below it |
| `SyncOrchestration.SyncOrchestrator.BeginWindow` | packages/domain/src/sync-orchestrator.ts:297-311 | a new window starts at the overlap before the watermark, ends now, and lists what the token sees |
| `SyncOrchestration.SyncOrchestrator.ChooseWindow` | packages/domain/src/sync-orchestrator.ts:288-342 | either nothing is persisted, or exactly the state the chosen window starts with, acknowledged or not |
| `SyncOrchestration.SyncOrchestrator.SyncCommits` | packages/domain/src/sync-orchestrator.ts:283-392 | any run from any consistent state ends consistent, and in exactly the state of the chosen window at the branch it came to, or closed |
| `MergeRequests.MrRowsLoseNothing` | packages/domain/src/sync-orchestrator.ts:722-738 | a row and its number give the merge request back field by field; an empty title or state is stored as none |
| `MergeRequests.EvolutionKeepsMrInv` | packages/domain/src/sync-orchestrator.ts:394-426 | GitLab changing merge requests between runs never makes a cached version older than the cursor stale |
| `MergeRequests.UpsertKeepsMrInv` | packages/domain/src/sync-orchestrator.ts:646-666 | nor does writing a current version, however far a run gets |
| `MergeRequests.DrainMovesCursor` | packages/domain/src/sync-orchestrator.ts:400-425 | after a full drain the cursor may move to the moment taken before it, and every merge request is cached at its current version |
| `MergeRequests.CursorMayMove` | packages/domain/src/sync-orchestrator.ts:400-425 | whatever GitLab has changed since, a full drain of the list as asked for lets the cursor move to any moment up to that one |
| `MergeRequests.LateCursorLosesChanges` | packages/domain/src/sync-orchestrator.ts:400-425 | and to no later one: a change after the list was asked for and before such a cursor is neither cached nor asked for again |
| `SyncOrchestration.SyncOrchestrator.DrainMergeRequests` | packages/domain/src/sync-orchestrator.ts:405-423 | stopping anywhere keeps the cache invariant, with GitLab moving on as soon as the last page is read; finishing leaves all that matched when asked for cached, and counts what was listed; a calm read fails only on a repeated cursor |
| `SyncOrchestration.SyncOrchestrator.SyncMergeRequests` | packages/domain/src/sync-orchestrator.ts:394-426 | GitLab moves on all the time but while the list is read; whenever the cursor has moved, acknowledged or not, it is no later than the moment the list was asked for, everything is cached as it was then, and the invariant holds of the project as it is now; a calm run finishes if and only if the list ends |
| `SyncOrchestration.SyncOrchestrator.SyncAs` | packages/domain/src/sync-orchestrator.ts:247-266 | with one candidate exactly one run is made; completed means that run closed a window and every merge request is cached as it was when asked for, with both counts those of GitLab's lists; paused means it rested at the branch named; a calm run that closes its window completes if the merge-request list ends |
| `SyncOrchestration.SyncOrchestrator.SyncProject` | packages/domain/src/sync-orchestrator.ts:214-281 | whatever fails, nothing gained is lost and the runs form a chain; the candidates are tried in order, one run each unless its token or the project is refused at once, and only a refusal leads on to the next; completed and paused report the last run; a denied project is recorded for the user, any other refusal for the connection, and nothing else is recorded |
| `SyncOrchestration.SyncOrchestrator.TryCandidate` | packages/domain/src/sync-orchestrator.ts:217-273 | what a candidate's fault leads to: a refusal is recorded, and then the next one is tried; a missing credential counts as one only where the token is read first; every other fault ends the job; a calm run that finishes completes it |
| `SyncOrchestration.SyncOrchestrator.GiveUp` | packages/domain/src/sync-orchestrator.ts:428-464 | a denied project is recorded for the user and any other refusal for the connection, unless the write fails |
| `SyncOrchestration.AnyHistory` | packages/domain/src/sync-orchestrator.ts:187-281 | from empty tables, any number of jobs keeps commits and merge requests consistent; all runs together are one chain, cut into jobs whose candidates, tried in order, made them, so the cache is that of the completed windows written atomically |
| `JobTable.ClaimInFields` | packages/domain/src/job-queue.ts:123-163 | a claim starts the due pending row with attempts left that comes first by `run_after`, `created_at` and id, spends an attempt and stamps worker and time; it changes nothing only if no such row is due |
| `JobTable.VerdictsInFields` | packages/domain/src/job-queue.ts:165-248 | complete, block, reschedule and fail change a row only while it is running and claimed by that worker, each to its status, time and attempts, and leave it unclaimed |
| `JobTable.RecoveryInFields` | packages/domain/src/job-queue.ts:262-285 | a recovery leaves every lease untouched whose last heartbeat is no older than `staleClaimSeconds`, and ends every older one: pending at once if attempts are left, failed if not |
| `JobTable.NewRowsInFields` | packages/domain/src/sync-scheduler.ts:104-150 | a row is added exactly if the project has no active one, pending and unspent; the scheduler's is due after the interval since every terminal row of the project and no later than that or now |
| `JobTable.RemovalsInFields` | packages/domain/src/allowlist-admin.ts:59-169 | a removal blocks every active row of the project or instance, and changes no other |
| `JobTable.StepMoves` | packages/domain/src/job-queue.ts:96-285 | what any statement may do to a row: terminal rows never change, only claims start a due row, only enqueue and schedule add one |
| `JobTable.StepKeepsOneActive` | packages/domain/src/sync-scheduler.ts:104-150 | no statement of anyone makes a second pending or running job for a project |
| `JobTable.StepKeepsCadence` | packages/domain/src/sync-scheduler.ts:122-147 | a pending scheduler row never becomes runnable within the interval of an earlier terminal row, whatever is retried, paused or recovered |
| `JobTable.StepKeepsInv` | packages/domain/src/job-queue.ts:96-285 | every statement keeps leases well formed, attempts in range, one active job and the cadence |
| `JobHistory.TerminalRowsAreFinal` | packages/domain/src/job-queue.ts:165-248 | along any interleaving completed, failed and blocked rows stay exactly as they are |
| `JobHistory.AttemptsAreConserved` | packages/domain/src/job-queue.ts:128-228 | `attempts` is claims minus pauses in every reachable table, so at most five unpaused claims, and no pending job is out of attempts |
| `JobHistory.AttemptsStep` | packages/domain/src/job-queue.ts:211-230 | only a claim spends an attempt and only a pause gives one back, exactly one: the clamp at zero never binds |
| `JobHistory.ClaimsKeepTheInterval` | packages/domain/src/sync-scheduler.ts:122-147 | a scheduled job is claimed at least one interval after every earlier terminal transition of its project |
| `JobHistory.LostLeaseIsInert` | packages/domain/src/job-queue.ts:165-285 | once a claim was recovered or blocked, no later statement of that worker on that row changes the table |
| `JobHistory.OneLeasePerProject` | packages/domain/src/job-queue.ts:123-163 | in every reachable table at most one worker holds a lease for a project |
| `JobHistory.AheadGrowsIff` | packages/domain/src/job-queue.ts:96-285 | a statement lets a row in ahead of a waiting one if and only if a row joins whose time, after interval and active-row guard, precedes it in claim order |
| `JobHistory.PromptNeverOvertakes` | packages/domain/src/job-queue.ts:178-283 | statements that bring times no older than the lag let nobody in ahead of a row overdue by more |
| `JobHistory.NewcomersQueueUp` | packages/domain/src/job-queue.ts:178-283 | so a row that becomes pending joins behind every overdue one |
| `JobHistory.ClaimsShortenTheQueue` | packages/domain/src/job-queue.ts:128-148 | every claim made while a due row waits takes that row or one ahead of it |
| `JobHistory.OvertakingIsCounted` | packages/domain/src/job-queue.ts:128-148 | in any history a due job leaves the queue within one claim more than the rows that were ahead of it or were let in ahead of it |
| `JobHistory.BoundedOvertaking` | packages/domain/src/job-queue.ts:128-148 | with prompt clocks, within one claim more than there were rows ahead of it |
| `JobHistory.LateSchedulerOvertakes` | packages/domain/src/sync-scheduler.ts:138-147 | without prompt clocks that bound is false: from an empty table, an overdue row with nobody ahead is still pending after a claim |
| `JobQueues.PostgresJobQueue.Enqueue` | packages/domain/src/job-queue.ts:96-121 | an active row exists afterwards, and no second one |
| `JobQueues.PostgresJobQueue.Claim` | packages/domain/src/job-queue.ts:123-163 | takes the first due row in claim order; none only if no row is due |
| `JobQueues.PostgresJobQueue.Finish` | packages/domain/src/job-queue.ts:165-248 | changes the row if and only if this worker still holds it, and says so |
| `JobQueues.PostgresJobQueue.Heartbeat` | packages/domain/src/job-queue.ts:250-260 | reports whether the lease is still held |
| `JobQueues.PostgresJobQueue.RecoverStaleClaims` | packages/domain/src/job-queue.ts:262-285 | no stale claim is left running, and their number is returned |
| `JobQueues.PostgresJobQueue.ScheduleTarget` | packages/domain/src/sync-scheduler.ts:104-150 | creates a row exactly if the project has no active one, so one is active afterwards |
| `JobQueues.PostgresJobQueue.DiscoverTargets` | packages/domain/src/sync-scheduler.ts:36-80 | each allowlisted project that a connected user enabled, exactly once |
| `JobQueues.PostgresJobQueue.Schedule` | packages/domain/src/sync-scheduler.ts:36-98 | with others acting in between, each target is scheduled once, in order, and has an active job after that statement; enqueued are exactly those that had none before it, coalesced the rest; a failing statement ends the pass after some of the targets |
| `JobQueues.PostgresJobQueue.RemoveProject` | packages/domain/src/allowlist-admin.ts:136-169 | leaves the project no active job |
| `JobQueues.PostgresJobQueue.RemoveInstance` | packages/domain/src/allowlist-admin.ts:59-84 | leaves no project of the instance an active job |
| `JobQueues.OthersCanBeReliedOn` | packages/domain/src/job-queue.ts:165-285 | whatever others do, a lease this worker still holds is the one it claimed |
| `Worker.RetryDelaysGrow` | apps/worker/src/worker-loop.ts:54-62 | delays start at 30 s, double, and are capped at 15 min, which binds only beyond the last attempt that is retried |
| `Worker.RunWorkerIteration.Beat` | apps/worker/src/worker-loop.ts:92-105 | a beat that finds the row not held, or fails, before or after it took effect, loses the lease for good |
| `Worker.RunWorkerIteration.GiveBack` | apps/worker/src/worker-loop.ts:149-182 | about the job given back: failed means failed on attempt five; retry scheduled means pending, claimable and due after the delay of its attempt; that was this worker's last statement; a lost claim was taken by someone else, unless a heartbeat failed unseen |
| `Worker.RunWorkerIteration.Work` | apps/worker/src/worker-loop.ts:107-182 | the statement made is the one the end of the sync asks for: completed only after a full sync, paused only out of budget, blocked only without candidate, given back only after a throw or a failed call; without failing calls there is no other answer but a claim that someone else took away; every status is the transition this worker's last statement made on the row it still held |
| `Worker.RunWorkerIteration.Answer` | apps/worker/src/worker-loop.ts:111-148 | with the lease lost when the sync ends, by a beat refused or failed, the claim is reported lost and no statement is made at all; otherwise the statement is the one the end of the sync asks for |
| `Worker.RunWorkerIteration.Run` | apps/worker/src/worker-loop.ts:64-185 | the reported row is the one claimed in this iteration, its last transition this worker's verdict, the one the end of the sync asks for, with everyone else acting in between; without failing calls nothing crashes, and a claim is lost only to someone else; idle means that the claim found nothing; whatever does not crash has first recovered stale claims and scheduled every target |
| `MembershipCaches.EffectiveTtl` | packages/domain/src/membership-cache-config.ts:35-53 | denials never outlive grants, whatever the environment asks for |
| `MembershipCaches.FreshGrantsAreBacked` | packages/domain/src/membership-cache.ts:58-77 | a fresh grant found in a sound cache has a probe younger than the TTL that nothing has contradicted |
| `MembershipCaches.UncleanedCut` | packages/domain/src/gitlab-connection.ts:187-205 | if the program stops between replacing a token and cleaning the cache, the cache is still sound if and only if it held no fresh grant of that user and instance |
| `MembershipCaches.CleanRunsStaySound` | packages/domain/src/membership-cache.ts:18-149 | along every interleaving of clean probes, write-backs and invalidations each cached grant is backed like that |
| `MembershipCaches.LateWriteBackRevivesAccess` | packages/domain/src/membership-cache.ts:79-111 | writing a grant back leaves the key backed if and only if nothing spoke against it since the probe |
| `MembershipCaches.RevokedThenWrittenBack` | packages/domain/src/project-access.ts:428-466 | the run in which an invalidation is undone by a late write-back |
| `MembershipCaches.EntriesExpire` | packages/domain/src/membership-cache.ts:79-111 | in any run grants live exactly their TTL and denials at most the longer of negative TTL and 300 s |
| `MembershipCaches.NegativeTtlBoundsSyncDenials` | packages/domain/src/sync-orchestrator.ts:481-562 | denials written by the sync respect the negative TTL if and only if it is at least 300 s |
| `ProbePool.StepKeepsIndices` | packages/domain/src/project-access.ts:143-167 | under any interleaving a taken index is new, and a waiting one is handled once |
| `ProbePool.ScheduleDoesNotMatter` | packages/domain/src/project-access.ts:107-167 | a batch is rejected under one schedule exactly if under all, namely if some probe throws; otherwise all handle each id once and record the same |
| `ProbePool.BoundedConcurrency` | packages/domain/src/project-access.ts:143-167 | no more probes are in flight than the smaller of concurrency and ids |
| `ProbePool.RejectedAsUnauthorizedIff` | packages/domain/src/project-access.ts:143-167 | some schedule rejects the batch with a refused token, which costs the connection, if and only if a refused probe has fewer throwing ones before it than there are workers |
| `ProbePool.StepsRunOut` | packages/domain/src/project-access.ts:155-166 | every step of every worker makes progress, so every schedule ends |
| `ProbePool.NoWorkersDenyEverything` | packages/domain/src/project-access.ts:148-154 | a concurrency below one probes nothing and records nothing |
| `AccessWorld.WrittenKeepsSound` | packages/domain/src/membership-cache.ts:79-111 | a write-back keeps every grant outside the stale keys backed; one that is late or contradicted becomes stale |
| `AccessWorld.ContradictedIsStale` | packages/domain/src/gitlab-connection.ts:187-205 | a contradiction makes a fresh grant stale, and leaves it without any backing, if and only if it speaks against its key |
| `AccessWorld.CleanedUpIsNotStale` | packages/domain/src/membership-cache.ts:113-149 | a contradiction followed by its clean-up leaves nothing stale |
| `AccessWorld.EffectKeepsSound` | packages/domain/src/membership-cache.ts:18-149 | every statement of anyone, the sync's denials and an administrator's removals included, leaves each grant outside the stale keys backed, the allowlist without repetitions, and one active connection per user and instance |
| `AccessWorld.RunsStaySound` | packages/domain/src/membership-cache.ts:18-149 | so at every moment of any run of statements a fresh grant is stale or has a young probe behind it that nothing contradicts |
| `ProjectAccess.LiveProjectAccess.LookUp` | packages/domain/src/membership-cache.ts:58-77 | exactly the ids with an unexpired entry are decided from the cache; each of the others is asked once |
| `ProjectAccess.LiveProjectAccess.WriteBack` | packages/domain/src/project-access.ts:440-463 | the request's own writes are one per answered id, in order, with what was answered; an unanswered id is reported unknown and not written; a failing write ends them, done or not |
| `ProjectAccess.LiveProjectAccess.Probe` | packages/domain/src/project-access.ts:428-466 | after the token is read and no probe threw, all ids are asked and written back; if a refusal came first nothing is written and the token is given up; anything else that breaks the batch off gives nothing up |
| `ProjectAccess.LiveProjectAccess.ResolveVisibility` | packages/domain/src/project-access.ts:402-466 | one verdict per id, with others acting throughout: a fresh entry decides, every other id is asked once and its answer is the verdict; all the request writes is one entry per answer, never one for an unknown; allowed means backed, or a stale grant, at some moment; it is rejected only if a call may fail or a probe throws, and as refused only with the token given up as a whole |
| `ProjectAccess.LiveProjectAccess.HandleUnauthorized` | packages/domain/src/project-access.ts:468-483 | from the refusal on no earlier probe counts; its statements are the connection's status and then the clean-up, both unless one of the calls failed |
| `ProjectAccess.ListsOneMore` | packages/domain/src/project-access.ts:238-292 | a further connection, rejected or not, leaves the other connections' items valid while others act |
| `ProjectAccess.LiveProjectAccess.ListForUser` | packages/domain/src/project-access.ts:217-296 | every project allowlisted and connected until the rows were read is listed once; each part of an item held at some moment of the request; what GitLab shows is left out only after a cached denial, or marked as failed where a connection to that instance could not be asked; the request caches answers as given and gives up refused tokens, and nothing else |
| `ProjectAccess.LiveProjectAccess.AuthorizedProjectIds` | packages/domain/src/project-access.ts:386-394 | with others acting, each project was allowlisted, enabled, connected, and backed by a young probe nothing had contradicted, at some moment of the request, unless its cached grant was stale; none is missing for which all held throughout and GitLab shows it, unless the cache denied it, or an active connection to its instance could not be asked, or a probe of that instance threw |
| `ProjectAccess.LiveProjectAccess.Enable` | packages/domain/src/project-access.ts:313-365 | the enable is written, last, only for a project that was allowlisted, connected and visible at moments of the request; it is refused only where one of these failed at some moment, the cache denied, or a call failed |
| `ProjectAccess.LiveProjectAccess.Disable` | packages/domain/src/project-access.ts:367-384 | its statements are the delete and then the clean-up, both unless a call failed; once the delete took effect no probe made before counts for that user and project, even if the clean-up fails |
| `ProjectAccess.LiveProjectAccess.SaveConnection` | packages/domain/src/gitlab-connection.ts:138-226 | its statements are the row and then the clean-up, as far as nothing failed; the row is the user's live one or a new one; it is refused exactly if the identity is taken, or another row was active when its transaction ran, and otherwise saved unless a call fails; once the token was replaced, broken off or not, nothing the old one showed counts; a completed save has cleaned the cache |
| `ProjectAccess.LiveProjectAccess.RetestStored` | packages/domain/src/gitlab-connection.ts:255-321 | a working token makes the connection active, unless the unique index keeps it out at that moment or a call fails; a refused one, or an address no longer allowlisted, gives the token up; any other failure changes nothing |
| `ProjectAccess.LiveProjectAccess.DeleteConnection` | packages/domain/src/gitlab-connection.ts:228-253 | no probe made through the connection counts from then on; its statements are the status and then the clean-up, both unless one of the calls failed |
| `ProjectAccess.LiveProjectAccess.RemoveProject` | packages/domain/src/allowlist-admin.ts:136-169 | takes the project, its enables and every cached grant of it from everyone, in one moment |
| `ProjectAccess.LiveProjectAccess.RemoveInstance` | packages/domain/src/allowlist-admin.ts:59-84 | takes every project of the address, their enables and cached grants, in one moment, unless a connection row, whatever its status, refers to the address: then it changes nothing |
| `CredentialVault.StepKeepsInv` | packages/credentials/src/pat-credential-provider.ts:108-192 | every step of every interleaved transaction keeps row locks exclusive and one active row per connection |
| `CredentialVault.OneActivePerConnection` | packages/credentials/src/pat-credential-provider.ts:234-250 | in every reachable state a connection has at most one active credential |
| `CredentialVault.ReadersGetTheLastToken` | packages/credentials/src/pat-credential-provider.ts:148-169 | a reader gets the last committed token that no invalidation took away since, and nothing else |
| `CredentialVault.RetiredRowsAreFinal` | packages/credentials/src/pat-credential-provider.ts:171-192 | superseded, revoked and invalid rows are never rewritten or revived, and no row's token ever changes |
| `CredentialVault.FailedRotationsChangeNothing` | packages/credentials/src/pat-credential-provider.ts:124-146 | without a commit or an invalidation no row changes: a failure anywhere leaves the old token usable |
| `CredentialVault.InvalidationClears` | packages/credentials/src/pat-credential-provider.ts:175-192 | an invalidation leaves no readable token if and only if the active row is among those its statement saw when it began |
| `CredentialVault.ReplacementOutlivesInvalidation` | packages/credentials/src/pat-credential-provider.ts:175-192 | the run in which a token committed while the invalidation waits stays readable |
| `CredentialVault.NoDeadlock` | packages/credentials/src/pat-credential-provider.ts:234-250 | while any transaction runs, one can take a step that brings it closer to its end |
| `CredentialVault.EveryoneCanFinish` | packages/credentials/src/pat-credential-provider.ts:234-250 | from any state some sequence of the transactions' own steps ends them all |
| `CredentialVault.ActiveIsTheOneRead` | packages/credentials/src/pat-credential-provider.ts:175-192 | an active row is the one read earlier if and only if no token was committed for the connection since |
| `CredentialVault.PatCredentialProvider.StoreCredential` | packages/credentials/src/pat-credential-provider.ts:108-122 | commits only where nothing is active; refused for an active credential only if its locking read found one that it had seen, for a race only if its insert met one; a failure needs a failing call or another rotation of the connection under way; undisturbed, it stores the token exactly if nothing was active |
| `CredentialVault.PatCredentialProvider.ReplaceCredential` | packages/credentials/src/pat-credential-provider.ts:128-146 | either nothing is committed, or one commit supersedes exactly the active row and makes the new token readable, acknowledged or not; a race is reported only if its insert met a row it does not hold, a failure needs a failing call or another rotation under way; undisturbed, it always replaces |
| `CredentialVault.PatCredentialProvider.InsertActive` | packages/credentials/src/pat-credential-provider.ts:194-231 | loses to the unique index without a trace, and only if a row that it does not hold is active, or commits the sealed row as the only active one |
| `CredentialVault.PatCredentialProvider.InvalidateCredential` | packages/credentials/src/pat-credential-provider.ts:175-192 | retires exactly the rows seen active when it began that still are, acknowledged or not, and says when that leaves no token; it fails only with a failing call or while a rotation of the connection is under way; undisturbed, no token is left |
| `CredentialVault.PatCredentialProvider.RefuseToken` | packages/domain/src/project-access.ts:468-476 | a token refused later: what the invalidation takes away, if anything, is the row read if and only if no token was committed in between |
| `CredentialVault.PatCredentialProvider.GetAccessToken` | packages/credentials/src/pat-credential-provider.ts:148-169 | returns the last token of the event log, and never an unreadable one |
| `IpText.QuadsAreCanonical` | packages/gitlab-client/src/ip.ts:37-57 | a text is read as a quad exactly when it is that quad printed without leading zeros |
| `IpText.ParseIpv4` | packages/gitlab-client/src/ip.ts:37-57 | the loop accepts exactly the canonical dotted quads and inverts printing |
| `IpGrammar.ParseIpv6` | packages/gitlab-client/src/ip.ts:63-115 | the loop returns an address exactly when the text is one of its forms |
| `IpGrammar.ParsedAddressIff` | packages/gitlab-client/src/ip.ts:63-115 | a text is read as an address exactly when it is one of the forms of section 2.2 of RFC 4291 writing that address |
| `IpGrammar.TextsAreUnambiguous` | packages/gitlab-client/src/ip.ts:63-115 | no text can be read in two ways |
| `IpGrammar.EverySpellingIsRead` | packages/gitlab-client/src/ip.ts:63-115 | full form, any run of zero words left out, with or without a dotted-quad tail, in any case and with any leading zeros: the same sixteen bytes |
| `IpGrammar.PrintedIsRead` | packages/gitlab-client/src/ip.ts:63-115 | printing eight words and parsing gives any address back |
| `IpClass.Ipv4MatchesLongest` | packages/gitlab-client/src/ip.ts:117-174 | the category is that of the longest registered block containing the address, and public if none does |
| `IpClass.Ipv6MatchesLongest` | packages/gitlab-client/src/ip.ts:176-220 | the same for IPv6, bit masks included |
| `IpClass.SurroundingsDoNotMatter` | packages/gitlab-client/src/ip.ts:234-241 | white space and one pair of brackets around an address change nothing |
| `IpClass.SpellingDoesNotMatter` | packages/gitlab-client/src/ip.ts:234-271 | any two ways of writing one address get the same category and family |
| `IpClass.MappedIsTheQuad` | packages/gitlab-client/src/ip.ts:222-264 | however `::ffff:q` is written, it is classified as `q` (section 2.5.5.2 of RFC 4291) |
| `IpClass.NormalFormIsStable` | packages/gitlab-client/src/ip.ts:234-271 | classifying the normal form gives category, family and normal form again |
| `IpClass.UnknownIsUnread` | packages/gitlab-client/src/ip.ts:234-271 | unknown is exactly what could not be read |
| `IpClass.ClassifyIpAddress` | packages/gitlab-client/src/ip.ts:234-271 | computes the classification that these theorems are about |
| `Ssrf.Check` | packages/gitlab-client/src/ssrf.ts:78-149 | decides for a URL exactly if every candidate address is admissible; the pinned address is read back as the first candidate's admissible class; a refusal names the first reason |
| `Ssrf.LiteralHostIsItsOnlyCandidate` | packages/gitlab-client/src/ssrf.ts:92-106 | a literal host is its own only candidate, classified as the URL's host was, brackets or none |
| `RequestExecution.BackoffIsBounded` | packages/gitlab-client/src/http.ts:199-220 | the server's wait is kept to the millisecond; any other is the drawn share of a ceiling, in whole milliseconds; the ceiling starts at the base and doubles up to its limit |
| `RequestExecution.ResponsesSorted` | packages/gitlab-client/src/http.ts:249-296 | each response has exactly one outcome: a usable 2xx its status and body, an unusable one a bad body, 429, 408, 5xx and above and every other status their own error with the server's wait; exactly 408, 429 and 5xx and above are retried |
| `RequestExecution.TryAdded` | packages/gitlab-client/src/http.ts:145-161 | a further attempt given the rest of the budget keeps the pacing |
| `RequestExecution.SettledIsGuarded` | packages/gitlab-client/src/http.ts:91-118 | an attempt that settles like this connects only to an admissible address, for a name the first of those that its own resolution gave |
| `RequestExecution.RequestExecutor.Attempt` | packages/gitlab-client/src/http.ts:85-137 | the guard decides on what this attempt itself resolved; blocked, without credential, answered or broken, the outcome is exactly the one that what the world answered makes: a broken wire is an abort if the caller aborted, else a timeout if the time given is over, else unavailable; it ends within its timeout |
| `RequestExecution.RequestExecutor.RequestJson` | packages/gitlab-client/src/http.ts:140-182 | at most `maxAttempts` attempts with fewer waits, over within the total budget, each settled by what the world answered to it; it returns the first success, the first error not worth a retry, or the last retryable error once attempts are spent, time is up or the wait drawn does not fit; aborted between attempts it says so |

## Left out

- Pages, route handlers, sessions, user administration, environment files, dashboard and KPI queries.
- Audit records, error texts, e-mail normalisation, display paths and project names.
- JSON, URL and HTTP-date parsing, body streaming and its byte cap, TLS, sockets and timers beyond the times they take.
- Cryptography: a sealed token is a value that opens only under the identity it was sealed for.
- `assertSameOrigin` of the egress guard.
- Collation: branch names are compared by any total preorder.
- Foreign-key violations on inserting a credential, and the PAT text policy, which is a parameter of the provider.
- The unique index over GitLab identities: whether an identity is free is a parameter of saving a connection.
- `ProjectAccess.LiveProjectAccess.AuthorizedProjectIds`: allowlist, enables and connections are read once each, so nothing is promised about the moment the answer is used.
- `ProjectAccess.LiveProjectAccess.SaveConnection`: a unique violation while saving the e-mail address counts as a failed call, although the source words it as an identity linked elsewhere.
- `ProjectAccess.LiveProjectAccess.RetestStored`: the list of connections it answers with is not modelled.
- `ProjectAccess.LiveProjectAccess.Enable`: says nothing of what others do to the enable before or after.
- `SyncOrchestration.SyncOrchestrator.SyncProject`: the candidate's credential and membership rows are sets of recorded connections and users here; their own life is in `CredentialVault` and `ProjectAccess`.
- `RequestExecution.RequestExecutor.RequestJson`: a timer may fire up to `late` after it is due, and the budget is met up to `late`.
