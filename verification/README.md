# Dafny model of the towow work-scheduling and gate kernel

The `towow` harness schedules work for agent sessions and decides, at gates, what counts as done. This
project models the protocols and algorithms underneath and proves what their comments promise, on all
inputs and over whole runs. `dafny verify dfyconfig.toml` checks everything.

| module | what it models |
|---|---|
| `ImpactSlice` | depth-bounded breadth-first slices of the impact graph, with recorded paths |
| `Neighborhood` | the level-set neighbourhood of a concept |
| `ClaimSteps` | claim, renew and release as interleaved system calls of many processes |
| `ClaimFiles` | the claim directory with its reaper and crashes, every operation atomic |
| `VerdictLocate`, `ForkLoop`, `ForkSlots` | finding a verdict in printed JSON; the crash, resume, retry and harvest loop around one fork, and its journal; the cap on concurrent forks |
| `LedgerGuard` | the deletion guard and birth gate of the event ledger, on a file tree |
| `Digraph`, `ReadySet`, `DispatchBatch`, `SchedulerRun` | readiness and deadlock detection of plans, capped greedy batches, and whole scheduler runs |
| `DeadLetter`, `Reconcile` | the dead-letter inbox with its key index, and the level-triggered reconcile pass |
| `ClosureGate`, `LedgerEvents`, `DoneRecompute` | checking a closure result against its contract, counting ledger events, routing the outcome, and execution's own check |
| `SessionLock`, `StartSection` | session lock files and heartbeats; the critical section around starting a session |
| `Novelty` | the novelty gate over the rounds of a fix |
| `ReflowMint` | how often a stuck worktree may mint findings |
| `Holdout`, `Judgments` | holding cases out over exact rationals, retrieval, and the regression |
| `Prelude` | small datatypes, string functions and the stable sort shared by the others |

Code that updates files, queues or records in place is a class or a method with loops, proved against a
specification function or a declarative predicate; what the source promises is then proved of that
specification. Each store is updated in one step per operation except in `ClaimSteps`,
`StartSection` and `ForkSlots`, where single steps interleave.

Clocks, process liveness, subprocess results, uuid supplies and the routing of events are parameters:
arbitrary values, streams or functions. Uuids are only assumed distinct where a lemma says so.

## Where the code falls short of what it promises

The model keeps the code as it is. For each promise below there is a lemma that names the failing
family, and one that says exactly when the promise holds.

- Two processes going by one claimant name can both be handed one token, because release reads and
  unlinks in two steps (`ClaimSteps.TwinsCollide`, `ClaimSteps.UniqueIffNamesDistinct`).
- A crash between truncating and writing the fence file makes token 1 come out again
  (`ClaimFiles.TruncationReissues`, `ClaimFiles.TokensIncreaseIffNeverReset`).
- The journal's comment says that only valid verdicts are recorded; an exhausted, invalid one is too
  (`ForkLoop.InvalidVerdictIsJournalled`). It is kept iff the caller requires no field beside the passed
  key (`ForkLoop.JournalsOnlyValidIff`).
- The ledger birth gate looks upward only, so an outer root born after an inner one forks the ledger
  (`LedgerGuard.OuterBornLaterForks`, `LedgerGuard.BirthKeepsForkFreeIff`).
- The freeze gate checks the edges that are still active, the scheduler counts every edge ever added: a
  corrected edge can deadlock a plan silently (`ReadySet.CorrectedEdgeDeadlocks`,
  `ReadySet.MovesIffAcyclic`).
- Two objects whose references differ only in what is not alphanumeric have one filename slug. They share
  a dead-letter entry (`DeadLetter.CollisionDrops`, `DeadLetter.EnqueueTakesIffSlugInjective`,
  `DeadLetter.SlugsAgreeIff`) and keep the reconciler busy for ever (`Reconcile.CollisionIsNeverQuiet`,
  `Reconcile.QuietAfterThree`).
- `derive_closure_state` documents that an item the gate cannot recompute falls back to
  fix_insufficient; a failed ripple or residual beside it makes it ripple_incomplete
  (`ClosureGate.ManualCriterionSlipsThrough`, `ClosureGate.UnrecomputedFallsBackIff`).
- A heartbeat reads and rewrites its lock file in two steps and can bring back a session that was taken
  over in between (`StartSection.LateBeatDoubles`, `StartSection.OneSessionPerKey`). Heartbeats are cut
  to whole seconds, so one every stale_after seconds is not enough (`SessionLock.GapSafeIff`,
  `SessionLock.BeatingSessionSurvives`).
- The novelty gate's docstring compares a round with its current run, which is taken here as the rounds
  since the last new one, that one included; the code compares it with the whole lineage
  (`Novelty.ReturnIsStaleForTheCodeOnly`, `Novelty.DocstringAgreesIff`). Everything else about the gate is
  stated of the code.
- A further round can undo an escalation (`Novelty.MiddleRoundUndoes`), exactly when its number falls
  between those of others (`Novelty.UndoesIffInTheMiddle`).

## Model

| member | source | states |
|---|---|---|
| `ImpactSlice.ClampDepth` | harness/src/towow/l1/cia_query.py:192-194 | the requested depth is cut to 0..5 and kept unchanged inside that range |
| `ImpactSlice.FilteredAdjacency` | harness/src/towow/l1/cia_query.py:266-295 | the loop over raw edges builds, per node, the hops of the usable edges of the wanted types in edge order: forward from e.source to e.target, backward from e.target to e.source |
| `ImpactSlice.HopsFromIff` | harness/src/towow/l1/cia_query.py:277-295 | a hop is in the row of a node iff some usable edge of the log has that node as its source and the hop as its target (the other way round going backward), with its id and type |
| `ImpactSlice.Bfs` | harness/src/towow/l1/cia_query.py:297-347 | the queue loop with its visited set computes the specification search |
| `ImpactSlice.ScanTables` | harness/src/towow/l1/cia_query.py:324-346 | the nested scans over tables and rows are one scan of all hops out of the node, in order |
| `ImpactSlice.BfsIsSlice` | harness/src/towow/l1/cia_query.py:297-347 | the search lists each node but the start once, iff a walk within the depth reaches it, with the shortest depth and a walk of that length |
| `ImpactSlice.SliceIsExact` | harness/src/towow/l1/cia_query.py:266-347 | the same said of raw edges alone: reached within the depth iff listed, the recorded edge ids and types spell a real walk whose steps each go from the source of an edge to its target (backward: target to source), and no walk is shorter |
| `ImpactSlice.ForwardSlice` | harness/src/towow/l1/cia_query.py:351-369 | a forward slice is the exact slice from sources to targets over the default edge types at the depth cut to 0..5 |
| `ImpactSlice.BackwardSlice` | harness/src/towow/l1/cia_query.py:371-387 | a backward slice is the exact slice from targets to sources over the default edge types at the depth cut to 0..5 |
| `ImpactSlice.ContractCheck` | harness/src/towow/l1/cia_query.py:389-403 | contract partners are the exact slice over contract edges only, crossed both ways |
| `ImpactSlice.ForwardBackwardDual` | harness/src/towow/l1/cia_query.py:351-387 | v is listed from u going forward at depth d iff u is listed from v going backward at depth d |
| `ImpactSlice.DeeperSliceExtends` | harness/src/towow/l1/cia_query.py:297-347 | a larger maximum depth only appends results |
| `Neighborhood.Grow` | harness/src/towow/l1/consensus_query.py:358-369 | one level: the new concepts are those just outside the frontier, the kept edges gain every wanted edge touching it, without repeats |
| `Neighborhood.GetNeighborhood` | harness/src/towow/l1/consensus_query.py:337-383 | the subgraph holds exactly the known concepts within hops undirected steps over active edges of the given types, and exactly those edges that touch a concept nearer than hops; unknown centre is the error |
| `Neighborhood.LevelGrows` | harness/src/towow/l1/consensus_query.py:356-371 | the level-set invariant: reached is the ball of radius k, the frontier its outermost shell |
| `Neighborhood.LevelStays` | harness/src/towow/l1/consensus_query.py:370-371 | an empty next frontier is final, so breaking out early loses nothing |
| `ClaimSteps.FencingHolds` | harness/src/towow/awareness/claim.py:84-159 | in every interleaving of system calls of distinctly named processes, wins return 1, 2, 3, ..., each pair separated by a release, and only the newest drawn token verifies |
| `ClaimSteps.RunInv` | harness/src/towow/awareness/claim.py:84-146 | the step invariant behind it: one owner of the claim file, whose program counter matches file and fence |
| `ClaimSteps.OwnedKept` | harness/src/towow/awareness/claim.py:84-146 | each single system call keeps the ownership invariant |
| `ClaimSteps.HistoryKept` | harness/src/towow/awareness/claim.py:96-146 | each single system call keeps the alternation of wins and releases |
| `ClaimSteps.SupersededStaysDead` | harness/src/towow/awareness/claim.py:149-159 | a token below the newest drawn one verifies in no later state |
| `ClaimSteps.UniqueIffNamesDistinct` | harness/src/towow/awareness/claim.py:125-146 | tokens are unique in every interleaving iff no two processes share a claimant name |
| `ClaimSteps.TwinsCollide` | harness/src/towow/awareness/claim.py:140-146 | the failing interleaving for two processes of one name |
| `ClaimSteps.ClaimUndisturbed` | harness/src/towow/awareness/claim.py:84-111 | left alone, the five system calls of a claim win a free slot with the token after the one in the fence file, and leave a taken slot as it is; on the way the claim file is blank until the last call, the fence file empty after the third |
| `ClaimSteps.RenewReleaseUndisturbed` | harness/src/towow/awareness/claim.py:125-146 | left alone, renewing an own claim blanks its file and writes it back, releasing it frees the slot; neither touches a claim under another name |
| `ClaimFiles.ClaimDir.ClaimTask` | harness/src/towow/awareness/claim.py:96-111 | claims the slug iff its file is absent, with the fence number plus one, and touches no other slug |
| `ClaimFiles.ClaimDir.NextToken` | harness/src/towow/awareness/claim.py:84-93 | the fence file is read, unparsable or absent as 0, and rewritten one higher |
| `ClaimFiles.ClaimDir.RenewClaim` | harness/src/towow/awareness/claim.py:125-137 | only the claimant renews; the timestamp and task id change, the token does not; JSON without a claimant makes the reader raise |
| `ClaimFiles.ClaimDir.ReleaseClaim` | harness/src/towow/awareness/claim.py:140-146 | only the claimant releases, and the fence stays; JSON without a claimant makes the reader raise |
| `ClaimFiles.ClaimDir.VerifyFencingToken` | harness/src/towow/awareness/claim.py:149-159 | a token is accepted iff it equals the fence number; no readable fence refuses |
| `ClaimFiles.ClaimDir.ReapStaleClaims` | harness/src/towow/awareness/claim.py:183-232 | keeps exactly the claims that are young enough or vouched for as live; of each file taken there is a record with its own task, claimant, token and age, or its slug when it holds no claim, ordered by task id |
| `ClaimFiles.SortedSorts` | harness/src/towow/awareness/claim.py:232-232 | the records come in the order of their task ids, none lost or doubled |
| `ClaimFiles.FencingHolds` | harness/src/towow/awareness/claim.py:84-232 | over every run with reaper and crashes outside the fence write: drawn tokens are 1, 2, 3, ..., winners increase, takings alternate with freeings, exactly the newest token verifies |
| `ClaimFiles.HistoryWithoutCrashes` | harness/src/towow/awareness/claim.py:96-232 | without crashes the history is win 1, free, win 2, free, ... |
| `ClaimFiles.SupersededStaysDead` | harness/src/towow/awareness/claim.py:149-159 | a superseded token verifies in no later state of the run |
| `ClaimFiles.TokensIncreaseIffNeverReset` | harness/src/towow/awareness/claim.py:84-93 | with crashes of every kind, tokens strictly increase iff nobody draws from an unparsable fence that already handed tokens out |
| `ClaimFiles.TruncationReissues` | harness/src/towow/awareness/claim.py:87-92 | the failing family: a crash between truncating and writing the fence makes token 1 come out again |
| `ClaimFiles.SurvivesIffKeptAlive` | harness/src/towow/awareness/claim.py:125-137 | a claim outlives a run with its token iff its holder does not release or die renewing, and no reap comes later than the threshold after the last heartbeat, unless live |
| `ClaimFiles.StrandedIsRecovered` | harness/src/towow/awareness/claim.py:183-232 | whatever a crash stranded, a late enough reap frees the slug and the next claim gets a token never drawn before |
| `ClaimFiles.ExcludesIffSameSlug` | harness/src/towow/awareness/claim.py:74-81 | after any run, while one task is taken a claim of another whose slot is free loses iff the ids differ at most in slashes, backslashes and underscores; it never changes the taken slot |
| `ClaimFiles.SlugsAgreeIff` | harness/src/towow/awareness/claim.py:74-81 | two task ids have the same files iff they differ at most in slashes, backslashes and underscores |
| `ClaimFiles.RecordsTell` | harness/src/towow/awareness/claim.py:206-232 | the records are those of the files that overstay, each saying what its file said |
| `VerdictLocate.LocateExact` | harness/src/towow/l1/verification_fork.py:871-899 | the search returns a dict of its range with the outcome that its passed key says, and nothing iff no dict at level 0 to 8, nor at level 9 under the result key, says one |
| `VerdictLocate.JudgementMeans` | harness/src/towow/l1/verification_fork.py:834-844 | a dict says b iff its first entry under the passed key is the bool b, or a string that is, blanks and case aside, true, yes, passed, pass or ok (for b false: false, no, failed or fail) |
| `VerdictLocate.LocateSound` | harness/src/towow/l1/verification_fork.py:883-899 | whatever is found is reached through dict values within the remaining depth |
| `VerdictLocate.LocateComplete` | harness/src/towow/l1/verification_fork.py:883-899 | if any dict in range is judged, something is found |
| `VerdictLocate.LocatePriority` | harness/src/towow/l1/verification_fork.py:885-899 | wrapped beats top level beats values, and among values the first that leads to one decides, each with the outcome its passed key says |
| `VerdictLocate.ListsAreNeverEntered` | harness/src/towow/l1/verification_fork.py:877-898 | with every list at every depth replaced by null the search finds the same verdict |
| `VerdictLocate.ParseForkVerdict` | harness/src/towow/l1/verification_fork.py:965-979 | the loop from the last candidate backwards computes the last verdict, whose meaning LastVerdictIsLast states |
| `VerdictLocate.LastVerdictIsLast` | harness/src/towow/l1/verification_fork.py:966-973 | the verdict comes from the last candidate that holds a dict with a bool or verdict word under its passed key, and passed is what that key says; none iff no candidate holds one |
| `VerdictLocate.SchemaIgnoresOutcome` | harness/src/towow/l1/verification_fork.py:847-868 | a parsed verdict fails the schema iff one of the required fields is missing, never for saying not passed |
| `ForkLoop.SpawnLoop` | harness/src/towow/l1/verification_fork.py:1406-1546 | the loop over an arbitrary stream of outcomes has the closed form: the launches, the stopping run and the result of each position |
| `ForkLoop.Examine` | harness/src/towow/l1/verification_fork.py:1440-1467 | what one run amounts to: a valid verdict, clean or harvested from a timeout, or a crash, or neither |
| `ForkLoop.FirstDecisiveRunDecides` | harness/src/towow/l1/verification_fork.py:1469-1546 | the first run with a schema-valid verdict is the last run; the answer passes iff the verdict found in its output has every required field and its passed key holds true or a word for it |
| `ForkLoop.DecisiveMeans` | harness/src/towow/l1/verification_fork.py:1440-1474 | a run decides iff it exited cleanly or was timed out and its output holds a verdict with every required field; what that verdict says does not matter |
| `ForkLoop.LaterOutcomesAreNeverSeen` | harness/src/towow/l1/verification_fork.py:1469-1546 | streams that agree up to the stopping run give the same result |
| `ForkLoop.RunsAreBounded` | harness/src/towow/l1/verification_fork.py:1406-1421 | at most max_retries + 2 runs, max_retries + 1 without a session |
| `ForkLoop.RunBoundIsReached` | harness/src/towow/l1/verification_fork.py:1497-1507 | the bound is reached when every spawn fails |
| `ForkLoop.AtMostOneResume` | harness/src/towow/l1/verification_fork.py:1479-1519 | at most one run is a resume; it follows a crash and continues the session of the fresh spawn just before it |
| `ForkLoop.FreshIdsAreDistinct` | harness/src/towow/l1/verification_fork.py:1423-1438 | no session id is registered by two fresh spawns |
| `ForkLoop.NoScratchRetryAfterTimeout` | harness/src/towow/l1/verification_fork.py:1476-1489 | without retry_on_timeout the run after a timeout can only be a resume |
| `ForkLoop.ForkJournal.Lookup` | harness/src/towow/l1/verification_fork.py:464-477 | the last record under the key is the hit |
| `ForkLoop.ForkJournal.Append` | harness/src/towow/l1/verification_fork.py:508-523 | a record goes behind the others |
| `ForkLoop.RunVerificationFork` | harness/src/towow/l1/verification_fork.py:1313-1363 | a cache hit answers without spawning; otherwise the loop runs, its answer passes iff the verdict in it is complete and says true, and an end with a located verdict is recorded |
| `ForkLoop.AskTwice` | harness/src/towow/l1/verification_fork.py:1313-1363 | a recorded end answers the second call with the same verdict whatever the child would do now; any other end is run again |
| `ForkLoop.JournalledIsValidIffDecisive` | harness/src/towow/l1/verification_fork.py:1360-1362 | of what is recorded, exactly the ends of a decisive last run are schema-valid; the others are recorded as not passed, with the retries used up |
| `ForkLoop.JournalsOnlyValidIff` | harness/src/towow/l1/verification_fork.py:452-454 | whatever the child does only valid verdicts are recorded, as the class comment promises, iff no field beside the passed key is required |
| `ForkSlots.StepKeepsInv` | harness/src/towow/l1/verification_fork.py:337-347 | each step of any process keeps permits plus holders equal to the cap and the counter equal to the number inside |
| `ForkSlots.CapHolds` | harness/src/towow/l1/verification_fork.py:308-347 | in every interleaving at most cap forks are inside, the counter is their number, and what it leaves available is the permits left iff no process is between its two steps |
| `ForkLoop.InvalidVerdictIsJournalled` | harness/src/towow/l1/verification_fork.py:452-454 | the failing family: a child that prints nothing but the passed key has its invalid verdict recorded, whatever other field is required |
| `LedgerGuard.FileSystem.RealSentinelHits` | harness/src/towow/l0/fs_guard.py:206-228 | the walk finds exactly the true or unprovable sentinels below a directory |
| `LedgerGuard.FileSystem.LedgerAncestorViolation` | harness/src/towow/l0/fs_guard.py:231-260 | reports iff some ancestor holds a sentinel that forbids the target |
| `LedgerGuard.FileSystem.AssertRmtreeSafe` | harness/src/towow/l0/fs_guard.py:263-324 | lets a directory go iff it holds no events log, holds no ledger, lies in none, and is temporary by place or name or forced with a reason that is not blank |
| `LedgerGuard.FileSystem.SafeRmtree` | harness/src/towow/l0/fs_guard.py:327-344 | done iff the directory may go in that sense, and then what is reachable below it is removed; otherwise nothing is, and the answer is refused, missing or not a directory |
| `LedgerGuard.AllowedMeans` | harness/src/towow/l0/fs_guard.py:263-324 | the four assertions, read off the tree: events.log or events directly inside; a sentinel below that is no copy; a sentinel above with nothing temporary between; temp root, whitelisted segment, .tmp name, or force with a reason |
| `LedgerGuard.FileSystem.WriteLedgerSentinel` | harness/src/towow/l0/fs_guard.py:150-203 | the sentinel is written iff it is not current, readable enough, and the birth gate lets it |
| `LedgerGuard.LedgerSurvivesEveryRun` | harness/src/towow/l0/fs_guard.py:206-344 | over any run of deletions with any force and reason, births and creations, a true ledger stays one and keeps every file no exempting directory leads to |
| `LedgerGuard.StepKeepsLedger` | harness/src/towow/l0/fs_guard.py:263-344 | one deletion removes no file of a true ledger but an exempt one |
| `LedgerGuard.StepKeepsTrueRoot` | harness/src/towow/l0/fs_guard.py:263-344 | no deletion and no birth elsewhere takes away the root sentinel |
| `LedgerGuard.DeletableIffExempt` | harness/src/towow/l0/fs_guard.py:247-258 | in a lone ledger one call can delete a file iff a directory on the way is whitelisted or ends in .tmp |
| `LedgerGuard.GateIsExact` | harness/src/towow/l0/fs_guard.py:121-147 | asking only the nearest canonical root above refuses exactly when some .towow above would be forked: no temporary segment from its project down, and not under the temp root |
| `LedgerGuard.BirthKeepsForkFreeIff` | harness/src/towow/l0/fs_guard.py:139-147 | a birth keeps the tree free of forks iff the new root does not lie above an older one |
| `LedgerGuard.OuterBornLaterForks` | harness/src/towow/l0/fs_guard.py:121-147 | the family that slips through: inner ledger born first, outer one second |
| `LedgerGuard.CanonicalAboveIsNearest` | harness/src/towow/l0/fs_guard.py:105-118 | walking up finds the deepest canonical root above |
| `ReadySet.PlanDepGraph` | harness/src/towow/schemas/payloads/plan_freezed.py:636-667 | tasks in creation order, for each the targets of its edges in the order they were ever added, and its fan-in count; an edge is there iff both its tasks were created and it was once added |
| `ReadySet.ComputeReadyTasks` | harness/src/towow/l2/execution_dispatch.py:149-204 | the ready list is, in creation order, the created tasks neither completed nor genuinely closed, whose predecessors by added edges all are, and which have their review plan if they were first created in the implementation phase |
| `ReadySet.ReadyMeans` | harness/src/towow/l2/execution_dispatch.py:61-204 | the same said of the events of the log alone |
| `ReadySet.CompletedMeans` | harness/src/towow/l2/execution_dispatch.py:61-75 | a task counts as completed iff a successful run of it was completed |
| `ReadySet.StuckMeans` | harness/src/towow/l2/execution_dispatch.py:221-261 | stuck iff implementation tasks wait, nothing may start, and no review plan names the plan |
| `ReadySet.StuckImplementationPlans` | harness/src/towow/l2/execution_dispatch.py:221-261 | reports exactly the frozen plans with nothing ready, no review plan and waiting implementation tasks, with those tasks in creation order |
| `ReadySet.DeadlockTrichotomy` | harness/src/towow/l2/execution_dispatch.py:149-261 | an acyclic plan is finished, has a ready task, or is stuck with a non-empty list |
| `ReadySet.MovesIffAcyclic` | harness/src/towow/l2/execution_dispatch.py:149-204 | with a review plan, work left always means something ready, for every set of completed tasks, iff no open tasks form a cycle |
| `ReadySet.CycleBlocks` | harness/src/towow/l2/execution_dispatch.py:176-203 | with everything else completed, the tasks of a cycle are never ready |
| `ReadySet.ReviewPlanUnsticks` | harness/src/towow/l2/execution_dispatch.py:224-238 | the report names the cure: creating the review plan makes a task of a stuck acyclic plan ready |
| `ReadySet.GateSufficesWithoutRemovals` | harness/src/towow/schemas/payloads/plan_freezed.py:573-616 | where no edge was removed or written in the old form, passing the freeze gate makes the scheduler graph acyclic |
| `ReadySet.CorrectedEdgeDeadlocks` | harness/src/towow/schemas/payloads/plan_freezed.py:651-666 | a removed and reversed edge passes the gate, but the scheduler counts both: unfinished, nothing ready, not reported |
| `DispatchBatch.TasksPendingReplan` | harness/src/towow/l2/execution_dispatch.py:280-327 | pending iff some replan request is younger than every package published for the task |
| `DispatchBatch.ReadyExecutionTasksToDispatch` | harness/src/towow/l2/execution_dispatch.py:330-356 | the tasks that may start, not dispatched, not first created as review tasks, not pending a replan |
| `DispatchBatch.CountReaders` | harness/src/towow/l2/execution_dispatch.py:615-619 | the count of a concept is the number of tasks that read it |
| `DispatchBatch.HighFanoutBlocked` | harness/src/towow/l2/execution_dispatch.py:601-633 | blocked iff the candidate reads or writes a concept that an active task writes and at least four tasks read |
| `DispatchBatch.BlockedMeans` | harness/src/towow/l2/execution_dispatch.py:601-633 | the same said of the read and write claims alone |
| `DispatchBatch.SelectDispatchBatch` | harness/src/towow/l2/execution_dispatch.py:636-678 | the batch is what the capped greedy scan of the ordered queue picks |
| `DispatchBatch.QueueIsSorted` | harness/src/towow/l2/execution_dispatch.py:662-662 | the queue is the given tasks, critical ones first, each group by name |
| `DispatchBatch.CapsRespected` | harness/src/towow/l2/execution_dispatch.py:663-678 | load plus batch exceeds neither the total nor a tier cap unless it did on entry; sonnet has its own cap, every other tier that of opus |
| `DispatchBatch.LeftOutOnlyWhenFull` | harness/src/towow/l2/execution_dispatch.py:667-678 | an eligible task is left out only because the total cap or the cap of its tier is used up, opus where the plan names no tier |
| `DispatchBatch.PrecedingIsPickedFirst` | harness/src/towow/l2/execution_dispatch.py:662-678 | no task is taken while a preceding eligible one of its tier is left out |
| `DispatchBatch.CriticalBeatsNonCritical` | harness/src/towow/l2/execution_dispatch.py:662-678 | no non-critical task is taken while an eligible critical one of its tier is left out |
| `DispatchBatch.PickedAreEligible` | harness/src/towow/l2/execution_dispatch.py:658-675 | only candidates that are not blocked are picked, each on the tier that its plan names, opus failing that |
| `SchedulerRun.StartedOnceInOrder` | harness/src/towow/l2/orchestrator.py:9606-9626 | on every run each task is started at most once, with all its predecessors satisfied, however often it was created |
| `SchedulerRun.IdleStateMeansDone` | harness/src/towow/l2/execution_dispatch.py:149-204 | in any state that keeps the run invariant with nothing active: the next batch is empty iff every task is satisfied |
| `SchedulerRun.IdleMeansDone` | harness/src/towow/l2/execution_dispatch.py:149-204 | with nothing active, the next batch is empty iff every task is satisfied |
| `SchedulerRun.StartsAreBounded` | harness/src/towow/l2/execution_dispatch.py:264-277 | a run starts at most as many tasks as the plan has |
| `SchedulerRun.CapsHoldThroughout` | harness/src/towow/l2/execution_dispatch.py:663-678 | on every run of any plan at most cap tasks are active at any moment, in total and on each tier |
| `SchedulerRun.ReadyCount` | harness/src/towow/l2/execution_dispatch.py:175-204 | the ready list repeats a ready task as often as the plan created it |
| `SchedulerRun.CollectPool` | harness/src/towow/l2/orchestrator.py:9606-9610 | the pool is the candidates under their task ids, its ids handed on in order |
| `SchedulerRun.PoolCount` | harness/src/towow/l2/orchestrator.py:9792-9797 | however often a task is a candidate, the batch is chosen from it once |
| `SchedulerRun.EachWaitingTaskIsStartedOnce` | harness/src/towow/l2/orchestrator.py:9606-9816 | a run with nothing active and nothing to start has started each task that waited at first exactly once, and no other |
| `DeadLetter.Inbox.WriteEntry` | harness/src/towow/l2/dead_letter_inbox.py:215-228 | the entry file and its key file are written together, the key removed for a terminal entry |
| `DeadLetter.Inbox.PriorTerminalReentry` | harness/src/towow/l2/dead_letter_inbox.py:276-288 | the highest count among the terminal entries of the object and reason, -1 without any |
| `DeadLetter.Inbox.Enqueue` | harness/src/towow/l2/dead_letter_inbox.py:352-393 | an active entry under the key is returned unchanged, otherwise a new one with the next count |
| `DeadLetter.Inbox.Transition` | harness/src/towow/l2/dead_letter_inbox.py:421-600 | a move is made iff the entry is in a state for it, a redispatch only below the cap, and sets state, count and reason as the table of moves says; otherwise nothing changes |
| `DeadLetter.AfterMeans` | harness/src/towow/l2/dead_letter_inbox.py:421-626 | the table of moves: from which states each is made, and what it does to state, re-entry count, returning flag and retire reason |
| `DeadLetter.Inbox.SweepAgedOut` | harness/src/towow/l2/dead_letter_inbox.py:629-652 | exactly the entries enqueued or escalated for longer than the limit are retired as aged out, the others stay as they are |
| `DeadLetter.IndexHolds` | harness/src/towow/l2/dead_letter_inbox.py:215-273 | in every reachable state a key file names an entry iff that entry is enqueued, under triage or escalated and has that key |
| `DeadLetter.CountsHold` | harness/src/towow/l2/dead_letter_inbox.py:375-393 | of two entries for one object and reason the older is terminal and has the smaller count |
| `DeadLetter.AtMostCapRedispatched` | harness/src/towow/l2/dead_letter_inbox.py:447-475 | at most cap entries of one object and reason are ever redispatched |
| `DeadLetter.TerminalIsFinal` | harness/src/towow/l2/dead_letter_inbox.py:75-77 | a terminal entry never changes again |
| `DeadLetter.TransitionsAreBounded` | harness/src/towow/l2/dead_letter_inbox.py:421-626 | on every run of the inbox, an entry waiting with count c0 that gets A answers is changed by at most 2 max(0, cap-1-c0) + 2A + 3 steps |
| `DeadLetter.ChangesBounded` | harness/src/towow/l2/dead_letter_inbox.py:421-652 | the steps of a run that change an entry cost its potential: each one lowers it, an answer raises it by two at most |
| `DeadLetter.BoundIsReached` | harness/src/towow/l2/dead_letter_inbox.py:531-600 | from every inbox some run reaches the bound, for every starting count and number of answers |
| `DeadLetter.EnqueueTakesIffSlugInjective` | harness/src/towow/l2/dead_letter_inbox.py:148-155 | on all runs about a set of references an enqueue leaves an active entry of its own object iff no two of them share a slug |
| `DeadLetter.SlugsAgreeIff` | harness/src/towow/l2/dead_letter_inbox.py:148-150 | two references share a slug iff they differ only in characters that are not alphanumeric |
| `DeadLetter.CollisionDrops` | harness/src/towow/l2/dead_letter_inbox.py:371-373 | the second of two objects with one slug is dropped |
| `Reconcile.Reconciler.BuildObservedState` | harness/src/towow/l2/reconcile_loop.py:247-311 | the actions are exactly: the unstamped partial replans, the waiting entries, the unstamped escalations, the gaps in the routing without a marker, and the failing events without an active entry |
| `Reconcile.Reconciler.RunReconcilePass` | harness/src/towow/l2/reconcile_loop.py:557-665 | all actions are settled from one snapshot and carried out in order; PassIsExact says what that does to the world |
| `Reconcile.PassIsExact` | harness/src/towow/l2/reconcile_loop.py:153-554 | one pass dispatches and stamps exactly the unstamped partial replans with a plan and the unstamped escalations, adds exactly the markers of routed targets outside the skipped ones that no real stamp or settled finding covers, decides every waiting entry by its reason with one new escalation for each unroutable one, and lodges every failing event |
| `Reconcile.ActionsAreTheGaps` | harness/src/towow/l2/reconcile_loop.py:247-311 | what a pass will do, read off stamps, markers and inbox |
| `Reconcile.QuietAfterThree` | harness/src/towow/l2/reconcile_loop.py:557-665 | every world is at rest after three passes; the fourth finds nothing to do iff at first no failing event shared its slug with another one or with another reference that has an active unroutable entry |
| `Reconcile.FirstPass` | harness/src/towow/l2/reconcile_loop.py:153-244 | after one pass all work that no pass adds to is done and stays done; PassIsExact says in what it consists |
| `Reconcile.SecondPass` | harness/src/towow/l2/reconcile_loop.py:437-493 | after a second pass no entry waits for triage |
| `Reconcile.ThirdPass` | harness/src/towow/l2/reconcile_loop.py:363-396 | after a third pass no escalation is unshown |
| `Reconcile.FailingRouteTakesThree` | harness/src/towow/l2/reconcile_loop.py:536-554 | a failing route is buried, escalated and shown by three successive passes, so three can be needed |
| `Reconcile.CollisionIsNeverQuiet` | harness/src/towow/l2/reconcile_loop.py:199-204 | while such a slug is shared every pass of every world finds work |
| `Reconcile.PassKeepsCrowded` | harness/src/towow/l2/reconcile_loop.py:557-665 | no pass begins or ends such a collision |
| `Reconcile.EachStampDispatchedOnce` | harness/src/towow/l2/reconcile_loop.py:363-434 | over any passes with outside changes that keep stamps, each (event, target) is dispatched at most once |
| `Reconcile.ExecuteDoes` | harness/src/towow/l2/reconcile_loop.py:363-554 | executing an action gets it done and undoes nothing |
| `Reconcile.TriageOutcome` | harness/src/towow/l2/reconcile_loop.py:437-493 | an unroutable entry is escalated with one new escalation, a structural failure is retired as deterministic, a tripped circuit as exhausted; nothing is called redispatched |
| `Reconcile.TriageMoves` | harness/src/towow/l2/reconcile_loop.py:437-493 | triage takes the entry out of enqueued, keeps the index, and leaves an unroutable entry active |
| `ClosureGate.TakeFirstTakesOne` | harness/src/towow/l1/closure_verification.py:754-757 | taking consumes the first report of the key and no other |
| `ClosureGate.ConsumeStep` | harness/src/towow/l1/closure_verification.py:754-757 | the shrinking pool gives item i the report of its rank among the items of its key |
| `ClosureGate.CoveredIffEnoughReports` | harness/src/towow/l1/closure_verification.py:878-891 | every item is covered iff no key stands oftener in the contract than in the report |
| `ClosureGate.MatchesAreDistinct` | harness/src/towow/l1/closure_verification.py:878-881 | no report answers two items |
| `ClosureGate.VerifyClosureAgainstContract` | harness/src/towow/l1/closure_verification.py:843-1079 | the three loops with their consumed pools compute the verdict of every item; the outcome is strong iff every item is met, as the runners answer |
| `ClosureGate.StrongGateIsExact` | harness/src/towow/l1/closure_verification.py:843-1079 | the strong gate passes iff every item has its own report, the runners find every criterion true and it is reported true, every ripple is synced or argued with text, every residual greps to 0 |
| `ClosureGate.RecomputeMeans` | harness/src/towow/l1/closure_verification.py:1185-1278 | a criterion holds iff its scope is a path and the grep or diff count is the expected one (or not below it), or pytest or the ledger answers true, with the parameters given; no signal iff grep timed out or pytest did not run |
| `ClosureGate.TerminalIffStrong` | harness/src/towow/l1/closure_cycle.py:72-119 | a finding is routed to its end iff the strong gate passed, and then confirmed_and_fixed is the one legal resolution |
| `ClosureGate.DerivedStateMeaning` | harness/src/towow/l1/closure_verification.py:1082-1116 | which state a result is routed to, read off contract, report and runners: a broken criterion first, then a broken ripple or residual, then an item left open; final iff every item is met, bounded to ripples iff ripple_incomplete |
| `ClosureGate.UnrecomputedFallsBackIff` | harness/src/towow/l1/closure_verification.py:1098-1116 | the documented fallback of a not recomputable item to fix_insufficient happens iff a criterion is broken too or no ripple or residual is |
| `ClosureGate.ManualCriterionSlipsThrough` | harness/src/towow/l1/closure_verification.py:1098-1112 | the contract where it does not: a manual criterion beside a pending ripple |
| `LedgerEvents.GateLedgerEvent` | harness/src/towow/l1/closure_verification.py:685-736 | counts exactly the records of the kind that have the asked fields and lie in scope; refuses rather than widen when the anchor is missing |
| `LedgerEvents.CountsMeans` | harness/src/towow/l1/closure_verification.py:621-682 | a record counts iff it, or the stub in it, is of the kind, each asked field agrees, the nested one first, and its own or else its body anchor lies in the scope |
| `LedgerEvents.ForeignRecordsNeverHelp` | harness/src/towow/l1/closure_verification.py:666-682 | events outside the query or scope never help, wherever they stand |
| `LedgerEvents.ScopeOnlyNarrows` | harness/src/towow/l1/closure_verification.py:584-590 | no scope counts more than the whole ledger |
| `LedgerEvents.MoreRecordsKeepPassing` | harness/src/towow/l1/closure_verification.py:719-736 | committed evidence keeps counting |
| `LedgerEvents.GoalsDoNotShareEvidence` | harness/src/towow/l1/closure_verification.py:680-682 | two goals without a common task never share a counted event |
| `DoneRecompute.RecomputeDoneCriteriaCheck` | harness/src/towow/l1/execution_done_recompute.py:151-230 | no answer without a grep, test or diff check; otherwise passed iff claimed and the runners find every such check true |
| `DoneRecompute.RecomputeLivefireCheck` | harness/src/towow/l1/execution_done_recompute.py:256-338 | always answers; passed iff there is no test check, or claimed and the runners find all of them true |
| `DoneRecompute.ClaimMatches` | harness/src/towow/l1/execution_done_recompute.py:192-202 | the one overall claim answers every criterion, repeated conditions included |
| `SessionLock.Registry.ReapStale` | harness/src/towow/l1/session_lock.py:306-345 | keeps exactly the files of sessions whose process is not known dead and whose heartbeat is at most stale_after old, recording of each other the session it names, or its own name |
| `SessionLock.Registry.Acquire` | harness/src/towow/l1/session_lock.py:347-392 | refuses an id that is empty or has a character other than A-Z, a-z, 0-9, _ and -, or a live file of the same id after reaping, else adds the file |
| `SessionLock.ValidMeans` | harness/src/towow/l1/session_lock.py:131-147 | the list of allowed characters is the letters, digits, underscore and dash |
| `SessionLock.Registry.Resolve` | harness/src/towow/l1/session_lock.py:461-493 | an explicit id binds to the first live file that names it or to nothing, no id only to a single live session; the file under the resolved name gets a heartbeat |
| `SessionLock.Registry.Touch` | harness/src/towow/l1/session_lock.py:497-507 | the heartbeat is the time cut to whole seconds |
| `SessionLock.Registry.Release` | harness/src/towow/l1/session_lock.py:509-515 | removes the one file |
| `SessionLock.GapSafeIff` | harness/src/towow/l1/session_lock.py:267-271 | a gap between heartbeat and reap is safe at every time iff it is at most stale_after - 1, because of the cut |
| `SessionLock.BeatsOn` | harness/src/towow/l1/session_lock.py:306-507 | one command, a resolve of the session included, keeps the file and its age within bounds |
| `SessionLock.BeatingSessionSurvives` | harness/src/towow/l1/session_lock.py:243-507 | every session attended within a gap, with a living or unnamed process, keeps its file through all commands of all sessions iff the gap is at most stale_after - 1 |
| `StartSection.OneSessionPerKey` | harness/src/towow/l1/session_lock.py:530-566 | at no moment of an interleaving are two lock files for one key iff no late half of a heartbeat lands beside a file of its key, and none puts one back where a process has scanned clear and then starts |
| `StartSection.StepSplitsIff` | harness/src/towow/l1/session_lock.py:530-566 | one step keeps one file per key iff it does neither of the two |
| `StartSection.HistoryHolds` | harness/src/towow/l1/session_lock.py:530-566 | in every interleaving a process in the section holds its flock, and one that has scanned clear meets only files of its key that a heartbeat wrote back |
| `StartSection.LateBeatDoubles` | harness/src/towow/l1/session_lock.py:497-507 | the failing family: read, taken over as stale, written back |
| `StartSection.WholeBeatsAreSafe` | harness/src/towow/l1/session_lock.py:497-507 | with heartbeats in one piece there is one session per key throughout |
| `Novelty.EvaluateNoveltyGate` | harness/src/towow/l1/novelty_gate.py:79-132 | escalates iff the longest stale run in attempt order reaches the threshold; errors on empty input or threshold below 1 |
| `Novelty.SignatureMeans` | harness/src/towow/l1/novelty_gate.py:57-78 | a round has a signature iff its text, or its delta, is not all blanks; it is that text or delta, or the delta, two bars and the strategy, without surrounding blanks and capitals |
| `Novelty.LongestStale` | harness/src/towow/l1/novelty_gate.py:99-115 | the loop with its seen set computes the longest run |
| `Novelty.LongestRunIsLongest` | harness/src/towow/l1/novelty_gate.py:104-116 | that number is the length of the longest block of rounds without a new signature |
| `Novelty.InOrderAscends` | harness/src/towow/l1/novelty_gate.py:98-98 | the rounds are put in attempt order, none lost |
| `Novelty.PigeonholeBound` | harness/src/towow/l1/novelty_gate.py:98-116 | n rounds with k signatures hold a stale run of at least (n - k) / (k + 1), rounded up |
| `Novelty.EscalationIsCertain` | harness/src/towow/l1/novelty_gate.py:98-116 | escalation is certain once n - k > (k + 1)(threshold - 1) |
| `Novelty.BoundIsReached` | harness/src/towow/l1/novelty_gate.py:98-116 | the bound is reached for every k and m |
| `Novelty.LaterRoundsNeverUndo` | harness/src/towow/l1/novelty_gate.py:98-116 | rounds not earlier than any so far never undo an escalation |
| `Novelty.MiddleRoundUndoes` | harness/src/towow/l1/novelty_gate.py:98-116 | the failing family: a round with something new to say, put between rounds that said nothing, undoes their escalation |
| `Novelty.UndoesIffInTheMiddle` | harness/src/towow/l1/novelty_gate.py:98-116 | whatever the rounds say, one more round leaves every escalation standing iff it has no number at or below it together with one above it |
| `Novelty.CodeRunsAreLonger` | harness/src/towow/l1/novelty_gate.py:86-111 | no stale run is shorter by the code than by the docstring |
| `Novelty.DocstringAgreesIff` | harness/src/towow/l1/novelty_gate.py:86-111 | code and docstring judge every round alike iff no signature comes back across a round that brought a new one |
| `Novelty.ReturnIsStaleForTheCodeOnly` | harness/src/towow/l1/novelty_gate.py:86-111 | a strategy, another one and the first again: stale for the code, new for the docstring |
| `ReflowMint.Dispatched.VisitWorktree` | harness/src/towow/l2/reflow_reconcile.py:425-463 | one visit: in flight, minted, refused, escalated once, or silent, changing only that worktree |
| `ReflowMint.Dispatched.EmitStrandedReflowFindings` | harness/src/towow/l2/reflow_reconcile.py:389-463 | every listed worktree is visited as often as it is listed, and reported iff a visit minted |
| `ReflowMint.Dispatched.ReconcileBlockedReflows` | harness/src/towow/l2/reflow_reconcile.py:608-709 | conflicts whose worktree is there and unresolved are visited once, the others left alone |
| `ReflowMint.Dispatched.ClearReflowConflictMintState` | harness/src/towow/l2/reflow_reconcile.py:550-562 | the count and the escalation are forgotten, the marker is not |
| `ReflowMint.MintingIsBounded` | harness/src/towow/l2/reflow_reconcile.py:82-107 | findings are always at least stale_after apart, even across a clear; between clears at most cap findings and one escalation, which comes after all of them |
| `ReflowMint.WindowBound` | harness/src/towow/l2/reflow_reconcile.py:425-463 | a clear-free window of length T holds at most min(cap, floor(T / stale_after) + 1) findings |
| `ReflowMint.SilentAfterEscalation` | harness/src/towow/l2/reflow_reconcile.py:432-438 | an escalated worktree stays silent until cleared |
| `ReflowMint.CapIsReached` | harness/src/towow/l2/reflow_reconcile.py:480-491 | visits spaced by stale_after do mint cap findings and then escalate |
| `Holdout.IndicesIncrease` | harness/src/towow/l1/judgment_regression_harness.py:137-138 | the rounded stride indices strictly increase |
| `Holdout.ClampNeverFires` | harness/src/towow/l1/judgment_regression_harness.py:138-138 | the clamp to n - 1 never fires, and the first index is 0 |
| `Holdout.PartitionIsExact` | harness/src/towow/l1/judgment_regression_harness.py:120-141 | exactly clamp(round(n r), 1, n - 1) cases are held out, and with the pool they are the cases, neither part empty |
| `Holdout.PartitionHoldout` | harness/src/towow/l1/judgment_regression_harness.py:120-141 | for n >= 2 the held-out cases are those at the rounded multiples of n / h, in order, with h the share rounded half to even and cut to 1..n - 1, and the pool is the others in order; below that everything is in the pool |
| `Holdout.PartitionSplits` | harness/src/towow/l1/judgment_regression_harness.py:120-141 | the same said of places alone |
| `Holdout.RoundMeans` | harness/src/towow/l1/judgment_regression_harness.py:133-138 | rounding goes to the nearest integer, the even one of two |
| `Judgments.LatestEnrichedCases` | harness/src/towow/l1/judgment_retrieval.py:101-124 | the loop over the ledger keeps the newest usable record per source |
| `Judgments.LatestIsNewest` | harness/src/towow/l1/judgment_retrieval.py:101-124 | exactly the sources with an enriched record, each with the first of its records of the highest number |
| `Judgments.RetrieveJudgments` | harness/src/towow/l1/judgment_retrieval.py:179-243 | the hits are exactly those of the newest cases that share a feature, on their strongest tier with the number shared there, by tier, number and id; what is left out comes after all of them and beyond the limit |
| `Judgments.HitMeans` | harness/src/towow/l1/judgment_retrieval.py:164-239 | a case is a hit iff it shares a feature with the query; tier, score and counterexamples are read off the newest records |
| `Judgments.RetrievedMeans` | harness/src/towow/l1/judgment_retrieval.py:179-243 | the ranking is best first and the limit cuts off only worse hits |
| `Judgments.SortedIsUnique` | harness/src/towow/l1/judgment_retrieval.py:240-243 | the order leaves no choice |
| `Judgments.PoolRecordsExcluding` | harness/src/towow/l1/judgment_regression_harness.py:245-262 | every case record of a held-out source, of any version, is out |
| `Judgments.HitsIgnoreHeldOut` | harness/src/towow/l1/judgment_regression_harness.py:189-262 | no edit of a held-out record changes any hit |
| `Judgments.NoHeldOutHit` | harness/src/towow/l1/judgment_regression_harness.py:245-262 | no held-out case is ever retrieved |
| `Judgments.EvaluateCase` | harness/src/towow/l1/judgment_regression_harness.py:207-228 | the retrieved case is the one that the pool ranks first for the held-out scenario, none iff the pool has no hit, and never held out; its direction is the prediction, matched iff equal to the actual one |
| `Judgments.BestIsUnique` | harness/src/towow/l1/judgment_regression_harness.py:207-216 | pool and scenario leave no choice of the retrieved case |
| `Judgments.EvaluateRegression` | harness/src/towow/l1/judgment_regression_harness.py:174-242 | one result per held-out case, judged against the pool without the held-out records; score matched over size, passed iff some case is held out and the score reaches the threshold |
| `Judgments.NewestCasesByNumber` | harness/src/towow/l1/judgment_regression_harness.py:98-117 | the newest enriched case of every source, once each, by number |

## Left out

- ClaimSteps.FencingHolds: without the reaper, because a half-written claim counts as malformed and is unlinked at once (harness/src/towow/awareness/claim.py:215-221), so two claims could draw one token.
- VerdictLocate.ParseForkVerdict: starts from the gathered candidates; scanning text, fences and ANSI codes for JSON is not modelled.
- VerdictLocate.LocateExact: whitespace and case of verdict words are ASCII.
- ForkLoop.RunVerificationFork: real mode for one cache key; replay, disabled and background modes, and token usage are not modelled; the concurrency slots are modelled apart from the loop, in ForkSlots.
- LedgerGuard.FileSystem.AssertRmtreeSafe: a sentinel that parses to no object raises AttributeError in the code rather than LedgerProtectionError; both count as refusal.
- LedgerGuard.FileSystem.SafeRmtree: paths are resolved, without symbolic links, and the tree does not change during one call.
- ReadySet.GateSufficesWithoutRemovals: the gate's depth-first search is represented by the absence of a cycle.
- SchedulerRun.IdleMeansDone: runs that abort, time out or ask for a replan are not part of a run, nor are live sessions outside the stamps, breakers and gates that take tasks out of the pool.
- DispatchBatch.SelectDispatchBatch: the critical path, the tiers and the claims of the plan are given.
- DeadLetter.Inbox.WriteEntry: entry and key file change together; a crash between the two is not modelled, nor are actor, escalation and audit fields.
- DeadLetter.Inbox.SweepAgedOut: entries are swept in the order of creation rather than of entering time.
- Reconcile.QuietAfterThree: no action fails, markers are present or absent, and start-up catch-up and session vitality are outside events.
- Reconcile.Reconciler.RunReconcilePass: the counts per kind and the cycle event are not modelled.
- ClosureGate.VerifyClosureAgainstContract: grep, pytest, git and the resolution of paths are the runners' answers, a regular expression that does not compile among them; reasons and details are text.
- LedgerEvents.GateLedgerEvent: payload fields are strings.
- SessionLock.Registry.Acquire: actor, skill, parent and fork ids, and the plan or task recorded beside the lock, are not fields of the file.
- StartSection.OneSessionPerKey: the session's key is written together with its lock file.
- Novelty.EvaluateNoveltyGate: novelty of an unknown shape, compared by its printed form, is not modelled.
- ReflowMint.Dispatched.ReconcileBlockedReflows: which conflicts are resolved is given; the scan of the ledger for it is not modelled.
- Holdout.PartitionHoldout: over exact rationals; floating point rounding is not modelled.
- Judgments.RetrieveJudgments: the feature sets of texts are given; the confidence note is text.
- Judgments.EvaluateRegression: the direction of a judgment is an arbitrary function of its id.
- Superseded and current-version annotations, data schema and state machine checks of the slice service: single lookups beside the same search.
- The degraded closure path without a contract, finding resolution sweeps and exception taxonomy: single case splits or folds.
- The check of a test process's event log location, and ledger backups.
- Prompt texts, mail, owner views, command line, schemas, commit gate plumbing.
