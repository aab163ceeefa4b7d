# A verified model of the unit-test agent's core

The repository drives an agent that writes unit tests for Java, and keeps its paid work safe across restarts, retries and
stops. This project models the parts of it that are algorithms or state machines once files, SQL and subprocesses become
sequences, maps and sets, and proves what they promise. `dafny verify dfyconfig.toml` checks everything.

Where the source changes things step by step the model does too: classes with the source's fields for the cycle search,
the batch store, the rerun transaction, the CI queue, the daemon and the progress ledger, and methods with loops for the
scanners and accumulators. Each method is proved against a function or predicate on values, and the lemmas about runs are
proved about those. Digests, run ids and the clock are parameters; a run id counts as fresh when it was never used before.

## What is modelled

- **Package cycles** (`Graphs`, `Components`, `PackageCycles`, `CyclePolicy`). Imports are folded to dotted prefixes, and
  Tarjan's algorithm finds the strongly connected components; the policy gate runs it at depths 2 and 3. The recursion
  carries an invariant over index, low numbers, stack and open calls; the report is proved to be exactly the components
  with two members or more, also for modules given by the parts of their names, and depth-3 cycles are related to depth-2
  ones by projecting paths.
- **Partial readers of large JSON records** (`MarkerSearch`, `JsonScanner`, `JsonGrammar`). The backward chunked search is
  compared with a search of the whole file. The bracket scanner is compared with balanced brackets outside strings, and
  with the grammar of RFC 8259 (section 2 for structure, section 6 for numbers, section 7 for strings).
- **Batch identity** (`Identifiers`, `Batches`, `StableBatches`, `CleanRerun`, `Retention`, `TaskModels`). Targets are
  chunked into units, the units' keys are stored per row, and after a restart the units are rebuilt from the keys. A clean
  rerun replaces every key under a fresh run and records what it replaced; retention selects old identities. Rows are a
  sequence in (priority, id) order.
- **Schedulers** (`CiQueue`, `TaskDaemon`). The CI report queue is a transition system with one step per lock-held region,
  in which any number of workers may hold the same record; each class method is proved to be one of those steps. The
  daemon's loop is one step per pass, over arbitrary exits, clocks, offers and signals.
- **Budgets** (`RepairProgress`, `ProgressLedger`, `LedgerRuns`). The score-driven repair loop and its termination, and
  the transactional ledger of progress and terminal events with one paging reader.
- **Kernels** (`Regression`, `RepairWindow`, `ProcessTree`, `EquivalenceGrant`). The least-squares cost fit over the reals,
  the rotating repair window, the process-tree closure, and the equivalent-mutant grant from verdict file to decision.
- `Options`, `Ordering` and `Text` hold what several of these share.

## Where the code does less than one might expect

- `_json_value_end` returns None on every JSON number, and only there; `JsonGrammar.EndOfJsonValue` states it for all values.
- `_find_last_marker_offset` misses the empty marker in the empty file, and nothing else.
- A stopped CI record can leave `stopped` again: when two workers hold it, the first one's exit clears the stop request.
  `CiQueue.StopSticksIff` gives the exact condition, and `CiQueue.LostStopReachable` reaches it in a run under a limit of 1.
- The retention selection reads the list of finished tasks in an earlier transaction. `Retention.StaleListInRun` says
  exactly when that lets it take an identity that live work holds, and `Retention.StaleListReachable` is a run that does.
- The stored counters add up exactly when every status is known to the task model: an unknown one, such as "SKIPPED",
  counts as failed only (`CleanRerun.SkippedIsMiscounted`).
- With no scores at all the repair loop is ended by its ceiling alone.
- R squared can be negative once the fit is clamped: `Regression.RSquaredRange` gives the exact condition in slope,
  intercept, means and variance, and by `Regression.FallingCostIsNegative` a falling cost always gets a negative one.
- A model does not always forecast its own calibration set: clamping and overrides can shift the mean, and
  `Regression.TotalReproduced` says when.
- `parse_verdicts` promises to refuse what it cannot trust, but a number under `source_lines` raises an exception instead
  (`EquivalenceGrant.NumberedVerdictRaises`).
- `decide_grant` lets a later review's fingerprint of a file replace an earlier one's, so an earlier review may have seen
  other source; `EquivalenceGrant.SourceUnchangedIff` states when that cannot be, `StaleReviewGranted` gives such reviews.

## Model

| member | source | states |
|---|---|---|
| PackageCycles.BuildGraph | scripts/check_package_dependencies.py:425-434 | the graph's nodes are the ends and its edges exactly the prefix pairs of eager or lazy, internal, resolved imports that join two different prefixes |
| PackageCycles.GraphOfModules | scripts/check_package_dependencies.py:425-434 | for modules given by their dot-free parts the nodes are the joined first `depth` parts, or all when there are fewer, and two different ones are joined exactly by an eager or lazy, internal, resolved import between them |
| PackageCycles.GroupOfModule | scripts/check_package_dependencies.py:415-416 | a depth keeps that many parts of a name, or all of them; a negative depth drops parts at the end |
| PackageCycles.FindCycles | scripts/check_package_dependencies.py:419-476 | for every edge list and depth the report lists exactly the strongly connected components with two or more members, each once, sorted inside and out |
| PackageCycles.MutualImportsReported | scripts/check_package_dependencies.py:419-476 | modules of two groups that import each other, eagerly or lazily, put the two groups into one reported cycle, whatever else is imported |
| PackageCycles.MutualImportsAlone | scripts/check_package_dependencies.py:419-476 | with no other import the report is that one cycle of the two groups, in order |
| PackageCycles.OthersIgnored | scripts/check_package_dependencies.py:427-428 | a type-only import, one that leads outside and an unresolved one can be taken out of the list, wherever they stand, without changing any report |
| Ordering.ListLeqIsDictionary | scripts/check_package_dependencies.py:476 | the order of the reports is that of a dictionary, over members ordered like one |
| Ordering.StrLeqIsDictionary | scripts/check_package_dependencies.py:466 | names are ordered by their first difference, by code point, and a prefix comes first |
| PackageCycles.CyclesAtUnique | scripts/check_package_dependencies.py:419-476 | that description determines the report: no other list of lists meets it |
| PackageCycles.ReportedTogether | scripts/check_package_dependencies.py:458-470 | two different prefixes stand in one reported cycle if and only if each reaches the other |
| PackageCycles.ReportDisjoint | scripts/check_package_dependencies.py:458-470 | no prefix stands in two reported cycles |
| Components.PushKeepsInvariant | scripts/check_package_dependencies.py:445-448 | numbering and stacking a node that every open call reaches keeps the search invariant and finishes nothing |
| Components.WalkReturned | scripts/check_package_dependencies.py:450-452 | taking over a returned neighbour's low number keeps it the number of a stacked node the caller reaches, and a bound on every step below the caller |
| Components.WalkNumbered | scripts/check_package_dependencies.py:453-454 | the same for a neighbour that was numbered already; one that is off the stack changes nothing |
| Components.CloseKeepsInvariant | scripts/check_package_dependencies.py:455 | a call that ends with a smaller low number leaves only nodes that still reach an open call further down |
| Components.RootClosesComponent | scripts/check_package_dependencies.py:455-461 | when low equals index, the stack from the node up is exactly the node's strongly connected component |
| Components.PopKeepsInvariant | scripts/check_package_dependencies.py:456-461 | popping it keeps the invariant: finished nodes never lead back to the stack |
| Components.ComponentSearch.PopComponent | scripts/check_package_dependencies.py:456-461 | the pop loop takes exactly the nodes above the base, each once, and leaves the stack below as it was |
| Components.ComponentSearch.StrongConnect | scripts/check_package_dependencies.py:444-466 | the recursive search terminates, keeps the invariant and the stack below its node, and returns a low number that the caller may take over |
| Components.ComponentSearch.SearchAll | scripts/check_package_dependencies.py:468-470 | every node ends up numbered and no call is left open |
| Components.ComponentSearch.AllReported | scripts/check_package_dependencies.py:462-470 | at the end the recorded components are exactly all components of two or more nodes |
| CyclePolicy.UnapprovedCycles | scripts/package_dependency_policy.py:297-313 | the gate's output lists, sorted and once each, exactly the components at some judged depth that no recorded exception names |
| CyclePolicy.KeyOfReported | scripts/package_dependency_policy.py:293-294 | a reported cycle is its own exception key |
| CyclePolicy.RunGate | scripts/package_dependency_policy.py:297-313 | the gate reports exactly the unapproved components at depths 2 and 3, and nothing if and only if every component at both depths is a recorded exception |
| CyclePolicy.ApprovedInAnyOrder | scripts/package_dependency_policy.py:293-313 | an exception covers a reported component if and only if it names the same members, in any order |
| CyclePolicy.PathProjects | scripts/check_package_dependencies.py:415-434 | a path between deep prefixes projects to a path between their shallow prefixes, or stays inside one |
| CyclePolicy.CrossingCycleIsReported | scripts/check_package_dependencies.py:415-434 | a module cycle that crosses packages forces those packages into one reported component |
| CyclePolicy.NoPackageCycleConfinesModules | scripts/check_package_dependencies.py:415-434 | with no package component, every module component lies inside one package |
| MarkerSearch.FindLastMarkerOffset | uta/app/store.py:247-261 | for every file, marker and chunk size from 1 up, the offset of the last occurrence in the whole file, or None if and only if there is none; the one exception is the empty marker in the empty file |
| MarkerSearch.LastIsUnique | uta/app/store.py:247-261 | there is at most one last occurrence, so the search result is determined |
| MarkerSearch.ChunkStep | uta/app/store.py:252-260 | a chunk with its overlap sees every occurrence that starts in it, and its last one is the file's |
| JsonScanner.JsonValueEnd | uta/app/store.py:311-339 | on an opening bracket the result is the one end at which the brackets outside strings close as a single pair around a balanced inside, or None when no end does; otherwise it is the one end up to which the text is null, true, false or a closed string, or None |
| JsonScanner.ScalarEndIff | uta/app/store.py:313-315 | the scalar branch finds an end if and only if the text up to it is a scalar, so none for a string that is cut off |
| JsonScanner.EnclosesIffRun | uta/app/store.py:317-338 | the scanner's stack accepts exactly one bracket pair around a balanced inside |
| JsonScanner.ScanStep | uta/app/store.py:320-338 | each character read keeps the loop's knowledge, or decides for every possible end whether it closes the value |
| JsonGrammar.ValueBalanced | uta/app/store.py:311-339 | every JSON value, with any white space, escapes and brackets inside strings, is balanced outside its strings |
| JsonGrammar.EndOfJsonValue | uta/app/store.py:311-339 | for every JSON value and any text before and after it, the scanner returns the value's end, except None on every number |
| Identifiers.SplitBatchKey | uta/testgen/batches.py:43-45 | a key made of two safe identifiers splits back into them |
| Identifiers.IdentifierGrows | uta/testgen/batches.py:26 | a safe identifier begins with a letter or digit and grows by letters, digits, dots, underscores and hyphens up to 128 characters |
| Identifiers.UnitIdInjective | uta/testgen/batches.py:98 | units with different numbers have different ids, whatever their digests |
| Identifiers.UnitIdReads | uta/testgen/batches.py:98 | a unit id spells the word, the number in at least four digits without a superfluous zero, and the digest |
| Identifiers.UnitIdIsIdentifier | uta/testgen/batches.py:98 | every unit id of a table that SQLite can hold is a safe identifier |
| Batches.Reconstruct | uta/testgen/batches.py:143-194 | the keys are accepted if and only if they describe contiguous units of one run, and the batches returned are those units |
| Batches.GroupingUnique | uta/testgen/batches.py:143-194 | stored keys describe at most one grouping |
| Batches.UnitsContiguous | uta/testgen/batches.py:169-173 | in an accepted state, rows between two rows of a unit belong to it |
| Batches.RekeyedGroups | uta/testgen/batches.py:94-104 | whatever keys the rows had, the new keys describe exactly the chunks |
| StableBatches.AcceptedExactly | uta/testgen/batches.py:48-119 | for every stored state and request: accepted if and only if the names are distinct and exactly those of the rows, the size is positive, and there are no rows, or none is keyed and the run is a safe identifier, or the keys form a grouping of no other run than the one asked for; a refusal changes no row |
| StableBatches.AcceptedHoldsRows | uta/testgen/batches.py:143-194 | the batches returned hold all rows in order, each row in the batch whose run and unit make up its key |
| StableBatches.ClassTasks.AssignKeys | uta/testgen/batches.py:91-104 | the keying loop leaves exactly the partition's keys and changes nothing else |
| StableBatches.ClassTasks.EnsureStableGenerationBatches | uta/testgen/batches.py:48-119 | rows and result after the transaction, for every stored state and request; a refusal leaves the rows as they were |
| StableBatches.FirstAssignment | uta/testgen/batches.py:91-119 | a first assignment loses, adds and reorders nothing; every unit but the last has exactly the batch size, units are named by their number and the digest of their own targets, and reading the keys back gives the same batches |
| StableBatches.StoredGroupingIsStable | uta/testgen/batches.py:62-119 | on stored keys every full-list call returns the stored batches and writes nothing, whatever its batch size; naming another run is refused |
| StableBatches.LaterCallsAgree | uta/testgen/batches.py:48-61 | after one accepted call every later call with the same list and any batch size returns the same batches and writes nothing |
| StableBatches.AdapterOnStored | uta/app/persistence.py:82-101 | through the adapter a request is served if and only if it is a nonempty order-preserving subset and names no other run, with the stored batches and without a write; reordered and unknown targets are refused |
| StableBatches.AdapterFirstAssignment | uta/app/persistence.py:82-101 | before the first assignment such a request assigns the full list, under the run the caller names or a fresh one |
| StableBatches.SelectionRecognises | uta/app/persistence.py:91-95 | the filter-and-compare test accepts a request if and only if it is an order-preserving subset |
| StableBatches.FirstNonTerminalBatch | uta/testgen/batches.py:122-140 | batches that cross tasks are refused; otherwise the first batch with an unfinished or missing member, or None if and only if all members are finished |
| StableBatches.UnfinishedExactly | uta/testgen/batches.py:129-139 | a batch is unfinished if and only if one of its members has no row or a row with any status but the four terminal ones |
| CleanRerun.PriorIdentities | uta/tasks/workflow_rerun.py:188-209 | refuses if and only if some key is neither missing nor well-formed; otherwise lists per run exactly its units and classes in order of appearance, the classes without identity, and the rows per key |
| CleanRerun.ReadableExactly | uta/tasks/workflow_rerun.py:188-209 | a key is readable if and only if it is missing, blank, or two safe identifiers around a slash, and those are the row's old run and unit |
| CleanRerun.CountOfKey | uta/tasks/workflow_rerun.py:208 | the count of a key is the number of rows that carry it |
| CleanRerun.BatchSizePreference | uta/tasks/workflow_rerun.py:212-217 | the chunk size is the first of configured size, older setting, largest old unit and default that is neither missing nor zero, and at least 1 |
| CleanRerun.PartitionByClass | uta/tasks/workflow_rerun.py:220-231 | every class is mapped to the unit of its chunk, and the unit ids are those of the partition in order |
| CleanRerun.RerunRowsAre | uta/tasks/workflow_rerun.py:243-274 | every row gets the new run's key of its unit, its status changes only when the policy requeues it, and nothing else changes |
| CleanRerun.RerunStatus | uta/tasks/workflow_rerun.py:234-274 | unfinished classes are queued again, failed ones under either force, passed and cancelled ones only when all are forced, and every other status stays |
| CleanRerun.TaskStore.ReplaceKeysAndRequeue | uta/tasks/workflow_rerun.py:243-274 | the loop reaches exactly those rows and returns their statuses |
| CleanRerun.TaskStore.InsertSupersessions | uta/tasks/workflow_rerun.py:277-325 | the audit table grows by one row per old run in order of appearance, and one for classes without identity if there are any |
| CleanRerun.TaskStore.CleanRerunGeneration | uta/tasks/workflow_rerun.py:31-120 | the transaction is refused without any change unless confirmed, reasoned, eligible and readable, and otherwise carries out rows, audit rows and task row together |
| CleanRerun.RefusedExactly | uta/tasks/workflow_rerun.py:157-185 | refused if and only if the reason is blank, the confirmation differs, the task is not durable, has not ended or is leased, or the rows are none or not all readable |
| CleanRerun.RerunIsAccepted | uta/tasks/workflow_rerun.py:31-120 | from any well-formed or missing keys, mixed or non-contiguous, the rerun reaches rows on which a full-list call with any batch size returns exactly the rerun's partition and writes nothing |
| CleanRerun.RerunIsChunking | uta/tasks/workflow_rerun.py:220-231 | that partition is a lossless chunking of the full list |
| CleanRerun.EachClassRecordedOnce | uta/tasks/workflow_rerun.py:188-209 | every class is recorded in exactly one audit row, that of its old run or of the classes without one, and nothing else is recorded |
| CleanRerun.ClassesDistinct | uta/tasks/workflow_rerun.py:204-207 | within an audit row no class is listed twice |
| CleanRerun.AuditNamesUnits | uta/tasks/workflow_rerun.py:290-325 | an audit row's old units are exactly those its classes had, and its new units exactly those they carry afterwards |
| CleanRerun.AuditInOrder | uta/tasks/workflow_rerun.py:277-325 | audit rows come in order of first appearance of their runs, the one for missing identities last; each lists its classes in row order and its old and new units in order of first appearance |
| CleanRerun.TaskStore.QueueTask | uta/tasks/workflow_rerun.py:328-350 | the stored counters equal a recount of the rewritten rows |
| CleanRerun.QueuedTaskCounts | uta/tasks/workflow_rerun.py:328-350 | the task is queued, unfinished and resumed once more, and its counters are the numbers of rows in the ten terminal statuses, in PASS, and outside the seven non-failures |
| CleanRerun.CountersConsistent | uta/tasks/workflow_rerun.py:329-331 | passed and failed add up to completed if and only if every status is one the task model knows |
| CleanRerun.SkippedIsMiscounted | uta/tasks/workflow_rerun.py:328-350 | they fail to after a rerun of one class that was skipped: it is counted as failed and not as completed |
| CleanRerun.FinishedTwice | uta/testgen/batches.py:18 | the batches' and the task model's terminal statuses share three; one is known to the batches only, seven to the task model only |
| Retention.EligibleIdentities | uta/tasks/workflow_retention.py:53-104 | the selection is, ordered by task, run and unit and once each, exactly the operations and held identities of the listed tasks and the superseded identities as old as the cutoff |
| Retention.SelectedExactly | uta/tasks/workflow_retention.py:13-104 | an identity is selected if and only if it was released at the cutoff or before: its task ended then and holds it or has an operation of it, or it was replaced then |
| Retention.ParsedExactly | uta/tasks/workflow_retention.py:107-111 | a key gives an identity if and only if it is two nonempty parts around its only slash |
| Retention.StepKeepsInvariant | uta/tasks/workflow_rerun.py:243-325 | assignments, reruns and status changes keep the runs named as replaced apart from the runs a task's rows carry |
| Retention.RetentionSparesLiveWork | uta/tasks/workflow_retention.py:53-104 | over every run, a selection with the finished tasks of the same moment takes no identity that a task neither finished nor stopped holds |
| Retention.StaleListTouchesLive | uta/tasks/workflow_retention.py:13-28 | whatever tasks are listed, the selection takes an identity that live work holds if and only if some listed task is live and holds a key |
| Retention.StaleListInRun | uta/tasks/workflow_retention.py:13-28 | over every run, with the list of an earlier moment it does if and only if some task on the list has left its finished state since and holds a key |
| Retention.StaleListReachable | uta/tasks/workflow_retention.py:13-28 | a run does it: a completed task is listed, then rerun, and loses the identity it was just given |
| CiQueue.ApiTriggerService.ClaimCiCheck | uta/app/service.py:309-326 | is the claim step: it succeeds if and only if the record is live and the others stay below the limit |
| CiQueue.ApiTriggerService.ClaimNextPending | uta/app/service.py:328-353 | is the drain step: it claims the first listed of the oldest waiting records, or none if and only if there is none or the limit is reached |
| CiQueue.ApiTriggerService.ActiveCount | uta/app/service.py:474-487 | counts exactly the ids that are active or running, without the excluded one |
| CiQueue.ApiTriggerService.StopCiTask | uta/app/service.py:355-368 | is the stop step, refused on a record that is not live |
| CiQueue.ApiTriggerService.EnterRunCheck | uta/app/service.py:233-239 | is the entry step: the worker goes on if and only if no stop is on file |
| CiQueue.ApiTriggerService.CheckAfterPrepare | uta/app/service.py:247-248 | is the second stop check: the worker goes on if and only if no stop is on file |
| CiQueue.ApiTriggerService.Complete | uta/app/service.py:250-258 | is the completion step: a recorded stop wins over the result |
| CiQueue.ApiTriggerService.FailUnexpectedly | uta/app/service.py:290-296 | is the failure step: a recorded stop wins over the failure |
| CiQueue.ApiTriggerService.Release | uta/app/service.py:304-307 | is the release step |
| CiQueue.ApiTriggerService.MarkOrphanInterrupted | uta/app/service.py:517-527 | is the orphan sweep, which spares active and live records |
| CiQueue.StatusTells | uta/app/service.py:233-367 | in every run a new status tells its step: success only that a worker holding the record finished with a pass and no stop on file, failure only a failed check, an exception or the sweep of an orphan, and so on for every status |
| CiQueue.WorkerRecords | uta/app/service.py:250-258 | without a stop on file a finish records success if and only if the check passed and failure otherwise, an exception failure; with one neither changes a record |
| CiQueue.ClaimRecords | uta/app/service.py:309-326 | the whole effect of a claim: on a record that waits or runs it succeeds while the others leave a place, else the record becomes pending |
| CiQueue.DrainTakes | uta/app/service.py:328-353 | the drain takes nothing if and only if there is no place or nothing waits; otherwise it claims a record that no waiting one is older than |
| CiQueue.StopAndSweep | uta/app/service.py:355-367 | the whole effect of a stop and of a sweep |
| CiQueue.StopEndsWork | uta/app/service.py:233-307 | with a stop on file a worker's next look at it only sends it on its way out; leaving gives the place and the stop back |
| CiQueue.RunsThrough | uta/app/service.py:233-326 | undisturbed, a claimed record goes through all phases to the result of its check and leaves no place taken |
| CiQueue.ClaimWithinLimit | uta/app/service.py:469-487 | a claim that the limit check lets through keeps the active set within the limit, although the check leaves the record's own id out |
| CiQueue.QueueIsSafe | uta/app/service.py:233-367 | in every interleaving the active set never exceeds a positive limit, and while a stop request is on file the record is stopped, however many workers hold it |
| CiQueue.StopSticksIff | uta/app/service.py:285-367 | right after an accepted stop, the record can leave `stopped` again if and only if two workers hold it and one of them is not on its way out |
| CiQueue.SettledForever | uta/app/service.py:285-367 | a stopped record held by nobody who could still move it stays stopped for ever |
| CiQueue.DoubleClaimReachable | uta/app/service.py:309-326 | two workers can come to hold one live record even under a limit of 1 |
| CiQueue.LostStopReachable | uta/app/service.py:285-367 | and a run under that limit reaches a live record whose accepted stop can be lost |
| TaskDaemon.Daemon.Iterate | uta/app/task_daemon.py:395-465 | one pass of the loop: reap, drain check, promotion, acquisition and the two returns, for any exits, clock, offers and signals |
| TaskDaemon.Daemon.PromoteReadyRetries | uta/app/task_daemon.py:368-378 | ready retries are taken up while slots are free, and one stays waiting only when the pool is full |
| TaskDaemon.OffersTaken | uta/app/task_daemon.py:421-436 | without a shutdown or a reached cap every startable offered task is started with count 0, or the pool is full |
| TaskDaemon.OffersInOrder | uta/app/task_daemon.py:421-436 | a started offer leaves no earlier startable one behind |
| TaskDaemon.NewChildren | uta/app/task_daemon.py:368-436 | whatever newly stands in the pool was offered and startable, or is a retry whose time had come, with the count of each |
| TaskDaemon.ExitedChild | uta/app/task_daemon.py:315-366 | an exited child gets exactly the retry its exit earns: a transient error three times after 30, 60 and 120 seconds, an internal one once at once, any other none |
| TaskDaemon.OthersKept | uta/app/task_daemon.py:315-378 | a child that has not exited stays as it is, and a waiting retry waits on or is taken up with its own count |
| TaskDaemon.ReturnsExactly | uta/app/task_daemon.py:404-465 | a pass returns if and only if it ends with no child and a shutdown had been requested before its drain check, or it runs once and nothing waits |
| TaskDaemon.IterationKeepsInvariant | uta/app/task_daemon.py:267-465 | every pass keeps the pool within its slots and apart from the pending retries, and retry counts within 0 to 3 |
| TaskDaemon.DaemonIsSafe | uta/app/task_daemon.py:267-465 | over every run the pool never exceeds its slots, pool and pending retries stay disjoint, and no acquisition causes more than four launches |
| TaskDaemon.ShutdownOnlyDrains | uta/app/task_daemon.py:404-409 | over every run, from a shutdown request on nothing is launched and every pending retry is kept, the pool is exactly the children that have not exited, and the run returns at the first pass that leaves none |
| TaskDaemon.ReturnsWithEmptyPool | uta/app/task_daemon.py:404-465 | every run that ends in a normal return ends with an empty pool |
| TaskDaemon.ReadyRetriesAreTaken | uta/app/task_daemon.py:368-378 | no ready retry is passed over while a slot is free |
| RepairProgress.DecideRepairProgress | uta/testgen/repair_progress.py:69-105 | new bests, improved targets, the flat streak and the decision, for any measurement: granted if and only if the ceiling is not reached and a target is new or beats its best by more than 0.05, or there are no scores, or this is the first flat measurement; a refusal names its reason |
| RepairProgress.ApplyRepairProgress | uta/testgen/repair_progress.py:128-211 | a repair outcome stands or becomes a failure with the reason, and only the phase's own history is replaced; phases without scores and all other outcomes pass through untouched |
| RepairProgress.JudgedMeans | uta/testgen/repair_progress.py:145-211 | a pass ends the streak, a wish for a repair stands exactly under that rule with the phase's own counters, and no other history changes |
| RepairProgress.PhasesJudged | uta/testgen/repair_progress.py:140-156 | which kind a phase is judged by, and where its turns and its history are kept |
| RepairProgress.HistoriesSeparate | uta/testgen/repair_progress.py:149-154 | coverage and mutation never share a score history, whatever phase a combined verifier declares |
| RepairProgress.BestIsPointwiseMax | uta/testgen/repair_progress.py:89-94 | the bests are always the pointwise maximum of everything measured |
| RepairProgress.GainsAreGranted | uta/testgen/repair_progress.py:97-105 | a loop whose every measurement gains on all earlier ones is granted exactly up to the ceiling |
| RepairProgress.FirstFlatGranted | uta/testgen/repair_progress.py:96-105 | below the ceiling the first flat measurement after a gain is granted |
| RepairProgress.SecondFlatRefused | uta/testgen/repair_progress.py:96-105 | the second of two consecutive flat measurements is refused, whatever the ceiling |
| RepairProgress.RoundsWithinCap | uta/testgen/repair_progress.py:97-100 | granted rounds never exceed the ceiling |
| RepairProgress.ImprovedRoundsBounded | uta/testgen/repair_progress.py:91-94 | every improved round raises a potential bounded by the targets by at least the noise margin |
| RepairProgress.LoopStops | uta/testgen/repair_progress.py:89-105 | with scores in 0 to 100 and no empty measurement, granted rounds are at most 4002 per target, with no ceiling at all |
| RepairProgress.OnlyCapStopsEmptyMeasurements | uta/testgen/repair_progress.py:95-105 | with empty measurements only, rounds are granted exactly up to the ceiling |
| ProgressLedger.Admit | uta/tasks/progress_store.py:50-61 | the batch's longest nonempty prefix that fits both caps is admitted, or nothing when none fits |
| ProgressLedger.ProgressStore.AppendProgressEventBatch | uta/tasks/progress_store.py:41-128 | events, counters and marker after a batch, for any caps; an unknown task changes nothing |
| ProgressLedger.AppendRecords | uta/tasks/progress_store.py:41-128 | the events a batch adds, id by id, and the task row that counts them |
| ProgressLedger.SizesOfBatch | uta/tasks/progress_store.py:23-36 | payloads are considered in order, requests for the marker stand for no event |
| ProgressLedger.RoomyBatch | uta/tasks/progress_store.py:50-61 | with room for all its payloads a batch is admitted whole |
| ProgressLedger.ProgressStore.FinishTaskWithTerminalEvent | uta/tasks/progress_store.py:150-242 | status and closing event are written together; the status must be terminal, and a task already closed with it keeps its event |
| ProgressLedger.FinishRecords | uta/tasks/progress_store.py:184-242 | a finish of a task not closed with the status yet adds its notes and then the terminal event, id by id, and returns that id |
| ProgressLedger.FinishRepeats | uta/tasks/progress_store.py:184-201 | a finish of a task closed with it adds nothing and returns the id of its latest terminal event |
| ProgressLedger.ProgressStore.PruneProgressEvents | uta/tasks/progress_store.py:245-253 | exactly the progress events up to the cutoff disappear |
| LedgerRuns.LedgerIsBudgeted | uta/tasks/progress_store.py:41-128 | over every run admitted count and bytes never exceed the caps and equal the totals inserted, and there is one truncation marker if a batch ever dropped an event or asked for it, none otherwise |
| LedgerRuns.TerminalTasksAreClosed | uta/tasks/progress_store.py:150-242 | over every run a task in a terminal status has a latest terminal event, and that event carries the status |
| LedgerRuns.RepeatedFinish | uta/tasks/progress_store.py:184-201 | across a run, a later finish with the same status returns the same id, adds no event and changes nothing, if no step in between requeues the task or finishes it with another status |
| ProgressLedger.PageLength | uta/tasks/progress_store.py:131-147 | a page is a prefix of the newer events, all of them or as many as a limit between 1 and 5000 allows |
| ProgressLedger.NewerSnoc | uta/tasks/progress_store.py:138-146 | the newer events are the task's own with a larger id, in their order |
| LedgerRuns.ReaderMissesNothing | uta/tasks/progress_store.py:131-147 | a paging reader gets its task's events in order and once each, every surviving one up to its cursor, and never misses a terminal one |
| LedgerRuns.ShortPageMeansCaughtUp | uta/tasks/progress_store.py:131-147 | after a page that is not full the reader has seen every event of its task that survives |
| Regression.FitIsLeastSquares | tools/estimate_repo_unit_cost.py:749-754 | the unclamped fit has the least sum of squared residuals of all lines |
| Regression.ModelIsBestLine | tools/estimate_repo_unit_cost.py:749-772 | the model is the line of least squares with negative coefficients raised to zero and marked so, and R squared is the share of squares around the mean that it explains |
| Regression.OtherModels | tools/estimate_repo_unit_cost.py:720-747 | the models of an override, of one line count for all and of no data |
| Regression.Pythagoras | tools/estimate_repo_unit_cost.py:749-761 | any other line's squared residuals exceed the fit's by exactly the squared distance between the two lines at the data |
| Regression.ResidualsVanish | tools/estimate_repo_unit_cost.py:749-754 | the unclamped fit's residuals sum to zero, and so do the residuals weighted by x |
| Regression.UnclampedRSquared | tools/estimate_repo_unit_cost.py:756-765 | R squared of an unclamped fit lies between 0 and 1 |
| Regression.RSquaredRange | tools/estimate_repo_unit_cost.py:756-765 | R squared is missing if and only if all y agree, never exceeds 1, and is not negative if and only if neither coefficient is clamped, or only the intercept a is and n times its square is at most the square of the slope times the variance of x, or the slope is and the clamped line keeps the mean |
| Regression.FallingCostIsNegative | tools/estimate_repo_unit_cost.py:756-765 | on data without negative values a cost that falls with size always reports a negative R squared |
| Regression.ClampedRSquaredCanBeNegative | tools/estimate_repo_unit_cost.py:756-765 | two points with falling cost report an R squared of -1 |
| Regression.TotalReproduced | tools/estimate_repo_unit_cost.py:730-781 | for every calibration set and override, the model forecasts for its own set exactly what the set cost if and only if the clamped line keeps the mean, or the override leaves a rest that the lines can carry |
| Regression.EstimatorAgrees | benchmark/estimates/estimator.py:65-79 | the raw-moment denominator is never negative, is zero if and only if all x agree, and otherwise gives the least-squares slope before the floor |
| RepairWindow.SelectionDistinct | uta/enforcement/mutation_repair.py:239-252 | the groups of one attempt are distinct, for any attempt and window size |
| RepairWindow.SelectionLength | uta/enforcement/mutation_repair.py:250-252 | an attempt selects the wished number of groups, at least one and at most all; the first attempt, like any number below it, the first ones |
| RepairWindow.GroupsRotate | uta/enforcement/mutation_repair.py:250-252 | the attempts work through the groups in their given order, round and round, without skipping or repeating any |
| RepairWindow.TimesSelectedMeans | uta/enforcement/mutation_repair.py:239-252 | a group has a positive count if and only if one of the attempts selected it |
| RepairWindow.SelectionIsFair | uta/enforcement/mutation_repair.py:250-252 | after any number of attempts the numbers of selections of two groups differ by at most one |
| RepairWindow.SelectedWhenCovered | uta/enforcement/mutation_repair.py:250-252 | a group has been selected if and only if its position lies within what the attempts cover |
| RepairWindow.AllSelectedInTime | uta/enforcement/mutation_repair.py:250-252 | every group is selected within ceil(n / size) attempts, and the last one not any earlier |
| ProcessTree.Descendants | uta/enforcement/enforcement.py:235-242 | whatever the order of the rows, the loop terminates with exactly the root's descendants, the least set that holds the root and is closed under children |
| EquivalenceGrant.VerdictFrom | uta/enforcement/equivalent_mutants.py:259-283 | a verdict read from anything has stripped fields and a key, and is `equivalent` only with a nonempty region and argument |
| EquivalenceGrant.ParseVerdicts | uta/enforcement/equivalent_mutants.py:190-221 | the loop's result, outcome and reason for any document and expected keys |
| EquivalenceGrant.DocumentForms | uta/enforcement/equivalent_mutants.py:197-203 | a list under "verdicts" gives the result of the bare list; an object without one, any other value and text that is not JSON are invalid |
| EquivalenceGrant.AnsweredAs | uta/enforcement/equivalent_mutants.py:205-218 | when reading raises, and when the answer is invalid, incomplete, not equivalent or accepted, with the verdicts kept |
| EquivalenceGrant.RequestedItemReads | uta/enforcement/equivalent_mutants.py:261-283 | an item in the form the prompt asks for reads as its verdict, in any case and with blanks around its texts; without a key or with another word as none |
| EquivalenceGrant.KelvinIsK | uta/enforcement/equivalent_mutants.py:265 | a verdict may be written with the Kelvin sign |
| Text.SpacesAre | uta/enforcement/equivalent_mutants.py:264-269 | which characters are stripped, one by one |
| EquivalenceGrant.AcceptedIff | uta/enforcement/equivalent_mutants.py:190-221 | a review is accepted if and only if the file, a list or an object with the list under "verdicts", gives every expected key, and no other, one argued `equivalent` verdict; the verdicts are kept in order |
| EquivalenceGrant.RaisesIff | uta/enforcement/equivalent_mutants.py:204-212 | reading raises if and only if the first item that is not admissible is one whose reading raises |
| EquivalenceGrant.LinesRaise | uta/enforcement/equivalent_mutants.py:271-282 | an item's reading raises if and only if its key and verdict are well-formed and its source lines are a nonzero number or true |
| EquivalenceGrant.NumberedVerdictRaises | uta/enforcement/equivalent_mutants.py:271-282 | a file with one such item, its lines given as a number, raises whatever keys are expected |
| EquivalenceGrant.SaveLoad | uta/enforcement/equivalent_mutants.py:123-163 | a decision survives saving and loading if and only if its verdicts are as reading leaves them |
| EquivalenceGrant.SavedAs | uta/enforcement/equivalent_mutants.py:131-143 | the saved form, field by field |
| EquivalenceGrant.VerdictSavedAs | uta/enforcement/equivalent_mutants.py:136-139 | the saved form of a verdict |
| EquivalenceGrant.FieldRead | uta/enforcement/equivalent_mutants.py:73-94 | how one stored field is read, by the kind of its value |
| EquivalenceGrant.LoadedLeniently | uta/enforcement/equivalent_mutants.py:146-165 | an unknown outcome counts as rejected and a verdict that reads as none is left out |
| EquivalenceGrant.ReviewReachesGrant | uta/testgen/equivalence_review.py:137-147 | a turn's decision reaches the grant unchanged, and is accepted if and only if the workspace was kept, the turn completed and the file proves every survivor |
| EquivalenceGrant.TurnDecided | uta/testgen/equivalence_review.py:137-147 | a turn that changed the workspace or did not complete is rejected for that; otherwise the file's answer becomes the decision |
| EquivalenceGrant.DecideGrant | uta/enforcement/equivalent_mutants.py:224-256 | granted if and only if no reason to refuse applies, and otherwise the first such reason |
| EquivalenceGrant.RefusalExactly | uta/enforcement/equivalent_mutants.py:235-258 | which of the ten answers is given, case by case |
| EquivalenceGrant.MergedIsLast | uta/enforcement/equivalent_mutants.py:251-253 | a path is fingerprinted if and only if some review names it, with the digest the last such review saw |
| EquivalenceGrant.GrantIff | uta/enforcement/equivalent_mutants.py:224-256 | from verdict files to decision: granted if and only if there is a review, each proves its survivors, only mutation failed, nothing unreviewed lowers a score, the fresh survivors are exactly the reviewed ones, and every path has its latest digest |
| EquivalenceGrant.GrantIsSound | uta/enforcement/equivalent_mutants.py:224-256 | under a grant every fresh survivor has an argued `equivalent` verdict, no review covers a mutant the fresh run lacks, and nothing else lowers the score |
| EquivalenceGrant.SourceUnchangedIff | uta/enforcement/equivalent_mutants.py:251-255 | under a grant every review saw the fresh run's source if and only if the reviews agree with each other |
| EquivalenceGrant.StaleReviewGranted | uta/enforcement/equivalent_mutants.py:251-255 | two turns, each with a survivor of its own, saw one file at different digests; both proofs are accepted and the grant is given on the later digest |

## Left out

- Git, Maven, HTTP routes, command line, templates, SQLite itself, subprocesses and signals: no semantics visible here. A transaction is one step; a refusal inside it rolls back.
- Exception texts: the batch identity errors are one outcome `Refused`, and the rerun's errors are `ok == false`.
- Digests, uuids and timestamps: parameters; a fresh run id is one that was never used, a digest twelve hexadecimal digits.
- CiQueue.ApiTriggerService.EnterRunCheck: the entry of `_run_check` and the orphan sweep are one step each, although the code holds no lock there; every record has a runner.
- CiQueue.ApiTriggerService.ClaimNextPending: the order in which the records are listed is a parameter.
- CiQueue: records of other processes appear only as the summaries and in-flight ids a step is given; saving a record is not a step of its own.
- TaskDaemon.Daemon.AcquireTasks: `acquire_next` is a list of offers of which excluded ones are never handed out; the budget cap is an empty list of offers, and how often `include_failed` hands out a failed task again is not bounded.
- TaskDaemon: heartbeats, retention runs and the requeueing of orphans do not touch the modelled state; the error classifier is any function into the four policies; a second signal ends the process and is not modelled.
- CleanRerun.TaskStore.CleanRerunGeneration: the legacy prompt scopes and the audit event it also writes are not modelled, nor the columns that only describe a row's stage; a row's `updated_at` neither.
- Retention.EligibleIdentities: unreadable unit lists are taken as empty.
- RepairProgress.ApplyRepairProgress: the prompt texts are not modelled; score maps hold numbers only, as `_scores` leaves them.
- ProgressLedger.ProgressStore.FinishTaskWithTerminalEvent: summary events are notes whose type differs from the reserved ones; ASCII upper case; messages and payloads are not modelled beyond the status.
- ProgressLedger.Admit: a payload is its serialized size.
- Regression: floating point is modelled by the reals, so rounding is not covered; reading reports and bucketing are left out.
- RepairWindow: ordering the groups and planning the round are branch by branch.
- ProcessTree.Descendants: reading the process table and summing memory pages are left out.
- EquivalenceGrant.ParseVerdicts: the JSON reader and Python's text of a value that is not text are parameters.
- EquivalenceGrant.SaveLoad: digits stored as text in a number field, and lists of pairs in place of an object, count as malformed.
- The eligibility check before a review (`assess_eligibility`) and the prompt: each is its own branches; the grant does not rely on them.
- `_load_record_summary`: it looks for key names in a bounded part of the text, so it does not refine a full load.
- `parse_added_diff_lines`: line bodies that start with `++` or `--` disturb its counter.
- Iteration order of dictionaries and sets where the result does not depend on it.
