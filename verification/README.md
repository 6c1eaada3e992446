# Verified models of cluster-api-provider-bke

This project models the state machines behind openFuyao's cluster life cycle and proves what
they keep over whole runs:

- **Declarative upgrade.** The dependency graph and its batches (`Topology.dfy`), the worker pool
  of one batch as interleaved steps (`WorkerPool.dfy`), the persisted progress (`Progress.dfy`), the
  scheduler with its patches of the stored status and the in-memory mirror (`Scheduler.dfy`,
  `Execution.dfy`), and repeated reconciles of one hop (`Reconciles.dfy`).
- **Upgrade hops.** The catalog, what it accepts and its path search (`UpgradeRules.dfy`, `UpgradePath.dfy`), the ClusterVersion status
  and its writers (`HopStatus.dfy`), the protocol between the two reconcilers, patch by patch
  (`HopProtocol.dfy`), distance and convergence (`HopConvergence.dfy`), the reconcilers as
  methods (`HopReconcilers.dfy`), and the race between them (`HopRace.dfy`).
- **Node agent.** The command runner with retries and a deadline (`CommandRunner.dfy`) and the
  registry of running tasks with its close-once stop channels (`TaskRegistry.dfy`).
- **Self-contained pieces.** Allocation of nodes to machines (`NodeAllocation.dfy`), password
  encryption (`AesFraming.dfy`), certificate regeneration (`CertCascade.dfy`), the staged health
  check (`Health.dfy`), command completion (`CommandStatus.dfy`), address ranges (`IpRange.dfy`).

Components, commands, reads and patches succeed or fail arbitrarily; goroutines, map iterations
and the reconcilers interleave arbitrarily; the clock only moves forward.  `dafny verify
dfyconfig.toml` checks everything.

Where the code does less than its comments promise, the model follows the code, and the
exact condition is proved together with a run or an input that fails:

| what fails | when exactly | proved by |
|---|---|---|
| every success record is an approved upgrade edge | a success is recorded from a version from which no approved hop leads to its target; that takes a hop marked after the version it was planned for was left | `HopProtocol.StepSoundExact`, `HopProtocol.StepUpToDate`, `HopRace.StaleMark` |
| a completed hop is one hop less to go | the catalog writes the target of the hop with surrounding space (and no other version that differs only in space) | `HopConvergence.HopExact`, `HopConvergence.UntidyCatalog` |
| the phase is Ready once the desired version is reached | the desired version is written with surrounding space | `HopStatus.ReadyAfterHop`, `HopStatus.NotReadyAfterHop` |
| every task but the current ones is closed | a clean-up from a snapshot finds its command gone while an open task is filed under its name | `TaskRegistry.Job.RunAll`, `TaskRegistry.RecreatedCommand` |
| a resumed run is called Complete exactly when all its commands are done | the last command is done already and another one is left to run | `CommandRunner.ResumeExact`, `CommandRunner.ResumedVerdict` |
| one node goes to one machine | a machine whose status still names a node it lost is deleted while another machine boots that node, or the first control plane node is taken while a machine has it | `NodeAllocation.StepExact`, `NodeAllocation.DoubleAllocation` |
| padding after unpadding gives the data back | not all padding bytes are equal (only the last is looked at) | `AesFraming.PadUnpad`, `AesFraming.UnevenPadding` |
| a new CA replaces the leaves it signs | the leaf calls its CA by another name than the CA itself (`etcd-ca`, `front-proxy-ca`) | `CertCascade.CascadeExact`, `CertCascade.DefaultListMisses` |
| a missing leaf is made when its CA is stored | another CA had to be renewed before any leaf was made | `CertCascade.Generator.LookUpOrGenerate`, `CertCascade.StuckRun` |
| a range lists the addresses between its ends | the first address is smaller but greater in some octet | `IpRange.RangeExact`, `IpRange.WrongWayRound` |

## Model

| member | source | states |
|---|---|---|
| Progress.MarkCompleted | api/bkecommon/v1beta1/bkecluster_status.go:208-221 | exactly the given component and normalised version is added to the recorded completions; repeating it changes nothing |
| Progress.MarkFailure | api/bkecommon/v1beta1/bkecluster_status.go:225-246 | recording a failure never touches the completions or the target |
| Progress.AttemptsCount | api/bkecommon/v1beta1/bkecluster_status.go:225-246 | after any number of failures in a row the last one is on record, and the attempt number counts those of the same component and version, starting over for another one; completions stay |
| Progress.EnsureInitialized | api/bkecommon/v1beta1/bkecluster_status.go:161-177 | the same target keeps every completion, another target forgets them all |
| Topology.Graph.AddNode | pkg/topology/graph.go:37-52 | the node is added without edges; the graph stays acyclic with correct in-degrees |
| Topology.Graph.AddEdge | pkg/topology/graph.go:54-73 | the edge is refused as a cycle exactly when the dependent already reaches the prerequisite; otherwise exactly this edge is added and the graph stays acyclic |
| Topology.Graph.HasPath | pkg/topology/graph.go:127-158 | the search finds a path exactly when one exists |
| Topology.Graph.TopologicalBatches | pkg/topology/graph.go:85-125 | the batches partition the nodes, every dependency is in a strictly earlier batch, each node is as early as possible, and the cycle error cannot occur |
| Topology.PathCrossesBatches | pkg/topology/graph.go:85-125 | transitive prerequisites, too, are in strictly earlier batches |
| Topology.AcyclicHasNoCycle | pkg/topology/graph.go:54-73 | the rank definition of acyclic means that no path leads back to its start |
| WorkerPool.MaxParallel | pkg/dagexec/scheduler.go:334-346 | at least one and at most the configured number and the number of items, and one of these two, 8 standing for a number that is not configured |
| WorkerPool.StepInv | pkg/dagexec/scheduler.go:189-224 | every step of every worker keeps the semaphore bound and explains cancelled workers, and gets the pool closer to its end |
| WorkerPool.MayStart | pkg/dagexec/scheduler.go:189-224 | below the limit every waiting worker may start, and one may give up exactly after a FailFast failure was noticed |
| WorkerPool.BehaviourExtends | pkg/dagexec/scheduler.go:189-224 | a step extends an interleaving, which connects the running pool with the claims about all interleavings |
| WorkerPool.BatchSafety | pkg/dagexec/scheduler.go:189-224 | in every reachable state at most the limit run, no deadlock, at most 2n+1 steps, and a worker that never started is explained by a FailFast failure |
| Scheduler.MarkAllKeys | pkg/dagexec/scheduler.go:388-407 | the success patch records exactly the batch's successful components |
| Scheduler.CompletedUnder | pkg/dagexec/scheduler.go:348-407 | a success is recorded with the version of the inline handler if there is one, else with its own, v1.0.0 standing for an empty one; the last error and the failure are cleared |
| Scheduler.RunnableMeans | pkg/dagexec/scheduler.go:364-386 | a component has to run exactly when its version differs from the target and nothing is recorded under its name and that version |
| Scheduler.InstalledVersion | pkg/dagexec/scheduler.go:516-527 | an installed component shows its own version, else that of the inline handler, else v1.0.0 |
| Scheduler.OtherEntries | pkg/dagexec/component_status_updater.go:82-131 | a component that is not installed shows nothing, one with a real error shows Failed |
| Scheduler.BatchComposes | pkg/dagexec/scheduler.go:144-260 | building the items, running the pool and persisting the results compose to the batch contract, although cancelled workers leave blank results |
| Scheduler.SafeLogExtends | pkg/dagexec/scheduler.go:130-141 | the next batch may start because each FailFast component a member depends on, directly or not, was settled by the pool of an earlier batch |
| Scheduler.RunStep | pkg/dagexec/scheduler.go:130-141 | one more batch keeps the accounting of the run: what ran, what is recorded, what is classified |
| Execution.Run.PatchProgress | pkg/dagexec/declarative_upgrade_patch.go:26-56 | after a successful patch the mirror equals the store; a failed one changes neither |
| Execution.Run.PatchLife | pkg/dagexec/component_status_updater.go:133-169 | the entry is written to store and memory together, or to neither |
| Execution.Run.ClearLife | pkg/dagexec/component_status_updater.go:111-131 | the entry is removed from the store, and from memory when the two agreed |
| Execution.Run.BuildItems | pkg/dagexec/scheduler.go:160-187 | every name of the batch becomes an item, did not have to run, or left an error and is not FailFast; registered items become Pending |
| Execution.Run.RunPool | pkg/dagexec/scheduler.go:189-224 | in any interleaving within the parallel limit the pool settles, the results are those of its workers, blank results need a FailFast failure, and what started is put on the log |
| Execution.SettledPool | pkg/dagexec/scheduler.go:189-224 | the results of a settled pool are those of its workers |
| Execution.Run.PersistFailure | pkg/dagexec/scheduler.go:262-287 | a real error is recorded as the last failure, always leaves an error and stops the run exactly for a component whose policy is FailFast; a component that is not installed leaves no trace; completions are untouched |
| Execution.Run.PersistSuccesses | pkg/dagexec/scheduler.go:289-328 | all successes are recorded and the failure fields cleared, or an error is left, which stops the run if one of them is FailFast; the lifecycle entries follow |
| Execution.Run.RecordCompletions | pkg/dagexec/scheduler.go:306-316 | one patch records exactly these components, or every one of them complains |
| Execution.Run.MarkInstalled | pkg/dagexec/scheduler.go:318-327 | exactly the components with an executor become Installed at their version, in store and memory; only a FailFast component among them can stop the run |
| Execution.Run.PersistFailures | pkg/dagexec/scheduler.go:239-252 | each real error is recorded, leaves an error and stops a FailFast run; the successes are collected; blank results are passed over |
| Execution.Run.PersistResults | pkg/dagexec/scheduler.go:230-260 | failures and successes together: no real error or unrecorded success without an error, completions only for successes |
| Execution.Run.ExecuteBatch | pkg/dagexec/scheduler.go:144-228 | the batch contract, the mirror, and the lifecycle entries: started components show their outcome, and only one that was cancelled before it started turns Pending |
| Execution.LifeRunStep | pkg/dagexec/component_status_updater.go:66-131 | with patches that succeed, started registry components show Installed, Failed or nothing; exactly those that had to run and never started because a FailFast component of their batch failed turn Pending; all others, and legacy ones, are untouched |
| Execution.UnstartedIsCancelled | pkg/dagexec/scheduler.go:189-224 | an item that never started was cancelled by a FailFast failure in its batch |
| Execution.Run.ExecuteDAG | pkg/dagexec/scheduler.go:99-142 | for every interleaving and failure pattern, over the log of what the pools started: a component starts only after its FailFast prerequisites ran without a real error or did not have to; the pool of a FailFast failure, or of a FailFast success that could not be recorded, is the last; only components that had to run start; completions only grow; store and mirror agree; the run ends early or leaves a component unaccounted for only with an error, and with a reliable store only when its last pool holds a real error of a component whose policy is FailFast; a plan without FailFast components is always run to its end; only components cancelled before starting stay Pending, and those do |
| Execution.StartedSafely | pkg/dagexec/scheduler.go:130-141 | if a component started, every component of policy FailFast it depends on, directly or not, ran without a real error, or did not run and did not have to |
| Execution.NothingAfterFailure | pkg/dagexec/scheduler.go:130-141 | nothing of a later batch starts after a component of policy FailFast failed, or succeeded and could not be recorded |
| Execution.TraceExtends | pkg/dagexec/scheduler.go:144-228 | one more batch keeps all that over the log |
| Execution.RunAccounts | pkg/dagexec/scheduler.go:99-260 | a run over all batches without errors puts every node in exactly one of: recorded before or at target, newly succeeded and recorded, not installed |
| Reconciles.PlanOf | pkg/dagexec/scheduler.go:120-123 | the batches of a valid graph meet what the scheduler relies on |
| Reconciles.Reconcile | controllers/capbke/bkecluster_upgrade_dag.go:98-145 | the hop is finished, in the stored status too, only when every component is accounted for; completions for the target survive every outcome, also a failure between initialising the progress and running the DAG; with a reliable store the DAG is run, the hop is finished exactly when it returns no error, and otherwise an error is on record |
| Reconciles.ReconcileAll | controllers/capbke/bkecluster_upgrade_dag.go:98-160 | repeated reconciles form a chain in which each run begins with what the one before left; with a reliable store every plan is run, in order, until the hop is finished |
| Reconciles.NeverAgain | pkg/dagexec/scheduler.go:348-407 | over any sequence of runs for one target recorded completions are never lost and a recorded component is never started again |
| Reconciles.SucceededOnce | pkg/dagexec/scheduler.go:348-407 | a component that succeeded in a run without errors is not started again at the same version |
| UpgradeRules.ValidateRules | pkg/upgradepath/graph.go:295-325 | accepts exactly the lists of rules without empty or equal ends, empty check names and repeated keys, and names a rule that is wrong |
| UpgradeRules.ValidMeans | pkg/upgradepath/graph.go:295-325 | what an accepted list is: no rule with an empty or repeated end or an empty check name, and no two with the same ends joined by the separator |
| UpgradeRules.KeyInjective | pkg/upgradepath/graph.go:318-322 | for names without the separator a repeated key is a repeated edge |
| UpgradeRules.Visit | pkg/upgradepath/graph.go:335-357 | the depth-first search finishes a version and everything it leads to, in an order that falls along every rule, or returns a circle |
| UpgradeRules.VisitAll | pkg/upgradepath/graph.go:359-371 | visiting every version finds a circle exactly when the graph has one |
| UpgradeRules.DetectCycle | pkg/upgradepath/graph.go:330-372 | a circle is reported exactly when the rules, blocked or not, lead round in one |
| UpgradeRules.Load | pkg/upgradepath/graph.go:102-127 | the catalog is replaced exactly when the rules are valid and without circle, and then offers exactly these rules; otherwise it stays |
| UpgradePath.BuildGraph | pkg/upgradepath/graph.go:374-392 | the graph offers exactly the given rules, and its versions are exactly their ends |
| UpgradePath.Service.FindPath | pkg/upgradepath/graph.go:141-191 | the level-by-level search returns a shortest unblocked path, and an error exactly when a version is unknown or there is no path |
| UpgradePath.ShortestTail | pkg/upgradepath/graph.go:141-191 | the rest of a shortest path is a shortest path |
| HopStatus.TrimTrims | pkg/clusterversion/status.go:104-110 | trimming leaves no space at either end and is idempotent |
| HopStatus.WriteReplays | pkg/clusterversion/status.go:95-160 | every writer of the status keeps the current version equal to the replay of the history, keeps the first version, and only appends records |
| HopStatus.HistoryReplays | pkg/clusterversion/status.go:95-160 | in every interleaving of writes to a new ClusterVersion the history is empty while no version is installed and replays to the current version afterwards |
| HopStatus.FirstStays | pkg/clusterversion/install_complete.go:52-69 | once a version is installed, the first version and all records are final |
| HopStatus.CompleteTwice | pkg/clusterversion/status.go:95-126 | repeating a completed hop changes nothing |
| HopStatus.CompletedHop | pkg/clusterversion/status.go:95-126 | a completed hop moves the version, is recorded as a success when it came from another version, and leaves Ready at the desired version, Upgrading on the way |
| HopStatus.FailedHop | pkg/clusterversion/status.go:130-160 | a failed hop keeps the version, leaves the phase Failed and is recorded as a failure when it was to lead to another version |
| HopStatus.InstallCompletes | pkg/clusterversion/install_complete.go:30-69 | the installed version becomes the current one, Ready, exactly when it is the desired one and nothing else is recorded or under way |
| HopStatus.SyncCompletes | pkg/clusterversion/status.go:30-92 | the other writer does the same unless a hop is marked or the status says so already |
| HopStatus.InstallKeepsVersion | pkg/clusterversion/install_complete.go:30-69 | completing an installation never moves a version that is already there |
| HopStatus.InstallReplays | controllers/capbke/bkecluster_clusterversion.go:61-97 | the install write keeps the history a replay |
| HopStatus.ReadyAfterHop | pkg/clusterversion/status.go:109-116 | the hop that reaches the desired version leaves Ready exactly when the desired version has no surrounding space |
| HopStatus.NotReadyAfterHop | pkg/clusterversion/status.go:109-116 | with "v2 " desired, arriving at v2 leaves the phase Upgrading |
| HopProtocol.StepKnown | controllers/clusterversion/clusterversion_controller.go:136-207 | in every interleaving of single patches, marked, planned and running hops come from paths that were found |
| HopProtocol.PlanIsEdge | controllers/clusterversion/clusterversion_controller.go:160-176 | a planned hop is an unblocked catalog edge from the version in use |
| HopProtocol.InstallPhaseExact | controllers/clusterversion/clusterversion_controller.go:223-250 | an installation is under way exactly while the cluster is not ready and has no version, or has the desired one without its release image |
| HopProtocol.InstallPhases | controllers/clusterversion/clusterversion_controller.go:90-114 | during an installation only the phase changes, to Failed when the image cannot be had |
| HopProtocol.ArrivedUnmarks | controllers/clusterversion/clusterversion_controller.go:136-141 | at the desired version the mark is removed and nothing else changes |
| HopProtocol.FailedWaits | controllers/clusterversion/clusterversion_controller.go:143-147 | short of the desired version a Failed upgrade is left alone |
| HopProtocol.AbortedStays | controllers/capbke/bkecluster_upgrade_dag.go:370-413 | an aborted hop leaves no mark and the phase Failed, and no reconcile of the ClusterVersion marks it again, whatever it sees |
| HopProtocol.PrecheckFails | controllers/clusterversion/clusterversion_controller.go:149-192 | without a catalog, a path or the release image of its first hop only the phase changes, to PreCheckFailed |
| HopProtocol.MarksFirstHop | controllers/clusterversion/clusterversion_controller.go:177-207 | with path and image the first hop is marked and approved unless it is marked already; a pending image changes nothing |
| HopProtocol.StepUpToDate | controllers/clusterversion/clusterversion_controller.go:201-207 | marked and running hops stay those of the current version with a patch exactly when no stale hop is marked and no hop finishes under a mark for another version |
| HopProtocol.StepSound | pkg/clusterversion/status.go:109-126 | success records are written for approved hops only |
| HopProtocol.StepSoundExact | pkg/clusterversion/status.go:109-126 | in every interleaving, stale marks included, the success records stay approved hops with a patch exactly when the success it records is backed by an approved hop from the current version |
| HopProtocol.OrderlyRunsAreSafe | controllers/capbke/bkecluster_upgrade_dag.go:440-477 | every run of orderly patches keeps edge safety, whatever happens to the catalog and the desired version |
| HopProtocol.MoveIsOrderly | controllers/clusterversion/clusterversion_controller.go:119-217 | a reconcile that is not interrupted is an orderly run of patches and adds up to its stated effect |
| HopProtocol.EdgeSafety | controllers/capbke/bkecluster_upgrade_dag.go:440-477 | over all runs of whole reconciles, the mark is the first edge of a path found from the current version and every success record is such an edge |
| HopProtocol.ApprovedWereOffered | controllers/clusterversion/clusterversion_controller.go:160-176 | a hop is approved during a run only as an unblocked edge of the catalog in force |
| HopProtocol.RecordsWereOffered | controllers/capbke/bkecluster_upgrade_dag.go:440-477 | every success record is an unblocked edge of a catalog that was in force during the run, or a hop approved before it |
| HopProtocol.OnlyOfferedUpgrades | controllers/clusterversion/clusterversion_controller.go:136-207 | from a new ClusterVersion on, the mark and every success record are edges of catalogs that were in force, although catalog and desired version change at will |
| HopConvergence.WayIsCloser | pkg/upgradepath/graph.go:141-191 | the first hop of a shortest path lowers the distance by exactly one |
| HopConvergence.MoveCloses | controllers/clusterversion/clusterversion_controller.go:129-216 | a completed hop is one hop less to go and one success more, every other reconcile changes neither |
| HopConvergence.HopsAreConserved | controllers/clusterversion/clusterversion_controller.go:129-216 | for a fixed catalog and desired version, successes and hops left add up to the initial distance; the desired version is reached exactly with the last success; only the versions on the shortest ways must be written without surrounding space |
| HopConvergence.HopExact | pkg/clusterversion/status.go:104-116 | in a catalog where no two versions differ in surrounding space only, a completed hop on a shortest way is one hop less to go if and only if the catalog writes its target without surrounding space |
| HopConvergence.UntidyCatalog | pkg/clusterversion/status.go:104-110 | a hop to a version written with trailing space arrives at the trimmed version, from where nothing leads on |
| HopConvergence.ReadyOnArrival | pkg/clusterversion/status.go:109-116 | the arriving hop leaves Ready exactly when the desired version has no surrounding space |
| HopConvergence.Converges | controllers/clusterversion/clusterversion_controller.go:160-207 | from distance k, k rounds of marking and completing lead to the desired version, Ready |
| HopReconcilers.Objects.Reconcile | controllers/clusterversion/clusterversion_controller.go:63-117 | a reconcile whose patches succeed has exactly the stated effect on the shared objects; where it searches, the catalog is that of the given rules, and a path, a shortest one, is found exactly when there is one; rules that do not load fail the precheck; otherwise at most the phase changed |
| HopReconcilers.Objects.ReconcileUpgrade | controllers/clusterversion/clusterversion_controller.go:119-176 | the same for the upgrade branch |
| HopReconcilers.Objects.SearchCatalog | controllers/clusterversion/clusterversion_controller.go:149-163 | the catalog is replaced exactly when the rules are accepted, and then a shortest path is found exactly when the versions are connected |
| HopReconcilers.Objects.PrepareHop | controllers/clusterversion/clusterversion_controller.go:160-217 | path and image decide between failing the precheck, waiting, leaving the mark and marking the first hop |
| HopReconcilers.Objects.CompleteUpgrade | controllers/capbke/bkecluster_upgrade_dag.go:440-477 | the mark is removed before the status is patched, so a failure in between loses the mark and keeps the status; version, phase and success record are those of the marked hop; without a mark it is an error |
| HopReconcilers.Objects.AbortUpgrade | controllers/capbke/bkecluster_upgrade_dag.go:370-413 | the same for an aborted hop: the version stays, the phase is Failed, and the failure is recorded when the hop was to lead to another version |
| HopReconcilers.Objects.CompleteInstallation | controllers/capbke/bkecluster_clusterversion.go:61-105 | installation completes only without a mark and only for the desired version |
| HopRace.ReachMidway | controllers/clusterversion/clusterversion_controller.go:160-207 | for any three versions, an orderly run plans a second hop while the first is still running |
| HopRace.StaleMark | controllers/clusterversion/clusterversion_controller.go:201-207 | marking that stale hop leads to a success record that is neither an approved hop nor an edge of the catalog |
| CommandRunner.GetReplaced | api/bkeagent/v1beta1/condition.go:47-77 | replacing a condition is a map update |
| CommandRunner.EndIsOutcome | controllers/bkeagent/command_controller.go:482-510 | a command is recorded Complete exactly when its last attempt went well, Failed or Skip exactly when it did not, and all attempts before the last one failed |
| CommandRunner.Task.ExecuteWithRetry | controllers/bkeagent/command_controller.go:482-510 | at most limit+1 runs, each after a deadline check of its own that passed and each logged with its outcome; the recorded end is that of the logged attempts; without a time-out the command completed or failed limit+1 times |
| CommandRunner.Task.ProcessExecCommand | controllers/bkeagent/command_controller.go:519-541 | one condition is replaced, its runs are counted and its attempts logged with their outcomes; a failed command is skipped exactly when its failures are to be ignored; going on means done or past the deadline |
| CommandRunner.RunExtends | controllers/bkeagent/command_controller.go:566-606 | processing one more command after all earlier ones were done extends the run |
| CommandRunner.Task.StartTask | controllers/bkeagent/command_controller.go:566-606 | for any list of commands: each is passed over when complete at its turn or processed, the log of attempts and their outcomes is that of the processed commands one after the other, each recorded as its attempts ended, all but the last of them are done, each ran at most limit+1 times, stored completions are kept; with status updates that succeed it ends early only on a stop request, past the deadline or after a failed command; for distinct IDs the processed commands are an initial segment of those not complete and everything else is untouched |
| CommandRunner.Task.RunCommand | controllers/bkeagent/command_controller.go:572-599 | one iteration keeps all that or ends the run; once stopping was requested nothing more runs |
| CommandRunner.FailedIsLast | controllers/bkeagent/command_controller.go:519-541 | once a command ends Failed nothing later runs, even when the deadline kept the failure from breaking the loop |
| CommandRunner.FailureEndsRun | controllers/bkeagent/command_controller.go:566-606 | the same for commands with repeated IDs |
| CommandRunner.PickedRespects | controllers/bkeagent/command_controller.go:442-445 | whatever the IDs, a command that is complete stays so and does not run |
| CommandRunner.NegativeLimitRunsNothing | controllers/bkeagent/command_controller.go:482-488 | with a negative limit no command ever runs |
| CommandRunner.CompleteForGood | controllers/bkeagent/command_controller.go:442-445 | across restarts a command recorded Complete is never executed again |
| CommandRunner.VerdictIsRight | api/bkeagent/v1beta1/condition.go:95-149 | from scratch, the last condition and the count tell the truth: Complete exactly when every command is done, Failed exactly when one failed |
| CommandRunner.ResumeExact | api/bkeagent/v1beta1/condition.go:95-149 | every run resumed from recorded conditions is called Complete exactly when all commands are done, if and only if the last command is not done yet or nothing but it is left to run |
| CommandRunner.StaleVerdict | api/bkeagent/v1beta1/condition.go:95-149 | otherwise a run in which the first pending command hits the deadline is called Complete |
| CommandRunner.InOrderStays | api/bkeagent/v1beta1/condition.go:59-77 | runs keep the conditions in the order of the commands |
| CommandRunner.ResumedVerdict | api/bkeagent/v1beta1/condition.go:95-149 | a skipped command before a completed one: a resumed run can be called Complete wrongly |
| TaskRegistry.Task.SafeClose | pkg/job/job.go:108-112 | the stop channel is closed at most once |
| TaskRegistry.Task.MarkTimerAdded | pkg/job/job.go:70-81 | the deletion is scheduled at most once |
| TaskRegistry.Job.Reconciled | controllers/bkeagent/command_controller.go:316-364 | a newer generation closes and replaces the stored task, an older one changes nothing; superseded tasks stay closed |
| TaskRegistry.Job.EndCurrent | controllers/bkeagent/command_controller.go:286-301 | suspending or finalizing ends the current task and no other |
| TaskRegistry.Job.Cleanup | controllers/bkeagent/command_controller.go:209-214 | deleting a command closes its task before the entry goes |
| TaskRegistry.Job.DropEntry | pkg/job/job.go:127-131 | dropping an entry loses its task exactly when that is open |
| TaskRegistry.Job.ProcessTTLTask | controllers/bkeagent/command_controller.go:668-691 | for any task of a snapshot, the entry under its name is deleted exactly when it is complete, has a TTL and no timer, and its command is gone, which loses exactly an open task filed there; a deletion is scheduled once, exactly when the command is found and ready |
| TaskRegistry.Job.CurrentIsDroppable | pkg/job/job.go:62-68 | a snapshot that is still current is always safe to drop |
| TaskRegistry.Job.RunStep | controllers/bkeagent/command_controller.go:615-629 | the effect of every step on the registry; a step loses a task exactly when it is a clean-up from a snapshot that drops an open entry |
| TaskRegistry.Job.RunAll | controllers/bkeagent/command_controller.go:615-629 | over all runs, snapshots included, generations increase until deletion, closing and scheduling happen at most once, and as many open tasks are lost as there were clean-ups that found their command gone while an open task was filed under its name; without one every task but the current ones is closed |
| TaskRegistry.RecreatedCommand | controllers/bkeagent/command_controller.go:674-680 | a recreated command loses its open task to a stale snapshot |
| NodeAllocation.Pick | controllers/capbke/bkemachine_controller_phases.go:1098-1111 | the preferred node if it is a candidate, the first candidate otherwise |
| NodeAllocation.AvailableAreFree | controllers/capbke/bkemachine_controller_phases.go:1074-1092 | the candidates are exactly the nodes neither booting nor bound |
| NodeAllocation.AvailableOrder | controllers/capbke/bkemachine_controller_phases.go:1074-1092 | the candidates stay in the order of the nodes |
| NodeAllocation.WhenEnabled | controllers/capbke/bkemachine_controller_phases.go:1041-1112 | when each step can be taken; joining takes a node that is neither booting nor bound |
| NodeAllocation.StepExact | controllers/capbke/bkemachine_controller_phases.go:1041-1112 | a step keeps labels and in-flight nodes exclusive and recorded exactly when it is no init on a taken node and no delete of a node another machine is booting |
| NodeAllocation.AgreeingDeleteIsSafe | controllers/capbke/bkemachine_controller.go:704-722 | deleting a machine whose status agrees with its label is safe |
| NodeAllocation.GuardedRunsAreExclusive | controllers/capbke/bkemachine_controller_phases.go:429-478 | in every guarded run no node goes to two machines |
| NodeAllocation.HandOver | controllers/capbke/bkemachine_controller_phases.go:739-739 | a failed machine loses its label but keeps its node in the status while another machine takes the node |
| NodeAllocation.DoubleAllocation | controllers/capbke/bkemachine_controller.go:410-425 | deleting that machine gives the node to a third one that works from a list of nodes read before, or after the node object could not be deleted |
| NodeAllocation.MachineReconciler.FilterAvailableNode | controllers/capbke/bkemachine_controller_phases.go:1041-1112 | the loops over nodes and labels make exactly the allocation step, or none when nothing is free or the machines cannot be listed |
| NodeAllocation.MachineReconciler.HandleRealBootstrap | controllers/capbke/bkemachine_controller_phases.go:429-478 | the label follows the created command, a failed creation abandons the node |
| NodeAllocation.MachineReconciler.ProcessBootstrapCommand | controllers/capbke/bkemachine_controller_phases.go:619-632 | the boot record of the machine's own label goes, and on failure the label |
| NodeAllocation.MachineReconciler.PostNodeSetupCleanup | controllers/capbke/bkemachine_controller.go:410-425 | the record of the node in the status goes, whoever boots it |
| AesFraming.UnpadPad | common/security/security.go:209-226 | unpadding undoes padding |
| AesFraming.PadUnpad | common/security/security.go:209-226 | padding undoes unpadding exactly when the padding is uniform |
| AesFraming.UnevenPadding | common/security/security.go:209-226 | a block ending in 7, 2 unpads, and padding gives another block |
| AesFraming.EncryptChains | common/security/security.go:117-122 | at every position a block of cipher text is the enciphered sum of the plain block and the cipher text before it, or the vector |
| AesFraming.DecryptChains | common/security/security.go:167-171 | at every position a plain block is the deciphered block summed with the cipher text before it, or the vector |
| AesFraming.DecryptEncrypt | common/security/security.go:117-122 | chained decryption undoes encryption for every permutation, vector and length |
| AesFraming.EncryptDecrypt | common/security/security.go:167-171 | and the other way round |
| AesFraming.RoundTrip | common/security/security.go:97-185 | for every password, key and vector decryption returns the password |
| AesFraming.FrameShape | common/security/security.go:150-166 | what opens in the present format has the magic, a vector and at least one block |
| AesFraming.OpenedFrame | common/security/security.go:167-178 | what opens is what encrypting its password gives, exactly when its padding is uniform |
| AesFraming.LegacyNeverFramed | common/security/security.go:160-164 | legacy text that begins with the magic fails the length test |
| AesFraming.LegacyRoundTrip | common/security/security.go:180-206 | a legacy password is read back under every key of the process, or rejected if its text begins with the magic |
| AesFraming.KeyIs | common/security/security.go:64-87 | no key for an empty variable, an invalid one for anything but 32 encoded bytes |
| AesFraming.Refusals | common/security/security.go:97-206 | the error of every refused password and text: missing or invalid key, bad encoding, bad length |
| AesFraming.Security.LoadKey | common/security/security.go:64-87 | the key is loaded once and stays that of the environment |
| AesFraming.Security.EncryptPassword | common/security/security.go:97-132 | refuses without a proper key, otherwise frames the password |
| AesFraming.Security.DecryptPassword | common/security/security.go:138-206 | follows the framing for every text and key state |
| CertCascade.Generator.LoadCaCertContent | pkg/certs/generator.go:407-430 | exactly the stored CAs are loaded, unless a read fails |
| CertCascade.Generator.GenerateWithCA | pkg/certs/generator.go:548-602 | the leaf is signed by a CA in memory that matches its CA name, in any search order; with readable secrets it fails exactly when none matches |
| CertCascade.TrimSuffixIs | pkg/certs/generator.go:561-561 | the suffix is taken off where it is there, and nothing else |
| CertCascade.Generator.GenerateCertificates | pkg/certs/generator.go:163-213 | CAs are renewed exactly when missing or expiring, leaves also when their CA name was renewed, and are signed by the CA in memory; the service account key is made when missing |
| CertCascade.Generator.GenerateEntry | pkg/certs/generator.go:168-197 | one entry is kept, signed or renewed; with readable secrets it fails exactly when it is a leaf whose CA is not at hand |
| CertCascade.FoundExactly | pkg/certs/generator.go:549-571 | a leaf finds its CA in memory exactly when that CA was renewed or the stored CAs were loaded, which happens only while no CA was renewed |
| CertCascade.LoadBlocked | pkg/certs/generator.go:549-553 | a CA renewed before any leaf is made keeps the stored CAs from being loaded, so a leaf of a stored CA fails |
| CertCascade.StuckRun | pkg/certs/generator.go:549-571 | with the front proxy CA and an etcd certificate missing the run fails although the etcd CA is stored |
| CertCascade.ServiceAccountApart | pkg/certs/generator.go:199-210 | the service account key does not touch the certificates of the list |
| CertCascade.CascadeExact | pkg/certs/generator.go:163-213 | after a successful run every stored leaf is signed by its stored CA exactly when no present leaf uses another name for a CA that had to be renewed |
| CertCascade.RunEffect | pkg/certs/generator.go:118-213 | the same for the secrets after the write, with every certificate of the list and the service account key present |
| CertCascade.ExactNamesMissNothing | pkg/certs/generator.go:173-178 | when leaves use their CA's own name the cascade misses nothing |
| CertCascade.Generator.LookUpOrGenerate | pkg/certs/generator.go:118-141 | the chain condition for the stored secrets, all certificates of the list and the service account key are present afterwards, and no key still to be made is in use; with readable secrets it succeeds exactly when every leaf to be made has its CA at hand, and a failed run writes nothing |
| CertCascade.OnlyOccurrence | pkg/certs/generator.go:554-567 | when exactly one CA name matches a leaf's CA name |
| CertCascade.DefaultListInOrder | utils/bkeagent/pkiutil/bkecertlist.go:82-95 | the program's list, kubeconfig included, has CAs before their leaves, and each CA name leads to one CA |
| CertCascade.DefaultListMisses | utils/bkeagent/pkiutil/bkecertlist.go:349-378 | with that list a run on an expiring front proxy CA succeeds, renews the CA and keeps its client certificate |
| Health.HasPriorityIsOccurs | pkg/kube/health_unified.go:586-618 | the recursive search finds a priority exactly when it occurs in the error tree |
| Health.FirstHealthIs | pkg/kube/health_unified.go:586-593 | of joined errors the first that holds a health error counts |
| Health.IntervalIsRight | pkg/kube/health_unified.go:671-682 | the interval read back from the tree is that of the highest failing priority |
| Health.Cache.GetNodes | pkg/kube/health_cache.go:38-50 | cached nodes are those of the snapshot |
| Health.Cache.GetPods | pkg/kube/health_cache.go:52-64 | cached pods are those of the snapshot |
| Health.Checker.VerifyPods | pkg/kube/health_unified.go:482-508 | fails exactly when no pod has the prefix, one is unhealthy, or for coredns all are |
| Health.Checker.CheckComponent | pkg/kube/health_unified.go:467-480 | fails exactly when the component is not fine, with its priority |
| Health.FineMeans | pkg/kube/health_unified.go:359-508 | what the plain pass looks at: nodes that count, listed pods, a pod for every prefix, and for coredns one healthy pod where others need all |
| Health.Checker.CheckComponents | pkg/kube/health_unified.go:425-465 | in any completion order the errors are those of the failing components |
| Health.Checker.CheckNodes | pkg/kube/health_unified.go:359-395 | fails exactly when a node that counts is unhealthy or the list cannot be read |
| Health.Checker.GroupByPriority | pkg/kube/health_unified.go:345-357 | every component is in the group of its priority |
| Health.Checker.Check | pkg/kube/health_unified.go:313-343 | the staged, cached, grouped check has the verdict of a plain pass over everything |
| CommandStatus.CheckCommandStatus | pkg/command/command.go:493-534 | the flag is the same in every iteration order; when set, success and failed nodes partition those that reported |
| CommandStatus.NodeIPOfResult | utils/utils.go:431-438 | address and name/address give the address |
| CommandStatus.HandleTimeout | pkg/command/command.go:413-457 | exactly the selected nodes that no result names are appended, each once; when the command cannot be read the lists stay |
| CommandStatus.EveryoneIsNamed | pkg/command/command.go:413-457 | every selected address is named by a result afterwards |
| IpRange.Increment | pkg/kube/addon.go:1347-1354 | the carry loop is +1 modulo 2^32 |
| IpRange.Enumerate | pkg/kube/addon.go:1344-1361 | the list has one address per step from start to end, around the address space if need be |
| IpRange.WalkListsOnce | pkg/kube/addon.go:1344-1361 | every address is listed once |
| IpRange.WalkLists | pkg/kube/addon.go:1344-1361 | exactly the addresses between the ends, going up, are listed |
| IpRange.IpLe | pkg/kube/addon.go:1330-1340 | true exactly when some octet is greater |
| IpRange.ParseRange | pkg/kube/addon.go:1318-1363 | the list runs between the ends as the comparison orders them |
| IpRange.RangeExact | pkg/kube/addon.go:1330-1363 | the list is the inclusive interval exactly when the first address is not smaller or not greater in any octet |
| IpRange.WrongWayRound | pkg/kube/addon.go:1330-1340 | 1.0.0.5-1.0.1.0 leaves out 1.0.0.6 |

## Left out

- The Kubernetes API with its retries and stale caches, OCI pulls, Helm, YAML, logging, events and metrics: the store is atomic, reads and patches succeed or fail.
- Cancellation of the caller's context during a DAG run: the scheduler ignores it, and so it is assumed away.
- Time stamps, the 32-bit wrap-around of the failure counter, and error texts: no property depends on them.
- The order inside a batch and among the edges of a catalog: the source sorts them, here any order is allowed.
- UpgradeRules.Load: does not model version entries and the digest, because the search does not look at them.
- HopConvergence.HopsAreConserved: versions on the shortest ways are written without surrounding space, because otherwise it is false (HopExact).
- HopConvergence.Converges: also needs rules without empty targets, which rule validation ensures.
- Execution.Run.ExecuteDAG: a batch without items is logged as an empty pool, so that pools and batches go together.
- HopReconcilers.Objects.Reconcile: release image creation is an input, as are the cluster status and the versions read from the cluster.
- CommandRunner.Task.StartTask: conditions are values replaced in a list, not shared objects; output and the length of delays between retries are not modelled.
- NodeAllocation.StepExact: the fake bootstrap path, which drops the record before the label is persisted, and a crash that loses the record in memory are not steps.
- CertCascade.Generator.LookUpOrGenerate: does not model mode with a user-provided CA, alternative names or failing secret writes; a certificate is its key, its signer and whether it expires soon.
- AesFraming.RoundTrip: the block cipher is any permutation, base64 any decodable encoding, passwords are byte sequences; the unchecked pkcs7UnPadding has no caller and is left out.
- Health.Checker.Check: node state updates and the version check of nodes are inputs, as is the health of a pod.
- IpRange.ParseRange: starts from parsed addresses; a malformed range is an error before that.
- The other command builders, collectors, phases and utilities of the repository would only add easy members.
