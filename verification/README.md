# Verified models of the Linux Validation Suite core

This Dafny project models the parts of the Linux Validation Suite whose correctness rests on invariants that
span several functions or whole runs, and proves what those parts promise. `dafny verify dfyconfig.toml` checks
everything. Loops and objects of the source are methods and classes here, proved against specification functions
about which the laws are stated as lemmas.

| files | what they model |
|---|---|
| `ProgressLog`, `ProgressSpec`, `ProgressRecord`, `ProgressChecker` | the one-pass checker of a worker's verified-progress log, and the whole-log specification it decides |
| `EnvironmentRecovery` | rebuilding `.venv` behind a write-ahead record, crashing between any two effects, and recovering |
| `MaintenanceLease` | the maintenance lock that installers inherit, as a state machine over interleaved processes |
| `GpuGeometry`, `GpuPlan`, `VramAllocation` | object geometry, the greedy chunk planner, and the texture allocation loop with memory claims and backoff |
| `ChartData` | extrema-preserving reduction, plateau runs and their decoder |
| `CpuList`, `CpuListSyntax`, `CpuTiers` | the CPU-list parser, its meaning on the text, and two printers; capacity tiers with drifting means |
| `EvidenceFilter` | the recursive export filter over JSON trees |
| `GpuSupervisor` | the generated supervisor of external GPU processes |
| `IntSets`, `Options`, `PyNumbers` | shared helpers |

How the environment appears: time and clocks are `real` parameters, files are maps or sequences of parsed records,
outcomes of system calls are parameters or nondeterministic choices, and crashes are part of the input (each effect
in `EnvironmentRecovery` consumes one `Fate`; a run that has none left has died there). A raised exception that the
callers see is `None` or an outcome value.

Three laws hold only under a condition, which is proved to be exact, with an input at which the law fails:

- Plateau runs of a time-sorted series are lossless if and only if samples with one time have one value
  (`ChartData.RunsAreLosslessIffTiesAgree`); strictly increasing times are a special case. Values 1 and 2 at one
  time lose the 1 (`ChartData.TiesThatDisagreeAreLost`).
- The two CPU-list printers give the same text if and only if no id is negative
  (`CpuList.PrintersAgreeIffNatural`): one drops negative ids, the other prints them, as for the id -1
  (`CpuList.NegativeIdSplitsThePrinters`).
- The chunk planner reproduces the OpenCL geometry if and only if the API maximum is not negative or the target is
  below one page (`GpuPlan.PlannerReproducesOpenCl`): the geometry plans nothing for a negative maximum, the planner
  takes it for unknown, as for the maximum -1 and a target of 4096 bytes
  (`GpuPlan.NegativeMaximumIsTakenForUnknown`).

The docstring of `plan_gpu_allocation_chunks` speaks of "a zero capability limit" as unknown; the code treats every
non-positive limit so, and the model follows the code.

## Model

| member | source | states |
|---|---|---|
| ProgressLog.MappingKeepsThread | Modules/lvs_cpu_verified_progress.py:159-187 | filling the per-CPU map thread by thread keeps every thread's own publication |
| ProgressLog.GoodRowCoversTargets | Modules/lvs_cpu_verified_progress.py:157-187 | an accepted record publishes exactly the targeted CPUs, so the lookup of an older publication cannot fail |
| ProgressLog.TotalOfOne | Modules/lvs_cpu_verified_progress.py:188 | the total of one thread is its verified blocks |
| ProgressLog.TotalOfBoth | Modules/lvs_cpu_verified_progress.py:188 | the blocks of two lists of threads add up |
| ProgressLog.TotalIsOverCpus | Modules/lvs_cpu_verified_progress.py:157-188 | the blocks of an accepted list of threads are the sum over its CPUs of what each published |
| ProgressLog.AggregateIsTheSum | Modules/lvs_cpu_verified_progress.py:157-188 | the aggregate of an accepted record is the sum over the targeted CPUs of their verified blocks |
| ProgressLog.RowIsReadAsWritten | Modules/lvs_cpu_verified_progress.py:133-201 | what is remembered of an accepted record are the numbers that stand in its fields |
| ProgressSpec.NeighbourChecksAreWholeLog | Modules/lvs_cpu_verified_progress.py:193-210 | comparing each record only with its predecessor decides the specification over all pairs of records, in both directions |
| ProgressSpec.CleanLogOrders | Modules/lvs_cpu_verified_progress.py:199-217 | in a clean log the i-th sequence number is i, and pid, timestamps, counters and publication times are ordered between any two records |
| ProgressSpec.AddIntervalKeepsBracket | Modules/lvs_cpu_verified_progress.py:228-239 | recording one interval keeps the accumulated work between the least and greatest interval rate times the observed time |
| ProgressSpec.OverallRateIsBetweenExtremes | Modules/lvs_cpu_verified_progress.py:282 | the overall rate of a CPU lies between its minimum and maximum interval rate |
| ProgressSpec.AccountTelescopes | Modules/lvs_cpu_verified_progress.py:212-231 | between two publications inside the window the interval sums are differences of the end points |
| ProgressSpec.AccountIsLastMinusFirst | Modules/lvs_cpu_verified_progress.py:212-231 | over a whole log the account of a CPU is its last minus its first publication inside the window |
| ProgressSpec.ObservedTimeFitsTheWindow | Modules/lvs_cpu_verified_progress.py:279-281 | the observed time fits the window, so coverage is at most one without the cap |
| ProgressRecord.CheckThread | Modules/lvs_cpu_verified_progress.py:160-187 | one thread passes exactly when its identity, counters, flags, publication time and verified work are in order |
| ProgressRecord.CheckThreads | Modules/lvs_cpu_verified_progress.py:159-189 | the thread loop passes exactly when all threads are good and distinct, and yields their publications |
| ProgressRecord.CheckHeader | Modules/lvs_cpu_verified_progress.py:133-156 | the identity of worker, kernel and process is checked field by field |
| ProgressRecord.SumBlocks | Modules/lvs_cpu_verified_progress.py:188 | the loop adds up the blocks of all threads |
| ProgressRecord.CheckTerminal | Modules/lvs_cpu_verified_progress.py:189-201 | a terminal record needs every thread to be complete |
| ProgressRecord.SummaryMeans | Modules/lvs_cpu_verified_progress.py:228-246 | minimum, maximum, sum and number of the recorded rates |
| ProgressRecord.AccountInterval | Modules/lvs_cpu_verified_progress.py:212-240 | one CPU of one record: rejected, skipped or credited, with the reasons this adds |
| ProgressRecord.AccountIntervals | Modules/lvs_cpu_verified_progress.py:211-246 | the walk over the CPUs of a record: what is credited, up to the first CPU that regressed and no further |
| ProgressRecord.WalkCreditsThePrefix | Modules/lvs_cpu_verified_progress.py:212-240 | a walk changes the account of each CPU before the first regressed one exactly once, and no other |
| ProgressRecord.CompareRows | Modules/lvs_cpu_verified_progress.py:202-246 | two records: coherence of all CPUs, the complaints, and every account after the walk, rejected or not |
| ProgressRecord.ReadRecord | Modules/lvs_cpu_verified_progress.py:133-201 | a record is read exactly when it is acceptable on its own and does not follow a terminal one |
| ProgressRecord.CompareWithPrevious | Modules/lvs_cpu_verified_progress.py:202-246 | accepted exactly when time, sequence and all CPUs move on; no new complaint exactly when contiguous; every account and the rates, also after a rejection |
| ProgressRecord.ObserveRecord | Modules/lvs_cpu_verified_progress.py:131-264 | one record: what is remembered, counted and credited, whether it is accepted or rejected; a rejection forgets the predecessor and is never silent |
| ProgressChecker.AdmissionIsCleanliness | Modules/lvs_cpu_verified_progress.py:131-264 | a log with one more record is clean exactly when the log was clean and the checker admits that record |
| ProgressChecker.RecordKeepsReflection | Modules/lvs_cpu_verified_progress.py:131-264 | the loop invariant: the accounts are the fold over the log so far, and there are no reasons exactly while it is clean |
| ProgressChecker.ObserveLog | Modules/lvs_cpu_verified_progress.py:117-264 | after any log the tracker holds the fold over its records, and no reasons exactly when the log is clean |
| ProgressChecker.MemoryIsTheLastLine | Modules/lvs_cpu_verified_progress.py:201-264 | what a record is compared with is the line just before it, an accepted record that publishes exactly the targeted CPUs |
| ProgressChecker.RejectionIsNeverBridged | Modules/lvs_cpu_verified_progress.py:262-264 | in any log the record after a rejected one credits nothing |
| ProgressChecker.UnreadableLineCreditsNothing | Modules/lvs_cpu_verified_progress.py:262-264 | a line that is no record changes no account |
| ProgressChecker.CleanAccount | Modules/lvs_cpu_verified_progress.py:202-240 | on a clean log the fold is the account of the whole-log specification |
| ProgressChecker.CloseLog | Modules/lvs_cpu_verified_progress.py:265-278 | the closing complaints: tail, initial, final, count, worker status and duration |
| ProgressChecker.SummarizeThread | Modules/lvs_cpu_verified_progress.py:279-329 | coverage and rate of one CPU, and the complaints about it, both directions |
| ProgressChecker.SummarizeThreads | Modules/lvs_cpu_verified_progress.py:279-331 | one result per targeted CPU in order, and the aggregate rate exactly when every CPU has one |
| ProgressRecord.MeanIsBetweenExtremes | Modules/lvs_cpu_verified_progress.py:242-246 | the average of the aggregate interval rates lies between their minimum and maximum |
| ProgressChecker.AnalyzeVerifiedProgress | Modules/lvs_cpu_verified_progress.py:38-351 | the verdict is `sufficient` if and only if the whole-log specification holds, and the reported accounts are then exact; for every log that is read, corrupt or not, each account is the fold of what adjacent accepted records credit, and the rate laws hold |
| ProgressChecker.AggregatesAddUp | Modules/lvs_cpu_verified_progress.py:188 | under a sufficient verdict the aggregate of every record is the sum of the blocks of its CPUs |
| ProgressChecker.ReportedWorkIsLastMinusFirst | Modules/lvs_cpu_verified_progress.py:202-240 | under a sufficient verdict the reported work and time of each CPU are its last minus its first publication inside the window |
| ProgressChecker.VerdictIsWholeLog | Modules/lvs_cpu_verified_progress.py:265-350 | what an empty list of reasons amounts to |
| ProgressChecker.CoverageOfTargets | Modules/lvs_cpu_verified_progress.py:279-281 | the thread results are well covered exactly when the whole-log accounts are, and no coverage was capped |
| EnvironmentRecovery.MovingKeepsTidy | lvs_environment_manager.py:714 | a rename to a free name loses no directory that was ever `.venv` and keeps identities unique |
| EnvironmentRecovery.MakingKeepsTidy | lvs_environment_manager.py:718 | creating `.venv` keeps names and identities in order |
| EnvironmentRecovery.FillingKeepsTidy | lvs_environment_manager.py:721-724 | the installers change what is in `.venv`, not which directory it is |
| EnvironmentRecovery.EnvironmentManager.Rename | lvs_environment_manager.py:714 | a rename is requested only onto a free path; it happens, fails before or after happening, or the process dies |
| EnvironmentRecovery.EnvironmentManager.Save | lvs_environment_manager.py:289-300 | the record is replaced atomically or not at all |
| EnvironmentRecovery.EnvironmentManager.UniqueSuffix | lvs_environment_manager.py:694-695 | backup and failed names are free and never reused |
| EnvironmentRecovery.EnvironmentManager.WriteAhead | lvs_environment_manager.py:704-712 | the plan of the rebuild is durable, or nothing has changed, before any path moves |
| EnvironmentRecovery.EnvironmentManager.Announce | lvs_environment_manager.py:704-715 | the record is durable before the old environment moves, and describes where it went |
| EnvironmentRecovery.EnvironmentManager.MakeReplacement | lvs_environment_manager.py:717-720 | creates `.venv` and makes its identity durable; no installer runs |
| EnvironmentRecovery.EnvironmentManager.Populate | lvs_environment_manager.py:717-724 | only `.venv` changes, and an installer has started only if the durable record knows the directory at `.venv` |
| EnvironmentRecovery.EnvironmentManager.Install | lvs_environment_manager.py:721-724 | changes only the content of `.venv`, which the record must know |
| EnvironmentRecovery.EnvironmentManager.AttemptRebuild | lvs_environment_manager.py:703-747 | every outcome and every crash after the checks leaves a settled or recoverable state; success and a record that says `completed` need a confirmed build, and an undisturbed attempt ends as its build did |
| EnvironmentRecovery.EnvironmentManager.FinishRebuild | lvs_environment_manager.py:726-747 | a built environment is recorded as completed; an unconfirmed cleanup is recorded as such and latched; a failed build is undone |
| EnvironmentRecovery.EnvironmentManager.SaveResult | lvs_environment_manager.py:289-300 | the status that the record has afterwards, for every fate of the save |
| EnvironmentRecovery.EnvironmentManager.SetAside | lvs_environment_manager.py:730-732 | the replacement moves to a free failed name and the rebuild stays recoverable |
| EnvironmentRecovery.EnvironmentManager.RestoreBackup | lvs_environment_manager.py:734-739 | the backup is back and the record closed, or the rebuild stays recoverable |
| EnvironmentRecovery.EnvironmentManager.ReplaceEnvironment | lvs_environment_manager.py:698-747 | refuses exactly on a pending operation, missing support or an unrelated `.venv`, changing nothing; otherwise every outcome and every crash leaves a settled or recoverable state. Undisturbed, a good build succeeds and is recorded as completed, a failed one is undone, and an unconfirmed cleanup latches; under no fates does an unconfirmed cleanup end in success or in a completed record |
| EnvironmentRecovery.EnvironmentManager.UndoRebuild | lvs_environment_manager.py:729-743 | the failure handler puts the original back and closes the record, or stays recoverable |
| EnvironmentRecovery.EnvironmentManager.RecoverInterrupted | lvs_environment_manager.py:927-954 | refuses exactly when nothing is pending or the new directory was never recorded, moving nothing; without confirmation it moves nothing; otherwise an undisturbed confirmed recovery restores the original and closes the record |
| EnvironmentRecovery.EnvironmentManager.MoveBack | lvs_environment_manager.py:949-953 | the moves of a recovery, each of which may be cut short and repeated |
| EnvironmentRecovery.EnvironmentManager.SynchronizeGroups | lvs_environment_manager.py:623-639 | package updates refuse exactly when an operation is pending, move no path and leave nothing to recover; the record tells how they ended |
| EnvironmentRecovery.EnvironmentManager.UpdatePackages | lvs_environment_manager.py:623-639 | an update is recorded as running before an installer starts, and as it ended afterwards |
| EnvironmentRecovery.EnvironmentManager.InstallPackages | lvs_environment_manager.py:623-639 | the status to record: completed, failed, or an unconfirmed cleanup, exactly as the installer ended |
| EnvironmentRecovery.EnvironmentManager.Perform | lvs_environment_manager.py:302-310 | one action keeps the invariant; with an unconfirmed cleanup it changes nothing and starts no installer |
| EnvironmentRecovery.EnvironmentManager.CheckPendingOperation | lvs_environment_manager.py:302-310 | refuses exactly on an unconfirmed cleanup or an interrupted rebuild |
| EnvironmentRecovery.EnvironmentManager.Run | lvs_environment_manager.py:694-747 | over any run of rebuilds, updates, failures, crashes and recoveries every directory that was ever `.venv` exists under exactly one of the three kinds of names |
| EnvironmentRecovery.EnvironmentManager.RebuildAndRecover | lvs_environment_manager.py:927-954 | after a rebuild cut short anywhere and any recoveries cut short anywhere, a last confirmed recovery settles the matter, or refuses because the crash fell between creating `.venv` and recording it |
| MaintenanceLease.OneTreeHoldsTheLease | lvs_environment_manager.py:243-271 | in every interleaving all participants belong to one process tree with at most one manager |
| MaintenanceLease.LockedIffSomebodyTakesPart | lvs_environment_manager.py:256-271 | the lock is taken exactly while a manager is in the lease or an installer lives |
| MaintenanceLease.OrphanKeepsOthersOut | lvs_environment_manager.py:269-271 | an installer that outlives its manager keeps every other manager out |
| MaintenanceLease.UnconfirmedCleanupIsLatched | lvs_environment_manager.py:302-310 | once a cleanup is unconfirmed, no path is moved and no installer is started in any continuation |
| MaintenanceLease.LockGrantedIffFree | lvs_environment_manager.py:243-271 | in every reachable state a manager that tries the lock enters the lease if and only if nobody takes part, and otherwise changes nothing for anybody else |
| MaintenanceLease.ClearedManagerMayWork | lvs_environment_manager.py:302-310 | a manager in the lease is cleared if and only if no cleanup is unconfirmed, and may then move, install and record |
| MaintenanceLease.ProcessesComeAndGo | lvs_environment_manager.py:149-167 | in every reachable state any process may die and any new one start, which concerns only itself |
| MaintenanceLease.OrphanIsWaitedFor | lvs_environment_manager.py:256-271 | a run in which a manager dies at work: another one is refused while the installer lives, and enters the lease afterwards |
| MaintenanceLease.EveryStateIsInv | lvs_environment_manager.py:149-167 | every reachable state satisfies the invariant |
| MaintenanceLease.StepKeepsLeaseHeld | lvs_environment_manager.py:328-329 | every step keeps participants on the locked open file description |
| MaintenanceLease.StepKeepsOneTree | lvs_environment_manager.py:328-329 | every step keeps all installers under one manager |
| MaintenanceLease.StepKeepsLatch | lvs_environment_manager.py:726-728 | every step keeps the latch, and under it moves and starts nothing |
| GpuGeometry.EglTextureGeometry | Modules/lvs_gpu_allocation_geometry.py:11-36 | termination, the inner guard never stops the loop, planned bytes within the target, shortfall under one texture unless the budget limits, the side at its limit when it does, at least 128 textures once the side grew |
| GpuGeometry.GrowSide | Modules/lvs_gpu_allocation_geometry.py:17-21 | the doubling loop ends at the limit or at the first side that reaches the target, and its inner guard never stops it |
| GpuGeometry.DoublingStaysBelow | Modules/lvs_gpu_allocation_geometry.py:17-20 | a doubled side stays far below the target |
| GpuGeometry.EglStart | Modules/lvs_gpu_allocation_geometry.py:15-16 | the largest side within the hint, the limit and the target |
| GpuGeometry.CountFacts | Modules/lvs_gpu_allocation_geometry.py:22-23 | the count is as many whole textures as fit in target and budget |
| GpuGeometry.CountIsPositive | Modules/lvs_gpu_allocation_geometry.py:39-42 | the buffer count lies between 32 and the object budget |
| GpuGeometry.CountReachesTarget | Modules/lvs_gpu_allocation_geometry.py:39-42 | the buffer count reaches the target unless the object budget stops it |
| GpuGeometry.CountIsEightSpare | Modules/lvs_gpu_allocation_geometry.py:39-42 | between its floor and the object budget the count is eight more than the target needs |
| GpuGeometry.InitialChunkIsLargest | Modules/lvs_gpu_allocation_geometry.py:54-58 | the first chunk is as many whole pages as API maximum, cap and target allow |
| GpuGeometry.GrowthIsMinimal | Modules/lvs_gpu_allocation_geometry.py:59-63 | a chunk grows only as far as the object budget makes necessary |
| GpuGeometry.ChunkIsLegal | Modules/lvs_gpu_allocation_geometry.py:54-63 | a usable chunk is whole pages and within a known API maximum |
| GpuGeometry.OpenClPlanIsTight | Modules/lvs_gpu_allocation_geometry.py:45-79 | planned bytes are whole pages within the target and miss it by less than a page unless budget or granularity limits; which of the two does, exactly |
| GpuGeometry.BudgetLimitMeansLargestChunk | Modules/lvs_gpu_allocation_geometry.py:59-75 | with any known API maximum the budget limits the plan if and only if the maximum is at least a page and even maximal chunks could not reach the target, and then the chunk is maximal |
| GpuPlan.PositiveMin | Modules/lvs_gpu_allocation_plan.py:9-11 | the least positive value, or zero if there is none |
| GpuPlan.LegalChunkByCaps | Modules/lvs_gpu_allocation_plan.py:30-41 | within the least positive limit means within each of the three known limits |
| GpuPlan.NoLegalListPlansMore | Modules/lvs_gpu_allocation_plan.py:30-51 | no legal list of requests exceeds the closed form |
| GpuPlan.PlanGpuAllocationChunks | Modules/lvs_gpu_allocation_plan.py:14-70 | the greedy list is legal and plans as many bytes as any legal list |
| GpuPlan.PlannerReproducesEgl | Modules/lvs_gpu_allocation_geometry.py:22-30 | fed one texture as size and granularity the planner plans the same bytes |
| GpuPlan.PlanEglTextures | Modules/lvs_gpu_allocation_geometry.py:11-36 | geometry and planner run one after the other plan the same bytes |
| GpuPlan.PlannerReproducesOpenCl | Modules/lvs_gpu_allocation_geometry.py:64-73 | fed pages the planner plans the same bytes, if and only if the API maximum is not negative or the target is under a page |
| GpuPlan.PlanOpenClBuffers | Modules/lvs_gpu_allocation_geometry.py:45-79 | the same for both run one after the other |
| GpuPlan.NegativeMaximumIsTakenForUnknown | Modules/lvs_gpu_allocation_plan.py:9-11 | API maximum -1 and a target of 4096: the geometry plans nothing, the planner 4096 bytes |
| VramAllocation.ValidateAssignment | Modules/lvs_gpu_allocation_safety.py:50-64 | accepts exactly the targets that reach the floor of the backend |
| VramAllocation.RuntimeMemoryClaims.Claim | Modules/lvs_runtime_memory_guard.py:268-272 | only an allowed claim on shared memory is charged |
| VramAllocation.RuntimeMemoryClaims.Release | Modules/lvs_runtime_memory_guard.py:274-280 | never releases more than is outstanding |
| VramAllocation.RuntimeMemoryClaims.Close | Modules/lvs_runtime_memory_guard.py:282-287 | the final release; what cannot be released stays charged |
| VramAllocation.VramWorker.constructor | Modules/lvs_egl_gles_worker.py:697-718 | the accepted target gives a geometry with at least one texture |
| VramAllocation.Desired | Modules/lvs_egl_gles_worker.py:772 | the number of textures nearest to the share of the load, within one and all of them |
| VramAllocation.FullLoadWantsAll | Modules/lvs_egl_gles_worker.py:772 | full load wants the whole planned count |
| VramAllocation.DesiredFollowsLoad | Modules/lvs_egl_gles_worker.py:772 | more load never wants fewer textures |
| VramAllocation.VramWorker.BackOff | Modules/lvs_egl_gles_worker.py:804-835 | the side shrinks only while nothing is allocated, the plan stays within the target, and the last 32 failed sides are kept |
| VramAllocation.VramWorker.AllocateOne | Modules/lvs_egl_gles_worker.py:776-846 | the claim of a failed attempt is given back; claims equal live textures times object size |
| VramAllocation.VramWorker.GrowTextures | Modules/lvs_egl_gles_worker.py:771-860 | the inner loop, for any outcomes of the attempts: no texture is lost or changes side; unless the guard denies one, GL refuses one for good or a signal comes, as many textures live as the load wants; each of the three endings is told apart, and no attempt follows it |
| VramAllocation.VramWorker.RunFrames | Modules/lvs_egl_gles_worker.py:771-860 | over any frames: at most 512 textures, allocated bytes are what they take, within the target like the peak of all claims; after an undisturbed frame at full load all planned textures live |
| VramAllocation.VramWorker.Close | Modules/lvs_runtime_memory_guard.py:282-287 | the final cleanup leaves nothing outstanding, or exactly the live textures when the release raises |
| VramAllocation.FirstTextureFitsIff | Modules/lvs_egl_gles_worker.py:772-775 | the first request fits the target if and only if the target is at least four bytes, which the floor guarantees |
| ChartData.Deduplicate | Modules/lvs_chart_data.py:71-78 | the same points, strictly ordered by time and value |
| ChartData.FillBuckets | Modules/lvs_chart_data.py:87-92 | every bucket holds exactly its points, in their order; an IndexError exactly when a point has no bucket |
| ChartData.IndexIsMonotone | Modules/lvs_chart_data.py:89-92 | a later time never gets an earlier index |
| ChartData.SortedSeriesFits | Modules/lvs_chart_data.py:85-92 | a time-sorted series never raises the IndexError |
| ChartData.EarlyTimesCountBack | Modules/lvs_chart_data.py:90-92 | a time before the start gets a bucket counted back from the last one |
| ChartData.ExtremaReduce | Modules/lvs_chart_data.py:81-101 | on any series: exactly the first, lowest, highest and last point of every bucket, in order, at most max(4, budget) of them; or an IndexError, exactly when a point has no bucket. Of a time-sorted series every measurement lies between two kept ones at most one of max(1, budget // 4) slices of the span away |
| ChartData.ReductionOnlySelects | Modules/lvs_chart_data.py:93-101 | only measured points are returned |
| ChartData.ReductionKeepsExtremes | Modules/lvs_chart_data.py:93-101 | every bucket keeps its least and its greatest value |
| ChartData.ReductionKeepsExtremesNearby | Modules/lvs_chart_data.py:81-101 | of a time-sorted series no extreme is lost, and it is found within one slice of where it was measured |
| ChartData.SlotBoundsPosition | Modules/lvs_chart_data.py:86-92 | a bucket holds the times of its own slice, and the last one those of the end |
| ChartData.Lowest | Modules/lvs_chart_data.py:96-99 | the first of the least values |
| ChartData.Highest | Modules/lvs_chart_data.py:96-99 | the first of the greatest values |
| ChartData.ReductionKeepsEnds | Modules/lvs_chart_data.py:93-101 | the first and the last measurement are kept |
| ChartData.Runs | Modules/lvs_chart_data.py:104-117 | the runs are maximal and partition the series |
| ChartData.RunsAreLosslessIffTiesAgree | Modules/lvs_chart_data.py:104-175 | the decoded step function of a time-sorted series gives back every sample if and only if samples with one time have one value |
| ChartData.TiesThatDisagreeAreLost | Modules/lvs_chart_data.py:104-175 | values 1 and 2 at one time: only 2 is given back |
| ChartData.DecodeSeriesPoints | Modules/lvs_chart_data.py:165-175 | one or two points per run, or the stored points |
| ChartData.EncodeSeries | Modules/lvs_chart_data.py:120-162 | which encoding is chosen, what it holds, and what its plotted count is |
| ChartData.EncodeThenDecode | Modules/lvs_chart_data.py:120-175 | the decoded length never exceeds the plotted count; full encodings are exact, run encodings of time-sorted series exactly when ties agree, and the reduction only selects |
| CpuList.ParseLinuxCpuList | Modules/lvs_cpu_targeting.py:25-49 | strictly increasing non-negative ids: the union of what the parts name |
| CpuListSyntax.ParsedIffNamed | Modules/lvs_cpu_targeting.py:25-49 | on every text an id is found if and only if some part between commas is its number or a range around it, white space aside; malformed parts add nothing |
| CpuListSyntax.PartIdsMeans | Modules/lvs_cpu_targeting.py:29-48 | what one part adds: a natural number, or a range split at the first dash whose ends are in order |
| CpuListSyntax.ParseIntMeans | Modules/lvs_cpu_targeting.py:34-43 | a number is read exactly from digits with single underscores between them, at most one sign and white space around it |
| CpuListSyntax.StripIsTheMiddle | Modules/lvs_cpu_targeting.py:28-29 | strip removes all white space at both ends and nothing else |
| CpuListSyntax.SplitMeans | Modules/lvs_cpu_targeting.py:28 | splitting at commas finds exactly the stretches between them |
| CpuList.FormatLinuxCpuList | Modules/lvs_cpu_targeting.py:52-65 | the loop prints the maximal ranges of the sorted distinct non-negative ids |
| CpuList.CompactCpuList | Modules/lvs_cpu_topology.py:295-308 | the loop prints the maximal ranges of all sorted distinct ids |
| CpuList.RangesAreSeparated | Modules/lvs_cpu_targeting.py:57-64 | printed ranges strictly increase and are never adjacent |
| CpuList.RangesCover | Modules/lvs_cpu_targeting.py:57-64 | printed ranges cover exactly the ids |
| CpuList.ParsePrinted | Modules/lvs_cpu_targeting.py:34-47 | reading a printed number gives the number back |
| CpuList.SplitJoined | Modules/lvs_cpu_targeting.py:28-65 | splitting at commas undoes joining with them |
| CpuList.ParseUndoesFormat | Modules/lvs_cpu_targeting.py:25-65 | parsing the printed form of any ids gives the sorted distinct non-negative ones |
| CpuList.PrintAfterParseIsIdempotent | Modules/lvs_cpu_targeting.py:25-65 | on arbitrary text, printing what was parsed is idempotent |
| CpuList.PrintersAgreeIffNatural | Modules/lvs_cpu_topology.py:295-308 | the two printers agree if and only if no id is negative |
| CpuList.NegativeIdSplitsThePrinters | Modules/lvs_cpu_topology.py:295-308 | the id -1: one printer gives the empty text, the other `-1` |
| CpuList.PrintThenParse | Modules/lvs_cpu_targeting.py:25-65 | the round trip through both loops |
| CpuList.PrintBoth | Modules/lvs_cpu_topology.py:295-308 | the agreement of both loops |
| CpuTiers.MeanBetween | Modules/lvs_cpu_topology.py:333-336 | the mean of a tier lies between its smallest and largest value |
| CpuTiers.MeanDrifts | Modules/lvs_cpu_topology.py:331-337 | a value that joins never raises the mean |
| CpuTiers.SegmentsAreContiguous | Modules/lvs_cpu_topology.py:328-339 | tiers are contiguous segments of the descending values |
| CpuTiers.TiersAreApart | Modules/lvs_cpu_topology.py:328-339 | a tier begins below 97 percent of the final mean of the tier before it |
| CpuTiers.MeansDecrease | Modules/lvs_cpu_topology.py:328-339 | tier means strictly decrease |
| CpuTiers.EarlierTiersStayFar | Modules/lvs_cpu_topology.py:330-338 | the search through all tiers can only ever find the last one |
| CpuTiers.EqualNeighboursShare | Modules/lvs_cpu_topology.py:328-339 | equal values never open a new tier, however far the mean has drifted |
| CpuTiers.LargerIsNeverBelow | Modules/lvs_cpu_topology.py:328-339 | the tier of a larger value is never later |
| CpuTiers.OrdersAgree | Modules/lvs_cpu_topology.py:329 | the values visited do not depend on how the sort orders equal ones |
| CpuTiers.FirstNear | Modules/lvs_cpu_topology.py:330-331 | the first tier within three percent |
| CpuTiers.NearByQuotient | Modules/lvs_cpu_topology.py:331 | the quotient test of the source, without the division |
| CpuTiers.PlaceKey | Modules/lvs_cpu_topology.py:330-339 | one iteration of the loop keeps the tiers equal to the segments, keys and exact means included |
| CpuTiers.BuildTiers | Modules/lvs_cpu_topology.py:328-339 | the loop computes exactly the segments of the descending values |
| CpuTiers.NameTiers | Modules/lvs_cpu_topology.py:342-350 | exactly the clustered keys are named, each by the tier it is in |
| CpuTiers.ClassifyBy | Modules/lvs_cpu_topology.py:326-350 | one field classifies exactly when its values split, and then each class depends on the value alone |
| CpuTiers.ClassifyCpuPerformanceClasses | Modules/lvs_cpu_topology.py:311-362 | the first field that splits the CPUs decides, in the order capacity, CPPC, maximum frequency, base frequency; every CPU with a positive reading in it reports that field and its own reading, and everything else is unknown |
| CpuTiers.ClassesAreFaithful | Modules/lvs_cpu_topology.py:342-350 | the classes that the tiers give follow the values, with the extremes in the extreme classes |
| CpuTiers.ClassesSeparateTiers | Modules/lvs_cpu_topology.py:342-350 | two values have the same class if and only if they are in the same tier |
| CpuTiers.Deciding | Modules/lvs_cpu_topology.py:315-341 | the first field that splits the CPUs, and its classes are admissible |
| CpuTiers.PreferredDecides | Modules/lvs_cpu_topology.py:315-341 | the four fields are tried in their order |
| CpuTiers.Positive | Modules/lvs_cpu_topology.py:321-325 | the positive readings of a field, no more and no fewer |
| CpuTiers.ClassedIffMeasured | Modules/lvs_cpu_topology.py:342-362 | a CPU has a class exactly when it has a capacity |
| CpuTiers.ClassesFollowCapacities | Modules/lvs_cpu_topology.py:342-357 | a larger capacity never gets a lower class |
| CpuTiers.EqualCapacitiesShareAClass | Modules/lvs_cpu_topology.py:342-357 | equal capacities get the same class |
| CpuTiers.ExtremesGetExtremeClasses | Modules/lvs_cpu_topology.py:342-350 | the largest capacity is always a higher one and the smallest a lower one |
| EvidenceFilter.PruningKeepsVerdict | Modules/lvs_compat_export_helpers.py:176-220 | deleting fields never makes an object a boundary, raises, or blocks more fields |
| EvidenceFilter.KeptIffClean | Modules/lvs_compat_export_helpers.py:162-225 | the filter leaves a tree alone if and only if it is clean |
| EvidenceFilter.FilteredIsClean | Modules/lvs_compat_export_helpers.py:162-225 | one pass leaves no blocked field and no dropped row anywhere outside boundary records |
| EvidenceFilter.FilterIsIdempotent | Modules/lvs_compat_export_helpers.py:162-225 | filtering twice is filtering once, on every tree and for any field sets |
| EvidenceFilter.FilterMovesValues | Modules/lvs_compat_export_helpers.py:164-225 | what is not deleted is found at the path the kept keys and rows give it |
| EvidenceFilter.BoundaryRecordSurvives | Modules/lvs_compat_export_helpers.py:176-196 | a boundary record reached through kept keys and rows survives unchanged |
| EvidenceFilter.NothingIsInvented | Modules/lvs_compat_export_helpers.py:164-225 | everything in the result is the image of something in the input |
| EvidenceFilter.StressNgRecordLosesItsBackend | Modules/lvs_compat_export_helpers.py:197-225 | under the legacy field sets a stress-ng record loses the backend it is recognized by, so a second pass would block strictly fewer fields |
| EvidenceFilter.RaisesIffOffended | Modules/lvs_compat_export_helpers.py:176-191 | a TypeError is raised if and only if the filter comes to an object with a list or dictionary where a name is looked up in a set |
| EvidenceFilter.DroppedIffFallbackRow | Modules/lvs_compat_export_helpers.py:167-172 | an item is dropped if and only if its kind spells memory and its backend one of the fallback backends, in any letter case |
| EvidenceFilter.RowsKept | Modules/lvs_compat_export_helpers.py:164-173 | every other item leaves exactly its own filtered value, in order, and a dropped one leaves nothing |
| EvidenceFilter.LegacyMemoryRows | Modules/lvs_compat_export_helpers.py:164-173 | under the legacy rules a row is gone if and only if it is a memory row of python_fallback or stress_ng, in any letter case |
| EvidenceFilter.StressNgMemoryRowIsDropped | Modules/lvs_compat_export_helpers.py:164-173 | the list with the one row of kind memory and backend stress_ng becomes empty |
| EvidenceFilter.VerdictByNames | Modules/lvs_compat_export_helpers.py:176-196 | which objects raise and which are kept whole, by the names and containers in their fields |
| EvidenceFilter.FieldsKept | Modules/lvs_compat_export_helpers.py:197-225 | any other object keeps exactly the fields that none of the five rules deletes, filtered |
| GpuSupervisor.BuildSettings | Modules/lvs_external_gpu_supervisor.py:36-43 | legal arguments pass through unchanged, the others are clamped to the nearest legal value |
| GpuSupervisor.DesiredIsMonotone | Modules/lvs_external_gpu_supervisor.py:78-88 | the desired count never falls as time passes and stays within 1 and the target |
| GpuSupervisor.FullTargetAfterRamp | Modules/lvs_external_gpu_supervisor.py:78-88 | after three ramp steps the full target is wanted |
| GpuSupervisor.RampIsLinear | Modules/lvs_external_gpu_supervisor.py:78-83 | the load runs on a straight line from the start fraction to one over three ramp steps; without a ramp it is one at once |
| GpuSupervisor.DesiredFollowsLoad | Modules/lvs_external_gpu_supervisor.py:85-88 | the desired number is the target times the load, rounded to the nearest, but never none |
| GpuSupervisor.ReapKeepsAccount | Modules/lvs_external_gpu_supervisor.py:103-115 | reaping keeps launched = tracked + failed |
| GpuSupervisor.LaunchKeepsAccount | Modules/lvs_external_gpu_supervisor.py:117-128 | launching below the target keeps the bound on all launches |
| GpuSupervisor.AliveIsASublist | Modules/lvs_external_gpu_supervisor.py:103-115 | exactly the children that have not exited stay tracked, in order |
| GpuSupervisor.Supervisor.ReapChildren | Modules/lvs_external_gpu_supervisor.py:103-115 | exited children become failures, and the flag falls exactly at the first failure of a compatibility backend or the third of another one |
| GpuSupervisor.Supervisor.SpawnChild | Modules/lvs_external_gpu_supervisor.py:117-128 | a started process is tracked and counted; a failed start changes nothing |
| GpuSupervisor.Supervisor.LaunchUpTo | Modules/lvs_external_gpu_supervisor.py:164-171 | launches exactly what is missing unless a start fails, which is the one error counted, or a signal arrives |
| GpuSupervisor.Supervisor.RunRound | Modules/lvs_external_gpu_supervisor.py:159-177 | a round keeps the survivors and, while running, ends with the desired number of children or more survivors; at the failure limit it launches nothing |
| GpuSupervisor.Supervisor.Supervise | Modules/lvs_external_gpu_supervisor.py:157-179 | in every run tracked children stay within the target, and at most two processes more than the target are launched, none more by a compatibility backend |

## Left out

Verified progress
- ProgressChecker.AnalyzeVerifiedProgress: a thread entry that is not a dictionary reads as one whose fields are all missing; both are rejected.
- JSON text parsing, first and second half statistics, derived operation counts per kernel, publication gaps, clock notices and the wording of reasons (one constructor stands for all record errors).
- The vector and lane geometry comparisons and `worker_verification_satisfied`: given booleans.
- Rounding of floating-point sums and quotients: `real` arithmetic, here and in the charts, tiers and supervisor.

Environment
- EnvironmentRecovery.EnvironmentManager.Save: power loss that undoes a rename or a save already done is not modelled; crashes are process deaths.
- EnvironmentRecovery.EnvironmentManager.Install: the commands, package pins and environment inspection are an oracle that may fail.
- EnvironmentRecovery.EnvironmentManager.RecoverInterrupted: the second look for an original that was never moved (lines 942-944) cannot be reached in a valid state; the model asserts this and has no branch for it.
- Other programs that change the project directory at the same time, and re-entering the lease within one operation.

GPU
- GpuPlan.PlanGpuAllocationChunks: the `complete` flag and the `cap_reason` text.
- VramAllocation.VramWorker.GrowTextures: GL calls, read-back checks and the ratio fields; only claims, sides, counts and backoff.
- VramAllocation.VramWorker.AllocateOne: a release inside the loop succeeds; only the final one may raise.

Charts
- ChartData.EncodeSeries: rounding to six decimals and the unit fields; budgets are not negative.

CPU lists and tiers
- CpuList.ParseLinuxCpuList: text is ASCII, so Unicode digits and white space are not modelled, nor is the limit on the digits of one number.
- CpuTiers.ClassifyCpuPerformanceClasses: the three result dictionaries are one map from CPU to class, source and capacity; collecting the records is not part of this model.

Evidence filter
- EvidenceFilter.FilterIsIdempotent: the order of keys is not modelled; dictionaries are maps.
- EvidenceFilter.RaisesIffOffended: comparisons with names are exact for texts; lower-casing covers ASCII and the Kelvin sign, the only other letter that becomes ASCII.

Supervisor
- GpuSupervisor.Supervisor.Supervise: the loop for any finite number of rounds; sleeping, the result file and the kill sequence of the shutdown are left out.

Elsewhere
- Menus, prompts, reports, renderers, uploads, storage benchmarks, sensors and topology discovery: presentation and I/O.
