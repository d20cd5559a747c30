# Peloton job-state, queue and host-offer core in Dafny

This project models four pieces of the Peloton cluster scheduler and proves properties about them:

- **The job runtime updater** of the job manager's goal-state engine (`jobmgr/goalstate/job_runtime_updater.go`).
  - It turns a job's per-task-state count table (a `map[string]uint32`) into a job state.
  - It uses one of four determiners: batch, service, partially-created and controller-task.
  - It recounts the table from the cached tasks when the stored table looks out of sync.
  - It decides which INITIALIZED tasks the maximum-running-instances SLA may start.
  - It decides what runtime update to write, including the start and completion time stamps.
- **The resource manager's bounded priority queue** (`resmgr/queue/priority.go`).
  - It is a running count and a limit around a multi-level list.
  - The list is modelled as a map from priority to the FIFO sequence at that level.
- **The host manager's helpers** (`hostmgr/util/util.go`):
  - label keys become environment variable names;
  - a case-insensitive slack-resource test;
  - the grouping of Mesos offers into one host offer per host.
- **The API version classifier** (`pkg/common/api/version.go`).

Go's `uint32` additions are written out with wrap-around at 2^32 (`Common.Add32`). The lemmas say what the counts mean when the true total fits in 32 bits (`TaskStates.Fits`).

Store reads, cache reads, the clock and the staleness test are inputs to the model.

Files:

- `common.dfy`: `uint32` arithmetic, `Option` and `Result`.
- `task_states.dfy`: task and job states, their names, the count table and its sums.
- `job_state_determiner.dfy`: the four determiners and the factory.
- `job_runtime_updater.dfy`: total count, recount from the cache, determination, the time-stamp guards, and the updater.
- `max_running_sla.dfy`: the SLA's selection loop.
- `priority_queue.dfy`: the priority queue.
- `host_util.dfy`: the host-manager helpers.
- `api_version.dfy`: API versions.

## Model

| member | source | states |
|---|---|---|
| Common.Add32 | jobmgr/goalstate/job_runtime_updater.go:253-254 | Go's `uint32` addition: the true sum when it is below 2^32, else the sum less 2^32. |
| TaskStates.NameRoundTrip | jobmgr/goalstate/job_runtime_updater.go:116-118 | A task state's name (the key of the count table) reads back as that state. |
| TaskStates.NameInjective | jobmgr/goalstate/job_runtime_updater.go:450-459 | Distinct task states have distinct table keys, so the recount keeps them apart. |
| TaskStates.AllTaskStatesDistinct | jobmgr/goalstate/job_runtime_updater.go:621-627 | The recognised state names list each of the 16 task states exactly once. |
| TaskStates.SumCounts | jobmgr/goalstate/job_runtime_updater.go:621-627 | The summing loop returns the uint32 sum of the counts of the given states, which is their true sum modulo 2^32. |
| TaskStates.Sum32IsSumNatMod | jobmgr/goalstate/job_runtime_updater.go:621-627 | The wrapping uint32 sum equals the unbounded sum modulo 2^32. |
| TaskStates.TotalExact | jobmgr/goalstate/job_runtime_updater.go:621-627 | When the true total fits in 32 bits, the uint32 total is exact. |
| TaskStates.Sum32IgnoresOtherKeys | jobmgr/goalstate/job_runtime_updater.go:621-627 | Adding or changing a key that names no task state leaves the total unchanged. |
| TaskStates.SumNatPositive | jobmgr/goalstate/job_runtime_updater.go:636-645 | A sum over states is positive exactly when one of those states has a positive count. |
| TaskStates.Sum32PositiveIff | jobmgr/goalstate/job_runtime_updater.go:636-645 | Without wrap-around, the uint32 sum over distinct states is positive exactly when one of them has a positive count. |
| TaskStates.OnlyInIff | jobmgr/goalstate/job_runtime_updater.go:248-262 | The total splits into the counts inside and outside a set of states; the outside part is zero exactly when only those states occur. |
| TaskStates.SumNatOfDistinctBounded | jobmgr/goalstate/job_runtime_updater.go:115-118 | A sum over distinct states never exceeds the total and, when the total fits, is exact in uint32. |
| JobStateDeterminer.BatchState | jobmgr/goalstate/job_runtime_updater.go:240-269 | The batch determiner never answers UNKNOWN or INITIALIZED. KILLING only when the job was KILLING, RUNNING only with a running task, KILLED only with a killed task. |
| JobStateDeterminer.BatchStateMeaning | jobmgr/goalstate/job_runtime_updater.go:248-268 | Without wrap-around: SUCCEEDED iff every task succeeded (also for an empty table). FAILED iff all succeeded or failed and one failed. KILLED iff all are terminal and one was killed. Otherwise KILLING iff the job was KILLING, and RUNNING iff a task runs. |
| JobStateDeterminer.OnlySucceeded | jobmgr/goalstate/job_runtime_updater.go:250-252 | Without wrap-around, the SUCCEEDED count equals the total exactly when no other state occurs. |
| JobStateDeterminer.OnlySucceededOrFailed | jobmgr/goalstate/job_runtime_updater.go:253-255 | Without wrap-around, SUCCEEDED plus FAILED equals the total exactly when no other state occurs. |
| JobStateDeterminer.OnlyTerminal | jobmgr/goalstate/job_runtime_updater.go:256-260 | Without wrap-around, SUCCEEDED plus FAILED plus KILLED equals the total exactly when every task is terminal. |
| JobStateDeterminer.ServiceState | jobmgr/goalstate/job_runtime_updater.go:284-309 | The service determiner never answers SUCCEEDED or FAILED, and answers KILLING only when the job was KILLING. |
| JobStateDeterminer.ServiceStateMeaning | jobmgr/goalstate/job_runtime_updater.go:294-308 | Without wrap-around: KILLED iff every task is killed. Then KILLING iff the job was KILLING, then RUNNING iff a task runs. |
| JobStateDeterminer.ControllerJobState | jobmgr/goalstate/job_runtime_updater.go:361-370 | A controller task maps to a terminal job state. |
| JobStateDeterminer.ControllerTaskState | jobmgr/goalstate/job_runtime_updater.go:342-371 | A non-terminal batch answer passes through. Otherwise the answer is terminal, and it is an error exactly when the controller task cannot be read, with that read's error. |
| JobStateDeterminer.ControllerTaskOverridesTerminal | jobmgr/goalstate/job_runtime_updater.go:361-370 | A terminal batch answer is replaced: SUCCEEDED to SUCCEEDED, FAILED to FAILED, any other controller state to KILLED. |
| JobStateDeterminer.Factory | jobmgr/goalstate/job_runtime_updater.go:202-226 | The partially-created determiner is picked exactly when the total is short of the configured instances, the job is partially created and has no update. Otherwise controller-task if configured, then service, then batch. |
| JobStateDeterminer.GetState | jobmgr/goalstate/job_runtime_updater.go:318-323 | A determiner never succeeds with UNKNOWN. The partially-created one always answers INITIALIZED and is the only one that does. Only the controller-task one can fail, and it does, with the read's error, on a terminal batch answer and an unreadable controller task. |
| JobStateDeterminer.PartiallyCreatedIsInitialized | jobmgr/goalstate/job_runtime_updater.go:207-213 | A partially-created job short of its configured instances and without an update is INITIALIZED, whatever its counts. |
| JobStateDeterminer.EmptyTable | jobmgr/goalstate/job_runtime_updater.go:250-252 | An empty table makes a batch job SUCCEEDED and a service job KILLED. |
| RuntimeUpdater.GetTotalInstanceCount | jobmgr/goalstate/job_runtime_updater.go:621-627 | The total is the uint32 sum over all recognised state names: the true total modulo 2^32, and exact when it fits. |
| RuntimeUpdater.CacheCounts | jobmgr/goalstate/job_runtime_updater.go:452-461 | The recount is empty exactly when no task is cached; CacheCountsAt and CacheCountsHas give its contents. |
| RuntimeUpdater.CacheCountsAt | jobmgr/goalstate/job_runtime_updater.go:450-459 | The recount from the cache holds, for each state, the number of cached tasks in it modulo 2^32. |
| RuntimeUpdater.CacheCountsHas | jobmgr/goalstate/job_runtime_updater.go:450-467 | The recount has a key for a state exactly when some cached task is in that state, so the UNKNOWN test sees every missing task. |
| RuntimeUpdater.CacheCountsKeys | jobmgr/goalstate/job_runtime_updater.go:450-459 | Every key of the recount names a task state. |
| RuntimeUpdater.FirstDeterminationStands | jobmgr/goalstate/job_runtime_updater.go:397-428 | `shouldRecalculateJobState` holds only for a stale batch job in a non-terminal state: when the table does not count more tasks than configured and the job is a service job, is fresh, or already has a terminal answer, the first determiner's answer is the determination. |
| RuntimeUpdater.OverCountRecalculated | jobmgr/goalstate/job_runtime_updater.go:393-399 | A table that counts more tasks than configured is determined by the recalculation from the cache, whatever the job's type and staleness. |
| RuntimeUpdater.StaleActiveBatchRecalculated | jobmgr/goalstate/job_runtime_updater.go:397-428 | A stale batch job whose first answer is active is determined by the recalculation from the cache, whatever its total. |
| RuntimeUpdater.RecalculatedState | jobmgr/goalstate/job_runtime_updater.go:448-474 | A cached UNKNOWN task keeps the given state; an error can only come from reading the controller task. |
| RuntimeUpdater.RecalculateJobStateFromCache | jobmgr/goalstate/job_runtime_updater.go:448-474 | The counting loop and the re-determination give the recalculated state; a cached UNKNOWN task returns the original state unchanged. |
| RuntimeUpdater.DeterminedStateAsWritten | jobmgr/goalstate/job_runtime_updater.go:379-420 | `determineJobRuntimeState` as written; it can fail only on an unreadable controller task, and DroppedRecalculationError shows it succeeding with UNKNOWN. |
| RuntimeUpdater.DeterminedState | jobmgr/goalstate/job_runtime_updater.go:379-420 | The corrected determination never succeeds with UNKNOWN. It fails only on an unreadable controller task of a job that has one, and where it succeeds it agrees with the code as written. |
| RuntimeUpdater.DetermineJobRuntimeState | jobmgr/goalstate/job_runtime_updater.go:379-420 | The method computes the corrected determination. |
| RuntimeUpdater.DroppedRecalculationError | jobmgr/goalstate/job_runtime_updater.go:403-404 | The determination as written reports a successful UNKNOWN when the recalculation fails. |
| RuntimeUpdater.StartTimeDueMeaning | jobmgr/goalstate/job_runtime_updater.go:631-648 | Without wrap-around, the start time is due exactly when the first task update time is set, no start time is recorded, and some task is in a state after its start. |
| RuntimeUpdater.CompletionTimeFor | jobmgr/goalstate/job_runtime_updater.go:652-669 | A completion time is given exactly for a terminal job state. |
| RuntimeUpdater.RuntimeUpdate.SetStartTime | jobmgr/goalstate/job_runtime_updater.go:631-648 | The start time becomes the first task update time exactly when the guard holds, and nothing else changes. |
| RuntimeUpdater.RuntimeUpdate.SetCompletionTime | jobmgr/goalstate/job_runtime_updater.go:652-669 | Only a terminal state sets the completion time: the last task update time, or now if there was none. Nothing else changes. |
| RuntimeUpdater.JobRuntimeUpdater | jobmgr/goalstate/job_runtime_updater.go:479-618 | Built on the corrected determination (see Findings). Every branch has its outcome: read errors, a short table of a killed job, the not-in-sync error, determination errors, the unchanged runtime, and write errors. A written runtime holds the determined state, the new counts, the guarded time stamps and the enqueue decisions. |
| MaxRunningSla.SelectTasks | jobmgr/goalstate/job_runtime_updater.go:153-192 | The loop with its break and continue selects exactly the specified selection of the index within the budget. |
| MaxRunningSla.Selection | jobmgr/goalstate/job_runtime_updater.go:153-192 | The loop's selection never has more tasks than it may start, nor more than the index holds. |
| MaxRunningSla.SelectionFromEligible | jobmgr/goalstate/job_runtime_updater.go:153-192 | Every selected instance comes from an index entry, in index order. |
| MaxRunningSla.SelectedAreEligible | jobmgr/goalstate/job_runtime_updater.go:162-183 | Every selected instance has a runtime that really is INITIALIZED and is not already scheduled. |
| MaxRunningSla.SelectionTakesAllEligible | jobmgr/goalstate/job_runtime_updater.go:153-192 | With a budget of at least the index size, every eligible task is selected, in order. |
| MaxRunningSla.ScheduledCountExact | jobmgr/goalstate/job_runtime_updater.go:115-118 | Without wrap-around, the scheduled count is the true sum over the scheduled states. |
| MaxRunningSla.TasksToStart | jobmgr/goalstate/job_runtime_updater.go:88-192 | Nothing is selected when the maximum is 0, the goal is KILLED, or the scheduled count reaches the maximum. Otherwise the selection has at most max minus scheduled tasks, all eligible. |
| Queue.Push | resmgr/queue/priority.go:37 | A push appends the item at the tail of its own level and leaves the other levels alone. |
| Queue.PopLevel | resmgr/queue/priority.go:43-44 | A pop removes the head of one level and drops the level once it is empty. |
| Queue.HighestExists | resmgr/queue/priority.go:43 | A non-empty multi-level list has a highest level. |
| Queue.SizePush | resmgr/queue/priority.go:37-38 | A push adds exactly one item. |
| Queue.SizePop | resmgr/queue/priority.go:42-66 | A pop removes exactly one item. |
| Queue.SizeZero | resmgr/queue/priority.go:21-25 | A well-formed list holding no item has no level. |
| Queue.NewQueue | resmgr/queue/priority.go:20-27 | A new queue is empty, has count 0 and the given limit, and satisfies the invariant. |
| Queue.Enqueued | resmgr/queue/priority.go:30-40 | At the limit the queue is unchanged and the error is "Queue Limit is reached". Otherwise the count grows by one and the item is pushed at the tail of its own level, the other levels unchanged. The invariant is kept. |
| Queue.Dequeued | resmgr/queue/priority.go:42-66 | An empty queue gives an empty item and an error. Otherwise the count drops by one and the invariant is kept. |
| Queue.DequeueTakesHighestFirst | resmgr/queue/priority.go:42-46 | A dequeue returns the oldest item of the highest priority present and shortens only that level. |
| Queue.EnqueueDoesNotOvertake | resmgr/queue/priority.go:30-46 | Enqueuing at or below the highest level does not change the next item out (FIFO within a level). |
| Queue.EnqueueHigherGoesFirst | resmgr/queue/priority.go:30-46 | An item above everything queued is the next one out. |
| Queue.CountNeverExceedsLimit | resmgr/queue/priority.go:21-39 | Along any sequence of operations, the count is the number of items held and never exceeds the limit. |
| Queue.FromNewQueue | resmgr/queue/priority.go:20-39 | From a new queue the count stays between 0 and the limit; it stays 0 when the limit is not positive. |
| Queue.PriorityQueue.constructor | resmgr/queue/priority.go:20-27 | The new queue is empty with the given limit. |
| Queue.PriorityQueue.Enqueue | resmgr/queue/priority.go:30-40 | The method changes the queue and answers as the enqueue specification says, and keeps the invariant. |
| Queue.PriorityQueue.Dequeue | resmgr/queue/priority.go:42-66 | The method changes the queue and answers as the dequeue specification says, and keeps the invariant. |
| Queue.PriorityQueue.Len | resmgr/queue/priority.go:68-71 | The length is the number of items stored at that priority, positive exactly when the level exists. |
| HostUtil.Upper | hostmgr/util/util.go:17 | Upper-casing keeps the length and maps each ASCII lower-case letter to its capital. |
| HostUtil.Lower | hostmgr/util/util.go:52 | Lower-casing keeps the length and maps each ASCII capital to its lower-case letter. |
| HostUtil.IndexOf | hostmgr/util/util.go:17 | The answer is -1 exactly when the character is absent, else the position of its first occurrence. |
| HostUtil.ReplaceFirst | hostmgr/util/util.go:17 | `strings.Replace` with a count of one keeps the length of the text; ReplaceFirstMeaning gives the result. |
| HostUtil.ReplaceFirstMeaning | hostmgr/util/util.go:17 | Only the first occurrence is replaced and the rest is kept; without an occurrence the text is unchanged. |
| HostUtil.LabelKeyToEnvVarName | hostmgr/util/util.go:14-18 | The variable name is as long as the label key. |
| HostUtil.LabelKeyToEnvVarNameMeaning | hostmgr/util/util.go:14-18 | A key without '.' is only upper-cased. Otherwise the upper-cased text before and after the first '.' is joined by '_', and later dots stay. |
| HostUtil.EnvVarNameHasNoLowerCase | hostmgr/util/util.go:17 | No ASCII lower-case letter is left in the variable name. |
| HostUtil.DottedKey | hostmgr/util/util.go:14-18 | `prefix.rest` with no dot in the prefix becomes the upper-cased prefix, '_' and the upper-cased rest. |
| HostUtil.JobIdLabel | hostmgr/util/util.go:15 | `peloton.job_id` becomes `PELOTON_JOB_ID`. |
| HostUtil.IsSlackResourceType | hostmgr/util/util.go:49-57 | True exactly when some listed type equals the resource type ignoring case; false for an empty list. |
| HostUtil.LowerIgnoresCase | hostmgr/util/util.go:52 | An upper-cased name lower-cases to the same text as the name, so the slack test does not depend on case. |
| HostUtil.AllResourcesAppend | hostmgr/util/util.go:32-33 | The resources gathered from two offer lists, one after the other, are the concatenation of each list's. |
| HostUtil.AllAttributesAppend | hostmgr/util/util.go:34 | The attributes gathered from two offer lists, one after the other, are the concatenation of each list's. |
| HostUtil.AllResourcesMembers | hostmgr/util/util.go:32-35 | A resource is gathered exactly when one of the host's offers carries it. |
| HostUtil.GatherOffers | hostmgr/util/util.go:30-35 | The inner loop gathers the resources and attributes of the offers in order. |
| HostUtil.HostOfferOf | hostmgr/util/util.go:37-42 | A host offer carries its hostname and the agent id of the host's first offer. |
| HostUtil.MesosOffersToHostOffers | hostmgr/util/util.go:20-47 | One host offer per host with a non-empty offer list and none for the others, with no host twice. Each is built from that host's offers, and there are no more than there are hosts. |
| Api.IsV1 | pkg/common/api/version.go:28-31 | A v1 version name starts with "v1". |
| Api.IsV1Classifies | pkg/common/api/version.go:22-31 | V1 and V1Alpha are v1 and V0 is not; no other name is v1. |

## Left out

- Store and cache calls of the updater are inputs, each possibly an error: `GetRuntime`, `GetConfig`, `GetTaskStateSummaryForJob`, the controller task's `GetRunTime`, and `Update`. `GetAllTasks` cannot fail and is the list of cached task states.
- The controller task's runtime is read once by the first determination (`jobmgr/goalstate/job_runtime_updater.go:356-357`) and again by the determiner the recalculation runs (line 472); the model gives both reads one outcome, the `controllerTask` field of `CachedJob`.
- The SLA's per-task store read `GetTaskRuntime` (`jobmgr/goalstate/job_runtime_updater.go:159`) is an input: the `runtime` of each `MaxRunningSla.Candidate`, possibly an error.
- MaxRunningSla.TasksToStart: the error of reading the INITIALIZED-task index (`GetTaskIDsForJobAndState`, `jobmgr/goalstate/job_runtime_updater.go:136-142`) is left out; the index is given as a list.
- RuntimeUpdater.JobRuntimeUpdater: it is built on the corrected determination `DeterminedState`, so where the code as written returns a successful UNKNOWN and writes a runtime in state UNKNOWN, the model fails with the recalculation's error instead.
- `IsPartiallyCreated`, `HasUpdate`, `HasControllerTask` and `IsScheduledTask` are boolean inputs.
- RuntimeUpdater.JobRuntimeUpdater: the resource usage written with the runtime (`cachedJob.GetResourceUsage()`, `jobmgr/goalstate/job_runtime_updater.go:582`) is left out; the cache's resource accounting is not part of this model.
- `isJobStateStale` and its 24-hour threshold are left out. They read the clock and do float nanosecond arithmetic, so staleness is a boolean input.
- `formatTime` is left out. A time stamp is kept as the number of seconds it would format, not as RFC 3339 text.
- Metrics counters, logging, `EnqueueUpdate` and `EnqueueJob` are left out. Only the conditions under which the two enqueues happen are modelled.
- `sendTasksToResMgr` and the building of each `TaskInfo` (config merge) are left out. The SLA model returns the selected instance ids.
  - The SLA's reads of the job config and runtime before the loop are left out.
  - The cache insertion of a task missing from the cache is left out; it does not change the selection.
- The DELETED task state is not among the 16 task states. It is not one of the 16 state names the recount and the total sum over.
- `IsPelotonJobStateTerminal` is taken to be SUCCEEDED, FAILED or KILLED. Its definition is not part of this model.
- The locking of `PriorityQueue` is left out; the model is sequential.
  - Dequeue's retry loop (`resmgr/queue/priority.go:48-54`) only runs when another thread changes the list between two reads. In the sequential model a failed pop of the highest level means the queue is empty.
  - Dequeue's nil-item branch (`resmgr/queue/priority.go:56-59`) cannot happen for a list that holds only task items.
- `MultiLevelList` is not part of this model. It is represented by a map from priority to the FIFO sequence of that level.
  - The error text of popping an empty level ("No items found in queue") is a stand-in.
- HostUtil.Upper: `strings.ToUpper` and `strings.ToLower` are modelled for ASCII only. Other characters are left unchanged, so Unicode case mapping is not captured.
- HostUtil.Lower: `strings.ToLower` is modelled for ASCII only, like `strings.ToUpper`; Unicode case mapping is not captured, so the slack test compares names case-insensitively only for ASCII letters.
- HostUtil.MesosOffersToHostOffers: Go's map iteration order is random. The model picks hosts in any order, so the order of the result is not pinned down.
- Mesos resources and attributes are opaque values; only their order and identity matter here.
- `GetResourcesFromOffers` is left out. It goes through `scalar.FromMesosResources`, float resource arithmetic that is not part of this model.

## Findings

| source | as written | input that shows it | evidently intended | confidence | as-written member | corrected member |
|---|---|---|---|---|---|---|
| jobmgr/goalstate/job_runtime_updater.go:403-404, 419 | `determineJobRuntimeState` assigns the error of `recalculateJobStateFromCache` and then returns the job state with a nil error. A failed read of the controller task during recalculation turns into a successful UNKNOWN job state, which the updater then writes. | A batch job with a controller task and one instance. Its stored table says RUNNING and is stale, the cache shows the task SUCCEEDED, and reading instance 0 fails. | The recalculation's error is returned like the first determination's error, so the runtime is not overwritten with UNKNOWN. | medium; not executed | RuntimeUpdater.DeterminedStateAsWritten, RuntimeUpdater.DroppedRecalculationError | RuntimeUpdater.DeterminedState |
