/** The job state determiners of the job runtime updater: each maps the
    per-task-state count table and the job's current state to a new job state. */
module JobStateDeterminer {
  import opened Common
  import opened TaskStates

  /** What the factory picks; each variant stands for one determiner type. */
  datatype Determiner =
    | PartiallyCreatedDeterminer
    | ControllerTaskDeterminer
    | ServiceDeterminer
    | BatchDeterminer

  /** The parts of the cached job configuration the determiners read. */
  datatype JobConfig = JobConfig(instanceCount: U32, jobType: JobType, hasControllerTask: bool)

  /** `batchJobStateDeterminer.getState`. The sums are uint32 sums, as in the source. */
  function BatchState(c: Counts, runtimeState: JobState): (r: JobState)
    ensures r != JobState.Unknown && r != JobState.Initialized
    ensures r == JobState.Killing ==> runtimeState == JobState.Killing
    ensures r == JobState.Running ==> CountOf(c, TaskState.Running) > 0
    ensures r == JobState.Killed ==> CountOf(c, TaskState.Killed) > 0
  {
    var total := Total(c);
    var succeeded := CountOf(c, TaskState.Succeeded);
    var failed := CountOf(c, TaskState.Failed);
    var killed := CountOf(c, TaskState.Killed);
    if succeeded == total then JobState.Succeeded
    else if Add32(succeeded, failed) == total then JobState.Failed
    else if killed > 0 && Add32(Add32(succeeded, failed), killed) == total then JobState.Killed
    else if runtimeState == JobState.Killing then JobState.Killing
    else if CountOf(c, TaskState.Running) > 0 then JobState.Running
    else JobState.Pending
  }

  /** `serviceJobStateDeterminer.getState`: SUCCEEDED and FAILED are transient
      for service tasks, so a service job is terminal only when KILLED. */
  function ServiceState(c: Counts, runtimeState: JobState): (r: JobState)
    ensures r in {JobState.Killed, JobState.Killing, JobState.Running, JobState.Pending}
    ensures r == JobState.Killing ==> runtimeState == JobState.Killing
    ensures r == JobState.Running ==> CountOf(c, TaskState.Running) > 0
  {
    if CountOf(c, TaskState.Killed) == Total(c) then JobState.Killed
    else if runtimeState == JobState.Killing then JobState.Killing
    else if CountOf(c, TaskState.Running) > 0 then JobState.Running
    else JobState.Pending
  }

  /** The job state a terminal controller task stands for. */
  function ControllerJobState(t: TaskState): (r: JobState)
    ensures IsTerminal(r)
  {
    match t
    case Succeeded => JobState.Succeeded
    case Failed => JobState.Failed
    case _ => JobState.Killed
  }

  /** `controllerTaskJobStateDeterminer.getState`. `controllerTask` is the
      result of reading the runtime of instance 0, which the source only does
      when the batch result is terminal. */
  function ControllerTaskState(c: Counts, runtimeState: JobState, controllerTask: Result<TaskState>): (r: Result<JobState>)
    ensures !IsTerminal(BatchState(c, runtimeState)) ==> r == Ok(BatchState(c, runtimeState))
    ensures r.Ok? ==> (IsTerminal(r.value) <==> IsTerminal(BatchState(c, runtimeState)))
    ensures r.Err? ==> controllerTask.Err? && IsTerminal(BatchState(c, runtimeState))
    ensures IsTerminal(BatchState(c, runtimeState)) && controllerTask.Err? ==> r == Err(controllerTask.error)
  {
    var jobState := BatchState(c, runtimeState);
    if !IsTerminal(jobState) then Ok(jobState)
    else match controllerTask
      case Err(e) => Err(e)
      case Ok(t) => Ok(ControllerJobState(t))
  }

  /** `jobStateDeterminerFactory`. `partiallyCreated` is
      `cachedJob.IsPartiallyCreated(config)`, `hasUpdate` is
      `updateutil.HasUpdate(jobRuntime)`. */
  function Factory(c: Counts, config: JobConfig, partiallyCreated: bool, hasUpdate: bool): (r: Determiner)
    ensures r == PartiallyCreatedDeterminer <==>
            Total(c) < config.instanceCount && partiallyCreated && !hasUpdate
    ensures r == ControllerTaskDeterminer ==> config.hasControllerTask
    ensures r == ServiceDeterminer ==> config.jobType == JobType.Service && !config.hasControllerTask
    ensures r == BatchDeterminer ==> config.jobType.Batch? && !config.hasControllerTask
  {
    if Total(c) < config.instanceCount && partiallyCreated && !hasUpdate then PartiallyCreatedDeterminer
    else if config.hasControllerTask then ControllerTaskDeterminer
    else if config.jobType == JobType.Service then ServiceDeterminer
    else BatchDeterminer
  }

  /** `getState` of the picked determiner; the partially-created one always
      answers INITIALIZED. */
  function GetState(d: Determiner, c: Counts, runtimeState: JobState, controllerTask: Result<TaskState>): (r: Result<JobState>)
    ensures r.Ok? ==> r.value != JobState.Unknown
    ensures r.Err? ==> d == ControllerTaskDeterminer && controllerTask.Err?
    ensures d == ControllerTaskDeterminer && IsTerminal(BatchState(c, runtimeState)) && controllerTask.Err? ==>
            r == Err(controllerTask.error)
    ensures d == PartiallyCreatedDeterminer ==> r == Ok(JobState.Initialized)
    ensures r.Ok? && r.value == JobState.Initialized ==> d == PartiallyCreatedDeterminer
  {
    match d
    case PartiallyCreatedDeterminer => Ok(JobState.Initialized)
    case ControllerTaskDeterminer => ControllerTaskState(c, runtimeState, controllerTask)
    case ServiceDeterminer => Ok(ServiceState(c, runtimeState))
    case BatchDeterminer => Ok(BatchState(c, runtimeState))
  }

  /** A partially-created job that is short of its configured instances and
      has no update is INITIALIZED, whatever its counts. */
  lemma PartiallyCreatedIsInitialized(c: Counts, config: JobConfig, runtimeState: JobState, controllerTask: Result<TaskState>)
    requires Total(c) < config.instanceCount
    ensures GetState(Factory(c, config, true, false), c, runtimeState, controllerTask) == Ok(JobState.Initialized)
  {
  }

  /** What the batch determiner's answers mean, when the table's true total
      fits a uint32: SUCCEEDED iff every task succeeded (also for an empty
      table), FAILED iff every task succeeded or failed and one failed, KILLED
      iff every task is terminal and one was killed; otherwise KILLING sticks,
      then RUNNING if a task runs, else PENDING. */
  lemma BatchStateMeaning(c: Counts, runtimeState: JobState)
    requires Fits(c)
    ensures BatchState(c, runtimeState) == JobState.Succeeded <==> OnlyIn(c, {TaskState.Succeeded})
    ensures BatchState(c, runtimeState) == JobState.Failed <==>
            OnlyIn(c, {TaskState.Succeeded, TaskState.Failed}) && CountOf(c, TaskState.Failed) > 0
    ensures BatchState(c, runtimeState) == JobState.Killed <==>
            OnlyIn(c, {TaskState.Succeeded, TaskState.Failed, TaskState.Killed}) && CountOf(c, TaskState.Killed) > 0
    ensures IsTerminal(BatchState(c, runtimeState)) <==>
            OnlyIn(c, {TaskState.Succeeded, TaskState.Failed, TaskState.Killed})
    ensures BatchState(c, runtimeState) == JobState.Killing <==>
            !OnlyIn(c, {TaskState.Succeeded, TaskState.Failed, TaskState.Killed}) && runtimeState == JobState.Killing
    ensures BatchState(c, runtimeState) == JobState.Running <==>
            !OnlyIn(c, {TaskState.Succeeded, TaskState.Failed, TaskState.Killed}) &&
            runtimeState != JobState.Killing && CountOf(c, TaskState.Running) > 0
  {
    OnlySucceeded(c);
    OnlySucceededOrFailed(c);
    OnlyTerminal(c);
  }

  /** Under `Fits`: the SUCCEEDED count is the total iff only SUCCEEDED occurs. */
  lemma OnlySucceeded(c: Counts)
    requires Fits(c)
    ensures CountOf(c, TaskState.Succeeded) == Total(c) <==> OnlyIn(c, {TaskState.Succeeded})
  {
    AllTaskStatesDistinct();
    TotalExact(c);
    SumIn1(c, AllTaskStates, TaskState.Succeeded);
    OnlyInIff(c, {TaskState.Succeeded});
  }

  /** Under `Fits`: the uint32 sum of SUCCEEDED and FAILED is the total iff only
      those two occur. */
  lemma OnlySucceededOrFailed(c: Counts)
    requires Fits(c)
    ensures Add32(CountOf(c, TaskState.Succeeded), CountOf(c, TaskState.Failed)) == Total(c) <==>
            OnlyIn(c, {TaskState.Succeeded, TaskState.Failed})
  {
    var S, F := TaskState.Succeeded, TaskState.Failed;
    AllTaskStatesDistinct();
    TotalExact(c);
    SumIn2(c, AllTaskStates, S, F);
    OnlyInIff(c, {S, F});
  }

  /** Under `Fits`: the uint32 sum of SUCCEEDED, FAILED and KILLED is the total
      iff every task is terminal. */
  lemma OnlyTerminal(c: Counts)
    requires Fits(c)
    ensures Add32(Add32(CountOf(c, TaskState.Succeeded), CountOf(c, TaskState.Failed)), CountOf(c, TaskState.Killed)) == Total(c) <==>
            OnlyIn(c, {TaskState.Succeeded, TaskState.Failed, TaskState.Killed})
  {
    var S, F, K := TaskState.Succeeded, TaskState.Failed, TaskState.Killed;
    AllTaskStatesDistinct();
    TotalExact(c);
    SumIn3(c, AllTaskStates, S, F, K);
    OnlyInIff(c, {S, F, K});
  }

  /** What the service determiner's answers mean, when the true total fits a
      uint32: KILLED iff every task is killed (also for an empty table). */
  lemma ServiceStateMeaning(c: Counts, runtimeState: JobState)
    requires Fits(c)
    ensures ServiceState(c, runtimeState) == JobState.Killed <==> OnlyIn(c, {TaskState.Killed})
    ensures ServiceState(c, runtimeState) == JobState.Killing <==>
            !OnlyIn(c, {TaskState.Killed}) && runtimeState == JobState.Killing
    ensures ServiceState(c, runtimeState) == JobState.Running <==>
            !OnlyIn(c, {TaskState.Killed}) && runtimeState != JobState.Killing && CountOf(c, TaskState.Running) > 0
  {
    AllTaskStatesDistinct();
    TotalExact(c);
    SumIn1(c, AllTaskStates, TaskState.Killed);
    OnlyInIff(c, {TaskState.Killed});
  }

  /** The controller-task determiner agrees with the batch determiner on
      non-terminal answers and otherwise reports the controller task's outcome. */
  lemma ControllerTaskOverridesTerminal(c: Counts, runtimeState: JobState, t: TaskState)
    requires IsTerminal(BatchState(c, runtimeState))
    ensures ControllerTaskState(c, runtimeState, Ok(t)) ==
            Ok(if t == TaskState.Succeeded then JobState.Succeeded
               else if t == TaskState.Failed then JobState.Failed
               else JobState.Killed)
  {
  }

  /** With an empty table a batch job has SUCCEEDED and a service job is KILLED. */
  lemma EmptyTable(runtimeState: JobState)
    ensures BatchState(map[], runtimeState) == JobState.Succeeded
    ensures ServiceState(map[], runtimeState) == JobState.Killed
  {
    assert forall s :: CountOf(map[], s) == 0;
    SumNatPositive(map[], AllTaskStates);
    Sum32Exact(map[], AllTaskStates);
  }
}
