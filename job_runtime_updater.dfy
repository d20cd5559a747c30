/** The job runtime updater of the job goal-state engine: it recomputes a
    job's state from its task-state counts and decides what runtime update to
    write. Store and cache reads are inputs; the clock is a parameter. */
module RuntimeUpdater {
  import opened Common
  import opened TaskStates
  import opened JobStateDeterminer

  /** A time field of the job runtime: the empty string, or the RFC 3339 text
      of a Unix timestamp (kept as the timestamp it formats). */
  datatype TimeText = Unset | Formatted(seconds: real)

  /** The stored job runtime the updater reads. `hasUpdate` is
      `updateutil.HasUpdate(jobRuntime)`. */
  datatype JobRuntime = JobRuntime(
    state: JobState,
    goalState: JobState,
    taskStats: Option<Counts>,
    startTime: TimeText,
    hasUpdate: bool)

  /** What the updater learns from the cached job. `controllerTask` is the
      result of reading instance 0's runtime; `stale` is `isJobStateStale`
      against the 24-hour threshold; `tasks` are the current states of all
      cached tasks. */
  datatype CachedJob = CachedJob(
    partiallyCreated: bool,
    controllerTask: Result<TaskState>,
    stale: bool,
    tasks: seq<TaskState>,
    firstTaskUpdateTime: real,
    lastTaskUpdateTime: real)

  /** The fields of the runtime update the updater fills in. */
  datatype RuntimeInfo = RuntimeInfo(
    state: JobState,
    startTime: TimeText,
    completionTime: TimeText,
    taskStats: Option<Counts>)

  /** What one run of the updater does. */
  datatype UpdaterOutcome =
    | UpdateFailed(error: string)
    | Skipped(enqueueUpdate: bool)
    | Written(runtime: RuntimeInfo, enqueueUpdate: bool, enqueueJob: bool)

  const NotInSyncError: string := "dbs are not in sync"

  /** `getTotalInstanceCount`: the sum over every recognised state name; other
      keys are ignored. */
  method GetTotalInstanceCount(c: Counts) returns (total: U32)
    ensures total == Total(c)
    ensures total == NatTotal(c) % Modulus
    ensures Fits(c) ==> total == NatTotal(c)
  {
    total := SumCounts(c, AllTaskStates);
  }

  /** One `stateCountsFromCache[state]++` (or `= 1` for a new key). */
  function Bump(c: Counts, name: string): Counts
  {
    if name in c then c[name := Add32(c[name], 1)] else c[name := 1]
  }

  /** The table `recalculateJobStateFromCache` builds from the cached tasks. */
  function CacheCounts(tasks: seq<TaskState>): (r: Counts)
    ensures r == map[] <==> tasks == []
  {
    if tasks == [] then map[]
    else Bump(CacheCounts(tasks[..|tasks| - 1]), Name(tasks[|tasks| - 1]))
  }

  /** The rebuilt table has a key for a state exactly when some cached task is
      in it. */
  lemma {:induction false} CacheCountsHas(tasks: seq<TaskState>, s: TaskState)
    ensures (Name(s) in CacheCounts(tasks)) == (s in tasks)
  {
    if tasks != [] {
      var init, last := tasks[..|tasks| - 1], tasks[|tasks| - 1];
      CacheCountsHas(init, s);
      assert tasks == init + [last];
      NameInjective(s, last);
    }
  }

  /** The rebuilt table counts each state's cached tasks (modulo 2^32). */
  lemma {:induction false} CacheCountsAt(tasks: seq<TaskState>, s: TaskState)
    ensures CountOf(CacheCounts(tasks), s) == multiset(tasks)[s] % Modulus
  {
    if tasks != [] {
      var init, last := tasks[..|tasks| - 1], tasks[|tasks| - 1];
      CacheCountsAt(init, s);
      SnocCount(tasks, s);
      var prev, m := CacheCounts(init), multiset(init)[s];
      assert CacheCounts(tasks) == Bump(prev, Name(last));
      if last == s {
        BumpAt(prev, Name(s), Name(s));
        ModAdd(m, 1);
      } else {
        NameInjective(s, last);
        BumpAt(prev, Name(last), Name(s));
      }
    }
  }

  lemma SnocCount(tasks: seq<TaskState>, s: TaskState)
    requires tasks != []
    ensures multiset(tasks)[s] == multiset(tasks[..|tasks| - 1])[s] + (if tasks[|tasks| - 1] == s then 1 else 0)
  {
    assert tasks == tasks[..|tasks| - 1] + [tasks[|tasks| - 1]];
  }

  /** One increment touches only its own key. */
  lemma BumpAt(c: Counts, key: string, name: string)
    ensures Count(Bump(c, key), name) ==
            if name != key then Count(c, name)
            else if name in c then Add32(c[name], 1) else 1
  {
  }

  /** Every key of the rebuilt table names a task state. */
  lemma {:induction false} CacheCountsKeys(tasks: seq<TaskState>)
    ensures forall k :: k in CacheCounts(tasks) ==> StateOfName(k).Some?
  {
    if tasks != [] {
      CacheCountsKeys(tasks[..|tasks| - 1]);
      NameRoundTrip(tasks[|tasks| - 1]);
    }
  }

  /** `shouldRecalculateJobState`: only an active batch job whose state has
      been unchanged past the staleness threshold. */
  predicate ShouldRecalculateJobState(jobType: JobType, jobState: JobState, stale: bool)
  {
    jobType == JobType.Batch && !IsTerminal(jobState) && stale
  }

  /** What `recalculateJobStateFromCache` answers. */
  function RecalculatedState(runtime: JobRuntime, cached: CachedJob, jobState: JobState, config: JobConfig): (r: Result<JobState>)
    ensures TaskState.Unknown in cached.tasks ==> r == Ok(jobState)
    ensures r.Err? ==> cached.controllerTask.Err?
  {
    var counts := CacheCounts(cached.tasks);
    CacheCountsHas(cached.tasks, TaskState.Unknown);
    if Name(TaskState.Unknown) in counts then Ok(jobState)
    else GetState(Factory(counts, config, cached.partiallyCreated, runtime.hasUpdate), counts, runtime.state, cached.controllerTask)
  }

  /** `recalculateJobStateFromCache`: rebuild the table from the cached tasks,
      keep the given state if some task is UNKNOWN (missing from the cache),
      otherwise rerun the determiner on the rebuilt table. */
  method RecalculateJobStateFromCache(runtime: JobRuntime, cached: CachedJob, jobState: JobState, config: JobConfig)
    returns (r: Result<JobState>)
    ensures r == RecalculatedState(runtime, cached, jobState, config)
    ensures TaskState.Unknown in cached.tasks ==> r == Ok(jobState)
  {
    var counts: Counts := map[];
    for i := 0 to |cached.tasks|
      invariant counts == CacheCounts(cached.tasks[..i])
    {
      assert cached.tasks[..i + 1][..i] == cached.tasks[..i];
      var state := Name(cached.tasks[i]);
      if state in counts {
        counts := counts[state := Add32(counts[state], 1)];
      } else {
        counts := counts[state := 1];
      }
    }
    assert cached.tasks[..|cached.tasks|] == cached.tasks;
    if Name(TaskState.Unknown) in counts {
      return Ok(jobState);
    }
    var determiner := Factory(counts, config, cached.partiallyCreated, runtime.hasUpdate);
    r := GetState(determiner, counts, runtime.state, cached.controllerTask);
  }

  /** The recalculation runs for a stale active batch job, or when the table
      counts more tasks than configured. */
  predicate NeedsRecalculation(c: Counts, config: JobConfig, cached: CachedJob, jobState: JobState)
  {
    ShouldRecalculateJobState(config.jobType, jobState, cached.stale) || Total(c) > config.instanceCount
  }

  /** `determineJobRuntimeState` as written: the error of the recalculation is
      assigned and then dropped, so its UNKNOWN state is returned as a success. */
  function DeterminedStateAsWritten(c: Counts, runtime: JobRuntime, config: JobConfig, cached: CachedJob): (r: Result<JobState>)
    ensures r.Err? ==> cached.controllerTask.Err?
  {
    match GetState(Factory(c, config, cached.partiallyCreated, runtime.hasUpdate), c, runtime.state, cached.controllerTask)
    case Err(e) => Err(e)
    case Ok(jobState) =>
      if NeedsRecalculation(c, config, cached, jobState) then
        match RecalculatedState(runtime, cached, jobState, config)
        case Err(_) => Ok(JobState.Unknown)
        case Ok(s) => Ok(s)
      else Ok(jobState)
  }

  /** A batch job with a controller task whose table is stale and still RUNNING,
      while the cache already shows it SUCCEEDED, and whose controller task
      cannot be read: the as-written function reports a successful UNKNOWN.
      The inputs come in as parameters to keep the proof from unfolding them. */
  lemma DroppedRecalculationError(c: Counts, runtime: JobRuntime, config: JobConfig, cached: CachedJob)
    requires c == map[Name(TaskState.Running) := 1]
    requires runtime == JobRuntime(JobState.Running, JobState.Succeeded, Some(c), Unset, false)
    requires config == JobConfig(1, JobType.Batch, true)
    requires cached == CachedJob(false, Err("read failed"), true, [TaskState.Succeeded], 1.0, 2.0)
    ensures DeterminedStateAsWritten(c, runtime, config, cached) == Ok(JobState.Unknown)
  {
    SingleRunning();
    assert GetState(Factory(c, config, false, false), c, JobState.Running, cached.controllerTask) == Ok(JobState.Running);
    var rebuilt := CacheCounts(cached.tasks);
    assert rebuilt == map[Name(TaskState.Succeeded) := 1];
    SingleSucceeded();
    assert RecalculatedState(runtime, cached, JobState.Running, config).Err?;
  }

  /** A batch job with its one task running is RUNNING. */
  lemma SingleRunning()
    ensures BatchState(map[Name(TaskState.Running) := 1], JobState.Running) == JobState.Running
  {
    SingleTaskTable(TaskState.Running);
  }

  /** A batch job with its one task succeeded has SUCCEEDED. */
  lemma SingleSucceeded()
    ensures BatchState(map[Name(TaskState.Succeeded) := 1], JobState.Running) == JobState.Succeeded
  {
    SingleTaskTable(TaskState.Succeeded);
  }

  /** A table holding one task in state `s`. */
  lemma SingleTaskTable(s: TaskState)
    ensures forall t :: CountOf(map[Name(s) := 1], t) == if t == s then 1 else 0
    ensures Total(map[Name(s) := 1]) == 1
  {
    var c: Counts := map[Name(s) := 1];
    forall t ensures CountOf(c, t) == if t == s then 1 else 0 {
      NameInjective(s, t);
    }
    AllTaskStatesDistinct();
    OneTask(c, AllTaskStates, s);
    Sum32Exact(c, AllTaskStates);
  }

  /** Over distinct states that include `s`, a table with one task in `s`
      sums to one. */
  lemma OneTask(c: Counts, states: seq<TaskState>, s: TaskState)
    requires Distinct(states) && s in states
    requires forall t :: CountOf(c, t) == if t == s then 1 else 0
    ensures SumNat(c, states) == 1
  {
    SumSplit(c, states, {s});
    SumIn1(c, states, s);
    SumOutZero(c, states, {s});
  }

  /** `determineJobRuntimeState` with the recalculation's error propagated, as
      the first determination's error is: a success never carries UNKNOWN. */
  function DeterminedState(c: Counts, runtime: JobRuntime, config: JobConfig, cached: CachedJob): (r: Result<JobState>)
    ensures r.Ok? ==> r.value != JobState.Unknown
    ensures r.Err? ==> cached.controllerTask.Err? && config.hasControllerTask
    ensures r.Ok? ==> DeterminedStateAsWritten(c, runtime, config, cached) == r
  {
    match GetState(Factory(c, config, cached.partiallyCreated, runtime.hasUpdate), c, runtime.state, cached.controllerTask)
    case Err(e) => Err(e)
    case Ok(jobState) =>
      if NeedsRecalculation(c, config, cached, jobState) then RecalculatedState(runtime, cached, jobState, config)
      else Ok(jobState)
  }

  /** The first determination stands when the table does not count more
      tasks than configured and the job is a service job, is fresh, or already
      has a terminal answer: only a stale active batch job is recalculated. */
  lemma FirstDeterminationStands(c: Counts, runtime: JobRuntime, config: JobConfig, cached: CachedJob)
    requires Total(c) <= config.instanceCount
    requires var first := GetState(Factory(c, config, cached.partiallyCreated, runtime.hasUpdate), c, runtime.state, cached.controllerTask);
             config.jobType == JobType.Service || !cached.stale || (first.Ok? && IsTerminal(first.value))
    ensures DeterminedState(c, runtime, config, cached) ==
            GetState(Factory(c, config, cached.partiallyCreated, runtime.hasUpdate), c, runtime.state, cached.controllerTask)
  {
  }

  /** A stale batch job whose first answer is active is recalculated from the
      cache, whatever its total. */
  lemma StaleActiveBatchRecalculated(c: Counts, runtime: JobRuntime, config: JobConfig, cached: CachedJob)
    requires config.jobType == JobType.Batch && cached.stale
    requires var first := GetState(Factory(c, config, cached.partiallyCreated, runtime.hasUpdate), c, runtime.state, cached.controllerTask);
             first.Ok? && !IsTerminal(first.value)
    ensures DeterminedState(c, runtime, config, cached) ==
            RecalculatedState(runtime, cached,
              GetState(Factory(c, config, cached.partiallyCreated, runtime.hasUpdate), c, runtime.state, cached.controllerTask).value,
              config)
  {
  }

  /** A table that counts more tasks than configured is recalculated from the
      cache, whatever the job's type and staleness. */
  lemma OverCountRecalculated(c: Counts, runtime: JobRuntime, config: JobConfig, cached: CachedJob)
    requires Total(c) > config.instanceCount
    requires GetState(Factory(c, config, cached.partiallyCreated, runtime.hasUpdate), c, runtime.state, cached.controllerTask).Ok?
    ensures DeterminedState(c, runtime, config, cached) ==
            RecalculatedState(runtime, cached,
              GetState(Factory(c, config, cached.partiallyCreated, runtime.hasUpdate), c, runtime.state, cached.controllerTask).value,
              config)
  {
  }

  method DetermineJobRuntimeState(c: Counts, runtime: JobRuntime, config: JobConfig, cached: CachedJob)
    returns (r: Result<JobState>)
    ensures r == DeterminedState(c, runtime, config, cached)
  {
    var determiner := Factory(c, config, cached.partiallyCreated, runtime.hasUpdate);
    var first := GetState(determiner, c, runtime.state, cached.controllerTask);
    if first.Err? {
      return Err(first.error);
    }
    var jobState := first.value;
    var total := GetTotalInstanceCount(c);
    if ShouldRecalculateJobState(config.jobType, jobState, cached.stale) || total > config.instanceCount {
      r := RecalculateJobStateFromCache(runtime, cached, jobState, config);
    } else {
      r := Ok(jobState);
    }
  }

  /** The `setStartTime` guard: the first task update time is known, no start
      time is recorded yet, and the (uint32) count of started tasks is positive. */
  predicate StartTimeDue(firstTaskUpdateTime: real, runtimeStartTime: TimeText, c: Counts)
  {
    firstTaskUpdateTime != 0.0 && runtimeStartTime == Unset && Sum32(c, TaskStatesAfterStart) > 0
  }

  lemma AfterStartDistinct()
    ensures Distinct(TaskStatesAfterStart)
  {
  }

  /** Without wrap-around, the start time is due exactly when some task is in
      a state that follows its start. */
  lemma StartTimeDueMeaning(firstTaskUpdateTime: real, runtimeStartTime: TimeText, c: Counts)
    requires Fits(c)
    ensures StartTimeDue(firstTaskUpdateTime, runtimeStartTime, c) <==>
            firstTaskUpdateTime != 0.0 && runtimeStartTime == Unset &&
            exists i :: 0 <= i < |TaskStatesAfterStart| && CountOf(c, TaskStatesAfterStart[i]) > 0
  {
    AfterStartDistinct();
    Sum32PositiveIff(c, TaskStatesAfterStart);
  }

  /** The completion time for a job in `jobState`: the last task update time,
      or now when there was none; none at all for an active job. */
  function CompletionTimeFor(jobState: JobState, lastTaskUpdateTime: real, now: real): (r: Option<TimeText>)
    ensures r.Some? <==> IsTerminal(jobState)
    ensures r.Some? ==> r.value.Formatted?
  {
    if !IsTerminal(jobState) then None
    else if lastTaskUpdateTime != 0.0 then Some(Formatted(lastTaskUpdateTime))
    else Some(Formatted(now))
  }

  /** `jobRuntimeUpdate`, the runtime the updater fills in field by field. */
  class RuntimeUpdate {
    var state: JobState
    var startTime: TimeText
    var completionTime: TimeText
    var taskStats: Option<Counts>

    /** `&job.RuntimeInfo{}`: every field at its zero value. */
    constructor ()
      ensures state == JobState.Unknown && startTime == Unset && completionTime == Unset && taskStats == None
    {
      state := JobState.Unknown;
      startTime := Unset;
      completionTime := Unset;
      taskStats := None;
    }

    function Info(): RuntimeInfo
      reads this
    {
      RuntimeInfo(state, startTime, completionTime, taskStats)
    }

    /** `setStartTime`. */
    method SetStartTime(firstTaskUpdateTime: real, runtimeStartTime: TimeText, c: Counts)
      modifies this
      ensures startTime == if StartTimeDue(firstTaskUpdateTime, runtimeStartTime, c)
                           then Formatted(firstTaskUpdateTime) else old(startTime)
      ensures state == old(state) && completionTime == old(completionTime) && taskStats == old(taskStats)
    {
      if firstTaskUpdateTime != 0.0 && runtimeStartTime == Unset {
        var count := SumCounts(c, TaskStatesAfterStart);
        if count > 0 {
          startTime := Formatted(firstTaskUpdateTime);
        }
      }
    }

    /** `setCompletionTime`. */
    method SetCompletionTime(jobState: JobState, lastTaskUpdateTime: real, now: real)
      modifies this
      ensures completionTime == if IsTerminal(jobState)
                                then CompletionTimeFor(jobState, lastTaskUpdateTime, now).value
                                else old(completionTime)
      ensures state == old(state) && startTime == old(startTime) && taskStats == old(taskStats)
    {
      if IsTerminal(jobState) {
        var completion := Formatted(now);
        if lastTaskUpdateTime != 0.0 {
          completion := Formatted(lastTaskUpdateTime);
        }
        completionTime := completion;
      }
    }
  }

  /** The updater goes past its early exits: the table is not short of the
      configured instance count, or the job is partially created and not
      already killed. */
  predicate Proceeds(rt: JobRuntime, config: JobConfig, c: Counts, cached: CachedJob)
  {
    Total(c) >= config.instanceCount ||
    (!(rt.state == JobState.Killed && rt.goalState == JobState.Killed) && cached.partiallyCreated)
  }

  /** `JobRuntimeUpdater`. The three reads (runtime, config, task state
      summary) are inputs that may carry an error; `writeError` is the outcome
      of `cachedJob.Update`; `now` stands for `time.Now()`. */
  method JobRuntimeUpdater(
    runtime: Result<JobRuntime>, config: Result<JobConfig>, stateCounts: Result<Counts>,
    cached: CachedJob, now: real, writeError: Option<string>)
    returns (out: UpdaterOutcome)
    ensures runtime.Err? ==> out == UpdateFailed(runtime.error)
    ensures runtime.Ok? && config.Err? ==> out == UpdateFailed(config.error)
    ensures runtime.Ok? && config.Ok? && stateCounts.Err? ==> out == UpdateFailed(stateCounts.error)
    ensures runtime.Ok? && config.Ok? && stateCounts.Ok? ==>
      var rt, cfg, c := runtime.value, config.value, stateCounts.value;
      && ((Total(c) < cfg.instanceCount && rt.state == JobState.Killed && rt.goalState == JobState.Killed)
          ==> out == Skipped(false))
      && ((!Proceeds(rt, cfg, c, cached) && !(rt.state == JobState.Killed && rt.goalState == JobState.Killed))
          ==> out == UpdateFailed(NotInSyncError))
      && ((Proceeds(rt, cfg, c, cached) && DeterminedState(c, rt, cfg, cached).Err?)
          ==> out == UpdateFailed(DeterminedState(c, rt, cfg, cached).error))
      && ((Proceeds(rt, cfg, c, cached) && DeterminedState(c, rt, cfg, cached) == Ok(rt.state) && rt.taskStats == Some(c))
          ==> out == Skipped(rt.hasUpdate))
    ensures out.Written? ==>
      && runtime.Ok? && config.Ok? && stateCounts.Ok? && writeError.None?
      && var rt, cfg, c := runtime.value, config.value, stateCounts.value;
      && Proceeds(rt, cfg, c, cached)
      && DeterminedState(c, rt, cfg, cached) == Ok(out.runtime.state)
      && !(rt.taskStats == Some(c) && rt.state == out.runtime.state)
      && out.runtime.taskStats == Some(c)
      && out.runtime.startTime ==
           (if StartTimeDue(cached.firstTaskUpdateTime, rt.startTime, c) then Formatted(cached.firstTaskUpdateTime) else Unset)
      && (IsTerminal(out.runtime.state) ==>
           out.runtime.completionTime == CompletionTimeFor(out.runtime.state, cached.lastTaskUpdateTime, now).value)
      && (!IsTerminal(out.runtime.state) ==> out.runtime.completionTime == Unset)
      && out.enqueueUpdate == rt.hasUpdate
      && out.enqueueJob == (IsTerminal(out.runtime.state) || (cached.partiallyCreated && !rt.hasUpdate))
    ensures runtime.Ok? && config.Ok? && stateCounts.Ok? &&
            Proceeds(runtime.value, config.value, stateCounts.value, cached) &&
            DeterminedState(stateCounts.value, runtime.value, config.value, cached).Ok? &&
            !(runtime.value.taskStats == Some(stateCounts.value) &&
              DeterminedState(stateCounts.value, runtime.value, config.value, cached).value == runtime.value.state)
            ==> (writeError.Some? ==> out == UpdateFailed(writeError.value)) && (writeError.None? ==> out.Written?)
  {
    if runtime.Err? {
      return UpdateFailed(runtime.error);
    }
    if config.Err? {
      return UpdateFailed(config.error);
    }
    if stateCounts.Err? {
      return UpdateFailed(stateCounts.error);
    }
    var rt, cfg, c := runtime.value, config.value, stateCounts.value;
    var totalInstanceCount := GetTotalInstanceCount(c);
    if totalInstanceCount < cfg.instanceCount {
      if rt.state == JobState.Killed && rt.goalState == JobState.Killed {
        return Skipped(false);
      }
      if !cached.partiallyCreated {
        return UpdateFailed(NotInSyncError);
      }
    }
    var determined := DetermineJobRuntimeState(c, rt, cfg, cached);
    if determined.Err? {
      return UpdateFailed(determined.error);
    }
    var jobState := determined.value;
    if rt.taskStats.Some? && rt.taskStats.value == c && rt.state == jobState {
      return Skipped(rt.hasUpdate);
    }
    var update := new RuntimeUpdate();
    update.SetStartTime(cached.firstTaskUpdateTime, rt.startTime, c);
    update.state := jobState;
    update.SetCompletionTime(jobState, cached.lastTaskUpdateTime, now);
    update.taskStats := Some(c);
    if writeError.Some? {
      return UpdateFailed(writeError.value);
    }
    var enqueueJob := IsTerminal(update.state) || (cached.partiallyCreated && !rt.hasUpdate);
    out := Written(update.Info(), rt.hasUpdate, enqueueJob);
  }
}
