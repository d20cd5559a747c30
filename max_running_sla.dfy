/** The task-selection part of `JobEvaluateMaxRunningInstancesSLA`: which
    INITIALIZED instances of a job to send to the resource manager so that no
    more than the job's maximum number of instances are scheduled. */
module MaxRunningSla {
  import opened Common
  import opened TaskStates

  /** One entry of the INITIALIZED-task index, in index order, with what the
      loop learns about it: the stored runtime read (which may fail) and
      whether the goal-state driver already has it scheduled. */
  datatype Candidate = Candidate(instance: U32, runtime: Result<TaskState>, scheduled: bool)

  /** A candidate the loop sends: its runtime really is INITIALIZED and it is
      not already scheduled. */
  predicate Eligible(cand: Candidate)
  {
    cand.runtime == Ok(TaskState.Initialized) && !cand.scheduled
  }

  /** The instances the loop selects with `budget` starts left: a failed read
      or an already-scheduled task is skipped for free, a task whose runtime is
      not INITIALIZED uses up one start, a selected task uses up one. */
  function Selection(budget: nat, cands: seq<Candidate>): (r: seq<U32>)
    ensures |r| <= budget && |r| <= |cands|
  {
    if budget == 0 || cands == [] then []
    else
      var cand := cands[0];
      if cand.runtime.Err? then Selection(budget, cands[1..])
      else if cand.runtime.value != TaskState.Initialized then Selection(budget - 1, cands[1..])
      else if cand.scheduled then Selection(budget, cands[1..])
      else [cand.instance] + Selection(budget - 1, cands[1..])
  }

  /** The selection is a subsequence of the eligible candidates, in order: each
      selected instance comes from an eligible candidate after the previous one. */
  ghost predicate SelectedFrom(sel: seq<U32>, cands: seq<Candidate>)
  {
    sel == [] ||
    exists i :: 0 <= i < |cands| && Eligible(cands[i]) && cands[i].instance == sel[0] &&
                SelectedFrom(sel[1..], cands[i + 1..])
  }

  lemma {:induction false} SelectionFromEligible(budget: nat, cands: seq<Candidate>)
    ensures SelectedFrom(Selection(budget, cands), cands)
  {
    if budget != 0 && cands != [] {
      var cand := cands[0];
      if cand.runtime.Err? || cand.scheduled || cand.runtime.value != TaskState.Initialized {
        var b := if cand.runtime.Err? || cand.runtime.value == TaskState.Initialized then budget else budget - 1;
        SelectionFromEligible(b, cands[1..]);
        SelectedFromShift(Selection(b, cands[1..]), cands);
      } else {
        SelectionFromEligible(budget - 1, cands[1..]);
        assert cands[1..] == cands[0 + 1..];
      }
    }
  }

  /** Dropping a leading candidate keeps a subsequence a subsequence. */
  lemma SelectedFromShift(sel: seq<U32>, cands: seq<Candidate>)
    requires cands != [] && SelectedFrom(sel, cands[1..])
    ensures SelectedFrom(sel, cands)
  {
    if sel != [] {
      var i :| 0 <= i < |cands[1..]| && Eligible(cands[1..][i]) && cands[1..][i].instance == sel[0] &&
               SelectedFrom(sel[1..], cands[1..][i + 1..]);
      assert cands[1..][i + 1..] == cands[i + 1 + 1..];
    }
  }

  /** Every selected instance is an eligible candidate. */
  lemma {:induction false} SelectedAreEligible(sel: seq<U32>, cands: seq<Candidate>)
    requires SelectedFrom(sel, cands)
    ensures forall k :: 0 <= k < |sel| ==> exists i :: 0 <= i < |cands| && Eligible(cands[i]) && cands[i].instance == sel[k]
  {
    if sel != [] {
      var i :| 0 <= i < |cands| && Eligible(cands[i]) && cands[i].instance == sel[0] &&
               SelectedFrom(sel[1..], cands[i + 1..]);
      SelectedAreEligible(sel[1..], cands[i + 1..]);
      forall k | 0 < k < |sel|
        ensures exists j :: 0 <= j < |cands| && Eligible(cands[j]) && cands[j].instance == sel[k]
      {
        var j :| 0 <= j < |cands[i + 1..]| && Eligible(cands[i + 1..][j]) && cands[i + 1..][j].instance == sel[1..][k - 1];
        assert cands[i + 1 + j] == cands[i + 1..][j];
      }
    }
  }

  /** With a budget at least the number of candidates, every eligible candidate
      is selected, in order. */
  lemma {:induction false} SelectionTakesAllEligible(budget: nat, cands: seq<Candidate>)
    requires budget >= |cands|
    ensures Selection(budget, cands) == Eligibles(cands)
  {
    if cands != [] {
      if cands[0].runtime.Err? || (cands[0].runtime.value == TaskState.Initialized && cands[0].scheduled) {
        SelectionTakesAllEligible(budget, cands[1..]);
      } else {
        SelectionTakesAllEligible(budget - 1, cands[1..]);
      }
    }
  }

  /** The instances of all eligible candidates, in order. */
  function Eligibles(cands: seq<Candidate>): seq<U32>
  {
    if cands == [] then []
    else (if Eligible(cands[0]) then [cands[0].instance] else []) + Eligibles(cands[1..])
  }

  /** The number of scheduled tasks in the job's task stats, summed in uint32. */
  function ScheduledCount(stats: Counts): U32
  {
    Sum32(stats, TaskStatesScheduled)
  }

  /** Without wrap-around, the scheduled count is the number of tasks in a
      scheduled state. */
  lemma ScheduledCountExact(stats: Counts)
    requires Fits(stats)
    ensures ScheduledCount(stats) == SumNat(stats, TaskStatesScheduled)
  {
    assert Distinct(TaskStatesScheduled);
    SumNatOfDistinctBounded(stats, TaskStatesScheduled);
  }

  /** The loop over the INITIALIZED-task index, with `tasksToStart` starting
      at `budget`. */
  method SelectTasks(budget: nat, cands: seq<Candidate>) returns (tasks: seq<U32>)
    ensures tasks == Selection(budget, cands)
  {
    tasks := [];
    var tasksToStart := budget;
    var i := 0;
    while i < |cands|
      invariant 0 <= i <= |cands|
      invariant tasks + Selection(tasksToStart, cands[i..]) == Selection(budget, cands)
      decreases |cands| - i
    {
      if tasksToStart <= 0 {
        break;
      }
      var cand := cands[i];
      assert cands[i..][1..] == cands[i + 1..];
      if cand.runtime.Err? {
        i := i + 1;
        continue;
      }
      if cand.runtime.value != TaskState.Initialized {
        tasksToStart := tasksToStart - 1;
        i := i + 1;
        continue;
      }
      if cand.scheduled {
        i := i + 1;
        continue;
      }
      tasks := tasks + [cand.instance];
      tasksToStart := tasksToStart - 1;
      i := i + 1;
    }
    assert tasks + Selection(tasksToStart, cands[i..]) == tasks by {
      if i == |cands| {
        assert cands[i..] == [];
      }
    }
  }

  /** The selection loop of `JobEvaluateMaxRunningInstancesSLA`, after the job
      config and runtime have been read. `maxRunning` is the SLA's
      `MaximumRunningInstances`, `goalState` the job's goal state, `stats` its
      task stats, `cands` the INITIALIZED-task index. */
  method TasksToStart(maxRunning: U32, goalState: JobState, stats: Counts, cands: seq<Candidate>)
    returns (tasks: seq<U32>)
    ensures maxRunning == 0 || goalState == JobState.Killed || ScheduledCount(stats) >= maxRunning ==> tasks == []
    ensures !(maxRunning == 0 || goalState == JobState.Killed || ScheduledCount(stats) >= maxRunning) ==>
            tasks == Selection(maxRunning - ScheduledCount(stats), cands)
    ensures |tasks| <= maxRunning
    ensures tasks != [] ==> |tasks| <= maxRunning - ScheduledCount(stats)
    ensures SelectedFrom(tasks, cands)
    ensures forall k :: 0 <= k < |tasks| ==>
              exists i :: 0 <= i < |cands| && Eligible(cands[i]) && cands[i].instance == tasks[k]
  {
    tasks := [];
    if maxRunning == 0 {
      return;
    }
    if goalState == JobState.Killed {
      return;
    }
    var scheduled := SumCounts(stats, TaskStatesScheduled);
    if scheduled >= maxRunning {
      return;
    }
    var budget := maxRunning - scheduled;
    tasks := SelectTasks(budget, cands);
    SelectionFromEligible(budget, cands);
    SelectedAreEligible(tasks, cands);
  }
}
