/** Task and job states of the v0 Peloton API, and the per-state count table
    (`map[string]uint32`, keyed by the state's name) that the job runtime
    updater works on. */
module TaskStates {
  import opened Common

  datatype TaskState =
    | Unknown | Initialized | Pending | Ready | Placing | Placed | Launching | Launched
    | Starting | Running | Succeeded | Failed | Lost | Preempting | Killing | Killed

  datatype JobState = Unknown | Initialized | Pending | Running | Succeeded | Failed | Killed | Killing

  datatype JobType = Batch | Service

  /** The state's protobuf name, `TaskState.String()`. */
  function Name(s: TaskState): string
  {
    match s
    case Unknown => "UNKNOWN"
    case Initialized => "INITIALIZED"
    case Pending => "PENDING"
    case Ready => "READY"
    case Placing => "PLACING"
    case Placed => "PLACED"
    case Launching => "LAUNCHING"
    case Launched => "LAUNCHED"
    case Starting => "STARTING"
    case Running => "RUNNING"
    case Succeeded => "SUCCEEDED"
    case Failed => "FAILED"
    case Lost => "LOST"
    case Preempting => "PREEMPTING"
    case Killing => "KILLING"
    case Killed => "KILLED"
  }

  /** Parses a name back; `None` for a key that names no task state. */
  function StateOfName(n: string): (r: Option<TaskState>)
  {
    if n == "UNKNOWN" then Some(TaskState.Unknown)
    else if n == "INITIALIZED" then Some(TaskState.Initialized)
    else if n == "PENDING" then Some(TaskState.Pending)
    else if n == "READY" then Some(TaskState.Ready)
    else if n == "PLACING" then Some(TaskState.Placing)
    else if n == "PLACED" then Some(TaskState.Placed)
    else if n == "LAUNCHING" then Some(TaskState.Launching)
    else if n == "LAUNCHED" then Some(TaskState.Launched)
    else if n == "STARTING" then Some(TaskState.Starting)
    else if n == "RUNNING" then Some(TaskState.Running)
    else if n == "SUCCEEDED" then Some(TaskState.Succeeded)
    else if n == "FAILED" then Some(TaskState.Failed)
    else if n == "LOST" then Some(TaskState.Lost)
    else if n == "PREEMPTING" then Some(TaskState.Preempting)
    else if n == "KILLING" then Some(TaskState.Killing)
    else if n == "KILLED" then Some(TaskState.Killed)
    else None
  }

  /** Names and parsing are inverse: so no two states share a name. */
  lemma NameRoundTrip(s: TaskState)
    ensures StateOfName(Name(s)) == Some(s)
  {
  }

  lemma NameInjective(s: TaskState, t: TaskState)
    ensures Name(s) == Name(t) ==> s == t
  {
    NameRoundTrip(s);
    NameRoundTrip(t);
  }

  /** `util.IsPelotonJobStateTerminal`. */
  predicate IsTerminal(s: JobState)
  {
    s == JobState.Succeeded || s == JobState.Failed || s == JobState.Killed
  }

  /** Every value of the task state enum (the keys of `task.TaskState_name`),
      in enum order. Go ranges over that map in random order; a fixed order
      loses nothing, since uint32 addition is commutative and associative. */
  const AllTaskStates: seq<TaskState> := [
    TaskState.Unknown, TaskState.Initialized, TaskState.Pending, TaskState.Ready,
    TaskState.Placing, TaskState.Placed, TaskState.Launching, TaskState.Launched,
    TaskState.Starting, TaskState.Running, TaskState.Succeeded, TaskState.Failed,
    TaskState.Lost, TaskState.Preempting, TaskState.Killing, TaskState.Killed]

  /** `taskStatesAfterStart`: a task is being or has been started. */
  const TaskStatesAfterStart: seq<TaskState> := [
    TaskState.Starting, TaskState.Running, TaskState.Succeeded, TaskState.Failed,
    TaskState.Lost, TaskState.Preempting, TaskState.Killing, TaskState.Killed]

  /** `taskStatesScheduled`: sent to or placed by the resource manager and not terminal. */
  const TaskStatesScheduled: seq<TaskState> := [
    TaskState.Running, TaskState.Pending, TaskState.Launched, TaskState.Ready,
    TaskState.Placing, TaskState.Placed, TaskState.Launching, TaskState.Starting,
    TaskState.Preempting, TaskState.Killing]

  /** Position of a state in `AllTaskStates`. */
  function Ordinal(s: TaskState): (k: nat)
    ensures k < |AllTaskStates| && AllTaskStates[k] == s
  {
    match s
    case Unknown => 0
    case Initialized => 1
    case Pending => 2
    case Ready => 3
    case Placing => 4
    case Placed => 5
    case Launching => 6
    case Launched => 7
    case Starting => 8
    case Running => 9
    case Succeeded => 10
    case Failed => 11
    case Lost => 12
    case Preempting => 13
    case Killing => 14
    case Killed => 15
  }

  ghost predicate Distinct(states: seq<TaskState>)
  {
    forall i, j :: 0 <= i < j < |states| ==> states[i] != states[j]
  }

  lemma AllTaskStatesDistinct()
    ensures Distinct(AllTaskStates)
    ensures forall s: TaskState :: s in AllTaskStates
  {
    forall i, j | 0 <= i < j < |AllTaskStates|
      ensures AllTaskStates[i] != AllTaskStates[j]
    {
      assert Ordinal(AllTaskStates[i]) == i;
      assert Ordinal(AllTaskStates[j]) == j;
    }
    forall s: TaskState ensures s in AllTaskStates {
      assert AllTaskStates[Ordinal(s)] == s;
    }
  }

  /** The count table `map[string]uint32`. */
  type Counts = map<string, U32>

  /** Go's map read: a missing key reads as 0. */
  function Count(c: Counts, name: string): U32
  {
    if name in c then c[name] else 0
  }

  function CountOf(c: Counts, s: TaskState): U32
  {
    Count(c, Name(s))
  }

  /** The sum of the counts of `states`, in uint32 arithmetic as the source adds them. */
  function Sum32(c: Counts, states: seq<TaskState>): U32
  {
    if states == [] then 0
    else Add32(Sum32(c, states[..|states| - 1]), CountOf(c, states[|states| - 1]))
  }

  /** The same sum over unbounded naturals. */
  function SumNat(c: Counts, states: seq<TaskState>): nat
  {
    if states == [] then 0
    else SumNat(c, states[..|states| - 1]) + CountOf(c, states[|states| - 1])
  }

  /** Sum of the counts of the states of `states` that lie in `k`. */
  function SumIn(c: Counts, states: seq<TaskState>, k: set<TaskState>): nat
  {
    if states == [] then 0
    else SumIn(c, states[..|states| - 1], k)
         + (if states[|states| - 1] in k then CountOf(c, states[|states| - 1]) else 0)
  }

  /** Sum of the counts of the states of `states` outside `k`. */
  function SumOut(c: Counts, states: seq<TaskState>, k: set<TaskState>): nat
  {
    if states == [] then 0
    else SumOut(c, states[..|states| - 1], k)
         + (if states[|states| - 1] !in k then CountOf(c, states[|states| - 1]) else 0)
  }

  /** The uint32 sum of the counts of `states` (the counting loops of
      `getTotalInstanceCount`, `setStartTime` and the max-running SLA). */
  method SumCounts(c: Counts, states: seq<TaskState>) returns (total: U32)
    ensures total == Sum32(c, states)
    ensures total == SumNat(c, states) % Modulus
  {
    total := 0;
    for i := 0 to |states|
      invariant total == Sum32(c, states[..i])
    {
      assert states[..i + 1][..i] == states[..i];
      total := Add32(total, CountOf(c, states[i]));
    }
    assert states[..|states|] == states;
    Sum32IsSumNatMod(c, states);
  }

  /** `getTotalInstanceCount`: the uint32 sum over every recognised state name. */
  function Total(c: Counts): U32
  {
    Sum32(c, AllTaskStates)
  }

  /** The true number of tasks in the table (no wrap-around). */
  function NatTotal(c: Counts): nat
  {
    SumNat(c, AllTaskStates)
  }

  /** The table's true total fits a uint32, so no sum of its counts wraps. */
  predicate Fits(c: Counts)
  {
    NatTotal(c) < Modulus
  }

  /** Every task of the table is in a state of `k`. */
  ghost predicate OnlyIn(c: Counts, k: set<TaskState>)
  {
    forall s: TaskState :: s !in k ==> CountOf(c, s) == 0
  }

  /** The wrapping sum is the true sum modulo 2^32. */
  lemma {:induction false} Sum32IsSumNatMod(c: Counts, states: seq<TaskState>)
    ensures Sum32(c, states) == SumNat(c, states) % Modulus
  {
    if states != [] {
      var init := states[..|states| - 1];
      Sum32IsSumNatMod(c, init);
      ModAdd(SumNat(c, init), CountOf(c, states[|states| - 1]));
    }
  }

  /** When the true sum fits, the wrapping sum is exact. */
  lemma Sum32Exact(c: Counts, states: seq<TaskState>)
    requires SumNat(c, states) < Modulus
    ensures Sum32(c, states) == SumNat(c, states)
  {
    Sum32IsSumNatMod(c, states);
  }

  lemma TotalExact(c: Counts)
    requires Fits(c)
    ensures Total(c) == NatTotal(c)
  {
    Sum32Exact(c, AllTaskStates);
  }

  /** Every sum splits into the part inside `k` and the part outside it. */
  lemma {:induction false} SumSplit(c: Counts, states: seq<TaskState>, k: set<TaskState>)
    ensures SumNat(c, states) == SumIn(c, states, k) + SumOut(c, states, k)
  {
    if states != [] {
      SumSplit(c, states[..|states| - 1], k);
    }
  }

  /** The part outside `k` is zero exactly when every listed state outside `k` has count 0. */
  lemma {:induction false} SumOutZero(c: Counts, states: seq<TaskState>, k: set<TaskState>)
    ensures SumOut(c, states, k) == 0 <==>
            forall i :: 0 <= i < |states| && states[i] !in k ==> CountOf(c, states[i]) == 0
  {
    if states != [] {
      var n := |states|;
      var init, last := states[..n - 1], states[n - 1];
      SumOutZero(c, init, k);
      var lastOut := if last !in k then CountOf(c, last) else 0;
      assert SumOut(c, states, k) == SumOut(c, init, k) + lastOut;
      if forall i :: 0 <= i < n && states[i] !in k ==> CountOf(c, states[i]) == 0 {
        forall i | 0 <= i < n - 1 && init[i] !in k ensures CountOf(c, init[i]) == 0 {
          assert init[i] == states[i];
        }
        assert states[n - 1] == last;
      } else {
        var i :| 0 <= i < n && states[i] !in k && CountOf(c, states[i]) != 0;
        if i < n - 1 {
          assert init[i] == states[i];
        }
      }
    }
  }

  /** Positive sums have a positive term. */
  lemma {:induction false} SumNatPositive(c: Counts, states: seq<TaskState>)
    ensures SumNat(c, states) > 0 <==> exists i :: 0 <= i < |states| && CountOf(c, states[i]) > 0
  {
    if states != [] {
      var n := |states|;
      var init := states[..n - 1];
      SumNatPositive(c, init);
      if SumNat(c, init) > 0 {
        var i :| 0 <= i < |init| && CountOf(c, init[i]) > 0;
        assert states[i] == init[i];
      }
      if exists i :: 0 <= i < n && CountOf(c, states[i]) > 0 {
        var i :| 0 <= i < n && CountOf(c, states[i]) > 0;
        if i < n - 1 {
          assert init[i] == states[i];
        }
      }
    }
  }

  /** Adding a state absent from the list does not change a SumIn. */
  lemma {:induction false} SumInAbsent(c: Counts, states: seq<TaskState>, k: set<TaskState>, a: TaskState)
    requires a !in states
    ensures SumIn(c, states, k + {a}) == SumIn(c, states, k)
  {
    if states != [] {
      SumInAbsent(c, states[..|states| - 1], k, a);
    }
  }

  /** Adding a state that occurs once in the list adds its count. */
  lemma {:induction false} SumInAdd(c: Counts, states: seq<TaskState>, k: set<TaskState>, a: TaskState)
    requires Distinct(states) && a in states && a !in k
    ensures SumIn(c, states, k + {a}) == SumIn(c, states, k) + CountOf(c, a)
  {
    var n := |states|;
    var init, last := states[..n - 1], states[n - 1];
    DistinctSnoc(states);
    if last == a {
      SumInAbsent(c, init, k, a);
    } else {
      assert a in init by {
        assert states == init + [last];
      }
      SumInAdd(c, init, k, a);
    }
  }

  /** Dropping the last state of a distinct list keeps it distinct, and the
      last state does not occur before. */
  lemma DistinctSnoc(states: seq<TaskState>)
    requires Distinct(states) && states != []
    ensures Distinct(states[..|states| - 1])
    ensures states[|states| - 1] !in states[..|states| - 1]
  {
    var init := states[..|states| - 1];
    assert forall i :: 0 <= i < |init| ==> init[i] == states[i];
  }

  lemma SumInEmpty(c: Counts, states: seq<TaskState>)
    ensures SumIn(c, states, {}) == 0
  {
  }

  /** Over a list of distinct states, the SumIn of one, two or three listed states. */
  lemma SumIn1(c: Counts, states: seq<TaskState>, a: TaskState)
    requires Distinct(states) && a in states
    ensures SumIn(c, states, {a}) == CountOf(c, a)
  {
    SumInEmpty(c, states);
    SumInAdd(c, states, {}, a);
    assert {} + {a} == {a};
  }

  lemma SumIn2(c: Counts, states: seq<TaskState>, a: TaskState, b: TaskState)
    requires Distinct(states) && a in states && b in states && a != b
    ensures SumIn(c, states, {a, b}) == CountOf(c, a) + CountOf(c, b)
  {
    SumIn1(c, states, a);
    SumInAdd(c, states, {a}, b);
    assert {a} + {b} == {a, b};
  }

  lemma SumIn3(c: Counts, states: seq<TaskState>, a: TaskState, b: TaskState, d: TaskState)
    requires Distinct(states) && a in states && b in states && d in states
    requires a != b && a != d && b != d
    ensures SumIn(c, states, {a, b, d}) == CountOf(c, a) + CountOf(c, b) + CountOf(c, d)
  {
    SumIn2(c, states, a, b);
    SumInAdd(c, states, {a, b}, d);
    assert {a, b} + {d} == {a, b, d};
  }

  /** Over the full enum: the true total equals the counts in `k` exactly when
      every task is in a state of `k`. */
  lemma OnlyInIff(c: Counts, k: set<TaskState>)
    ensures NatTotal(c) == SumIn(c, AllTaskStates, k) + SumOut(c, AllTaskStates, k)
    ensures SumOut(c, AllTaskStates, k) == 0 <==> OnlyIn(c, k)
  {
    SumSplit(c, AllTaskStates, k);
    SumOutZero(c, AllTaskStates, k);
    AllTaskStatesDistinct();
    if SumOut(c, AllTaskStates, k) == 0 {
      forall s: TaskState | s !in k ensures CountOf(c, s) == 0 {
        assert AllTaskStates[Ordinal(s)] == s;
      }
    }
  }

  /** The set of states a list holds. */
  function Elems(ds: seq<TaskState>): (r: set<TaskState>)
    ensures forall s :: s in r <==> s in ds
  {
    if ds == [] then {} else Elems(ds[..|ds| - 1]) + {ds[|ds| - 1]}
  }

  /** The sum over a list of distinct states is the SumIn of its elements over
      any distinct list that contains them all. */
  lemma {:induction false} SumNatOfDistinct(c: Counts, ds: seq<TaskState>, all: seq<TaskState>)
    requires Distinct(ds) && Distinct(all) && forall s :: s in ds ==> s in all
    ensures SumNat(c, ds) == SumIn(c, all, Elems(ds))
  {
    if ds == [] {
      SumInEmpty(c, all);
    } else {
      var n := |ds|;
      var init, last := ds[..n - 1], ds[n - 1];
      DistinctSnoc(ds);
      assert ds == init + [last];
      SumNatOfDistinct(c, init, all);
      assert Elems(ds) == Elems(init) + {last};
      SumInAdd(c, all, Elems(init), last);
    }
  }

  /** No sum over distinct states exceeds the true total; under `Fits` none wraps. */
  lemma SumNatOfDistinctBounded(c: Counts, ds: seq<TaskState>)
    requires Distinct(ds)
    ensures SumNat(c, ds) <= NatTotal(c)
    ensures Fits(c) ==> Sum32(c, ds) == SumNat(c, ds)
  {
    AllTaskStatesDistinct();
    SumNatOfDistinct(c, ds, AllTaskStates);
    SumSplit(c, AllTaskStates, Elems(ds));
    if Fits(c) {
      Sum32Exact(c, ds);
    }
  }

  /** The uint32 sum over `ds` is positive exactly when some state of `ds` has
      a task, provided the true total fits a uint32. */
  lemma Sum32PositiveIff(c: Counts, ds: seq<TaskState>)
    requires Distinct(ds) && Fits(c)
    ensures Sum32(c, ds) > 0 <==> exists i :: 0 <= i < |ds| && CountOf(c, ds[i]) > 0
  {
    SumNatOfDistinctBounded(c, ds);
    SumNatPositive(c, ds);
  }

  /** Keys that name no task state do not contribute to the total. */
  lemma {:induction false} Sum32IgnoresOtherKeys(c: Counts, states: seq<TaskState>, key: string, v: U32)
    requires StateOfName(key).None?
    ensures Sum32(c[key := v], states) == Sum32(c, states)
  {
    if states != [] {
      Sum32IgnoresOtherKeys(c, states[..|states| - 1], key, v);
      NameRoundTrip(states[|states| - 1]);
    }
  }
}
