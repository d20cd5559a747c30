/** The bounded priority queue of the resource manager: a counter and a limit
    around a multi-level list, one FIFO list per priority. The multi-level list
    is modelled by its contents: a map from priority to the non-empty FIFO
    sequence stored at that level. */
module Queue {
  import opened Common

  /** A queued task; `priority` picks its level. */
  datatype TaskItem = TaskItem(taskId: string, priority: int)

  /** `&TaskItem{}`, returned by a failed dequeue. */
  const EmptyItem: TaskItem := TaskItem("", 0)

  const LimitError: string := "Queue Limit is reached"

  /** The error of popping an empty level of the multi-level list. */
  const EmptyError: string := "No items found in queue"

  type Levels = map<int, seq<TaskItem>>

  /** The multi-level list keeps no empty level, and every item sits at its
      own priority. */
  ghost predicate LevelsOk(levels: Levels)
  {
    forall p :: p in levels ==>
      |levels[p]| > 0 && forall i :: 0 <= i < |levels[p]| ==> levels[p][i].priority == p
  }

  /** Number of items stored at priority `p` (`MultiLevelList.Len`). */
  function LevelLen(levels: Levels, p: int): nat
  {
    if p in levels then |levels[p]| else 0
  }

  /** `MultiLevelList.Push`: append at the tail of the item's level. */
  function Push(levels: Levels, ti: TaskItem): (r: Levels)
    ensures r.Keys == levels.Keys + {ti.priority}
    ensures r[ti.priority] == (if ti.priority in levels then levels[ti.priority] else []) + [ti]
    ensures forall p :: p in levels && p != ti.priority ==> r[p] == levels[p]
  {
    levels[ti.priority := (if ti.priority in levels then levels[ti.priority] else []) + [ti]]
  }

  /** `MultiLevelList.Pop` of level `p` once its head has been taken: the level
      loses its head and disappears when it becomes empty. */
  function PopLevel(levels: Levels, p: int): (r: Levels)
    requires p in levels
    ensures forall q :: q in levels && q != p ==> q in r && r[q] == levels[q]
    ensures forall q :: q in r ==> q in levels
    ensures |levels[p]| > 1 ==> p in r && r[p] == levels[p][1..]
    ensures |levels[p]| <= 1 ==> p !in r
  {
    if |levels[p]| <= 1 then levels - {p} else levels[p := levels[p][1..]]
  }

  /** `h` is the highest non-empty level (`MultiLevelList.GetHighestLevel`). */
  predicate IsHighest(levels: Levels, h: int)
  {
    h in levels && forall q :: q in levels ==> q <= h
  }

  /** A non-empty multi-level list has a level. */
  lemma NonEmptyHasLevel(levels: Levels)
    requires levels != map[]
    ensures levels.Keys != {}
  {
    if forall p :: p !in levels {
      assert false;
    }
  }

  lemma {:induction false} HighestExists(keys: set<int>)
    requires keys != {}
    ensures exists h :: h in keys && forall q :: q in keys ==> q <= h
    decreases |keys|
  {
    var x := Pick(keys);
    var rest := keys - {x};
    if rest == {} {
      forall q | q in keys ensures q <= x {
        assert q !in rest;
      }
    } else {
      HighestExists(rest);
      var h :| h in rest && forall q :: q in rest ==> q <= h;
      var m := if x > h then x else h;
      forall q | q in keys ensures q <= m {
        if q != x {
          assert q in rest;
        }
      }
      assert m in keys;
    }
  }

  ghost function Highest(levels: Levels): (h: int)
    requires levels != map[]
    ensures IsHighest(levels, h)
  {
    NonEmptyHasLevel(levels);
    HighestExists(levels.Keys);
    var h :| h in levels.Keys && forall q :: q in levels.Keys ==> q <= h;
    h
  }

  lemma HighestUnique(levels: Levels, h1: int, h2: int)
    requires IsHighest(levels, h1) && IsHighest(levels, h2)
    ensures h1 == h2
  {
  }

  /** Total number of items stored over all levels. */
  ghost function Size(levels: Levels): nat
    decreases levels.Keys
  {
    if levels.Keys == {} then 0
    else
      var p := Pick(levels.Keys);
      |levels[p]| + Size(levels - {p})
  }

  /** Any level can be split off the size, not only the one `Size` picks. */
  lemma {:induction false} SizeRemove(levels: Levels, q: int)
    requires q in levels
    ensures Size(levels) == |levels[q]| + Size(levels - {q})
    decreases levels.Keys
  {
    var p := Pick(levels.Keys);
    if p != q {
      SizeRemove(levels - {p}, q);
      SizeRemove(levels - {q}, p);
      assert levels - {p} - {q} == levels - {q} - {p};
    }
  }

  lemma SizePush(levels: Levels, ti: TaskItem)
    ensures Size(Push(levels, ti)) == Size(levels) + 1
  {
    var p := ti.priority;
    var r := Push(levels, ti);
    SizeRemove(r, p);
    if p in levels {
      SizeRemove(levels, p);
      assert r - {p} == levels - {p};
    } else {
      assert r - {p} == levels;
    }
  }

  lemma SizePop(levels: Levels, p: int)
    requires p in levels && |levels[p]| > 0
    ensures Size(PopLevel(levels, p)) == Size(levels) - 1
  {
    var r := PopLevel(levels, p);
    SizeRemove(levels, p);
    if |levels[p]| > 1 {
      SizeRemove(r, p);
      assert r - {p} == levels - {p};
    } else {
      assert r == levels - {p};
    }
  }

  lemma SizeZero(levels: Levels)
    requires Size(levels) == 0 && LevelsOk(levels)
    ensures levels == map[]
  {
    if levels != map[] {
      NonEmptyHasLevel(levels);
      assert false;
    }
  }

  /** The queue's fields: the multi-level list, the limit and the running count. */
  datatype QueueState = QueueState(levels: Levels, limit: int, count: int)

  /** The count is the number of items held and stays within the limit (or at
      zero, for a queue created with a negative limit). */
  ghost predicate Inv(q: QueueState)
  {
    LevelsOk(q.levels) && q.count == Size(q.levels) && (q.count == 0 || q.count <= q.limit)
  }

  /** `NewPriorityQueue`. */
  function NewQueue(limit: int): (q: QueueState)
    ensures Inv(q) && q.count == 0 && q.levels == map[] && q.limit == limit
  {
    QueueState(map[], limit, 0)
  }

  datatype EnqueueResult = EnqueueResult(queue: QueueState, err: Option<string>)

  datatype DequeueResult = DequeueResult(queue: QueueState, item: TaskItem, err: Option<string>)

  /** `Enqueue`: refused at the limit, otherwise pushed at the item's level. */
  function Enqueued(q: QueueState, ti: TaskItem): (r: EnqueueResult)
    ensures q.count >= q.limit ==> r == EnqueueResult(q, Some(LimitError))
    ensures q.count < q.limit ==> r.err == None && r.queue.count == q.count + 1 && r.queue.limit == q.limit
    ensures r.err == None ==> LevelLen(r.queue.levels, ti.priority) == LevelLen(q.levels, ti.priority) + 1
    ensures forall p :: p != ti.priority ==> LevelLen(r.queue.levels, p) == LevelLen(q.levels, p)
    ensures r.err == None ==> r.queue.levels == Push(q.levels, ti)
    ensures Inv(q) ==> Inv(r.queue)
  {
    if q.count >= q.limit then EnqueueResult(q, Some(LimitError))
    else
      SizePush(q.levels, ti);
      EnqueueResult(QueueState(Push(q.levels, ti), q.limit, q.count + 1), None)
  }

  /** `Dequeue`, in the sequential case: the head of the highest level, or an
      empty item and an error when nothing is queued. */
  ghost function Dequeued(q: QueueState): (r: DequeueResult)
    ensures q.levels == map[] ==> r == DequeueResult(q, EmptyItem, Some(EmptyError))
    ensures q.levels != map[] && LevelsOk(q.levels) ==>
              r.err == None && r.queue.count == q.count - 1 && r.queue.limit == q.limit
    ensures Inv(q) ==> Inv(r.queue)
  {
    if q.levels == map[] then DequeueResult(q, EmptyItem, Some(EmptyError))
    else
      var h := Highest(q.levels);
      if |q.levels[h]| == 0 then DequeueResult(q, EmptyItem, Some(EmptyError))
      else
        var r := DequeueResult(QueueState(PopLevel(q.levels, h), q.limit, q.count - 1), q.levels[h][0], None);
        assert Inv(q) ==> Inv(r.queue) by {
          if Inv(q) {
            SizePop(q.levels, h);
          }
        }
        r
  }

  /** A dequeue returns an item of the highest priority present, the one
      enqueued first among those, and leaves the rest in order. */
  lemma DequeueTakesHighestFirst(q: QueueState)
    requires Inv(q) && q.levels != map[]
    ensures var r := Dequeued(q);
      && (forall p, i :: p in q.levels && 0 <= i < |q.levels[p]| ==> q.levels[p][i].priority <= r.item.priority)
      && r.item == q.levels[r.item.priority][0]
      && LevelLen(r.queue.levels, r.item.priority) == LevelLen(q.levels, r.item.priority) - 1
      && (forall p :: p != r.item.priority ==> LevelLen(r.queue.levels, p) == LevelLen(q.levels, p))
      && r.queue.levels == PopLevel(q.levels, r.item.priority)
  {
    var h := Highest(q.levels);
    assert q.levels[h][0].priority == h;
  }

  /** FIFO within a level: enqueuing an item no higher than the current highest
      level does not change what the next dequeue returns. */
  lemma EnqueueDoesNotOvertake(q: QueueState, ti: TaskItem)
    requires Inv(q) && q.levels != map[] && q.count < q.limit
    requires ti.priority <= Highest(q.levels)
    ensures Dequeued(Enqueued(q, ti).queue).item == Dequeued(q).item
  {
    var h := Highest(q.levels);
    var q' := Enqueued(q, ti).queue;
    assert IsHighest(q'.levels, h);
    HighestUnique(q'.levels, h, Highest(q'.levels));
    assert q'.levels[h][0] == q.levels[h][0];
  }

  /** An enqueue of a higher priority than everything queued is the next item out. */
  lemma EnqueueHigherGoesFirst(q: QueueState, ti: TaskItem)
    requires Inv(q) && q.count < q.limit
    requires q.levels == map[] || ti.priority > Highest(q.levels)
    ensures Dequeued(Enqueued(q, ti).queue).item == ti
  {
    var q' := Enqueued(q, ti).queue;
    assert ti.priority !in q.levels;
    assert IsHighest(q'.levels, ti.priority);
    HighestUnique(q'.levels, ti.priority, Highest(q'.levels));
  }

  /** Operations a client can apply. */
  datatype Op = Enqueue(item: TaskItem) | Dequeue

  ghost function Step(q: QueueState, op: Op): QueueState
  {
    match op
    case Enqueue(ti) => Enqueued(q, ti).queue
    case Dequeue => Dequeued(q).queue
  }

  ghost function Run(q: QueueState, ops: seq<Op>): QueueState
    decreases |ops|
  {
    if ops == [] then q else Run(Step(q, ops[0]), ops[1..])
  }

  /** From a new queue, along any sequence of operations, the count is the
      number of items held and never exceeds the limit (a queue created with a
      limit of zero or less stays empty). */
  lemma {:induction false} CountNeverExceedsLimit(q: QueueState, ops: seq<Op>)
    requires Inv(q)
    ensures var r := Run(q, ops);
      Inv(r) && r.limit == q.limit && r.count == Size(r.levels) && (r.count == 0 || r.count <= q.limit)
    decreases |ops|
  {
    if ops != [] {
      CountNeverExceedsLimit(Step(q, ops[0]), ops[1..]);
    }
  }

  lemma FromNewQueue(limit: int, ops: seq<Op>)
    ensures var r := Run(NewQueue(limit), ops);
      0 <= r.count && (limit <= 0 ==> r.count == 0) && (limit > 0 ==> r.count <= limit)
  {
    CountNeverExceedsLimit(NewQueue(limit), ops);
  }

  /** `PriorityQueue`: the running `count` of the items in `list`, bounded by `limit`. */
  class PriorityQueue {
    var list: Levels
    var limit: int
    var count: int

    ghost function State(): QueueState
      reads this
    {
      QueueState(list, limit, count)
    }

    ghost predicate Valid()
      reads this
    {
      Inv(State())
    }

    /** `NewPriorityQueue`. */
    constructor (limit: int)
      ensures Valid() && State() == NewQueue(limit)
    {
      list := map[];
      this.limit := limit;
      count := 0;
    }

    method Enqueue(ti: TaskItem) returns (err: Option<string>)
      requires Valid()
      modifies this
      ensures Valid()
      ensures EnqueueResult(State(), err) == Enqueued(old(State()), ti)
    {
      if count >= limit {
        return Some(LimitError);
      }
      ghost var before := State();
      list := Push(list, ti);
      count := count + 1;
      err := None;
      assert State() == Enqueued(before, ti).queue;
    }

    method Dequeue() returns (item: TaskItem, err: Option<string>)
      requires Valid()
      modifies this
      ensures Valid()
      ensures DequeueResult(State(), item, err) == Dequeued(old(State()))
    {
      if list == map[] {
        return EmptyItem, Some(EmptyError);
      }
      NonEmptyHasLevel(list);
      HighestExists(list.Keys);
      var highest :| highest in list.Keys && forall q :: q in list.Keys ==> q <= highest;
      HighestUnique(list, highest, Highest(list));
      ghost var before := State();
      item := list[highest][0];
      list := PopLevel(list, highest);
      count := count - 1;
      err := None;
      assert State() == Dequeued(before).queue;
    }

    /** `Len`: the number of items stored at `priority`. */
    method Len(priority: int) returns (n: nat)
      requires Valid()
      ensures n == LevelLen(list, priority)
      ensures n > 0 <==> priority in list
    {
      n := if priority in list then |list[priority]| else 0;
    }
  }
}
