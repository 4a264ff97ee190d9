/**
 * `MappedTaskScheduler`: the registry of pending work that the game loop drains
 * once per tick.
 *
 * Tasks live in a map from id to task. Synchronous tasks get positive ids and
 * asynchronous tasks negative ids, both drawn from one counter. An asynchronous
 * task is a repeating poll that checks its background work and, once the work is
 * done, runs its completion closure and removes itself. The clock is the `now`
 * parameter of every operation that reads it.
 */
module Scheduler {
  import opened Wrappers
  import opened JavaInt
  import opened Executor
  import opened Tasks
  import opened Collections

  // ---------------------------------------------------------------------------
  // Task ids
  // ---------------------------------------------------------------------------

  /** `+1` for a synchronous id, `-1` for an asynchronous one. */
  function SignOf(synchronous: bool): int
  {
    if synchronous then 1 else -1
  }

  /**
   * The counter after handing out magnitude `m`: `nextTaskId++` wraps
   * `Integer.MAX_VALUE` to `Integer.MIN_VALUE`, and a negative counter is reset to 1.
   */
  function NextCounter(m: Int32): (n: Int32)
    requires 1 <= m
    ensures 1 <= n
    ensures m < INT_MAX ==> n == m + 1
    ensures m == INT_MAX ==> n == 1
  {
    var n := Increment(m);
    if n < 0 then 1 else n
  }

  /**
   * Counting up from `start` and wrapping from `INT_MAX` to 1, the counter
   * passes magnitude `c` before it reaches magnitude `m`.
   */
  ghost predicate CyclicallyBefore(start: int, c: int, m: int)
  {
    && 1 <= c <= INT_MAX
    && if start <= m then start <= c < m else start <= c || c < m
  }

  /** How many counter steps lead from magnitude `m` to magnitude `target`. */
  function CyclicDistance(m: int, target: int): nat
    requires 1 <= m <= INT_MAX && 1 <= target <= INT_MAX
  {
    if m <= target then target - m else target - m + INT_MAX
  }

  /**
   * `generateTaskId` turned the counter `before` into `after` and returned `id`
   * while the ids in `taken` were registered: `id` carries the sign of its kind,
   * is not taken, the counter stands one step past its magnitude, and every
   * magnitude the counter passed on the way was taken.
   */
  ghost predicate IdDrawn(before: int, after: int, id: int, synchronous: bool, taken: set<int>)
  {
    var m := SignOf(synchronous) * id;
    && 1 <= m <= INT_MAX
    && after == NextCounter(m)
    && id !in taken
    && forall c :: CyclicallyBefore(before, c, m) ==> SignOf(synchronous) * c in taken
  }

  /** The ids of one sign with magnitudes 1..n, which are n distinct ids. */
  lemma {:induction false} MagnitudeSetSize(sign: int, n: nat)
    requires sign == 1 || sign == -1
    ensures |set c | 1 <= c <= n :: sign * c| == n
  {
    if n > 0 {
      var smaller := set c | 1 <= c <= n - 1 :: sign * c;
      MagnitudeSetSize(sign, n - 1);
      assert (set c | 1 <= c <= n :: sign * c) == smaller + {sign * n};
      assert sign * n !in smaller;
    }
  }

  /** With fewer than `INT_MAX` registered ids, some id of each sign is free. */
  lemma FreeMagnitudeExists(taken: set<int>, sign: int)
    requires sign == 1 || sign == -1
    requires |taken| < INT_MAX
    ensures exists c :: 1 <= c <= INT_MAX && sign * c !in taken
  {
    if forall c :: 1 <= c <= INT_MAX ==> sign * c in taken {
      var all := set c | 1 <= c <= INT_MAX :: sign * c;
      MagnitudeSetSize(sign, INT_MAX);
      assert all <= taken;
      SubsetSize(all, taken);
      assert false;
    }
  }

  /** When the counter's own magnitude is free, it is the one handed out. */
  lemma FirstDrawIsCounter(before: int, after: int, id: int, synchronous: bool, taken: set<int>)
    requires 1 <= before <= INT_MAX
    requires IdDrawn(before, after, id, synchronous, taken)
    requires SignOf(synchronous) * before !in taken
    ensures id == SignOf(synchronous) * before
    ensures after == NextCounter(before)
  {
    var m := SignOf(synchronous) * id;
    if m != before {
      assert CyclicallyBefore(before, before, m);
    }
  }

  /** A fresh scheduler hands out 1 (or -1) and leaves the counter at 2. */
  lemma FirstIdOfFreshScheduler(after: int, id: int, synchronous: bool)
    requires IdDrawn(1, after, id, synchronous, {})
    ensures id == SignOf(synchronous) && after == 2
  {
    FirstDrawIsCounter(1, after, id, synchronous, {});
  }

  /** From a counter at `Integer.MAX_VALUE`, a free synchronous id is `MAX_VALUE` and the counter returns to 1. */
  lemma CounterWrapsToOne(after: int, id: int, taken: set<int>)
    requires IdDrawn(INT_MAX, after, id, true, taken)
    requires INT_MAX !in taken
    ensures id == INT_MAX && after == 1
  {
    FirstDrawIsCounter(INT_MAX, after, id, true, taken);
  }

  // ---------------------------------------------------------------------------
  // The drain, on values
  // ---------------------------------------------------------------------------

  /** A repeating task after a run at `now`: armed again, next due after its interval. */
  function Rearm<C>(t: TaskRecord<C>, now: int): (r: TaskRecord<C>)
    ensures r.DueTime() == now + t.intervalMillis
  {
    t.(scheduledTime := now, delayMillis := t.intervalMillis)
  }

  /** The completion poll of an asynchronous task: repeating, no delay, no interval. */
  function PollRecord<C>(id: int, future: TaskFuture, onComplete: Option<C>, now: int): TaskRecord<C>
  {
    TaskRecord(id, PollCompletion(id, future, onComplete), 0, 0, now, true)
  }

  /** Every task of `before` is still registered, unchanged, in `after`. */
  ghost predicate Extends<C>(before: map<int, TaskRecord<C>>, after: map<int, TaskRecord<C>>)
  {
    forall id :: id in before ==> id in after && after[id] == before[id]
  }

  /** The ids of the tasks of `m` that may run at `now`. */
  ghost function DueIds<C>(m: map<int, TaskRecord<C>>, now: int): set<int>
  {
    set id | id in m && m[id].IsDue(now)
  }

  /** The registry after the drain has visited the ids in `visited`. */
  ghost function DrainOn<C>(m: map<int, TaskRecord<C>>, now: int, visited: set<int>): map<int, TaskRecord<C>>
  {
    map id | id in m && !(id in visited && m[id].IsDue(now) && !m[id].repeating) ::
      if id in visited && m[id].IsDue(now) then Rearm(m[id], now) else m[id]
  }

  /** Visiting one more id rearms it, removes it or leaves it, by its due time and kind. */
  lemma DrainStep<C>(m: map<int, TaskRecord<C>>, now: int, visited: set<int>, id: int)
    requires id in m && id !in visited
    ensures !m[id].IsDue(now) ==> DrainOn(m, now, visited + {id}) == DrainOn(m, now, visited)
    ensures m[id].IsDue(now) && m[id].repeating ==>
      DrainOn(m, now, visited + {id}) == DrainOn(m, now, visited)[id := Rearm(m[id], now)]
    ensures m[id].IsDue(now) && !m[id].repeating ==>
      DrainOn(m, now, visited + {id}) == DrainOn(m, now, visited) - {id}
  {
  }

  /** The registry after a whole drain at `now`. */
  ghost function Drain<C>(m: map<int, TaskRecord<C>>, now: int): (r: map<int, TaskRecord<C>>)
    ensures r.Keys <= m.Keys
    ensures forall id :: id in m && !m[id].IsDue(now) ==> id in r && r[id] == m[id]
    ensures forall id :: id in m && m[id].IsDue(now) && m[id].repeating ==>
      id in r && r[id].scheduledTime == now && r[id].delayMillis == m[id].intervalMillis
      && r[id] == m[id].(scheduledTime := now, delayMillis := m[id].intervalMillis)
    ensures forall id :: id in m && m[id].IsDue(now) && !m[id].repeating ==> id !in r
  {
    DrainOn(m, now, m.Keys)
  }

  /**
   * A one-shot task still waiting one millisecond before its due time is gone
   * after a drain at its due time.
   */
  lemma OneShotGoneAtDueTime<C>(m: map<int, TaskRecord<C>>, id: int)
    requires id in m && !m[id].repeating
    ensures id in Drain(m, m[id].DueTime() - 1)
    ensures id !in Drain(m, m[id].DueTime())
  {
  }

  /** After a drain, no task is due before `now` unless it repeats with a negative interval. */
  lemma DrainLeavesNothingOverdue<C>(m: map<int, TaskRecord<C>>, now: int)
    requires forall id :: id in m ==> m[id].intervalMillis >= 0
    ensures forall id :: id in Drain(m, now) ==> Drain(m, now)[id].DueTime() >= now
  {
  }

  /**
   * A synchronous task with a delay of 1000 scheduled at 0: a drain at 500
   * leaves it waiting, a drain at 1000 removes it.
   */
  lemma DelayedTaskScenario<C>(p: Program<C>)
    ensures var m := map[1 := TaskRecord(1, p, 1000, 0, 0, false)];
      && Drain(m, 500) == m && DueIds(m, 500) == {}
      && Drain(m, 1000) == map[] && DueIds(m, 1000) == {1}
  {
    var m := map[1 := TaskRecord(1, p, 1000, 0, 0, false)];
    assert Drain(m, 1000).Keys == {};
    assert DueIds(m, 1000) == {1} by {
      assert 1 in DueIds(m, 1000);
    }
  }

  /**
   * The drain has collected, in `result`, the programs of the due tasks among
   * `visited`, listed by id in `ran`, each id once.
   */
  ghost predicate Collected<C>(m: map<int, TaskRecord<C>>, now: int, visited: set<int>, ran: seq<int>, result: seq<Program<C>>)
  {
    && |result| == |ran|
    && (forall i :: 0 <= i < |ran| ==> ran[i] in visited && ran[i] in DueIds(m, now) && result[i] == m[ran[i]].program)
    && (forall id :: id in visited && id in DueIds(m, now) ==> id in ran)
    && (forall i, j :: 0 <= i < j < |ran| ==> ran[i] != ran[j])
  }

  lemma CollectOne<C>(m: map<int, TaskRecord<C>>, now: int, visited: set<int>, ran: seq<int>, result: seq<Program<C>>, id: int)
    requires Collected(m, now, visited, ran, result)
    requires id !in visited && id in DueIds(m, now)
    ensures Collected(m, now, visited + {id}, [id] + ran, [m[id].program] + result)
  {
    var ran', result' := [id] + ran, [m[id].program] + result;
    forall i | 0 <= i < |ran'|
      ensures ran'[i] in visited + {id} && ran'[i] in DueIds(m, now) && result'[i] == m[ran'[i]].program
    {
      if i > 0 {
        assert ran'[i] == ran[i - 1] && result'[i] == result[i - 1];
      }
    }
    forall i, j | 0 <= i < j < |ran'|
      ensures ran'[i] != ran'[j]
    {
      assert ran'[j] == ran[j - 1];
      if i > 0 {
        assert ran'[i] == ran[i - 1];
      }
    }
  }

  lemma CollectNone<C>(m: map<int, TaskRecord<C>>, now: int, visited: set<int>, ran: seq<int>, result: seq<Program<C>>, id: int)
    requires Collected(m, now, visited, ran, result)
    requires id !in DueIds(m, now)
    ensures Collected(m, now, visited + {id}, ran, result)
  {
  }

  // ---------------------------------------------------------------------------
  // The scheduler
  // ---------------------------------------------------------------------------


  class MappedTaskScheduler<C(==)> {
    var waitingTasks: map<int, ScheduledTask<C>>
    var nextTaskId: int
    const systemResourceManager: SystemResourceManager<C>

    /**
     * The sign of an id gives the kind of its program: a caller's closure under a
     * positive id, one of the two closures of an asynchronous task, which carry
     * that same id, under a negative id. No task has id 0.
     */
    ghost predicate WellFormed(id: int, p: Program<C>)
      reads systemResourceManager
    {
      match p
      case Run(_) => id > 0
      case PollCompletion(pid, f, _) => id < 0 && pid == id && systemResourceManager.Owns(f)
      case SubmitLater(pid, _, _) => id < 0 && pid == id
    }

    ghost predicate Valid()
      reads this, systemResourceManager
    {
      && 1 <= nextTaskId <= INT_MAX
      && systemResourceManager.Valid()
      && (forall id :: id in waitingTasks ==> waitingTasks[id].id == id)
      && (forall id :: id in waitingTasks ==> WellFormed(id, waitingTasks[id].program))
    }

    /** The registry as values. */
    ghost function Tasks(): (m: map<int, TaskRecord<C>>)
      reads this`waitingTasks, waitingTasks.Values
      ensures m.Keys == waitingTasks.Keys
    {
      map id | id in waitingTasks :: waitingTasks[id].Snapshot()
    }

    constructor (systemResourceManager: SystemResourceManager<C>)
      requires systemResourceManager.Valid()
      ensures Valid()
      ensures this.systemResourceManager == systemResourceManager
      ensures Tasks() == map[] && nextTaskId == 1
    {
      this.systemResourceManager := systemResourceManager;
      waitingTasks := map[];
      nextTaskId := 1;
    }

    /**
     * `generateTaskId`: hand out the counter's magnitude with the sign of the
     * kind, advancing the counter, until the id is not registered.
     */
    method GenerateTaskId(synchronous: bool) returns (id: int)
      requires Valid()
      requires |waitingTasks| < INT_MAX
      modifies this`nextTaskId
      ensures Valid()
      ensures IdDrawn(old(nextTaskId), nextTaskId, id, synchronous, waitingTasks.Keys)
    {
      var sign := SignOf(synchronous);
      FreeMagnitudeExists(waitingTasks.Keys, sign);
      ghost var free :| 1 <= free <= INT_MAX && sign * free !in waitingTasks;
      ghost var start := nextTaskId;
      var magnitude := nextTaskId;
      nextTaskId := NextCounter(nextTaskId);
      id := magnitude * sign;
      while id in waitingTasks
        invariant 1 <= magnitude <= INT_MAX && nextTaskId == NextCounter(magnitude)
        invariant id == magnitude * sign
        invariant forall c :: CyclicallyBefore(start, c, magnitude) ==> sign * c in waitingTasks
        decreases CyclicDistance(magnitude, free)
      {
        magnitude := nextTaskId;
        nextTaskId := NextCounter(nextTaskId);
        id := magnitude * sign;
      }
    }

    /** `scheduleSynchronousTask(id, …)`: register a task under `id`, armed now, replacing any task already there. */
    method PutTask(id: int, program: Program<C>, intervalMillis: int, delayMillis: int, repeating: bool, now: int)
      requires Valid() && WellFormed(id, program)
      modifies this
      ensures Valid()
      ensures nextTaskId == old(nextTaskId)
      ensures Tasks() == old(Tasks())[id := TaskRecord(id, program, delayMillis, intervalMillis, now, repeating)]
    {
      var task := new ScheduledTask(id, program, delayMillis, intervalMillis, now, repeating);
      waitingTasks := waitingTasks[id := task];
    }

    /** `scheduleSynchronousTask(task, interval, delay, repeating)`: register under a fresh positive id. */
    method ScheduleNewSynchronousTask(task: C, intervalMillis: int, delayMillis: int, repeating: bool, now: int)
      returns (id: int)
      requires Valid() && |waitingTasks| < INT_MAX
      modifies this
      ensures Valid()
      ensures id > 0
      ensures IdDrawn(old(nextTaskId), nextTaskId, id, true, old(waitingTasks).Keys)
      ensures |waitingTasks| == old(|waitingTasks|) + 1
      ensures Tasks() == old(Tasks())[id := TaskRecord(id, Run(task), delayMillis, intervalMillis, now, repeating)]
    {
      id := GenerateTaskId(true);
      PutTask(id, Run(task), intervalMillis, delayMillis, repeating, now);
    }

    /** `scheduleSynchronousTask(task)`: run once, on the next drain. */
    method ScheduleSynchronousTask(task: C, now: int) returns (id: int)
      requires Valid() && |waitingTasks| < INT_MAX
      modifies this
      ensures Valid()
      ensures id > 0
      ensures IdDrawn(old(nextTaskId), nextTaskId, id, true, old(waitingTasks).Keys)
      ensures |waitingTasks| == old(|waitingTasks|) + 1
      ensures Tasks() == old(Tasks())[id := TaskRecord(id, Run(task), 0, 0, now, false)]
    {
      id := ScheduleNewSynchronousTask(task, 0, 0, false, now);
    }

    /** `scheduleSynchronousTask(task, delayMillis)`: run once, `delayMillis` from now. */
    method ScheduleDelayedSynchronousTask(task: C, delayMillis: int, now: int) returns (id: int)
      requires Valid() && |waitingTasks| < INT_MAX
      modifies this
      ensures Valid()
      ensures id > 0
      ensures IdDrawn(old(nextTaskId), nextTaskId, id, true, old(waitingTasks).Keys)
      ensures |waitingTasks| == old(|waitingTasks|) + 1
      ensures Tasks() == old(Tasks())[id := TaskRecord(id, Run(task), delayMillis, 0, now, false)]
    {
      id := ScheduleNewSynchronousTask(task, 0, delayMillis, false, now);
    }

    /** `scheduleRepeatingSynchronousTask(task, intervalMillis)`: run on the next drain, then every interval. */
    method ScheduleRepeatingSynchronousTask(task: C, intervalMillis: int, now: int) returns (id: int)
      requires Valid() && |waitingTasks| < INT_MAX
      modifies this
      ensures Valid()
      ensures id > 0
      ensures IdDrawn(old(nextTaskId), nextTaskId, id, true, old(waitingTasks).Keys)
      ensures |waitingTasks| == old(|waitingTasks|) + 1
      ensures Tasks() == old(Tasks())[id := TaskRecord(id, Run(task), 0, intervalMillis, now, true)]
    {
      id := ScheduleDelayedRepeatingSynchronousTask(task, intervalMillis, 0, now);
    }

    /** `scheduleRepeatingSynchronousTask(task, intervalMillis, delayMillis)`. */
    method ScheduleDelayedRepeatingSynchronousTask(task: C, intervalMillis: int, delayMillis: int, now: int)
      returns (id: int)
      requires Valid() && |waitingTasks| < INT_MAX
      modifies this
      ensures Valid()
      ensures id > 0
      ensures IdDrawn(old(nextTaskId), nextTaskId, id, true, old(waitingTasks).Keys)
      ensures |waitingTasks| == old(|waitingTasks|) + 1
      ensures Tasks() == old(Tasks())[id := TaskRecord(id, Run(task), delayMillis, intervalMillis, now, true)]
    {
      id := ScheduleNewSynchronousTask(task, intervalMillis, delayMillis, true, now);
    }

    /**
     * `scheduleAsynchronousTask(id, task, onComplete)`: submit `task` to the pool
     * and register, under `id`, a poll that runs on every drain. Running a
     * `SubmitLater(id, task, onComplete)` program is a call of this method.
     */
    method SubmitAndPoll(id: int, task: C, onComplete: Option<C>, now: int)
      requires Valid() && id < 0
      modifies this, systemResourceManager
      ensures Valid()
      ensures nextTaskId == old(nextTaskId)
      ensures systemResourceManager.submitted == old(systemResourceManager.submitted) + [task]
      ensures systemResourceManager.completed == old(systemResourceManager.completed) + [false]
      ensures Tasks() == old(Tasks())[id := PollRecord(id, TaskFuture(old(|systemResourceManager.completed|)), onComplete, now)]
    {
      var taskFuture := systemResourceManager.SubmitTask(task);
      PutTask(id, PollCompletion(id, taskFuture, onComplete), 0, 0, true, now);
    }

    /** `scheduleAsynchronousTask(task, onComplete)`: submit now, poll under a fresh negative id. */
    method ScheduleAsynchronousTask(task: C, onComplete: Option<C>, now: int) returns (id: int)
      requires Valid() && |waitingTasks| < INT_MAX
      modifies this, systemResourceManager
      ensures Valid()
      ensures id < 0
      ensures IdDrawn(old(nextTaskId), nextTaskId, id, false, old(waitingTasks).Keys)
      ensures |waitingTasks| == old(|waitingTasks|) + 1
      ensures systemResourceManager.submitted == old(systemResourceManager.submitted) + [task]
      ensures systemResourceManager.completed == old(systemResourceManager.completed) + [false]
      ensures Tasks() == old(Tasks())[id := PollRecord(id, TaskFuture(old(|systemResourceManager.completed|)), onComplete, now)]
    {
      id := GenerateTaskId(false);
      SubmitAndPoll(id, task, onComplete, now);
    }

    /**
     * `scheduleAsynchronousTask(task, onComplete, delayMillis)`: nothing is
     * submitted yet; a one-shot task under a fresh negative id submits the work
     * and starts the poll once the delay has passed.
     */
    method ScheduleDelayedAsynchronousTask(task: C, onComplete: Option<C>, delayMillis: int, now: int)
      returns (id: int)
      requires Valid() && |waitingTasks| < INT_MAX
      modifies this
      ensures Valid()
      ensures id < 0
      ensures IdDrawn(old(nextTaskId), nextTaskId, id, false, old(waitingTasks).Keys)
      ensures |waitingTasks| == old(|waitingTasks|) + 1
      ensures Tasks() == old(Tasks())[id := TaskRecord(id, SubmitLater(id, task, onComplete), delayMillis, 0, now, false)]
    {
      id := GenerateTaskId(false);
      PutTask(id, SubmitLater(id, task, onComplete), 0, delayMillis, false, now);
    }

    /**
     * The body of a completion poll, up to the completion closure: while the
     * work is unfinished nothing happens; once it is finished the completion
     * closure (if any) is handed back to be run. The poll is still registered
     * while it runs; `EndPollCompletion` is the removal that follows it.
     */
    method RunPollCompletion(id: int, taskFuture: TaskFuture, onComplete: Option<C>) returns (callback: Option<C>, finished: bool)
      requires Valid() && systemResourceManager.Owns(taskFuture)
      requires id in Tasks() && Tasks()[id].program == PollCompletion(id, taskFuture, onComplete)
      ensures finished <==> systemResourceManager.IsComplete(taskFuture)
      ensures callback == (if finished then onComplete else None)
      // documents that the poll is still registered while its completion closure runs
      ensures id in Tasks()
    {
      finished := systemResourceManager.IsComplete(taskFuture);
      callback := if finished then onComplete else None;
    }

    /**
     * The rest of a finished poll, reached once its completion closure has
     * returned normally: the poll removes its own id and nothing else.
     */
    method EndPollCompletion(id: int, taskFuture: TaskFuture, onComplete: Option<C>)
      requires Valid() && systemResourceManager.Owns(taskFuture) && systemResourceManager.IsComplete(taskFuture)
      requires id in Tasks() && Tasks()[id].program == PollCompletion(id, taskFuture, onComplete)
      modifies this
      ensures Valid()
      ensures nextTaskId == old(nextTaskId)
      ensures Tasks() == old(Tasks()) - {id}
    {
      waitingTasks := waitingTasks - {id};
    }

    /** `cancelTask`: remove a synchronous task; an asynchronous (negative) id is ignored. */
    method CancelTask(taskId: int)
      requires Valid()
      modifies this
      ensures Valid()
      ensures nextTaskId == old(nextTaskId)
      ensures taskId < 0 ==> Tasks() == old(Tasks())
      ensures taskId >= 0 ==> Tasks() == old(Tasks()) - {taskId}
    {
      if taskId < 0 {
        return;
      }
      waitingTasks := waitingTasks - {taskId};
    }

    /** `isTaskInProgress`: the id is registered, waiting to run or polling its work. */
    method IsTaskInProgress(taskId: int) returns (inProgress: bool)
      ensures inProgress <==> taskId in Tasks()
    {
      inProgress := taskId in waitingTasks;
    }

    /** Rearm the task under `id` after a run at `now`; no other task changes. */
    method RearmTask(id: int, now: int)
      requires Valid() && id in waitingTasks
      modifies waitingTasks[id]
      ensures Valid()
      ensures Tasks() == old(Tasks())[id := Rearm(old(Tasks())[id], now)]
    {
      var task := waitingTasks[id];
      task.SetScheduledTime(now);
      task.SetDelayMillis(task.intervalMillis);
      forall k | k in waitingTasks && k != id
        ensures waitingTasks[k] != task
      {
        assert waitingTasks[k].id == k;
      }
    }

    /**
     * One turn of the drain loop: the task under `id` is due, or skipped; a due
     * task hands out its program and is rearmed or removed.
     */
    method VisitTask(id: int, now: int, ghost before: map<int, TaskRecord<C>>, ghost visited: set<int>)
      returns (program: Option<Program<C>>)
      requires Valid()
      requires id in before && id !in visited
      requires Tasks() == DrainOn(before, now, visited)
      modifies this, waitingTasks[id]
      ensures Valid()
      ensures nextTaskId == old(nextTaskId)
      ensures waitingTasks.Values <= old(waitingTasks).Values
      ensures Tasks() == DrainOn(before, now, visited + {id})
      ensures program.Some? <==> before[id].IsDue(now)
      ensures program.Some? ==> program.value == before[id].program
    {
      var task := waitingTasks[id];
      assert task.Snapshot() == before[id] by {
        assert Tasks()[id] == before[id];
      }
      DrainStep(before, now, visited, id);
      if now < task.scheduledTime + task.delayMillis {
        return None;
      }
      program := Some(task.program);
      if task.repeating {
        RearmTask(id, now);
      } else {
        waitingTasks := waitingTasks - {task.id};
      }
    }

    /**
     * `getTasksToRunAndUpdate`: with one clock reading, collect the programs of
     * the due tasks, rearm the repeating ones and remove the others. `ran` lists
     * the ids whose programs were collected, position by position; each program
     * is put in front of those collected before it.
     */
    method GetTasksToRunAndUpdate(now: int) returns (result: seq<Program<C>>, ghost ran: seq<int>)
      requires Valid()
      modifies this, waitingTasks.Values
      ensures Valid()
      ensures nextTaskId == old(nextTaskId)
      ensures Tasks() == Drain(old(Tasks()), now)
      ensures |result| == |ran|
      ensures forall i :: 0 <= i < |ran| ==> ran[i] in old(Tasks()) && result[i] == old(Tasks())[ran[i]].program
      ensures forall id :: id in ran <==> id in DueIds(old(Tasks()), now)
      ensures forall i, j :: 0 <= i < j < |ran| ==> ran[i] != ran[j]
    {
      ghost var before := Tasks();
      var pending := waitingTasks.Keys;
      ghost var visited: set<int> := {};
      result, ran := [], [];
      while pending != {}
        invariant Valid()
        invariant nextTaskId == old(nextTaskId)
        invariant visited !! pending && visited + pending == before.Keys
        invariant waitingTasks.Values <= old(waitingTasks).Values
        invariant Tasks() == DrainOn(before, now, visited)
        invariant Collected(before, now, visited, ran, result)
        decreases pending
      {
        var id := AnyOf(pending);
        var program := VisitTask(id, now, before, visited);
        pending := pending - {id};
        if program.Some? {
          CollectOne(before, now, visited, ran, result, id);
          result := [program.value] + result;
          ran := [id] + ran;
        } else {
          CollectNone(before, now, visited, ran, result, id);
        }
        visited := visited + {id};
      }
    }
  }

}
