/**
 * `ScheduledTask`: one entry of the scheduler's registry, and the programs a
 * task can run.
 */
module Tasks {
  import opened Wrappers
  import opened Executor

  /**
   * What a task runs. A caller's `Runnable` is an opaque closure of type `C`;
   * the scheduler's own closures are the completion poll of an asynchronous
   * task and the deferred submission of a delayed asynchronous task.
   */
  datatype Program<C> =
    | Run(closure: C)
    | PollCompletion(id: int, future: TaskFuture, onComplete: Option<C>)
    | SubmitLater(id: int, work: C, onComplete: Option<C>)

  /** The six fields of a task as one value; structural equality is equality of these. */
  datatype TaskRecord<C> = TaskRecord(
    id: int,
    program: Program<C>,
    delayMillis: int,
    intervalMillis: int,
    scheduledTime: int,
    repeating: bool)
  {
    /** The clock reading from which the task may run. */
    function DueTime(): int
    {
      scheduledTime + delayMillis
    }

    /** The task may run at time `now`. */
    predicate IsDue(now: int)
    {
      now >= DueTime()
    }
  }

  /**
   * The task record. Only `delayMillis` and `scheduledTime` have setters; the
   * other four fields are fixed at construction, which `const` states here.
   * A Java `program` may not be null; a `Program` value cannot be.
   */
  class ScheduledTask<C(==)> {
    const id: int
    const program: Program<C>
    var delayMillis: int
    const intervalMillis: int
    var scheduledTime: int
    const repeating: bool

    /** The all-arguments constructor, in field order. */
    constructor (id: int, program: Program<C>, delayMillis: int, intervalMillis: int,
                 scheduledTime: int, repeating: bool)
      ensures Snapshot() == TaskRecord(id, program, delayMillis, intervalMillis, scheduledTime, repeating)
    {
      this.id := id;
      this.program := program;
      this.delayMillis := delayMillis;
      this.intervalMillis := intervalMillis;
      this.scheduledTime := scheduledTime;
      this.repeating := repeating;
    }

    /** The current values of all six fields. */
    function Snapshot(): TaskRecord<C>
      reads this
    {
      TaskRecord(id, program, delayMillis, intervalMillis, scheduledTime, repeating)
    }

    /** `equals`, generated over all six fields. */
    predicate Equals(other: ScheduledTask<C>)
      reads this, other
      ensures Equals(other) <==> Snapshot() == other.Snapshot()
    {
      && id == other.id
      && program == other.program
      && delayMillis == other.delayMillis
      && intervalMillis == other.intervalMillis
      && scheduledTime == other.scheduledTime
      && repeating == other.repeating
    }

    method SetDelayMillis(delayMillis: int)
      modifies this
      ensures Snapshot() == old(Snapshot()).(delayMillis := delayMillis)
    {
      this.delayMillis := delayMillis;
    }

    method SetScheduledTime(scheduledTime: int)
      modifies this
      ensures Snapshot() == old(Snapshot()).(scheduledTime := scheduledTime)
    {
      this.scheduledTime := scheduledTime;
    }
  }

}
