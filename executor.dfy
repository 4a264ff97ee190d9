/**
 * The background worker pool, reduced to what the scheduler can observe of it:
 * work is submitted and gets a handle (`TaskFuture`), and each handle carries a
 * completion flag that only the pool itself sets. Threads, queueing and timeouts
 * are not modelled; the pool finishing a piece of work is an explicit step.
 */
module Executor {

  /** `TaskFuture`: a handle to one piece of submitted work. */
  datatype TaskFuture = TaskFuture(handle: nat)

  /** The completion flags of `n` pieces of work just submitted: none has finished. */
  function Unfinished(n: nat): (r: seq<bool>)
    ensures |r| == n && forall i :: 0 <= i < n ==> !r[i]
  {
    if n == 0 then [] else Unfinished(n - 1) + [false]
  }

  /** One more submission extends the unfinished tail by one flag. */
  lemma UnfinishedAppend(done: seq<bool>, n: nat)
    ensures done + Unfinished(n) + [false] == done + Unfinished(n + 1)
  {
  }

  /** `SystemResourceManager`: the pool that runs submitted work off the main thread. */
  class SystemResourceManager<C> {
    /** The work submitted so far, in submission order. */
    var submitted: seq<C>
    /** The completion flag of each submitted piece of work. */
    var completed: seq<bool>

    ghost predicate Valid()
      reads this
    {
      |submitted| == |completed|
    }

    /** `f` was handed out by this pool. */
    predicate Owns(f: TaskFuture)
      reads this
    {
      f.handle < |completed|
    }

    constructor ()
      ensures Valid() && submitted == [] && completed == []
    {
      submitted := [];
      completed := [];
    }

    /** `submitTask`: queue `work` and return a handle whose work has not finished yet. */
    method SubmitTask(work: C) returns (f: TaskFuture)
      requires Valid()
      modifies this
      ensures Valid() && Owns(f)
      ensures f.handle == old(|completed|)
      ensures submitted == old(submitted) + [work]
      ensures completed == old(completed) + [false]
    {
      f := TaskFuture(|completed|);
      submitted := submitted + [work];
      completed := completed + [false];
    }

    /** `TaskFuture.isComplete`: a non-blocking look at the completion flag. */
    predicate IsComplete(f: TaskFuture)
      requires Owns(f)
      reads this
    {
      completed[f.handle]
    }

    /** The environment step: the pool finishes the work behind `f`. */
    method FinishWork(f: TaskFuture)
      requires Valid() && Owns(f)
      modifies this
      ensures Valid()
      ensures submitted == old(submitted)
      ensures completed == old(completed)[f.handle := true]
      ensures IsComplete(f)
    {
      completed := completed[f.handle := true];
    }
  }

}
