/**
 * The fixed-size `ThreadPool` of thread_pool.cpp: a FIFO of tasks and a
 * `stop_` flag, guarded by one mutex.  Each worker iteration is one atomic
 * step whose `queue_cv_.wait` predicate becomes its precondition.
 */
module ThreadPools {
  import opened Common

  /** What a worker does after `queue_cv_.wait` returns. */
  datatype WorkerAction = Exit | Run(task: CallbackId)

  /** Why the throwing variant of `enqueue` refused a task. */
  datatype EnqueueError = EnqueueOnStoppedPool

  /** The outcome of the throwing `enqueue`. */
  datatype Outcome = Pass | Fail(error: EnqueueError)

  class ThreadPool {
    /** `num_threads`: how many workers the constructor started. */
    const numThreads: int
    /** `tasks_queue_`. */
    var tasks: seq<CallbackId>
    /** `stop_`. */
    var stopped: bool
    /** Tasks taken by workers (and then run), in the order they were taken. */
    var started: seq<CallbackId>
    /** Every task the pool accepted, in the order it accepted them. */
    ghost var accepted: seq<CallbackId>

    /** Each accepted task is either started or still queued, exactly once and
        in acceptance order. */
    ghost predicate Valid()
      reads this
    {
      accepted == started + tasks
    }

    constructor (numThreads: int)
      ensures Valid() && this.numThreads == numThreads
      ensures tasks == [] && !stopped && started == []
    {
      this.numThreads := numThreads;
      tasks := [];
      stopped := false;
      started := [];
      accepted := [];
    }

    /** `enqueue`: appends the task unless the pool is stopped, in which case
        the task is dropped without a word. */
    method Enqueue(task: CallbackId)
      requires Valid()
      modifies this
      ensures Valid() && stopped == old(stopped) && started == old(started)
      ensures tasks == if old(stopped) then old(tasks) else old(tasks) + [task]
      ensures accepted == if old(stopped) then old(accepted) else old(accepted) + [task]
    {
      if !stopped {
        tasks := tasks + [task];
        accepted := accepted + [task];
      }
    }

    /** The `enqueue` of the commented-out variant: on a stopped pool it
        raises instead of dropping the task. */
    method EnqueueOrThrow(task: CallbackId) returns (result: Outcome)
      requires Valid()
      modifies this
      ensures Valid() && stopped == old(stopped) && started == old(started)
      ensures result.Fail? <==> old(stopped)
      ensures tasks == if old(stopped) then old(tasks) else old(tasks) + [task]
      ensures accepted == if old(stopped) then old(accepted) else old(accepted) + [task]
    {
      if stopped {
        return Fail(EnqueueOnStoppedPool);
      }
      tasks := tasks + [task];
      accepted := accepted + [task];
      return Pass;
    }

    /** One worker iteration, enabled when `!tasks_queue_.empty() || stop_`:
        the worker exits only when stopped with nothing queued, and otherwise
        takes the front task. */
    method WorkerStep() returns (action: WorkerAction)
      requires Valid() && (tasks != [] || stopped)
      modifies this
      ensures Valid() && stopped == old(stopped) && accepted == old(accepted)
      ensures action == Exit <==> old(stopped) && old(tasks) == []
      ensures action == Exit ==> tasks == old(tasks) && started == old(started)
      ensures action.Run? ==>
        && action.task == old(tasks)[0]
        && tasks == old(tasks)[1..]
        && started == old(started) + [action.task]
    {
      if stopped && tasks == [] {
        return Exit;
      }
      var task := tasks[0];
      tasks := tasks[1..];
      started := started + [task];
      return Run(task);
    }

    /** `stop`: sets `stop_` and joins the workers.  A worker exits only once
        the queue is empty, so when there is at least one worker every task
        already queued is taken before `stop` returns; with no worker the
        queue stays as it was. */
    method Stop()
      requires Valid()
      modifies this
      ensures Valid() && stopped && accepted == old(accepted)
      ensures numThreads > 0 ==> tasks == [] && started == old(started) + old(tasks)
      ensures numThreads <= 0 ==> tasks == old(tasks) && started == old(started)
    {
      stopped := true;
      if numThreads > 0 {
        while tasks != []
          invariant Valid() && stopped && accepted == old(accepted)
          invariant started + tasks == old(started) + old(tasks)
          decreases |tasks|
        {
          var action := WorkerStep();
        }
      }
    }
  }
}
