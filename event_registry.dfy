/**
 * The two `EventRegistry` classes of EventRegistryCallBack.cpp: the improved
 * one, whose worker thread runs queued callbacks itself, and the pool-backed
 * one, whose monitor thread hands them to a `ThreadPool`.  Both are a
 * two-mode state machine: while an event is in progress `reg_cb` queues the
 * callback; otherwise the callback goes out at once.
 */
module EventRegistries {
  import opened Common

  /** The callbacks of `s` that raise when run, in order. */
  function Raising(s: seq<CallbackId>, raises: set<CallbackId>): (r: seq<CallbackId>)
    ensures |r| <= |s|
  {
    if s == [] then []
    else (if s[0] in raises then [s[0]] else []) + Raising(s[1..], raises)
  }

  /** The improved `EventRegistry`: callbacks run on the registry's own thread. */
  class EventRegistry {
    /** `callbackQueue_`. */
    var queue: seq<CallbackId>
    /** `eventInProgress_`. */
    var eventInProgress: bool
    /** `stop_`. */
    var stop: bool
    /** The worker is inside its inner drain loop: it passed the wait and
        has not yet found the queue empty.  Between callbacks it does not
        hold the lock. */
    var draining: bool
    /** Callbacks run so far, by `reg_cb` or by the worker, in the order run. */
    var executed: seq<CallbackId>
    /** Callbacks whose exception the worker caught and reported. */
    var reported: seq<CallbackId>
    /** Every callback ever registered. */
    ghost var registered: multiset<CallbackId>

    /** Each registered callback has run or is queued, exactly once. */
    ghost predicate Valid()
      reads this
    {
      registered == multiset(executed) + multiset(queue)
    }

    constructor ()
      ensures Valid() && queue == [] && executed == [] && reported == []
      ensures !eventInProgress && !stop && !draining
    {
      queue := [];
      eventInProgress := false;
      stop := false;
      draining := false;
      executed := [];
      reported := [];
      registered := multiset{};
    }

    /** `reg_cb`: while an event is in progress the callback is queued and not
        run; otherwise it runs at once on the caller's thread, where an
        exception it raises reaches the caller (`raised`). */
    method RegCb(cb: CallbackId, raises: set<CallbackId>) returns (raised: bool)
      requires Valid()
      modifies this
      ensures Valid() && registered == old(registered) + multiset{cb}
      ensures eventInProgress == old(eventInProgress) && stop == old(stop) && reported == old(reported)
      ensures old(eventInProgress) ==> queue == old(queue) + [cb] && executed == old(executed) && !raised
      ensures !old(eventInProgress) ==>
        queue == old(queue) && executed == old(executed) + [cb] && raised == (cb in raises)
    {
      registered := registered + multiset{cb};
      if eventInProgress {
        queue := queue + [cb];
        raised := false;
      } else {
        executed := executed + [cb];
        raised := cb in raises;
      }
    }

    /** `startEvent`: sets the flag and leaves the queue alone. */
    method StartEvent()
      requires Valid()
      modifies this
      ensures Valid() && eventInProgress
      ensures queue == old(queue) && executed == old(executed) && stop == old(stop)
      ensures reported == old(reported) && registered == old(registered)
    {
      eventInProgress := true;
    }

    /** `stopEvent`: clears the flag and leaves the queue alone. */
    method StopEvent()
      requires Valid()
      modifies this
      ensures Valid() && !eventInProgress
      ensures queue == old(queue) && executed == old(executed) && stop == old(stop)
      ensures reported == old(reported) && registered == old(registered)
    {
      eventInProgress := false;
    }

    /** `shutdown`: sets `stop_`; queued callbacks stay queued. */
    method Shutdown()
      requires Valid()
      modifies this
      ensures Valid() && stop
      ensures queue == old(queue) && executed == old(executed) && eventInProgress == old(eventInProgress)
      ensures reported == old(reported) && registered == old(registered)
    {
      stop := true;
    }

    /** The top of an iteration of `worker`'s outer loop, enabled when
        `!eventInProgress_ || stop_`: once stopped the worker exits;
        otherwise it enters the drain loop.  Nothing else changes. */
    method WorkerWait() returns (exit: bool)
      requires Valid() && !draining && (!eventInProgress || stop)
      modifies this`draining
      ensures Valid()
      ensures exit == old(stop)
      ensures draining == !exit
    {
      if stop {
        return true;
      }
      draining := true;
      return false;
    }

    /** One test and body of `worker`'s inner loop.  An empty queue ends the
        drain (`more` false, nothing else changes); otherwise the front
        callback leaves the queue and runs, and if it raises the exception
        is reported.  Neither `eventInProgress_` nor `stop_` is consulted: a
        drain goes on through an event started after it began. */
    method WorkerRunNext(raises: set<CallbackId>) returns (more: bool)
      requires Valid() && draining
      modifies this`queue, this`executed, this`reported, this`draining
      ensures Valid()
      ensures more <==> old(queue) != []
      ensures draining == more
      ensures !more ==> queue == old(queue) && executed == old(executed) && reported == old(reported)
      ensures more ==>
        && queue == old(queue)[1..]
        && executed == old(executed) + [old(queue)[0]]
        && reported == old(reported) + (if old(queue)[0] in raises then [old(queue)[0]] else [])
    {
      if queue == [] {
        draining := false;
        return false;
      }
      var cb := queue[0];
      MoveFront(executed, queue);
      queue := queue[1..];
      executed := executed + [cb];
      if cb in raises {
        reported := reported + [cb];
      }
      return true;
    }

    /** The drain loop run to its end while no other thread acts: exactly
        the queued callbacks run, once each, in registration order, and
        exactly the raising ones are reported. */
    method RunQueued(raises: set<CallbackId>)
      requires Valid() && draining
      modifies this`queue, this`executed, this`reported, this`draining
      ensures Valid() && !draining
      ensures queue == []
      ensures executed == old(executed) + old(queue)
      ensures reported == old(reported) + Raising(old(queue), raises)
    {
      ghost var q, e0, r0 := queue, executed, reported;
      ghost var i := 0;
      while queue != []
        invariant Valid() && draining
        invariant 0 <= i <= |q| && queue == q[i..]
        invariant executed == e0 + q[..i]
        invariant reported == r0 + Raising(q[..i], raises)
        decreases |queue|
      {
        ghost var before := queue;
        var more := WorkerRunNext(raises);
        DrainAdvance(q, i, before, e0, r0, raises);
        i := i + 1;
      }
      var more := WorkerRunNext(raises);
      assert q[..i] == q;
    }
  }

  /** Moving the front of `queue` to the end of `done` keeps the two
      together as they were. */
  lemma MoveFront(done: seq<CallbackId>, queue: seq<CallbackId>)
    requires queue != []
    ensures multiset(done + [queue[0]]) + multiset(queue[1..]) == multiset(done) + multiset(queue)
  {
    assert queue == [queue[0]] + queue[1..];
  }

  /** One pass of the drain loop over the suffix of `q` from `i` on runs
      `q[i]`: the run and reported callbacks grow by one prefix element. */
  lemma DrainAdvance(q: seq<CallbackId>, i: nat, suffix: seq<CallbackId>,
                     e0: seq<CallbackId>, r0: seq<CallbackId>, raises: set<CallbackId>)
    requires i <= |q| && suffix == q[i..] && suffix != []
    ensures i < |q| && suffix[0] == q[i] && suffix[1..] == q[i + 1..]
    ensures e0 + q[..i] + [suffix[0]] == e0 + q[..i + 1]
    ensures r0 + Raising(q[..i], raises) + (if suffix[0] in raises then [suffix[0]] else [])
         == r0 + Raising(q[..i + 1], raises)
  {
    assert q[..i + 1] == q[..i] + [q[i]];
    RaisingAppend(q[..i], q[i], raises);
  }

  /** Scanning one more callback extends the list of raising callbacks by it
      exactly when it raises. */
  lemma {:induction false} RaisingAppend(s: seq<CallbackId>, c: CallbackId, raises: set<CallbackId>)
    ensures Raising(s + [c], raises) == Raising(s, raises) + (if c in raises then [c] else [])
  {
    if s == [] {
      assert [c][1..] == [];
    } else {
      assert (s + [c])[1..] == s[1..] + [c];
      RaisingAppend(s[1..], c, raises);
    }
  }

  /** The pool-backed `EventRegistry`: callbacks go to the pool's task queue. */
  class PooledEventRegistry {
    /** `callbackQueue_`. */
    var queue: seq<CallbackId>
    /** `eventInProgress_`. */
    var eventInProgress: bool
    /** `stop_`. */
    var stop: bool
    /** The monitor is inside its inner loop: it passed the wait and has
        not yet found the queue empty.  Between hand-overs it does not hold
        the lock. */
    var draining: bool
    /** Callbacks handed to `threadPool_.enqueue`, in the order handed over. */
    var dispatched: seq<CallbackId>
    /** Every callback ever registered. */
    ghost var registered: multiset<CallbackId>

    /** Each registered callback has gone to the pool or is queued, exactly once. */
    ghost predicate Valid()
      reads this
    {
      registered == multiset(dispatched) + multiset(queue)
    }

    constructor ()
      ensures Valid() && queue == [] && dispatched == [] && !eventInProgress && !stop && !draining
    {
      queue := [];
      eventInProgress := false;
      stop := false;
      draining := false;
      dispatched := [];
      registered := multiset{};
    }

    /** `reg_cb`: queued while an event is in progress, otherwise enqueued to
        the pool at once. */
    method RegCb(cb: CallbackId)
      requires Valid()
      modifies this
      ensures Valid() && registered == old(registered) + multiset{cb}
      ensures eventInProgress == old(eventInProgress) && stop == old(stop)
      ensures old(eventInProgress) ==> queue == old(queue) + [cb] && dispatched == old(dispatched)
      ensures !old(eventInProgress) ==> queue == old(queue) && dispatched == old(dispatched) + [cb]
    {
      registered := registered + multiset{cb};
      if eventInProgress {
        queue := queue + [cb];
      } else {
        dispatched := dispatched + [cb];
      }
    }

    /** `startEvent`. */
    method StartEvent()
      requires Valid()
      modifies this
      ensures Valid() && eventInProgress && stop == old(stop)
      ensures queue == old(queue) && dispatched == old(dispatched) && registered == old(registered)
    {
      eventInProgress := true;
    }

    /** `stopEvent`. */
    method StopEvent()
      requires Valid()
      modifies this
      ensures Valid() && !eventInProgress && stop == old(stop)
      ensures queue == old(queue) && dispatched == old(dispatched) && registered == old(registered)
    {
      eventInProgress := false;
    }

    /** `shutdown`: sets `stop_`; queued callbacks stay queued. */
    method Shutdown()
      requires Valid()
      modifies this
      ensures Valid() && stop && eventInProgress == old(eventInProgress)
      ensures queue == old(queue) && dispatched == old(dispatched) && registered == old(registered)
    {
      stop := true;
    }

    /** The top of an iteration of `monitor`'s outer loop, enabled when
        `!eventInProgress_ || stop_`: once stopped the monitor exits;
        otherwise it enters the hand-over loop.  Nothing else changes. */
    method MonitorWait() returns (exit: bool)
      requires Valid() && !draining && (!eventInProgress || stop)
      modifies this`draining
      ensures Valid()
      ensures exit == old(stop)
      ensures draining == !exit
    {
      if stop {
        return true;
      }
      draining := true;
      return false;
    }

    /** One test and body of `monitor`'s inner loop.  An empty queue ends it
        (`more` false, nothing else changes); otherwise the front callback
        leaves the queue and goes to the pool, whether or not an event has
        started meanwhile. */
    method MonitorHandNext() returns (more: bool)
      requires Valid() && draining
      modifies this`queue, this`dispatched, this`draining
      ensures Valid()
      ensures more <==> old(queue) != []
      ensures draining == more
      ensures !more ==> queue == old(queue) && dispatched == old(dispatched)
      ensures more ==> queue == old(queue)[1..] && dispatched == old(dispatched) + [old(queue)[0]]
    {
      if queue == [] {
        draining := false;
        return false;
      }
      var cb := queue[0];
      MoveFront(dispatched, queue);
      queue := queue[1..];
      dispatched := dispatched + [cb];
      return true;
    }

    /** The hand-over loop run to its end while no other thread acts: the
        whole queue goes to the pool in registration order. */
    method DispatchQueued()
      requires Valid() && draining
      modifies this`queue, this`dispatched, this`draining
      ensures Valid() && !draining
      ensures queue == [] && dispatched == old(dispatched) + old(queue)
    {
      while queue != []
        invariant Valid() && draining
        invariant dispatched + queue == old(dispatched) + old(queue)
        decreases |queue|
      {
        var more := MonitorHandNext();
      }
      var more := MonitorHandNext();
    }
  }
}
