/**
 * producer_consumer.cpp: one producer pushes 0, 1, …, 99 into a shared queue
 * of at most `MAX_SIZE` items and then sets `done`; one consumer drains the
 * queue whenever it holds something and stops once `done` is set and the
 * queue is empty.  The globals become the fields of one object.
 */
module ProducerConsumer {

  /** `MAX_SIZE`. */
  const MaxSize := 10
  /** The producer's loop bound. */
  const ItemCount := 100

  /** 0, 1, …, n - 1. */
  function Upto(n: nat): seq<int> {
    seq(n, i => i)
  }

  class Channel {
    /** `tasks`, front first. */
    var tasks: seq<int>
    /** `done`. */
    var done: bool
    /** The producer's loop counter `i`. */
    var next: nat
    /** Values the consumer has taken, in order. */
    var consumed: seq<int>

    /** The queue stays within `MAX_SIZE`; the values taken followed by those
        still queued are exactly those produced, in order; `done` comes only
        after all 100 values. */
    ghost predicate Valid()
      reads this
    {
      && |tasks| <= MaxSize
      && next <= ItemCount
      && consumed + tasks == Upto(next)
      && (done ==> next == ItemCount)
    }

    constructor ()
      ensures Valid() && tasks == [] && !done && next == 0 && consumed == []
    {
      tasks := [];
      done := false;
      next := 0;
      consumed := [];
    }

    /** One iteration of the producer's `for` loop, enabled when
        `tasks.size() != MAX_SIZE`: pushes the loop counter. */
    method Produce()
      requires Valid() && next < ItemCount && |tasks| != MaxSize
      modifies this
      ensures Valid()
      ensures tasks == old(tasks) + [old(next)] && next == old(next) + 1
      ensures done == old(done) && consumed == old(consumed)
    {
      assert Upto(next + 1) == Upto(next) + [next];
      tasks := tasks + [next];
      next := next + 1;
    }

    /** After the loop: the producer sets `done`. */
    method FinishProducing()
      requires Valid() && next == ItemCount
      modifies this
      ensures Valid() && done
      ensures tasks == old(tasks) && next == old(next) && consumed == old(consumed)
    {
      done := true;
    }

    /** One iteration of the consumer's `while (true)`, enabled when
        `!tasks.empty() || done`: takes every queued value from the front,
        then leaves the loop if `done` is set. */
    method ConsumeStep() returns (exit: bool)
      requires Valid() && (tasks != [] || done)
      modifies this
      ensures Valid()
      ensures tasks == [] && consumed == old(consumed) + old(tasks)
      ensures next == old(next) && done == old(done)
      ensures exit == done
      ensures exit ==> consumed == Upto(ItemCount)
    {
      while tasks != []
        invariant Valid() && next == old(next) && done == old(done)
        invariant consumed + tasks == old(consumed) + old(tasks)
        decreases |tasks|
      {
        var val := tasks[0];
        assert tasks == [val] + tasks[1..];
        tasks := tasks[1..];
        consumed := consumed + [val];
      }
      exit := done;
    }
  }
}
