/**
 * `BoundedBlockingQueue<T>`: a FIFO with a fixed capacity and a shutdown
 * flag.  After shutdown producers are turned away but consumers still drain
 * what is left.
 */
module BoundedQueues {
  import opened Common

  class BoundedBlockingQueue<T> {
    /** `capacity_`. */
    const capacity: nat
    /** `queue_`, front first. */
    var items: seq<T>
    /** `shutdown_`. */
    var isShutdown: bool

    /** The queue never holds more than `capacity_` items. */
    ghost predicate Valid()
      reads this
    {
      |items| <= capacity
    }

    constructor (capacity: nat)
      ensures Valid() && this.capacity == capacity && items == [] && !isShutdown
    {
      this.capacity := capacity;
      items := [];
      isShutdown := false;
    }

    /** `push` (both overloads) and `emplace`, enabled when the queue has room
        or is shut down: appends the item, unless shut down, when nothing
        changes. */
    method Push(item: T)
      requires Valid() && (|items| < capacity || isShutdown)
      modifies this
      ensures Valid() && isShutdown == old(isShutdown)
      ensures items == if old(isShutdown) then old(items) else old(items) + [item]
    {
      if isShutdown {
        return;
      }
      items := items + [item];
    }

    /** `pop`, enabled when the queue is non-empty or shut down: nothing
        exactly when shut down and empty; otherwise the front item, removed. */
    method Pop() returns (r: Option<T>)
      requires Valid() && (items != [] || isShutdown)
      modifies this
      ensures Valid() && isShutdown == old(isShutdown)
      ensures r == None <==> old(isShutdown) && old(items) == []
      ensures r == None ==> items == old(items)
      ensures r.Some? ==> r.value == old(items)[0] && items == old(items)[1..]
    {
      if isShutdown && items == [] {
        return None;
      }
      r := Some(items[0]);
      items := items[1..];
    }

    /** `shutdown`: only sets the flag; calling it again changes nothing. */
    method Shutdown()
      requires Valid()
      modifies this
      ensures Valid() && isShutdown && items == old(items)
    {
      isShutdown := true;
    }
  }
}
