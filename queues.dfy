/** The bounded FIFO queue of `crossbeam_queue::ArrayQueue`, read as a plain
    sequential container: `push` fails when the queue is full, `pop` fails
    when it is empty. Its lock-free concurrency is not part of this model. */
module Queues {
  import opened Wrappers

  class ArrayQueue<T> {
    const capacity: nat
    var items: seq<T>

    ghost predicate Valid()
      reads this
    {
      0 < capacity && |items| <= capacity
    }

    /** `ArrayQueue::new(capacity)`: an empty queue; the capacity must not be zero. */
    constructor (cap: nat)
      requires cap > 0
      ensures Valid() && capacity == cap && items == []
    {
      capacity := cap;
      items := [];
    }

    /** `push`: append at the back, or report a full queue and change nothing. */
    method Push(x: T) returns (ok: bool)
      requires Valid()
      modifies this
      ensures Valid()
      ensures ok <==> |old(items)| < capacity
      ensures items == if ok then old(items) + [x] else old(items)
    {
      ok := |items| < capacity;
      if ok {
        items := items + [x];
      }
    }

    /** `pop`: remove and return the front element, or None on an empty queue. */
    method Pop() returns (r: Option<T>)
      requires Valid()
      modifies this
      ensures Valid()
      ensures old(items) == [] ==> r == None && items == []
      ensures old(items) != [] ==> r == Some(old(items)[0]) && items == old(items)[1..]
    {
      if items == [] {
        r := None;
      } else {
        r := Some(items[0]);
        items := items[1..];
      }
    }

    /** `is_empty`. */
    method IsEmpty() returns (b: bool)
      ensures b <==> items == []
    {
      b := items == [];
    }
  }
}
