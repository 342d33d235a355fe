/** queue.Queue with a capacity. */
module Queues {
  import opened Common

  /** The contents after a put_nowait whose queue.Full is caught. */
  function Offer<T>(items: seq<T>, item: T, capacity: nat): seq<T> {
    if |items| >= capacity then items else items + [item]
  }

  class PacketQueue<T> {
    var items: seq<T>
    const capacity: nat

    constructor (capacity: nat)
      ensures items == [] && this.capacity == capacity
    {
      items := [];
      this.capacity := capacity;
    }

    method PutNowait(item: T) returns (full: bool)
      modifies this
      ensures full <==> |old(items)| >= capacity
      ensures items == Offer(old(items), item, capacity)
      ensures items == if full then old(items) else old(items) + [item]
    {
      full := |items| >= capacity;
      if !full {
        items := items + [item];
      }
    }

    method Get() returns (item: Option<T>)
      modifies this
      ensures old(items) == [] ==> item == None && items == []
      ensures old(items) != [] ==> item == Some(old(items)[0]) && items == old(items)[1..]
    {
      if items == [] {
        item := None;
      } else {
        item := Some(items[0]);
        items := items[1..];
      }
    }
  }
}
