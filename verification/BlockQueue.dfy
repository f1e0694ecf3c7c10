/** The bounded queues blocks circulate through. Each operation is one atomic step. */
module BlockQueue {
  import opened Wrappers

  class ArrayQueue<T> {
    const capacity: nat
    var items: seq<T>

    ghost predicate Valid()
      reads this
    {
      |items| <= capacity
    }

    constructor (capacity: nat)
      ensures Valid() && items == [] && this.capacity == capacity
    {
      this.capacity, items := capacity, [];
    }

    method Push(item: T) returns (accepted: bool)
      requires Valid()
      modifies this
      ensures Valid()
      ensures accepted <==> |old(items)| < capacity
      ensures items == if accepted then old(items) + [item] else old(items)
    {
      accepted := |items| < capacity;
      if accepted { items := items + [item]; }
    }

    method Pop() returns (item: Option<T>)
      requires Valid()
      modifies this
      ensures Valid()
      ensures old(items) == [] ==> item == None && items == []
      ensures old(items) != [] ==> item == Some(old(items)[0]) && items == old(items)[1..]
    {
      if items == [] {
        return None;
      }
      item := Some(items[0]);
      items := items[1..];
    }
  }
}
