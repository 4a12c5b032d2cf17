/** The server's blocking queue as one object. */
module Queues {
  import opened Wire

  /** Queue.h between lock and unlock.  `pushed` and `popped` are its history. */
  class Queue<T> {
    var items: seq<T>
    ghost var pushed: seq<T>
    ghost var popped: seq<T>

    ghost predicate Valid()
      reads this
    {
      pushed == popped + items
    }

    constructor ()
      ensures Valid() && items == [] && pushed == []
    {
      items, pushed, popped := [], [], [];
    }

    /** `notify` tells whether the condition variable is notified. */
    method Push(elem: T) returns (notify: bool)
      requires Valid()
      modifies this
      ensures Valid() && pushed == old(pushed) + [elem] && popped == old(popped)
      ensures items == old(items) + [elem]
      ensures notify <==> old(items) == []
    {
      Associative(popped, items, [elem]);
      items, pushed := items + [elem], pushed + [elem];
      notify := |items| == 1;
    }

    /** While the queue is empty the caller waits; during its i-th wait the other threads push
        `arrivals(i)`.  Without an arrival at some time the call would wait for ever. */
    method Pop(arrivals: nat -> seq<T>, ghost some: nat) returns (value: T)
      requires Valid()
      requires items == [] ==> arrivals(some) != []
      modifies this
      ensures Valid() && popped == old(popped) + [value] && old(pushed) <= pushed
      ensures old(items) != [] ==> value == old(items)[0] && items == old(items)[1..] && pushed == old(pushed)
    {
      var i := 0;
      while |items| == 0
        invariant Valid() && i <= some + 1 && popped == old(popped) && old(pushed) <= pushed
        invariant i == some + 1 ==> items != []
        invariant old(items) != [] ==> items == old(items) && pushed == old(pushed)
        decreases some + 1 - i
      {
        Associative(popped, items, arrivals(i));
        items, pushed := items + arrivals(i), pushed + arrivals(i);
        i := i + 1;
      }
      value := items[0];
      Associative(popped, [value], items[1..]);
      assert [value] + items[1..] == items;
      items, popped := items[1..], popped + [value];
    }
  }
}
