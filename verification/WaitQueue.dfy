/** The list of waiting processes inside a queueing lock, linked through the processes themselves. */
module WaitQueue {

  class Proc {
    var qnext: Proc?

    constructor ()
      ensures qnext == null
    {
      qnext := null;
    }
  }

  /** Who comes after position i. */
  ghost function Succ(q: seq<Proc>, i: nat): Proc?
  {
    if i + 1 < |q| then q[i + 1] else null
  }

  class Queue {
    var head: Proc?
    var tail: Proc?
    ghost var q: seq<Proc> // the processes in the order in which they came

    ghost predicate Valid()
      reads this, q
    {
      && (forall i, j :: 0 <= i < j < |q| ==> q[i] != q[j])
      && (if q == [] then head == null && tail == null else head == q[0] && tail == q[|q| - 1])
      && (forall i :: 0 <= i < |q| ==> q[i].qnext == Succ(q, i))
    }

    constructor ()
      ensures Valid() && q == []
    {
      head, tail, q := null, null, [];
    }

    /** The part of qlock that queues the caller. */
    method Enqueue(up: Proc)
      requires Valid() && up !in q
      modifies this, up, q
      ensures Valid() && q == old(q) + [up]
    {
      var p := tail;
      if p == null {
        head := up;
      } else {
        p.qnext := up;
      }
      tail := up;
      up.qnext := null;
      q := q + [up];
    }

    /** The part of qunlock that takes the next owner off the queue; null if there is none. */
    method Dequeue() returns (p: Proc?)
      requires Valid()
      modifies this
      ensures Valid()
      ensures if old(q) == [] then p == null && q == [] else p == old(q)[0] && q == old(q)[1..]
    {
      p := head;
      if p != null {
        assert q[0].qnext == Succ(q, 0);
        head := p.qnext;
        if head == null {
          tail := null;
        }
        q := q[1..];
      }
    }
  }
}
