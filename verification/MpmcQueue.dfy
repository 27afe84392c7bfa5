/**
 The sections of mpmc_blocking_q.h on the ring they run on: each method is what one
 operation does from taking the mutex to giving it up, and it does what the monitor of
 module BlockingQueue says.
 */
module MpmcQueue {
  import opened Options
  import opened CircularQ
  import opened Sizes
  import Q = BlockingQueue

  class MpmcBlockingQueue<T(0)> {
    const q: CircularQ<T>
    var discards: nat

    ghost predicate Valid()
      reads this, q, q.v
    {
      q.Valid()
    }

    predicate Disabled()
      reads q
    {
      q.maxItems == 0
    }

    ghost function Contents(): seq<T>
      requires Valid()
      reads this, q, q.v
    {
      q.Contents()
    }

    /** The greatest size_t makes a disabled ring, which is never full and keeps nothing. */
    constructor (maxItems: nat)
      requires maxItems < SIZE_MOD
      ensures Valid() && Contents() == [] && discards == 0
      ensures Disabled() <==> maxItems == SIZE_MOD - 1
      ensures q.Capacity() == if Disabled() then 0 else maxItems
      ensures fresh(q) && fresh(q.v)
    {
      q := new CircularQ(maxItems);
      discards := 0;
    }

    method Enqueue(item: T) returns (sec: Q.Section<T>)
      requires Valid()
      modifies q, q.v
      ensures Valid() && q.Capacity() == old(q.Capacity()) && q.v == old(q.v) && Disabled() == old(Disabled())
      ensures sec == if Disabled() then Q.Store else Q.SectionOf(old(Contents()), q.Capacity(), Q.Enter(Q.Enqueue(item), false))
      ensures Contents() == if sec.Store? then Pushed(old(Contents()), q.Capacity(), item) else old(Contents())
      ensures q.overrun == old(q.overrun)
    {
      var full := q.Full();
      if full {
        return Q.Wait;
      }
      q.PushBack(item);
      sec := Q.Store;
    }

    method EnqueueNoWait(item: T) returns (sec: Q.Section<T>)
      requires Valid()
      modifies q, q.v
      ensures Valid() && q.Capacity() == old(q.Capacity()) && q.v == old(q.v) && Disabled() == old(Disabled())
      ensures sec == Q.SectionOf(old(Contents()), q.Capacity(), Q.Enter(Q.EnqueueNoWait(item), false))
      ensures Contents() == Pushed(old(Contents()), q.Capacity(), item)
      ensures q.overrun == (old(q.overrun) + Q.One(!Disabled() && |old(Contents())| == q.Capacity())) % SIZE_MOD
    {
      q.PushBack(item);
      sec := Q.Store;
    }

    /** The count of a refusal comes after the section, in CountDiscard. */
    method EnqueueIfHaveRoom(item: T) returns (sec: Q.Section<T>)
      requires Valid()
      modifies q, q.v
      ensures Valid() && q.Capacity() == old(q.Capacity()) && q.v == old(q.v) && Disabled() == old(Disabled())
      ensures sec == if Disabled() then Q.Store else Q.SectionOf(old(Contents()), q.Capacity(), Q.Enter(Q.EnqueueIfRoom(item), false))
      ensures Contents() == if sec.Store? then Pushed(old(Contents()), q.Capacity(), item) else old(Contents())
      ensures q.overrun == old(q.overrun)
    {
      var full := q.Full();
      if full {
        return Q.Drop;
      }
      q.PushBack(item);
      sec := Q.Store;
    }

    method CountDiscard()
      modifies this`discards
      ensures discards == old(discards) + 1
    {
      discards := discards + 1;
    }

    /** dequeue and, with `expired` telling whether the wait has timed out, dequeue_for. */
    method Dequeue(timed: bool, expired: bool) returns (sec: Q.Section<T>, item: Option<T>)
      requires Valid() && (expired ==> timed)
      modifies q
      ensures Valid() && q.Capacity() == old(q.Capacity()) && q.v == old(q.v) && Disabled() == old(Disabled())
      ensures var op: Q.Op<T> := if timed then Q.DequeueFor else Q.Dequeue;
              sec == Q.SectionOf(old(Contents()), q.Capacity(), if expired then Q.Expired(op) else Q.Enter(op, false))
      ensures if sec.Take? then old(Contents()) != [] && item == Some(old(Contents())[0]) && Contents() == old(Contents())[1..]
              else item == None && Contents() == old(Contents())
      ensures q.overrun == old(q.overrun)
    {
      var empty := q.Empty();
      if empty {
        return if expired then Q.Fail else Q.Wait, None;
      }
      var front := q.Front();
      item := Some(front);
      q.PopFront();
      sec := Q.Take;
    }
  }
}
