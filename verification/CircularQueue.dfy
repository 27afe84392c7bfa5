/**
 The bounded queue of CircularQueue.hpp: a ring with an explicit size. push and pop hold
 the mutex from beginning to end, so a call is a sequence of critical sections; each
 method here is one section, which stores or takes an element, refuses, or waits.
 Module BlockingQueue, with notifies inside the section, has the waiting and waking.
 */
module CircularQueue {
  import opened Options
  import opened CircularQ
  import Q = BlockingQueue

  class CircularQueue<T(0)> {
    const capacity: nat
    var size: nat
    var head: nat
    var tail: nat
    const buffer: array<T>

    ghost predicate Valid()
      reads this, buffer
    {
      && buffer.Length == capacity && size <= capacity
      && (capacity == 0 ==> head == tail == 0)
      && (capacity > 0 ==> head < capacity && tail == Slot(capacity, head, size))
    }

    /** The stored elements, oldest first. */
    ghost function Contents(): seq<T>
      requires Valid()
      reads this, buffer
    {
      if capacity == 0 then [] else Window(buffer[..], head, size)
    }

    constructor (capacity: nat)
      ensures Valid() && Contents() == [] && this.capacity == capacity && fresh(buffer)
    {
      this.capacity := capacity;
      size, head, tail := 0, 0, 0;
      buffer := new T[capacity];
    }

    method Following(i: nat) returns (r: nat)
      requires i < capacity
      ensures r == Slot(capacity, i, 1)
    {
      SlotIsMod(capacity, i, 1);
      r := (i + 1) % capacity;
    }

    /** One section of push: what it does is what the monitor's section does. */
    method Push(value: T, block: bool) returns (sec: Q.Section<T>)
      requires Valid()
      modifies this`size, this`tail, buffer
      ensures Valid()
      ensures sec == Q.SectionOf(old(Contents()), capacity,
                                 Q.Enter(if block then Q.Enqueue(value) else Q.EnqueueIfRoom(value), false))
      ensures Contents() == if sec.Store? then Pushed(old(Contents()), capacity, value) else old(Contents())
    {
      if size == capacity {
        return if block then Q.Wait else Q.Drop;
      }
      WindowPush(buffer[..], head, size, value);
      buffer[tail] := value;
      assert buffer[..] == old(buffer[..])[tail := value];
      tail := Following(tail);
      size := size + 1;
      sec := Q.Store;
    }

    /** One section of pop. */
    method Pop(block: bool) returns (sec: Q.Section<T>, value: Option<T>)
      requires Valid()
      modifies this`size, this`head
      ensures Valid()
      ensures sec == Q.SectionOf(old(Contents()), capacity, Q.Enter(if block then Q.Dequeue else Q.TryDequeue, false))
      ensures if sec.Take? then old(Contents()) != [] && value == Some(old(Contents())[0]) && Contents() == old(Contents())[1..]
              else value == None && Contents() == old(Contents())
    {
      if size == 0 {
        return if block then Q.Wait else Q.Fail, None;
      }
      WindowPop(buffer[..], head, size);
      value := Some(buffer[head]);
      head := Following(head);
      size := size - 1;
      sec := Q.Take;
    }
  }
}
