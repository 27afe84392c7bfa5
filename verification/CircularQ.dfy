/**
 The ring under the asynchronous queue: a vector with one slot kept free, written in
 place. size_t arithmetic wraps at 2^64.
 */
module CircularQ {
  import Modulo
  import opened Sizes

  /** Appending to a bounded queue; the oldest element goes when there is no room. */
  function Pushed<T>(q: seq<T>, cap: nat, x: T): seq<T> {
    if |q| < cap then q + [x] else (q + [x])[1..]
  }

  /** The slot i places after head, around the end. */
  function Slot(size: nat, head: nat, i: nat): (r: nat)
    requires head < size && i <= size
    ensures r < size
  {
    if head + i < size then head + i else head + i - size
  }

  lemma SlotIsMod(size: nat, head: nat, i: nat)
    requires head < size && i <= size
    ensures (head + i) % size == Slot(size, head, i)
  {
    var x := head + i;
    var q := if x < size then 0 else 1;
    assert x == size * q + Slot(size, head, i);
    Modulo.Unique(x, size, q, Slot(size, head, i));
  }

  /** n slots of s from head on, around the end. */
  function Window<T>(s: seq<T>, head: nat, n: nat): (w: seq<T>)
    requires head < |s| && n <= |s|
    ensures |w| == n
  {
    seq(n, i requires 0 <= i < n => s[Slot(|s|, head, i)])
  }

  lemma WindowPush<T>(s: seq<T>, head: nat, n: nat, x: T)
    requires head < |s| && n < |s|
    ensures Window(s[Slot(|s|, head, n) := x], head, n + 1) == Window(s, head, n) + [x]
  {
  }

  lemma WindowPop<T>(s: seq<T>, head: nat, n: nat)
    requires head < |s| && 0 < n <= |s|
    ensures Window(s, Slot(|s|, head, 1), n - 1) == Window(s, head, n)[1..]
    ensures Window(s, head, n)[0] == s[head]
  {
  }

  /** The number of slots from head up to tail, around the end. */
  function Distance(size: nat, head: nat, tail: nat): (n: nat)
    requires head < size && tail < size
    ensures n < size && Slot(size, head, n) == tail
  {
    if tail >= head then tail - head else size - (head - tail)
  }

  lemma RingPush<T>(s: seq<T>, head: nat, tail: nat, x: T)
    requires head < |s| && tail < |s|
    ensures var n, tail', s' := Distance(|s|, head, tail), Slot(|s|, tail, 1), s[tail := x];
            if tail' != head
            then n + 1 < |s| && Distance(|s|, head, tail') == n + 1
                 && Window(s', head, n + 1) == Window(s, head, n) + [x]
            else n + 1 == |s| && Distance(|s|, Slot(|s|, head, 1), tail') == n
                 && Window(s', Slot(|s|, head, 1), n) == (Window(s, head, n) + [x])[1..]
  {
    var n := Distance(|s|, head, tail);
    WindowPush(s, head, n, x);
    if Slot(|s|, tail, 1) == head { WindowPop(s[tail := x], head, n + 1); }
  }

  /** The stored elements after a push, in the order of the ring. */
  lemma RingPushed<T>(s: seq<T>, head: nat, tail: nat, x: T)
    requires head < |s| && tail < |s|
    ensures var tail', s' := Slot(|s|, tail, 1), s[tail := x];
            var full := tail' == head;
            var head' := if full then Slot(|s|, head, 1) else head;
            var q := Window(s, head, Distance(|s|, head, tail));
            && (full <==> |q| == |s| - 1)
            && Window(s', head', Distance(|s|, head', tail')) == Pushed(q, |s| - 1, x)
  {
    RingPush(s, head, tail, x);
  }

  class CircularQ<T(0)> {
    var maxItems: nat
    var head: nat
    var tail: nat
    var overrun: nat
    var v: array<T>

    ghost predicate Valid()
      reads this, v
    {
      && v.Length == maxItems < SIZE_MOD && overrun < SIZE_MOD
      && (maxItems == 0 ==> head == tail == 0)
      && (maxItems > 0 ==> head < maxItems && tail < maxItems)
    }

    function Count(): nat
      requires Valid()
      reads this, v
    {
      if maxItems == 0 then 0 else Distance(maxItems, head, tail)
    }

    /** The number of elements the ring can hold. */
    function Capacity(): nat
      reads this
    {
      if maxItems == 0 then 0 else maxItems - 1
    }

    /** The stored elements, oldest first. */
    ghost function Contents(): (q: seq<T>)
      requires Valid()
      reads this, v
    {
      if maxItems == 0 then [] else Window(v[..], head, Count())
    }

    constructor (items: nat)
      requires items < SIZE_MOD
      ensures Valid() && fresh(v) && Contents() == [] && overrun == 0
      ensures maxItems == (if items == SIZE_MOD - 1 then 0 else items + 1)
    {
      maxItems := (items + 1) % SIZE_MOD;
      head, tail, overrun := 0, 0, 0;
      v := new T[(items + 1) % SIZE_MOD];
    }

    method Following(i: nat) returns (r: nat)
      requires i < maxItems
      ensures r == Slot(maxItems, i, 1)
    {
      SlotIsMod(maxItems, i, 1);
      r := (i + 1) % maxItems;
    }

    /** The ring is full exactly when the slot after tail is head. */
    method Full() returns (r: bool)
      requires Valid()
      ensures r <==> maxItems > 0 && |Contents()| == Capacity()
    {
      if maxItems > 0 {
        var next := Following(tail);
        r := next == head;
      } else {
        r := false;
      }
    }

    method Empty() returns (r: bool)
      requires Valid()
      ensures r <==> Contents() == []
    {
      r := tail == head;
    }

    method Size() returns (n: nat)
      requires Valid()
      ensures n == |Contents()|
    {
      n := if tail >= head then tail - head else maxItems - (head - tail);
    }

    method At(i: nat) returns (x: T)
      requires Valid() && i < |Contents()|
      ensures x == Contents()[i]
    {
      SlotIsMod(maxItems, head, i);
      x := v[(head + i) % maxItems];
    }

    method Front() returns (x: T)
      requires Valid() && Contents() != []
      ensures x == Contents()[0]
    {
      WindowPop(v[..], head, Count());
      x := v[head];
    }

    /** Appends; with no room the oldest element goes and is counted. */
    method PushBack(item: T)
      requires Valid()
      modifies this`head, this`tail, this`overrun, v
      ensures Valid() && Contents() == Pushed(old(Contents()), Capacity(), item)
      ensures overrun == if maxItems > 0 && |old(Contents())| == Capacity()
                         then (old(overrun) + 1) % SIZE_MOD else old(overrun)
    {
      if maxItems > 0 {
        ghost var s := v[..];
        RingPushed(s, head, tail, item);
        WriteSlot(item);
        tail := Following(tail);
        if tail == head {
          head := Following(head);
          overrun := (overrun + 1) % SIZE_MOD;
        }
      }
    }

    method WriteSlot(item: T)
      requires tail < v.Length
      modifies v
      ensures v[..] == old(v[..])[tail := item]
    {
      v[tail] := item;
    }

    method PopFront()
      requires Valid() && Contents() != []
      modifies this`head
      ensures Valid() && Contents() == old(Contents())[1..]
    {
      WindowPop(v[..], head, Count());
      head := Following(head);
    }
  }
}
