/**
 The lock-free queue with its node pool, run by one thread: nodes are taken from a free
 list, reused, and the pool grows in place. A weak compare-and-swap may fail spuriously;
 which ones do is fixed by the field `weak`, an arbitrary finite sequence of outcomes.
 A node is identified by its index in the pool.
 */
module QueueCasPool {
  import opened Options

  datatype Node<T> = Node(elem: Option<T>, next: Option<nat>, version: nat)

  /** The nodes reached from p through next are exactly s, in order, ending in null. */
  ghost predicate IsList<T>(pool: seq<Node<T>>, p: Option<nat>, s: seq<nat>)
    decreases s
  {
    if s == [] then p == None
    else p == Some(s[0]) && s[0] < |pool| && IsList(pool, pool[s[0]].next, s[1..])
  }

  lemma {:induction false} ListFrame<T>(pool: seq<Node<T>>, pool': seq<Node<T>>, p: Option<nat>, s: seq<nat>)
    requires IsList(pool, p, s)
    requires forall x :: x in s && x < |pool| ==> x < |pool'| && pool'[x].next == pool[x].next
    ensures IsList(pool', p, s)
    decreases s
  {
    if s != [] {
      assert s[0] in s && forall x :: x in s[1..] ==> x in s;
      ListFrame(pool, pool', pool[s[0]].next, s[1..]);
    }
  }

  /** Linking a node behind the last one appends it. */
  lemma {:induction false} ListAppend<T>(pool: seq<Node<T>>, p: Option<nat>, s: seq<nat>, n: nat)
    requires IsList(pool, p, s) && s != [] && n < |pool| && n !in s && pool[n].next == None
    requires multiset(s)[s[|s| - 1]] == 1
    ensures s[|s| - 1] < |pool|
    ensures IsList(pool[s[|s| - 1] := pool[s[|s| - 1]].(next := Some(n))], p, s + [n])
    decreases s
  {
    var last := s[|s| - 1];
    ListInPool(pool, p, s);
    assert last in s;
    var pool' := pool[last := pool[last].(next := Some(n))];
    if |s| == 1 {
      assert (s + [n])[1..] == [n];
      assert IsList(pool', Some(n), [n]);
    } else {
      assert s == [s[0]] + s[1..];
      assert s[1..][|s| - 2] == last;
      assert last in s[1..];
      assert multiset(s) == multiset{s[0]} + multiset(s[1..]);
      ListAppend(pool, pool[s[0]].next, s[1..], n);
      assert (s + [n])[1..] == s[1..] + [n];
    }
  }

  lemma {:induction false} ListInPool<T>(pool: seq<Node<T>>, p: Option<nat>, s: seq<nat>)
    requires IsList(pool, p, s)
    ensures forall x :: x in s ==> x < |pool|
    decreases s
  {
    if s != [] {
      assert s == [s[0]] + s[1..];
      ListInPool(pool, pool[s[0]].next, s[1..]);
    }
  }

  lemma {:induction false} ListNext<T>(pool: seq<Node<T>>, p: Option<nat>, s: seq<nat>, i: nat)
    requires IsList(pool, p, s) && i < |s|
    ensures s[i] < |pool| && pool[s[i]].next == if i + 1 < |s| then Some(s[i + 1]) else None
    decreases s
  {
    if i > 0 { ListNext(pool, pool[s[0]].next, s[1..], i - 1); }
  }

  /** Every node is in exactly one of the three sequences, and in it once. */
  ghost predicate Partition(n: nat, free: seq<nat>, chain: seq<nat>, held: seq<nat>) {
    && (forall x :: x in free || x in chain || x in held ==> x < n)
    && forall x :: 0 <= x < n ==> multiset(free)[x] + multiset(chain)[x] + multiset(held)[x] == 1
  }

  lemma {:induction false} PartitionCounts(n: nat, m: multiset<nat>)
    requires forall x :: x in m ==> x < n
    requires forall x :: 0 <= x < n ==> m[x] == 1
    ensures |m| == n
    decreases n
  {
    if n == 0 {
      assert m == multiset{};
    } else {
      PartitionCounts(n - 1, m - multiset{n - 1});
    }
  }

  lemma NewNodeIsHeld(n: nat, free: seq<nat>, chain: seq<nat>)
    requires Partition(n, free, chain, [])
    ensures Partition(n + 1, free, chain, [n])
  {
    forall x | 0 <= x < n + 1 ensures multiset(free)[x] + multiset(chain)[x] + multiset([n])[x] == 1 {
      if x < n {
        assert multiset([n])[x] == 0;
        var none: seq<nat> := [];
        assert multiset(none)[x] == 0;
      } else {
        assert x !in free && x !in chain;
      }
    }
  }

  lemma HeldJoinsChain(n: nat, free: seq<nat>, chain: seq<nat>, x: nat)
    requires Partition(n, free, chain, [x])
    ensures Partition(n, free, chain + [x], [])
  {
    var none: seq<nat> := [];
    forall y | 0 <= y < n ensures multiset(free)[y] + multiset(chain + [x])[y] + multiset(none)[y] == 1 {
      assert multiset(chain + [x])[y] == multiset(chain)[y] + multiset([x])[y];
    }
  }

  /** The elements of the nodes s, in order. */
  function Elems<T>(pool: seq<Node<T>>, s: seq<nat>): seq<T>
    decreases s
  {
    if s == [] then []
    else (if s[0] < |pool| && pool[s[0]].elem.Some? then [pool[s[0]].elem.value] else []) + Elems(pool, s[1..])
  }

  lemma {:induction false} ElemsFrame<T>(pool: seq<Node<T>>, pool': seq<Node<T>>, s: seq<nat>)
    requires |pool| <= |pool'|
    requires forall x :: x in s ==> x < |pool| && pool'[x].elem == pool[x].elem
    ensures Elems(pool', s) == Elems(pool, s)
    decreases s
  {
    if s != [] {
      assert s[0] in s && forall x :: x in s[1..] ==> x in s;
      ElemsFrame(pool, pool', s[1..]);
    }
  }

  lemma {:induction false} ElemsAppend<T>(pool: seq<Node<T>>, s: seq<nat>, n: nat)
    requires n < |pool| && pool[n].elem.Some?
    ensures Elems(pool, s + [n]) == Elems(pool, s) + [pool[n].elem.value]
    decreases s
  {
    if s != [] {
      ElemsAppend(pool, s[1..], n);
      assert (s + [n])[1..] == s[1..] + [n];
    }
  }

  lemma {:induction false} ElemsCount<T>(pool: seq<Node<T>>, s: seq<nat>)
    requires forall i :: 0 <= i < |s| ==> s[i] < |pool| && pool[s[i]].elem.Some?
    ensures |Elems(pool, s)| == |s|
    decreases s
  {
    if s != [] { ElemsCount(pool, s[1..]); }
  }

  function CountTrue(s: seq<bool>): nat {
    if s == [] then 0 else (if s[0] then 1 else 0) + CountTrue(s[1..])
  }

  /** The free list leads over the nodes `free`; they, the chain and the nodes held make up
      the pool; free nodes hold no element. */
  ghost predicate PoolOk<T>(pool: seq<Node<T>>, freeList: Option<nat>, free: seq<nat>, chain: seq<nat>, held: seq<nat>) {
    && Partition(|pool|, free, chain, held)
    && IsList(pool, freeList, free)
    && forall x :: x in free && x < |pool| ==> pool[x].elem == None
  }

  ghost predicate Behind(tail: nat, chain: seq<nat>) {
    |chain| >= 2 && tail == chain[|chain| - 2]
  }

  /** The queue part: head starts the chain, tail is its last node or the one before. */
  ghost predicate ChainOk<T>(pool: seq<Node<T>>, head: nat, tail: nat, chain: seq<nat>) {
    && |chain| >= 1
    && IsList(pool, Some(head), chain)
    && (tail == chain[|chain| - 1] || Behind(tail, chain))
    && forall i :: 1 <= i < |chain| ==> chain[i] < |pool| && pool[chain[i]].elem.Some?
  }

  lemma LastOnce(s: seq<nat>)
    requires |s| >= 2 && multiset(s)[s[|s| - 1]] == 1
    ensures s[|s| - 2] != s[|s| - 1]
  {
    var n := |s|;
    assert s == s[..n - 2] + [s[n - 2]] + [s[n - 1]];
  }

  class QueueCas<T> {
    var pool: seq<Node<T>>
    var freeList: Option<nat>
    var head: nat
    var tail: nat
    var weak: seq<bool>       // outcomes of the coming weak CASes; true is a spurious failure
    ghost var free: seq<nat>  // the free list, top first
    ghost var chain: seq<nat> // the queue's nodes from head on

    /** The pool part: `held` are the nodes on their way between the two lists. */
    ghost predicate PoolInv(held: seq<nat>)
      reads this`pool, this`freeList, this`free, this`chain
    {
      PoolOk(pool, freeList, free, chain, held)
    }

    ghost predicate ChainInv()
      reads this`pool, this`head, this`tail, this`chain
    {
      ChainOk(pool, head, tail, chain)
    }

    ghost predicate Lags()
      reads this`tail, this`chain
    {
      Behind(tail, chain)
    }

    ghost predicate Valid()
      reads this
    {
      PoolInv([]) && ChainInv()
    }

    /** The queued elements, oldest first. */
    ghost function Contents(): seq<T>
      requires |chain| >= 1
      reads this`pool, this`chain
    {
      Elems(pool, chain[1..])
    }

    /** The free nodes, the queued elements and the dummy make up the pool. */
    lemma PoolIsAccounted()
      requires Valid()
      ensures |free| + |Contents()| + 1 == |pool|
      ensures forall x :: 0 <= x < |pool| ==> (x in free) != (x in chain)
    {
      forall x | 0 <= x < |pool| ensures (multiset(free) + multiset(chain))[x] == 1 {
        assert multiset(free)[x] + multiset(chain)[x] == 1;
      }
      var all := multiset(free) + multiset(chain);
      assert forall x :: x in all ==> x in free || x in chain;
      PartitionCounts(|pool|, all);
      ElemsCount(pool, chain[1..]);
      forall x | 0 <= x < |pool| ensures (x in free) != (x in chain) {
        assert multiset(free)[x] + multiset(chain)[x] == 1;
      }
    }

    /** The outcome of the next weak CAS whose comparison succeeds. */
    method FailsSpuriously() returns (fails: bool)
      modifies this`weak
      ensures if old(weak) == [] then !fails && weak == [] else fails == old(weak)[0] && weak == old(weak)[1..]
    {
      if weak == [] {
        fails := false;
      } else {
        fails := weak[0];
        weak := weak[1..];
      }
    }

    method PushFree(node: nat)
      requires PoolInv([node])
      requires node < |pool| && pool[node].elem == None
      modifies this`pool, this`freeList, this`weak, this`free
      ensures PoolInv([]) && free == [node] + old(free)
      ensures |pool| == |old(pool)| && forall x :: 0 <= x < |pool| && x != node ==> pool[x] == old(pool)[x]
      ensures |weak| <= |old(weak)| && CountTrue(weak) <= CountTrue(old(weak))
    {
      var oldHead := freeList;
      pool := pool[node := pool[node].(next := oldHead)];
      var fails := FailsSpuriously();
      while fails
        invariant |pool| == |old(pool)| && pool[node] == old(pool)[node].(next := freeList)
        invariant forall x :: 0 <= x < |pool| && x != node ==> pool[x] == old(pool)[x]
        invariant freeList == old(freeList) && free == old(free)
        invariant |weak| <= |old(weak)| && CountTrue(weak) <= CountTrue(old(weak))
        decreases |weak|, fails
      {
        oldHead := freeList;
        pool := pool[node := pool[node].(next := oldHead)];
        fails := FailsSpuriously();
      }
      assert multiset(free)[node] == 0 by { assert multiset([node])[node] == 1; }
      ListFrame(old(pool), pool, freeList, free);
      freeList := Some(node);
      free := [node] + free;
    }

    method PopFree() returns (node: Option<nat>)
      requires PoolInv([])
      modifies this`freeList, this`weak, this`free
      ensures node.None? <==> old(free) == []
      ensures node.None? ==> PoolInv([]) && free == old(free) && freeList == old(freeList)
      ensures node.Some? ==> PoolInv([node.value]) && old(free) == [node.value] + free
      ensures |weak| <= |old(weak)| && CountTrue(weak) <= CountTrue(old(weak))
    {
      var oldHead, newHead := freeList, None;
      var fails := true;
      while fails
        invariant freeList == old(freeList) && free == old(free) && oldHead == freeList
        invariant |weak| <= |old(weak)| && CountTrue(weak) <= CountTrue(old(weak))
        invariant !fails ==> oldHead.Some? && newHead == pool[oldHead.value].next
        decreases |weak|, fails
      {
        if oldHead == None {
          return None;
        }
        newHead := pool[oldHead.value].next;
        fails := FailsSpuriously();
      }
      freeList := newHead;
      free := free[1..];
      node := oldHead;
      assert old(free) == [node.value] + free;
    }

    /** Grows the pool to newSize nodes; each new node goes to the free list. */
    method Expand(newSize: nat)
      requires PoolInv([])
      modifies this`pool, this`freeList, this`weak, this`free
      ensures PoolInv([])
      ensures |pool| == if newSize <= |old(pool)| then |old(pool)| else newSize
      ensures forall x :: 0 <= x < |old(pool)| ==> pool[x] == old(pool)[x]
      ensures |free| == |old(free)| + |pool| - |old(pool)|
      ensures |weak| <= |old(weak)| && CountTrue(weak) <= CountTrue(old(weak))
    {
      if newSize <= |pool| {
        return;
      }
      while |pool| < newSize
        invariant |old(pool)| <= |pool| <= newSize
        invariant PoolInv([])
        invariant forall x :: 0 <= x < |old(pool)| ==> pool[x] == old(pool)[x]
        invariant |free| == |old(free)| + |pool| - |old(pool)|
        invariant |weak| <= |old(weak)| && CountTrue(weak) <= CountTrue(old(weak))
        decreases newSize - |pool|
      {
        AddNode();
      }
    }

    /** The body of expand's loop: a new node, pushed on the free list. */
    method AddNode()
      requires PoolInv([])
      modifies this`pool, this`freeList, this`weak, this`free
      ensures PoolInv([])
      ensures |pool| == |old(pool)| + 1 && |free| == |old(free)| + 1
      ensures forall x :: 0 <= x < |old(pool)| ==> pool[x] == old(pool)[x]
      ensures |weak| <= |old(weak)| && CountTrue(weak) <= CountTrue(old(weak))
    {
      var i := |pool|;
      ListInPool(pool, freeList, free);
      NewNodeIsHeld(i, free, chain);
      ListFrame(pool, pool + [Node(None, None, 0)], freeList, free);
      pool := pool + [Node(None, None, 0)];
      PushFree(i);
    }

    /** A node from the free list, rebuilt around `elem`; the pool doubles when it is empty. */
    method Allocate(elem: Option<T>) returns (node: nat)
      requires PoolInv([]) && |pool| >= 1
      modifies this`pool, this`freeList, this`weak, this`free
      ensures PoolInv([node]) && node < |pool|
      ensures pool[node] == Node(elem, None, 0)
      ensures |old(pool)| <= |pool| && (old(free) != [] ==> |pool| == |old(pool)|)
      ensures old(free) == [] ==> |pool| == 2 * |old(pool)|
      ensures forall x :: 0 <= x < |old(pool)| && x != node ==> pool[x] == old(pool)[x]
      ensures |weak| <= |old(weak)| && CountTrue(weak) <= CountTrue(old(weak))
    {
      var n := PopFree();
      if n.None? {
        n := PopFree();
        if n.None? {
          Expand(|pool| * 2);
          n := PopFree();
        }
      }
      node := n.value;
      assert multiset([node])[node] == 1;
      ListFrame(pool, pool[node := Node(elem, None, 0)], freeList, free);
      pool := pool[node := Node(elem, None, 0)];
    }

    /** Rebuilds the node without an element and puts it on the free list. */
    method Deallocate(node: nat)
      requires PoolInv([node]) && node < |pool|
      modifies this`pool, this`freeList, this`weak, this`free
      ensures PoolInv([]) && free == [node] + old(free)
      ensures |pool| == |old(pool)| && forall x :: 0 <= x < |pool| && x != node ==> pool[x] == old(pool)[x]
      ensures |weak| <= |old(weak)| && CountTrue(weak) <= CountTrue(old(weak))
    {
      assert multiset([node])[node] == 1;
      pool := pool[node := pool[node].(version := pool[node].version + 1)];
      ListFrame(old(pool), pool, freeList, free);
      ghost var was := pool;
      pool := pool[node := Node(None, None, 0)];
      ListFrame(was, pool, freeList, free);
      PushFree(node);
    }

    constructor (weak: seq<bool>)
      ensures Valid() && Contents() == [] && |pool| == 1024
    {
      this.pool, freeList, head, tail := [], None, 0, 0;
      this.weak := weak;
      free, chain := [], [];
      new;
      Expand(1024);
      var dummy := Allocate(None);
      head := dummy;
      tail := dummy;
      chain := [dummy];
      assert multiset(chain) == multiset([dummy]);
    }

    lemma TailNext(held: seq<nat>)
      requires PoolInv(held) && ChainInv()
      ensures tail < |pool| && tail in chain
      ensures pool[tail].next == if Lags() then Some(chain[|chain| - 1]) else None
      ensures |chain| >= 2 ==> chain[|chain| - 2] != chain[|chain| - 1]
    {
      var n := |chain|;
      ListInPool(pool, Some(head), chain);
      ListNext(pool, Some(head), chain, n - 1);
      if n >= 2 {
        Apart(held, chain[n - 1]);
        LastOnce(chain);
        ListNext(pool, Some(head), chain, n - 2);
      }
    }

    lemma HeadNext()
      requires ChainInv()
      ensures head == chain[0] < |pool|
      ensures pool[head].next == if |chain| >= 2 then Some(chain[1]) else None
    {
      ListNext(pool, Some(head), chain, 0);
    }

    /** Where head and tail stand: together, tail behind and one node queued, or apart. */
    lemma Ends()
      requires Valid()
      ensures head == chain[0] < |pool|
      ensures pool[head].next == if |chain| >= 2 then Some(chain[1]) else None
      ensures head == tail <==> |chain| == 1 || (|chain| == 2 && Lags())
      ensures |chain| >= 2 ==> chain[1] < |pool| && pool[chain[1]].elem.Some?
      ensures Lags() ==> tail != chain[|chain| - 1]
    {
      HeadNext();
      TailNext([]);
      if |chain| > 2 || (|chain| == 2 && !Lags()) {
        Apart([], head);
        assert chain == [head] + chain[1..];
        assert tail in chain[1..];
      }
    }

    /** A node of one list is in no other. */
    lemma Apart(held: seq<nat>, n: nat)
      requires Partition(|pool|, free, chain, held) && n < |pool|
      ensures n in held ==> n !in chain && n !in free
      ensures n in chain ==> n !in free && n !in held && multiset(chain)[n] == 1
    {
      assert multiset(free)[n] + multiset(chain)[n] + multiset(held)[n] == 1;
    }

    /** Taking a node leaves the queue as it is. */
    method AllocateBesideQueue(elem: T) returns (node: nat)
      requires Valid()
      modifies this`pool, this`freeList, this`weak, this`free
      ensures PoolInv([node]) && ChainInv() && Contents() == old(Contents())
      ensures node < |pool| && pool[node] == Node(Some(elem), None, 0)
      ensures |pool| == if old(free) == [] then 2 * |old(pool)| else |old(pool)|
    {
      HeadNext();
      node := Allocate(Some(elem));
      Apart([node], node);
      ListInPool(old(pool), Some(head), chain);
      ListFrame(old(pool), pool, Some(head), chain);
      ElemsFrame(old(pool), pool, chain[1..]);
    }

    /** The successful CAS on old_tail->next. */
    method LinkNew(newNode: nat, oldTail: nat)
      requires PoolInv([newNode]) && ChainInv() && oldTail == tail == chain[|chain| - 1]
      requires newNode < |pool| && pool[newNode].next == None && pool[newNode].elem.Some?
      modifies this`pool, this`chain
      ensures |pool| == |old(pool)| && pool[newNode] == old(pool)[newNode]
      ensures PoolInv([]) && ChainInv() && Lags() && chain == old(chain) + [newNode]
      ensures Contents() == old(Contents()) + [pool[newNode].elem.value]
    {
      LinkedPool(newNode, oldTail);
      Apart([newNode], newNode);
      Apart([newNode], oldTail);
      LinkedChain(newNode, oldTail);
      LinkedElems(newNode, oldTail);
      pool := pool[oldTail := pool[oldTail].(next := Some(newNode))];
      chain := chain + [newNode];
    }

    lemma LinkedPool(n: nat, t: nat)
      requires PoolInv([n]) && ChainInv() && t == tail == chain[|chain| - 1] && n < |pool|
      ensures t < |pool| && t != n && t !in free
      ensures PoolOk(pool[t := pool[t].(next := Some(n))], freeList, free, chain + [n], [])
    {
      TailNext([n]);
      Apart([n], t);
      Apart([n], n);
      ListFrame(pool, pool[t := pool[t].(next := Some(n))], freeList, free);
      HeldJoinsChain(|pool|, free, chain, n);
    }

    lemma LinkedChain(n: nat, t: nat)
      requires ChainInv() && t == tail == chain[|chain| - 1] && t < |pool| && t != n && n !in chain
      requires n < |pool| && pool[n].next == None && pool[n].elem.Some? && multiset(chain)[t] == 1
      ensures var pool' := pool[t := pool[t].(next := Some(n))];
              ChainOk(pool', head, t, chain + [n]) && Behind(t, chain + [n])
    {
      ListAppend(pool, Some(head), chain, n);
    }

    lemma LinkedElems(n: nat, t: nat)
      requires ChainInv() && t < |pool| && n < |pool| && pool[n].elem.Some?
      ensures Elems(pool[t := pool[t].(next := Some(n))], (chain + [n])[1..]) == Elems(pool, chain[1..]) + [pool[n].elem.value]
    {
      var pool' := pool[t := pool[t].(next := Some(n))];
      assert (chain + [n])[1..] == chain[1..] + [n];
      assert forall x :: x in chain[1..] ==> x in chain;
      ListInPool(pool, Some(head), chain);
      ElemsFrame(pool, pool', chain[1..]);
      ElemsAppend(pool', chain[1..], n);
    }

    /** The loop of enqueue up to the CAS on next that succeeds; it moves a lagging tail. */
    method FindLast(newNode: nat) returns (oldTail: nat)
      requires PoolInv([newNode]) && ChainInv()
      modifies this`tail, this`weak
      ensures oldTail == tail == chain[|chain| - 1]
    {
      while true
        invariant tail == chain[|chain| - 1] || Lags()
        decreases |weak|, Lags()
      {
        TailNext([newNode]);
        oldTail := tail;
        var oldVersion := pool[oldTail].version;
        var next := pool[oldTail].next;
        if tail != oldTail || pool[oldTail].version != oldVersion {
          assert false; // nobody else runs
        }
        var fails := FailsSpuriously();
        if next == None {
          if !fails {
            return;
          }
        } else if !fails {
          tail := next.value;
        }
      }
    }

    method Enqueue(elem: T) returns (ok: bool)
      requires Valid()
      modifies this
      ensures Valid() && ok
      ensures Contents() == old(Contents()) + [elem]
      ensures |pool| == if old(free) == [] then 2 * |old(pool)| else |old(pool)|
    {
      var newNode := AllocateBesideQueue(elem);
      var oldTail := FindLast(newNode);
      LinkNew(newNode, oldTail);
      SwingTail(newNode);
      ok := true;
    }

    /** The last CAS of enqueue, whose failure is ignored. */
    method SwingTail(newNode: nat)
      requires ChainInv() && Lags() && newNode == chain[|chain| - 1]
      modifies this`tail, this`weak
      ensures ChainInv()
    {
      var fails := FailsSpuriously();
      if !fails {
        tail := newNode;
      }
    }

    /** Moves the element out of the new dummy; the moved-from element stays initialized. */
    method TakeFirst(oldHead: nat, next: nat, movedFrom: T) returns (result: T)
      requires PoolInv([]) && ChainInv() && |chain| >= 2 && tail != head
      requires oldHead == head && next == chain[1]
      modifies this`pool, this`head, this`chain
      ensures PoolInv([oldHead]) && ChainInv() && oldHead < |pool|
      ensures old(Contents()) == [result] + Contents() && |pool| == |old(pool)|
      ensures (chain == old(chain)[1..]) && (Lags() ==> old(Lags()))
    {
      Unchained();
      TakenFirst(movedFrom);
      head := next;
      result := pool[next].elem.value;
      pool := pool[next := pool[next].(elem := Some(movedFrom))];
      chain := chain[1..];
      assert chain[1..] == old(chain)[2..];
    }

    lemma TakenFirst(movedFrom: T)
      requires PoolInv([]) && ChainInv() && |chain| >= 2 && tail != head
      ensures chain[1] < |pool| && pool[chain[1]].elem.Some?
      ensures var next := chain[1];
              var pool' := pool[next := pool[next].(elem := Some(movedFrom))];
              && ChainOk(pool', next, tail, chain[1..]) && PoolOk(pool', freeList, free, chain[1..], [head])
              && Elems(pool, chain[1..]) == [pool[next].elem.value] + Elems(pool', chain[2..])
    {
      Unchained();
      var next := chain[1];
      var pool' := pool[next := pool[next].(elem := Some(movedFrom))];
      ListFrame(pool, pool', freeList, free);
      ListFrame(pool, pool', Some(next), chain[1..]);
      ElemsFrame(pool, pool', chain[2..]);
      assert chain[1..][1..] == chain[2..];
    }

    lemma Unchained()
      requires PoolInv([]) && ChainInv() && |chain| >= 2
      ensures Partition(|pool|, free, chain[1..], [head])
      ensures chain[1] !in free && chain[1] !in chain[2..] && head < |pool|
      ensures chain[1] < |pool| && IsList(pool, Some(chain[1]), chain[1..])
      ensures forall x :: x in chain[2..] ==> x < |pool|
    {
      HeadNext();
      ListInPool(pool, Some(head), chain);
      assert chain == [head] + chain[1..] && chain[1..] == [chain[1]] + chain[2..];
      var none: seq<nat> := [];
      forall y | 0 <= y < |pool| ensures multiset(free)[y] + multiset(chain[1..])[y] + multiset([head])[y] == 1 {
        assert multiset(free)[y] + multiset(chain)[y] + multiset(none)[y] == 1;
        assert multiset(chain)[y] == multiset([head])[y] + multiset(chain[1..])[y];
      }
      Apart([], chain[1]);
      assert multiset(chain)[chain[1]] == multiset([head])[chain[1]] + multiset([chain[1]])[chain[1]] + multiset(chain[2..])[chain[1]];
    }

    /** On success the oldest element leaves; on failure nothing changes. The false of
        line 212 means empty. With enough attempts for a lagging tail and for every spurious
        failure still to come, failure means empty. */
    method TryDequeue(maxAttempts: int, movedFrom: T) returns (result: Option<T>, sawEmpty: bool)
      requires Valid()
      modifies this
      ensures Valid() && |pool| == |old(pool)|
      ensures result.Some? ==> old(Contents()) == [result.value] + Contents()
      ensures result.None? ==> Contents() == old(Contents())
      ensures sawEmpty ==> result.None? && old(Contents()) == []
      ensures maxAttempts >= 2 + CountTrue(old(weak)) ==> (result.None? <==> old(Contents()) == [])
    {
      result, sawEmpty := None, false;
      var i, moved := 0, None; // moved: the node head was moved to
      while i < maxAttempts
        modifies this`tail, this`weak
        invariant moved == None && (tail == chain[|chain| - 1] || Lags())
        invariant CountTrue(weak) <= CountTrue(old(weak))
        invariant i + CountTrue(weak) + (if Lags() then 1 else 0) <= CountTrue(old(weak)) + 1
        decreases maxAttempts - i
      {
        Ends();
        var oldHead := head;
        var oldVersion := pool[oldHead].version;
        var oldTail := tail;
        var next := pool[oldHead].next;
        if head != oldHead || pool[oldHead].version != oldVersion {
          assert false; // nobody else runs
        }
        if oldHead == oldTail {
          if next == None {
            return None, true;
          }
          var fails := FailsSpuriously();
          if !fails {
            tail := next.value;
          }
        } else {
          if next == None || pool[next.value].elem.None? {
            assert false; // head is before tail
          }
          var fails := FailsSpuriously();
          if !fails {
            moved := next;
            break;
          }
        }
        i := i + 1;
      }
      if moved.Some? {
        var r := FinishDequeue(moved.value, movedFrom);
        result := Some(r);
      }
    }

    /** Behind the CAS on head that succeeded: the element is moved out and the old dummy
        given back. */
    method FinishDequeue(next: nat, movedFrom: T) returns (result: T)
      requires Valid() && |chain| >= 2 && tail != head && next == chain[1]
      modifies this
      ensures Valid() && |pool| == |old(pool)|
      ensures old(Contents()) == [result] + Contents()
    {
      HeadNext();
      var oldHead := head;
      result := TakeFirst(oldHead, next, movedFrom);
      DeallocateBesideQueue(oldHead);
    }

    /** Giving a node back leaves the queue as it is. */
    method DeallocateBesideQueue(node: nat)
      requires PoolInv([node]) && ChainInv() && node < |pool|
      modifies this`pool, this`freeList, this`weak, this`free
      ensures Valid() && Contents() == old(Contents()) && |pool| == |old(pool)|
    {
      Apart([node], node);
      ListInPool(pool, Some(head), chain);
      Deallocate(node);
      ListFrame(old(pool), pool, Some(head), chain);
      ElemsFrame(old(pool), pool, chain[1..]);
    }
  }
}
