/**
 The lock-free queue as a step machine: any number of threads, one step per atomic
 load, store or compare-and-swap, steps interleaved in any order over sequentially
 consistent memory, and every weak compare-and-swap free to fail spuriously.

 `allocate` hands out a node that was never used before and `deallocate` does nothing:
 reuse of nodes is the subject of module QueueCasPool.
 */
module QueueCas {
  import opened Options

  type Ptr = nat
  type Tid = nat

  /** `elem` is None exactly when the source's `elem_initialized` is false. */
  datatype Node<T> = Node(elem: Option<T>, next: Option<Ptr>, version: nat)

  /** What happened so far. No branch of the algorithm reads it. */
  datatype History<T> = History(
    chain: seq<Ptr>,       // nodes in the order they were linked, the first dummy first
    hi: nat,               // successful CASes on head
    ti: nat,               // successful CASes on tail
    enq: seq<T>,           // arguments of enqueue in the order of the linking CASes
    remover: seq<Tid>,     // remover[k] made the k-th successful CAS on head
    returned: map<nat, T>, // element number -> value the caller received
    maker: seq<Tid>)       // maker[p] allocated node p

  datatype Shared<T> = Shared(nodes: seq<Node<T>>, head: Ptr, tail: Ptr, hist: History<T>)

  datatype Outcome<T> =
    | Enqueued(x: T)   // enqueue returned true
    | NotEnqueued      // enqueue returned false: no node
    | Dequeued(x: T)   // try_dequeue returned true
    | SawEmpty         // try_dequeue returned false at line 212
    | GaveUp           // try_dequeue returned false at line 234

  /** Program counter and locals of a thread: n is new_node, t is old_tail, h is old_head. */
  datatype Pc<T> =
    | Idle
    | EnqAllocate(x: T)
    | EnqLoadTail(x: T, n: Ptr)
    | EnqLoadVersion(x: T, n: Ptr, t: Ptr)
    | EnqLoadNext(x: T, n: Ptr, t: Ptr, v: nat)
    | EnqRecheckTail(x: T, n: Ptr, t: Ptr, v: nat, nx: Option<Ptr>)
    | EnqRecheckVersion(x: T, n: Ptr, t: Ptr, v: nat, nx: Option<Ptr>)
    | EnqCasNext(x: T, n: Ptr, t: Ptr)
    | EnqHelpTail(x: T, n: Ptr, t: Ptr, m: Ptr)
    | EnqSwingTail(x: T, n: Ptr, t: Ptr)
    | DeqFor(i: int, max: int)
    | DeqLoadHead(i: int, max: int)
    | DeqLoadVersion(i: int, max: int, h: Ptr)
    | DeqLoadTail(i: int, max: int, h: Ptr, v: nat)
    | DeqLoadNext(i: int, max: int, h: Ptr, v: nat, t: Ptr)
    | DeqRecheckHead(i: int, max: int, h: Ptr, v: nat, t: Ptr, nx: Option<Ptr>)
    | DeqRecheckVersion(i: int, max: int, h: Ptr, v: nat, t: Ptr, nx: Option<Ptr>)
    | DeqHelpTail(i: int, max: int, t: Ptr, m: Ptr)
    | DeqCheckInit(i: int, max: int, h: Ptr, m: Ptr)
    | DeqCasHead(i: int, max: int, h: Ptr, m: Ptr)
    | DeqTake(m: Ptr, pos: nat) // pos: how many elements had been removed before this one
    | Done(out: Outcome<T>)

  datatype State<T> = State(sh: Shared<T>, threads: seq<Pc<T>>)

  datatype Call<T> = CallEnqueue(x: T) | CallTryDequeue(max: int)

  /** What the environment decides: the next call, a spurious failure, a failed
      allocation, and what is left in an element that was moved from. */
  datatype Choice<T> = Choice(call: Call<T>, spurious: bool, allocFails: bool, movedFrom: T)

  datatype Label<T> = Label(tid: Tid, c: Choice<T>)

  ghost predicate Init<T>(s: State<T>) {
    && s.sh == Shared([Node(None, None, 0)], 0, 0, History([0], 0, 0, [], [], map[], [0]))
    && forall t :: 0 <= t < |s.threads| ==> s.threads[t].Idle?
  }

  /** The pointer the next step of a thread dereferences points to a node. */
  predicate Safe<T>(sh: Shared<T>, pc: Pc<T>) {
    match pc
    case EnqLoadVersion(_, _, t) => t < |sh.nodes|
    case EnqLoadNext(_, _, t, _) => t < |sh.nodes|
    case EnqRecheckVersion(_, _, t, _, _) => t < |sh.nodes|
    case EnqCasNext(_, _, t) => t < |sh.nodes|
    case DeqLoadVersion(_, _, h) => h < |sh.nodes|
    case DeqLoadNext(_, _, h, _, _) => h < |sh.nodes|
    case DeqRecheckVersion(_, _, h, _, _, _) => h < |sh.nodes|
    case DeqCheckInit(_, _, _, m) => m < |sh.nodes|
    case DeqTake(m, _) => m < |sh.nodes| && sh.nodes[m].elem.Some?
    case _ => true
  }

  /** tail.compare_exchange_weak(expected, desired) */
  function CasTail<T>(sh: Shared<T>, expected: Ptr, desired: Ptr, spurious: bool): Shared<T> {
    if !spurious && sh.tail == expected
    then sh.(tail := desired, hist := sh.hist.(ti := sh.hist.ti + 1))
    else sh
  }

  function Allocate<T>(sh: Shared<T>, tid: Tid, x: T): Shared<T> {
    sh.(nodes := sh.nodes + [Node(Some(x), None, 0)], hist := sh.hist.(maker := sh.hist.maker + [tid]))
  }

  /** The successful old_tail->next CAS. */
  function Link<T>(sh: Shared<T>, x: T, n: Ptr, t: Ptr): Shared<T>
    requires t < |sh.nodes|
  {
    sh.(nodes := sh.nodes[t := sh.nodes[t].(next := Some(n))],
        hist := sh.hist.(chain := sh.hist.chain + [n], enq := sh.hist.enq + [x]))
  }

  /** The successful CAS on head. */
  function MoveHead<T>(sh: Shared<T>, tid: Tid, m: Ptr): Shared<T> {
    sh.(head := m, hist := sh.hist.(hi := sh.hist.hi + 1, remover := sh.hist.remover + [tid]))
  }

  /** result = std::move(next->elem) */
  function TakeElem<T>(sh: Shared<T>, m: Ptr, pos: nat, movedFrom: T): Shared<T>
    requires m < |sh.nodes| && sh.nodes[m].elem.Some?
  {
    sh.(nodes := sh.nodes[m := sh.nodes[m].(elem := Some(movedFrom))],
        hist := sh.hist.(returned := sh.hist.returned[pos := sh.nodes[m].elem.value]))
  }

  /** One step of a thread: the new shared memory and the thread's new program counter. */
  function Step<T>(sh: Shared<T>, tid: Tid, pc: Pc<T>, c: Choice<T>): (Shared<T>, Pc<T>)
    requires Safe(sh, pc)
  {
    match pc
    case Idle =>
      (match c.call
       case CallEnqueue(x) => (sh, EnqAllocate(x))
       case CallTryDequeue(max) => (sh, DeqFor(0, max)))
    case Done(_) => (sh, Idle)
    case EnqAllocate(x) =>
      if c.allocFails then (sh, Done(NotEnqueued))
      else (Allocate(sh, tid, x), EnqLoadTail(x, |sh.nodes|))
    case EnqLoadTail(x, n) => (sh, EnqLoadVersion(x, n, sh.tail))
    case EnqLoadVersion(x, n, t) => (sh, EnqLoadNext(x, n, t, sh.nodes[t].version))
    case EnqLoadNext(x, n, t, v) => (sh, EnqRecheckTail(x, n, t, v, sh.nodes[t].next))
    case EnqRecheckTail(x, n, t, v, nx) =>
      if sh.tail != t then (sh, EnqLoadTail(x, n)) else (sh, EnqRecheckVersion(x, n, t, v, nx))
    case EnqRecheckVersion(x, n, t, v, nx) =>
      if sh.nodes[t].version != v then (sh, EnqLoadTail(x, n))
      else if nx.None? then (sh, EnqCasNext(x, n, t))
      else (sh, EnqHelpTail(x, n, t, nx.value))
    case EnqCasNext(x, n, t) =>
      if !c.spurious && sh.nodes[t].next.None? then (Link(sh, x, n, t), EnqSwingTail(x, n, t))
      else (sh, EnqLoadTail(x, n))
    case EnqHelpTail(x, n, t, m) => (CasTail(sh, t, m, c.spurious), EnqLoadTail(x, n))
    case EnqSwingTail(x, n, t) => (CasTail(sh, t, n, c.spurious), Done(Enqueued(x)))
    case DeqFor(i, max) => if i < max then (sh, DeqLoadHead(i, max)) else (sh, Done(GaveUp))
    case DeqLoadHead(i, max) => (sh, DeqLoadVersion(i, max, sh.head))
    case DeqLoadVersion(i, max, h) => (sh, DeqLoadTail(i, max, h, sh.nodes[h].version))
    case DeqLoadTail(i, max, h, v) => (sh, DeqLoadNext(i, max, h, v, sh.tail))
    case DeqLoadNext(i, max, h, v, t) => (sh, DeqRecheckHead(i, max, h, v, t, sh.nodes[h].next))
    case DeqRecheckHead(i, max, h, v, t, nx) =>
      if sh.head != h then (sh, DeqFor(i + 1, max)) else (sh, DeqRecheckVersion(i, max, h, v, t, nx))
    case DeqRecheckVersion(i, max, h, v, t, nx) =>
      if sh.nodes[h].version != v then (sh, DeqFor(i + 1, max))
      else if h == t then
        if nx.None? then (sh, Done(SawEmpty)) else (sh, DeqHelpTail(i, max, t, nx.value))
      else if nx.None? then (sh, DeqFor(i + 1, max))
      else (sh, DeqCheckInit(i, max, h, nx.value))
    case DeqHelpTail(i, max, t, m) => (CasTail(sh, t, m, c.spurious), DeqFor(i + 1, max))
    case DeqCheckInit(i, max, h, m) =>
      if sh.nodes[m].elem.None? then (sh, DeqFor(i + 1, max)) else (sh, DeqCasHead(i, max, h, m))
    case DeqCasHead(i, max, h, m) =>
      if !c.spurious && sh.head == h then (MoveHead(sh, tid, m), DeqTake(m, sh.hist.hi))
      else (sh, DeqFor(i + 1, max))
    case DeqTake(m, pos) =>
      (TakeElem(sh, m, pos, c.movedFrom), Done(Dequeued(sh.nodes[m].elem.value)))
  }

  predicate Enabled<T>(s: State<T>, l: Label<T>) {
    l.tid < |s.threads| && Safe(s.sh, s.threads[l.tid])
  }

  function Do<T>(s: State<T>, l: Label<T>): State<T>
    requires Enabled(s, l)
  {
    var (sh', pc') := Step(s.sh, l.tid, s.threads[l.tid], l.c);
    State(sh', s.threads[l.tid := pc'])
  }

  ghost predicate StepAt<T(!new)>(run: seq<State<T>>, labels: seq<Label<T>>, k: nat) {
    k + 1 < |run| && k < |labels| && Enabled(run[k], labels[k]) && run[k + 1] == Do(run[k], labels[k])
  }

  /** A run: every state after the first is one step of one thread away from the one before. */
  ghost predicate Run<T(!new)>(run: seq<State<T>>, labels: seq<Label<T>>) {
    && |run| == |labels| + 1
    && Init(run[0])
    && forall k :: 0 <= k < |labels| ==> StepAt(run, labels, k)
  }

  // ----- the specification: a FIFO queue -----

  datatype Op<T> = Tau | Enq(x: T) | Deq(x: T)

  /** What a step does to the queue, read off the code: the linking CAS adds the caller's
      argument, the CAS on head removes the element in the node that becomes the dummy. */
  function Effect<T>(s: State<T>, l: Label<T>): Op<T>
    requires Enabled(s, l)
  {
    match s.threads[l.tid]
    case EnqCasNext(x, _, t) => if !l.c.spurious && s.sh.nodes[t].next.None? then Enq(x) else Tau
    case DeqCasHead(_, _, h, m) =>
      if !l.c.spurious && s.sh.head == h && m < |s.sh.nodes| && s.sh.nodes[m].elem.Some?
      then Deq(s.sh.nodes[m].elem.value)
      else Tau
    case _ => Tau
  }

  ghost predicate FifoStep<T>(q: seq<T>, op: Op<T>, q': seq<T>) {
    match op
    case Tau => q' == q
    case Enq(x) => q' == q + [x]
    case Deq(x) => q == [x] + q'
  }

  /** The elements `dump` prints: the initialized ones reached through next. */
  function Walk<T>(nodes: seq<Node<T>>, p: Option<Ptr>, fuel: nat): seq<T>
    decreases fuel
  {
    if fuel == 0 || p.None? || p.value >= |nodes| then []
    else
      (if nodes[p.value].elem.Some? then [nodes[p.value].elem.value] else []) +
      Walk(nodes, nodes[p.value].next, fuel - 1)
  }

  /** The contents of the queue, read from memory alone. */
  function Contents<T>(sh: Shared<T>): seq<T> {
    if sh.head < |sh.nodes| then Walk(sh.nodes, sh.nodes[sh.head].next, |sh.nodes|) else []
  }

  // ----- the invariant -----

  /** The i-th linked node points to the next one, the last to nothing. */
  ghost predicate LinkAt<T>(sh: Shared<T>, i: nat)
    requires i < |sh.hist.chain|
  {
    && sh.hist.chain[i] < |sh.nodes|
    && sh.nodes[sh.hist.chain[i]].next == if i + 1 < |sh.hist.chain| then Some(sh.hist.chain[i + 1]) else None
  }

  ghost predicate Shape<T(!new)>(sh: Shared<T>) {
    var h := sh.hist;
    && h.hi <= h.ti < |h.chain| <= h.ti + 2
    && |h.enq| == |h.chain| - 1 && |h.remover| == h.hi && |h.maker| == |sh.nodes|
    && (forall i :: 0 <= i < |h.chain| ==> h.chain[i] < |sh.nodes|)
    && (forall i, j :: 0 <= i < j < |h.chain| ==> h.chain[i] != h.chain[j])
    && sh.head == h.chain[h.hi] && sh.tail == h.chain[h.ti]
    && (forall i :: 0 <= i < |h.chain| ==> LinkAt(sh, i))
    && (forall i :: 1 <= i < |h.chain| ==> sh.nodes[h.chain[i]].elem.Some?)
    && (forall i :: h.hi < i < |h.chain| ==> sh.nodes[h.chain[i]].elem == Some(h.enq[i - 1]))
    && (forall k :: k in h.returned ==> k < h.hi && h.returned[k] == h.enq[k])
  }

  /** p is one of the first k+1 linked nodes. */
  ghost predicate Linked<T(!new)>(h: History<T>, p: Ptr, k: int) {
    exists i :: 0 <= i <= k && i < |h.chain| && h.chain[i] == p
  }

  /** p is linked before the node q, or is q, and both are at most tail. */
  ghost predicate InOrder<T(!new)>(h: History<T>, p: Ptr, q: Ptr) {
    exists i, j :: 0 <= i <= j <= h.ti && j < |h.chain| && i <= h.hi && h.chain[i] == p && h.chain[j] == q
  }

  /** n was allocated by tid, which has not linked it yet. */
  ghost predicate Private<T(!new)>(sh: Shared<T>, tid: Tid, n: Ptr, x: T) {
    && n < |sh.nodes| && n < |sh.hist.maker| && sh.hist.maker[n] == tid
    && sh.nodes[n].next == None && sh.nodes[n].elem == Some(x)
    && n !in sh.hist.chain
  }

  ghost predicate NextIs<T>(sh: Shared<T>, p: Ptr, m: Ptr) {
    p < |sh.nodes| && sh.nodes[p].next == Some(m)
  }

  ghost predicate Taking<T>(sh: Shared<T>, tid: Tid, m: Ptr, pos: nat) {
    var h := sh.hist;
    && pos < h.hi && pos < |h.remover| && h.remover[pos] == tid && pos !in h.returned
    && pos + 1 < |h.chain| && h.chain[pos + 1] == m && pos < |h.enq|
    && m < |sh.nodes| && sh.nodes[m].elem == Some(h.enq[pos])
  }

  /** What thread tid may rely on at each program counter. */
  ghost predicate Local<T(!new)>(sh: Shared<T>, tid: Tid, pc: Pc<T>) {
    var h := sh.hist;
    match pc
    case Idle => true
    case Done(_) => true
    case EnqAllocate(_) => true
    case EnqLoadTail(x, n) => Private(sh, tid, n, x)
    case EnqLoadVersion(x, n, t) => Private(sh, tid, n, x) && Linked(h, t, h.ti)
    case EnqLoadNext(x, n, t, _) => Private(sh, tid, n, x) && Linked(h, t, h.ti)
    case EnqRecheckTail(x, n, t, _, nx) =>
      Private(sh, tid, n, x) && Linked(h, t, h.ti) && (nx.Some? ==> NextIs(sh, t, nx.value))
    case EnqRecheckVersion(x, n, t, _, nx) =>
      Private(sh, tid, n, x) && Linked(h, t, h.ti) && (nx.Some? ==> NextIs(sh, t, nx.value))
    case EnqCasNext(x, n, t) => Private(sh, tid, n, x) && Linked(h, t, h.ti)
    case EnqHelpTail(x, n, t, m) => Private(sh, tid, n, x) && Linked(h, t, h.ti) && NextIs(sh, t, m)
    case EnqSwingTail(x, n, t) => Linked(h, t, h.ti) && NextIs(sh, t, n)
    case DeqFor(_, _) => true
    case DeqLoadHead(_, _) => true
    case DeqLoadVersion(_, _, p) => Linked(h, p, h.hi)
    case DeqLoadTail(_, _, p, _) => Linked(h, p, h.hi)
    case DeqLoadNext(_, _, p, _, t) => InOrder(h, p, t)
    case DeqRecheckHead(_, _, p, _, t, nx) => InOrder(h, p, t) && (nx.Some? ==> NextIs(sh, p, nx.value))
    case DeqRecheckVersion(_, _, p, _, t, nx) => InOrder(h, p, t) && (nx.Some? ==> NextIs(sh, p, nx.value))
    case DeqHelpTail(_, _, t, m) => Linked(h, t, h.ti) && NextIs(sh, t, m)
    case DeqCheckInit(_, _, p, m) => Linked(h, p, h.hi) && Linked(h, p, h.ti - 1) && NextIs(sh, p, m)
    case DeqCasHead(_, _, p, m) => Linked(h, p, h.hi) && Linked(h, p, h.ti - 1) && NextIs(sh, p, m)
    case DeqTake(m, pos) => Taking(sh, tid, m, pos)
  }

  /** Every removed element was returned, or its remover is about to move it out. */
  ghost predicate Accounted<T(!new)>(s: State<T>) {
    var h := s.sh.hist;
    forall k :: 0 <= k < h.hi && k < |h.remover| && k !in h.returned ==>
                  && h.remover[k] < |s.threads|
                  && s.threads[h.remover[k]].DeqTake? && s.threads[h.remover[k]].pos == k
  }

  ghost predicate Inv<T(!new)>(s: State<T>) {
    && Shape(s.sh)
    && (forall t :: 0 <= t < |s.threads| ==> Local(s.sh, t, s.threads[t]))
    && Accounted(s)
  }

  // ----- what a step of another thread keeps -----

  /** What every step of the other threads guarantees to thread `me`. */
  ghost predicate Rely<T(!new)>(sh: Shared<T>, sh': Shared<T>, me: Tid) {
    var h, h' := sh.hist, sh'.hist;
    && h.chain <= h'.chain && h.enq <= h'.enq && h.remover <= h'.remover && h.maker <= h'.maker
    && h.hi <= h'.hi && h.ti <= h'.ti && |sh.nodes| <= |sh'.nodes|
    && (forall p :: 0 <= p < |sh.nodes| && sh.nodes[p].next.Some? ==> sh'.nodes[p].next == sh.nodes[p].next)
    && (forall p :: 0 <= p < |sh.nodes| && p < |h.maker| && h.maker[p] == me && p !in h.chain ==>
                      p !in h'.chain && sh'.nodes[p] == sh.nodes[p])
    && (forall k :: 0 <= k < h.hi && k < |h.remover| && h.remover[k] == me && k !in h.returned
                    && k + 1 < |h.chain| && h.chain[k + 1] < |sh.nodes| ==>
                      k !in h'.returned && sh'.nodes[h.chain[k + 1]].elem == sh.nodes[h.chain[k + 1]].elem)
  }

  lemma LinkedKept<T(!new)>(h: History<T>, h': History<T>, p: Ptr, k: int, k': int)
    requires Linked(h, p, k) && h.chain <= h'.chain && k <= k'
    ensures Linked(h', p, k')
  {
    var i :| 0 <= i <= k && i < |h.chain| && h.chain[i] == p;
    assert h'.chain[i] == p;
  }

  lemma InOrderKept<T(!new)>(h: History<T>, h': History<T>, p: Ptr, q: Ptr)
    requires InOrder(h, p, q) && h.chain <= h'.chain && h.hi <= h'.hi && h.ti <= h'.ti
    ensures InOrder(h', p, q)
  {
    var i, j :| 0 <= i <= j <= h.ti && j < |h.chain| && i <= h.hi && h.chain[i] == p && h.chain[j] == q;
    assert h'.chain[i] == p && h'.chain[j] == q;
  }

  lemma LocalStable<T(!new)>(sh: Shared<T>, sh': Shared<T>, me: Tid, pc: Pc<T>)
    requires Rely(sh, sh', me) && Local(sh, me, pc)
    ensures Local(sh', me, pc)
  {
    var h, h' := sh.hist, sh'.hist;
    match pc
    case EnqLoadVersion(_, _, t) => LinkedKept(h, h', t, h.ti, h'.ti);
    case EnqLoadNext(_, _, t, _) => LinkedKept(h, h', t, h.ti, h'.ti);
    case EnqRecheckTail(_, _, t, _, _) => LinkedKept(h, h', t, h.ti, h'.ti);
    case EnqRecheckVersion(_, _, t, _, _) => LinkedKept(h, h', t, h.ti, h'.ti);
    case EnqCasNext(_, _, t) => LinkedKept(h, h', t, h.ti, h'.ti);
    case EnqHelpTail(_, _, t, _) => LinkedKept(h, h', t, h.ti, h'.ti);
    case EnqSwingTail(_, _, t) => LinkedKept(h, h', t, h.ti, h'.ti);
    case DeqLoadVersion(_, _, p) => LinkedKept(h, h', p, h.hi, h'.hi);
    case DeqLoadTail(_, _, p, _) => LinkedKept(h, h', p, h.hi, h'.hi);
    case DeqLoadNext(_, _, p, _, t) => InOrderKept(h, h', p, t);
    case DeqRecheckHead(_, _, p, _, t, _) => InOrderKept(h, h', p, t);
    case DeqRecheckVersion(_, _, p, _, t, _) => InOrderKept(h, h', p, t);
    case DeqHelpTail(_, _, t, _) => LinkedKept(h, h', t, h.ti, h'.ti);
    case DeqCheckInit(_, _, p, _) =>
      LinkedKept(h, h', p, h.hi, h'.hi); LinkedKept(h, h', p, h.ti - 1, h'.ti - 1);
    case DeqCasHead(_, _, p, _) =>
      LinkedKept(h, h', p, h.hi, h'.hi); LinkedKept(h, h', p, h.ti - 1, h'.ti - 1);
    case _ =>
  }

  // ----- the five kinds of step that write shared memory -----

  lemma SameLinks<T(!new)>(sh: Shared<T>, sh': Shared<T>)
    requires sh'.hist.chain == sh.hist.chain && |sh.nodes| <= |sh'.nodes|
    requires forall i :: 0 <= i < |sh.hist.chain| ==> LinkAt(sh, i)
    requires forall p :: 0 <= p < |sh.nodes| ==> sh'.nodes[p].next == sh.nodes[p].next
    ensures forall i :: 0 <= i < |sh'.hist.chain| ==> LinkAt(sh', i)
  {
    forall i | 0 <= i < |sh'.hist.chain| ensures LinkAt(sh', i) {
      assert LinkAt(sh, i);
    }
  }

  lemma AllocateKeeps<T(!new)>(sh: Shared<T>, tid: Tid, x: T, me: Tid)
    requires Shape(sh)
    ensures var sh' := Allocate(sh, tid, x);
            Shape(sh') && Private(sh', tid, |sh.nodes|, x) && Rely(sh, sh', me)
  {
    SameLinks(sh, Allocate(sh, tid, x));
  }

  /** The linking CAS succeeds only at the last node, and then tail has reached it. */
  lemma LinkIsAtTail<T(!new)>(sh: Shared<T>, t: Ptr)
    requires Shape(sh) && Linked(sh.hist, t, sh.hist.ti) && t < |sh.nodes| && sh.nodes[t].next == None
    ensures sh.hist.ti == |sh.hist.chain| - 1 && sh.hist.chain[sh.hist.ti] == t == sh.tail
  {
    var h := sh.hist;
    var i :| 0 <= i <= h.ti && i < |h.chain| && h.chain[i] == t;
    assert LinkAt(sh, i);
  }

  lemma LinkKeepsLinks<T(!new)>(sh: Shared<T>, tid: Tid, x: T, n: Ptr, t: Ptr)
    requires Shape(sh) && Private(sh, tid, n, x) && t < |sh.nodes|
    requires sh.hist.ti == |sh.hist.chain| - 1 && sh.hist.chain[sh.hist.ti] == t
    ensures forall i :: 0 <= i < |sh.hist.chain| + 1 ==> LinkAt(Link(sh, x, n, t), i)
  {
    var h, sh' := sh.hist, Link(sh, x, n, t);
    forall i | 0 <= i < |h.chain| + 1 ensures LinkAt(sh', i) {
      if i < |h.chain| { assert LinkAt(sh, i) && h.chain[i] in h.chain; }
    }
  }

  lemma LinkKeepsShape<T(!new)>(sh: Shared<T>, tid: Tid, x: T, n: Ptr, t: Ptr)
    requires Shape(sh) && Private(sh, tid, n, x) && t < |sh.nodes|
    requires sh.hist.ti == |sh.hist.chain| - 1 && sh.hist.chain[sh.hist.ti] == t == sh.tail
    ensures Shape(Link(sh, x, n, t))
  {
    LinkKeepsLinks(sh, tid, x, n, t);
    LinkKeepsElems(sh, tid, x, n, t);
    assert forall j :: 0 <= j < |sh.hist.chain| ==> sh.hist.chain[j] in sh.hist.chain;
  }

  lemma LinkKeepsElems<T(!new)>(sh: Shared<T>, tid: Tid, x: T, n: Ptr, t: Ptr)
    requires Shape(sh) && Private(sh, tid, n, x) && t < |sh.nodes|
    ensures var sh' := Link(sh, x, n, t);
            var h := sh'.hist;
            && (forall i :: 0 <= i < |h.chain| ==> h.chain[i] < |sh'.nodes|)
            && (forall i :: 1 <= i < |h.chain| ==> sh'.nodes[h.chain[i]].elem.Some?)
            && (forall i :: h.hi < i < |h.chain| ==> sh'.nodes[h.chain[i]].elem == Some(h.enq[i - 1]))
  {
  }

  lemma LinkKeepsRely<T(!new)>(sh: Shared<T>, tid: Tid, x: T, n: Ptr, t: Ptr, me: Tid)
    requires Shape(sh) && Private(sh, tid, n, x) && t < |sh.nodes| && me != tid
    requires sh.hist.ti == |sh.hist.chain| - 1 && sh.hist.chain[sh.hist.ti] == t == sh.tail
    ensures Rely(sh, Link(sh, x, n, t), me)
  {
    assert LinkAt(sh, sh.hist.ti);
    var chain := sh.hist.chain;
    assert forall j :: 0 <= j < |chain| ==> chain[j] in chain;
  }

  lemma CasTailKeeps<T(!new)>(sh: Shared<T>, t: Ptr, m: Ptr, spurious: bool, me: Tid)
    requires Shape(sh) && NextIs(sh, t, m) && Linked(sh.hist, t, sh.hist.ti)
    ensures var sh' := CasTail(sh, t, m, spurious); Shape(sh') && Rely(sh, sh', me)
  {
    assert LinkAt(sh, sh.hist.ti);
    SameLinks(sh, CasTail(sh, t, m, spurious));
  }

  lemma MoveHeadKeeps<T(!new)>(sh: Shared<T>, tid: Tid, h: Ptr, m: Ptr, me: Tid)
    requires Shape(sh) && NextIs(sh, h, m) && Linked(sh.hist, h, sh.hist.ti - 1) && sh.head == h
    ensures var sh' := MoveHead(sh, tid, m);
            Shape(sh') && Taking(sh', tid, m, sh.hist.hi) && Rely(sh, sh', me)
  {
    var i :| 0 <= i <= sh.hist.ti - 1 && i < |sh.hist.chain| && sh.hist.chain[i] == h;
    assert i == sh.hist.hi && LinkAt(sh, i);
    SameLinks(sh, MoveHead(sh, tid, m));
  }

  lemma TakeKeeps<T(!new)>(sh: Shared<T>, tid: Tid, m: Ptr, pos: nat, movedFrom: T, me: Tid)
    requires Shape(sh) && Taking(sh, tid, m, pos)
    ensures var sh' := TakeElem(sh, m, pos, movedFrom); Shape(sh') && (me != tid ==> Rely(sh, sh', me))
  {
    assert sh.hist.chain[pos + 1] in sh.hist.chain;
    SameLinks(sh, TakeElem(sh, m, pos, movedFrom));
  }

  // ----- every step keeps the invariant -----

  /** No reachable step dereferences a wild pointer. */
  lemma InvIsSafe<T(!new)>(s: State<T>, tid: Tid)
    requires Inv(s) && tid < |s.threads|
    ensures Safe(s.sh, s.threads[tid])
  {
    var h := s.sh.hist;
    assert Local(s.sh, tid, s.threads[tid]);
    match s.threads[tid]
    case DeqCheckInit(_, _, p, m) =>
      var i :| 0 <= i <= h.ti - 1 && i < |h.chain| && h.chain[i] == p;
      assert LinkAt(s.sh, i);
    case _ =>
  }

  predicate EnqReads<T>(pc: Pc<T>) {
    pc.EnqLoadTail? || pc.EnqLoadVersion? || pc.EnqLoadNext? || pc.EnqRecheckTail? || pc.EnqRecheckVersion?
  }

  predicate DeqReads<T>(pc: Pc<T>) {
    || pc.DeqFor? || pc.DeqLoadHead? || pc.DeqLoadVersion? || pc.DeqLoadTail? || pc.DeqLoadNext?
    || pc.DeqRecheckHead? || pc.DeqRecheckVersion? || pc.DeqCheckInit?
  }

  lemma EnqReadsKeep<T(!new)>(sh: Shared<T>, tid: Tid, pc: Pc<T>, c: Choice<T>)
    requires Shape(sh) && Local(sh, tid, pc) && Safe(sh, pc) && EnqReads(pc)
    ensures Step(sh, tid, pc, c).0 == sh && Local(sh, tid, Step(sh, tid, pc, c).1)
  {
    assert sh.hist.chain[sh.hist.ti] == sh.tail;
  }

  lemma DeqRecheckKeeps<T(!new)>(sh: Shared<T>, tid: Tid, pc: Pc<T>, c: Choice<T>)
    requires Shape(sh) && Local(sh, tid, pc) && Safe(sh, pc) && pc.DeqRecheckVersion?
    ensures Step(sh, tid, pc, c).0 == sh && Local(sh, tid, Step(sh, tid, pc, c).1)
  {
    var h := sh.hist;
    match pc
    case DeqRecheckVersion(_, _, p, v, t, nx) =>
      var i, j :| 0 <= i <= j <= h.ti && j < |h.chain| && i <= h.hi && h.chain[i] == p && h.chain[j] == t;
      assert p != t ==> i < j;
  }

  lemma DeqReadsKeep<T(!new)>(sh: Shared<T>, tid: Tid, pc: Pc<T>, c: Choice<T>)
    requires Shape(sh) && Local(sh, tid, pc) && Safe(sh, pc) && DeqReads(pc)
    ensures Step(sh, tid, pc, c).0 == sh && Local(sh, tid, Step(sh, tid, pc, c).1)
  {
    var h := sh.hist;
    match pc
    case DeqLoadHead(_, _) => assert h.chain[h.hi] == sh.head;
    case DeqLoadTail(_, _, p, _) =>
      var i :| 0 <= i <= h.hi && i < |h.chain| && h.chain[i] == p;
      assert h.chain[h.ti] == sh.tail;
    case DeqRecheckVersion(_, _, _, _, _, _) => DeqRecheckKeeps(sh, tid, pc, c);
    case _ =>
  }

  /** head and tail stay, or move along next. */
  ghost predicate Advances<T>(sh: Shared<T>, sh': Shared<T>) {
    && (sh'.head == sh.head || NextIs(sh, sh.head, sh'.head))
    && (sh'.tail == sh.tail || NextIs(sh, sh.tail, sh'.tail))
  }

  /** The stepping thread: its own assertion holds at the new program counter, and
      the other threads may rely on what they relied on. */
  lemma StepKeepsLocal<T(!new)>(sh: Shared<T>, tid: Tid, pc: Pc<T>, c: Choice<T>, me: Tid)
    requires Shape(sh) && Local(sh, tid, pc) && Safe(sh, pc) && me != tid
    ensures var (sh', pc') := Step(sh, tid, pc, c);
            Shape(sh') && Local(sh', tid, pc') && Rely(sh, sh', me) && Advances(sh, sh')
  {
    if EnqReads(pc) {
      EnqReadsKeep(sh, tid, pc, c);
    } else if DeqReads(pc) {
      DeqReadsKeep(sh, tid, pc, c);
    } else {
      StepWrites(sh, tid, pc, c, me);
    }
  }

  lemma StepWrites<T(!new)>(sh: Shared<T>, tid: Tid, pc: Pc<T>, c: Choice<T>, me: Tid)
    requires Shape(sh) && Local(sh, tid, pc) && Safe(sh, pc) && me != tid && !EnqReads(pc) && !DeqReads(pc)
    ensures var (sh', pc') := Step(sh, tid, pc, c);
            Shape(sh') && Local(sh', tid, pc') && Rely(sh, sh', me) && Advances(sh, sh')
  {
    if pc.EnqCasNext? {
      EnqCasNextKeeps(sh, tid, pc, c, me);
    } else if pc.EnqHelpTail? || pc.EnqSwingTail? || pc.DeqHelpTail? {
      TailCasKeeps(sh, tid, pc, c, me);
    } else {
      OtherWritesKeep(sh, tid, pc, c, me);
    }
  }

  lemma OtherWritesKeep<T(!new)>(sh: Shared<T>, tid: Tid, pc: Pc<T>, c: Choice<T>, me: Tid)
    requires Shape(sh) && Local(sh, tid, pc) && Safe(sh, pc) && me != tid && !EnqReads(pc) && !DeqReads(pc)
    requires !pc.EnqCasNext? && !pc.EnqHelpTail? && !pc.EnqSwingTail? && !pc.DeqHelpTail?
    ensures var (sh', pc') := Step(sh, tid, pc, c);
            Shape(sh') && Local(sh', tid, pc') && Rely(sh, sh', me) && Advances(sh, sh')
  {
    match pc
    case EnqAllocate(x) => AllocateKeeps(sh, tid, x, me);
    case DeqCasHead(_, _, _, _) => CasHeadKeeps(sh, tid, pc, c, me);
    case DeqTake(m, pos) => TakeKeeps(sh, tid, m, pos, c.movedFrom, me);
    case _ =>
  }

  lemma CasHeadKeeps<T(!new)>(sh: Shared<T>, tid: Tid, pc: Pc<T>, c: Choice<T>, me: Tid)
    requires Shape(sh) && Local(sh, tid, pc) && Safe(sh, pc) && me != tid && pc.DeqCasHead?
    ensures var (sh', pc') := Step(sh, tid, pc, c);
            Shape(sh') && Local(sh', tid, pc') && Rely(sh, sh', me) && Advances(sh, sh')
  {
    if !c.spurious && sh.head == pc.h { MoveHeadKeeps(sh, tid, pc.h, pc.m, me); }
  }

  lemma EnqCasNextKeeps<T(!new)>(sh: Shared<T>, tid: Tid, pc: Pc<T>, c: Choice<T>, me: Tid)
    requires Shape(sh) && Local(sh, tid, pc) && Safe(sh, pc) && me != tid && pc.EnqCasNext?
    ensures var (sh', pc') := Step(sh, tid, pc, c);
            Shape(sh') && Local(sh', tid, pc') && Rely(sh, sh', me) && Advances(sh, sh')
  {
    var EnqCasNext(x, n, t) := pc;
    if !c.spurious && sh.nodes[t].next.None? {
      LinkIsAtTail(sh, t);
      LinkKeepsShape(sh, tid, x, n, t);
      LinkKeepsRely(sh, tid, x, n, t, me);
      LinkedKept(sh.hist, Link(sh, x, n, t).hist, t, sh.hist.ti, sh.hist.ti);
    }
  }

  lemma TailCasKeeps<T(!new)>(sh: Shared<T>, tid: Tid, pc: Pc<T>, c: Choice<T>, me: Tid)
    requires Shape(sh) && Local(sh, tid, pc) && Safe(sh, pc) && me != tid
    requires pc.EnqHelpTail? || pc.EnqSwingTail? || pc.DeqHelpTail?
    ensures var (sh', pc') := Step(sh, tid, pc, c);
            Shape(sh') && Local(sh', tid, pc') && Rely(sh, sh', me) && Advances(sh, sh')
  {
    var m := if pc.EnqSwingTail? then pc.n else pc.m;
    CasTailKeeps(sh, pc.t, m, c.spurious, me);
  }

  lemma StepKeepsAccounted<T(!new)>(s: State<T>, l: Label<T>)
    requires Inv(s) && Enabled(s, l)
    ensures Accounted(Do(s, l))
  {
    var s' := Do(s, l);
    var h, h' := s.sh.hist, s'.sh.hist;
    forall k | 0 <= k < h'.hi && k < |h'.remover| && k !in h'.returned
      ensures h'.remover[k] < |s'.threads| && s'.threads[h'.remover[k]].DeqTake? && s'.threads[h'.remover[k]].pos == k
    {
      assert Local(s.sh, l.tid, s.threads[l.tid]);
      if k < h.hi {
        assert k !in h.returned;
        assert h'.remover[k] == h.remover[k];
      }
    }
  }

  lemma StepKeepsInv<T(!new)>(s: State<T>, l: Label<T>)
    requires Inv(s) && Enabled(s, l)
    ensures Inv(Do(s, l))
  {
    var s' := Do(s, l);
    assert Local(s.sh, l.tid, s.threads[l.tid]);
    StepKeepsLocal(s.sh, l.tid, s.threads[l.tid], l.c, l.tid + 1);
    forall t | 0 <= t < |s'.threads|
      ensures Local(s'.sh, t, s'.threads[t])
    {
      if t != l.tid {
        StepKeepsLocal(s.sh, l.tid, s.threads[l.tid], l.c, t);
        LocalStable(s.sh, s'.sh, t, s.threads[t]);
      }
    }
    StepKeepsAccounted(s, l);
  }

  /** A non-null next never changes, head and tail only move, and only along next. */
  lemma StepIsMonotone<T(!new)>(s: State<T>, l: Label<T>)
    requires Inv(s) && Enabled(s, l)
    ensures var sh, sh' := s.sh, Do(s, l).sh;
            && |sh.nodes| <= |sh'.nodes|
            && (forall p :: 0 <= p < |sh.nodes| && sh.nodes[p].next.Some? ==> sh'.nodes[p].next == sh.nodes[p].next)
            && Advances(sh, sh')
  {
    assert Local(s.sh, l.tid, s.threads[l.tid]);
    StepKeepsLocal(s.sh, l.tid, s.threads[l.tid], l.c, l.tid + 1);
  }

  lemma {:induction false} RunKeepsInv<T(!new)>(run: seq<State<T>>, labels: seq<Label<T>>, k: nat)
    requires Run(run, labels) && k < |run|
    ensures Inv(run[k])
  {
    if k > 0 {
      RunKeepsInv(run, labels, k - 1);
      assert StepAt(run, labels, k - 1);
      StepKeepsInv(run[k - 1], labels[k - 1]);
    }
  }

  // ----- refinement of the FIFO queue -----

  lemma {:induction false} WalkChain<T(!new)>(sh: Shared<T>, i: nat, fuel: nat)
    requires Shape(sh) && sh.hist.hi < i <= |sh.hist.chain| && fuel >= |sh.hist.chain| - i
    ensures var p := if i < |sh.hist.chain| then Some(sh.hist.chain[i]) else None;
            Walk(sh.nodes, p, fuel) == sh.hist.enq[i - 1..]
    decreases fuel
  {
    if i < |sh.hist.chain| {
      assert LinkAt(sh, i);
      WalkChain(sh, i + 1, fuel - 1);
      assert sh.hist.enq[i - 1..] == [sh.hist.enq[i - 1]] + sh.hist.enq[i..];
    }
  }

  lemma {:induction false} DistinctBound(s: seq<nat>, n: nat)
    requires forall i :: 0 <= i < |s| ==> s[i] < n
    requires forall i, j :: 0 <= i < j < |s| ==> s[i] != s[j]
    ensures |s| <= n
    decreases n
  {
    assert |s| == 0 || s[0] < n;
    if n == 0 {
    } else if i :| 0 <= i < |s| && s[i] == n - 1 {
      var rest := s[..i] + s[i + 1..];
      DistinctBound(rest, n - 1);
    } else {
      DistinctBound(s, n - 1);
    }
  }

  /** Memory read from head on holds exactly the enqueued elements not yet removed. */
  lemma ContentsAreUnremoved<T(!new)>(sh: Shared<T>)
    requires Shape(sh)
    ensures Contents(sh) == sh.hist.enq[sh.hist.hi..]
  {
    var h := sh.hist;
    DistinctBound(h.chain, |sh.nodes|);
    WalkChain(sh, h.hi + 1, |sh.nodes|);
    assert LinkAt(sh, h.hi);
  }

  /** How a step's effect shows in the history. */
  ghost predicate Recorded<T>(h: History<T>, op: Op<T>, h': History<T>) {
    match op
    case Tau => h'.enq == h.enq && h'.hi == h.hi
    case Enq(x) => h'.enq == h.enq + [x] && h'.hi == h.hi
    case Deq(x) => h'.enq == h.enq && h'.hi == h.hi + 1 && h.hi < |h.enq| && h.enq[h.hi] == x
  }

  predicate Quiet<T>(pc: Pc<T>) {
    !pc.EnqCasNext? && !pc.DeqCasHead?
  }

  lemma QuietIsRecorded<T>(sh: Shared<T>, tid: Tid, pc: Pc<T>, c: Choice<T>)
    requires Safe(sh, pc) && Quiet(pc)
    ensures Recorded(sh.hist, Tau, Step(sh, tid, pc, c).0.hist)
  {
  }

  /** The element a successful CAS on head removes is the oldest one. */
  lemma RemovesOldest<T(!new)>(sh: Shared<T>, h: Ptr, m: Ptr)
    requires Shape(sh) && NextIs(sh, h, m) && Linked(sh.hist, h, sh.hist.ti - 1) && sh.head == h
    ensures sh.hist.hi < |sh.hist.enq| && m < |sh.nodes| && sh.nodes[m].elem == Some(sh.hist.enq[sh.hist.hi])
  {
    MoveHeadKeeps(sh, 0, h, m, 0);
  }

  lemma StepIsRecorded<T(!new)>(s: State<T>, l: Label<T>)
    requires Inv(s) && Enabled(s, l)
    ensures Recorded(s.sh.hist, Effect(s, l), Do(s, l).sh.hist)
  {
    var pc := s.threads[l.tid];
    assert Local(s.sh, l.tid, pc);
    if Quiet(pc) {
      QuietIsRecorded(s.sh, l.tid, pc, l.c);
    } else if pc.DeqCasHead? && s.sh.head == pc.h {
      RemovesOldest(s.sh, pc.h, pc.m);
    }
  }

  /** Every step of every thread is a FIFO step on the contents: the successful CAS on
      next appends, the successful CAS on head removes the oldest, nothing else shows. */
  lemma StepRefinesFifo<T(!new)>(s: State<T>, l: Label<T>)
    requires Inv(s) && Enabled(s, l)
    ensures FifoStep(Contents(s.sh), Effect(s, l), Contents(Do(s, l).sh))
  {
    var s' := Do(s, l);
    StepKeepsInv(s, l);
    ContentsAreUnremoved(s.sh);
    ContentsAreUnremoved(s'.sh);
    StepIsRecorded(s, l);
    RecordedIsFifo(s.sh.hist, Effect(s, l), s'.sh.hist);
  }

  lemma RecordedIsFifo<T>(h: History<T>, op: Op<T>, h': History<T>)
    requires Recorded(h, op, h') && h.hi <= |h.enq| && h'.hi <= |h'.enq|
    ensures FifoStep(h.enq[h.hi..], op, h'.enq[h'.hi..])
  {
    match op
    case Tau =>
    case Enq(x) => assert h'.enq[h'.hi..] == h.enq[h.hi..] + [x];
    case Deq(x) => assert h.enq[h.hi..] == [x] + h.enq[h.hi + 1..];
  }

  /** The effects of the first k steps, in order. */
  ghost function Trace<T(!new)>(run: seq<State<T>>, labels: seq<Label<T>>, k: nat): seq<Op<T>>
    requires Run(run, labels) && k <= |labels|
  {
    if k == 0 then [] else
    assert StepAt(run, labels, k - 1);
    Trace(run, labels, k - 1) +
    (if Effect(run[k - 1], labels[k - 1]).Tau? then [] else [Effect(run[k - 1], labels[k - 1])])
  }

  /** The operations of a trace, executed one after another on an empty queue; None when
      one of them removes something else than the oldest element. */
  ghost function Replay<T(!new)>(ops: seq<Op<T>>): Option<seq<T>> {
    if ops == [] then Some([])
    else
      var before := Replay(ops[..|ops| - 1]);
      if before.None? then None
      else match ops[|ops| - 1]
        case Tau => before
        case Enq(x) => Some(before.value + [x])
        case Deq(x) => if before.value != [] && before.value[0] == x then Some(before.value[1..]) else None
  }

  /** Over every run, the linking and removing CASes form a sequential FIFO execution
      that ends with what memory holds. */
  lemma {:induction false} RunRefinesFifo<T(!new)>(run: seq<State<T>>, labels: seq<Label<T>>, k: nat)
    requires Run(run, labels) && k <= |labels|
    ensures Replay(Trace(run, labels, k)) == Some(Contents(run[k].sh))
  {
    if k == 0 {
      RunKeepsInv(run, labels, 0);
      ContentsAreUnremoved(run[0].sh);
    } else {
      RunRefinesFifo(run, labels, k - 1);
      RunKeepsInv(run, labels, k - 1);
      assert StepAt(run, labels, k - 1);
      StepRefinesFifo(run[k - 1], labels[k - 1]);
      var ops, e := Trace(run, labels, k - 1), Effect(run[k - 1], labels[k - 1]);
      ReplayOneMore(ops, Contents(run[k - 1].sh), e, Contents(run[k].sh));
      assert Trace(run, labels, k) == if e.Tau? then ops else ops + [e];
    }
  }

  lemma ReplayOneMore<T(!new)>(ops: seq<Op<T>>, q0: seq<T>, op: Op<T>, q: seq<T>)
    requires Replay(ops) == Some(q0) && FifoStep(q0, op, q)
    ensures Replay(if op.Tau? then ops else ops + [op]) == Some(q)
  {
    if !op.Tau? { assert (ops + [op])[..|ops|] == ops; }
  }

  // ----- every call takes effect exactly as its result says -----

  /** The effect thread tid had in step j, if any. */
  ghost function EffectBy<T(!new)>(run: seq<State<T>>, labels: seq<Label<T>>, tid: Tid, j: nat): seq<Op<T>>
    requires Run(run, labels) && j < |labels|
  {
    assert StepAt(run, labels, j);
    if labels[j].tid != tid || Effect(run[j], labels[j]).Tau? then [] else [Effect(run[j], labels[j])]
  }

  /** The effects thread tid had in steps a..b-1. */
  ghost function EffectsOf<T(!new)>(run: seq<State<T>>, labels: seq<Label<T>>, tid: Tid, a: nat, b: nat): seq<Op<T>>
    requires Run(run, labels) && a <= b <= |labels|
    decreases b
  {
    if a == b then [] else EffectsOf(run, labels, tid, a, b - 1) + EffectBy(run, labels, tid, b - 1)
  }

  /** The effects a call has had so far, as its program counter tells it. */
  ghost function EffectsAt<T>(sh: Shared<T>, pc: Pc<T>): seq<Op<T>> {
    match pc
    case EnqSwingTail(x, _, _) => [Enq(x)]
    case Done(Enqueued(x)) => [Enq(x)]
    case DeqTake(m, _) => if m < |sh.nodes| && sh.nodes[m].elem.Some? then [Deq(sh.nodes[m].elem.value)] else []
    case Done(Dequeued(x)) => [Deq(x)]
    case _ => []
  }

  /** Step a started the call in which tid is at step k. */
  ghost predicate CallSince<T(!new)>(run: seq<State<T>>, tid: Tid, a: nat, k: nat) {
    && a < k < |run| && tid < |run[a].threads| && run[a].threads[tid].Idle?
    && forall m :: a < m <= k ==> tid < |run[m].threads| && !run[m].threads[tid].Idle?
  }

  /** try_dequeue has read a null next at a moment when the queue was empty. */
  ghost predicate EmptySeen<T(!new)>(run: seq<State<T>>, a: nat, k: nat) {
    exists m :: a < m < k < |run| && Contents(run[m].sh) == []
  }

  predicate ReadNull<T>(pc: Pc<T>) {
    || pc == Done(SawEmpty)
    || (pc.DeqRecheckHead? && pc.nx.None?)
    || (pc.DeqRecheckVersion? && pc.nx.None?)
  }

  /** A null next means the node read is the last one, and then nothing is queued. */
  lemma NullNextMeansEmpty<T(!new)>(sh: Shared<T>, p: Ptr)
    requires Shape(sh) && Linked(sh.hist, p, sh.hist.hi) && sh.nodes[p].next == None
    ensures Contents(sh) == []
  {
    var h := sh.hist;
    var i :| 0 <= i <= h.hi && i < |h.chain| && h.chain[i] == p;
    assert LinkAt(sh, i);
    ContentsAreUnremoved(sh);
  }

  lemma QuietEffects<T(!new)>(sh: Shared<T>, tid: Tid, pc: Pc<T>, c: Choice<T>)
    requires Safe(sh, pc) && Quiet(pc) && !pc.Done?
    ensures var (sh', pc') := Step(sh, tid, pc, c); EffectsAt(sh', pc') == EffectsAt(sh, pc)
  {
  }

  lemma StepEffects<T(!new)>(s: State<T>, l: Label<T>)
    requires Inv(s) && Enabled(s, l) && !s.threads[l.tid].Done?
    ensures var s' := Do(s, l);
            var e := Effect(s, l);
            EffectsAt(s'.sh, s'.threads[l.tid]) == EffectsAt(s.sh, s.threads[l.tid]) + if e.Tau? then [] else [e]
  {
    var pc := s.threads[l.tid];
    assert Local(s.sh, l.tid, pc);
    if Quiet(pc) {
      QuietEffects(s.sh, l.tid, pc, l.c);
    } else if pc.DeqCasHead? && s.sh.head == pc.h {
      RemovesOldest(s.sh, pc.h, pc.m);
    }
  }

  lemma OtherKeepsEffects<T(!new)>(s: State<T>, l: Label<T>, tid: Tid)
    requires Inv(s) && Enabled(s, l) && tid < |s.threads| && tid != l.tid
    ensures EffectsAt(Do(s, l).sh, s.threads[tid]) == EffectsAt(s.sh, s.threads[tid])
  {
    var pc := s.threads[tid];
    if pc.DeqTake? {
      assert Local(s.sh, tid, pc);
      OtherRelies(s, l, tid);
      TakingKeepsElem(s.sh, Do(s, l).sh, tid, pc.m, pc.pos);
    }
  }

  lemma OtherRelies<T(!new)>(s: State<T>, l: Label<T>, tid: Tid)
    requires Inv(s) && Enabled(s, l) && tid != l.tid
    ensures Rely(s.sh, Do(s, l).sh, tid)
  {
    assert Local(s.sh, l.tid, s.threads[l.tid]);
    StepKeepsLocal(s.sh, l.tid, s.threads[l.tid], l.c, tid);
  }

  /** Nobody else touches the element a thread is about to take. */
  lemma TakingKeepsElem<T(!new)>(sh: Shared<T>, sh': Shared<T>, tid: Tid, m: Ptr, pos: nat)
    requires Taking(sh, tid, m, pos) && Rely(sh, sh', tid)
    ensures m < |sh'.nodes| && sh'.nodes[m].elem == sh.nodes[m].elem
  {
  }

  /** One step of a run, seen from the call of thread tid. */
  lemma StepInCall<T(!new)>(run: seq<State<T>>, labels: seq<Label<T>>, tid: Tid, a: nat, j: nat)
    requires Run(run, labels) && CallSince(run, tid, a, j + 1)
    ensures EffectsAt(run[j + 1].sh, run[j + 1].threads[tid])
            == EffectsAt(run[j].sh, run[j].threads[tid]) + EffectBy(run, labels, tid, j)
    ensures ReadNull(run[j + 1].threads[tid]) ==> ReadNull(run[j].threads[tid]) || Contents(run[j].sh) == []
  {
    RunKeepsInv(run, labels, j);
    assert StepAt(run, labels, j);
    var s, l := run[j], labels[j];
    if l.tid != tid {
      OtherKeepsEffects(s, l, tid);
    } else {
      StepEffects(s, l);
      if ReadNull(run[j + 1].threads[tid]) { ReadsNullWhenEmpty(s, l); }
    }
  }

  /** Linearizability of every call in every run. At every moment of a call, the call has
      had exactly the effect its program counter tells: so a call that returned an element
      removed exactly that element, once, between its start and its return, a call that
      enqueued x added x once, a call that returned false did nothing, and line 212 is
      reached only if the queue was empty at a moment inside the call. */
  lemma CallsAreLinearizable<T(!new)>(
      run: seq<State<T>>, labels: seq<Label<T>>, tid: Tid, a: nat, k: nat)
    requires Run(run, labels) && CallSince(run, tid, a, k)
    ensures EffectsOf(run, labels, tid, a, k) == EffectsAt(run[k].sh, run[k].threads[tid])
    ensures ReadNull(run[k].threads[tid]) ==> EmptySeen(run, a, k)
  {
    CallEffects(run, labels, tid, a, k);
    NullReadWasEmpty(run, labels, tid, a, k);
  }

  lemma {:induction false} CallEffects<T(!new)>(
      run: seq<State<T>>, labels: seq<Label<T>>, tid: Tid, a: nat, k: nat)
    requires Run(run, labels) && CallSince(run, tid, a, k)
    ensures EffectsOf(run, labels, tid, a, k) == EffectsAt(run[k].sh, run[k].threads[tid])
    decreases k
  {
    if k - 1 > a {
      CallEffects(run, labels, tid, a, k - 1);
    }
    OneMoreStep(run, labels, tid, a, k);
  }

  lemma OneMoreStep<T(!new)>(run: seq<State<T>>, labels: seq<Label<T>>, tid: Tid, a: nat, k: nat)
    requires Run(run, labels) && CallSince(run, tid, a, k)
    requires k - 1 > a ==> EffectsOf(run, labels, tid, a, k - 1) == EffectsAt(run[k - 1].sh, run[k - 1].threads[tid])
    ensures EffectsOf(run, labels, tid, a, k) == EffectsAt(run[k].sh, run[k].threads[tid])
  {
    StepInCall(run, labels, tid, a, k - 1);
  }

  lemma {:induction false} NullReadWasEmpty<T(!new)>(
      run: seq<State<T>>, labels: seq<Label<T>>, tid: Tid, a: nat, k: nat)
    requires Run(run, labels) && CallSince(run, tid, a, k)
    ensures ReadNull(run[k].threads[tid]) ==> EmptySeen(run, a, k)
    decreases k
  {
    if k - 1 > a {
      NullReadWasEmpty(run, labels, tid, a, k - 1);
    }
    NullReadStep(run, labels, tid, a, k);
  }

  lemma NullReadStep<T(!new)>(run: seq<State<T>>, labels: seq<Label<T>>, tid: Tid, a: nat, k: nat)
    requires Run(run, labels) && CallSince(run, tid, a, k)
    requires k - 1 > a && ReadNull(run[k - 1].threads[tid]) ==> EmptySeen(run, a, k - 1)
    ensures ReadNull(run[k].threads[tid]) ==> EmptySeen(run, a, k)
  {
    if k - 1 == a {
      assert StepAt(run, labels, a);
      FirstStepReadsNothing(run[a], labels[a], tid);
    } else if ReadNull(run[k].threads[tid]) {
      StepInCall(run, labels, tid, a, k - 1);
    }
  }

  lemma FirstStepReadsNothing<T(!new)>(s: State<T>, l: Label<T>, tid: Tid)
    requires Enabled(s, l) && tid < |s.threads| && s.threads[tid].Idle?
    ensures !ReadNull(Do(s, l).threads[tid])
  {
  }

  /** A dequeuer gets to know a null next only by reading it, while the queue is empty. */
  lemma ReadsNullWhenEmpty<T(!new)>(s: State<T>, l: Label<T>)
    requires Inv(s) && Enabled(s, l) && ReadNull(Do(s, l).threads[l.tid])
    ensures ReadNull(s.threads[l.tid]) || Contents(s.sh) == []
  {
    var pc := s.threads[l.tid];
    assert Local(s.sh, l.tid, pc);
    if pc.DeqLoadNext? && s.sh.nodes[pc.h].next.None? {
      InOrderLinked(s.sh, pc.h, pc.t);
      NullNextMeansEmpty(s.sh, pc.h);
    }
  }

  lemma InOrderLinked<T(!new)>(sh: Shared<T>, p: Ptr, q: Ptr)
    requires InOrder(sh.hist, p, q)
    ensures Linked(sh.hist, p, sh.hist.hi)
  {
  }

  /** No element is lost and none is returned twice: of the removed elements, numbered in
      enqueue order, each was either returned, with its enqueued value, or is about to be
      returned by the one thread that removed it. */
  lemma RemovedAreReturnedOnce<T(!new)>(run: seq<State<T>>, labels: seq<Label<T>>, k: nat)
    requires Run(run, labels) && k < |run|
    ensures var h := run[k].sh.hist;
            && h.hi <= |h.enq| && |h.remover| == h.hi
            && h.enq == h.enq[..h.hi] + Contents(run[k].sh)
            && (forall p :: p in h.returned ==> p < h.hi && h.returned[p] == h.enq[p])
            && (forall p :: 0 <= p < h.hi && p !in h.returned ==>
                  var r := h.remover[p];
                  && r < |run[k].threads| && run[k].threads[r].DeqTake? && run[k].threads[r].pos == p
                  && EffectsAt(run[k].sh, run[k].threads[r]) == [Deq(h.enq[p])])
  {
    var s := run[k];
    RunKeepsInv(run, labels, k);
    ContentsAreUnremoved(s.sh);
    forall p | 0 <= p < s.sh.hist.hi && p !in s.sh.hist.returned
      ensures var r := s.sh.hist.remover[p];
              && r < |s.threads| && s.threads[r].DeqTake? && s.threads[r].pos == p
              && EffectsAt(s.sh, s.threads[r]) == [Deq(s.sh.hist.enq[p])]
    {
      assert Local(s.sh, s.sh.hist.remover[p], s.threads[s.sh.hist.remover[p]]);
    }
  }

  /** Line 234 promises nothing: a dequeuer on its last attempt whose CAS fails spuriously
      reports false although an element is there, and leaves it there. */
  lemma GivingUpSaysNothing<T(!new)>(s: State<T>, tid: Tid, c: Choice<T>)
    requires Inv(s) && tid < |s.threads| && c.spurious
    requires var pc := s.threads[tid]; pc.DeqCasHead? && pc.max == pc.i + 1 && s.sh.head == pc.h
    ensures var s1 := Do(s, Label(tid, c));
            && Enabled(s1, Label(tid, c))
            && var s2 := Do(s1, Label(tid, c));
            && s2.threads[tid] == Done(GaveUp)
            && Contents(s2.sh) == Contents(s.sh) != []
  {
    var pc := s.threads[tid];
    assert Local(s.sh, tid, pc);
    RemovesOldest(s.sh, pc.h, pc.m);
    ContentsAreUnremoved(s.sh);
  }
}
