/**
 What the lock-free queue gets done: a call that runs alone ends with the right result in a
 bounded number of steps, and in any run try_dequeue gives up only after attempts that were
 each disturbed.
 */
module QueueCasProgress {
  import opened Options
  import opened QueueCas

  // ----- a thread that runs alone -----

  /** A continuation of any state by steps of thread tid alone, none failing spuriously. */
  ghost predicate Solo<T(!new)>(run: seq<State<T>>, labels: seq<Label<T>>, tid: Tid) {
    && |run| == |labels| + 1 && Inv(run[0]) && tid < |run[0].threads|
    && forall k :: 0 <= k < |labels| ==> StepAt(run, labels, k) && labels[k].tid == tid && !labels[k].c.spurious
  }

  lemma {:induction false} SoloKeepsInv<T(!new)>(run: seq<State<T>>, labels: seq<Label<T>>, tid: Tid, k: nat)
    requires Solo(run, labels, tid) && k < |run|
    ensures Inv(run[k]) && tid < |run[k].threads|
  {
    if k > 0 {
      SoloKeepsInv(run, labels, tid, k - 1);
      assert StepAt(run, labels, k - 1);
      StepKeepsInv(run[k - 1], labels[k - 1]);
    }
  }

  /** tail is not the last node. */
  predicate Lags<T>(sh: Shared<T>) { sh.tail < |sh.nodes| && sh.nodes[sh.tail].next.Some? }

  /** What head and tail look like from memory. */
  lemma Ends<T(!new)>(sh: Shared<T>)
    requires Shape(sh)
    ensures sh.head < |sh.nodes| && sh.tail < |sh.nodes|
    ensures sh.nodes[sh.head].next == None <==> Contents(sh) == []
    ensures sh.nodes[sh.head].next.Some? ==>
              var m := sh.nodes[sh.head].next.value;
              && m < |sh.nodes| && Contents(sh) != [] && sh.nodes[m].elem == Some(Contents(sh)[0])
    ensures sh.head != sh.tail ==> Contents(sh) != []
    ensures Lags(sh) ==> sh.nodes[sh.tail].next.value < |sh.nodes| && sh.nodes[sh.nodes[sh.tail].next.value].next == None
                         && sh.nodes[sh.tail].next.value != sh.head
  {
    var h := sh.hist;
    ContentsAreUnremoved(sh);
    assert LinkAt(sh, h.hi) && LinkAt(sh, h.ti);
    if h.hi + 1 < |h.chain| {
      assert sh.nodes[h.chain[h.hi + 1]].elem == Some(h.enq[h.hi]);
    }
    if h.ti + 1 < |h.chain| {
      assert LinkAt(sh, h.ti + 1);
    }
  }

  /** Step k of a solo run, at the given program counter. */
  lemma SoloStep<T(!new)>(run: seq<State<T>>, labels: seq<Label<T>>, tid: Tid, k: nat, sh: Shared<T>, pc: Pc<T>)
    requires Solo(run, labels, tid) && k < |labels| && run[k].sh == sh && tid < |run[k].threads| && run[k].threads[tid] == pc
    ensures Safe(sh, pc) && !labels[k].c.spurious
    ensures var (sh', pc') := Step(sh, tid, pc, labels[k].c);
            && run[k + 1].sh == sh' && |run[k + 1].threads| == |run[k].threads| && run[k + 1].threads[tid] == pc'
  {
    assert StepAt(run, labels, k);
  }

  /** An attempt of try_dequeue reads a consistent picture. */
  lemma SoloReads<T(!new)>(run: seq<State<T>>, labels: seq<Label<T>>, tid: Tid, k: nat, i: int, max: int)
    requires Solo(run, labels, tid) && k + 7 <= |labels| && Inv(run[k]) && tid < |run[k].threads|
    requires run[k].threads[tid] == DeqFor(i, max) && i < max
    ensures var sh := run[k].sh;
            && sh.head < |sh.nodes| && run[k + 7].sh == sh && tid < |run[k + 7].threads|
            && var nx := sh.nodes[sh.head].next;
            run[k + 7].threads[tid] ==
              if sh.head == sh.tail then if nx.None? then Done(SawEmpty) else DeqHelpTail(i, max, sh.tail, nx.value)
              else if nx.None? then DeqFor(i + 1, max) else DeqCheckInit(i, max, sh.head, nx.value)
  {
    var sh := run[k].sh;
    Ends(sh);
    var v, nx := sh.nodes[sh.head].version, sh.nodes[sh.head].next;
    SoloStep(run, labels, tid, k, sh, DeqFor(i, max));
    SoloStep(run, labels, tid, k + 1, sh, DeqLoadHead(i, max));
    SoloStep(run, labels, tid, k + 2, sh, DeqLoadVersion(i, max, sh.head));
    SoloStep(run, labels, tid, k + 3, sh, DeqLoadTail(i, max, sh.head, v));
    SoloStep(run, labels, tid, k + 4, sh, DeqLoadNext(i, max, sh.head, v, sh.tail));
    SoloStep(run, labels, tid, k + 5, sh, DeqRecheckHead(i, max, sh.head, v, sh.tail, nx));
    SoloStep(run, labels, tid, k + 6, sh, DeqRecheckVersion(i, max, sh.head, v, sh.tail, nx));
  }

  /** The rest of an attempt that has found an element. */
  lemma SoloTakes<T(!new)>(run: seq<State<T>>, labels: seq<Label<T>>, tid: Tid, k: nat, i: int, max: int)
    requires Solo(run, labels, tid) && k + 3 <= |labels| && Inv(run[k]) && tid < |run[k].threads|
    requires var sh := run[k].sh;
             && sh.head < |sh.nodes| && sh.nodes[sh.head].next.Some?
             && run[k].threads[tid] == DeqCheckInit(i, max, sh.head, sh.nodes[sh.head].next.value)
    ensures var q := Contents(run[k].sh);
            && q != [] && tid < |run[k + 3].threads| && run[k + 3].threads[tid] == Done(Dequeued(q[0]))
            && Contents(run[k + 3].sh) == q[1..]
  {
    var sh := run[k].sh;
    Ends(sh);
    var m := sh.nodes[sh.head].next.value;
    SoloStep(run, labels, tid, k, sh, DeqCheckInit(i, max, sh.head, m));
    SoloStep(run, labels, tid, k + 1, sh, DeqCasHead(i, max, sh.head, m));
    var sh1 := MoveHead(sh, tid, m);
    SoloStep(run, labels, tid, k + 2, sh1, DeqTake(m, sh.hist.hi));
    SoloFifo(run, labels, tid, k + 1);
    SoloFifo(run, labels, tid, k + 2);
  }

  lemma SoloFifo<T(!new)>(run: seq<State<T>>, labels: seq<Label<T>>, tid: Tid, k: nat)
    requires Solo(run, labels, tid) && k < |labels|
    ensures Enabled(run[k], labels[k]) && FifoStep(Contents(run[k].sh), Effect(run[k], labels[k]), Contents(run[k + 1].sh))
    ensures labels[k].tid == tid && tid < |run[k].threads|
  {
    SoloKeepsInv(run, labels, tid, k);
    assert StepAt(run, labels, k);
    StepRefinesFifo(run[k], labels[k]);
  }

  /** One more attempt is needed when head has reached a tail that lags. */
  predicate NeedsHelp<T>(sh: Shared<T>) { sh.head == sh.tail && Lags(sh) }

  /** try_dequeue alone with one attempt: enough unless tail has to be helped first. */
  lemma SoloAttempt<T(!new)>(run: seq<State<T>>, labels: seq<Label<T>>, tid: Tid, k: nat, i: int, max: int)
    requires Solo(run, labels, tid) && k + 10 <= |labels| && Inv(run[k]) && tid < |run[k].threads|
    requires run[k].threads[tid] == DeqFor(i, max) && i < max && !NeedsHelp(run[k].sh)
    ensures var q := Contents(run[k].sh);
            var n := if q == [] then 7 else 10;
            && tid < |run[k + n].threads|
            && run[k + n].threads[tid] == Done(if q == [] then SawEmpty else Dequeued(q[0]))
            && Contents(run[k + n].sh) == if q == [] then [] else q[1..]
  {
    Ends(run[k].sh);
    SoloReads(run, labels, tid, k, i, max);
    if Contents(run[k].sh) != [] {
      SoloKeepsInv(run, labels, tid, k + 7);
      SoloTakes(run, labels, tid, k + 7, i, max);
    }
  }

  /** An attempt that finds tail lagging at head moves tail on, and the next one is enough. */
  lemma SoloHelps<T(!new)>(run: seq<State<T>>, labels: seq<Label<T>>, tid: Tid, k: nat, i: int, max: int)
    requires Solo(run, labels, tid) && k + 8 <= |labels| && Inv(run[k]) && tid < |run[k].threads|
    requires run[k].threads[tid] == DeqFor(i, max) && i < max && NeedsHelp(run[k].sh)
    ensures tid < |run[k + 8].threads| && run[k + 8].threads[tid] == DeqFor(i + 1, max)
    ensures Contents(run[k + 8].sh) == Contents(run[k].sh) && !NeedsHelp(run[k + 8].sh)
  {
    var sh := run[k].sh;
    Ends(sh);
    SoloReads(run, labels, tid, k, i, max);
    SoloStep(run, labels, tid, k + 7, sh, DeqHelpTail(i, max, sh.tail, sh.nodes[sh.tail].next.value));
    SoloFifo(run, labels, tid, k + 7);
  }

  /** How many steps try_dequeue takes alone, its call included. */
  function DequeueSteps<T>(sh: Shared<T>, max: int): nat {
    if max <= 0 then 2
    else if NeedsHelp(sh) then if max == 1 then 10 else 19
    else if Contents(sh) == [] then 8
    else 11
  }

  /** The thread has returned with this result, and the queue holds q. */
  ghost predicate Returned<T>(s: State<T>, tid: Tid, out: Outcome<T>, q: seq<T>) {
    tid < |s.threads| && s.threads[tid] == Done(out) && Contents(s.sh) == q
  }

  lemma SoloCall<T(!new)>(run: seq<State<T>>, labels: seq<Label<T>>, tid: Tid)
    requires Solo(run, labels, tid) && run[0].threads[tid].Idle? && |labels| >= 1
    ensures run[1].sh == run[0].sh && Inv(run[1]) && tid < |run[1].threads|
    ensures run[1].threads[tid] ==
              match labels[0].c.call case CallEnqueue(x) => EnqAllocate(x) case CallTryDequeue(max) => DeqFor(0, max)
  {
    SoloStep(run, labels, tid, 0, run[0].sh, Idle);
    SoloKeepsInv(run, labels, tid, 1);
  }

  lemma SoloGivesUp<T(!new)>(run: seq<State<T>>, labels: seq<Label<T>>, tid: Tid, k: nat, i: int, max: int)
    requires Solo(run, labels, tid) && k < |labels| && tid < |run[k].threads|
    requires run[k].threads[tid] == DeqFor(i, max) && i >= max
    ensures Returned(run[k + 1], tid, GaveUp, Contents(run[k].sh))
  {
    SoloStep(run, labels, tid, k, run[k].sh, DeqFor(i, max));
  }

  lemma SoloHelped<T(!new)>(run: seq<State<T>>, labels: seq<Label<T>>, tid: Tid, k: nat, max: int)
    requires Solo(run, labels, tid) && k + 18 <= |labels| && Inv(run[k]) && tid < |run[k].threads|
    requires run[k].threads[tid] == DeqFor(0, max) && max >= 1 && NeedsHelp(run[k].sh)
    ensures var q := Contents(run[k].sh);
            && q != []
            && (max == 1 ==> Returned(run[k + 9], tid, GaveUp, q))
            && (max > 1 ==> Returned(run[k + 18], tid, Dequeued(q[0]), q[1..]))
  {
    Ends(run[k].sh);
    SoloHelps(run, labels, tid, k, 0, max);
    if max == 1 {
      SoloGivesUp(run, labels, tid, k + 8, 1, max);
    } else {
      SoloKeepsInv(run, labels, tid, k + 8);
      SoloAttempt(run, labels, tid, k + 8, 1, max);
    }
  }

  /** try_dequeue running alone from any reachable state: it returns the oldest element, or
      false on an empty queue; it gives up with elements left exactly when it has no attempt,
      or a single one that had to move a tail lagging at head. */
  lemma SoloDequeue<T(!new)>(run: seq<State<T>>, labels: seq<Label<T>>, tid: Tid, max: int)
    requires Solo(run, labels, tid) && run[0].threads[tid].Idle? && |labels| >= 19
    requires labels[0].c.call == CallTryDequeue(max)
    ensures var sh, end := run[0].sh, run[DequeueSteps(run[0].sh, max)];
            var q := Contents(sh);
            if max <= 0 || (max == 1 && NeedsHelp(sh)) then Returned(end, tid, GaveUp, q)
            else if q == [] then Returned(end, tid, SawEmpty, [])
            else Returned(end, tid, Dequeued(q[0]), q[1..])
  {
    SoloCall(run, labels, tid);
    if max <= 0 {
      SoloGivesUp(run, labels, tid, 1, 0, max);
    } else if NeedsHelp(run[0].sh) {
      SoloHelped(run, labels, tid, 1, max);
    } else {
      SoloAttempt(run, labels, tid, 1, 0, max);
    }
  }

  /** One round of enqueue's loop, up to the CAS it has chosen. */
  lemma SoloLooks<T(!new)>(run: seq<State<T>>, labels: seq<Label<T>>, tid: Tid, k: nat, x: T, n: Ptr)
    requires Solo(run, labels, tid) && k + 5 <= |labels| && Inv(run[k]) && tid < |run[k].threads|
    requires run[k].threads[tid] == EnqLoadTail(x, n)
    ensures var sh := run[k].sh;
            && sh.tail < |sh.nodes| && run[k + 5].sh == sh && tid < |run[k + 5].threads|
            && run[k + 5].threads[tid] ==
                 if Lags(sh) then EnqHelpTail(x, n, sh.tail, sh.nodes[sh.tail].next.value) else EnqCasNext(x, n, sh.tail)
  {
    var sh := run[k].sh;
    Ends(sh);
    var v, nx := sh.nodes[sh.tail].version, sh.nodes[sh.tail].next;
    SoloStep(run, labels, tid, k, sh, EnqLoadTail(x, n));
    SoloStep(run, labels, tid, k + 1, sh, EnqLoadVersion(x, n, sh.tail));
    SoloStep(run, labels, tid, k + 2, sh, EnqLoadNext(x, n, sh.tail, v));
    SoloStep(run, labels, tid, k + 3, sh, EnqRecheckTail(x, n, sh.tail, v, nx));
    SoloStep(run, labels, tid, k + 4, sh, EnqRecheckVersion(x, n, sh.tail, v, nx));
  }

  lemma SoloLinks<T(!new)>(run: seq<State<T>>, labels: seq<Label<T>>, tid: Tid, k: nat, x: T, n: Ptr)
    requires Solo(run, labels, tid) && k + 7 <= |labels| && Inv(run[k]) && tid < |run[k].threads|
    requires run[k].threads[tid] == EnqLoadTail(x, n) && !Lags(run[k].sh)
    ensures tid < |run[k + 7].threads| && run[k + 7].threads[tid] == Done(Enqueued(x))
    ensures Contents(run[k + 7].sh) == Contents(run[k].sh) + [x] && !Lags(run[k + 7].sh)
  {
    var sh := run[k].sh;
    Ends(sh);
    SoloLooks(run, labels, tid, k, x, n);
    SoloStep(run, labels, tid, k + 5, sh, EnqCasNext(x, n, sh.tail));
    SoloFifo(run, labels, tid, k + 5);
    SoloStep(run, labels, tid, k + 6, Link(sh, x, n, sh.tail), EnqSwingTail(x, n, sh.tail));
    SoloFifo(run, labels, tid, k + 6);
    SoloKeepsInv(run, labels, tid, k + 6);
    assert Lags(run[k + 6].sh);
    Ends(run[k + 6].sh);
  }

  lemma SoloSwings<T(!new)>(run: seq<State<T>>, labels: seq<Label<T>>, tid: Tid, k: nat, x: T, n: Ptr)
    requires Solo(run, labels, tid) && k + 6 <= |labels| && Inv(run[k]) && tid < |run[k].threads|
    requires run[k].threads[tid] == EnqLoadTail(x, n) && Lags(run[k].sh)
    ensures tid < |run[k + 6].threads| && run[k + 6].threads[tid] == EnqLoadTail(x, n)
    ensures Contents(run[k + 6].sh) == Contents(run[k].sh) && !Lags(run[k + 6].sh)
  {
    var sh := run[k].sh;
    Ends(sh);
    SoloLooks(run, labels, tid, k, x, n);
    SoloStep(run, labels, tid, k + 5, sh, EnqHelpTail(x, n, sh.tail, sh.nodes[sh.tail].next.value));
    SoloFifo(run, labels, tid, k + 5);
  }

  lemma AllocateKeepsLag<T(!new)>(sh: Shared<T>, tid: Tid, x: T)
    requires Shape(sh)
    ensures Lags(Allocate(sh, tid, x)) <==> Lags(sh)
  {
    Ends(sh);
  }

  lemma SoloAllocates<T(!new)>(run: seq<State<T>>, labels: seq<Label<T>>, tid: Tid, x: T)
    requires Solo(run, labels, tid) && run[0].threads[tid].Idle? && |labels| >= 2
    requires labels[0].c.call == CallEnqueue(x)
    ensures Contents(run[2].sh) == Contents(run[0].sh) && tid < |run[2].threads|
    ensures labels[1].c.allocFails ==> run[2].threads[tid] == Done(NotEnqueued)
    ensures !labels[1].c.allocFails ==>
              run[2].threads[tid] == EnqLoadTail(x, |run[0].sh.nodes|) && (Lags(run[2].sh) <==> Lags(run[0].sh))
  {
    SoloCall(run, labels, tid);
    SoloStep(run, labels, tid, 1, run[0].sh, EnqAllocate(x));
    SoloFifo(run, labels, tid, 1);
    AllocateKeepsLag(run[0].sh, tid, x);
  }

  /** enqueue running alone from any reachable state appends its element and leaves tail at the
      end; it returns false exactly when it gets no node, and then nothing has changed. */
  lemma SoloEnqueue<T(!new)>(run: seq<State<T>>, labels: seq<Label<T>>, tid: Tid, x: T)
    requires Solo(run, labels, tid) && run[0].threads[tid].Idle? && |labels| >= 15
    requires labels[0].c.call == CallEnqueue(x)
    ensures var sh, q := run[0].sh, Contents(run[0].sh);
            if labels[1].c.allocFails then Returned(run[2], tid, NotEnqueued, q)
            else var end := run[if Lags(sh) then 15 else 9];
                 Returned(end, tid, Enqueued(x), q + [x]) && !Lags(end.sh)
  {
    SoloAllocates(run, labels, tid, x);
    if !labels[1].c.allocFails {
      SoloKeepsInv(run, labels, tid, 2);
      var n := |run[0].sh.nodes|;
      if Lags(run[0].sh) {
        SoloSwings(run, labels, tid, 2, x, n);
        SoloKeepsInv(run, labels, tid, 8);
        SoloLinks(run, labels, tid, 8, x, n);
      } else {
        SoloLinks(run, labels, tid, 2, x, n);
      }
    }
  }

  /** Nothing stops a thread from running alone: every such choice is a run. */
  lemma {:induction false} SoloExists<T(!new)>(s: State<T>, tid: Tid, cs: seq<Choice<T>>)
    returns (run: seq<State<T>>, labels: seq<Label<T>>)
    requires Inv(s) && tid < |s.threads| && forall k :: 0 <= k < |cs| ==> !cs[k].spurious
    ensures Solo(run, labels, tid) && run[0] == s && |labels| == |cs|
    ensures forall k :: 0 <= k < |cs| ==> labels[k].c == cs[k]
    decreases cs
  {
    if cs == [] {
      return [s], [];
    }
    var n := |cs| - 1;
    run, labels := SoloExists(s, tid, cs[..n]);
    SoloKeepsInv(run, labels, tid, n);
    InvIsSafe(run[n], tid);
    SoloExtends(run, labels, tid, Label(tid, cs[n]));
    run, labels := run + [Do(run[n], Label(tid, cs[n]))], labels + [Label(tid, cs[n])];
  }

  lemma SoloExtends<T(!new)>(run: seq<State<T>>, labels: seq<Label<T>>, tid: Tid, l: Label<T>)
    requires Solo(run, labels, tid) && Enabled(run[|labels|], l) && l.tid == tid && !l.c.spurious
    ensures Solo(run + [Do(run[|labels|], l)], labels + [l], tid)
  {
    var n, longer, more := |labels|, run + [Do(run[|labels|], l)], labels + [l];
    forall k | 0 <= k < |more| ensures StepAt(longer, more, k) && more[k].tid == tid && !more[k].c.spurious {
      if k < n { assert StepAt(run, labels, k); }
    }
  }

  // ----- why try_dequeue gives up -----

  /** At step m the dequeuer tid is disturbed: tail lags, head or tail moves, or its own CAS on
      head fails spuriously. */
  ghost predicate DisturbedBy<T(!new)>(run: seq<State<T>>, labels: seq<Label<T>>, tid: Tid, m: nat)
  {
    && m < |labels| && m + 1 < |run| && tid < |run[m].threads|
    && (|| Lags(run[m].sh)
        || run[m + 1].sh.head != run[m].sh.head || run[m + 1].sh.tail != run[m].sh.tail
        || (labels[m].tid == tid && labels[m].c.spurious && run[m].threads[tid].DeqCasHead?))
  }

  /** Between states b and j something disturbed the dequeuer. */
  ghost predicate Excused<T(!new)>(run: seq<State<T>>, labels: seq<Label<T>>, tid: Tid, b: nat, j: nat)
  {
    exists m :: b <= m < j && DisturbedBy(run, labels, tid, m)
  }

  /** nx is the next node behind h, and missing only when h is the tail t. */
  ghost predicate NextRead<T>(sh: Shared<T>, h: Ptr, t: Ptr, nx: Option<Ptr>) {
    if nx.None? then h == t else h != t && NextIs(sh, h, nx.value)
  }

  /** What an undisturbed attempt knows at each program counter: its snapshots are current. */
  ghost predicate Current<T>(sh: Shared<T>, pc: Pc<T>) {
    match pc
    case DeqFor(_, _) => true
    case DeqLoadHead(_, _) => true
    case DeqLoadVersion(_, _, h) => h == sh.head
    case DeqLoadTail(_, _, h, v) => h == sh.head && h < |sh.nodes| && v == sh.nodes[h].version
    case DeqLoadNext(_, _, h, v, t) => h == sh.head && h < |sh.nodes| && v == sh.nodes[h].version && t == sh.tail
    case DeqRecheckHead(_, _, h, v, t, nx) =>
      h == sh.head && h < |sh.nodes| && v == sh.nodes[h].version && t == sh.tail && NextRead(sh, h, t, nx)
    case DeqRecheckVersion(_, _, h, v, t, nx) =>
      h == sh.head && h < |sh.nodes| && v == sh.nodes[h].version && t == sh.tail && NextRead(sh, h, t, nx)
    case DeqCheckInit(_, _, h, m) => h == sh.head && m < |sh.nodes| && sh.nodes[m].elem.Some?
    case DeqCasHead(_, _, h, _) => h == sh.head
    case _ => false
  }

  predicate Attempting<T>(pc: Pc<T>, i: int, max: int) {
    match pc
    case DeqFor(i', max') => i' == i && max' == max
    case DeqLoadHead(i', max') => i' == i && max' == max && i < max
    case DeqLoadVersion(i', max', _) => i' == i && max' == max && i < max
    case DeqLoadTail(i', max', _, _) => i' == i && max' == max && i < max
    case DeqLoadNext(i', max', _, _, _) => i' == i && max' == max && i < max
    case DeqRecheckHead(i', max', _, _, _, _) => i' == i && max' == max && i < max
    case DeqRecheckVersion(i', max', _, _, _, _) => i' == i && max' == max && i < max
    case DeqHelpTail(i', max', _, _) => i' == i && max' == max && i < max
    case DeqCheckInit(i', max', _, _) => i' == i && max' == max && i < max
    case DeqCasHead(i', max', _, _) => i' == i && max' == max && i < max
    case _ => false
  }

  /** Versions of nodes in use never change, nor does the fact that a node holds an element. */
  lemma NodesStay<T(!new)>(s: State<T>, l: Label<T>, p: Ptr)
    requires Enabled(s, l) && p < |s.sh.nodes|
    ensures p < |Do(s, l).sh.nodes| && Do(s, l).sh.nodes[p].version == s.sh.nodes[p].version
    ensures s.sh.nodes[p].elem.Some? ==> Do(s, l).sh.nodes[p].elem.Some?
  {
  }

  /** A step of another thread keeps the snapshots current or moves head or tail. */
  lemma OthersKeepCurrent<T(!new)>(s: State<T>, l: Label<T>, pc: Pc<T>)
    requires Inv(s) && Enabled(s, l) && Current(s.sh, pc)
    requires Do(s, l).sh.head == s.sh.head && Do(s, l).sh.tail == s.sh.tail
    ensures Current(Do(s, l).sh, pc)
  {
    var p := match pc
      case DeqLoadTail(_, _, h, _) => h
      case DeqLoadNext(_, _, h, _, _) => h
      case DeqRecheckHead(_, _, h, _, _, _) => h
      case DeqRecheckVersion(_, _, h, _, _, _) => h
      case DeqCheckInit(_, _, _, m) => m
      case _ => 0;
    if p < |s.sh.nodes| { NodesStay(s, l, p); }
    StepIsMonotone(s, l);
  }

  /** A step of the attempt itself: undisturbed, it stays current, unless tail lags. */
  lemma OwnStepCurrent<T(!new)>(s: State<T>, l: Label<T>, i: int, max: int)
    requires Inv(s) && Enabled(s, l) && Attempting(s.threads[l.tid], i, max) && i < max && Current(s.sh, s.threads[l.tid])
    requires !Lags(s.sh) && !(l.c.spurious && s.threads[l.tid].DeqCasHead?)
    ensures var pc' := Do(s, l).threads[l.tid];
            pc' == Done(SawEmpty) || pc'.DeqTake? || (Attempting(pc', i, max) && Current(Do(s, l).sh, pc'))
  {
    Ends(s.sh);
    HeadNode(s.sh);
  }

  lemma HeadNode<T(!new)>(sh: Shared<T>)
    requires Shape(sh) && !Lags(sh)
    ensures sh.head < |sh.nodes| && (sh.nodes[sh.head].next == None <==> sh.head == sh.tail)
  {
    Ends(sh);
  }

  /** The attempts made so far in the call that step a began: attempt n begins in state at[n],
      and those that are over were excused. */
  ghost predicate Attempts<T(!new)>(
    run: seq<State<T>>, labels: seq<Label<T>>, tid: Tid, a: nat, k: nat, max: int, at: seq<nat>)
  {
    && k < |run| && at != [] && at[0] == a + 1 && (|at| == 1 || |at| <= max + 1)
    && (forall n :: 0 <= n < |at| ==>
          a < at[n] <= k && tid < |run[at[n]].threads| && run[at[n]].threads[tid] == DeqFor(n, max))
    && (forall n :: 0 <= n < |at| - 1 ==> at[n] < at[n + 1] && Excused(run, labels, tid, at[n], at[n + 1]))
  }

  /** The call has returned or is about to, or its last attempt is under way, either excused
      already or with current snapshots. */
  ghost predicate Trying<T(!new)>(
    run: seq<State<T>>, labels: seq<Label<T>>, tid: Tid, a: nat, k: nat, max: int, at: seq<nat>)
  {
    && Attempts(run, labels, tid, a, k, max, at) && tid < |run[k].threads|
    && var pc, i := run[k].threads[tid], |at| - 1;
       || pc.DeqTake? || pc.Idle?
       || (pc.Done? && (pc.out.GaveUp? ==> i >= max))
       || (Attempting(pc, i, max) && (Excused(run, labels, tid, at[i], k) || Current(run[k].sh, pc)))
  }

  /** One more attempt has begun in the state j behind k. */
  lemma NextAttempt<T(!new)>(
      run: seq<State<T>>, labels: seq<Label<T>>, tid: Tid, a: nat, k: nat, j: nat, max: int, at: seq<nat>)
    requires Attempts(run, labels, tid, a, k, max, at) && j == k + 1 < |run| && |at| - 1 < max
    requires tid < |run[j].threads| && run[j].threads[tid] == DeqFor(|at|, max)
    requires Excused(run, labels, tid, at[|at| - 1], j)
    ensures Trying(run, labels, tid, a, j, max, at + [j])
  {
  }

  lemma SameAttempt<T(!new)>(
      run: seq<State<T>>, labels: seq<Label<T>>, tid: Tid, a: nat, k: nat, j: nat, max: int, at: seq<nat>)
    requires Attempts(run, labels, tid, a, k, max, at) && j == k + 1 < |run|
    ensures Attempts(run, labels, tid, a, j, max, at)
  {
  }

  /** Where a step of an attempt can lead. */
  lemma AttemptGoesOn<T>(sh: Shared<T>, tid: Tid, pc: Pc<T>, c: Choice<T>, i: int, max: int)
    requires Safe(sh, pc) && Attempting(pc, i, max) && i < max
    ensures var pc' := Step(sh, tid, pc, c).1;
            Attempting(pc', i, max) || pc' == DeqFor(i + 1, max) || pc'.DeqTake? || pc' == Done(SawEmpty)
  {
  }

  lemma OthersStep<T(!new)>(
      run: seq<State<T>>, labels: seq<Label<T>>, tid: Tid, a: nat, k: nat, j: nat, max: int, at: seq<nat>)
    requires Trying(run, labels, tid, a, k, max, at) && StepAt(run, labels, k) && Inv(run[k]) && labels[k].tid != tid
    requires j == k + 1
    ensures Trying(run, labels, tid, a, j, max, at)
  {
    SameAttempt(run, labels, tid, a, k, j, max, at);
    var b, pc := at[|at| - 1], run[k].threads[tid];
    assert run[j].threads[tid] == pc;
    if Attempting(pc, |at| - 1, max) {
      if !Excused(run, labels, tid, b, k) && !DisturbedBy(run, labels, tid, k) {
        OthersKeepCurrent(run[k], labels[k], pc);
      }
    }
  }

  lemma OwnStep<T(!new)>(
      run: seq<State<T>>, labels: seq<Label<T>>, tid: Tid, a: nat, k: nat, j: nat, max: int, at: seq<nat>)
      returns (at': seq<nat>)
    requires Trying(run, labels, tid, a, k, max, at) && StepAt(run, labels, k) && Inv(run[k]) && labels[k].tid == tid
    requires Attempting(run[k].threads[tid], |at| - 1, max) && |at| - 1 < max && j == k + 1
    ensures Trying(run, labels, tid, a, j, max, at')
  {
    SameAttempt(run, labels, tid, a, k, j, max, at);
    var b, i := at[|at| - 1], |at| - 1;
    AttemptGoesOn(run[k].sh, tid, run[k].threads[tid], labels[k].c, i, max);
    at' := at;
    if Excused(run, labels, tid, b, k) || DisturbedBy(run, labels, tid, k) {
      assert Excused(run, labels, tid, b, j);
      if run[j].threads[tid] == DeqFor(i + 1, max) {
        NextAttempt(run, labels, tid, a, k, j, max, at);
        at' := at + [j];
      }
    } else {
      OwnStepCurrent(run[k], labels[k], i, max);
    }
  }

  /** A step that is no part of an attempt: line 234, or a return. */
  lemma LastStep<T(!new)>(
      run: seq<State<T>>, labels: seq<Label<T>>, tid: Tid, a: nat, k: nat, j: nat, max: int, at: seq<nat>)
    requires Trying(run, labels, tid, a, k, max, at) && StepAt(run, labels, k) && labels[k].tid == tid && j == k + 1
    requires Attempting(run[k].threads[tid], |at| - 1, max) ==> |at| - 1 >= max
    requires !run[k].threads[tid].Idle? && tid < |run[j].threads| && !run[j].threads[tid].Idle?
    ensures Trying(run, labels, tid, a, j, max, at)
  {
    SameAttempt(run, labels, tid, a, k, j, max, at);
  }

  lemma TryingStep<T(!new)>(
      run: seq<State<T>>, labels: seq<Label<T>>, tid: Tid, a: nat, k: nat, j: nat, max: int, at: seq<nat>)
      returns (at': seq<nat>)
    requires Trying(run, labels, tid, a, k, max, at) && StepAt(run, labels, k) && Inv(run[k]) && j == k + 1
    requires !run[k].threads[tid].Idle? && tid < |run[j].threads| && !run[j].threads[tid].Idle?
    ensures Trying(run, labels, tid, a, j, max, at')
  {
    at' := at;
    if labels[k].tid != tid {
      OthersStep(run, labels, tid, a, k, j, max, at);
    } else if Attempting(run[k].threads[tid], |at| - 1, max) && |at| - 1 < max {
      at' := OwnStep(run, labels, tid, a, k, j, max, at);
    } else {
      LastStep(run, labels, tid, a, k, j, max, at);
    }
  }

  lemma CallStarts<T(!new)>(run: seq<State<T>>, labels: seq<Label<T>>, tid: Tid, a: nat, max: int)
    requires Run(run, labels) && CallSince(run, tid, a, a + 1) && labels[a].c.call == CallTryDequeue(max)
    ensures Trying(run, labels, tid, a, a + 1, max, [a + 1])
  {
    assert StepAt(run, labels, a);
  }

  lemma {:induction false} CallTries<T(!new)>(run: seq<State<T>>, labels: seq<Label<T>>, tid: Tid, a: nat, k: nat, max: int)
    returns (at: seq<nat>)
    requires Run(run, labels) && CallSince(run, tid, a, k) && labels[a].c.call == CallTryDequeue(max)
    ensures Trying(run, labels, tid, a, k, max, at)
    decreases k
  {
    if k == a + 1 {
      CallStarts(run, labels, tid, a, max);
      at := [k];
    } else {
      StepInside(run, labels, tid, a, k - 1, k);
      var before := CallTries(run, labels, tid, a, k - 1, max);
      at := TryingStep(run, labels, tid, a, k - 1, k, max, before);
    }
  }

  /** The call that step a began goes on with the step from state k to state j. */
  lemma StepInside<T(!new)>(run: seq<State<T>>, labels: seq<Label<T>>, tid: Tid, a: nat, k: nat, j: nat)
    requires Run(run, labels) && CallSince(run, tid, a, j) && a < k && j == k + 1
    ensures CallSince(run, tid, a, k) && StepAt(run, labels, k) && Inv(run[k])
    ensures tid < |run[j].threads| && !run[k].threads[tid].Idle? && !run[j].threads[tid].Idle?
  {
    RunKeepsInv(run, labels, k);
    assert StepAt(run, labels, k);
  }

  /** In every run, try_dequeue reaches line 234 only after all its attempts, and during each of
      them tail lagged, head or tail moved, or its CAS on head failed spuriously. */
  lemma GaveUpWasDisturbed<T(!new)>(run: seq<State<T>>, labels: seq<Label<T>>, tid: Tid, a: nat, k: nat, max: int)
    requires Run(run, labels) && CallSince(run, tid, a, k) && labels[a].c.call == CallTryDequeue(max)
    requires run[k].threads[tid] == Done(GaveUp)
    ensures exists at :: Attempts(run, labels, tid, a, k, max, at) && |at| == 1 + if max > 0 then max else 0
  {
    var at := CallTries(run, labels, tid, a, k, max);
  }

  /** enqueue returns false only if the allocation in this very call failed. */
  lemma {:induction false} NotEnqueuedHadNoNode<T(!new)>(run: seq<State<T>>, labels: seq<Label<T>>, tid: Tid, a: nat, k: nat)
    requires Run(run, labels) && CallSince(run, tid, a, k) && run[k].threads[tid] == Done(NotEnqueued)
    ensures exists j :: a < j < k && labels[j].tid == tid && labels[j].c.allocFails && run[j].threads[tid].EnqAllocate?
    decreases k
  {
    assert StepAt(run, labels, k - 1);
    NotEnqueuedStep(run[k - 1], labels[k - 1], tid);
    if run[k - 1].threads[tid] == Done(NotEnqueued) {
      NotEnqueuedHadNoNode(run, labels, tid, a, k - 1);
    }
  }

  lemma NotEnqueuedStep<T>(s: State<T>, l: Label<T>, tid: Tid)
    requires Enabled(s, l) && tid < |s.threads| && Do(s, l).threads[tid] == Done(NotEnqueued)
    ensures s.threads[tid] == Done(NotEnqueued) || (l.tid == tid && l.c.allocFails && s.threads[tid].EnqAllocate?)
  {
  }
}
