/**
 The single-producer, single-consumer ring without a lock, as a step machine: every
 load and store of an index and every access to a slot is a step of its own, and the
 steps of the producer and of the consumer interleave in any order.
 */
module RingQueue {
  import opened Options
  import Modulo

  datatype Producer<T> =
    | PIdle
    | PLoadWrite(item: T, block: bool)
    | PTest(item: T, block: bool, cw: nat, nw: nat) // the loop test: loads read_idx_
    | PWriteSlot(item: T, cw: nat, nw: nat)
    | PStoreWrite(item: T, cw: nat, nw: nat)
    | PDone(ok: bool)

  datatype Consumer<T> =
    | CIdle
    | CLoadRead(block: bool)
    | CTest(block: bool, cr: nat)                   // the loop test: loads write_idx_
    | CReadSlot(cr: nat)
    | CStoreRead(cr: nat, item: T)
    | CDone(result: Option<T>)

  /** pushed and popped are history: the items published by a store to write_idx_, and
      those given up by a store to read_idx_. */
  datatype State<T> = State(
    N: nat, data: seq<T>, readIdx: nat, writeIdx: nat, p: Producer<T>, c: Consumer<T>,
    pushed: seq<T>, popped: seq<T>)

  datatype Event<T> =
    | Push(item: T, block: bool)
    | Pop(block: bool)
    | ProducerStep
    | ConsumerStep(movedFrom: T) // what is left in a slot that was moved from

  function Next(N: nat, i: nat): nat { (i + 1) % (N + 1) }

  predicate Enabled<T>(s: State<T>, e: Event<T>) {
    match e
    case Push(_, _) => s.p.PIdle?
    case Pop(_) => s.c.CIdle?
    case ProducerStep => !s.p.PIdle? && (s.p.PWriteSlot? ==> s.p.cw < |s.data|)
    case ConsumerStep(_) => !s.c.CIdle? && (s.c.CReadSlot? ==> s.c.cr < |s.data|)
  }

  function Do<T>(s: State<T>, e: Event<T>): State<T>
    requires Enabled(s, e)
  {
    match e
    case Push(item, block) => s.(p := PLoadWrite(item, block))
    case Pop(block) => s.(c := CLoadRead(block))
    case ProducerStep =>
      (match s.p
       case PLoadWrite(item, block) => s.(p := PTest(item, block, s.writeIdx, Next(s.N, s.writeIdx)))
       case PTest(item, block, cw, nw) =>
         if nw != s.readIdx then s.(p := PWriteSlot(item, cw, nw))
         else if !block then s.(p := PDone(false))
         else s
       case PWriteSlot(item, cw, nw) => s.(data := s.data[cw := item], p := PStoreWrite(item, cw, nw))
       case PStoreWrite(item, _, nw) => s.(writeIdx := nw, p := PDone(true), pushed := s.pushed + [item])
       case PDone(_) => s.(p := PIdle))
    case ConsumerStep(movedFrom) =>
      match s.c
      case CLoadRead(block) => s.(c := CTest(block, s.readIdx))
      case CTest(block, cr) =>
        if cr != s.writeIdx then s.(c := CReadSlot(cr))
        else if !block then s.(c := CDone(None))
        else s
      case CReadSlot(cr) => s.(data := s.data[cr := movedFrom], c := CStoreRead(cr, s.data[cr]))
      case CStoreRead(cr, item) => s.(readIdx := Next(s.N, cr), c := CDone(Some(item)), popped := s.popped + [item])
      case CDone(_) => s.(c := CIdle)
  }

  ghost predicate Init<T(!new)>(s: State<T>) {
    && |s.data| == s.N + 1 && s.readIdx == 0 && s.writeIdx == 0 && s.p.PIdle? && s.c.CIdle?
    && s.pushed == [] && s.popped == []
  }

  // ----- the invariant -----

  /** The item number k is in the slot k mod N+1. */
  ghost predicate InSlot<T>(s: State<T>, k: nat) {
    && k < |s.pushed| && k % (s.N + 1) < |s.data| && s.data[k % (s.N + 1)] == s.pushed[k]
  }

  /** First item the ring still holds: the consumer has moved out the one before. */
  function Oldest<T>(s: State<T>): nat { |s.popped| + if s.c.CStoreRead? then 1 else 0 }

  ghost predicate Inv<T(!new)>(s: State<T>) {
    var m, P, C := s.N + 1, |s.pushed|, |s.popped|;
    && |s.data| == m && s.popped <= s.pushed && P <= C + s.N
    && s.writeIdx == P % m && s.readIdx == C % m
    && (forall k :: Oldest(s) <= k < P ==> InSlot(s, k))
    && (match s.p
        case PTest(_, _, cw, nw) => cw == P % m && nw == (P + 1) % m
        case PWriteSlot(_, cw, nw) => cw == P % m && nw == (P + 1) % m && P < C + s.N
        case PStoreWrite(item, cw, nw) => cw == P % m && nw == (P + 1) % m && P < C + s.N && s.data[cw] == item
        case _ => true)
    && (match s.c
        case CTest(_, cr) => cr == C % m
        case CReadSlot(cr) => cr == C % m && C < P
        case CStoreRead(cr, item) => cr == C % m && C < P && item == s.pushed[C]
        case _ => true)
  }

  /** The producer's and the consumer's slot differ while items are in flight. */
  lemma SlotsApart<T(!new)>(s: State<T>, k: nat)
    requires Inv(s) && |s.popped| <= k < |s.pushed| < |s.popped| + s.N + 1
    ensures k % (s.N + 1) != |s.pushed| % (s.N + 1)
  {
    Modulo.Apart(k, |s.pushed|, s.N + 1);
  }

  /** The indices are equal exactly when the ring is empty, and one apart when it is full. */
  lemma IndicesTell<T(!new)>(s: State<T>)
    requires Inv(s)
    ensures s.readIdx == s.writeIdx <==> |s.pushed| == |s.popped|
    ensures (|s.pushed| + 1) % (s.N + 1) == s.readIdx <==> |s.pushed| == |s.popped| + s.N
  {
    var m, P, C := s.N + 1, |s.pushed|, |s.popped|;
    if C < P { Modulo.Apart(C, P, m); }
    if P < C + s.N {
      Modulo.Apart(C, P + 1, m);
    } else {
      Modulo.FullTurn(C, m);
    }
  }

  /** Writing a slot other than its own leaves an item in place. */
  lemma Kept<T(!new)>(s: State<T>, s': State<T>, k: nat, slot: nat, x: T)
    requires InSlot(s, k) && slot < |s.data| && slot != k % (s.N + 1)
    requires s'.data == s.data[slot := x] && s'.N == s.N && s'.pushed == s.pushed
    ensures InSlot(s', k)
  {
  }

  lemma WriteSlotKeepsInv<T(!new)>(s: State<T>)
    requires Inv(s) && s.p.PWriteSlot? && Enabled(s, ProducerStep)
    ensures Inv(Do(s, ProducerStep))
  {
    var s' := Do(s, ProducerStep);
    forall k | Oldest(s) <= k < |s.pushed| ensures InSlot(s', k) {
      assert InSlot(s, k);
      SlotsApart(s, k);
      Kept(s, s', k, s.p.cw, s.p.item);
    }
  }

  lemma StoreWriteKeepsInv<T(!new)>(s: State<T>)
    requires Inv(s) && s.p.PStoreWrite? && Enabled(s, ProducerStep)
    ensures Inv(Do(s, ProducerStep))
  {
    var s' := Do(s, ProducerStep);
    forall k | Oldest(s) <= k < |s.pushed| + 1 ensures InSlot(s', k) {
      if k < |s.pushed| { assert InSlot(s, k); }
    }
  }

  lemma ProducerKeepsInv<T(!new)>(s: State<T>)
    requires Inv(s) && Enabled(s, ProducerStep)
    ensures Inv(Do(s, ProducerStep))
  {
    if s.p.PWriteSlot? {
      WriteSlotKeepsInv(s);
    } else if s.p.PStoreWrite? {
      StoreWriteKeepsInv(s);
    } else {
      var s' := Do(s, ProducerStep);
      forall k | Oldest(s) <= k < |s.pushed| ensures InSlot(s', k) { assert InSlot(s, k); }
      if s.p.PLoadWrite? { Modulo.Next(|s.pushed|, s.N + 1); } else { IndicesTell(s); }
    }
  }

  lemma ReadSlotKeepsInv<T(!new)>(s: State<T>, movedFrom: T)
    requires Inv(s) && s.c.CReadSlot? && Enabled(s, ConsumerStep(movedFrom))
    ensures Inv(Do(s, ConsumerStep(movedFrom)))
  {
    var s' := Do(s, ConsumerStep(movedFrom));
    var C := |s.popped|;
    assert InSlot(s, C);
    forall k | C + 1 <= k < |s.pushed| ensures InSlot(s', k) {
      assert InSlot(s, k);
      Modulo.Apart(C, k, s.N + 1);
      Kept(s, s', k, s.c.cr, movedFrom);
    }
    if s.p.PStoreWrite? { SlotsApart(s, C); }
  }

  lemma StoreReadKeepsInv<T(!new)>(s: State<T>, movedFrom: T)
    requires Inv(s) && s.c.CStoreRead?
    ensures Inv(Do(s, ConsumerStep(movedFrom)))
  {
    var s' := Do(s, ConsumerStep(movedFrom));
    Modulo.Next(|s.popped|, s.N + 1);
    forall k | |s.popped| + 1 <= k < |s.pushed| ensures InSlot(s', k) { assert InSlot(s, k); }
  }

  lemma ConsumerKeepsInv<T(!new)>(s: State<T>, movedFrom: T)
    requires Inv(s) && Enabled(s, ConsumerStep(movedFrom))
    ensures Inv(Do(s, ConsumerStep(movedFrom)))
  {
    if s.c.CReadSlot? {
      ReadSlotKeepsInv(s, movedFrom);
    } else if s.c.CStoreRead? {
      StoreReadKeepsInv(s, movedFrom);
    } else {
      var s' := Do(s, ConsumerStep(movedFrom));
      forall k | |s.popped| <= k < |s.pushed| ensures InSlot(s', k) { assert InSlot(s, k); }
      IndicesTell(s);
    }
  }

  lemma StepKeepsInv<T(!new)>(s: State<T>, e: Event<T>)
    requires Inv(s) && Enabled(s, e)
    ensures Inv(Do(s, e))
  {
    match e
    case ProducerStep => ProducerKeepsInv(s);
    case ConsumerStep(movedFrom) => ConsumerKeepsInv(s, movedFrom);
    case _ => forall k | Oldest(s) <= k < |s.pushed| ensures InSlot(Do(s, e), k) { assert InSlot(s, k); }
  }

  ghost predicate StepAt<T(!new)>(run: seq<State<T>>, events: seq<Event<T>>, k: nat) {
    k + 1 < |run| && k < |events| && Enabled(run[k], events[k]) && run[k + 1] == Do(run[k], events[k])
  }

  ghost predicate Run<T(!new)>(run: seq<State<T>>, events: seq<Event<T>>) {
    |run| == |events| + 1 && Init(run[0]) && forall k :: 0 <= k < |events| ==> StepAt(run, events, k)
  }

  lemma {:induction false} RunKeepsInv<T(!new)>(run: seq<State<T>>, events: seq<Event<T>>, k: nat)
    requires Run(run, events) && k < |run|
    ensures Inv(run[k])
  {
    if k == 0 {
      Modulo.Unique(0, run[0].N + 1, 0, 0);
    } else {
      RunKeepsInv(run, events, k - 1);
      assert StepAt(run, events, k - 1);
      StepKeepsInv(run[k - 1], events[k - 1]);
    }
  }

  /** In every run: what was popped is a prefix of what was pushed, at most N items are in
      flight, and the slot being written is never the slot being read. */
  lemma RunIsFifo<T(!new)>(run: seq<State<T>>, events: seq<Event<T>>, k: nat)
    requires Run(run, events) && k < |run|
    ensures var s := run[k];
            && s.popped <= s.pushed && |s.pushed| - |s.popped| <= s.N
            && (s.p.PWriteSlot? && s.c.CReadSlot? ==> s.p.cw != s.c.cr)
  {
    RunKeepsInv(run, events, k);
    var s := run[k];
    if s.p.PWriteSlot? && s.c.CReadSlot? { SlotsApart(s, |s.popped|); }
  }

  /** A refused push means the ring was full when read_idx_ was loaded, and a refused pop
      that it was empty when write_idx_ was; a push or pop goes on only otherwise. */
  lemma RefusalsAreJustified<T(!new)>(run: seq<State<T>>, events: seq<Event<T>>, k: nat)
    requires Run(run, events) && k < |events|
    ensures var s, s' := run[k], run[k + 1];
            && (s.p.PTest? && s'.p == PDone(false) ==> |s.pushed| == |s.popped| + s.N)
            && (s.p.PTest? && s'.p.PWriteSlot? ==> |s.pushed| < |s.popped| + s.N)
            && (s.c.CTest? && s'.c == CDone(None) ==> s.pushed == s.popped)
            && (s.c.CTest? && s'.c.CReadSlot? ==> |s.popped| < |s.pushed|)
  {
    RunKeepsInv(run, events, k);
    assert StepAt(run, events, k);
    IndicesTell(run[k]);
  }

  /** The value a successful pop returns is the oldest item not yet popped. */
  lemma PopReturnsOldest<T(!new)>(s: State<T>, movedFrom: T)
    requires Inv(s) && s.c.CStoreRead?
    ensures |s.popped| < |s.pushed|
    ensures Do(s, ConsumerStep(movedFrom)).c == CDone(Some(s.pushed[|s.popped|]))
  {
  }

  // ----- every call does what its result says -----

  ghost predicate PushingAt<T>(run: seq<State<T>>, m: nat) { m < |run| && !run[m].p.PIdle? }

  /** The producer is in the push that step a began. */
  ghost predicate Pushing<T(!new)>(run: seq<State<T>>, a: nat, k: nat) {
    a < k && forall m :: a < m <= k ==> PushingAt(run, m)
  }

  ghost predicate FullAt<T>(run: seq<State<T>>, m: nat) {
    m < |run| && |run[m].pushed| == |run[m].popped| + run[m].N
  }

  ghost predicate EmptyAt<T>(run: seq<State<T>>, m: nat) { m < |run| && run[m].pushed == run[m].popped }

  /** What the producer still carries of its arguments. */
  ghost predicate Carries<T>(p: Producer<T>, item: T, block: bool) {
    match p
    case PLoadWrite(x, b) => x == item && b == block
    case PTest(x, b, _, _) => x == item && b == block
    case PWriteSlot(x, _, _) => x == item
    case PStoreWrite(x, _, _) => x == item
    case _ => false
  }

  /** A push has published its item, and nothing else, exactly when it is about to return true;
      one about to return false was not to block and found the ring full. */
  ghost predicate PushSoFar<T(!new)>(run: seq<State<T>>, a: nat, k: nat, item: T, block: bool) {
    && a < k < |run|
    && match run[k].p
       case PDone(true) => run[k].pushed == run[a].pushed + [item]
       case PDone(false) => run[k].pushed == run[a].pushed && !block && exists m :: a < m < k && FullAt(run, m)
       case _ => run[k].pushed == run[a].pushed && Carries(run[k].p, item, block)
  }

  lemma PushStep<T(!new)>(run: seq<State<T>>, events: seq<Event<T>>, a: nat, k: nat, j: nat, item: T, block: bool)
    requires PushSoFar(run, a, k, item, block) && StepAt(run, events, k) && Inv(run[k]) && j == k + 1 && PushingAt(run, j)
    ensures PushSoFar(run, a, j, item, block)
  {
    IndicesTell(run[k]);
    if run[j].p == PDone(false) && run[k].p != PDone(false) { assert FullAt(run, k); }
  }

  /** In every run: since its call a push has published exactly its item if it returns true, and
      nothing if it returns false, which needs a full ring at some moment of the call. */
  lemma {:induction false} PushDoesWhatItSays<T(!new)>(
      run: seq<State<T>>, events: seq<Event<T>>, a: nat, k: nat, item: T, block: bool)
    requires Run(run, events) && a < |events| && events[a] == Push(item, block) && Pushing(run, a, k)
    ensures PushSoFar(run, a, k, item, block)
    decreases k
  {
    assert PushingAt(run, k);
    if k == a + 1 {
      assert StepAt(run, events, a);
    } else {
      PushDoesWhatItSays(run, events, a, k - 1, item, block);
      RunKeepsInv(run, events, k - 1);
      assert StepAt(run, events, k - 1);
      PushStep(run, events, a, k - 1, k, item, block);
    }
  }

  ghost predicate PoppingAt<T>(run: seq<State<T>>, m: nat) { m < |run| && !run[m].c.CIdle? }

  ghost predicate Popping<T(!new)>(run: seq<State<T>>, a: nat, k: nat) {
    a < k && forall m :: a < m <= k ==> PoppingAt(run, m)
  }

  /** The consumer has not changed its mind about blocking. */
  ghost predicate Blocks<T>(c: Consumer<T>, block: bool) {
    match c
    case CLoadRead(b) => b == block
    case CTest(b, _) => b == block
    case CReadSlot(_) => true
    case CStoreRead(_, _) => true
    case _ => false
  }

  /** A pop has given up one item exactly when it is about to return that item; one about to
      return nothing was not to block and found the ring empty. */
  ghost predicate PopSoFar<T(!new)>(run: seq<State<T>>, a: nat, k: nat, block: bool) {
    && a < k < |run|
    && match run[k].c
       case CDone(Some(x)) => run[k].popped == run[a].popped + [x]
       case CDone(None) => run[k].popped == run[a].popped && !block && exists m :: a < m < k && EmptyAt(run, m)
       case _ => run[k].popped == run[a].popped && Blocks(run[k].c, block)
  }

  lemma PopStep<T(!new)>(run: seq<State<T>>, events: seq<Event<T>>, a: nat, k: nat, j: nat, block: bool)
    requires PopSoFar(run, a, k, block) && StepAt(run, events, k) && Inv(run[k]) && j == k + 1 && PoppingAt(run, j)
    ensures PopSoFar(run, a, j, block)
  {
    IndicesTell(run[k]);
    if run[j].c == CDone(None) && run[k].c != CDone(None) { assert EmptyAt(run, k); }
  }

  /** In every run: since its call a pop has given up exactly the item it returns, and none if it
      returns nothing, which needs an empty ring at some moment of the call. */
  lemma {:induction false} PopDoesWhatItSays<T(!new)>(run: seq<State<T>>, events: seq<Event<T>>, a: nat, k: nat, block: bool)
    requires Run(run, events) && a < |events| && events[a] == Pop(block) && Popping(run, a, k)
    ensures PopSoFar(run, a, k, block)
    decreases k
  {
    assert PoppingAt(run, k);
    if k == a + 1 {
      assert StepAt(run, events, a);
    } else {
      PopDoesWhatItSays(run, events, a, k - 1, block);
      RunKeepsInv(run, events, k - 1);
      assert StepAt(run, events, k - 1);
      PopStep(run, events, a, k - 1, k, block);
    }
  }

  // ----- a call that is left alone ends -----

  /** n steps of the producer alone. */
  function Produced<T>(s: State<T>, n: nat): State<T> {
    if n == 0 then s
    else
      var before := Produced(s, n - 1);
      if Enabled(before, ProducerStep) then Do(before, ProducerStep) else before
  }

  function Consumed<T>(s: State<T>, movedFrom: T, n: nat): State<T> {
    if n == 0 then s
    else
      var before := Consumed(s, movedFrom, n - 1);
      if Enabled(before, ConsumerStep(movedFrom)) then Do(before, ConsumerStep(movedFrom)) else before
  }

  /** A push in any reachable state, the consumer standing still: with room it returns true after
      four steps; a full ring refuses it after two, or keeps it testing. */
  lemma PushAlone<T(!new)>(s: State<T>, item: T, block: bool)
    requires Inv(s) && s.p.PIdle?
    ensures var s0 := Do(s, Push(item, block));
            if |s.pushed| < |s.popped| + s.N
            then Produced(s0, 4).p == PDone(true) && Produced(s0, 4).pushed == s.pushed + [item]
            else if !block then Produced(s0, 2).p == PDone(false)
            else Produced(s0, 2).p.PTest? && Produced(s0, 2) == Produced(s0, 1)
  {
    var s0 := Do(s, Push(item, block));
    StepKeepsInv(s, Push(item, block));
    ProducerKeepsInv(s0);
    var s1 := Do(s0, ProducerStep);
    assert Produced(s0, 1) == s1 by { assert Produced(s0, 0) == s0; }
    IndicesTell(s1);
    var s2 := Do(s1, ProducerStep);
    assert Produced(s0, 2) == s2;
    if |s.pushed| < |s.popped| + s.N {
      ProducerKeepsInv(s1);
      var s3 := Do(s2, ProducerStep);
      assert Produced(s0, 3) == s3;
      assert Produced(s0, 4) == Do(s3, ProducerStep);
    }
  }

  /** A pop in any reachable state, the producer standing still. */
  lemma PopAlone<T(!new)>(s: State<T>, movedFrom: T, block: bool)
    requires Inv(s) && s.c.CIdle?
    ensures var s0 := Do(s, Pop(block));
            if |s.popped| < |s.pushed|
            then var end := Consumed(s0, movedFrom, 4);
                 end.c == CDone(Some(s.pushed[|s.popped|])) && end.popped == s.popped + [s.pushed[|s.popped|]]
            else if !block then Consumed(s0, movedFrom, 2).c == CDone(None)
            else Consumed(s0, movedFrom, 2).c.CTest? && Consumed(s0, movedFrom, 2) == Consumed(s0, movedFrom, 1)
  {
    var s0 := Do(s, Pop(block));
    StepKeepsInv(s, Pop(block));
    ConsumerKeepsInv(s0, movedFrom);
    var s1 := Do(s0, ConsumerStep(movedFrom));
    assert Consumed(s0, movedFrom, 1) == s1 by { assert Consumed(s0, movedFrom, 0) == s0; }
    IndicesTell(s1);
    var s2 := Do(s1, ConsumerStep(movedFrom));
    assert Consumed(s0, movedFrom, 2) == s2;
    if |s.popped| < |s.pushed| {
      ConsumerKeepsInv(s1, movedFrom);
      var s3 := Do(s2, ConsumerStep(movedFrom));
      ConsumerKeepsInv(s2, movedFrom);
      assert Consumed(s0, movedFrom, 3) == s3;
      assert Consumed(s0, movedFrom, 4) == Do(s3, ConsumerStep(movedFrom));
    }
  }
}
