/**
 The asynchronous thread pool on top of the blocking queue: workers that dequeue until
 they get a terminate message, clients that post with any of the three overflow
 policies, and the destructor, which posts one terminate message per worker and joins.

 Threads 0..W-1 are the workers, thread W runs the destructor, the others are clients.
 The destructor begins when no post is in progress, and no post starts afterwards: a
 logger holds the pool's shared pointer for the whole of a post, and a post finds no
 pool once the last pointer is gone (async_logger-inl.h, sink_it_ and flush_).
 */
module ThreadPool {
  import opened Options
  import opened Sums
  import opened CircularQ
  import Q = BlockingQueue

  datatype Msg = Log(id: int) | Flush(id: int) | Terminate

  datatype Policy = Block | OverrunOldest | DiscardNew

  datatype Phase = Running | Posting(left: nat) | Joined

  datatype State = State(m: Q.State<Msg>, exited: seq<bool>, phase: Phase, processed: seq<Msg>)

  datatype Event =
    | Internal(e: Q.Event<Msg>)                     // a step inside a queue operation
    | WorkerStart(w: nat)                           // calls q_.dequeue
    | WorkerReturn(w: nat)                          // handles the message it got
    | ClientPost(c: nat, msg: Msg, policy: Policy)
    | ClientReturn(c: nat)
    | ShutdownBegin
    | PostTerminate
    | PostReturn
    | Join

  function PostOp(msg: Msg, policy: Policy): Q.Op<Msg> {
    match policy
    case Block => Q.Enqueue(msg)
    case OverrunOldest => Q.EnqueueNoWait(msg)
    case DiscardNew => Q.EnqueueIfRoom(msg)
  }

  /** The constructor throws unless the number of threads is between 1 and 1000. */
  ghost predicate Init(s: State) {
    && Q.Init(s.m) && 1 <= |s.exited| <= 1000 && |s.exited| < |s.m.threads|
    && (forall w :: 0 <= w < |s.exited| ==> !s.exited[w])
    && s.phase == Running && s.processed == []
  }

  predicate Enabled(s: State, e: Event) {
    var W := |s.exited|;
    && W < |s.m.threads|
    && match e
       case Internal(qe) =>
         && (qe.Lock? || qe.Notify? || qe.CountDiscard? || qe.SpuriousWake?)
         && Q.Enabled(s.m, qe)
       case WorkerStart(w) => w < W && !s.exited[w] && s.m.threads[w].Idle?
       case WorkerReturn(w) => w < W && s.m.threads[w].Finished? && s.m.threads[w].res.Got?
       case ClientPost(c, msg, _) => W < c < |s.m.threads| && s.phase.Running? && !msg.Terminate? && s.m.threads[c].Idle?
       case ClientReturn(c) => W < c < |s.m.threads| && s.m.threads[c].Finished?
       case ShutdownBegin => s.phase.Running? && forall c :: W < c < |s.m.threads| ==> s.m.threads[c].Idle?
       case PostTerminate => s.phase.Posting? && s.phase.left > 0 && s.m.threads[W].Idle?
       case PostReturn => s.m.threads[W].Finished?
       case Join => s.phase == Posting(0) && s.m.threads[W].Idle? && forall w :: 0 <= w < W ==> s.exited[w]
  }

  function Do(s: State, e: Event): State
    requires Enabled(s, e)
  {
    var W := |s.exited|;
    match e
    case Internal(qe) => s.(m := Q.Do(s.m, qe))
    case WorkerStart(w) => s.(m := Q.Do(s.m, Q.Call(w, Q.Dequeue)))
    case WorkerReturn(w) =>
      var msg := s.m.threads[w].res.x;
      if msg.Terminate? then s.(m := Q.Do(s.m, Q.Return(w)), exited := s.exited[w := true])
      else s.(m := Q.Do(s.m, Q.Return(w)), processed := s.processed + [msg])
    case ClientPost(c, msg, policy) => s.(m := Q.Do(s.m, Q.Call(c, PostOp(msg, policy))))
    case ClientReturn(c) => s.(m := Q.Do(s.m, Q.Return(c)))
    case ShutdownBegin => s.(phase := Posting(W))
    case PostTerminate =>
      s.(m := Q.Do(s.m, Q.Call(W, PostOp(Terminate, Block))), phase := Posting(s.phase.left - 1))
    case PostReturn => s.(m := Q.Do(s.m, Q.Return(W)))
    case Join => s.(phase := Joined)
  }

  // ----- what each thread can be doing -----

  predicate WorkerPc(pc: Q.Pc<Msg>, exited: bool) {
    match pc
    case Idle => true
    case Enter(op, _) => !exited && op.Dequeue?
    case Asleep(op) => !exited && op.Dequeue?
    case OweNotify(cv, res) => !exited && cv.PopCv? && res.Got?
    case Finished(res) => !exited && res.Got?
    case _ => false
  }

  predicate PosterPc(pc: Q.Pc<Msg>, terminate: bool) {
    match pc
    case Idle => true
    case Enter(op, _) => Q.Stores(op) && op.x.Terminate? == terminate && (terminate ==> op.Enqueue?)
    case Asleep(op) => op.Enqueue? && op.x.Terminate? == terminate
    case OweNotify(cv, res) => cv.PushCv? && !res.Got?
    case OweDiscard => !terminate
    case Finished(res) => !res.Got?
    case _ => false
  }

  predicate ThreadPc(s: State, t: nat, pc: Q.Pc<Msg>) {
    if t < |s.exited| then WorkerPc(pc, s.exited[t])
    else if t == |s.exited| then PosterPc(pc, true) && (!s.phase.Posting? ==> pc.Idle?)
    else PosterPc(pc, false) && (!s.phase.Running? ==> pc.Idle?)
  }

  ghost predicate Threads(s: State) {
    && |s.exited| < |s.m.threads|
    && forall t :: 0 <= t < |s.m.threads| ==> ThreadPc(s, t, s.m.threads[t])
  }

  /** The worker holds a terminate message it has taken. */
  predicate HoldsTerminate(pc: Q.Pc<Msg>) {
    (pc.OweNotify? || pc.Finished?) && pc.res == Q.Got(Terminate)
  }

  predicate HoldsMessage(pc: Q.Pc<Msg>) {
    (pc.OweNotify? || pc.Finished?) && pc.res.Got? && !pc.res.x.Terminate?
  }

  /** One per worker still looping: it has neither exited nor taken its terminate message. */
  function LoopFlags(s: State): (r: seq<int>)
    requires |s.exited| < |s.m.threads|
    ensures |r| == |s.exited|
  {
    seq(|s.exited|, w requires 0 <= w < |s.exited| => Q.One(!s.exited[w] && !HoldsTerminate(s.m.threads[w])))
  }

  function HoldFlags(s: State): (r: seq<int>)
    requires |s.exited| < |s.m.threads|
    ensures |r| == |s.exited|
  {
    seq(|s.exited|, w requires 0 <= w < |s.exited| => Q.One(HoldsMessage(s.m.threads[w])))
  }

  function Looping(s: State): int
    requires |s.exited| < |s.m.threads|
  { Sum(LoopFlags(s)) }

  function Holding(s: State): int
    requires |s.exited| < |s.m.threads|
  { Sum(HoldFlags(s)) }

  function TermFlags(q: seq<Msg>): (r: seq<int>)
    ensures |r| == |q|
  {
    seq(|q|, i requires 0 <= i < |q| => Q.One(q[i].Terminate?))
  }

  function Terms(q: seq<Msg>): int { Sum(TermFlags(q)) }

  function Unposted(s: State): nat
    requires |s.exited| < |s.m.threads|
  {
    (if s.phase.Posting? then s.phase.left else 0) + Q.One(Q.Carries(s.m.threads[|s.exited|]))
  }

  /** While the pool runs there is no terminate message. Afterwards the terminate messages
      are at the end of the queue, and those queued or still to be posted are as many as
      the workers still looping; once one has been taken, nothing else is queued. */
  ghost predicate Shutdown(s: State)
    requires |s.exited| < |s.m.threads|
  {
    if s.phase.Running? then Terms(s.m.q) == 0 && Looping(s) == |s.exited|
    else
      && (forall i, j :: 0 <= i < j < |s.m.q| && s.m.q[i].Terminate? ==> s.m.q[j].Terminate?)
      && Terms(s.m.q) + Unposted(s) == Looping(s)
      && (Looping(s) < |s.exited| ==> forall i :: 0 <= i < |s.m.q| ==> s.m.q[i].Terminate?)
      && (s.phase.Joined? ==> Looping(s) == 0 && forall w :: 0 <= w < |s.exited| ==> s.exited[w])
  }

  /** Every message taken from the queue was processed, is held, or ended a worker. */
  ghost predicate Counted(s: State)
    requires |s.exited| < |s.m.threads|
  {
    |s.m.exits| - s.m.overruns == |s.processed| + Holding(s) + |s.exited| - Looping(s)
  }

  ghost predicate Inv(s: State) {
    Q.Inv(s.m) && Threads(s) && 1 <= |s.exited| && Shutdown(s) && Counted(s)
  }

  // ----- flags -----

  lemma FlagsUpdate(s: State, s': State, w: nat)
    requires |s.exited| < |s.m.threads| && |s'.exited| == |s.exited| && |s'.m.threads| == |s.m.threads|
    requires w < |s.exited|
    requires forall v :: 0 <= v < |s.exited| && v != w ==>
               s'.exited[v] == s.exited[v] && HoldsTerminate(s'.m.threads[v]) == HoldsTerminate(s.m.threads[v])
               && HoldsMessage(s'.m.threads[v]) == HoldsMessage(s.m.threads[v])
    ensures Looping(s') == Looping(s) - LoopFlags(s)[w] + LoopFlags(s')[w]
    ensures Holding(s') == Holding(s) - HoldFlags(s)[w] + HoldFlags(s')[w]
  {
    assert LoopFlags(s') == LoopFlags(s)[w := LoopFlags(s')[w]];
    assert HoldFlags(s') == HoldFlags(s)[w := HoldFlags(s')[w]];
    SumUpdate(LoopFlags(s), w, LoopFlags(s')[w]);
    SumUpdate(HoldFlags(s), w, HoldFlags(s')[w]);
  }

  lemma FlagsSame(s: State, s': State)
    requires |s.exited| < |s.m.threads| && |s'.exited| == |s.exited| && |s'.m.threads| == |s.m.threads|
    requires forall v :: 0 <= v < |s.exited| ==>
               s'.exited[v] == s.exited[v] && HoldsTerminate(s'.m.threads[v]) == HoldsTerminate(s.m.threads[v])
               && HoldsMessage(s'.m.threads[v]) == HoldsMessage(s.m.threads[v])
    ensures Looping(s') == Looping(s) && Holding(s') == Holding(s)
  {
    assert LoopFlags(s') == LoopFlags(s);
    assert HoldFlags(s') == HoldFlags(s);
  }

  lemma TermsAppend(q: seq<Msg>, x: Msg)
    ensures Terms(q + [x]) == Terms(q) + Q.One(x.Terminate?)
  {
    assert TermFlags(q + [x]) == TermFlags(q) + [Q.One(x.Terminate?)];
    SumAppend(TermFlags(q), Q.One(x.Terminate?));
  }

  lemma TermsPop(q: seq<Msg>)
    requires q != []
    ensures Terms(q[1..]) == Terms(q) - Q.One(q[0].Terminate?)
  {
    assert TermFlags(q)[1..] == TermFlags(q[1..]);
  }

  lemma TermsBounds(q: seq<Msg>)
    ensures 0 <= Terms(q) <= |q|
    ensures Terms(q) == 0 ==> forall i :: 0 <= i < |q| ==> !q[i].Terminate?
  {
    SumOfFlags(TermFlags(q));
    if Terms(q) == 0 {
      forall i | 0 <= i < |q| ensures !q[i].Terminate? { assert TermFlags(q)[i] == 0; }
    }
  }

  // ----- steps inside a queue operation -----

  /** The other threads stay where they are, except that sleepers may have been notified. */
  predicate Similar(a: seq<Q.Pc<Msg>>, b: seq<Q.Pc<Msg>>, t: nat) {
    && |a| == |b|
    && forall v :: 0 <= v < |a| && v != t ==> b[v] == a[v] || (a[v].Asleep? && b[v] == Q.Enter(a[v].op, true))
  }

  predicate Inner(qe: Q.Event<Msg>) { qe.Lock? || qe.Notify? || qe.CountDiscard? || qe.SpuriousWake? }

  /** Where the step leaves its own thread. */
  function OwnPc(m: Q.State<Msg>, qe: Q.Event<Msg>): Q.Pc<Msg>
    requires Q.Enabled(m, qe) && Inner(qe)
  {
    var pc := m.threads[qe.t];
    if qe.Notify? then Q.Finished(pc.res)
    else if qe.CountDiscard? then Q.Finished(Q.Dropped)
    else if qe.SpuriousWake? then Q.Enter(pc.op, false)
    else
      match Q.SectionOf(m.q, m.cap, pc)
      case Wait => Q.Asleep(pc.op)
      case Drop => Q.OweDiscard
      case Fail => Q.Finished(Q.Nothing)
      case Store => if m.inside then Q.Finished(Q.Stored) else Q.OweNotify(Q.PushCv, Q.Stored)
      case Take => if m.inside then Q.Finished(Q.Got(m.q[0])) else Q.OweNotify(Q.PopCv, Q.Got(m.q[0]))
  }

  predicate Takes(m: Q.State<Msg>, qe: Q.Event<Msg>)
    requires Q.Enabled(m, qe)
  {
    qe.Lock? && Q.SectionOf(m.q, m.cap, m.threads[qe.t]).Take?
  }

  predicate Puts(m: Q.State<Msg>, qe: Q.Event<Msg>)
    requires Q.Enabled(m, qe)
  {
    qe.Lock? && Q.SectionOf(m.q, m.cap, m.threads[qe.t]).Store?
  }

  lemma InnerIsLocal(m: Q.State<Msg>, qe: Q.Event<Msg>)
    requires Q.Enabled(m, qe) && Inner(qe)
    ensures Similar(m.threads, Q.Do(m, qe).threads, qe.t)
    ensures Q.Do(m, qe).threads[qe.t] == OwnPc(m, qe)
  {
  }

  lemma InnerQueue(m: Q.State<Msg>, qe: Q.Event<Msg>)
    requires Q.Enabled(m, qe) && Inner(qe)
    ensures var m' := Q.Do(m, qe);
            && (Takes(m, qe) ==> m.q != [] && m'.q == m.q[1..] && |m'.exits| - m'.overruns == |m.exits| - m.overruns + 1)
            && (Puts(m, qe) ==> m'.q == Pushed(m.q, m.cap, m.threads[qe.t].op.x))
            && (!Takes(m, qe) ==> |m'.exits| - m'.overruns == |m.exits| - m.overruns)
            && (!Takes(m, qe) && !Puts(m, qe) ==> m'.q == m.q)
  {
  }

  /** What a step of its own leaves a thread of the pool doing. */
  lemma OwnPcIsOk(s: State, qe: Q.Event<Msg>)
    requires Threads(s) && Q.Enabled(s.m, qe) && Inner(qe)
    ensures ThreadPc(s, qe.t, OwnPc(s.m, qe))
    ensures Takes(s.m, qe) ==> qe.t < |s.exited| && !s.exited[qe.t]
    ensures Puts(s.m, qe) ==> qe.t >= |s.exited| && (s.m.threads[qe.t].op.x.Terminate? <==> qe.t == |s.exited|)
  {
    assert ThreadPc(s, qe.t, s.m.threads[qe.t]);
  }

  lemma InnerKeepsThreads(s: State, qe: Q.Event<Msg>)
    requires Threads(s) && Enabled(s, Internal(qe))
    ensures Threads(Do(s, Internal(qe)))
  {
    var s' := Do(s, Internal(qe));
    InnerIsLocal(s.m, qe);
    OwnPcIsOk(s, qe);
    forall t | 0 <= t < |s'.m.threads| ensures ThreadPc(s', t, s'.m.threads[t]) {
      assert ThreadPc(s, t, s.m.threads[t]);
    }
  }

  /** How a step inside a queue operation moves the counts of workers. */
  lemma InnerFlags(s: State, qe: Q.Event<Msg>)
    requires Threads(s) && Enabled(s, Internal(qe))
    ensures var s' := Do(s, Internal(qe));
            if Takes(s.m, qe)
            then Looping(s') == Looping(s) - Q.One(s.m.q[0].Terminate?)
                 && Holding(s') == Holding(s) + Q.One(!s.m.q[0].Terminate?)
            else Looping(s') == Looping(s) && Holding(s') == Holding(s)
  {
    var s' := Do(s, Internal(qe));
    InnerIsLocal(s.m, qe);
    OwnPcIsOk(s, qe);
    assert ThreadPc(s, qe.t, s.m.threads[qe.t]);
    if Takes(s.m, qe) {
      FlagsUpdate(s, s', qe.t);
    } else {
      FlagsSame(s, s');
    }
  }

  lemma InnerUnposted(s: State, qe: Q.Event<Msg>)
    requires Threads(s) && Enabled(s, Internal(qe))
    ensures Unposted(Do(s, Internal(qe))) == Unposted(s) - Q.One(Puts(s.m, qe) && qe.t == |s.exited|)
  {
    InnerIsLocal(s.m, qe);
    OwnPcIsOk(s, qe);
    assert ThreadPc(s, |s.exited|, s.m.threads[|s.exited|]);
    assert ThreadPc(s, qe.t, s.m.threads[qe.t]);
  }

  lemma TakeKeepsShutdown(s: State, qe: Q.Event<Msg>)
    requires Inv(s) && Enabled(s, Internal(qe)) && Takes(s.m, qe)
    ensures Shutdown(Do(s, Internal(qe))) && Counted(Do(s, Internal(qe)))
  {
    InnerQueue(s.m, qe);
    InnerFlags(s, qe);
    InnerUnposted(s, qe);
    OwnPcIsOk(s, qe);
    TermsPop(s.m.q);
    TermsBounds(s.m.q);
  }

  lemma PutKeepsShutdown(s: State, qe: Q.Event<Msg>)
    requires Inv(s) && Enabled(s, Internal(qe)) && Puts(s.m, qe)
    ensures Shutdown(Do(s, Internal(qe))) && Counted(Do(s, Internal(qe)))
  {
    var x := s.m.threads[qe.t].op.x;
    InnerQueue(s.m, qe);
    InnerFlags(s, qe);
    InnerUnposted(s, qe);
    OwnPcIsOk(s, qe);
    assert ThreadPc(s, qe.t, s.m.threads[qe.t]);
    TermsAppend(s.m.q, x);
    if |s.m.q| >= s.m.cap {
      TermsPop(s.m.q + [x]);
      TermsBounds(s.m.q);
      TermsBounds(Pushed(s.m.q, s.m.cap, x));
    }
  }

  lemma InternalKeepsInv(s: State, qe: Q.Event<Msg>)
    requires Inv(s) && Enabled(s, Internal(qe))
    ensures Inv(Do(s, Internal(qe)))
  {
    Q.StepKeepsInv(s.m, qe);
    InnerKeepsThreads(s, qe);
    if Takes(s.m, qe) {
      TakeKeepsShutdown(s, qe);
    } else if Puts(s.m, qe) {
      PutKeepsShutdown(s, qe);
    } else {
      InnerQueue(s.m, qe);
      InnerFlags(s, qe);
      InnerUnposted(s, qe);
    }
  }

  // ----- the other steps -----

  lemma WorkerReturnThreads(s: State, w: nat)
    requires Inv(s) && Enabled(s, WorkerReturn(w))
    ensures Q.Inv(Do(s, WorkerReturn(w)).m) && Threads(Do(s, WorkerReturn(w)))
  {
    var s' := Do(s, WorkerReturn(w));
    Q.StepKeepsInv(s.m, Q.Return(w));
    assert ThreadPc(s, w, s.m.threads[w]);
    forall t | 0 <= t < |s'.m.threads| ensures ThreadPc(s', t, s'.m.threads[t]) {
      assert ThreadPc(s, t, s.m.threads[t]);
    }
  }

  lemma WorkerReturnKeepsInv(s: State, w: nat)
    requires Inv(s) && Enabled(s, WorkerReturn(w))
    ensures Inv(Do(s, WorkerReturn(w)))
  {
    WorkerReturnThreads(s, w);
    WorkerReturnCounts(s, w);
    WorkerReturnShutdown(s, w);
  }

  /** Returning from dequeue changes what one worker holds, and no worker's loop flag. */
  lemma WorkerReturnSums(s: State, w: nat)
    requires Threads(s) && Enabled(s, WorkerReturn(w))
    ensures Looping(Do(s, WorkerReturn(w))) == Looping(s)
    ensures Holding(Do(s, WorkerReturn(w))) == Holding(s) - Q.One(HoldsMessage(s.m.threads[w]))
  {
    assert ThreadPc(s, w, s.m.threads[w]);
    FlagsUpdate(s, Do(s, WorkerReturn(w)), w);
  }

  lemma WorkerReturnCounts(s: State, w: nat)
    requires Inv(s) && Enabled(s, WorkerReturn(w))
    ensures Counted(Do(s, WorkerReturn(w)))
  {
    WorkerReturnSums(s, w);
  }

  lemma WorkerReturnShutdown(s: State, w: nat)
    requires Inv(s) && Enabled(s, WorkerReturn(w))
    ensures Shutdown(Do(s, WorkerReturn(w)))
  {
    WorkerReturnSums(s, w);
    assert ThreadPc(s, |s.exited|, s.m.threads[|s.exited|]);
  }

  lemma OtherKeepsInv(s: State, e: Event)
    requires Inv(s) && Enabled(s, e) && !e.Internal? && !e.WorkerReturn? && !e.ShutdownBegin? && !e.Join?
    ensures Inv(Do(s, e))
  {
    var s' := Do(s, e);
    var W := |s.exited|;
    var t0 := if e.WorkerStart? then e.w else if e.ClientPost? || e.ClientReturn? then e.c else W;
    var qe := if e.WorkerStart? then Q.Call(e.w, Q.Dequeue)
              else if e.ClientPost? then Q.Call(e.c, PostOp(e.msg, e.policy))
              else if e.PostTerminate? then Q.Call(W, PostOp(Terminate, Block))
              else Q.Return(t0);
    Q.StepKeepsInv(s.m, qe);
    assert ThreadPc(s, t0, s.m.threads[t0]);
    forall t | 0 <= t < |s'.m.threads| ensures ThreadPc(s', t, s'.m.threads[t]) {
      assert ThreadPc(s, t, s.m.threads[t]);
    }
    FlagsSame(s, s');
    assert ThreadPc(s, W, s.m.threads[W]);
  }

  lemma ShutdownBeginKeepsInv(s: State)
    requires Inv(s) && Enabled(s, ShutdownBegin)
    ensures Inv(Do(s, ShutdownBegin))
  {
    var s' := Do(s, ShutdownBegin);
    forall t | 0 <= t < |s'.m.threads| ensures ThreadPc(s', t, s'.m.threads[t]) {
      assert ThreadPc(s, t, s.m.threads[t]);
    }
    assert ThreadPc(s, |s.exited|, s.m.threads[|s.exited|]);
    FlagsSame(s, s');
    TermsBounds(s.m.q);
  }

  lemma JoinKeepsInv(s: State)
    requires Inv(s) && Enabled(s, Join)
    ensures Inv(Do(s, Join))
  {
    var s' := Do(s, Join);
    forall t | 0 <= t < |s'.m.threads| ensures ThreadPc(s', t, s'.m.threads[t]) {
      assert ThreadPc(s, t, s.m.threads[t]);
    }
    FlagsSame(s, s');
    AllExited(s);
  }

  lemma AllExited(s: State)
    requires |s.exited| < |s.m.threads| && forall w :: 0 <= w < |s.exited| ==> s.exited[w]
    ensures Looping(s) == 0
  {
    NoneLoops(|s.exited|);
    assert LoopFlags(s) == seq(|s.exited|, w => 0);
  }

  lemma {:induction false} NoneLoops(n: nat)
    ensures Sum(seq(n, w => 0)) == 0
  {
    if n > 0 {
      NoneLoops(n - 1);
      assert seq(n, w => 0)[1..] == seq(n - 1, w => 0);
    }
  }

  lemma StepKeepsInv(s: State, e: Event)
    requires Inv(s) && Enabled(s, e)
    ensures Inv(Do(s, e))
  {
    match e
    case Internal(qe) => InternalKeepsInv(s, qe);
    case WorkerReturn(w) => WorkerReturnKeepsInv(s, w);
    case ShutdownBegin => ShutdownBeginKeepsInv(s);
    case Join => JoinKeepsInv(s);
    case _ => OtherKeepsInv(s, e);
  }

  // ----- the shutdown makes progress and ends -----

  predicate Spurious(e: Event) { e.Internal? && e.e.SpuriousWake? }

  /** What a thread still costs: a notify owed may put a sleeper back to work. */
  function Cost(pc: Q.Pc<Msg>, idle: nat, finished: nat): int {
    match pc
    case Idle => idle
    case Enter(op, _) => if Q.Stores(op) then 9 else 1
    case Asleep(op) => if Q.Stores(op) then 8 else 0
    case OweNotify(cv, _) => finished + 2
    case Finished(_) => finished
    case _ => 1
  }

  function CostOf(s: State, t: nat): int
    requires t < |s.m.threads|
  {
    if t < |s.exited| then Cost(s.m.threads[t], if s.exited[t] then 0 else 2, 3) else Cost(s.m.threads[t], 0, 1)
  }

  function Costs(s: State): (r: seq<int>)
    ensures |r| == |s.m.threads|
  {
    seq(|s.m.threads|, t requires 0 <= t < |s.m.threads| => CostOf(s, t))
  }

  /** Bounds the steps left before the destructor returns. */
  function Measure(s: State): int {
    Sum(Costs(s)) + 5 * |s.m.q|
    + (match s.phase case Posting(left) => 10 * left + 1 case Running => 0 case Joined => 0)
  }

  lemma MeasureIsNatural(s: State)
    ensures Measure(s) >= 0
  {
    SumOfNaturals(Costs(s));
  }

  lemma CostsUpdate(s: State, s': State, t: nat)
    requires |s'.m.threads| == |s.m.threads| && t < |s.m.threads|
    requires forall v :: 0 <= v < |s.m.threads| && v != t ==> CostOf(s', v) == CostOf(s, v)
    ensures Sum(Costs(s')) == Sum(Costs(s)) - CostOf(s, t) + CostOf(s', t)
  {
    assert Costs(s') == Costs(s)[t := CostOf(s', t)];
    SumUpdate(Costs(s), t, CostOf(s', t));
  }

  function ThreadCost(s: State, t: nat, pc: Q.Pc<Msg>): int {
    if t < |s.exited| then Cost(pc, if s.exited[t] then 0 else 2, 3) else Cost(pc, 0, 1)
  }

  lemma WakeCosts(s: State, wake: Option<nat>)
    requires wake.Some? ==> wake.value < |s.m.threads| && s.m.threads[wake.value].Asleep?
    ensures Sum(Costs(s.(m := s.m.(threads := Q.Woken(s.m.threads, wake))))) == Sum(Costs(s)) + Q.One(wake.Some?)
  {
    var s' := s.(m := s.m.(threads := Q.Woken(s.m.threads, wake)));
    if wake.Some? {
      CostsUpdate(s, s', wake.value);
    } else {
      assert s' == s;
    }
  }

  lemma OwnCosts(s: State, t: nat, pc: Q.Pc<Msg>)
    requires t < |s.m.threads|
    ensures Sum(Costs(s.(m := s.m.(threads := s.m.threads[t := pc])))) == Sum(Costs(s)) - CostOf(s, t) + ThreadCost(s, t, pc)
  {
    CostsUpdate(s, s.(m := s.m.(threads := s.m.threads[t := pc])), t);
  }

  /** The costs look at the threads alone. */
  lemma CostsOfThreads(s: State, s': State)
    requires s'.m.threads == s.m.threads && s'.exited == s.exited
    ensures Costs(s') == Costs(s)
  {
  }

  /** At most one other thread is woken, which costs one. */
  lemma InnerCosts(s: State, qe: Q.Event<Msg>)
    requires Enabled(s, Internal(qe))
    ensures Sum(Costs(Do(s, Internal(qe))))
            <= Sum(Costs(s)) - CostOf(s, qe.t) + ThreadCost(s, qe.t, OwnPc(s.m, qe))
               + Q.One(qe.Notify? || (s.m.inside && (Takes(s.m, qe) || Puts(s.m, qe))))
  {
    var own := OwnPc(s.m, qe);
    var wake := if qe.Lock? || qe.Notify? then qe.wake else None;
    InnerThreads(s.m, qe, wake);
    var s1 := s.(m := s.m.(threads := s.m.threads[qe.t := own]));
    OwnCosts(s, qe.t, own);
    WakeCosts(s1, wake);
    CostsOfThreads(s1.(m := s1.m.(threads := Q.Woken(s1.m.threads, wake))), Do(s, Internal(qe)));
  }

  /** What the step does to its own thread's cost. */
  lemma OwnCostFalls(s: State, qe: Q.Event<Msg>)
    requires Threads(s) && Enabled(s, Internal(qe)) && !s.phase.Running?
    ensures var change := ThreadCost(s, qe.t, OwnPc(s.m, qe)) - CostOf(s, qe.t);
            && (Takes(s.m, qe) ==> change <= if s.m.inside then 2 else 4)
            && (Puts(s.m, qe) ==> change <= if s.m.inside then -8 else -6)
            && (qe.Notify? ==> change == -2)
            && (qe.SpuriousWake? ==> change == 1)
            && (!Takes(s.m, qe) && !Puts(s.m, qe) && !qe.Notify? && !qe.SpuriousWake? ==> change <= -1)
  {
    assert ThreadPc(s, qe.t, s.m.threads[qe.t]);
  }

  lemma InnerThreads(m: Q.State<Msg>, qe: Q.Event<Msg>, wake: Option<nat>)
    requires Q.Enabled(m, qe) && Inner(qe)
    requires wake == if qe.Lock? || qe.Notify? then qe.wake else None
    ensures wake.Some? ==> wake.value < |m.threads| && wake.value != qe.t && m.threads[wake.value].Asleep?
                           && (qe.Notify? || (m.inside && (Takes(m, qe) || Puts(m, qe))))
    ensures Q.Do(m, qe).threads == Q.Woken(m.threads[qe.t := OwnPc(m, qe)], wake)
  {
  }

  lemma InnerGetsCloser(s: State, qe: Q.Event<Msg>)
    requires Inv(s) && Enabled(s, Internal(qe)) && !s.phase.Running?
    ensures Measure(Do(s, Internal(qe))) <= Measure(s) + if qe.SpuriousWake? then 1 else -1
  {
    InnerCosts(s, qe);
    OwnCostFalls(s, qe);
    InnerQueue(s.m, qe);
  }

  /** After the destructor has begun, every step but a spurious wake-up gets closer to the end. */
  lemma ShutdownStepsGetCloser(s: State, e: Event)
    requires Inv(s) && Enabled(s, e) && !s.phase.Running?
    ensures Measure(Do(s, e)) <= Measure(s) + if Spurious(e) then 1 else -1
  {
    var s' := Do(s, e);
    var W := |s.exited|;
    assert ThreadPc(s, W, s.m.threads[W]);
    assert e.ClientReturn? ==> ThreadPc(s, e.c, s.m.threads[e.c]);
    assert e.WorkerReturn? ==> ThreadPc(s, e.w, s.m.threads[e.w]);
    match e
    case Internal(qe) => InnerGetsCloser(s, qe);
    case WorkerStart(w) => CostsUpdate(s, s', w);
    case WorkerReturn(w) => CostsUpdate(s, s', w);
    case PostTerminate => CostsUpdate(s, s', W);
    case PostReturn => CostsUpdate(s, s', W);
    case Join => assert Costs(s') == Costs(s);
    case _ =>
  }

  ghost predicate StepAt(run: seq<State>, events: seq<Event>, k: nat) {
    k + 1 < |run| && k < |events| && Enabled(run[k], events[k]) && run[k + 1] == Do(run[k], events[k])
  }

  ghost predicate Steps(run: seq<State>, events: seq<Event>) {
    |run| == |events| + 1 && forall k :: 0 <= k < |events| ==> StepAt(run, events, k)
  }

  function Wakes(events: seq<Event>, k: nat): nat
    requires k <= |events|
  {
    if k == 0 then 0 else Wakes(events, k - 1) + Q.One(Spurious(events[k - 1]))
  }

  /** From the moment the destructor has begun, no run is longer than the measure plus two
      steps per spurious wake-up. */
  lemma {:induction false} ShutdownEnds(run: seq<State>, events: seq<Event>, k: nat)
    requires Steps(run, events) && k <= |events| && Inv(run[0]) && !run[0].phase.Running?
    ensures Inv(run[k]) && !run[k].phase.Running?
    ensures k + Measure(run[k]) <= Measure(run[0]) + 2 * Wakes(events, k)
    ensures k <= Measure(run[0]) + 2 * Wakes(events, k)
  {
    if k > 0 {
      ShutdownEnds(run, events, k - 1);
      assert StepAt(run, events, k - 1);
      StepKeepsInv(run[k - 1], events[k - 1]);
      ShutdownStepsGetCloser(run[k - 1], events[k - 1]);
    }
    MeasureIsNatural(run[k]);
  }

  /** A thread notify_one may choose. */
  lemma SomeWake(threads: seq<Q.Pc<Msg>>, cv: Q.Cv) returns (wake: Option<nat>)
    ensures Q.WakeOk(threads, cv, wake)
  {
    if u :| 0 <= u < |threads| && Q.SleepsOn(threads[u], cv) { wake := Some(u); } else { wake := None; }
  }

  predicate Busy(pc: Q.Pc<Msg>) { pc.Enter? || pc.OweNotify? || pc.OweDiscard? || pc.Finished? }

  lemma BusyMoves(s: State, t: nat) returns (e: Event)
    requires Inv(s) && t < |s.m.threads| && Busy(s.m.threads[t])
    ensures Enabled(s, e) && !Spurious(e)
  {
    var pc := s.m.threads[t];
    assert ThreadPc(s, t, pc);
    if pc.Finished? {
      e := if t < |s.exited| then WorkerReturn(t) else if t == |s.exited| then PostReturn else ClientReturn(t);
    } else if pc.OweDiscard? {
      e := Internal(Q.CountDiscard(t));
    } else if pc.OweNotify? {
      var wake := SomeWake(s.m.threads, pc.cv);
      e := Internal(Q.Notify(t, wake));
    } else {
      var sec := Q.SectionOf(s.m.q, s.m.cap, pc);
      var wake := SomeWake(s.m.threads, if sec.Store? then Q.PushCv else Q.PopCv);
      e := Internal(Q.Lock(t, if s.m.inside && (sec.Store? || sec.Take?) then wake else None));
    }
  }

  /** While the destructor has not returned, some step that is not a spurious wake-up is
      possible: the shutdown never deadlocks. */
  lemma ShutdownMoves(s: State) returns (e: Event)
    requires Inv(s) && s.phase.Posting? && s.m.cap >= 1
    ensures Enabled(s, e) && !Spurious(e)
  {
    var W := |s.exited|;
    assert ThreadPc(s, W, s.m.threads[W]);
    if t :| 0 <= t < |s.m.threads| && Busy(s.m.threads[t]) {
      e := BusyMoves(s, t);
    } else if w :| 0 <= w < W && !s.exited[w] && s.m.threads[w].Idle? {
      e := WorkerStart(w);
    } else if s.m.threads[W].Idle? && s.phase.left > 0 {
      e := PostTerminate;
    } else {
      assert forall t :: 0 <= t < |s.m.threads| ==> ThreadPc(s, t, s.m.threads[t]);
      Q.RestIsJustified(s.m);
      EveryoneExited(s);
      e := Join;
    }
  }

  lemma EveryoneExited(s: State)
    requires Inv(s) && s.phase.Posting? && s.m.cap >= 1
    requires forall t :: 0 <= t < |s.m.threads| ==> Q.Resting(s.m.threads[t]) && !Busy(s.m.threads[t])
    requires forall w :: 0 <= w < |s.exited| && s.m.threads[w].Idle? ==> s.exited[w]
    requires s.m.threads[|s.exited|].Idle? ==> s.phase.left == 0
    requires forall t :: 0 <= t < |s.m.threads| && Q.SleepsOn(s.m.threads[t], Q.PushCv) ==> s.m.q == []
    requires forall t :: 0 <= t < |s.m.threads| && Q.SleepsOn(s.m.threads[t], Q.PopCv) ==> |s.m.q| == s.m.cap
    ensures s.m.threads[|s.exited|].Idle?
    ensures forall w :: 0 <= w < |s.exited| ==> s.exited[w]
  {
    var W := |s.exited|;
    assert ThreadPc(s, W, s.m.threads[W]);
    TermsBounds(s.m.q);
    LoopingMeansAsleep(s);
    if !s.m.threads[W].Idle? {
      assert Q.SleepsOn(s.m.threads[W], Q.PopCv);
    }
  }

  /** When no worker is busy, a worker still looping sleeps, so the queue is empty. */
  lemma LoopingMeansAsleep(s: State)
    requires Inv(s)
    requires forall t :: 0 <= t < |s.m.threads| ==> !Busy(s.m.threads[t])
    requires forall w :: 0 <= w < |s.exited| && s.m.threads[w].Idle? ==> s.exited[w]
    requires forall t :: 0 <= t < |s.m.threads| && Q.SleepsOn(s.m.threads[t], Q.PushCv) ==> s.m.q == []
    ensures Looping(s) >= 0
    ensures Looping(s) > 0 ==> s.m.q == []
    ensures Looping(s) == 0 ==> forall w :: 0 <= w < |s.exited| ==> s.exited[w]
  {
    SumOfFlags(LoopFlags(s));
    forall w | 0 <= w < |s.exited|
      ensures LoopFlags(s)[w] == 0 ==> s.exited[w]
      ensures LoopFlags(s)[w] != 0 ==> s.m.q == []
    {
      assert ThreadPc(s, w, s.m.threads[w]);
      if !s.exited[w] { assert Q.SleepsOn(s.m.threads[w], Q.PushCv); }
    }
    if Looping(s) > 0 && forall w :: 0 <= w < |s.exited| ==> LoopFlags(s)[w] == 0 {
      AllZero(LoopFlags(s));
    }
  }

  lemma {:induction false} AllZero(xs: seq<int>)
    requires forall i :: 0 <= i < |xs| ==> xs[i] == 0
    ensures Sum(xs) == 0
    decreases xs
  {
    if xs != [] { AllZero(xs[1..]); }
  }

  lemma {:induction false} AllOne(xs: seq<int>)
    requires forall i :: 0 <= i < |xs| ==> xs[i] == 1
    ensures Sum(xs) == |xs|
    decreases xs
  {
    if xs != [] { AllOne(xs[1..]); }
  }

  /** When the destructor has returned, every worker has exited, the queue is empty, and
      every item posted was processed, ended a worker, was overrun or was discarded. */
  lemma JoinedIsClean(s: State)
    requires Inv(s) && s.phase.Joined?
    ensures forall w :: 0 <= w < |s.exited| ==> s.exited[w]
    ensures s.m.q == []
    ensures s.m.posts == |s.processed| + |s.exited| + s.m.overruns + s.m.discards
  {
    forall t | 0 <= t < |s.m.threads| ensures s.m.threads[t].Idle? {
      assert ThreadPc(s, t, s.m.threads[t]);
    }
    TermsBounds(s.m.q);
    AllOne(TermFlags(s.m.q));
    AllZero(HoldFlags(s));
    IdleTally(s.m.threads);
    assert |Q.Left(s.m.exits)| == |s.m.exits|;
  }

  lemma IdleTally(threads: seq<Q.Pc<Msg>>)
    requires forall t :: 0 <= t < |threads| ==> threads[t].Idle?
    ensures Q.Total(threads).carried == 0 && Q.Total(threads).owedDiscard == 0
  {
    var ts := Q.Tallies(threads);
    forall i | 0 <= i < |ts| ensures Q.AtMost(ts[i], Q.ZERO) {
      assert ts[i] == Q.TallyOf(threads[i]);
    }
    Q.NoneBusy(ts);
    Q.TotalIsNatural(threads);
  }

  lemma InitKeepsInv(s: State)
    requires Init(s)
    ensures Inv(s)
  {
    Q.InitKeepsInv(s.m);
    AllOne(LoopFlags(s));
    AllZero(HoldFlags(s));
    assert Q.Left(s.m.exits) == [];
  }

  /** Every state of every run satisfies the invariant. */
  lemma {:induction false} RunKeepsInv(run: seq<State>, events: seq<Event>, k: nat)
    requires Steps(run, events) && Init(run[0]) && k <= |events|
    ensures Inv(run[k])
  {
    if k == 0 {
      InitKeepsInv(run[0]);
    } else {
      RunKeepsInv(run, events, k - 1);
      assert StepAt(run, events, k - 1);
      StepKeepsInv(run[k - 1], events[k - 1]);
    }
  }

  // ----- where the shutdown fails -----

  lemma StuckLooping(s: State, e: Event)
    requires Inv(s) && Enabled(s, e) && s.m.cap == 0 && s.phase.Posting? && Looping(s) == |s.exited|
    ensures var s' := Do(s, e); s'.m.cap == 0 && s'.phase.Posting? && Looping(s') == |s'.exited|
  {
    if e.Internal? {
      InnerFlags(s, e.e);
    } else if e.Join? {
      AllExited(s);
    } else if e.WorkerReturn? {
      WorkerReturnSums(s, e.w);
    } else {
      FlagsSame(s, Do(s, e));
    }
  }

  lemma StuckStep(s: State, e: Event)
    requires Inv(s) && Enabled(s, e) && s.m.cap == 0 && s.phase.Posting? && Looping(s) == |s.exited|
    ensures var s' := Do(s, e);
            Inv(s') && s'.m.cap == 0 && s'.phase.Posting? && Looping(s') == |s'.exited|
  {
    StepKeepsInv(s, e);
    StuckLooping(s, e);
  }

  /** With capacity 0 the destructor never returns: no run of any length joins. */
  lemma {:induction false} NoCapacityNeverJoins(run: seq<State>, events: seq<Event>, k: nat)
    requires Steps(run, events) && k <= |events| && Inv(run[0])
    requires run[0].m.cap == 0 && run[0].phase == Posting(|run[0].exited|)
    ensures Inv(run[k]) && run[k].m.cap == 0 && run[k].phase.Posting? && Looping(run[k]) == |run[k].exited|
  {
    if k == 0 {
      TermsBounds(run[0].m.q);
      SumOfFlags(LoopFlags(run[0]));
    } else {
      NoCapacityNeverJoins(run, events, k - 1);
      assert StepAt(run, events, k - 1);
      StuckStep(run[k - 1], events[k - 1]);
    }
  }

  /** Any pool without capacity gets there by the first step of its destructor. */
  lemma NoCapacityStarts(s: State)
    requires Init(s) && s.m.cap == 0
    ensures Enabled(s, ShutdownBegin)
    ensures var s' := Do(s, ShutdownBegin);
            Inv(s') && s'.m.cap == 0 && s'.phase == Posting(|s'.exited|)
  {
    InitKeepsInv(s);
    ShutdownBeginKeepsInv(s);
  }

  /** The smallest such pool: one worker, no client. */
  lemma NoCapacityExists()
    ensures var s := State(Q.State([], 0, false, 0, 0, [Q.Idle, Q.Idle], 0, [], [], []), [false], Running, []);
            Init(s) && s.m.cap == 0 && Enabled(s, ShutdownBegin)
  {
  }

  // ----- why no post may run beside the destructor -----

  /** A message pushed over the oldest of a full queue, from call to return; wake is the
      consumer its notify reaches. */
  function Overrun(m: Q.State<Msg>, x: Msg, wake: Option<nat>): Q.State<Msg>
    requires |m.q| == m.cap && Q.WakeOk(m.threads, Q.PushCv, wake)
  {
    m.(q := Pushed(m.q, m.cap, x), posts := m.posts + 1, pushed := m.pushed + [x], overruns := m.overruns + 1,
       exits := m.exits + [Q.Exit.Overrun((m.q + [x])[0])], threads := Q.Woken(m.threads, wake))
  }

  /** It is the four steps of enqueue_nowait, with the notify in either place. */
  lemma OverrunIsEnqueueNoWait(m: Q.State<Msg>, c: nat, x: Msg, wake: Option<nat>)
    requires c < |m.threads| && m.threads[c].Idle? && |m.q| == m.cap && Q.WakeOk(m.threads, Q.PushCv, wake)
    ensures var call := Q.Call(c, Q.EnqueueNoWait(x));
            && Q.Enabled(m, call)
            && var m1 := Q.Do(m, call);
            var lock := Q.Lock(c, if m.inside then wake else None);
            && Q.Enabled(m1, lock)
            && var m2 := Q.Do(m1, lock);
            && (m.inside ==> Q.Enabled(m2, Q.Return(c)) && Q.Do(m2, Q.Return(c)) == Overrun(m, x, wake))
            && (!m.inside ==>
                  && Q.Enabled(m2, Q.Notify(c, wake))
                  && var m3 := Q.Do(m2, Q.Notify(c, wake));
                  Q.Enabled(m3, Q.Return(c)) && Q.Do(m3, Q.Return(c)) == Overrun(m, x, wake))
  {
    var m1 := Q.Do(m, Q.Call(c, Q.EnqueueNoWait(x)));
    Q.StillWakeOk(m.threads, c, m1.threads[c], Q.PushCv, wake);
    var m2 := Q.Do(m1, Q.Lock(c, if m.inside then wake else None));
    if m.inside {
      assert m2.threads[c := Q.Idle] == Q.Woken(m.threads, wake);
    } else {
      Q.StillWakeOk(m.threads, c, m2.threads[c], Q.PushCv, wake);
      var m3 := Q.Do(m2, Q.Notify(c, wake));
      assert m3.threads[c := Q.Idle] == Q.Woken(m.threads, wake);
    }
  }

  /** Fewer terminate messages queued or to be posted than workers still looping. */
  ghost predicate Deficit(s: State) {
    Threads(s) && s.phase.Posting? && Terms(s.m.q) + Unposted(s) < Looping(s)
  }

  /** A post beside the destructor that overruns a terminate message leaves one too few. */
  lemma OverrunEvictsTerminate(s: State, x: Msg, wake: Option<nat>)
    requires Inv(s) && s.phase.Posting? && |s.m.q| == s.m.cap && s.m.q != [] && s.m.q[0].Terminate? && !x.Terminate?
    requires Q.WakeOk(s.m.threads, Q.PushCv, wake)
    ensures Deficit(s.(m := Overrun(s.m, x, wake)))
  {
    var s' := s.(m := Overrun(s.m, x, wake));
    TermsAppend(s.m.q, x);
    TermsPop(s.m.q + [x]);
    forall t | 0 <= t < |s'.m.threads| ensures ThreadPc(s', t, s'.m.threads[t]) {
      assert ThreadPc(s, t, s.m.threads[t]);
    }
    FlagsSame(s, s');
    assert ThreadPc(s, |s.exited|, s.m.threads[|s.exited|]);
  }

  lemma InternalKeepsDeficit(s: State, qe: Q.Event<Msg>)
    requires Deficit(s) && Enabled(s, Internal(qe))
    ensures Deficit(Do(s, Internal(qe)))
  {
    InnerKeepsThreads(s, qe);
    InnerQueue(s.m, qe);
    InnerFlags(s, qe);
    InnerUnposted(s, qe);
    OwnPcIsOk(s, qe);
    assert ThreadPc(s, qe.t, s.m.threads[qe.t]);
    if Takes(s.m, qe) {
      TermsPop(s.m.q);
    } else if Puts(s.m, qe) {
      var x := s.m.threads[qe.t].op.x;
      TermsAppend(s.m.q, x);
      TermsPop(s.m.q + [x]);
    }
  }

  lemma OtherKeepsDeficit(s: State, e: Event)
    requires Deficit(s) && Enabled(s, e) && !e.Internal? && !e.Join?
    ensures Deficit(Do(s, e))
  {
    var s' := Do(s, e);
    var W := |s.exited|;
    assert ThreadPc(s, W, s.m.threads[W]);
    assert e.ClientReturn? ==> ThreadPc(s, e.c, s.m.threads[e.c]);
    assert e.WorkerReturn? || e.WorkerStart? ==> ThreadPc(s, e.w, s.m.threads[e.w]);
    forall t | 0 <= t < |s'.m.threads| ensures ThreadPc(s', t, s'.m.threads[t]) {
      assert ThreadPc(s, t, s.m.threads[t]);
    }
    if e.WorkerReturn? {
      FlagsUpdate(s, s', e.w);
    } else {
      FlagsSame(s, s');
    }
  }

  /** And then the destructor never joins, in any continuation without further posts. */
  lemma {:induction false} DeficitNeverJoins(run: seq<State>, events: seq<Event>, k: nat)
    requires Steps(run, events) && k <= |events| && Deficit(run[0])
    ensures Deficit(run[k])
  {
    if k > 0 {
      DeficitNeverJoins(run, events, k - 1);
      assert StepAt(run, events, k - 1);
      var s, e := run[k - 1], events[k - 1];
      if e.Internal? {
        InternalKeepsDeficit(s, e.e);
      } else if e.Join? {
        TermsBounds(s.m.q);
        AllExited(s);
      } else {
        OtherKeepsDeficit(s, e);
      }
    }
  }
}
