/**
 What one post to the thread pool does, for each overflow policy, and what becomes of the
 messages that reach the queue.
 */
module PoolPosts {
  import opened Options
  import opened Sums
  import Q = BlockingQueue
  import C = BlockingCalls
  import opened ThreadPool

  function Queues(run: seq<State>): (ms: seq<Q.State<Msg>>)
    ensures |ms| == |run|
  {
    seq(|run|, i requires 0 <= i < |run| => run[i].m)
  }

  /** The event is a step of client c. */
  predicate IsBy(e: Event, c: nat) {
    match e
    case Internal(qe) => qe.t == c
    case ClientPost(c', _, _) => c' == c
    case ClientReturn(c') => c' == c
    case _ => false
  }

  function OwnSteps(events: seq<Event>, c: nat): (own: seq<bool>)
    ensures |own| == |events|
  {
    seq(|events|, i requires 0 <= i < |events| => IsBy(events[i], c))
  }

  /** What a policy promises of the one step that decides: with room each of them puts the
      message into the queue. Without room, block has to wait; overrun_oldest puts it in and
      loses the oldest message; discard_new drops it. */
  ghost predicate PostEffect(policy: Policy, msg: Msg, res: Q.Result<Msg>, s: Q.State<Msg>, s': Q.State<Msg>) {
    match policy
    case Block => res.Stored? && C.Put(s, s', msg)
    case OverrunOldest => res.Stored? && (C.Put(s, s', msg) || C.Overran(s, s', msg))
    case DiscardNew => if res.Stored? then C.Put(s, s', msg) else res.Dropped? && C.Refused(s, s', msg)
  }

  /** The post has not reached its section with an effect: only block ever sleeps. */
  ghost predicate Waiting(run: seq<State>, events: seq<Event>, c: nat, policy: Policy, a: nat, k: nat) {
    && k < |run| && c < |run[k].m.threads|
    && (run[k].m.threads[c].Enter? || (run[k].m.threads[c].Asleep? && policy.Block?))
    && C.QuietBut(Queues(run), OwnSteps(events, c), a, k, -1)
  }

  /** Step d was the post's only effect, and res is what it returns or is about to. */
  ghost predicate Posted(
    run: seq<State>, events: seq<Event>, c: nat, msg: Msg, policy: Policy, a: nat, k: nat, d: nat, res: Q.Result<Msg>)
  {
    && a < d < k < |run| && d < |events| && IsBy(events[d], c) && c < |run[k].m.threads|
    && PostEffect(policy, msg, res, run[d].m, run[d + 1].m) && C.Decided(run[k].m.threads[c], res)
    && C.QuietBut(Queues(run), OwnSteps(events, c), a, k, d)
  }

  lemma StepMoves(s: State, e: Event, c: nat)
    requires Enabled(s, e) && |s.exited| < c
    ensures C.Moves(s.m, Do(s, e).m, c, IsBy(e, c))
  {
    var W := |s.exited|;
    match e
    case Internal(qe) => assert Q.Enabled(s.m, qe);
    case WorkerStart(w) => assert Q.Enabled(s.m, Q.Call(w, Q.Dequeue));
    case WorkerReturn(w) => assert Q.Enabled(s.m, Q.Return(w));
    case ClientPost(c', msg, policy) => assert Q.Enabled(s.m, Q.Call(c', PostOp(msg, policy)));
    case ClientReturn(c') => assert Q.Enabled(s.m, Q.Return(c'));
    case PostTerminate => assert Q.Enabled(s.m, Q.Call(W, PostOp(Terminate, Block)));
    case PostReturn => assert Q.Enabled(s.m, Q.Return(W));
    case _ =>
  }

  lemma {:induction false} WorkersStay(run: seq<State>, events: seq<Event>, k: nat)
    requires Steps(run, events) && k < |run|
    ensures |run[k].exited| == |run[0].exited|
  {
    if k > 0 {
      WorkersStay(run, events, k - 1);
      assert StepAt(run, events, k - 1);
    }
  }

  /** A client inside a post that it began in step a. */
  ghost predicate InPost(run: seq<State>, c: nat, a: nat, k: nat) {
    a < k < |run| && forall m :: a < m <= k ==> C.BusyAt(Queues(run), c, m)
  }

  /** In every run, from any state on, every post has its effect in one step of its own, the
      one its policy promises, and returns only after it. */
  lemma PostTakesEffectOnce(run: seq<State>, events: seq<Event>, c: nat, msg: Msg, policy: Policy, a: nat, k: nat)
    requires Steps(run, events) && a < |events| && events[a] == ClientPost(c, msg, policy) && InPost(run, c, a, k)
    ensures Waiting(run, events, c, policy, a, k) || exists d, res :: Posted(run, events, c, msg, policy, a, k, d, res)
  {
    var ms, own, op := Queues(run), OwnSteps(events, c), PostOp(msg, policy);
    assert StepAt(run, events, a);
    WorkersStay(run, events, a);
    forall m | 0 <= m < |events| ensures C.MoveAt(ms, own, c, m) {
      assert StepAt(run, events, m);
      WorkersStay(run, events, m);
      StepMoves(run[m], events[m], c);
    }
    C.CallBegins(run[a].m, c, op);
    assert C.BusyAt(ms, c, a + 1);
    C.CallActs(ms, own, c, op, a, k);
    if !C.NotYet(ms, own, c, op, a, k) {
      var d, res :| C.ActedAt(ms, own, c, op, a, k, d, res);
      assert Posted(run, events, c, msg, policy, a, k, d, res);
    }
  }

  // ----- every message taken is processed once -----

  predicate Holds(pc: Q.Pc<Msg>, x: Msg) { (pc.OweNotify? || pc.Finished?) && pc.res == Q.Got(x) }

  /** One per worker that has taken x and not processed it yet. */
  function HeldFlags(s: State, x: Msg): (r: seq<int>)
    requires |s.exited| < |s.m.threads|
    ensures |r| == |s.exited|
  {
    seq(|s.exited|, w requires 0 <= w < |s.exited| => Q.One(Holds(s.m.threads[w], x)))
  }

  function TakenTimes(exits: seq<Q.Exit<Msg>>, x: Msg): nat {
    if exits == [] then 0 else TakenTimes(exits[..|exits| - 1], x) + Q.One(exits[|exits| - 1] == Q.Taken(x))
  }

  function OverrunTimes(exits: seq<Q.Exit<Msg>>, x: Msg): nat {
    if exits == [] then 0 else OverrunTimes(exits[..|exits| - 1], x) + Q.One(exits[|exits| - 1] == Q.Exit.Overrun(x))
  }

  /** Of every message, those processed and those held by a worker are those taken. */
  ghost predicate Tracked(s: State, x: Msg) {
    |s.exited| < |s.m.threads| && multiset(s.processed)[x] + Sum(HeldFlags(s, x)) == TakenTimes(s.m.exits, x)
  }

  lemma HeldSame(s: State, s': State, x: Msg)
    requires |s.exited| < |s.m.threads| && |s'.exited| == |s.exited| && |s'.m.threads| == |s.m.threads|
    requires forall v :: 0 <= v < |s.exited| ==> Holds(s'.m.threads[v], x) == Holds(s.m.threads[v], x)
    ensures Sum(HeldFlags(s', x)) == Sum(HeldFlags(s, x))
  {
    assert HeldFlags(s', x) == HeldFlags(s, x);
  }

  lemma HeldUpdate(s: State, s': State, x: Msg, w: nat)
    requires |s.exited| < |s.m.threads| && |s'.exited| == |s.exited| && |s'.m.threads| == |s.m.threads|
    requires w < |s.exited|
    requires forall v :: 0 <= v < |s.exited| && v != w ==> Holds(s'.m.threads[v], x) == Holds(s.m.threads[v], x)
    ensures Sum(HeldFlags(s', x))
         == Sum(HeldFlags(s, x)) - Q.One(Holds(s.m.threads[w], x)) + Q.One(Holds(s'.m.threads[w], x))
  {
    assert HeldFlags(s', x) == HeldFlags(s, x)[w := HeldFlags(s', x)[w]];
    SumUpdate(HeldFlags(s, x), w, HeldFlags(s', x)[w]);
  }

  lemma TakenMore(exits: seq<Q.Exit<Msg>>, e: Q.Exit<Msg>, x: Msg)
    ensures TakenTimes(exits + [e], x) == TakenTimes(exits, x) + Q.One(e == Q.Taken(x))
  {
    assert (exits + [e])[..|exits|] == exits;
  }

  lemma InnerTaken(m: Q.State<Msg>, qe: Q.Event<Msg>, x: Msg)
    requires Q.Enabled(m, qe) && Inner(qe)
    ensures TakenTimes(Q.Do(m, qe).exits, x) == TakenTimes(m.exits, x) + Q.One(Takes(m, qe) && m.q != [] && m.q[0] == x)
    ensures Takes(m, qe) ==> m.q != []
  {
    if Takes(m, qe) {
      TakenMore(m.exits, Q.Taken(m.q[0]), x);
    } else if Puts(m, qe) {
      var x' := m.threads[qe.t].op.x;
      assert m.exits + [] == m.exits;
      TakenMore(m.exits, Q.Exit.Overrun((m.q + [x'])[0]), x);
    }
  }

  lemma TakeHeld(s: State, qe: Q.Event<Msg>, x: Msg)
    requires Threads(s) && Enabled(s, Internal(qe)) && Takes(s.m, qe)
    ensures s.m.q != [] && Sum(HeldFlags(Do(s, Internal(qe)), x)) == Sum(HeldFlags(s, x)) + Q.One(s.m.q[0] == x)
  {
    InnerIsLocal(s.m, qe);
    OwnPcIsOk(s, qe);
    assert ThreadPc(s, qe.t, s.m.threads[qe.t]);
    HeldUpdate(s, Do(s, Internal(qe)), x, qe.t);
  }

  lemma OtherHeld(s: State, qe: Q.Event<Msg>, x: Msg)
    requires Threads(s) && Enabled(s, Internal(qe)) && !Takes(s.m, qe)
    ensures Sum(HeldFlags(Do(s, Internal(qe)), x)) == Sum(HeldFlags(s, x))
  {
    InnerIsLocal(s.m, qe);
    assert ThreadPc(s, qe.t, s.m.threads[qe.t]);
    HeldSame(s, Do(s, Internal(qe)), x);
  }

  lemma InnerTracked(s: State, qe: Q.Event<Msg>, x: Msg)
    requires Threads(s) && Tracked(s, x) && Enabled(s, Internal(qe))
    ensures Tracked(Do(s, Internal(qe)), x)
  {
    InnerTaken(s.m, qe, x);
    InnerShape(s, qe);
    if Takes(s.m, qe) {
      TakeHeld(s, qe, x);
      StillTracked(s, Do(s, Internal(qe)), x, Q.One(s.m.q[0] == x));
    } else {
      OtherHeld(s, qe, x);
      StillTracked(s, Do(s, Internal(qe)), x, 0);
    }
  }

  lemma InnerShape(s: State, qe: Q.Event<Msg>)
    requires Threads(s) && Enabled(s, Internal(qe))
    ensures var s' := Do(s, Internal(qe));
            && s'.processed == s.processed && s'.exited == s.exited && |s'.m.threads| == |s.m.threads|
            && s'.m.exits == Q.Do(s.m, qe).exits
  {
    InnerIsLocal(s.m, qe);
  }

  lemma StillTracked(s: State, s': State, x: Msg, n: nat)
    requires Tracked(s, x) && s'.processed == s.processed && s'.exited == s.exited && |s'.m.threads| == |s.m.threads|
    requires Sum(HeldFlags(s', x)) == Sum(HeldFlags(s, x)) + n
    requires TakenTimes(s'.m.exits, x) == TakenTimes(s.m.exits, x) + n
    ensures Tracked(s', x)
  {
  }

  lemma ReturnTracked(s: State, w: nat, x: Msg)
    requires Tracked(s, x) && Enabled(s, WorkerReturn(w)) && !x.Terminate?
    ensures Tracked(Do(s, WorkerReturn(w)), x)
  {
    HeldUpdate(s, Do(s, WorkerReturn(w)), x, w);
  }

  lemma StepTracked(s: State, e: Event, x: Msg)
    requires Threads(s) && Tracked(s, x) && Enabled(s, e) && !x.Terminate?
    ensures Tracked(Do(s, e), x)
  {
    match e
    case Internal(qe) => InnerTracked(s, qe, x);
    case WorkerReturn(w) => ReturnTracked(s, w, x);
    case _ => HeldSame(s, Do(s, e), x);
  }

  /** In every run, the messages processed, with those a worker holds, are as a multiset the
      messages taken from the queue, terminate messages aside. */
  lemma {:induction false} RunProcessesTaken(run: seq<State>, events: seq<Event>, k: nat, x: Msg)
    requires Steps(run, events) && Init(run[0]) && k < |run| && !x.Terminate?
    ensures Tracked(run[k], x)
    decreases k
  {
    if k == 0 {
      AllZero(HeldFlags(run[0], x));
    } else {
      RunProcessesTaken(run, events, k - 1, x);
      RunKeepsInv(run, events, k - 1);
      assert StepAt(run, events, k - 1);
      StepTracked(run[k - 1], events[k - 1], x);
    }
  }

  lemma {:induction false} LeftTimes(exits: seq<Q.Exit<Msg>>, x: Msg)
    ensures multiset(Q.Left(exits))[x] == TakenTimes(exits, x) + OverrunTimes(exits, x)
    decreases exits
  {
    if exits != [] {
      var n := |exits| - 1;
      LeftTimes(exits[..n], x);
      assert exits == exits[..n] + [exits[n]];
      Q.LeftAppend(exits[..n], exits[n]);
    }
  }

  /** After the joins, every message that was stored has been processed, as often as it was
      stored and not overrun. */
  lemma JoinedProcessedAll(run: seq<State>, events: seq<Event>, k: nat, x: Msg)
    requires Steps(run, events) && Init(run[0]) && k < |run| && !x.Terminate? && run[k].phase.Joined?
    ensures multiset(run[k].m.pushed)[x] == multiset(run[k].processed)[x] + OverrunTimes(run[k].m.exits, x)
  {
    var s := run[k];
    RunKeepsInv(run, events, k);
    RunProcessesTaken(run, events, k, x);
    JoinedIsClean(s);
    forall w | 0 <= w < |s.exited| ensures HeldFlags(s, x)[w] == 0 {
      assert ThreadPc(s, w, s.m.threads[w]);
    }
    AllZero(HeldFlags(s, x));
    LeftTimes(s.m.exits, x);
    assert s.m.pushed == Q.Left(s.m.exits) + [];
  }
}
