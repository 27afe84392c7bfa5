/**
 What a single call of a blocking queue does, seen over the whole run it is part of: each
 call has its effect on the queue in exactly one step of its own, and that effect is the
 one its operation promises.
 */
module BlockingCalls {
  import opened Options
  import opened CircularQ
  import opened BlockingQueue

  /** The step leaves the queue and its history alone. */
  ghost predicate Untouched<T>(s: State<T>, s': State<T>) {
    s'.q == s.q && s'.pushed == s.pushed && s'.exits == s.exits && s'.dropped == s.dropped && s'.overruns == s.overruns
  }

  /** There was room, and x is the newest item now. */
  ghost predicate Put<T>(s: State<T>, s': State<T>, x: T) {
    && |s.q| < s.cap && s'.q == s.q + [x] && s'.pushed == s.pushed + [x]
    && s'.exits == s.exits && s'.dropped == s.dropped && s'.overruns == s.overruns
  }

  /** There was no room: x went in all the same and the oldest item out. */
  ghost predicate Overran<T>(s: State<T>, s': State<T>, x: T) {
    && |s.q| >= s.cap && s.q + [x] == [(s.q + [x])[0]] + s'.q && s'.pushed == s.pushed + [x]
    && s'.exits == s.exits + [Exit.Overrun((s.q + [x])[0])] && s'.dropped == s.dropped && s'.overruns == s.overruns + 1
  }

  /** There was no room, and x was refused. */
  ghost predicate Refused<T>(s: State<T>, s': State<T>, x: T) {
    && |s.q| >= s.cap && s'.q == s.q && s'.pushed == s.pushed
    && s'.exits == s.exits && s'.dropped == s.dropped + [x] && s'.overruns == s.overruns
  }

  /** x was the oldest item, and left. */
  ghost predicate Took<T>(s: State<T>, s': State<T>, x: T) {
    && s.q == [x] + s'.q && s'.pushed == s.pushed
    && s'.exits == s.exits + [Taken(x)] && s'.dropped == s.dropped && s'.overruns == s.overruns
  }

  ghost predicate FoundNothing<T>(s: State<T>, s': State<T>) { s.q == [] && Untouched(s, s') }

  /** What the deciding step of an operation does, and the result it leads to. */
  ghost predicate Effect<T>(op: Op<T>, res: Result<T>, s: State<T>, s': State<T>, t: Tid)
    requires t < |s.threads|
  {
    match op
    case Enqueue(x) => res.Stored? && Put(s, s', x)
    case EnqueueNoWait(x) => res.Stored? && (Put(s, s', x) || Overran(s, s', x))
    case EnqueueIfRoom(x) => if res.Stored? then Put(s, s', x) else res.Dropped? && Refused(s, s', x)
    case Dequeue => res.Got? && Took(s, s', res.x)
    case DequeueFor =>
      if res.Got? then Took(s, s', res.x) else res.Nothing? && FoundNothing(s, s') && s.threads[t].Expired?
    case TryDequeue => if res.Got? then Took(s, s', res.x) else res.Nothing? && FoundNothing(s, s')
  }

  /** The call is still to have its effect. Only the three blocking operations sleep. */
  ghost predicate Undecided<T>(pc: Pc<T>, op: Op<T>) {
    || (pc.Enter? && pc.op == op)
    || (pc.Asleep? && pc.op == op && (op.Enqueue? || op.Dequeue? || op.DequeueFor?))
    || (pc.Expired? && pc.op == op && op.DequeueFor?)
  }

  /** The call has had its effect and returns res, or is about to. */
  ghost predicate Decided<T>(pc: Pc<T>, res: Result<T>) {
    pc == Finished(res) || (pc.OweNotify? && pc.res == res) || (pc.OweDiscard? && res.Dropped?)
  }

  // ----- one step -----

  lemma CallBegins<T>(s: State<T>, t: Tid, op: Op<T>)
    requires Enabled(s, Call(t, op))
    ensures Undecided(Do(s, Call(t, op)).threads[t], op) && Untouched(s, Do(s, Call(t, op)))
  {
  }

  /** A step of the calling thread that is still to decide. */
  lemma OwnStepDecides<T>(s: State<T>, e: Event<T>, op: Op<T>) returns (res: Result<T>)
    requires Enabled(s, e) && Undecided(s.threads[e.t], op)
    ensures var s' := Do(s, e);
            || (Undecided(s'.threads[e.t], op) && Untouched(s, s'))
            || (Decided(s'.threads[e.t], res) && Effect(op, res, s, s', e.t))
  {
    res := Nothing;
    if e.Lock? {
      match SectionOf(s.q, s.cap, s.threads[e.t])
      case Store => res := Stored;
      case Take =>
        res := Got(s.q[0]);
        assert s.q == [s.q[0]] + s.q[1..];
      case Drop => res := Dropped;
      case _ =>
    }
  }

  lemma OwnStepReturns<T>(s: State<T>, e: Event<T>, res: Result<T>)
    requires Enabled(s, e) && Decided(s.threads[e.t], res)
    ensures var s' := Do(s, e);
            Untouched(s, s') && (Decided(s'.threads[e.t], res) || (e.Return? && s'.threads[e.t].Idle?))
  {
  }

  /** The steps of the others only ever wake a sleeper. */
  lemma OthersLeave<T>(s: State<T>, e: Event<T>, t: Tid)
    requires Enabled(s, e) && t < |s.threads| && t != e.t
    ensures var pc, pc' := s.threads[t], Do(s, e).threads[t];
            |Do(s, e).threads| == |s.threads| && (pc' == pc || (pc.Asleep? && pc' == Enter(pc.op, true)))
  {
  }

  // ----- whole calls -----

  /** How the queue gets from one state to the next: by a step of thread t, or by one of
      another thread or of nobody. */
  ghost predicate Moves<T(!new)>(s: State<T>, s': State<T>, t: Tid, own: bool) {
    if own then exists e: Event<T> :: e.t == t && Enabled(s, e) && s' == Do(s, e)
    else s' == s || exists e: Event<T> :: e.t != t && Enabled(s, e) && s' == Do(s, e)
  }

  ghost predicate MoveAt<T(!new)>(ms: seq<State<T>>, own: seq<bool>, t: Tid, m: nat) {
    m + 1 < |ms| && m < |own| && Moves(ms[m], ms[m + 1], t, own[m])
  }

  /** The states of a queue, and which steps are those of thread t. */
  ghost predicate History<T(!new)>(ms: seq<State<T>>, own: seq<bool>, t: Tid) {
    |ms| == |own| + 1 && forall m :: 0 <= m < |own| ==> MoveAt(ms, own, t, m)
  }

  ghost predicate BusyAt<T>(ms: seq<State<T>>, t: Tid, m: nat) {
    m < |ms| && t < |ms[m].threads| && !ms[m].threads[t].Idle?
  }

  /** Thread t is in a call that it began in step a. */
  ghost predicate Busy<T(!new)>(ms: seq<State<T>>, t: Tid, a: nat, k: nat) {
    a < k && forall m :: a < m <= k ==> BusyAt(ms, t, m)
  }

  ghost predicate QuietAt<T>(ms: seq<State<T>>, own: seq<bool>, m: nat) {
    m + 1 < |ms| && m < |own| && own[m] ==> Untouched(ms[m], ms[m + 1])
  }

  /** Between steps a and k the own steps of a call leave the queue alone, but for step d. */
  ghost predicate QuietBut<T(!new)>(ms: seq<State<T>>, own: seq<bool>, a: nat, k: nat, d: int) {
    forall m :: a < m < k && m != d ==> QuietAt(ms, own, m)
  }

  /** The call's one step with an effect was d, and it is on its way to return res. */
  ghost predicate ActedAt<T(!new)>(
    ms: seq<State<T>>, own: seq<bool>, t: Tid, op: Op<T>, a: nat, k: nat, d: nat, res: Result<T>)
  {
    && a < d < k < |ms| && d < |own| && own[d] && t < |ms[d].threads| && Effect(op, res, ms[d], ms[d + 1], t)
    && t < |ms[k].threads| && Decided(ms[k].threads[t], res) && QuietBut(ms, own, a, k, d)
  }

  ghost predicate NotYet<T(!new)>(ms: seq<State<T>>, own: seq<bool>, t: Tid, op: Op<T>, a: nat, k: nat) {
    a < k < |ms| && t < |ms[k].threads| && Undecided(ms[k].threads[t], op) && QuietBut(ms, own, a, k, -1)
  }

  /** The call has had no effect so far, or exactly one. */
  ghost predicate Acted<T(!new)>(ms: seq<State<T>>, own: seq<bool>, t: Tid, op: Op<T>, a: nat, k: nat) {
    NotYet(ms, own, t, op, a, k) || exists d, res :: ActedAt(ms, own, t, op, a, k, d, res)
  }

  /** The step from k to j, if the call has not had its effect before. */
  lemma UndecidedMoves<T(!new)>(s: State<T>, s': State<T>, t: Tid, own: bool, op: Op<T>) returns (res: Result<T>)
    requires Moves(s, s', t, own) && t < |s.threads| && Undecided(s.threads[t], op)
    ensures t < |s'.threads|
    ensures || (Undecided(s'.threads[t], op) && (own ==> Untouched(s, s')))
            || (own && Decided(s'.threads[t], res) && Effect(op, res, s, s', t))
  {
    res := Nothing;
    if own {
      var e: Event<T> :| e.t == t && Enabled(s, e) && s' == Do(s, e);
      res := OwnStepDecides(s, e, op);
    } else if s' != s {
      var e: Event<T> :| e.t != t && Enabled(s, e) && s' == Do(s, e);
      OthersLeave(s, e, t);
    }
  }

  lemma DecidedMoves<T(!new)>(s: State<T>, s': State<T>, t: Tid, own: bool, res: Result<T>)
    requires Moves(s, s', t, own) && t < |s.threads| && Decided(s.threads[t], res)
    ensures t < |s'.threads| && (own ==> Untouched(s, s'))
    ensures s'.threads[t].Idle? || Decided(s'.threads[t], res)
  {
    if own {
      var e: Event<T> :| e.t == t && Enabled(s, e) && s' == Do(s, e);
      OwnStepReturns(s, e, res);
    } else if s' != s {
      var e: Event<T> :| e.t != t && Enabled(s, e) && s' == Do(s, e);
      OthersLeave(s, e, t);
    }
  }

  lemma UndecidedGoesOn<T(!new)>(ms: seq<State<T>>, own: seq<bool>, t: Tid, op: Op<T>, a: nat, k: nat, j: nat)
    requires MoveAt(ms, own, t, k) && NotYet(ms, own, t, op, a, k) && j == k + 1
    ensures Acted(ms, own, t, op, a, j)
  {
    var res := UndecidedMoves(ms[k], ms[j], t, own[k], op);
    if !(Undecided(ms[j].threads[t], op) && (own[k] ==> Untouched(ms[k], ms[j]))) {
      assert ActedAt(ms, own, t, op, a, j, k, res);
    }
  }

  lemma DecidedGoesOn<T(!new)>(
      ms: seq<State<T>>, own: seq<bool>, t: Tid, op: Op<T>, a: nat, k: nat, j: nat, d: nat, res: Result<T>)
    requires MoveAt(ms, own, t, k) && ActedAt(ms, own, t, op, a, k, d, res) && BusyAt(ms, t, j) && j == k + 1
    ensures ActedAt(ms, own, t, op, a, j, d, res)
  {
    DecidedMoves(ms[k], ms[j], t, own[k], res);
  }

  lemma GoesOn<T(!new)>(ms: seq<State<T>>, own: seq<bool>, t: Tid, op: Op<T>, a: nat, k: nat, j: nat)
    requires MoveAt(ms, own, t, k) && Acted(ms, own, t, op, a, k) && BusyAt(ms, t, j) && j == k + 1
    ensures Acted(ms, own, t, op, a, j)
  {
    if NotYet(ms, own, t, op, a, k) {
      UndecidedGoesOn(ms, own, t, op, a, k, j);
    } else {
      var d, res :| ActedAt(ms, own, t, op, a, k, d, res);
      DecidedGoesOn(ms, own, t, op, a, k, j, d, res);
    }
  }

  /** A call that has begun stays without effect until the one step that has it. */
  lemma {:induction false} CallActs<T(!new)>(ms: seq<State<T>>, own: seq<bool>, t: Tid, op: Op<T>, a: nat, k: nat)
    requires History(ms, own, t) && Busy(ms, t, a, k) && BusyAt(ms, t, a + 1) && Undecided(ms[a + 1].threads[t], op)
    ensures Acted(ms, own, t, op, a, k)
    decreases k
  {
    assert BusyAt(ms, t, k);
    if k > a + 1 {
      CallActs(ms, own, t, op, a, k - 1);
      GoesOn(ms, own, t, op, a, k - 1, k);
    }
  }

  function OwnSteps<T>(events: seq<Event<T>>, t: Tid): (own: seq<bool>)
    ensures |own| == |events|
  {
    seq(|events|, i requires 0 <= i < |events| => events[i].t == t)
  }

  /** In every run, every call of every operation has its effect on the queue in one step of its
      own, between its start and its return, and returns the result that goes with it: enqueue
      puts its item into a queue with room; enqueue_nowait puts it in, losing the oldest item
      exactly when there is no room; enqueue_if_have_room puts it in when there is room and
      drops it otherwise; the dequeues take the oldest item, and those that may fail report so
      only when nothing is queued, dequeue_for only after its timeout. */
  lemma CallTakesEffectOnce<T(!new)>(run: seq<State<T>>, events: seq<Event<T>>, t: Tid, op: Op<T>, a: nat, k: nat)
    requires Run(run, events) && a < |events| && events[a] == Call(t, op) && Busy(run, t, a, k)
    ensures Acted(run, OwnSteps(events, t), t, op, a, k)
  {
    forall m | 0 <= m < |events| ensures MoveAt(run, OwnSteps(events, t), t, m) {
      assert StepAt(run, events, m);
    }
    assert StepAt(run, events, a);
    CallBegins(run[a], t, op);
    assert BusyAt(run, t, a + 1);
    CallActs(run, OwnSteps(events, t), t, op, a, k);
  }
}
