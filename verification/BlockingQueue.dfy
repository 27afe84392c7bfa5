/**
 The blocking queue as a monitor: any number of threads, each running any sequence of
 the five operations. A critical section is one step, because the mutex is held. Giving
 up the mutex in a condition wait, being notified, the notify after unlocking, a spurious
 wake-up and a timeout are steps of their own.

 `inside` selects the variant that notifies before unlocking: the MinGW branch of
 mpmc_blocking_q.h, and CircularQueue of CircularQueue.hpp.
 */
module BlockingQueue {
  import opened Options
  import opened CircularQ

  type Tid = nat

  datatype Op<T> =
    | Enqueue(x: T)       // blocks while full
    | EnqueueNoWait(x: T) // overruns the oldest when full
    | EnqueueIfRoom(x: T) // drops the new item when full
    | Dequeue             // blocks while empty
    | DequeueFor          // blocks while empty, until a timeout
    | TryDequeue          // fails when empty

  datatype Cv = PushCv | PopCv // consumers wait on push_cv_, producers on pop_cv_

  datatype Result<T> = Stored | Dropped | Got(x: T) | Nothing

  datatype Pc<T> =
    | Idle
    | Enter(op: Op<T>, signalled: bool) // about to take the mutex and test the condition
    | Asleep(op: Op<T>)
    | Expired(op: Op<T>)                // timed out, about to take the mutex a last time
    | OweNotify(cv: Cv, res: Result<T>) // has unlocked, notify_one still to come
    | OweDiscard                        // has unlocked, ++discard_counter_ still to come
    | Finished(res: Result<T>)

  /** How an item left the queue. */
  datatype Exit<T> = Taken(x: T) | Overrun(x: T)

  datatype State<T> = State(
    q: seq<T>, cap: nat, inside: bool, overruns: nat, discards: nat, threads: seq<Pc<T>>,
    // history, read by no step:
    posts: nat,            // items handed to an operation
    pushed: seq<T>,        // items stored, in order
    exits: seq<Exit<T>>,   // items removed, in order
    dropped: seq<T>)       // items refused for lack of room, in order

  datatype Event<T> =
    | Call(t: Tid, op: Op<T>)
    | Lock(t: Tid, wake: Option<Tid>)   // wake: whom a notify inside the section reaches
    | Notify(t: Tid, wake: Option<Tid>)
    | CountDiscard(t: Tid)
    | Return(t: Tid)
    | SpuriousWake(t: Tid)
    | Timeout(t: Tid)

  predicate WaitsOn<T>(op: Op<T>, cv: Cv) {
    match op
    case Enqueue(_) => cv.PopCv?
    case Dequeue => cv.PushCv?
    case DequeueFor => cv.PushCv?
    case _ => false
  }

  // ----- counting threads by what they do -----

  /** Per condition variable: sleepers not signalled, signalled threads that have not run
      yet, notifies owed. Also discards not yet counted and items on their way in. */
  datatype Tally = Tally(
    sleepPush: int, signalledPush: int, owedPush: int,
    sleepPop: int, signalledPop: int, owedPop: int,
    owedDiscard: int, carried: int)

  function One(b: bool): nat { if b then 1 else 0 }

  predicate Stores<T>(op: Op<T>) { op.Enqueue? || op.EnqueueNoWait? || op.EnqueueIfRoom? }

  predicate SleepsOn<T>(pc: Pc<T>, cv: Cv) { pc.Asleep? && WaitsOn(pc.op, cv) }

  predicate SignalledOn<T>(pc: Pc<T>, cv: Cv) { pc.Enter? && pc.signalled && WaitsOn(pc.op, cv) }

  predicate Owes<T>(pc: Pc<T>, cv: Cv) { pc.OweNotify? && pc.cv == cv }

  predicate Carries<T>(pc: Pc<T>) { (pc.Enter? || pc.Asleep?) && Stores(pc.op) }

  function TallyOf<T>(pc: Pc<T>): Tally {
    Tally(One(SleepsOn(pc, PushCv)), One(SignalledOn(pc, PushCv)), One(Owes(pc, PushCv)),
          One(SleepsOn(pc, PopCv)), One(SignalledOn(pc, PopCv)), One(Owes(pc, PopCv)),
          One(pc.OweDiscard?), One(Carries(pc)))
  }

  function Plus(a: Tally, b: Tally): Tally {
    Tally(a.sleepPush + b.sleepPush, a.signalledPush + b.signalledPush, a.owedPush + b.owedPush,
          a.sleepPop + b.sleepPop, a.signalledPop + b.signalledPop, a.owedPop + b.owedPop,
          a.owedDiscard + b.owedDiscard, a.carried + b.carried)
  }

  const ZERO: Tally := Tally(0, 0, 0, 0, 0, 0, 0, 0)

  function Sum(ts: seq<Tally>): Tally {
    if ts == [] then ZERO else Plus(ts[0], Sum(ts[1..]))
  }

  function Tallies<T>(threads: seq<Pc<T>>): (ts: seq<Tally>)
    ensures |ts| == |threads|
  {
    seq(|threads|, i requires 0 <= i < |threads| => TallyOf(threads[i]))
  }

  function Total<T>(threads: seq<Pc<T>>): Tally {
    Sum(Tallies(threads))
  }

  lemma {:induction false} SumUpdate(ts: seq<Tally>, i: nat, t: Tally)
    requires i < |ts|
    ensures Plus(Sum(ts[i := t]), ts[i]) == Plus(Sum(ts), t)
    decreases ts
  {
    if i == 0 {
      assert ts[0 := t][1..] == ts[1..];
    } else {
      SumUpdate(ts[1..], i - 1, t);
      assert ts[i := t][1..] == ts[1..][i - 1 := t];
    }
  }

  lemma TotalUpdate<T>(threads: seq<Pc<T>>, i: nat, pc: Pc<T>)
    requires i < |threads|
    ensures Plus(Total(threads[i := pc]), TallyOf(threads[i])) == Plus(Total(threads), TallyOf(pc))
  {
    var t := TallyOf(pc);
    SumUpdate(Tallies(threads), i, t);
    TalliesUpdate(threads, i, pc);
  }

  lemma TalliesUpdate<T>(threads: seq<Pc<T>>, i: nat, pc: Pc<T>)
    requires i < |threads|
    ensures Tallies(threads[i := pc]) == Tallies(threads)[i := TallyOf(pc)]
  {
  }

  lemma TotalIsNatural<T>(threads: seq<Pc<T>>)
    ensures AtMost(ZERO, Total(threads))
  {
    SumBounds(Tallies(threads));
  }

  predicate AtMost(a: Tally, b: Tally) {
    && a.sleepPush <= b.sleepPush && a.signalledPush <= b.signalledPush && a.owedPush <= b.owedPush
    && a.sleepPop <= b.sleepPop && a.signalledPop <= b.signalledPop && a.owedPop <= b.owedPop
    && a.owedDiscard <= b.owedDiscard && a.carried <= b.carried
  }

  lemma {:induction false} SumBounds(ts: seq<Tally>)
    requires forall i :: 0 <= i < |ts| ==> AtMost(ZERO, ts[i])
    ensures AtMost(ZERO, Sum(ts))
    ensures forall i :: 0 <= i < |ts| ==> AtMost(ts[i], Sum(ts))
    decreases ts
  {
    if ts != [] {
      SumBounds(ts[1..]);
      forall i | 0 <= i < |ts| ensures AtMost(ts[i], Sum(ts)) {
        if i > 0 { assert ts[i] == ts[1..][i - 1]; }
      }
    }
  }

  lemma TotalBounds<T>(threads: seq<Pc<T>>)
    ensures forall i :: 0 <= i < |threads| ==> AtMost(TallyOf(threads[i]), Total(threads))
  {
    var ts := Tallies(threads);
    SumBounds(ts);
    forall i | 0 <= i < |threads| ensures AtMost(TallyOf(threads[i]), Total(threads)) {
      assert ts[i] == TallyOf(threads[i]);
    }
  }

  function Sleepers(t: Tally, cv: Cv): int { if cv.PushCv? then t.sleepPush else t.sleepPop }

  lemma {:induction false} SumOfNone(ts: seq<Tally>, cv: Cv)
    requires forall i :: 0 <= i < |ts| ==> Sleepers(ts[i], cv) == 0
    ensures Sleepers(Sum(ts), cv) == 0
    decreases ts
  {
    if ts != [] { SumOfNone(ts[1..], cv); }
  }

  lemma NobodySleeps<T>(threads: seq<Pc<T>>, cv: Cv)
    requires forall t :: 0 <= t < |threads| ==> !SleepsOn(threads[t], cv)
    ensures Sleepers(Total(threads), cv) == 0
  {
    SumOfNone(Tallies(threads), cv);
  }

  // ----- steps -----

  /** notify_one reaches some sleeper on cv, and nobody only when nobody sleeps there. */
  predicate WakeOk<T>(threads: seq<Pc<T>>, cv: Cv, wake: Option<Tid>) {
    match wake
    case None => forall t :: 0 <= t < |threads| ==> !SleepsOn(threads[t], cv)
    case Some(u) => u < |threads| && SleepsOn(threads[u], cv)
  }

  function Woken<T>(threads: seq<Pc<T>>, wake: Option<Tid>): seq<Pc<T>>
    requires wake.Some? ==> wake.value < |threads| && threads[wake.value].Asleep?
  {
    if wake.None? then threads else threads[wake.value := Enter(threads[wake.value].op, true)]
  }

  /** What a critical section does: leave an item, take one, wait, or end without either. */
  datatype Section<T> = Store | Take | Wait | Drop | Fail

  function SectionOf<T>(q: seq<T>, cap: nat, pc: Pc<T>): Section<T>
    requires pc.Enter? || pc.Expired?
  {
    match pc.op
    case Enqueue(_) => if |q| < cap then Store else Wait
    case EnqueueNoWait(_) => Store
    case EnqueueIfRoom(_) => if |q| < cap then Store else Drop
    case Dequeue => if q != [] then Take else Wait
    case DequeueFor => if q != [] then Take else if pc.Expired? then Fail else Wait
    case TryDequeue => if q != [] then Take else Fail
  }

  predicate Enabled<T>(s: State<T>, e: Event<T>) {
    && e.t < |s.threads|
    && var pc := s.threads[e.t];
       match e
       case Call(_, _) => pc.Idle?
       case Lock(t, wake) =>
         && (pc.Enter? || (pc.Expired? && pc.op.DequeueFor?))
         && (var sec := SectionOf(s.q, s.cap, pc);
             if s.inside && (sec.Store? || sec.Take?)
             then WakeOk(s.threads, if sec.Store? then PushCv else PopCv, wake)
             else wake == None)
       case Notify(t, wake) => pc.OweNotify? && WakeOk(s.threads, pc.cv, wake)
       case CountDiscard(_) => pc.OweDiscard?
       case Return(_) => pc.Finished?
       case SpuriousWake(_) => pc.Asleep?
       case Timeout(_) => pc.Asleep? && pc.op.DequeueFor?
  }

  /** The rest of a section that ends with a notify on cv. */
  function Notifying<T>(s: State<T>, t: Tid, cv: Cv, res: Result<T>, wake: Option<Tid>): State<T>
    requires t < |s.threads|
    requires wake.Some? ==> wake.value < |s.threads| && wake.value != t && s.threads[wake.value].Asleep?
  {
    if s.inside then s.(threads := Woken(s.threads[t := Finished(res)], wake))
    else s.(threads := s.threads[t := OweNotify(cv, res)])
  }

  function DoLock<T>(s: State<T>, t: Tid, wake: Option<Tid>): State<T>
    requires Enabled(s, Lock(t, wake))
  {
    var pc := s.threads[t];
    match SectionOf(s.q, s.cap, pc)
    case Wait => s.(threads := s.threads[t := Asleep(pc.op)])
    case Drop => s.(threads := s.threads[t := OweDiscard], dropped := s.dropped + [pc.op.x])
    case Fail => s.(threads := s.threads[t := Finished(Nothing)])
    case Store =>
      var lost := |s.q| >= s.cap;
      var s1 := s.(q := Pushed(s.q, s.cap, pc.op.x), pushed := s.pushed + [pc.op.x],
                   overruns := s.overruns + One(lost),
                   exits := s.exits + if lost then [Exit.Overrun((s.q + [pc.op.x])[0])] else []);
      Notifying(s1, t, PushCv, Stored, wake)
    case Take =>
      var s1 := s.(q := s.q[1..], exits := s.exits + [Taken(s.q[0])]);
      Notifying(s1, t, PopCv, Got(s.q[0]), wake)
  }

  function Do<T>(s: State<T>, e: Event<T>): State<T>
    requires Enabled(s, e)
  {
    var pc := s.threads[e.t];
    match e
    case Call(t, op) =>
      s.(threads := s.threads[t := Enter(op, false)], posts := s.posts + One(Stores(op)))
    case Lock(t, wake) => DoLock(s, t, wake)
    case Notify(t, wake) => s.(threads := Woken(s.threads[t := Finished(pc.res)], wake))
    case CountDiscard(t) => s.(threads := s.threads[t := Finished(Dropped)], discards := s.discards + 1)
    case Return(t) => s.(threads := s.threads[t := Idle])
    case SpuriousWake(t) => s.(threads := s.threads[t := Enter(pc.op, false)])
    case Timeout(t) => s.(threads := s.threads[t := Expired(pc.op)])
  }

  ghost predicate Init<T(!new)>(s: State<T>) {
    && s.q == [] && s.overruns == 0 && s.discards == 0
    && (forall t :: 0 <= t < |s.threads| ==> s.threads[t].Idle?)
    && s.posts == 0 && s.pushed == [] && s.exits == [] && s.dropped == []
  }

  // ----- the invariant -----

  function Left<T>(exits: seq<Exit<T>>): (r: seq<T>)
    ensures |r| == |exits|
  {
    seq(|exits|, i requires 0 <= i < |exits| => exits[i].x)
  }

  function Overruns<T>(exits: seq<Exit<T>>): nat {
    if exits == [] then 0 else Overruns(exits[..|exits| - 1]) + One(exits[|exits| - 1].Overrun?)
  }

  /** No wake-up is lost: while a consumer sleeps, every stored item is matched by a consumer
      already signalled or by a notify still owed; and dually for producers and free slots. */
  predicate NoLostWakeup<T>(s: State<T>) {
    var n := Total(s.threads);
    && (n.sleepPush > 0 ==> |s.q| <= n.signalledPush + n.owedPush)
    && (n.sleepPop > 0 ==> s.cap - |s.q| <= n.signalledPop + n.owedPop)
  }

  /** Items are neither made, lost, duplicated nor reordered. */
  ghost predicate Conserves<T>(s: State<T>) {
    && s.pushed == Left(s.exits) + s.q
    && s.posts == Total(s.threads).carried + |s.pushed| + |s.dropped|
    && s.overruns == Overruns(s.exits)
    && |s.dropped| == s.discards + Total(s.threads).owedDiscard
  }

  predicate SleepersWait<T>(s: State<T>) {
    forall t :: 0 <= t < |s.threads| && s.threads[t].Asleep? ==>
                  WaitsOn(s.threads[t].op, PushCv) || WaitsOn(s.threads[t].op, PopCv)
  }

  /** Notifying inside the section leaves no notify owed. */
  predicate NoneOwedInside<T>(s: State<T>) {
    s.inside ==> forall t :: 0 <= t < |s.threads| ==> !s.threads[t].OweNotify?
  }

  ghost predicate Inv<T>(s: State<T>) {
    |s.q| <= s.cap && NoLostWakeup(s) && Conserves(s) && SleepersWait(s) && NoneOwedInside(s)
  }

  // ----- every step keeps the invariant -----

  /** A notify on cv moves one sleeper to the signalled ones, or finds no sleeper. */
  lemma WakeTotals<T>(threads: seq<Pc<T>>, cv: Cv, wake: Option<Tid>)
    requires WakeOk(threads, cv, wake)
    ensures var n := if wake.Some? then 1 else 0;
            var a, b := Total(threads), Total(Woken(threads, wake));
            && (n == 0 ==> Sleepers(a, cv) == 0)
            && b == if cv.PushCv? then a.(sleepPush := a.sleepPush - n, signalledPush := a.signalledPush + n)
                    else a.(sleepPop := a.sleepPop - n, signalledPop := a.signalledPop + n)
  {
    if wake.None? {
      NobodySleeps(threads, cv);
    } else {
      TotalUpdate(threads, wake.value, Enter(threads[wake.value].op, true));
    }
  }

  lemma CallKeepsInv<T>(s: State<T>, t: Tid, op: Op<T>)
    requires Inv(s) && Enabled(s, Call(t, op))
    ensures Inv(Do(s, Call(t, op)))
  {
    TotalUpdate(s.threads, t, Enter(op, false));
  }

  lemma NotifyKeepsInv<T>(s: State<T>, t: Tid, wake: Option<Tid>)
    requires Inv(s) && Enabled(s, Notify(t, wake))
    ensures Inv(Do(s, Notify(t, wake)))
  {
    var pc := s.threads[t];
    var threads := s.threads[t := Finished(pc.res)];
    TotalUpdate(s.threads, t, Finished(pc.res));
    StillWakeOk(s.threads, t, Finished(pc.res), pc.cv, wake);
    WakeTotals(threads, pc.cv, wake);
  }

  lemma StillWakeOk<T>(threads: seq<Pc<T>>, t: Tid, pc: Pc<T>, cv: Cv, wake: Option<Tid>)
    requires WakeOk(threads, cv, wake) && t < |threads| && !threads[t].Asleep? && !pc.Asleep?
    ensures WakeOk(threads[t := pc], cv, wake)
  {
  }

  lemma QuietKeepsInv<T>(s: State<T>, e: Event<T>)
    requires Inv(s) && Enabled(s, e) && (e.CountDiscard? || e.Return? || e.SpuriousWake? || e.Timeout?)
    ensures Inv(Do(s, e))
  {
    TotalUpdate(s.threads, e.t, Do(s, e).threads[e.t]);
  }

  lemma LeftAppend<T>(exits: seq<Exit<T>>, e: Exit<T>)
    ensures Left(exits + [e]) == Left(exits) + [e.x]
    ensures Overruns(exits + [e]) == Overruns(exits) + One(e.Overrun?)
  {
    assert (exits + [e])[..|exits|] == exits;
  }

  lemma WaitKeepsInv<T>(s: State<T>, t: Tid, wake: Option<Tid>)
    requires Inv(s) && Enabled(s, Lock(t, wake)) && SectionOf(s.q, s.cap, s.threads[t]).Wait?
    ensures Inv(Do(s, Lock(t, wake)))
  {
    var pc := s.threads[t];
    TotalUpdate(s.threads, t, Asleep(pc.op));
    TotalIsNatural(s.threads[t := Asleep(pc.op)]);
  }

  lemma DropFailKeepInv<T>(s: State<T>, t: Tid, wake: Option<Tid>)
    requires Inv(s) && Enabled(s, Lock(t, wake))
    requires SectionOf(s.q, s.cap, s.threads[t]).Drop? || SectionOf(s.q, s.cap, s.threads[t]).Fail?
    ensures Inv(Do(s, Lock(t, wake)))
  {
    TotalUpdate(s.threads, t, if SectionOf(s.q, s.cap, s.threads[t]).Drop? then OweDiscard else Finished(Nothing));
  }

  /** The counts after a section that ends with a notify on cv. */
  lemma NotifyingTotals<T>(s: State<T>, t: Tid, cv: Cv, res: Result<T>, wake: Option<Tid>)
    requires t < |s.threads| && !s.threads[t].Asleep? && SleepersWait(s) && NoneOwedInside(s)
    requires if s.inside then WakeOk(s.threads, cv, wake) else wake == None
    ensures var n := if wake.Some? then 1 else 0;
            var owed := One(!s.inside);
            var a, b := Total(s.threads), Plus(Total(Notifying(s, t, cv, res, wake).threads), TallyOf(s.threads[t]));
            && (s.inside && n == 0 ==> Sleepers(a, cv) == 0)
            && b == if cv.PushCv?
                    then a.(sleepPush := a.sleepPush - n, signalledPush := a.signalledPush + n, owedPush := a.owedPush + owed)
                    else a.(sleepPop := a.sleepPop - n, signalledPop := a.signalledPop + n, owedPop := a.owedPop + owed)
    ensures SleepersWait(Notifying(s, t, cv, res, wake)) && NoneOwedInside(Notifying(s, t, cv, res, wake))
  {
    if s.inside {
      TotalUpdate(s.threads, t, Finished(res));
      StillWakeOk(s.threads, t, Finished(res), cv, wake);
      WakeTotals(s.threads[t := Finished(res)], cv, wake);
    } else {
      TotalUpdate(s.threads, t, OweNotify(cv, res));
    }
  }

  lemma TakeKeepsInv<T>(s: State<T>, t: Tid, wake: Option<Tid>)
    requires Inv(s) && Enabled(s, Lock(t, wake)) && SectionOf(s.q, s.cap, s.threads[t]).Take?
    ensures Inv(Do(s, Lock(t, wake)))
  {
    ConsumerTally(s.threads[t]);
    NotifyingTotals(s, t, PopCv, Got(s.q[0]), wake);
    TakeConserves(s);
  }

  lemma ConsumerTally<T>(pc: Pc<T>)
    requires (pc.Enter? || pc.Expired?) && !Stores(pc.op)
    ensures TallyOf(pc) == ZERO || TallyOf(pc) == ZERO.(signalledPush := 1)
  {
  }

  lemma ProducerTally<T>(pc: Pc<T>)
    requires pc.Enter? && Stores(pc.op)
    ensures TallyOf(pc) == ZERO.(carried := 1) || TallyOf(pc) == ZERO.(carried := 1, signalledPop := 1)
    ensures TallyOf(pc).signalledPop == 1 ==> pc.op.Enqueue?
  {
  }

  lemma TakeConserves<T>(s: State<T>)
    requires s.pushed == Left(s.exits) + s.q && s.overruns == Overruns(s.exits) && |s.q| > 0
    ensures s.pushed == Left(s.exits + [Taken(s.q[0])]) + s.q[1..]
    ensures s.overruns == Overruns(s.exits + [Taken(s.q[0])])
  {
    LeftAppend(s.exits, Taken(s.q[0]));
    assert s.q == [s.q[0]] + s.q[1..];
  }

  lemma StoreKeepsInv<T>(s: State<T>, t: Tid, wake: Option<Tid>)
    requires Inv(s) && Enabled(s, Lock(t, wake)) && SectionOf(s.q, s.cap, s.threads[t]).Store?
    ensures Inv(Do(s, Lock(t, wake)))
  {
    var x := s.threads[t].op.x;
    ProducerTally(s.threads[t]);
    NotifyingTotals(s, t, PushCv, Stored, wake);
    StoreConserves(s, x);
  }

  lemma StoreConserves<T>(s: State<T>, x: T)
    requires s.pushed == Left(s.exits) + s.q && s.overruns == Overruns(s.exits)
    ensures var lost := |s.q| >= s.cap;
            var exits := s.exits + if lost then [Exit.Overrun((s.q + [x])[0])] else [];
            && s.pushed + [x] == Left(exits) + Pushed(s.q, s.cap, x)
            && s.overruns + One(lost) == Overruns(exits)
  {
    var grown := s.q + [x];
    assert Left(s.exits) + grown == s.pushed + [x];
    if |s.q| >= s.cap {
      LeftAppend(s.exits, Exit.Overrun(grown[0]));
      assert grown == [grown[0]] + grown[1..];
    } else {
      assert s.exits + [] == s.exits;
    }
  }

  lemma StepKeepsInv<T>(s: State<T>, e: Event<T>)
    requires Inv(s) && Enabled(s, e)
    ensures Inv(Do(s, e))
  {
    match e
    case Call(t, op) => CallKeepsInv(s, t, op);
    case Lock(t, wake) =>
      match SectionOf(s.q, s.cap, s.threads[t]) {
        case Store => StoreKeepsInv(s, t, wake);
        case Take => TakeKeepsInv(s, t, wake);
        case Wait => WaitKeepsInv(s, t, wake);
        case _ => DropFailKeepInv(s, t, wake);
      }
    case Notify(t, wake) => NotifyKeepsInv(s, t, wake);
    case _ => QuietKeepsInv(s, e);
  }

  // ----- whole runs -----

  ghost predicate StepAt<T(!new)>(run: seq<State<T>>, events: seq<Event<T>>, k: nat) {
    k + 1 < |run| && k < |events| && Enabled(run[k], events[k]) && run[k + 1] == Do(run[k], events[k])
  }

  ghost predicate Run<T(!new)>(run: seq<State<T>>, events: seq<Event<T>>) {
    && |run| == |events| + 1
    && Init(run[0])
    && forall k :: 0 <= k < |events| ==> StepAt(run, events, k)
  }

  lemma {:induction false} NoneBusy(ts: seq<Tally>)
    requires forall i :: 0 <= i < |ts| ==> AtMost(ts[i], ZERO)
    ensures AtMost(Sum(ts), ZERO)
    decreases ts
  {
    if ts != [] { NoneBusy(ts[1..]); }
  }

  lemma InitKeepsInv<T(!new)>(s: State<T>)
    requires Init(s)
    ensures Inv(s)
  {
    var ts := Tallies(s.threads);
    forall i | 0 <= i < |ts| ensures AtMost(ts[i], ZERO) {
      assert ts[i] == TallyOf(s.threads[i]);
    }
    NoneBusy(ts);
    TotalIsNatural(s.threads);
  }

  lemma {:induction false} RunKeepsInv<T(!new)>(run: seq<State<T>>, events: seq<Event<T>>, k: nat)
    requires Run(run, events) && k < |run|
    ensures Inv(run[k])
  {
    if k == 0 {
      InitKeepsInv(run[0]);
    } else {
      RunKeepsInv(run, events, k - 1);
      assert StepAt(run, events, k - 1);
      StepKeepsInv(run[k - 1], events[k - 1]);
    }
  }

  /** In every run, with any mix of operations, spurious wake-ups and timeouts: while a
      consumer sleeps unsignalled, each stored item is matched by a signalled consumer or
      an owed notify; while a producer sleeps unsignalled, so is each free slot. Items
      leave in the order in which they were stored, and every item handed in is queued,
      removed, refused or still carried. */
  lemma RunsLoseNothing<T(!new)>(run: seq<State<T>>, events: seq<Event<T>>, k: nat)
    requires Run(run, events) && k < |run|
    ensures var s, n := run[k], Total(run[k].threads);
            && ((exists t :: 0 <= t < |s.threads| && SleepsOn(s.threads[t], PushCv)) ==>
                  |s.q| <= n.signalledPush + n.owedPush)
            && ((exists t :: 0 <= t < |s.threads| && SleepsOn(s.threads[t], PopCv)) ==>
                  s.cap - |s.q| <= n.signalledPop + n.owedPop)
            && s.pushed == Left(s.exits) + s.q
            && s.posts == |s.exits| + |s.q| + |s.dropped| + n.carried
            && s.overruns == Overruns(s.exits) && |s.dropped| == s.discards + n.owedDiscard
  {
    RunKeepsInv(run, events, k);
    TotalBounds(run[k].threads);
    assert |Left(run[k].exits)| == |run[k].exits|;
  }

  predicate Resting<T>(pc: Pc<T>) { pc.Idle? || pc.Finished? || pc.Asleep? }

  /** When every thread rests, a consumer sleeps only if the queue is empty and a producer
      only if it is full; with room for one item they never sleep together. */
  lemma RestIsJustified<T>(s: State<T>)
    requires Inv(s) && forall t :: 0 <= t < |s.threads| ==> Resting(s.threads[t])
    ensures forall t :: 0 <= t < |s.threads| && SleepsOn(s.threads[t], PushCv) ==> s.q == []
    ensures forall t :: 0 <= t < |s.threads| && SleepsOn(s.threads[t], PopCv) ==> |s.q| == s.cap
    ensures s.cap >= 1 ==> forall t, u :: 0 <= t < |s.threads| && 0 <= u < |s.threads| ==>
                             !(SleepsOn(s.threads[t], PushCv) && SleepsOn(s.threads[u], PopCv))
  {
    TotalBounds(s.threads);
    AtRest(Tallies(s.threads));
  }

  lemma {:induction false} AtRest(ts: seq<Tally>)
    requires forall i :: 0 <= i < |ts| ==> ts[i].signalledPush == ts[i].owedPush == ts[i].signalledPop == ts[i].owedPop == 0
    ensures var n := Sum(ts); n.signalledPush == n.owedPush == n.signalledPop == n.owedPop == 0
    decreases ts
  {
    if ts != [] { AtRest(ts[1..]); }
  }

  ghost predicate Blocked<T>(pc: Pc<T>, op: Op<T>) { (pc.Enter? || pc.Asleep?) && pc.op == op }

  lemma StaysBlocked<T>(s: State<T>, e: Event<T>, t: Tid, x: T)
    requires Enabled(s, e) && s.cap == 0 && s.q == [] && t < |s.threads| && Blocked(s.threads[t], Enqueue(x))
    ensures Do(s, e).cap == 0 && |Do(s, e).threads| == |s.threads| && Blocked(Do(s, e).threads[t], Enqueue(x))
  {
  }

  /** With capacity 0 a blocking enqueue never returns and nothing is ever stored: in every run
      the caller is for ever waiting for the mutex or asleep. */
  lemma {:induction false} NoCapacityBlocks<T(!new)>(
      run: seq<State<T>>, events: seq<Event<T>>, t: Tid, x: T, j: nat, k: nat)
    requires Run(run, events) && j <= k < |run| && run[0].cap == 0
    requires t < |run[j].threads| && Blocked(run[j].threads[t], Enqueue(x))
    ensures run[k].cap == 0 && run[k].q == []
    ensures t < |run[k].threads| && Blocked(run[k].threads[t], Enqueue(x))
    decreases k
  {
    CapStays(run, events, k);
    RunKeepsInv(run, events, k);
    if k > j {
      NoCapacityBlocks(run, events, t, x, j, k - 1);
      assert StepAt(run, events, k - 1);
      StaysBlocked(run[k - 1], events[k - 1], t, x);
    }
  }

  lemma CapStep<T>(s: State<T>, e: Event<T>)
    requires Enabled(s, e)
    ensures Do(s, e).cap == s.cap
  {
  }

  lemma {:induction false} CapStays<T(!new)>(run: seq<State<T>>, events: seq<Event<T>>, k: nat)
    requires Run(run, events) && k < |run|
    ensures run[k].cap == run[0].cap
  {
    if k > 0 {
      CapStays(run, events, k - 1);
      assert StepAt(run, events, k - 1);
      CapStep(run[k - 1], events[k - 1]);
    }
  }
}
