/**
 The fixed thread pool left alone: no notify is lost, so while a task is queued some worker or
 some owed notify can go on, and when nothing of the pool can, everything submitted has run.
 */
module FixedPoolIdle {
  import opened Options
  import opened Sums
  import opened FixedThreadPool

  /** A worker that neither sleeps nor has exited. */
  ghost predicate SomeoneUp(s: State) {
    exists w :: 0 <= w < |s.workers| && !s.workers[w].Asleep? && !s.workers[w].Exited?
  }

  /** No notify is lost: while a task is queued a worker is up, or somebody is still to be told. */
  ghost predicate Notified(s: State) {
    s.tasks != [] && s.workers != [] ==> s.owed > 0 || s.closing.NotifyAllOwed? || SomeoneUp(s)
  }

  lemma SomeoneElse(s: State, w: nat)
    requires Loose(s) && s.tasks != [] && w < |s.workers| && !s.workers[w].Asleep?
    ensures SomeoneUp(s)
  {
    assert !s.workers[w].Exited?;
  }

  lemma NotifyKeepsNotified(s: State, e: Event)
    requires Loose(s) && Notified(s) && Enabled(s, e) && (e.NotifyOne? || e.NotifyAll?)
    ensures Notified(Do(s, e))
  {
    var s' := Do(s, e);
    StepKeepsLoose(s, e);
    if s.tasks != [] && s.workers != [] {
      if e.NotifyOne? && e.wake.Some? {
        SomeoneElse(s', e.wake.value);
      } else {
        SomeoneElse(s', 0);
      }
    }
  }

  lemma WorkerKeepsNotified(s: State, e: Event)
    requires Loose(s) && Notified(s) && Enabled(s, e) && (e.Iterate? || e.CallTask? || e.SpuriousWake?)
    ensures Notified(Do(s, e))
  {
    var s' := Do(s, e);
    StepKeepsLoose(s, e);
    if s'.tasks != [] {
      SomeoneElse(s', e.w);
    }
  }

  lemma StepKeepsNotified(s: State, e: Event)
    requires Loose(s) && Notified(s) && Enabled(s, e)
    ensures Notified(Do(s, e))
  {
    match e
    case Execute(_, _) =>
    case Destroy =>
    case NotifyOne(_) => NotifyKeepsNotified(s, e);
    case NotifyAll => NotifyKeepsNotified(s, e);
    case _ => WorkerKeepsNotified(s, e);
  }

  /** In every run, however the callers behave. */
  lemma {:induction false} RunKeepsNotified(run: seq<State>, events: seq<Event>, k: nat)
    requires Run(run, events) && k < |run|
    ensures Notified(run[k])
  {
    if k > 0 {
      RunKeepsNotified(run, events, k - 1);
      RunKeepsLoose(run, events, k - 1);
      assert StepAt(run, events, k - 1);
      StepKeepsNotified(run[k - 1], events[k - 1]);
    }
  }

  /** A step of the pool itself, without any caller. */
  predicate PoolStep(e: Event) { e.NotifyOne? || e.NotifyAll? || e.Iterate? || e.CallTask? }

  /** While a task is queued the pool can go on by itself. */
  lemma QueuedMoves(s: State) returns (e: Event)
    requires Loose(s) && Notified(s) && MutexFree(s) && s.tasks != [] && s.workers != []
    ensures Enabled(s, e) && PoolStep(e)
  {
    if s.closing.NotifyAllOwed? {
      e := NotifyAll;
    } else if SomeoneUp(s) {
      var w :| 0 <= w < |s.workers| && !s.workers[w].Asleep? && !s.workers[w].Exited?;
      if s.workers[w].Calling? {
        e := CallTask(w);
      } else if SomeMatch(s) {
        var arg :| arg in s.params && Matches(s, arg);
        e := Iterate(w, arg);
      } else {
        e := Iterate(w, 0);
      }
    } else if exists w :: 0 <= w < |s.workers| && s.workers[w].Asleep? {
      var w :| 0 <= w < |s.workers| && s.workers[w].Asleep?;
      e := NotifyOne(Some(w));
    } else {
      e := NotifyOne(None);
    }
  }

  function Cost(w: Worker): int { if w.Calling? then 2 else if w.Loop? then 1 else 0 }

  function Costs(ws: seq<Worker>): (r: seq<int>)
    ensures |r| == |ws| && forall i :: 0 <= i < |r| ==> r[i] >= 0
  {
    seq(|ws|, i requires 0 <= i < |ws| => Cost(ws[i]))
  }

  /** Bounds the steps the pool can take by itself before the destructor. */
  function Work(s: State): int { 4 * |s.tasks| + 2 * s.owed + Sum(Costs(s.workers)) }

  lemma CostsUpdate(ws: seq<Worker>, w: nat, x: Worker)
    requires w < |ws|
    ensures Sum(Costs(ws[w := x])) == Sum(Costs(ws)) - Cost(ws[w]) + Cost(x)
  {
    assert Costs(ws[w := x]) == Costs(ws)[w := Cost(x)];
    SumUpdate(Costs(ws), w, Cost(x));
  }

  lemma PoolStepLessens(s: State, e: Event)
    requires Enabled(s, e) && PoolStep(e) && s.closing.Open?
    ensures Do(s, e).closing.Open? && Work(Do(s, e)) < Work(s)
  {
    match e
    case NotifyOne(wake) => if wake.Some? { CostsUpdate(s.workers, wake.value, Loop); }
    case Iterate(w, _) => CostsUpdate(s.workers, w, Do(s, e).workers[w]);
    case CallTask(w) => CostsUpdate(s.workers, w, Loop);
  }

  /** Before the destructor, the pool left alone comes to a stop: from step j on it takes at most
      Work steps by itself. */
  lemma {:induction false} LeftAloneStops(run: seq<State>, events: seq<Event>, j: nat, k: nat)
    requires Run(run, events) && j <= k < |run| && run[j].closing.Open?
    requires forall i :: j <= i < k ==> PoolStep(events[i])
    ensures run[k].closing.Open? && (k - j) + Work(run[k]) <= Work(run[j])
    ensures k - j <= Work(run[j])
    decreases k
  {
    if k > j {
      LeftAloneStops(run, events, j, k - 1);
      assert StepAt(run, events, k - 1);
      PoolStepLessens(run[k - 1], events[k - 1]);
    }
    SumOfNaturals(Costs(run[k].workers));
  }

  /** And where it stops, everything that polite callers have submitted has run. */
  lemma StoppedMeansRan(run: seq<State>, events: seq<Event>, k: nat)
    requires Run(run, events) && k < |run| && AllPolite(run, events, k) && run[0].workers != []
    requires forall e :: Enabled(run[k], e) ==> !PoolStep(e)
    ensures run[k].tasks == [] && run[k].params == map[] && AllRan(run[k])
  {
    var s := run[k];
    RunKeepsInv(run, events, k);
    RunKeepsLoose(run, events, k);
    RunKeepsNotified(run, events, k);
    if s.tasks != [] {
      var e := QueuedMoves(s);
      assert false;
    }
    NothingPending(s);
    forall c | 0 <= c < |s.tickets| ensures c in s.ran {
      if s.tickets[c].place.With? {
        var e := TakenMoves(s, c);
        assert false;
      }
    }
  }

  lemma TakenMoves(s: State, c: nat) returns (e: Event)
    requires Traced(s) && c < |s.tickets| && s.tickets[c].place.With?
    ensures Enabled(s, e) && PoolStep(e)
  {
    e := CallTask(s.tickets[c].place.w);
  }

  lemma NothingPending(s: State)
    requires InStep(s) && Traced(s) && s.tasks == []
    ensures s.params == map[] && forall c :: 0 <= c < |s.tickets| ==> !s.tickets[c].place.Pending?
  {
    InStepCounts(s.tasks, s.params);
    assert s.params.Keys == {};
  }

  // ----- the order of the tasks -----

  /** The queued tasks are those of the last calls of execute, in the order of the calls. */
  ghost predicate InOrder(s: State) {
    && |s.tasks| <= |s.tickets|
    && forall i :: 0 <= i < |s.tasks| ==> s.tasks[i] == s.tickets[|s.tickets| - |s.tasks| + i].fn
  }

  lemma StepKeepsOrder(s: State, e: Event)
    requires InOrder(s) && Enabled(s, e)
    ensures InOrder(Do(s, e))
  {
  }

  /** So in every run, however the callers behave, tasks are taken in the order of the calls. */
  lemma {:induction false} TakenInOrder(run: seq<State>, events: seq<Event>, k: nat)
    requires Run(run, events) && k < |run|
    ensures InOrder(run[k])
  {
    if k > 0 {
      TakenInOrder(run, events, k - 1);
      assert StepAt(run, events, k - 1);
      StepKeepsOrder(run[k - 1], events[k - 1]);
    }
  }
}
