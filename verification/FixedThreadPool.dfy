/**
 fixed_thread_pool: a task queue and a map from parameters to functions that must stay in
 step. One step is one iteration of a worker's loop under the mutex, one execute, one
 notify, or one run of a task. An iteration that finds no parameter for the head task
 goes round again without giving up the mutex, so nothing else moves ever after: that
 worker is Stuck.
 */
module FixedThreadPool {
  import opened Options
  import opened Sums

  type Arg = nat

  /** std::function::target finds a plain function pointer; any other callable it does not. */
  datatype Fn = Pointer(id: nat) | Callable(id: nat)

  datatype Worker =
    | Loop                           // waits for the mutex
    | Asleep
    | Calling(fn: Fn, arg: Arg, ticket: nat)
    | Stuck                          // spins, holding the mutex
    | Exited

  datatype Place = Pending | With(w: nat) | Ran

  /** History of one execute call. */
  datatype Ticket = Ticket(fn: Fn, arg: Arg, place: Place)

  datatype Closing = Open | NotifyAllOwed | Closed

  /** tickets, ticketOf and ran are history: the execute calls, the call behind each pending
      parameter, and the calls whose task has run, in order. */
  datatype State = State(
    tasks: seq<Fn>, params: map<Arg, Fn>, shutdown: bool, closing: Closing, owed: nat,
    workers: seq<Worker>, tickets: seq<Ticket>, ticketOf: map<Arg, nat>, ran: seq<nat>)

  datatype Event =
    | Execute(fn: Fn, arg: Arg)
    | NotifyOne(wake: Option<nat>)
    | Destroy
    | NotifyAll
    | Iterate(w: nat, arg: Arg)  // arg: the entry find_if happens to meet first
    | CallTask(w: nat)
    | SpuriousWake(w: nat)

  ghost predicate Init(s: State) {
    && s.tasks == [] && s.params == map[] && !s.shutdown && s.closing == Open && s.owed == 0
    && (forall w :: 0 <= w < |s.workers| ==> s.workers[w] == Loop)
    && s.tickets == [] && s.ticketOf == map[] && s.ran == []
  }

  predicate MutexFree(s: State) { forall w :: 0 <= w < |s.workers| ==> !s.workers[w].Stuck? }

  /** The entry (arg, f) matches the head task. */
  predicate Matches(s: State, arg: Arg) {
    s.tasks != [] && s.tasks[0].Pointer? && arg in s.params && s.params[arg] == s.tasks[0]
  }

  predicate SomeMatch(s: State) { exists arg :: arg in s.params && Matches(s, arg) }

  predicate Enabled(s: State, e: Event) {
    match e
    case Execute(_, _) => s.closing.Open? && MutexFree(s)
    case NotifyOne(wake) =>
      s.owed > 0 &&
      (match wake
       case None => forall w :: 0 <= w < |s.workers| ==> !s.workers[w].Asleep?
       case Some(w) => w < |s.workers| && s.workers[w].Asleep?)
    case Destroy => s.closing.Open? && MutexFree(s)
    case NotifyAll => s.closing.NotifyAllOwed?
    case Iterate(w, arg) =>
      w < |s.workers| && s.workers[w].Loop? && MutexFree(s) && (SomeMatch(s) ==> Matches(s, arg))
    case CallTask(w) => w < |s.workers| && s.workers[w].Calling?
    case SpuriousWake(w) => w < |s.workers| && s.workers[w].Asleep?
  }

  function Do(s: State, e: Event): State
    requires Enabled(s, e)
  {
    match e
    case Execute(fn, arg) =>
      s.(params := s.params[arg := fn], tasks := s.tasks + [fn], owed := s.owed + 1,
         tickets := s.tickets + [Ticket(fn, arg, Pending)], ticketOf := s.ticketOf[arg := |s.tickets|])
    case NotifyOne(wake) =>
      s.(owed := s.owed - 1, workers := if wake.Some? then s.workers[wake.value := Loop] else s.workers)
    case Destroy => s.(shutdown := true, closing := NotifyAllOwed)
    case NotifyAll =>
      s.(closing := Closed,
         workers := seq(|s.workers|, w requires 0 <= w < |s.workers| =>
                                       if s.workers[w].Asleep? then Loop else s.workers[w]))
    case Iterate(w, arg) =>
      if s.tasks != [] then
        if Matches(s, arg) then
          var k := if arg in s.ticketOf then s.ticketOf[arg] else 0;
          s.(params := s.params - {arg}, tasks := s.tasks[1..], workers := s.workers[w := Calling(s.tasks[0], arg, k)],
             ticketOf := s.ticketOf - {arg},
             tickets := if k < |s.tickets| then s.tickets[k := s.tickets[k].(place := With(w))] else s.tickets)
        else s.(workers := s.workers[w := Stuck])
      else if s.shutdown then s.(workers := s.workers[w := Exited])
      else s.(workers := s.workers[w := Asleep])
    case CallTask(w) =>
      var k := s.workers[w].ticket;
      s.(workers := s.workers[w := Loop], ran := s.ran + [k],
         tickets := if k < |s.tickets| then s.tickets[k := s.tickets[k].(place := Ran)] else s.tickets)
    case SpuriousWake(w) => s.(workers := s.workers[w := Loop])
  }

  // ----- queue and map in step -----

  function ArgsOf(params: map<Arg, Fn>, f: Fn): set<Arg> {
    set a | a in params && params[a] == f
  }

  /** For each function, as many queued tasks as parameters. */
  ghost predicate InStep(s: State) {
    forall f :: multiset(s.tasks)[f] == |ArgsOf(s.params, f)|
  }

  lemma ArgsAfter(params: map<Arg, Fn>, arg: Arg, fn: Fn, f: Fn)
    requires arg !in params
    ensures |ArgsOf(params[arg := fn], f)| == |ArgsOf(params, f)| + if f == fn then 1 else 0
  {
    if f == fn {
      assert ArgsOf(params[arg := fn], f) == ArgsOf(params, f) + {arg};
    } else {
      assert ArgsOf(params[arg := fn], f) == ArgsOf(params, f);
    }
  }

  lemma FreshKeepsInStep(s: State, fn: Fn, arg: Arg)
    requires InStep(s) && Enabled(s, Execute(fn, arg)) && arg !in s.params
    ensures InStep(Do(s, Execute(fn, arg)))
  {
    var s' := Do(s, Execute(fn, arg));
    forall f ensures multiset(s'.tasks)[f] == |ArgsOf(s'.params, f)| {
      ArgsAfter(s.params, arg, fn, f);
    }
  }

  lemma PendingFallsOutOfStep(s: State, fn: Fn, arg: Arg)
    requires InStep(s) && Enabled(s, Execute(fn, arg)) && arg in s.params
    ensures !InStep(Do(s, Execute(fn, arg)))
  {
    var s' := Do(s, Execute(fn, arg));
    assert forall f :: multiset(s'.tasks)[f] == multiset(s.tasks)[f] + if f == fn then 1 else 0;
    var g := s.params[arg];
    if g == fn {
      assert ArgsOf(s'.params, fn) == ArgsOf(s.params, fn);
      assert multiset(s'.tasks)[fn] != |ArgsOf(s'.params, fn)|;
    } else {
      assert ArgsOf(s'.params, g) == ArgsOf(s.params, g) - {arg};
      assert multiset(s'.tasks)[g] != |ArgsOf(s'.params, g)|;
    }
  }

  /** execute keeps queue and map in step exactly when its argument is not pending. */
  lemma ExecuteKeepsInStep(s: State, fn: Fn, arg: Arg)
    requires InStep(s) && Enabled(s, Execute(fn, arg))
    ensures InStep(Do(s, Execute(fn, arg))) <==> arg !in s.params
  {
    if arg !in s.params {
      FreshKeepsInStep(s, fn, arg);
    } else {
      PendingFallsOutOfStep(s, fn, arg);
    }
  }

  lemma TakeKeepsInStep(s: State, w: nat, arg: Arg)
    requires InStep(s) && Enabled(s, Iterate(w, arg)) && Matches(s, arg)
    ensures InStep(Do(s, Iterate(w, arg)))
  {
    var s' := Do(s, Iterate(w, arg));
    assert s.tasks == [s.tasks[0]] + s.tasks[1..];
    forall f ensures multiset(s'.tasks)[f] == |ArgsOf(s'.params, f)| {
      assert multiset(s.tasks)[f] == multiset(s'.tasks)[f] + if f == s.tasks[0] then 1 else 0;
      if f == s.tasks[0] {
        assert ArgsOf(s'.params, f) == ArgsOf(s.params, f) - {arg};
      } else {
        assert ArgsOf(s'.params, f) == ArgsOf(s.params, f);
      }
    }
  }

  /** In step, the head task always finds a parameter. */
  lemma HeadFindsParameter(s: State)
    requires InStep(s) && s.tasks != [] && s.tasks[0].Pointer?
    ensures SomeMatch(s)
  {
    var f := s.tasks[0];
    assert multiset(s.tasks)[f] > 0;
    var a :| a in ArgsOf(s.params, f);
    assert Matches(s, a);
  }

  // ----- the invariant of runs in which no argument is submitted while pending -----

  ghost predicate Pointers(s: State) {
    forall i :: 0 <= i < |s.tasks| ==> s.tasks[i].Pointer?
  }

  /** Each call is in exactly one place: pending in the map, with one worker, or run once. */
  ghost predicate Traced(s: State) {
    && s.ticketOf.Keys == s.params.Keys
    && (forall a :: a in s.ticketOf ==>
          s.ticketOf[a] < |s.tickets| && s.tickets[s.ticketOf[a]] == Ticket(s.params[a], a, Pending))
    && (forall k :: 0 <= k < |s.tickets| && s.tickets[k].place.Pending? ==>
          s.tickets[k].arg in s.ticketOf && s.ticketOf[s.tickets[k].arg] == k)
    && (forall w :: 0 <= w < |s.workers| && s.workers[w].Calling? ==>
          s.workers[w].ticket < |s.tickets|
          && s.tickets[s.workers[w].ticket] == Ticket(s.workers[w].fn, s.workers[w].arg, With(w)))
    && (forall k :: 0 <= k < |s.tickets| && s.tickets[k].place.With? ==>
          var w := s.tickets[k].place.w;
          w < |s.workers| && s.workers[w] == Calling(s.tickets[k].fn, s.tickets[k].arg, k))
    && (forall i :: 0 <= i < |s.ran| ==> s.ran[i] < |s.tickets| && s.tickets[s.ran[i]].place.Ran?)
    && (forall k :: 0 <= k < |s.tickets| && s.tickets[k].place.Ran? ==> k in s.ran)
    && (forall i, j :: 0 <= i < j < |s.ran| ==> s.ran[i] != s.ran[j])
  }

  /** A worker exits only after everything is taken; after notify_all nobody sleeps. */
  ghost predicate Orderly(s: State) {
    && MutexFree(s)
    && (s.shutdown <==> !s.closing.Open?)
    && (forall w :: 0 <= w < |s.workers| && s.workers[w].Exited? ==> s.shutdown && s.tasks == [])
    && (s.closing.Closed? ==> forall w :: 0 <= w < |s.workers| ==> !s.workers[w].Asleep?)
  }

  ghost predicate Inv(s: State) {
    InStep(s) && Pointers(s) && Traced(s) && Orderly(s)
  }

  /** The caller's side: plain function pointers, and no argument that is still pending. */
  predicate Polite(s: State, e: Event) {
    e.Execute? ==> e.fn.Pointer? && e.arg !in s.params
  }

  lemma ExecuteTraced(s: State, fn: Fn, arg: Arg)
    requires Traced(s) && arg !in s.params && Enabled(s, Execute(fn, arg))
    ensures Traced(Do(s, Execute(fn, arg)))
  {
  }

  lemma TakeTraced(s: State, w: nat, arg: Arg)
    requires Traced(s) && Enabled(s, Iterate(w, arg)) && Matches(s, arg)
    ensures Traced(Do(s, Iterate(w, arg)))
  {
    var k := s.ticketOf[arg];
    assert s.tickets[k] == Ticket(s.params[arg], arg, Pending);
    OthersStayPending(s, w, arg);
  }

  lemma OthersStayPending(s: State, w: nat, arg: Arg)
    requires Traced(s) && Enabled(s, Iterate(w, arg)) && Matches(s, arg)
    ensures var s' := Do(s, Iterate(w, arg));
            && s'.ticketOf.Keys == s'.params.Keys
            && forall a :: a in s'.ticketOf ==>
                 s'.ticketOf[a] < |s'.tickets| && s'.tickets[s'.ticketOf[a]] == Ticket(s'.params[a], a, Pending)
  {
    var s' := Do(s, Iterate(w, arg));
    assert s.tickets[s.ticketOf[arg]].arg == arg;
    forall a | a in s'.ticketOf
      ensures s'.ticketOf[a] < |s'.tickets| && s'.tickets[s'.ticketOf[a]] == Ticket(s'.params[a], a, Pending)
    {
      assert s.tickets[s.ticketOf[a]] == Ticket(s.params[a], a, Pending);
    }
  }

  lemma CallTraced(s: State, w: nat)
    requires Traced(s) && Enabled(s, CallTask(w))
    ensures Traced(Do(s, CallTask(w)))
  {
    assert s.tickets[s.workers[w].ticket] == Ticket(s.workers[w].fn, s.workers[w].arg, With(w));
    CalledHasRun(s, w);
    RanStaysDistinct(s, w);
  }

  lemma RanStaysDistinct(s: State, w: nat)
    requires Traced(s) && Enabled(s, CallTask(w))
    ensures var s' := Do(s, CallTask(w));
            && (forall i :: 0 <= i < |s'.ran| ==> s'.ran[i] < |s'.tickets| && s'.tickets[s'.ran[i]].place.Ran?)
            && (forall i, j :: 0 <= i < j < |s'.ran| ==> s'.ran[i] != s'.ran[j])
  {
    assert s.tickets[s.workers[w].ticket].place == With(w);
  }

  lemma CalledHasRun(s: State, w: nat)
    requires Traced(s) && Enabled(s, CallTask(w))
    ensures var s' := Do(s, CallTask(w));
            forall j :: 0 <= j < |s'.tickets| && s'.tickets[j].place.Ran? ==> j in s'.ran
  {
    var s' := Do(s, CallTask(w));
    var k := s.workers[w].ticket;
    assert s.tickets[k] == Ticket(s.workers[w].fn, s.workers[w].arg, With(w));
    assert s'.ran[|s.ran|] == k;
    forall j | 0 <= j < |s'.tickets| && s'.tickets[j].place.Ran? ensures j in s'.ran {
      if j != k { assert s.tickets[j].place.Ran? && j in s.ran; }
    }
  }

  lemma QuietTraced(s: State, s': State)
    requires Traced(s)
    requires s'.(workers := s.workers, owed := s.owed, shutdown := s.shutdown, closing := s.closing) == s
    requires |s'.workers| == |s.workers|
    requires forall w :: 0 <= w < |s.workers| ==>
               (s'.workers[w].Calling? <==> s.workers[w].Calling?) && (s.workers[w].Calling? ==> s'.workers[w] == s.workers[w])
    ensures Traced(s')
  {
  }

  lemma ExecuteKeepsInv(s: State, fn: Fn, arg: Arg)
    requires Inv(s) && Enabled(s, Execute(fn, arg)) && Polite(s, Execute(fn, arg))
    ensures Inv(Do(s, Execute(fn, arg)))
  {
    ExecuteKeepsInStep(s, fn, arg);
    ExecuteTraced(s, fn, arg);
  }

  lemma IterateKeepsInv(s: State, w: nat, arg: Arg)
    requires Inv(s) && Enabled(s, Iterate(w, arg))
    ensures Inv(Do(s, Iterate(w, arg)))
  {
    if s.tasks != [] {
      HeadFindsParameter(s);
      TakeKeepsInStep(s, w, arg);
      TakeTraced(s, w, arg);
    } else {
      QuietTraced(s, Do(s, Iterate(w, arg)));
    }
  }

  lemma StepKeepsInv(s: State, e: Event)
    requires Inv(s) && Enabled(s, e) && Polite(s, e)
    ensures Inv(Do(s, e))
  {
    match e
    case Execute(fn, arg) => ExecuteKeepsInv(s, fn, arg);
    case Iterate(w, arg) => IterateKeepsInv(s, w, arg);
    case CallTask(w) => CallTraced(s, w);
    case _ => QuietTraced(s, Do(s, e));
  }

  ghost predicate StepAt(run: seq<State>, events: seq<Event>, k: nat) {
    k + 1 < |run| && k < |events| && Enabled(run[k], events[k]) && run[k + 1] == Do(run[k], events[k])
  }

  ghost predicate Run(run: seq<State>, events: seq<Event>) {
    |run| == |events| + 1 && Init(run[0]) && forall k :: 0 <= k < |events| ==> StepAt(run, events, k)
  }

  lemma {:induction false} RunKeepsInv(run: seq<State>, events: seq<Event>, k: nat)
    requires Run(run, events) && k < |run|
    requires forall i :: 0 <= i < k ==> Polite(run[i], events[i])
    ensures Inv(run[k])
  {
    if k == 0 {
      assert forall f :: ArgsOf(run[0].params, f) == {};
    } else {
      RunKeepsInv(run, events, k - 1);
      assert StepAt(run, events, k - 1);
      StepKeepsInv(run[k - 1], events[k - 1]);
    }
  }

  predicate AllExited(s: State) { forall w :: 0 <= w < |s.workers| ==> s.workers[w].Exited? }

  predicate AllRan(s: State) { forall c :: 0 <= c < |s.tickets| ==> c in s.ran }

  /** Every call runs at most once, by a worker that holds its own function and argument, and
      once every worker has exited each call has run. */
  lemma EachRunsOnce(run: seq<State>, events: seq<Event>, k: nat)
    requires Run(run, events) && k < |run|
    requires forall i :: 0 <= i < k ==> Polite(run[i], events[i])
    ensures var s := run[k];
            && (forall i, j :: 0 <= i < j < |s.ran| ==> s.ran[i] != s.ran[j])
            && (forall i :: 0 <= i < |s.ran| ==> s.ran[i] < |s.tickets| && s.tickets[s.ran[i]].place.Ran?)
            && (forall w :: 0 <= w < |s.workers| && s.workers[w].Calling? ==>
                  && s.workers[w].ticket < |s.tickets| && s.workers[w].ticket !in s.ran
                  && s.tickets[s.workers[w].ticket] == Ticket(s.workers[w].fn, s.workers[w].arg, With(w)))
            && (|s.workers| >= 1 && AllExited(s) ==> s.tasks == [] && s.params == map[] && AllRan(s))
  {
    RunKeepsInv(run, events, k);
    var s := run[k];
    if |s.workers| >= 1 && AllExited(s) {
      assert s.workers[0].Exited?;
      forall f: Fn ensures ArgsOf(s.params, f) == {} { assert multiset(s.tasks)[f] == 0; }
      forall a: Arg ensures a !in s.params { assert a in s.params ==> a in ArgsOf(s.params, s.params[a]); }
    }
  }

  // ----- runs in which some caller is not polite -----

  /** What holds of every run, however the callers behave. */
  ghost predicate Loose(s: State) {
    && (s.shutdown <==> !s.closing.Open?)
    && (forall w :: 0 <= w < |s.workers| && s.workers[w].Exited? ==> s.shutdown && s.tasks == [])
    && (s.closing.Closed? ==> forall w :: 0 <= w < |s.workers| ==> !s.workers[w].Asleep?)
  }

  lemma StepKeepsLoose(s: State, e: Event)
    requires Loose(s) && Enabled(s, e)
    ensures Loose(Do(s, e)) && |Do(s, e).workers| == |s.workers|
  {
  }

  lemma {:induction false} RunKeepsLoose(run: seq<State>, events: seq<Event>, k: nat)
    requires Run(run, events) && k < |run|
    ensures Loose(run[k]) && |run[k].workers| == |run[0].workers|
  {
    if k > 0 {
      RunKeepsLoose(run, events, k - 1);
      assert StepAt(run, events, k - 1);
      StepKeepsLoose(run[k - 1], events[k - 1]);
    }
  }

  /** A task is queued that will never be taken: more tasks than parameters, or a callable. */
  ghost predicate Broken(s: State) {
    |s.tasks| > |s.params| || exists i :: 0 <= i < |s.tasks| && s.tasks[i].Callable?
  }

  lemma {:induction false} InStepCounts(tasks: seq<Fn>, params: map<Arg, Fn>)
    requires forall f :: multiset(tasks)[f] == |ArgsOf(params, f)|
    ensures |tasks| == |params|
    decreases |tasks|
  {
    if tasks == [] {
      forall a: Arg ensures a !in params { assert a in params ==> a in ArgsOf(params, params[a]); }
      assert params == map[];
    } else {
      var f, rest := tasks[0], tasks[1..];
      assert tasks == [f] + rest;
      assert multiset(tasks)[f] > 0;
      var a :| a in ArgsOf(params, f);
      var fewer := params - {a};
      forall g ensures multiset(rest)[g] == |ArgsOf(fewer, g)| {
        assert multiset(tasks)[g] == multiset(rest)[g] + if g == f then 1 else 0;
        assert ArgsOf(fewer, g) == ArgsOf(params, g) - if g == f then {a} else {};
      }
      InStepCounts(rest, fewer);
      assert fewer.Keys == params.Keys - {a};
    }
  }

  lemma ImpoliteBreaks(s: State, e: Event)
    requires Inv(s) && Enabled(s, e) && !Polite(s, e)
    ensures Broken(Do(s, e))
  {
    var s' := Do(s, e);
    InStepCounts(s.tasks, s.params);
    if e.fn.Callable? {
      assert s'.tasks[|s.tasks|].Callable?;
    } else {
      assert s'.params.Keys == s.params.Keys;
    }
  }

  lemma Fewer(params: map<Arg, Fn>, arg: Arg)
    requires arg in params
    ensures |params - {arg}| == |params| - 1
  {
    assert (params - {arg}).Keys == params.Keys - {arg};
  }

  lemma OneMore(params: map<Arg, Fn>, arg: Arg, fn: Fn)
    ensures |params[arg := fn]| <= |params| + 1
  {
    assert params[arg := fn].Keys == params.Keys + {arg};
  }

  lemma StepKeepsExcess(s: State, e: Event)
    requires |s.tasks| > |s.params| && Enabled(s, e)
    ensures |Do(s, e).tasks| > |Do(s, e).params|
  {
    if e.Execute? {
      OneMore(s.params, e.arg, e.fn);
    } else if e.Iterate? && Matches(s, e.arg) {
      Fewer(s.params, e.arg);
    }
  }

  lemma StepKeepsCallable(s: State, e: Event, i: nat)
    requires i < |s.tasks| && s.tasks[i].Callable? && Enabled(s, e)
    ensures exists j :: 0 <= j < |Do(s, e).tasks| && Do(s, e).tasks[j].Callable?
  {
    var s' := Do(s, e);
    if e.Iterate? && Matches(s, e.arg) {
      assert s'.tasks[i - 1].Callable?;
    } else {
      assert s'.tasks[i].Callable?;
    }
  }

  lemma StepKeepsBroken(s: State, e: Event)
    requires Broken(s) && Enabled(s, e)
    ensures Broken(Do(s, e))
  {
    if |s.tasks| > |s.params| {
      StepKeepsExcess(s, e);
    } else {
      var i :| 0 <= i < |s.tasks| && s.tasks[i].Callable?;
      StepKeepsCallable(s, e, i);
    }
  }

  ghost predicate AllPolite(run: seq<State>, events: seq<Event>, k: nat) {
    forall i :: 0 <= i < k && i < |run| && i < |events| ==> Polite(run[i], events[i])
  }

  /** One impolite call, in whatever state, and the pool never gets done: from then on a task
      stays queued and no worker has exited. */
  lemma {:induction false} ImpoliteNeverEnds(run: seq<State>, events: seq<Event>, k: nat)
    requires Run(run, events) && k < |run| && !AllPolite(run, events, k)
    ensures Broken(run[k]) && run[k].tasks != []
    ensures forall w :: 0 <= w < |run[k].workers| ==> !run[k].workers[w].Exited?
  {
    assert StepAt(run, events, k - 1);
    if AllPolite(run, events, k - 1) {
      RunKeepsInv(run, events, k - 1);
      ImpoliteBreaks(run[k - 1], events[k - 1]);
    } else {
      ImpoliteNeverEnds(run, events, k - 1);
      StepKeepsBroken(run[k - 1], events[k - 1]);
    }
    RunKeepsLoose(run, events, k);
  }

  /** Nothing can happen any more but spurious wake-ups. */
  ghost predicate AtRest(s: State) {
    forall e :: Enabled(s, e) ==> e.SpuriousWake?
  }

  /** While the mutex is free and some worker has not exited, something can happen. */
  lemma SomethingMoves(s: State, w: nat) returns (e: Event)
    requires Loose(s) && MutexFree(s) && w < |s.workers| && !s.workers[w].Exited?
    ensures Enabled(s, e) && !e.SpuriousWake?
  {
    if s.closing.Open? {
      e := Destroy;
    } else if s.closing.NotifyAllOwed? {
      e := NotifyAll;
    } else if s.workers[w].Calling? {
      e := CallTask(w);
    } else if SomeMatch(s) {
      var arg :| arg in s.params && Matches(s, arg);
      e := Iterate(w, arg);
    } else {
      e := Iterate(w, 0);
    }
  }

  lemma RestingWorkers(s: State)
    requires Loose(s) && AtRest(s) && MutexFree(s)
    ensures AllExited(s)
  {
    forall w | 0 <= w < |s.workers| ensures s.workers[w].Exited? {
      if !s.workers[w].Exited? {
        var e := SomethingMoves(s, w);
      }
    }
  }

  lemma {:induction false} NoWorkersRunNothing(run: seq<State>, events: seq<Event>, k: nat)
    requires Run(run, events) && k < |run| && |run[0].workers| == 0
    ensures run[k].ran == [] && |run[k].workers| == 0
    ensures run[k].tickets == [] <==> forall i :: 0 <= i < k ==> !events[i].Execute?
  {
    if k > 0 {
      NoWorkersRunNothing(run, events, k - 1);
      assert StepAt(run, events, k - 1);
    }
  }

  /** The pool gets done, with every worker gone and every call run, in exactly the runs in
      which every call was polite; in any other it ends with a worker spinning under the
      mutex. Without workers it gets done when nothing was called. */
  lemma DoneExactlyWhenPolite(run: seq<State>, events: seq<Event>)
    requires Run(run, events) && AtRest(run[|events|])
    ensures AllExited(run[|events|]) && AllRan(run[|events|])
       <==> AllPolite(run, events, |events|)
            && (|run[0].workers| >= 1 || forall i :: 0 <= i < |events| ==> !events[i].Execute?)
    ensures |run[0].workers| >= 1 && !AllPolite(run, events, |events|) ==> !MutexFree(run[|events|])
  {
    var n := |events|;
    var s := run[n];
    RunKeepsLoose(run, events, n);
    if MutexFree(s) { RestingWorkers(s); }
    if |run[0].workers| == 0 {
      NoWorkersRunNothing(run, events, n);
      assert s.tickets != [] ==> 0 !in s.ran;
    } else if AllPolite(run, events, n) {
      RunKeepsInv(run, events, n);
      EachRunsOnce(run, events, n);
    } else {
      ImpoliteNeverEnds(run, events, n);
      assert !s.workers[0].Exited?;
    }
  }

  /** After the destructor's notify_all, every worker that has not exited can step. */
  lemma ClosingMoves(s: State, w: nat) returns (e: Event)
    requires Inv(s) && s.closing.Closed? && w < |s.workers| && !s.workers[w].Exited?
    ensures Enabled(s, e) && (e.Iterate? || e.CallTask?) && e.w == w
    ensures Do(s, e).workers[w] != s.workers[w]
  {
    if s.workers[w].Calling? {
      e := CallTask(w);
    } else if s.tasks == [] {
      e := Iterate(w, 0);
    } else {
      HeadFindsParameter(s);
      var arg :| arg in s.params && Matches(s, arg);
      e := Iterate(w, arg);
    }
  }

  function Weight(w: Worker): int {
    match w
    case Loop => 1
    case Asleep => 1
    case Calling(_, _, _) => 2
    case Stuck => 0
    case Exited => 0
  }

  function Weights(ws: seq<Worker>): (r: seq<int>)
    ensures |r| == |ws|
  {
    seq(|ws|, w requires 0 <= w < |ws| => Weight(ws[w]))
  }

  /** Bounds the steps left once everyone has been notified. */
  function Remaining(s: State): int {
    2 * |s.tasks| + s.owed + Sum(Weights(s.workers))
  }

  lemma RemainingIsNatural(s: State)
    ensures Remaining(s) >= 0
  {
    SumOfNaturals(Weights(s.workers));
  }

  lemma WeightsUpdate(ws: seq<Worker>, w: nat, x: Worker)
    requires w < |ws|
    ensures Sum(Weights(ws[w := x])) == Sum(Weights(ws)) - Weight(ws[w]) + Weight(x)
  {
    assert Weights(ws[w := x]) == Weights(ws)[w := Weight(x)];
    SumUpdate(Weights(ws), w, Weight(x));
  }

  /** After notify_all every possible step brings the end nearer, however the callers behaved. */
  lemma ClosingEnds(s: State, e: Event)
    requires Loose(s) && s.closing.Closed? && Enabled(s, e)
    ensures Loose(Do(s, e)) && Do(s, e).closing.Closed? && Remaining(Do(s, e)) < Remaining(s)
  {
    StepKeepsLoose(s, e);
    match e
    case Iterate(w, arg) => WeightsUpdate(s.workers, w, Do(s, e).workers[w]);
    case CallTask(w) => WeightsUpdate(s.workers, w, Loop);
    case _ =>
  }

  /** So after notify_all, in step j, a run has at most Remaining steps left; when it has come
      to rest DoneExactlyWhenPolite says how. */
  lemma {:induction false} ClosingRunEnds(run: seq<State>, events: seq<Event>, j: nat, k: nat)
    requires Run(run, events) && j <= k < |run| && run[j].closing.Closed?
    ensures run[k].closing.Closed? && (k - j) + Remaining(run[k]) <= Remaining(run[j])
    ensures k - j <= Remaining(run[j])
    decreases k
  {
    if k > j {
      ClosingRunEnds(run, events, j, k - 1);
      assert StepAt(run, events, k - 1);
      RunKeepsLoose(run, events, k - 1);
      ClosingEnds(run[k - 1], events[k - 1]);
    }
    RemainingIsNatural(run[k]);
  }

  /** The shortest such run: the second task never finds a parameter, and the worker spins. */
  lemma PendingTwiceSticks(f: nat, a: Arg)
    ensures var fn := Pointer(f);
            var s0 := State([], map[], false, Open, 0, [Loop], [], map[], []);
            && Init(s0)
            && var s1 := Do(s0, Execute(fn, a));
            && var s2 := Do(s1, Execute(fn, a));
            && Enabled(s2, Iterate(0, a))
            && var s3 := Do(s2, Iterate(0, a));
            && Enabled(s3, CallTask(0))
            && var s4 := Do(s3, CallTask(0));
            && Enabled(s4, Iterate(0, a))
            && Do(s4, Iterate(0, a)).workers[0] == Stuck
  {
    var fn := Pointer(f);
    var s0 := State([], map[], false, Open, 0, [Loop], [], map[], []);
    var s2 := Do(Do(s0, Execute(fn, a)), Execute(fn, a));
    assert s2.tasks == [fn, fn] && s2.params == map[a := fn];
    assert Matches(s2, a);
    var s3 := Do(s2, Iterate(0, a));
    assert s3.params == map[] && s3.tasks == [fn];
  }

  /** A task that is no function pointer needs a single call. */
  lemma CallableSticks(c: nat, a: Arg, b: Arg)
    ensures var s0 := State([], map[], false, Open, 0, [Loop], [], map[], []);
            && Init(s0)
            && var s1 := Do(s0, Execute(Callable(c), a));
            && Enabled(s1, Iterate(0, b))
            && var s2 := Do(s1, Iterate(0, b));
            && Enabled(s2, NotifyOne(None))
            && var s3 := Do(s2, NotifyOne(None));
            s3.workers == [Stuck] && AtRest(s3)
  {
    var s0 := State([], map[], false, Open, 0, [Loop], [], map[], []);
    var s1 := Do(s0, Execute(Callable(c), a));
    assert s1.tasks == [Callable(c)] && !SomeMatch(s1);
    var s3 := Do(Do(s1, Iterate(0, b)), NotifyOne(None));
    assert s3.workers == [Stuck] && s3.workers[0].Stuck?;
  }

  /** Once a worker is stuck, no task is taken, no call is accepted and no shutdown begins,
      in any continuation. */
  lemma {:induction false} StuckForever(run: seq<State>, events: seq<Event>, w: nat, k: nat)
    requires |run| == |events| + 1 && forall i :: 0 <= i < |events| ==> StepAt(run, events, i)
    requires w < |run[0].workers| && run[0].workers[w] == Stuck && k < |run|
    ensures w < |run[k].workers| && run[k].workers[w] == Stuck
    ensures run[k].tasks == run[0].tasks && run[k].params == run[0].params
    ensures |run[k].tickets| == |run[0].tickets| && run[k].shutdown == run[0].shutdown
  {
    if k > 0 {
      StuckForever(run, events, w, k - 1);
      assert StepAt(run, events, k - 1);
    }
  }
}
