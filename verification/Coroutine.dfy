/**
 The coroutine scheduler. A step runs from one switch of stacks to the next; after it the
 coroutine `cur` goes on, so a run is any sequence of calls made by whoever is `cur`.
 setjmp puts a coroutine into `parked`, and going on takes it out: jumping to a coroutine
 that is not parked would land in a frame that is gone. rand is an arbitrary choice.
 Only the main coroutine resumes others.
 */
module Coroutine {

  type Co = nat
  const MAIN: Co := 0

  datatype Status = Ready | Running | Suspended | Done

  datatype State = State(
    list: seq<Co>,           // g_co_list, the head first
    cur: Co,                 // g_cur_co, the coroutine that executes
    status: map<Co, Status>, // the coroutines that exist
    stacks: set<Co>,         // those with a stack
    parked: set<Co>)         // those whose ctx is where they stopped

  datatype Event =
    | Create(c: Co)
    | Resume(c: Co, outOfMemory: bool)
    | Yield(next: Co)          // next: the one coro_select returns
    | Finish(next: Co)         // the function of cur has returned
    | Destroy(c: Co, next: Co) // one round of coro_destroy; next as for a yield, if it yields

  const START := State([], MAIN, map[MAIN := Running], {}, {})

  function Added(list: seq<Co>, c: Co): seq<Co> { if c in list then list else [c] + list }

  function Removed(list: seq<Co>, c: Co): (r: seq<Co>)
    ensures forall x :: x in r ==> x in list
  {
    if list == [] then []
    else if list[0] == c then list[1..]
    else [list[0]] + Removed(list[1..], c)
  }

  /** A coroutine control can go to: listed and not done. */
  predicate Selectable(s: State, c: Co) { c in s.list && c in s.status && s.status[c] != Done }

  /** coro_destroy has to wait for c. */
  predicate Waits(s: State, c: Co) {
    c != MAIN && c in s.status && (s.status[c] == Running || s.status[c] == Suspended)
  }

  predicate Enabled(s: State, e: Event) {
    s.cur in s.status &&
    match e
    case Create(c) => c !in s.status && c !in s.stacks
    case Resume(c, _) => s.cur == MAIN && c in s.status
    case Yield(next) => Selectable(s, next)
    case Finish(next) => s.cur != MAIN && Selectable(s, next) && next != s.cur
    case Destroy(c, next) => c in s.status && (Waits(s, c) ==> Selectable(s, next))
  }

  /** The switch in coro_yield: a suspended target is running again. */
  function Switched(s: State, next: Co): State
    requires next in s.status
  {
    s.(cur := next, parked := s.parked + {s.cur} - {next},
       status := if s.status[next] == Suspended then s.status[next := Running] else s.status)
  }

  function Yielded(s: State, next: Co): State
    requires s.cur in s.status && next in s.status
  {
    if next == s.cur then s
    else if s.status[s.cur] == Running then Switched(s.(status := s.status[s.cur := Suspended]), next)
    else Switched(s, next)
  }

  function Do(s: State, e: Event): State
    requires Enabled(s, e)
  {
    match e
    case Create(c) => s.(status := s.status[c := Ready])
    case Resume(c, outOfMemory) =>
      if s.status[c] != Ready && s.status[c] != Suspended then s
      else if c !in s.stacks && outOfMemory then s
      else
        s.(stacks := s.stacks + {c}, list := Added(if s.list == [] then [MAIN] else s.list, c),
           cur := c, parked := s.parked + {MAIN} - {c},
           status := if s.status[c] == Ready then s.status[c := Running] else s.status)
    case Yield(next) => Yielded(s, next)
    case Finish(next) => Switched(s.(status := s.status[s.cur := Done]), next)
    case Destroy(c, next) =>
      if c == MAIN then s
      else if Waits(s, c) then Yielded(s, next)
      else s.(list := Removed(s.list, c), stacks := s.stacks - {c}, status := s.status - {c}, parked := s.parked - {c})
  }

  // ----- the invariant -----

  ghost predicate NoDuplicates(s: seq<Co>) {
    forall i, j :: 0 <= i < j < |s| ==> s[i] != s[j]
  }

  /** The list has no duplicates and, once in use, contains main; a coroutine other than main
      is listed from its first resume on; one marked running is cur; cur is not done; and
      every listed coroutine but cur has saved its context. */
  ghost predicate Inv(s: State) {
    && NoDuplicates(s.list)
    && MAIN in s.status && s.cur in s.status
    && (forall c :: c in s.list ==> c in s.status)
    && (s.list != [] ==> MAIN in s.list)
    && (forall c :: c in s.status && c != MAIN ==> (c in s.list <==> s.status[c] != Ready))
    && (forall c :: c in s.list && c != MAIN ==> c in s.stacks)
    && (forall c :: c in s.status && c != MAIN && s.status[c] == Running ==> c == s.cur)
    && (s.cur != MAIN ==> s.cur in s.list && s.status[s.cur] != Done)
    && (s.status[MAIN] == Running || (s.status[MAIN] == Suspended && s.cur != MAIN))
    && s.cur !in s.parked
    && (forall c :: c in s.list && c != s.cur ==> c in s.parked)
  }

  lemma {:induction false} RemovedOnce(list: seq<Co>, c: Co)
    requires NoDuplicates(list)
    ensures NoDuplicates(Removed(list, c)) && |Removed(list, c)| == |list| - if c in list then 1 else 0
    ensures forall x :: x in Removed(list, c) <==> x in list && x != c
  {
    if list != [] && list[0] != c {
      assert NoDuplicates(list[1..]);
      RemovedOnce(list[1..], c);
      assert list == [list[0]] + list[1..];
      assert list[0] !in list[1..];
    } else if list != [] {
      assert list == [c] + list[1..] && c !in list[1..];
    }
  }

  lemma {:induction false} RemovedHere(list: seq<Co>, c: Co, i: nat)
    requires i < |list| && list[i] == c && c !in list[..i]
    ensures Removed(list, c) == list[..i] + list[i + 1..]
    decreases i
  {
    if i > 0 {
      assert list[0] in list[..i] && list[1..][..i - 1] == list[..i][1..];
      RemovedHere(list[1..], c, i - 1);
      assert list[..i] == [list[0]] + list[1..][..i - 1];
    }
  }

  lemma {:induction false} RemovedAbsent(list: seq<Co>, c: Co)
    requires c !in list
    ensures Removed(list, c) == list
    decreases list
  {
    if list != [] { RemovedAbsent(list[1..], c); }
  }

  lemma AddedKeepsNoDuplicates(list: seq<Co>, c: Co)
    requires NoDuplicates(list)
    ensures NoDuplicates(Added(list, c)) && forall x :: x in Added(list, c) <==> x in list || x == c
  {
    if c !in list {
      assert Added(list, c)[0] == c && Added(list, c)[1..] == list;
    }
  }

  lemma ResumeKeepsInv(s: State, c: Co, outOfMemory: bool)
    requires Inv(s) && Enabled(s, Resume(c, outOfMemory))
    ensures Inv(Do(s, Resume(c, outOfMemory)))
  {
    var base := if s.list == [] then [MAIN] else s.list;
    AddedKeepsNoDuplicates(base, c);
  }

  lemma YieldKeepsInv(s: State, next: Co)
    requires Inv(s) && Enabled(s, Yield(next))
    ensures Inv(Yielded(s, next))
  {
  }

  lemma FinishKeepsInv(s: State, next: Co)
    requires Inv(s) && Enabled(s, Finish(next))
    ensures Inv(Do(s, Finish(next)))
  {
  }

  lemma StepKeepsInv(s: State, e: Event)
    requires Inv(s) && Enabled(s, e)
    ensures Inv(Do(s, e))
  {
    match e
    case Create(_) =>
    case Resume(c, outOfMemory) => ResumeKeepsInv(s, c, outOfMemory);
    case Yield(next) => YieldKeepsInv(s, next);
    case Finish(next) => FinishKeepsInv(s, next);
    case Destroy(c, next) =>
      if Waits(s, c) {
        YieldKeepsInv(s, next);
      } else {
        RemovedOnce(s.list, c);
      }
  }

  // ----- whole runs -----

  ghost predicate StepAt(run: seq<State>, events: seq<Event>, k: nat) {
    k + 1 < |run| && k < |events| && Enabled(run[k], events[k]) && run[k + 1] == Do(run[k], events[k])
  }

  ghost predicate Run(run: seq<State>, events: seq<Event>) {
    |run| == |events| + 1 && run[0] == START && forall k :: 0 <= k < |events| ==> StepAt(run, events, k)
  }

  lemma {:induction false} RunKeepsInv(run: seq<State>, events: seq<Event>, k: nat)
    requires Run(run, events) && k < |run|
    ensures Inv(run[k])
  {
    if k > 0 {
      RunKeepsInv(run, events, k - 1);
      assert StepAt(run, events, k - 1);
      StepKeepsInv(run[k - 1], events[k - 1]);
    }
  }

  /** Control moves only to a coroutine that was not done, and that had saved its context
      where it stopped or never started. */
  lemma SwitchesAreSafe(run: seq<State>, events: seq<Event>, k: nat)
    requires Run(run, events) && k < |events| && run[k + 1].cur != run[k].cur
    ensures var s, next := run[k], run[k + 1].cur;
            && next in s.status && s.status[next] != Done
            && (next in s.parked || (s.status[next] == Ready && next !in s.list))
            && next in run[k + 1].list && next in run[k + 1].status && run[k + 1].status[next] != Done
  {
    RunKeepsInv(run, events, k);
    RunKeepsInv(run, events, k + 1);
    assert StepAt(run, events, k);
  }

  /** Whoever is resumed while ready or suspended goes on at once, listed and with main parked,
      if it has a stack or gets one; anyone else stays where it is, and so does everything. */
  lemma ResumedGoesOnExactlyWhen(run: seq<State>, events: seq<Event>, k: nat, c: Co, outOfMemory: bool)
    requires Run(run, events) && k < |events| && events[k] == Resume(c, outOfMemory)
    requires c != MAIN && c in run[k].status
    ensures var s, s' := run[k], run[k + 1];
            var goes := (s.status[c] == Ready || s.status[c] == Suspended) && (c in s.stacks || !outOfMemory);
            && (s'.cur == c <==> goes)
            && (goes ==> c in s'.list && c in s'.stacks && MAIN in s'.list && MAIN in s'.parked)
            && (!goes ==> s' == s)
  {
    RunKeepsInv(run, events, k);
    RunKeepsInv(run, events, k + 1);
    assert StepAt(run, events, k);
  }

  /** A new coroutine is ready, and nothing else has changed. */
  lemma CreatedIsReady(run: seq<State>, events: seq<Event>, k: nat, c: Co)
    requires Run(run, events) && k < |events| && events[k] == Create(c)
    ensures c !in run[k].status && run[k + 1].status == run[k].status[c := Ready]
    ensures run[k + 1] == run[k].(status := run[k + 1].status)
  {
    assert StepAt(run, events, k);
  }

  /** A coroutine whose function returns is done, and another one goes on. */
  lemma FinishedIsDone(run: seq<State>, events: seq<Event>, k: nat, next: Co)
    requires Run(run, events) && k < |events| && events[k] == Finish(next)
    ensures var s, s' := run[k], run[k + 1];
            s.cur != MAIN && s.cur in s'.status && s'.status[s.cur] == Done && s'.cur == next != s.cur
  {
    assert StepAt(run, events, k);
  }

  /** A coroutine that is ready or done is gone once destroyed; main never is. */
  lemma DestroyedIsGone(run: seq<State>, events: seq<Event>, k: nat, c: Co, next: Co)
    requires Run(run, events) && k < |events| && events[k] == Destroy(c, next)
    ensures var s, s' := run[k], run[k + 1];
            c !in s'.status <==> c != MAIN && c in s.status && (s.status[c] == Ready || s.status[c] == Done)
  {
    RunKeepsInv(run, events, k);
    assert StepAt(run, events, k);
  }

  /** Whoever yields to another coroutine is suspended and parked, and the other goes on. */
  lemma YieldedGoesOn(run: seq<State>, events: seq<Event>, k: nat, next: Co)
    requires Run(run, events) && k < |events| && events[k] == Yield(next) && next != run[k].cur
    ensures var s, s' := run[k], run[k + 1];
            s'.cur == next && s.cur in s'.parked && s.cur in s'.status && s'.status[s.cur] == Suspended
  {
    RunKeepsInv(run, events, k);
    assert StepAt(run, events, k);
  }

  lemma VanishesByDestruction(s: State, e: Event, c: Co)
    requires Inv(s) && Enabled(s, e) && c in s.status && c !in Do(s, e).status
    ensures e.Destroy? && e.c == c && c != MAIN && !Waits(s, c)
  {
  }

  /** A coroutine disappears only by its destruction, and then it was ready or done, and not
      the one that executes. */
  lemma DestroyedWasIdle(run: seq<State>, events: seq<Event>, k: nat, c: Co)
    requires Run(run, events) && k < |events| && c in run[k].status && c !in run[k + 1].status
    ensures events[k].Destroy? && events[k].c == c && c != MAIN && c != run[k].cur
    ensures run[k].status[c] == Ready || run[k].status[c] == Done
    ensures c !in run[k + 1].list && c !in run[k + 1].stacks
  {
    RunKeepsInv(run, events, k);
    assert StepAt(run, events, k);
    VanishesByDestruction(run[k], events[k], c);
    RemovedOnce(run[k].list, c);
  }

  /** A finished coroutine is never entered again: until it is destroyed it stays done, and
      control is elsewhere at every step. */
  lemma {:induction false} DoneStaysDone(run: seq<State>, events: seq<Event>, c: Co, j: nat, k: nat)
    requires Run(run, events) && j <= k < |run| && c in run[j].status && run[j].status[c] == Done
    requires forall m :: j <= m < k ==> !(events[m].Destroy? && events[m].c == c)
    ensures c in run[k].status && run[k].status[c] == Done && run[k].cur != c
    decreases k
  {
    RunKeepsInv(run, events, k);
    if k > j {
      DoneStaysDone(run, events, c, j, k - 1);
      assert StepAt(run, events, k - 1);
      RunKeepsInv(run, events, k - 1);
    }
  }

  // ----- the scheduler -----

  class Scheduler {
    var list: seq<Co>
    var count: nat              // g_co_cnt
    var cur: Co
    var status: map<Co, Status>
    var stacks: set<Co>
    var depth: nat              // the static counter of coro_select
    ghost var parked: set<Co>

    ghost function View(): State
      reads this
    {
      State(list, cur, status, stacks, parked)
    }

    ghost predicate Valid()
      reads this
    {
      Inv(View()) && count == |list| && depth == 0
    }

    constructor ()
      ensures Valid() && View() == START
    {
      list, count, cur, depth := [], 0, MAIN, 0;
      status := map[MAIN := Running];
      stacks, parked := {}, {};
    }

    method CoroCreate(c: Co)
      requires Valid() && Enabled(View(), Create(c))
      modifies this`status
      ensures Valid() && View() == Do(old(View()), Create(c))
    {
      status := status[c := Ready];
    }

    /** Walks the list; a coroutine not found in it becomes its head. */
    method CoroAddList(c: Co)
      requires count == |list|
      modifies this`list, this`count
      ensures count == |list| && list == Added(old(list), c)
    {
      var i := 0;
      while i < |list|
        invariant i <= |list| && c !in list[..i]
      {
        if list[i] == c {
          return;
        }
        i := i + 1;
      }
      list := [c] + list;
      count := count + 1;
    }

    /** A random coroutine that is not done; after two done ones, main. It recurses at most
        once, and leaves its static counter as it found it. */
    method CoroSelect() returns (next: Co)
      requires list != [] && count == |list| && MAIN in list && depth <= 1
      requires forall c :: c in list ==> c in status
      requires status[MAIN] != Done
      modifies this`depth
      ensures depth == old(depth)
      ensures next in list && status[next] != Done
      decreases 1 - depth
    {
      var idx: nat :| idx < count;
      var c := list[0];
      var i := 0;
      while i < idx
        invariant i <= idx && c == list[i]
      {
        i := i + 1;
        c := list[i];
      }
      depth := depth + 1;
      if status[c] == Done {
        if depth == 2 {
          c := MAIN;
        } else {
          c := CoroSelect();
        }
      }
      depth := depth - 1;
      next := c;
    }

    /** Main resumes c. Nothing happens unless c is ready or suspended, and if there is no
        memory for its stack. */
    method CoroResume(c: Co, outOfMemory: bool)
      requires Valid() && Enabled(View(), Resume(c, outOfMemory))
      modifies this
      ensures Valid() && View() == Do(old(View()), Resume(c, outOfMemory))
      ensures cur != old(cur) ==> cur == c && (old(status)[c] == Ready || (old(status)[c] == Suspended && c in old(parked)))
    {
      StepKeepsInv(View(), Resume(c, outOfMemory));
      if status[c] != Ready && status[c] != Suspended {
        return;
      }
      if c !in stacks {
        if outOfMemory {
          return;
        }
        stacks := stacks + {c};
      }
      assert stacks == old(stacks) + {c};
      Enter(c);
    }

    /** The switch to a coroutine with a stack; main joins the list first. A suspended
        coroutine goes on with its status unchanged. */
    method Enter(c: Co)
      requires count == |list| && cur == MAIN && c in status && (status[c] == Ready || status[c] == Suspended)
      modifies this`list, this`count, this`cur, this`status, this`parked
      ensures count == |list| && cur == c
      ensures list == Added(if old(list) == [] then [MAIN] else old(list), c)
      ensures parked == old(parked) + {MAIN} - {c}
      ensures status == if old(status)[c] == Ready then old(status)[c := Running] else old(status)
    {
      if count == 0 {
        CoroAddList(MAIN);
        assert list == [MAIN];
      }
      CoroAddList(c);
      parked := parked + {MAIN}; // setjmp(g_main_co.ctx)
      cur := c;
      parked := parked - {c};
      if status[c] == Suspended {
        return;                  // longjmp(g_cur_co->ctx)
      }
      status := status[c := Running]; // its function starts on the new stack
    }

    /** cur gives up control: it goes on itself, or another listed coroutine that was not done
        does, whose context was saved when it stopped. */
    method CoroYield() returns (ghost chosen: Co)
      requires Valid() && list != []
      modifies this`cur, this`status, this`depth, this`parked
      ensures Enabled(old(View()), Yield(chosen)) && Valid() && View() == Do(old(View()), Yield(chosen))
      ensures cur == chosen && old(status)[cur] != Done && (cur != old(cur) ==> cur in old(parked))
    {
      parked := parked + {cur};  // setjmp(g_cur_co->ctx)
      var next := CoroSelect();
      chosen := next;
      YieldKeepsInv(old(View()), chosen);
      if next == cur || status[next] == Done {
        parked := parked - {cur};
        return;
      }
      if status[cur] == Running {
        status := status[cur := Suspended];
      }
      cur := next;
      if status[cur] == Suspended {
        status := status[cur := Running];
      }
      parked := parked - {cur};  // longjmp(g_cur_co->ctx)
    }

    /** The end of coro_run: the function has returned. The coroutine is done, and control
        always leaves it: it is never the one selected. */
    method CoroFinish() returns (ghost chosen: Co)
      requires Valid() && cur != MAIN
      modifies this`cur, this`status, this`depth, this`parked
      ensures Enabled(old(View()), Finish(chosen)) && Valid() && View() == Do(old(View()), Finish(chosen))
      ensures cur == chosen != old(cur) && old(status)[cur] != Done && cur in old(parked) && status[old(cur)] == Done
    {
      status := status[cur := Done];
      parked := parked + {cur};  // setjmp in coro_yield
      var next := CoroSelect();
      chosen := next;
      FinishKeepsInv(old(View()), chosen);
      if next == cur || status[next] == Done {
        assert false; // a done coroutine is not selected
      }
      if status[cur] == Running {
        assert false; // it is done
      }
      cur := next;
      if status[cur] == Suspended {
        status := status[cur := Running];
      }
      parked := parked - {cur};
    }

    /** One round of coro_destroy: main stays; while c is running or suspended the caller
        yields, and `again` asks for another round when it next goes on; otherwise c, which
        is ready or done, is unlinked and freed. */
    method CoroDestroy(c: Co) returns (again: bool, ghost chosen: Co)
      requires Valid() && c in status
      modifies this
      ensures again <==> Waits(old(View()), c)
      ensures Enabled(old(View()), Destroy(c, chosen)) && Valid() && View() == Do(old(View()), Destroy(c, chosen))
      ensures again || c == MAIN <==> c in status
      ensures !again && c != MAIN ==> (old(status)[c] == Ready || old(status)[c] == Done) && c != old(cur)
    {
      chosen := cur;
      if c == MAIN {
        return false, chosen;
      }
      if status[c] == Running || status[c] == Suspended {
        chosen := CoroYield();
        return true, chosen;
      }
      StepKeepsInv(View(), Destroy(c, chosen));
      Unlink(c);
      stacks := stacks - {c};
      status := status - {c};
      parked := parked - {c};
      again := false;
    }

    /** Takes c out of the list, if it is there. */
    method Unlink(c: Co)
      requires NoDuplicates(list) && count == |list|
      modifies this`list, this`count
      ensures count == |list| && list == Removed(old(list), c)
      ensures NoDuplicates(list) && c !in list && forall x :: x in list <==> x in old(list) && x != c
    {
      var i := 0;
      while i < |list|
        invariant i <= |list| && list == old(list) && count == old(count) && c !in list[..i]
      {
        if list[i] == c {
          RemovedOnce(list, c);
          RemovedHere(list, c, i);
          list := list[..i] + list[i + 1..];
          count := count - 1;
          return;
        }
        i := i + 1;
      }
      RemovedOnce(list, c);
      RemovedAbsent(list, c);
    }
  }
}
