/**
  What the write queue promises about time and order, said without its own bookkeeping:
  the debounce window, the order in which deltas are written, when everything has reached
  the disk, and which failed tasks are kept.
 */
module QueueLaws {
  import opened Json
  import opened Delta
  import opened Debounce
  import opened StoreRun
  import opened Store
  import opened WriteQueue
  import opened WriteQueueRun
  import opened RecencyList

  // ---------- the window ----------

  /** An accepted delta waits a whole window from now on, whatever was pending, and no longer. */
  lemma WindowAfterEnqueue(c: Config, m: Machine, id: string, delta: seq<Change>, now: real, t: real)
    requires Sane(m) && Accepts(m.pending, id, c.maxPending)
    ensures var waiting := StepOf(c, m, Enqueue(id, delta, now));
            && id in waiting.pending
            && (id in StepOf(c, waiting, Drain(t)).pending <==> t < now + c.window)
  {
    hide Due, Coalesce, Together;
    var waiting := StepOf(c, m, Enqueue(id, delta, now));
    StepKeepsSane(c, m, Enqueue(id, delta, now));
    DrainMoves(c, waiting, t, id);
  }

  /** A drain takes exactly the pending ids whose timer is a window old. */
  lemma DrainMoves(c: Config, m: Machine, t: real, id: string)
    requires Sane(m)
    ensures id in m.pending ==> id in m.timers
    ensures id in StepOf(c, m, Drain(t)).pending <==> id in m.pending && t - m.timers[id] < c.window
    ensures id in StepOf(c, m, Drain(t)).timers ==>
              id in m.timers && StepOf(c, m, Drain(t)).timers[id] == m.timers[id]
  {
    SaneIsInStep(m);
    SaneTimers(m);
    hide Due, Together, TasksFor;
    MovedKeys(m, Due(m.order, m.timers, t, c.window));
  }

  lemma SaneTimers(m: Machine)
    requires Sane(m)
    ensures m.timers.Keys == m.pending.Keys
  {
  }

  /** When the last delta for id was accepted in a run. */
  function LastAccepted(c: Config, m: Machine, steps: seq<Step>, id: string): Option<real>
  {
    if steps == [] then None
    else
      var before, s := steps[..|steps| - 1], steps[|steps| - 1];
      if s.Enqueue? && s.id == id && Accepts(RunOf(c, m, before).pending, id, c.maxPending) then Some(s.now)
      else LastAccepted(c, m, before, id)
  }

  /** The clock of an id that waits: the last accepted enqueue, or what it was before the run. */
  lemma {:induction false} ClockIsLastEnqueue(c: Config, m: Machine, steps: seq<Step>, id: string)
    requires Sane(m)
    ensures Sane(RunOf(c, m, steps))
    ensures var after := RunOf(c, m, steps);
            id in after.pending ==>
              && id in after.timers
              && (LastAccepted(c, m, steps, id).None? ==> id in m.timers)
              && after.timers[id] == if LastAccepted(c, m, steps, id).Some? then LastAccepted(c, m, steps, id).value
                                     else m.timers[id]
    decreases |steps|
  {
    SaneTimers(m);
    if steps != [] {
      var before, s := steps[..|steps| - 1], steps[|steps| - 1];
      ClockIsLastEnqueue(c, m, before, id);
      var mid := RunOf(c, m, before);
      StepKeepsSane(c, mid, s);
      SaneTimers(RunOf(c, m, steps));
      StepClock(c, mid, s, id);
    }
  }

  /** One step: an accepted enqueue of id sets its clock, and nothing else touches it. */
  lemma StepClock(c: Config, m: Machine, s: Step, id: string)
    requires Sane(m)
    ensures var n, sets := StepOf(c, m, s), s.Enqueue? && s.id == id && Accepts(m.pending, id, c.maxPending);
            && (sets ==> id in n.timers && n.timers[id] == s.now)
            && (!sets && id in n.pending ==>
                  id in m.pending && id in m.timers && id in n.timers && n.timers[id] == m.timers[id])
  {
    hide Due, Together, Coalesce, TasksFor, AfterTask;
    SaneTimers(m);
    SaneIsInStep(m);
    match s
    case Drain(t) => DrainMoves(c, m, t, id);
    case Flush => MovedKeys(m, m.order);
    case _ =>
  }

  /**
    Over every run, a drain at time t takes a pending id exactly when its last accepted
    enqueue, in the run or before it, is at least a window ago.
   */
  lemma DrainedWasQuiet(c: Config, m: Machine, steps: seq<Step>, id: string, t: real)
    requires Sane(m) && id in RunOf(c, m, steps).pending
    ensures LastAccepted(c, m, steps, id).None? ==> id in m.timers
    ensures var last := if LastAccepted(c, m, steps, id).Some? then LastAccepted(c, m, steps, id).value
                        else m.timers[id];
            id !in RunOf(c, m, steps + [Drain(t)]).pending <==> last <= t - c.window
  {
    ClockIsLastEnqueue(c, m, steps, id);
    DrainMoves(c, RunOf(c, m, steps), t, id);
    assert (steps + [Drain(t)])[..|steps|] == steps;
  }

  // ---------- order ----------

  /** Moved deltas stand in the queue in the order of their ids, each with what was pending. */
  lemma {:induction false} TasksInOrder(pending: map<string, seq<Change>>, ids: seq<string>)
    requires forall k :: k in ids ==> k in pending
    ensures |TasksFor(pending, ids)| == |ids|
    ensures forall i :: 0 <= i < |ids| ==> TasksFor(pending, ids)[i] == WriteTask(ids[i], pending[ids[i]])
    decreases |ids|
  {
    if ids != [] {
      assert forall k :: k in ids[..|ids| - 1] ==> k in ids;
      TasksInOrder(pending, ids[..|ids| - 1]);
    }
  }

  /** Due ids come in dictionary order: those due in its first part, then those due in the rest. */
  lemma {:induction false} DueInOrder(a: seq<string>, b: seq<string>, timers: map<string, real>, now: real,
                                      window: real)
    requires (forall k :: k in a ==> k in timers) && (forall k :: k in b ==> k in timers)
    ensures Due(a + b, timers, now, window) == Due(a, timers, now, window) + Due(b, timers, now, window)
    decreases |b|
  {
    hide Due;
    if b == [] {
      assert a + b == a;
      NoneDue(timers, now, window);
      assert Due(a, timers, now, window) + [] == Due(a, timers, now, window);
    } else {
      var c, last := b[..|b| - 1], b[|b| - 1];
      assert b == c + [last];
      assert a + b == (a + c) + [last];
      DueInOrder(a, c, timers, now, window);
      OneMoreDue(a + c, last, timers, now, window);
      OneMoreDue(c, last, timers, now, window);
    }
  }

  lemma NoneDue(timers: map<string, real>, now: real, window: real)
    ensures Due([], timers, now, window) == []
  {
  }

  lemma OneMoreDue(order: seq<string>, last: string, timers: map<string, real>, now: real, window: real)
    requires (forall k :: k in order ==> k in timers) && last in timers
    ensures Due(order + [last], timers, now, window) ==
            Due(order, timers, now, window) + if now - timers[last] >= window then [last] else []
  {
    assert (order + [last])[..|order|] == order;
  }

  /** Coalescing keeps the place of an id among those that wait; a new id goes last. */
  lemma EnqueueKeepsPlace(c: Config, m: Machine, id: string, delta: seq<Change>, now: real)
    requires Accepts(m.pending, id, c.maxPending)
    ensures StepOf(c, m, Enqueue(id, delta, now)).order == if id in m.pending then m.order else m.order + [id]
    ensures StepOf(c, m, Enqueue(id, delta, now)).queue == m.queue
  {
  }

  // ---------- all written ----------

  function Dispatches(n: nat): seq<Step> { seq(n, i => Dispatch) }

  lemma OneMoreDispatch(c: Config, m: Machine, steps: seq<Step>, n: nat)
    ensures RunOf(c, m, steps + Dispatches(0)) == RunOf(c, m, steps)
    ensures RunOf(c, m, steps + Dispatches(n + 1)) == StepOf(c, RunOf(c, m, steps + Dispatches(n)), Dispatch)
  {
    hide StepOf;
    assert steps + Dispatches(0) == steps;
    assert steps + Dispatches(n + 1) == (steps + Dispatches(n)) + [Dispatch];
  }

  /** Dispatching shortens the queue from the front, and changes no view. */
  lemma {:induction false} DispatchAll(c: Config, m: Machine, steps: seq<Step>, n: nat, id: string)
    ensures var was, now := RunOf(c, m, steps), RunOf(c, m, steps + Dispatches(n));
            && |now.queue| == (if n <= |was.queue| then |was.queue| - n else 0) && now.pending == was.pending
            && MachineView(c, now, id) == MachineView(c, was, id)
    decreases n
  {
    hide RunOf, StepOf, MachineView;
    OneMoreDispatch(c, m, steps, if n == 0 then 0 else n - 1);
    if n > 0 {
      DispatchAll(c, m, steps, n - 1, id);
      DispatchOne(c, RunOf(c, m, steps + Dispatches(n - 1)), id);
    }
  }

  lemma DispatchOne(c: Config, m: Machine, id: string)
    ensures var n := StepOf(c, m, Dispatch);
            && n.queue == (if m.queue == [] then [] else m.queue[1..]) && n.pending == m.pending
            && MachineView(c, n, id) == MachineView(c, m, id)
  {
    hide View, AfterTask;
    if m.queue != [] { DispatchKeepsView(c.nested, m.contents, m.queue, m.pending, id); }
  }

  /** After a flush, and as many dispatches as tasks are waiting, the disk holds every view. */
  lemma FlushedToDisk(c: Config, m: Machine, n: nat, id: string)
    requires Sane(m) && n >= |m.queue| + |m.order|
    ensures var after := RunOf(c, m, [Flush] + Dispatches(n));
            after.queue == [] && after.pending == map[] && OnDisk(after.contents, id) == MachineView(c, m, id)
  {
    hide Moved, Together, AfterTask;
    SaneIsInStep(m);
    assert [Flush][..0] == [];
    FlushQueue(c, m);
    MovedKeepsView(c.nested, m, m.order, id);
    MovedContents(m, m.order);
    DispatchAll(c, m, [Flush], n, id);
    NothingInFlight(c, RunOf(c, m, [Flush] + Dispatches(n)), id);
  }

  lemma FlushQueue(c: Config, m: Machine)
    requires Sane(m)
    ensures InStep(m) && RunOf(c, m, [Flush]) == Moved(m, m.order)
    ensures |RunOf(c, m, [Flush]).queue| == |m.queue| + |m.order| && RunOf(c, m, [Flush]).pending == map[]
  {
    SaneIsInStep(m);
    assert [Flush][..0] == [];
    TasksInOrder(m.pending, m.order);
    MovedKeys(m, m.order);
    assert RunOf(c, m, [Flush]).pending.Keys == {};
  }

  lemma NothingInFlight(c: Config, m: Machine, id: string)
    requires m.queue == [] && m.pending == map[]
    ensures MachineView(c, m, id) == OnDisk(m.contents, id)
  {
  }

  // ---------- failed tasks ----------

  function BuriedAll(ts: seq<Task>): seq<Task>
  {
    if ts == [] then [] else Buried(BuriedAll(ts[..|ts| - 1]), ts[|ts| - 1])
  }

  /** Of all tasks that ever failed, the last thousand are kept, oldest first. */
  lemma {:induction false} LettersAreTheLast(ts: seq<Task>)
    ensures BuriedAll(ts) == LastN(ts, 1000)
    decreases |ts|
  {
    hide Buried, LastN;
    NoLetters();
    if ts != [] {
      var before, last := ts[..|ts| - 1], ts[|ts| - 1];
      LettersAreTheLast(before);
      OneMoreLetter(before, last);
      assert ts == before + [last];
    }
  }

  lemma NoLetters()
    ensures BuriedAll([]) == LastN([], 1000)
  {
  }

  lemma OneMoreLetter(ts: seq<Task>, t: Task)
    requires BuriedAll(ts) == LastN(ts, 1000)
    ensures BuriedAll(ts + [t]) == LastN(ts + [t], 1000)
  {
    hide Buried, LastN;
    assert (ts + [t])[..|ts|] == ts;
    AtMost(ts, 1000);
    BuriedIs(BuriedAll(ts), t);
    CapStep(ts, t, 1000);
  }

  lemma AtMost<T(!new)>(s: seq<T>, n: nat)
    ensures |LastN(s, n)| <= n
  {
  }

  lemma BuriedIs(letters: seq<Task>, t: Task)
    requires |letters| <= 1000
    ensures Buried(letters, t) == LastN(letters + [t], 1000)
  {
  }

  lemma CapStep<T(!new)>(s: seq<T>, x: T, n: nat)
    requires n > 0
    ensures LastN(LastN(s, n) + [x], n) == LastN(s + [x], n)
  {
  }
}
