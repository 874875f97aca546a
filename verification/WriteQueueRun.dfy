/**
  Whole runs of the write queue: debouncing is invisible.

  For every interleaving of enqueues, drains, flushes, compaction tasks, dispatches
  and deletes, what an id will hold once all is written is the fold of its accepted
  deltas in the order they were accepted; after a delete, from nothing, of what was
  then in flight and what was accepted since.
 */
module WriteQueueRun {
  import opened Json
  import opened Text
  import opened Delta
  import opened Debounce
  import opened Shapes
  import opened StoreRun
  import opened Store
  import opened WriteQueue
  import opened RecencyList

  datatype Step =
    | Enqueue(id: string, delta: seq<Change>, now: real)
    | EnqueueCompact(n: nat)
    | Delete(id: string)
    | Drain(now: real)
    | Flush
    | Dispatch

  /** One accepted write, or one delete with the deltas it left in flight. */
  datatype Entry = Wrote(id: string, delta: seq<Change>) | Deleted(id: string, left: seq<seq<Change>>)

  /** The deltas an id is made of, oldest first. */
  function DeltasOf(log: seq<Entry>, id: string): seq<seq<Change>>
  {
    if log == [] then []
    else
      var before, e := DeltasOf(log[..|log| - 1], id), log[|log| - 1];
      if e.id != id then before
      else if e.Wrote? then before + [e.delta]
      else e.left
  }

  /** What they are applied to: the view before the run, or nothing once the id was deleted. */
  function StartOf(log: seq<Entry>, id: string, start: Option<Record>): Option<Record>
  {
    if exists e :: e in log && e.Deleted? && e.id == id then None else start
  }

  // ---------- runs ----------

  datatype Config = Config(nested: bool, maxPending: nat, window: real)

  /** One step of the machine; a step that is not possible does nothing. */
  function StepOf(c: Config, m: Machine, s: Step): Machine
  {
    match s
    case Enqueue(id, delta, now) => if Accepts(m.pending, id, c.maxPending) then Enqueued(m, id, delta, now) else m
    case EnqueueCompact(n) => m.(queue := m.queue + [CompactTask(n)])
    case Delete(id) => m.(contents := m.contents - {id})
    case Drain(now) => if InStep(m) then Moved(m, Due(m.order, m.timers, now, c.window)) else m
    case Flush => if InStep(m) then Moved(m, m.order) else m
    case Dispatch => if m.queue != [] then Dispatched(c.nested, m) else m
  }

  /** The dictionaries have an entry for everything in their order, as they always do. */
  predicate InStep(m: Machine) { forall k :: k in m.order ==> k in m.pending && k in m.timers }

  function RunOf(c: Config, m: Machine, steps: seq<Step>): Machine
  {
    if steps == [] then m else StepOf(c, RunOf(c, m, steps[..|steps| - 1]), steps[|steps| - 1])
  }

  /** What a step adds to the log: accepted deltas, and deletes with what they leave in flight. */
  function EntryOf(c: Config, m: Machine, s: Step): seq<Entry>
  {
    match s
    case Enqueue(id, delta, _) => if Accepts(m.pending, id, c.maxPending) then [Wrote(id, delta)] else []
    case Delete(id) => [Deleted(id, InFlight(m.queue, m.pending, id))]
    case _ => []
  }

  function LogOf(c: Config, m: Machine, steps: seq<Step>): seq<Entry>
  {
    if steps == [] then []
    else
      var before := steps[..|steps| - 1];
      LogOf(c, m, before) + EntryOf(c, RunOf(c, m, before), steps[|steps| - 1])
  }

  function MachineView(c: Config, m: Machine, id: string): Option<Record>
  {
    View(c.nested, m.contents, m.queue, m.pending, id)
  }

  /** What the log says an id will hold. */
  function Expected(nested: bool, log: seq<Entry>, id: string, start: Option<Record>): Option<Record>
  {
    FoldDeltas(nested, StartOf(log, id, start), DeltasOf(log, id))
  }

  lemma ExpectedAppend(nested: bool, log: seq<Entry>, e: Entry, id: string, start: Option<Record>)
    ensures Expected(nested, log + [e], id, start) ==
            if e.id != id then Expected(nested, log, id, start)
            else if e.Wrote? then ApplyDelta(nested, Expected(nested, log, id, start), e.delta)
            else FoldDeltas(nested, None, e.left)
  {
    hide ApplyDelta, FoldDeltas;
    assert (log + [e])[..|log|] == log;
    if e.id == id && e.Wrote? {
      FoldOneMore(nested, StartOf(log, id, start), DeltasOf(log, id), e.delta);
    }
    StartAppend(log, e, id, start);
  }

  lemma StartAppend(log: seq<Entry>, e: Entry, id: string, start: Option<Record>)
    ensures StartOf(log + [e], id, start) == if e.Deleted? && e.id == id then None else StartOf(log, id, start)
  {
    assert e in log + [e];
    assert forall x :: x in log ==> x in log + [e];
  }

  ghost predicate Sane(m: Machine) { Together(m.order, m.pending, m.timers) }

  lemma SaneIsInStep(m: Machine)
    requires Sane(m)
    ensures InStep(m) && Distinct(m.order) && forall k :: k in m.order <==> k in m.pending
  {
    forall k ensures k in m.order <==> k in m.pending {
      KeysOfMember(m.order, k);
    }
  }

  lemma StepKeepsSane(c: Config, m: Machine, s: Step)
    requires Sane(m)
    ensures Sane(StepOf(c, m, s))
  {
    hide Together, Moved, Enqueued, Due;
    SaneIsInStep(m);
    match s
    case Enqueue(id, delta, now) => EnqueuedTogether(m, id, delta, now);
    case Drain(now) => MovedTogether(m, Due(m.order, m.timers, now, c.window));
    case Flush => MovedTogether(m, m.order);
    case _ => OtherStepsKeepSane(c, m, s);
  }

  lemma OtherStepsKeepSane(c: Config, m: Machine, s: Step)
    requires Sane(m) && !s.Enqueue? && !s.Drain? && !s.Flush?
    ensures Sane(StepOf(c, m, s))
  {
  }

  /** An accepted delta is coalesced, if at all, as if it had been written. */
  ghost predicate HarmlessStep(c: Config, m: Machine, s: Step)
  {
    s.Enqueue? && Accepts(m.pending, s.id, c.maxPending) ==> CanCoalesce(c.nested, m, s.id, s.delta)
  }

  /** Every step of the run; in flat mode this asks for nothing. */
  ghost predicate Harmless(c: Config, m: Machine, steps: seq<Step>)
  {
    steps == [] ||
    (Harmless(c, m, steps[..|steps| - 1]) && HarmlessStep(c, RunOf(c, m, steps[..|steps| - 1]), steps[|steps| - 1]))
  }

  lemma {:induction false} FlatIsHarmless(c: Config, m: Machine, steps: seq<Step>)
    requires !c.nested
    ensures Harmless(c, m, steps)
    decreases |steps|
  {
    if steps != [] { FlatIsHarmless(c, m, steps[..|steps| - 1]); }
  }

  /** One harmless step: the view of the id of an accepted delta takes it, a delete starts over. */
  lemma StepView(c: Config, m: Machine, s: Step, id: string)
    requires Sane(m) && HarmlessStep(c, m, s)
    ensures MachineView(c, StepOf(c, m, s), id) ==
            if EntryOf(c, m, s) == [] || EntryOf(c, m, s)[0].id != id then MachineView(c, m, id)
            else if s.Enqueue? then ApplyDelta(c.nested, MachineView(c, m, id), s.delta)
            else FoldDeltas(c.nested, None, InFlight(m.queue, m.pending, id))
  {
    hide View, Moved, Due, Together, ApplyDelta, FoldDeltas, InFlight, CanCoalesce;
    SaneIsInStep(m);
    match s
    case Enqueue(rid, delta, now) =>
      if Accepts(m.pending, rid, c.maxPending) { EnqueueAppliesToView(c.nested, m, rid, delta, id); }
    case EnqueueCompact(n) => CompactKeepsView(c.nested, m, n, id);
    case Delete(rid) => DeleteView(c.nested, m, rid, id);
    case Drain(now) =>
      MovedKeepsView(c.nested, m, Due(m.order, m.timers, now, c.window), id);
      MovedContents(m, Due(m.order, m.timers, now, c.window));
    case Flush =>
      MovedKeepsView(c.nested, m, m.order, id);
      MovedContents(m, m.order);
    case Dispatch =>
      if m.queue != [] { DispatchKeepsView(c.nested, m.contents, m.queue, m.pending, id); }
  }

  lemma MovedContents(m: Machine, ids: seq<string>)
    requires forall k :: k in ids ==> k in m.pending
    ensures Moved(m, ids).contents == m.contents
  {
  }

  lemma CompactKeepsView(nested: bool, m: Machine, n: nat, id: string)
    ensures View(nested, m.contents, m.queue + [CompactTask(n)], m.pending, id)
         == View(nested, m.contents, m.queue, m.pending, id)
  {
    DeltasForAppend(m.queue, CompactTask(n), id);
  }

  lemma DeleteView(nested: bool, m: Machine, rid: string, id: string)
    ensures View(nested, m.contents - {rid}, m.queue, m.pending, id)
         == if id == rid then FoldDeltas(nested, None, InFlight(m.queue, m.pending, id))
            else View(nested, m.contents, m.queue, m.pending, id)
  {
    hide InFlight, FoldDeltas;
  }

  /**
    Debouncing is invisible.  Over every harmless run, and in flat mode over every run, what an
    id will hold is the fold of its accepted deltas in order, onto what it would have held
    before; from its last delete on, the fold onto nothing of what was then in flight and
    what was accepted since.
   */
  lemma {:induction false} DebouncingInvisible(c: Config, m: Machine, steps: seq<Step>, id: string)
    requires Sane(m) && Harmless(c, m, steps)
    ensures MachineView(c, RunOf(c, m, steps), id) == Expected(c.nested, LogOf(c, m, steps), id, MachineView(c, m, id))
    ensures Sane(RunOf(c, m, steps))
    decreases |steps|
  {
    hide MachineView, StepOf, HarmlessStep, Together, ApplyDelta, FoldDeltas, InFlight, Expected;
    var start := MachineView(c, m, id);
    if steps == [] {
      NothingExpected(c.nested, id, start);
    } else {
      var before, s := steps[..|steps| - 1], steps[|steps| - 1];
      assert steps == before + [s];
      DebouncingInvisible(c, m, before, id);
      var mid, log := RunOf(c, m, before), LogOf(c, m, before);
      StepKeepsSane(c, mid, s);
      StepView(c, mid, s, id);
      var e := EntryOf(c, mid, s);
      if e == [] {
        assert log + e == log;
      } else {
        ExpectedAppend(c.nested, log, e[0], id, start);
        assert e == [e[0]];
      }
    }
  }

  lemma NothingExpected(nested: bool, id: string, start: Option<Record>)
    ensures Expected(nested, [], id, start) == start
  {
  }

  // ---------- a condition on the keys alone ----------

  /** Everything that may meet in a run: its steps, and the deltas pending before it. */
  datatype Scope = Scope(steps: seq<Step>, pending: map<string, seq<Change>>)

  /** The keys that wait for id before a run or are written to it in the run. */
  function KeysFor(w: Scope, id: string): set<string>
  {
    (set s, c | s in w.steps && s.Enqueue? && s.id == id && c in s.delta :: c.key)
    + if id in w.pending then Keys(w.pending[id]) else {}
  }

  predicate ApartKeys(keys: set<string>)
  {
    forall j, k :: j in keys && k in keys && j != k ==> !Comparable(Split(j, '.'), Split(k, '.'))
  }

  /** A delta of scalars, without None, over these keys. */
  predicate PlainOver(d: seq<Change>, keys: set<string>)
  {
    Flat(d) && NoNull(d) && DistinctKeys(d) && Keys(d) <= keys
  }

  /** In nested mode, deltas are plain and no key written to an id lies below another one. */
  predicate Coalescible(nested: bool, w: Scope)
  {
    nested ==>
      && PendingPlain(nested, w, w.pending)
      && forall s :: s in w.steps && s.Enqueue? ==>
           ApartKeys(KeysFor(w, s.id)) && PlainOver(s.delta, KeysFor(w, s.id))
  }

  predicate PendingPlain(nested: bool, w: Scope, pending: map<string, seq<Change>>)
  {
    nested ==> forall id :: id in pending ==> PlainOver(pending[id], KeysFor(w, id))
  }

  lemma KeyOf(d: seq<Change>, keys: set<string>, x: Change)
    requires PlainOver(d, keys) && x in d
    ensures x.key in keys
  {
    assert x.key in Keys(d);
  }

  lemma ApartPaths(d: seq<Change>, keys: set<string>)
    requires PlainOver(d, keys) && ApartKeys(keys)
    ensures forall p :: p in Paths(d) ==> exists k :: k in keys && p == Split(k, '.')
  {
    forall p | p in Paths(d) ensures exists k :: k in keys && p == Split(k, '.') {
      var x :| x in d && x.Path() == p;
      KeyOf(d, keys, x);
    }
  }

  lemma PlainOverIsWritable(d: seq<Change>, keys: set<string>)
    requires PlainOver(d, keys) && ApartKeys(keys)
    ensures Writable(d)
  {
    forall i, j | 0 <= i < j < |d| ensures !ProperPrefix(d[i].Path(), d[j].Path()) {
      KeyOf(d, keys, d[i]);
      KeyOf(d, keys, d[j]);
    }
  }

  lemma PlainOverIsApart(m: Record, d: seq<Change>, e: seq<Change>, keys: set<string>)
    requires PlainOver(d, keys) && PlainOver(e, keys) && ApartKeys(keys)
    ensures !WritesBelow(d, e) && !Overridden(d, e) && !RemovesFresh(m, d, e)
  {
    ApartPaths(d, keys);
    ApartPaths(e, keys);
    assert forall p, q :: p in Paths(d) && q in Paths(e) ==> !ProperPrefix(p, q);
    forall q | Topmost(e, q) ensures !ValueAt(e, q).Null? {
      ValueNotNull(e, q);
    }
  }

  lemma {:induction false} ValueNotNull(d: seq<Change>, q: Path)
    requires NoNull(d) && q in Paths(d)
    ensures !ValueAt(d, q).Null?
    decreases |d|
  {
    PathsStep(d);
    if d[|d| - 1].Path() != q { ValueNotNull(d[..|d| - 1], q); }
  }

  lemma {:induction false} CoalesceNoNull(d: seq<Change>, e: seq<Change>)
    requires NoNull(d) && NoNull(e)
    ensures NoNull(Coalesce(d, e))
    decreases |e|
  {
    if e != [] {
      assert e == e[..|e| - 1] + [e[|e| - 1]];
      CoalesceNoNull(d, e[..|e| - 1]);
    }
  }

  lemma CoalescePlainOver(d: seq<Change>, e: seq<Change>, keys: set<string>)
    requires PlainOver(d, keys) && PlainOver(e, keys)
    ensures PlainOver(Coalesce(d, e), keys)
  {
    CoalesceFlat(d, e);
    CoalesceNoNull(d, e);
    CoalesceShape(d, e);
  }

  /** The next enqueue of a coalescible run may coalesce, and keeps the pending deltas plain. */
  lemma NextEnqueue(nested: bool, w: Scope, m: Machine, s: Step)
    requires Coalescible(nested, w) && PendingPlain(nested, w, m.pending) && s in w.steps && s.Enqueue?
    ensures CanCoalesce(nested, m, s.id, s.delta)
    ensures PendingPlain(nested, w, Accumulate(m.pending, s.id, s.delta))
  {
    hide ApartKeys, PlainOver, Writable, WritesBelow, Overridden, RemovesFresh, Coalesce, KeysFor, FoldDeltas;
    if nested && s.id in m.pending {
      var keys, d := KeysFor(w, s.id), m.pending[s.id];
      PlainOverIsWritable(d, keys);
      PlainOverIsWritable(s.delta, keys);
      PlainOverIsApart(Base(AfterQueue(nested, m, s.id)), d, s.delta, keys);
      CoalescePlainOver(d, s.delta, keys);
    }
  }

  lemma StepStaysPlain(c: Config, w: Scope, m: Machine, s: Step)
    requires Sane(m) && s in w.steps && Coalescible(c.nested, w) && PendingPlain(c.nested, w, m.pending)
    ensures HarmlessStep(c, m, s) && PendingPlain(c.nested, w, StepOf(c, m, s).pending)
  {
    hide Moved, Due, Together, Coalescible, CanCoalesce, PlainOver, AfterTask;
    SaneIsInStep(m);
    match s
    case Enqueue(rid, delta, now) => NextEnqueue(c.nested, w, m, s);
    case Drain(now) => MovedStaysPlain(c.nested, w, m, Due(m.order, m.timers, now, c.window));
    case Flush => MovedStaysPlain(c.nested, w, m, m.order);
    case _ =>
  }

  lemma MovedStaysPlain(nested: bool, w: Scope, m: Machine, ids: seq<string>)
    requires PendingPlain(nested, w, m.pending) && forall k :: k in ids ==> k in m.pending
    ensures PendingPlain(nested, w, Moved(m, ids).pending)
  {
    hide PlainOver, KeysFor, TasksFor;
  }

  /** A run whose keys are apart is harmless, whatever the records hold. */
  lemma {:induction false} ApartIsHarmless(c: Config, m: Machine, steps: seq<Step>, w: Scope)
    requires Sane(m) && Coalescible(c.nested, w) && w.pending == m.pending
    requires forall s :: s in steps ==> s in w.steps
    ensures Harmless(c, m, steps)
    ensures Sane(RunOf(c, m, steps)) && PendingPlain(c.nested, w, RunOf(c, m, steps).pending)
    decreases |steps|
  {
    hide StepOf, Together, PlainOver, KeysFor, HarmlessStep;
    if steps != [] {
      var before, s := steps[..|steps| - 1], steps[|steps| - 1];
      assert steps == before + [s];
      ApartIsHarmless(c, m, before, w);
      StepStaysPlain(c, w, RunOf(c, m, before), s);
      StepKeepsSane(c, RunOf(c, m, before), s);
    }
  }

  // ---------- when nothing is refused ----------

  /** Every delta enqueued for id, in order. */
  function EnqueuedFor(steps: seq<Step>, id: string): seq<seq<Change>>
  {
    if steps == [] then []
    else
      var before, s := EnqueuedFor(steps[..|steps| - 1], id), steps[|steps| - 1];
      if s.Enqueue? && s.id == id then before + [s.delta] else before
  }

  /** Without deletes, and with room for every id, the log is everything that was enqueued. */
  lemma {:induction false} NothingRefused(c: Config, m: Machine, steps: seq<Step>, ids: set<string>, id: string)
    requires m.pending.Keys <= ids && |ids| <= c.maxPending
    requires forall s :: s in steps ==> !s.Delete? && (s.Enqueue? ==> s.id in ids)
    ensures DeltasOf(LogOf(c, m, steps), id) == EnqueuedFor(steps, id)
    ensures forall e :: e in LogOf(c, m, steps) ==> e.Wrote?
    ensures RunOf(c, m, steps).pending.Keys <= ids
    decreases |steps|
  {
    hide StepOf, EntryOf;
    if steps != [] {
      var before, s := steps[..|steps| - 1], steps[|steps| - 1];
      assert steps == before + [s];
      NothingRefused(c, m, before, ids, id);
      var mid, log := RunOf(c, m, before), LogOf(c, m, before);
      NothingRefusedNow(c, mid, s, ids);
      if s.Enqueue? {
        assert (log + [Wrote(s.id, s.delta)])[..|log|] == log;
      } else {
        assert log + [] == log;
      }
    }
  }

  lemma NothingRefusedNow(c: Config, m: Machine, s: Step, ids: set<string>)
    requires m.pending.Keys <= ids && |ids| <= c.maxPending && !s.Delete? && (s.Enqueue? ==> s.id in ids)
    ensures EntryOf(c, m, s) == if s.Enqueue? then [Wrote(s.id, s.delta)] else []
    ensures StepOf(c, m, s).pending.Keys <= ids
  {
    hide Due, InFlight, AfterTask, Coalesce, TasksFor;
    if s.Enqueue? { RoomForOneMore(m.pending, ids, s.id); }
  }

  lemma RoomForOneMore(pending: map<string, seq<Change>>, ids: set<string>, id: string)
    requires pending.Keys <= ids && id in ids
    ensures id in pending || |pending| < |ids|
  {
    if id !in pending {
      assert pending.Keys <= ids - {id};
      Fewer(pending.Keys, ids - {id});
    }
  }

  lemma {:induction false} Fewer(a: set<string>, b: set<string>)
    requires a <= b
    ensures |a| <= |b|
  {
    assert |b| == |a| + |b - a| by { assert a + (b - a) == b; }
  }

  /** So then every id will hold the fold of all deltas enqueued for it, as if each had been written at once. */
  lemma AsIfWrittenAtOnce(c: Config, m: Machine, steps: seq<Step>, ids: set<string>, id: string)
    requires Sane(m) && Harmless(c, m, steps)
    requires m.pending.Keys <= ids && |ids| <= c.maxPending
    requires forall s :: s in steps ==> !s.Delete? && (s.Enqueue? ==> s.id in ids)
    ensures MachineView(c, RunOf(c, m, steps), id) ==
            FoldDeltas(c.nested, MachineView(c, m, id), EnqueuedFor(steps, id))
  {
    hide MachineView, Harmless, Together, FoldDeltas, RunOf, LogOf;
    DebouncingInvisible(c, m, steps, id);
    NothingRefused(c, m, steps, ids, id);
  }

  // ---------- the queue runs as the machine does ----------

  method Take(q: WriteQueue, s: Step)
    requires q.Valid() && (s.Enqueue? ==> s.id in q.ids)
    modifies q, q.store`disk, q.store.log, q.store.index
    ensures q.Valid() && q.State() == StepOf(Config(q.store.nested, q.maxPending, q.window), old(q.State()), s)
  {
    hide WriteQueue.Buffers, WriteQueue.Storage, Store.Valid, Store.Contents, Moved, Due, Enqueued, Dispatched, Accepts;
    q.OrderIsKeys();
    match s {
      case Enqueue(id, delta, now) => var _ := q.Enqueue(Some(id), delta, now);
      case EnqueueCompact(n) => q.EnqueueOther(CompactTask(n));
      case Delete(id) => q.Delete(id);
      case Drain(now) => q.DrainDue(now);
      case Flush => q.FlushAll();
      case Dispatch => var _ := q.Dispatch();
    }
  }

  /** Any steps in any order take the queue and the disk exactly where the machine goes. */
  method Run(q: WriteQueue, steps: seq<Step>)
    requires q.Valid() && forall s :: s in steps && s.Enqueue? ==> s.id in q.ids
    modifies q, q.store`disk, q.store.log, q.store.index
    ensures q.Valid() && q.State() == RunOf(Config(q.store.nested, q.maxPending, q.window), old(q.State()), steps)
    ensures var c := Config(q.store.nested, q.maxPending, q.window);
            Harmless(c, old(q.State()), steps) ==>
              forall id :: q.ViewOf(id) ==
                           Expected(q.store.nested, LogOf(c, old(q.State()), steps), id, old(q.ViewOf(id)))
  {
    hide WriteQueue.Buffers, WriteQueue.Storage, WriteQueue.State, StepOf, Harmless, Expected, LogOf, View;
    ghost var c, m := Config(q.store.nested, q.maxPending, q.window), q.State();
    StateIs(q);
    assert steps[..0] == [];
    for i := 0 to |steps|
      invariant q.Valid()
      invariant q.State() == RunOf(Config(q.store.nested, q.maxPending, q.window), old(q.State()), steps[..i])
    {
      assert steps[..i + 1][..i] == steps[..i];
      Take(q, steps[i]);
    }
    assert steps[..|steps|] == steps;
    StateIs(q);
    if Harmless(c, m, steps) {
      forall id {
        DebouncingInvisible(c, m, steps, id);
      }
    }
  }

  lemma StateIs(q: WriteQueue)
    requires q.Valid()
    ensures Sane(q.State()) && q.State().pending == q.pending
    ensures forall id :: q.ViewOf(id) == MachineView(Config(q.store.nested, q.maxPending, q.window), q.State(), id)
  {
    hide View, Store.Valid, Store.Contents, WriteQueue.Storage;
  }
}
