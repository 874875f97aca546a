/**
  The debounced write queue: mkdb/db/cache/write_queue.py with the handlers that
  mkdb/db/objects/store.py registers.

  Threads are modelled as steps: any caller may enqueue, flush_all may run, and the
  worker drains whatever is due and dispatches one task, in any interleaving.

  Python's dictionaries keep insertion order, so which task follows which is part of
  the state.  View is what the store will hold for an id once everything in flight has
  been written: the record on disk, the queued deltas in order, then the pending delta.
 */
module WriteQueue {
  import opened Json
  import opened Delta
  import opened Debounce
  import opened DictDebounce
  import opened Serializer
  import opened Store
  import opened StoreRun
  import opened Compactor
  import opened DiskLines
  import opened RecencyList

  datatype Task = WriteTask(id: string, delta: seq<Change>) | CompactTask(n: nat) | OtherTask(op: string)

  const DEAD_LETTER_CAP: nat := 1000

  /** The deltas queued for id, oldest first. */
  function DeltasFor(queue: seq<Task>, id: string): seq<seq<Change>>
  {
    if queue == [] then []
    else
      var before, t := DeltasFor(queue[..|queue| - 1], id), queue[|queue| - 1];
      if t.WriteTask? && t.id == id then before + [t.delta] else before
  }

  function InFlight(queue: seq<Task>, pending: map<string, seq<Change>>, id: string): seq<seq<Change>>
  {
    DeltasFor(queue, id) + if id in pending then [pending[id]] else []
  }

  function OnDisk(contents: map<string, Record>, id: string): Option<Record>
  {
    if id in contents then Some(contents[id]) else None
  }

  function View(nested: bool, contents: map<string, Record>, queue: seq<Task>, pending: map<string, seq<Change>>,
                id: string): Option<Record>
  {
    FoldDeltas(nested, OnDisk(contents, id), InFlight(queue, pending, id))
  }

  /** The records on disk after a task has been handled. */
  function AfterTask(nested: bool, contents: map<string, Record>, t: Task): map<string, Record>
  {
    if t.WriteTask? then ApplyOp(nested, contents, Write(t.id, t.delta)) else contents
  }

  /** The pending delta after one enqueue. */
  function Accumulate(pending: map<string, seq<Change>>, id: string, delta: seq<Change>): map<string, seq<Change>>
  {
    pending[id := if id in pending then Coalesce(pending[id], delta) else delta]
  }

  // ---------- laws of the view ----------

  lemma DeltasForAppend(queue: seq<Task>, t: Task, id: string)
    ensures DeltasFor(queue + [t], id) ==
            DeltasFor(queue, id) + if t.WriteTask? && t.id == id then [t.delta] else []
  {
    assert (queue + [t])[..|queue|] == queue;
  }

  lemma {:induction false} DeltasForHead(queue: seq<Task>, id: string)
    requires queue != []
    ensures DeltasFor(queue, id) ==
            (if queue[0].WriteTask? && queue[0].id == id then [queue[0].delta] else []) + DeltasFor(queue[1..], id)
    decreases |queue|
  {
    var n := |queue| - 1;
    if n > 0 {
      DeltasForHead(queue[..n], id);
      assert queue[..n][1..] == queue[1..][..n - 1];
    }
  }

  /** Moving a pending delta to the end of the queue is not visible. */
  lemma DrainKeepsView(nested: bool, contents: map<string, Record>, queue: seq<Task>,
                       pending: map<string, seq<Change>>, rid: string, id: string)
    requires rid in pending
    ensures View(nested, contents, queue + [WriteTask(rid, pending[rid])], pending - {rid}, id) ==
            View(nested, contents, queue, pending, id)
  {
    DeltasForAppend(queue, WriteTask(rid, pending[rid]), id);
    assert InFlight(queue + [WriteTask(rid, pending[rid])], pending - {rid}, id) == InFlight(queue, pending, id);
  }

  /** Dispatching the head of the queue is not visible, even when its merge raises. */
  lemma DispatchKeepsView(nested: bool, contents: map<string, Record>, queue: seq<Task>,
                          pending: map<string, seq<Change>>, id: string)
    requires queue != []
    ensures View(nested, AfterTask(nested, contents, queue[0]), queue[1..], pending, id) ==
            View(nested, contents, queue, pending, id)
  {
    hide Merge;
    DeltasForHead(queue, id);
    var t := queue[0];
    var start, rest := OnDisk(contents, id), InFlight(queue[1..], pending, id);
    if t.WriteTask? && t.id == id {
      WriteOnDisk(nested, contents, id, t.delta);
      hide ApplyOp, ApplyDelta, FoldDeltas;
      assert InFlight(queue, pending, id) == [t.delta] + rest;
      FoldDeltasConcat(nested, start, [t.delta], rest);
      FoldOne(nested, start, t.delta);
    } else {
      assert InFlight(queue, pending, id) == rest;
    }
  }

  lemma WriteOnDisk(nested: bool, contents: map<string, Record>, id: string, d: seq<Change>)
    ensures OnDisk(ApplyOp(nested, contents, Write(id, d)), id) == ApplyDelta(nested, OnDisk(contents, id), d)
  {
  }

  lemma FoldOne(nested: bool, start: Option<Record>, d: seq<Change>)
    ensures FoldDeltas(nested, start, [d]) == ApplyDelta(nested, start, d)
  {
    assert [d][..0] == [];
  }

  // ---------- when coalescing is invisible ----------

  lemma {:induction false} FlatMergeSetKey(m: Record, d: seq<Change>, c: Change)
    ensures FlatMerge(m, SetKey(d, c)) == Obj(FlatMerge(m, d).fields[c.key := c.value])
    decreases |d|
  {
    hide FlatMerge, SetKey;
    SetKeyCases(d, c);
    if !HasKey(d, c.key) {
      FlatMergeAppend(m, d, c);
    } else {
      var d', x := d[..|d| - 1], d[|d| - 1];
      assert d == d' + [x];
      FlatMergeAppend(m, d', x);
      if x.key == c.key {
        FlatMergeAppend(m, d', c);
      } else {
        FlatMergeAppend(m, SetKey(d', c), x);
        FlatMergeSetKey(m, d', c);
        var f := FlatMerge(m, d').fields;
        assert f[c.key := c.value][x.key := x.value] == f[x.key := x.value][c.key := c.value];
      }
    }
  }

  lemma FlatMergeAppend(m: Record, d: seq<Change>, x: Change)
    ensures FlatMerge(m, d + [x]) == Obj(FlatMerge(m, d).fields[x.key := x.value])
  {
    assert (d + [x])[..|d|] == d;
  }

  /** Flat mode: coalescing two deltas is always the same as writing both. */
  lemma {:induction false} FlatCoalesce(m: Record, d: seq<Change>, e: seq<Change>)
    ensures FlatMerge(m, Coalesce(d, e)) == FlatMerge(FlatMerge(m, d), e)
    decreases |e|
  {
    if e != [] {
      FlatCoalesce(m, d, e[..|e| - 1]);
      FlatMergeSetKey(m, Coalesce(d, e[..|e| - 1]), e[|e| - 1]);
    }
  }

  /** A delta without dict values that can be partitioned. */
  predicate Writable(d: seq<Change>) { Flat(d) && DistinctKeys(d) && NoShadowing(d) }

  /** Coalescing e into d is writing d and then e: without dict values, or with keys that are apart. */
  ghost predicate Coalesces(m: Record, d: seq<Change>, e: seq<Change>)
  {
    && !RemovesFresh(m, d, e)
    && ((Writable(d) && Writable(e) && !WritesBelow(d, e) && !Overridden(d, e))
        || (Apart(d, e) && AllAbsorbed(m, d, e)))
  }

  /** The record without the pending delta. */
  function AfterQueue(nested: bool, m: Machine, id: string): Option<Record>
  {
    FoldDeltas(nested, OnDisk(m.contents, id), DeltasFor(m.queue, id))
  }

  /** What an enqueue must meet for the coalescing to be invisible; in flat mode, nothing. */
  ghost predicate CanCoalesce(nested: bool, m: Machine, id: string, delta: seq<Change>)
  {
    nested && id in m.pending ==> Coalesces(Base(AfterQueue(nested, m, id)), m.pending[id], delta)
  }

  lemma CoalesceApplies(nested: bool, r: Option<Record>, d: seq<Change>, e: seq<Change>)
    requires nested ==> Coalesces(Base(r), d, e)
    ensures ApplyDelta(nested, r, Coalesce(d, e)) == ApplyDelta(nested, ApplyDelta(nested, r, d), e)
  {
    hide WritesBelow, Overridden, RemovesFresh, Coalesce, Apart, AllAbsorbed;
    if !nested {
      FlatCoalesce(Base(r), d, e);
    } else if Apart(d, e) && AllAbsorbed(Base(r), d, e) {
      DictsInvisible(Base(r), d, e);
    } else {
      PartitionSucceeds(d);
      PartitionSucceeds(e);
      DebounceInvisible(Base(r), d, e);
    }
  }

  /** Accepting a delta does to the view of its id what writing it would do, and nothing to the others. */
  lemma EnqueueAppliesToView(nested: bool, m: Machine, rid: string, delta: seq<Change>, id: string)
    requires CanCoalesce(nested, m, rid, delta)
    ensures View(nested, m.contents, m.queue, Accumulate(m.pending, rid, delta), id) ==
            if id == rid then ApplyDelta(nested, View(nested, m.contents, m.queue, m.pending, id), delta)
            else View(nested, m.contents, m.queue, m.pending, id)
  {
    hide ApplyDelta, FoldDeltas, Coalesces, Coalesce;
    if id == rid {
      var contents, pending, queued := m.contents, m.pending, DeltasFor(m.queue, id);
      var r := AfterQueue(nested, m, id);
      var after := Accumulate(pending, rid, delta)[id];
      FoldOneMore(nested, OnDisk(contents, id), queued, after);
      if id in pending {
        FoldOneMore(nested, OnDisk(contents, id), queued, pending[id]);
        CoalesceApplies(nested, r, pending[id], delta);
      } else {
        assert queued + [] == queued;
      }
    }
  }

  lemma FoldOneMore(nested: bool, start: Option<Record>, ds: seq<seq<Change>>, d: seq<Change>)
    ensures FoldDeltas(nested, start, ds + [d]) == ApplyDelta(nested, FoldDeltas(nested, start, ds), d)
  {
    assert (ds + [d])[..|ds|] == ds;
  }

  // ---------- the queue ----------

  datatype EnqueueResult = Accepted | Skipped | Full

  /** Ids in flight are known ids. */
  predicate Known(ids: set<string>, queue: seq<Task>, pending: map<string, seq<Change>>)
  {
    && (forall t :: t in queue && t.WriteTask? ==> t.id in ids)
    && pending.Keys <= ids
  }

  /** What is on disk and in flight; order is the insertion order of pending and timers. */
  datatype Machine = Machine(contents: map<string, Record>, queue: seq<Task>, pending: map<string, seq<Change>>,
                             timers: map<string, real>, order: seq<string>)

  /** The entries whose window has passed, in dictionary order. */
  function Due(order: seq<string>, timers: map<string, real>, now: real, window: real): (due: seq<string>)
    requires forall k :: k in order ==> k in timers
    ensures forall k :: k in due <==> k in order && now - timers[k] >= window
    ensures Distinct(order) ==> Distinct(due)
  {
    if order == [] then []
    else
      var before, last := order[..|order| - 1], order[|order| - 1];
      assert order == before + [last];
      var due := Due(before, timers, now, window);
      if now - timers[last] >= window then due + [last] else due
  }

  /** Pending deltas as tasks, in the order given. */
  function TasksFor(pending: map<string, seq<Change>>, ids: seq<string>): seq<Task>
    requires forall k :: k in ids ==> k in pending
  {
    if ids == [] then []
    else
      assert ids == ids[..|ids| - 1] + [ids[|ids| - 1]];
      TasksFor(pending, ids[..|ids| - 1]) + [WriteTask(ids[|ids| - 1], pending[ids[|ids| - 1]])]
  }

  /** The pending deltas of some ids go to the end of the queue, one by one. */
  function Moved(m: Machine, ids: seq<string>): Machine
    requires forall k :: k in ids ==> k in m.pending
  {
    m.(queue := m.queue + TasksFor(m.pending, ids), pending := m.pending - KeysOf(ids),
       timers := m.timers - KeysOf(ids), order := Drop(m.order, KeysOf(ids)))
  }

  predicate Accepts(pending: map<string, seq<Change>>, id: string, maxPending: nat)
  {
    id in pending || |pending| < maxPending
  }

  /** An accepted delta waits with the others of its id, which keeps its place. */
  function Enqueued(m: Machine, id: string, delta: seq<Change>, now: real): Machine
  {
    m.(pending := Accumulate(m.pending, id, delta), timers := m.timers[id := now],
       order := if id in m.pending then m.order else m.order + [id])
  }

  function Dispatched(nested: bool, m: Machine): Machine
    requires m.queue != []
  {
    m.(contents := AfterTask(nested, m.contents, m.queue[0]), queue := m.queue[1..])
  }

  /** The dictionaries go together. */
  ghost predicate Together(order: seq<string>, pending: map<string, seq<Change>>, timers: map<string, real>)
  {
    Distinct(order) && KeysOf(order) == pending.Keys == timers.Keys
  }

  lemma {:induction false} MovedKeepsView(nested: bool, m: Machine, ids: seq<string>, id: string)
    requires Distinct(ids) && forall k :: k in ids ==> k in m.pending
    ensures View(nested, m.contents, Moved(m, ids).queue, Moved(m, ids).pending, id)
         == View(nested, m.contents, m.queue, m.pending, id)
    decreases |ids|
  {
    hide View, Moved;
    if ids == [] {
      NothingMoved(m);
    } else {
      var before, last := ids[..|ids| - 1], ids[|ids| - 1];
      assert ids == before + [last];
      assert last !in before by { NotBefore(ids, |ids| - 1); }
      MovedKeepsView(nested, m, before, id);
      MovedOneMore(m, before, last);
      DrainKeepsView(nested, m.contents, Moved(m, before).queue, Moved(m, before).pending, last, id);
    }
  }

  lemma MovedTogether(m: Machine, ids: seq<string>)
    requires Together(m.order, m.pending, m.timers) && forall k :: k in ids ==> k in m.pending
    ensures var n := Moved(m, ids); Together(n.order, n.pending, n.timers)
  {
    hide Drop;
    KeysOfDrop(m.order, KeysOf(ids));
  }

  lemma MovedOneMore(m: Machine, ids: seq<string>, id: string)
    requires (forall k :: k in ids + [id] ==> k in m.pending) && id !in ids
    ensures forall k :: k in ids ==> k in m.pending
    ensures id in Moved(m, ids).pending && Moved(m, ids + [id]) ==
            Moved(m, ids).(queue := Moved(m, ids).queue + [WriteTask(id, Moved(m, ids).pending[id])],
                           pending := Moved(m, ids).pending - {id}, timers := Moved(m, ids).timers - {id},
                           order := Drop(Moved(m, ids).order, {id}))
  {
    assert id in ids + [id] && forall k :: k in ids ==> k in ids + [id];
    assert (ids + [id])[..|ids|] == ids;
    KeysOfAppend(ids, id);
    DropDrop(m.order, KeysOf(ids), {id});
    var tasks := TasksFor(m.pending, ids);
    assert m.queue + (tasks + [WriteTask(id, m.pending[id])]) == m.queue + tasks + [WriteTask(id, m.pending[id])];
    MinusTwice(m.pending, KeysOf(ids), {id});
    MinusTwice(m.timers, KeysOf(ids), {id});
  }

  lemma NothingMoved(m: Machine)
    ensures Moved(m, []) == m
  {
    assert m.queue + TasksFor(m.pending, []) == m.queue;
    assert m.pending - {} == m.pending && m.timers - {} == m.timers;
    NoKeys<string>();
  }

  lemma MinusTwice<V>(m: map<string, V>, a: set<string>, b: set<string>)
    ensures m - a - b == m - (a + b)
  {
  }

  lemma MovedKeys(m: Machine, ids: seq<string>)
    requires forall k :: k in ids ==> k in m.pending
    ensures Moved(m, ids).pending.Keys == m.pending.Keys - KeysOf(ids)
    ensures Moved(m, ids).timers.Keys == m.timers.Keys - KeysOf(ids)
    ensures forall k :: k in ids <==> k in KeysOf(ids)
  {
  }

  lemma NotBefore(s: seq<string>, i: nat)
    requires Distinct(s) && i < |s|
    ensures s[i] !in s[..i]
  {
  }

  lemma FewerPending(pending: map<string, seq<Change>>, id: string)
    ensures |pending - {id}| <= |pending|
  {
    assert (pending - {id}).Keys == pending.Keys - {id};
    assert |pending.Keys - {id}| + |pending.Keys * {id}| == |pending.Keys|;
  }

  lemma EnqueuedTogether(m: Machine, id: string, delta: seq<Change>, now: real)
    requires Together(m.order, m.pending, m.timers)
    ensures var n := Enqueued(m, id, delta, now);
            && Together(n.order, n.pending, n.timers)
            && |n.pending| == |m.pending| + if id in m.pending then 0 else 1
  {
    hide Coalesce, KeysOf, Distinct;
    KeysOfMember(m.order, id);
    KeysOfAppend(m.order, id);
    var n := Enqueued(m, id, delta, now);
    assert n.pending.Keys == m.pending.Keys + {id} && n.timers.Keys == m.timers.Keys + {id};
    if id !in m.pending { DistinctAppend(m.order, id); }
  }

  lemma DistinctAppend(s: seq<string>, id: string)
    requires Distinct(s) && id !in s
    ensures Distinct(s + [id])
  {
  }

  // ---------- what becomes of a failed task ----------

  predicate Fails(nested: bool, contents: map<string, Record>, t: Task)
  {
    t.WriteTask? && Merge(nested, Existing(contents, t.id), t.delta).None?
  }

  /** The newest failed task comes last; the oldest goes when there are too many. */
  function Buried(letters: seq<Task>, t: Task): (r: seq<Task>)
    ensures t in r && (|letters| <= DEAD_LETTER_CAP ==> |r| <= DEAD_LETTER_CAP)
  {
    var r := letters + [t];
    assert r[|r| - 1] == t && (|r| > 1 ==> r[1..][|r| - 2] == t);
    if |r| > DEAD_LETTER_CAP then r[1..] else r
  }

  class WriteQueue {
    const window: real
    const maxPending: nat
    const store: Store
    const compactor: Compactor
    ghost const ids: set<string>   // the ids this store is used with
    var pending: map<string, seq<Change>>
    var timers: map<string, real>
    var order: seq<string>         // the insertion order of both
    var queue: seq<Task>
    var deadLetter: seq<Task>

    ghost predicate Buffers()
      reads this
    {
      && Together(order, pending, timers) && |pending| <= maxPending
      && |deadLetter| <= DEAD_LETTER_CAP && Known(ids, queue, pending)
    }

    ghost predicate Storage()
      reads store, store.log, store.index
    {
      && store.Valid() && compactor.store == store && store.disk.index.Keys <= ids
      && DistinctBlobs(ids) && forall id :: id in ids ==> ValidId(id)
    }

    ghost predicate Valid()
      reads this, store, store.log, store.index
    {
      Buffers() && Storage()
    }

    ghost function State(): Machine
      requires Valid()
      reads this, store, store.log, store.index
    {
      Machine(store.Contents(), queue, pending, timers, order)
    }

    ghost function ViewOf(id: string): Option<Record>
      requires Valid()
      reads this, store, store.log, store.index
    {
      View(store.nested, store.Contents(), queue, pending, id)
    }

    constructor (store: Store, window: real, maxPending: nat, ghost ids: set<string>)
      requires store.Valid() && store.disk.index.Keys <= ids && DistinctBlobs(ids)
      requires forall id :: id in ids ==> ValidId(id)
      ensures Valid() && this.store == store && this.maxPending == maxPending && this.window == window
      ensures State() == Machine(store.Contents(), [], map[], map[], []) && deadLetter == [] && this.ids == ids
    {
      this.store, this.window, this.maxPending, this.ids := store, window, maxPending, ids;
      compactor := new Compactor(store);
      pending, timers, order, queue, deadLetter := map[], map[], [], [], [];
    }

    lemma Stored()
      requires Storage()
      ensures store.Valid()
    {
    }

    /** enqueue of a write: coalesce into the pending delta of the id and reset its timer. */
    method Enqueue(id: Option<string>, delta: seq<Change>, now: real) returns (r: EnqueueResult)
      requires Valid() && (id.Some? ==> id.value in ids)
      modifies `pending, `timers, `order
      ensures Valid()
      ensures r == if id.None? then Skipped
                   else if Accepts(old(pending), id.value, maxPending) then Accepted else Full
      ensures State() == if r.Accepted? then Enqueued(old(State()), id.value, delta, now) else old(State())
      ensures r.Accepted? ==> timers == old(timers)[id.value := now]
      ensures !r.Accepted? ==> forall k :: ViewOf(k) == old(ViewOf(k))
      ensures r.Accepted? && CanCoalesce(store.nested, old(State()), id.value, delta) ==>
                forall k :: ViewOf(k) == if k == id.value then ApplyDelta(store.nested, old(ViewOf(k)), delta)
                                         else old(ViewOf(k))
    {
      hide Storage, Together, Store.Valid, Store.Contents, CanCoalesce, View, Coalesce, ApplyDelta;
      Stored();
      if id.None? {
        return Skipped;
      }
      if id.value !in pending && |pending| >= maxPending {
        return Full;
      }
      if CanCoalesce(store.nested, State(), id.value, delta) {
        forall k
          ensures View(store.nested, store.Contents(), queue, Accumulate(pending, id.value, delta), k) ==
                  if k == id.value then ApplyDelta(store.nested, ViewOf(k), delta) else ViewOf(k)
        {
          EnqueueAppliesToView(store.nested, State(), id.value, delta, k);
        }
      }
      EnqueuedTogether(Machine(map[], queue, pending, timers, order), id.value, delta, now);
      if id.value in pending {
        pending := pending[id.value := Coalesce(pending[id.value], delta)];
      } else {
        pending, order := pending[id.value := delta], order + [id.value];
      }
      timers := timers[id.value := now];
      return Accepted;
    }

    /** enqueue of any other task: straight to the queue. */
    method EnqueueOther(task: Task)
      requires Valid() && !task.WriteTask?
      modifies `queue
      ensures Valid() && State() == old(State()).(queue := old(queue) + [task])
      ensures forall k :: ViewOf(k) == old(ViewOf(k))
    {
      hide Storage, Together, Store.Valid, Store.Contents;
      Stored();
      forall k ensures InFlight(queue + [task], pending, k) == InFlight(queue, pending, k) {
        DeltasForAppend(queue, task, k);
      }
      queue := queue + [task];
    }

    /** Pop one pending delta with its timer and put it at the end of the queue. */
    method MoveOne(id: string)
      requires Buffers() && id in pending
      modifies `pending, `timers, `order, `queue
      ensures Buffers() && queue == old(queue) + [WriteTask(id, old(pending)[id])]
      ensures pending == old(pending) - {id} && timers == old(timers) - {id} && order == Drop(old(order), {id})
    {
      hide Drop, Distinct, KeysOf;
      KeysOfDrop(order, {id});
      FewerPending(pending, id);
      queue := queue + [WriteTask(id, pending[id])];
      pending, timers, order := pending - {id}, timers - {id}, Drop(order, {id});
    }

    /** Move the pending deltas of these ids to the queue, one by one. */
    method MoveToQueue(due: seq<string>)
      requires Buffers() && Distinct(due) && forall k :: k in due ==> k in pending
      modifies `pending, `timers, `order, `queue
      ensures Buffers()
      ensures Machine(map[], queue, pending, timers, order)
           == Moved(Machine(map[], old(queue), old(pending), old(timers), old(order)), due)
    {
      hide Buffers, Moved, Distinct;
      ghost var m := Machine(map[], queue, pending, timers, order);
      NothingMoved(m);
      assert due[..0] == [];
      for i := 0 to |due|
        invariant Buffers() && Machine(map[], queue, pending, timers, order) == Moved(m, due[..i])
      {
        assert due[..i + 1] == due[..i] + [due[i]];
        assert due[i] !in due[..i] by { NotBefore(due, i); }
        MovedOneMore(m, due[..i], due[i]);
        MoveOne(due[i]);
      }
      assert due[..|due|] == due;
    }

    /** The worker's drain: exactly the entries whose window has passed, in dictionary order. */
    method DrainDue(now: real)
      requires Valid()
      modifies `pending, `timers, `order, `queue
      ensures Valid() && (forall k :: k in old(order) ==> k in old(timers))
      ensures var due := Due(old(order), old(timers), now, window);
              (forall k :: k in due ==> k in old(pending)) && State() == Moved(old(State()), due)
      ensures forall k :: k in pending <==> k in old(pending) && now - old(timers)[k] < window
      ensures forall k :: ViewOf(k) == old(ViewOf(k))
    {
      hide Storage, Together, Store.Valid, Store.Contents, View, Moved, Due, Known;
      Stored();
      OrderIsKeys();
      var due := Due(order, timers, now, window);
      MovedViews(due);
      MovedKeys(State(), due);
      MoveToQueue(due);
    }

    /** Everything pending, in dictionary order. */
    method FlushAll()
      requires Valid()
      modifies `pending, `timers, `order, `queue
      ensures Valid() && pending == map[] && timers == map[]
      ensures (forall k :: k in old(order) ==> k in old(pending)) && State() == Moved(old(State()), old(order))
      ensures forall k :: ViewOf(k) == old(ViewOf(k))
    {
      hide Storage, Together, Store.Valid, Store.Contents, View, Moved, Known;
      Stored();
      OrderIsKeys();
      MovedViews(order);
      MovedKeys(State(), order);
      MoveToQueue(order);
      assert pending.Keys == {} && timers.Keys == {};
    }

    lemma OrderIsKeys()
      requires Buffers()
      ensures Distinct(order) && (forall k :: k in order <==> k in pending) && pending.Keys == timers.Keys
    {
      forall k ensures k in order <==> k in pending {
        KeysOfMember(order, k);
      }
    }

    lemma MovedViews(due: seq<string>)
      requires Valid() && Distinct(due) && forall k :: k in due ==> k in pending
      ensures var m := Moved(State(), due);
              forall k :: View(store.nested, store.Contents(), m.queue, m.pending, k) == ViewOf(k)
      ensures Moved(State(), due)
           == Moved(Machine(map[], queue, pending, timers, order), due).(contents := store.Contents())
    {
      hide View, Store.Valid, Store.Contents;
      forall k {
        MovedKeepsView(store.nested, State(), due, k);
      }
    }

    /** Record a failed task; the oldest one goes when there are too many. */
    method Bury(t: Task)
      modifies `deadLetter
      ensures deadLetter == Buried(old(deadLetter), t)
      ensures t in deadLetter && (|old(deadLetter)| <= DEAD_LETTER_CAP ==> |deadLetter| <= DEAD_LETTER_CAP)
    {
      deadLetter := deadLetter + [t];
      if |deadLetter| > DEAD_LETTER_CAP {
        deadLetter := deadLetter[1..];
      }
    }

    /** The handler of one task; false is the exception of a write that cannot be partitioned. */
    method Handle(t: Task) returns (ok: bool)
      requires Valid() && (t.WriteTask? ==> t.id in ids)
      modifies store`disk, store.log, store.index
      ensures Valid()
      ensures store.Contents() == AfterTask(store.nested, old(store.Contents()), t)
      ensures ok <==> !Fails(store.nested, old(store.Contents()), t)
      ensures !ok ==> store.Contents() == old(store.Contents())
    {
      hide Merge, Stands, Disk.WF, Disk.Contents, Known, DistinctBlobs, Together;
      ContentsKeys(store.disk);
      match t {
        case WriteTask(id, delta) =>
          FewerBlobs(ids, store.disk.index.Keys + {id});
          ok := StepWrite(store, id, delta);
        case CompactTask(n) =>
          compactor.CompactSegment(n);
          ok := true;
        case OtherTask(_) =>   // no handler: a warning
          ok := true;
      }
      ContentsKeys(store.disk);
    }

    /** _dispatch: run the handler, and bury the task if and only if it raises. */
    method HandleOrBury(t: Task)
      requires Valid() && (t.WriteTask? ==> t.id in ids)
      modifies `deadLetter, store`disk, store.log, store.index
      ensures Valid() && store.Contents() == AfterTask(store.nested, old(store.Contents()), t)
      ensures deadLetter == if Fails(store.nested, old(store.Contents()), t) then Buried(old(deadLetter), t)
                            else old(deadLetter)
      ensures Fails(store.nested, old(store.Contents()), t) ==> store.Contents() == old(store.Contents())
    {
      hide Storage, Store.Valid, Store.Contents, Fails, Known, Together, AfterTask;
      var ok := Handle(t);
      if !ok {
        Bury(t);
      }
    }

    /** store.delete, as far as queue and disk go: what is in flight for the id stays in flight. */
    method Delete(id: string)
      requires Valid()
      modifies store`disk, store.log, store.index
      ensures Valid() && State() == old(State()).(contents := old(store.Contents()) - {id})
      ensures forall k :: k != id ==> ViewOf(k) == old(ViewOf(k))
      ensures ViewOf(id) == FoldDeltas(store.nested, None, InFlight(queue, pending, id))
    {
      hide Buffers, Disk.WF, Disk.Contents, Stands, InFlight, FoldDeltas, DistinctBlobs;
      ContentsKeys(store.disk);
      store.Delete(id);
      ContentsKeys(store.disk);
    }

    /** `queue.get_nowait()`. */
    method Next() returns (t: Task)
      requires Valid() && queue != []
      modifies `queue
      ensures Valid() && t == old(queue)[0] && queue == old(queue)[1..] && (t.WriteTask? ==> t.id in ids)
      ensures forall k :: View(store.nested, AfterTask(store.nested, store.Contents(), t), queue, pending, k) ==
                          old(ViewOf(k))
    {
      hide Storage, Together, Store.Valid, Store.Contents, View, AfterTask;
      Stored();
      DispatchKeepsViews(store.nested, store.Contents(), queue, pending);
      KnownTail(ids, queue, pending);
      t := queue[0];
      queue := queue[1..];
    }

    /** One turn of the worker on the queue; false when it is empty. */
    method Dispatch() returns (any: bool)
      requires Valid()
      modifies `queue, `deadLetter, store`disk, store.log, store.index
      ensures Valid() && any == (old(queue) != [])
      ensures State() == if any then Dispatched(store.nested, old(State())) else old(State())
      ensures forall k :: ViewOf(k) == old(ViewOf(k))
      ensures deadLetter == if any && Fails(store.nested, old(store.Contents()), old(queue)[0])
                            then Buried(old(deadLetter), old(queue)[0]) else old(deadLetter)
    {
      if queue == [] {
        return false;
      }
      hide Storage, Buffers, Store.Valid, Store.Contents, View, Fails, AfterTask, Existing, Buried, InFlight;
      ghost var m := State();
      var t := Next();
      assert State() == m.(queue := m.queue[1..]) && t == m.queue[0];
      HandleOrBury(t);
      assert State() == m.(queue := m.queue[1..], contents := AfterTask(store.nested, m.contents, t));
      return true;
    }
  }

  lemma DispatchKeepsViews(nested: bool, contents: map<string, Record>, queue: seq<Task>,
                           pending: map<string, seq<Change>>)
    requires queue != []
    ensures forall k :: View(nested, AfterTask(nested, contents, queue[0]), queue[1..], pending, k) ==
                        View(nested, contents, queue, pending, k)
  {
    hide View, AfterTask;
    forall k {
      DispatchKeepsView(nested, contents, queue, pending, k);
    }
  }

  lemma KnownTail(ids: set<string>, queue: seq<Task>, pending: map<string, seq<Change>>)
    requires Known(ids, queue, pending) && queue != []
    ensures Known(ids, queue[1..], pending) && (queue[0].WriteTask? ==> queue[0].id in ids)
  {
  }
}
