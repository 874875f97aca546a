/**
  Results on their way from workers to the submitters that wait for them:
  mkdb/db/query_workers/dispatcher.py and worker.py.

  Every method of Dispatcher is one atomic step of one thread (a queue operation, a
  block under the lock, or setting an event), and Run takes the steps in any order.
  What a worker computes is left open.
 */
module ResultRouting {
  import opened Json

  /** The uuid of a task. */
  datatype TaskId = TaskId(uuid: string)

  datatype Task = Task(id: TaskId, operation: string, params: Json)

  datatype Result = Ok(data: Json) | Error(message: string)

  datatype Message = Message(id: TaskId, result: Result)

  /** Where the thread that submitted a task stands. */
  datatype Phase = Registered | Waiting | Woken | Expired | Returned(result: Result) | TimedOut

  /**
    Where a task, or the result for it, is; the router stores a result and then signals its
    event, if there was one.
   */
  datatype Place = Unsent | InWork | At(worker: nat) | InResults | Stored(hasEvent: bool) | Signalled

  /** Everything about one task: the entries the shared dictionaries have for it, and whether its event is set. */
  datatype Row = Row(phase: Phase, place: Place, pending: bool, result: Option<Result>, flag: bool,
                     computed: Option<Result>)

  /** The dictionaries and events, and the places. */
  datatype Shared = Shared(pending: set<TaskId>, results: map<TaskId, Result>, flags: set<TaskId>,
                           phase: map<TaskId, Phase>, place: map<TaskId, Place>, computed: map<TaskId, Result>)
  {
    function RowOf(id: TaskId): Row
      requires id in phase && id in place
    {
      Row(phase[id], place[id], id in pending, Lookup(results, id), id in flags, Lookup(computed, id))
    }

    ghost predicate Holds(tasks: map<TaskId, Task>)
    {
      && tasks.Keys == phase.Keys == place.Keys
      && pending <= tasks.Keys && results.Keys <= tasks.Keys && flags <= tasks.Keys && computed.Keys <= tasks.Keys
      && forall id :: id in tasks ==> tasks[id].id == id && Coherent(RowOf(id))
    }
  }

  predicate Coherent(r: Row)
  {
    && (r.place == Unsent <==> r.phase == Registered)
    && (r.pending <==> r.phase != TimedOut)
    && (r.place == Unsent || r.place == InWork || r.place.At? <==> r.computed == None)
    // the event
    && (r.flag ==> r.place == Signalled)
    && (r.place == Signalled && r.phase != TimedOut ==> r.flag)
    && (r.place.Stored? && !r.place.hasEvent ==> r.phase == TimedOut)
    && (r.phase == Woken ==> r.flag)
    // the result
    && (r.result.Some? ==> (r.place.Stored? || r.place == Signalled) && r.result == r.computed)
    && ((r.place.Stored? || r.place == Signalled) && r.phase in {Waiting, Woken, Expired} ==> r.result.Some?)
    && (r.phase.Returned? ==> r.computed == Some(r.phase.result) && r.result == None && r.place == Signalled)
    // what is left over after a timeout: a result that was stored when the event was gone already
    && (r.phase == TimedOut ==>
          (r.result.Some? <==> (r.place.Stored? && !r.place.hasEvent) || (r.place == Signalled && !r.flag)))
  }

  function Lookup<K(==), V>(m: map<K, V>, k: K): Option<V> { if k in m then Some(m[k]) else None }

  predicate Is<K(==), V(==)>(m: map<K, V>, k: K, v: V) { k in m && m[k] == v }

  ghost predicate WorkHolds(queue: seq<Task>, tasks: map<TaskId, Task>, place: map<TaskId, Place>)
  {
    && (forall i, j :: 0 <= i < j < |queue| ==> queue[i].id != queue[j].id)
    && (forall t :: t in queue ==> Is(tasks, t.id, t) && Is(place, t.id, InWork))
    && (forall id :: Is(place, id, InWork) ==> id in tasks && tasks[id].id == id && tasks[id] in queue)
  }

  ghost predicate WorkersHold(busy: map<nat, Task>, tasks: map<TaskId, Task>, place: map<TaskId, Place>)
  {
    && (forall w :: w in busy ==> Is(tasks, busy[w].id, busy[w]) && Is(place, busy[w].id, At(w)))
    && (forall id :: id in place && place[id].At? ==> place[id].worker in busy && busy[place[id].worker].id == id)
  }

  ghost predicate ResultsHold(queue: seq<Message>, computed: map<TaskId, Result>, place: map<TaskId, Place>)
  {
    && (forall i, j :: 0 <= i < j < |queue| ==> queue[i].id != queue[j].id)
    && (forall m :: m in queue ==> Is(computed, m.id, m.result) && Is(place, m.id, InResults))
    && (forall id :: Is(place, id, InResults) ==> id in computed && Message(id, computed[id]) in queue)
  }

  ghost predicate RouterHolds(routing: Option<(TaskId, bool)>, place: map<TaskId, Place>)
  {
    && (forall id :: id in place && place[id].Stored? ==> routing == Some((id, place[id].hasEvent)))
    && (routing.Some? ==> Is(place, routing.value.0, Stored(routing.value.1)))
  }

  /** Moving one task changes nothing for the places it neither leaves nor enters. */
  lemma Elsewhere(work: seq<Task>, busy: map<nat, Task>, done: seq<Message>, routing: Option<(TaskId, bool)>,
                  tasks: map<TaskId, Task>, computed: map<TaskId, Result>, place: map<TaskId, Place>, id: TaskId,
                  p: Place)
    ensures WorkHolds(work, tasks, place) && !Is(place, id, InWork) && p != InWork ==>
              WorkHolds(work, tasks, place[id := p])
    ensures WorkersHold(busy, tasks, place) && !(id in place && place[id].At?) && !p.At? ==>
              WorkersHold(busy, tasks, place[id := p])
    ensures ResultsHold(done, computed, place) && !Is(place, id, InResults) && p != InResults ==>
              ResultsHold(done, computed, place[id := p])
    ensures RouterHolds(routing, place) && !(id in place && place[id].Stored?) && !p.Stored? ==>
              RouterHolds(routing, place[id := p])
  {
  }

  lemma NewTask(work: seq<Task>, busy: map<nat, Task>, tasks: map<TaskId, Task>, place: map<TaskId, Place>, task: Task)
    requires WorkHolds(work, tasks, place) && WorkersHold(busy, tasks, place) && task.id !in tasks
    ensures WorkHolds(work, tasks[task.id := task], place) && WorkersHold(busy, tasks[task.id := task], place)
  {
  }

  lemma Enqueued(work: seq<Task>, tasks: map<TaskId, Task>, place: map<TaskId, Place>, task: Task)
    requires WorkHolds(work, tasks, place) && Is(tasks, task.id, task) && !Is(place, task.id, InWork)
    ensures WorkHolds(work + [task], tasks, place[task.id := InWork])
  {
  }

  lemma Dequeued(work: seq<Task>, tasks: map<TaskId, Task>, place: map<TaskId, Place>, p: Place)
    requires WorkHolds(work, tasks, place) && work != [] && p != InWork
    ensures Is(tasks, work[0].id, work[0]) && Is(place, work[0].id, InWork)
    ensures WorkHolds(work[1..], tasks, place[work[0].id := p])
  {
    assert work[0] in work && work == [work[0]] + work[1..];
    forall t | t in work[1..] ensures t in work && t.id != work[0].id {
      var i :| 0 <= i < |work[1..]| && work[1..][i] == t;
      assert work[i + 1] == t;
    }
  }

  lemma Started(busy: map<nat, Task>, tasks: map<TaskId, Task>, place: map<TaskId, Place>, w: nat, task: Task)
    requires WorkersHold(busy, tasks, place) && w !in busy && Is(tasks, task.id, task) && Is(place, task.id, InWork)
    ensures WorkersHold(busy[w := task], tasks, place[task.id := At(w)])
  {
  }

  lemma Finished(busy: map<nat, Task>, tasks: map<TaskId, Task>, place: map<TaskId, Place>, w: nat, p: Place)
    requires WorkersHold(busy, tasks, place) && w in busy && !p.At?
    ensures Is(tasks, busy[w].id, busy[w]) && Is(place, busy[w].id, At(w))
    ensures WorkersHold(busy - {w}, tasks, place[busy[w].id := p])
  {
  }

  lemma Posted(done: seq<Message>, computed: map<TaskId, Result>, place: map<TaskId, Place>, m: Message)
    requires ResultsHold(done, computed, place) && m.id !in computed
    ensures ResultsHold(done + [m], computed[m.id := m.result], place[m.id := InResults])
  {
    assert forall i :: 0 <= i < |done| ==> done[i] in done;
  }

  lemma Received(done: seq<Message>, computed: map<TaskId, Result>, place: map<TaskId, Place>, p: Place)
    requires ResultsHold(done, computed, place) && done != [] && p != InResults
    ensures Is(computed, done[0].id, done[0].result) && Is(place, done[0].id, InResults)
    ensures ResultsHold(done[1..], computed, place[done[0].id := p])
  {
    assert done[0] in done && done == [done[0]] + done[1..];
    forall m | m in done[1..] ensures m in done && m.id != done[0].id {
      var i :| 0 <= i < |done[1..]| && done[1..][i] == m;
      assert done[i + 1] == m;
    }
  }

  lemma Routed(routing: Option<(TaskId, bool)>, place: map<TaskId, Place>, id: TaskId, hasEvent: bool)
    requires RouterHolds(routing, place) && routing.None?
    ensures RouterHolds(Some((id, hasEvent)), place[id := Stored(hasEvent)])
  {
  }

  lemma Unrouted(routing: Option<(TaskId, bool)>, place: map<TaskId, Place>)
    requires RouterHolds(routing, place) && routing.Some?
    ensures Is(place, routing.value.0, Stored(routing.value.1))
    ensures RouterHolds(None, place[routing.value.0 := Signalled])
  {
  }

  /**
    What later steps never take back: what was computed, how a submit ended, the event a
    submit that returned leaves behind, and the result that came after a timeout.
   */
  ghost predicate Lasting(before: Shared, after: Shared)
  {
    && (forall id :: id in before.computed ==> Is(after.computed, id, before.computed[id]))
    && (forall id :: id in before.phase && Ended(before.phase[id]) ==>
          Is(after.phase, id, before.phase[id]) && (id in before.pending ==> id in after.pending))
    && (forall id :: Is(before.phase, id, TimedOut) && id in before.results ==>
          Is(after.results, id, before.results[id]))
  }

  predicate Ended(p: Phase) { p.Returned? || p == TimedOut }

  // ---------- the steps as functions ----------

  /** Everything the threads share or hold. */
  datatype World = World(shared: Shared, work: seq<Task>, done: seq<Message>, busy: map<nat, Task>,
                         routing: Option<(TaskId, bool)>, tasks: map<TaskId, Task>)
  {
    function Registers(task: Task): World
    {
      this.(shared := shared.(pending := shared.pending + {task.id}, phase := shared.phase[task.id := Registered],
                              place := shared.place[task.id := Unsent]),
            tasks := tasks[task.id := task])
    }

    function Puts(task: Task): World
    {
      this.(work := work + [task],
            shared := shared.(phase := shared.phase[task.id := Waiting], place := shared.place[task.id := InWork]))
    }

    function Waits(id: TaskId): World
    {
      this.(shared := shared.(phase := shared.phase[id := if id in shared.flags then Woken else Expired]))
    }

    function GivesUp(id: TaskId): World
    {
      this.(shared := shared.(pending := shared.pending - {id}, results := shared.results - {id},
                              phase := shared.phase[id := TimedOut]))
    }

    function Collects(id: TaskId): World
      requires id in shared.results
    {
      this.(shared := shared.(results := shared.results - {id},
                              phase := shared.phase[id := Returned(shared.results[id])]))
    }

    function Takes(w: nat): World
      requires work != []
    {
      this.(work := work[1..], busy := busy[w := work[0]],
            shared := shared.(place := shared.place[work[0].id := At(w)]))
    }

    function Posts(w: nat, result: Result): World
      requires w in busy
    {
      this.(done := done + [Message(busy[w].id, result)], busy := busy - {w},
            shared := shared.(place := shared.place[busy[w].id := InResults],
                              computed := shared.computed[busy[w].id := result]))
    }

    function Stores(): World
      requires done != []
    {
      var m := done[0];
      this.(done := done[1..], routing := Some((m.id, m.id in shared.pending)),
            shared := shared.(results := shared.results[m.id := m.result],
                              place := shared.place[m.id := Stored(m.id in shared.pending)]))
    }

    function Signals(): World
      requires routing.Some?
    {
      var (id, hasEvent) := routing.value;
      this.(routing := None,
            shared := shared.(flags := if hasEvent then shared.flags + {id} else shared.flags,
                              place := shared.place[id := Signalled]))
    }
  }

  // ---------- one task through each step ----------

  lemma RegisteredRow()
    ensures Coherent(Row(Registered, Unsent, true, None, false, None))
  {
  }

  lemma PutRow(r: Row)
    requires Coherent(r) && r.phase == Registered
    ensures Coherent(r.(phase := Waiting, place := InWork)) && r.place == Unsent
  {
  }

  lemma WaitRow(r: Row)
    requires Coherent(r) && r.phase == Waiting
    ensures Coherent(r.(phase := if r.flag then Woken else Expired))
  {
  }

  lemma GiveUpRow(r: Row)
    requires Coherent(r) && r.phase == Expired
    ensures Coherent(r.(phase := TimedOut, pending := false, result := None))
  {
  }

  lemma CollectRow(r: Row)
    requires Coherent(r) && r.phase == Woken
    ensures r.result.Some? && r.result == r.computed
    ensures Coherent(r.(phase := Returned(r.result.value), result := None))
  {
  }

  lemma TakeRow(r: Row, w: nat)
    requires Coherent(r) && r.place == InWork
    ensures Coherent(r.(place := At(w)))
  {
  }

  lemma PostRow(r: Row, result: Result)
    requires Coherent(r) && r.place.At?
    ensures r.computed == None && Coherent(r.(place := InResults, computed := Some(result)))
  {
  }

  lemma StoreRow(r: Row)
    requires Coherent(r) && r.place == InResults
    ensures r.result == None && Coherent(r.(place := Stored(r.pending), result := r.computed))
  {
  }

  lemma SignalRow(r: Row)
    requires Coherent(r) && r.place.Stored?
    ensures Coherent(r.(place := Signalled, flag := r.flag || r.place.hasEvent))
  {
  }

  /** Only the row of one task changes. */
  lemma OneRow(s: Shared, s': Shared, tasks: map<TaskId, Task>, id: TaskId)
    requires s.Holds(tasks) && id in tasks && s'.phase.Keys == s'.place.Keys == tasks.Keys
    requires s'.pending <= tasks.Keys && s'.results.Keys <= tasks.Keys
    requires s'.flags <= tasks.Keys && s'.computed.Keys <= tasks.Keys
    requires forall k :: k in tasks && k != id ==> s'.RowOf(k) == s.RowOf(k)
    requires Coherent(s'.RowOf(id))
    ensures s'.Holds(tasks)
  {
    hide Coherent;
  }

  lemma Registering(s: Shared, tasks: map<TaskId, Task>, task: Task)
    requires s.Holds(tasks) && task.id !in tasks
    ensures task.id !in s.place && task.id !in s.phase
    ensures s.(pending := s.pending + {task.id}, phase := s.phase[task.id := Registered],
               place := s.place[task.id := Unsent]).Holds(tasks[task.id := task])
  {
    var s' := s.(pending := s.pending + {task.id}, phase := s.phase[task.id := Registered],
                 place := s.place[task.id := Unsent]);
    hide Coherent;
    RegisteredRow();
    assert s'.RowOf(task.id) == Row(Registered, Unsent, true, None, false, None);
    assert forall k :: k in tasks ==> s'.RowOf(k) == s.RowOf(k);
  }

  lemma Putting(s: Shared, tasks: map<TaskId, Task>, id: TaskId)
    requires s.Holds(tasks) && Is(s.phase, id, Registered)
    ensures Is(s.place, id, Unsent)
    ensures s.(phase := s.phase[id := Waiting], place := s.place[id := InWork]).Holds(tasks)
  {
    hide Coherent;
    PutRow(s.RowOf(id));
    OneRow(s, s.(phase := s.phase[id := Waiting], place := s.place[id := InWork]), tasks, id);
  }

  lemma Awaited(s: Shared, tasks: map<TaskId, Task>, id: TaskId)
    requires s.Holds(tasks) && Is(s.phase, id, Waiting)
    ensures s.(phase := s.phase[id := if id in s.flags then Woken else Expired]).Holds(tasks)
  {
    hide Coherent;
    WaitRow(s.RowOf(id));
    OneRow(s, s.(phase := s.phase[id := if id in s.flags then Woken else Expired]), tasks, id);
  }

  lemma GivingUp(s: Shared, tasks: map<TaskId, Task>, id: TaskId)
    requires s.Holds(tasks) && Is(s.phase, id, Expired)
    ensures s.(pending := s.pending - {id}, results := s.results - {id}, phase := s.phase[id := TimedOut]).Holds(tasks)
  {
    hide Coherent;
    GiveUpRow(s.RowOf(id));
    var s' := s.(pending := s.pending - {id}, results := s.results - {id}, phase := s.phase[id := TimedOut]);
    OneRow(s, s', tasks, id);
  }

  lemma Collecting(s: Shared, tasks: map<TaskId, Task>, id: TaskId)
    requires s.Holds(tasks) && Is(s.phase, id, Woken)
    ensures id in s.results && Is(s.computed, id, s.results[id])
    ensures s.(results := s.results - {id}, phase := s.phase[id := Returned(s.results[id])]).Holds(tasks)
  {
    hide Coherent;
    CollectRow(s.RowOf(id));
    OneRow(s, s.(results := s.results - {id}, phase := s.phase[id := Returned(s.results[id])]), tasks, id);
  }

  lemma Taking(s: Shared, tasks: map<TaskId, Task>, id: TaskId, w: nat)
    requires s.Holds(tasks) && Is(s.place, id, InWork)
    ensures s.(place := s.place[id := At(w)]).Holds(tasks)
  {
    hide Coherent;
    TakeRow(s.RowOf(id), w);
    OneRow(s, s.(place := s.place[id := At(w)]), tasks, id);
  }

  lemma Posting(s: Shared, tasks: map<TaskId, Task>, id: TaskId, result: Result)
    requires s.Holds(tasks) && id in s.place && s.place[id].At?
    ensures id !in s.computed
    ensures s.(place := s.place[id := InResults], computed := s.computed[id := result]).Holds(tasks)
  {
    hide Coherent;
    PostRow(s.RowOf(id), result);
    OneRow(s, s.(place := s.place[id := InResults], computed := s.computed[id := result]), tasks, id);
  }

  lemma Storing(s: Shared, tasks: map<TaskId, Task>, id: TaskId, result: Result)
    requires s.Holds(tasks) && Is(s.place, id, InResults) && Is(s.computed, id, result)
    ensures id !in s.results
    ensures s.(results := s.results[id := result], place := s.place[id := Stored(id in s.pending)]).Holds(tasks)
  {
    hide Coherent;
    StoreRow(s.RowOf(id));
    OneRow(s, s.(results := s.results[id := result], place := s.place[id := Stored(id in s.pending)]), tasks, id);
  }

  lemma Signalling(s: Shared, tasks: map<TaskId, Task>, id: TaskId, hasEvent: bool)
    requires s.Holds(tasks) && Is(s.place, id, Stored(hasEvent))
    ensures s.(flags := if hasEvent then s.flags + {id} else s.flags, place := s.place[id := Signalled]).Holds(tasks)
  {
    hide Coherent;
    SignalRow(s.RowOf(id));
    OneRow(s, s.(flags := if hasEvent then s.flags + {id} else s.flags, place := s.place[id := Signalled]), tasks, id);
  }

  class Dispatcher {
    var pending: set<TaskId>              // _pending
    var results: map<TaskId, Result>      // _results
    var flags: set<TaskId>                // the events that are set
    var workQueue: seq<Task>
    var resultsQueue: seq<Message>
    var phase: map<TaskId, Phase>         // the submitters
    var busy: map<nat, Task>              // the workers
    var routing: Option<(TaskId, bool)>   // the router between storing a result and setting its event
    var tasks: map<TaskId, Task>          // the tasks submitted so far
    ghost var place: map<TaskId, Place>
    ghost var computed: map<TaskId, Result>

    ghost function State(): Shared
      reads this
    {
      Shared(pending, results, flags, phase, place, computed)
    }

    ghost function Whole(): World
      reads this
    {
      World(State(), workQueue, resultsQueue, busy, routing, tasks)
    }

    /** The queues, the workers and the router hold what the places say. */
    ghost predicate Valid()
      reads this
    {
      && State().Holds(tasks)
      && WorkHolds(workQueue, tasks, place) && WorkersHold(busy, tasks, place)
      && ResultsHold(resultsQueue, computed, place) && RouterHolds(routing, place)
    }

    constructor ()
      ensures Valid() && Whole() == World(Shared({}, map[], {}, map[], map[], map[]), [], [], map[], None, map[])
    {
      pending, results, flags, workQueue, resultsQueue := {}, map[], {}, [], [];
      phase, busy, routing := map[], map[], None;
      tasks, place, computed := map[], map[], map[];
    }

    // ---------- submit ----------

    /** A new task registers its event before it is queued. */
    method Register(task: Task)
      requires Valid() && task.id !in tasks
      modifies this
      ensures Valid() && Whole() == old(Whole()).Registers(task) && Lasting(old(State()), State())
      ensures pending == old(pending) + {task.id} && Is(phase, task.id, Registered)
    {
      hide Shared.Holds, WorkHolds, WorkersHold, ResultsHold, RouterHolds;
      Registering(State(), tasks, task);
      Elsewhere(workQueue, busy, resultsQueue, routing, tasks, computed, place, task.id, Unsent);
      NewTask(workQueue, busy, tasks, place[task.id := Unsent], task);
      pending := pending + {task.id};
      phase, place, tasks := phase[task.id := Registered], place[task.id := Unsent], tasks[task.id := task];
    }

    method Put(task: Task)
      requires Valid() && Is(tasks, task.id, task) && Is(phase, task.id, Registered)
      modifies this
      ensures Valid() && Whole() == old(Whole()).Puts(task)
      ensures Lasting(old(State()), State())
      ensures workQueue == old(workQueue) + [task] && phase == old(phase)[task.id := Waiting]
    {
      hide Shared.Holds, WorkHolds, WorkersHold, ResultsHold, RouterHolds;
      Putting(State(), tasks, task.id);
      Elsewhere(workQueue, busy, resultsQueue, routing, tasks, computed, place, task.id, InWork);
      Enqueued(workQueue, tasks, place, task);
      workQueue := workQueue + [task];
      phase, place := phase[task.id := Waiting], place[task.id := InWork];
    }

    /** event.wait returns: true when the event is set, false after the timeout. */
    method Wait(id: TaskId) returns (woken: bool)
      requires Valid() && Is(phase, id, Waiting)
      modifies this
      ensures Valid() && Whole() == old(Whole()).Waits(id) && woken == (id in old(flags))
      ensures Lasting(old(State()), State())
      ensures phase == old(phase)[id := if woken then Woken else Expired]
    {
      hide Shared.Holds, WorkHolds, WorkersHold, ResultsHold, RouterHolds;
      Awaited(State(), tasks, id);
      woken := id in flags;
      phase := phase[id := if woken then Woken else Expired];
    }

    /** The locked block after a timeout; a result that has come meanwhile is dropped. */
    method GiveUp(id: TaskId)
      requires Valid() && Is(phase, id, Expired)
      modifies this
      ensures Valid() && Whole() == old(Whole()).GivesUp(id) && Is(phase, id, TimedOut)
      ensures Lasting(old(State()), State())
      ensures pending == old(pending) - {id} && results == old(results) - {id}
    {
      hide Shared.Holds, WorkHolds, WorkersHold, ResultsHold, RouterHolds;
      GivingUp(State(), tasks, id);
      pending, results := pending - {id}, results - {id};
      phase := phase[id := TimedOut];
    }

    /** The locked block after waking up: the result is there, so the pop does not raise. */
    method Collect(id: TaskId) returns (result: Result)
      requires Valid() && Is(phase, id, Woken)
      modifies this
      ensures Valid() && Lasting(old(State()), State())
      ensures id in old(results) && result == old(results)[id] && id in computed && result == computed[id]
      ensures Whole() == old(Whole()).Collects(id)
      ensures results == old(results) - {id} && phase == old(phase)[id := Returned(result)] && pending == old(pending)
    {
      hide Shared.Holds, WorkHolds, WorkersHold, ResultsHold, RouterHolds;
      Collecting(State(), tasks, id);
      result := results[id];
      results := results - {id};
      phase := phase[id := Returned(result)];
    }

    // ---------- workers ----------

    method Take(w: nat)
      requires Valid() && workQueue != [] && w !in busy
      modifies this
      ensures Valid() && Whole() == old(Whole()).Takes(w)
      ensures Lasting(old(State()), State())
      ensures workQueue == old(workQueue)[1..] && busy == old(busy)[w := old(workQueue)[0]]
    {
      hide Shared.Holds, WorkHolds, WorkersHold, ResultsHold, RouterHolds;
      Dequeued(workQueue, tasks, place, At(w));
      Started(busy, tasks, place, w, workQueue[0]);
      Elsewhere(workQueue, busy, resultsQueue, routing, tasks, computed, place, workQueue[0].id, At(w));
      Taking(State(), tasks, workQueue[0].id, w);
      var task := workQueue[0];
      workQueue, busy := workQueue[1..], busy[w := task];
      place := place[task.id := At(w)];
    }

    /** A worker posts what it computed, under the id of its task. */
    method Post(w: nat, result: Result)
      requires Valid() && w in busy
      modifies this
      ensures Valid() && Whole() == old(Whole()).Posts(w, result)
      ensures Lasting(old(State()), State())
      ensures old(busy)[w].id !in old(computed) && computed == old(computed)[old(busy)[w].id := result]
      ensures resultsQueue == old(resultsQueue) + [Message(old(busy)[w].id, result)] && busy == old(busy) - {w}
    {
      hide Shared.Holds, WorkHolds, WorkersHold, ResultsHold, RouterHolds;
      Finished(busy, tasks, place, w, InResults);
      Elsewhere(workQueue, busy, resultsQueue, routing, tasks, computed, place, busy[w].id, InResults);
      Posting(State(), tasks, busy[w].id, result);
      Posted(resultsQueue, computed, place, Message(busy[w].id, result));
      var id := busy[w].id;
      resultsQueue, busy := resultsQueue + [Message(id, result)], busy - {w};
      place, computed := place[id := InResults], computed[id := result];
    }

    // ---------- the router ----------

    /** Under the lock: store the result and look up the event. */
    method Store()
      requires Valid() && resultsQueue != [] && routing.None?
      modifies this
      ensures Valid() && Whole() == old(Whole()).Stores()
      ensures Lasting(old(State()), State())
      ensures var m := old(resultsQueue)[0];
              && resultsQueue == old(resultsQueue)[1..] && results == old(results)[m.id := m.result]
              && routing == Some((m.id, m.id in old(pending)))
    {
      hide Shared.Holds, WorkHolds, WorkersHold, ResultsHold, RouterHolds;
      ghost var p := Stored(resultsQueue[0].id in pending);
      Received(resultsQueue, computed, place, p);
      Elsewhere(workQueue, busy, resultsQueue, routing, tasks, computed, place, resultsQueue[0].id, p);
      Storing(State(), tasks, resultsQueue[0].id, resultsQueue[0].result);
      Routed(routing, place, resultsQueue[0].id, resultsQueue[0].id in pending);
      var m := resultsQueue[0];
      resultsQueue, results := resultsQueue[1..], results[m.id := m.result];
      routing := Some((m.id, m.id in pending));
      place := place[m.id := Stored(m.id in pending)];
    }

    /** Outside the lock: set the event, which nobody may be waiting for any more. */
    method Signal()
      requires Valid() && routing.Some?
      modifies this
      ensures Valid() && Whole() == old(Whole()).Signals()
      ensures Lasting(old(State()), State())
      ensures flags == if old(routing).value.1 then old(flags) + {old(routing).value.0} else old(flags)
      ensures routing == None
    {
      hide Shared.Holds, WorkHolds, WorkersHold, ResultsHold, RouterHolds;
      Unrouted(routing, place);
      Elsewhere(workQueue, busy, resultsQueue, routing, tasks, computed, place, routing.value.0, Signalled);
      Signalling(State(), tasks, routing.value.0, routing.value.1);
      var (id, hasEvent) := routing.value;
      if hasEvent {
        flags := flags + {id};
      }
      routing, place := None, place[id := Signalled];
    }

    // ---------- what the invariant means ----------

    /**
      A set event means the result is there until its submitter takes it; a result that
      was handed out is the one computed for that task, and is no longer there to be handed
      out again; and a submitter whose result was routed has been woken.
     */
    lemma Safety(id: TaskId)
      requires Valid() && id in phase
      ensures id in flags && phase[id] in {Waiting, Woken, Expired} ==> id in results && Is(computed, id, results[id])
      ensures phase[id] == Woken ==> id in flags
      ensures phase[id].Returned? ==> Is(computed, id, phase[id].result) && id !in results
      ensures Is(place, id, Signalled) && phase[id] == Waiting ==> id in flags
    {
      assert Coherent(State().RowOf(id));
    }

    /**
      What is never cleaned up: the event of a submit that returned, and the result of a
      task whose submitter had timed out before the result was stored.
     */
    lemma Leftovers(id: TaskId)
      requires Valid() && id in phase
      ensures phase[id].Returned? ==> id in pending
      ensures phase[id] == TimedOut ==>
                (id in results <==> Is(place, id, Stored(false)) || (Is(place, id, Signalled) && id !in flags))
    {
      assert Coherent(State().RowOf(id));
    }

    /** A task that was sent is queued, with a worker, posted, or routed: it does not get lost. */
    lemma NothingLost(id: TaskId)
      requires Valid() && id in phase && phase[id] != Registered
      ensures || tasks[id] in workQueue
              || (exists w :: w in busy && busy[w] == tasks[id])
              || (id in computed && Message(id, computed[id]) in resultsQueue)
              || (routing.Some? && routing.value.0 == id)
              || Is(place, id, Signalled)
    {
      assert Coherent(State().RowOf(id));
      if place[id].At? { assert busy[place[id].worker].id == id; }
    }
  }

  // ---------- every interleaving ----------

  datatype Event =
    | Register(task: Task) | Put(task: Task) | Wait(id: TaskId) | GiveUp(id: TaskId) | Collect(id: TaskId)
    | Take(worker: nat) | Post(worker: nat, result: Result)
    | Store | Signal

  /** One step of whichever thread is scheduled; a thread that is not at this step does nothing. */
  function StepOf(w: World, e: Event): World
  {
    match e
    case Register(task) => if task.id !in w.tasks then w.Registers(task) else w
    case Put(task) => if Is(w.tasks, task.id, task) && Is(w.shared.phase, task.id, Registered) then w.Puts(task) else w
    case Wait(id) => if Is(w.shared.phase, id, Waiting) then w.Waits(id) else w
    case GiveUp(id) => if Is(w.shared.phase, id, Expired) then w.GivesUp(id) else w
    case Collect(id) => if Is(w.shared.phase, id, Woken) && id in w.shared.results then w.Collects(id) else w
    case Take(n) => if w.work != [] && n !in w.busy then w.Takes(n) else w
    case Post(n, result) => if n in w.busy then w.Posts(n, result) else w
    case Store => if w.done != [] && w.routing.None? then w.Stores() else w
    case Signal => if w.routing.Some? then w.Signals() else w
  }

  function RunOf(w: World, schedule: seq<Event>): World
  {
    if schedule == [] then w else StepOf(RunOf(w, schedule[..|schedule| - 1]), schedule[|schedule| - 1])
  }

  method Step(d: Dispatcher, e: Event)
    requires d.Valid()
    modifies d
    ensures d.Valid() && d.Whole() == StepOf(old(d.Whole()), e) && Lasting(old(d.State()), d.State())
  {
    hide Shared.Holds, WorkHolds, WorkersHold, ResultsHold, RouterHolds;
    match e
    case Register(task) => if task.id !in d.tasks { d.Register(task); }
    case Put(task) => if Is(d.tasks, task.id, task) && Is(d.phase, task.id, Registered) { d.Put(task); }
    case Wait(id) => if Is(d.phase, id, Waiting) { var _ := d.Wait(id); }
    case GiveUp(id) => if Is(d.phase, id, Expired) { d.GiveUp(id); }
    case Collect(id) => if Is(d.phase, id, Woken) { var _ := d.Collect(id); }
    case Take(w) => if d.workQueue != [] && w !in d.busy { d.Take(w); }
    case Post(w, result) => if w in d.busy { d.Post(w, result); }
    case Store => if d.resultsQueue != [] && d.routing.None? { d.Store(); }
    case Signal => if d.routing.Some? { d.Signal(); }
  }

  /**
    Every interleaving goes where the functions go and keeps the invariant, so no pop fails;
    a submit that ended stays as it ended, and what it left behind stays for good.
   */
  method Run(d: Dispatcher, schedule: seq<Event>)
    requires d.Valid()
    modifies d
    ensures d.Valid() && d.Whole() == RunOf(old(d.Whole()), schedule) && Lasting(old(d.State()), d.State())
  {
    hide Dispatcher.Valid, Dispatcher.Whole, StepOf, Lasting;
    LastingStart(d.State());
    assert schedule[..0] == [];
    for n := 0 to |schedule|
      invariant d.Valid() && d.Whole() == RunOf(old(d.Whole()), schedule[..n]) && Lasting(old(d.State()), d.State())
    {
      assert schedule[..n + 1][..n] == schedule[..n];
      ghost var before := d.State();
      Step(d, schedule[n]);
      LastingOn(old(d.State()), before, d.State());
    }
    assert schedule[..|schedule|] == schedule;
  }

  lemma LastingStart(s: Shared)
    ensures Lasting(s, s)
  {
  }

  lemma LastingOn(a: Shared, b: Shared, c: Shared)
    requires Lasting(a, b) && Lasting(b, c)
    ensures Lasting(a, c)
  {
  }
}
