/**
  The record cache of one store: mkdb/db/cache/ram_cache.py.

  Python dictionaries keep insertion order, which decides ties between equally
  frequent entries, so that order is part of the state.  Each call reads the clock
  once and is given the reading.
 */
module RamCache {
  import opened Json
  import opened Delta
  import opened RecencyList
  import P = Postings

  datatype Clean = Lru | Lfu | Ttl | Other

  datatype Policy = Policy(maxSize: nat, ttl: real, clean: Clean)

  /** The four structures; order is the insertion order of the dictionaries, log the order of last access. */
  datatype Entries = Entries(store: map<string, Record>, log: seq<string>, freq: map<string, nat>, order: seq<string>,
                             stamps: map<string, real>)

  const NOTHING := Entries(map[], [], map[], [], map[])

  /** All structures hold the same ids, each once. */
  ghost predicate Aligned(e: Entries)
  {
    && Distinct(e.log) && Distinct(e.order)
    && (forall k :: k in e.log <==> k in e.store)
    && (forall k :: k in e.order <==> k in e.store)
    && e.freq.Keys == e.store.Keys && e.stamps.Keys == e.store.Keys
  }

  function Removed(e: Entries, ids: set<string>): Entries
  {
    Entries(e.store - ids, Drop(e.log, ids), e.freq - ids, Drop(e.order, ids), e.stamps - ids)
  }

  /** _touch: move to the end of the log, count, stamp. */
  function Touched(e: Entries, id: string, now: real): Entries
  {
    e.(log := Drop(e.log, {id}) + [id], freq := e.freq[id := (if id in e.freq then e.freq[id] else 0) + 1],
       stamps := e.stamps[id := now])
  }

  /** A new id goes to the end of every structure. */
  function Inserted(e: Entries, id: string, rec: Record, now: real): Entries
  {
    Entries(e.store[id := rec], e.log + [id], e.freq[id := 1], e.order + [id], e.stamps[id := now])
  }

  predicate Stale(p: Policy, e: Entries, id: string, now: real)
  {
    p.ttl > 0.0 && id in e.stamps && now - e.stamps[id] > p.ttl
  }

  function Expired(p: Policy, e: Entries, now: real): set<string> { set id | id in e.stamps && Stale(p, e, id, now) }

  /** `min(freq, key=...)`: where the first of the least frequent ids stands in insertion order. */
  function LeastFrequent(order: seq<string>, freq: map<string, nat>): (n: nat)
    requires order != [] && forall k :: k in order ==> k in freq
    ensures n < |order|
    ensures forall i :: 0 <= i < |order| ==> freq[order[n]] <= freq[order[i]]
    ensures forall i :: 0 <= i < n ==> freq[order[n]] < freq[order[i]]
  {
    if |order| == 1 then 0
    else
      var before, last := order[..|order| - 1], order[|order| - 1];
      assert forall i :: 0 <= i < |before| ==> order[i] == before[i];
      var n := LeastFrequent(before, freq);
      if freq[last] < freq[before[n]] then |before| else n
  }

  lemma NotEmpty(e: Entries)
    requires Aligned(e) && e.store != map[]
    ensures e.log != [] && e.order != []
  {
    var k :| k in e.store;
    assert k in e.log && k in e.order;
  }

  /** The ids one call of evict() removes. */
  ghost function Victims(p: Policy, e: Entries, now: real): set<string>
    requires Aligned(e)
  {
    if e.store == map[] then {}
    else
      NotEmpty(e);
      match p.clean
      case Lru => {e.log[0]}
      case Lfu => {e.order[LeastFrequent(e.order, e.freq)]}
      case Ttl =>
        var gone := Expired(p, e, now);
        if |e.store - gone| > p.maxSize && Drop(e.log, gone) != [] then gone + {Drop(e.log, gone)[0]} else gone
      case Other => {}
  }

  lemma {:induction false} RemovedAligned(e: Entries, ids: set<string>)
    requires Aligned(e)
    ensures Aligned(Removed(e, ids))
  {
  }

  lemma RemovedTwice(e: Entries, a: set<string>, b: set<string>)
    ensures Removed(Removed(e, a), b) == Removed(e, a + b)
  {
    hide Drop;
    DropDrop(e.log, a, b);
    DropDrop(e.order, a, b);
    MinusTwice(e.store, a, b);
    MinusTwice(e.freq, a, b);
    MinusTwice(e.stamps, a, b);
  }

  lemma MinusTwice<V>(m: map<string, V>, a: set<string>, b: set<string>)
    ensures m - a - b == m - (a + b)
  {
    assert forall k :: k in m - a - b <==> k in m - (a + b);
  }

  /** An eviction from a cache that is too big takes something exactly when the policy is one the code knows. */
  lemma EvictionProgress(p: Policy, e: Entries, now: real)
    requires Aligned(e) && |e.store| > p.maxSize
    ensures Victims(p, e, now) <= e.store.Keys
    ensures Victims(p, e, now) != {} <==> !p.clean.Other?
  {
    hide Drop, Distinct, Expired;
    NotEmpty(e);
    match p.clean
    case Lru => assert e.log[0] in e.log;
    case Lfu => assert e.order[LeastFrequent(e.order, e.freq)] in e.order;
    case Ttl => TtlProgress(p, e, now);
    case Other =>
  }

  lemma TtlProgress(p: Policy, e: Entries, now: real)
    requires Aligned(e) && |e.store| > p.maxSize && p.clean.Ttl?
    ensures Victims(p, e, now) <= e.store.Keys && Victims(p, e, now) != {}
  {
    hide Drop, Distinct, Stale;
    NotEmpty(e);
    var gone := Expired(p, e, now);
    assert gone <= e.store.Keys;
    if gone == {} {
      assert e.store - gone == e.store;
      assert Drop(e.log, gone) == e.log;
    }
    if Drop(e.log, gone) != [] {
      assert Drop(e.log, gone)[0] in Drop(e.log, gone);
      assert Drop(e.log, gone)[0] in e.log;
    }
  }

  lemma SmallerStore(m: map<string, Record>, ids: set<string>)
    requires ids <= m.Keys && ids != {}
    ensures |m - ids| < |m|
  {
    assert (m - ids).Keys == m.Keys - ids;
  }

  /** The loop of set(): evict while too big; it would not end when an eviction takes nothing. */
  ghost function Shrunk(p: Policy, e: Entries, now: real): (r: Entries)
    requires Aligned(e)
    ensures Aligned(r) && r.store.Keys <= e.store.Keys && forall k :: k in r.store ==> r.store[k] == e.store[k]
    ensures !p.clean.Other? ==> |r.store| <= p.maxSize
    decreases |e.store|
  {
    if |e.store| <= p.maxSize || p.clean.Other? then e
    else
      EvictionProgress(p, e, now);
      RemovedAligned(e, Victims(p, e, now));
      SmallerStore(e.store, Victims(p, e, now));
      Shrunk(p, Removed(e, Victims(p, e, now)), now)
  }

  // ---------- the order of last access ----------

  /** The log is the cached ids in the order of their last access. */
  ghost predicate InOrder(e: Entries, touches: seq<string>)
  {
    e.log == Drop(Recency(touches), KeysOf(Recency(touches)) - e.store.Keys)
  }

  lemma TouchKeepsOrder(e: Entries, touches: seq<string>, id: string, now: real)
    requires InOrder(e, touches) && id in e.store
    ensures InOrder(Touched(e, id, now), touches + [id])
  {
    hide Drop, Distinct;
    var r, r' := Recency(touches), Recency(touches + [id]);
    RecencyStep(touches, id);
    var gone, gone' := KeysOf(r) - e.store.Keys, KeysOf(r') - e.store.Keys;
    DropDrop(r, gone, {id});
    DropDrop(r, {id}, gone');
    DropSame(r, gone + {id}, {id} + gone');
    DropEnd(Drop(r, {id}), id, gone');
  }

  lemma InsertKeepsOrder(e: Entries, touches: seq<string>, id: string, rec: Record, now: real)
    requires InOrder(e, touches) && id !in e.store
    ensures InOrder(Inserted(e, id, rec, now), touches + [id])
  {
    hide Drop, Distinct;
    var r, r' := Recency(touches), Recency(touches + [id]);
    var e' := Inserted(e, id, rec, now);
    RecencyStep(touches, id);
    var gone, gone' := KeysOf(r) - e.store.Keys, KeysOf(r') - e'.store.Keys;
    DropDrop(r, {id}, gone');
    DropSame(r, gone, {id} + gone');
    DropEnd(Drop(r, {id}), id, gone');
  }

  lemma RemoveKeepsOrder(e: Entries, touches: seq<string>, ids: set<string>)
    requires InOrder(e, touches)
    ensures InOrder(Removed(e, ids), touches)
  {
    hide Drop, Distinct;
    var r, e' := Recency(touches), Removed(e, ids);
    var gone, gone' := KeysOf(r) - e.store.Keys, KeysOf(r) - e'.store.Keys;
    DropDrop(r, gone, ids);
    DropSame(r, gone + ids, gone');
  }

  // ---------- age and use ----------

  /** An entry lives until it is older than the ttl, counted from its last access; without a ttl it never expires. */
  lemma LivesForTtl(p: Policy, e: Entries, id: string, rec: Record, now: real, t: real)
    ensures Stale(p, Inserted(e, id, rec, now), id, t) <==> p.ttl > 0.0 && t > now + p.ttl
    ensures Stale(p, Touched(e, id, now), id, t) <==> p.ttl > 0.0 && t > now + p.ttl
    ensures forall k :: k != id ==> (Stale(p, Inserted(e, id, rec, now), k, t) <==> Stale(p, e, k, t))
    ensures forall k :: k != id ==> (Stale(p, Touched(e, id, now), k, t) <==> Stale(p, e, k, t))
  {
  }

  /** n accesses in a row. */
  function TouchedTimes(e: Entries, id: string, now: real, n: nat): Entries
  {
    if n == 0 then e else Touched(TouchedTimes(e, id, now, n - 1), id, now)
  }

  /** Every access counts one, from one on, and for no other id. */
  lemma {:induction false} CountsAccesses(e: Entries, id: string, rec: Record, now: real, n: nat)
    ensures id in TouchedTimes(Inserted(e, id, rec, now), id, now, n).freq
    ensures TouchedTimes(Inserted(e, id, rec, now), id, now, n).freq[id] == n + 1
    ensures TouchedTimes(Inserted(e, id, rec, now), id, now, n).freq - {id} == e.freq - {id}
    decreases n
  {
    hide Drop;
    if n > 0 { CountsAccesses(e, id, rec, now, n - 1); }
  }

  /** Of the ids that are not gone, id was accessed longest ago. */
  predicate FirstBut(log: seq<string>, gone: set<string>, id: string)
  {
    && id in log && id !in gone
    && forall i, j :: 0 <= i < |log| && 0 <= j < |log| && log[i] == id && log[j] !in gone ==> i <= j
  }

  /**
    Under ttl an eviction takes all that has expired, and the one accessed longest ago only if
    the rest is still too big.
   */
  lemma TtlEvicts(p: Policy, e: Entries, now: real)
    requires Aligned(e) && p.clean.Ttl? && |e.store| > p.maxSize
    ensures forall id :: id in e.store && Stale(p, e, id, now) ==> id in Victims(p, e, now)
    ensures forall id :: id in Victims(p, e, now) && !Stale(p, e, id, now) ==>
              |e.store - Expired(p, e, now)| > p.maxSize && FirstBut(e.log, Expired(p, e, now), id)
    ensures |e.store - Expired(p, e, now)| > p.maxSize ==> |Victims(p, e, now)| == |Expired(p, e, now)| + 1
  {
    hide *;
    var gone := Expired(p, e, now);
    ExpiredAre(p, e, now);
    TtlTakes(p, e, now);
    if |e.store - gone| > p.maxSize {
      LeftInLog(e, gone);
      FirstLeft(e.log, gone);
      var id := Drop(e.log, gone)[0];
      assert Victims(p, e, now) == gone + {id};
      assert id !in gone by { NotGone(e.log, gone, id); }
    }
  }

  lemma NotGone(log: seq<string>, gone: set<string>, id: string)
    requires FirstBut(log, gone, id)
    ensures id !in gone
  {
  }

  lemma ExpiredAre(p: Policy, e: Entries, now: real)
    requires Aligned(e)
    ensures forall id :: id in Expired(p, e, now) <==> id in e.store && Stale(p, e, id, now)
    ensures forall id :: id in e.log ==> id in e.store
    ensures Distinct(e.log)
  {
  }

  lemma TtlTakes(p: Policy, e: Entries, now: real)
    requires Aligned(e) && p.clean.Ttl? && |e.store| > p.maxSize
    ensures var gone := Expired(p, e, now);
            Victims(p, e, now) == if |e.store - gone| > p.maxSize && Drop(e.log, gone) != []
                                  then gone + {Drop(e.log, gone)[0]} else gone
  {
    hide Expired, Drop;
    NotEmpty(e);
  }

  lemma LeftInLog(e: Entries, gone: set<string>)
    requires Aligned(e) && |e.store - gone| > 0
    ensures Drop(e.log, gone) != []
  {
    var id :| id in e.store - gone;
    assert id in e.log;
    assert id in Drop(e.log, gone);
  }

  lemma {:induction false} FirstLeft(log: seq<string>, gone: set<string>)
    requires Distinct(log) && Drop(log, gone) != []
    ensures FirstBut(log, gone, Drop(log, gone)[0])
    decreases |log|
  {
    if log != [] {
      var before, last := log[..|log| - 1], log[|log| - 1];
      assert log == before + [last];
      assert Distinct(before);
      if Drop(before, gone) != [] {
        FirstLeft(before, gone);
      } else {
        assert forall k :: k in before ==> k in gone by { NothingLeft(before, gone); }
      }
    }
  }

  lemma NothingLeft(log: seq<string>, gone: set<string>)
    requires Drop(log, gone) == []
    ensures forall k :: k in log ==> k in gone
  {
    assert forall k :: k in Drop(log, gone) <==> k in log && k !in gone;
  }

  // ---------- lru: the last ids accessed ----------

  lemma LogSize(e: Entries)
    requires Aligned(e)
    ensures |e.log| == |e.store|
  {
    DistinctSize(e.log);
    assert KeysOf(e.log) == e.store.Keys;
  }

  lemma LruVictim(p: Policy, e: Entries, now: real)
    requires Aligned(e) && p.clean.Lru? && |e.store| > 0
    ensures e.log != [] && Victims(p, e, now) == {e.log[0]}
  {
    hide Aligned;
    NotEmpty(e);
  }

  lemma LogDistinct(e: Entries)
    requires Aligned(e)
    ensures Distinct(e.log)
  {
  }

  /** Under lru the loop of set() keeps the ids accessed last. */
  lemma {:induction false} LruShrunk(p: Policy, e: Entries, now: real)
    requires Aligned(e) && p.clean.Lru?
    ensures Shrunk(p, e, now).log == LastN(e.log, p.maxSize)
    decreases |e.store|
  {
    hide *;
    LogSize(e);
    WholeTail(e.log);
    if |e.store| > p.maxSize {
      LruVictim(p, e, now);
      ShrunkStep(p, e, now);
      LogDistinct(e);
      DropFirst(e.log);
      LruShrunk(p, Removed(e, Victims(p, e, now)), now);
      LastNOfTail(e.log, p.maxSize);
    } else {
      NoShrinking(p, e, now);
    }
  }

  lemma NoShrinking(p: Policy, e: Entries, now: real)
    requires Aligned(e) && |e.store| <= p.maxSize && |e.store| == |e.log|
    ensures Shrunk(p, e, now).log == LastN(e.log, p.maxSize)
  {
  }

  lemma ShrunkStep(p: Policy, e: Entries, now: real)
    requires Aligned(e) && |e.store| > p.maxSize && !p.clean.Other?
    ensures Victims(p, e, now) <= e.store.Keys && Victims(p, e, now) != {}
    ensures Aligned(Removed(e, Victims(p, e, now))) && |Removed(e, Victims(p, e, now)).store| < |e.store|
    ensures Removed(e, Victims(p, e, now)).log == Drop(e.log, Victims(p, e, now))
    ensures Shrunk(p, e, now) == Shrunk(p, Removed(e, Victims(p, e, now)), now)
  {
    hide Aligned, Victims, Drop;
    EvictionProgress(p, e, now);
    RemovedAligned(e, Victims(p, e, now));
    SmallerStore(e.store, Victims(p, e, now));
  }

  /** The ids in the cache are the last accessed ones there is room for. */
  ghost predicate KeepsLast(p: Policy, e: Entries, touches: seq<string>)
  {
    e.log == LastN(Recency(touches), p.maxSize)
  }

  lemma LruTouch(p: Policy, e: Entries, touches: seq<string>, id: string, now: real)
    requires Aligned(e) && KeepsLast(p, e, touches) && id in e.store
    ensures KeepsLast(p, Touched(e, id, now), touches + [id])
  {
    TouchTail(touches, e.log, id, p.maxSize);
  }

  lemma LruInsert(p: Policy, e: Entries, touches: seq<string>, id: string, rec: Record, now: real)
    requires Aligned(e) && KeepsLast(p, e, touches) && id !in e.store && p.clean.Lru?
    requires Aligned(Inserted(e, id, rec, now))
    ensures KeepsLast(p, Shrunk(p, Inserted(e, id, rec, now), now), touches + [id])
  {
    hide Aligned;
    LruShrunk(p, Inserted(e, id, rec, now), now);
    assert id !in e.log by { LogKeys(e); }
    InsertTail(touches, e.log, id, p.maxSize);
  }

  lemma LogKeys(e: Entries)
    requires Aligned(e)
    ensures forall k :: k in e.log <==> k in e.store
  {
  }

  // ---------- lfu ----------

  /**
    A full cache under lfu takes in a new id exactly when some entry was accessed no more
    than once: otherwise the new entry is itself the least frequent and is evicted at once.
   */
  lemma LfuAdmits(p: Policy, e: Entries, id: string, rec: Record, now: real)
    requires Aligned(e) && p.clean.Lfu? && |e.store| == p.maxSize && id !in e.store
    ensures Aligned(Inserted(e, id, rec, now))
    ensures id in Shrunk(p, Inserted(e, id, rec, now), now).store <==> exists k :: k in e.store && e.freq[k] <= 1
  {
    hide *;
    InsertedAligned(e, id, rec, now);
    InsertedSize(e, id, rec, now);
    InsertedStore(e, id, rec, now);
    NewestIsVictim(e, id, rec, now);
    var i := Inserted(e, id, rec, now);
    LfuVictim(p, i, now);
    var v := i.order[LeastFrequent(i.order, i.freq)];
    assert |i.store| == p.maxSize + 1;
    OneTooMany(p, i, v, now);
    assert id in i.store;
  }

  /** One eviction is enough when there is one entry too many. */
  lemma OneTooMany(p: Policy, e: Entries, victim: string, now: real)
    requires Aligned(e) && !p.clean.Other? && |e.store| == p.maxSize + 1
    requires victim in e.store && Victims(p, e, now) == {victim}
    ensures Shrunk(p, e, now).store == e.store - {victim}
  {
    hide Aligned, Victims, Shrunk, Removed;
    ShrunkStep(p, e, now);
    RemovedStore(e, {victim});
    OneFewer(e.store, victim);
    ShrunkToFit(p, Removed(e, {victim}), now);
  }

  lemma NewestIsVictim(e: Entries, id: string, rec: Record, now: real)
    requires Aligned(e) && id !in e.store
    ensures var i := Inserted(e, id, rec, now);
            && i.order != [] && (forall k :: k in i.order ==> k in i.freq)
            && (i.order[LeastFrequent(i.order, i.freq)] != id <==> exists k :: k in e.store && e.freq[k] <= 1)
  {
    OrderKeys(e);
    hide Aligned, LeastFrequent;
    NewestIsLeast(e.order, e.freq, id);
    var i := Inserted(e, id, rec, now);
    var n := LeastFrequent(i.order, i.freq);
    if n < |e.order| { assert i.order[n] == e.order[n] && e.order[n] in e.order; }
  }

  lemma RemovedStore(e: Entries, ids: set<string>)
    ensures Removed(e, ids).store == e.store - ids
  {
  }

  /** Room for one, and the one was read once: no other id is ever cached. */
  lemma LfuRefuses(a: string, b: string, rec: Record, now: real)
    requires a != b
    ensures var e := Entries(map[a := rec], [a], map[a := 2], [a], map[a := now]);
            && Aligned(e) && Aligned(Inserted(e, b, rec, now))
            && b !in Shrunk(Policy(1, 0.0, Lfu), Inserted(e, b, rec, now), now).store
  {
    var e := Entries(map[a := rec], [a], map[a := 2], [a], map[a := now]);
    hide *;
    OneEntry(e, a, rec, now);
    assert |e.store| == 1 && b !in e.store;
    assert forall k :: k in e.store ==> e.freq[k] == 2;
    LfuAdmits(Policy(1, 0.0, Lfu), e, b, rec, now);
  }

  lemma OneEntry(e: Entries, id: string, rec: Record, now: real)
    requires e.store == map[id := rec] && e.log == e.order == [id] && e.freq.Keys == {id} && e.stamps == map[id := now]
    ensures Aligned(e)
  {
    assert e.log[0] == id;
  }

  lemma OrderKeys(e: Entries)
    requires Aligned(e)
    ensures (forall k :: k in e.order <==> k in e.store) && e.freq.Keys == e.store.Keys
  {
  }

  lemma LfuVictim(p: Policy, e: Entries, now: real)
    requires Aligned(e) && p.clean.Lfu? && |e.store| > 0
    ensures e.order != [] && Victims(p, e, now) == {e.order[LeastFrequent(e.order, e.freq)]}
    ensures e.order[LeastFrequent(e.order, e.freq)] in e.store
  {
    hide Distinct, LeastFrequent;
    NotEmpty(e);
  }

  lemma NewestIsLeast(order: seq<string>, freq: map<string, nat>, id: string)
    requires id !in order && forall k :: k in order ==> k in freq
    ensures LeastFrequent(order + [id], freq[id := 1]) == |order| <==> forall k :: k in order ==> freq[k] > 1
  {
    var all, f := order + [id], freq[id := 1];
    assert all[..|order|] == order;
    forall i | 0 <= i < |order| ensures all[i] == order[i] && f[all[i]] == freq[order[i]] {
      assert order[i] in order;
    }
    var n := LeastFrequent(all, f);
    if n < |order| {
      assert f[all[n]] <= f[all[|order|]];
      assert order[n] in order;
    }
  }

  lemma OneFewer(m: map<string, Record>, k: string)
    requires k in m
    ensures |m - {k}| == |m| - 1
  {
    assert (m - {k}).Keys == m.Keys - {k};
  }

  // ---------- the cache ----------

  /** What apply_delta stores: the merged record, or on a miss the delta alone; None when partition_object raises. */
  function Applied(nested: bool, e: Entries, id: string, delta: seq<Change>): Option<Record>
  {
    if !nested then Some(FlatMerge(if id in e.store then e.store[id] else EMPTY, delta))
    else
      match Partition(delta)
      case None => None
      case Some(parts) => Some(if id in e.store then DeepUpdate(e.store[id], parts) else parts)
  }

  class RamCache {
    const policy: Policy
    var store: map<string, Record>
    var accessLog: seq<string>
    var freq: map<string, nat>
    var order: seq<string>
    var timestamps: map<string, real>
    ghost var touches: seq<string>    // every access so far

    ghost function Contents(): Entries
      reads this
    {
      Entries(store, accessLog, freq, order, timestamps)
    }

    ghost predicate Valid()
      reads this
    {
      Aligned(Contents()) && InOrder(Contents(), touches)
    }

    constructor (policy: Policy)
      ensures Valid() && Contents() == NOTHING && touches == [] && this.policy == policy
    {
      this.policy := policy;
      store, accessLog, freq, order, timestamps, touches := map[], [], map[], [], map[], [];
    }

    method EvictOne(id: string)
      requires Valid()
      modifies this
      ensures Valid() && Contents() == Removed(old(Contents()), {id}) && touches == old(touches)
    {
      hide Aligned, InOrder, Drop;
      RemovedAligned(Contents(), {id});
      RemoveKeepsOrder(Contents(), touches, {id});
      store, freq, timestamps := store - {id}, freq - {id}, timestamps - {id};
      accessLog, order := Drop(accessLog, {id}), Drop(order, {id});
    }

    method Touch(id: string, now: real)
      requires Valid() && id in store
      modifies this
      ensures Valid() && Contents() == Touched(old(Contents()), id, now) && touches == old(touches) + [id]
    {
      hide Aligned, InOrder, Drop;
      TouchedAligned(Contents(), id, now);
      TouchKeepsOrder(Contents(), touches, id, now);
      accessLog := Drop(accessLog, {id}) + [id];
      freq := freq[id := (if id in freq then freq[id] else 0) + 1];
      timestamps := timestamps[id := now];
      touches := touches + [id];
    }

    /** A new id in every structure. */
    method Insert(id: string, rec: Record, now: real)
      requires Valid() && id !in store
      modifies this
      ensures Valid() && Contents() == Inserted(old(Contents()), id, rec, now) && touches == old(touches) + [id]
    {
      hide Aligned, InOrder;
      InsertedAligned(Contents(), id, rec, now);
      InsertKeepsOrder(Contents(), touches, id, rec, now);
      store := store[id := rec];
      accessLog := accessLog + [id];
      freq := freq[id := 1];
      order := order + [id];
      timestamps := timestamps[id := now];
      touches := touches + [id];
    }

    method Get(id: string, now: real) returns (r: Option<Record>)
      requires Valid()
      modifies this
      ensures Valid()
      ensures id !in old(store) ==> r == None && Contents() == old(Contents()) && touches == old(touches)
      ensures id in old(store) && Stale(policy, old(Contents()), id, now) ==>
                r == None && Contents() == Removed(old(Contents()), {id}) && touches == old(touches)
      ensures id in old(store) && !Stale(policy, old(Contents()), id, now) ==>
                && r == Some(old(store)[id])
                && Contents() == Touched(old(Contents()), id, now) && touches == old(touches) + [id]
    {
      hide Valid, Touched, Removed;
      if id !in store {
        return None;
      }
      if Stale(policy, Entries(store, accessLog, freq, order, timestamps), id, now) {
        EvictOne(id);
        return None;
      }
      r := Some(store[id]);
      Touch(id, now);
    }

    /** Overwriting never evicts; a new id makes room after it is in. */
    method Set(id: string, rec: Record, now: real)
      requires Valid() && (policy.clean.Other? ==> id in store || |store| < policy.maxSize)
      modifies this
      ensures Valid() && touches == old(touches) + [id]
      ensures id in old(store) ==> Contents() == Touched(old(Contents()).(store := old(store)[id := rec]), id, now)
      ensures id !in old(store) ==>
                && Aligned(Inserted(old(Contents()), id, rec, now))
                && Contents() == Shrunk(policy, Inserted(old(Contents()), id, rec, now), now)
                && |store| <= policy.maxSize
    {
      hide Valid, Touched, Inserted, Shrunk, Aligned, InOrder;
      if id in store {
        Overwrite(id, rec);
        Touch(id, now);
      } else {
        InsertedSize(Contents(), id, rec, now);
        Insert(id, rec, now);
        ghost var inserted := Contents();
        ValidMeans();
        while |store| > policy.maxSize
          invariant Valid() && touches == old(touches) + [id] && Aligned(Contents()) && Aligned(inserted)
          invariant Shrunk(policy, Contents(), now) == Shrunk(policy, inserted, now)
          invariant policy.clean.Other? ==> |store| <= policy.maxSize
          decreases |store|
        {
          ShrunkStep(policy, Contents(), now);
          Evict(now);
          ValidMeans();
        }
        ShrunkToFit(policy, Contents(), now);
      }
    }

    method Overwrite(id: string, rec: Record)
      requires Valid() && id in store
      modifies `store
      ensures Valid() && store == old(store)[id := rec]
    {
      hide Drop, Distinct;
      store := store[id := rec];
      assert store.Keys == old(store).Keys;
    }

    lemma ValidMeans()
      requires Valid()
      ensures Aligned(Contents())
    {
    }

    /** One eviction by the policy. */
    method Evict(now: real)
      requires Valid()
      modifies this
      ensures old(Aligned(Contents())) && Valid()
      ensures Contents() == Removed(old(Contents()), Victims(policy, old(Contents()), now)) && touches == old(touches)
    {
      hide Valid, Aligned, InOrder, Removed, LeastFrequent;
      ValidMeans();
      NothingRemoved(Contents());
      if store == map[] {
        return;
      }
      NotEmptyStore(Contents());
      match policy.clean
      case Lru => EvictOne(accessLog[0]);
      case Lfu => EvictOne(order[LeastFrequent(order, freq)]);
      case Ttl => EvictExpired(now);
      case Other =>
    }

    /** Everything expired, and the oldest entry if the cache is still too big. */
    method EvictExpired(now: real)
      requires Valid() && store != map[] && policy.clean.Ttl?
      modifies this
      ensures old(Aligned(Contents())) && Valid()
      ensures Contents() == Removed(old(Contents()), Victims(policy, old(Contents()), now)) && touches == old(touches)
    {
      hide Valid, Aligned, InOrder, Drop, Stale, Removed, Victims, Expired;
      ghost var e := Contents();
      ValidMeans();
      var expired := Expired(policy, Entries(store, accessLog, freq, order, timestamps), now);
      EvictAll(expired);
      ValidMeans();
      if |store| > policy.maxSize {
        NotEmptyStore(Contents());
        TtlVictims(policy, e, now);
        RemovedTwice(e, expired, {accessLog[0]});
        EvictOne(accessLog[0]);
      } else {
        TtlVictims(policy, e, now);
      }
    }

    method EvictAll(ids: set<string>)
      requires Valid()
      modifies this
      ensures Valid() && Contents() == Removed(old(Contents()), ids) && touches == old(touches)
    {
      hide Valid, Removed;
      var todo := ids;
      NothingRemoved(Contents());
      assert ids - todo == {};
      while todo != {}
        invariant Valid() && todo <= ids && touches == old(touches)
        invariant Contents() == Removed(old(Contents()), ids - todo)
        decreases todo
      {
        var id := P.AnyOf(todo);
        RemovedTwice(old(Contents()), ids - todo, {id});
        assert ids - (todo - {id}) == ids - todo + {id};
        EvictOne(id);
        todo := todo - {id};
      }
      assert ids - todo == ids;
    }

    method Delete(id: string)
      requires Valid()
      modifies this
      ensures Valid() && Contents() == Removed(old(Contents()), {id}) && id !in store && touches == old(touches)
    {
      hide Valid;
      EvictOne(id);
    }

    /** apply_delta never evicts; false when partition_object raises. */
    method ApplyDelta(id: string, delta: seq<Change>, nested: bool, now: real) returns (ok: bool)
      requires Valid()
      modifies this
      ensures Valid()
      ensures ok <==> Applied(nested, old(Contents()), id, delta).Some?
      ensures !ok ==> Contents() == old(Contents()) && touches == old(touches)
      ensures ok ==> touches == old(touches) + [id]
      ensures ok && id in old(store) ==>
                var rec := Applied(nested, old(Contents()), id, delta).value;
                Contents() == Touched(old(Contents()).(store := old(store)[id := rec]), id, now)
      ensures ok && id !in old(store) ==>
                Contents() == Inserted(old(Contents()), id, Applied(nested, old(Contents()), id, delta).value, now)
    {
      hide Valid, Touched, Inserted, FlatMerge, DeepUpdate, Partition;
      var parts := if nested then Partition(delta) else None;
      if nested && parts.None? {
        return false;
      }
      if id in store {
        var rec := if nested then DeepUpdate(store[id], parts.value) else FlatMerge(store[id], delta);
        Overwrite(id, rec);
        Touch(id, now);
      } else {
        Insert(id, if nested then parts.value else FlatMerge(EMPTY, delta), now);
      }
      return true;
    }
  }

  lemma NotEmptyStore(e: Entries)
    requires Aligned(e) && e.store != map[]
    ensures e.log != [] && e.order != [] && forall k :: k in e.order ==> k in e.freq
  {
    NotEmpty(e);
  }

  lemma TtlVictims(p: Policy, e: Entries, now: real)
    requires Aligned(e) && p.clean.Ttl? && e.store != map[]
    ensures var r := Removed(e, Expired(p, e, now));
            Victims(p, e, now) == if |r.store| > p.maxSize && r.log != [] then Expired(p, e, now) + {r.log[0]}
                                  else Expired(p, e, now)
  {
    hide Drop, Distinct, Expired;
  }

  lemma NothingRemoved(e: Entries)
    ensures Removed(e, {}) == e
  {
    assert e.store - {} == e.store && e.freq - {} == e.freq && e.stamps - {} == e.stamps;
  }

  lemma TouchedAligned(e: Entries, id: string, now: real)
    requires Aligned(e) && id in e.store
    ensures Aligned(Touched(e, id, now))
  {
    hide Drop;
  }

  lemma InsertedAligned(e: Entries, id: string, rec: Record, now: real)
    requires Aligned(e) && id !in e.store
    ensures Aligned(Inserted(e, id, rec, now))
  {
  }

  lemma InsertedSize(e: Entries, id: string, rec: Record, now: real)
    requires id !in e.store
    ensures |Inserted(e, id, rec, now).store| == |e.store| + 1
  {
    assert Inserted(e, id, rec, now).store.Keys == e.store.Keys + {id};
  }

  lemma ShrunkToFit(p: Policy, e: Entries, now: real)
    requires Aligned(e) && |e.store| <= p.maxSize
    ensures Shrunk(p, e, now) == e
  {
  }

  // ---------- whole runs under lru ----------

  datatype Call = Get(id: string, now: real) | Set(id: string, rec: Record, now: real)

  /** The accesses after these calls, of which a cache keeps the last n ids: a read counts when it hits. */
  function Accessed(touches: seq<string>, calls: seq<Call>, n: nat): seq<string>
  {
    if calls == [] then touches
    else OneMore(Accessed(touches, calls[..|calls| - 1], n), calls[|calls| - 1], n)
  }

  function OneMore(touches: seq<string>, call: Call, n: nat): seq<string>
  {
    if call.Set? || call.id in LastN(Recency(touches), n) then touches + [call.id] else touches
  }

  /** The record last set under each id. */
  function LastSet(before: map<string, Record>, calls: seq<Call>): map<string, Record>
  {
    if calls == [] then before
    else
      var earlier, call := LastSet(before, calls[..|calls| - 1]), calls[|calls| - 1];
      if call.Set? then earlier[call.id := call.rec] else earlier
  }

  ghost predicate Within(a: map<string, Record>, b: map<string, Record>)
  {
    forall k :: k in a ==> k in b && a[k] == b[k]
  }

  method Step(c: RamCache, call: Call)
    requires c.Valid() && c.policy.clean.Lru? && c.policy.ttl <= 0.0
    requires KeepsLast(c.policy, c.Contents(), c.touches)
    modifies c
    ensures c.Valid() && KeepsLast(c.policy, c.Contents(), c.touches)
    ensures c.touches == OneMore(old(c.touches), call, c.policy.maxSize)
    ensures Within(c.store, if call.Set? then old(c.store)[call.id := call.rec] else old(c.store))
  {
    hide RamCache.Valid, KeepsLast, Touched, Inserted, Shrunk, Aligned, Recency, LastN;
    ghost var e, t := c.Contents(), c.touches;
    c.ValidMeans();
    CachedMeans(c.policy, e, t, call.id);
    match call
    case Get(id, now) =>
      TouchedStore(e, id, now);
      var _ := c.Get(id, now);
      if id in e.store { LruTouch(c.policy, e, t, id, now); }
    case Set(id, rec, now) =>
      TouchedStore(e.(store := e.store[id := rec]), id, now);
      InsertedStore(e, id, rec, now);
      c.Set(id, rec, now);
      if id in e.store {
        LruOverwrite(c.policy, e, t, id, rec, now);
      } else {
        LruInsert(c.policy, e, t, id, rec, now);
      }
  }

  lemma CachedMeans(p: Policy, e: Entries, touches: seq<string>, id: string)
    requires Aligned(e) && KeepsLast(p, e, touches)
    ensures id in e.store <==> id in LastN(Recency(touches), p.maxSize)
  {
    hide Recency, Distinct, LastN;
    LogKeys(e);
  }

  lemma TouchedStore(e: Entries, id: string, now: real)
    ensures Touched(e, id, now).store == e.store && Touched(e, id, now).stamps == e.stamps[id := now]
  {
  }

  lemma InsertedStore(e: Entries, id: string, rec: Record, now: real)
    ensures Inserted(e, id, rec, now).store == e.store[id := rec]
    ensures Inserted(e, id, rec, now).stamps == e.stamps[id := now]
  {
  }

  lemma LruOverwrite(p: Policy, e: Entries, touches: seq<string>, id: string, rec: Record, now: real)
    requires Aligned(e) && KeepsLast(p, e, touches) && id in e.store
    ensures KeepsLast(p, Touched(e.(store := e.store[id := rec]), id, now), touches + [id])
  {
    hide Drop, Distinct, Recency;
    LruTouch(p, e, touches, id, now);
  }

  /**
    Over every run of reads and fills under lru without expiry, an id is cached exactly
    when it was accessed and fewer than maxSize other ids were accessed since, with the
    record last set for it.  The accesses are those before the run, every fill, and every
    read of an id that was then among the last maxSize.
   */
  method Run(c: RamCache, calls: seq<Call>)
    requires c.Valid() && c.policy.clean.Lru? && c.policy.ttl <= 0.0
    requires KeepsLast(c.policy, c.Contents(), c.touches)
    modifies c
    ensures c.Valid() && KeepsLast(c.policy, c.Contents(), c.touches)
    ensures c.touches == Accessed(old(c.touches), calls, c.policy.maxSize)
    ensures Within(c.store, LastSet(old(c.store), calls))
    ensures forall id :: id in c.store ==> id in c.touches
    ensures forall i :: 0 <= i < |c.touches| && c.touches[i] !in c.touches[i + 1..] ==>
              (c.touches[i] in c.store <==> |KeysOf(c.touches[i + 1..])| < c.policy.maxSize)
  {
    hide RamCache.Valid, KeepsLast, Aligned, OneMore;
    assert calls[..0] == [];
    for n := 0 to |calls|
      invariant c.Valid() && KeepsLast(c.policy, c.Contents(), c.touches)
      invariant c.touches == Accessed(old(c.touches), calls[..n], c.policy.maxSize)
      invariant Within(c.store, LastSet(old(c.store), calls[..n]))
    {
      assert calls[..n + 1][..n] == calls[..n];
      Step(c, calls[n]);
    }
    assert calls[..|calls|] == calls;
    c.ValidMeans();
    CachedAre(c.policy, c.Contents(), c.touches);
  }

  lemma CachedAre(p: Policy, e: Entries, touches: seq<string>)
    requires Aligned(e) && KeepsLast(p, e, touches)
    ensures forall id :: id in e.store ==> id in touches
    ensures forall i :: 0 <= i < |touches| && touches[i] !in touches[i + 1..] ==>
              (touches[i] in e.store <==> |KeysOf(touches[i + 1..])| < p.maxSize)
  {
    hide Recency, Distinct, LastN;
    LogKeys(e);
    forall i | 0 <= i < |touches| && touches[i] !in touches[i + 1..]
      ensures touches[i] in e.store <==> |KeysOf(touches[i + 1..])| < p.maxSize
    {
      AmongTheLast(touches, p.maxSize, i);
    }
    forall id | id in e.store ensures id in touches {
      InTailInTouches(touches, p.maxSize, id);
    }
  }

  lemma InTailInTouches(touches: seq<string>, n: nat, id: string)
    requires id in LastN(Recency(touches), n)
    ensures id in touches
  {
    hide Recency;
  }
}
