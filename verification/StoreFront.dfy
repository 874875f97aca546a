/**
  The store as its callers see it, cache and write queue included: read, write and
  delete of mkdb/db/objects/store.py:203-222, 268-303.

  What a caller should see of an id is its view: the record on disk with everything
  in flight applied.  The lemmas say exactly when the cache or the disk shows it.
 */
module StoreFront {
  import opened Json
  import opened Delta
  import opened Store
  import opened StoreRun
  import opened WriteQueue
  import opened RamCache

  /** Raised by partition_object, or refused because too many ids are pending. */
  datatype WriteResult = Raised | Refused | Queued

  /** The record the cache holds after a write in flat mode. */
  function CachedAfter(cached: Option<Record>, delta: seq<Change>): Record { FlatMerge(Base(cached), delta) }

  class StoreFront {
    const cache: RamCache
    const queue: WriteQueue

    ghost predicate Valid()
      reads this, cache, queue, queue.store, queue.store.log, queue.store.index
    {
      cache.Valid() && !cache.policy.clean.Other? && queue.Valid()
    }

    ghost function Cached(id: string): Option<Record>
      reads this, cache
    {
      OnDisk(cache.store, id)
    }

    constructor (cache: RamCache, queue: WriteQueue)
      requires cache.Valid() && !cache.policy.clean.Other? && queue.Valid()
      ensures Valid() && this.cache == cache && this.queue == queue
    {
      this.cache, this.queue := cache, queue;
    }

    /** The cache takes the delta first, so a full queue leaves it with a write that is never queued. */
    method Write(id: string, delta: seq<Change>, now: real) returns (r: WriteResult)
      requires Valid() && id in queue.ids
      modifies cache, queue`pending, queue`timers, queue`order
      ensures Valid()
      ensures r.Raised? <==> Applied(queue.store.nested, old(cache.Contents()), id, delta).None?
      ensures r.Raised? ==> cache.Contents() == old(cache.Contents()) && queue.pending == old(queue.pending)
      ensures !r.Raised? ==> Cached(id) == Applied(queue.store.nested, old(cache.Contents()), id, delta)
      ensures !r.Raised? ==> id in cache.timestamps && cache.timestamps[id] == now
      ensures forall k :: k != id ==> Cached(k) == old(Cached(k))
      ensures !r.Queued? ==> forall k :: queue.ViewOf(k) == old(queue.ViewOf(k))
      ensures !r.Raised? ==> (r.Refused? <==> !Accepts(old(queue.pending), id, queue.maxPending))
      ensures r.Queued? && CanCoalesce(queue.store.nested, old(queue.State()), id, delta) ==>
                forall k :: queue.ViewOf(k) ==
                              if k == id then ApplyDelta(queue.store.nested, old(queue.ViewOf(k)), delta)
                                               else old(queue.ViewOf(k))
    {
      hide RamCache.Valid, WriteQueue.Valid, WriteQueue.ViewOf, Applied, CanCoalesce, ApplyDelta;
      var ok := cache.ApplyDelta(id, delta, queue.store.nested, now);
      if !ok {
        return Raised;
      }
      var e := queue.Enqueue(Some(id), delta, now);
      return if e.Full? then Refused else Queued;
    }

    /** A hit, or the record on disk, whatever is in flight; a miss fills the cache. */
    method Read(id: string, now: real) returns (r: Option<Record>)
      requires Valid()
      modifies cache
      ensures Valid() && forall k :: queue.ViewOf(k) == old(queue.ViewOf(k))
      ensures var hit := old(id in cache.store && !Stale(cache.policy, cache.Contents(), id, now));
              var source := if hit then old(Cached(id)) else OnDisk(queue.store.Contents(), id);
              r == if source.Some? then Some(WithId(id, source.value)) else None
      ensures forall k :: k in cache.store && k != id ==> Cached(k) == old(Cached(k))
    {
      hide RamCache.Valid, WriteQueue.Valid, WriteQueue.ViewOf, Touched, Removed, Aligned, Store.Valid, Store.Contents;
      HasStore(queue);
      RemovedStore(cache.Contents(), {id});
      TouchedStore(cache.Contents(), id, now);
      var cached := cache.Get(id, now);
      if cached.Some? {
        return Some(WithId(id, cached.value));
      }
      r := Refill(id, now);
    }

    /** A miss: the record on disk goes into the cache. */
    method Refill(id: string, now: real) returns (r: Option<Record>)
      requires Valid() && id !in cache.store
      modifies cache
      ensures Valid() && forall k :: queue.ViewOf(k) == old(queue.ViewOf(k))
      ensures var source := OnDisk(queue.store.Contents(), id);
              r == if source.Some? then Some(WithId(id, source.value)) else None
      ensures forall k :: k in cache.store && k != id ==> Cached(k) == old(Cached(k))
    {
      hide RamCache.Valid, WriteQueue.Valid, WriteQueue.ViewOf, Shrunk, Inserted, Aligned, Store.Valid, Store.Contents;
      HasStore(queue);
      var rec := queue.store.ReadDisk(id);
      if rec.None? {
        return None;
      }
      InsertedStore(cache.Contents(), id, rec.value, now);
      cache.Set(id, rec.value, now);
      return Some(WithId(id, rec.value));
    }

    /** Cache and index forget the id; the deltas in flight stay. */
    method Delete(id: string)
      requires Valid()
      modifies cache, queue.store`disk, queue.store.log, queue.store.index
      ensures Valid() && Cached(id) == None && queue.store.Contents() == old(queue.store.Contents()) - {id}
      ensures forall k :: k != id ==> Cached(k) == old(Cached(k)) && queue.ViewOf(k) == old(queue.ViewOf(k))
      ensures queue.ViewOf(id) == FoldDeltas(queue.store.nested, None, InFlight(queue.queue, queue.pending, id))
    {
      hide RamCache.Valid, WriteQueue.Valid, WriteQueue.ViewOf, Store.Contents, Removed, InFlight, FoldDeltas;
      assert forall k :: k != id ==> OnDisk(cache.store - {id}, k) == OnDisk(cache.store, k);
      RemovedStore(cache.Contents(), {id});
      cache.Delete(id);
      queue.Delete(id);
    }
  }

  lemma HasStore(q: WriteQueue)
    requires q.Valid()
    ensures q.store.Valid()
  {
  }

  /**
    A write followed at once by a read, in flat mode.  The read is the cached record with the
    delta; when the write is queued the view takes the delta too, and the read shows the view
    exactly when cache and view, as read, agreed on the fields the write left alone.
   */
  method WriteThenRead(f: StoreFront, id: string, delta: seq<Change>, now: real)
      returns (w: WriteResult, r: Option<Record>)
    requires f.Valid() && id in f.queue.ids && !f.queue.store.nested
    modifies f.cache, f.queue`pending, f.queue`timers, f.queue`order
    ensures f.Valid() && r == Some(WithId(id, CachedAfter(old(f.Cached(id)), delta)))
    ensures w == if Accepts(old(f.queue.pending), id, f.queue.maxPending) then Queued else Refused
    ensures f.queue.ViewOf(id) == if w.Queued? then ApplyDelta(false, old(f.queue.ViewOf(id)), delta)
                                  else old(f.queue.ViewOf(id))
    ensures w.Queued? ==>
              f.queue.ViewOf(id).Some? &&
              (r == Some(WithId(id, f.queue.ViewOf(id).value)) <==>
                AgreeBeside(WithId(id, Base(old(f.Cached(id)))), WithId(id, Base(old(f.queue.ViewOf(id)))), delta))
  {
    hide RamCache.Valid, WriteQueue.Valid, WriteQueue.ViewOf, FlatMerge, AgreeBeside, Accepts, View, WithId;
    ReadShows(id, f.Cached(id), f.queue.ViewOf(id), delta);
    w := f.Write(id, delta, now);
    r := f.Read(id, now);
  }

  /** The same as read: with the id in front. */
  lemma ReadShows(id: string, cached: Option<Record>, view: Option<Record>, delta: seq<Change>)
    ensures WithId(id, CachedAfter(cached, delta)) == WithId(id, FlatMerge(Base(view), delta))
       <==> AgreeBeside(WithId(id, Base(cached)), WithId(id, Base(view)), delta)
  {
    hide FlatMerge, AgreeBeside, WithId;
    ReadAfterWrite(Some(WithId(id, Base(cached))), Some(WithId(id, Base(view))), delta);
    FlatMergeOfRead(id, Base(cached), delta);
    FlatMergeOfRead(id, Base(view), delta);
  }

  lemma FlatMergeOfRead(id: string, rec: Record, delta: seq<Change>)
    ensures FlatMerge(WithId(id, rec), delta) == WithId(id, FlatMerge(rec, delta))
  {
    hide FlatMerge;
    FlatMergeIsOverride(WithId(id, rec), delta);
    FlatMergeIsOverride(rec, delta);
    var front := map["_id" := Str(id)];
    assert front + rec.fields + Dict(delta) == front + (rec.fields + Dict(delta));
  }

  // ---------- when a read shows what was written (flat mode) ----------

  /** The two records agree on every field the delta does not write. */
  predicate AgreeBeside(a: Record, b: Record, delta: seq<Change>)
  {
    forall k :: k in a.fields.Keys + b.fields.Keys && k !in Dict(delta) ==>
      k in a.fields && k in b.fields && a.fields[k] == b.fields[k]
  }

  /**
    After a write the cache holds the view exactly when before it the cached record, or
    nothing on a miss, agreed with the view on every field the write left alone.
   */
  lemma ReadAfterWrite(cached: Option<Record>, view: Option<Record>, delta: seq<Change>)
    ensures Some(CachedAfter(cached, delta)) == ApplyDelta(false, view, delta)
       <==> AgreeBeside(Base(cached), Base(view), delta)
  {
    var a, b, d := Base(cached).fields, Base(view).fields, Dict(delta);
    FlatMergeIsOverride(Base(cached), delta);
    FlatMergeIsOverride(Base(view), delta);
    if AgreeBeside(Base(cached), Base(view), delta) {
      assert (a + d).Keys == (b + d).Keys;
      assert a + d == b + d;
    } else {
      var k :| k in a.Keys + b.Keys && k !in d && !(k in a && k in b && a[k] == b[k]);
      assert (k in a + d <==> k in a) && (k in b + d <==> k in b);
      assert (k in a ==> (a + d)[k] == a[k]) && (k in b ==> (b + d)[k] == b[k]);
    }
  }

  /** A cached record that shows the view goes on showing it; after a miss only a write of every field does. */
  lemma WriteToCached(view: Option<Record>, delta: seq<Change>)
    ensures view.Some? ==> Some(CachedAfter(view, delta)) == ApplyDelta(false, view, delta)
    ensures Some(CachedAfter(None, delta)) == ApplyDelta(false, view, delta)
       <==> Base(view).fields.Keys <= Dict(delta).Keys
  {
    ReadAfterWrite(view, view, delta);
    ReadAfterWrite(None, view, delta);
  }

  /**
    In nested mode: a cached record that shows the view goes on showing it; after a miss of an
    id that has nothing yet, the cached delta is the view exactly when it sets no field to None.
   */
  lemma NestedWriteToCached(e: Entries, id: string, view: Option<Record>, delta: seq<Change>)
    requires Partition(delta).Some?
    ensures id in e.store && view == Some(e.store[id]) ==> Applied(true, e, id, delta) == ApplyDelta(true, view, delta)
    ensures id !in e.store && view == None ==>
              (Applied(true, e, id, delta) == ApplyDelta(true, view, delta) <==>
                forall k :: k in Partition(delta).value.fields ==> !Partition(delta).value.fields[k].Null?)
  {
    hide Partition, DeepUpdate;
    var parts := Partition(delta).value;
    forall k ensures Field(DeepUpdate(EMPTY, parts), k) ==
                     if k in parts.fields && !parts.fields[k].Null? then Some(parts.fields[k]) else None
    {
      FieldAfterUpdate(EMPTY, parts, k);
    }
    if forall k :: k in parts.fields ==> !parts.fields[k].Null? {
      SameFields(DeepUpdate(EMPTY, parts), parts);
    } else {
      var k :| k in parts.fields && parts.fields[k].Null?;
      assert Field(DeepUpdate(EMPTY, parts), k) == None && Field(parts, k) == Some(Null);
    }
  }

  /** Everything in flight for one id, as one dict. */
  function Pending(ds: seq<seq<Change>>): map<string, Json>
  {
    if ds == [] then map[] else Pending(ds[..|ds| - 1]) + Dict(ds[|ds| - 1])
  }

  lemma {:induction false} FoldIsUnion(start: Option<Record>, ds: seq<seq<Change>>)
    ensures ds == [] ==> FoldDeltas(false, start, ds) == start
    ensures ds != [] ==> FoldDeltas(false, start, ds) == Some(Obj(Base(start).fields + Pending(ds)))
    decreases |ds|
  {
    hide FlatMerge;
    if ds != [] {
      var before, last := ds[..|ds| - 1], ds[|ds| - 1];
      FoldIsUnion(start, before);
      FlatMergeIsOverride(Base(FoldDeltas(false, start, before)), last);
      var s := Base(start).fields;
      assert s + map[] == s;
      assert (s + Pending(before)) + Dict(last) == s + (Pending(before) + Dict(last));
    }
  }

  /** A read that misses the cache shows the view exactly when the disk already has every value in flight. */
  lemma ReadFromDisk(disk: Option<Record>, ds: seq<seq<Change>>)
    ensures disk == FoldDeltas(false, disk, ds)
       <==> ds == []
            || (disk.Some? && forall k :: k in Pending(ds) ==>
                  k in disk.value.fields && disk.value.fields[k] == Pending(ds)[k])
  {
    FoldIsUnion(disk, ds);
    if ds != [] && disk.Some? {
      var s, p := disk.value.fields, Pending(ds);
      if s + p == s {
        forall k | k in p ensures k in s && s[k] == p[k] {
          assert (s + p)[k] == p[k];
        }
      }
      if forall k :: k in p ==> k in s && s[k] == p[k] {
        assert (s + p).Keys == s.Keys;
        assert s + p == s;
      }
    }
  }

  /**
    A deleted id stays away exactly when nothing in flight for it can be written: in flat mode
    when nothing is in flight, in nested mode when none of it can be partitioned.
   */
  lemma {:induction false} DeleteSticks(nested: bool, ds: seq<seq<Change>>)
    ensures FoldDeltas(nested, None, ds) == None <==> forall d :: d in ds ==> nested && Partition(d).None?
    decreases |ds|
  {
    hide ApplyDelta;
    if ds != [] {
      var before, last := ds[..|ds| - 1], ds[|ds| - 1];
      assert last in ds && forall d :: d in ds <==> d in before || d == last by { assert ds == before + [last]; }
      DeleteSticks(nested, before);
      AppliesNothing(nested, FoldDeltas(nested, None, before), last);
    }
  }

  lemma AppliesNothing(nested: bool, r: Option<Record>, d: seq<Change>)
    ensures ApplyDelta(nested, r, d) == None <==> r == None && nested && Partition(d).None?
  {
    hide FlatMerge, DeepUpdate, Partition;
  }
}
