/**
  The cache of one query worker: `_WorkerCache` of mkdb/db/query_workers/worker.py:37-90.

  Unlike the store's cache it makes room before it takes a new id in.
 */
module WorkerCache {
  import opened Json
  import opened RecencyList

  class WorkerCache {
    const max: nat
    const ttl: real
    var data: map<string, Json>
    var order: seq<string>
    var stamps: map<string, real>
    ghost var touches: seq<string>    // every access so far

    ghost predicate Valid()
      reads this
    {
      && max >= 1 && |data| <= max
      && Distinct(order) && KeysOf(order) == data.Keys == stamps.Keys
    }

    /** The cached ids are the last accessed ones there is room for. */
    ghost predicate KeepsLast()
      reads this
    {
      order == LastN(Recency(touches), max)
    }

    constructor (maxSize: int, ttl: real)
      ensures Valid() && data == map[] && this.ttl == ttl && max == (if maxSize < 1 then 1 else maxSize)
      ensures touches == [] && KeepsLast()
    {
      max, this.ttl := if maxSize < 1 then 1 else maxSize, ttl;
      data, order, stamps, touches := map[], [], map[], [];
    }

    method EvictOne(id: string)
      requires Valid()
      modifies this
      ensures Valid() && data == old(data) - {id} && order == Drop(old(order), {id}) && stamps == old(stamps) - {id}
      ensures touches == old(touches)
    {
      hide Drop, Distinct, KeysOf;
      KeysOfDrop(order, {id});
      Fewer(data, {id});
      data, order, stamps := data - {id}, Drop(order, {id}), stamps - {id};
    }

    method Get(id: string, now: real) returns (r: Option<Json>)
      requires Valid()
      modifies this
      ensures Valid()
      ensures id !in old(data) ==> r == None && data == old(data) && order == old(order) && touches == old(touches)
      ensures id in old(data) && now - old(stamps)[id] > ttl ==>
                r == None && data == old(data) - {id} && order == Drop(old(order), {id}) && touches == old(touches)
      ensures id in old(data) && now - old(stamps)[id] <= ttl ==>
                && r == Some(old(data)[id]) && data == old(data) && stamps == old(stamps)
                && touches == old(touches) + [id] && (old(KeepsLast()) ==> KeepsLast())
    {
      hide Drop, Distinct, KeysOf, Recency, LastN;
      if id !in data {
        return None;
      }
      if now - stamps[id] > ttl {
        EvictOne(id);
        return None;
      }
      ToTheEnd(id);
      return Some(data[id]);
    }

    /** `move_to_end`. */
    method ToTheEnd(id: string)
      requires Valid() && id in data
      modifies `order, `touches
      ensures Valid() && order == Drop(old(order), {id}) + [id] && touches == old(touches) + [id]
      ensures old(KeepsLast()) ==> KeepsLast()
    {
      hide Drop, Recency, LastN, KeysOf;
      KeysOfMember(order, id);
      if KeepsLast() { TouchTail(touches, order, id, max); }
      KeysOfDrop(order, {id});
      KeysOfAppend(Drop(order, {id}), id);
      order, touches := Drop(order, {id}) + [id], touches + [id];
    }

    method Set(id: string, value: Json, now: real)
      requires Valid()
      modifies this
      ensures Valid() && id in data && data[id] == value && stamps[id] == now
      ensures touches == old(touches) + [id] && (old(KeepsLast()) ==> KeepsLast())
      ensures forall k :: k in data && k != id ==> k in old(data) && data[k] == old(data)[k]
    {
      hide Drop, Recency, LastN, Distinct, KeysOf;
      if id in data {
        ToTheEnd(id);
        Overwrite(id, value, now);
      } else {
        TakeIn(id, value, now);
      }
    }

    method Overwrite(id: string, value: Json, now: real)
      requires Valid() && id in data
      modifies `data, `stamps
      ensures Valid() && data == old(data)[id := value] && stamps == old(stamps)[id := now]
    {
      hide Distinct, KeysOf;
      SameSize(data, id, value);
      data, stamps := data[id := value], stamps[id := now];
    }

    /** `popitem(last=False)`: the id accessed longest ago goes. */
    method MakeRoom()
      requires Valid() && |data| >= max
      modifies this
      ensures Valid() && old(order) != [] && |data| < max && touches == old(touches)
      ensures order == old(order)[1..] && data == old(data) - {old(order)[0]} && stamps == old(stamps) - {old(order)[0]}
    {
      hide Drop, Distinct;
      DistinctSize(order);
      DropFirst(order);
      Fewer(data, {order[0]});
      assert order[0] in KeysOf(order);
      EvictOne(order[0]);
    }

    method Append(id: string, value: Json, now: real)
      requires Valid() && id !in data && |data| < max
      modifies this
      ensures Valid() && data == old(data)[id := value] && stamps == old(stamps)[id := now]
      ensures order == old(order) + [id] && touches == old(touches) + [id]
    {
      hide KeysOf;
      KeysOfMember(order, id);
      KeysOfAppend(order, id);
      OneMore(data, id, value);
      data, stamps := data[id := value], stamps[id := now];
      order, touches := order + [id], touches + [id];
    }

    method TakeIn(id: string, value: Json, now: real)
      requires Valid() && id !in data
      modifies this
      ensures Valid() && id in data && data[id] == value && stamps[id] == now
      ensures touches == old(touches) + [id] && (old(KeepsLast()) ==> KeepsLast())
      ensures forall k :: k in data && k != id ==> k in old(data) && data[k] == old(data)[k]
    {
      hide Drop, Recency, LastN, KeysOf, Distinct;
      KeysOfMember(order, id);
      if KeepsLast() { InsertTail(touches, order, id, max); }
      DistinctSize(order);
      LastNOfAppend(order, id, max);
      if |data| >= max {
        MakeRoom();
      }
      Append(id, value, now);
    }
  }

  lemma Fewer(m: map<string, Json>, ids: set<string>)
    ensures |m - ids| <= |m|
    ensures forall id :: id in m && ids == {id} ==> |m - ids| == |m| - 1
  {
    assert (m - ids).Keys == m.Keys - ids;
    assert |m.Keys - ids| + |m.Keys * ids| == |m.Keys|;
    forall id | id in m && ids == {id} ensures m.Keys * ids == {id} {
    }
  }

  lemma SameSize(m: map<string, Json>, id: string, value: Json)
    requires id in m
    ensures |m[id := value]| == |m|
  {
    assert m[id := value].Keys == m.Keys;
  }

  lemma OneMore(m: map<string, Json>, id: string, value: Json)
    requires id !in m
    ensures |m[id := value]| == |m| + 1
  {
    assert m[id := value].Keys == m.Keys + {id};
  }

  lemma LastNOfAppend(order: seq<string>, id: string, max: nat)
    requires max >= 1 && |order| <= max
    ensures LastN(order + [id], max) == (if |order| >= max then order[1..] else order) + [id]
  {
  }
}
