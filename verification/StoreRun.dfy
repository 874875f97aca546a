/**
  Whole runs of the storage engine: any sequence of writes, deletes, compactions and
  restarts, with whatever rollovers they cause, does to the contents what the same
  sequence does to a plain map, apart from ids that share a blob file.
 */
module StoreRun {
  import opened Json
  import opened Delta
  import opened Serializer
  import opened DiskLines
  import opened Store
  import opened Compactor
  import L = LogManager

  datatype Op = Write(id: string, delta: seq<Change>) | Delete(id: string) | Compact(n: nat)

  /** What one operation does to the map a client means; a write that raises does nothing. */
  function ApplyOp(nested: bool, m: map<string, Record>, op: Op): map<string, Record>
  {
    match op
    case Write(id, delta) =>
      var r := Merge(nested, Existing(m, id), delta);
      if r.None? then m else m[id := r.value]
    case Delete(id) => m - {id}
    case Compact(_) => m
  }

  function Fold(nested: bool, m: map<string, Record>, ops: seq<Op>): map<string, Record>
  {
    if ops == [] then m else ApplyOp(nested, Fold(nested, m, ops[..|ops| - 1]), ops[|ops| - 1])
  }

  function Writes(ops: seq<Op>): set<string> { set op | op in ops && op.Write? :: op.id }

  /** The sanitised blob names of these ids are all different. */
  predicate DistinctBlobs(ids: set<string>)
  {
    forall a, b :: a in ids && b in ids && L.BlobPath(a) == L.BlobPath(b) ==> a == b
  }

  lemma FewerBlobs(ids: set<string>, some: set<string>)
    requires DistinctBlobs(ids) && some <= ids
    ensures DistinctBlobs(some)
  {
  }

  // ---------- records and blobs ----------

  /** The records, and which of them are blobs; a blob file serves all ids with its sanitised name. */
  datatype Shelf = Shelf(records: map<string, Record>, large: set<string>)

  datatype Rules = Rules(codec: Codec, nested: bool, blobThreshold: nat)

  function PutAway(sh: Shelf, id: string, rec: Record, big: bool): Shelf
  {
    if !big then Shelf(sh.records[id := rec], sh.large - {id})
    else
      Shelf(map k | k in sh.records.Keys + {id} ::
              if k == id || (k in sh.large && L.BlobPath(k) == L.BlobPath(id)) then rec else sh.records[k],
            sh.large + {id})
  }

  /** One operation, whatever the ids are. */
  function ApplyShelf(r: Rules, sh: Shelf, op: Op): Shelf
  {
    match op
    case Write(id, delta) =>
      var m := Merge(r.nested, Existing(sh.records, id), delta);
      if m.None? then sh else PutAway(sh, id, m.value, |Serialize(r.codec, id, m.value)| > r.blobThreshold)
    case Delete(id) => Shelf(sh.records - {id}, sh.large - {id})
    case Compact(_) => sh
  }

  function FoldShelf(r: Rules, sh: Shelf, ops: seq<Op>): Shelf
  {
    if ops == [] then sh else ApplyShelf(r, FoldShelf(r, sh, ops[..|ops| - 1]), ops[|ops| - 1])
  }

  /** With distinct blob names the blobs make no difference. */
  lemma ShelfStep(r: Rules, sh: Shelf, op: Op)
    requires sh.large <= sh.records.Keys && (op.Write? ==> DistinctBlobs(sh.records.Keys + {op.id}))
    ensures ApplyShelf(r, sh, op).records == ApplyOp(r.nested, sh.records, op)
    ensures ApplyShelf(r, sh, op).large <= ApplyShelf(r, sh, op).records.Keys
    ensures ApplyShelf(r, sh, op).records.Keys <= sh.records.Keys + Writes([op])
  {
    hide Merge, Serialize, L.BlobPath;
    if op.Write? { assert op in [op]; }
  }

  lemma {:induction false} ShelfIsMap(r: Rules, sh: Shelf, ops: seq<Op>)
    requires sh.large <= sh.records.Keys && DistinctBlobs(sh.records.Keys + Writes(ops))
    ensures FoldShelf(r, sh, ops).records == Fold(r.nested, sh.records, ops)
    ensures FoldShelf(r, sh, ops).large <= FoldShelf(r, sh, ops).records.Keys <= sh.records.Keys + Writes(ops)
    decreases |ops|
  {
    hide ApplyShelf, ApplyOp, L.BlobPath;
    if ops != [] {
      var before, op := ops[..|ops| - 1], ops[|ops| - 1];
      assert ops == before + [op];
      assert Writes(ops) == Writes(before) + Writes([op]);
      ShelfIsMap(r, sh, before);
      if op.Write? { assert op in [op]; }
      ShelfStep(r, FoldShelf(r, sh, before), op);
    }
  }

  // ---------- what the store does ----------

  ghost function ShelfOf(d: Disk): Shelf
    requires d.WF()
  {
    Shelf(d.Contents(), BlobIds(d))
  }

  lemma WrittenIsPutAway(d: Disk, id: string, rec: Record, big: bool)
    requires d.WF() && OwnBlobs(d)
    ensures Written(d, id, rec, big) == PutAway(ShelfOf(d), id, rec, big).records
  {
    hide Disk.WF, Disk.RecordOf, L.BlobPath;
    ContentsKeys(d);
    forall k | k in d.index && k != id ensures d.index[k] == InBlob(L.BlobPath(id)) <==>
                                               k in BlobIds(d) && L.BlobPath(k) == L.BlobPath(id)
    {
    }
    if big {
      assert Written(d, id, rec, big) == PutAway(ShelfOf(d), id, rec, big).records;
    }
  }

  lemma ShelfShape(d: Disk)
    requires d.WF()
    ensures ShelfOf(d).large <= ShelfOf(d).records.Keys == d.index.Keys
  {
    ContentsKeys(d);
  }

  lemma CompactKeepsBlobs(d: Disk, n: nat, order: seq<string>)
    requires d.WF() && d.Enumerates(order, n)
    ensures BlobIds(d.Compact(n, order)) == BlobIds(d)
  {
  }

  method StepWrite(s: Store, id: string, delta: seq<Change>) returns (ok: bool)
    requires s.Valid() && ValidId(id)
    modifies s`disk, s.log, s.index
    ensures s.Valid() && (old(s.disk.Ordered()) ==> s.disk.Ordered())
    ensures ok <==> Merge(s.nested, Existing(old(s.Contents()), id), delta).Some?
    ensures ShelfOf(s.disk) ==
            ApplyShelf(Rules(s.codec, s.nested, s.blobThreshold), old(ShelfOf(s.disk)), Write(id, delta))
    ensures DistinctBlobs(old(s.disk).index.Keys + {id}) ==>
              s.Contents() == ApplyOp(s.nested, old(s.Contents()), Write(id, delta))
  {
    hide Merge, Serialize, DistinctBlobs, Written, Disk.WF, Disk.Ordered, Disk.Contents, BlobIds, PutAway, ApplyOp;
    ghost var d, m := s.disk, Merge(s.nested, Existing(s.Contents(), id), delta);
    if m.Some? {
      WrittenIsPutAway(d, id, m.value, |Serialize(s.codec, id, m.value)| > s.blobThreshold);
    }
    ShelfShape(d);
    if DistinctBlobs(d.index.Keys + {id}) {
      ShelfStep(Rules(s.codec, s.nested, s.blobThreshold), ShelfOf(d), Write(id, delta));
    }
    hide Stands, OwnBlobs;
    ok := s.WriteToStorage(id, delta);
    PutAwayLarge(ShelfOf(d), id, if m.Some? then m.value else EMPTY);
  }

  lemma PutAwayLarge(sh: Shelf, id: string, rec: Record)
    ensures PutAway(sh, id, rec, true).large == sh.large + {id} && PutAway(sh, id, rec, false).large == sh.large - {id}
  {
  }

  method Step(s: Store, c: Compactor, op: Op)
    requires s.Valid() && c.store == s && (op.Write? ==> ValidId(op.id))
    modifies s`disk, s.log, s.index
    ensures s.Valid() && (old(s.disk.Ordered()) ==> s.disk.Ordered())
    ensures ShelfOf(s.disk) == ApplyShelf(Rules(s.codec, s.nested, s.blobThreshold), old(ShelfOf(s.disk)), op)
    ensures (op.Write? ==> DistinctBlobs(old(s.disk).index.Keys + {op.id})) ==>
              && s.Contents() == ApplyOp(s.nested, old(s.Contents()), op)
              && s.disk.index.Keys <= old(s.disk).index.Keys + Writes([op])
  {
    hide Stands, Merge, Serialize, Disk.WF, Disk.Ordered, Disk.Contents, DistinctBlobs, BlobIds, PutAway;
    ghost var d, rules := s.disk, Rules(s.codec, s.nested, s.blobThreshold);
    ShelfShape(d);
    if op.Write? ==> DistinctBlobs(d.index.Keys + {op.id}) { ShelfStep(rules, ShelfOf(d), op); }
    match op {
      case Write(id, delta) => var _ := StepWrite(s, id, delta);
      case Delete(id) => s.Delete(id);
      case Compact(n) =>
        c.CompactSegment(n);
        ghost var order :| d.Enumerates(order, n) && s.disk == d.Compact(n, order);
        CompactKeepsBlobs(d, n, order);
    }
    ShelfShape(s.disk);
  }

  lemma ContentsKeys(d: Disk)
    requires d.WF()
    ensures d.Contents().Keys == d.index.Keys
  {
  }

  lemma WritesOf(ops: seq<Op>, i: nat)
    requires i < |ops|
    ensures Writes([ops[i]]) <= Writes(ops)
    ensures ops[i].Write? ==> ops[i].id in Writes(ops)
  {
    forall id | id in Writes([ops[i]]) ensures id in Writes(ops) {
      assert ops[i] in ops;
    }
    assert ops[i] in ops;
  }

  /** What happens to a store: operations, and processes that start anew on its files. */
  datatype Event = Do(op: Op) | Restart

  function OpsOf(events: seq<Event>): seq<Op>
  {
    if events == [] then []
    else
      var before, e := OpsOf(events[..|events| - 1]), events[|events| - 1];
      if e.Do? then before + [e.op] else before
  }

  method Happen(s: Store, c: Compactor, e: Event)
    requires s.Valid() && c.store == s && (e.Do? && e.op.Write? ==> ValidId(e.op.id))
    modifies s`disk, s.log, s.index
    ensures s.Valid()
    ensures ShelfOf(s.disk) ==
            if e.Do? then ApplyShelf(Rules(s.codec, s.nested, s.blobThreshold), old(ShelfOf(s.disk)), e.op)
                               else old(ShelfOf(s.disk))
    ensures old(s.disk.Ordered()) && (e.Restart? ==> old(s.log.active) < 1000) ==> s.disk.Ordered()
  {
    hide Stands, Disk.WF, Disk.Ordered, Disk.Contents, DistinctBlobs, ApplyShelf, ApplyOp;
    match e {
      case Do(op) => Step(s, c, op);
      case Restart => s.Restart();
    }
  }

  /**
    Over every run, restarts included, the store holds the fold of the operations over records
    and blobs; when the ids have distinct blob names, the fold over a plain map.
   */
  method Execute(s: Store, c: Compactor, events: seq<Event>)
    requires s.Valid() && c.store == s
    requires forall op :: op in OpsOf(events) && op.Write? ==> ValidId(op.id)
    modifies s`disk, s.log, s.index
    ensures s.Valid()
    ensures ShelfOf(s.disk) == FoldShelf(Rules(s.codec, s.nested, s.blobThreshold), old(ShelfOf(s.disk)), OpsOf(events))
    ensures DistinctBlobs(old(s.disk).index.Keys + Writes(OpsOf(events))) ==>
              s.Contents() == Fold(s.nested, old(s.Contents()), OpsOf(events))
    ensures old(s.disk.Ordered()) && Restart !in events ==> s.disk.Ordered()
  {
    hide Disk.WF, Disk.Ordered, Disk.Contents, BlobIds, Stands, ApplyShelf, DistinctBlobs, Fold;
    ghost var rules, sh := Rules(s.codec, s.nested, s.blobThreshold), ShelfOf(s.disk);
    assert events[..0] == [];
    for i := 0 to |events|
      invariant s.Valid() && ShelfOf(s.disk) == FoldShelf(rules, sh, OpsOf(events[..i]))
      invariant old(s.disk.Ordered()) && Restart !in events ==> s.disk.Ordered()
    {
      OneMore(events, i);
      if events[i].Do? {
        FoldOneOp(rules, sh, OpsOf(events[..i]), events[i].op);
      } else {
        assert OpsOf(events[..i]) + [] == OpsOf(events[..i]);
      }
      Happen(s, c, events[i]);
    }
    assert events[..|events|] == events;
    ShelfShape(old(s.disk));
    if DistinctBlobs(old(s.disk).index.Keys + Writes(OpsOf(events))) { ShelfIsMap(rules, sh, OpsOf(events)); }
  }

  lemma FoldOneOp(r: Rules, sh: Shelf, ops: seq<Op>, op: Op)
    ensures FoldShelf(r, sh, ops + [op]) == ApplyShelf(r, FoldShelf(r, sh, ops), op)
  {
    assert (ops + [op])[..|ops|] == ops;
  }

  lemma OneMore(events: seq<Event>, i: nat)
    requires i < |events|
    ensures OpsOf(events[..i + 1]) == OpsOf(events[..i]) + if events[i].Do? then [events[i].op] else []
    ensures events[i].Do? ==> events[i].op in OpsOf(events)
  {
    assert events[..i + 1][..i] == events[..i];
    if events[i].Do? { OpIn(events, i); }
  }

  lemma {:induction false} OpIn(events: seq<Event>, i: nat)
    requires i < |events| && events[i].Do?
    ensures events[i].op in OpsOf(events)
    decreases |events|
  {
    if i < |events| - 1 { OpIn(events[..|events| - 1], i); }
  }

  // ---------- the fold, id by id ----------

  /** The deltas written to id since its last delete. */
  function Since(ops: seq<Op>, id: string): seq<seq<Change>>
  {
    if ops == [] then []
    else
      var before, op := Since(ops[..|ops| - 1], id), ops[|ops| - 1];
      if op.Write? && op.id == id then before + [op.delta]
      else if op.Delete? && op.id == id then []
      else before
  }

  /** `existing or {}`. */
  function Base(r: Option<Record>): Record { if r.Some? then r.value else EMPTY }

  /** One delta on a record that may not exist yet; a delta that raises changes nothing. */
  function ApplyDelta(nested: bool, r: Option<Record>, d: seq<Change>): Option<Record>
  {
    var m := Merge(nested, Base(r), d);
    if m.None? then r else m
  }

  /** The left fold of a list of deltas onto a record; None while there is nothing. */
  function FoldDeltas(nested: bool, start: Option<Record>, ds: seq<seq<Change>>): Option<Record>
  {
    if ds == [] then start else ApplyDelta(nested, FoldDeltas(nested, start, ds[..|ds| - 1]), ds[|ds| - 1])
  }

  /** In a new store an id reads as the left fold of its deltas since its last delete, and else as absent. */
  lemma {:induction false} FoldIsDeltasSinceDelete(nested: bool, ops: seq<Op>, id: string)
    ensures id in Fold(nested, map[], ops) <==> FoldDeltas(nested, None, Since(ops, id)).Some?
    ensures id in Fold(nested, map[], ops) ==>
              Fold(nested, map[], ops)[id] == FoldDeltas(nested, None, Since(ops, id)).value
    decreases |ops|
  {
    hide ApplyDelta, ApplyOp;
    if ops != [] {
      FoldIsDeltasSinceDelete(nested, ops[..|ops| - 1], id);
      var before, op := Since(ops[..|ops| - 1], id), ops[|ops| - 1];
      OneOp(nested, Fold(nested, map[], ops[..|ops| - 1]), op, id);
      if op.Write? && op.id == id { assert (before + [op.delta])[..|before|] == before; }
    }
  }

  /** One operation, at one id. */
  lemma OneOp(nested: bool, contents: map<string, Record>, op: Op, id: string)
    ensures var old_ := if id in contents then Some(contents[id]) else None;
            var new_ := ApplyOp(nested, contents, op);
            (if id in new_ then Some(new_[id]) else None) ==
            if op.Write? && op.id == id then ApplyDelta(nested, old_, op.delta)
            else if op.Delete? && op.id == id then None else old_
  {
    hide Merge;
  }

  lemma {:induction false} FoldDeltasConcat(nested: bool, start: Option<Record>, a: seq<seq<Change>>,
                                            b: seq<seq<Change>>)
    ensures FoldDeltas(nested, start, a + b) == FoldDeltas(nested, FoldDeltas(nested, start, a), b)
    decreases |b|
  {
    if b == [] {
      assert a + b == a;
    } else {
      assert (a + b)[..|a + b| - 1] == a + b[..|b| - 1];
      FoldDeltasConcat(nested, start, a, b[..|b| - 1]);
    }
  }
}
