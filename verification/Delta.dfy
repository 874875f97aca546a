/**
  Deltas: the merge algebra of mkdb/objects/__init__.py.

  A delta is a Python dict, so the order of its keys is part of the model: it is
  a sequence of changes.  A dotted key names a path.  PartitionObject turns the
  delta into a tree, DeepUpdateDict merges that tree into a record.

  Put is the reference meaning of one change: "assign this value at this path,
  None removes".  Make is what a change does to a record in the end: a None whose parent
  the record lacks is placed like any other value, and a dict is merged into the dict the
  record had there.  The central result is DeepUpdateIsMakeAll.
 */
module Delta {
  import opened Json
  import opened Text

  type Path = seq<string>

  datatype Change = Change(key: string, value: Json)
  {
    function Path(): (p: Path)
      ensures |p| > 0
    {
      Split(key, '.')
    }
  }

  // ---------- paths into a tree ----------

  function Lookup(t: Json, p: Path): Option<Json>
    decreases |p|
  {
    if p == [] then Some(t)
    else if t.Obj? && p[0] in t.fields then Lookup(t.fields[p[0]], p[1..])
    else None
  }

  predicate IsDict(t: Json, p: Path) { Lookup(t, p).Some? && Lookup(t, p).value.Obj? }

  predicate IsLeaf(t: Json, p: Path) { Lookup(t, p).Some? && !Lookup(t, p).value.Obj? }

  /** Every step of p but the last leads to a dict. */
  predicate HasParent(t: Json, p: Path)
    requires |p| > 0
    decreases |p|
  {
    t.Obj? && (|p| > 1 ==> p[0] in t.fields && HasParent(t.fields[p[0]], p[1..]))
  }

  lemma {:induction false} HasParentIsDict(t: Json, p: Path)
    requires |p| > 0
    ensures HasParent(t, p) <==> IsDict(t, p[..|p| - 1])
    decreases |p|
  {
    if |p| > 1 {
      assert p[..|p| - 1][1..] == p[1..][..|p| - 2];
      if t.Obj? && p[0] in t.fields { HasParentIsDict(t.fields[p[0]], p[1..]); }
    }
  }

  predicate ProperPrefix(p: Path, q: Path) { p < q }

  predicate Comparable(p: Path, q: Path) { p <= q || q <= p }

  lemma {:induction false} LookupConcat(t: Json, p: Path, q: Path)
    ensures Lookup(t, p).Some? ==> Lookup(t, p + q) == Lookup(Lookup(t, p).value, q)
    ensures Lookup(t, p).None? ==> Lookup(t, p + q).None?
    decreases |p|
  {
    if p == [] {
      assert p + q == q;
    } else {
      assert (p + q)[1..] == p[1..] + q;
      if t.Obj? && p[0] in t.fields { LookupConcat(t.fields[p[0]], p[1..], q); }
    }
  }

  /** Whatever lies below a path makes that path a dict. */
  lemma DictAbove(t: Json, p: Path, q: Path)
    requires p < q && Lookup(t, q).Some?
    ensures IsDict(t, p)
  {
    LookupConcat(t, p, q[|p|..]);
    assert p + q[|p|..] == q;
  }

  // ---------- deep_update ----------

  /** `deep_update(mapping, updates)`: a merge where None removes a key. */
  function DeepUpdate(m: Record, u: Record): Record
    decreases u
  {
    Obj(map k | k in m.fields.Keys + u.fields.Keys && !(k in u.fields && u.fields[k].Null?) ::
          if k !in u.fields then m.fields[k]
          else if k in m.fields && m.fields[k].Obj? && u.fields[k].Obj?
            then DeepUpdate(m.fields[k], u.fields[k])
          else u.fields[k])
  }

  function Field(t: Record, k: string): Option<Json>
  {
    if k in t.fields then Some(t.fields[k]) else None
  }

  /** The dict under key k, or an empty one when there is none. */
  function Branch(t: Record, k: string): Record
  {
    if k in t.fields && t.fields[k].Obj? then t.fields[k] else EMPTY
  }

  lemma SameFields(a: Record, b: Record)
    requires forall k :: Field(a, k) == Field(b, k)
    ensures a == b
  {
    forall k ensures k in a.fields <==> k in b.fields { assert Field(a, k) == Field(b, k); }
    forall k | k in a.fields ensures a.fields[k] == b.fields[k] { assert Field(a, k) == Field(b, k); }
    assert a.fields == b.fields;
  }

  method DeepUpdateDict(mapping: Record, updates: Record) returns (updated: Record)
    ensures updated == DeepUpdate(mapping, updates)
    decreases updates
  {
    updated := mapping;
    var todo := updates.fields.Keys;
    while todo != {}
      invariant todo <= updates.fields.Keys
      invariant forall k :: k !in updates.fields.Keys - todo ==>
                  (k in updated.fields <==> k in mapping.fields) &&
                  (k in mapping.fields ==> updated.fields[k] == mapping.fields[k])
      invariant forall k :: k in updates.fields.Keys - todo ==>
                  (k in updated.fields <==> k in DeepUpdate(mapping, updates).fields) &&
                  (k in updated.fields ==> updated.fields[k] == DeepUpdate(mapping, updates).fields[k])
      decreases todo
    {
      var k :| k in todo;
      var v := updates.fields[k];
      if v.Null? {
        updated := Obj(updated.fields - {k});
      } else if k in updated.fields && updated.fields[k].Obj? && v.Obj? {
        var merged := DeepUpdateDict(updated.fields[k], v);
        updated := Obj(updated.fields[k := merged]);
      } else {
        updated := Obj(updated.fields[k := v]);
      }
      todo := todo - {k};
    }
    assert updated.fields == DeepUpdate(mapping, updates).fields;
  }

  // ---------- partition_object ----------

  /** One key of `partition_object`; None is the TypeError of walking through a non-dict. */
  function Insert(u: Record, p: Path, v: Json): Option<Record>
    requires |p| > 0
    decreases |p|
  {
    var k := p[0];
    if |p| == 1 then Some(Obj(u.fields[k := v]))
    else if k in u.fields && !u.fields[k].Obj? then None
    else
      var gate := Branch(u, k);
      var below := Insert(gate, p[1..], v);
      if below.None? then None else Some(Obj(u.fields[k := below.value]))
  }

  function Partition(d: seq<Change>): Option<Record>
  {
    if d == [] then Some(EMPTY)
    else
      var u := Partition(d[..|d| - 1]);
      if u.None? then None else Insert(u.value, d[|d| - 1].Path(), d[|d| - 1].value)
  }

  /** `gate[part] = v`, where the gate is the dict reached by all but the last part. */
  function SetAt(t: Record, p: Path, v: Json): Record
    requires |p| > 0 && HasParent(t, p)
    decreases |p|
  {
    var k := p[0];
    if |p| == 1 then Obj(t.fields[k := v])
    else
      assert HasParent(t.fields[k], p[1..]);
      Obj(t.fields[k := SetAt(t.fields[k], p[1..], v)])
  }

  /** One walk of the gate: creating the next dict on the way changes nothing about the outcome. */
  lemma {:induction false} InsertAfterOpening(t: Record, p: Path, n: nat, v: Json)
    requires 0 < n < |p| && HasParent(t, p[..n]) && Lookup(t, p[..n]).None?
    ensures Insert(SetAt(t, p[..n], EMPTY), p, v) == Insert(t, p, v)
    ensures IsDict(SetAt(t, p[..n], EMPTY), p[..n])
    decreases n
  {
    var k := p[0];
    assert p[..n][1..] == p[1..][..n - 1];
    if n == 1 {
      assert p[..1] == [k];
      var below := Insert(EMPTY, p[1..], v);
      if below.Some? { assert t.fields[k := EMPTY][k := below.value] == t.fields[k := below.value]; }
    } else {
      InsertAfterOpening(t.fields[k], p[1..], n - 1, v);
      var inner := SetAt(t.fields[k], p[1..][..n - 1], EMPTY);
      var below := Insert(inner, p[1..], v);
      if below.Some? { assert t.fields[k := inner][k := below.value] == t.fields[k := below.value]; }
    }
  }

  /** At the last part the gate is a dict and the walk is a plain assignment. */
  lemma {:induction false} InsertIsSetAt(t: Record, p: Path, v: Json)
    requires |p| > 0 && HasParent(t, p)
    ensures Insert(t, p, v) == Some(SetAt(t, p, v))
    decreases |p|
  {
    if |p| > 1 {
      InsertIsSetAt(t.fields[p[0]], p[1..], v);
    }
  }

  /** A walk that meets a non-dict fails. */
  lemma {:induction false} InsertBlocked(t: Record, p: Path, n: nat, v: Json)
    requires 0 < n < |p| && IsLeaf(t, p[..n])
    ensures Insert(t, p, v).None?
    decreases n
  {
    assert p[..n][1..] == p[1..][..n - 1];
    if n > 1 {
      assert Lookup(t.fields[p[0]], p[1..][..n - 1]).Some?;
      InsertBlocked(t.fields[p[0]], p[1..], n - 1, v);
    }
  }

  /** The inner loop: the gate is the dict at lv[..i]. */
  method AssignThroughGates(start: Record, lv: Path, value: Json) returns (r: Option<Record>)
    requires |lv| > 0
    ensures r == Insert(start, lv, value)
  {
    var tree := start;
    for i := 0 to |lv| - 1
      invariant Insert(tree, lv, value) == Insert(start, lv, value)
      invariant IsDict(tree, lv[..i])
    {
      HasParentIsDict(tree, lv[..i + 1]);
      assert lv[..i + 1][..i] == lv[..i];
      if Lookup(tree, lv[..i + 1]).None? {
        InsertAfterOpening(tree, lv, i + 1, value);
        tree := SetAt(tree, lv[..i + 1], EMPTY);
      } else if !Lookup(tree, lv[..i + 1]).value.Obj? {
        InsertBlocked(tree, lv, i + 1, value);
        return None;
      }
    }
    HasParentIsDict(tree, lv);
    InsertIsSetAt(tree, lv, value);
    return Some(SetAt(tree, lv, value));
  }

  method PartitionObject(data: seq<Change>) returns (r: Option<Record>)
    ensures r == Partition(data)
  {
    r := Some(EMPTY);
    for n := 0 to |data|
      invariant r.Some? && Partition(data[..n]) == r
    {
      assert data[..n + 1][..n] == data[..n];
      r := AssignThroughGates(r.value, data[n].Path(), data[n].value);
      if r.None? {
        PartitionFailsEarly(data, n + 1);
        return;
      }
    }
    assert data[..|data|] == data;
  }

  lemma {:induction false} PartitionFailsEarly(d: seq<Change>, n: nat)
    requires n <= |d| && Partition(d[..n]).None?
    ensures Partition(d).None?
    decreases |d|
  {
    if n == |d| {
      assert d[..n] == d;
    } else {
      assert d[..|d| - 1][..n] == d[..n];
      PartitionFailsEarly(d[..|d| - 1], n);
    }
  }

  // ---------- the reference meaning of a delta ----------

  /** Assign v at path p, creating or replacing what is in the way; None removes and creates nothing. */
  function Put(t: Record, p: Path, v: Json): Record
    requires |p| > 0
    decreases |p|
  {
    var k := p[0];
    if |p| == 1 then Obj(if v.Null? then t.fields - {k} else t.fields[k := v])
    else if v.Null? && !(k in t.fields && t.fields[k].Obj?) then t
    else Obj(t.fields[k := Put(Branch(t, k), p[1..], v)])
  }

  /** One field after one change. */
  lemma FieldAfterPut(t: Record, p: Path, v: Json, j: string)
    requires |p| > 0
    ensures Field(Put(t, p, v), j) ==
            if j != p[0] then Field(t, j)
            else if |p| == 1 then (if v.Null? then None else Some(v))
            else if v.Null? && !(j in t.fields && t.fields[j].Obj?) then Field(t, j)
            else Some(Put(Branch(t, j), p[1..], v))
  {
  }

  function PutAll(t: Record, d: seq<Change>): Record
  {
    if d == [] then t
    else Put(PutAll(t, d[..|d| - 1]), d[|d| - 1].Path(), d[|d| - 1].value)
  }

  /** Values a client may send under one key: anything but a dict. */
  predicate Flat(d: seq<Change>) { forall c :: c in d ==> !c.value.Obj? }

  predicate NoNull(d: seq<Change>) { forall c :: c in d ==> !c.value.Null? }

  /** Removals whose parent the record does not have. */
  predicate RemovalsHaveParents(m: Record, d: seq<Change>)
  {
    forall c :: c in d && c.value.Null? ==> HasParent(m, c.Path())
  }

  /** Assign v at path p, None like any other value. */
  function Place(t: Record, p: Path, v: Json): Record
    requires |p| > 0
    decreases |p|
  {
    Obj(t.fields[p[0] := if |p| == 1 then v else Place(Branch(t, p[0]), p[1..], v)])
  }

  /** One change of a record that was m before the whole delta. */
  function Make(m: Record, t: Record, p: Path, v: Json): Record
    requires |p| > 0
  {
    if v.Null? && HasParent(m, p) then Put(t, p, v)
    else Place(t, p, if v.Obj? && IsDict(m, p) then DeepUpdate(Lookup(m, p).value, v) else v)
  }

  function MakeAll(m: Record, d: seq<Change>): Record
  {
    if d == [] then m
    else Make(m, MakeAll(m, d[..|d| - 1]), d[|d| - 1].Path(), d[|d| - 1].value)
  }

  /** The branch written by the walk. */
  lemma {:induction false} InsertIsPlace(u: Record, p: Path, v: Json)
    requires |p| > 0 && Insert(u, p, v).Some?
    ensures Insert(u, p, v).value == Place(u, p, v)
    decreases |p|
  {
    if |p| > 1 { InsertIsPlace(Branch(u, p[0]), p[1..], v); }
  }

  lemma {:induction false} PutIsPlace(t: Record, p: Path, v: Json)
    requires |p| > 0 && !v.Null?
    ensures Put(t, p, v) == Place(t, p, v)
    decreases |p|
  {
    if |p| > 1 { PutIsPlace(Branch(t, p[0]), p[1..], v); }
  }

  /** One field after one change. */
  lemma FieldAfterMake(m: Record, t: Record, p: Path, v: Json, j: string)
    requires |p| > 0
    ensures Field(Make(m, t, p, v), j) ==
            if j != p[0] then Field(t, j)
            else if |p| == 1 then
              if v.Null? then None
              else if v.Obj? && j in m.fields && m.fields[j].Obj? then Some(DeepUpdate(m.fields[j], v))
              else Some(v)
            else if j in m.fields && m.fields[j].Obj? && (v.Null? ==> j in t.fields && t.fields[j].Obj?) then
              Some(Make(m.fields[j], Branch(t, j), p[1..], v))
            else if v.Null? && HasParent(m, p) then Field(t, j)
            else Some(Place(Branch(t, j), p[1..], v))
  {
    hide DeepUpdate;
    FieldAfterPut(t, p, v, j);
    LookupStep(m, p);
  }

  lemma LookupStep(m: Record, p: Path)
    requires |p| > 0
    ensures Lookup(m, p) == if p[0] in m.fields then Lookup(m.fields[p[0]], p[1..]) else None
  {
  }

  lemma EmptyUpdate(m: Record)
    ensures DeepUpdate(m, EMPTY) == m
  {
    assert DeepUpdate(m, EMPTY).fields == m.fields;
  }

  /** Merging one more walk is one more change. */
  lemma {:induction false} DeepUpdateInsert(m: Record, u: Record, p: Path, v: Json)
    requires |p| > 0 && Insert(u, p, v).Some?
    ensures DeepUpdate(m, Insert(u, p, v).value) == Make(m, DeepUpdate(m, u), p, v)
    decreases |p|
  {
    hide DeepUpdate, Make, Insert, Place;
    var k := p[0];
    var u' := Insert(u, p, v).value;
    var before, left := DeepUpdate(m, u), DeepUpdate(m, u');
    var right := Make(m, before, p, v);
    forall j ensures Field(left, j) == Field(right, j) {
      FieldAfterMake(m, before, p, v, j);
      FieldAfterUpdate(m, u, j);
      FieldAfterUpdate(m, u', j);
      FieldAfterInsert(u, p, v, j);
      if j == k && |p| > 1 {
        var gate := Branch(u, k);
        if k in m.fields && m.fields[k].Obj? {
          DeepUpdateInsert(m.fields[k], gate, p[1..], v);
          EmptyUpdate(m.fields[k]);
        } else {
          InsertIsPlace(gate, p[1..], v);
        }
      }
    }
    SameFields(left, right);
  }

  /** One field after a merge. */
  lemma FieldAfterUpdate(m: Record, u: Record, j: string)
    ensures Field(DeepUpdate(m, u), j) ==
            if j !in u.fields then Field(m, j)
            else if u.fields[j].Null? then None
            else if j in m.fields && m.fields[j].Obj? && u.fields[j].Obj?
              then Some(DeepUpdate(m.fields[j], u.fields[j]))
            else Some(u.fields[j])
  {
  }

  /** One field after a walk through the gates. */
  lemma FieldAfterInsert(u: Record, p: Path, v: Json, j: string)
    requires |p| > 0 && Insert(u, p, v).Some?
    ensures |p| > 1 ==> Insert(Branch(u, p[0]), p[1..], v).Some? && (p[0] in u.fields ==> u.fields[p[0]].Obj?)
    ensures Field(Insert(u, p, v).value, j) ==
            if j != p[0] then Field(u, j)
            else if |p| == 1 then Some(v)
            else Some(Insert(Branch(u, p[0]), p[1..], v).value)
  {
  }

  /** The merge of a partitioned delta is the delta's changes, one after the other. */
  lemma {:induction false} DeepUpdateIsMakeAll(m: Record, d: seq<Change>)
    requires Partition(d).Some?
    ensures DeepUpdate(m, Partition(d).value) == MakeAll(m, d)
    ensures Flat(d) && RemovalsHaveParents(m, d) ==> MakeAll(m, d) == PutAll(m, d)
    decreases |d|
  {
    if Flat(d) && RemovalsHaveParents(m, d) { MakeAllIsPutAll(m, d); }
    if d == [] {
      EmptyUpdate(m);
    } else {
      var last := d[|d| - 1];
      DeepUpdateIsMakeAll(m, d[..|d| - 1]);
      DeepUpdateInsert(m, Partition(d[..|d| - 1]).value, last.Path(), last.value);
    }
  }

  lemma {:induction false} MakeAllIsPutAll(m: Record, d: seq<Change>)
    requires Flat(d) && RemovalsHaveParents(m, d)
    ensures MakeAll(m, d) == PutAll(m, d)
    decreases |d|
  {
    if d != [] {
      var last := d[|d| - 1];
      assert last in d;
      if !last.value.Null? { PutIsPlace(PutAll(m, d[..|d| - 1]), last.Path(), last.value); }
      MakeAllIsPutAll(m, d[..|d| - 1]);
    }
  }

  // ---------- the two write modes of a store ----------

  /** Nested mode: `deep_update(existing, partition_object(delta))`; None when it raises. */
  function NestedMerge(m: Record, d: seq<Change>): Option<Record>
  {
    if Partition(d).Some? then Some(DeepUpdate(m, Partition(d).value)) else None
  }

  /** Flat mode: `{**existing, **delta}`; keys are literal and None is a value. */
  function FlatMerge(m: Record, d: seq<Change>): Record
  {
    if d == [] then m
    else Obj(FlatMerge(m, d[..|d| - 1]).fields[d[|d| - 1].key := d[|d| - 1].value])
  }

  /** A flat merge leaves a field no change names. */
  lemma {:induction false} FlatMergeElsewhere(m: Record, d: seq<Change>, k: string)
    requires forall c :: c in d ==> c.key != k
    ensures Field(FlatMerge(m, d), k) == Field(m, k)
    decreases |d|
  {
    hide FlatMerge, Field;
    NoChange(m);
    if d != [] {
      var before, last := d[..|d| - 1], d[|d| - 1];
      assert d == before + [last] && last in d;
      FlatMergeElsewhere(m, before, k);
      OneMoreChange(m, before, last, k);
    }
  }

  /** And gives any other the value of the last change that names it. */
  lemma {:induction false} FlatMergeLast(m: Record, d: seq<Change>, i: nat)
    requires i < |d| && forall j :: i < j < |d| ==> d[j].key != d[i].key
    ensures Field(FlatMerge(m, d), d[i].key) == Some(d[i].value)
    decreases |d|
  {
    hide FlatMerge, Field;
    var before, last := d[..|d| - 1], d[|d| - 1];
    assert d == before + [last];
    OneMoreChange(m, before, last, d[i].key);
    if i < |d| - 1 { FlatMergeLast(m, before, i); }
  }

  lemma NoChange(m: Record)
    ensures FlatMerge(m, []) == m
  {
  }

  lemma OneMoreChange(m: Record, d: seq<Change>, x: Change, k: string)
    ensures Field(FlatMerge(m, d + [x]), k) == if x.key == k then Some(x.value) else Field(FlatMerge(m, d), k)
  {
    assert (d + [x])[..|d|] == d;
  }

  /** The dict a delta stands for. */
  function Dict(delta: seq<Change>): map<string, Json> { FlatMerge(EMPTY, delta).fields }

  lemma {:induction false} FlatMergeIsOverride(m: Record, delta: seq<Change>)
    ensures FlatMerge(m, delta) == Obj(m.fields + Dict(delta))
    decreases |delta|
  {
    if delta == [] {
      assert m.fields + map[] == m.fields;
    } else {
      var before, last := delta[..|delta| - 1], delta[|delta| - 1];
      FlatMergeIsOverride(m, before);
      assert m.fields + Dict(before)[last.key := last.value] == (m.fields + Dict(before))[last.key := last.value];
    }
  }

  function Merge(nested: bool, m: Record, d: seq<Change>): Option<Record>
  {
    if nested then NestedMerge(m, d) else Some(FlatMerge(m, d))
  }

  // ---------- the id that read adds ----------

  /** No key is _id or begins with "_id.". */
  predicate KeepsId(d: seq<Change>) { forall c :: c in d ==> c.Path()[0] != "_id" }

  lemma {:induction false} PartitionKeepsId(d: seq<Change>)
    requires KeepsId(d) && Partition(d).Some?
    ensures "_id" !in Partition(d).value.fields
    decreases |d|
  {
    if d != [] {
      var c := d[|d| - 1];
      assert c in d;
      PartitionKeepsId(d[..|d| - 1]);
      FieldAfterInsert(Partition(d[..|d| - 1]).value, c.Path(), c.value, "_id");
    }
  }

  /** Merging into a record as read is merging into the stored one. */
  lemma MergeOfRead(id: string, rec: Record, d: seq<Change>)
    requires KeepsId(d)
    ensures NestedMerge(rec, d).None? ==> NestedMerge(WithId(id, rec), d).None?
    ensures NestedMerge(rec, d).Some? ==>
              NestedMerge(WithId(id, rec), d) == Some(WithId(id, NestedMerge(rec, d).value))
  {
    hide DeepUpdate;
    if Partition(d).Some? {
      var u := Partition(d).value;
      PartitionKeepsId(d);
      var left, right := DeepUpdate(WithId(id, rec), u), WithId(id, DeepUpdate(rec, u));
      forall k ensures Field(left, k) == Field(right, k) {
        FieldAfterUpdate(WithId(id, rec), u, k);
        FieldAfterUpdate(rec, u, k);
      }
      SameFields(left, right);
    }
  }

  // ---------- when partition_object succeeds ----------

  /** A walk along p would be stopped by a non-dict of u. */
  ghost predicate Blocked(u: Json, p: Path) { exists q :: ProperPrefix(q, p) && IsLeaf(u, q) }

  lemma {:induction false} InsertFailsIffBlocked(u: Record, p: Path, v: Json)
    requires |p| > 0
    ensures Insert(u, p, v).None? <==> Blocked(u, p)
    decreases |p|
  {
    if |p| > 1 {
      var gate := Branch(u, p[0]);
      InsertFailsIffBlocked(gate, p[1..], v);
      if Blocked(u, p) {
        var q :| ProperPrefix(q, p) && IsLeaf(u, q);
        assert p[..|q|] == q;
        InsertBlocked(u, p, |q|, v);
      }
      if Insert(u, p, v).None? {
        if p[0] in u.fields && !u.fields[p[0]].Obj? {
          assert ProperPrefix([p[0]], p) && IsLeaf(u, [p[0]]);
        } else {
          var q :| ProperPrefix(q, p[1..]) && IsLeaf(gate, q);
          assert ([p[0]] + q)[1..] == q;
          assert ProperPrefix([p[0]] + q, p) && IsLeaf(u, [p[0]] + q);
        }
      }
    }
  }

  /** Leaves after one walk: the new one, and the old ones it does not cover. */
  lemma {:induction false} LeavesAfterInsert(u: Record, p: Path, v: Json, q: Path)
    requires |p| > 0 && !v.Obj? && Insert(u, p, v).Some?
    ensures IsLeaf(Insert(u, p, v).value, q) <==> q == p || (IsLeaf(u, q) && !Comparable(p, q))
    decreases |p|
  {
    var u' := Insert(u, p, v).value;
    if |p| == 1 {
      if q != [] && q[0] == p[0] {
        assert q[..1] == p;
        assert Lookup(u', q) == Lookup(v, q[1..]);
      }
    } else {
      var gate := Branch(u, p[0]);
      if q != [] && q[0] == p[0] {
        LeavesAfterInsert(gate, p[1..], v, q[1..]);
        assert p == [p[0]] + p[1..] && q == [q[0]] + q[1..];
        assert Comparable(p, q) <==> Comparable(p[1..], q[1..]);
      }
    }
  }

  function Paths(d: seq<Change>): set<Path> { set c | c in d :: c.Path() }

  lemma PathsStep(d: seq<Change>)
    requires d != []
    ensures Paths(d) == Paths(d[..|d| - 1]) + {d[|d| - 1].Path()}
  {
    assert d == d[..|d| - 1] + [d[|d| - 1]];
  }

  /** No key names a proper ancestor of a later key. */
  predicate NoShadowing(d: seq<Change>)
  {
    forall i, j :: 0 <= i < j < |d| ==> !ProperPrefix(d[i].Path(), d[j].Path())
  }

  lemma NoShadowingStep(d: seq<Change>)
    requires d != []
    ensures NoShadowing(d) <==>
              NoShadowing(d[..|d| - 1]) && !Shadowed(d[|d| - 1].Path(), Paths(d[..|d| - 1]))
  {
    hide ProperPrefix;
    var d', p := d[..|d| - 1], d[|d| - 1].Path();
    if NoShadowing(d) {
      forall w | w in Paths(d') ensures !ProperPrefix(w, p) {
        var c :| c in d' && c.Path() == w;
        var i :| 0 <= i < |d'| && d'[i] == c;
        assert d[i] == c;
      }
      forall i, j | 0 <= i < j < |d'| ensures !ProperPrefix(d'[i].Path(), d'[j].Path()) {
        assert d'[i] == d[i] && d'[j] == d[j];
      }
    }
    if NoShadowing(d') && !Shadowed(p, Paths(d')) {
      forall i, j | 0 <= i < j < |d| ensures !ProperPrefix(d[i].Path(), d[j].Path()) {
        assert d'[i] == d[i] && d'[i].Path() in Paths(d');
        if j < |d'| { assert d'[j] == d[j]; }
      }
    }
  }

  predicate Shadowed(p: Path, keys: set<Path>) { exists w :: w in keys && ProperPrefix(w, p) }

  predicate LeafAtOrAbove(u: Json, w: Path) { exists n :: 0 < n <= |w| && IsLeaf(u, w[..n]) }

  /** After a successful partition every leaf is a key and every key has a leaf at or above it. */
  ghost predicate LeavesAreKeys(u: Json, keys: set<Path>)
  {
    && (forall q :: IsLeaf(u, q) ==> q in keys)
    && (forall w :: w in keys ==> LeafAtOrAbove(u, w))
  }

  lemma LeavesAreKeysStep(u: Record, keys: set<Path>, p: Path, v: Json)
    requires |p| > 0 && !v.Obj? && Insert(u, p, v).Some?
    requires LeavesAreKeys(u, keys)
    ensures LeavesAreKeys(Insert(u, p, v).value, keys + {p})
  {
    var u' := Insert(u, p, v).value;
    forall q ensures IsLeaf(u', q) <==> q == p || (IsLeaf(u, q) && !Comparable(p, q)) {
      LeavesAfterInsert(u, p, v, q);
    }
    InsertFailsIffBlocked(u, p, v);
    forall w | w in keys + {p} ensures LeafAtOrAbove(u', w) {
      if w == p {
        assert w[..|w|] == p;
      } else {
        LeafSurvives(u, u', p, w);
      }
    }
  }

  lemma LeafSurvives(u: Json, u': Json, p: Path, w: Path)
    requires forall q :: IsLeaf(u', q) <==> q == p || (IsLeaf(u, q) && !Comparable(p, q))
    requires |p| > 0 && !Blocked(u, p) && LeafAtOrAbove(u, w)
    ensures LeafAtOrAbove(u', w)
  {
    var n :| 0 < n <= |w| && IsLeaf(u, w[..n]);
    if p <= w[..n] {
      assert IsLeaf(u', w[..|p|]) by { assert w[..|p|] == p; }
    } else {
      assert n < |p| ==> !IsLeaf(u, p[..n]);
      assert IsLeaf(u', w[..n]);
    }
  }

  lemma {:induction false} PartitionLeaves(d: seq<Change>)
    requires Flat(d) && Partition(d).Some?
    ensures LeavesAreKeys(Partition(d).value, Paths(d))
    decreases |d|
  {
    if d != [] {
      PartitionLeaves(d[..|d| - 1]);
      PathsStep(d);
      LeavesAreKeysStep(Partition(d[..|d| - 1]).value, Paths(d[..|d| - 1]), d[|d| - 1].Path(), d[|d| - 1].value);
    }
  }

  /** partition_object raises exactly when a key is written below an earlier key. */
  lemma {:induction false} PartitionSucceeds(d: seq<Change>)
    requires Flat(d)
    ensures Partition(d).Some? <==> NoShadowing(d)
    decreases |d|
  {
    if d != [] {
      var d', p := d[..|d| - 1], d[|d| - 1].Path();
      PartitionSucceeds(d');
      NoShadowingStep(d);
      if Partition(d').Some? {
        PartitionLeaves(d');
        BlockedByKey(Partition(d').value, Paths(d'), p);
        InsertFailsIffBlocked(Partition(d').value, p, d[|d| - 1].value);
      }
    }
  }

  lemma BlockedByKey(u: Json, keys: set<Path>, p: Path)
    requires LeavesAreKeys(u, keys)
    requires forall w :: w in keys ==> w != []
    ensures Blocked(u, p) <==> Shadowed(p, keys)
  {
    if Blocked(u, p) {
      var q :| ProperPrefix(q, p) && IsLeaf(u, q);
      assert q in keys;
    }
    if w :| w in keys && ProperPrefix(w, p) {
      var n :| 0 < n <= |w| && IsLeaf(u, w[..n]);
      assert ProperPrefix(w[..n], p);
    }
  }
}
