/**
  Record tracking in the TypeScript SDK: createSnapshot and calculateDelta.

  The delta is nested: a change inside an object stays inside an object.  In
  JavaScript an array is an object whose keys are its indices, with a length of its
  own, and `in` also finds the inherited methods.  `undefined` is None.  The theorem
  PatchRoundTrip says exactly when the server's deep_update of the old record by the
  delta is the new one.
 */
module TypeScriptPatch {
  import opened Json
  import opened Delta
  import Decimal

  /** `typeof v === 'object' && v !== null`. */
  predicate IsObject(v: Json) { v.Obj? || v.Arr? }

  function Entries(v: Json): (m: map<string, Json>)
    requires IsObject(v)
    ensures forall k :: k in m ==> m[k] < v
  {
    if v.Obj? then v.fields
    else
      assert forall i: nat :: Decimal.Parse(Decimal.Print(i)) == Some(i) by {
        forall i: nat ensures Decimal.Parse(Decimal.Print(i)) == Some(i) { Decimal.ParsePrint(i); }
      }
      var indices := set i: nat | i < |v.items| :: Decimal.Print(i);
      map k | k in indices :: v.items[Decimal.Parse(k).value]
  }

  // ---------- `in` and property reads ----------

  /** What reading a property gives; a function is always an inherited method here. */
  datatype Property = Missing | Function | Own(value: Json)

  /** Object.prototype, ECMAScript 2023. */
  predicate ObjectMethod(key: string)
  {
    key in {"constructor", "hasOwnProperty", "isPrototypeOf", "propertyIsEnumerable", "toLocaleString", "toString",
            "valueOf", "__defineGetter__", "__defineSetter__", "__lookupGetter__", "__lookupSetter__"}
  }

  /** Array.prototype, ECMAScript 2023. */
  predicate ArrayMethod(key: string)
  {
    key in {"at", "concat", "copyWithin", "entries", "every", "fill", "filter", "find", "findIndex", "findLast",
            "findLastIndex", "flat", "flatMap", "forEach", "includes", "indexOf", "join", "keys", "lastIndexOf", "map",
            "pop", "push", "reduce", "reduceRight", "reverse", "shift", "slice", "some", "sort", "splice",
            "toReversed", "toSorted", "toSpliced", "unshift", "values", "with"}
  }

  /** `v[key]`, for every key but PROTO; `key in v` is false exactly when it is Missing. */
  function Lookup(v: Json, key: string): Property
    requires IsObject(v)
  {
    if key in Entries(v) then Own(Entries(v)[key])
    else if v.Arr? && key == "length" then Own(Num(|v.items| * One()))
    else if ObjectMethod(key) || (v.Arr? && ArrayMethod(key)) then Function
    else Missing
  }

  /** Assigning to this key sets the prototype of the delta and adds nothing to its own keys. */
  const PROTO: string := "__proto__"

  // ---------- calculateDelta ----------

  /** Object.keys of both. */
  function AllKeys(old_: Json, new_: Json): set<string>
    requires IsObject(old_) && IsObject(new_)
  {
    Entries(old_).Keys + Entries(new_).Keys
  }

  /** The loop body for one key: what the delta gets, Missing if nothing. */
  function ChildDelta(old_: Json, new_: Json, key: string): Property
    requires IsObject(old_) && IsObject(new_)
    decreases old_, 0
  {
    if key !in AllKeys(old_, new_) || key == PROTO then Missing
    else
      var vOld, vNew := Lookup(old_, key), Lookup(new_, key);
      if vNew.Missing? then Own(Null)
      else if vOld.Missing? then vNew
      else if vOld.Own? && vNew.Own? && IsObject(vOld.value) && IsObject(vNew.value) then
        var below := Diff(vOld.value, vNew.value);
        if below.Some? then Own(below.value) else Missing
      else if vOld != vNew then vNew
      else Missing
  }

  /** The delta object; a Function in it is left out when it is written as JSON. */
  function DeltaObject(old_: Json, new_: Json): map<string, Property>
    requires IsObject(old_) && IsObject(new_)
    decreases old_, 1
  {
    map key | key in AllKeys(old_, new_) && ChildDelta(old_, new_, key) != Missing :: ChildDelta(old_, new_, key)
  }

  function Written(delta: map<string, Property>): Json
  {
    Obj(map key | key in delta && delta[key].Own? :: delta[key].value)
  }

  /** calculateDelta on two distinct objects, as JSON; None is undefined. */
  function Diff(old_: Json, new_: Json): (d: Option<Json>)
    requires IsObject(old_) && IsObject(new_)
    ensures d.Some? ==> d.value.Obj?
    decreases old_, 2
  {
    var delta := DeltaObject(old_, new_);
    if delta == map[] then None else Some(Written(delta))
  }

  method CalculateDelta(oldVal: Json, newVal: Json) returns (d: Option<Json>)
    requires IsObject(oldVal) && IsObject(newVal)
    ensures d == Diff(oldVal, newVal)
    decreases oldVal
  {
    hide ObjectMethod, ArrayMethod, Entries;
    var delta: map<string, Property> := map[];
    var allKeys := AllKeys(oldVal, newVal);
    var todo := allKeys;
    while todo != {}
      invariant todo <= allKeys
      invariant forall k :: k in delta <==> k in allKeys - todo && ChildDelta(oldVal, newVal, k) != Missing
      invariant forall k :: k in delta ==> delta[k] == ChildDelta(oldVal, newVal, k)
      decreases todo
    {
      var key :| key in todo;
      if key != PROTO {
        var vOld, vNew := Lookup(oldVal, key), Lookup(newVal, key);
        if vNew.Missing? {
          delta := delta[key := Own(Null)];
        } else if vOld.Missing? {
          delta := delta[key := vNew];
        } else if vOld.Own? && vNew.Own? && IsObject(vOld.value) && IsObject(vNew.value) {
          Below(oldVal, key);
          var below := CalculateDelta(vOld.value, vNew.value);
          if below.Some? {
            delta := delta[key := Own(below.value)];
          }
        } else if vOld != vNew {
          delta := delta[key := vNew];
        }
      }
      todo := todo - {key};
    }
    assert delta == DeltaObject(oldVal, newVal);
    d := if delta == map[] then None else Some(Written(delta));
  }

  lemma Below(v: Json, key: string)
    requires IsObject(v) && Lookup(v, key).Own? && IsObject(Lookup(v, key).value)
    ensures Lookup(v, key).value < v
  {
    hide ObjectMethod, ArrayMethod;
  }

  // ---------- one merge ----------

  /** The record after merging the delta; undefined sends nothing. */
  function Apply(m: Record, d: Option<Json>): Record
    requires d.Some? ==> d.value.Obj?
  {
    if d.Some? then DeepUpdate(m, d.value) else m
  }

  /** Deleting this key from an object is never sent. */
  predicate Undeletable(k: string) { k == PROTO || ObjectMethod(k) }

  /** Nothing of old_ survives in new_, so that the delta between them is new_ itself. */
  predicate SharesNothing(old_: Json, new_: Json)
    requires IsObject(old_) && IsObject(new_)
    decreases old_, 1
  {
    && new_.Obj? && (forall k :: k in AllKeys(old_, new_) ==> SharesNoField(old_, new_, k))
    && (new_.fields == map[] ==> exists k :: k in Entries(old_) && ObjectMethod(k))
  }

  predicate SharesNoField(old_: Json, new_: Record, k: string)
    requires IsObject(old_)
    decreases old_, 0
  {
    if k !in new_.fields then Undeletable(k)
    else
      && k != PROTO
      && (Lookup(old_, k).Own? ==>
            var vOld, vNew := Lookup(old_, k).value, new_.fields[k];
            if IsObject(vOld) && IsObject(vNew) then SharesNothing(vOld, vNew) else vOld != vNew)
  }

  /**
    Field k cannot be brought across: it is deleted and has the name of an inherited
    one, it is PROTO, a null is written, an array stands where something else stood, or
    an array gives way to an object that keeps part of it.
   */
  predicate Unsendable(old_: Record, new_: Record, k: string)
    decreases old_, 0
  {
    if k !in old_.fields then k in new_.fields && (k == PROTO || new_.fields[k].Null?)
    else if k !in new_.fields then Undeletable(k)
    else
      var vOld, vNew := old_.fields[k], new_.fields[k];
      || (k == PROTO && vOld != vNew)
      || (vNew.Null? && !vOld.Null?)
      || (vNew.Arr? && IsObject(vOld) && vOld != vNew)
      || (k != PROTO && vOld.Arr? && vNew.Obj? && !SharesNothing(vOld, vNew))
      || (k != PROTO && vOld.Obj? && vNew.Obj? && Unpatchable(vOld, vNew))
  }

  predicate Unpatchable(old_: Record, new_: Record)
    decreases old_, 1
  {
    exists k :: k in AllKeys(old_, new_) && Unsendable(old_, new_, k)
  }

  lemma {:induction false} DiffOfEqual(v: Json)
    requires IsObject(v)
    ensures Diff(v, v) == None
    decreases v
  {
    hide ObjectMethod, ArrayMethod;
    forall key | key in Entries(v) ensures ChildDelta(v, v, key).Missing? {
      if IsObject(Entries(v)[key]) { DiffOfEqual(Entries(v)[key]); }
    }
  }

  /** A field as the JSON of the delta has it. */
  function Kept(p: Property): Option<Json> { if p.Own? then Some(p.value) else None }

  lemma DiffField(old_: Json, new_: Json, k: string)
    requires IsObject(old_) && IsObject(new_)
    ensures Diff(old_, new_).Some? ==> Field(Diff(old_, new_).value, k) == Kept(ChildDelta(old_, new_, k))
    ensures Diff(old_, new_).None? ==> ChildDelta(old_, new_, k).Missing?
  {
    hide Lookup, Entries;
    var delta := DeltaObject(old_, new_);
    if !ChildDelta(old_, new_, k).Missing? {
      assert k in delta;
    }
  }

  /** The delta is the new object itself exactly when nothing is shared. */
  lemma {:induction false} DiffOfDisjoint(old_: Json, new_: Json)
    requires IsObject(old_) && IsObject(new_)
    ensures Diff(old_, new_) == Some(new_) <==> SharesNothing(old_, new_)
    decreases old_, 1
  {
    hide Diff, ChildDelta, SharesNoField, ObjectMethod, Entries;
    if new_.Obj? {
      forall k
        ensures Kept(ChildDelta(old_, new_, k)) == Field(new_, k) <==>
                (k in AllKeys(old_, new_) ==> SharesNoField(old_, new_, k))
      {
        DisjointField(old_, new_, k);
      }
      DiffIsNewByField(old_, new_);
    }
  }

  lemma {:induction false} DisjointField(old_: Json, new_: Record, k: string)
    requires IsObject(old_)
    ensures Kept(ChildDelta(old_, new_, k)) == Field(new_, k) <==>
            (k in AllKeys(old_, new_) ==> SharesNoField(old_, new_, k))
    decreases old_, 0
  {
    hide ObjectMethod, ArrayMethod, Diff, SharesNothing;
    if k in new_.fields && Lookup(old_, k).Own? && IsObject(Lookup(old_, k).value) && IsObject(new_.fields[k]) {
      Below(old_, k);
      DiffOfDisjoint(Lookup(old_, k).value, new_.fields[k]);
    }
  }

  lemma DiffIsNewByField(old_: Json, new_: Record)
    requires IsObject(old_)
    ensures Diff(old_, new_) == Some(new_) <==>
            && (forall k :: Kept(ChildDelta(old_, new_, k)) == Field(new_, k))
            && (new_.fields == map[] ==> exists k :: k in Entries(old_) && ObjectMethod(k))
  {
    hide Diff, ChildDelta, Entries, ObjectMethod;
    forall k
      ensures Diff(old_, new_).Some? ==> Field(Diff(old_, new_).value, k) == Kept(ChildDelta(old_, new_, k))
      ensures Diff(old_, new_).None? ==> ChildDelta(old_, new_, k).Missing?
      ensures new_.fields == map[] && Kept(ChildDelta(old_, new_, k)) == Field(new_, k) ==>
                (!ChildDelta(old_, new_, k).Missing? <==> k in Entries(old_) && ObjectMethod(k))
    {
      DiffField(old_, new_, k);
      if k !in new_.fields { DeletedField(old_, new_, k); }
    }
    SomethingChanged(old_, new_);
    if Diff(old_, new_).Some? && forall k :: Kept(ChildDelta(old_, new_, k)) == Field(new_, k) {
      SameFields(Diff(old_, new_).value, new_);
    }
    if new_.fields != map[] {
      var k :| k in new_.fields;
      assert Field(new_, k).Some?;
    }
  }

  lemma SomethingChanged(old_: Json, new_: Json)
    requires IsObject(old_) && IsObject(new_)
    ensures Diff(old_, new_).Some? ==> exists k :: !ChildDelta(old_, new_, k).Missing?
  {
    hide ChildDelta, Entries;
    if Diff(old_, new_).Some? {
      var k :| k in DeltaObject(old_, new_);
      assert !ChildDelta(old_, new_, k).Missing?;
    }
  }

  /** A deleted key is sent as null, or gets an inherited function that JSON leaves out, or is PROTO. */
  lemma DeletedField(old_: Json, new_: Record, k: string)
    requires IsObject(old_) && k !in new_.fields
    ensures ChildDelta(old_, new_, k) == if k !in Entries(old_) || k == PROTO then Missing
                                         else if ObjectMethod(k) then Function else Own(Null)
    ensures ObjectMethod(k) ==> k != PROTO
  {
    hide ArrayMethod;
  }

  /** One field of the merged record. */
  lemma {:induction false} ApplyField(old_: Record, new_: Record, k: string)
    ensures Field(Apply(old_, Diff(old_, new_)), k) == Field(new_, k) <==> !Unsendable(old_, new_, k)
    ensures Unsendable(old_, new_, k) ==> k in AllKeys(old_, new_)
    decreases old_, 0
  {
    hide ObjectMethod, ArrayMethod, SharesNothing, Diff;
    DiffField(old_, new_, k);
    if k !in new_.fields {
      DeletedField(old_, new_, k);
    } else if k in old_.fields {
      var vOld, vNew := old_.fields[k], new_.fields[k];
      if vOld.Obj? && vNew.Obj? {
        ApplyDiff(vOld, vNew);
      } else if vOld == vNew && vOld.Arr? {
        DiffOfEqual(vOld);
      } else if vOld.Arr? && vNew.Obj? {
        DiffOfDisjoint(vOld, vNew);
      }
    }
  }

  /** Merging the delta gives the new record exactly when nothing in it is unsendable. */
  lemma {:induction false} ApplyDiff(old_: Record, new_: Record)
    ensures Apply(old_, Diff(old_, new_)) == new_ <==> !Unpatchable(old_, new_)
    decreases old_, 1
  {
    hide Diff, Unsendable;
    var r := Apply(old_, Diff(old_, new_));
    forall k
      ensures Field(r, k) == Field(new_, k) <==> !Unsendable(old_, new_, k)
      ensures Unsendable(old_, new_, k) ==> k in AllKeys(old_, new_)
    {
      ApplyField(old_, new_, k);
    }
    if !Unpatchable(old_, new_) {
      SameFields(r, new_);
    } else {
      var k :| k in AllKeys(old_, new_) && Unsendable(old_, new_, k);
      assert Field(r, k) != Field(new_, k);
    }
  }

  // ---------- the whole round trip ----------

  /** The delta as the server receives it: its fields in some order. */
  ghost predicate Lists(d: seq<Change>, delta: Record)
  {
    && (forall i, j :: 0 <= i < j < |d| ==> d[i].key != d[j].key)
    && (forall c :: c in d ==> Field(delta, c.key) == Some(c.value))
    && (forall k :: k in delta.fields ==> Change(k, delta.fields[k]) in d)
  }

  /** A top-level key with a dot, on which the two records differ. */
  ghost predicate DottedChange(old_: Record, new_: Record)
  {
    exists k :: '.' in k && Field(old_, k) != Field(new_, k)
  }

  /** Keys without dots make partition_object the identity. */
  lemma {:induction false} PartitionIsIdentity(d: seq<Change>, delta: Record)
    requires forall i, j :: 0 <= i < j < |d| ==> d[i].key != d[j].key
    requires forall c :: c in d ==> '.' !in c.key && Field(delta, c.key) == Some(c.value)
    ensures Partition(d).Some?
    ensures forall k :: k in Partition(d).value.fields <==> exists c :: c in d && c.key == k
    ensures forall k :: k in Partition(d).value.fields ==> Field(delta, k) == Some(Partition(d).value.fields[k])
    decreases |d|
  {
    if d != [] {
      var d', c := d[..|d| - 1], d[|d| - 1];
      assert d == d' + [c];
      PartitionIsIdentity(d', delta);
      assert c.Path() == [c.key];
    }
  }

  /** No field of a partitioned delta has a dot in its name. */
  lemma {:induction false} PartitionSplitsDots(d: seq<Change>)
    requires Partition(d).Some?
    ensures forall k :: k in Partition(d).value.fields ==> '.' !in k
    decreases |d|
  {
    if d != [] { PartitionSplitsDots(d[..|d| - 1]); }
  }

  /** A field is sent only when it differs. */
  lemma SentFieldsDiffer(old_: Record, new_: Record, k: string)
    requires ChildDelta(old_, new_, k).Own?
    ensures Field(old_, k) != Field(new_, k)
  {
    hide ObjectMethod, ArrayMethod, Diff;
    if k in old_.fields && k in new_.fields && old_.fields[k] == new_.fields[k] {
      if IsObject(old_.fields[k]) { DiffOfEqual(old_.fields[k]); }
    }
  }

  /** The snapshot has what the server has, and perhaps undotted keys that the server has lost. */
  ghost predicate Keeps(snapshot: Record, server: Record)
  {
    forall k :: Field(snapshot, k) == Field(server, k) || (k !in server.fields && '.' !in k)
  }

  /**
    A delta against the snapshot on its way through partition_object: besides being right,
    no top-level key with a dot may have changed.
   */
  lemma ThroughServer(snapshot: Record, server: Record, new_: Record, d: seq<Change>)
    requires Keeps(snapshot, server)
    requires if Diff(snapshot, new_).Some? then Lists(d, Diff(snapshot, new_).value) else d == []
    ensures NestedMerge(server, d) == Some(new_) <==>
            !DottedChange(server, new_) && Apply(server, Diff(snapshot, new_)) == new_
  {
    if DottedChange(server, new_) {
      var k :| '.' in k && Field(server, k) != Field(new_, k);
      if Partition(d).Some? {
        PartitionSplitsDots(d);
        assert Field(DeepUpdate(server, Partition(d).value), k) == Field(server, k);
      }
    } else if Diff(snapshot, new_).Some? {
      var delta: Record := Diff(snapshot, new_).value;
      forall c | c in d ensures '.' !in c.key {
        DiffField(snapshot, new_, c.key);
        SentFieldsDiffer(snapshot, new_, c.key);
      }
      PartitionIsIdentity(d, delta);
      forall k ensures Field(Partition(d).value, k) == Field(delta, k) {
        if k in delta.fields { assert Change(k, delta.fields[k]) in d; }
      }
      SameFields(Partition(d).value, delta);
    } else {
      EmptyUpdate(server);
    }
  }

  /**
    The round trip of the snapshot's patch: with the old record on the server,
    sending the delta (in any key order) gives exactly the new record if and only
    if no dotted top-level key changed and nothing unsendable was written.
   */
  lemma PatchRoundTrip(old_: Record, new_: Record, d: seq<Change>)
    requires if Diff(old_, new_).Some? then Lists(d, Diff(old_, new_).value) else d == []
    ensures NestedMerge(old_, d) == Some(new_) <==> !DottedChange(old_, new_) && !Unpatchable(old_, new_)
  {
    ApplyDiff(old_, new_);
    ThroughServer(old_, old_, new_, d);
  }

  // ---------- several patches of one snapshot ----------

  datatype Outcome = Sent(delta: Json) | Thrown

  /** The closure state of createSnapshot. */
  class Snapshot {
    var original: Record
    var current: Record

    constructor (initial: Record)
      ensures original == current == initial
    {
      original, current := initial, initial;
    }

    /**
      `patch()`.  With nothing to send, `Object.keys(undefined)` throws.  Otherwise
      Object.assign copies the current top-level fields over the snapshot's.
     */
    method Patch() returns (r: Outcome)
      modifies `original
      ensures r == if Diff(old(original), current).Some? then Sent(Diff(old(original), current).value) else Thrown
      ensures original ==
              if r.Sent? then Obj(old(original).fields + current.fields) else old(original)
    {
      var delta := CalculateDelta(original, current);
      if delta.None? {
        return Thrown;
      }
      original := Obj(original.fields + current.fields);
      return Sent(delta.value);
    }
  }

  /** Object.assign removes nothing: the new snapshot is the current state iff no top-level key was deleted. */
  lemma SnapshotCatchesUp(original: Record, current: Record)
    ensures Obj(original.fields + current.fields) == current <==> original.fields.Keys <= current.fields.Keys
  {
    var after := original.fields + current.fields;
    if original.fields.Keys <= current.fields.Keys {
      assert after == current.fields;
    } else {
      var k :| k in original.fields && k !in current.fields;
      assert k in after;
    }
  }

  /**
    The consequence: delete a key, patch, put the same value back, patch again.
    The second delta does not mention the key, so the server never gets it back.
   */
  lemma RestoredKeyIsNotSent(original: Record, current: Record, k: string, again: Record)
    requires k in original.fields && k !in current.fields
    requires Field(again, k) == Field(original, k)
    ensures !Undeletable(k) ==> ChildDelta(original, current, k) == Own(Null)
    ensures ChildDelta(Obj(original.fields + current.fields), again, k) == Missing
  {
    hide ArrayMethod;
    var v := original.fields[k];
    if IsObject(v) { DiffOfEqual(v); }
  }

  // ---------- what is lost ----------

  /** The name of an inherited method: the deletion is lost, although a delta is sent. */
  lemma DeletionNotSent()
    ensures var old_ := Obj(map["toString" := Num(One())]);
            Diff(old_, EMPTY) == Some(EMPTY) && Apply(old_, Diff(old_, EMPTY)) == old_
  {
    var old_ := Obj(map["toString" := Num(One())]);
    hide ArrayMethod, DeepUpdate;
    DeletedField(old_, EMPTY, "toString");
    DiffField(old_, EMPTY, "toString");
    forall k ensures Kept(ChildDelta(old_, EMPTY, k)) == None {
      if k != "toString" { DeletedField(old_, EMPTY, k); }
    }
    DiffIsNewByField(old_, EMPTY);
    EmptyUpdate(old_);
  }

  /** An empty array gives way to an object that says its length is 0: nothing is sent. */
  lemma LengthNotSent()
    ensures var old_, new_ := Obj(map["a" := Arr([])]), Obj(map["a" := Obj(map["length" := Num(0)])]);
            Diff(old_, new_) == None && Apply(old_, Diff(old_, new_)) != new_
  {
    hide ArrayMethod, ObjectMethod;
    var old_, new_ := Obj(map["a" := Arr([])]), Obj(map["a" := Obj(map["length" := Num(0)])]);
    var list, record := old_.fields["a"], new_.fields["a"];
    assert forall k :: k !in Entries(list);
    assert Lookup(list, "length") == Own(Num(0)) && Lookup(record, "length") == Own(Num(0));
    assert DeltaObject(list, record) == map[];
    assert Lookup(old_, "a") == Own(list) && Lookup(new_, "a") == Own(record);
    assert DeltaObject(old_, new_) == map[];
  }

  /** Lists inherit more: an object with a key called map that gives way to a list sends an empty delta. */
  lemma ListMethodNotSent(v: Json)
    ensures var old_ := Obj(map["map" := v]);
            Diff(old_, Arr([])) == Some(EMPTY) && Diff(old_, EMPTY) == Some(Obj(map["map" := Null]))
  {
    hide Diff, ArrayMethod, ObjectMethod;
    var old_, list := Obj(map["map" := v]), Arr([]);
    assert "map" in old_.fields;
    assert forall k :: k !in Entries(list);
    MapIsListMethod();
    DeletedField(old_, EMPTY, "map");
    DiffField(old_, list, "map");
    DiffField(old_, EMPTY, "map");
    forall k | k != "map"
      ensures ChildDelta(old_, list, k).Missing? && ChildDelta(old_, EMPTY, k).Missing?
    {
    }
    OneFieldDiff(old_, list, "map");
    OneFieldDiff(old_, EMPTY, "map");
  }

  lemma MapIsListMethod()
    ensures ArrayMethod("map") && !ObjectMethod("map") && "map" != PROTO && "map" != "length"
  {
  }

  /** A delta with one field at most. */
  lemma OneFieldDiff(old_: Json, new_: Json, key: string)
    requires IsObject(old_) && IsObject(new_) && !ChildDelta(old_, new_, key).Missing?
    requires forall k :: k != key ==> ChildDelta(old_, new_, k).Missing?
    ensures var p := ChildDelta(old_, new_, key);
            Diff(old_, new_) == Some(Obj(if p.Own? then map[key := p.value] else map[]))
  {
    hide Diff, ChildDelta;
    forall k
      ensures Diff(old_, new_).Some? ==> Field(Diff(old_, new_).value, k) == Kept(ChildDelta(old_, new_, k))
    {
      DiffField(old_, new_, k);
    }
    DiffField(old_, new_, key);
    var p := ChildDelta(old_, new_, key);
    SameFields(Diff(old_, new_).value, Obj(if p.Own? then map[key := p.value] else map[]));
  }

  /** A key with the name of the prototype is sent in no delta. */
  lemma PrototypeNotSent(v: Json)
    ensures var new_ := Obj(map[PROTO := v]); Diff(EMPTY, new_) == None && Apply(EMPTY, Diff(EMPTY, new_)) != new_
  {
    hide ArrayMethod, ObjectMethod;
    var new_ := Obj(map[PROTO := v]);
    assert DeltaObject(EMPTY, new_) == map[];
    assert new_.fields != EMPTY.fields by { assert PROTO in new_.fields; }
  }
}
