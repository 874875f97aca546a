/**
  Coalescing of deltas in the write queue, nested mode, with values of any kind.

  `dict.update` replaces a pending dict value whole, while two writes would merge both
  dicts into the record.  For deltas whose keys do not lie above one another, as the ones
  the TypeScript client sends, the theorem says exactly when that makes no difference.
 */
module DictDebounce {
  import opened Json
  import opened Delta
  import opened Shapes
  import opened Debounce

  // ---------- one value on another ----------

  /** What writing v leaves where x was, inside a dict. */
  function Onto(x: Option<Json>, v: Json): Option<Json>
  {
    if v.Null? then None
    else if v.Obj? && x.Some? && x.value.Obj? then Some(DeepUpdate(x.value, v))
    else Some(v)
  }

  /** v replaces x: v has every key of x and no None, down to where one of them is no dict. */
  predicate Replaces(x: Record, v: Record)
    decreases v
  {
    && x.fields.Keys <= v.fields.Keys
    && forall k :: k in v.fields ==>
         && !v.fields[k].Null?
         && (k in x.fields && x.fields[k].Obj? && v.fields[k].Obj? ==> Replaces(x.fields[k], v.fields[k]))
  }

  /** x has what v writes already. */
  predicate Changeless(x: Option<Json>, v: Json)
    decreases v
  {
    if v.Null? then x.None?
    else if !v.Obj? then x == Some(v)
    else x.Some? && x.value.Obj? && forall k :: k in v.fields ==> Changeless(Field(x.value, k), v.fields[k])
  }

  /** Writing b alone where x is does what writing a and then b does. */
  predicate Absorbed(x: Option<Json>, a: Json, b: Json)
    decreases b
  {
    if !b.Obj? then true
    else if x.None? || !x.value.Obj? then a.Obj? ==> Replaces(a, b)
    else if !a.Obj? then Replaces(x.value, b)
    else
      forall k :: k in a.fields ==>
        if k in b.fields then Absorbed(Field(x.value, k), a.fields[k], b.fields[k])
        else Changeless(Field(x.value, k), a.fields[k])
  }

  lemma OntoField(m: Record, u: Record, k: string)
    ensures Field(DeepUpdate(m, u), k) == if k in u.fields then Onto(Field(m, k), u.fields[k]) else Field(m, k)
  {
    FieldAfterUpdate(m, u, k);
  }

  lemma {:induction false} ReplacesIs(x: Record, v: Record)
    ensures Replaces(x, v) <==> DeepUpdate(x, v) == v
    decreases v
  {
    hide DeepUpdate;
    forall k
      ensures Field(DeepUpdate(x, v), k) == Field(v, k) <==>
              && (k in x.fields ==> k in v.fields) && (k in v.fields ==> !v.fields[k].Null?)
              && (k in v.fields && k in x.fields && x.fields[k].Obj? && v.fields[k].Obj? ==>
                    Replaces(x.fields[k], v.fields[k]))
    {
      OntoField(x, v, k);
      if k in v.fields && k in x.fields && x.fields[k].Obj? && v.fields[k].Obj? {
        ReplacesIs(x.fields[k], v.fields[k]);
      }
    }
    if forall k :: Field(DeepUpdate(x, v), k) == Field(v, k) { SameFields(DeepUpdate(x, v), v); }
  }

  lemma {:induction false} ChangelessIs(x: Option<Json>, v: Json)
    ensures Changeless(x, v) <==> Onto(x, v) == x
    decreases v
  {
    hide DeepUpdate;
    if v.Obj? && x.Some? && x.value.Obj? {
      forall k
        ensures Field(DeepUpdate(x.value, v), k) == Field(x.value, k) <==>
                (k in v.fields ==> Changeless(Field(x.value, k), v.fields[k]))
      {
        OntoField(x.value, v, k);
        if k in v.fields { ChangelessIs(Field(x.value, k), v.fields[k]); }
      }
      if forall k :: Field(DeepUpdate(x.value, v), k) == Field(x.value, k) {
        SameFields(DeepUpdate(x.value, v), x.value);
      }
    }
  }

  lemma {:induction false} AbsorbedIs(x: Option<Json>, a: Json, b: Json)
    ensures Absorbed(x, a, b) <==> Onto(x, b) == Onto(Onto(x, a), b)
    decreases b
  {
    hide DeepUpdate, Replaces, Changeless;
    if b.Obj? {
      if x.None? || !x.value.Obj? {
        if a.Obj? { ReplacesIs(a, b); }
      } else if !a.Obj? {
        ReplacesIs(x.value, b);
      } else {
        AbsorbedFields(x.value, a, b);
      }
    }
  }

  lemma {:induction false} AbsorbedFields(x: Record, a: Record, b: Record)
    ensures DeepUpdate(x, b) == DeepUpdate(DeepUpdate(x, a), b) <==>
            forall k :: k in a.fields ==>
              if k in b.fields then Absorbed(Field(x, k), a.fields[k], b.fields[k])
              else Changeless(Field(x, k), a.fields[k])
    decreases b, 0
  {
    hide DeepUpdate, Onto, Absorbed, Changeless;
    var once, twice := DeepUpdate(x, b), DeepUpdate(DeepUpdate(x, a), b);
    forall k
      ensures Field(once, k) == Field(twice, k) <==>
              (k in a.fields ==>
                 if k in b.fields then Absorbed(Field(x, k), a.fields[k], b.fields[k])
                 else Changeless(Field(x, k), a.fields[k]))
    {
      OntoField(x, b, k);
      OntoField(x, a, k);
      OntoField(DeepUpdate(x, a), b, k);
      if k in a.fields {
        if k in b.fields {
          AbsorbedIs(Field(x, k), a.fields[k], b.fields[k]);
        } else {
          ChangelessIs(Field(x, k), a.fields[k]);
        }
      }
    }
    if forall k :: Field(once, k) == Field(twice, k) { SameFields(once, twice); }
  }

  // ---------- one delta whose keys are apart ----------

  /** What writing v at p leaves there. */
  function Left(m: Json, p: Path, v: Json): Option<Json>
  {
    if v.Null? && !ParentIsDict(m, p) then Some(Null) else Onto(Lookup(m, p), v)
  }

  lemma {:induction false} MergeLookup(m: Record, u: Record, p: Path)
    requires p != [] && Lookup(u, p).Some?
    ensures Lookup(DeepUpdate(m, u), p) == Left(m, p, Lookup(u, p).value)
    decreases |p|
  {
    hide DeepUpdate;
    var k := p[0];
    OntoField(m, u, k);
    LookupStep(m, p);
    LookupStep(u, p);
    LookupStep(DeepUpdate(m, u), p);
    if |p| == 1 {
      assert p[1..] == [];
    } else {
      if k in m.fields && m.fields[k].Obj? {
        MergeLookup(m.fields[k], u.fields[k], p[1..]);
      } else {
        assert !HasParent(m, p);
        assert Lookup(m, p).None?;
      }
    }
  }

  lemma {:induction false} LookupAfterInsert(u: Record, p: Path, v: Json, q: Path)
    requires |p| > 0 && Insert(u, p, v).Some? && (q == p || !Comparable(p, q))
    ensures Lookup(Insert(u, p, v).value, q) == if q == p then Some(v) else Lookup(u, q)
    decreases |p|
  {
    hide Insert;
    if q != [] {
      FieldAfterInsert(u, p, v, q[0]);
      if q[0] == p[0] {
        assert p == [p[0]] + p[1..] && q == [q[0]] + q[1..];
        if |p| > 1 { LookupAfterInsert(Branch(u, p[0]), p[1..], v, q[1..]); }
      }
    }
  }

  /** The value of a key that no other key lies above or below. */
  lemma {:induction false} KeyInPartition(d: seq<Change>, p: Path)
    requires PrefixFree(d) && Partition(d).Some? && p in Paths(d)
    ensures Lookup(Partition(d).value, p) == Some(ValueAt(d, p))
    decreases |d|
  {
    var d', c := d[..|d| - 1], d[|d| - 1];
    PathsStep(d);
    PrefixFreeButLast(d);
    if c.Path() != p { KeyInPartition(d', p); }
    LookupAfterInsert(Partition(d').value, c.Path(), c.value, p);
  }

  lemma PrefixFreeButLast(d: seq<Change>)
    requires PrefixFree(d) && d != []
    ensures PrefixFree(d[..|d| - 1])
    ensures var d', q := d[..|d| - 1], d[|d| - 1].Path(); forall p :: p in Paths(d') ==> !Comparable(p, q)
  {
    var d' := d[..|d| - 1];
    forall i, j | 0 <= i < j < |d'| ensures !Comparable(d'[i].Path(), d'[j].Path()) {
      assert d'[i] == d[i] && d'[j] == d[j];
    }
    forall p | p in Paths(d') ensures !Comparable(p, d[|d| - 1].Path()) {
      var c :| c in d' && c.Path() == p;
      var i :| 0 <= i < |d'| && d'[i] == c;
      assert d[i] == c;
    }
  }

  lemma PrefixFreeWalks(d: seq<Change>)
    requires PrefixFree(d)
    ensures Partition(d).Some?
    decreases |d|
  {
    if d != [] {
      var d', c := d[..|d| - 1], d[|d| - 1];
      PrefixFreeButLast(d);
      PrefixFreeWalks(d');
      InsertFailsIffBlocked(Partition(d').value, c.Path(), c.value);
      BlockedIsStopped(d', c.Path());
      if Stopped(d', c.Path()) {
        var q :| ProperPrefix(q, c.Path()) && Placed(d', q).Leaf?;
        PlacedByKey(d', q);
        var x :| x in d' && x.Path() <= q;
        assert x.Path() in Paths(d') && Comparable(x.Path(), c.Path());
      }
    }
  }

  /** No key of the delta is at or above q. */
  predicate Outside(d: seq<Change>, q: Path) { forall p :: p in Paths(d) ==> !(p <= q) }

  predicate Above(d: seq<Change>, q: Path) { exists p :: p in Paths(d) && ProperPrefix(q, p) }

  lemma {:induction false} PlacedOutside(d: seq<Change>, q: Path)
    requires Outside(d, q)
    ensures Placed(d, q) == if Above(d, q) || q == [] then Dict else Absent
    decreases |d|
  {
    if d != [] {
      PathsStep(d);
      PlacedOutside(d[..|d| - 1], q);
    }
  }

  lemma ShapeOutside(m: Record, d: seq<Change>, q: Path)
    requires Partition(d).Some? && Outside(d, q)
    ensures ShapeAt(DeepUpdate(m, Partition(d).value), q) == if Above(d, q) then Dict else ShapeAt(m, q)
  {
    hide ShapeAt, Placed;
    MergedShape(m, d, q);
    PlacedOutside(d, q);
    ShapeBelow(m, []);
    if Stopped(d, q) {
      var r :| ProperPrefix(r, q) && Placed(d, r).Leaf?;
      PlacedOutside(d, r);
    }
  }

  /** A path no key is comparable with keeps what is there. */
  lemma LookupApart(m: Record, d: seq<Change>, p: Path)
    requires Partition(d).Some? && forall k :: k in Paths(d) ==> !Comparable(k, p)
    ensures Lookup(DeepUpdate(m, Partition(d).value), p) == Lookup(m, p)
  {
    hide DeepUpdate, Lookup;
    var r := DeepUpdate(m, Partition(d).value);
    forall s ensures ShapeAt(r, p + s) == ShapeAt(m, p + s) {
      ShapeOutside(m, d, p + s);
    }
    SameSubtree(r, m, p);
  }

  /** What is at and below p is known by the shapes there. */
  lemma SameSubtree(a: Json, b: Json, p: Path)
    requires forall s :: ShapeAt(a, p + s) == ShapeAt(b, p + s)
    ensures Lookup(a, p) == Lookup(b, p)
  {
    assert p + [] == p;
    assert ShapeAt(a, p + []) == ShapeAt(b, p + []);
    if IsDict(a, p) {
      forall s ensures ShapeAt(Lookup(a, p).value, s) == ShapeAt(Lookup(b, p).value, s) {
        LookupConcat(a, p, s);
        LookupConcat(b, p, s);
        assert ShapeAt(a, p + s) == ShapeAt(b, p + s);
      }
      SameShapes(Lookup(a, p).value, Lookup(b, p).value);
    }
  }

  // ---------- the theorem ----------

  /** No key of either delta lies above another key of either. */
  predicate Apart(d: seq<Change>, e: seq<Change>)
  {
    && PrefixFree(d) && PrefixFree(e)
    && forall x, y :: x in d && y in e && x.key != y.key ==> !Comparable(x.Path(), y.Path())
  }

  /** Every pending value that is overwritten is absorbed by the new one. */
  predicate AllAbsorbed(m: Record, d: seq<Change>, e: seq<Change>)
  {
    forall p :: p in Paths(d) && p in Paths(e) ==> Absorbed(Lookup(m, p), ValueAt(d, p), ValueAt(e, p))
  }

  lemma ApartPaths(d: seq<Change>, e: seq<Change>, p: Path, q: Path)
    requires Apart(d, e) && p in Paths(d) + Paths(e) && q in Paths(d) + Paths(e) && p != q
    ensures !Comparable(p, q)
  {
    var x :| x in d + e && x.Path() == p;
    var y :| y in d + e && y.Path() == q;
    PathIsKey(x, y);
    PrefixFreePair(d, x, y);
    PrefixFreePair(e, x, y);
  }

  lemma PrefixFreePair(d: seq<Change>, x: Change, y: Change)
    requires PrefixFree(d) && x.Path() != y.Path()
    ensures x in d && y in d ==> !Comparable(x.Path(), y.Path())
  {
    if x in d && y in d {
      var i :| 0 <= i < |d| && d[i] == x;
      var j :| 0 <= j < |d| && d[j] == y;
      assert !Comparable(d[if i < j then i else j].Path(), d[if i < j then j else i].Path());
    }
  }

  lemma PrefixFreeIsDistinct(d: seq<Change>)
    requires PrefixFree(d)
    ensures DistinctKeys(d)
  {
    forall i, j | 0 <= i < j < |d| ensures d[i].key != d[j].key {
      assert !Comparable(d[i].Path(), d[j].Path());
    }
  }

  lemma ApartParts(d: seq<Change>, e: seq<Change>)
    requires Apart(d, e)
    ensures PrefixFree(d) && PrefixFree(e)
  {
  }

  lemma CoalescedApart(d: seq<Change>, e: seq<Change>)
    requires Apart(d, e)
    ensures PrefixFree(Coalesce(d, e)) && DistinctKeys(d)
  {
    hide Coalesce, Apart, Comparable;
    ApartParts(d, e);
    PrefixFreeIsDistinct(d);
    CoalesceShape(d, e);
    CoalescedValue(d, e, []);
    var c := Coalesce(d, e);
    forall i, j | 0 <= i < j < |c| ensures !Comparable(c[i].Path(), c[j].Path()) {
      assert c[i].Path() in Paths(c) && c[j].Path() in Paths(c);
      PathIsKey(c[i], c[j]);
      ApartPaths(d, e, c[i].Path(), c[j].Path());
    }
  }

  /** A key of the coalesced delta is outside every delta that has no such key. */
  lemma KeyOutside(d: seq<Change>, e: seq<Change>, p: Path, k: Path)
    requires Apart(d, e) && p in Paths(d) + Paths(e) && k in Paths(d) + Paths(e)
    ensures k != p ==> !Comparable(k, p)
    ensures p != [] ==> !(k <= p[..|p| - 1])
  {
    hide Apart;
    if k != p { ApartPaths(d, e, k, p); }
    assert p != [] ==> (k <= p[..|p| - 1] ==> k <= p && |k| < |p|);
  }

  /** After the first delta the parent of a key is a dict if it was, or if the delta writes below it. */
  lemma ParentAfter(m: Record, d: seq<Change>, e: seq<Change>, p: Path)
    requires Apart(d, e) && Partition(d).Some? && p in Paths(d) + Paths(e) && p != []
    ensures ParentIsDict(DeepUpdate(m, Partition(d).value), p) <==> ParentIsDict(m, p) || Above(d, p[..|p| - 1])
  {
    hide Apart, DeepUpdate;
    var q := p[..|p| - 1];
    forall k | k in Paths(d) ensures !(k <= q) {
      KeyOutside(d, e, p, k);
    }
    ShapeOutside(m, d, q);
    ParentShape(m, p);
    ParentShape(DeepUpdate(m, Partition(d).value), p);
  }

  /** One key: both ways leave the same, unless the pending value is not absorbed or a fresh key is removed. */
  predicate Unlike(m: Record, d: seq<Change>, e: seq<Change>, p: Path)
  {
    p in Paths(e) &&
    ((p in Paths(d) && !Absorbed(Lookup(m, p), ValueAt(d, p), ValueAt(e, p)))
     || (p != [] && ValueAt(e, p).Null? && !ParentIsDict(m, p) && Above(d, p[..|p| - 1])))
  }

  lemma PathsNotEmpty(d: seq<Change>)
    ensures [] !in Paths(d)
  {
  }

  /** What the coalesced delta leaves at one of its keys. */
  lemma OnceAt(m: Record, d: seq<Change>, e: seq<Change>, p: Path)
    requires Apart(d, e) && Partition(Coalesce(d, e)).Some? && p in Paths(d) + Paths(e)
    ensures Lookup(DeepUpdate(m, Partition(Coalesce(d, e)).value), p) ==
            Left(m, p, if p in Paths(e) then ValueAt(e, p) else ValueAt(d, p))
  {
    hide DeepUpdate, Apart, Coalesce, Left, Lookup;
    CoalescedApart(d, e);
    CoalescedValue(d, e, p);
    PathsNotEmpty(Coalesce(d, e));
    KeyInPartition(Coalesce(d, e), p);
    MergeLookup(m, Partition(Coalesce(d, e)).value, p);
  }

  /** What a delta leaves at one key of the two: the value it writes, or what was there. */
  lemma EachAt(m: Record, d: seq<Change>, both: seq<Change>, other: seq<Change>, p: Path)
    requires Apart(both, other) && (d == both || d == other) && Partition(d).Some? && p in Paths(both) + Paths(other)
    ensures Lookup(DeepUpdate(m, Partition(d).value), p) ==
            if p in Paths(d) then Left(m, p, ValueAt(d, p)) else Lookup(m, p)
  {
    hide DeepUpdate, Apart, Left, Lookup;
    ApartParts(both, other);
    PathsNotEmpty(d);
    if p in Paths(d) {
      KeyInPartition(d, p);
      MergeLookup(m, Partition(d).value, p);
    } else {
      forall k | k in Paths(d) ensures !Comparable(k, p) {
        ApartPaths(both, other, k, p);
      }
      LookupApart(m, d, p);
    }
  }

  /** One key after both deltas, when the first has it. */
  lemma SharedAlike(m: Record, m': Record, p: Path, a: Json, b: Json)
    requires p != [] && Lookup(m', p) == Left(m, p, a) && ParentIsDict(m', p)
    ensures Left(m, p, b) == Left(m', p, b) <==> Absorbed(Lookup(m, p), a, b) && !(b.Null? && !ParentIsDict(m, p))
  {
    hide DeepUpdate, Absorbed, Lookup, ParentIsDict;
    AbsorbedIs(Lookup(m, p), a, b);
    if !ParentIsDict(m, p) { NoParentNothingThere(m, p); }
  }

  /** And when it has not. */
  lemma NewAlike(m: Record, m': Record, p: Path, b: Json)
    requires Lookup(m', p) == Lookup(m, p)
    ensures Left(m, p, b) == Left(m', p, b) <==> !(b.Null? && ParentIsDict(m', p) != ParentIsDict(m, p))
  {
    hide DeepUpdate, Lookup, ParentIsDict;
  }

  lemma KeyAlike(m: Record, d: seq<Change>, e: seq<Change>, p: Path)
    requires Apart(d, e) && Partition(d).Some? && Partition(e).Some? && Partition(Coalesce(d, e)).Some?
    requires p in Paths(d) + Paths(e) && p != []
    ensures var once := Lookup(DeepUpdate(m, Partition(Coalesce(d, e)).value), p);
            var twice := Lookup(DeepUpdate(DeepUpdate(m, Partition(d).value), Partition(e).value), p);
            once == twice <==> !Unlike(m, d, e, p)
  {
    hide DeepUpdate, Apart, Lookup, Coalesce, Absorbed, ParentIsDict, Left, Above, Paths;
    var m' := DeepUpdate(m, Partition(d).value);
    OnceAt(m, d, e, p);
    EachAt(m, d, d, e, p);
    EachAt(m', e, d, e, p);
    if p in Paths(e) {
      ParentAfter(m, d, e, p);
      if p in Paths(d) {
        AboveParent(d, p);
        SharedAlike(m, m', p, ValueAt(d, p), ValueAt(e, p));
      } else {
        NewAlike(m, m', p, ValueAt(e, p));
      }
    }
  }

  lemma AboveParent(d: seq<Change>, p: Path)
    requires p in Paths(d) && p != []
    ensures Above(d, p[..|p| - 1])
  {
    assert ProperPrefix(p[..|p| - 1], p);
  }

  lemma {:induction false} NoParentNothingThere(m: Json, p: Path)
    requires p != [] && !ParentIsDict(m, p)
    ensures Lookup(m, p).None?
    decreases |p|
  {
    if |p| > 1 && m.Obj? && p[0] in m.fields { NoParentNothingThere(m.fields[p[0]], p[1..]); }
  }

  /** Among keys that are apart every one is topmost. */
  lemma TopmostIsKey(d: seq<Change>, p: Path)
    requires PrefixFree(d)
    ensures Topmost(d, p) <==> p in Paths(d)
    ensures Opens(d, p) <==> Above(d, p)
  {
    forall q, r | q in Paths(d) && r in Paths(d) ensures !ProperPrefix(q, r) {
      var x :| x in d && x.Path() == q;
      var y :| y in d && y.Path() == r;
      if q != r { PrefixFreePair(d, x, y); }
    }
    if Above(d, p) {
      var q :| q in Paths(d) && ProperPrefix(p, q);
      assert Topmost(d, q);
    }
  }

  lemma UnlikeIs(m: Record, d: seq<Change>, e: seq<Change>)
    requires Apart(d, e)
    ensures (exists p :: Unlike(m, d, e, p)) <==> !AllAbsorbed(m, d, e) || RemovesFresh(m, d, e)
  {
    hide Apart, Absorbed, ParentIsDict, Lookup, Paths, Topmost, Opens, Above, ValueAt, PrefixFree;
    ApartParts(d, e);
    forall p: Path
      ensures Topmost(e, p) <==> p in Paths(e)
      ensures Opens(d, p) <==> Above(d, p)
    {
      TopmostIsKey(e, p);
      TopmostIsKey(d, p);
    }
    PathsNotEmpty(e);
    if RemovesFresh(m, d, e) {
      var p :| Topmost(e, p) && ValueAt(e, p).Null? && !ParentIsDict(m, p) && Opens(d, p[..|p| - 1]);
      assert Unlike(m, d, e, p);
    }
    if !AllAbsorbed(m, d, e) {
      var p :| p in Paths(d) && p in Paths(e) && !Absorbed(Lookup(m, p), ValueAt(d, p), ValueAt(e, p));
      assert Unlike(m, d, e, p);
    }
  }

  /** Outside the keys the two ways leave the same. */
  lemma SameOutside(m: Record, d: seq<Change>, e: seq<Change>, q: Path)
    requires Partition(d).Some? && Partition(e).Some? && Partition(Coalesce(d, e)).Some? && DistinctKeys(d)
    requires Outside(d, q) && Outside(e, q)
    ensures ShapeAt(DeepUpdate(m, Partition(Coalesce(d, e)).value), q) ==
            ShapeAt(DeepUpdate(DeepUpdate(m, Partition(d).value), Partition(e).value), q)
  {
    hide DeepUpdate, ShapeAt, Coalesce;
    CoalescedValue(d, e, q);
    ShapeOutside(m, Coalesce(d, e), q);
    ShapeOutside(m, d, q);
    ShapeOutside(DeepUpdate(m, Partition(d).value), e, q);
    assert Above(Coalesce(d, e), q) <==> Above(d, q) || Above(e, q);
  }

  lemma SameBelow(a: Record, b: Record, p: Path, q: Path)
    requires p <= q && Lookup(a, p) == Lookup(b, p)
    ensures ShapeAt(a, q) == ShapeAt(b, q)
  {
    LookupConcat(a, p, q[|p|..]);
    LookupConcat(b, p, q[|p|..]);
    assert p + q[|p|..] == q;
  }

  /**
    Two deltas whose keys are apart, with values of any kind.  Both can be written, and so
    can their coalesced form; it does what writing both in order does exactly when each
    pending value that is overwritten is absorbed, and no key is removed whose parent only
    the earlier delta makes.
   */
  lemma DictsInvisible(m: Record, d: seq<Change>, e: seq<Change>)
    requires Apart(d, e)
    ensures NestedMerge(m, d).Some? && NestedMerge(m, e).Some? && NestedMerge(m, Coalesce(d, e)).Some?
    ensures NestedMerge(m, Coalesce(d, e)) == NestedMerge(NestedMerge(m, d).value, e) <==>
            AllAbsorbed(m, d, e) && !RemovesFresh(m, d, e)
  {
    hide Apart, AllAbsorbed, RemovesFresh, Coalesce, DeepUpdate, Unlike, PrefixFree, DistinctKeys;
    ApartParts(d, e);
    CoalescedApart(d, e);
    PrefixFreeWalks(d);
    PrefixFreeWalks(e);
    PrefixFreeWalks(Coalesce(d, e));
    UnlikeIs(m, d, e);
    if p :| Unlike(m, d, e, p) {
      UnlikeIsKey(m, d, e, p);
      KeyAlike(m, d, e, p);
    } else {
      AllAlike(m, d, e);
    }
  }

  lemma UnlikeIsKey(m: Record, d: seq<Change>, e: seq<Change>, p: Path)
    requires Unlike(m, d, e, p)
    ensures p in Paths(d) + Paths(e) && p != []
  {
    PathsNotEmpty(e);
  }

  lemma AllAlike(m: Record, d: seq<Change>, e: seq<Change>)
    requires Apart(d, e) && DistinctKeys(d)
    requires Partition(d).Some? && Partition(e).Some? && Partition(Coalesce(d, e)).Some?
    requires forall p :: !Unlike(m, d, e, p)
    ensures DeepUpdate(m, Partition(Coalesce(d, e)).value) ==
            DeepUpdate(DeepUpdate(m, Partition(d).value), Partition(e).value)
  {
    hide Apart, Coalesce, DeepUpdate, Unlike, DistinctKeys, ShapeAt, Lookup;
    var once := DeepUpdate(m, Partition(Coalesce(d, e)).value);
    var twice := DeepUpdate(DeepUpdate(m, Partition(d).value), Partition(e).value);
    forall q ensures ShapeAt(once, q) == ShapeAt(twice, q) {
      if Outside(d, q) && Outside(e, q) {
        SameOutside(m, d, e, q);
      } else {
        var p :| (p in Paths(d) || p in Paths(e)) && p <= q;
        PathsNotEmpty(d);
        PathsNotEmpty(e);
        KeyAlike(m, d, e, p);
        SameBelow(once, twice, p, q);
      }
    }
    SameShapes(once, twice);
  }

  // ---------- keys without dots ----------

  predicate Undotted(d: seq<Change>) { forall c :: c in d ==> '.' !in c.key }

  /** Keys without dots are apart, and removing one never needs a parent. */
  lemma UndottedApart(m: Record, d: seq<Change>, e: seq<Change>)
    requires Undotted(d) && Undotted(e) && DistinctKeys(d) && DistinctKeys(e)
    ensures Apart(d, e) && !RemovesFresh(m, d, e)
    ensures forall c :: c in d || c in e ==> c.Path() == [c.key]
  {
    hide Topmost, Opens, ValueAt;
    forall c | c in d || c in e ensures c.Path() == [c.key] {
    }
    forall x, y | (x in d || x in e) && (y in d || y in e) && x.key != y.key ensures !Comparable(x.Path(), y.Path()) {
      assert x.Path()[0] != y.Path()[0];
    }
    assert PrefixFree(d) && PrefixFree(e);
    forall q | Topmost(e, q) ensures ParentIsDict(m, q) {
      TopmostInPaths(e, q);
      var c :| c in e && c.Path() == q;
    }
  }

  lemma TopmostInPaths(d: seq<Change>, q: Path)
    requires Topmost(d, q)
    ensures q in Paths(d)
  {
  }
}
