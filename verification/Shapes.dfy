/**
  What a merge leaves at every path.

  The shape of a record at a path is nothing, a dict, or a leaf with its value; a record
  is its shapes.  MergedShape gives the shape after writing any delta: the last key above,
  at or below a path decides, a None removes exactly what has a dict around it in the old
  record, and is kept as a value otherwise.
 */
module Shapes {
  import opened Json
  import opened Delta

  datatype Shape = Absent | Dict | Leaf(v: Json)

  function ShapeAt(t: Json, q: Path): Shape
  {
    if Lookup(t, q).None? then Absent else if Lookup(t, q).value.Obj? then Dict else Leaf(Lookup(t, q).value)
  }

  lemma ShapeBelow(t: Record, q: Path)
    ensures q == [] ==> ShapeAt(t, q) == Dict
    ensures q != [] ==> ShapeAt(t, q) == if q[0] in t.fields then ShapeAt(t.fields[q[0]], q[1..]) else Absent
  {
  }

  /** A record is known by its shapes. */
  lemma {:induction false} SameShapes(a: Record, b: Record)
    requires forall q :: ShapeAt(a, q) == ShapeAt(b, q)
    ensures a == b
    decreases a
  {
    forall k ensures Field(a, k) == Field(b, k) {
      ShapeBelow(a, [k]);
      ShapeBelow(b, [k]);
      assert ShapeAt(a, [k]) == ShapeAt(b, [k]);
      if k in a.fields && a.fields[k].Obj? {
        forall q ensures ShapeAt(a.fields[k], q) == ShapeAt(b.fields[k], q) {
          ShapeBelow(a, [k] + q);
          ShapeBelow(b, [k] + q);
          assert ShapeAt(a, [k] + q) == ShapeAt(b, [k] + q);
        }
        SameShapes(a.fields[k], b.fields[k]);
      }
    }
    SameFields(a, b);
  }

  // ---------- one merge ----------

  predicate ParentIsDict(m: Json, q: Path) { q != [] && HasParent(m, q) }

  lemma BlockedBelow(u: Record, q: Path)
    requires q != []
    ensures Blocked(u, q) <==> q[0] in u.fields && Blocked(u.fields[q[0]], q[1..])
  {
    var k, rest := q[0], q[1..];
    if Blocked(u, q) {
      var p :| ProperPrefix(p, q) && IsLeaf(u, p);
      assert ProperPrefix(p[1..], rest) && IsLeaf(u.fields[k], p[1..]);
    }
    if k in u.fields && Blocked(u.fields[k], rest) {
      var p :| ProperPrefix(p, rest) && IsLeaf(u.fields[k], p);
      assert ([k] + p)[1..] == p;
      assert ProperPrefix([k] + p, q) && IsLeaf(u, [k] + p);
    }
  }

  lemma BlockedByLeaf(v: Json, q: Path)
    requires !v.Obj? && q != []
    ensures Blocked(v, q) && ShapeAt(v, q) == Absent
  {
    assert ProperPrefix([], q) && IsLeaf(v, []);
  }

  /** A merge at one path. */
  lemma {:induction false} MergeShape(m: Record, u: Record, q: Path)
    ensures ShapeAt(DeepUpdate(m, u), q) ==
            match ShapeAt(u, q)
            case Leaf(v) => if v.Null? && ParentIsDict(m, q) then Absent else Leaf(v)
            case Dict => Dict
            case Absent => if Blocked(u, q) then Absent else ShapeAt(m, q)
    decreases |q|
  {
    hide DeepUpdate, ShapeAt, Blocked;
    ShapeBelow(DeepUpdate(m, u), q);
    ShapeBelow(m, q);
    ShapeBelow(u, q);
    if q != [] {
      var k, rest := q[0], q[1..];
      BlockedBelow(u, q);
      FieldAfterUpdate(m, u, k);
      if k in u.fields {
        if u.fields[k].Obj? {
          if k in m.fields && m.fields[k].Obj? {
            MergeShape(m.fields[k], u.fields[k], rest);
            ShapeBelow(u.fields[k], rest);
          } else {
            ShapeBelow(u.fields[k], rest);
            if k in m.fields && rest != [] {
              BlockedByLeaf(m.fields[k], rest);
              assert !HasParent(m.fields[k], rest) && !HasParent(m, q);
            }
          }
        } else if rest == [] {
          LeafHere(u.fields[k]);
        } else {
          BlockedByLeaf(u.fields[k], rest);
        }
      }
    }
  }

  lemma LeafHere(v: Json)
    requires !v.Obj?
    ensures ShapeAt(v, []) == Leaf(v)
  {
  }

  // ---------- a partitioned delta ----------

  /** One walk through the gates, at one path. */
  lemma {:induction false} InsertShape(u: Record, p: Path, v: Json, q: Path)
    requires |p| > 0 && Insert(u, p, v).Some?
    ensures ShapeAt(Insert(u, p, v).value, q) ==
            if p <= q then ShapeAt(v, q[|p|..]) else if q < p then Dict else ShapeAt(u, q)
    decreases |p|
  {
    hide Insert, ShapeAt;
    ShapeBelow(Insert(u, p, v).value, q);
    ShapeBelow(u, q);
    if q != [] {
      FieldAfterInsert(u, p, v, q[0]);
      if q[0] == p[0] {
        assert p == [p[0]] + p[1..] && q == [q[0]] + q[1..];
        if |p| > 1 {
          InsertShape(Branch(u, p[0]), p[1..], v, q[1..]);
          ShapeBelow(EMPTY, q[1..]);
          assert p <= q ==> q[1..][|p[1..]|..] == q[|p|..];
        }
      }
    }
  }

  /** What the keys of a delta put at q: the last key above, at or below q decides. */
  function Placed(d: seq<Change>, q: Path): Shape
  {
    if d == [] then (if q == [] then Dict else Absent)
    else
      var c := d[|d| - 1];
      if c.Path() <= q then ShapeAt(c.value, q[|c.Path()|..])
      else if q < c.Path() then Dict
      else Placed(d[..|d| - 1], q)
  }

  /** A walk along p would meet a value that is no dict. */
  ghost predicate Stopped(d: seq<Change>, p: Path) { exists q :: ProperPrefix(q, p) && Placed(d, q).Leaf? }

  /** The tree of a delta, at one path. */
  lemma {:induction false} PartitionShape(d: seq<Change>, q: Path)
    requires Partition(d).Some?
    ensures ShapeAt(Partition(d).value, q) == Placed(d, q)
    decreases |d|
  {
    hide Insert, ShapeAt;
    if d == [] {
      ShapeBelow(EMPTY, q);
    } else {
      var d', c := d[..|d| - 1], d[|d| - 1];
      PartitionShape(d', q);
      InsertShape(Partition(d').value, c.Path(), c.value, q);
    }
  }

  lemma BlockedIsStopped(d: seq<Change>, p: Path)
    requires Partition(d).Some?
    ensures Blocked(Partition(d).value, p) <==> Stopped(d, p)
  {
    forall q ensures IsLeaf(Partition(d).value, q) <==> Placed(d, q).Leaf? {
      PartitionShape(d, q);
    }
  }

  /** partition_object raises exactly when some key is stopped by the keys before it. */
  lemma {:induction false} PartitionRaises(d: seq<Change>)
    ensures Partition(d).None? <==> exists n :: 0 <= n < |d| && Stopped(d[..n], d[n].Path())
    ensures Flat(d) ==> (Partition(d).None? <==> !NoShadowing(d))
    decreases |d|
  {
    hide Stopped, NoShadowing;
    if Flat(d) { PartitionSucceeds(d); }
    if d != [] {
      var d', c := d[..|d| - 1], d[|d| - 1];
      PartitionRaises(d');
      assert forall n :: 0 <= n < |d'| ==> d'[..n] == d[..n] && d'[n] == d[n];
      if Partition(d').Some? {
        BlockedIsStopped(d', c.Path());
        InsertFailsIffBlocked(Partition(d').value, c.Path(), c.value);
        if Stopped(d', c.Path()) { assert Stopped(d[..|d'|], d[|d'|].Path()); }
      } else {
        var n :| 0 <= n < |d'| && Stopped(d'[..n], d'[n].Path());
        assert Stopped(d[..n], d[n].Path());
      }
    }
  }

  /** Every leaf of the tree is a leaf of the value of some key. */
  lemma {:induction false} LeafHasKey(d: seq<Change>, q: Path)
    requires Partition(d).Some? && ShapeAt(Partition(d).value, q).Leaf?
    ensures exists c :: c in d && c.Path() <= q && ShapeAt(c.value, q[|c.Path()|..]) == ShapeAt(Partition(d).value, q)
  {
    PartitionShape(d, q);
    PlacedByKey(d, q);
  }

  lemma {:induction false} PlacedByKey(d: seq<Change>, q: Path)
    requires Placed(d, q).Leaf?
    ensures exists c :: c in d && c.Path() <= q && ShapeAt(c.value, q[|c.Path()|..]) == Placed(d, q)
    decreases |d|
  {
    hide ShapeAt;
    var c := d[|d| - 1];
    if !(c.Path() <= q) {
      PlacedByKey(d[..|d| - 1], q);
      var x :| x in d[..|d| - 1] && x.Path() <= q && ShapeAt(x.value, q[|x.Path()|..]) == Placed(d[..|d| - 1], q);
      assert x in d;
    }
  }

  // ---------- a write ----------

  /** What a delta leaves at q in a record. */
  ghost function Merged(m: Record, d: seq<Change>, q: Path): Shape
  {
    match Placed(d, q)
    case Leaf(v) => if v.Null? && ParentIsDict(m, q) then Absent else Leaf(v)
    case Dict => Dict
    case Absent => if Stopped(d, q) then Absent else ShapeAt(m, q)
  }

  /** A merge at every path, from the keys and values of the delta and the old record alone. */
  lemma MergedShape(m: Record, d: seq<Change>, q: Path)
    requires Partition(d).Some?
    ensures ShapeAt(DeepUpdate(m, Partition(d).value), q) == Merged(m, d, q)
  {
    MergeShape(m, Partition(d).value, q);
    PartitionShape(d, q);
    BlockedIsStopped(d, q);
  }

  // ---------- deltas without dict values ----------

  /** A key of the delta with no key above it. */
  ghost predicate Topmost(d: seq<Change>, q: Path)
  {
    q in Paths(d) && forall p :: p in Paths(d) ==> !ProperPrefix(p, q)
  }

  /** Some key lies below q. */
  ghost predicate Opens(d: seq<Change>, q: Path) { exists p :: Topmost(d, p) && ProperPrefix(q, p) }

  /** Some key lies above q. */
  ghost predicate Covers(d: seq<Change>, q: Path) { exists p :: Topmost(d, p) && ProperPrefix(p, q) }

  /** The value of the key q names. */
  function ValueAt(d: seq<Change>, q: Path): Json
    requires q in Paths(d)
  {
    PathsStep(d);
    if d[|d| - 1].Path() == q then d[|d| - 1].value else ValueAt(d[..|d| - 1], q)
  }

  /** Each key has a topmost one at or above it. */
  lemma {:induction false} TopmostAbove(d: seq<Change>, p: Path) returns (t: Path)
    requires p in Paths(d)
    ensures Topmost(d, t) && t <= p
    decreases |p|
  {
    if Topmost(d, p) {
      t := p;
    } else {
      var r :| r in Paths(d) && ProperPrefix(r, p);
      t := TopmostAbove(d, r);
    }
  }

  /** Without dict values only keys with no key above them matter. */
  lemma {:induction false} FlatPlaced(d: seq<Change>, q: Path)
    requires Flat(d) && NoShadowing(d)
    ensures Placed(d, q) ==
            if Topmost(d, q) then Leaf(ValueAt(d, q)) else if Opens(d, q) || q == [] then Dict else Absent
    decreases |d|
  {
    if d != [] {
      var d', c := d[..|d| - 1], d[|d| - 1];
      assert d == d' + [c];
      NoShadowingStep(d);
      FlatPlaced(d', q);
      TopmostStep(d, q);
      ScalarShape(c.value, q, c.Path());
    }
  }

  lemma ScalarShape(v: Json, q: Path, p: Path)
    requires !v.Obj?
    ensures p <= q ==> ShapeAt(v, q[|p|..]) == if q == p then Leaf(v) else Absent
  {
  }

  /** The last key of a delta that can be partitioned is topmost, and hides what is below it. */
  lemma TopmostStep(d: seq<Change>, q: Path)
    requires d != [] && !Shadowed(d[|d| - 1].Path(), Paths(d[..|d| - 1]))
    ensures var d', p := d[..|d| - 1], d[|d| - 1].Path();
            && (Topmost(d, q) <==> q == p || (Topmost(d', q) && !(p < q)))
            && (!(p <= q) ==> (Opens(d, q) <==> q < p || Opens(d', q)))
            && (p < q ==> !Opens(d, q))
  {
    var d', p := d[..|d| - 1], d[|d| - 1].Path();
    PathsStep(d);
    assert Topmost(d, p);
    assert forall r :: Topmost(d, r) <==> r == p || (Topmost(d', r) && !ProperPrefix(p, r));
    if !(p <= q) {
      if Opens(d', q) && !(q < p) {
        var r :| Topmost(d', r) && ProperPrefix(q, r);
        assert !ProperPrefix(p, r);
        assert Topmost(d, r);
      }
    }
  }

  /** What a delta leaves at q. */
  ghost function After(m: Record, d: seq<Change>, q: Path): Shape
  {
    if Topmost(d, q) then
      if ValueAt(d, q).Null? && ParentIsDict(m, q) then Absent else Leaf(ValueAt(d, q))
    else if Opens(d, q) then Dict
    else if Covers(d, q) then Absent
    else ShapeAt(m, q)
  }

  lemma FlatMergedShape(m: Record, d: seq<Change>, q: Path)
    requires Flat(d) && Partition(d).Some?
    ensures ShapeAt(DeepUpdate(m, Partition(d).value), q) == After(m, d, q)
  {
    hide Placed, Topmost, Opens, NoShadowing, ValueAt;
    PartitionSucceeds(d);
    MergedShape(m, d, q);
    FlatPlaced(d, q);
    forall p ensures Placed(d, p).Leaf? <==> Topmost(d, p) {
      FlatPlaced(d, p);
    }
    assert Stopped(d, q) <==> Covers(d, q);
    ShapeBelow(m, []);
  }
}
