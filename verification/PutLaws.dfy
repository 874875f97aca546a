/**
  Laws of Put: what one change does to the leaves of a record, and when two
  changes commute.
 */
module PutLaws {
  import opened Json
  import opened Delta

  /** The value at a path, when it is a leaf. */
  function LeafAt(t: Json, q: Path): Option<Json>
  {
    if IsLeaf(t, q) then Lookup(t, q) else None
  }

  /** The leaves after one change. */
  function LeafAfter(before: Option<Json>, p: Path, v: Json, q: Path): Option<Json>
  {
    if p <= q then (if v.Null? then None else LeafAt(v, q[|p|..]))
    else if q <= p && !v.Null? then None
    else before
  }

  lemma {:induction false} LeavesAfterPut(t: Record, p: Path, v: Json, q: Path)
    requires |p| > 0
    ensures LeafAt(Put(t, p, v), q) == LeafAfter(LeafAt(t, q), p, v, q)
    decreases |p|
  {
    hide Put, LeafAt;
    if q == [] {
      LeafOfDict(t);
      LeafOfDict(Put(t, p, v));
    } else {
      var k := q[0];
      FieldAfterPut(t, p, v, k);
      LeafBelow(t, q);
      LeafBelow(Put(t, p, v), q);
      if k == p[0] {
        PrefixBelow(p, q);
        LeafOfScalar(v, q[1..]);
        if k in t.fields { LeafOfScalar(t.fields[k], q[1..]); }
        LeafOfEmpty(q[1..]);
        if |p| > 1 { LeavesAfterPut(Branch(t, k), p[1..], v, q[1..]); }
      }
    }
  }

  lemma PrefixBelow(p: Path, q: Path)
    requires p != [] && q != [] && p[0] == q[0]
    ensures (p <= q <==> p[1..] <= q[1..]) && (q <= p <==> q[1..] <= p[1..]) && (p == q <==> p[1..] == q[1..])
  {
    assert p == [p[0]] + p[1..] && q == [q[0]] + q[1..];
  }

  lemma LeafOfDict(t: Record)
    ensures LeafAt(t, []) == None
  {
  }

  lemma LeafBelow(t: Record, q: Path)
    requires q != []
    ensures LeafAt(t, q) == if q[0] in t.fields then LeafAt(t.fields[q[0]], q[1..]) else None
  {
  }

  lemma LeafOfScalar(v: Json, q: Path)
    ensures !v.Obj? ==> LeafAt(v, q) == if q == [] then Some(v) else None
  {
  }

  lemma LeafOfEmpty(q: Path)
    ensures LeafAt(EMPTY, q) == None
  {
  }

  lemma {:induction false} RemoveFromEmpty(p: Path)
    requires |p| > 0
    ensures Put(EMPTY, p, Null) == EMPTY
  {
  }

  /** Changes at incomparable paths commute. */
  lemma {:induction false} PutCommutes(t: Record, p: Path, v: Json, q: Path, w: Json)
    requires |p| > 0 && |q| > 0 && !Comparable(p, q)
    ensures Put(Put(t, p, v), q, w) == Put(Put(t, q, w), p, v)
    decreases |p|, 1
  {
    hide Put, Comparable, Field;
    var left, right := Put(Put(t, p, v), q, w), Put(Put(t, q, w), p, v);
    forall j ensures Field(left, j) == Field(right, j) {
      if j == p[0] == q[0] {
        ComparableBelow(p, q);
        PutCommutesBelow(t, p, v, q, w);
      } else {
        PutCommutesBeside(t, p, v, q, w, j);
      }
    }
    SameFields(left, right);
  }

  lemma ComparableBelow(p: Path, q: Path)
    requires p != [] && q != [] && p[0] == q[0]
    ensures Comparable(p, q) <==> Comparable(p[1..], q[1..])
    ensures |p| == 1 || |q| == 1 ==> Comparable(p, q)
  {
    assert p == [p[0]] + p[1..] && q == [q[0]] + q[1..];
  }

  lemma PutCommutesBeside(t: Record, p: Path, v: Json, q: Path, w: Json, j: string)
    requires |p| > 0 && |q| > 0 && !(j == p[0] == q[0])
    ensures Field(Put(Put(t, p, v), q, w), j) == Field(Put(Put(t, q, w), p, v), j)
  {
    hide Put;
    FieldAfterPut(t, p, v, j);
    FieldAfterPut(Put(t, p, v), q, w, j);
    FieldAfterPut(t, q, w, j);
    FieldAfterPut(Put(t, q, w), p, v, j);
  }

  lemma {:induction false} PutCommutesBelow(t: Record, p: Path, v: Json, q: Path, w: Json)
    requires |p| > 1 && |q| > 1 && p[0] == q[0] && !Comparable(p[1..], q[1..])
    ensures Field(Put(Put(t, p, v), q, w), p[0]) == Field(Put(Put(t, q, w), p, v), p[0])
    decreases |p|, 0
  {
    var gate := Branch(t, p[0]);
    PutCommutes(gate, p[1..], v, q[1..], w);
    RemoveFromEmpty(p[1..]);
    RemoveFromEmpty(q[1..]);
  }
}
