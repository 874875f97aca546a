/**
  Coalescing of deltas in the write queue, nested mode.

  WriteQueue.enqueue merges a new delta into the pending one with `dict.update`:
  a key already present keeps its position and takes the new value.  The theorem
  says exactly when writing the coalesced delta once is the same as writing the
  two deltas one after the other.
 */
module Debounce {
  import opened Json
  import opened Delta
  import opened Shapes
  import opened Text

  predicate HasKey(d: seq<Change>, key: string) { exists c :: c in d && c.key == key }

  function Position(d: seq<Change>, key: string): (i: nat)
    requires HasKey(d, key)
    ensures i < |d| && d[i].key == key
  {
    var n := |d| - 1;
    assert d == d[..n] + [d[n]];
    if d[n].key == key then n else Position(d[..n], key)
  }

  /** `d[key] = value` on an ordered dict. */
  function SetKey(d: seq<Change>, c: Change): seq<Change>
  {
    if HasKey(d, c.key) then d[Position(d, c.key) := c] else d + [c]
  }

  /** `pending.update(delta)`. */
  function Coalesce(d: seq<Change>, e: seq<Change>): seq<Change>
  {
    if e == [] then d else SetKey(Coalesce(d, e[..|e| - 1]), e[|e| - 1])
  }

  /** The paths of a delta do not contain one another; in particular its keys are distinct. */
  predicate PrefixFree(d: seq<Change>)
  {
    forall i, j :: 0 <= i < j < |d| ==> !Comparable(d[i].Path(), d[j].Path())
  }

  function Keys(d: seq<Change>): set<string> { set c | c in d :: c.key }

  predicate DistinctKeys(d: seq<Change>) { forall i, j :: 0 <= i < j < |d| ==> d[i].key != d[j].key }

  // ---------- the shape of a coalesced delta ----------

  lemma SetKeyShape(d: seq<Change>, c: Change)
    requires DistinctKeys(d)
    ensures DistinctKeys(SetKey(d, c))
    ensures Keys(SetKey(d, c)) == Keys(d) + {c.key}
  {
    var r := SetKey(d, c);
    if HasKey(d, c.key) {
      forall k ensures k in Keys(r) <==> k in Keys(d) {
        if x :| x in r && x.key == k { var i :| 0 <= i < |r| && r[i] == x; assert d[i].key == k && d[i] in d; }
        if x :| x in d && x.key == k { var i :| 0 <= i < |d| && d[i] == x; assert r[i].key == k && r[i] in r; }
      }
      assert d[Position(d, c.key)] in d;
    }
  }

  lemma KeysStep(d: seq<Change>)
    requires d != []
    ensures Keys(d) == Keys(d[..|d| - 1]) + {d[|d| - 1].key}
  {
    assert d == d[..|d| - 1] + [d[|d| - 1]];
  }

  lemma {:induction false} CoalesceShape(d: seq<Change>, e: seq<Change>)
    requires DistinctKeys(d)
    ensures DistinctKeys(Coalesce(d, e))
    ensures Keys(Coalesce(d, e)) == Keys(d) + Keys(e)
    decreases |e|
  {
    if e != [] {
      CoalesceShape(d, e[..|e| - 1]);
      KeysStep(e);
      SetKeyShape(Coalesce(d, e[..|e| - 1]), e[|e| - 1]);
    }
  }

  /** Where SetKey writes. */
  lemma SetKeyCases(d: seq<Change>, c: Change)
    ensures !HasKey(d, c.key) ==> SetKey(d, c) == d + [c]
    ensures HasKey(d, c.key) ==>
              d != [] && var d', x := d[..|d| - 1], d[|d| - 1];
              if x.key == c.key then SetKey(d, c) == d' + [c]
              else HasKey(d', c.key) && SetKey(d, c) == SetKey(d', c) + [x]
  {
    if d != [] {
      assert d == d[..|d| - 1] + [d[|d| - 1]];
    }
  }

  lemma {:induction false} CoalesceFlat(d: seq<Change>, e: seq<Change>)
    requires Flat(d) && Flat(e)
    ensures Flat(Coalesce(d, e))
    decreases |e|
  {
    if e != [] {
      assert e == e[..|e| - 1] + [e[|e| - 1]];
      CoalesceFlat(d, e[..|e| - 1]);
    }
  }

  /** Keys and paths name the same things. */
  lemma PathIsKey(x: Change, y: Change)
    ensures x.Path() == y.Path() <==> x.key == y.key
  {
    SplitInjective(x.key, y.key, '.');
  }

  lemma PathOfKey(d: seq<Change>, c: Change)
    ensures HasKey(d, c.key) <==> c.Path() in Paths(d)
  {
    forall x | x in d ensures x.Path() == c.Path() <==> x.key == c.key {
      PathIsKey(x, c);
    }
  }

  lemma ValueOfLast(d: seq<Change>, c: Change, q: Path)
    ensures Paths(d + [c]) == Paths(d) + {c.Path()}
    ensures q in Paths(d + [c]) ==> ValueAt(d + [c], q) == if q == c.Path() then c.value else ValueAt(d, q)
  {
    assert (d + [c])[..|d|] == d;
    PathsStep(d + [c]);
  }

  /** `d[key] = value` at every path. */
  lemma {:induction false} ValueAfterSetKey(d: seq<Change>, c: Change, q: Path)
    requires DistinctKeys(d)
    ensures Paths(SetKey(d, c)) == Paths(d) + {c.Path()}
    ensures q in Paths(SetKey(d, c)) ==>
              ValueAt(SetKey(d, c), q) == if q == c.Path() then c.value else ValueAt(d, q)
    decreases |d|
  {
    hide *;
    SetKeyCases(d, c);
    PathOfKey(d, c);
    ValueOfLast(d, c, q);
    if HasKey(d, c.key) {
      var d', x := d[..|d| - 1], d[|d| - 1];
      ButLast(d);
      PathIsKey(x, c);
      ValueOfLast(d', x, q);
      if x.key == c.key {
        PathOfKey(d', c);
        ValueOfLast(d', c, q);
      } else {
        ValueAfterSetKey(d', c, q);
        ValueOfLast(SetKey(d', c), x, q);
      }
    }
  }

  lemma ButLast(d: seq<Change>)
    requires d != [] && DistinctKeys(d)
    ensures d == d[..|d| - 1] + [d[|d| - 1]] && DistinctKeys(d[..|d| - 1])
    ensures !HasKey(d[..|d| - 1], d[|d| - 1].key)
  {
  }

  /** The coalesced delta has the keys of both, and the values of the later one where it has the key. */
  lemma {:induction false} CoalescedValue(d: seq<Change>, e: seq<Change>, q: Path)
    requires DistinctKeys(d)
    ensures Paths(Coalesce(d, e)) == Paths(d) + Paths(e)
    ensures q in Paths(Coalesce(d, e)) ==>
              ValueAt(Coalesce(d, e), q) == if q in Paths(e) then ValueAt(e, q) else ValueAt(d, q)
    decreases |e|
  {
    if e != [] {
      var e', c := e[..|e| - 1], e[|e| - 1];
      CoalescedValue(d, e', q);
      CoalesceShape(d, e');
      PathsStep(e);
      ValueAfterSetKey(Coalesce(d, e'), c, q);
    }
  }

  // ---------- when the coalesced delta can be partitioned ----------

  /** A key of the later delta that is not in the earlier one lies below a key of the earlier one. */
  ghost predicate WritesBelow(earlier: seq<Change>, later: seq<Change>)
  {
    exists p, q :: p in Paths(earlier) && q in Paths(later) && q !in Paths(earlier) && ProperPrefix(p, q)
  }

  lemma NoShadowingIgnoresValues(d: seq<Change>, c: Change)
    requires HasKey(d, c.key)
    ensures NoShadowing(SetKey(d, c)) <==> NoShadowing(d)
  {
    var r := SetKey(d, c);
    assert forall i :: 0 <= i < |d| ==> r[i].Path() == d[i].Path();
  }

  /** Coalescing two deltas that can be partitioned gives one that can, unless the later writes below the earlier. */
  lemma {:induction false} CoalesceShadowing(d: seq<Change>, e: seq<Change>)
    requires DistinctKeys(d) && NoShadowing(d) && NoShadowing(e)
    ensures NoShadowing(Coalesce(d, e)) <==> !WritesBelow(d, e)
    decreases |e|
  {
    if e != [] {
      var e', c := e[..|e| - 1], e[|e| - 1];
      var r := Coalesce(d, e');
      NoShadowingStep(e);
      CoalesceShadowing(d, e');
      PathsStep(e);
      CoalescedValue(d, e', []);
      PathOfKey(r, c);
      if HasKey(r, c.key) {
        NoShadowingIgnoresValues(r, c);
        assert WritesBelow(d, e) <==> WritesBelow(d, e');
      } else {
        assert (r + [c])[..|r|] == r;
        NoShadowingStep(r + [c]);
        assert Shadowed(c.Path(), Paths(r)) <==> Shadowed(c.Path(), Paths(d));
        assert WritesBelow(d, e) <==> WritesBelow(d, e') || Shadowed(c.Path(), Paths(d));
      }
    }
  }

  // ---------- when it does the same ----------

  /** A topmost key of the later delta lies below a topmost key of the earlier one, which has it too, overwritten. */
  ghost predicate Overridden(earlier: seq<Change>, later: seq<Change>)
  {
    exists p, q :: Topmost(earlier, p) && Topmost(later, q) && ProperPrefix(p, q)
  }

  /** The later delta removes a key whose parent is not in the record, but is made by the earlier delta. */
  ghost predicate RemovesFresh(m: Record, earlier: seq<Change>, later: seq<Change>)
  {
    exists q :: Topmost(later, q) && ValueAt(later, q).Null? && !ParentIsDict(m, q) && Opens(earlier, q[..|q| - 1])
  }

  /** A key is topmost unless another one covers it, and a covered path is shadowed. */
  lemma Relations(d: seq<Change>, q: Path)
    ensures Topmost(d, q) <==> q in Paths(d) && !Covers(d, q)
    ensures Shadowed(q, Paths(d)) <==> Covers(d, q)
    ensures !(Topmost(d, q) && Opens(d, q)) && !(Opens(d, q) && Covers(d, q))
  {
    if Shadowed(q, Paths(d)) {
      var p :| p in Paths(d) && ProperPrefix(p, q);
      var t := TopmostAbove(d, p);
      assert ProperPrefix(t, q);
    }
    if Opens(d, q) {
      var p :| Topmost(d, p) && ProperPrefix(q, p);
      assert forall t :: ProperPrefix(t, q) ==> ProperPrefix(t, p);
    }
  }

  lemma CoversBelow(d: seq<Change>, p: Path, q: Path)
    ensures Covers(d, p) && p <= q ==> Covers(d, q)
  {
    assert forall t :: ProperPrefix(t, p) && p <= q ==> ProperPrefix(t, q);
  }

  /** The topmost keys of a coalesced delta: those of the later one, and those of the earlier one it does not cover. */
  lemma TopmostOfCoalesced(d: seq<Change>, e: seq<Change>, q: Path)
    requires DistinctKeys(d)
    ensures Topmost(Coalesce(d, e), q) <==> (Topmost(e, q) && !Covers(d, q)) || (Topmost(d, q) && !Covers(e, q))
  {
    CoalescedValue(d, e, q);
    Relations(d, q);
    Relations(e, q);
  }

  lemma CoveredByCoalesced(d: seq<Change>, e: seq<Change>, q: Path)
    requires DistinctKeys(d) && !Overridden(d, e)
    ensures Covers(Coalesce(d, e), q) <==> Covers(d, q) || Covers(e, q)
  {
    hide Topmost, Coalesce;
    forall p
      ensures Topmost(Coalesce(d, e), p) <==> (Topmost(e, p) && !Covers(d, p)) || (Topmost(d, p) && !Covers(e, p))
    {
      TopmostOfCoalesced(d, e, p);
    }
    if Covers(e, q) {
      var p :| Topmost(e, p) && ProperPrefix(p, q);
      assert Topmost(Coalesce(d, e), p);
    } else if Covers(d, q) {
      var p :| Topmost(d, p) && ProperPrefix(p, q);
      CoversBelow(e, p, q);
    }
  }

  lemma OpenedByCoalesced(d: seq<Change>, e: seq<Change>, q: Path)
    requires DistinctKeys(d) && !Overridden(d, e)
    ensures Opens(Coalesce(d, e), q) <==> Opens(e, q) || (Opens(d, q) && !Topmost(e, q) && !Covers(e, q))
  {
    hide Topmost, Coalesce;
    forall p
      ensures Topmost(Coalesce(d, e), p) <==> (Topmost(e, p) && !Covers(d, p)) || (Topmost(d, p) && !Covers(e, p))
    {
      TopmostOfCoalesced(d, e, p);
    }
    if Opens(Coalesce(d, e), q) {
      var p :| Topmost(Coalesce(d, e), p) && ProperPrefix(q, p);
      CoversBelow(e, q, p);
    }
    if Opens(e, q) {
      var p :| Topmost(e, p) && ProperPrefix(q, p);
      assert Topmost(Coalesce(d, e), p);
    }
    if Opens(d, q) && !Topmost(e, q) && !Covers(e, q) {
      var p :| Topmost(d, p) && ProperPrefix(q, p);
      assert forall t :: ProperPrefix(t, p) ==> ProperPrefix(t, q) || t == q || ProperPrefix(q, t);
      assert Topmost(Coalesce(d, e), p) || Covers(e, p);
    }
  }

  lemma ParentShape(m: Json, q: Path)
    ensures ParentIsDict(m, q) <==> q != [] && ShapeAt(m, q[..|q| - 1]) == Dict
  {
    if q != [] { HasParentIsDict(m, q); }
  }

  /** A removal of the later delta finds a parent after the earlier one exactly when it did before. */
  lemma SameParent(m: Record, m': Record, d: seq<Change>, e: seq<Change>, q: Path)
    requires Topmost(e, q) && ValueAt(e, q).Null? && !Overridden(d, e)
    requires q != [] ==> ShapeAt(m', q[..|q| - 1]) == After(m, d, q[..|q| - 1])
    ensures RemovesFresh(m, d, e) || (ParentIsDict(m', q) <==> ParentIsDict(m, q))
    ensures !ParentIsDict(m, q) && q != [] && Opens(d, q[..|q| - 1]) ==> ParentIsDict(m', q)
  {
    ParentShape(m, q);
    ParentShape(m', q);
    if q != [] {
      var p := q[..|q| - 1];
      Relations(d, p);
      if Topmost(d, p) { assert ProperPrefix(p, q); }
      if Covers(d, p) {
        var t :| Topmost(d, t) && ProperPrefix(t, p);
        assert ProperPrefix(t, q);
      }
    }
  }

  /** Apart from that, the two ways leave the same shape everywhere. */
  lemma SameAt(m: Record, m': Record, d: seq<Change>, e: seq<Change>, q: Path)
    requires DistinctKeys(d) && !Overridden(d, e) && !RemovesFresh(m, d, e)
    requires forall p :: ShapeAt(m', p) == After(m, d, p)
    ensures After(m, Coalesce(d, e), q) == After(m', e, q)
  {
    if Topmost(e, q) && ValueAt(e, q).Null? { SameParent(m, m', d, e, q); }
    hide RemovesFresh, Coalesce, ParentIsDict, ShapeAt, ValueAt;
    CoalescedValue(d, e, q);
    Relations(d, q);
    Relations(e, q);
    TopmostOfCoalesced(d, e, q);
    CoveredByCoalesced(d, e, q);
    OpenedByCoalesced(d, e, q);
    NotOverridden(d, e, q);
    hide Topmost, Opens, Covers;
  }

  lemma NotOverridden(d: seq<Change>, e: seq<Change>, q: Path)
    ensures (Topmost(e, q) && Covers(d, q)) || (Topmost(d, q) && Opens(e, q)) || (Covers(d, q) && Opens(e, q)) ==>
              Overridden(d, e)
  {
    hide Topmost;
    if Covers(d, q) && Opens(e, q) {
      var p :| Topmost(d, p) && ProperPrefix(p, q);
      var t :| Topmost(e, t) && ProperPrefix(q, t);
      assert ProperPrefix(p, t);
    }
  }

  /** An overridden key is a dict after two writes, and not after one. */
  lemma OverriddenDiffers(m: Record, m': Record, d: seq<Change>, e: seq<Change>) returns (p: Path)
    requires DistinctKeys(d) && Overridden(d, e)
    ensures After(m, Coalesce(d, e), p) != After(m', e, p)
  {
    var q;
    p, q :| Topmost(d, p) && Topmost(e, q) && ProperPrefix(p, q);
    Relations(e, p);
    assert Opens(e, p);
    assert !Covers(e, p);
    TopmostOfCoalesced(d, e, p);
  }

  /** A removed fresh key is gone after two writes, and holds None after one. */
  lemma FreshDiffers(m: Record, m': Record, d: seq<Change>, e: seq<Change>) returns (q: Path)
    requires DistinctKeys(d) && RemovesFresh(m, d, e) && !Overridden(d, e)
    requires forall p :: ShapeAt(m', p) == After(m, d, p)
    ensures After(m, Coalesce(d, e), q) != After(m', e, q)
  {
    q :| Topmost(e, q) && ValueAt(e, q).Null? && !ParentIsDict(m, q) && Opens(d, q[..|q| - 1]);
    SameParent(m, m', d, e, q);
    CoalescedValue(d, e, q);
    NotOverridden(d, e, q);
    TopmostOfCoalesced(d, e, q);
  }

  // ---------- the theorem ----------

  /**
    Two deltas that can each be written.  Their coalesced form raises exactly when the later
    one has a new key below a key of the earlier one.  Otherwise it does what writing both
    in order does exactly when no topmost key of the later one lies below a topmost key of
    the earlier one, and it removes nothing whose parent only the earlier one makes.
   */
  lemma DebounceInvisible(m: Record, d: seq<Change>, e: seq<Change>)
    requires Flat(d) && Flat(e) && DistinctKeys(d) && DistinctKeys(e)
    requires NestedMerge(m, d).Some? && NestedMerge(m, e).Some?
    ensures NestedMerge(m, Coalesce(d, e)).None? <==> WritesBelow(d, e)
    ensures NestedMerge(m, Coalesce(d, e)) == NestedMerge(NestedMerge(m, d).value, e) <==>
            !WritesBelow(d, e) && !Overridden(d, e) && !RemovesFresh(m, d, e)
  {
    hide WritesBelow, Overridden, RemovesFresh, Coalesce, After;
    PartitionSucceeds(d);
    PartitionSucceeds(e);
    CoalesceFlat(d, e);
    PartitionSucceeds(Coalesce(d, e));
    CoalesceShadowing(d, e);
    if !WritesBelow(d, e) {
      CoalescedMerge(m, d, e);
    }
  }

  lemma CoalescedMerge(m: Record, d: seq<Change>, e: seq<Change>)
    requires Flat(d) && Flat(e) && Flat(Coalesce(d, e)) && DistinctKeys(d)
    requires NestedMerge(m, d).Some? && NestedMerge(m, e).Some? && NestedMerge(m, Coalesce(d, e)).Some?
    ensures NestedMerge(m, Coalesce(d, e)) == NestedMerge(NestedMerge(m, d).value, e) <==>
            !Overridden(d, e) && !RemovesFresh(m, d, e)
  {
    hide Overridden, RemovesFresh, Coalesce, After, ShapeAt;
    var m' := NestedMerge(m, d).value;
    var once, twice := NestedMerge(m, Coalesce(d, e)).value, NestedMerge(m', e).value;
    forall q
      ensures ShapeAt(m', q) == After(m, d, q)
      ensures ShapeAt(once, q) == After(m, Coalesce(d, e), q)
      ensures ShapeAt(twice, q) == After(m', e, q)
    {
      FlatMergedShape(m, d, q);
      FlatMergedShape(m, Coalesce(d, e), q);
      FlatMergedShape(m', e, q);
    }
    if Overridden(d, e) {
      var p := OverriddenDiffers(m, m', d, e);
      assert ShapeAt(once, p) != ShapeAt(twice, p);
    } else if RemovesFresh(m, d, e) {
      var q := FreshDiffers(m, m', d, e);
      assert ShapeAt(once, q) != ShapeAt(twice, q);
    } else {
      forall q ensures ShapeAt(once, q) == ShapeAt(twice, q) {
        SameAt(m, m', d, e, q);
      }
      SameShapes(once, twice);
    }
  }

  // ---------- one of each ----------

  /** A delta with one key. */
  lemma OneKey(c: Change)
    ensures Topmost([c], c.Path()) && ValueAt([c], c.Path()) == c.value
    ensures !c.value.Obj? ==> NestedMerge(EMPTY, [c]).Some?
  {
    assert c in [c] && c.Path() in Paths([c]);
    if !c.value.Obj? { PartitionSucceeds([c]); }
  }

  lemma TwoParts(s: string)
    requires |s| == 3 && s[1] == '.' && s[0] != '.' && s[2] != '.'
    ensures Split(s, '.') == [[s[0]], [s[2]]]
  {
    SplitConcat([s[0]], [s[2]], '.');
    assert [s[0]] + ['.'] + [s[2]] == s;
  }

  /** a := 1, then a.b := 2: fine as two writes, but not as one. */
  lemma CoalescedRaises()
    ensures var d, e := [Change("a", Num(1))], [Change("a.b", Num(2))];
            NestedMerge(EMPTY, d).Some? && NestedMerge(EMPTY, e).Some? && NestedMerge(EMPTY, Coalesce(d, e)).None?
  {
    hide Split, Coalesce;
    var d, e := [Change("a", Num(1))], [Change("a.b", Num(2))];
    OneKey(d[0]);
    OneKey(e[0]);
    TwoParts("a.b");
    assert d[0].Path() == ["a"] && ProperPrefix(["a"], e[0].Path());
    DebounceInvisible(EMPTY, d, e);
  }

  /** a.x := 1, then a.b := None: two writes leave no b, one leaves b as None. */
  lemma RemovalBecomesNone()
    ensures var d, e := [Change("a.x", Num(1))], [Change("a.b", Null)];
            && NestedMerge(EMPTY, d).Some? && NestedMerge(EMPTY, e).Some?
            && NestedMerge(EMPTY, Coalesce(d, e)) != NestedMerge(NestedMerge(EMPTY, d).value, e)
  {
    hide Split, Coalesce, Topmost, NestedMerge;
    var d, e := [Change("a.x", Num(1))], [Change("a.b", Null)];
    OneKey(d[0]);
    OneKey(e[0]);
    TwoParts("a.x");
    TwoParts("a.b");
    var p, q := d[0].Path(), e[0].Path();
    assert q[..1] == ["a"] && ProperPrefix(q[..1], p);
    assert RemovesFresh(EMPTY, d, e);
    DebounceInvisible(EMPTY, d, e);
  }

  /** a := {b: 1}, then a := {c: 2}: two writes keep both, one keeps c alone. */
  lemma DictValueIsLost()
    ensures var d, e := [Change("a", Obj(map["b" := Num(1)]))], [Change("a", Obj(map["c" := Num(2)]))];
            var both := Obj(map["a" := Obj(map["b" := Num(1), "c" := Num(2)])]);
            && NestedMerge(EMPTY, Coalesce(d, e)) == Some(Obj(map["a" := Obj(map["c" := Num(2)])]))
            && NestedMerge(NestedMerge(EMPTY, d).value, e) == Some(both)
  {
    var d, e := [Change("a", Obj(map["b" := Num(1)]))], [Change("a", Obj(map["c" := Num(2)]))];
    assert Coalesce(d, e) == e by { assert e[..0] == []; assert d[0 := e[0]] == e; }
    OneChange(EMPTY, d[0]);
    OneChange(EMPTY, e[0]);
    var m := Obj(map["a" := d[0].value]);
    OneChange(m, e[0]);
    assert DeepUpdate(d[0].value, e[0].value).fields == map["b" := Num(1), "c" := Num(2)];
    assert NestedMerge(EMPTY, d).value == m;
    var bc := Obj(map["b" := Num(1), "c" := Num(2)]);
    assert m.fields["a" := bc] == map["a" := bc];
  }

  /** One undotted key with a dict. */
  lemma OneChange(m: Record, c: Change)
    requires '.' !in c.key && c.value.Obj?
    ensures NestedMerge(m, [c]) ==
            Some(Obj(m.fields[c.key := if c.key in m.fields && m.fields[c.key].Obj?
                                       then DeepUpdate(m.fields[c.key], c.value) else c.value]))
  {
    assert [c][..0] == [];
    assert Partition([c]) == Some(Obj(map[c.key := c.value]));
    var r := DeepUpdate(m, Obj(map[c.key := c.value]));
    assert r.fields == m.fields[c.key := if c.key in m.fields && m.fields[c.key].Obj?
                                         then DeepUpdate(m.fields[c.key], c.value) else c.value];
  }
}
