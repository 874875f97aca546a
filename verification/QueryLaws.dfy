/**
  Laws between the answers of an engine without indexes, said of filters as they are
  written: what each operator answers, how operators relate, and what a dotted field reads.
 */
module QueryLaws {
  import opened Json
  import opened Text
  import opened Delta
  import opened Tokenizer
  import opened QueryModel
  import N = NumericIndex
  import F = FullTextIndex

  // ---------- Python's == ----------

  /** A value with its bools as numbers. */
  function Canonical(v: Json): Json
  {
    match v
    case Bool(b) => Num(if b then One() else 0)
    case Arr(items) => Arr(seq(|items|, i requires 0 <= i < |items| => Canonical(items[i])))
    case Obj(fields) => Obj(map k | k in fields :: Canonical(fields[k]))
    case _ => v
  }

  /** Two values are equal for Python exactly when they are the same but for bools and numbers. */
  lemma {:induction false} EqualWhenSame(a: Json, b: Json)
    ensures PyEq(a, b) <==> Canonical(a) == Canonical(b)
    decreases a
  {
    hide One;
    if a.Arr? && b.Arr? {
      var x, y := Canonical(a).items, Canonical(b).items;
      if |a.items| == |b.items| {
        forall i | 0 <= i < |a.items| ensures PyEq(a.items[i], b.items[i]) <==> x[i] == y[i] {
          EqualWhenSame(a.items[i], b.items[i]);
        }
        assert x == y <==> forall i :: 0 <= i < |x| ==> x[i] == y[i];
      }
    } else if a.Obj? && b.Obj? {
      var x, y := Canonical(a).fields, Canonical(b).fields;
      assert x.Keys == a.fields.Keys && y.Keys == b.fields.Keys;
      if a.fields.Keys == b.fields.Keys {
        forall k | k in a.fields ensures PyEq(a.fields[k], b.fields[k]) <==> x[k] == y[k] {
          EqualWhenSame(a.fields[k], b.fields[k]);
        }
        assert x == y <==> forall k :: k in x ==> x[k] == y[k];
      }
    }
  }

  /** Falsy values are the empty ones and zero. */
  lemma FalsyValues(t: Json)
    ensures !Truthy(t) <==> PyEq(t, Null) || PyEq(t, Num(0)) || t == Str([]) || t == Arr([]) || t == Obj(map[])
  {
    hide One;
  }

  // ---------- one operator ----------

  /** The filter `{field: {name: t}}`. */
  function Clause(field: string, name: string, t: Json): Json { Obj(map[field := Obj(map[name := t])]) }

  predicate Answers(db: Db, field: string, name: string, t: Json, id: string)
  {
    Holds(db, false, Clause(field, name, t), id)
  }

  predicate Raises(db: Db, field: string, name: string, t: Json) { Fails(db, false, Clause(field, name, t), 0, Clash) }

  /** No index has a say, and the field is a field. */
  predicate Scanned(db: Db, field: string)
  {
    field !in db.numeric && field !in db.text && field != "$or" && field != "$and"
  }

  /** What such a filter comes to. */
  lemma ByScan(db: Db, field: string, name: string, t: Json, id: string)
    requires Scanned(db, field) && OpNamed(name) != Ignored
    ensures Answers(db, field, name, t, id) <==> ScanHolds(db, field, OpNamed(name), t, id)
    ensures Raises(db, field, name, t) <==> ScanRaises(db, field, OpNamed(name), t)
  {
    hide OpNamed, ScanTest, GetVal;
    var ops := Obj(map[name := t]);
    assert name in ops.fields && ops.fields[name] == t;
    OneField(db, field, ops, id);
    OneFieldRaises(db, field, ops);
    OneOperator(db, field, name, t, id);
  }

  lemma OneOperator(db: Db, field: string, name: string, t: Json, id: string)
    ensures ClauseHolds(db, field, Obj(map[name := t]), id) ==
            (id in db.records && OpHolds(db, field, OpNamed(name), t, id))
    ensures ClauseRaises(db, field, Obj(map[name := t])) == OpRaises(db, field, OpNamed(name), t)
  {
    hide OpNamed, OpHolds, OpRaises;
    var ops := Obj(map[name := t]);
    assert name in ops.fields && ops.fields[name] == t;
  }

  lemma OneFieldRaises(db: Db, field: string, cond: Json)
    requires field != "$or" && field != "$and"
    ensures Fails(db, false, Obj(map[field := cond]), 0, Clash) == ClauseRaises(db, field, cond)
  {
    hide ClauseRaises;
    var f := Obj(map[field := cond]);
    assert f.fields[field] == cond && field in f.fields;
    assert EntryFails(db, field, cond, 1, Clash) == ClauseRaises(db, field, cond);
  }

  /** `eq` answers the live ids whose value equals the target, and never raises. */
  lemma EqLaw(db: Db, field: string, t: Json, id: string)
    requires Scanned(db, field)
    ensures Answers(db, field, "eq", t, id) <==> id in db.records && PyEq(ValueOf(db, id, field), t)
    ensures !Raises(db, field, "eq", t)
  {
    hide PyEq, GetVal, Answers, Raises, OpNamed;
    OpNames();
    ByScan(db, field, "eq", t, id);
  }

  /** `neq` answers the live ids that `eq` does not. */
  lemma NeqLaw(db: Db, field: string, t: Json, id: string)
    requires Scanned(db, field)
    ensures Answers(db, field, "neq", t, id) <==> id in db.records && !Answers(db, field, "eq", t, id)
    ensures !Raises(db, field, "neq", t)
  {
    hide PyEq, GetVal, Answers, Raises, OpNamed;
    OpNames();
    ByScan(db, field, "eq", t, id);
    ByScan(db, field, "neq", t, id);
  }

  /** `in` over a list answers what `eq` answers over one of its items. */
  lemma InListLaw(db: Db, field: string, items: seq<Json>, id: string)
    requires Scanned(db, field)
    ensures Answers(db, field, "in", Arr(items), id) <==>
            exists i :: 0 <= i < |items| && Answers(db, field, "eq", items[i], id)
    ensures !Raises(db, field, "in", Arr(items))
  {
    hide PyEq, GetVal, Answers, Raises, OpNamed;
    OpNames();
    ByScan(db, field, "in", Arr(items), id);
    forall i | 0 <= i < |items|
      ensures Answers(db, field, "eq", items[i], id) <==> id in db.records && PyEq(items[i], ValueOf(db, id, field))
    {
      EqLaw(db, field, items[i], id);
      if id in db.records {
        EqualWhenSame(ValueOf(db, id, field), items[i]);
        EqualWhenSame(items[i], ValueOf(db, id, field));
      }
    }
  }

  /** `in` over a string answers the substrings of it; it raises when a value is no string. */
  lemma InStringLaw(db: Db, field: string, s: string, id: string)
    requires Scanned(db, field)
    ensures Answers(db, field, "in", Str(s), id) <==>
            id in db.records && ValueOf(db, id, field).Str? &&
            exists a, b :: a + ValueOf(db, id, field).s + b == s
    ensures Raises(db, field, "in", Str(s)) <==> exists k :: k in db.records && !ValueOf(db, k, field).Str?
  {
    hide GetVal, Answers, Raises, OpNamed, Substring;
    OpNames();
    ByScan(db, field, "in", Str(s), id);
    if id in db.records && ValueOf(db, id, field).Str? { SubstringIs(ValueOf(db, id, field).s, s); }
  }

  lemma SubstringIs(t: string, s: string)
    ensures Substring(t, s) <==> exists a, b :: a + t + b == s
  {
    if Substring(t, s) {
      var i :| 0 <= i <= |s| && t <= s[i..];
      assert s[..i] + t + s[i..][|t|..] == s;
    }
    if a, b :| a + t + b == s {
      assert t <= s[|a|..];
    }
  }

  /** `in` over a dict asks for a key; it raises when a value is a list or a dict. */
  lemma InDictLaw(db: Db, field: string, fields: map<string, Json>, id: string)
    requires Scanned(db, field)
    ensures Answers(db, field, "in", Obj(fields), id) <==>
            id in db.records && ValueOf(db, id, field).Str? && ValueOf(db, id, field).s in fields
    ensures Raises(db, field, "in", Obj(fields)) <==>
            exists k :: k in db.records && (ValueOf(db, k, field).Arr? || ValueOf(db, k, field).Obj?)
  {
    hide GetVal, Answers, Raises, OpNamed;
    OpNames();
    ByScan(db, field, "in", Obj(fields), id);
  }

  /** `in` over anything else raises as soon as there is a record. */
  lemma InOtherLaw(db: Db, field: string, t: Json, id: string)
    requires Scanned(db, field) && !t.Arr? && !t.Str? && !t.Obj?
    ensures !Answers(db, field, "in", t, id)
    ensures Raises(db, field, "in", t) <==> db.records != map[]
  {
    hide GetVal, Answers, Raises, OpNamed;
    OpNames();
    ByScan(db, field, "in", t, id);
    if k :| k in db.records { assert ScanTest(In, t, ValueOf(db, k, field)) == None; }
  }

  /** `nin` raises when `in` does, and otherwise answers the live ids that `in` does not. */
  lemma NinLaw(db: Db, field: string, t: Json, id: string)
    requires Scanned(db, field)
    ensures Raises(db, field, "nin", t) <==> Raises(db, field, "in", t)
    ensures !Raises(db, field, "nin", t) ==>
              (Answers(db, field, "nin", t, id) <==> id in db.records && !Answers(db, field, "in", t, id))
  {
    hide GetVal, Answers, Raises, OpNamed, Member;
    OpNames();
    ByScan(db, field, "in", t, id);
    ByScan(db, field, "nin", t, id);
    forall k | k in db.records
      ensures ScanTest(Nin, t, ValueOf(db, k, field)) == None <==> ScanTest(In, t, ValueOf(db, k, field)) == None
    {
    }
  }

  /** `exists` answers the live ids whose value is not None, "" or []; with a falsy target, the others. */
  lemma ExistsLaw(db: Db, field: string, t: Json, id: string)
    requires Scanned(db, field)
    ensures Answers(db, field, "exists", t, id) <==>
            id in db.records &&
            (Truthy(t) <==> !Answers(db, field, "eq", Null, id) && !Answers(db, field, "eq", Str([]), id)
                            && !Answers(db, field, "eq", Arr([]), id))
    ensures !Raises(db, field, "exists", t)
  {
    hide GetVal, Answers, Raises, OpNamed;
    OpNames();
    ByScan(db, field, "exists", t, id);
    EqLaw(db, field, Null, id);
    EqLaw(db, field, Str([]), id);
    EqLaw(db, field, Arr([]), id);
  }

  /** A missing field does not exist. */
  lemma MissingField(db: Db, field: string, id: string)
    requires Scanned(db, field) && id in db.records && !db.nested && field !in db.records[id].fields
    ensures Answers(db, field, "exists", Bool(false), id) && !Answers(db, field, "exists", Bool(true), id)
  {
    ExistsLaw(db, field, Bool(true), id);
    ExistsLaw(db, field, Bool(false), id);
    EqLaw(db, field, Null, id);
  }

  // ---------- comparisons ----------

  lemma OpNames()
    ensures OpNamed("eq") == Eq && OpNamed("neq") == Neq && OpNamed("in") == In && OpNamed("nin") == Nin
    ensures OpNamed("exists") == Exists && OpNamed("contains") == Contains
    ensures OpNamed(">") == Comparison(Gt) && OpNamed(">=") == Comparison(Ge)
    ensures OpNamed("<") == Comparison(Lt) && OpNamed("<=") == Comparison(Le)
  {
    ComparisonNames();
    OtherNames();
  }

  lemma ComparisonNames()
    ensures OpNamed(">") == Comparison(Gt) && OpNamed(">=") == Comparison(Ge)
    ensures OpNamed("<") == Comparison(Lt) && OpNamed("<=") == Comparison(Le)
  {
  }

  lemma OtherNames()
    ensures OpNamed("eq") == Eq && OpNamed("neq") == Neq && OpNamed("in") == In && OpNamed("nin") == Nin
    ensures OpNamed("exists") == Exists && OpNamed("contains") == Contains
  {
  }

  /** The aliases mean the same; an unknown name answers every live id. */
  lemma Aliases(db: Db, field: string, t: Json, id: string)
    requires field != "$or" && field != "$and"
    ensures Answers(db, field, "gt", t, id) == Answers(db, field, ">", t, id)
    ensures Answers(db, field, "gte", t, id) == Answers(db, field, ">=", t, id)
    ensures Answers(db, field, "lt", t, id) == Answers(db, field, "<", t, id)
    ensures Answers(db, field, "lte", t, id) == Answers(db, field, "<=", t, id)
    ensures Answers(db, field, "is_included", t, id) == Answers(db, field, "in", t, id)
    ensures Answers(db, field, "not_included", t, id) == Answers(db, field, "nin", t, id)
  {
    AliasNames();
    SameOperator(db, field, "gt", ">", t, id);
    SameOperator(db, field, "gte", ">=", t, id);
    SameOperator(db, field, "lt", "<", t, id);
    SameOperator(db, field, "lte", "<=", t, id);
    SameOperator(db, field, "is_included", "in", t, id);
    SameOperator(db, field, "not_included", "nin", t, id);
  }

  lemma AliasNames()
    ensures OpNamed("gt") == OpNamed(">") && OpNamed("gte") == OpNamed(">=")
    ensures OpNamed("lt") == OpNamed("<") && OpNamed("lte") == OpNamed("<=")
    ensures OpNamed("is_included") == OpNamed("in") && OpNamed("not_included") == OpNamed("nin")
  {
  }

  lemma SameOperator(db: Db, field: string, a: string, b: string, t: Json, id: string)
    requires OpNamed(a) == OpNamed(b) && field != "$or" && field != "$and"
    ensures Answers(db, field, a, t, id) == Answers(db, field, b, t, id)
  {
    hide OpNamed, OpHolds;
    var x, y := Obj(map[a := t]), Obj(map[b := t]);
    assert Clause(field, a, t).fields[field] == x && Clause(field, b, t).fields[field] == y;
    assert x.fields[a] == t && y.fields[b] == t;
    OneField(db, field, x, id);
    OneField(db, field, y, id);
  }

  lemma OneField(db: Db, field: string, cond: Json, id: string)
    requires field != "$or" && field != "$and"
    ensures Holds(db, false, Obj(map[field := cond]), id) == ClauseHolds(db, field, cond, id)
  {
    hide ClauseHolds;
    var f := Obj(map[field := cond]);
    assert f.fields[field] == cond && field in f.fields;
    assert EntryHolds(db, field, cond, id) == ClauseHolds(db, field, cond, id);
  }

  /** Numbers, bools among them, are compared as numbers; None answers nothing, anything else raises. */
  lemma NumberOrder(db: Db, field: string, t: Json, id: string)
    requires Scanned(db, field) && t.IsNumber()
    ensures var n := id in db.records && ValueOf(db, id, field).IsNumber();
            && (Answers(db, field, ">", t, id) <==> n && ValueOf(db, id, field).Number() > t.Number())
            && (Answers(db, field, ">=", t, id) <==> n && ValueOf(db, id, field).Number() >= t.Number())
            && (Answers(db, field, "<", t, id) <==> n && ValueOf(db, id, field).Number() < t.Number())
            && (Answers(db, field, "<=", t, id) <==> n && ValueOf(db, id, field).Number() <= t.Number())
    ensures Raises(db, field, ">", t) == Raises(db, field, "<", t) ==
            exists k :: k in db.records && !ValueOf(db, k, field).Null? && !ValueOf(db, k, field).IsNumber()
  {
    hide GetVal, Answers, Raises, OpNamed, Json.Number;
    OpNames();
    ByScan(db, field, ">", t, id);
    ByScan(db, field, ">=", t, id);
    ByScan(db, field, "<", t, id);
    ByScan(db, field, "<=", t, id);
    forall k | k in db.records
      ensures ScanTest(Comparison(Gt), t, ValueOf(db, k, field)) == None <==>
              !ValueOf(db, k, field).Null? && !ValueOf(db, k, field).IsNumber()
      ensures ScanTest(Comparison(Lt), t, ValueOf(db, k, field)) == None <==>
              !ValueOf(db, k, field).Null? && !ValueOf(db, k, field).IsNumber()
    {
    }
  }

  /** a comes before b: they part at k, where a ends or has the smaller character. */
  predicate PartAt(a: string, b: string, k: nat)
  {
    k <= |a| && k < |b| && a[..k] == b[..k] && (k == |a| || a[k] < b[k])
  }

  lemma {:induction false} LessWhenParted(a: string, b: string)
    ensures StrLess(a, b) <==> exists k :: PartAt(a, b, k)
    decreases |a|
  {
    if b != [] && a != [] {
      LessWhenParted(a[1..], b[1..]);
      if a[0] == b[0] {
        if k: nat :| PartAt(a[1..], b[1..], k) {
          assert a[..k + 1] == [a[0]] + a[1..][..k] && b[..k + 1] == [b[0]] + b[1..][..k];
          assert PartAt(a, b, k + 1);
        }
        if k: nat :| PartAt(a, b, k) {
          assert k > 0;
          assert a[1..][..k - 1] == a[..k][1..] && b[1..][..k - 1] == b[..k][1..];
          assert PartAt(a[1..], b[1..], k - 1);
        }
      } else if a[0] < b[0] {
        assert PartAt(a, b, 0);
      } else {
        forall k: nat ensures !PartAt(a, b, k) {
          if k > 0 && k <= |a| && k < |b| { assert a[..k][0] == a[0] && b[..k][0] == b[0]; }
        }
      }
    } else if b != [] {
      assert PartAt(a, b, 0);
    }
  }

  /** Strings are compared by code point. */
  lemma StringOrder(db: Db, field: string, t: string, id: string)
    requires Scanned(db, field)
    ensures var s := id in db.records && ValueOf(db, id, field).Str?;
            && (Answers(db, field, "<", Str(t), id) <==> s && exists k :: PartAt(ValueOf(db, id, field).s, t, k))
            && (Answers(db, field, ">", Str(t), id) <==> s && exists k :: PartAt(t, ValueOf(db, id, field).s, k))
            && (Answers(db, field, "<=", Str(t), id) <==> s && !exists k :: PartAt(t, ValueOf(db, id, field).s, k))
            && (Answers(db, field, ">=", Str(t), id) <==> s && !exists k :: PartAt(ValueOf(db, id, field).s, t, k))
    ensures Raises(db, field, ">", Str(t)) == Raises(db, field, "<", Str(t)) ==
            exists k :: k in db.records && !ValueOf(db, k, field).Null? && !ValueOf(db, k, field).Str?
  {
    hide GetVal, Answers, Raises, OpNamed, StrLess, PartAt;
    OpNames();
    ByScan(db, field, ">", Str(t), id);
    ByScan(db, field, ">=", Str(t), id);
    ByScan(db, field, "<", Str(t), id);
    ByScan(db, field, "<=", Str(t), id);
    if id in db.records && ValueOf(db, id, field).Str? {
      LessWhenParted(ValueOf(db, id, field).s, t);
      LessWhenParted(t, ValueOf(db, id, field).s);
    }
    forall k | k in db.records
      ensures ScanTest(Comparison(Gt), Str(t), ValueOf(db, k, field)) == None <==>
              !ValueOf(db, k, field).Null? && !ValueOf(db, k, field).Str?
      ensures ScanTest(Comparison(Lt), Str(t), ValueOf(db, k, field)) == None <==>
              !ValueOf(db, k, field).Null? && !ValueOf(db, k, field).Str?
    {
    }
  }

  /** Lists are compared at the first items that are not equal, or else by length. */
  lemma ListOrder(op: Cmp, a: seq<Json>, b: seq<Json>, k: nat)
    requires k <= |a| && k <= |b| && forall i :: 0 <= i < k ==> PyEq(a[i], b[i])
    ensures k == |a| || k == |b| ==>
              Compare(op, Arr(a), Arr(b)) == Some(match op case Gt => |a| > |b| case Ge => |a| >= |b|
                                                           case Lt => |a| < |b| case Le => |a| <= |b|)
    ensures k < |a| && k < |b| && !PyEq(a[k], b[k]) ==> Compare(op, Arr(a), Arr(b)) == Compare(op, a[k], b[k])
  {
    if k == |a| || k == |b| || !PyEq(a[k], b[k]) { FirstDifferenceIs(a, b, k); }
  }

  lemma {:induction false} FirstDifferenceIs(a: seq<Json>, b: seq<Json>, k: nat)
    requires k <= |a| && k <= |b| && (forall i :: 0 <= i < k ==> PyEq(a[i], b[i]))
    requires k == |a| || k == |b| || !PyEq(a[k], b[k])
    ensures FirstDifference(a, b) == k
    decreases k
  {
    hide PyEq;
    if k > 0 { FirstDifferenceIs(a[1..], b[1..], k - 1); }
  }

  lemma {:induction false} Opposites(a: Json, b: Json)
    ensures Compare(Gt, a, b).None? <==> Compare(Le, a, b).None?
    ensures Compare(Lt, a, b).None? <==> Compare(Ge, a, b).None?
    ensures Compare(Gt, a, b).Some? ==> Compare(Le, a, b) == Some(!Compare(Gt, a, b).value)
    ensures Compare(Lt, a, b).Some? ==> Compare(Ge, a, b) == Some(!Compare(Lt, a, b).value)
    decreases a
  {
    hide PyEq, StrLess, Json.Number;
    if a.Arr? && b.Arr? {
      var k := FirstDifference(a.items, b.items);
      if k < |a.items| && k < |b.items| { Opposites(a.items[k], b.items[k]); }
    }
  }

  /** Opposite comparisons share out the live ids that have a value, when none raises. */
  lemma OppositesPartition(db: Db, field: string, t: Json, id: string)
    requires Scanned(db, field)
    ensures Raises(db, field, ">", t) <==> Raises(db, field, "<=", t)
    ensures Raises(db, field, "<", t) <==> Raises(db, field, ">=", t)
    ensures var some := id in db.records && !Answers(db, field, "eq", Null, id);
            && (!Raises(db, field, ">", t) ==>
                  (Answers(db, field, "<=", t, id) <==> some && !Answers(db, field, ">", t, id))
                  && (Answers(db, field, ">", t, id) ==> some))
            && (!Raises(db, field, "<", t) ==>
                  (Answers(db, field, ">=", t, id) <==> some && !Answers(db, field, "<", t, id))
                  && (Answers(db, field, "<", t, id) ==> some))
  {
    hide Answers, Raises, OpNamed, ValueOf;
    ComparisonNames();
    OppositePair(db, field, ">", "<=", Gt, Le, t, id);
    OppositePair(db, field, "<", ">=", Lt, Ge, t, id);
  }

  lemma OppositePair(db: Db, field: string, one: string, other: string, c: Cmp, c': Cmp, t: Json, id: string)
    requires Scanned(db, field) && OpNamed(one) == Comparison(c) && OpNamed(other) == Comparison(c')
    requires (c == Gt && c' == Le) || (c == Lt && c' == Ge)
    ensures Raises(db, field, one, t) <==> Raises(db, field, other, t)
    ensures var some := id in db.records && !Answers(db, field, "eq", Null, id);
            !Raises(db, field, one, t) ==>
              && (Answers(db, field, other, t, id) <==> some && !Answers(db, field, one, t, id))
              && (Answers(db, field, one, t, id) ==> some)
  {
    hide GetVal, Answers, Raises, OpNamed, Compare;
    EqLaw(db, field, Null, id);
    ByScan(db, field, one, t, id);
    ByScan(db, field, other, t, id);
    forall k | k in db.records
      ensures ScanTest(Comparison(c), t, ValueOf(db, k, field)).None? <==>
              ScanTest(Comparison(c'), t, ValueOf(db, k, field)).None?
      ensures ScanTest(Comparison(c), t, ValueOf(db, k, field)).Some? && !ValueOf(db, k, field).Null? ==>
              ScanTest(Comparison(c'), t, ValueOf(db, k, field)) ==
              Some(!ScanTest(Comparison(c), t, ValueOf(db, k, field)).value)
    {
      Opposites(ValueOf(db, k, field), t);
    }
    hide ScanTest;
    NullTests(c, t);
    NullTests(c', t);
  }

  lemma NullTests(c: Cmp, t: Json)
    ensures ScanTest(Comparison(c), t, Null) == Some(false)
  {
  }

  /** `contains` answers the strings with the target inside, whatever the case. */
  lemma ContainsLaw(db: Db, field: string, t: string, id: string)
    requires Scanned(db, field)
    ensures Answers(db, field, "contains", Str(t), id) <==>
            id in db.records && ValueOf(db, id, field).Str? &&
            exists a, b :: a + Lower(t) + b == Lower(ValueOf(db, id, field).s)
    ensures !Raises(db, field, "contains", Str(t))
  {
    hide GetVal, Answers, Raises, OpNamed, Substring, Lower;
    OpNames();
    ByScan(db, field, "contains", Str(t), id);
    if id in db.records && ValueOf(db, id, field).Str? { SubstringIs(Lower(t), Lower(ValueOf(db, id, field).s)); }
  }

  /** A target that is no string raises as soon as there is a string to look into. */
  lemma ContainsOther(db: Db, field: string, t: Json, id: string)
    requires Scanned(db, field) && !t.Str?
    ensures !Answers(db, field, "contains", t, id)
    ensures Raises(db, field, "contains", t) <==> exists k :: k in db.records && ValueOf(db, k, field).Str?
  {
    hide GetVal, Answers, Raises, OpNamed;
    OpNames();
    ByScan(db, field, "contains", t, id);
    forall k | k in db.records
      ensures ScanTest(Contains, t, ValueOf(db, k, field)) == None <==> ValueOf(db, k, field).Str?
    {
    }
  }

  // ---------- answers from an index ----------

  /** What an operator comes to when the field has an index. */
  lemma ByOperator(db: Db, field: string, name: string, t: Json, id: string)
    requires field != "$or" && field != "$and"
    ensures Answers(db, field, name, t, id) <==> id in db.records && OpHolds(db, field, OpNamed(name), t, id)
    ensures Raises(db, field, name, t) <==> OpRaises(db, field, OpNamed(name), t)
  {
    hide OpNamed, OpHolds, OpRaises;
    OneField(db, field, Obj(map[name := t]), id);
    OneFieldRaises(db, field, Obj(map[name := t]));
    OneOperator(db, field, name, t, id);
  }

  /** A numeric index answers the live ids it has a value for that compares; a bound of None is no bound. */
  lemma IndexedComparison(db: Db, field: string, t: Json, x: Option<int>, id: string)
    requires field in db.numeric && field != "$or" && field != "$and"
    requires if t.Null? then x == None
             else x == if t.IsNumber() then Some(t.Number()) else if t.Str? then db.floatOf(t.s) else None
    requires t.Null? || x.Some?
    ensures id in db.records ==>
              && (Answers(db, field, ">", t, id) <==>
                    exists v :: (v, id) in db.numeric[field] && (x.Some? ==> v > x.value))
              && (Answers(db, field, ">=", t, id) <==>
                    exists v :: (v, id) in db.numeric[field] && (x.Some? ==> v >= x.value))
              && (Answers(db, field, "<", t, id) <==>
                    exists v :: (v, id) in db.numeric[field] && (x.Some? ==> v < x.value))
              && (Answers(db, field, "<=", t, id) <==>
                    exists v :: (v, id) in db.numeric[field] && (x.Some? ==> v <= x.value))
    ensures !Raises(db, field, ">", t) && !Raises(db, field, ">=", t)
    ensures !Raises(db, field, "<", t) && !Raises(db, field, "<=", t)
  {
    hide OpNamed, Answers, Raises, Json.Number;
    ComparisonNames();
    ByOperator(db, field, ">", t, id);
    ByOperator(db, field, ">=", t, id);
    ByOperator(db, field, "<", t, id);
    ByOperator(db, field, "<=", t, id);
    hide OpHolds, OpRaises;
    RangeOf(db, field, Gt, t, x, id);
    RangeOf(db, field, Ge, t, x, id);
    RangeOf(db, field, Lt, t, x, id);
    RangeOf(db, field, Le, t, x, id);
  }

  predicate Meets(c: Cmp, v: int, x: Option<int>)
  {
    x.Some? ==> match c case Gt => v > x.value case Ge => v >= x.value case Lt => v < x.value case Le => v <= x.value
  }

  lemma RangeOf(db: Db, field: string, c: Cmp, t: Json, x: Option<int>, id: string)
    requires field in db.numeric && BoundOf(db.floatOf, t) == Some(x)
    ensures OpHolds(db, field, Comparison(c), t, id) <==> exists v :: (v, id) in db.numeric[field] && Meets(c, v, x)
    ensures !OpRaises(db, field, Comparison(c), t)
  {
    hide BoundOf, Meets;
    InIndexRange(db, field, c, x, id);
  }

  lemma InIndexRange(db: Db, field: string, c: Cmp, x: Option<int>, id: string)
    requires field in db.numeric
    ensures id in IndexRange(db, field, c, x) <==> exists v :: (v, id) in db.numeric[field] && Meets(c, v, x)
  {
    var lo, hi := if c.Gt? || c.Ge? then x else None, if c.Gt? || c.Ge? then None else x;
    assert IndexRange(db, field, c, x) == N.InRange(db.numeric[field], lo, hi, !c.Gt?, !c.Lt?);
    assert forall v: int :: N.Above(v, lo, !c.Gt?) && N.Below(v, hi, !c.Lt?) <==> Meets(c, v, x);
    hide Meets, N.Above, N.Below, IndexRange;
    if v :| (v, id) in db.numeric[field] && Meets(c, v, x) {
      assert (v, id).0 == v && (v, id).1 == id;
    }
    if id in N.InRange(db.numeric[field], lo, hi, !c.Gt?, !c.Lt?) {
      var p :| p in db.numeric[field] && p.1 == id && N.Above(p.0, lo, !c.Gt?) && N.Below(p.0, hi, !c.Lt?);
      assert (p.0, id) == p;
    }
  }

  /** A bound that is no number, and no string that reads as one, raises. */
  lemma IndexedClash(db: Db, field: string, t: Json)
    requires field in db.numeric && field != "$or" && field != "$and"
    ensures Raises(db, field, ">", t) <==> !t.Null? && !t.IsNumber() && !(t.Str? && db.floatOf(t.s).Some?)
  {
    hide OpNamed, Answers, Raises;
    ComparisonNames();
    ByOperator(db, field, ">", t, []);
  }

  /** A token is found under itself alone. */
  lemma FoundToken(content: set<(string, string)>, t: string, id: string)
    requires IsToken(t)
    ensures id in F.Found(content, t) <==> (t, id) in content
  {
    TokenizeFixpoint(t);
    hide Tokens, IsToken;
    if id in F.Found(content, t) {
      var p :| p in content && p.0 in Tokens(t) && p.1 == id;
      assert p == (t, id);
    }
    if (t, id) in content { assert (t, id).0 in Tokens(t); }
  }

  lemma AllFoundTokens(content: set<(string, string)>, s: string, id: string)
    ensures AllFound(content, Tokens(s), id) <==> Tokens(s) != [] && forall t :: t in Tokens(s) ==> (t, id) in content
  {
    TokensAreTokens(s);
    hide Tokens, IsToken;
    var ts := Tokens(s);
    forall k | 0 <= k < |ts| ensures id in F.Found(content, ts[k]) <==> (ts[k], id) in content {
      assert ts[k] in ts;
      FoundToken(content, ts[k], id);
    }
    if AllFound(content, ts, id) {
      forall t | t in ts ensures (t, id) in content {
        var k :| 0 <= k < |ts| && ts[k] == t;
      }
    }
  }

  /** Through a text index `contains` asks for every token of the target; other targets count as "" or raise. */
  lemma IndexedContains(db: Db, field: string, t: Json, id: string)
    requires field in db.text && field != "$or" && field != "$and"
    ensures t.Str? ==>
              (Answers(db, field, "contains", t, id) <==>
                id in db.records && Tokens(t.s) != [] && forall x :: x in Tokens(t.s) ==> (x, id) in db.text[field])
    ensures !t.Str? ==> !Answers(db, field, "contains", t, id)
    ensures Raises(db, field, "contains", t) <==> !t.Str? && Truthy(t)
  {
    hide OpNamed, Answers, Raises, Tokens, AllFound;
    OtherNames();
    ByOperator(db, field, "contains", t, id);
    if t.Str? { AllFoundTokens(db.text[field], t.s, id); }
    NoTokens(db.text[field], id);
  }

  lemma NoTokens(content: set<(string, string)>, id: string)
    ensures Tokens([]) == [] && !AllFound(content, Tokens([]), id)
  {
    assert Lower([]) == [];
  }

  /**
    A string through a text index: the live records that have it and are found under its
    tokens, or all if it has none.
   */
  lemma IndexedString(db: Db, field: string, s: string, id: string)
    requires field in db.text && field != "$or" && field != "$and"
    ensures Holds(db, false, Obj(map[field := Str(s)]), id) <==>
            id in db.records &&
            (Tokens(s) == [] || (GetField(db.records[id], field) == Str(s) &&
              forall x :: x in Tokens(s) ==> (x, id) in db.text[field]))
  {
    hide Tokens, AllFound, GetField;
    OneField(db, field, Str(s), id);
    AllFoundTokens(db.text[field], s, id);
  }

  /** Some token of the keyword leads to id. */
  predicate SharesToken(content: set<(string, string)>, keyword: string, id: string)
  {
    exists t :: t in Tokens(keyword) && (t, id) in content
  }

  /** A list of strings through a text index: ids found under some token of each. */
  lemma IndexedList(db: Db, field: string, items: seq<Json>, id: string)
    requires field in db.text && field != "$or" && field != "$and"
    requires forall i :: 0 <= i < |items| ==> items[i].Str?
    ensures Holds(db, false, Obj(map[field := Arr(items)]), id) <==>
            items != [] && forall i :: 0 <= i < |items| ==> SharesToken(db.text[field], items[i].s, id)
  {
    OneField(db, field, Arr(items), id);
    hide AllFound, SharesToken, F.Found;
    StringsAreKeywords(items);
    ListKeywords(db.text[field], items, Keywords(items), id);
    hide Keywords;
  }

  lemma StringsAreKeywords(items: seq<Json>)
    requires forall i :: 0 <= i < |items| ==> items[i].Str?
    ensures forall i :: 0 <= i < |items| ==> Keyword(items[i]).Some? && Keywords(items)[i] == items[i].s
  {
  }

  lemma ListKeywords(content: set<(string, string)>, items: seq<Json>, keywords: seq<string>, id: string)
    requires |keywords| == |items| && forall i :: 0 <= i < |items| ==> items[i].Str? && keywords[i] == items[i].s
    ensures AllFound(content, keywords, id) <==>
            items != [] && forall i :: 0 <= i < |items| ==> SharesToken(content, items[i].s, id)
  {
    hide F.Found, SharesToken;
    forall i | 0 <= i < |items|
      ensures id in F.Found(content, keywords[i]) <==> SharesToken(content, items[i].s, id)
    {
      FoundIs(content, items[i].s, id);
    }
  }

  lemma FoundIs(content: set<(string, string)>, keyword: string, id: string)
    ensures id in F.Found(content, keyword) <==> SharesToken(content, keyword, id)
  {
    hide Tokens;
    if id in F.Found(content, keyword) {
      var p :| p in content && p.0 in Tokens(keyword) && p.1 == id;
      assert p == (p.0, id);
    }
    if t :| t in Tokens(keyword) && (t, id) in content { assert (t, id).0 in Tokens(keyword); }
  }

  /** A number through a numeric index: the ids it has that number for. */
  lemma IndexedNumber(db: Db, field: string, t: Json, id: string)
    requires field in db.numeric && field != "$or" && field != "$and" && t.IsNumber()
    ensures Holds(db, false, Obj(map[field := t]), id) <==> (t.Number(), id) in db.numeric[field]
  {
    OneField(db, field, t, id);
  }

  // ---------- what a field reads ----------

  /** The field itself, or None when it is missing; in flat mode dots mean nothing. */
  lemma PlainField(nested: bool, rec: Record, field: string)
    requires !nested || '.' !in field
    ensures GetVal(nested, rec, field) == if field in rec.fields then rec.fields[field] else Null
  {
  }

  /** In nested mode a dotted field is read key by key; a missing key, or a value that is no dict, reads as None. */
  lemma DottedField(rec: Record, k: string, rest: string)
    requires '.' !in k
    ensures GetVal(true, rec, k + "." + rest) ==
            if k in rec.fields && rec.fields[k].Obj? then GetVal(true, rec.fields[k], rest) else Null
  {
    var field := k + ['.'] + rest;
    SplitConcat(k, rest, '.');
    assert field[|k|] == '.';
    var p := Split(field, '.');
    assert p == [k] + Split(rest, '.') && p[1..] == Split(rest, '.');
    LookupStep(rec, p);
    if k in rec.fields && rec.fields[k].Obj? && '.' !in rest {
      assert Split(rest, '.') == [rest];
      LookupStep(rec.fields[k], [rest]);
    }
  }

  // ---------- blocks ----------

  /** No filter answers every live id. */
  lemma EmptyBlock(db: Db, id: string)
    ensures Holds(db, false, Obj(map[]), id) <==> id in db.records
    ensures Holds(db, false, Arr([]), id) <==> id in db.records
    ensures !Holds(db, true, Arr([]), id)
  {
  }

  /** The entries of a dict are met all together. */
  lemma BlockIsAnd(db: Db, fields: map<string, Json>, k: string, v: Json, id: string)
    requires k !in fields && fields != map[]
    ensures Holds(db, false, Obj(fields[k := v]), id) <==>
            Holds(db, false, Obj(fields), id) && Holds(db, false, Obj(map[k := v]), id)
  {
    hide EntryHolds;
    var all, one := Obj(fields[k := v]), Obj(map[k := v]);
    assert k in all.fields && all.fields[k] == v && k in one.fields && one.fields[k] == v;
    assert forall j :: j in fields ==> j in all.fields && all.fields[j] == fields[j];
    if Holds(db, false, all, id) {
      forall j | j in fields ensures EntryHolds(db, j, fields[j], id) {
        assert EntryHolds(db, j, all.fields[j], id);
      }
      assert EntryHolds(db, k, all.fields[k], id);
    }
    if Holds(db, false, one, id) { assert EntryHolds(db, k, one.fields[k], id); }
  }

  /** `$and` is all of a list, `$or` any of it. */
  lemma ListBlocks(db: Db, items: seq<Json>, id: string)
    ensures Holds(db, false, Obj(map["$and" := Arr(items)]), id) <==>
            if items == [] then id in db.records else forall i :: 0 <= i < |items| ==> Holds(db, false, items[i], id)
    ensures Holds(db, false, Obj(map["$or" := Arr(items)]), id) <==>
            exists i :: 0 <= i < |items| && Holds(db, false, items[i], id)
  {
    OneBlock(db, "$and", Arr(items), id);
    OneBlock(db, "$or", Arr(items), id);
  }

  lemma OneBlock(db: Db, key: string, v: Json, id: string)
    requires key == "$or" || key == "$and"
    ensures Holds(db, false, Obj(map[key := v]), id) == Holds(db, key == "$or", v, id)
  {
    var f := Obj(map[key := v]);
    assert key in f.fields && f.fields[key] == v;
    assert EntryHolds(db, key, v, id) == Holds(db, key == "$or", v, id);
  }

  /** The operators of one field are met all together; a live id is asked for. */
  lemma OperatorsAreAnd(db: Db, field: string, ops: map<string, Json>, name: string, t: Json, id: string)
    requires field != "$or" && field != "$and" && name !in ops
    ensures Holds(db, false, Obj(map[field := Obj(ops[name := t])]), id) <==>
            Holds(db, false, Obj(map[field := Obj(ops)]), id) && Answers(db, field, name, t, id)
  {
    hide OpHolds, OpNamed, Answers;
    var all, one := Obj(ops[name := t]), Obj(map[name := t]);
    OneField(db, field, all, id);
    OneField(db, field, Obj(ops), id);
    OneField(db, field, one, id);
    assert Answers(db, field, name, t, id) == ClauseHolds(db, field, one, id) by { AnswersIs(db, field, name, t, id); }
    assert all.fields[name] == t && one.fields[name] == t && name in all.fields && name in one.fields;
    assert forall j :: j in ops ==> j in all.fields && all.fields[j] == ops[j];
    if ClauseHolds(db, field, all, id) {
      forall j | j in ops ensures OpHolds(db, field, OpNamed(j), ops[j], id) {
        assert OpHolds(db, field, OpNamed(j), all.fields[j], id);
      }
      assert OpHolds(db, field, OpNamed(name), all.fields[name], id);
    }
    if ClauseHolds(db, field, one, id) { assert OpHolds(db, field, OpNamed(name), one.fields[name], id); }
  }

  lemma AnswersIs(db: Db, field: string, name: string, t: Json, id: string)
    ensures Answers(db, field, name, t, id) == Holds(db, false, Obj(map[field := Obj(map[name := t])]), id)
  {
  }

  /**
    A condition that is no operator: a number or a string asks for equality, a list for any of
    it, None for nothing.
   */
  lemma ShortClauses(db: Db, field: string, cond: Json, id: string)
    requires Scanned(db, field)
    ensures !cond.Obj? ==>
              (Holds(db, false, Obj(map[field := cond]), id) <==>
               match cond
               case Null => false
               case Arr(_) => Answers(db, field, "in", cond, id)
               case _ => Answers(db, field, "eq", cond, id))
    ensures cond == Obj(map[]) ==> (Holds(db, false, Obj(map[field := cond]), id) <==> id in db.records)
  {
    hide ScanTest, GetVal, Answers, OpNamed, OpHolds;
    OpNames();
    OneField(db, field, cond, id);
    ByScan(db, field, "in", cond, id);
    ByScan(db, field, "eq", cond, id);
  }

  // ---------- what raises ----------

  /** n blocks inside one another. */
  function Nest(n: nat): Json { if n == 0 then Obj(map[]) else Obj(map["$and" := Nest(n - 1)]) }

  /** Blocks are evaluated down to the limit, and not one further. */
  lemma {:induction false} TooDeep(db: Db, n: nat, depth: nat)
    ensures Fails(db, false, Nest(n), depth, Recursion) <==> depth + n > db.limit
    decreases n
  {
    if n > 0 {
      var f := Nest(n);
      assert f.fields["$and"] == Nest(n - 1) && "$and" in f.fields;
      TooDeep(db, n - 1, depth + 1);
      assert EntryFails(db, "$and", Nest(n - 1), depth + 1, Recursion)
          == Fails(db, false, Nest(n - 1), depth + 1, Recursion);
    }
  }

  /** An `$or` wants a list. */
  lemma OrWantsList(db: Db, v: Json)
    requires db.limit > 0
    ensures Fails(db, false, Obj(map["$or" := v]), 0, Syntax) <==>
            !v.Arr? || exists i :: 0 <= i < |v.items| && Fails(db, false, v.items[i], 2, Syntax)
  {
    var f := Obj(map["$or" := v]);
    assert f.fields["$or"] == v && "$or" in f.fields;
    assert EntryFails(db, "$or", v, 1, Syntax) == Fails(db, true, v, 1, Syntax);
  }

  /** A block raises for what one of its fields raises for. */
  lemma ClashInside(db: Db, fields: map<string, Json>)
    requires "$or" !in fields && "$and" !in fields
    ensures Fails(db, false, Obj(fields), 0, Clash) <==>
            exists k :: k in fields && Fails(db, false, Obj(map[k := fields[k]]), 0, Clash)
  {
    hide ClauseRaises;
    forall k | k in fields
      ensures Fails(db, false, Obj(map[k := fields[k]]), 0, Clash) <==> EntryFails(db, k, fields[k], 1, Clash)
    {
      var f := Obj(map[k := fields[k]]);
      assert f.fields[k] == fields[k] && k in f.fields;
    }
  }
}
