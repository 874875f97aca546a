/**
  The query engine of one store: mkdb/db/query/query_engine.py.

  Evaluation changes no answer and no index content, but a lookup in an index kept on
  disk first flushes the buffers of that index.  Iteration order over dictionaries and
  sets is left open.
 */
module QueryEngine {
  import opened Json
  import opened Tokenizer
  import opened QueryModel
  import opened IndexUpkeep
  import N = NumericIndex
  import F = FullTextIndex
  import P = Postings
  import opened PostingFile

  /** What a call gives back: ids, or the reason it raised. */
  datatype Outcome = Ids(ids: set<string>) | Raised(cause: Cause)

  ghost predicate BlockOutcome(db: Db, any: bool, f: Json, depth: nat, r: Outcome)
  {
    match r
    case Ids(s) =>
      (forall c :: !Fails(db, any, f, depth, c)) && forall id :: id in s <==> Holds(db, any, f, id)
    case Raised(c) => Fails(db, any, f, depth, c)
  }

  ghost predicate EntryOutcome(db: Db, key: string, v: Json, depth: nat, r: Outcome)
  {
    match r
    case Ids(s) =>
      (forall c :: !EntryFails(db, key, v, depth, c)) && forall id :: id in s <==> EntryHolds(db, key, v, id)
    case Raised(c) => EntryFails(db, key, v, depth, c)
  }

  ghost predicate ClauseOutcome(db: Db, field: string, cond: Json, r: Outcome)
  {
    match r
    case Ids(s) => !ClauseRaises(db, field, cond) && forall id :: id in s <==> ClauseHolds(db, field, cond, id)
    case Raised(c) => c.Clash? && ClauseRaises(db, field, cond)
  }

  /** The ids of one operator, among the live ones. */
  ghost predicate OpOutcome(db: Db, field: string, op: Operator, t: Json, r: Outcome)
  {
    match r
    case Ids(s) =>
      !OpRaises(db, field, op, t) && forall id :: id in db.records ==> (id in s <==> OpHolds(db, field, op, t, id))
    case Raised(c) => c.Clash? && OpRaises(db, field, op, t)
  }

  /** What _full_scan_filter answers. */
  ghost predicate ScanOutcome(db: Db, field: string, op: Operator, t: Json, r: Outcome)
  {
    match r
    case Ids(s) => !ScanRaises(db, field, op, t) && forall id :: id in s <==> ScanHolds(db, field, op, t, id)
    case Raised(c) => c.Clash? && ScanRaises(db, field, op, t)
  }

  /** A scan that has yet to read the ids in todo. */
  ghost predicate Scanned(db: Db, field: string, op: Operator, t: Json, todo: set<string>, s: set<string>)
  {
    && (forall id :: id in db.records && id !in todo ==> ScanTest(op, t, ValueOf(db, id, field)).Some?)
    && (forall id :: id in s <==> id !in todo && ScanHolds(db, field, op, t, id))
  }

  lemma ScanStep(db: Db, field: string, op: Operator, t: Json, todo: set<string>, s: set<string>, id: string)
    requires Scanned(db, field, op, t, todo, s) && id in db.records && id in todo
    requires ScanTest(op, t, ValueOf(db, id, field)).Some?
    ensures ScanHolds(db, field, op, t, id) ==> Scanned(db, field, op, t, todo - {id}, s + {id})
    ensures !ScanHolds(db, field, op, t, id) ==> Scanned(db, field, op, t, todo - {id}, s)
  {
    hide ScanTest, GetVal;
  }

  /** _full_scan_filter: read every record and test its value. */
  method FullScan(records: map<string, Record>, nested: bool, field: string, op: Operator, t: Json, ghost db: Db)
    returns (r: Outcome)
    requires db.records == records && db.nested == nested
    ensures ScanOutcome(db, field, op, t, r)
  {
    hide ScanTest, GetVal, Scanned, ScanHolds;
    var s: set<string> := {};
    var todo := records.Keys;
    assert Scanned(db, field, op, t, todo, s) by { NothingScanned(db, field, op, t); }
    while todo != {}
      invariant todo <= records.Keys && Scanned(db, field, op, t, todo, s)
      decreases todo
    {
      var id := P.AnyOf(todo);
      var test := ScanTest(op, t, GetVal(nested, records[id], field));
      if test == None {
        return Raised(Clash);
      }
      ScanStep(db, field, op, t, todo, s, id);
      TestDecides(db, field, op, t, id);
      if test.value {
        s := s + {id};
      }
      todo := todo - {id};
    }
    AllScanned(db, field, op, t, s);
    return Ids(s);
  }

  lemma NothingScanned(db: Db, field: string, op: Operator, t: Json)
    ensures Scanned(db, field, op, t, db.records.Keys, {})
  {
    hide ScanTest, GetVal;
  }

  lemma TestDecides(db: Db, field: string, op: Operator, t: Json, id: string)
    requires id in db.records
    ensures ScanHolds(db, field, op, t, id) <==> ScanTest(op, t, ValueOf(db, id, field)) == Some(true)
  {
  }

  lemma AllScanned(db: Db, field: string, op: Operator, t: Json, s: set<string>)
    requires Scanned(db, field, op, t, {}, s)
    ensures ScanOutcome(db, field, op, t, Ids(s))
  {
    hide ScanTest, GetVal;
  }

  class QueryEngine {
    const nested: bool
    const limit: nat
    const format: Format<int>             // Python's str() and float() on floats
    const strOf: Json -> string                        // Python's str()
    var contents: map<string, Record>                  // the stored record of every id in the primary index
    var numeric: map<string, N.NumericIndex>
    var text: map<string, F.FullTextIndex>

    /**
      One index object per field; on_delete is never reached, so nothing is waiting to be
      removed.  What an index outside RAM holds can be written to its file.
     */
    ghost predicate NumericOk()
      reads this`numeric, numeric.Values
    {
      && N.Exact(format)
      && (forall k :: k in numeric ==>
            numeric[k].Valid() && numeric[k].removeBuf == [] && numeric[k].format == format)
      && (forall k :: k in numeric ==> numeric[k].inRam || numeric[k].Writable())
      && (forall j, k :: j in numeric && k in numeric && j != k ==> numeric[j] != numeric[k])
    }

    ghost predicate TextOk()
      reads this`text, text.Values
    {
      && (forall k :: k in text ==> text[k].Valid() && text[k].removeBuf == map[])
      && (forall k :: k in text ==> text[k].inRam || text[k].Writable())
      && (forall j, k :: j in text && k in text && j != k ==> text[j] != text[k])
    }

    ghost predicate Valid()
      reads this, numeric.Values, text.Values
    {
      NumericOk() && TextOk()
    }

    /** An engine without indexes; those are rebuilt, field by field. */
    constructor (nested: bool, limit: nat, format: Format<int>, strOf: Json -> string, contents: map<string, Record>)
      requires N.Exact(format)
      ensures Valid() && this.nested == nested && this.limit == limit && this.format == format && this.strOf == strOf
      ensures this.contents == contents && numeric == map[] && text == map[]
    {
      this.nested, this.limit, this.format, this.strOf := nested, limit, format, strOf;
      this.contents, numeric, text := contents, map[], map[];
    }

    ghost function NumericPairs(): map<string, set<(int, string)>>
      reads this`numeric, numeric.Values
    {
      map k | k in numeric :: numeric[k].Content()
    }

    ghost function TextPairs(): map<string, set<(string, string)>>
      reads this`text, text.Values
    {
      map k | k in text :: text[k].Content()
    }

    /** What queries depend on. */
    ghost function State(): Db
      reads this, numeric.Values, text.Values
    {
      Db(AsRead(contents), nested, limit, NumericPairs(), TextPairs(), format.read)
    }

    lemma Settings()
      ensures State().records == AsRead(contents) && State().records.Keys == contents.Keys
      ensures State().nested == nested && State().limit == limit
      ensures State().floatOf == format.read
      ensures State().numeric.Keys == numeric.Keys && State().text.Keys == text.Keys
    {
    }

    // ---------- lookups in an index ----------

    method NumericExact(field: string, x: int) returns (r: set<string>)
      requires Valid() && field in numeric
      modifies numeric.Values
      ensures Valid() && State() == old(State())
      ensures forall id :: id in r <==> (x, id) in State().numeric[field]
    {
      hide AsRead, TextOk, TextPairs, N.NumericIndex.Content, N.NumericIndex.Valid;
      r := numeric[field].ExactQuery(x);
    }

    method NumericRange(field: string, c: Cmp, bound: Option<int>) returns (r: set<string>)
      requires Valid() && field in numeric
      modifies numeric.Values
      ensures Valid() && State() == old(State())
      ensures r == IndexRange(State(), field, c, bound)
    {
      hide AsRead, TextOk, TextPairs, N.InRange, N.NumericIndex.Content, N.NumericIndex.Valid;
      var up, inclusive := c.Gt? || c.Ge?, c.Ge? || c.Le?;
      var lo := if up then bound else None;
      var hi := if up then None else bound;
      r := numeric[field].RangeQuery(lo, hi, if up then inclusive else true, if up then true else inclusive);
    }

    method TextSearch(field: string, keywords: seq<string>) returns (r: set<string>)
      requires Valid() && field in text
      modifies text.Values
      ensures Valid() && State() == old(State())
      ensures forall id :: id in r <==> AllFound(State().text[field], keywords, id)
    {
      hide AsRead, NumericOk, NumericPairs, F.Found, F.FullTextIndex.Content, F.FullTextIndex.Valid;
      r := text[field].Search(keywords, true);
    }

    // ---------- clauses ----------

    method FullScanFilter(field: string, op: Operator, t: Json) returns (r: Outcome)
      requires Valid()
      ensures ScanOutcome(State(), field, op, t, r)
    {
      hide Valid, ScanOutcome;
      r := FullScan(AsRead(contents), nested, field, op, t, State());
    }

    /** _text_match: candidates from the index, each checked against its record. */
    method TextMatch(field: string, value: string) returns (r: Outcome)
      requires Valid()
      modifies text.Values
      ensures Valid() && State() == old(State()) && ClauseOutcome(State(), field, Str(value), r)
    {
      hide AsRead, Valid, State, Tokens, AllFound;
      Settings();
      if field !in text {
        r := FullScanFilter(field, Eq, Str(value));
        return;
      }
      var stems := Tokenize(value);
      if stems == [] {
        return Ids(contents.Keys);
      }
      var candidates := TextSearch(field, stems);
      var records := AsRead(contents);
      r := Ids(set id | id in candidates && id in records && PyEq(GetField(records[id], field), Str(value)));
    }

    /** `contains` under a text index: the tokens of the keyword. */
    method EvalContains(field: string, t: Json) returns (r: Outcome)
      requires Valid() && field in text
      modifies text.Values
      ensures Valid() && State() == old(State()) && OpOutcome(State(), field, Contains, t, r)
    {
      hide AsRead, Valid, State, AllFound, Tokens;
      Settings();
      var keyword := Keyword(t);
      if keyword.None? {
        return Raised(Clash);
      }
      var stems := Tokenize(keyword.value);
      var ids := TextSearch(field, stems);
      return Ids(ids);
    }

    /** A comparison under a numeric index. */
    method EvalComparison(field: string, c: Cmp, t: Json) returns (r: Outcome)
      requires Valid() && field in numeric
      modifies numeric.Values
      ensures Valid() && State() == old(State()) && OpOutcome(State(), field, Comparison(c), t, r)
    {
      hide AsRead, Valid, State, IndexRange, BoundOf;
      Settings();
      var bound := BoundOf(format.read, t);
      if bound.None? {
        return Raised(Clash);
      }
      var ids := NumericRange(field, c, bound.value);
      return Ids(ids);
    }

    /** One operator of a dict of operators. */
    method EvalOp(field: string, op: Operator, t: Json) returns (r: Outcome)
      requires Valid()
      modifies numeric.Values, text.Values
      ensures Valid() && State() == old(State()) && OpOutcome(State(), field, op, t, r)
    {
      hide AsRead, Valid, State, OpOutcome, ScanOutcome;
      Settings();
      if op.Comparison? && field in numeric {
        r := EvalComparison(field, op.cmp, t);
      } else if op.Contains? && field in text {
        r := EvalContains(field, t);
      } else if op.Ignored? {
        r := Ids(contents.Keys);
        IgnoredOp(State(), field, t);
      } else {
        r := FullScanFilter(field, op, t);
        ScannedOp(State(), field, op, t, r);
      }
    }

    /** A dict of operators: the live ids cut down operator by operator. */
    method EvalOps(field: string, ops: map<string, Json>) returns (r: Outcome)
      requires Valid()
      modifies numeric.Values, text.Values
      ensures Valid() && State() == old(State()) && ClauseOutcome(State(), field, Obj(ops), r)
    {
      hide AsRead, Valid, State, OpHolds, OpRaises, OpOutcome;
      Settings();
      var s, todo := contents.Keys, ops.Keys;
      assert OpsSoFar(State(), field, ops, todo, s) by { NoOps(State(), field, ops); }
      while todo != {}
        invariant Valid() && State() == old(State()) && todo <= ops.Keys
        invariant OpsSoFar(State(), field, ops, todo, s)
        decreases todo
      {
        var name := P.AnyOf(todo);
        var one := EvalOp(field, OpNamed(name), ops[name]);
        if one.Raised? {
          OpRaisesClause(State(), field, ops, name, one);
          return one;
        }
        OpsStep(State(), field, ops, todo, s, name, one);
        s, todo := s * one.ids, todo - {name};
      }
      AllOps(State(), field, ops, s);
      return Ids(s);
    }

    /** _eval_field. */
    method EvalField(field: string, cond: Json) returns (r: Outcome)
      requires Valid()
      modifies numeric.Values, text.Values
      ensures Valid() && State() == old(State()) && ClauseOutcome(State(), field, cond, r)
    {
      hide AsRead, Valid, State, ScanHolds, ScanRaises;
      Settings();
      match cond
      case Null => return Ids({});
      case Bool(_) => r := EvalNumber(field, cond);
      case Num(_) => r := EvalNumber(field, cond);
      case Str(s) => r := TextMatch(field, s);
      case Arr(items) => r := EvalList(field, items);
      case Obj(ops) => r := EvalOps(field, ops);
    }

    method EvalNumber(field: string, cond: Json) returns (r: Outcome)
      requires Valid() && cond.IsNumber()
      modifies numeric.Values
      ensures Valid() && State() == old(State()) && ClauseOutcome(State(), field, cond, r)
    {
      hide AsRead, Valid, State;
      Settings();
      if field in numeric {
        var ids := NumericExact(field, cond.Number());
        return Ids(ids);
      }
      r := FullScanFilter(field, Eq, cond);
    }

    method EvalList(field: string, items: seq<Json>) returns (r: Outcome)
      requires Valid()
      modifies text.Values
      ensures Valid() && State() == old(State()) && ClauseOutcome(State(), field, Arr(items), r)
    {
      hide AsRead, Valid, State, AllFound, ScanTest;
      Settings();
      if field !in text {
        r := FullScanFilter(field, In, Arr(items));
        ListScanDoesNotRaise(State(), field, items);
        return;
      }
      var keywords := [];
      for i := 0 to |items|
        invariant forall j :: 0 <= j < i ==> Keyword(items[j]).Some?
        invariant keywords == Keywords(items)[..i]
      {
        if Keyword(items[i]).None? {
          return Raised(Clash);
        }
        keywords := keywords + [Keyword(items[i]).value];
      }
      assert keywords == Keywords(items);
      var ids := TextSearch(field, keywords);
      return Ids(ids);
    }

    // ---------- blocks ----------

    /** _eval_logic_block, with any for $or. */
    method EvalLogicBlock(any: bool, f: Json, depth: nat) returns (r: Outcome)
      requires Valid()
      modifies numeric.Values, text.Values
      ensures Valid() && State() == old(State()) && BlockOutcome(State(), any, f, depth, r)
      decreases f, 2
    {
      hide AsRead, Valid, State, EntryHolds, EntryFails;
      Settings();
      if depth > limit {
        return Raised(Recursion);
      }
      if any && !f.Arr? {
        return Raised(Syntax);
      }
      match f
      case Arr(items) =>
        if any {
          r := EvalAny(items, depth, f);
        } else if items == [] {
          r := Ids(contents.Keys);
        } else {
          r := EvalAll(items, depth, f);
        }
      case Obj(fields) => r := EvalEntries(fields, depth, f);
      case _ => r := Ids({});
    }

    /** $or: the union over the filters of the list. */
    method EvalAny(items: seq<Json>, depth: nat, ghost f: Json) returns (r: Outcome)
      requires Valid() && f == Arr(items) && depth <= limit
      modifies numeric.Values, text.Values
      ensures Valid() && State() == old(State()) && BlockOutcome(State(), true, f, depth, r)
      decreases f, 1
    {
      hide AsRead, Valid, State, BlockOutcome;
      Settings();
      var s: set<string> := {};
      ghost var outcomes: seq<Outcome> := [];
      for i := 0 to |items|
        invariant Valid() && State() == old(State()) && Evaluated(State(), items[..i], depth + 1, outcomes)
        invariant forall id :: id in s <==> exists j :: 0 <= j < i && id in outcomes[j].ids
      {
        var one := EvalLogicBlock(false, items[i], depth + 1);
        if one.Raised? {
          ItemRaises(State(), true, f, depth, i, one);
          return one;
        }
        assert items[..i + 1] == items[..i] + [items[i]];
        s, outcomes := s + one.ids, outcomes + [one];
      }
      assert items[..|items|] == items;
      ItemsJoin(State(), f, depth, outcomes, s);
      return Ids(s);
    }

    /** A list under $and: the intersection. */
    method EvalAll(items: seq<Json>, depth: nat, ghost f: Json) returns (r: Outcome)
      requires Valid() && f == Arr(items) && items != [] && depth <= limit
      modifies numeric.Values, text.Values
      ensures Valid() && State() == old(State()) && BlockOutcome(State(), false, f, depth, r)
      decreases f, 1
    {
      hide AsRead, Valid, State, BlockOutcome;
      Settings();
      r := EvalLogicBlock(false, items[0], depth + 1);
      if r.Raised? {
        ItemRaises(State(), false, f, depth, 0, r);
        return;
      }
      var s := r.ids;
      ghost var outcomes := [r];
      for i := 1 to |items|
        invariant Valid() && State() == old(State()) && Evaluated(State(), items[..i], depth + 1, outcomes)
        invariant forall id :: id in s <==> forall j :: 0 <= j < i ==> id in outcomes[j].ids
      {
        var one := EvalLogicBlock(false, items[i], depth + 1);
        if one.Raised? {
          ItemRaises(State(), false, f, depth, i, one);
          return one;
        }
        assert items[..i + 1] == items[..i] + [items[i]];
        s, outcomes := s * one.ids, outcomes + [one];
      }
      assert items[..|items|] == items;
      ItemsMeet(State(), f, depth, outcomes, s);
      return Ids(s);
    }

    /** A filter dict: every entry is evaluated, then the candidate sets are intersected. */
    method EvalEntries(fields: map<string, Json>, depth: nat, ghost f: Json) returns (r: Outcome)
      requires Valid() && f == Obj(fields) && depth <= limit
      modifies numeric.Values, text.Values
      ensures Valid() && State() == old(State()) && BlockOutcome(State(), false, f, depth, r)
      decreases f, 1
    {
      hide AsRead, Valid, State, EntryOutcome, Holds, Fails, EntryHolds, EntryFails;
      Settings();
      var candidates: seq<set<string>> := [];
      ghost var keys: seq<string> := [];
      var todo := fields.Keys;
      while todo != {}
        invariant Valid() && State() == old(State()) && todo <= fields.Keys
        invariant |keys| == |candidates| && forall k :: k in fields <==> k in keys || k in todo
        invariant forall j :: 0 <= j < |keys| ==>
          EntryOutcome(State(), keys[j], fields[keys[j]], depth + 1, Ids(candidates[j]))
        decreases todo
      {
        var key := P.AnyOf(todo);
        assert fields[key] < f;
        var one := EvalEntry(key, fields[key], depth + 1);
        if one.Raised? {
          EntryRaises(State(), f, depth, key, one);
          return one;
        }
        candidates, keys, todo := candidates + [one.ids], keys + [key], todo - {key};
      }
      if candidates == [] {
        EntriesMeet(State(), f, depth, keys, candidates, contents.Keys);
        return Ids(contents.Keys);
      }
      var s := F.Combine(candidates, true);
      EntriesMeet(State(), f, depth, keys, candidates, s);
      return Ids(s);
    }

    method EvalEntry(key: string, v: Json, depth: nat) returns (r: Outcome)
      requires Valid()
      modifies numeric.Values, text.Values
      ensures Valid() && State() == old(State()) && EntryOutcome(State(), key, v, depth, r)
      decreases v, 3
    {
      hide AsRead, Valid, State, ClauseOutcome, BlockOutcome, EntryOutcome;
      if key == "$or" || key == "$and" {
        r := EvalLogicBlock(key == "$or", v, depth);
        BlockEntry(State(), key, v, depth, r);
      } else {
        r := EvalField(key, v);
        ClauseEntry(State(), key, v, depth, r);
      }
    }

    /** The ids query() finds before sorting and paging; a falsy filter matches every live record. */
    method Query(filter: Json) returns (r: Outcome)
      requires Valid()
      modifies numeric.Values, text.Values
      ensures Valid() && State() == old(State())
      ensures !Truthy(filter) ==> r == Ids(contents.Keys)
      ensures Truthy(filter) ==> BlockOutcome(State(), false, filter, 0, r)
    {
      hide AsRead, Valid, State, BlockOutcome;
      if !Truthy(filter) {
        return Ids(contents.Keys);
      }
      r := EvalLogicBlock(false, filter, 0);
    }

    // ---------- upkeep ----------

    method OnWriteTextField(field: string, id: string, delta: map<string, Json>)
      requires TextOk() && field in text && Storable(field, id, delta)
      modifies text.Values
      ensures TextOk() && forall k :: k in text ==> text[k].inRam == old(text[k].inRam)
      ensures TextPairs() == old(TextPairs())[field := TextAfterWrite(strOf, old(TextPairs())[field], field, id, delta)]
    {
      hide TextAfterWrite, F.FullTextIndex.Valid, F.FullTextIndex.Content, Clean, ColonFree, F.NoColons, Tokens;
      TextWritten(strOf, text[field].Content(), field, id, delta);
      if field in delta {
        if !text[field].inRam { F.TokensArePrintable(text[field].Content(), strOf(delta[field]), id); }
        text[field].Add(id, strOf(delta[field]));
      }
    }

    /** What a write puts into an index outside RAM can be written to its file. */
    ghost predicate Storable(field: string, id: string, delta: map<string, Json>)
      reads this`text, text.Values
    {
      Listable(id) &&
      (field in text && !text[field].inRam && field in delta ==> F.NoColons(Tokens(strOf(delta[field]))))
    }

    method OnWriteText(id: string, delta: map<string, Json>)
      requires TextOk() && forall k :: k in text ==> Storable(k, id, delta)
      modifies text.Values
      ensures TextOk() && forall k :: k in text ==> text[k].inRam == old(text[k].inRam)
      ensures TextPairs() == map k | k in old(TextPairs()) :: TextAfterWrite(strOf, old(TextPairs())[k], k, id, delta)
    {
      hide TextAfterWrite, TextOk, TextPairs, F.NoColons, Tokens, Listable;
      ghost var pairs := TextPairs();
      TextKeys();
      var todo := text.Keys;
      while todo != {}
        invariant TextOk() && todo <= text.Keys && TextPairs().Keys == pairs.Keys == text.Keys
        invariant forall k :: k in text ==> text[k].inRam == old(text[k].inRam)
        invariant forall k :: k in pairs ==>
          TextPairs()[k] == if k in todo then pairs[k] else TextAfterWrite(strOf, pairs[k], k, id, delta)
        decreases todo
      {
        var field := P.AnyOf(todo);
        assert old(Storable(field, id, delta));
        OnWriteTextField(field, id, delta);
        todo := todo - {field};
      }
    }

    lemma TextKeys()
      ensures TextPairs().Keys == text.Keys
    {
    }

    method OnWriteNumericField(field: string, id: string, delta: map<string, Json>)
      requires NumericOk() && field in numeric && Listable(id)
      modifies numeric.Values
      ensures NumericOk()
      ensures NumericPairs()
           == old(NumericPairs())[field := NumericAfterWrite(format.read, old(NumericPairs())[field], field, id, delta)]
    {
      hide NumericAfterWrite, N.NumericIndex.Valid, N.NumericIndex.Content, N.Exact, FloatOf, Listable;
      NumericWritten(format.read, numeric[field].Content(), field, id, delta);
      if field in delta {
        var x := FloatOf(format.read, delta[field]);
        if x.Some? {
          numeric[field].Add(id, x.value);
        }
      }
    }

    method OnWriteNumeric(id: string, delta: map<string, Json>)
      requires NumericOk() && Listable(id)
      modifies numeric.Values
      ensures NumericOk()
      ensures NumericPairs()
           == map k | k in old(NumericPairs()) :: NumericAfterWrite(format.read, old(NumericPairs())[k], k, id, delta)
    {
      hide NumericAfterWrite, NumericOk, NumericPairs, Listable;
      ghost var pairs := NumericPairs();
      NumericKeys();
      var todo := numeric.Keys;
      while todo != {}
        invariant NumericOk() && todo <= numeric.Keys && NumericPairs().Keys == pairs.Keys == numeric.Keys
        invariant forall k :: k in pairs ==>
          NumericPairs()[k] == if k in todo then pairs[k] else NumericAfterWrite(format.read, pairs[k], k, id, delta)
        decreases todo
      {
        var field := P.AnyOf(todo);
        OnWriteNumericField(field, id, delta);
        todo := todo - {field};
      }
    }

    lemma NumericKeys()
      ensures NumericPairs().Keys == numeric.Keys
    {
    }

    /** on_write. */
    method OnWrite(id: string, delta: map<string, Json>)
      requires Valid() && Listable(id) && forall k :: k in text ==> Storable(k, id, delta)
      modifies text.Values, numeric.Values
      ensures Valid() && State() == AfterWrite(old(State()), strOf, id, delta)
      ensures forall k :: k in text ==> text[k].inRam == old(text[k].inRam)
    {
      hide NumericOk, TextOk, NumericPairs, TextPairs, AsRead, TextAfterWrite, NumericAfterWrite, Storable;
      OnWriteText(id, delta);
      OnWriteNumeric(id, delta);
    }

    /** rebuild_index of a full-text field: scan every live record into a new index. */
    method RebuildText(field: string, evict: bool)
      requires TextOk() && (evict ==> FieldIsStorable(strOf, contents, field))
      modifies this`text
      ensures TextOk() && TextPairs() == old(TextPairs())[field := RebuiltText(strOf, contents, field)]
    {
      hide RebuiltText, FieldIsStorable, F.FullTextIndex.Valid, F.FullTextIndex.Content, F.FullTextIndex.Writable;
      var idx := BuildText(strOf, contents, field, evict);
      text := text[field := idx];
    }

    /** rebuild_index of a numeric field. */
    method RebuildNumeric(field: string, evict: bool)
      requires NumericOk() && (evict ==> forall id :: id in contents ==> Listable(id))
      modifies this`numeric
      ensures NumericOk()
      ensures NumericPairs() == old(NumericPairs())[field := RebuiltNumeric(format.read, strOf, contents, field)]
    {
      hide RebuiltNumeric, N.NumericIndex.Valid, N.NumericIndex.Content, N.NumericIndex.Writable, N.Exact, Listable;
      var idx := BuildNumeric(format, strOf, contents, field, evict);
      numeric := numeric[field := idx];
    }
  }

  lemma TextWritten(strOf: Json -> string, content: set<(string, string)>, field: string, id: string,
                    delta: map<string, Json>)
    ensures field !in delta ==> TextAfterWrite(strOf, content, field, id, delta) == content
    ensures field in delta ==>
              TextAfterWrite(strOf, content, field, id, delta) ==
                content + F.TokenPairs(Tokens(strOf(delta[field])), id)
    ensures forall pairs :: pairs - P.Pairs<string>(map[]) == pairs
  {
  }

  lemma NumericWritten(floatOf: string -> Option<int>, content: set<(int, string)>, field: string, id: string,
                       delta: map<string, Json>)
    ensures field in delta && FloatOf(floatOf, delta[field]).Some? ==>
              NumericAfterWrite(floatOf, content, field, id, delta)
              == content + {(FloatOf(floatOf, delta[field]).value, id)}
    ensures !(field in delta && FloatOf(floatOf, delta[field]).Some?) ==>
              NumericAfterWrite(floatOf, content, field, id, delta) == content
  {
  }

  /** Every token of the field, and every id, can be written to an index file. */
  ghost predicate FieldIsStorable(strOf: Json -> string, contents: map<string, Record>, field: string)
  {
    forall id :: id in contents ==>
      Listable(id) && (GetField(contents[id], field).Null? || F.NoColons(Tokens(strOf(GetField(contents[id], field)))))
  }

  lemma RebuiltIsWritable(strOf: Json -> string, contents: map<string, Record>, field: string)
    requires FieldIsStorable(strOf, contents, field)
    ensures Clean(F.TextFormat(), RebuiltText(strOf, contents, field))
    ensures ColonFree(F.TextFormat(), RebuiltText(strOf, contents, field))
  {
    hide Tokens, GetField, Listable, IsToken;
    forall p | p in RebuiltText(strOf, contents, field)
      ensures Word(p.0) && Listable(p.1) && ':' !in p.0
    {
      TokensAreTokens(strOf(GetField(contents[p.1], field)));
      TokenIsWord(p.0);
    }
  }

  lemma TokenIsWord(t: string)
    requires IsToken(t)
    ensures Word(t)
  {
  }

  method BuildText(strOf: Json -> string, contents: map<string, Record>, field: string, evict: bool)
    returns (idx: F.FullTextIndex)
    requires evict ==> FieldIsStorable(strOf, contents, field)
    ensures fresh(idx) && idx.Valid() && idx.removeBuf == map[] && idx.Content() == RebuiltText(strOf, contents, field)
    ensures idx.inRam || idx.Writable()
  {
    hide F.FullTextIndex.Valid, F.FullTextIndex.Content, Tokens, Loaded, FieldIsStorable, Clean, ColonFree;
    EmptyFile(F.TextFormat());
    idx := new F.FullTextIndex([], false);
    var todo := contents.Keys;
    while todo != {}
      invariant fresh(idx) && idx.Valid() && idx.inRam && idx.removeBuf == map[] && todo <= contents.Keys
      invariant idx.Content() == RebuiltText(strOf, contents - todo, field)
      decreases todo
    {
      var id := P.AnyOf(todo);
      var v := GetField(contents[id], field);
      TextRebuiltStep(strOf, contents, todo, id, field);
      if !v.Null? {
        idx.Add(id, strOf(v));
      }
      todo := todo - {id};
    }
    assert contents - todo == contents;
    if evict { RebuiltIsWritable(strOf, contents, field); }
    idx.Save(evict);
  }

  lemma TextRebuiltStep(strOf: Json -> string, contents: map<string, Record>, todo: set<string>, id: string,
                        field: string)
    requires todo <= contents.Keys && id in todo
    ensures RebuiltText(strOf, contents - (todo - {id}), field)
         == RebuiltText(strOf, contents - todo, field)
            + if GetField(contents[id], field).Null? then {}
              else F.TokenPairs(Tokens(strOf(GetField(contents[id], field))), id)
  {
    hide Tokens, GetField;
    var before, after := contents - todo, contents - (todo - {id});
    assert after == before[id := contents[id]];
  }

  method BuildNumeric(format: Format<int>, strOf: Json -> string, contents: map<string, Record>, field: string,
                      evict: bool)
    returns (idx: N.NumericIndex)
    requires N.Exact(format) && (evict ==> forall id :: id in contents ==> Listable(id))
    ensures fresh(idx) && idx.Valid() && idx.removeBuf == [] && idx.format == format
    ensures idx.Content() == RebuiltNumeric(format.read, strOf, contents, field)
    ensures idx.inRam || idx.Writable()
  {
    hide N.NumericIndex.Valid, N.NumericIndex.Content, N.Exact, Loaded, Listable, RebuiltNumeric, GetField;
    EmptyFile(format);
    NothingRebuilt(format.read, strOf, contents, field);
    idx := new N.NumericIndex(format, [], false);
    var todo := contents.Keys;
    while todo != {}
      invariant fresh(idx) && idx.Valid() && idx.inRam && idx.removeBuf == [] && idx.format == format
      invariant todo <= contents.Keys && idx.Content() == RebuiltNumeric(format.read, strOf, contents - todo, field)
      decreases todo
    {
      var id := P.AnyOf(todo);
      var v := GetField(contents[id], field);
      NumericRebuiltStep(format.read, strOf, contents, todo, id, field);
      if !v.Null? && format.read(strOf(v)).Some? {
        idx.Add(id, format.read(strOf(v)).value);
      }
      todo := todo - {id};
    }
    assert contents - todo == contents;
    RebuiltIds(format.read, strOf, contents, field);
    idx.Save(evict);
  }

  lemma NothingRebuilt(floatOf: string -> Option<int>, strOf: Json -> string, contents: map<string, Record>,
                       field: string)
    ensures RebuiltNumeric(floatOf, strOf, contents - contents.Keys, field) == {}
  {
  }

  lemma RebuiltIds(floatOf: string -> Option<int>, strOf: Json -> string, contents: map<string, Record>, field: string)
    ensures forall p :: p in RebuiltNumeric(floatOf, strOf, contents, field) ==> p.1 in contents
  {
    hide GetField;
  }

  lemma NumericRebuiltStep(floatOf: string -> Option<int>, strOf: Json -> string, contents: map<string, Record>,
                           todo: set<string>, id: string, field: string)
    requires todo <= contents.Keys && id in todo
    ensures RebuiltNumeric(floatOf, strOf, contents - (todo - {id}), field)
         == RebuiltNumeric(floatOf, strOf, contents - todo, field)
            + if GetField(contents[id], field).Null? || floatOf(strOf(GetField(contents[id], field))).None? then {}
              else {(floatOf(strOf(GetField(contents[id], field))).value, id)}
  {
    hide GetField;
    var before, after := contents - todo, contents - (todo - {id});
    assert after == before[id := contents[id]];
    forall p ensures p in RebuiltNumeric(floatOf, strOf, after, field)
                <==> p in RebuiltNumeric(floatOf, strOf, before, field)
                     || (!GetField(contents[id], field).Null? && p.1 == id
                         && floatOf(strOf(GetField(contents[id], field))) == Some(p.0))
    {
      NumericRebuiltAt(floatOf, strOf, after, field, p);
      NumericRebuiltAt(floatOf, strOf, before, field, p);
    }
  }

  lemma NumericRebuiltAt(floatOf: string -> Option<int>, strOf: Json -> string, contents: map<string, Record>,
                         field: string, p: (int, string))
    ensures p in RebuiltNumeric(floatOf, strOf, contents, field)
       <==> p.1 in contents && !GetField(contents[p.1], field).Null?
            && floatOf(strOf(GetField(contents[p.1], field))) == Some(p.0)
  {
    hide GetField;
  }

  // ---------- the filters of a list ----------

  ghost predicate Evaluated(db: Db, items: seq<Json>, depth: nat, outcomes: seq<Outcome>)
  {
    |outcomes| == |items| &&
    forall j :: 0 <= j < |items| ==> outcomes[j].Ids? && BlockOutcome(db, false, items[j], depth, outcomes[j])
  }

  lemma ItemRaises(db: Db, any: bool, f: Json, depth: nat, i: nat, one: Outcome)
    requires f.Arr? && i < |f.items| && one.Raised? && BlockOutcome(db, false, f.items[i], depth + 1, one)
    ensures BlockOutcome(db, any, f, depth, one)
  {
  }

  lemma NoItemFails(db: Db, any: bool, f: Json, depth: nat, outcomes: seq<Outcome>)
    requires f.Arr? && depth <= db.limit && Evaluated(db, f.items, depth + 1, outcomes)
    ensures forall c :: !Fails(db, any, f, depth, c)
  {
    forall c ensures !Fails(db, any, f, depth, c) {
      forall j | 0 <= j < |f.items| ensures !Fails(db, false, f.items[j], depth + 1, c) {
        assert BlockOutcome(db, false, f.items[j], depth + 1, outcomes[j]);
      }
    }
  }

  lemma ItemsJoin(db: Db, f: Json, depth: nat, outcomes: seq<Outcome>, s: set<string>)
    requires f.Arr? && depth <= db.limit && Evaluated(db, f.items, depth + 1, outcomes)
    requires forall id :: id in s <==> exists j :: 0 <= j < |outcomes| && id in outcomes[j].ids
    ensures BlockOutcome(db, true, f, depth, Ids(s))
  {
    hide Fails;
    NoItemFails(db, true, f, depth, outcomes);
    forall j, id | 0 <= j < |f.items| ensures id in outcomes[j].ids <==> Holds(db, false, f.items[j], id) {
      assert BlockOutcome(db, false, f.items[j], depth + 1, outcomes[j]);
    }
  }

  lemma ItemsMeet(db: Db, f: Json, depth: nat, outcomes: seq<Outcome>, s: set<string>)
    requires f.Arr? && f.items != [] && depth <= db.limit && Evaluated(db, f.items, depth + 1, outcomes)
    requires forall id :: id in s <==> forall j :: 0 <= j < |outcomes| ==> id in outcomes[j].ids
    ensures BlockOutcome(db, false, f, depth, Ids(s))
  {
    hide Fails;
    NoItemFails(db, false, f, depth, outcomes);
    forall j, id | 0 <= j < |f.items| ensures id in outcomes[j].ids <==> Holds(db, false, f.items[j], id) {
      assert BlockOutcome(db, false, f.items[j], depth + 1, outcomes[j]);
    }
  }

  // ---------- the entries of a filter dict ----------

  lemma BlockEntry(db: Db, key: string, v: Json, depth: nat, r: Outcome)
    requires (key == "$or" || key == "$and") && BlockOutcome(db, key == "$or", v, depth, r)
    ensures EntryOutcome(db, key, v, depth, r)
  {
    forall c ensures EntryFails(db, key, v, depth, c) <==> Fails(db, key == "$or", v, depth, c) {
    }
    forall id ensures EntryHolds(db, key, v, id) <==> Holds(db, key == "$or", v, id) {
    }
  }

  lemma ClauseEntry(db: Db, key: string, v: Json, depth: nat, r: Outcome)
    requires !(key == "$or" || key == "$and") && ClauseOutcome(db, key, v, r)
    ensures EntryOutcome(db, key, v, depth, r)
  {
    hide ClauseHolds, ClauseRaises;
    forall c ensures EntryFails(db, key, v, depth, c) <==> c.Clash? && ClauseRaises(db, key, v) {
    }
    forall id ensures EntryHolds(db, key, v, id) <==> ClauseHolds(db, key, v, id) {
    }
  }

  lemma EntryRaises(db: Db, f: Json, depth: nat, key: string, one: Outcome)
    requires f.Obj? && key in f.fields && one.Raised? && EntryOutcome(db, key, f.fields[key], depth + 1, one)
    ensures BlockOutcome(db, false, f, depth, one)
  {
    hide EntryFails;
  }

  lemma EntriesMeet(db: Db, f: Json, depth: nat, keys: seq<string>, candidates: seq<set<string>>, s: set<string>)
    requires f.Obj? && depth <= db.limit && |keys| == |candidates| && forall k :: k in f.fields <==> k in keys
    requires forall j :: 0 <= j < |keys| ==>
               EntryOutcome(db, keys[j], f.fields[keys[j]], depth + 1, Ids(candidates[j]))
    requires if candidates == [] then s == db.records.Keys
             else forall id :: id in s <==> forall j :: 0 <= j < |candidates| ==> id in candidates[j]
    ensures BlockOutcome(db, false, f, depth, Ids(s))
  {
    hide EntryFails, EntryHolds;
    assert keys == [] <==> f.fields == map[] by {
      if keys != [] { assert keys[0] in f.fields; }
    }
    forall c ensures !Fails(db, false, f, depth, c) {
      forall k | k in f.fields ensures !EntryFails(db, k, f.fields[k], depth + 1, c) {
        var j :| 0 <= j < |keys| && keys[j] == k;
        assert EntryOutcome(db, k, f.fields[k], depth + 1, Ids(candidates[j]));
      }
    }
    forall id ensures id in s <==> Holds(db, false, f, id) {
      if id in s {
        forall k | k in f.fields && candidates != [] ensures EntryHolds(db, k, f.fields[k], id) {
          var j :| 0 <= j < |keys| && keys[j] == k;
        }
      }
      if candidates != [] && Holds(db, false, f, id) {
        forall j | 0 <= j < |candidates| ensures id in candidates[j] {
          assert keys[j] in f.fields;
        }
      }
    }
  }

  lemma ListScanDoesNotRaise(db: Db, field: string, items: seq<Json>)
    ensures !ScanRaises(db, field, In, Arr(items))
  {
  }

  lemma IgnoredOp(db: Db, field: string, t: Json)
    ensures OpOutcome(db, field, Ignored, t, Ids(db.records.Keys))
  {
  }

  lemma ScannedOp(db: Db, field: string, op: Operator, t: Json, r: Outcome)
    requires (op.Comparison? ==> field !in db.numeric) && (op.Contains? ==> field !in db.text) && !op.Ignored?
    requires ScanOutcome(db, field, op, t, r)
    ensures OpOutcome(db, field, op, t, r)
  {
    hide ScanHolds, ScanRaises;
  }

  // ---------- the operators of a dict, one at a time ----------

  ghost predicate OpsSoFar(db: Db, field: string, ops: map<string, Json>, todo: set<string>, s: set<string>)
  {
    && (forall name :: name in ops && name !in todo ==> !OpRaises(db, field, OpNamed(name), ops[name]))
    && (forall id :: id in s <==>
          (id in db.records &&
           forall name :: name in ops && name !in todo ==> OpHolds(db, field, OpNamed(name), ops[name], id)))
  }

  lemma NoOps(db: Db, field: string, ops: map<string, Json>)
    ensures OpsSoFar(db, field, ops, ops.Keys, db.records.Keys)
  {
    hide OpHolds, OpRaises;
  }

  lemma OpsStep(db: Db, field: string, ops: map<string, Json>, todo: set<string>, s: set<string>, name: string,
                one: Outcome)
    requires OpsSoFar(db, field, ops, todo, s) && name in todo && name in ops
    requires one.Ids? && OpOutcome(db, field, OpNamed(name), ops[name], one)
    ensures OpsSoFar(db, field, ops, todo - {name}, s * one.ids)
  {
    hide OpHolds, OpRaises;
  }

  lemma AllOps(db: Db, field: string, ops: map<string, Json>, s: set<string>)
    requires OpsSoFar(db, field, ops, {}, s)
    ensures ClauseOutcome(db, field, Obj(ops), Ids(s))
  {
    hide OpHolds, OpRaises;
  }

  lemma OpRaisesClause(db: Db, field: string, ops: map<string, Json>, name: string, one: Outcome)
    requires name in ops && one.Raised? && OpOutcome(db, field, OpNamed(name), ops[name], one)
    ensures ClauseOutcome(db, field, Obj(ops), one)
  {
    hide OpHolds, OpRaises;
  }
}
