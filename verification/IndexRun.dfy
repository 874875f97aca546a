/**
  Indexes over whole runs: writes and deletes reach the store and the query engine
  together (mkdb/db/objects/store.py:94-104, 289-303).

  Old values are never taken out, so in flat mode an index keeps every pair it needs and
  may gain stale ones.
 */
module IndexRun {
  import opened Json
  import opened Delta
  import opened Tokenizer
  import opened Store
  import opened StoreRun
  import opened Compactor
  import opened Serializer
  import opened QueryModel
  import opened QueryAgreement
  import opened IndexUpkeep
  import opened QueryEngine
  import opened PostingFile

  /** A write that is stored, and that the engine is then told of. */
  predicate Succeeds(nested: bool, contents: map<string, Record>, op: Op)
  {
    op.Write? && Merge(nested, Existing(contents, op.id), op.delta).Some?
  }

  lemma SucceedsWrites(nested: bool, contents: map<string, Record>, op: Op)
    ensures Succeeds(nested, contents, op) ==> op.Write?
  {
  }

  /** The records and indexes after one operation. */
  function StepDb(contents: map<string, Record>, db: Db, strOf: Json -> string, op: Op): Db
  {
    var records := AsRead(ApplyOp(db.nested, contents, op));
    if !Succeeds(db.nested, contents, op) then db.(records := records)
    else AfterWrite(db, strOf, op.id, Dict(op.delta)).(records := records)
  }

  function RunDb(contents: map<string, Record>, db: Db, strOf: Json -> string, ops: seq<Op>): Db
  {
    if ops == [] then db
    else
      var before := ops[..|ops| - 1];
      StepDb(Fold(db.nested, contents, before), RunDb(contents, db, strOf, before), strOf, ops[|ops| - 1])
  }

  /** A write that cannot be partitioned leaves records and indexes as they are. */
  lemma FailedWriteChangesNothing(contents: map<string, Record>, db: Db, strOf: Json -> string, op: Op)
    requires db.records == AsRead(contents)
    requires op.Write? && Merge(db.nested, Existing(contents, op.id), op.delta).None?
    ensures StepDb(contents, db, strOf, op) == db
  {
    hide AsRead, Merge;
  }

  /** What the store and the engine ask of a write. */
  ghost predicate Acceptable(e: QueryEngine, op: Op)
    reads e`text, e.text.Values
  {
    op.Write? ==> ValidId(op.id) && forall k :: k in e.text ==> e.Storable(k, op.id, Dict(op.delta))
  }

  /** The engine reads the records the store holds. */
  ghost predicate InStep(e: QueryEngine, s: Store)
    reads e, e.numeric.Values, e.text.Values, s, s.log, s.index
  {
    e.Valid() && s.Valid() && e.contents == s.Contents()
  }

  /** One operation on the store, with the engine told of it. */
  method Step(e: QueryEngine, s: Store, c: Compactor, op: Op)
    requires InStep(e, s) && c.store == s && e.nested == s.nested
    requires Acceptable(e, op) && (op.Write? ==> DistinctBlobs(s.disk.index.Keys + {op.id}))
    modifies e`contents, e.text.Values, e.numeric.Values, s`disk, s.log, s.index
    ensures InStep(e, s) && e.contents == ApplyOp(s.nested, old(e.contents), op)
    ensures e.State() == StepDb(old(e.contents), old(e.State()), e.strOf, op)
    ensures forall k :: k in e.text ==> e.text[k].inRam == old(e.text[k].inRam)
    ensures s.disk.index.Keys <= old(s.disk).index.Keys + Writes([op])
  {
    hide QueryEngine.Valid, QueryEngine.State, QueryEngine.Storable, Store.Valid, Store.Contents, ApplyOp;
    hide DistinctBlobs, Writes, ValidId, StepDb;
    Notify(e, op);
    StoreRun.Step(s, c, op);
  }

  /** The engine's part: the indexes, and the records it will read. */
  method Notify(e: QueryEngine, op: Op)
    requires e.Valid() && Acceptable(e, op)
    modifies e`contents, e.text.Values, e.numeric.Values
    ensures e.Valid() && e.contents == ApplyOp(e.nested, old(e.contents), op)
    ensures e.State() == StepDb(old(e.contents), old(e.State()), e.strOf, op)
    ensures forall k :: k in e.text ==> e.text[k].inRam == old(e.text[k].inRam)
  {
    hide QueryEngine.NumericOk, QueryEngine.TextOk, QueryEngine.NumericPairs, QueryEngine.TextPairs, AsRead, AfterWrite;
    hide QueryEngine.Storable, ApplyOp, Succeeds;
    SucceedsWrites(e.nested, e.contents, op);
    var contents := ApplyOp(e.nested, e.contents, op);
    if Succeeds(e.nested, e.contents, op) {
      e.OnWrite(op.id, Dict(op.delta));
    }
    e.contents := contents;
  }

  /** Any operations: store and engine go together, to the fold and to the indexes of RunDb. */
  method Run(e: QueryEngine, s: Store, c: Compactor, ops: seq<Op>)
    requires InStep(e, s) && c.store == s && e.nested == s.nested
    requires DistinctBlobs(s.disk.index.Keys + Writes(ops)) && forall op :: op in ops ==> Acceptable(e, op)
    modifies e`contents, e.text.Values, e.numeric.Values, s`disk, s.log, s.index
    ensures InStep(e, s) && e.contents == Fold(s.nested, old(e.contents), ops)
    ensures e.State() == RunDb(old(e.contents), old(e.State()), e.strOf, ops)
  {
    hide InStep, QueryEngine.State, ApplyOp, StepDb, Listable, ValidId, DistinctBlobs, Fold, RunDb, Writes;
    e.Settings();
    NoOps(e.contents, e.State(), e.strOf, ops);
    for i := 0 to |ops|
      invariant InStep(e, s) && e.contents == Fold(s.nested, old(e.contents), ops[..i])
      invariant e.State() == RunDb(old(e.contents), old(e.State()), e.strOf, ops[..i])
      invariant forall k :: k in e.text ==> e.text[k].inRam == old(e.text[k].inRam)
      invariant s.disk.index.Keys <= old(s.disk).index.Keys + Writes(ops)
    {
      OneMoreOp(old(e.contents), old(e.State()), e.strOf, ops, i);
      WritesOf(ops, i);
      assert Acceptable(e, ops[i]) by { assert old(Acceptable(e, ops[i])); }
      if ops[i].Write? {
        FewerBlobs(old(s.disk).index.Keys + Writes(ops), s.disk.index.Keys + {ops[i].id});
      }
      Step(e, s, c, ops[i]);
    }
    assert ops[..|ops|] == ops;
  }

  lemma NoOps(contents: map<string, Record>, db: Db, strOf: Json -> string, ops: seq<Op>)
    ensures RunDb(contents, db, strOf, ops[..0]) == db && Fold(db.nested, contents, ops[..0]) == contents
  {
  }

  lemma OneMoreOp(contents: map<string, Record>, db: Db, strOf: Json -> string, ops: seq<Op>, i: nat)
    requires i < |ops|
    ensures RunDb(contents, db, strOf, ops[..i + 1]) ==
            StepDb(Fold(db.nested, contents, ops[..i]), RunDb(contents, db, strOf, ops[..i]), strOf, ops[i])
    ensures Fold(db.nested, contents, ops[..i + 1]) == ApplyOp(db.nested, Fold(db.nested, contents, ops[..i]), ops[i])
  {
    hide StepDb, ApplyOp;
    assert ops[..i + 1][..i] == ops[..i];
  }

  // ---------- completeness ----------

  ghost predicate TextLaw(strOf: Json -> string) { forall s :: strOf(Str(s)) == s }

  ghost predicate Complete(db: Db) { CompleteNumeric(db) && CompleteText(db) }

  /** What a field of a record reads as after a flat write. */
  lemma WrittenValue(contents: map<string, Record>, op: Op, id: string, field: string)
    requires op.Write? && id in AsRead(ApplyOp(false, contents, op))
    ensures (id != op.id ==> id in contents) && (id in contents <==> id in AsRead(contents))
    ensures GetField(AsRead(ApplyOp(false, contents, op))[id], field)
         == if id == op.id && field in Dict(op.delta) then Dict(op.delta)[field]
            else if id in contents then GetField(AsRead(contents)[id], field)
            else if field == "_id" then Str(id) else Null
  {
    FlatMergeIsOverride(Existing(contents, op.id), op.delta);
  }

  lemma StepKeepsText(contents: map<string, Record>, db: Db, strOf: Json -> string, op: Op, field: string)
    requires db.records == AsRead(contents) && !db.nested && TextLaw(strOf)
    requires field in db.text && field != "_id" && CompleteTextOf(db, field, db.text[field])
    ensures CompleteTextOf(StepDb(contents, db, strOf, op), field, StepDb(contents, db, strOf, op).text[field])
  {
    hide Tokens, AsRead, GetField;
    var db' := StepDb(contents, db, strOf, op);
    forall id, t | id in db'.records && GetField(db'.records[id], field).Str? &&
                   t in Tokens(GetField(db'.records[id], field).s)
      ensures (t, id) in db'.text[field]
    {
      var v := GetField(db'.records[id], field);
      if op.Write? {
        WrittenValue(contents, op, id, field);
        assert v == Str(v.s) && strOf(v) == v.s;
      } else {
        KeptValue(contents, op, id, field);
      }
    }
  }

  lemma KeptValue(contents: map<string, Record>, op: Op, id: string, field: string)
    requires !op.Write? && id in AsRead(ApplyOp(false, contents, op))
    ensures id in AsRead(contents) && (op.Delete? ==> id != op.id)
    ensures AsRead(ApplyOp(false, contents, op))[id] == AsRead(contents)[id]
  {
  }

  lemma StepKeepsNumbers(contents: map<string, Record>, db: Db, strOf: Json -> string, op: Op, field: string)
    requires db.records == AsRead(contents) && !db.nested
    requires field in db.numeric && NumbersOf(db, field) <= db.numeric[field]
    ensures NumbersOf(StepDb(contents, db, strOf, op), field) <= StepDb(contents, db, strOf, op).numeric[field]
  {
    hide AsRead, GetField;
    var db' := StepDb(contents, db, strOf, op);
    forall id | id in db'.records && ValueOf(db', id, field).IsNumber()
      ensures (ValueOf(db', id, field).Number(), id) in db'.numeric[field]
    {
      if op.Write? {
        WrittenValue(contents, op, id, field);
      } else {
        KeptValue(contents, op, id, field);
      }
      if id in db.records && ValueOf(db, id, field) == ValueOf(db', id, field) {
        assert (ValueOf(db, id, field).Number(), id) in NumbersOf(db, field);
      }
    }
  }

  lemma StepKeepsComplete(contents: map<string, Record>, db: Db, strOf: Json -> string, op: Op)
    requires db.records == AsRead(contents) && !db.nested && TextLaw(strOf) && "_id" !in db.text && Complete(db)
    ensures Complete(StepDb(contents, db, strOf, op))
  {
    hide AsRead, CompleteTextOf, NumbersOf, TextAfterWrite, NumericAfterWrite, ApplyOp;
    var after := StepDb(contents, db, strOf, op);
    forall k | k in db.text ensures CompleteTextOf(after, k, after.text[k]) {
      StepKeepsText(contents, db, strOf, op, k);
    }
    forall k | k in db.numeric ensures NumbersOf(after, k) <= after.numeric[k] {
      StepKeepsNumbers(contents, db, strOf, op, k);
    }
  }

  lemma StepKeepsShape(contents: map<string, Record>, db: Db, strOf: Json -> string, op: Op)
    ensures StepDb(contents, db, strOf, op).records == AsRead(ApplyOp(db.nested, contents, op))
    ensures StepDb(contents, db, strOf, op).nested == db.nested && StepDb(contents, db, strOf, op).floatOf == db.floatOf
    ensures StepDb(contents, db, strOf, op).text.Keys == db.text.Keys
    ensures StepDb(contents, db, strOf, op).numeric.Keys == db.numeric.Keys
  {
    hide AsRead, TextAfterWrite, NumericAfterWrite, ApplyOp;
  }

  /** Over every run of writes, deletes and compactions a complete index stays complete. */
  lemma {:induction false} RunKeepsComplete(contents: map<string, Record>, db: Db, strOf: Json -> string, ops: seq<Op>)
    requires db.records == AsRead(contents) && !db.nested && TextLaw(strOf) && "_id" !in db.text && Complete(db)
    ensures Complete(RunDb(contents, db, strOf, ops))
    ensures RunDb(contents, db, strOf, ops).records == AsRead(Fold(false, contents, ops))
    ensures !RunDb(contents, db, strOf, ops).nested && RunDb(contents, db, strOf, ops).floatOf == db.floatOf
    ensures RunDb(contents, db, strOf, ops).text.Keys == db.text.Keys
    ensures RunDb(contents, db, strOf, ops).numeric.Keys == db.numeric.Keys
    decreases |ops|
  {
    hide AsRead, ApplyOp, StepDb, Complete;
    if ops != [] {
      var before, op := ops[..|ops| - 1], ops[|ops| - 1];
      RunKeepsComplete(contents, db, strOf, before);
      StepKeepsComplete(Fold(false, contents, before), RunDb(contents, db, strOf, before), strOf, op);
      StepKeepsShape(Fold(false, contents, before), RunDb(contents, db, strOf, before), strOf, op);
    }
  }

  // ---------- exactness ----------

  /** The value a field had, Null for a record that was not there. */
  function OldValue(db: Db, id: string, field: string): Json
  {
    if id in db.records then GetField(db.records[id], field) else Null
  }

  /** The operation leaves no pair of the field behind and adds none that a scan would not see. */
  predicate LeavesNothingStale(db: Db, op: Op, field: string)
  {
    match op
    case Write(id, delta) =>
      field in Dict(delta) ==>
        var old_, new_ := OldValue(db, id, field), Dict(delta)[field];
        && (old_.IsNumber() ==> new_.IsNumber() && new_.Number() == old_.Number())
        && (new_.Str? ==> db.floatOf(new_.s).None?)
    case Delete(id) => !OldValue(db, id, field).IsNumber()
    case Compact(_) => true
  }

  lemma NumbersAt(db: Db, field: string, p: (int, string))
    requires !db.nested
    ensures p in NumbersOf(db, field)
       <==> p.1 in db.records && GetField(db.records[p.1], field).IsNumber()
            && GetField(db.records[p.1], field).Number() == p.0
  {
    hide GetField;
  }

  /** An exact numeric index stays exact over an operation if and only if the operation leaves nothing stale. */
  lemma StepKeepsExact(contents: map<string, Record>, db: Db, strOf: Json -> string, op: Op, field: string)
    requires db.records == AsRead(contents) && !db.nested
    requires field in db.numeric && db.numeric[field] == NumbersOf(db, field)
    ensures StepDb(contents, db, strOf, op).numeric[field] == NumbersOf(StepDb(contents, db, strOf, op), field)
       <==> LeavesNothingStale(db, op, field)
  {
    hide AsRead, GetField, NumbersOf;
    var after := StepDb(contents, db, strOf, op);
    forall p: (int, string)
      ensures LeavesNothingStale(db, op, field) ==> (p in after.numeric[field] <==> p in NumbersOf(after, field))
    {
      StepAt(contents, db, strOf, op, field, p);
    }
    if !LeavesNothingStale(db, op, field) {
      var old_ := OldValue(db, op.id, field);
      var x := if old_.IsNumber() then old_.Number() else db.floatOf(Dict(op.delta)[field].s).value;
      StepAt(contents, db, strOf, op, field, (x, op.id));
      if op.Write? && Dict(op.delta)[field].Str? && db.floatOf(Dict(op.delta)[field].s).Some? {
        StepAt(contents, db, strOf, op, field, (db.floatOf(Dict(op.delta)[field].s).value, op.id));
      }
    }
  }

  /** One pair before and after an operation. */
  lemma StepAt(contents: map<string, Record>, db: Db, strOf: Json -> string, op: Op, field: string, p: (int, string))
    requires db.records == AsRead(contents) && !db.nested
    requires field in db.numeric && db.numeric[field] == NumbersOf(db, field)
    ensures p in StepDb(contents, db, strOf, op).numeric[field]
       <==> || (p.1 in db.records && OldValue(db, p.1, field).IsNumber() && OldValue(db, p.1, field).Number() == p.0)
            || (op.Write? && p.1 == op.id && field in Dict(op.delta)
                && FloatOf(db.floatOf, Dict(op.delta)[field]) == Some(p.0))
    ensures p in NumbersOf(StepDb(contents, db, strOf, op), field)
       <==> if op.Write? && p.1 == op.id && field in Dict(op.delta)
            then Dict(op.delta)[field].IsNumber() && Dict(op.delta)[field].Number() == p.0
            else !(op.Delete? && p.1 == op.id) && p.1 in db.records
                 && OldValue(db, p.1, field).IsNumber() && OldValue(db, p.1, field).Number() == p.0
  {
    hide AsRead, GetField, NumbersOf;
    var after := StepDb(contents, db, strOf, op);
    NumbersAt(db, field, p);
    NumbersAt(after, field, p);
    assert p == (p.0, p.1);
    if p.1 in after.records {
      if op.Write? {
        WrittenValue(contents, op, p.1, field);
      } else {
        KeptValue(contents, op, p.1, field);
      }
    } else {
      GoneValue(contents, op, p.1);
    }
  }

  lemma GoneValue(contents: map<string, Record>, op: Op, id: string)
    requires id !in AsRead(ApplyOp(false, contents, op))
    ensures !(op.Write? && id == op.id) && ((op.Delete? && id == op.id) || id !in AsRead(contents))
  {
    if op.Write? { FlatMergeIsOverride(Existing(contents, op.id), op.delta); }
  }

  /** No operation of the run leaves anything stale in an indexed field. */
  predicate QuietRun(contents: map<string, Record>, db: Db, strOf: Json -> string, ops: seq<Op>)
  {
    ops == [] ||
    var before, op := ops[..|ops| - 1], ops[|ops| - 1];
    && QuietRun(contents, db, strOf, before)
    && forall k :: k in db.numeric ==> LeavesNothingStale(RunDb(contents, db, strOf, before), op, k)
  }

  lemma {:induction false} QuietRunKeepsExact(contents: map<string, Record>, db: Db, strOf: Json -> string,
                                              ops: seq<Op>)
    requires db.records == AsRead(contents) && !db.nested && TextLaw(strOf) && "_id" !in db.text && Complete(db)
    requires NothingStale(db) && QuietRun(contents, db, strOf, ops)
    ensures NothingStale(RunDb(contents, db, strOf, ops))
    decreases |ops|
  {
    hide AsRead, ApplyOp, StepDb, LeavesNothingStale, NumbersOf, CompleteTextOf;
    if ops != [] {
      var before, op := ops[..|ops| - 1], ops[|ops| - 1];
      QuietRunKeepsExact(contents, db, strOf, before);
      RunKeepsComplete(contents, db, strOf, before);
      var c, mid := Fold(false, contents, before), RunDb(contents, db, strOf, before);
      StepKeepsShape(c, mid, strOf, op);
      forall k | k in mid.numeric
        ensures StepDb(c, mid, strOf, op).numeric[k] <= NumbersOf(StepDb(c, mid, strOf, op), k)
      {
        StepKeepsExact(c, mid, strOf, op, k);
      }
    }
  }

  /**
    After any run the indexes lose no answer a scan of the contents would give; after a
    run that left nothing stale they give exactly the answers of the scan.
   */
  lemma RunAnswers(contents: map<string, Record>, db: Db, strOf: Json -> string, ops: seq<Op>, f: Json, id: string)
    requires db.records == AsRead(contents) && !db.nested && TextLaw(strOf) && "_id" !in db.text && Complete(db)
    requires Supported(RunDb(contents, db, strOf, ops), f)
    ensures Holds(Unindexed(RunDb(contents, db, strOf, ops)), false, f, id)
        ==> Holds(RunDb(contents, db, strOf, ops), false, f, id)
    ensures NothingStale(db) && QuietRun(contents, db, strOf, ops) ==>
              (Holds(RunDb(contents, db, strOf, ops), false, f, id)
               <==> Holds(Unindexed(RunDb(contents, db, strOf, ops)), false, f, id))
  {
    hide Holds, Unindexed, Supported, CompleteNumeric, CompleteText, NothingStale, QuietRun, AsRead, RunDb;
    RunKeepsComplete(contents, db, strOf, ops);
    IndexesAgreeWithScan(RunDb(contents, db, strOf, ops), false, f, id);
    if NothingStale(db) && QuietRun(contents, db, strOf, ops) {
      QuietRunKeepsExact(contents, db, strOf, ops);
    }
  }

  // ---------- rebuilding ----------

  lemma AsReadField(contents: map<string, Record>, id: string, field: string)
    requires id in contents
    ensures id in AsRead(contents)
    ensures GetField(AsRead(contents)[id], field)
         == if field in contents[id].fields then contents[id].fields[field]
            else if field == "_id" then Str(id) else Null
  {
  }

  /** A rebuilt text index is complete; it is the only kind of index "_id" cannot have. */
  lemma RebuiltTextIsComplete(contents: map<string, Record>, db: Db, strOf: Json -> string, field: string)
    requires db.records == AsRead(contents) && TextLaw(strOf) && field != "_id"
    ensures CompleteTextOf(db, field, RebuiltText(strOf, contents, field))
  {
    hide Tokens;
    forall id, t | id in db.records && GetField(db.records[id], field).Str? &&
                   t in Tokens(GetField(db.records[id], field).s)
      ensures (t, id) in RebuiltText(strOf, contents, field)
    {
      AsReadField(contents, id, field);
      var v := GetField(contents[id], field);
      assert v == Str(v.s) && strOf(v) == v.s;
    }
  }

  /** Python's str() and float(): only numbers and numeric strings read as numbers, and numbers read as themselves. */
  ghost predicate NumberLaw(strOf: Json -> string, floatOf: string -> Option<int>)
  {
    && TextLaw(strOf)
    && (forall v: Json :: v.Num? ==> floatOf(strOf(v)) == Some(v.n))
    && (forall v: Json :: v.Bool? || v.Arr? || v.Obj? ==> floatOf(strOf(v)) == None)
  }

  /**
    A rebuilt numeric index covers every number exactly when no live value is a bool,
    whose text is no number; it is exact when besides no live string reads as a number.
   */
  lemma RebuiltNumbers(contents: map<string, Record>, db: Db, strOf: Json -> string, field: string)
    requires db.records == AsRead(contents) && !db.nested && NumberLaw(strOf, db.floatOf)
    ensures NumbersOf(db, field) <= RebuiltNumeric(db.floatOf, strOf, contents, field)
       <==> forall id :: id in contents ==> !GetField(contents[id], field).Bool?
    ensures NumbersOf(db, field) == RebuiltNumeric(db.floatOf, strOf, contents, field)
       <==> forall id :: id in contents ==>
              var v := GetField(contents[id], field);
              !v.Bool? && !(v.Str? && db.floatOf(v.s).Some?)
  {
    hide NumbersOf, RebuiltNumeric;
    forall p: (int, string)
      ensures p in NumbersOf(db, field) <==>
              && p.1 in contents && GetField(contents[p.1], field).IsNumber()
              && GetField(contents[p.1], field).Number() == p.0
      ensures p in RebuiltNumeric(db.floatOf, strOf, contents, field) <==>
              p.1 in contents && (GetField(contents[p.1], field) == Num(p.0)
                || (GetField(contents[p.1], field).Str? && db.floatOf(GetField(contents[p.1], field).s) == Some(p.0)))
    {
      NumbersAt(db, field, p);
      NumericRebuiltAt(db.floatOf, strOf, contents, field, p);
      if p.1 in contents {
        AsReadField(contents, p.1, field);
        var v := GetField(contents[p.1], field);
        if v.Str? { assert v == Str(v.s) && strOf(v) == v.s; }
      }
    }
    if id :| id in contents && GetField(contents[id], field).Bool? {
      assert (GetField(contents[id], field).Number(), id) in NumbersOf(db, field);
      assert (GetField(contents[id], field).Number(), id) !in RebuiltNumeric(db.floatOf, strOf, contents, field);
    }
    if id :| id in contents && GetField(contents[id], field).Str? && db.floatOf(GetField(contents[id], field).s).Some? {
      var x := db.floatOf(GetField(contents[id], field).s).value;
      assert (x, id) in RebuiltNumeric(db.floatOf, strOf, contents, field);
    }
  }
}
