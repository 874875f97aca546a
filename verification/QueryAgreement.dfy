/**
  Queries through indexes against queries by full scan.

  A filter has no negated block, so an index that misses no pair loses no id, and an
  index without stale pairs adds none.  Text answers are checked against the records,
  so a text index may be stale; it only has to be complete.
 */
module QueryAgreement {
  import opened Json
  import opened Tokenizer
  import opened QueryModel
  import F = FullTextIndex

  /** The pairs an exact numeric index of a field has. */
  function NumbersOf(db: Db, field: string): set<(int, string)>
  {
    set id | id in db.records && ValueOf(db, id, field).IsNumber() :: (ValueOf(db, id, field).Number(), id)
  }

  ghost predicate CompleteNumeric(db: Db) { forall k :: k in db.numeric ==> NumbersOf(db, k) <= db.numeric[k] }

  ghost predicate NothingStale(db: Db) { forall k :: k in db.numeric ==> db.numeric[k] <= NumbersOf(db, k) }

  /** Every token of a live string value leads to its id. */
  ghost predicate CompleteTextOf(db: Db, field: string, content: set<(string, string)>)
  {
    forall id, t ::
      (id in db.records && GetField(db.records[id], field).Str? && t in Tokens(GetField(db.records[id], field).s))
      ==> (t, id) in content
  }

  ghost predicate CompleteText(db: Db) { forall k :: k in db.text ==> CompleteTextOf(db, k, db.text[k]) }

  // ---------- the filters for which the two readings coincide ----------

  /** Not an indexed form with a meaning of its own. */
  predicate SupportedOp(db: Db, field: string, op: Operator, t: Json)
  {
    && (op.Comparison? && field in db.numeric ==> t.IsNumber())
    && (op.Contains? ==> field !in db.text)
  }

  predicate SupportedClause(db: Db, field: string, cond: Json)
  {
    match cond
    case Str(s) => field in db.text ==> Tokens(s) != [] && !IsNestedField(db, field)
    case Arr(_) => field !in db.text
    case Obj(ops) => forall name :: name in ops ==> SupportedOp(db, field, OpNamed(name), ops[name])
    case _ => true
  }

  predicate Supported(db: Db, f: Json)
    decreases f
  {
    match f
    case Arr(items) => forall i :: 0 <= i < |items| ==> Supported(db, items[i])
    case Obj(fields) =>
      forall k :: k in fields ==>
        if k == "$or" || k == "$and" then Supported(db, fields[k]) else SupportedClause(db, k, fields[k])
    case _ => true
  }

  // ---------- clauses ----------

  lemma FoundToken(content: set<(string, string)>, t: string, id: string)
    requires IsToken(t)
    ensures id in F.Found(content, t) <==> (t, id) in content
  {
    TokenizeFixpoint(t);
    assert t in Tokens(t);
    if id in F.Found(content, t) {
      var p :| p in content && p.0 in Tokens(t) && p.1 == id;
      assert p == (t, id);
    }
  }

  /** A complete text index loses no record that has the searched value. */
  lemma PrefilterLosesNothing(db: Db, field: string, s: string, id: string)
    requires field in db.text && CompleteTextOf(db, field, db.text[field])
    requires id in db.records && GetField(db.records[id], field) == Str(s) && Tokens(s) != []
    ensures AllFound(db.text[field], Tokens(s), id)
  {
    TokensAreTokens(s);
    forall k | 0 <= k < |Tokens(s)| ensures id in F.Found(db.text[field], Tokens(s)[k]) {
      var t := Tokens(s)[k];
      assert t in Tokens(s);
      FoundToken(db.text[field], t, id);
    }
  }

  /**
    Exact matching through a complete text index gives what a scan gives, exactly when
    the searched value has a token or every live record has it.
   */
  lemma TextMatchAgrees(db: Db, field: string, s: string)
    requires field in db.text && CompleteTextOf(db, field, db.text[field]) && !IsNestedField(db, field)
    ensures (forall id :: TextHolds(db, field, s, id) <==> ScanHolds(db, field, Eq, Str(s), id))
       <==> (Tokens(s) != [] || forall id :: id in db.records ==> GetField(db.records[id], field) == Str(s))
  {
    if Tokens(s) != [] {
      forall id ensures TextHolds(db, field, s, id) <==> ScanHolds(db, field, Eq, Str(s), id) {
        TextClauseAgrees(db, field, s, id);
      }
    } else if id :| id in db.records && GetField(db.records[id], field) != Str(s) {
      assert TextHolds(db, field, s, id) && !ScanHolds(db, field, Eq, Str(s), id);
    }
  }

  lemma TextClauseAgrees(db: Db, field: string, s: string, id: string)
    requires field in db.text && CompleteTextOf(db, field, db.text[field]) && !IsNestedField(db, field)
    requires Tokens(s) != []
    ensures TextHolds(db, field, s, id) <==> ScanHolds(db, field, Eq, Str(s), id)
  {
    if id in db.records && GetField(db.records[id], field) == Str(s) {
      PrefilterLosesNothing(db, field, s, id);
    }
  }

  /** A numeric clause answers like a scan for every number exactly when the index is exact. */
  lemma NumericMatchAgrees(db: Db, field: string)
    requires field in db.numeric
    ensures (forall x, id :: NumberHolds(db, field, Num(x), id) <==> ScanHolds(db, field, Eq, Num(x), id))
       <==> db.numeric[field] == NumbersOf(db, field)
  {
    forall x, id ensures ScanHolds(db, field, Eq, Num(x), id) <==> (x, id) in NumbersOf(db, field) {
      NumberInScan(db, field, x, id);
    }
    if forall x, id :: NumberHolds(db, field, Num(x), id) <==> ScanHolds(db, field, Eq, Num(x), id) {
      forall p: (int, string) ensures p in db.numeric[field] <==> p in NumbersOf(db, field) {
        assert p == (p.0, p.1);
        assert NumberHolds(db, field, Num(p.0), p.1) <==> p in db.numeric[field];
      }
    }
  }

  lemma NumberInScan(db: Db, field: string, x: int, id: string)
    ensures ScanHolds(db, field, Eq, Num(x), id) <==> (x, id) in NumbersOf(db, field)
  {
  }

  lemma RangeInScan(db: Db, field: string, c: Cmp, t: Json, id: string)
    requires field in db.numeric && t.IsNumber()
    ensures NumbersOf(db, field) <= db.numeric[field] && ScanHolds(db, field, Comparison(c), t, id)
        ==> id in IndexRange(db, field, c, Some(t.Number()))
    ensures db.numeric[field] <= NumbersOf(db, field) && id in IndexRange(db, field, c, Some(t.Number()))
        ==> ScanHolds(db, field, Comparison(c), t, id)
  {
    if ScanHolds(db, field, Comparison(c), t, id) {
      assert (ValueOf(db, id, field).Number(), id) in NumbersOf(db, field);
    }
    if id in IndexRange(db, field, c, Some(t.Number())) {
      var p :| p in db.numeric[field] && p.1 == id && CmpNumber(c, p.0, t.Number());
    }
  }

  lemma ScanIgnoresIndexes(db: Db, field: string, op: Operator, t: Json, id: string)
    ensures ScanHolds(Unindexed(db), field, op, t, id) == ScanHolds(db, field, op, t, id)
    ensures ScanRaises(Unindexed(db), field, op, t) == ScanRaises(db, field, op, t)
  {
    hide ScanTest, ValueOf, Unindexed;
    UnindexedReads(db, field);
  }

  lemma UnindexedReads(db: Db, field: string)
    ensures Unindexed(db).records == db.records
    ensures forall k :: k in db.records ==> ValueOf(db, k, field) == ValueOf(Unindexed(db), k, field)
  {
    hide GetVal;
  }

  lemma ClauseScanned(db: Db, field: string, cond: Json, id: string)
    requires CompleteNumeric(db) && CompleteText(db) && SupportedClause(db, field, cond)
    ensures ClauseHolds(Unindexed(db), field, cond, id) ==> ClauseHolds(db, field, cond, id)
    ensures NothingStale(db) && ClauseHolds(db, field, cond, id) ==> ClauseHolds(Unindexed(db), field, cond, id)
  {
    if cond.IsNumber() {
      NumberInScan(db, field, cond.Number(), id);
    } else if cond.Str? && field in db.text {
      TextClauseAgrees(db, field, cond.s, id);
    } else if cond.Obj? {
      forall name | name in cond.fields
        ensures OpHolds(Unindexed(db), field, OpNamed(name), cond.fields[name], id)
            ==> OpHolds(db, field, OpNamed(name), cond.fields[name], id)
        ensures NothingStale(db) && OpHolds(db, field, OpNamed(name), cond.fields[name], id)
            ==> OpHolds(Unindexed(db), field, OpNamed(name), cond.fields[name], id)
      {
        OpScanned(db, field, OpNamed(name), cond.fields[name], id);
      }
    }
  }

  lemma OpScanned(db: Db, field: string, op: Operator, t: Json, id: string)
    requires CompleteNumeric(db) && SupportedOp(db, field, op, t)
    ensures OpHolds(Unindexed(db), field, op, t, id) ==> OpHolds(db, field, op, t, id)
    ensures NothingStale(db) && OpHolds(db, field, op, t, id) ==> OpHolds(Unindexed(db), field, op, t, id)
  {
    hide ScanHolds, IndexRange;
    ScanIgnoresIndexes(db, field, op, t, id);
    if op.Comparison? && field in db.numeric {
      RangeInScan(db, field, op.cmp, t, id);
    }
  }

  // ---------- whole filters ----------

  /**
    Complete indexes lose no answer of the scan, at any depth of the filter; exact ones
    answer as if there were no index.
   */
  lemma {:induction false} IndexesAgreeWithScan(db: Db, any: bool, f: Json, id: string)
    requires CompleteNumeric(db) && CompleteText(db) && Supported(db, f)
    ensures Holds(Unindexed(db), any, f, id) ==> Holds(db, any, f, id)
    ensures NothingStale(db) ==> (Holds(db, any, f, id) <==> Holds(Unindexed(db), any, f, id))
    decreases f, 0
  {
    hide ClauseHolds, CompleteNumeric, CompleteText, NothingStale;
    match f
    case Arr(items) =>
      forall i | 0 <= i < |items|
        ensures Holds(Unindexed(db), false, items[i], id) ==> Holds(db, false, items[i], id)
        ensures NothingStale(db) && Holds(db, false, items[i], id) ==> Holds(Unindexed(db), false, items[i], id)
      {
        IndexesAgreeWithScan(db, false, items[i], id);
      }
    case Obj(fields) =>
      forall k | k in fields
        ensures EntryHolds(Unindexed(db), k, fields[k], id) ==> EntryHolds(db, k, fields[k], id)
        ensures NothingStale(db) && EntryHolds(db, k, fields[k], id) ==> EntryHolds(Unindexed(db), k, fields[k], id)
      {
        if k == "$or" || k == "$and" {
          IndexesAgreeWithScan(db, k == "$or", fields[k], id);
        } else {
          ClauseScanned(db, k, fields[k], id);
        }
      }
    case _ =>
  }

  /** A supported filter that raises through the indexes also raises in a scan. */
  lemma {:induction false} IndexesRaiseNothingNew(db: Db, any: bool, f: Json, depth: nat, cause: Cause)
    requires Supported(db, f) && Fails(db, any, f, depth, cause)
    ensures Fails(Unindexed(db), any, f, depth, cause)
    decreases f, 0
  {
    hide ClauseRaises, SupportedClause;
    if i :| f.Arr? && 0 <= i < |f.items| && Fails(db, false, f.items[i], depth + 1, cause) {
      IndexesRaiseNothingNew(db, false, f.items[i], depth + 1, cause);
    } else if k :| !any && f.Obj? && k in f.fields && EntryFails(db, k, f.fields[k], depth + 1, cause) {
      if k == "$or" || k == "$and" {
        IndexesRaiseNothingNew(db, k == "$or", f.fields[k], depth + 1, cause);
      } else {
        ClauseRaisesNothingNew(db, k, f.fields[k]);
      }
      assert EntryFails(Unindexed(db), k, f.fields[k], depth + 1, cause);
    }
  }

  lemma ClauseRaisesNothingNew(db: Db, field: string, cond: Json)
    requires SupportedClause(db, field, cond) && ClauseRaises(db, field, cond)
    ensures ClauseRaises(Unindexed(db), field, cond)
  {
    if cond.Obj? {
      var name :| name in cond.fields && OpRaises(db, field, OpNamed(name), cond.fields[name]);
      ScanIgnoresIndexes(db, field, OpNamed(name), cond.fields[name], "");
      assert OpRaises(Unindexed(db), field, OpNamed(name), cond.fields[name]);
    }
  }

  // ---------- forms that mean something else under a text index ----------

  /** One record "r" whose field "f" is the given word, and an exact text index of that field. */
  function OneWord(word: string): Db
  {
    Db(map["r" := Obj(map["f" := Str(word)])], false, 12, map[], map["f" := {(word, "r")}], (s: string) => None)
  }

  lemma OneWordIsComplete(word: string)
    requires IsToken(word)
    ensures CompleteText(OneWord(word))
  {
    hide IsToken, Tokens;
    TokenizeFixpoint(word);
  }

  lemma StopWordsDoNotStartWith(c: char)
    requires c == 'm' || c == 'c'
    ensures forall w :: w in StopWords() ==> w == [] || w[0] != c
  {
  }

  /** Lower-case words over five letters. */
  lemma PlainWord(word: string)
    requires |word| > 1 && (word[0] == 'm' || word[0] == 'c') && forall c :: c in word ==> c in "campu"
    ensures IsToken(word)
  {
    hide StopWords;
    StopWordsDoNotStartWith(word[0]);
    assert word[|word| - 1] in word && word[0] in word;
    forall i | 0 <= i < |word| ensures LowerChar(word[i]) == word[i] {
      assert word[i] in word;
    }
    assert Lower(word) == word;
  }

  /** `contains` is a substring in a scan and a search for whole tokens in a text index. */
  lemma ContainsMeansTokens()
    ensures CompleteText(OneWord("cup"))
    ensures ScanHolds(OneWord("cup"), "f", Contains, Str("cu"), "r")
    ensures !OpHolds(OneWord("cup"), "f", Contains, Str("cu"), "r")
  {
    hide IsToken, Tokens, OneWord;
    PlainWord("cup");
    PlainWord("cu");
    OneWordIsComplete("cup");
    assert Lower("cu") <= Lower("cup")[0..];
    SubstringOf("cup", "cu");
    TokenizeFixpoint("cu");
    NotFound("cup", "cu");
    assert ["cu"][0] == "cu";
  }

  lemma SubstringOf(word: string, part: string)
    requires Lower(part) <= Lower(word)[0..]
    ensures ScanHolds(OneWord(word), "f", Contains, Str(part), "r")
  {
  }

  lemma NotFound(word: string, t: string)
    requires IsToken(t) && t != word
    ensures "f" in OneWord(word).text && "r" !in F.Found(OneWord(word).text["f"], t)
  {
    hide IsToken;
    FoundToken(OneWord(word).text["f"], t, "r");
  }

  /** A list is a set of allowed values in a scan and a conjunction of keywords in a text index. */
  lemma ListMeansKeywords(items: seq<Json>)
    requires items == [Str("cup"), Str("map")]
    ensures CompleteText(OneWord("cup"))
    ensures ScanHolds(OneWord("cup"), "f", In, Arr(items), "r")
    ensures !ClauseHolds(OneWord("cup"), "f", Arr(items), "r")
  {
    hide IsToken, Tokens;
    PlainWord("cup");
    PlainWord("map");
    OneWordIsComplete("cup");
    assert PyEq(items[0], Str("cup"));
    NotFound("cup", "map");
    assert Keywords(items)[1] == "map";
  }
}
