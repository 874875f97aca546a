/**
  What writes and rebuilds do to the indexes: on_write and rebuild_index of
  mkdb/db/query/query_engine.py.

  on_write adds the new value and leaves the old one.  on_delete is never reached:
  store.delete drops the cached record before it looks there for the old values
  (mkdb/db/objects/store.py:291-299).
 */
module IndexUpkeep {
  import opened Json
  import opened Tokenizer
  import opened QueryModel
  import F = FullTextIndex

  /** `float(v)`; None when it raises. */
  function FloatOf(floatOf: string -> Option<int>, v: Json): Option<int>
  {
    if v.IsNumber() then Some(v.Number()) else if v.Str? then floatOf(v.s) else None
  }

  function TextAfterWrite(strOf: Json -> string, content: set<(string, string)>, field: string, id: string,
                          delta: map<string, Json>): set<(string, string)>
  {
    if field in delta then content + F.TokenPairs(Tokens(strOf(delta[field])), id) else content
  }

  function NumericAfterWrite(floatOf: string -> Option<int>, content: set<(int, string)>, field: string, id: string,
                             delta: map<string, Json>): set<(int, string)>
  {
    if field in delta && FloatOf(floatOf, delta[field]).Some?
      then content + {(FloatOf(floatOf, delta[field]).value, id)}
    else content
  }

  /** Every index after on_write. */
  function AfterWrite(db: Db, strOf: Json -> string, id: string, delta: map<string, Json>): Db
  {
    db.(text := map k | k in db.text :: TextAfterWrite(strOf, db.text[k], k, id, delta),
        numeric := map k | k in db.numeric :: NumericAfterWrite(db.floatOf, db.numeric[k], k, id, delta))
  }

  /** What a write adds to an index, pair by pair: the tokens of the new value, or the new value as a number. */
  lemma WriteAdds(db: Db, strOf: Json -> string, id: string, delta: map<string, Json>, field: string)
    ensures field in db.text ==> forall t, k ::
              (t, k) in AfterWrite(db, strOf, id, delta).text[field] <==>
              (t, k) in db.text[field] || (k == id && field in delta && t in Tokens(strOf(delta[field])))
    ensures field in db.numeric ==> forall x, k ::
              (x, k) in AfterWrite(db, strOf, id, delta).numeric[field] <==>
              (x, k) in db.numeric[field] || (k == id && field in delta &&
                (if delta[field].Str? then db.floatOf(delta[field].s) == Some(x)
                 else delta[field].IsNumber() && delta[field].Number() == x))
  {
    hide Tokens;
  }

  /** What a rebuilt text index holds, pair by pair. */
  lemma RebuiltTextAt(strOf: Json -> string, contents: map<string, Record>, field: string, t: string, id: string)
    ensures (t, id) in RebuiltText(strOf, contents, field) <==>
            id in contents && field in contents[id].fields && !contents[id].fields[field].Null?
            && t in Tokens(strOf(contents[id].fields[field]))
  {
    hide Tokens;
  }

  /** The tokens of the stored values of a field, except None. */
  function RebuiltText(strOf: Json -> string, contents: map<string, Record>, field: string): set<(string, string)>
  {
    set id, t | id in contents && !GetField(contents[id], field).Null? &&
                t in Tokens(strOf(GetField(contents[id], field))) ::
      (t, id)
  }

  /** A rebuild adds str(value), so a value is found when its text reads as a number. */
  function RebuiltNumeric(floatOf: string -> Option<int>, strOf: Json -> string, contents: map<string, Record>,
                          field: string): set<(int, string)>
  {
    set id | id in contents && !GetField(contents[id], field).Null? &&
             floatOf(strOf(GetField(contents[id], field))).Some? ::
      (floatOf(strOf(GetField(contents[id], field))).value, id)
  }
}
