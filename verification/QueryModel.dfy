/**
  What a query filter means: mkdb/db/query/query_engine.py.

  Holds says which ids a filter answers, index use included, and Fails when it
  raises.  QueryAgreement compares an engine that has indexes with one that has none
  and so scans every record.
 */
module QueryModel {
  import opened Json
  import opened Text
  import opened Delta
  import opened Tokenizer
  import N = NumericIndex
  import F = FullTextIndex

  /** What a query sees: live records as read, settings, and the relation behind each index. */
  datatype Db = Db(records: map<string, Record>, nested: bool, limit: nat,
                   numeric: map<string, set<(int, string)>>, text: map<string, set<(string, string)>>,
                   floatOf: string -> Option<int>)

  /** What store.read gives for each stored record: its fields and its id. */
  function AsRead(contents: map<string, Record>): map<string, Record>
  {
    map id | id in contents :: WithId(id, contents[id])
  }

  function Unindexed(db: Db): Db { db.(numeric := map[], text := map[]) }

  // ---------- values ----------

  function GetField(rec: Record, field: string): Json
  {
    if field in rec.fields then rec.fields[field] else Null
  }

  predicate IsNestedField(db: Db, field: string) { db.nested && '.' in field }

  /** `get_val`: a field, or in nested mode the value at a dotted path; None when missing. */
  function GetVal(nested: bool, rec: Record, field: string): Json
  {
    if nested && '.' in field then
      var v := Lookup(rec, Split(field, '.'));
      if v.Some? then v.value else Null
    else GetField(rec, field)
  }

  function ValueOf(db: Db, id: string, field: string): Json
    requires id in db.records
  {
    GetVal(db.nested, db.records[id], field)
  }

  datatype Cmp = Gt | Ge | Lt | Le

  function CmpNumber(op: Cmp, a: int, b: int): bool
  {
    match op
    case Gt => a > b
    case Ge => a >= b
    case Lt => a < b
    case Le => a <= b
  }

  /** Python's order on strings: by code point, a proper prefix first. */
  predicate StrLess(a: string, b: string)
  {
    if b == [] then false
    else if a == [] then true
    else a[0] < b[0] || (a[0] == b[0] && StrLess(a[1..], b[1..]))
  }

  /** `a op b`; None is the TypeError of values that do not compare. */
  function Compare(op: Cmp, a: Json, b: Json): Option<bool>
    decreases a
  {
    if a.IsNumber() && b.IsNumber() then Some(CmpNumber(op, a.Number(), b.Number()))
    else if a.Str? && b.Str? then
      Some(match op
           case Gt => StrLess(b.s, a.s)
           case Ge => !StrLess(a.s, b.s)
           case Lt => StrLess(a.s, b.s)
           case Le => !StrLess(b.s, a.s))
    else if a.Arr? && b.Arr? then
      var k := FirstDifference(a.items, b.items);
      if k == |a.items| || k == |b.items| then Some(CmpNumber(op, |a.items|, |b.items|))
      else Compare(op, a.items[k], b.items[k])
    else None
  }

  function FirstDifference(a: seq<Json>, b: seq<Json>): (k: nat)
    ensures k <= |a| && k <= |b|
  {
    if a == [] || b == [] || !PyEq(a[0], b[0]) then 0 else 1 + FirstDifference(a[1..], b[1..])
  }

  predicate Substring(a: string, b: string) { exists i :: 0 <= i <= |b| && a <= b[i..] }

  /** `v in t`; None is the TypeError. */
  function Member(v: Json, t: Json): Option<bool>
  {
    match t
    case Arr(items) => Some(exists i :: 0 <= i < |items| && PyEq(items[i], v))
    case Str(s) => if v.Str? then Some(Substring(v.s, s)) else None
    case Obj(fields) => if v.Arr? || v.Obj? then None else Some(v.Str? && v.s in fields)
    case _ => None
  }

  predicate Truthy(v: Json)
  {
    match v
    case Null => false
    case Bool(b) => b
    case Num(n) => n != 0
    case Str(s) => s != []
    case Arr(items) => items != []
    case Obj(fields) => fields != map[]
  }

  predicate ExistsCheck(v: Json) { !v.Null? && v != Str([]) && v != Arr([]) }

  // ---------- the operators of a field clause ----------

  datatype Operator = Comparison(cmp: Cmp) | Exists | In | Nin | Contains | Eq | Neq | Ignored

  /** The operator names, after _OP_ALIASES. */
  function OpNamed(name: string): Operator
  {
    if name == ">" || name == "gt" then Comparison(Gt)
    else if name == ">=" || name == "gte" then Comparison(Ge)
    else if name == "<" || name == "lt" then Comparison(Lt)
    else if name == "<=" || name == "lte" then Comparison(Le)
    else if name == "exists" then Exists
    else if name == "in" || name == "is_included" then In
    else if name == "nin" || name == "not_included" then Nin
    else if name == "contains" then Contains
    else if name == "eq" then Eq
    else if name == "neq" then Neq
    else Ignored
  }

  /** The test _full_scan_filter makes on one value; None when it raises. */
  function ScanTest(op: Operator, t: Json, v: Json): Option<bool>
  {
    match op
    case Comparison(c) => if v.Null? then Some(false) else Compare(c, v, t)
    case Exists => Some(ExistsCheck(v) == Truthy(t))
    case In => Member(v, t)
    case Nin => var r := Member(v, t); if r.None? then None else Some(!r.value)
    case Contains => if !v.Str? then Some(false)
                     else if t.Str? then Some(Substring(Lower(t.s), Lower(v.s))) else None
    case Eq => Some(PyEq(v, t))
    case Neq => Some(!PyEq(v, t))
    case Ignored => Some(true)
  }

  predicate ScanHolds(db: Db, field: string, op: Operator, t: Json, id: string)
  {
    id in db.records && ScanTest(op, t, ValueOf(db, id, field)) == Some(true)
  }

  predicate ScanRaises(db: Db, field: string, op: Operator, t: Json)
  {
    exists id :: id in db.records && ScanTest(op, t, ValueOf(db, id, field)) == None
  }

  /** The bound of an indexed comparison: None is open, and the outer None a failing float(). */
  function BoundOf(floatOf: string -> Option<int>, t: Json): Option<Option<int>>
  {
    if t.Null? then Some(None)
    else if t.IsNumber() then Some(Some(t.Number()))
    else if t.Str? && floatOf(t.s).Some? then Some(floatOf(t.s))
    else None
  }

  /** The ids an indexed comparison gives. */
  function IndexRange(db: Db, field: string, c: Cmp, bound: Option<int>): set<string>
    requires field in db.numeric
  {
    match c
    case Gt => N.InRange(db.numeric[field], bound, None, false, true)
    case Ge => N.InRange(db.numeric[field], bound, None, true, true)
    case Lt => N.InRange(db.numeric[field], None, bound, true, false)
    case Le => N.InRange(db.numeric[field], None, bound, true, true)
  }

  /** The text handed to the tokenizer; falsy values count as empty, others raise. */
  function Keyword(t: Json): Option<string>
  {
    if t.Str? then Some(t.s) else if Truthy(t) then None else Some([])
  }

  predicate AllFound(content: set<(string, string)>, keywords: seq<string>, id: string)
  {
    keywords != [] && forall k :: 0 <= k < |keywords| ==> id in F.Found(content, keywords[k])
  }

  predicate OpHolds(db: Db, field: string, op: Operator, t: Json, id: string)
  {
    if op.Comparison? && field in db.numeric then
      BoundOf(db.floatOf, t).Some? && id in IndexRange(db, field, op.cmp, BoundOf(db.floatOf, t).value)
    else if op.Contains? && field in db.text then
      Keyword(t).Some? && AllFound(db.text[field], Tokens(Keyword(t).value), id)
    else op.Ignored? || ScanHolds(db, field, op, t, id)
  }

  predicate OpRaises(db: Db, field: string, op: Operator, t: Json)
  {
    if op.Comparison? && field in db.numeric then BoundOf(db.floatOf, t).None?
    else if op.Contains? && field in db.text then Keyword(t).None?
    else !op.Ignored? && ScanRaises(db, field, op, t)
  }

  // ---------- one field clause ----------

  predicate ClauseHolds(db: Db, field: string, cond: Json, id: string)
  {
    match cond
    case Null => false
    case Bool(_) => NumberHolds(db, field, cond, id)
    case Num(_) => NumberHolds(db, field, cond, id)
    case Str(s) => TextHolds(db, field, s, id)
    case Arr(items) =>
      if field in db.text then
        (forall i :: 0 <= i < |items| ==> Keyword(items[i]).Some?) && AllFound(db.text[field], Keywords(items), id)
      else ScanHolds(db, field, In, cond, id)
    case Obj(ops) =>
      id in db.records && forall name :: name in ops ==> OpHolds(db, field, OpNamed(name), ops[name], id)
  }

  predicate NumberHolds(db: Db, field: string, cond: Json, id: string)
    requires cond.IsNumber()
  {
    if field in db.numeric then (cond.Number(), id) in db.numeric[field] else ScanHolds(db, field, Eq, cond, id)
  }

  /** _text_match: candidates from the index, each checked against its record. */
  predicate TextHolds(db: Db, field: string, s: string, id: string)
  {
    if field !in db.text then ScanHolds(db, field, Eq, Str(s), id)
    else id in db.records &&
         (Tokens(s) != [] ==>
           AllFound(db.text[field], Tokens(s), id) && PyEq(GetField(db.records[id], field), Str(s)))
  }

  function Keywords(items: seq<Json>): (k: seq<string>)
    ensures |k| == |items|
  {
    seq(|items|, i requires 0 <= i < |items| => if Keyword(items[i]).Some? then Keyword(items[i]).value else [])
  }

  predicate ClauseRaises(db: Db, field: string, cond: Json)
  {
    match cond
    case Arr(items) => field in db.text && exists i :: 0 <= i < |items| && Keyword(items[i]).None?
    case Obj(ops) => exists name :: name in ops && OpRaises(db, field, OpNamed(name), ops[name])
    case _ => false
  }

  // ---------- blocks ----------

  /** Which ids `_eval_logic_block` answers for a block under $or (any) or $and, when it does not raise. */
  predicate Holds(db: Db, any: bool, f: Json, id: string)
    decreases f, 0
  {
    match f
    case Arr(items) =>
      if any then exists i :: 0 <= i < |items| && Holds(db, false, items[i], id)
      else if items == [] then id in db.records
      else forall i :: 0 <= i < |items| ==> Holds(db, false, items[i], id)
    case Obj(fields) =>
      !any && if fields == map[] then id in db.records
              else forall k :: k in fields ==> EntryHolds(db, k, fields[k], id)
    case _ => false
  }

  predicate EntryHolds(db: Db, key: string, v: Json, id: string)
    decreases v, 1
  {
    if key == "$or" || key == "$and" then Holds(db, key == "$or", v, id) else ClauseHolds(db, key, v, id)
  }

  /** Why an evaluation raises: too many nested blocks, an $or that is no list, or values that do not go together. */
  datatype Cause = Recursion | Syntax | Clash

  /** Somewhere in a block that starts at the given depth there is this cause to raise. */
  predicate Fails(db: Db, any: bool, f: Json, depth: nat, cause: Cause)
    decreases f, 0
  {
    || (cause.Recursion? && depth > db.limit)
    || (cause.Syntax? && any && !f.Arr?)
    || (f.Arr? && exists i :: 0 <= i < |f.items| && Fails(db, false, f.items[i], depth + 1, cause))
    || (!any && f.Obj? && exists k :: k in f.fields && EntryFails(db, k, f.fields[k], depth + 1, cause))
  }

  predicate EntryFails(db: Db, key: string, v: Json, depth: nat, cause: Cause)
    decreases v, 1
  {
    if key == "$or" || key == "$and" then Fails(db, key == "$or", v, depth, cause)
    else cause.Clash? && ClauseRaises(db, key, v)
  }
}
