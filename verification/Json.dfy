/**
  JSON values as the server and the SDKs see them.

  Numbers are counted in units of 2^-1074, the smallest positive double: every finite
  double and every integer is a whole number of units, and Python compares ints and
  floats exactly.  Rounding is not modelled.  PyEq is Python's `==`, which identifies
  True with 1.
 */
module Json {

  datatype Option<+T> = None | Some(value: T)

  function PowerOfTwo(n: nat): (p: int)
    ensures p > 0
  {
    if n == 0 then 1 else 2 * PowerOfTwo(n - 1)
  }

  /** The number 1, in units. */
  function One(): (n: int)
    ensures n > 0
  {
    PowerOfTwo(1074)
  }

  datatype Json =
    | Null
    | Bool(b: bool)
    | Num(n: int)
    | Str(s: string)
    | Arr(items: seq<Json>)
    | Obj(fields: map<string, Json>)
  {
    predicate IsNumber() { Bool? || Num? }

    function Number(): int
      requires IsNumber()
    {
      if Num? then n else if b then One() else 0
    }
  }

  /** A record: what a store keeps under one id. */
  type Record = j: Json | j.Obj? witness Obj(map[])

  const EMPTY: Record := Obj(map[])

  /** `{"_id": record_id, **record}`. */
  function WithId(id: string, rec: Record): Record
  {
    Obj(map["_id" := Str(id)] + rec.fields)
  }

  /** Python's `a == b`. */
  predicate PyEq(a: Json, b: Json)
    decreases a
  {
    if a.IsNumber() && b.IsNumber() then a.Number() == b.Number()
    else if a.Arr? && b.Arr? then
      |a.items| == |b.items| && forall i :: 0 <= i < |a.items| ==> PyEq(a.items[i], b.items[i])
    else if a.Obj? && b.Obj? then
      a.fields.Keys == b.fields.Keys && forall k :: k in a.fields ==> PyEq(a.fields[k], b.fields[k])
    else a == b
  }
}
