/**
  Maps from an index value to the set of ids that have it, and the plain relation
  they stand for.
 */
module Postings {

  type Posting<K(==)> = map<K, set<string>>

  function Pairs<K(==)>(m: Posting<K>): set<(K, string)>
  {
    set k, id | k in m && id in m[k] :: (k, id)
  }

  /** No value is kept without ids. */
  predicate NoEmpty<K(==)>(m: Posting<K>) { forall k :: k in m ==> m[k] != {} }

  function Ids<K(==)>(m: Posting<K>, k: K): set<string>
  {
    if k in m then m[k] else {}
  }

  /** `m.setdefault(k, set()).update(ids)`. */
  function Include<K(==)>(m: Posting<K>, k: K, ids: set<string>): Posting<K>
  {
    m[k := Ids(m, k) + ids]
  }

  /** Discard one id; a value left without ids goes. */
  function Discard<K(==)>(m: Posting<K>, k: K, id: string): Posting<K>
  {
    if Ids(m, k) == {} then m
    else if m[k] - {id} == {} then m - {k}
    else m[k := m[k] - {id}]
  }

  lemma PairsAt<K>(m: Posting<K>)
    ensures forall k, id :: (k, id) in Pairs(m) <==> id in Ids(m, k)
  {
  }

  lemma IncludePairs<K>(m: Posting<K>, k: K, ids: set<string>)
    ensures Pairs(Include(m, k, ids)) == Pairs(m) + set id | id in ids :: (k, id)
    ensures NoEmpty(m) && ids != {} ==> NoEmpty(Include(m, k, ids))
  {
  }

  lemma DiscardPairs<K>(m: Posting<K>, k: K, id: string)
    ensures Pairs(Discard(m, k, id)) == Pairs(m) - {(k, id)}
    ensures NoEmpty(m) ==> NoEmpty(Discard(m, k, id))
  {
    forall p ensures p in Pairs(Discard(m, k, id)) <==> p in Pairs(m) && p != (k, id) {
      PairsAt(m);
      PairsAt(Discard(m, k, id));
      assert p == (p.0, p.1);
      assert p.1 in Ids(Discard(m, k, id), p.0) <==> p.1 in Ids(m, p.0) && !(p.0 == k && p.1 == id);
    }
  }

  /** Iteration over a set, one element at a time and in any order. */
  method AnyOf<T(==)>(s: set<T>) returns (x: T)
    requires s != {}
    ensures x in s
  {
    x :| x in s;
  }
}
