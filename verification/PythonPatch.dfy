/**
  Record tracking in the Python SDK: SnapshotBaseObject.

  The object keeps a flattened snapshot (dotted path -> leaf value) of what its `json`
  shows, which leaves out None and every key with "__".  `patch` compares the current
  flattening with the snapshot and sends a delta of dotted keys, None for a path that
  is gone.  The theorem PatchRoundTrip says exactly when the server's deep_update turns
  the old record into one that shows what the object shows; Session repeats it over any
  number of patches.
 */
module PythonPatch {
  import opened Json
  import opened Text
  import opened Delta
  import opened PutLaws
  import opened Debounce

  // ---------- json ----------

  /** `"__" in key`. */
  predicate Internal(key: string) { exists i :: 0 <= i < |key| - 1 && key[i] == '_' && key[i + 1] == '_' }

  /** A value as `json` shows it. */
  function Shown(v: Json): (r: Json)
    ensures r.Obj? == v.Obj? && r.Null? == v.Null?
    decreases v, if v.Arr? then |v.items| + 1 else 0
  {
    if v.Obj? then Obj(map k | k in v.fields && !Internal(k) && !v.fields[k].Null? :: Shown(v.fields[k]))
    else if v.Arr? then Arr(ShownItems(v, |v.items|))
    else v
  }

  /** The first n items of a list. */
  function ShownItems(v: Json, n: nat): seq<Json>
    requires v.Arr? && n <= |v.items|
    decreases v, n
  {
    if n == 0 then []
    else ShownItems(v, n - 1) + if v.items[n - 1].Null? then [] else [Shown(v.items[n - 1])]
  }

  /** _format_items, and the same loop in `json`. */
  method FormatItems(input: Json) returns (data: Json)
    ensures data == Shown(input)
    decreases input
  {
    if input.Arr? {
      var items := [];
      for n := 0 to |input.items|
        invariant items == ShownItems(input, n)
      {
        if !input.items[n].Null? {
          var item := FormatItems(input.items[n]);
          items := items + [item];
        }
      }
      return Arr(items);
    } else if input.Obj? {
      var fields := map[];
      var todo := input.fields.Keys;
      while todo != {}
        invariant todo <= input.fields.Keys
        invariant forall k :: k in fields <==> k in input.fields && k !in todo && !Internal(k) && !input.fields[k].Null?
        invariant forall k :: k in fields ==> fields[k] == Shown(input.fields[k])
        decreases todo
      {
        var key :| key in todo;
        if !Internal(key) && !input.fields[key].Null? {
          var item := FormatItems(input.fields[key]);
          fields := fields[key := item];
        }
        todo := todo - {key};
      }
      assert fields == Shown(input).fields;
      return Obj(fields);
    }
    return input;
  }

  /** Showing what is shown changes nothing. */
  lemma {:induction false} ShownTwice(v: Json)
    ensures Shown(Shown(v)) == Shown(v)
    decreases v, if v.Arr? then |v.items| + 1 else 0
  {
    if v.Obj? {
      var once := Shown(v).fields;
      forall k | k in once ensures Shown(once[k]) == once[k] && !Internal(k) && !once[k].Null? {
        ShownTwice(v.fields[k]);
      }
      assert Shown(Shown(v)).fields == once;
    } else if v.Arr? {
      ItemsTwice(v, |v.items|);
    }
  }

  lemma {:induction false} ItemsTwice(v: Json, n: nat)
    requires v.Arr? && n <= |v.items|
    ensures var items := ShownItems(v, n); ShownItems(Arr(items), |items|) == items
    decreases v, n
  {
    if n > 0 {
      ItemsTwice(v, n - 1);
      var before := ShownItems(v, n - 1);
      if v.items[n - 1].Null? {
        assert ShownItems(v, n) == before;
      } else {
        ShownTwice(v.items[n - 1]);
        var x := Shown(v.items[n - 1]);
        assert (before + [x])[..|before|] == before[..|before|];
        ShownPrefix(Arr(before), Arr(before + [x]), |before|);
      }
    }
  }

  lemma {:induction false} ShownPrefix(a: Json, b: Json, n: nat)
    requires a.Arr? && b.Arr? && n <= |a.items| <= |b.items| && a.items[..n] == b.items[..n]
    ensures ShownItems(a, n) == ShownItems(b, n)
    decreases n
  {
    if n > 0 {
      assert a.items[..n][..n - 1] == a.items[..n - 1] && b.items[..n][..n - 1] == b.items[..n - 1];
      assert a.items[..n][n - 1] == a.items[n - 1] && b.items[..n][n - 1] == b.items[n - 1];
      ShownPrefix(a, b, n - 1);
    }
  }

  /** A key is internal when it has two underscores in a row. */
  lemma InternalKeys(key: string)
    ensures Internal(key) <==> exists a, b :: key == a + "__" + b
  {
    if Internal(key) {
      var i :| 0 <= i < |key| - 1 && key[i] == '_' && key[i + 1] == '_';
      assert key == key[..i] + "__" + key[i + 2..];
    }
    if a, b :| key == a + "__" + b {
      assert key[|a|] == '_' && key[|a| + 1] == '_';
    }
  }

  /**
    Where the shown items of a list come from: in order, from every place that does not hold
    None, and from no other.
   */
  ghost predicate Places(v: Json, n: nat, at: seq<nat>)
    requires v.Arr? && n <= |v.items|
  {
    && (forall j, k :: 0 <= j < k < |at| ==> at[j] < at[k])
    && (forall i: nat :: i in at <==> i < n && !v.items[i].Null?)
  }

  lemma {:induction false} ShownPlaces(v: Json, n: nat) returns (at: seq<nat>)
    requires v.Arr? && n <= |v.items|
    ensures Places(v, n, at) && |ShownItems(v, n)| == |at|
    ensures forall k :: 0 <= k < |at| ==> at[k] in at && at[k] < n && ShownItems(v, n)[k] == Shown(v.items[at[k]])
    decreases n
  {
    hide Shown;
    if n == 0 {
      at := [];
    } else {
      at := ShownPlaces(v, n - 1);
      if !v.items[n - 1].Null? { at := at + [n - 1]; }
    }
  }

  /** A list is shown item by item, in order, without its Nones. */
  lemma ShownList(v: Json) returns (at: seq<nat>)
    requires v.Arr?
    ensures Shown(v).Arr? && Places(v, |v.items|, at) && |Shown(v).items| == |at|
    ensures forall k :: 0 <= k < |at| ==> at[k] < |v.items| && Shown(v).items[k] == Shown(v.items[at[k]])
  {
    at := ShownPlaces(v, |v.items|);
  }

  /** Nothing in the value is left out by `json`, at any depth. */
  predicate ShownWhole(v: Json)
    decreases v
  {
    && (v.Arr? ==> forall i :: 0 <= i < |v.items| ==> !v.items[i].Null? && ShownWhole(v.items[i]))
    && (v.Obj? ==> forall k :: k in v.fields ==> !Internal(k) && !v.fields[k].Null? && ShownWhole(v.fields[k]))
  }

  /** A value is shown as it is exactly when it has no None in a list or a dict, and no internal key, at any depth. */
  lemma {:induction false} ShownUnchanged(v: Json)
    ensures Shown(v) == v <==> ShownWhole(v)
    decreases v
  {
    hide Internal;
    if v.Arr? {
      forall i | 0 <= i < |v.items| ensures Shown(v.items[i]) == v.items[i] <==> ShownWhole(v.items[i]) {
        ShownUnchanged(v.items[i]);
      }
      ItemsUnchanged(v);
    } else if v.Obj? {
      forall k | k in v.fields ensures Shown(v.fields[k]) == v.fields[k] <==> ShownWhole(v.fields[k]) {
        ShownUnchanged(v.fields[k]);
      }
      var shown := Shown(v).fields;
      if shown == v.fields {
        forall k | k in v.fields ensures !Internal(k) && !v.fields[k].Null? && Shown(v.fields[k]) == v.fields[k] {
          assert k in shown;
        }
      }
      if ShownWhole(v) { assert shown == v.fields; }
    }
  }

  lemma ItemsUnchanged(v: Json)
    requires v.Arr?
    ensures ShownItems(v, |v.items|) == v.items <==>
            forall i :: 0 <= i < |v.items| ==> !v.items[i].Null? && Shown(v.items[i]) == v.items[i]
  {
    hide Shown, ShownItems;
    var n, at := |v.items|, [];
    at := ShownPlaces(v, n);
    Full(v, n, at);
    var shown := ShownItems(v, n);
    if |at| == n {
      assert forall i :: 0 <= i < n ==> at[i] == i;
      assert shown == v.items <==> forall i :: 0 <= i < n ==> shown[i] == v.items[i];
    }
  }

  /** All places are taken exactly when no item is None, and then each by itself. */
  lemma {:induction false} Full(v: Json, n: nat, at: seq<nat>)
    requires v.Arr? && n <= |v.items| && Places(v, n, at)
    ensures |at| <= n
    ensures |at| == n <==> forall i :: 0 <= i < n ==> !v.items[i].Null?
    ensures |at| == n ==> forall i :: 0 <= i < n ==> at[i] == i
    decreases n
  {
    forall k | 0 <= k < |at| ensures at[k] < n {
      var i := at[k];
      assert i in at;
    }
    if n > 0 {
      var last := |at| - 1;
      if (n - 1) in at {
        assert forall k :: 0 <= k < last ==> at[k] < at[last];
        assert at[last] == n - 1;
        ButLastPlaces(v, n, at);
        Full(v, n - 1, at[..last]);
      } else {
        Full(v, n - 1, at);
      }
    }
  }

  lemma ButLastPlaces(v: Json, n: nat, at: seq<nat>)
    requires v.Arr? && 0 < n <= |v.items| && Places(v, n, at) && at != [] && at[|at| - 1] == n - 1
    ensures Places(v, n - 1, at[..|at| - 1])
  {
    var before := at[..|at| - 1];
    assert at == before + [n - 1];
    forall i: nat ensures i in before <==> i < n - 1 && !v.items[i].Null? {
      if i in before {
        var k :| 0 <= k < |before| && before[k] == i;
        assert at[k] == i && at[k] < at[|at| - 1];
      }
    }
  }

  /** A path whose keys are all shown. */
  predicate Open(q: Path) { forall i :: 0 <= i < |q| ==> !Internal(q[i]) }

  /** The leaf the SDK shows at q. */
  function ShownLeaf(t: Json, q: Path): Option<Json>
  {
    if Open(q) && LeafAt(t, q).Some? && !LeafAt(t, q).value.Null? then Some(Shown(LeafAt(t, q).value)) else None
  }

  lemma {:induction false} LeavesOfShown(t: Json, q: Path)
    requires !t.Null?
    ensures LeafAt(Shown(t), q) == ShownLeaf(t, q)
    decreases |q|
  {
    if q != [] && t.Obj? {
      assert Open(q) <==> !Internal(q[0]) && Open(q[1..]) by {
        if !Internal(q[0]) && Open(q[1..]) {
          forall i | 0 <= i < |q| ensures !Internal(q[i]) { if i > 0 { assert q[i] == q[1..][i - 1]; } }
        }
      }
      LeafBelow(t, q);
      LeafBelow(Shown(t), q);
      if q[0] in t.fields {
        LeafOfScalar(t.fields[q[0]], q[1..]);
        if !t.fields[q[0]].Null? { LeavesOfShown(t.fields[q[0]], q[1..]); }
      }
    }
  }

  // ---------- flattening ----------

  /** The dotted names of the leaves of `data`, with their values. */
  ghost predicate IsFlattening(flat: map<string, Json>, data: Json, prefix: string)
  {
    && (forall s :: s in flat ==> exists p :: NamesLeaf(data, prefix, p, s) && Lookup(data, p).value == flat[s])
    && (forall p :: p != [] && IsLeaf(data, p) ==> prefix + Join(p, '.') in flat)
  }

  predicate NamesLeaf(data: Json, prefix: string, p: Path, s: string)
  {
    p != [] && IsLeaf(data, p) && s == prefix + Join(p, '.')
  }

  method Flatten(data: Record, prefix: string) returns (res: map<string, Json>)
    ensures IsFlattening(res, data, prefix)
    decreases data
  {
    hide Lookup, Join;
    LeavesLieBelow(data);
    res := map[];
    var todo := data.fields.Keys;
    ghost var done := {};
    while todo != {}
      invariant todo <= data.fields.Keys && done == data.fields.Keys - todo
      invariant forall s :: s in res ==>
                  exists p :: NamesLeaf(data, prefix, p, s) && Lookup(data, p).value == res[s]
      invariant forall p :: p != [] && IsLeaf(data, p) && p[0] in done ==> prefix + Join(p, '.') in res
      decreases todo
    {
      var k :| k in todo;
      var v := data.fields[k];
      var key := prefix + k;
      if v.Obj? {
        var below := Flatten(v, key + ".");
        FlattenBranch(data, prefix, k, below);
        res := res + below;
      } else {
        res := res[key := v];
        FlattenLeaf(data, prefix, k);
      }
      todo := todo - {k};
      done := done + {k};
    }
  }

  lemma LeavesLieBelow(data: Record)
    ensures forall p :: IsLeaf(data, p) ==> p != [] && p[0] in data.fields
  {
  }

  lemma FlattenLeaf(data: Record, prefix: string, k: string)
    requires k in data.fields && !data.fields[k].Obj?
    ensures NamesLeaf(data, prefix, [k], prefix + k) && Lookup(data, [k]).value == data.fields[k]
    ensures forall p :: p != [] && IsLeaf(data, p) && p[0] == k ==> p == [k]
  {
    assert Lookup(data, [k]) == Lookup(data.fields[k], [k][1..]);
    forall p | p != [] && IsLeaf(data, p) && p[0] == k ensures p == [k] {
      assert Lookup(data, p) == Lookup(data.fields[k], p[1..]);
    }
  }

  lemma FlattenBranch(data: Record, prefix: string, k: string, below: map<string, Json>)
    requires k in data.fields && data.fields[k].Obj?
    requires IsFlattening(below, data.fields[k], prefix + k + ".")
    ensures forall s :: s in below ==>
              exists p :: NamesLeaf(data, prefix, p, s) && Lookup(data, p).value == below[s]
    ensures forall p :: p != [] && IsLeaf(data, p) && p[0] == k ==> prefix + Join(p, '.') in below
  {
    var v := data.fields[k];
    forall s | s in below
      ensures exists p :: NamesLeaf(data, prefix, p, s) && Lookup(data, p).value == below[s]
    {
      var q :| NamesLeaf(v, prefix + k + ".", q, s) && Lookup(v, q).value == below[s];
      assert ([k] + q)[1..] == q;
      assert prefix + k + "." + Join(q, '.') == prefix + (k + "." + Join(q, '.'));
      assert NamesLeaf(data, prefix, [k] + q, s);
    }
    forall p | p != [] && IsLeaf(data, p) && p[0] == k
      ensures prefix + Join(p, '.') in below
    {
      assert Lookup(data, p) == Lookup(v, p[1..]);
      assert prefix + k + "." + Join(p[1..], '.') == prefix + Join(p, '.');
    }
  }

  // ---------- the snapshot object ----------

  /** The loop test of `patch` for updates and additions. */
  predicate Changed(original: map<string, Json>, current: map<string, Json>, k: string)
  {
    k in current && (k !in original || !PyEq(original[k], current[k]))
  }

  predicate Gone(original: map<string, Json>, current: map<string, Json>, k: string)
  {
    k in original && k !in current
  }

  predicate HasChange(d: seq<Change>, k: string) { exists i :: 0 <= i < |d| && d[i].key == k }

  /** One change per updated or added path, in any order. */
  predicate IsUpdates(d: seq<Change>, original: map<string, Json>, current: map<string, Json>)
  {
    && (forall i :: 0 <= i < |d| ==> Changed(original, current, d[i].key) && d[i].value == current[d[i].key])
    && (forall k :: k in current && Changed(original, current, k) ==> HasChange(d, k))
    && (forall i, j :: 0 <= i < j < |d| ==> d[i].key != d[j].key)
  }

  /** One None per path that is gone, in any order. */
  predicate IsRemovals(d: seq<Change>, original: map<string, Json>, current: map<string, Json>)
  {
    && (forall i :: 0 <= i < |d| ==> Gone(original, current, d[i].key) && d[i].value == Null)
    && (forall k :: k in original && Gone(original, current, k) ==> HasChange(d, k))
    && (forall i, j :: 0 <= i < j < |d| ==> d[i].key != d[j].key)
  }

  method DetectUpdates(original: map<string, Json>, current: map<string, Json>) returns (delta: seq<Change>)
    ensures IsUpdates(delta, original, current)
  {
    delta := [];
    var todo := current.Keys;
    while todo != {}
      invariant todo <= current.Keys
      invariant forall i :: 0 <= i < |delta| ==>
                  Changed(original, current, delta[i].key) && delta[i].value == current[delta[i].key] &&
                  delta[i].key !in todo
      invariant forall k :: k in current && k !in todo && Changed(original, current, k) ==> HasChange(delta, k)
      invariant forall i, j :: 0 <= i < j < |delta| ==> delta[i].key != delta[j].key
      decreases todo
    {
      var k :| k in todo;
      if k !in original || !PyEq(original[k], current[k]) {
        HasChangeAppend(delta, Change(k, current[k]));
        delta := delta + [Change(k, current[k])];
      }
      todo := todo - {k};
    }
  }

  method DetectRemovals(original: map<string, Json>, current: map<string, Json>) returns (delta: seq<Change>)
    ensures IsRemovals(delta, original, current)
  {
    delta := [];
    var todo := original.Keys;
    while todo != {}
      invariant todo <= original.Keys
      invariant forall i :: 0 <= i < |delta| ==>
                  Gone(original, current, delta[i].key) && delta[i].value == Null && delta[i].key !in todo
      invariant forall k :: k in original && k !in todo && Gone(original, current, k) ==> HasChange(delta, k)
      invariant forall i, j :: 0 <= i < j < |delta| ==> delta[i].key != delta[j].key
      decreases todo
    {
      var k :| k in todo;
      if k !in current {
        HasChangeAppend(delta, Change(k, Null));
        delta := delta + [Change(k, Null)];
      }
      todo := todo - {k};
    }
  }

  lemma HasChangeAppend(d: seq<Change>, c: Change)
    ensures forall k :: HasChange(d + [c], k) <==> HasChange(d, k) || k == c.key
  {
    forall k ensures HasChange(d + [c], k) <==> HasChange(d, k) || k == c.key {
      if HasChange(d, k) {
        var i :| 0 <= i < |d| && d[i].key == k;
        assert (d + [c])[i].key == k;
      }
      assert (d + [c])[|d|] == c;
    }
  }

  /** What a call of patch comes to; the delta sent, in its two parts. */
  datatype Patched =
    | Unbound                                                  // ValueError
    | Unchanged                                                // returns None
    | Sent(updates: seq<Change>, removals: seq<Change>)
    | Failed(updates: seq<Change>, removals: seq<Change>)      // the client call raised

  class SnapshotBaseObject {
    var data: Record
    var original: map<string, Json>
    var store: string
    var id: string
    var hasClient: bool

    constructor (data: Record, store: string, id: string, hasClient: bool)
      ensures this.data == data && this.store == store && this.id == id && this.hasClient == hasClient
      ensures IsFlattening(original, Shown(data), "")
    {
      var json := FormatItems(data);
      var snapshot := Flatten(json, "");
      this.data, this.store, this.id, this.hasClient := data, store, id, hasClient;
      original := snapshot;
    }

    method Bind(store: string, id: string, hasClient: bool)
      modifies `original, `store, `id, `hasClient
      ensures this.store == store && this.id == id && this.hasClient == hasClient
      ensures IsFlattening(original, Shown(data), "")
    {
      this.store, this.id, this.hasClient := store, id, hasClient;
      var json := FormatItems(data);
      original := Flatten(json, "");
    }

    /** `answers` is whether the client's call returns; `current` is the new flattening. */
    method Patch(answers: bool) returns (r: Patched, current: map<string, Json>)
      modifies `original
      ensures r.Unbound? <==> !hasClient || store == "" || id == ""
      ensures !r.Unbound? ==> IsFlattening(current, Shown(data), "")
      ensures r.Sent? || r.Failed? ==>
                && IsUpdates(r.updates, old(original), current) && IsRemovals(r.removals, old(original), current)
                && r.updates + r.removals != [] && r.Sent? == answers
      ensures r.Unchanged? ==> IsUpdates([], old(original), current) && IsRemovals([], old(original), current)
      ensures original == if r.Sent? then current else old(original)
    {
      if !hasClient || store == "" || id == "" {
        return Unbound, map[];
      }
      var json := FormatItems(data);
      current := Flatten(json, "");
      var updates := DetectUpdates(original, current);
      var removals := DetectRemovals(original, current);
      if updates + removals == [] {
        assert updates == [] && removals == [];
        return Unchanged, current;
      }
      if !answers {
        return Failed(updates, removals), current;
      }
      original := current;
      return Sent(updates, removals), current;
    }
  }

  // ---------- the round trip ----------

  predicate Visible(t: Json, q: Path) { ShownLeaf(t, q).Some? }

  /** `flat` is what the client sees of `t`. */
  ghost predicate IsView(flat: map<string, Json>, t: Json)
  {
    forall s ::
      && (s in flat <==> Visible(t, Split(s, '.')))
      && (s in flat ==> Some(flat[s]) == ShownLeaf(t, Split(s, '.')))
  }

  /** The same leaves are shown. */
  ghost predicate SameLeaves(a: Json, b: Json)
  {
    forall q :: q != [] ==> ShownLeaf(a, q) == ShownLeaf(b, q)
  }

  /** No leaf that is shown has a key with a dot on its path. */
  ghost predicate Dotless(t: Json)
  {
    forall q :: Visible(t, q) ==> NoDots(q)
  }

  predicate NoDots(q: Path) { forall i :: 0 <= i < |q| ==> '.' !in q[i] }

  /** A leaf became a dict, or a dict became a leaf. */
  predicate Crossing(original: map<string, Json>, current: map<string, Json>)
  {
    exists s, t :: s in original && t in current &&
      (ProperPrefix(Split(s, '.'), Split(t, '.')) || ProperPrefix(Split(t, '.'), Split(s, '.')))
  }

  /** A value was replaced by a different one that Python calls equal, such as 1 by True. */
  predicate Unnoticed(original: map<string, Json>, current: map<string, Json>)
  {
    exists s :: s in original && s in current && original[s] != current[s] && PyEq(original[s], current[s])
  }

  /** Where no key has a dot, the flattening loses nothing: dotted names and leaf paths correspond. */
  lemma FlatteningIsView(flat: map<string, Json>, t: Record)
    requires Dotless(t) && IsFlattening(flat, Shown(t), "")
    ensures IsView(flat, t)
  {
    forall s {
      FlatteningAt(flat, t, s);
    }
  }

  lemma FlatteningAt(flat: map<string, Json>, t: Record, s: string)
    requires Dotless(t) && IsFlattening(flat, Shown(t), "")
    ensures s in flat <==> Visible(t, Split(s, '.'))
    ensures s in flat ==> Some(flat[s]) == ShownLeaf(t, Split(s, '.'))
  {
    hide Join, Split, Lookup, Shown, ShownLeaf;
    JoinSplit(s, '.');
    assert "" + s == s;
    LeavesOfShown(t, Split(s, '.'));
    if s in flat {
      var p :| NamesLeaf(Shown(t), "", p, s) && Lookup(Shown(t), p).value == flat[s];
      LeavesOfShown(t, p);
      assert Visible(t, p);
      SplitJoin(p, '.');
      assert "" + Join(p, '.') == Join(p, '.');
    }
  }

  // ---------- leaves after a whole delta ----------

  /** Removals only remove, and remove all of what they name. */
  lemma {:induction false} LeavesAfterRemovals(t: Record, d: seq<Change>, q: Path)
    requires forall c :: c in d ==> c.value == Null
    ensures LeafAt(PutAll(t, d), q) == if exists c :: c in d && c.Path() <= q then None else LeafAt(t, q)
    decreases |d|
  {
    if d != [] {
      var d', c := d[..|d| - 1], d[|d| - 1];
      assert d == d' + [c];
      LeavesAfterRemovals(t, d', q);
      LeavesAfterPut(PutAll(t, d'), c.Path(), c.value, q);
    }
  }

  /** A leaf no update touches is kept. */
  lemma {:induction false} LeafKept(t: Record, d: seq<Change>, q: Path)
    requires Flat(d) && forall c :: c in d ==> !Comparable(c.Path(), q)
    ensures LeafAt(PutAll(t, d), q) == LeafAt(t, q)
    decreases |d|
  {
    if d != [] {
      LeafKept(t, d[..|d| - 1], q);
      LeavesAfterPut(PutAll(t, d[..|d| - 1]), d[|d| - 1].Path(), d[|d| - 1].value, q);
    }
  }

  /** No leaf appears except where an update puts one. */
  lemma {:induction false} NoNewLeaf(t: Record, d: seq<Change>, q: Path)
    requires Flat(d) && forall c :: c in d ==> c.Path() != q
    ensures LeafAt(PutAll(t, d), q).None? || LeafAt(PutAll(t, d), q) == LeafAt(t, q)
    decreases |d|
  {
    if d != [] {
      NoNewLeaf(t, d[..|d| - 1], q);
      LeavesAfterPut(PutAll(t, d[..|d| - 1]), d[|d| - 1].Path(), d[|d| - 1].value, q);
    }
  }

  /** An update's leaf stands, when the updates are apart. */
  lemma {:induction false} LeafWritten(t: Record, d: seq<Change>, i: nat)
    requires Flat(d) && NoNull(d) && PrefixFree(d) && i < |d|
    ensures LeafAt(PutAll(t, d), d[i].Path()) == Some(d[i].value)
    decreases |d|
  {
    var n := |d| - 1;
    LeavesAfterPut(PutAll(t, d[..n]), d[n].Path(), d[n].value, d[i].Path());
    if i < n {
      assert forall j :: 0 <= j < n ==> d[..n][j] == d[j];
      assert PrefixFree(d[..n]);
      LeafWritten(t, d[..n], i);
      assert !Comparable(d[i].Path(), d[n].Path());
    }
  }

  lemma {:induction false} LookupHasParent(t: Json, p: Path)
    requires |p| > 0 && Lookup(t, p).Some?
    ensures HasParent(t, p)
    decreases |p|
  {
    if |p| > 1 { LookupHasParent(t.fields[p[0]], p[1..]); }
  }

  lemma {:induction false} PutAllConcat(t: Record, d: seq<Change>, e: seq<Change>)
    ensures PutAll(t, d + e) == PutAll(PutAll(t, d), e)
    decreases |e|
  {
    if e == [] {
      assert d + e == d;
    } else {
      assert (d + e)[..|d + e| - 1] == d + e[..|e| - 1];
      PutAllConcat(t, d, e[..|e| - 1]);
    }
  }

  /** Two names in one view never lie below one another. */
  lemma ViewPrefixFree(flat: map<string, Json>, t: Json, s: string, s': string)
    requires IsView(flat, t) && s in flat && s' in flat
    ensures !ProperPrefix(Split(s, '.'), Split(s', '.'))
  {
    if ProperPrefix(Split(s, '.'), Split(s', '.')) { DictAbove(t, Split(s, '.'), Split(s', '.')); }
  }

  /** One call of patch: the server's record, the tracked object, the two flattenings and the delta. */
  datatype Exchange = Exchange(server: Record, tracked: Record,
                               original: map<string, Json>, current: map<string, Json>,
                               updates: seq<Change>, removals: seq<Change>)
  {
    ghost predicate Sound()
    {
      && IsView(original, server) && IsView(current, tracked)
      && IsUpdates(updates, original, current) && IsRemovals(removals, original, current)
    }

    function Delta(): seq<Change> { updates + removals }
  }

  /** The parts of a patch delta, as the laws of Put need them. */
  lemma PatchShape(x: Exchange)
    requires x.Sound()
    ensures Flat(x.Delta()) && Flat(x.updates) && NoNull(x.updates) && PrefixFree(x.updates)
    ensures forall c :: c in x.removals ==> c.value == Null
    ensures RemovalsHaveParents(x.server, x.Delta())
  {
    hide Split, Shown, PyEq;
    forall c | c in x.updates ensures !c.value.Obj? && !c.value.Null? {
      ViewLeaf(x.current, x.tracked, c.key);
    }
    UpdatesApart(x);
    forall c | c in x.removals ensures HasParent(x.server, c.Path()) {
      ViewLeaf(x.original, x.server, c.key);
      LookupHasParent(x.server, c.Path());
    }
  }

  lemma ViewLeaf(flat: map<string, Json>, t: Json, s: string)
    requires IsView(flat, t) && s in flat
    ensures !flat[s].Obj? && !flat[s].Null? && Lookup(t, Split(s, '.')).Some?
  {
    hide Split;
  }

  lemma UpdatesApart(x: Exchange)
    requires x.Sound()
    ensures PrefixFree(x.updates)
  {
    hide Split, IsView, PyEq;
    var u := x.updates;
    forall i, j | 0 <= i < j < |u| ensures !Comparable(u[i].Path(), u[j].Path()) {
      ViewPrefixFree(x.current, x.tracked, u[i].key, u[j].key);
      ViewPrefixFree(x.current, x.tracked, u[j].key, u[i].key);
      SplitInjective(u[i].key, u[j].key, '.');
    }
  }

  /** Nothing in a patch delta lies below anything else, unless a leaf and a dict changed places. */
  lemma PatchPartitions(x: Exchange)
    requires x.Sound() && !Crossing(x.original, x.current)
    ensures Partition(x.Delta()).Some?
  {
    PatchShape(x);
    var d := x.Delta();
    forall i, j | 0 <= i < j < |d| ensures !ProperPrefix(d[i].Path(), d[j].Path()) {
      var s, s' := d[i].key, d[j].key;
      if s in x.current && s' in x.current { ViewPrefixFree(x.current, x.tracked, s, s'); }
      if s in x.original && s' in x.original { ViewPrefixFree(x.original, x.server, s, s'); }
    }
    PartitionSucceeds(d);
  }

  /** What is sent is merged as the updates followed by the removals. */
  lemma PatchMerge(x: Exchange)
    requires x.Sound() && Partition(x.Delta()).Some?
    ensures DeepUpdate(x.server, Partition(x.Delta()).value) == PutAll(PutAll(x.server, x.updates), x.removals)
  {
    PatchShape(x);
    DeepUpdateIsMakeAll(x.server, x.Delta());
    PutAllConcat(x.server, x.updates, x.removals);
  }

  lemma RemovalsMiss(x: Exchange, s: string)
    requires x.Sound() && !Crossing(x.original, x.current) && s in x.current
    ensures forall c :: c in x.removals ==> !(c.Path() <= Split(s, '.'))
  {
    forall c | c in x.removals ensures !(c.Path() <= Split(s, '.')) {
      assert c.key in x.original && c.key !in x.current;
      SplitInjective(c.key, s, '.');
      assert !ProperPrefix(Split(c.key, '.'), Split(s, '.'));
    }
  }

  lemma UpdatesMiss(x: Exchange, s: string)
    requires x.Sound() && s in x.current && !Changed(x.original, x.current, s)
    ensures forall c :: c in x.updates ==> !Comparable(c.Path(), Split(s, '.'))
  {
    forall c | c in x.updates ensures !Comparable(c.Path(), Split(s, '.')) {
      ViewPrefixFree(x.current, x.tracked, c.key, s);
      ViewPrefixFree(x.current, x.tracked, s, c.key);
      SplitInjective(c.key, s, '.');
    }
  }

  /** What the server holds at a name the object has. */
  lemma LeafOfPresentName(x: Exchange, s: string)
    requires x.Sound() && !Crossing(x.original, x.current) && s in x.current
    ensures ShownLeaf(PutAll(PutAll(x.server, x.updates), x.removals), Split(s, '.')) ==
            Some(if Changed(x.original, x.current, s) then x.current[s] else x.original[s])
  {
    var q := Split(s, '.');
    PatchShape(x);
    RemovalsMiss(x, s);
    LeavesAfterRemovals(PutAll(x.server, x.updates), x.removals, q);
    if Changed(x.original, x.current, s) {
      var i :| 0 <= i < |x.updates| && x.updates[i].key == s;
      LeafWritten(x.server, x.updates, i);
      ShownTwice(LeafAt(x.tracked, q).value);
    } else {
      UpdatesMiss(x, s);
      LeafKept(x.server, x.updates, q);
    }
  }

  /** What the server holds at a path the object does not have. */
  lemma LeafOfAbsentPath(x: Exchange, q: Path)
    requires x.Sound() && q != [] && !Visible(x.tracked, q)
    requires Dotless(x.server)
    ensures !Visible(PutAll(PutAll(x.server, x.updates), x.removals), q)
  {
    PatchShape(x);
    LeavesAfterRemovals(PutAll(x.server, x.updates), x.removals, q);
    NoNewLeaf(x.server, x.updates, q);
    if Visible(x.server, q) {
      SplitJoin(q, '.');
      var s := Join(q, '.');
      assert Gone(x.original, x.current, s);
      var i :| 0 <= i < |x.removals| && x.removals[i].key == s;
      assert x.removals[i] in x.removals && x.removals[i].Path() <= q;
    }
  }

  /** s is a leaf of the server's record, t one of the object, one strictly below the other. */
  predicate Crosses(x: Exchange, s: string, t: string)
  {
    s in x.original && t in x.current &&
    (ProperPrefix(Split(s, '.'), Split(t, '.')) || ProperPrefix(Split(t, '.'), Split(s, '.')))
  }

  lemma CrossingNames(x: Exchange, s: string, t: string) returns (i: nat, j: nat)
    requires x.Sound() && Crosses(x, s, t)
    ensures i < |x.removals| && x.removals[i].key == s
    ensures j < |x.updates| && x.updates[j].key == t
  {
    if s in x.current { ViewPrefixFree(x.current, x.tracked, s, t); ViewPrefixFree(x.current, x.tracked, t, s); }
    if t in x.original { ViewPrefixFree(x.original, x.server, s, t); ViewPrefixFree(x.original, x.server, t, s); }
    assert Gone(x.original, x.current, s) && Changed(x.original, x.current, t);
    i :| 0 <= i < |x.removals| && x.removals[i].key == s;
    j :| 0 <= j < |x.updates| && x.updates[j].key == t;
  }

  /** A leaf became a dict: its removal, sent last, takes the new leaves with it. */
  lemma LeafToDictLost(x: Exchange, s: string, t: string)
    requires x.Sound() && s in x.original && t in x.current && ProperPrefix(Split(s, '.'), Split(t, '.'))
    ensures LeafAt(PutAll(PutAll(x.server, x.updates), x.removals), Split(t, '.')).None?
  {
    PatchShape(x);
    var i, _ := CrossingNames(x, s, t);
    LeavesAfterRemovals(PutAll(x.server, x.updates), x.removals, Split(t, '.'));
    assert x.removals[i] in x.removals && x.removals[i].Path() <= Split(t, '.');
  }

  /** A dict became a leaf: partition_object meets the leaf before the removals below it. */
  lemma DictToLeafRaises(x: Exchange, s: string, t: string)
    requires x.Sound() && s in x.original && t in x.current && ProperPrefix(Split(t, '.'), Split(s, '.'))
    ensures Partition(x.Delta()).None?
  {
    hide Split, IsView, PyEq, Partition, NoShadowing;
    PatchShape(x);
    var i, j := CrossingNames(x, s, t);
    var d := x.Delta();
    RaisesWhenShadowing(d, j, |x.updates| + i);
    assert d[j] == x.updates[j] && d[|x.updates| + i] == x.removals[i];
  }

  lemma RaisesWhenShadowing(d: seq<Change>, i: nat, j: nat)
    ensures Flat(d) && i < j < |d| && ProperPrefix(d[i].Path(), d[j].Path()) ==> Partition(d).None?
  {
    if Flat(d) { PartitionSucceeds(d); }
  }

  /** The merge succeeds and gives the leaves of the tracked object. */
  ghost predicate RoundTrips(x: Exchange)
  {
    Partition(x.Delta()).Some? && SameLeaves(DeepUpdate(x.server, Partition(x.Delta()).value), x.tracked)
  }

  lemma CrossingPairFails(x: Exchange, s: string, t: string)
    requires x.Sound() && Crosses(x, s, t)
    ensures !RoundTrips(x)
  {
    if ProperPrefix(Split(t, '.'), Split(s, '.')) {
      DictToLeafRaises(x, s, t);
    } else if Partition(x.Delta()).Some? {
      PatchMerge(x);
      LeafToDictLost(x, s, t);
      assert Visible(x.tracked, Split(t, '.'));
    }
  }

  lemma UnnoticedFails(x: Exchange)
    requires x.Sound() && !Crossing(x.original, x.current) && Unnoticed(x.original, x.current)
    ensures !RoundTrips(x)
  {
    hide Crossing, PyEq, PutAll, Join, Split, IsUpdates, IsRemovals, Partition;
    PatchPartitions(x);
    PatchMerge(x);
    var s :| s in x.original && s in x.current && x.original[s] != x.current[s] && PyEq(x.original[s], x.current[s]);
    LeafOfPresentName(x, s);
    assert Visible(x.tracked, Split(s, '.'));
  }

  lemma PatchSucceeds(x: Exchange)
    requires x.Sound() && Dotless(x.server) && Dotless(x.tracked)
    requires !Crossing(x.original, x.current) && !Unnoticed(x.original, x.current)
    ensures RoundTrips(x)
  {
    PatchPartitions(x);
    PatchMerge(x);
    var after := PutAll(PutAll(x.server, x.updates), x.removals);
    forall q | q != []
      ensures ShownLeaf(after, q) == ShownLeaf(x.tracked, q)
    {
      if Visible(x.tracked, q) {
        SplitJoin(q, '.');
        var s := Join(q, '.');
        LeafOfPresentName(x, s);
        assert !Changed(x.original, x.current, s) ==> x.original[s] == x.current[s];
      } else {
        LeafOfAbsentPath(x, q);
      }
    }
  }

  /**
    The round trip of `patch` in a store with nested queries enabled: the merge
    succeeds and gives the leaves of the tracked object exactly when no leaf
    changed places with a dict and no change went unnoticed by Python's `==`.
   */
  lemma PatchRoundTrip(x: Exchange)
    requires x.Sound() && Dotless(x.server) && Dotless(x.tracked)
    ensures RoundTrips(x) <==> !Crossing(x.original, x.current) && !Unnoticed(x.original, x.current)
  {
    if Crossing(x.original, x.current) {
      var s, t :| s in x.original && t in x.current &&
        (ProperPrefix(Split(s, '.'), Split(t, '.')) || ProperPrefix(Split(t, '.'), Split(s, '.')));
      CrossingPairFails(x, s, t);
    } else if Unnoticed(x.original, x.current) {
      UnnoticedFails(x);
    } else {
      PatchSucceeds(x);
    }
  }

  /** {"a": 5} becomes {"a": {"b": 1}}: a.b is set, then a removed, and nothing is left. */
  lemma LeafToDictExample()
    ensures var x := LeafToDict(); x.Sound() && NestedMerge(x.server, x.Delta()) == Some(EMPTY) && !RoundTrips(x)
  {
    var x := LeafToDict();
    LeafToDictSound();
    hide Split;
    TwoParts("a.b");
    assert Change("a", Null).Path() == ["a"];
    assert Crosses(x, "a", "a.b") by { assert ProperPrefix(["a"], ["a", "b"]); }
    CrossingPairFails(x, "a", "a.b");
    SetThenRemove(x.updates[0], x.removals[0]);
    assert DeepUpdate(x.server, Obj(map["a" := Null])).fields == EMPTY.fields;
  }

  function LeafToDict(): Exchange
  {
    Exchange(Obj(map["a" := Num(5)]), Obj(map["a" := Obj(map["b" := Num(1)])]),
             map["a" := Num(5)], map["a.b" := Num(1)], [Change("a.b", Num(1))], [Change("a", Null)])
  }

  lemma LeafToDictSound()
    ensures LeafToDict().Sound()
  {
    hide Split, IsView;
    var x := LeafToDict();
    TwoParts("a.b");
    var branch := Obj(map["b" := Num(1)]);
    forall q
      ensures LeafAt(x.server, q) == if q == ["a"] then Some(Num(5)) else None
      ensures LeafAt(branch, q) == if q == ["b"] then Some(Num(1)) else None
    {
      LeafUnder("a", Num(5), q);
      LeafUnder("b", Num(1), q);
    }
    forall q ensures LeafAt(x.tracked, q) == if q == ["a", "b"] then Some(Num(1)) else None {
      LeafUnder("a", branch, q);
    }
    OneLeaf(x.server, "a", ["a"], Num(5));
    OneLeaf(x.tracked, "a.b", ["a", "b"], Num(1));
    assert IsUpdates(x.updates, x.original, x.current) by { assert x.updates[0].key == "a.b"; }
    assert IsRemovals(x.removals, x.original, x.current) by { assert x.removals[0].key == "a"; }
  }

  lemma LeafUnder(k: string, v: Json, q: Path)
    ensures LeafAt(Obj(map[k := v]), q) == if q != [] && q[0] == k then LeafAt(v, q[1..]) else None
    ensures !v.Obj? ==> LeafAt(Obj(map[k := v]), q) == if q == [k] then Some(v) else None
  {
    LeafBelow(Obj(map[k := v]), if q == [] then [k] else q);
    if q != [] { LeafOfScalar(v, q[1..]); }
  }

  lemma OneLeaf(t: Record, s: string, p: Path, v: Json)
    requires Split(s, '.') == p && v.Num?
    requires forall q :: LeafAt(t, q) == if q == p then Some(v) else None
    requires Open(p)
    ensures IsView(map[s := v], t)
  {
    hide Split, LeafAt;
    forall r: string ensures Split(r, '.') == p <==> r == s { SplitInjective(r, s, '.'); }
  }

  lemma SetThenRemove(set_: Change, remove: Change)
    requires set_.Path() == ["a", "b"] && remove.Path() == ["a"] && remove.value.Null?
    ensures Partition([set_, remove]) == Some(Obj(map["a" := Null]))
  {
    hide Split;
    assert [set_, remove][..1] == [set_] && [set_][..0] == [];
    var branch := Obj(map["b" := set_.value]);
    assert ["a", "b"][1..] == ["b"];
    assert Insert(EMPTY, ["b"], set_.value) == Some(branch);
    assert Branch(EMPTY, "a") == EMPTY;
    assert Insert(EMPTY, ["a", "b"], set_.value) == Some(Obj(map["a" := branch]));
    assert Partition([set_]) == Some(Obj(map["a" := branch]));
    assert map["a" := branch]["a" := Null] == map["a" := Null];
    assert Insert(Obj(map["a" := branch]), ["a"], Null) == Some(Obj(map["a" := Null]));
  }

  // ---------- one patch after the other ----------

  /** From one record to the other no leaf changes places with a dict, and Python sees every change. */
  ghost predicate Smooth(a: Json, b: Json)
  {
    && (forall p, q :: Visible(a, p) && Visible(b, q) ==> !ProperPrefix(p, q) && !ProperPrefix(q, p))
    && (forall q :: Visible(a, q) && Visible(b, q) && PyEq(ShownLeaf(a, q).value, ShownLeaf(b, q).value) ==>
          ShownLeaf(a, q) == ShownLeaf(b, q))
  }

  lemma ViewAtPath(flat: map<string, Json>, t: Json, q: Path)
    requires IsView(flat, t) && Dotless(t) && q != []
    ensures NoDots(q) ==> Split(Join(q, '.'), '.') == q
    ensures Visible(t, q) ==> NoDots(q) && Join(q, '.') in flat && Some(flat[Join(q, '.')]) == ShownLeaf(t, q)
  {
    hide Visible, ShownLeaf, Join, Split;
    if NoDots(q) { SplitJoin(q, '.'); }
  }

  /** The condition of PatchRoundTrip, said of the records. */
  lemma SmoothViews(x: Exchange)
    requires x.Sound() && Dotless(x.server) && Dotless(x.tracked)
    ensures Smooth(x.server, x.tracked) <==> !Crossing(x.original, x.current) && !Unnoticed(x.original, x.current)
  {
    hide ShownLeaf, Join, Split, PyEq, IsUpdates, IsRemovals, NoDots;
    NothingAtRoot(x.server);
    NothingAtRoot(x.tracked);
    forall q | q != []
      ensures Visible(x.server, q) ==> Join(q, '.') in x.original && Split(Join(q, '.'), '.') == q
      ensures Visible(x.tracked, q) ==> Join(q, '.') in x.current && Split(Join(q, '.'), '.') == q
    {
      ViewAtPath(x.original, x.server, q);
      ViewAtPath(x.current, x.tracked, q);
    }
    if !Smooth(x.server, x.tracked) {
      if p, q :| Visible(x.server, p) && Visible(x.tracked, q) && (ProperPrefix(p, q) || ProperPrefix(q, p)) {
        assert Join(p, '.') in x.original && Join(q, '.') in x.current;
      } else {
        var q :| Visible(x.server, q) && Visible(x.tracked, q) &&
          PyEq(ShownLeaf(x.server, q).value, ShownLeaf(x.tracked, q).value) &&
          ShownLeaf(x.server, q) != ShownLeaf(x.tracked, q);
        assert Join(q, '.') in x.original && Join(q, '.') in x.current;
      }
    }
  }

  lemma NothingAtRoot(t: Record)
    ensures !Visible(t, [])
  {
  }

  /** The server's record after a write that it may refuse to partition. */
  function Merged(server: Record, d: seq<Change>): Record
  {
    var m := NestedMerge(server, d);
    if m.Some? then m.value else server
  }

  /** After one exchange the server shows what the object shows exactly when the change was smooth. */
  lemma ExchangeInStep(x: Exchange)
    requires x.Sound() && Dotless(x.server) && Dotless(x.tracked)
    ensures SameLeaves(Merged(x.server, x.Delta()), x.tracked) <==> Smooth(x.server, x.tracked)
    ensures Smooth(x.server, x.tracked) ==>
              IsView(x.current, Merged(x.server, x.Delta())) && Dotless(Merged(x.server, x.Delta()))
  {
    hide ShownLeaf, Smooth, Crossing, Unnoticed, Dotless, IsUpdates, IsRemovals;
    PatchRoundTrip(x);
    SmoothViews(x);
    if Partition(x.Delta()).None? && SameLeaves(x.server, x.tracked) {
      SameLeavesSmooth(x.server, x.tracked);
    }
    if RoundTrips(x) { SameLeavesSameView(x.current, Merged(x.server, x.Delta()), x.tracked); }
  }

  /** Records that show the same have the same views, and there is nothing left to patch. */
  lemma SameLeavesSameView(flat: map<string, Json>, a: Record, b: Record)
    requires SameLeaves(a, b)
    ensures IsView(flat, a) <==> IsView(flat, b)
    ensures Dotless(a) <==> Dotless(b)
    ensures forall c: Record :: Smooth(a, c) <==> Smooth(b, c)
  {
    hide ShownLeaf, Split, NoDots;
    NothingAtRoot(a);
    NothingAtRoot(b);
    assert forall q :: Visible(a, q) <==> Visible(b, q);
  }

  lemma SameLeavesSmooth(a: Record, b: Record)
    requires SameLeaves(a, b)
    ensures Smooth(a, b)
  {
    NothingAtRoot(a);
    NothingAtRoot(b);
    hide ShownLeaf, PyEq;
    forall p, q | Visible(a, p) && Visible(b, q) ensures !ProperPrefix(p, q) && !ProperPrefix(q, p) {
      assert Visible(a, q);
      LeavesApart(a, p, q);
      LeavesApart(a, q, p);
    }
  }

  lemma LeavesApart(t: Json, p: Path, q: Path)
    requires Visible(t, p) && Visible(t, q)
    ensures !ProperPrefix(p, q)
  {
    if ProperPrefix(p, q) { DictAbove(t, p, q); }
  }

  /** One call of patch that is answered: from one snapshot to the next. */
  ghost predicate Patches(before: map<string, Json>, data: Record, r: Patched, after: map<string, Json>)
  {
    exists current :: IsFlattening(current, Shown(data), "") && Ends(before, current, r, after)
  }

  ghost predicate Ends(before: map<string, Json>, current: map<string, Json>, r: Patched, after: map<string, Json>)
  {
    match r
    case Sent(updates, removals) =>
      IsUpdates(updates, before, current) && IsRemovals(removals, before, current) && updates + removals != []
      && after == current
    case Unchanged => IsUpdates([], before, current) && IsRemovals([], before, current) && after == before
    case _ => after == before
  }

  /** The server's record after what a call of patch has sent. */
  function AfterPatch(server: Record, r: Patched): Record
  {
    if r.Sent? then Merged(server, r.updates + r.removals) else server
  }

  /** patch, and the server's merge of what it sends. */
  method PatchServer(o: SnapshotBaseObject, server: Record) returns (r: Patched, merged: Record)
    modifies o`original
    ensures r.Unbound? <==> !o.hasClient || o.store == "" || o.id == ""
    ensures !r.Failed? && merged == AfterPatch(server, r)
    ensures if r.Unbound? then o.original == old(o.original) else Patches(old(o.original), o.data, r, o.original)
    ensures !r.Unbound? && IsView(old(o.original), server) && Dotless(server) && Dotless(o.data) ==>
              && (SameLeaves(merged, o.data) <==> Smooth(server, o.data))
              && (Smooth(server, o.data) ==> IsView(o.original, merged) && Dotless(merged))
  {
    hide IsView, Dotless, SameLeaves, Smooth, IsUpdates, IsRemovals, IsFlattening, Merged;
    var current;
    r, current := o.Patch(true);
    merged := server;
    if r.Sent? {
      merged := Merged(server, r.updates + r.removals);
    }
    if !r.Unbound? {
      assert Ends(old(o.original), current, r, o.original);
      if IsView(old(o.original), server) && Dotless(server) && Dotless(o.data) {
        FlatteningIsView(current, o.data);
        var x := Exchange(server, o.data, old(o.original), current, if r.Sent? then r.updates else [],
                          if r.Sent? then r.removals else []);
        ExchangeInStep(x);
        if !r.Sent? { NothingSent(x); }
      }
    }
  }

  lemma NothingSent(x: Exchange)
    requires x.updates == [] && x.removals == []
    ensures Merged(x.server, x.Delta()) == x.server
  {
    EmptyUpdate(x.server);
  }

  /** The server's record after everything that was sent. */
  function AfterAll(server: Record, sent: seq<Patched>): Record
  {
    if sent == [] then server else AfterPatch(AfterAll(server, sent[..|sent| - 1]), sent[|sent| - 1])
  }

  /** What the object held before edit i: the server's record, or the edit before. */
  function Before(server: Record, edits: seq<Record>, i: nat): Record
    requires i < |edits|
  {
    if i == 0 then server else edits[i - 1]
  }

  /** No edit has a dotted key, and from one to the next the change is smooth. */
  ghost predicate SmoothSession(server: Record, edits: seq<Record>)
  {
    Dotless(server) && forall i :: 0 <= i < |edits| ==> Dotless(edits[i]) && Smooth(Before(server, edits, i), edits[i])
  }

  /**
    Any number of edits, each patched.  The server's record is what its merges of the deltas
    give; when the edits are smooth it shows what the object shows after each, and the
    snapshot stays a view of it.
   */
  method Session(o: SnapshotBaseObject, server: Record, edits: seq<Record>)
      returns (merged: Record, sent: seq<Patched>, ghost snapshots: seq<map<string, Json>>)
    requires o.hasClient && o.store != "" && o.id != ""
    modifies o`original, o`data
    ensures |sent| == |edits| && merged == AfterAll(server, sent)
    ensures |snapshots| == |edits| + 1 && snapshots[0] == old(o.original) && snapshots[|edits|] == o.original
    ensures forall i :: 0 <= i < |edits| ==> Patches(snapshots[i], edits[i], sent[i], snapshots[i + 1])
    ensures IsView(old(o.original), server) && SmoothSession(server, edits) ==>
              && IsView(o.original, merged) && Dotless(merged)
              && (edits != [] ==> SameLeaves(merged, edits[|edits| - 1]))
  {
    hide IsView, Dotless, SameLeaves, Smooth, Patches, AfterPatch;
    merged, sent, snapshots := server, [], [o.original];
    for i := 0 to |edits|
      invariant o.hasClient && o.store != "" && o.id != ""
      invariant |sent| == i && merged == AfterAll(server, sent)
      invariant |snapshots| == i + 1 && snapshots[0] == old(o.original) && snapshots[i] == o.original
      invariant forall j :: 0 <= j < i ==> Patches(snapshots[j], edits[j], sent[j], snapshots[j + 1])
      invariant IsView(old(o.original), server) && SmoothSession(server, edits) ==>
                  && IsView(o.original, merged) && Dotless(merged)
                  && (if i == 0 then merged == server else SameLeaves(merged, edits[i - 1]))
    {
      if i > 0 && SameLeaves(merged, edits[i - 1]) { SameLeavesSameView(o.original, merged, edits[i - 1]); }
      o.data := edits[i];
      ghost var before := merged;
      var r;
      r, merged := PatchServer(o, merged);
      assert (sent + [r])[..i] == sent;
      sent, snapshots := sent + [r], snapshots + [o.original];
      assert SmoothSession(server, edits) ==> Smooth(Before(server, edits, i), edits[i]);
    }
  }

  // ---------- what read adds ----------

  /** A tracked object is read with its id; patching it patches the stored record as long as no change names the id. */
  lemma PatchOfRead(id: string, rec: Record, r: Patched)
    requires r.Sent? ==> KeepsId(r.updates + r.removals)
    ensures AfterPatch(WithId(id, rec), r) == WithId(id, AfterPatch(rec, r))
  {
    if r.Sent? { MergeOfRead(id, rec, r.updates + r.removals); }
  }
}
