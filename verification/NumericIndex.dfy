/**
  The sorted numeric index of one field: mkdb/db/query/numeric_index.py.

  Values are finite floats, printed and read by a format that loses nothing.  Crossing the
  RAM threshold is an arbitrary choice of the caller.
  Content is the plain relation (value, id) the index stands for, in either mode.
 */
module NumericIndex {
  import opened Json
  import opened Postings
  import opened PostingFile

  // ---------- sorted values ----------

  predicate Sorted(s: seq<int>) { forall i, j :: 0 <= i < j < |s| ==> s[i] < s[j] }

  /** `bisect.bisect_left` on strictly ascending values. */
  function BisectLeft(s: seq<int>, x: int): (n: nat)
    requires Sorted(s)
    ensures n <= |s|
    ensures forall i :: 0 <= i < |s| ==> (i < n <==> s[i] < x)
  {
    if s == [] then 0
    else
      assert Sorted(s[1..]);
      if s[0] < x then 1 + BisectLeft(s[1..], x) else 0
  }

  /** `bisect.bisect_right`. */
  function BisectRight(s: seq<int>, x: int): (n: nat)
    requires Sorted(s)
    ensures n <= |s|
    ensures forall i :: 0 <= i < |s| ==> (i < n <==> s[i] <= x)
  {
    var n := BisectLeft(s, x);
    if n < |s| && s[n] == x then n + 1 else n
  }

  /** `bisect.insort` of a value that is not there yet. */
  function Insort(s: seq<int>, x: int): (r: seq<int>)
    requires Sorted(s) && x !in s
    ensures Sorted(r) && forall y :: y in r <==> y in s || y == x
  {
    var n := BisectRight(s, x);
    assert s == s[..n] + s[n..];
    s[..n] + [x] + s[n..]
  }

  lemma PlaceOf(s: seq<int>, x: int, k: nat)
    requires Sorted(s) && k < |s| && s[k] == x
    ensures BisectLeft(s, x) == k
  {
    var n := BisectLeft(s, x);
    if n < |s| { assert s[n] >= x; }
  }

  /** `values.pop(i)` at the place of x. */
  function Pop(s: seq<int>, x: int): (r: seq<int>)
    requires Sorted(s) && x in s
    ensures Sorted(r) && forall y :: y in r <==> y in s && y != x
  {
    var n := BisectLeft(s, x);
    assert n < |s| && s[n] == x by {
      var k :| 0 <= k < |s| && s[k] == x;
      PlaceOf(s, x, k);
    }
    assert s == s[..n] + [x] + s[n + 1..];
    s[..n] + s[n + 1..]
  }

  /** The two parallel structures of an index in RAM. */
  ghost predicate Parallel(values: seq<int>, m: Posting<int>)
  {
    Sorted(values) && forall v :: v in values <==> v in m
  }

  /** One bound of a range; None is open. */
  predicate Above(v: int, lo: Option<int>, inclusive: bool)
  {
    lo.None? || (if inclusive then v >= lo.value else v > lo.value)
  }

  predicate Below(v: int, hi: Option<int>, inclusive: bool)
  {
    hi.None? || (if inclusive then v <= hi.value else v < hi.value)
  }

  /** The plain filter a range query means. */
  function InRange(content: set<(int, string)>, lo: Option<int>, hi: Option<int>,
                   loInclusive: bool, hiInclusive: bool): set<string>
  {
    set p | p in content && Above(p.0, lo, loInclusive) && Below(p.0, hi, hiInclusive) :: p.1
  }

  method AddTo(values: seq<int>, m: Posting<int>, v: int, ids: set<string>)
    returns (values': seq<int>, m': Posting<int>)
    requires Parallel(values, m)
    ensures Parallel(values', m') && m' == Include(m, v, ids)
  {
    values' := values;
    if v !in m {
      values' := Insort(values, v);
    }
    m' := Include(m, v, ids);
  }

  method RemoveFrom(values: seq<int>, m: Posting<int>, v: int, id: string)
    returns (values': seq<int>, m': Posting<int>)
    requires Parallel(values, m)
    ensures Parallel(values', m') && m' == Discard(m, v, id)
  {
    DiscardPairs(m, v, id);
    if v !in m || m[v] == {} {
      return values, m;
    }
    if m[v] - {id} == {} {
      return Pop(values, v), m - {v};
    }
    return values, m[v := m[v] - {id}];
  }

  /** _range_from: two bisections and a walk over the slice. */
  method RangeFrom(m: Posting<int>, values: seq<int>, lo: Option<int>, hi: Option<int>,
                   loInclusive: bool, hiInclusive: bool) returns (result: set<string>)
    requires Parallel(values, m)
    ensures result == InRange(Pairs(m), lo, hi, loInclusive, hiInclusive)
  {
    var loIdx := if lo.None? then 0
                 else if loInclusive then BisectLeft(values, lo.value) else BisectRight(values, lo.value);
    var hiIdx := if hi.None? then |values|
                 else if hiInclusive then BisectRight(values, hi.value) else BisectLeft(values, hi.value);
    result := {};
    var i := loIdx;
    while i < hiIdx
      invariant loIdx <= i && (i <= hiIdx || i == loIdx)
      invariant forall id :: id in result <==> exists j :: loIdx <= j < i && id in m[values[j]]
    {
      result := result + m[values[i]];
      i := i + 1;
    }
    SliceIsRange(m, values, lo, hi, loInclusive, hiInclusive, loIdx, hiIdx, result);
  }

  /** The ids of a slice are the ids in range, when the slice is the values in range. */
  lemma SliceIsRange(m: Posting<int>, values: seq<int>, lo: Option<int>, hi: Option<int>,
                     loInclusive: bool, hiInclusive: bool, loIdx: nat, hiIdx: nat, result: set<string>)
    requires Parallel(values, m) && loIdx <= |values| && hiIdx <= |values|
    requires forall j :: 0 <= j < |values| ==>
               (loIdx <= j < hiIdx <==> Above(values[j], lo, loInclusive) && Below(values[j], hi, hiInclusive))
    requires forall id :: id in result <==> exists j :: loIdx <= j < hiIdx && id in m[values[j]]
    ensures result == InRange(Pairs(m), lo, hi, loInclusive, hiInclusive)
  {
    forall id ensures id in result <==> id in InRange(Pairs(m), lo, hi, loInclusive, hiInclusive) {
      if id in result {
        var j :| loIdx <= j < hiIdx && id in m[values[j]];
        assert (values[j], id) in Pairs(m);
      }
      if p :| p in Pairs(m) && Above(p.0, lo, loInclusive) && Below(p.0, hi, hiInclusive) && p.1 == id {
        assert p.0 in m && p.0 in values;
        var j :| 0 <= j < |values| && values[j] == p.0;
        assert loIdx <= j < hiIdx;
      }
    }
  }

  /** The first loop of _flush_pending. */
  method ApplyAdds(values: seq<int>, m: Posting<int>, adds: Posting<int>)
    returns (values': seq<int>, m': Posting<int>)
    requires Parallel(values, m)
    ensures Parallel(values', m') && Pairs(m') == Pairs(m) + Pairs(adds)
  {
    hide Parallel;
    values', m' := values, m;
    var todo := adds.Keys;
    while todo != {}
      invariant todo <= adds.Keys && Parallel(values', m')
      invariant Pairs(m') == Pairs(m) + set p | p in Pairs(adds) && p.0 !in todo
      decreases todo
    {
      var v := AnyOf(todo);
      IncludePairs(m', v, adds[v]);
      values', m' := AddTo(values', m', v, adds[v]);
      assert forall p :: p in Pairs(adds) && p.0 == v <==> p.0 == v && p.1 in adds[v];
      todo := todo - {v};
    }
  }

  /** The second loop of _flush_pending. */
  method ApplyRemoves(values: seq<int>, m: Posting<int>, removes: seq<(int, string)>)
    returns (values': seq<int>, m': Posting<int>)
    requires Parallel(values, m)
    ensures Parallel(values', m') && Pairs(m') == Pairs(m) - set p | p in removes
  {
    values', m' := values, m;
    for i := 0 to |removes|
      invariant Parallel(values', m')
      invariant Pairs(m') == Pairs(m) - set p | p in removes[..i]
    {
      DiscardPairs(m', removes[i].0, removes[i].1);
      values', m' := RemoveFrom(values', m', removes[i].0, removes[i].1);
      assert removes[..i + 1] == removes[..i] + [removes[i]];
      assert removes[i] == (removes[i].0, removes[i].1);
    }
    assert removes[..|removes|] == removes;
  }

  // ---------- the index ----------

  /** Python's str() and float() on floats: exact, one word, no colon. */
  ghost predicate Exact(f: Format<int>)
  {
    forall x: int :: f.read(f.show(x)) == Some(x) && Word(f.show(x)) && ':' !in f.show(x)
  }

  lemma FileKeepsNumbers(f: Format<int>, file: string, m: Posting<int>)
    requires Exact(f) && WrittenFrom(f, file, m) && forall p :: p in Pairs(m) ==> Listable(p.1)
    ensures Pairs(Loaded(f, file)) == Pairs(m)
  {
    hide Loaded, WrittenFrom, Word, Listable;
    forall p | p in Pairs(m) ensures Word(f.show(p.0)) && f.read(f.show(p.0)) == Some(p.0) && ':' !in f.show(p.0) {
      PrintsExactly(f, p.0);
    }
    forall s, k | f.read(s) == Some(k) ensures ':' !in f.show(k) {
      PrintsExactly(f, k);
    }
    FileRoundTrip(f, file, m);
  }

  lemma PrintsExactly(f: Format<int>, x: int)
    requires Exact(f)
    ensures f.read(f.show(x)) == Some(x) && Word(f.show(x)) && ':' !in f.show(x)
  {
  }

  class NumericIndex {
    const format: Format<int>
    var values: seq<int>          // RAM mode
    var m: Posting<int>           // RAM mode
    var inRam: bool
    var writeBuf: Posting<int>    // disk mode: to add
    var removeBuf: seq<(int, string)>   // disk mode: to remove
    var file: string               // the index file

    ghost predicate Valid()
      reads this
    {
      && Exact(format)
      && if inRam then Parallel(values, m) && writeBuf == map[] && removeBuf == []
         else m == map[] && values == []
    }

    /** The relation the index stands for; in disk mode all buffered adds come before all buffered removes. */
    ghost function Content(): set<(int, string)>
      reads this
    {
      if inRam then Pairs(m)
      else Pairs(Loaded(format, file)) + Pairs(writeBuf) - set p | p in removeBuf
    }

    /** Ids the file can list. */
    ghost predicate Writable()
      reads this
    {
      forall p :: p in Content() ==> Listable(p.1)
    }

    /** The index of a field with the given index file. */
    constructor (format: Format<int>, file: string, evict: bool)
      requires Exact(format)
      ensures Valid() && Content() == Pairs(Loaded(format, file)) && inRam == !evict && removeBuf == []
      ensures this.format == format && (NoEmpty(Loaded(format, file)) ==> NoEmpty(m))
    {
      this.format, this.file := format, file;
      writeBuf, removeBuf := map[], [];
      if evict {
        inRam, values, m := false, [], map[];
      } else {
        var disk := LoadDiskMap(format, file);
        var sorted := SortedKeys(disk);
        inRam, values, m := true, sorted, disk;
      }
    }

    method Add(id: string, v: int)
      requires Valid()
      modifies this
      ensures Valid() && inRam == old(inRam) && removeBuf == old(removeBuf) && (old(NoEmpty(m)) ==> NoEmpty(m))
      ensures Content() == if !inRam && (v, id) in old(removeBuf) then old(Content()) else old(Content()) + {(v, id)}
    {
      hide Exact, Loaded;
      if inRam {
        IncludePairs(m, v, {id});
        values, m := AddTo(values, m, v, {id});
      } else {
        IncludePairs(writeBuf, v, {id});
        writeBuf := Include(writeBuf, v, {id});
      }
    }

    method Remove(id: string, v: int)
      requires Valid()
      modifies this
      ensures Valid() && inRam == old(inRam) && Content() == old(Content()) - {(v, id)}
      ensures old(NoEmpty(m)) ==> NoEmpty(m)
    {
      hide Exact, Loaded;
      if inRam {
        DiscardPairs(m, v, id);
        values, m := RemoveFrom(values, m, v, id);
      } else {
        removeBuf := removeBuf + [(v, id)];
      }
    }

    /** Merge the buffers into the file: all adds, then all removes. */
    method FlushPending()
      requires Valid() && !inRam
      modifies `file, `writeBuf, `removeBuf
      ensures Valid() && writeBuf == map[] && removeBuf == []
      ensures old(Writable()) ==> Content() == old(Content())
    {
      hide Exact, Loaded, Parallel, WrittenFrom;
      if writeBuf == map[] && removeBuf == [] {
        return;
      }
      var disk := LoadDiskMap(format, file);
      var diskValues := SortedKeys(disk);
      diskValues, disk := ApplyAdds(diskValues, disk, writeBuf);
      diskValues, disk := ApplyRemoves(diskValues, disk, removeBuf);
      file := WriteFile(format, disk);
      if old(Writable()) { FileKeepsNumbers(format, file, disk); }
      writeBuf, removeBuf := map[], [];
    }

    /** save(): in RAM mode the file is written from the map, and the map may be evicted. */
    method Save(evict: bool)
      requires Valid()
      modifies this
      ensures Valid() && inRam == (old(inRam) && !evict) && removeBuf == []
      ensures inRam || old(Writable()) ==> Content() == old(Content())
    {
      hide Exact, Loaded, Parallel, WrittenFrom;
      if inRam {
        file := WriteFile(format, m);
        if old(Writable()) { FileKeepsNumbers(format, file, m); }
        if evict {
          values, m, inRam := [], map[], false;
        }
      } else {
        FlushPending();
      }
    }

    method ExactQuery(v: int) returns (r: set<string>)
      requires Valid()
      modifies this
      ensures Valid() && (removeBuf == old(removeBuf) || removeBuf == []) && inRam == old(inRam)
      ensures inRam || old(Writable()) ==> Content() == old(Content())
      ensures forall id :: id in r <==> (v, id) in Content()
    {
      hide Exact, Loaded, Parallel, WrittenFrom;
      if !inRam {
        FlushPending();
        var disk := LoadDiskMap(format, file);
        PairsAt(disk);
        return Ids(disk, v);
      }
      return Ids(m, v);
    }

    method RangeQuery(lo: Option<int>, hi: Option<int>, loInclusive: bool, hiInclusive: bool)
      returns (r: set<string>)
      requires Valid()
      modifies this
      ensures Valid() && (removeBuf == old(removeBuf) || removeBuf == []) && inRam == old(inRam)
      ensures inRam || old(Writable()) ==> Content() == old(Content())
      ensures r == InRange(Content(), lo, hi, loInclusive, hiInclusive)
    {
      hide Exact, Loaded, Parallel, WrittenFrom;
      if inRam {
        r := RangeFrom(m, values, lo, hi, loInclusive, hiInclusive);
      } else {
        FlushPending();
        var disk := LoadDiskMap(format, file);
        var diskValues := SortedKeys(disk);
        r := RangeFrom(disk, diskValues, lo, hi, loInclusive, hiInclusive);
      }
    }
  }

  /** `sorted(m.keys())`. */
  method SortedKeys(m: Posting<int>) returns (values: seq<int>)
    ensures Parallel(values, m)
  {
    values := [];
    var todo := m.Keys;
    while todo != {}
      invariant todo <= m.Keys && Sorted(values)
      invariant forall v :: v in values ==> v in m && v !in todo
      invariant forall v :: v in m ==> v in values || v in todo
      decreases todo
    {
      var v := AnyOf(todo);
      values := Insort(values, v);
      todo := todo - {v};
    }
  }
}
