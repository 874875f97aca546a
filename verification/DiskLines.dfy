/**
  The storage engine as a state machine over lines.

  A segment is a list of record lines; the primary index points at one line, or
  at a blob file, per live id.  Bytes, offsets and text are added in the modules
  LogManager, IndexManager and Store; here are the steps and what every step keeps.
 */
module DiskLines {
  import opened Json

  datatype Line = Line(id: string, rec: Record)

  datatype Pos = InLog(seg: nat, i: nat) | InBlob(name: string)

  predicate AtOrBefore(p: Pos, q: Pos)
    requires p.InLog? && q.InLog?
  {
    p.seg < q.seg || (p.seg == q.seg && p.i <= q.i)
  }

  datatype Disk = Disk(segs: map<nat, seq<Line>>, active: nat, blobs: map<string, Line>, index: map<string, Pos>)
  {
    predicate IsLine(p: Pos) { p.InLog? && p.seg in segs && p.i < |segs[p.seg]| }

    function LineAt(p: Pos): Line
      requires IsLine(p)
    {
      segs[p.seg][p.i]
    }

    /** The index entry of id leads to a line of id, or to an existing blob. */
    predicate Found(id: string)
      requires id in index
    {
      if index[id].InBlob? then index[id].name in blobs
      else IsLine(index[id]) && LineAt(index[id]).id == id
    }

    /** Every other copy of id in the log is older than the one the index points at. */
    ghost predicate Latest(id: string)
      requires id in index && index[id].InLog?
    {
      forall p :: IsLine(p) && LineAt(p).id == id ==> AtOrBefore(p, index[id])
    }

    ghost predicate WF()
    {
      active in segs && forall id :: id in index ==> Found(id)
    }

    /** The log is in order: nothing comes after the active segment, and index entries lead to the latest copies. */
    ghost predicate Ordered()
    {
      && (forall n :: n in segs ==> n <= active)
      && (forall id :: id in index && index[id].InLog? ==> Latest(id))
    }

    /** The line the index entry of id leads to. */
    function LineOf(id: string): Line
      requires id in index && Found(id)
    {
      if index[id].InBlob? then blobs[index[id].name] else LineAt(index[id])
    }

    function RecordOf(id: string): Record
      requires id in index && Found(id)
    {
      LineOf(id).rec
    }

    /** What the store holds: the simple map the engine implements. */
    ghost function Contents(): map<string, Record>
      requires WF()
    {
      map id | id in index :: RecordOf(id)
    }

    // ---------- steps ----------

    function Append(id: string, rec: Record): Disk
      requires active in segs
    {
      this.(segs := segs[active := segs[active] + [Line(id, rec)]],
            index := index[id := InLog(active, |segs[active]|)])
    }

    /** The next segment is opened for appending, and made if it is not there. */
    function Rollover(): Disk { Open(active + 1) }

    function Open(n: nat): Disk
    {
      this.(active := n, segs := if n in segs then segs else segs[n := []])
    }

    function WriteBlob(id: string, name: string, rec: Record): Disk
    {
      this.(blobs := blobs[name := Line(id, rec)], index := index[id := InBlob(name)])
    }

    function Delete(id: string): Disk
    {
      this.(index := index - {id})
    }

    /** The live ids of one segment. */
    function LiveIn(n: nat): set<string>
    {
      set id | id in index && index[id].InLog? && index[id].seg == n
    }

    /** `order` lists the live ids of segment n. */
    predicate Enumerates(order: seq<string>, n: nat)
    {
      && (forall k :: 0 <= k < |order| ==> order[k] in LiveIn(n))
      && (forall id :: id in LiveIn(n) ==> id in order)
      && (forall j, k :: 0 <= j < k < |order| ==> order[j] != order[k])
    }

    /** The lines a compacted segment keeps. */
    ghost function Kept(n: nat, order: seq<string>): seq<Line>
      requires WF() && Enumerates(order, n)
    {
      seq(|order|, k requires 0 <= k < |order| => LineAt(index[order[k]]))
    }

    ghost function Compact(n: nat, order: seq<string>): Disk
      requires WF() && Enumerates(order, n)
    {
      if n == active || order == [] then this
      else
        this.(segs := segs[n := Kept(n, order)],
              index := map id | id in index ::
                         if id in LiveIn(n) then InLog(n, IndexIn(order, id)) else index[id])
    }
  }

  function IndexIn(order: seq<string>, id: string): (k: nat)
    requires id in order
    ensures k < |order| && order[k] == id
  {
    if order[0] == id then 0 else 1 + IndexIn(order[1..], id)
  }

  // ---------- what each step does to the contents ----------

  lemma AppendRefines(d: Disk, id: string, rec: Record)
    requires d.WF()
    ensures d.Append(id, rec).WF()
    ensures d.Append(id, rec).Contents() == d.Contents()[id := rec]
    ensures d.Ordered() ==> d.Append(id, rec).Ordered()
  {
    hide Disk.Found, Disk.Latest, Disk.RecordOf, Disk.IsLine, Disk.LineAt;
    var d' := d.Append(id, rec);
    forall k | k in d'.index
      ensures d'.Found(k) && (d.Ordered() && d'.index[k].InLog? ==> d'.Latest(k))
      ensures d'.RecordOf(k) == if k == id then rec else d.RecordOf(k)
    {
      AppendKeeps(d, id, rec, k);
    }
  }

  lemma AppendKeeps(d: Disk, id: string, rec: Record, k: string)
    requires d.WF() && k in d.Append(id, rec).index
    ensures var d' := d.Append(id, rec);
            && d'.Found(k) && (d.Ordered() && d'.index[k].InLog? ==> d'.Latest(k))
            && d'.RecordOf(k) == if k == id then rec else d.RecordOf(k)
  {
    var d' := d.Append(id, rec);
    var last := InLog(d.active, |d.segs[d.active]|);
    assert forall p :: d'.IsLine(p) <==> d.IsLine(p) || p == last;
    assert forall p :: d.IsLine(p) ==> d'.LineAt(p) == d.LineAt(p);
    if k != id { assert d.Found(k); }
  }

  /** Opening a segment, next or not, changes no record; the order stays when nothing comes after it. */
  lemma OpenRefines(d: Disk, n: nat)
    requires d.WF()
    ensures d.Open(n).WF() && d.Open(n).Contents() == d.Contents()
    ensures d.Ordered() ==> (d.Open(n).Ordered() <==> d.active <= n)
  {
    var d' := d.Open(n);
    assert forall p :: d'.IsLine(p) <==> d.IsLine(p);
    forall k | k in d'.index
      ensures d'.Found(k) && (d.Ordered() && d'.index[k].InLog? ==> d'.Latest(k)) && d'.RecordOf(k) == d.RecordOf(k)
    {
      assert d.Found(k);
    }
    assert d.active in d'.segs;
  }

  /** A blob file serves every id that maps to its name. */
  lemma BlobRefines(d: Disk, id: string, name: string, rec: Record)
    requires d.WF()
    ensures d.WriteBlob(id, name, rec).WF()
    ensures d.WriteBlob(id, name, rec).Contents() ==
            map k | k in d.index.Keys + {id} ::
              if k == id || d.index[k] == InBlob(name) then rec else d.RecordOf(k)
    ensures (forall k :: k in d.index && k != id ==> d.index[k] != InBlob(name)) ==>
              d.WriteBlob(id, name, rec).Contents() == d.Contents()[id := rec]
    ensures d.Ordered() ==> d.WriteBlob(id, name, rec).Ordered()
  {
    hide Disk.Found, Disk.Latest, Disk.RecordOf, Disk.IsLine, Disk.LineAt;
    var d' := d.WriteBlob(id, name, rec);
    forall k | k in d'.index
      ensures d'.Found(k) && (d.Ordered() && d'.index[k].InLog? ==> d'.Latest(k))
      ensures d'.RecordOf(k) == if k == id || d.index[k] == InBlob(name) then rec else d.RecordOf(k)
    {
      BlobKeeps(d, id, name, rec, k);
    }
  }

  lemma BlobKeeps(d: Disk, id: string, name: string, rec: Record, k: string)
    requires d.WF() && k in d.WriteBlob(id, name, rec).index
    ensures var d' := d.WriteBlob(id, name, rec);
            && d'.Found(k) && (d.Ordered() && d'.index[k].InLog? ==> d'.Latest(k))
            && d'.RecordOf(k) == if k == id || d.index[k] == InBlob(name) then rec else d.RecordOf(k)
  {
    var d' := d.WriteBlob(id, name, rec);
    assert forall p :: d'.IsLine(p) <==> d.IsLine(p);
    if k != id { assert d.Found(k); }
  }

  lemma DeleteRefines(d: Disk, id: string)
    requires d.WF()
    ensures d.Delete(id).WF() && d.Delete(id).Contents() == d.Contents() - {id}
    ensures d.Ordered() ==> d.Delete(id).Ordered()
  {
    var d' := d.Delete(id);
    assert forall p :: d'.IsLine(p) <==> d.IsLine(p);
    forall k | k in d'.index
      ensures d'.Found(k) && (d.Ordered() && d'.index[k].InLog? ==> d'.Latest(k)) && d'.RecordOf(k) == d.RecordOf(k)
    {
      assert d.Found(k);
    }
  }

  /** Compaction keeps every record, the order of copies, and all other segments. */
  lemma CompactRefines(d: Disk, n: nat, order: seq<string>)
    requires d.WF() && d.Enumerates(order, n)
    ensures d.Compact(n, order).WF()
    ensures d.Compact(n, order).Contents() == d.Contents()
    ensures d.Ordered() ==> d.Compact(n, order).Ordered()
    ensures forall m :: m != n ==> (m in d.Compact(n, order).segs <==> m in d.segs) &&
                                   (m in d.segs ==> d.Compact(n, order).segs[m] == d.segs[m])
    ensures forall id :: id in d.index && id !in d.LiveIn(n) ==> d.Compact(n, order).index[id] == d.index[id]
  {
    var d' := d.Compact(n, order);
    if n != d.active && order != [] {
      assert order[0] in d.LiveIn(n) && d.Found(order[0]);
      forall k | k in d'.index
        ensures d'.Found(k) && (d.Ordered() && d'.index[k].InLog? ==> d'.Latest(k))
        ensures d'.RecordOf(k) == d.RecordOf(k)
      {
        assert d.Found(k);
        CompactKeeps(d, n, order, k);
      }
    }
  }

  lemma CompactKeeps(d: Disk, n: nat, order: seq<string>, id: string)
    requires d.WF() && d.Enumerates(order, n) && n != d.active && order != [] && n in d.segs
    requires id in d.index
    ensures d.Compact(n, order).Found(id)
    ensures d.Ordered() && d.Compact(n, order).index[id].InLog? ==> d.Compact(n, order).Latest(id)
    ensures d.Compact(n, order).RecordOf(id) == d.RecordOf(id)
  {
    var d' := d.Compact(n, order);
    forall p | d.Ordered() && d'.IsLine(p) && d'.LineAt(p).id == id && d'.index[id].InLog?
      ensures AtOrBefore(p, d'.index[id])
    {
      if p.seg == n {
        // a kept line is the live line of its id
        var w := order[p.i];
        assert d.Found(w) && w == id;
      } else {
        assert d.IsLine(p) && d.LineAt(p) == d'.LineAt(p);
        assert AtOrBefore(p, d.index[id]);
      }
    }
  }
}
