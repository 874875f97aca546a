/**
  Rebuilding the primary index from the logs alone (IndexManager._bootstrap_from_logs).

  The scan visits the segments in ascending order and each line in file order; a
  later line of an id replaces an earlier one.  Only files with exactly three
  digits are recognised, so segments past 999 are not seen.
 */
module Bootstrap {
  import opened Json
  import opened DiskLines

  const SCAN_LIMIT: nat := 1000

  /** The index after the first k lines of segment n. */
  function ScanLines(m: map<string, Pos>, n: nat, lines: seq<Line>, k: nat): map<string, Pos>
    requires k <= |lines|
  {
    if k == 0 then m else ScanLines(m, n, lines, k - 1)[lines[k - 1].id := InLog(n, k - 1)]
  }

  /** The index after all segments below n. */
  function ScanBelow(d: Disk, n: nat): map<string, Pos>
  {
    if n == 0 then map[]
    else if n - 1 in d.segs then ScanLines(ScanBelow(d, n - 1), n - 1, d.segs[n - 1], |d.segs[n - 1]|)
    else ScanBelow(d, n - 1)
  }

  function Rebuilt(d: Disk): map<string, Pos> { ScanBelow(d, SCAN_LIMIT) }

  /** p is before position k of segment n in scan order. */
  predicate Before(p: Pos, n: nat, k: nat) { p.InLog? && (p.seg < n || (p.seg == n && p.i < k)) }

  /** m holds, for every id with a line before (n, k), its last such line. */
  ghost predicate LastLines(d: Disk, m: map<string, Pos>, n: nat, k: nat)
  {
    && (forall id :: id in m ==> Before(m[id], n, k) && d.IsLine(m[id]) && d.LineAt(m[id]).id == id)
    && (forall p :: d.IsLine(p) && Before(p, n, k) ==>
          d.LineAt(p).id in m && AtOrBefore(p, m[d.LineAt(p).id]))
  }

  lemma {:induction false} ScanLinesLast(d: Disk, m: map<string, Pos>, n: nat, k: nat)
    requires n in d.segs && k <= |d.segs[n]| && LastLines(d, m, n, 0)
    ensures LastLines(d, ScanLines(m, n, d.segs[n], k), n, k)
    decreases k
  {
    if k > 0 {
      ScanLinesLast(d, m, n, k - 1);
      var before, after := ScanLines(m, n, d.segs[n], k - 1), ScanLines(m, n, d.segs[n], k);
      forall p | d.IsLine(p) && Before(p, n, k)
        ensures d.LineAt(p).id in after && AtOrBefore(p, after[d.LineAt(p).id])
      {
        if p != InLog(n, k - 1) { assert Before(p, n, k - 1); }
      }
    }
  }

  lemma {:induction false} ScanBelowLast(d: Disk, n: nat)
    ensures LastLines(d, ScanBelow(d, n), n, 0)
    decreases n
  {
    if n > 0 {
      ScanBelowLast(d, n - 1);
      if n - 1 in d.segs {
        ScanLinesLast(d, ScanBelow(d, n - 1), n - 1, |d.segs[n - 1]|);
      }
    }
  }

  /** No line of id that the scan can see comes after p. */
  ghost predicate LastInSight(d: Disk, id: string, p: Pos)
    requires p.InLog?
  {
    forall q :: d.IsLine(q) && d.LineAt(q).id == id && q.seg < SCAN_LIMIT ==> AtOrBefore(q, p)
  }

  /**
    Recovery: the scan gives a live id its current entry exactly when that entry is in a log
    segment the scan can see, with no later copy in sight; in a log that is in order there
    is none.  A record kept as a blob is lost or, if an old copy is still in the log,
    resurrected in its old state.
   */
  lemma BootstrapRecovers(d: Disk, id: string)
    requires d.WF() && id in d.index
    ensures (id in Rebuilt(d) && Rebuilt(d)[id] == d.index[id]) <==>
            d.index[id].InLog? && d.index[id].seg < SCAN_LIMIT && LastInSight(d, id, d.index[id])
    ensures d.Ordered() && d.index[id].InLog? ==> LastInSight(d, id, d.index[id])
  {
    ScanBelowLast(d, SCAN_LIMIT);
    if d.index[id].InLog? && d.index[id].seg < SCAN_LIMIT {
      assert d.Found(id);
      assert Before(d.index[id], SCAN_LIMIT, 0);
      assert AtOrBefore(d.index[id], Rebuilt(d)[id]);
      if LastInSight(d, id, d.index[id]) { assert AtOrBefore(Rebuilt(d)[id], d.index[id]); }
    }
    if id in Rebuilt(d) && Rebuilt(d)[id] == d.index[id] {
      forall q | d.IsLine(q) && d.LineAt(q).id == id && q.seg < SCAN_LIMIT ensures AtOrBefore(q, d.index[id]) {
        assert Before(q, SCAN_LIMIT, 0);
      }
    }
  }

  /** Some line of id is in a segment the scan can see. */
  ghost predicate HasLine(d: Disk, id: string)
  {
    exists p :: d.IsLine(p) && d.LineAt(p).id == id && p.seg < SCAN_LIMIT
  }

  /**
    The scan finds exactly the ids that have a line in sight, live or not, and what it
    finds is such a line; so the ids that reappear are the deleted ones with a line left.
   */
  lemma BootstrapFindsLines(d: Disk, id: string)
    ensures id in Rebuilt(d) <==> HasLine(d, id)
    ensures id in Rebuilt(d) ==> d.IsLine(Rebuilt(d)[id]) && d.LineAt(Rebuilt(d)[id]).id == id
  {
    ScanBelowLast(d, SCAN_LIMIT);
    if id in Rebuilt(d) {
      assert Before(Rebuilt(d)[id], SCAN_LIMIT, 0);
    }
    if p :| d.IsLine(p) && d.LineAt(p).id == id && p.seg < SCAN_LIMIT {
      assert Before(p, SCAN_LIMIT, 0);
    }
  }

  /** A delete leaves no trace in the log: the scan after it finds what the scan before it would have found. */
  lemma BootstrapForgetsDeletes(d: Disk, id: string)
    requires d.WF()
    ensures id !in d.Delete(id).index && Rebuilt(d.Delete(id)) == Rebuilt(d)
    ensures id in Rebuilt(d.Delete(id)) <==> HasLine(d, id)
  {
    ScanIgnoresIndex(d, d.Delete(id), SCAN_LIMIT);
    BootstrapFindsLines(d, id);
  }

  lemma {:induction false} ScanIgnoresIndex(d: Disk, e: Disk, n: nat)
    requires d.segs == e.segs
    ensures ScanBelow(d, n) == ScanBelow(e, n)
    decreases n
  {
    if n > 0 { ScanIgnoresIndex(d, e, n - 1); }
  }

  /** A record that grew into a blob: the scan brings back its old state. */
  lemma BlobComesBackOld(id: string, before: Record, after: Record)
    ensures var d := Disk(map[1 := [Line(id, before)]], 1, map["b" := Line(id, after)], map[id := InBlob("b")]);
            d.WF() && d.RecordOf(id) == after
            && id in Rebuilt(d) && Rebuilt(d)[id] == InLog(1, 0) && d.LineAt(InLog(1, 0)).rec == before
  {
    var d := Disk(map[1 := [Line(id, before)]], 1, map["b" := Line(id, after)], map[id := InBlob("b")]);
    assert d.IsLine(InLog(1, 0)) && d.LineAt(InLog(1, 0)).id == id;
    BootstrapFindsLines(d, id);
  }
}
