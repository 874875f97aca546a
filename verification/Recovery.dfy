/**
  Bootstrap over the bytes: IndexManager._bootstrap_from_logs reads the segment
  files line by line.  BootstrapFromLogs is tied to the scan of module Bootstrap,
  whose theorem then says which entries come back.
 */
module Recovery {
  import opened Text
  import opened Serializer
  import opened DiskLines
  import opened Bootstrap
  import opened Store
  import L = LogManager
  import I = IndexManager

  /** The scan sees exactly the segments whose names have three digits. */
  lemma ScanSeesThreeDigits(n: nat)
    ensures n < SCAN_LIMIT <==> L.ThreeDigits(n)
  {
    L.ThreeDigitsIsSmall(n);
  }

  /** The scanned entries are those of the scanned positions. */
  ghost predicate Fits(codec: Codec, d: Disk, m: map<string, Pos>, entries: map<string, I.Entry>)
  {
    entries.Keys == m.Keys && forall id :: id in m ==> EntryFits(codec, d, m[id], entries[id])
  }

  lemma {:induction false} OffsetsGrow(codec: Codec, lines: seq<Line>, i: nat, j: nat)
    requires i < j <= |lines|
    ensures Offset(codec, lines, i) < Offset(codec, lines, j)
    decreases j
  {
    var t := Texts(codec, lines);
    RenderStep(t, j - 1);
    if i < j - 1 { OffsetsGrow(codec, lines, i, j - 1); }
  }

  /** Two positions with one entry are one position. */
  lemma EntryPinsPosition(codec: Codec, d: Disk, p: Pos, q: Pos, e: I.Entry)
    requires EntryFits(codec, d, p, e) && EntryFits(codec, d, q, e) && p.InLog?
    ensures p == q
  {
    L.SegNameParses(p.seg);
    if q.InLog? {
      L.SegNameInjective(p.seg, q.seg);
      if p.i < q.i { OffsetsGrow(codec, d.segs[p.seg], p.i, q.i); }
      if q.i < p.i { OffsetsGrow(codec, d.segs[p.seg], q.i, p.i); }
    }
  }

  /** One line of the scan: it parses to its id, and its extent is its entry. */
  lemma ScannedLine(codec: Codec, d: Disk, n: nat, file: string, k: nat)
    requires codec.Sound() && n in d.segs && SegmentFits(codec, d.segs[n], file) && k < |d.segs[n]|
    ensures |FileLines(file)| == |d.segs[n]|
    ensures var parsed := Deserialize(codec, FileLines(file)[k]);
            parsed.Some? && parsed.value.0 == d.segs[n][k].id != []
    ensures Offset(codec, d.segs[n], k) + |FileLines(file)[k]| == Offset(codec, d.segs[n], k + 1)
    ensures EntryFits(codec, d, InLog(n, k),
                      I.Entry(L.SegName(n), Offset(codec, d.segs[n], k), |FileLines(file)[k]|))
  {
    hide FileLines, Deserialize, Serialize, Offset, SegmentFits, ValidId;
    ScannedText(codec, d.segs[n], file, k);
  }

  lemma ScannedText(codec: Codec, lines: seq<Line>, file: string, k: nat)
    requires codec.Sound() && SegmentFits(codec, lines, file) && k < |lines|
    ensures |FileLines(file)| == |lines| && |FileLines(file)[k]| == |LineText(codec, lines[k])| + 1
    ensures var parsed := Deserialize(codec, FileLines(file)[k]);
            parsed.Some? && parsed.value.0 == lines[k].id != []
    ensures Offset(codec, lines, k) + |FileLines(file)[k]| == Offset(codec, lines, k + 1)
  {
    hide FileLines, Deserialize, Serialize, Render;
    var t := Texts(codec, lines);
    TextsAreLines(codec, lines);
    LinesOfRender(t);
    RenderStep(t, k);
    DeserializeSerialize(codec, lines[k].id, lines[k].rec);
  }

  lemma TextsAreLines(codec: Codec, lines: seq<Line>)
    requires codec.Sound() && forall i :: 0 <= i < |lines| ==> ValidId(lines[i].id)
    ensures NewlineFree(Texts(codec, lines))
  {
    forall i | 0 <= i < |lines| ensures NEWLINE !in Texts(codec, lines)[i] {
      DeserializeSerialize(codec, lines[i].id, lines[i].rec);
    }
  }

  lemma LineCount(codec: Codec, lines: seq<Line>, file: string)
    requires codec.Sound() && SegmentFits(codec, lines, file)
    ensures |FileLines(file)| == |lines| && Offset(codec, lines, 0) == 0
  {
    TextsAreLines(codec, lines);
    LinesOfRender(Texts(codec, lines));
    assert Texts(codec, lines)[..0] == [];
  }

  /** The inner loop: one segment file. */
  method ScanFile(codec: Codec, ghost d: Disk, n: nat, file: string,
                  start: map<string, I.Entry>, ghost m: map<string, Pos>) returns (entries: map<string, I.Entry>)
    requires codec.Sound() && n in d.segs && SegmentFits(codec, d.segs[n], file) && Fits(codec, d, m, start)
    ensures Fits(codec, d, ScanLines(m, n, d.segs[n], |d.segs[n]|), entries)
  {
    hide FileLines, SegmentFits, Fits, Offset, Deserialize, EntryFits, ScanLines;
    var lines := FileLines(file);
    LineCount(codec, d.segs[n], file);
    var offset := 0;
    entries := start;
    NoLines(m, n, d.segs[n]);
    for k := 0 to |lines|
      invariant offset == Offset(codec, d.segs[n], k)
      invariant Fits(codec, d, ScanLines(m, n, d.segs[n], k), entries)
    {
      ScannedLine(codec, d, n, file, k);
      var size := |lines[k]|;
      FitsStep(codec, d, m, n, k, entries, I.Entry(L.SegName(n), offset, size));
      var parsed := Deserialize(codec, lines[k]);
      if parsed.Some? && parsed.value.0 != [] {
        entries := entries[parsed.value.0 := I.Entry(L.SegName(n), offset, size)];
      }
      offset := offset + size;
    }
  }

  lemma NoLines(m: map<string, Pos>, n: nat, lines: seq<Line>)
    ensures ScanLines(m, n, lines, 0) == m
  {
  }

  lemma FitsStep(codec: Codec, d: Disk, m: map<string, Pos>, n: nat, k: nat, entries: map<string, I.Entry>, e: I.Entry)
    requires n in d.segs && k < |d.segs[n]| && Fits(codec, d, ScanLines(m, n, d.segs[n], k), entries)
    requires EntryFits(codec, d, InLog(n, k), e)
    ensures Fits(codec, d, ScanLines(m, n, d.segs[n], k + 1), entries[d.segs[n][k].id := e])
  {
    hide EntryFits;
  }

  /** _bootstrap_from_logs: all three-digit segment files, in ascending order. */
  method BootstrapFromLogs(s: Store) returns (entries: map<string, I.Entry>)
    requires s.Valid()
    ensures Fits(s.codec, s.disk, Rebuilt(s.disk), entries)
    ensures forall id :: id in s.index.entries ==>
              ((id in entries && entries[id] == s.index.entries[id]) <==>
               && s.disk.index[id].InLog? && s.disk.index[id].seg < SCAN_LIMIT
               && LastInSight(s.disk, id, s.disk.index[id]))
    ensures s.disk.Ordered() ==> forall id :: id in s.disk.index && s.disk.index[id].InLog? ==>
              LastInSight(s.disk, id, s.disk.index[id])
  {
    entries := map[];
    for n := 0 to SCAN_LIMIT
      invariant Fits(s.codec, s.disk, ScanBelow(s.disk, n), entries)
    {
      if n in s.log.segments {
        entries := ScanFile(s.codec, s.disk, n, s.log.segments[n], entries, ScanBelow(s.disk, n));
      }
    }
    forall id | id in s.index.entries
      ensures (id in entries && entries[id] == s.index.entries[id]) <==>
              s.disk.index[id].InLog? && s.disk.index[id].seg < SCAN_LIMIT && LastInSight(s.disk, id, s.disk.index[id])
      ensures s.disk.Ordered() && s.disk.index[id].InLog? ==> LastInSight(s.disk, id, s.disk.index[id])
    {
      RecoveredEntry(s.codec, s.disk, s.index.entries, entries, id);
    }
  }

  /** An entry comes back exactly when its position does. */
  lemma RecoveredEntry(codec: Codec, d: Disk, entries: map<string, I.Entry>, scanned: map<string, I.Entry>, id: string)
    requires d.WF() && IndexFits(codec, d, entries) && Fits(codec, d, Rebuilt(d), scanned) && id in entries
    ensures (id in scanned && scanned[id] == entries[id]) <==>
            d.index[id].InLog? && d.index[id].seg < SCAN_LIMIT && LastInSight(d, id, d.index[id])
    ensures d.Ordered() && d.index[id].InLog? ==> LastInSight(d, id, d.index[id])
  {
    BootstrapRecovers(d, id);
    if id in scanned && scanned[id] == entries[id] {
      BootstrapFindsLines(d, id);
      EntryPinsPosition(codec, d, Rebuilt(d)[id], d.index[id], entries[id]);
    }
  }
}
