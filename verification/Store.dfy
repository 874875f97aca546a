/**
  One store: the write, read and delete paths of mkdb/db/objects/store.py over the
  segment files and the primary index.

  The ghost field `disk` is the list-of-lines view of the files.  Valid ties it to
  the bytes and to the index; Contents is the map a client means.
 */
module Store {
  import opened Json
  import opened Text
  import opened Delta
  import opened Serializer
  import opened DiskLines
  import L = LogManager
  import I = IndexManager

  // ---------- lines as bytes ----------

  function LineText(codec: Codec, l: Line): string { Serialize(codec, l.id, l.rec) }

  function Texts(codec: Codec, lines: seq<Line>): (t: seq<string>)
    ensures |t| == |lines|
  {
    seq(|lines|, i requires 0 <= i < |lines| => LineText(codec, lines[i]))
  }

  function Offset(codec: Codec, lines: seq<Line>, i: nat): nat
    requires i <= |lines|
  {
    |Render(Texts(codec, lines)[..i])|
  }

  /** The index entry of a position. */
  ghost predicate EntryFits(codec: Codec, d: Disk, pos: Pos, e: I.Entry)
  {
    if pos.InBlob? then e.seg == pos.name && L.IsBlob(e.seg) && e.offset == 0
    else
      && d.IsLine(pos)
      && e == I.Entry(L.SegName(pos.seg), Offset(codec, d.segs[pos.seg], pos.i), |LineText(codec, d.LineAt(pos))| + 1)
  }

  /** The file of one segment. */
  ghost predicate SegmentFits(codec: Codec, lines: seq<Line>, file: string)
  {
    file == Render(Texts(codec, lines)) && forall i :: 0 <= i < |lines| ==> ValidId(lines[i].id)
  }

  ghost predicate SegmentsFit(codec: Codec, segs: map<nat, seq<Line>>, segments: map<nat, string>)
  {
    segments.Keys == segs.Keys && forall n :: n in segs ==> SegmentFits(codec, segs[n], segments[n])
  }

  ghost predicate BlobsFit(codec: Codec, stored: map<string, Line>, blobs: map<string, string>)
  {
    && blobs.Keys == stored.Keys
    && forall name :: name in stored ==> blobs[name] == LineText(codec, stored[name]) && ValidId(stored[name].id)
  }

  ghost predicate IndexFits(codec: Codec, d: Disk, entries: map<string, I.Entry>)
  {
    && entries.Keys == d.index.Keys
    && forall id :: id in d.index ==> EntryFits(codec, d, d.index[id], entries[id])
  }

  /** A record kept as a blob is in the file its own id names. */
  ghost predicate OwnBlobs(d: Disk)
  {
    forall id :: id in d.index && d.index[id].InBlob? ==> d.index[id].name == L.BlobPath(id)
  }

  /** The files and the index stand for the disk. */
  ghost predicate Stands(codec: Codec, d: Disk, segments: map<nat, string>, blobs: map<string, string>,
                         entries: map<string, I.Entry>)
  {
    && d.WF()
    && SegmentsFit(codec, d.segs, segments) && BlobsFit(codec, d.blobs, blobs)
    && IndexFits(codec, d, entries) && OwnBlobs(d)
  }

  lemma TextsAppend(codec: Codec, lines: seq<Line>, l: Line)
    ensures Texts(codec, lines + [l]) == Texts(codec, lines) + [LineText(codec, l)]
    ensures Render(Texts(codec, lines + [l])) == Render(Texts(codec, lines)) + LineText(codec, l) + [NEWLINE]
    ensures Offset(codec, lines + [l], |lines|) == |Render(Texts(codec, lines))|
    ensures forall i :: 0 <= i <= |lines| ==> Offset(codec, lines + [l], i) == Offset(codec, lines, i)
  {
    var t := Texts(codec, lines) + [LineText(codec, l)];
    assert Texts(codec, lines + [l]) == t;
    assert t[..|t| - 1] == Texts(codec, lines);
    forall i | 0 <= i <= |lines| ensures Offset(codec, lines + [l], i) == Offset(codec, lines, i) {
      assert t[..i] == Texts(codec, lines)[..i];
    }
  }

  /** Following an index entry gives the line it names. */
  lemma EntryReadsLine(codec: Codec, d: Disk, log: L.LogManager, id: string, e: I.Entry)
    requires id in d.index && d.Found(id)
    requires SegmentsFit(codec, d.segs, log.segments) && BlobsFit(codec, d.blobs, log.blobs)
    requires EntryFits(codec, d, d.index[id], e)
    requires NEWLINE !in LineText(codec, d.LineOf(id))
    ensures log.Read(e.seg, e.offset, e.size) == Some(LineText(codec, d.LineOf(id)))
  {
    hide L.SegName, Render, Serialize;
    var pos := d.index[id];
    if pos.InLog? {
      L.SegNameParses(pos.seg);
      L.ReadLineAt(Texts(codec, d.segs[pos.seg]), pos.i);
    }
  }

  /** Following an index entry and parsing gives the record. */
  lemma EntryReadsBack(codec: Codec, d: Disk, log: L.LogManager, id: string, e: I.Entry)
    requires codec.Sound() && d.WF() && SegmentsFit(codec, d.segs, log.segments) && BlobsFit(codec, d.blobs, log.blobs)
    requires id in d.index && EntryFits(codec, d, d.index[id], e)
    ensures log.Read(e.seg, e.offset, e.size) == Some(LineText(codec, d.LineOf(id)))
    ensures Deserialize(codec, LineText(codec, d.LineOf(id))) == Some((d.LineOf(id).id, d.RecordOf(id)))
  {
    assert d.Found(id);
    var l := d.LineOf(id);
    if d.index[id].InLog? {
      var n := d.index[id].seg;
      assert SegmentFits(codec, d.segs[n], log.segments[n]);
    }
    assert ValidId(l.id);
    DeserializeSerialize(codec, l.id, l.rec);
    EntryReadsLine(codec, d, log, id, e);
  }

  // ---------- every step keeps the bytes in step with the lines ----------

  /** An entry keeps fitting when its own segment only grows at the end. */
  lemma EntryKept(codec: Codec, d: Disk, d': Disk, pos: Pos, e: I.Entry)
    requires EntryFits(codec, d, pos, e)
    requires pos.InLog? && pos.seg in d.segs ==> pos.seg in d'.segs && d.segs[pos.seg] <= d'.segs[pos.seg]
    ensures EntryFits(codec, d', pos, e)
  {
    if pos.InLog? {
      var a, b := Texts(codec, d.segs[pos.seg]), Texts(codec, d'.segs[pos.seg]);
      assert a[..pos.i] == b[..pos.i];
    }
  }

  /** Entries of other ids keep fitting when every segment only grows at its end. */
  lemma OthersKept(codec: Codec, d: Disk, d': Disk, entries: map<string, I.Entry>, entries': map<string, I.Entry>,
                   id: string)
    requires IndexFits(codec, d, entries)
    requires forall n :: n in d.segs ==> n in d'.segs && d.segs[n] <= d'.segs[n]
    requires d'.index.Keys == entries'.Keys && d'.index.Keys - {id} == d.index.Keys - {id}
    requires forall k :: k in d.index && k != id ==>
               k in d'.index && k in entries' && d'.index[k] == d.index[k] && entries'[k] == entries[k]
    requires id in d'.index ==> EntryFits(codec, d', d'.index[id], entries'[id])
    ensures IndexFits(codec, d', entries')
  {
    forall k | k in d'.index && k != id ensures EntryFits(codec, d', d'.index[k], entries'[k]) {
      assert k in d'.index.Keys - {id};
      EntryKept(codec, d, d', d.index[k], entries[k]);
    }
  }

  lemma AppendFitsSegment(codec: Codec, lines: seq<Line>, file: string, l: Line)
    requires SegmentFits(codec, lines, file) && ValidId(l.id)
    ensures SegmentFits(codec, lines + [l], file + LineText(codec, l) + [NEWLINE])
    ensures Offset(codec, lines + [l], |lines|) == |file|
  {
    TextsAppend(codec, lines, l);
  }

  lemma AppendFitsFiles(codec: Codec, d: Disk, segments: map<nat, string>, id: string, rec: Record)
    requires d.active in d.segs && SegmentsFit(codec, d.segs, segments) && ValidId(id)
    ensures SegmentsFit(codec, d.Append(id, rec).segs,
                        segments[d.active := segments[d.active] + Serialize(codec, id, rec) + [NEWLINE]])
  {
    AppendFitsSegment(codec, d.segs[d.active], segments[d.active], Line(id, rec));
  }

  /** The entry of the line just appended. */
  lemma NewLineFits(codec: Codec, d: Disk, file: string, id: string, rec: Record)
    requires d.active in d.segs && SegmentFits(codec, d.segs[d.active], file) && ValidId(id)
    ensures EntryFits(codec, d.Append(id, rec), InLog(d.active, |d.segs[d.active]|),
                      I.Entry(L.SegName(d.active), |file|, |Serialize(codec, id, rec)| + 1))
  {
    AppendFitsSegment(codec, d.segs[d.active], file, Line(id, rec));
  }

  lemma AppendFitsIndex(codec: Codec, d: Disk, segments: map<nat, string>, entries: map<string, I.Entry>,
                        id: string, rec: Record)
    requires d.active in d.segs && SegmentsFit(codec, d.segs, segments) && IndexFits(codec, d, entries) && ValidId(id)
    ensures IndexFits(codec, d.Append(id, rec),
                      entries[id := I.Entry(L.SegName(d.active), |segments[d.active]|,
                                            |Serialize(codec, id, rec)| + 1)])
  {
    hide EntryFits, SegmentFits;
    NewLineFits(codec, d, segments[d.active], id, rec);
    var e := I.Entry(L.SegName(d.active), |segments[d.active]|, |Serialize(codec, id, rec)| + 1);
    OthersKept(codec, d, d.Append(id, rec), entries, entries[id := e], id);
  }

  lemma NoLinesFit(codec: Codec)
    ensures SegmentFits(codec, [], [])
  {
    assert Texts(codec, []) == [];
  }

  lemma OpenFits(codec: Codec, d: Disk, segments: map<nat, string>, entries: map<string, I.Entry>, n: nat)
    requires d.WF() && SegmentsFit(codec, d.segs, segments) && IndexFits(codec, d, entries)
    ensures SegmentsFit(codec, d.Open(n).segs, L.Opened(segments, n))
    ensures IndexFits(codec, d.Open(n), entries)
  {
    hide EntryFits, SegmentFits, Disk.WF;
    NoLinesFit(codec);
    forall k | k in d.index ensures EntryFits(codec, d.Open(n), d.index[k], entries[k]) {
      EntryKept(codec, d, d.Open(n), d.index[k], entries[k]);
    }
  }

  lemma BlobFits(codec: Codec, d: Disk, blobs: map<string, string>, entries: map<string, I.Entry>,
                 id: string, rec: Record, size: nat)
    requires BlobsFit(codec, d.blobs, blobs) && IndexFits(codec, d, entries) && ValidId(id)
    ensures var d' := d.WriteBlob(id, L.BlobPath(id), rec);
            BlobsFit(codec, d'.blobs, blobs[L.BlobPath(id) := Serialize(codec, id, rec)]) &&
            IndexFits(codec, d', entries[id := I.Entry(L.BlobPath(id), 0, size)])
  {
    var d' := d.WriteBlob(id, L.BlobPath(id), rec);
    var e := I.Entry(L.BlobPath(id), 0, size);
    assert EntryFits(codec, d', d'.index[id], e) by { assert L.BLOB_PREFIX <= L.BlobPath(id); }
    hide EntryFits;
    OthersKept(codec, d, d', entries, entries[id := e], id);
  }

  lemma DeleteFits(codec: Codec, d: Disk, entries: map<string, I.Entry>, id: string)
    requires IndexFits(codec, d, entries)
    ensures IndexFits(codec, d.Delete(id), entries - {id})
  {
    forall k | k in d.Delete(id).index ensures EntryFits(codec, d.Delete(id), d.index[k], entries[k]) {
      EntryKept(codec, d, d.Delete(id), d.index[k], entries[k]);
    }
  }

  lemma AppendStands(codec: Codec, d: Disk, segments: map<nat, string>, blobs: map<string, string>,
                     entries: map<string, I.Entry>, id: string, rec: Record)
    requires Stands(codec, d, segments, blobs, entries) && ValidId(id)
    ensures d.active in segments
    ensures Stands(codec, d.Append(id, rec),
                   segments[d.active := segments[d.active] + Serialize(codec, id, rec) + [NEWLINE]], blobs,
                   entries[id := I.Entry(L.SegName(d.active), |segments[d.active]|, |Serialize(codec, id, rec)| + 1)])
    ensures d.Append(id, rec).Contents() == d.Contents()[id := rec]
    ensures d.Ordered() ==> d.Append(id, rec).Ordered()
  {
    AppendFitsFiles(codec, d, segments, id, rec);
    AppendFitsIndex(codec, d, segments, entries, id, rec);
    AppendRefines(d, id, rec);
  }

  lemma OpenStands(codec: Codec, d: Disk, segments: map<nat, string>, blobs: map<string, string>,
                   entries: map<string, I.Entry>, n: nat)
    requires Stands(codec, d, segments, blobs, entries)
    ensures Stands(codec, d.Open(n), L.Opened(segments, n), blobs, entries)
    ensures d.Open(n).Contents() == d.Contents()
    ensures d.Ordered() ==> (d.Open(n).Ordered() <==> d.active <= n)
  {
    OpenFits(codec, d, segments, entries, n);
    OpenRefines(d, n);
  }

  lemma SameSegments(codec: Codec, d: Disk, segments: map<nat, string>, blobs: map<string, string>,
                     entries: map<string, I.Entry>)
    requires Stands(codec, d, segments, blobs, entries)
    ensures segments.Keys == d.segs.Keys && d.active in d.segs
    ensures d.Open(d.active) == d
  {
  }

  /** One appended line, and the rollover when the segment is full. */
  function LineStored(d: Disk, id: string, rec: Record, full: bool): Disk
    requires d.active in d.segs
  {
    if full then d.Append(id, rec).Rollover() else d.Append(id, rec)
  }

  /** The segment files after it. */
  function FilesAfter(segments: map<nat, string>, active: nat, line: string, full: bool): map<nat, string>
    requires active in segments
  {
    var grown := segments[active := segments[active] + line + [NEWLINE]];
    if full then L.Opened(grown, active + 1) else grown
  }

  lemma LineStands(codec: Codec, d: Disk, segments: map<nat, string>, blobs: map<string, string>,
                   entries: map<string, I.Entry>, id: string, rec: Record, full: bool)
    requires Stands(codec, d, segments, blobs, entries) && ValidId(id)
    ensures d.active in d.segs && d.active in segments
    ensures Stands(codec, LineStored(d, id, rec, full),
                   FilesAfter(segments, d.active, Serialize(codec, id, rec), full), blobs,
                   entries[id := I.Entry(L.SegName(d.active), |segments[d.active]|, |Serialize(codec, id, rec)| + 1)])
    ensures LineStored(d, id, rec, full).WF()
    ensures LineStored(d, id, rec, full).Contents() == Written(d, id, rec, false)
    ensures LineStored(d, id, rec, full).active == if full then d.active + 1 else d.active
    ensures d.Ordered() ==> LineStored(d, id, rec, full).Ordered()
  {
    AppendStands(codec, d, segments, blobs, entries, id, rec);
    if full {
      OpenStands(codec, d.Append(id, rec), FilesAfter(segments, d.active, Serialize(codec, id, rec), false), blobs,
                 entries[id := I.Entry(L.SegName(d.active), |segments[d.active]|, |Serialize(codec, id, rec)| + 1)],
                 d.active + 1);
    }
  }

  lemma BlobStands(codec: Codec, d: Disk, segments: map<nat, string>, blobs: map<string, string>,
                   entries: map<string, I.Entry>, id: string, rec: Record, size: nat)
    requires Stands(codec, d, segments, blobs, entries) && ValidId(id)
    ensures Stands(codec, d.WriteBlob(id, L.BlobPath(id), rec), segments,
                   blobs[L.BlobPath(id) := Serialize(codec, id, rec)],
                   entries[id := I.Entry(L.BlobPath(id), 0, size)])
    ensures d.WriteBlob(id, L.BlobPath(id), rec).WF()
    ensures d.WriteBlob(id, L.BlobPath(id), rec).Contents() == Written(d, id, rec, true)
    ensures d.Ordered() ==> d.WriteBlob(id, L.BlobPath(id), rec).Ordered()
  {
    BlobFits(codec, d, blobs, entries, id, rec, size);
    BlobRefines(d, id, L.BlobPath(id), rec);
  }

  lemma DeleteStands(codec: Codec, d: Disk, segments: map<nat, string>, blobs: map<string, string>,
                     entries: map<string, I.Entry>, id: string)
    requires Stands(codec, d, segments, blobs, entries)
    ensures Stands(codec, d.Delete(id), segments, blobs, entries - {id})
    ensures d.Delete(id).WF()
    ensures d.Delete(id).Contents() == d.Contents() - {id}
    ensures d.Ordered() ==> d.Delete(id).Ordered()
  {
    DeleteFits(codec, d, entries, id);
    DeleteRefines(d, id);
  }

  lemma ValidSegNames(n: nat, id: string)
    ensures I.ValidSeg(L.SegName(n))
    ensures ValidId(id) ==> I.ValidSeg(L.BlobPath(id))
  {
    I.DecimalHasNoColon(n);
    if ValidId(id) {
      var p := L.BlobPath(id);
      SafeIdChars(id);
      forall c | c in p ensures c !in WHITESPACE {
        assert c in L.BLOB_PREFIX || c in L.SafeId(id) || c in ".dat";
      }
    }
  }

  lemma SafeIdChars(id: string)
    ensures forall c :: c in L.SafeId(id) ==> c in id || c == '_'
  {
    ReplaceChars(L.Replace1(L.Replace1(id, '/'), '\\'));
  }

  lemma {:induction false} ReplaceChars(s: string)
    ensures forall c :: c in L.Replace2(s) ==> c in s || c == '_'
    decreases |s|
  {
    if s != [] {
      if ".." <= s { ReplaceChars(s[2..]); } else { ReplaceChars(s[1..]); }
    }
  }

  // ---------- the store ----------

  /** The record a write starts from. */
  function Existing(m: map<string, Record>, id: string): Record
  {
    if id in m then m[id] else EMPTY
  }

  /** The contents after a write; a blob file is shared by all ids that map to its name. */
  ghost function Written(d: Disk, id: string, rec: Record, big: bool): map<string, Record>
    requires d.WF()
  {
    if !big then d.Contents()[id := rec]
    else
      map k | k in d.index.Keys + {id} ::
        if k == id || d.index[k] == InBlob(L.BlobPath(id)) then rec else d.RecordOf(k)
  }

  /** The ids whose record is a blob. */
  function BlobIds(d: Disk): set<string> { set id | id in d.index && d.index[id].InBlob? }

  lemma BlobIdsAfter(d: Disk, id: string, rec: Record, full: bool)
    requires d.active in d.segs
    ensures BlobIds(LineStored(d, id, rec, full)) == BlobIds(d) - {id}
    ensures BlobIds(d.WriteBlob(id, L.BlobPath(id), rec)) == BlobIds(d) + {id}
    ensures BlobIds(d.Delete(id)) == BlobIds(d) - {id}
  {
  }

  class Store {
    const codec: Codec
    const nested: bool
    const blobThreshold: nat
    const log: L.LogManager
    const index: I.IndexManager
    ghost var disk: Disk

    ghost predicate Valid()
      reads this, log, index
    {
      && codec.Sound() && log.Valid() && index.Valid() && disk.WF() && disk.active == log.active
      && Stands(codec, disk, log.segments, log.blobs, index.entries)
    }

    /** The records the store holds. */
    ghost function Contents(): map<string, Record>
      requires Valid()
      reads this, log, index
    {
      disk.Contents()
    }

    constructor (codec: Codec, nested: bool, blobThreshold: nat, segmentThreshold: nat)
      requires codec.Sound()
      ensures Valid() && Contents() == map[] && fresh(log) && fresh(index)
      ensures this.codec == codec && this.nested == nested && this.blobThreshold == blobThreshold
    {
      this.codec, this.nested, this.blobThreshold := codec, nested, blobThreshold;
      log := new L.LogManager(segmentThreshold);
      index := new I.IndexManager();
      disk := Disk(map[1 := []], 1, map[], map[]);
      new;
      assert Texts(codec, []) == [];
    }

    /** The record on disk: index, then file, then parser; None when there is no entry. */
    method ReadDisk(id: string) returns (r: Option<Record>)
      requires Valid()
      ensures r == if id in Contents() then Some(Contents()[id]) else None
    {
      if id !in index.entries {
        return None;
      }
      var e := index.entries[id];
      EntryReadsBack(codec, disk, log, id, e);
      var line := log.Read(e.seg, e.offset, e.size);
      var parsed := Deserialize(codec, line.value);
      return Some(parsed.value.1);
    }

    /** read(), with the RAM cache left aside. */
    method Read(id: string) returns (r: Option<Record>)
      requires Valid()
      ensures r == if id in Contents() then Some(WithId(id, Contents()[id])) else None
    {
      r := ReadDisk(id);
      if r.Some? {
        r := Some(WithId(id, r.value));
      }
    }

    /** The merge of one write; None when partition_object raises. */
    method MergeDelta(existing: Record, delta: seq<Change>) returns (r: Option<Record>)
      ensures r == Merge(nested, existing, delta)
    {
      if nested {
        var u := PartitionObject(delta);
        if u.None? {
          return None;
        }
        var merged := DeepUpdateDict(existing, u.value);
        return Some(merged);
      }
      return Some(FlatMerge(existing, delta));
    }

    /** _write_to_storage: read, merge, serialize, append or write a blob, point the index at it. */
    method WriteToStorage(id: string, delta: seq<Change>) returns (ok: bool)
      requires Valid() && ValidId(id)
      modifies `disk, log, index
      ensures Valid() && (old(disk.Ordered()) ==> disk.Ordered())
      ensures ok <==> Merge(nested, Existing(old(Contents()), id), delta).Some?
      ensures !ok ==> disk == old(disk) && Contents() == old(Contents())
      ensures ok ==> var rec := Merge(nested, Existing(old(Contents()), id), delta).value;
                     var big := |Serialize(codec, id, rec)| > blobThreshold;
                     && Contents() == Written(old(disk), id, rec, big)
                     && BlobIds(disk) == if big then BlobIds(old(disk)) + {id} else BlobIds(old(disk)) - {id}
    {
      hide Valid, Written, Merge, Serialize, Disk.Ordered, BlobIds;
      var found := ReadDisk(id);
      var existing := if found.Some? then found.value else EMPTY;
      assert existing == Existing(Contents(), id);
      var merged := MergeDelta(existing, delta);
      if merged.None? {
        return false;
      }
      var rec := merged.value;
      var line := Serialize(codec, id, rec);
      StoreText(id, rec, line);
      return true;
    }

    method StoreText(id: string, rec: Record, line: string)
      requires Valid() && ValidId(id) && line == Serialize(codec, id, rec)
      modifies `disk, log, index
      ensures Valid() && Contents() == Written(old(disk), id, rec, |line| > blobThreshold)
      ensures BlobIds(disk) == if |line| > blobThreshold then BlobIds(old(disk)) + {id} else BlobIds(old(disk)) - {id}
      ensures old(disk.Ordered()) ==> disk.Ordered()
    {
      if |line| > blobThreshold {
        StoreBlob(id, rec, line);
      } else {
        StoreLine(id, rec, line);
      }
    }

    method StoreBlob(id: string, rec: Record, line: string)
      requires Valid() && ValidId(id) && line == Serialize(codec, id, rec)
      modifies `disk, log, index
      ensures Valid() && Contents() == Written(old(disk), id, rec, true)
      ensures BlobIds(disk) == BlobIds(old(disk)) + {id}
      ensures old(disk.Ordered()) ==> disk.Ordered()
    {
      hide Stands, Serialize, Written, Disk.WF, Disk.Ordered, Disk.Contents, L.BlobPath, BlobIds;
      hide I.IndexManager.Valid, Codec.Sound;
      var seg, offset, size := log.WriteBlob(id, line);
      BlobStands(codec, disk, log.segments, old(log.blobs), index.entries, id, rec, size);
      SameSegments(codec, disk, log.segments, old(log.blobs), index.entries);
      BlobIdsAfter(disk, id, rec, false);
      ValidSegNames(0, id);
      index.Set(id, seg, offset, size);
      disk := disk.WriteBlob(id, seg, rec);
    }

    method StoreLine(id: string, rec: Record, line: string)
      requires Valid() && ValidId(id) && line == Serialize(codec, id, rec)
      modifies `disk, log, index
      ensures Valid() && Contents() == Written(old(disk), id, rec, false)
      ensures BlobIds(disk) == BlobIds(old(disk)) - {id}
      ensures old(disk.Ordered()) ==> disk.Ordered()
    {
      hide Stands, Serialize, LineStored, Written, Disk.WF, Disk.Ordered, BlobIds;
      ghost var full := |log.segments[log.active]| + |line| + 1 >= log.threshold;
      LineStands(codec, disk, log.segments, log.blobs, index.entries, id, rec, full);
      ValidSegNames(log.active, id);
      BlobIdsAfter(disk, id, rec, full);
      ghost var d := LineStored(disk, id, rec, full);
      var seg, offset, size := log.Append(line);
      index.Set(id, seg, offset, size);
      disk := d;
    }

    /** delete(): the index forgets the id, with a tombstone in its journal. */
    method Delete(id: string)
      requires Valid()
      modifies `disk, log, index
      ensures Valid() && Contents() == old(Contents()) - {id} && BlobIds(disk) == BlobIds(old(disk)) - {id}
      ensures old(disk.Ordered()) ==> disk.Ordered()
    {
      hide Stands, Disk.WF, Disk.Ordered, BlobIds;
      DeleteStands(codec, disk, log.segments, log.blobs, index.entries, id);
      SameSegments(codec, disk, log.segments, log.blobs, index.entries);
      BlobIdsAfter(disk, id, EMPTY, false);
      index.Delete(id);
      disk := disk.Delete(id);
    }

    /**
      A new process on the files of the old one: setup() opens the segments and loads the
      journal.  Nothing is lost; but past segment 999 the log goes out of order, because an
      older segment is then opened for appending.
     */
    method Restart()
      requires Valid()
      modifies `disk, log, index
      ensures Valid() && Contents() == old(Contents()) && disk == old(disk).Open(log.active)
      ensures old(disk.Ordered()) ==> (disk.Ordered() <==> old(log.active) < 1000)
      ensures old(disk.Ordered()) && old(log.active) < 1000 ==> disk == old(disk)
    {
      hide Stands, Disk.WF, Disk.Contents, Codec.Sound, L.ThreeDigits, I.IndexManager.Valid;
      ghost var d, files := disk, log.segments;
      L.ThreeDigitsIsSmall(log.active);
      log.Reopen();
      index.Reload();
      L.ThreeDigitsIsSmall(log.active);
      OpenStands(codec, d, files, log.blobs, index.entries, log.active);
      SameSegments(codec, d, files, log.blobs, index.entries);
      disk := d.Open(log.active);
    }
  }
}
