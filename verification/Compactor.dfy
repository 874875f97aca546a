/**
  Compaction of sealed segments: mkdb/db/maintenance/compactor.py.

  Reads, deletes and writes are taken not to run between the replacement of the
  file and the update of the index.
 */
module Compactor {
  import opened Json
  import opened Text
  import opened Serializer
  import opened DiskLines
  import opened Store
  import L = LogManager
  import I = IndexManager

  // ---------- sizes ----------

  ghost function SumOf(entries: map<string, I.Entry>, ids: set<string>): nat
    requires ids <= entries.Keys
  {
    if ids == {} then 0
    else
      var id :| id in ids;
      entries[id].size + SumOf(entries, ids - {id})
  }

  lemma {:induction false} SumOfSplit(entries: map<string, I.Entry>, ids: set<string>, x: string)
    requires ids <= entries.Keys && x in ids
    ensures SumOf(entries, ids) == entries[x].size + SumOf(entries, ids - {x})
    decreases ids
  {
    var id :| id in ids && SumOf(entries, ids) == entries[id].size + SumOf(entries, ids - {id});
    if id != x {
      SumOfSplit(entries, ids - {id}, x);
      SumOfSplit(entries, ids - {x}, id);
      assert ids - {id} - {x} == ids - {x} - {id};
    }
  }

  function InSegment(entries: map<string, I.Entry>, seg: string): set<string>
  {
    set id | id in entries && entries[id].seg == seg
  }

  /** The bytes of a segment that the index still points at. */
  ghost function LogicalSize(entries: map<string, I.Entry>, seg: string): nat
  {
    SumOf(entries, InSegment(entries, seg))
  }

  /** The dead part of a segment is more than the given share of it. */
  ghost predicate TooDead(segments: map<nat, string>, entries: map<string, I.Entry>, n: nat, threshold: real)
  {
    n in segments && segments[n] != [] &&
    (|segments[n]| - LogicalSize(entries, L.SegName(n))) as real / |segments[n]| as real > threshold
  }

  // ---------- logical and physical size ----------

  /** The live ids among the first k lines of segment n. */
  ghost function LiveBelow(d: Disk, n: nat, k: nat): set<string>
  {
    set id | id in d.index && d.index[id].InLog? && d.index[id].seg == n && d.index[id].i < k
  }

  /** Line i of segment n is the current one of its id. */
  predicate IsLive(d: Disk, n: nat, i: nat)
    requires n in d.segs && i < |d.segs[n]|
  {
    var id := d.segs[n][i].id;
    id in d.index && d.index[id] == InLog(n, i)
  }

  predicate AllLive(d: Disk, n: nat, k: nat)
    requires n in d.segs && k <= |d.segs[n]|
  {
    forall i :: 0 <= i < k ==> IsLive(d, n, i)
  }

  lemma AllLiveStep(d: Disk, n: nat, k: nat)
    requires n in d.segs && 0 < k <= |d.segs[n]|
    ensures AllLive(d, n, k) <==> AllLive(d, n, k - 1) && IsLive(d, n, k - 1)
  {
  }

  lemma OffsetStep(codec: Codec, lines: seq<Line>, k: nat)
    requires 0 < k <= |lines|
    ensures Offset(codec, lines, k) == Offset(codec, lines, k - 1) + |LineText(codec, lines[k - 1])| + 1
    ensures Offset(codec, lines, 0) == 0
  {
    var t := Texts(codec, lines);
    assert t[..k][..k - 1] == t[..k - 1];
    assert t[..0] == [];
  }

  /** The sum over the live lines grows by the line's size when the line is live. */
  lemma LiveSumStep(codec: Codec, d: Disk, entries: map<string, I.Entry>, n: nat, k: nat)
    requires d.WF() && IndexFits(codec, d, entries) && n in d.segs && 0 < k <= |d.segs[n]|
    requires LiveBelow(d, n, k - 1) <= entries.Keys
    ensures LiveBelow(d, n, k) <= entries.Keys
    ensures SumOf(entries, LiveBelow(d, n, k)) == SumOf(entries, LiveBelow(d, n, k - 1)) +
            if IsLive(d, n, k - 1) then |LineText(codec, d.segs[n][k - 1])| + 1 else 0
  {
    hide Disk.WF, IndexFits, Serialize, SumOf, LiveBelow;
    LiveBelowStep(d, n, k);
    if IsLive(d, n, k - 1) {
      IndexFit(codec, d, entries, d.segs[n][k - 1].id);
      var id := d.segs[n][k - 1].id;
      assert EntryFits(codec, d, d.index[id], entries[id]);
      SumOfSplit(entries, LiveBelow(d, n, k), id);
      assert LiveBelow(d, n, k) - {id} == LiveBelow(d, n, k - 1);
    } else {
      assert LiveBelow(d, n, k) == LiveBelow(d, n, k - 1);
    }
  }

  lemma IndexFit(codec: Codec, d: Disk, entries: map<string, I.Entry>, id: string)
    requires IndexFits(codec, d, entries) && id in d.index
    ensures id in entries && EntryFits(codec, d, d.index[id], entries[id])
  {
  }

  /** The live lines among the first k never sum to more than the file up to there; to as much, only if all are live. */
  lemma {:induction false} LiveSizeUpTo(codec: Codec, d: Disk, entries: map<string, I.Entry>, n: nat, k: nat)
    requires d.WF() && IndexFits(codec, d, entries) && n in d.segs && k <= |d.segs[n]|
    ensures LiveBelow(d, n, k) <= entries.Keys
    ensures SumOf(entries, LiveBelow(d, n, k)) <= Offset(codec, d.segs[n], k)
    ensures SumOf(entries, LiveBelow(d, n, k)) == Offset(codec, d.segs[n], k) <==>
            AllLive(d, n, k)
    decreases k
  {
    if k == 0 {
      assert LiveBelow(d, n, 0) == {};
      assert Texts(codec, d.segs[n])[..0] == [];
    } else {
      LiveSizeUpTo(codec, d, entries, n, k - 1);
      OffsetStep(codec, d.segs[n], k);
      LiveSumStep(codec, d, entries, n, k);
      AllLiveStep(d, n, k);
    }
  }

  lemma LiveBelowStep(d: Disk, n: nat, k: nat)
    requires d.WF() && n in d.segs && 0 < k <= |d.segs[n]|
    ensures LiveBelow(d, n, k) ==
            LiveBelow(d, n, k - 1) + if IsLive(d, n, k - 1) then {d.segs[n][k - 1].id} else {}
    ensures IsLive(d, n, k - 1) ==> d.segs[n][k - 1].id !in LiveBelow(d, n, k - 1)
  {
    forall id | id in LiveBelow(d, n, k) && id !in LiveBelow(d, n, k - 1)
      ensures IsLive(d, n, k - 1) && id == d.segs[n][k - 1].id
    {
      assert d.Found(id);
    }
  }

  lemma InSegmentIsLive(codec: Codec, d: Disk, entries: map<string, I.Entry>, n: nat)
    requires d.WF() && IndexFits(codec, d, entries)
    ensures InSegment(entries, L.SegName(n)) == d.LiveIn(n)
    ensures n in d.segs ==> d.LiveIn(n) == LiveBelow(d, n, |d.segs[n]|)
  {
    forall id | id in d.index
      ensures entries[id].seg == L.SegName(n) <==> d.index[id].InLog? && d.index[id].seg == n
    {
      assert EntryFits(codec, d, d.index[id], entries[id]);
      L.SegNameParses(n);
      if d.index[id].InLog? { L.SegNameInjective(d.index[id].seg, n); }
    }
    forall id | id in d.LiveIn(n) ensures n in d.segs && id in LiveBelow(d, n, |d.segs[n]|) {
      assert d.Found(id);
    }
  }

  /** A segment's logical size is at most its physical size, and equal exactly when it holds no dead line. */
  lemma LogicalAtMostPhysical(codec: Codec, d: Disk, segments: map<nat, string>, entries: map<string, I.Entry>, n: nat)
    requires d.WF() && SegmentsFit(codec, d.segs, segments) && IndexFits(codec, d, entries) && n in d.segs
    ensures LogicalSize(entries, L.SegName(n)) <= |segments[n]|
    ensures LogicalSize(entries, L.SegName(n)) == |segments[n]| <==>
            AllLive(d, n, |d.segs[n]|)
  {
    InSegmentIsLive(codec, d, entries, n);
    LiveSizeUpTo(codec, d, entries, n, |d.segs[n]|);
    assert SegmentFits(codec, d.segs[n], segments[n]);
    var t := Texts(codec, d.segs[n]);
    assert t[..|t|] == t;
  }

  // ---------- dead bytes ----------

  /** The bytes of the first k lines of segment n that are no longer current, newlines included. */
  ghost function DeadBytes(codec: Codec, d: Disk, n: nat, k: nat): nat
    requires n in d.segs && k <= |d.segs[n]|
  {
    if k == 0 then 0
    else DeadBytes(codec, d, n, k - 1) + if IsLive(d, n, k - 1) then 0 else |LineText(codec, d.segs[n][k - 1])| + 1
  }

  /** The share of dead bytes in the file is more than the threshold. */
  ghost predicate MoreDeadThan(codec: Codec, d: Disk, segments: map<nat, string>, n: nat, threshold: real)
    requires n in d.segs && n in segments
  {
    DeadBytes(codec, d, n, |d.segs[n]|) as real > threshold * |segments[n]| as real
  }

  lemma {:induction false} LiveAndDead(codec: Codec, d: Disk, entries: map<string, I.Entry>, n: nat, k: nat)
    requires d.WF() && IndexFits(codec, d, entries) && n in d.segs && k <= |d.segs[n]|
    ensures LiveBelow(d, n, k) <= entries.Keys
    ensures SumOf(entries, LiveBelow(d, n, k)) + DeadBytes(codec, d, n, k) == Offset(codec, d.segs[n], k)
    decreases k
  {
    hide IsLive, Disk.WF, IndexFits, Serialize;
    if k == 0 {
      assert LiveBelow(d, n, 0) == {};
      assert Texts(codec, d.segs[n])[..0] == [];
    } else {
      LiveAndDead(codec, d, entries, n, k - 1);
      OffsetStep(codec, d.segs[n], k);
      LiveSumStep(codec, d, entries, n, k);
    }
  }

  /** Logical size and dead bytes make up the file. */
  lemma SizesAddUp(codec: Codec, d: Disk, segments: map<nat, string>, entries: map<string, I.Entry>, n: nat)
    requires d.WF() && SegmentsFit(codec, d.segs, segments) && IndexFits(codec, d, entries) && n in d.segs
    ensures LogicalSize(entries, L.SegName(n)) + DeadBytes(codec, d, n, |d.segs[n]|) == |segments[n]|
  {
    InSegmentIsLive(codec, d, entries, n);
    LiveAndDead(codec, d, entries, n, |d.segs[n]|);
    assert SegmentFits(codec, d.segs[n], segments[n]);
    var t := Texts(codec, d.segs[n]);
    assert t[..|t|] == t;
  }

  lemma ShareAbove(dead: nat, all: nat, threshold: real)
    requires all > 0
    ensures dead as real / all as real > threshold <==> dead as real > threshold * all as real
  {
    var x, y := dead as real, all as real;
    assert x / y * y == x;
    if x / y > threshold { assert (x / y - threshold) * y > 0.0; }
    if x / y <= threshold { assert (threshold - x / y) * y >= 0.0; }
  }

  lemma TooDeadIs(codec: Codec, d: Disk, segments: map<nat, string>, entries: map<string, I.Entry>, n: nat,
                  threshold: real)
    requires d.WF() && SegmentsFit(codec, d.segs, segments) && IndexFits(codec, d, entries) && n in d.segs
    ensures TooDead(segments, entries, n, threshold) <==> MoreDeadThan(codec, d, segments, n, threshold)
  {
    hide SegmentFits, IndexFits, Disk.WF, LogicalSize, DeadBytes, L.SegName;
    SizesAddUp(codec, d, segments, entries, n);
    if segments[n] != [] { ShareAbove(DeadBytes(codec, d, n, |d.segs[n]|), |segments[n]|, threshold); }
  }

  /** When the entry of id goes elsewhere, its line in segment n dies, and no other does. */
  lemma {:induction false} OneLineDies(codec: Codec, d: Disk, d': Disk, id: string, n: nat, k: nat)
    requires n in d.segs && n in d'.segs && d'.segs[n] == d.segs[n] && k <= |d.segs[n]|
    requires d'.index - {id} == d.index - {id}
    requires id in d'.index ==> d'.index[id].InBlob? || d'.index[id].seg != n
    requires id in d.index ==> d.Found(id)
    ensures DeadBytes(codec, d', n, k) == DeadBytes(codec, d, n, k) +
            if id in d.index && d.index[id].InLog? && d.index[id].seg == n && d.index[id].i < k
              then |LineText(codec, d.LineOf(id))| + 1 else 0
    decreases k
  {
    if k > 0 {
      OneLineDies(codec, d, d', id, n, k - 1);
      var j := d.segs[n][k - 1].id;
      if j != id {
        assert j in d.index <==> j in d.index - {id};
        assert j in d'.index <==> j in d'.index - {id};
        assert j in d.index ==> (d.index - {id})[j] == d.index[j];
        assert j in d'.index ==> (d'.index - {id})[j] == d'.index[j];
      }
    }
  }

  /** In a sealed segment a write or a delete only adds to the dead: exactly the line that was current for its id. */
  lemma SealedOnlyDies(codec: Codec, d: Disk, id: string, name: string, rec: Record, n: nat)
    requires d.WF() && n in d.segs && n != d.active
    ensures var gone := if id in d.index && d.index[id].InLog? && d.index[id].seg == n
                        then |LineText(codec, d.LineOf(id))| + 1 else 0;
            && DeadBytes(codec, d.Append(id, rec), n, |d.segs[n]|) == DeadBytes(codec, d, n, |d.segs[n]|) + gone
            && DeadBytes(codec, d.WriteBlob(id, name, rec), n, |d.segs[n]|) ==
               DeadBytes(codec, d, n, |d.segs[n]|) + gone
            && DeadBytes(codec, d.Delete(id), n, |d.segs[n]|) == DeadBytes(codec, d, n, |d.segs[n]|) + gone
  {
    hide DeadBytes;
    assert id in d.index ==> d.Found(id);
    assert d.Append(id, rec).index - {id} == d.index - {id};
    assert d.WriteBlob(id, name, rec).index - {id} == d.index - {id};
    OneLineDies(codec, d, d.Append(id, rec), id, n, |d.segs[n]|);
    OneLineDies(codec, d, d.WriteBlob(id, name, rec), id, n, |d.segs[n]|);
    OneLineDies(codec, d, d.Delete(id), id, n, |d.segs[n]|);
  }

  /** So a sealed segment with too many dead bytes goes on having too many. */
  lemma StaysTooDead(codec: Codec, d: Disk, segments: map<nat, string>, id: string, name: string, rec: Record, n: nat,
                     threshold: real)
    requires d.WF() && n in d.segs && n in segments && n != d.active && MoreDeadThan(codec, d, segments, n, threshold)
    ensures MoreDeadThan(codec, d.Append(id, rec), segments, n, threshold)
    ensures MoreDeadThan(codec, d.WriteBlob(id, name, rec), segments, n, threshold)
    ensures MoreDeadThan(codec, d.Delete(id), segments, n, threshold)
  {
    hide DeadBytes, Disk.WF;
    SealedOnlyDies(codec, d, id, name, rec, n);
  }

  // ---------- the rewritten file and the new extents ----------

  /** The entries after compaction: the kept lines, laid end to end. */
  ghost predicate Tiled(codec: Codec, n: nat, lines: seq<Line>, order: seq<string>, k: nat,
                        offsets: map<string, I.Entry>)
    requires |lines| == |order| && k <= |order|
  {
    && (forall id :: id in offsets <==> id in order[..k])
    && forall j :: 0 <= j < k ==>
         order[j] in offsets &&
         offsets[order[j]] == I.Entry(L.SegName(n), Offset(codec, lines, j), |LineText(codec, lines[j])| + 1)
  }

  /** The temporary file and the new offsets after k of the live ids. */
  ghost predicate Copied(codec: Codec, n: nat, lines: seq<Line>, order: seq<string>, k: nat,
                         file: string, offsets: map<string, I.Entry>)
    requires |lines| == |order| && k <= |order|
  {
    file == Render(Texts(codec, lines)[..k]) && Tiled(codec, n, lines, order, k, offsets)
  }

  lemma NothingCopied(codec: Codec, n: nat, lines: seq<Line>, order: seq<string>)
    requires |lines| == |order|
    ensures Copied(codec, n, lines, order, 0, [], map[])
  {
    assert Texts(codec, lines)[..0] == [];
  }

  lemma AllCopied(codec: Codec, n: nat, lines: seq<Line>, order: seq<string>, file: string,
                  offsets: map<string, I.Entry>)
    requires |lines| == |order| && Copied(codec, n, lines, order, |order|, file, offsets)
    ensures file == Render(Texts(codec, lines)) && Tiled(codec, n, lines, order, |order|, offsets)
  {
    assert Texts(codec, lines)[..|order|] == Texts(codec, lines);
  }

  lemma Enumerated(s: Store, n: nat, order: seq<string>)
    requires s.Valid() && s.disk.Enumerates(order, n)
    ensures s.disk.WF() && |s.disk.Kept(n, order)| == |order|
    ensures forall i, j :: 0 <= i < j < |order| ==> order[i] != order[j]
  {
  }

  lemma CopiedStep(codec: Codec, n: nat, lines: seq<Line>, order: seq<string>, k: nat,
                   file: string, offsets: map<string, I.Entry>, line: string)
    requires |lines| == |order| && k < |order| && Copied(codec, n, lines, order, k, file, offsets)
    requires forall i, j :: 0 <= i < j < |order| ==> order[i] != order[j]
    requires line == Texts(codec, lines)[k]
    ensures Copied(codec, n, lines, order, k + 1, file + line + [NEWLINE],
                   offsets[order[k] := I.Entry(L.SegName(n), |file|, |line| + 1)])
  {
    RenderStep(Texts(codec, lines), k);
    TiledStep(codec, n, lines, order, k, offsets);
    assert I.Entry(L.SegName(n), |file|, |line| + 1) ==
           I.Entry(L.SegName(n), Offset(codec, lines, k), |LineText(codec, lines[k])| + 1);
  }

  lemma TiledStep(codec: Codec, n: nat, lines: seq<Line>, order: seq<string>, k: nat, offsets: map<string, I.Entry>)
    requires |lines| == |order| && k < |order| && Tiled(codec, n, lines, order, k, offsets)
    requires forall i, j :: 0 <= i < j < |order| ==> order[i] != order[j]
    ensures Tiled(codec, n, lines, order, k + 1,
                  offsets[order[k] := I.Entry(L.SegName(n), Offset(codec, lines, k), |LineText(codec, lines[k])| + 1)])
  {
    assert order[..k + 1] == order[..k] + [order[k]];
  }

  /** A kept line's new entry fits the compacted disk. */
  lemma KeptEntryFits(codec: Codec, d: Disk, n: nat, order: seq<string>, id: string)
    requires d.WF() && d.Enumerates(order, n) && n != d.active && order != [] && id in d.LiveIn(n)
    ensures var j := IndexIn(order, id);
            var lines := d.Kept(n, order);
            j < |lines| &&
            EntryFits(codec, d.Compact(n, order), d.Compact(n, order).index[id],
                      I.Entry(L.SegName(n), Offset(codec, lines, j), |LineText(codec, lines[j])| + 1))
  {
    assert id in order;
  }

  /** The index fits the compacted disk. */
  lemma CompactFitsIndex(codec: Codec, d: Disk, entries: map<string, I.Entry>, n: nat, order: seq<string>,
                         offsets: map<string, I.Entry>)
    requires d.WF() && IndexFits(codec, d, entries) && d.Enumerates(order, n) && n != d.active && order != []
    requires Tiled(codec, n, d.Kept(n, order), order, |order|, offsets)
    ensures IndexFits(codec, d.Compact(n, order), entries + offsets)
  {
    hide Disk.WF, EntryFits, Disk.Kept, Tiled, Disk.Enumerates, Serialize, Offset;
    var d' := d.Compact(n, order);
    OffsetsOfLive(codec, d, n, order, offsets);
    forall id | id in d.index ensures EntryFits(codec, d', d'.index[id], (entries + offsets)[id]) {
      NewEntryFits(codec, d, entries, n, order, offsets, id);
    }
  }

  lemma OffsetsOfLive(codec: Codec, d: Disk, n: nat, order: seq<string>, offsets: map<string, I.Entry>)
    requires d.WF() && d.Enumerates(order, n) && Tiled(codec, n, d.Kept(n, order), order, |order|, offsets)
    ensures forall id :: id in offsets ==> id in d.index
  {
    assert order[..|order|] == order;
  }

  lemma NewEntryFits(codec: Codec, d: Disk, entries: map<string, I.Entry>, n: nat, order: seq<string>,
                     offsets: map<string, I.Entry>, id: string)
    requires d.WF() && d.Enumerates(order, n) && n != d.active && order != []
    requires Tiled(codec, n, d.Kept(n, order), order, |order|, offsets)
    requires id in d.index && id in entries && EntryFits(codec, d, d.index[id], entries[id])
    ensures EntryFits(codec, d.Compact(n, order), d.Compact(n, order).index[id], (entries + offsets)[id])
  {
    hide Disk.WF, EntryFits, Disk.Compact, Disk.Kept, Serialize, Offset;
    assert order[..|order|] == order;
    if id in d.LiveIn(n) {
      KeptEntryFits(codec, d, n, order, id);
      assert offsets[order[IndexIn(order, id)]] == offsets[id];
    } else {
      OtherEntryFits(codec, d, n, order, id, entries[id]);
      assert id !in offsets;
    }
  }

  lemma OtherEntryFits(codec: Codec, d: Disk, n: nat, order: seq<string>, id: string, e: I.Entry)
    requires d.WF() && d.Enumerates(order, n) && n != d.active && order != []
    requires id in d.index && id !in d.LiveIn(n) && EntryFits(codec, d, d.index[id], e)
    ensures EntryFits(codec, d.Compact(n, order), d.Compact(n, order).index[id], e)
  {
    assert d.Found(id);
    EntryKept(codec, d, d.Compact(n, order), d.index[id], e);
  }

  /** Reading a live id during the copy gives its kept line. */
  lemma LiveLineRead(s: Store, n: nat, order: seq<string>, k: nat)
    requires s.Valid() && s.disk.Enumerates(order, n) && k < |order|
    ensures order[k] in s.index.entries
    ensures var e := s.index.entries[order[k]];
            s.log.Read(e.seg, e.offset, e.size) == Some(Texts(s.codec, s.disk.Kept(n, order))[k])
  {
    hide Disk.WF, Disk.Enumerates, Disk.Kept, Disk.LineOf, SegmentsFit, BlobsFit, OwnBlobs, EntryFits;
    hide Serialize, Deserialize;
    var id := order[k];
    KeptIs(s.disk, n, order, k);
    EntryReadsBack(s.codec, s.disk, s.log, id, s.index.entries[id]);
  }

  lemma KeptIs(d: Disk, n: nat, order: seq<string>, k: nat)
    requires d.WF() && d.Enumerates(order, n) && k < |order|
    ensures order[k] in d.index && d.Found(order[k]) && d.index[order[k]].InLog?
    ensures |d.Kept(n, order)| == |order| && d.Kept(n, order)[k] == d.LineOf(order[k])
  {
    assert d.Found(order[k]);
  }

  lemma CompactFitsFiles(codec: Codec, d: Disk, segments: map<nat, string>, n: nat, order: seq<string>, file: string)
    requires d.WF() && SegmentsFit(codec, d.segs, segments) && d.Enumerates(order, n)
    requires n != d.active && order != [] && file == Render(Texts(codec, d.Kept(n, order)))
    ensures SegmentsFit(codec, d.Compact(n, order).segs, segments[n := file])
  {
    hide Disk.WF, SegmentFits, Disk.Kept, Render, Serialize;
    KeptFits(codec, d, segments, n, order, file);
    assert d.Found(order[0]) by { KeptIs(d, n, order, 0); }
  }

  lemma KeptFits(codec: Codec, d: Disk, segments: map<nat, string>, n: nat, order: seq<string>, file: string)
    requires d.WF() && SegmentsFit(codec, d.segs, segments) && d.Enumerates(order, n)
    requires file == Render(Texts(codec, d.Kept(n, order)))
    ensures SegmentFits(codec, d.Kept(n, order), file)
  {
    hide Render, Texts, ValidId;
    forall i | 0 <= i < |order| ensures ValidId(d.Kept(n, order)[i].id) {
      KeptIs(d, n, order, i);
      assert SegmentFits(codec, d.segs[n], segments[n]);
    }
  }

  lemma CompactedIsAllLive(d: Disk, n: nat, order: seq<string>)
    requires d.WF() && d.Enumerates(order, n) && n != d.active && order != []
    ensures n in d.Compact(n, order).segs && d.Compact(n, order).LiveIn(n) != {}
    ensures AllLive(d.Compact(n, order), n, |d.Compact(n, order).segs[n]|)
  {
    var d' := d.Compact(n, order);
    assert d.Found(order[0]) && order[0] in d'.LiveIn(n);
    forall i | 0 <= i < |order| ensures IsLive(d', n, i) {
      assert d.Found(order[i]);
      assert IndexIn(order, order[i]) == i;
    }
  }

  lemma DeadShare(physical: nat, logical: nat, threshold: real)
    requires physical > 0
    ensures logical == physical ==> (physical - logical) as real / physical as real == 0.0
    ensures logical == 0 ==> (physical - logical) as real / physical as real == 1.0
  {
  }

  /** A segment whose lines are all live is not too dead for any threshold. */
  lemma AllLiveNotTooDead(codec: Codec, d: Disk, segments: map<nat, string>, entries: map<string, I.Entry>,
                          n: nat, threshold: real)
    requires d.WF() && SegmentsFit(codec, d.segs, segments) && IndexFits(codec, d, entries)
    requires n in d.segs && AllLive(d, n, |d.segs[n]|) && threshold >= 0.0
    ensures !TooDead(segments, entries, n, threshold)
  {
    hide AllLive, SegmentFits, IndexFits, Disk.WF, LogicalSize, L.SegName;
    LogicalAtMostPhysical(codec, d, segments, entries, n);
    if segments[n] != [] { DeadShare(|segments[n]|, LogicalSize(entries, L.SegName(n)), threshold); }
  }

  /** A segment without live lines is all dead. */
  lemma NoLiveIsAllDead(codec: Codec, d: Disk, segments: map<nat, string>, entries: map<string, I.Entry>,
                        n: nat, threshold: real)
    requires d.WF() && SegmentsFit(codec, d.segs, segments) && IndexFits(codec, d, entries)
    requires n in d.segs && d.LiveIn(n) == {}
    ensures TooDead(segments, entries, n, threshold) <==> segments[n] != [] && 1.0 > threshold
  {
    InSegmentIsLive(codec, d, entries, n);
    assert LogicalSize(entries, L.SegName(n)) == 0;
    if segments[n] != [] { DeadShare(|segments[n]|, 0, threshold); }
  }

  /** Once compacted, a segment is too dead only if it has no live line at all and so was skipped. */
  ghost predicate Settled(d: Disk, segments: map<nat, string>, entries: map<string, I.Entry>, n: nat)
  {
    n in segments ==>
      forall t: real :: t >= 0.0 ==>
        (TooDead(segments, entries, n, t) <==> d.LiveIn(n) == {} && segments[n] != [] && 1.0 > t)
  }

  lemma OrderEnumerates(codec: Codec, d: Disk, segments: map<nat, string>, blobs: map<string, string>,
                        entries: map<string, I.Entry>, n: nat, order: seq<string>)
    requires Stands(codec, d, segments, blobs, entries)
    requires forall id :: id in order <==> id in entries && entries[id].seg == L.SegName(n)
    requires forall j, k :: 0 <= j < k < |order| ==> order[j] != order[k]
    ensures d.Enumerates(order, n)
    ensures order == [] ==> d.LiveIn(n) == {} && d.Compact(n, order) == d
    ensures n == d.active ==> d.Compact(n, order) == d
  {
    InSegmentIsLive(codec, d, entries, n);
    forall id ensures id in order <==> id in d.LiveIn(n) {
      assert id in InSegment(entries, L.SegName(n)) <==> id in entries && entries[id].seg == L.SegName(n);
    }
  }

  lemma SkippedIsSettled(codec: Codec, d: Disk, segments: map<nat, string>, blobs: map<string, string>,
                         entries: map<string, I.Entry>, n: nat)
    requires Stands(codec, d, segments, blobs, entries) && d.LiveIn(n) == {}
    ensures Settled(d, segments, entries, n)
  {
    if n in segments {
      forall t: real | t >= 0.0 ensures TooDead(segments, entries, n, t) <==> segments[n] != [] && 1.0 > t {
        NoLiveIsAllDead(codec, d, segments, entries, n, t);
      }
    }
  }

  lemma CompactedIsSettled(codec: Codec, d: Disk, d': Disk, segments: map<nat, string>, blobs: map<string, string>,
                           entries: map<string, I.Entry>, n: nat, order: seq<string>)
    requires d.WF() && d.Enumerates(order, n) && n != d.active && order != [] && d' == d.Compact(n, order)
    requires Stands(codec, d', segments, blobs, entries)
    ensures Settled(d', segments, entries, n)
  {
    hide Disk.WF, Disk.Compact, Disk.Enumerates, IndexFits, SegmentsFit, BlobsFit, OwnBlobs, TooDead, AllLive;
    CompactedIsAllLive(d, n, order);
    forall t: real | t >= 0.0 ensures !TooDead(segments, entries, n, t) {
      AllLiveNotTooDead(codec, d', segments, entries, n, t);
    }
  }

  class Compactor {
    const store: Store

    constructor (store: Store)
      ensures this.store == store
    {
      this.store := store;
    }

    /** compute_logical_size. */
    method ComputeLogicalSize(seg: string) returns (total: nat)
      ensures total == LogicalSize(store.index.entries, seg)
    {
      var entries := store.index.entries;
      total := 0;
      var todo := entries.Keys;
      ghost var counted: set<string> := {};
      while todo != {}
        invariant todo <= entries.Keys && counted <= entries.Keys && counted !! todo
        invariant counted == InSegment(entries, seg) - todo
        invariant total == SumOf(entries, counted)
        decreases todo
      {
        var id :| id in todo;
        if entries[id].seg == seg {
          SumOfSplit(entries, counted + {id}, id);
          assert counted + {id} - {id} == counted;
          counted := counted + {id};
          total := total + entries[id].size;
        }
        todo := todo - {id};
      }
      assert counted == InSegment(entries, seg);
    }

    /** needs_compaction. */
    method NeedsCompaction(n: nat, threshold: real) returns (r: bool)
      ensures r <==> TooDead(store.log.segments, store.index.entries, n, threshold)
      ensures store.Valid() ==>
                && (n in store.log.segments <==> n in store.disk.segs)
                && (r <==> n in store.disk.segs &&
                           MoreDeadThan(store.codec, store.disk, store.log.segments, n, threshold))
    {
      hide MoreDeadThan, Store.Valid, LogicalSize, L.SegName;
      AnswerMeans(store, n, threshold);
      var seg := L.SegName(n);
      if n !in store.log.segments {
        return false;
      }
      var physical := |store.log.segments[n]|;
      if physical == 0 {
        return false;
      }
      var logical := ComputeLogicalSize(seg);
      return (physical - logical) as real / physical as real > threshold;
    }

    /** The loop that copies the live lines to the temporary file. */
    method CopyLive(n: nat, order: seq<string>) returns (file: string, offsets: map<string, I.Entry>)
      requires store.Valid() && store.disk.Enumerates(order, n)
      ensures file == Render(Texts(store.codec, store.disk.Kept(n, order)))
      ensures Tiled(store.codec, n, store.disk.Kept(n, order), order, |order|, offsets)
    {
      hide Store.Valid, Disk.WF, Disk.Enumerates, Disk.Kept, Copied, Tiled;
      Enumerated(store, n, order);
      ghost var lines := store.disk.Kept(n, order);
      file, offsets := [], map[];
      NothingCopied(store.codec, n, lines, order);
      for k := 0 to |order|
        invariant Copied(store.codec, n, lines, order, k, file, offsets)
      {
        LiveLineRead(store, n, order, k);
        var e := store.index.entries[order[k]];
        var line := store.log.Read(e.seg, e.offset, e.size);
        CopiedStep(store.codec, n, lines, order, k, file, offsets, line.value);
        offsets := offsets[order[k] := I.Entry(L.SegName(n), |file|, |line.value| + 1)];
        file := file + line.value + [NEWLINE];
      }
      AllCopied(store.codec, n, lines, order, file, offsets);
    }

    /**
      compact_segment: rewrite one sealed segment with its live lines only.
      Nothing a reader sees changes; the new extents tile the new file.
     */
    method CompactSegment(n: nat)
      requires store.Valid()
      modifies store`disk, store.log, store.index
      ensures store.Valid() && store.Contents() == old(store.Contents())
      ensures old(store.disk.Ordered()) ==> store.disk.Ordered()
      ensures exists order :: old(store.disk).Enumerates(order, n) && store.disk == old(store.disk).Compact(n, order)
      ensures forall m :: m in old(store.log.segments) && m != n ==>
                m in store.log.segments && store.log.segments[m] == old(store.log.segments)[m]
      ensures n != store.log.active ==> Settled(store.disk, store.log.segments, store.index.entries, n)
    {
      hide Stands, Disk.WF, Disk.Ordered, Settled, Disk.Enumerates;
      var order := store.index.RecordsInSegment(L.SegName(n));
      OrderEnumerates(store.codec, store.disk, store.log.segments, store.log.blobs, store.index.entries, n, order);
      if n == store.log.active {
        return;
      }
      if order == [] {
        SkippedIsSettled(store.codec, store.disk, store.log.segments, store.log.blobs, store.index.entries, n);
        return;
      }
      var file := Rewrite(n, order);
      CompactedIsSettled(store.codec, old(store.disk), store.disk, store.log.segments, store.log.blobs,
                         store.index.entries, n, order);
    }

    /** The part of compact_segment after its guards. */
    method Rewrite(n: nat, order: seq<string>) returns (file: string)
      requires store.Valid() && store.disk.Enumerates(order, n) && n != store.log.active && order != []
      modifies store`disk, store.log, store.index
      ensures store.Valid() && store.disk == old(store.disk).Compact(n, order)
      ensures store.log.active == old(store.log.active) && store.log.segments == old(store.log.segments)[n := file]
      ensures store.Contents() == old(store.Contents()) && (old(store.disk.Ordered()) ==> store.disk.Ordered())
    {
      hide Disk.Ordered;
      hide Stands, Tiled, Disk.WF, Disk.Compact, Disk.Kept;
      var offsets;
      file, offsets := CopyLive(n, order);
      CompactStands(store.codec, store.disk, store.log.segments, store.log.blobs, store.index.entries,
                    n, order, file, offsets);
      CompactedIds(store, n, order, offsets);
      ghost var d := store.disk.Compact(n, order);
      Install(n, file, store.index.entries + offsets, d);
    }

    /** The atomic swap of the file and the batch update of the index. */
    method Install(n: nat, file: string, entries: map<string, I.Entry>, ghost d: Disk)
      requires store.Valid() && n in store.log.segments && d.WF() && d.active == store.log.active
      requires Stands(store.codec, d, store.log.segments[n := file], store.log.blobs, entries)
      requires forall id :: id in entries ==> ValidId(id) && I.ValidSeg(entries[id].seg)
      modifies store`disk, store.log, store.index
      ensures store.Valid() && store.disk == d
      ensures store.log.active == old(store.log.active) && store.log.segments == old(store.log.segments)[n := file]
    {
      hide Stands, Disk.WF;
      store.log.ReplaceSegment(n, file);
      store.index.entries := entries;
      store.index.SaveFull();
      store.disk := d;
    }
  }

  lemma AnswerMeans(s: Store, n: nat, threshold: real)
    ensures s.Valid() ==>
              && (n in s.log.segments <==> n in s.disk.segs)
              && (TooDead(s.log.segments, s.index.entries, n, threshold) <==>
                    n in s.disk.segs && MoreDeadThan(s.codec, s.disk, s.log.segments, n, threshold))
  {
    hide TooDead, MoreDeadThan, Disk.WF, SegmentFits, IndexFits;
    if s.Valid() && n in s.disk.segs { TooDeadIs(s.codec, s.disk, s.log.segments, s.index.entries, n, threshold); }
    MissingIsNotDead(s.log.segments, s.index.entries, n, threshold);
  }

  lemma MissingIsNotDead(segments: map<nat, string>, entries: map<string, I.Entry>, n: nat, threshold: real)
    ensures n !in segments ==> !TooDead(segments, entries, n, threshold)
  {
  }

  lemma CompactShape(d: Disk, n: nat, order: seq<string>)
    requires d.WF() && d.Enumerates(order, n) && n != d.active && order != [] && OwnBlobs(d)
    ensures n in d.segs && d.Compact(n, order).active == d.active
    ensures d.Compact(n, order).blobs == d.blobs && OwnBlobs(d.Compact(n, order))
  {
    assert d.Found(order[0]);
  }

  /** The rewritten file and entries stand for the compacted disk. */
  lemma CompactStands(codec: Codec, d: Disk, segments: map<nat, string>, blobs: map<string, string>,
                      entries: map<string, I.Entry>, n: nat, order: seq<string>, file: string,
                      offsets: map<string, I.Entry>)
    requires Stands(codec, d, segments, blobs, entries) && d.Enumerates(order, n) && n != d.active && order != []
    requires file == Render(Texts(codec, d.Kept(n, order)))
    requires Tiled(codec, n, d.Kept(n, order), order, |order|, offsets)
    ensures Stands(codec, d.Compact(n, order), segments[n := file], blobs, entries + offsets)
    ensures n in segments && d.Compact(n, order).active == d.active
    ensures d.Compact(n, order).WF() && d.Compact(n, order).Contents() == d.Contents()
    ensures d.Ordered() ==> d.Compact(n, order).Ordered()
  {
    CompactShape(d, n, order);
    hide IndexFits, SegmentsFit, BlobsFit, OwnBlobs, Tiled, Disk.Kept, Disk.Compact, Disk.WF;
    hide Disk.Contents, Disk.Ordered;
    CompactRefines(d, n, order);
    CompactFitsFiles(codec, d, segments, n, order, file);
    CompactFitsIndex(codec, d, entries, n, order, offsets);
  }

  /** The updated entries name live ids and a proper segment. */
  lemma CompactedIds(s: Store, n: nat, order: seq<string>, offsets: map<string, I.Entry>)
    requires s.Valid() && s.disk.Enumerates(order, n)
    requires Tiled(s.codec, n, s.disk.Kept(n, order), order, |order|, offsets)
    ensures forall id :: id in s.index.entries + offsets ==>
              ValidId(id) && I.ValidSeg((s.index.entries + offsets)[id].seg)
  {
    ValidSegNames(n, []);
    assert order[..|order|] == order;
    forall id | id in offsets ensures ValidId(id) && I.ValidSeg(offsets[id].seg) {
      var j :| 0 <= j < |order| && order[j] == id;
    }
  }
}
