/**
  The primary index and its journal: mkdb/db/storage/index_manager.py.

  `entries` is the in-memory map, `journal` the text of the .idx file.  Every
  method keeps Valid: reading the file from the start gives the map back.
 */
module IndexManager {
  import opened Json
  import opened Text
  import opened Serializer
  import Decimal

  datatype Entry = Entry(seg: string, offset: nat, size: nat)

  // ---------- the text ----------

  function EntryLine(id: string, e: Entry): string
  {
    id + ":" + e.seg + ":" + Decimal.Print(e.offset) + ":" + Decimal.Print(e.size)
  }

  /** One raw line of the file; None is the ValueError of `int`. */
  function LoadLine(m: map<string, Entry>, raw: string): Option<map<string, Entry>>
  {
    var line := Strip(raw, WHITESPACE);
    if line == [] then Some(m)
    else if line[0] == '!' then Some(m - {Split(line[1..], ':')[0]})
    else
      var parts := Split(line, ':');
      var n := |parts|;
      if n < 4 then Some(m)
      else
        var size, offset := Decimal.Parse(parts[n - 1]), Decimal.Parse(parts[n - 2]);
        if size.None? || offset.None? then None
        else Some(m[parts[0] := Entry(Join(parts[1..n - 2], ':'), offset.value, size.value)])
  }

  function LoadLines(m: map<string, Entry>, lines: seq<string>): Option<map<string, Entry>>
  {
    if lines == [] then Some(m)
    else
      var before := LoadLines(m, lines[..|lines| - 1]);
      if before.None? then None else LoadLine(before.value, lines[|lines| - 1])
  }

  /** The map read back from a journal. */
  function Replay(journal: string): Option<map<string, Entry>>
  {
    LoadLines(map[], FileLines(journal))
  }

  /** Segment names: not empty, no white space. */
  predicate ValidSeg(seg: string) { seg != [] && forall c :: c in seg ==> c !in WHITESPACE }

  lemma DecimalHasNoColon(n: nat)
    ensures ':' !in Decimal.Print(n)
    ensures forall c :: c in Decimal.Print(n) ==> c !in WHITESPACE
  {
  }

  lemma EntryLineParts(id: string, e: Entry)
    requires ValidId(id)
    ensures Split(EntryLine(id, e), ':') ==
            [id] + Split(e.seg, ':') + [Decimal.Print(e.offset), Decimal.Print(e.size)]
  {
    hide Split, Decimal.Print;
    var off, size := Decimal.Print(e.offset), Decimal.Print(e.size);
    DecimalHasNoColon(e.offset);
    DecimalHasNoColon(e.size);
    var tail := off + [':'] + size;
    var rest := e.seg + [':'] + tail;
    assert EntryLine(id, e) == id + [':'] + rest;
    SplitConcat(id, rest, ':');
    SplitAppend(e.seg, tail, ':');
    SplitConcat(off, size, ':');
    assert Split(tail, ':') == [off, size];
  }

  lemma EntryLineTight(id: string, e: Entry)
    requires ValidId(id) && ValidSeg(e.seg)
    ensures Tight(EntryLine(id, e), WHITESPACE) && NEWLINE !in EntryLine(id, e)
    ensures EntryLine(id, e)[0] != '!'
  {
    var off, size := Decimal.Print(e.offset), Decimal.Print(e.size);
    DecimalHasNoColon(e.offset);
    DecimalHasNoColon(e.size);
    var line := EntryLine(id, e);
    assert line[0] == id[0] && line[|line| - 1] == size[|size| - 1];
  }

  /** A printed entry reads back as that entry, after whatever was read before. */
  lemma LoadEntry(m: map<string, Entry>, id: string, e: Entry)
    requires ValidId(id) && ValidSeg(e.seg)
    ensures LoadLine(m, EntryLine(id, e) + [NEWLINE]) == Some(m[id := e])
  {
    hide EntryLine, Strip, Split, Join, LoadLine, ValidId, ValidSeg, Decimal.Print, Decimal.Parse;
    var line := EntryLine(id, e);
    EntryLineTight(id, e);
    EntryLineParts(id, e);
    StripTight(line, WHITESPACE, NEWLINE);
    Decimal.ParsePrint(e.offset);
    Decimal.ParsePrint(e.size);
    JoinSplit(e.seg, ':');
    LoadParts(m, line + [NEWLINE], id, Split(e.seg, ':'), Decimal.Print(e.offset), Decimal.Print(e.size));
  }

  lemma LoadParts(m: map<string, Entry>, raw: string, id: string, seg: seq<string>, offset: string, size: string)
    requires Strip(raw, WHITESPACE) != [] && Strip(raw, WHITESPACE)[0] != '!' && seg != []
    requires Split(Strip(raw, WHITESPACE), ':') == [id] + seg + [offset, size]
    requires Decimal.Parse(offset).Some? && Decimal.Parse(size).Some?
    ensures LoadLine(m, raw) ==
            Some(m[id := Entry(Join(seg, ':'), Decimal.Parse(offset).value, Decimal.Parse(size).value)])
  {
    hide Strip, Split, Join, Decimal.Parse;
    var parts := Split(Strip(raw, WHITESPACE), ':');
    assert parts[1..|parts| - 2] == seg;
  }

  /** Blank lines and lines with fewer than four parts are skipped; a number that does not parse raises. */
  lemma LoadOthers(m: map<string, Entry>, raw: string)
    ensures var line := Strip(raw, WHITESPACE);
            && (line == [] ==> LoadLine(m, raw) == Some(m))
            && (line != [] && line[0] != '!' ==>
                  var parts := Split(line, ':');
                  && (|parts| < 4 ==> LoadLine(m, raw) == Some(m))
                  && (|parts| >= 4 ==>
                        (LoadLine(m, raw).None? <==>
                          Decimal.Parse(parts[|parts| - 1]).None? || Decimal.Parse(parts[|parts| - 2]).None?)))
  {
    hide Strip, Split, Decimal.Parse, Join;
  }

  /** A tombstone removes its id. */
  lemma LoadTombstone(m: map<string, Entry>, id: string, e: Entry)
    requires ValidId(id) && ValidSeg(e.seg)
    ensures LoadLine(m, "!" + EntryLine(id, e) + [NEWLINE]) == Some(m - {id})
  {
    hide EntryLine, Strip, Split, LoadLine;
    var line := "!" + EntryLine(id, e);
    EntryLineTight(id, e);
    EntryLineParts(id, e);
    assert line[0] == '!' && line[|line| - 1] == EntryLine(id, e)[|line| - 2];
    StripTight(line, WHITESPACE, NEWLINE);
    assert line[1..] == EntryLine(id, e);
    LoadBang(m, line + [NEWLINE]);
  }

  lemma LoadBang(m: map<string, Entry>, raw: string)
    requires Strip(raw, WHITESPACE) != [] && Strip(raw, WHITESPACE)[0] == '!'
    ensures LoadLine(m, raw) == Some(m - {Split(Strip(raw, WHITESPACE)[1..], ':')[0]})
  {
    hide Strip, Split;
  }

  // ---------- appending to the journal ----------

  /** The file is a list of complete lines. */
  predicate Complete(journal: string) { journal == [] || journal[|journal| - 1] == NEWLINE }

  lemma {:induction false} FileLinesAppend(s: string, line: string)
    requires Complete(s) && NEWLINE !in line
    ensures FileLines(s + line + [NEWLINE]) == FileLines(s) + [line + [NEWLINE]]
    decreases |s|
  {
    var t := s + line + [NEWLINE];
    if s == [] {
      LineLengthOf(line, []);
      assert t == line + [NEWLINE] + [];
      assert t[..|line| + 1] == t && t[|line| + 1..] == [];
      assert FileLines(t) == [t] + FileLines([]);
    } else {
      var n := LineLength(s);
      LineLengthPrefix(s, line + [NEWLINE]);
      assert t == s + (line + [NEWLINE]);
      assert t[..n] == s[..n] && t[n..] == s[n..] + line + [NEWLINE];
      FileLinesAppend(s[n..], line);
    }
  }

  lemma {:induction false} LineLengthPrefix(s: string, t: string)
    requires s != [] && s[|s| - 1] == NEWLINE
    ensures LineLength(s + t) == LineLength(s)
    decreases |s|
  {
    if s[0] != NEWLINE {
      assert (s + t)[1..] == s[1..] + t;
      LineLengthPrefix(s[1..], t);
    }
  }

  lemma ReplayAppend(journal: string, line: string)
    requires Complete(journal) && NEWLINE !in line && Replay(journal).Some?
    ensures Replay(journal + line + [NEWLINE]) == LoadLine(Replay(journal).value, line + [NEWLINE])
  {
    FileLinesAppend(journal, line);
    var lines := FileLines(journal) + [line + [NEWLINE]];
    assert lines[..|lines| - 1] == FileLines(journal);
  }

  /** Appending an entry's line to a complete journal adds the entry to what it reads back as. */
  lemma ReplayEntry(journal: string, m: map<string, Entry>, id: string, e: Entry)
    requires Complete(journal) && Replay(journal) == Some(m) && ValidId(id) && ValidSeg(e.seg)
    ensures Complete(journal + EntryLine(id, e) + [NEWLINE])
    ensures Replay(journal + EntryLine(id, e) + [NEWLINE]) == Some(m[id := e])
  {
    EntryLineTight(id, e);
    ReplayAppend(journal, EntryLine(id, e));
    LoadEntry(m, id, e);
  }

  lemma LoadLinesStep(lines: seq<string>, i: nat)
    requires i < |lines| && LoadLines(map[], lines[..i]).Some?
    ensures LoadLines(map[], lines[..i + 1]) == LoadLine(LoadLines(map[], lines[..i]).value, lines[i])
  {
    assert lines[..i + 1][..i] == lines[..i];
  }

  class IndexManager {
    var entries: map<string, Entry>
    var journal: string

    /** The journal read from its start gives the map in memory. */
    predicate Valid()
      reads this
    {
      && Complete(journal) && Replay(journal) == Some(entries)
      && forall id :: id in entries ==> ValidId(id) && ValidSeg(entries[id].seg)
    }

    /** A new store: no journal, nothing to bootstrap from. */
    constructor ()
      ensures Valid() && entries == map[] && journal == []
    {
      entries, journal := map[], [];
    }

    /** The parser of load(): line by line into an empty map; None when a number does not parse. */
    method Load(file: string) returns (m: Option<map<string, Entry>>)
      ensures m == Replay(file)
    {
      var lines := FileLines(file);
      m := Some(map[]);
      for i := 0 to |lines|
        invariant m == LoadLines(map[], lines[..i]) && m.Some?
      {
        LoadLinesStep(lines, i);
        m := LoadLine(m.value, lines[i]);
        if m.None? {
          LoadFailsEarly(lines, i + 1);
          return;
        }
      }
      assert lines[..|lines|] == lines;
    }

    /** A new process: the map is read from the journal again. */
    method Reload()
      requires Valid()
      modifies `entries
      ensures Valid() && entries == old(entries)
    {
      var loaded := Load(journal);
      entries := loaded.value;
    }

    method Set(id: string, seg: string, offset: nat, size: nat)
      requires Valid() && ValidId(id) && ValidSeg(seg)
      modifies this
      ensures Valid() && entries == old(entries)[id := Entry(seg, offset, size)]
      ensures journal == old(journal) + EntryLine(id, Entry(seg, offset, size)) + [NEWLINE]
    {
      var e := Entry(seg, offset, size);
      ReplayEntry(journal, entries, id, e);
      entries := entries[id := e];
      journal := journal + EntryLine(id, e) + [NEWLINE];
    }

    method Delete(id: string)
      requires Valid()
      modifies this
      ensures Valid() && entries == old(entries) - {id}
      ensures journal == if id !in old(entries) then old(journal)
                         else old(journal) + ("!" + EntryLine(id, old(entries)[id])) + [NEWLINE]
    {
      if id !in entries {
        assert entries - {id} == entries;
        return;
      }
      var e := entries[id];
      EntryLineTight(id, e);
      ReplayAppend(journal, "!" + EntryLine(id, e));
      LoadTombstone(entries, id, e);
      entries := entries - {id};
      journal := journal + ("!" + EntryLine(id, e)) + [NEWLINE];
    }

    /** The ids whose current entry is in the given segment, in any order. */
    method RecordsInSegment(seg: string) returns (order: seq<string>)
      ensures forall id :: id in order <==> id in entries && entries[id].seg == seg
      ensures forall j, k :: 0 <= j < k < |order| ==> order[j] != order[k]
    {
      order := [];
      var todo := entries.Keys;
      while todo != {}
        invariant todo <= entries.Keys
        invariant forall id :: id in order <==> id in entries && id !in todo && entries[id].seg == seg
        invariant forall j, k :: 0 <= j < k < |order| ==> order[j] != order[k]
        decreases todo
      {
        var id :| id in todo;
        if entries[id].seg == seg {
          order := order + [id];
        }
        todo := todo - {id};
      }
    }

    /** Rewrite the journal from the map, in any order. */
    method SaveFull()
      requires forall id :: id in entries ==> ValidId(id) && ValidSeg(entries[id].seg)
      modifies `journal
      ensures Valid()
    {
      var text: string := [];
      var todo := entries.Keys;
      ghost var written: map<string, Entry> := map[];
      while todo != {}
        invariant todo <= entries.Keys && Complete(text)
        invariant Replay(text) == Some(written)
        invariant written == map id | id in entries && id !in todo :: entries[id]
        decreases todo
      {
        var id :| id in todo;
        ReplayEntry(text, written, id, entries[id]);
        text := text + EntryLine(id, entries[id]) + [NEWLINE];
        written := written[id := entries[id]];
        todo := todo - {id};
      }
      assert written == entries;
      journal := text;
    }
  }

  lemma {:induction false} LoadFailsEarly(lines: seq<string>, n: nat)
    requires n <= |lines| && LoadLines(map[], lines[..n]).None?
    ensures LoadLines(map[], lines).None?
    decreases |lines|
  {
    if n == |lines| {
      assert lines[..n] == lines;
    } else {
      assert lines[..|lines| - 1][..n] == lines[..n];
      LoadFailsEarly(lines[..|lines| - 1], n);
    }
  }
}
