/**
  The text of an index file, `value:id,id,...` line by line:
  mkdb/db/query/numeric_index.py:41-60, 79-104 and full_text_index.py:38-54, 72-92.

  The value is everything before the first colon, so a value with a colon in it does
  not come back as it was written.
 */
module PostingFile {
  import opened Json
  import opened Text
  import opened Postings

  /** How values are printed and read; None is a ValueError, and the line is skipped. */
  datatype Format<!K> = Format(show: K -> string, read: string -> Option<K>)

  datatype Row<+K> = Row(key: K, ids: seq<string>)

  function ElementsOf(s: seq<string>): set<string> { set x | x in s }

  // ---------- printing ----------

  function RowText<K>(f: Format<K>, r: Row<K>): string
    requires r.ids != []
  {
    f.show(r.key) + [':'] + Join(r.ids, ',')
  }

  predicate Filled<K(!new)>(rows: seq<Row<K>>) { forall i :: 0 <= i < |rows| ==> rows[i].ids != [] }

  function RowTexts<K(!new)>(f: Format<K>, rows: seq<Row<K>>): (t: seq<string>)
    requires Filled(rows)
    ensures |t| == |rows| && forall i :: 0 <= i < |rows| ==> t[i] == RowText(f, rows[i])
  {
    seq(|rows|, i requires 0 <= i < |rows| => RowText(f, rows[i]))
  }

  /** The rows are the entries that have ids, each once. */
  ghost predicate RowsOf<K(!new)>(rows: seq<Row<K>>, m: Posting<K>)
  {
    && Filled(rows)
    && (forall i :: 0 <= i < |rows| ==> rows[i].key in m && ElementsOf(rows[i].ids) == m[rows[i].key])
    && (forall i, j :: 0 <= i < j < |rows| ==> rows[i].key != rows[j].key)
    && (forall k :: k in m && m[k] != {} ==> exists i :: 0 <= i < |rows| && rows[i].key == k)
  }

  /** A file printed from m, in whatever order. */
  ghost predicate WrittenFrom<K(!new)>(f: Format<K>, file: string, m: Posting<K>)
  {
    exists rows :: RowsOf(rows, m) && file == Render(RowTexts(f, rows))
  }

  method Listed(ids: set<string>) returns (s: seq<string>)
    ensures ElementsOf(s) == ids && (s == [] ==> ids == {})
  {
    s := [];
    var todo := ids;
    while todo != {}
      invariant todo <= ids && ElementsOf(s) == ids - todo && (s == [] ==> todo == ids)
      decreases todo
    {
      var id := AnyOf(todo);
      ElementsAppend(s, id);
      s, todo := s + [id], todo - {id};
    }
  }

  lemma ElementsAppend(s: seq<string>, id: string)
    ensures ElementsOf(s + [id]) == ElementsOf(s) + {id}
  {
  }

  /** _write_file; the order of lines and ids is left open. */
  method WriteFile<K(==, !new)>(f: Format<K>, m: Posting<K>) returns (file: string)
    ensures WrittenFrom(f, file, m)
  {
    hide Render, RowText, ElementsOf;
    file := [];
    ghost var rows: seq<Row<K>> := [];
    var todo := m.Keys;
    NoRows(f);
    while todo != {}
      invariant todo <= m.Keys && Filled(rows) && file == Render(RowTexts(f, rows))
      invariant RowsOf(rows, m - todo)
      decreases todo
    {
      var k := AnyOf(todo);
      if m[k] != {} {
        var ids := Listed(m[k]);
        OneRowMore(f, rows, m, todo, k, ids);
        file, rows := file + RowText(f, Row(k, ids)) + [NEWLINE], rows + [Row(k, ids)];
      } else {
        NoRowMore(rows, m, todo, k);
      }
      todo := todo - {k};
    }
    assert m - todo == m;
  }

  lemma NoRows<K(!new)>(f: Format<K>)
    ensures Render(RowTexts(f, [])) == []
  {
  }

  lemma OneRowMore<K(!new)>(f: Format<K>, rows: seq<Row<K>>, m: Posting<K>, todo: set<K>, k: K, ids: seq<string>)
    requires RowsOf(rows, m - todo) && todo <= m.Keys && k in todo && ids != [] && ElementsOf(ids) == m[k]
    ensures RowsOf(rows + [Row(k, ids)], m - (todo - {k}))
    ensures Render(RowTexts(f, rows + [Row(k, ids)])) == Render(RowTexts(f, rows)) + RowText(f, Row(k, ids)) + [NEWLINE]
  {
    hide RowText, ElementsOf;
    var all := rows + [Row(k, ids)];
    assert all[|rows|].key == k && forall i :: 0 <= i < |rows| ==> all[i] == rows[i];
    assert RowTexts(f, all)[..|rows|] == RowTexts(f, rows);
    forall x | x in m && x !in todo - {k} && m[x] != {} ensures exists i :: 0 <= i < |all| && all[i].key == x {
      if x != k {
        assert x in m - todo;
        var i :| 0 <= i < |rows| && rows[i].key == x;
        assert all[i].key == x;
      }
    }
  }

  lemma NoRowMore<K(!new)>(rows: seq<Row<K>>, m: Posting<K>, todo: set<K>, k: K)
    requires RowsOf(rows, m - todo) && todo <= m.Keys && k in todo && m[k] == {}
    ensures RowsOf(rows, m - (todo - {k}))
  {
    forall x | x in m && x !in todo - {k} && m[x] != {} ensures x in m - todo {
    }
  }

  // ---------- reading ----------

  function ParseRow<K>(f: Format<K>, raw: string): Option<(K, set<string>)>
  {
    var line := Strip(raw, WHITESPACE);
    var n := FirstAt(line, ':');
    if n == |line| then None
    else
      var key, rest := f.read(line[..n]), line[n + 1..];
      if key.None? then None else Some((key.value, if rest == [] then {} else ElementsOf(Split(rest, ','))))
  }

  /**
    A line is cut at its first colon, white space around it ignored; one without a colon, or
    whose value does not read, is skipped.
   */
  lemma RowIsCut<K(!new)>(f: Format<K>, raw: string, key: string, rest: string)
    ensures Strip(raw, WHITESPACE) == key + ":" + rest && ':' !in key ==>
              ParseRow(f, raw) ==
              if f.read(key).None? then None
              else Some((f.read(key).value, if rest == [] then {} else ElementsOf(Split(rest, ','))))
    ensures ':' !in Strip(raw, WHITESPACE) ==> ParseRow(f, raw) == None
  {
    hide Strip, Split;
    if Strip(raw, WHITESPACE) == key + ":" + rest && ':' !in key {
      var line := key + ":" + rest;
      FirstAtPrefix(key, ':', rest);
      assert line == key + [':'] + rest;
      assert line[..|key|] == key && line[|key| + 1..] == rest;
    }
  }

  /** The map built line by line; a value that comes again replaces the ids before it. */
  function Parsed<K(==)>(f: Format<K>, lines: seq<string>): Posting<K>
  {
    if lines == [] then map[]
    else
      var before, row := Parsed(f, lines[..|lines| - 1]), ParseRow(f, lines[|lines| - 1]);
      if row.None? then before else before[row.value.0 := row.value.1]
  }

  /** What a file holds. */
  function Loaded<K(==)>(f: Format<K>, file: string): Posting<K> { Parsed(f, FileLines(file)) }

  lemma NothingParsed<K(!new)>(f: Format<K>)
    ensures Parsed(f, []) == map[]
  {
  }

  lemma ParsedOneMore<K(!new)>(f: Format<K>, lines: seq<string>, i: nat)
    requires i < |lines|
    ensures var row := ParseRow(f, lines[i]);
            Parsed(f, lines[..i + 1]) ==
            if row.None? then Parsed(f, lines[..i]) else Parsed(f, lines[..i])[row.value.0 := row.value.1]
  {
    hide ParseRow;
    assert lines[..i + 1][..i] == lines[..i];
  }

  method LoadDiskMap<K(==, !new)>(f: Format<K>, file: string) returns (m: Posting<K>)
    ensures m == Loaded(f, file)
  {
    hide ParseRow, FileLines, Parsed;
    m := map[];
    var lines := FileLines(file);
    NothingParsed(f);
    for i := 0 to |lines|
      invariant m == Parsed(f, lines[..i])
    {
      ParsedOneMore(f, lines, i);
      var row := ParseRow(f, lines[i]);
      if row.Some? {
        m := m[row.value.0 := row.value.1];
      }
    }
    assert lines[..|lines|] == lines;
  }

  lemma EmptyFile<K(!new)>(f: Format<K>)
    ensures Loaded(f, []) == map[]
  {
  }

  // ---------- round trip ----------

  /** Not empty and without white space. */
  predicate Word(s: string) { s != [] && forall c :: c in s ==> c !in WHITESPACE }

  predicate Listable(id: string) { Word(id) && ',' !in id }

  /** Every value prints as a word and is read back, and every id can stand in a list. */
  ghost predicate Clean<K(!new)>(f: Format<K>, pairs: set<(K, string)>)
  {
    forall p :: p in pairs ==> Word(f.show(p.0)) && f.read(f.show(p.0)) == Some(p.0) && Listable(p.1)
  }

  ghost predicate ColonFree<K(!new)>(f: Format<K>, pairs: set<(K, string)>)
  {
    forall p :: p in pairs ==> ':' !in f.show(p.0)
  }

  lemma {:induction false} JoinChars(ids: seq<string>)
    requires ids != [] && forall i :: 0 <= i < |ids| ==> Listable(ids[i])
    ensures Word(Join(ids, ','))
    decreases |ids|
  {
    if |ids| > 1 { JoinChars(ids[1..]); }
  }

  /** A word survives strip(), newline and all. */
  lemma WordStrips(s: string)
    requires Word(s)
    ensures Strip(s + [NEWLINE], WHITESPACE) == s && NEWLINE !in s
  {
    assert s[0] in s && s[|s| - 1] in s;
    StripTight(s, WHITESPACE, NEWLINE);
  }

  lemma RowReadsBack<K(!new)>(f: Format<K>, r: Row<K>)
    requires r.ids != [] && Word(f.show(r.key)) && f.read(f.show(r.key)) == Some(r.key)
    requires forall i :: 0 <= i < |r.ids| ==> Listable(r.ids[i])
    ensures NEWLINE !in RowText(f, r)
    ensures ':' !in f.show(r.key) ==> ParseRow(f, RowText(f, r) + [NEWLINE]) == Some((r.key, ElementsOf(r.ids)))
  {
    hide FirstAt, Strip, Split;
    var key, list := f.show(r.key), Join(r.ids, ',');
    JoinChars(r.ids);
    var line := key + [':'] + list;
    WordStrips(line);
    if ':' !in key {
      FirstAtPrefix(key, ':', list);
      assert line[..|key|] == key && line[|key| + 1..] == list;
      SplitJoin(r.ids, ',');
    }
  }

  /** The values read from a file have no colon. */
  lemma {:induction false} KeysWithoutColon<K(!new)>(f: Format<K>, lines: seq<string>, k: K)
    requires k in Parsed(f, lines)
    ensures exists s :: ':' !in s && f.read(s) == Some(k)
    decreases |lines|
  {
    var before, row := lines[..|lines| - 1], ParseRow(f, lines[|lines| - 1]);
    if row.Some? && row.value.0 == k {
      var line := Strip(lines[|lines| - 1], WHITESPACE);
      assert ':' !in line[..FirstAt(line, ':')];
    } else {
      KeysWithoutColon(f, before, k);
    }
  }

  /** Rows without colons are read back one by one. */
  lemma {:induction false} RowsReadBack<K(!new)>(f: Format<K>, rows: seq<Row<K>>, m: Posting<K>, n: nat)
    requires RowsOf(rows, m) && Clean(f, Pairs(m)) && ColonFree(f, Pairs(m)) && n <= |rows|
    ensures var p := Parsed(f, Terminated(RowTexts(f, rows))[..n]);
            && (forall i :: 0 <= i < n ==> rows[i].key in p)
            && (forall k :: k in p ==> k in m && p[k] == m[k] && m[k] != {})
    decreases n
  {
    hide ParseRow, Parsed, RowText, Clean, ColonFree, Word, ElementsOf, Listable, Pairs, RowsOf;
    RowsAreFilled(rows, m);
    var lines := Terminated(RowTexts(f, rows));
    if n == 0 {
      assert lines[..0] == [];
      NothingParsed(f);
    } else {
      RowsReadBack(f, rows, m, n - 1);
      ParsedOneMore(f, lines, n - 1);
      RowIsClean(f, rows, m, n - 1);
      RowReadsBack(f, rows[n - 1]);
    }
  }

  lemma RowsAreFilled<K(!new)>(rows: seq<Row<K>>, m: Posting<K>)
    requires RowsOf(rows, m)
    ensures Filled(rows)
    ensures forall i :: 0 <= i < |rows| ==> rows[i].key in m && ElementsOf(rows[i].ids) == m[rows[i].key]
  {
  }

  lemma RowIsClean<K(!new)>(f: Format<K>, rows: seq<Row<K>>, m: Posting<K>, i: nat)
    requires RowsOf(rows, m) && Clean(f, Pairs(m)) && i < |rows|
    ensures var r := rows[i];
            && Word(f.show(r.key)) && f.read(f.show(r.key)) == Some(r.key) && m[r.key] != {}
            && (forall j :: 0 <= j < |r.ids| ==> Listable(r.ids[j]))
            && (ColonFree(f, Pairs(m)) ==> ':' !in f.show(r.key))
  {
    var r := rows[i];
    forall j | 0 <= j < |r.ids| ensures (r.key, r.ids[j]) in Pairs(m) {
      assert r.ids[j] in ElementsOf(r.ids);
    }
    assert (r.key, r.ids[0]) in Pairs(m);
  }

  /** A file holds the relation it was written from exactly when no value in it has a colon. */
  lemma FileRoundTrip<K(!new)>(f: Format<K>, file: string, m: Posting<K>)
    requires WrittenFrom(f, file, m) && Clean(f, Pairs(m))
    requires forall s, k :: f.read(s) == Some(k) && ':' in f.show(k) ==> ':' in s
    ensures Pairs(Loaded(f, file)) == Pairs(m) <==> ColonFree(f, Pairs(m))
  {
    hide Loaded, Clean, Render;
    var rows :| RowsOf(rows, m) && file == Render(RowTexts(f, rows));
    LoadedLines(f, rows, m);
    if ColonFree(f, Pairs(m)) {
      KeptWithoutColon(f, rows, m);
    } else {
      var q :| q in Pairs(m) && ':' in f.show(q.0);
      if q in Pairs(Loaded(f, file)) {
        KeysWithoutColon(f, Terminated(RowTexts(f, rows)), q.0);
      }
    }
  }

  lemma LoadedLines<K(!new)>(f: Format<K>, rows: seq<Row<K>>, m: Posting<K>)
    requires RowsOf(rows, m) && Clean(f, Pairs(m))
    ensures Loaded(f, Render(RowTexts(f, rows))) == Parsed(f, Terminated(RowTexts(f, rows)))
  {
    hide Clean, RowText, Parsed;
    forall i | 0 <= i < |rows| ensures NEWLINE !in RowTexts(f, rows)[i] {
      RowIsClean(f, rows, m, i);
      RowReadsBack(f, rows[i]);
    }
    LinesOfRender(RowTexts(f, rows));
  }

  lemma KeptWithoutColon<K(!new)>(f: Format<K>, rows: seq<Row<K>>, m: Posting<K>)
    requires RowsOf(rows, m) && Clean(f, Pairs(m)) && ColonFree(f, Pairs(m))
    ensures Pairs(Parsed(f, Terminated(RowTexts(f, rows)))) == Pairs(m)
  {
    hide Parsed, Clean, ColonFree;
    var lines := Terminated(RowTexts(f, rows));
    var p := Parsed(f, lines);
    RowsReadBack(f, rows, m, |rows|);
    assert lines[..|rows|] == lines;
    PairsAt(p);
    PairsAt(m);
    forall q: (K, string) ensures q in Pairs(p) <==> q in Pairs(m) {
      assert q == (q.0, q.1);
    }
  }
}
