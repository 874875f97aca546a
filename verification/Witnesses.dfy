/**
  The hypotheses about printers can be met: one printer of each kind.

  The codec is not JSON, only as good as JSON for what the store asks of it.
 */
module Witnesses {
  import opened Json
  import opened Text
  import opened Decimal
  import opened Serializer
  import opened PostingFile
  import N = NumericIndex
  import I = IndexRun

  // ---------- numbers ----------

  /** A sign and the digits. */
  function ShowInt(n: int): string { if n < 0 then "-" + Print(-n) else Print(n) }

  function ReadInt(s: string): Option<int>
  {
    if s != [] && s[0] == '-' then
      var n := Parse(s[1..]);
      if n.None? then None else Some(-(n.value as int))
    else
      var n := Parse(s);
      if n.None? then None else Some(n.value)
  }

  lemma ReadShow(n: int)
    ensures ReadInt(ShowInt(n)) == Some(n)
    ensures forall c :: c in ShowInt(n) ==> '0' <= c <= '9' || c == '-'
    ensures ShowInt(n) != []
  {
    hide Print, Parse;
    if n < 0 {
      ParsePrint(-n);
      assert ShowInt(n)[1..] == Print(-n);
    } else {
      ParsePrint(n);
    }
  }

  function IntFormat(): Format<int> { Format((n: int) => ShowInt(n), (s: string) => ReadInt(s)) }

  /** A format that prints every number exactly, as a word without colon. */
  lemma AnExactFormat()
    ensures N.Exact(IntFormat())
  {
    hide ShowInt, ReadInt, Word;
    var f := IntFormat();
    forall n: int ensures f.read(f.show(n)) == Some(n) && Word(f.show(n)) && ':' !in f.show(n) {
      ReadShow(n);
      ShowIsWord(n);
    }
  }

  lemma ShowIsWord(n: int)
    ensures Word(ShowInt(n)) && ':' !in ShowInt(n)
  {
    hide ShowInt;
    ReadShow(n);
    assert forall c :: '0' <= c <= '9' || c == '-' ==> c !in WHITESPACE && c != ':';
  }

  function ShowValue(v: Json): string
  {
    match v
    case Null => "None"
    case Bool(b) => if b then "True" else "False"
    case Num(n) => ShowInt(n)
    case Str(s) => s
    case Arr(_) => "[]"
    case Obj(_) => "{}"
  }

  /** Printers of values and readers of numbers that go together. */
  lemma ANumberLaw()
    ensures I.NumberLaw((v: Json) => ShowValue(v), (s: string) => ReadInt(s))
  {
    forall v: Json | v.Num? ensures ReadInt(ShowValue(v)) == Some(v.n) {
      ReadShow(v.n);
    }
    assert "True"[3] == 'e' && "False"[4] == 'e' && "[]"[1] == ']' && "{}"[1] == '}';
  }

  // ---------- records ----------

  /** Character by character, as decimal codes. */
  function Letters(s: string): string
  {
    if s == [] then "." else Print(s[0] as int) + [','] + Letters(s[1..])
  }

  function Head(j: Json): char
  {
    match j
    case Null => 'n'
    case Bool(b) => if b then 't' else 'f'
    case Num(n) => if n < 0 then '-' else '+'
    case Str(_) => 's'
    case Arr(_) => '['
    case Obj(_) => '{'
  }

  ghost function Body(j: Json): string
    decreases j, 1, 0
  {
    match j
    case Num(n) => Print(if n < 0 then -n else n) + [';']
    case Str(s) => Letters(s)
    case Arr(items) => EncItems(j, items)
    case Obj(fields) => EncEntries(j, fields)
    case _ => []
  }

  ghost function Enc(j: Json): string
    decreases j, 2, 0
  {
    [Head(j)] + Body(j)
  }

  ghost function EncItems(whole: Json, items: seq<Json>): string
    requires forall i :: 0 <= i < |items| ==> items[i] < whole
    decreases whole, 0, |items|
  {
    if items == [] then "]" else Enc(items[0]) + EncItems(whole, items[1..])
  }

  /** The entries in an order of its own choice. */
  ghost function EncEntries(whole: Json, m: map<string, Json>): string
    requires forall k :: k in m ==> m[k] < whole
    decreases whole, 0, |m|
  {
    if m == map[] then "}"
    else
      var k :| k in m;
      Letters(k) + Enc(m[k]) + EncEntries(whole, m - {k})
  }

  // ---------- nothing is printed alike ----------

  predicate Digit(c: char) { '0' <= c <= '9' }

  lemma {:induction false} DigitsEnd(a: string, b: string, c: char, d: char, x: string, y: string)
    requires (forall z :: z in a ==> Digit(z)) && (forall z :: z in b ==> Digit(z)) && !Digit(c) && !Digit(d)
    requires a + [c] + x == b + [d] + y
    ensures a == b && c == d && x == y
    decreases |a|
  {
    var s, t := a + [c] + x, b + [d] + y;
    assert (a != [] ==> a[0] in a) && (b != [] ==> b[0] in b);
    assert s[0] == (if a == [] then c else a[0]) && t[0] == (if b == [] then d else b[0]);
    if a != [] {
      assert s[1..] == a[1..] + [c] + x && t[1..] == b[1..] + [d] + y;
      DigitsEnd(a[1..], b[1..], c, d, x, y);
      assert a == [a[0]] + a[1..] && b == [b[0]] + b[1..];
    } else {
      assert s[1..] == x && t[1..] == y;
    }
  }

  lemma NumbersApart(m: nat, n: nat, c: char, d: char, x: string, y: string)
    requires !Digit(c) && !Digit(d) && Print(m) + [c] + x == Print(n) + [d] + y
    ensures m == n && c == d && x == y
  {
    DigitsEnd(Print(m), Print(n), c, d, x, y);
    ParsePrint(m);
    ParsePrint(n);
  }

  lemma {:induction false} LettersApart(s: string, t: string, x: string, y: string)
    requires Letters(s) + x == Letters(t) + y
    ensures s == t && x == y
    decreases |s|
  {
    if s == [] || t == [] {
      assert (Letters(s) + x)[0] == (Letters(t) + y)[0];
      assert s == [] && t == [];
      assert x == (Letters(s) + x)[1..] && y == (Letters(t) + y)[1..];
    } else {
      var p, q := Letters(s[1..]) + x, Letters(t[1..]) + y;
      assert Letters(s) + x == Print(s[0] as int) + [','] + p;
      assert Letters(t) + y == Print(t[0] as int) + [','] + q;
      NumbersApart(s[0] as int, t[0] as int, ',', ',', p, q);
      LettersApart(s[1..], t[1..], x, y);
    }
  }

  /** What a code starts with tells which kind of value it is of. */
  lemma {:induction false} Apart(a: Json, b: Json, x: string, y: string)
    requires Enc(a) + x == Enc(b) + y
    ensures a == b && x == y
    decreases a, 1, 0
  {
    hide EncItems, EncEntries, Letters, Print, Enc;
    SameHead(a, b, x, y);
    match a
    case Num(m) =>
      NumbersApart(if m < 0 then -m else m, if b.n < 0 then -b.n else b.n, ';', ';', x, y);
    case Str(v) => LettersApart(v, b.s, x, y);
    case Arr(items) => ItemsApart(a, items, b, b.items, x, y);
    case Obj(fields) => EntriesApart(a, fields, b, b.fields, x, y);
    case _ => assert [] + x == x && [] + y == y;
  }

  lemma SameHead(a: Json, b: Json, x: string, y: string)
    requires Enc(a) + x == Enc(b) + y
    ensures Head(a) == Head(b) && Body(a) + x == Body(b) + y
  {
    hide Head, Body;
    var s, t := Enc(a) + x, Enc(b) + y;
    assert s[0] == Head(a) && t[0] == Head(b);
    assert s[1..] == Body(a) + x && t[1..] == Body(b) + y;
  }

  lemma {:induction false} ItemsApart(a: Json, v: seq<Json>, b: Json, w: seq<Json>, x: string, y: string)
    requires (forall i :: 0 <= i < |v| ==> v[i] < a) && (forall i :: 0 <= i < |w| ==> w[i] < b)
    requires EncItems(a, v) + x == EncItems(b, w) + y
    ensures v == w && x == y
    decreases a, 0, |v|
  {
    ItemsStart(a, v);
    ItemsStart(b, w);
    assert (EncItems(a, v) + x)[0] == (EncItems(b, w) + y)[0];
    if v == [] {
      assert x == (EncItems(a, v) + x)[1..] && y == (EncItems(b, w) + y)[1..];
    } else {
      var p, q := EncItems(a, v[1..]) + x, EncItems(b, w[1..]) + y;
      assert EncItems(a, v) + x == Enc(v[0]) + p && EncItems(b, w) + y == Enc(w[0]) + q;
      Apart(v[0], w[0], p, q);
      ItemsApart(a, v[1..], b, w[1..], x, y);
      assert v == [v[0]] + v[1..] && w == [w[0]] + w[1..];
    }
  }

  lemma ItemsStart(a: Json, v: seq<Json>)
    requires forall i :: 0 <= i < |v| ==> v[i] < a
    ensures EncItems(a, v) != [] && (EncItems(a, v)[0] == ']' <==> v == [])
  {
    if v != [] { assert EncItems(a, v)[0] == Enc(v[0])[0]; }
  }

  lemma {:induction false} EntriesApart(a: Json, v: map<string, Json>, b: Json, w: map<string, Json>, x: string,
                                        y: string)
    requires (forall k :: k in v ==> v[k] < a) && (forall k :: k in w ==> w[k] < b)
    requires EncEntries(a, v) + x == EncEntries(b, w) + y
    ensures v == w && x == y
    decreases a, 0, |v|
  {
    hide Letters, Enc, EncEntries;
    EntriesStart(a, v);
    EntriesStart(b, w);
    assert (EncEntries(a, v) + x)[0] == (EncEntries(b, w) + y)[0];
    if v == map[] {
      NoEntries(a);
      NoEntries(b);
      assert x == (EncEntries(a, v) + x)[1..] && y == (EncEntries(b, w) + y)[1..];
    } else {
      var j, k := FirstEntry(a, v), FirstEntry(b, w);
      var p, q := EncEntries(a, v - {j}) + x, EncEntries(b, w - {k}) + y;
      assert EncEntries(a, v) + x == Letters(j) + (Enc(v[j]) + p);
      assert EncEntries(b, w) + y == Letters(k) + (Enc(w[k]) + q);
      LettersApart(j, k, Enc(v[j]) + p, Enc(w[k]) + q);
      Apart(v[j], w[k], p, q);
      EntriesApart(a, v - {j}, b, w - {k}, x, y);
      assert v == (v - {j})[j := v[j]] && w == (w - {k})[k := w[k]];
    }
  }

  lemma NoEntries(a: Json)
    ensures EncEntries(a, map[]) == "}"
  {
  }

  /** The entry that is printed first. */
  ghost function FirstEntry(a: Json, v: map<string, Json>): (k: string)
    requires v != map[] && forall k :: k in v ==> v[k] < a
    ensures k in v && EncEntries(a, v) == Letters(k) + Enc(v[k]) + EncEntries(a, v - {k})
    ensures |v - {k}| < |v|
  {
    var k :| k in v && EncEntries(a, v) == Letters(k) + Enc(v[k]) + EncEntries(a, v - {k});
    assert (v - {k}).Keys == v.Keys - {k};
    k
  }

  lemma EntriesStart(a: Json, v: map<string, Json>)
    requires forall k :: k in v ==> v[k] < a
    ensures EncEntries(a, v) != [] && (EncEntries(a, v)[0] == '}' <==> v == map[])
  {
    if v != map[] { assert EncEntries(a, v)[0] == Letters(FirstEntry(a, v))[0]; }
  }

  // ---------- a codec ----------

  /** Lines of printable characters only. */
  predicate OneLine(s: string) { NEWLINE !in s }

  lemma {:induction false} LettersOneLine(s: string)
    ensures OneLine(Letters(s)) && Letters(s) != []
    decreases |s|
  {
    if s != [] { LettersOneLine(s[1..]); }
  }

  lemma {:induction false} EncOneLine(j: Json)
    ensures OneLine(Enc(j))
    decreases j, 1, 0
  {
    match j
    case Str(s) => LettersOneLine(s);
    case Arr(items) => ItemsOneLine(j, items);
    case Obj(fields) => EntriesOneLine(j, fields);
    case _ =>
  }

  lemma {:induction false} ItemsOneLine(a: Json, v: seq<Json>)
    requires forall i :: 0 <= i < |v| ==> v[i] < a
    ensures OneLine(EncItems(a, v))
    decreases a, 0, |v|
  {
    if v != [] {
      EncOneLine(v[0]);
      ItemsOneLine(a, v[1..]);
    }
  }

  lemma {:induction false} EntriesOneLine(a: Json, v: map<string, Json>)
    requires forall k :: k in v ==> v[k] < a
    ensures OneLine(EncEntries(a, v)) && EncEntries(a, v)[|EncEntries(a, v)| - 1] == '}'
    decreases a, 0, |v|
  {
    if v != map[] {
      hide Enc, Letters;
      var k := FirstEntry(a, v);
      LettersOneLine(k);
      EncOneLine(v[k]);
      EntriesOneLine(a, v - {k});
    }
  }

  ghost predicate Printed(s: string) { exists r: Record :: Enc(r) == s }

  ghost function Reading(s: string): Option<Record>
  {
    if Printed(s) then
      var r: Record :| Enc(r) == s;
      Some(r)
    else None
  }

  /** The codec the storage engine asks for exists. */
  lemma ASoundCodec()
    ensures exists codec: Codec :: codec.Sound()
  {
    var codec := Codec((r: Record) => Enc(r), (s: string) => Reading(s));
    forall r: Record
      ensures codec.loads(codec.dumps(r)) == Some(r) && NEWLINE !in codec.dumps(r) && Tight(codec.dumps(r), WHITESPACE)
    {
      hide Enc;
      ReadsBack(r);
      PrintsTight(r);
    }
    assert codec.Sound();
  }

  lemma ReadsBack(r: Record)
    ensures Reading(Enc(r)) == Some(r)
  {
    hide Enc;
    assert Printed(Enc(r));
    var back: Record := Reading(Enc(r)).value;
    assert Enc(back) + [] == Enc(r) + [];
    Apart(back, r, [], []);
  }

  lemma PrintsTight(r: Record)
    ensures NEWLINE !in Enc(r) && Tight(Enc(r), WHITESPACE)
  {
    EncOneLine(r);
    EntriesOneLine(r, r.fields);
    assert Enc(r)[|Enc(r)| - 1] == '}';
  }
}
