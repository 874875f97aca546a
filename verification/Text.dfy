/**
  Text helpers: splitting on a separator character and joining again.

  A Dafny string stands for encoded text; one character stands for one byte.
  Python's `str.split(sep)` never returns an empty list and keeps empty parts,
  and so does Split.
 */
module Text {

  function Join(parts: seq<string>, sep: char): string
    requires |parts| > 0
  {
    if |parts| == 1 then parts[0] else parts[0] + [sep] + Join(parts[1..], sep)
  }

  function Split(s: string, sep: char): (parts: seq<string>)
    ensures |parts| > 0
    ensures forall i :: 0 <= i < |parts| ==> sep !in parts[i]
    ensures sep !in s ==> parts == [s]
    ensures sep in s ==> |parts| > 1
  {
    if s == [] then [[]]
    else
      var rest := Split(s[1..], sep);
      assert s == [s[0]] + s[1..];
      if s[0] == sep then [[]] + rest else [[s[0]] + rest[0]] + rest[1..]
  }

  lemma {:induction false} SplitConcat(a: string, b: string, sep: char)
    requires sep !in a
    ensures Split(a + [sep] + b, sep) == [a] + Split(b, sep)
  {
    var s := a + [sep] + b;
    if a == [] {
      assert s[1..] == b;
    } else {
      assert s[1..] == a[1..] + [sep] + b;
      SplitConcat(a[1..], b, sep);
      var rest := Split(s[1..], sep);
      assert rest[0] == a[1..] && rest[1..] == Split(b, sep);
      assert a == [a[0]] + a[1..];
    }
  }

  lemma {:induction false} SplitAppend(a: string, b: string, sep: char)
    ensures Split(a + [sep] + b, sep) == Split(a, sep) + Split(b, sep)
  {
    var s := a + [sep] + b;
    if a == [] {
      assert s[1..] == b;
    } else {
      assert s[1..] == a[1..] + [sep] + b;
      SplitAppend(a[1..], b, sep);
    }
  }

  lemma {:induction false} SplitJoin(parts: seq<string>, sep: char)
    requires |parts| > 0
    requires forall i :: 0 <= i < |parts| ==> sep !in parts[i]
    ensures Split(Join(parts, sep), sep) == parts
  {
    if |parts| == 1 {
    } else {
      SplitConcat(parts[0], Join(parts[1..], sep), sep);
      SplitJoin(parts[1..], sep);
    }
  }

  lemma {:induction false} JoinSplit(s: string, sep: char)
    ensures Join(Split(s, sep), sep) == s
  {
    if s == [] {
    } else {
      var rest := Split(s[1..], sep);
      JoinSplit(s[1..], sep);
      if s[0] == sep {
        assert ([[]] + rest)[1..] == rest;
      } else {
        var first := [s[0]] + rest[0];
        assert ([first] + rest[1..])[1..] == rest[1..];
        if |rest| > 1 {
          assert first + [sep] + Join(rest[1..], sep) == [s[0]] + (rest[0] + [sep] + Join(rest[1..], sep));
        }
      }
    }
  }

  /** Distinct strings split into distinct part lists. */
  lemma SplitInjective(s: string, t: string, sep: char)
    ensures Split(s, sep) == Split(t, sep) ==> s == t
  {
    JoinSplit(s, sep);
    JoinSplit(t, sep);
  }

  /** Where c first stands in s, or the length of s. */
  function FirstAt(s: string, c: char): (n: nat)
    ensures n <= |s| && c !in s[..n] && (n < |s| ==> s[n] == c)
    ensures n == |s| <==> c !in s
  {
    if s == [] || s[0] == c then 0
    else
      var n := FirstAt(s[1..], c);
      assert s[..n + 1] == [s[0]] + s[1..][..n];
      assert s == [s[0]] + s[1..];
      n + 1
  }

  lemma {:induction false} FirstAtPrefix(a: string, c: char, b: string)
    requires c !in a
    ensures FirstAt(a + [c] + b, c) == |a|
    decreases |a|
  {
    if a != [] {
      FirstAtPrefix(a[1..], c, b);
      assert (a + [c] + b)[1..] == a[1..] + [c] + b;
    }
  }

  // ---------- strip ----------

  /** The ASCII white space of Python's strip() and split(). */
  const WHITESPACE: set<char> :=
    {' ', '\t', '\n', '\r', 11 as char, 12 as char, 28 as char, 29 as char, 30 as char, 31 as char}

  function TrimLeft(s: string, drop: set<char>): (r: string)
    ensures |r| <= |s| && s[|s| - |r|..] == r
    ensures r != [] ==> r[0] !in drop
  {
    if s != [] && s[0] in drop then TrimLeft(s[1..], drop) else s
  }

  function TrimRight(s: string, drop: set<char>): (r: string)
    ensures r <= s
    ensures r != [] ==> r[|r| - 1] !in drop
  {
    if s != [] && s[|s| - 1] in drop then TrimRight(s[..|s| - 1], drop) else s
  }

  /** Python's `s.strip(chars)`. */
  function Strip(s: string, drop: set<char>): string { TrimRight(TrimLeft(s, drop), drop) }

  /** Text without the dropped characters at its ends is kept. */
  predicate Tight(s: string, drop: set<char>)
  {
    s != [] && s[0] !in drop && s[|s| - 1] !in drop
  }

  lemma StripTight(s: string, drop: set<char>, end: char)
    requires Tight(s, drop)
    ensures Strip(s, drop) == s
    ensures end in drop ==> Strip(s + [end], drop) == s
  {
    if end in drop { assert (s + [end])[..|s|] == s; }
  }

  lemma StripIsTight(s: string, drop: set<char>)
    ensures Strip(s, drop) != [] ==> Tight(Strip(s, drop), drop)
    ensures forall c :: c in Strip(s, drop) ==> c in s
  {
    var l := TrimLeft(s, drop);
    var r := TrimRight(l, drop);
    assert forall c :: c in l ==> c in s by { assert s[|s| - |l|..] == l; }
    if r != [] { assert r[0] == l[0]; }
  }

  // ---------- lines of a file ----------

  const NEWLINE: char := '\n'

  /** The file holding these lines. */
  function Render(lines: seq<string>): string
  {
    if lines == [] then [] else Render(lines[..|lines| - 1]) + lines[|lines| - 1] + [NEWLINE]
  }

  lemma RenderStep(lines: seq<string>, k: nat)
    requires k < |lines|
    ensures Render(lines[..k + 1]) == Render(lines[..k]) + lines[k] + [NEWLINE]
  {
    assert lines[..k + 1][..k] == lines[..k];
  }

  /** `for line in fh` on a file opened in binary mode: lines keep their newline. */
  function FileLines(s: string): seq<string>
  {
    if s == [] then []
    else
      var n := LineLength(s);
      [s[..n]] + FileLines(s[n..])
  }

  function LineLength(s: string): (n: nat)
    requires s != []
    ensures 0 < n <= |s|
  {
    if s[0] == NEWLINE || |s| == 1 then 1 else 1 + LineLength(s[1..])
  }

  function Concat(lines: seq<string>): string { if lines == [] then [] else lines[0] + Concat(lines[1..]) }

  /** The lines of a file are the file, cut after every newline and nowhere else. */
  lemma {:induction false} LinesMakeFile(s: string)
    ensures Concat(FileLines(s)) == s
    ensures forall i :: 0 <= i < |FileLines(s)| ==>
              var l := FileLines(s)[i];
              l != [] && NEWLINE !in l[..|l| - 1] && (i < |FileLines(s)| - 1 ==> l[|l| - 1] == NEWLINE)
    decreases |s|
  {
    if s != [] {
      var n := LineLength(s);
      LineCut(s);
      LinesMakeFile(s[n..]);
      assert FileLines(s) == [s[..n]] + FileLines(s[n..]);
      assert FileLines(s)[1..] == FileLines(s[n..]);
      assert s[..n] + s[n..] == s;
    }
  }

  lemma {:induction false} LineCut(s: string)
    requires s != []
    ensures NEWLINE !in s[..LineLength(s) - 1] && (LineLength(s) < |s| ==> s[LineLength(s) - 1] == NEWLINE)
    decreases |s|
  {
    if s[0] != NEWLINE && |s| > 1 {
      LineCut(s[1..]);
      var n := LineLength(s);
      assert s[..n - 1] == [s[0]] + s[1..][..n - 2];
    }
  }

  predicate NewlineFree(lines: seq<string>) { forall i :: 0 <= i < |lines| ==> NEWLINE !in lines[i] }

  function Terminated(lines: seq<string>): seq<string>
  {
    seq(|lines|, i requires 0 <= i < |lines| => lines[i] + [NEWLINE])
  }

  lemma {:induction false} LineLengthOf(l: string, rest: string)
    requires NEWLINE !in l
    ensures LineLength(l + [NEWLINE] + rest) == |l| + 1
  {
    if l != [] {
      LineLengthOf(l[1..], rest);
      assert (l + [NEWLINE] + rest)[1..] == l[1..] + [NEWLINE] + rest;
    }
  }

  lemma {:induction false} RenderFirst(lines: seq<string>)
    requires lines != []
    ensures Render(lines) == lines[0] + [NEWLINE] + Render(lines[1..])
    decreases |lines|
  {
    var n := |lines| - 1;
    if n == 0 {
      assert lines[..0] == [] && lines[1..] == [];
    } else {
      var middle := lines[1..][..n - 1];
      assert lines[..n][1..] == middle && lines[..n][0] == lines[0];
      RenderFirst(lines[..n]);
      var head := lines[0] + [NEWLINE];
      assert Render(lines) == head + Render(middle) + lines[n] + [NEWLINE];
      assert Render(lines[1..]) == Render(middle) + lines[n] + [NEWLINE];
      assert head + (Render(middle) + lines[n] + [NEWLINE]) == head + Render(middle) + lines[n] + [NEWLINE];
    }
  }

  lemma {:induction false} LinesOfRender(lines: seq<string>)
    requires NewlineFree(lines)
    ensures FileLines(Render(lines)) == Terminated(lines)
    decreases |lines|
  {
    if lines != [] {
      RenderFirst(lines);
      LineLengthOf(lines[0], Render(lines[1..]));
      LinesOfRender(lines[1..]);
      var s := Render(lines);
      assert s[..|lines[0]| + 1] == lines[0] + [NEWLINE];
      assert s[|lines[0]| + 1..] == Render(lines[1..]);
      assert Terminated(lines) == [lines[0] + [NEWLINE]] + Terminated(lines[1..]);
    }
  }

  /** A line lies in the file at the offset of everything before it. */
  lemma {:induction false} LineInFile(lines: seq<string>, i: nat)
    requires i < |lines|
    ensures |Render(lines[..i])| + |lines[i]| + 1 <= |Render(lines)|
    ensures Render(lines)[|Render(lines[..i])|..|Render(lines[..i])| + |lines[i]| + 1] == lines[i] + [NEWLINE]
    decreases |lines|
  {
    var n := |lines| - 1;
    if i == n {
    } else {
      LineInFile(lines[..n], i);
      assert lines[..n][..i] == lines[..i];
    }
  }
}
