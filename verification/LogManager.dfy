/**
  Segment files and blob files: mkdb/db/storage/log_manager.py and blob_store.py.

  `segments` and `blobs` are the files of one store directory.  A segment is named
  by its zero-padded number; a blob by its path, which starts with "blobs/".
 */
module LogManager {
  import opened Json
  import opened Text
  import Decimal

  /** `f"{n:03d}"`. */
  function SegName(n: nat): string
  {
    var s := Decimal.Print(n);
    if |s| == 1 then "00" + s else if |s| == 2 then "0" + s else s
  }

  const BLOB_PREFIX := "blobs/"

  predicate IsBlob(seg: string) { BLOB_PREFIX <= seg }

  /** The path-separator rule of write_blob. */
  function SafeId(id: string): string
  {
    Replace2(Replace1(Replace1(id, '/'), '\\'))
  }

  function Replace1(s: string, c: char): (r: string)
    ensures |r| == |s| && forall i :: 0 <= i < |s| ==> r[i] == if s[i] == c then '_' else s[i]
  {
    if s == [] then [] else [if s[0] == c then '_' else s[0]] + Replace1(s[1..], c)
  }

  /** `s.replace("..", "_")`, left to right. */
  function Replace2(s: string): string
  {
    if s == [] then []
    else if ".." <= s then "_" + Replace2(s[2..])
    else [s[0]] + Replace2(s[1..])
  }

  /** A sanitised id has no separator and no "..", and an id without them is left as it is. */
  lemma SafeIdIsSafe(id: string)
    ensures '/' !in SafeId(id) && '\\' !in SafeId(id) && !HasDots(SafeId(id))
    ensures '/' !in id && '\\' !in id && !HasDots(id) ==> SafeId(id) == id
  {
    var one := Replace1(id, '/');
    var two := Replace1(one, '\\');
    assert '/' !in two && '\\' !in two;
    DotsGone(two);
    if '/' !in id && '\\' !in id {
      assert one == id && two == id;
    }
  }

  predicate HasDots(s: string) { exists i :: 0 <= i < |s| - 1 && s[i] == s[i + 1] == '.' }

  lemma {:induction false} DotsGone(s: string)
    ensures forall c :: c in Replace2(s) ==> c in s || c == '_'
    ensures !HasDots(Replace2(s))
    ensures s != [] && s[0] != '.' ==> Replace2(s) != [] && Replace2(s)[0] == s[0]
    ensures s == [] ==> Replace2(s) == []
    ensures s != [] ==> Replace2(s) != [] && (Replace2(s)[0] == '.' ==> s[0] == '.')
    ensures !HasDots(s) ==> Replace2(s) == s
    decreases |s|
  {
    if s != [] {
      if ".." <= s {
        DotsGone(s[2..]);
        assert s[0] == s[1] == '.';
        var r := Replace2(s[2..]);
        assert Replace2(s) == "_" + r;
        forall i | 0 <= i < |Replace2(s)| - 1 ensures !(Replace2(s)[i] == Replace2(s)[i + 1] == '.') {
          if i > 0 { assert Replace2(s)[i] == r[i - 1] && Replace2(s)[i + 1] == r[i]; }
        }
      } else {
        DotsGone(s[1..]);
        var r := Replace2(s[1..]);
        assert Replace2(s) == [s[0]] + r;
        assert s == [s[0]] + s[1..];
        forall i | 0 <= i < |Replace2(s)| - 1 ensures !(Replace2(s)[i] == Replace2(s)[i + 1] == '.') {
          if i > 0 {
            assert Replace2(s)[i] == r[i - 1] && Replace2(s)[i + 1] == r[i];
          } else if s[0] == '.' {
            assert |s| > 1;
            assert s[1] != '.';
          }
        }
        if !HasDots(s) {
          forall i | 0 <= i < |s[1..]| - 1 ensures !(s[1..][i] == s[1..][i + 1] == '.') {
            assert s[1..][i] == s[i + 1] && s[1..][i + 1] == s[i + 2];
          }
        }
      }
    }
  }

  function BlobPath(id: string): string { BLOB_PREFIX + SafeId(id) + ".dat" }

  lemma SegNameParses(n: nat)
    ensures Decimal.Parse(SegName(n)) == Some(n) && !IsBlob(SegName(n))
  {
    Decimal.ParsePrint(n);
    var s := Decimal.Print(n);
    Decimal.ParseLeadingZero(s);
    Decimal.ParseLeadingZero("0" + s);
    assert "0" + ("0" + s) == "00" + s;
    assert '0' <= SegName(n)[0] <= '9';
  }

  /** Three digits at least, with zeros in front, and no more than the number needs. */
  lemma SegNameWidth(n: nat)
    ensures |SegName(n)| >= 3 && (|SegName(n)| > 3 ==> SegName(n) == Decimal.Print(n))
    ensures exists zeros :: (forall c :: c in zeros ==> c == '0') && SegName(n) == zeros + Decimal.Print(n)
  {
    var s := Decimal.Print(n);
    var zeros := if |s| == 1 then "00" else if |s| == 2 then "0" else "";
    assert SegName(n) == zeros + s;
  }

  /** The names a listing of the segments recognises: exactly three digits. */
  predicate ThreeDigits(n: nat) { |SegName(n)| == 3 }

  lemma ThreeDigitsIsSmall(n: nat)
    ensures ThreeDigits(n) <==> n < 1000
  {
    Decimal.PrintLength(n);
  }

  lemma SegNameInjective(m: nat, n: nat)
    ensures SegName(m) == SegName(n) ==> m == n
  {
    SegNameParses(m);
    SegNameParses(n);
  }

  /** `seek(offset); read(size).rstrip("\n")`, clipped to the file. */
  function ReadAt(file: string, offset: nat, size: nat): string
  {
    var lo := if offset <= |file| then offset else |file|;
    var hi := if lo + size <= |file| then lo + size else |file|;
    TrimRight(file[lo..hi], {NEWLINE})
  }

  /** Reading a line's extent gives the line. */
  lemma ReadLineAt(lines: seq<string>, i: nat)
    requires i < |lines| && NEWLINE !in lines[i]
    ensures ReadAt(Render(lines), |Render(lines[..i])|, |lines[i]| + 1) == lines[i]
  {
    LineInFile(lines, i);
    var s := lines[i];
    assert (s + [NEWLINE])[..|s|] == s;
    assert TrimRight(s + [NEWLINE], {NEWLINE}) == TrimRight(s, {NEWLINE});
  }

  /** _find_highest_segment, before it creates the first one: 0 when no name matches. */
  method FindHighest(segments: map<nat, string>) returns (highest: nat)
    ensures highest != 0 ==> highest in segments && ThreeDigits(highest)
    ensures forall n :: n in segments && ThreeDigits(n) ==> n <= highest
  {
    highest := 0;
    var todo := segments.Keys;
    while todo != {}
      invariant todo <= segments.Keys
      invariant highest != 0 ==> highest in segments && ThreeDigits(highest)
      invariant forall n :: n in segments && n !in todo && ThreeDigits(n) ==> n <= highest
      decreases todo
    {
      var n :| n in todo;
      if ThreeDigits(n) && n > highest {
        highest := n;
      }
      todo := todo - {n};
    }
  }

  /** `open(path, "ab")`. */
  function Opened(segments: map<nat, string>, n: nat): map<nat, string>
  {
    if n in segments then segments else segments[n := []]
  }

  class LogManager {
    const threshold: nat
    var segments: map<nat, string>
    var blobs: map<string, string>
    var active: nat

    predicate Valid()
      reads this
    {
      active in segments && active > 0
    }

    /** A fresh directory: one empty segment, number 1. */
    constructor (threshold: nat)
      ensures Valid() && segments == map[1 := []] && active == 1 && blobs == map[]
      ensures this.threshold == threshold
    {
      this.threshold := threshold;
      segments := map[1 := []];
      blobs := map[];
      active := 1;
    }

    /**
      A new process on the same directory: the highest segment with a three-digit name is
      opened for appending, or a new number 1.
     */
    method Reopen()
      requires Valid()
      modifies `segments, `active
      ensures Valid() && ThreeDigits(active) && segments == Opened(old(segments), active)
      ensures forall n :: n in old(segments) && ThreeDigits(n) ==> n <= active
      ensures active in old(segments) || (active == 1 && forall n :: n in old(segments) && ThreeDigits(n) ==> n == 0)
    {
      ThreeDigitsIsSmall(1);
      var highest := FindHighest(segments);
      if highest == 0 {
        highest := 1;
        segments := Opened(segments, 1);
      }
      active := highest;
    }

    method Rollover()
      requires Valid()
      modifies `segments, `active
      ensures Valid() && active == old(active) + 1
      ensures segments == Opened(old(segments), active)
    {
      active := active + 1;
      segments := Opened(segments, active);
    }

    /** Append one line; the segment is closed when it has reached the threshold. */
    method Append(line: string) returns (seg: string, offset: nat, size: nat)
      requires Valid()
      modifies `segments, `active
      ensures Valid()
      ensures seg == SegName(old(active)) && offset == |old(segments)[old(active)]| && size == |line| + 1
      ensures var file := old(segments)[old(active)] + line + [NEWLINE];
              if |file| >= threshold
              then active == old(active) + 1 && segments == Opened(old(segments)[old(active) := file], active)
              else active == old(active) && segments == old(segments)[active := file]
    {
      var encoded := line + [NEWLINE];
      offset := |segments[active]|;
      segments := segments[active := segments[active] + encoded];
      assert segments[active] == old(segments)[old(active)] + line + [NEWLINE];
      size := |encoded|;
      seg := SegName(active);
      if |segments[active]| >= threshold {
        Rollover();
      }
    }

    /** Bytes of a segment, newline stripped, or a whole blob; None when the file is missing. */
    function Read(seg: string, offset: nat, size: nat): Option<string>
      reads this
    {
      if IsBlob(seg) then (if seg in blobs then Some(blobs[seg]) else None)
      else
        var n := Decimal.Parse(seg);
        if n.None? || n.value !in segments then None
        else
          Some(ReadAt(segments[n.value], offset, size))
    }

    method WriteBlob(id: string, data: string) returns (seg: string, offset: nat, size: nat)
      modifies `blobs
      ensures seg == BlobPath(id) && offset == 0 && size == |data|
      ensures blobs == old(blobs)[seg := data]
    {
      seg := BlobPath(id);
      blobs := blobs[seg := data];
      offset, size := 0, |data|;
    }

    /** `os.replace(tmp, segment)`. */
    method ReplaceSegment(n: nat, file: string)
      requires Valid() && n in segments
      modifies `segments
      ensures Valid() && segments == old(segments)[n := file]
    {
      segments := segments[n := file];
    }
  }
}
