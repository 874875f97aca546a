/**
  Record lines: mkdb/db/storage/serializer.py over an abstract JSON codec.

  A line is the record id, one space and the JSON text of the record.
 */
module Serializer {
  import opened Json
  import opened Text

  /** json.dumps and json.loads on records; None is a JSONDecodeError. */
  datatype Codec = Codec(dumps: Record -> string, loads: string -> Option<Record>)
  {
    /** What the codec promises: a round trip, one line, braces at both ends. */
    ghost predicate Sound()
    {
      forall r: Record ::
        && loads(dumps(r)) == Some(r)
        && NEWLINE !in dumps(r)
        && Tight(dumps(r), WHITESPACE)
    }
  }

  /** Ids a store can keep: not empty, no white space, no `:` or `,`, no leading `!`. */
  predicate ValidId(id: string)
  {
    && id != [] && id[0] != '!'
    && forall c :: c in id ==> c !in WHITESPACE && c != ':' && c != ','
  }

  function Serialize(codec: Codec, id: string, rec: Record): string
  {
    id + " " + codec.dumps(rec)
  }

  /** (record_id, record), or None on an empty or malformed line. */
  function Deserialize(codec: Codec, line: string): Option<(string, Record)>
  {
    var l := Strip(line, WHITESPACE);
    var space := FirstAt(l, ' ');
    if l == [] || space == |l| then None
    else
      var rec := codec.loads(l[space + 1..]);
      if rec.None? then None else Some((l[..space], rec.value))
  }

  /**
    Any line: the id is what stands before the first space, the rest is JSON; without a space,
    or with bad JSON, nothing.
   */
  lemma DeserializeAny(codec: Codec, line: string, id: string, rest: string)
    ensures Strip(line, WHITESPACE) == id + " " + rest && ' ' !in id ==>
              Deserialize(codec, line) ==
              if codec.loads(rest).None? then None else Some((id, codec.loads(rest).value))
    ensures ' ' !in Strip(line, WHITESPACE) ==> Deserialize(codec, line) == None
  {
    hide Strip;
    if Strip(line, WHITESPACE) == id + " " + rest && ' ' !in id {
      var l := id + " " + rest;
      FirstAtPrefix(id, ' ', rest);
      assert l == id + [' '] + rest;
      assert l[..|id|] == id && l[|id| + 1..] == rest;
    }
  }

  /** Printing then parsing gives the id and the record back, newline or not. */
  lemma DeserializeSerialize(codec: Codec, id: string, rec: Record)
    requires codec.Sound() && ValidId(id)
    ensures Deserialize(codec, Serialize(codec, id, rec)) == Some((id, rec))
    ensures Deserialize(codec, Serialize(codec, id, rec) + [NEWLINE]) == Some((id, rec))
    ensures NEWLINE !in Serialize(codec, id, rec)
    ensures Serialize(codec, id, rec) != [] && Tight(Serialize(codec, id, rec), WHITESPACE)
  {
    hide FirstAt, Strip;
    var l, json := Serialize(codec, id, rec), codec.dumps(rec);
    assert Tight(json, WHITESPACE);
    assert l[0] == id[0] && l[|l| - 1] == json[|json| - 1];
    StripTight(l, WHITESPACE, NEWLINE);
    FirstAtPrefix(id, ' ', json);
    assert l == id + [' '] + json;
    assert l[..|id|] == id && l[|id| + 1..] == json;
  }
}
