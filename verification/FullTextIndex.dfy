/**
  The inverted index of one text field: mkdb/db/query/full_text_index.py.

  As for the numeric index, crossing the RAM threshold is a choice of the caller.
  Content is the relation (token, id).  A token may have a colon inside, as "10:30"
  has; the index file cannot keep such a token.
 */
module FullTextIndex {
  import opened Json
  import opened Postings
  import opened PostingFile
  import opened Tokenizer

  /** The relation after adding id under every token. */
  function TokenPairs(tokens: seq<string>, id: string): set<(string, string)>
  {
    set t | t in tokens :: (t, id)
  }

  /** The ids found under some token of a keyword. */
  function Found(content: set<(string, string)>, keyword: string): set<string>
  {
    set p | p in content && p.0 in Tokens(keyword) :: p.1
  }

  /** After a text is added a keyword finds its id exactly when it did before, or shares a token with the text. */
  lemma FoundAfterAdd(content: set<(string, string)>, text: string, id: string, keyword: string)
    ensures id in Found(content + TokenPairs(Tokens(text), id), keyword) <==>
            id in Found(content, keyword) || exists t :: t in Tokens(text) && t in Tokens(keyword)
    ensures keyword in Tokens(text) ==> id in Found(content + TokenPairs(Tokens(text), id), keyword)
    ensures forall other :: other != id ==>
              (other in Found(content + TokenPairs(Tokens(text), id), keyword) <==> other in Found(content, keyword))
  {
    hide Tokens;
    var after := content + TokenPairs(Tokens(text), id);
    if t :| t in Tokens(text) && t in Tokens(keyword) {
      assert (t, id) in after;
    }
    if keyword in Tokens(text) {
      TokensAreTokens(text);
      TokenizeFixpoint(keyword);
      assert (keyword, id) in after;
    }
  }

  /** The loop of add() over the tokens of a text. */
  method AddStems(m: Posting<string>, stems: seq<string>, id: string) returns (m': Posting<string>)
    ensures Pairs(m') == Pairs(m) + TokenPairs(stems, id) && (NoEmpty(m) ==> NoEmpty(m'))
  {
    m' := m;
    for i := 0 to |stems|
      invariant Pairs(m') == Pairs(m) + TokenPairs(stems[..i], id) && (NoEmpty(m) ==> NoEmpty(m'))
    {
      assert stems[..i + 1] == stems[..i] + [stems[i]];
      IncludePairs(m', stems[i], {id});
      m' := Include(m', stems[i], {id});
    }
    assert stems[..|stems|] == stems;
  }

  /** The loop of remove() over the tokens of a text. */
  method DiscardStems(m: Posting<string>, stems: seq<string>, id: string) returns (m': Posting<string>)
    ensures Pairs(m') == Pairs(m) - TokenPairs(stems, id) && (NoEmpty(m) ==> NoEmpty(m'))
  {
    m' := m;
    for i := 0 to |stems|
      invariant Pairs(m') == Pairs(m) - TokenPairs(stems[..i], id) && (NoEmpty(m) ==> NoEmpty(m'))
    {
      assert stems[..i + 1] == stems[..i] + [stems[i]];
      DiscardPairs(m', stems[i], id);
      m' := Discard(m', stems[i], id);
    }
    assert stems[..|stems|] == stems;
  }

  /** The first loop of _flush_pending. */
  method ApplyAdds(m: Posting<string>, adds: Posting<string>) returns (disk: Posting<string>)
    ensures Pairs(disk) == Pairs(m) + Pairs(adds)
  {
    disk := m;
    var todo := adds.Keys;
    while todo != {}
      invariant todo <= adds.Keys
      invariant Pairs(disk) == Pairs(m) + set p | p in Pairs(adds) && p.0 !in todo
      decreases todo
    {
      var stem := AnyOf(todo);
      IncludePairs(disk, stem, adds[stem]);
      disk := Include(disk, stem, adds[stem]);
      assert forall p :: p in Pairs(adds) && p.0 == stem <==> p.0 == stem && p.1 in adds[stem];
      todo := todo - {stem};
    }
  }

  /** The second loop of _flush_pending. */
  method ApplyRemoves(m: Posting<string>, removes: Posting<string>) returns (disk: Posting<string>)
    ensures Pairs(disk) == Pairs(m) - Pairs(removes)
  {
    disk := m;
    var todo := removes.Keys;
    while todo != {}
      invariant todo <= removes.Keys
      invariant Pairs(disk) == Pairs(m) - set p | p in Pairs(removes) && p.0 !in todo
      decreases todo
    {
      var stem := AnyOf(todo);
      DropPairs(disk, stem, removes[stem]);
      disk := Drop(disk, stem, removes[stem]);
      assert forall p :: p in Pairs(removes) && p.0 == stem <==> p.0 == stem && p.1 in removes[stem];
      todo := todo - {stem};
    }
  }

  /** The ids under the tokens of one keyword. */
  method KeywordIds(data: Posting<string>, keyword: string) returns (ids: set<string>)
    ensures ids == Found(Pairs(data), keyword)
  {
    hide Tokens, Pairs;
    ids := {};
    var stems := Tokenize(keyword);
    for i := 0 to |stems|
      invariant ids == set p | p in Pairs(data) && p.0 in stems[..i] :: p.1
    {
      assert stems[..i + 1] == stems[..i] + [stems[i]];
      UnionStep(data, stems[..i], stems[i], ids);
      ids := ids + Ids(data, stems[i]);
    }
    assert stems[..|stems|] == stems;
  }

  /** The two loops of search(). */
  method SearchIn(data: Posting<string>, keywords: seq<string>, all: bool) returns (r: set<string>)
    requires keywords != []
    ensures all ==>
              forall id :: id in r <==> forall k :: 0 <= k < |keywords| ==> id in Found(Pairs(data), keywords[k])
    ensures !all ==>
              forall id :: id in r <==> exists k :: 0 <= k < |keywords| && id in Found(Pairs(data), keywords[k])
  {
    var candidates: seq<set<string>> := [];
    for k := 0 to |keywords|
      invariant |candidates| == k
      invariant forall j :: 0 <= j < k ==> candidates[j] == Found(Pairs(data), keywords[j])
    {
      var ids := KeywordIds(data, keywords[k]);
      candidates := candidates + [ids];
    }
    r := Combine(candidates, all);
  }

  /** Intersection or union of the candidate sets. */
  method Combine(candidates: seq<set<string>>, all: bool) returns (r: set<string>)
    requires candidates != []
    ensures all ==> forall id :: id in r <==> forall k :: 0 <= k < |candidates| ==> id in candidates[k]
    ensures !all ==> forall id :: id in r <==> exists k :: 0 <= k < |candidates| && id in candidates[k]
  {
    r := candidates[0];
    for k := 1 to |candidates|
      invariant all ==> forall id :: id in r <==> forall j :: 0 <= j < k ==> id in candidates[j]
      invariant !all ==> forall id :: id in r <==> exists j :: 0 <= j < k && id in candidates[j]
    {
      if all {
        r := r * candidates[k];
      } else {
        r := r + candidates[k];
      }
    }
  }

  /** Tokens are printed as they are. */
  function TextFormat(): Format<string> { Format((s: string) => s, (s: string) => Some(s)) }

  lemma FileKeepsTokens(file: string, m: Posting<string>)
    requires WrittenFrom(TextFormat(), file, m) && Clean(TextFormat(), Pairs(m))
    ensures Pairs(Loaded(TextFormat(), file)) == Pairs(m)
       <==> ColonFree(TextFormat(), Pairs(m))
  {
    hide Loaded, WrittenFrom, ColonFree, Clean;
    FileRoundTrip(TextFormat(), file, m);
  }

  predicate NoColons(tokens: seq<string>) { forall t :: t in tokens ==> ':' !in t }

  /** Adding an id the file can list under the tokens of a text. */
  lemma TokensArePrintable(content: set<(string, string)>, text: string, id: string)
    requires Clean(TextFormat(), content) && Listable(id)
    ensures Clean(TextFormat(), content + TokenPairs(Tokens(text), id))
    ensures ColonFree(TextFormat(), content) && NoColons(Tokens(text)) ==>
              ColonFree(TextFormat(), content + TokenPairs(Tokens(text), id))
  {
    hide Tokens;
    TokensAreTokens(text);
  }

  /** A colon inside a token stays: "10:30" is a token, so an index that holds it cannot leave RAM intact. */
  lemma ColonStaysInToken()
    ensures Tokens("10:30") == ["10:30"] && !NoColons(Tokens("10:30"))
  {
    hide StopWords, Tokens;
    NoStopWordStartsWith1();
    var t := "10:30";
    assert t[0] == '1' && t[2] == ':';
    TenThirty();
    TokenizeFixpoint(t);
    assert t in Tokens(t) && ':' in t;
  }

  lemma TenThirty()
    ensures IsToken("10:30") <==> "10:30" !in StopWords()
  {
    hide StopWords;
    var t := "10:30";
    assert t[0] == '1' && t[1] == '0' && t[2] == ':' && t[3] == '3' && t[4] == '0';
    assert Lower(t) == t;
    assert t[0] !in StripChars() && t[4] !in StripChars();
    assert NoSpace(t);
  }

  lemma NoStopWordStartsWith1()
    ensures forall w :: w in StopWords() ==> w == [] || w[0] != '1'
  {
  }

  class FullTextIndex {
    var m: Posting<string>           // RAM mode
    var inRam: bool
    var addBuf: Posting<string>      // disk mode: to add
    var removeBuf: Posting<string>   // disk mode: to remove
    var file: string                 // the index file

    ghost predicate Valid()
      reads this
    {
      if inRam then addBuf == map[] && removeBuf == map[] else m == map[]
    }

    ghost function Content(): set<(string, string)>
      reads this
    {
      if inRam then Pairs(m) else Pairs(Loaded(TextFormat(), file)) + Pairs(addBuf) - Pairs(removeBuf)
    }

    /** Tokens and ids that can stand on a line of the file. */
    ghost predicate Printable()
      reads this
    {
      Clean(TextFormat(), Content())
    }

    /** And no token has a colon. */
    ghost predicate Writable()
      reads this
    {
      Printable() && ColonFree(TextFormat(), Content())
    }

    constructor (file: string, evict: bool)
      ensures Valid() && Content() == Pairs(Loaded(TextFormat(), file)) && inRam == !evict && removeBuf == map[]
      ensures NoEmpty(Loaded(TextFormat(), file)) ==> NoEmpty(m)
    {
      this.file := file;
      addBuf, removeBuf := map[], map[];
      inRam := !evict;
      if evict {
        m := map[];
      } else {
        var disk := LoadDiskMap(TextFormat(), file);
        m := disk;
      }
    }

    method Add(id: string, text: string)
      requires Valid()
      modifies this
      ensures Valid() && inRam == old(inRam) && removeBuf == old(removeBuf) && (old(NoEmpty(m)) ==> NoEmpty(m))
      ensures Content() == if inRam then old(Content()) + TokenPairs(Tokens(text), id)
                           else old(Content()) + (TokenPairs(Tokens(text), id) - Pairs(old(removeBuf)))
    {
      hide Loaded, Tokens;
      var stems := Tokenize(text);
      if inRam {
        m := AddStems(m, stems, id);
      } else {
        addBuf := AddStems(addBuf, stems, id);
      }
    }

    method Remove(id: string, text: string)
      requires Valid()
      modifies this
      ensures Valid() && inRam == old(inRam) && Content() == old(Content()) - TokenPairs(Tokens(text), id)
      ensures old(NoEmpty(m)) ==> NoEmpty(m)
    {
      hide Loaded, Tokens;
      var stems := Tokenize(text);
      if inRam {
        m := DiscardStems(m, stems, id);
      } else {
        removeBuf := AddStems(removeBuf, stems, id);
      }
    }

    /** Merge the buffers into the file, all adds, then all removes; with a pending change, colons are lost. */
    method FlushPending()
      requires Valid() && !inRam
      modifies `file, `addBuf, `removeBuf
      ensures Valid() && addBuf == map[] && removeBuf == map[]
      ensures old(addBuf) == map[] && old(removeBuf) == map[] ==> Content() == old(Content())
      ensures old(Printable()) && (old(addBuf) != map[] || old(removeBuf) != map[]) ==>
                (Content() == old(Content()) <==> ColonFree(TextFormat(), old(Content())))
    {
      hide WrittenFrom, Loaded, Clean, ColonFree, TextFormat;
      if addBuf == map[] && removeBuf == map[] {
        return;
      }
      var disk := LoadDiskMap(TextFormat(), file);
      disk := ApplyAdds(disk, addBuf);
      disk := ApplyRemoves(disk, removeBuf);
      file := WriteFile(TextFormat(), disk);
      if old(Printable()) { FileKeepsTokens(file, disk); }
      addBuf, removeBuf := map[], map[];
      NothingPending();
    }

    lemma NothingPending()
      requires !inRam && addBuf == map[] && removeBuf == map[]
      ensures Content() == Pairs(Loaded(TextFormat(), file))
    {
      hide Loaded;
    }

    /** save(): evicting from RAM keeps the relation exactly when no token has a colon. */
    method Save(evict: bool)
      requires Valid()
      modifies this
      ensures Valid() && inRam == (old(inRam) && !evict) && removeBuf == map[]
      ensures inRam || old(Writable()) ==> Content() == old(Content())
      ensures old(inRam) && evict && old(Printable()) ==>
                (Content() == old(Content()) <==> ColonFree(TextFormat(), old(Content())))
    {
      hide WrittenFrom, Loaded, Clean, ColonFree, TextFormat;
      if inRam {
        file := WriteFile(TextFormat(), m);
        if old(Printable()) { FileKeepsTokens(file, m); }
        if evict {
          m, inRam := map[], false;
          NothingPending();
        }
      } else {
        FlushPending();
      }
    }

    /** search(): per keyword the union over its tokens, then the intersection or union over keywords. */
    method Search(keywords: seq<string>, all: bool) returns (r: set<string>)
      requires Valid()
      modifies this
      ensures Valid() && (removeBuf == old(removeBuf) || removeBuf == map[]) && inRam == old(inRam)
      ensures inRam || old(Writable()) ==> Content() == old(Content())
      ensures keywords == [] ==> r == {}
      ensures keywords != [] && all ==>
                forall id :: id in r <==> forall k :: 0 <= k < |keywords| ==> id in Found(Content(), keywords[k])
      ensures keywords != [] && !all ==>
                forall id :: id in r <==> exists k :: 0 <= k < |keywords| && id in Found(Content(), keywords[k])
    {
      hide WrittenFrom, Loaded, Clean, ColonFree, TextFormat, Found;
      if keywords == [] {
        return {};
      }
      var data := m;
      if !inRam {
        FlushPending();
        NothingPending();
        data := LoadDiskMap(TextFormat(), file);
      }
      r := SearchIn(data, keywords, all);
    }
  }

  /** `existing -= ids`, dropping a stem left without ids. */
  function Drop(m: Posting<string>, k: string, ids: set<string>): Posting<string>
  {
    if Ids(m, k) == {} then m
    else if m[k] - ids == {} then m - {k}
    else m[k := m[k] - ids]
  }

  lemma DropPairs(m: Posting<string>, k: string, ids: set<string>)
    ensures Pairs(Drop(m, k, ids)) == Pairs(m) - set id | id in ids :: (k, id)
    ensures NoEmpty(m) ==> NoEmpty(Drop(m, k, ids))
  {
    forall p ensures p in Pairs(Drop(m, k, ids)) <==> p in Pairs(m) && !(p.0 == k && p.1 in ids) {
      PairsAt(m);
      PairsAt(Drop(m, k, ids));
      assert p == (p.0, p.1);
      assert p.1 in Ids(Drop(m, k, ids), p.0) <==> p.1 in Ids(m, p.0) && !(p.0 == k && p.1 in ids);
    }
  }

  lemma UnionStep(m: Posting<string>, stems: seq<string>, stem: string, ids: set<string>)
    requires ids == set p | p in Pairs(m) && p.0 in stems :: p.1
    ensures ids + Ids(m, stem) == set p | p in Pairs(m) && p.0 in stems + [stem] :: p.1
  {
    forall id | id in Ids(m, stem) ensures (stem, id) in Pairs(m) {
    }
    forall id ensures id in ids + Ids(m, stem) <==> exists p :: p in Pairs(m) && p.0 in stems + [stem] && p.1 == id {
      if id in Ids(m, stem) { assert (stem, id) in Pairs(m); }
      if id in ids {
        var p :| p in Pairs(m) && p.0 in stems && p.1 == id;
        assert p.0 in stems + [stem];
      }
    }
  }
}
