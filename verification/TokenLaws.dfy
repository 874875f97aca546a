/**
  What the tokenizer does to a whole text, word by word.
 */
module TokenLaws {
  import opened Text
  import opened Tokenizer

  // ---------- letters ----------

  const UPPER := "ABCDEFGHIJKLMNOPQRSTUVWXYZ"
  const LOWER := "abcdefghijklmnopqrstuvwxyz"

  /** Capitals become the small letters with the same place in the alphabet, all else stays. */
  lemma LowerLetters(c: char)
    ensures forall k :: 0 <= k < 26 ==> LowerChar(UPPER[k]) == LOWER[k]
    ensures c !in UPPER ==> LowerChar(c) == c
  {
    Alphabet();
    if 'A' <= c <= 'Z' {
      var k := c as nat - 'A' as nat;
      assert UPPER[k] == c;
    }
  }

  lemma Alphabet()
    ensures |UPPER| == |LOWER| == 26
    ensures forall k :: 0 <= k < 26 ==> UPPER[k] as nat == 'A' as nat + k && LOWER[k] as nat == 'a' as nat + k
  {
  }

  lemma LowerConcat(a: string, b: string)
    ensures Lower(a + b) == Lower(a) + Lower(b)
  {
  }

  lemma SpacesStay(c: char)
    requires c in WHITESPACE || c in StripChars()
    ensures LowerChar(c) == c
  {
  }

  /** Lower case neither makes nor removes white space or punctuation. */
  lemma LowerKeepsClass(c: char)
    ensures LowerChar(c) in WHITESPACE <==> c in WHITESPACE
    ensures LowerChar(c) in StripChars() <==> c in StripChars()
  {
    if 'A' <= c <= 'Z' { assert 'a' <= LowerChar(c) <= 'z'; }
  }

  // ---------- a text is its words ----------

  lemma WordsStep(s: string)
    requires s != []
    ensures Words(s) ==
            if s[0] in WHITESPACE then Words(s[1..])
            else if |s| > 1 && s[1] !in WHITESPACE && Words(s[1..]) != [] then
              [[s[0]] + Words(s[1..])[0]] + Words(s[1..])[1..]
            else [[s[0]]] + Words(s[1..])
  {
  }

  lemma FirstOfConcat<T(!new)>(h: T, w: seq<T>, b: seq<T>)
    ensures w != [] ==> (w + b)[0] == w[0] && [h] + (w + b)[1..] == ([h] + w[1..]) + b
    ensures [h] + (w + b) == ([h] + w) + b
  {
  }

  lemma {:induction false} WordsOfTwo(a: string, c: char, b: string)
    requires c in WHITESPACE
    ensures Words(a + [c] + b) == Words(a) + Words(b)
    decreases |a|
  {
    hide Words;
    var s := a + [c] + b;
    WordsStep(s);
    if a == [] {
      assert s[1..] == b && s[0] == c;
      NoWordsYet(b);
    } else {
      assert s[1..] == a[1..] + [c] + b && s[0] == a[0];
      WordsStep(a);
      WordsOfTwo(a[1..], c, b);
      var w := Words(a[1..]);
      if |a| > 1 {
        assert s[1] == a[1];
        if a[1] !in WHITESPACE {
          FirstWord(a[1..]);
          FirstOfConcat([a[0]] + w[0], w, Words(b));
        }
      } else {
        assert s[1] == c;
      }
      FirstOfConcat([a[0]], w, Words(b));
    }
  }

  lemma NoWordsYet(b: string)
    ensures Words([]) + Words(b) == Words(b)
  {
  }

  lemma FirstWord(s: string)
    requires s != [] && s[0] !in WHITESPACE
    ensures Words(s) != []
  {
  }

  lemma {:induction false} TokensOfConcat(a: seq<string>, b: seq<string>)
    ensures TokensOf(a + b) == TokensOf(a) + TokensOf(b)
    decreases |b|
  {
    hide StripChars, StopWords, Strip;
    if b == [] {
      assert a + b == a;
    } else {
      assert (a + b)[..|a + b| - 1] == a + b[..|b| - 1];
      TokensOfConcat(a, b[..|b| - 1]);
    }
  }

  /** The tokens of a text are those of its parts, wherever it is cut at white space; no text, no tokens. */
  lemma TokensOfTwo(a: string, c: char, b: string)
    requires c in WHITESPACE
    ensures Tokens(a + [c] + b) == Tokens(a) + Tokens(b)
    ensures Tokens([]) == []
  {
    hide TokensOf, Words;
    LowerConcat(a + [c], b);
    LowerConcat(a, [c]);
    SpacesStay(c);
    assert Lower([c]) == [c];
    WordsOfTwo(Lower(a), c, Lower(b));
    TokensOfConcat(Words(Lower(a)), Words(Lower(b)));
    NoWords();
  }

  lemma NoWords()
    ensures Lower([]) == [] && Words([]) == [] && TokensOf([]) == []
  {
  }

  // ---------- a word is its core ----------

  lemma {:induction false} TrimLeftOf(x: string, s: string, drop: set<char>)
    requires (forall c :: c in x ==> c in drop) && (s != [] ==> s[0] !in drop)
    ensures TrimLeft(x + s, drop) == s
    decreases |x|
  {
    if x != [] {
      assert (x + s)[1..] == x[1..] + s;
      TrimLeftOf(x[1..], s, drop);
    } else {
      assert x + s == s;
    }
  }

  lemma {:induction false} TrimRightOf(s: string, y: string, drop: set<char>)
    requires (forall c :: c in y ==> c in drop) && (s != [] ==> s[|s| - 1] !in drop)
    ensures TrimRight(s + y, drop) == s
    decreases |y|
  {
    if y != [] {
      assert (s + y)[..|s + y| - 1] == s + y[..|y| - 1];
      TrimRightOf(s, y[..|y| - 1], drop);
    } else {
      assert s + y == s;
    }
  }

  /** strip() takes off the dropped characters at both ends, and nothing else. */
  lemma StripsEnds(x: string, core: string, y: string, drop: set<char>)
    requires (forall c :: c in x ==> c in drop) && (forall c :: c in y ==> c in drop)
    requires core == [] || Tight(core, drop)
    ensures Strip(x + core + y, drop) == core
  {
    if core == [] {
      assert x + core + y == (x + y) + [];
      TrimLeftOf(x + y, [], drop);
    } else {
      assert x + core + y == x + (core + y);
      TrimLeftOf(x, core + y, drop);
      TrimRightOf(core, y, drop);
    }
  }

  lemma LowerAll(s: string)
    ensures forall c :: c in Lower(s) ==> exists d :: d in s && c == LowerChar(d)
  {
    forall c | c in Lower(s) ensures exists d :: d in s && c == LowerChar(d) {
      var i :| 0 <= i < |s| && Lower(s)[i] == c;
      assert s[i] in s;
    }
  }

  lemma LowerOfPunctuation(x: string)
    requires forall c :: c in x ==> c in StripChars()
    ensures Lower(x) == x
  {
    forall i | 0 <= i < |x| ensures Lower(x)[i] == x[i] { SpacesStay(x[i]); }
  }

  lemma LowerWord(w: string)
    requires NoSpace(w)
    ensures NoSpace(Lower(w))
  {
    forall c | c in Lower(w) ensures c !in WHITESPACE {
      LowerAll(w);
      var d :| d in w && c == LowerChar(d);
      LowerKeepsClass(d);
    }
  }

  lemma LowerTight(core: string)
    requires Tight(core, StripChars())
    ensures Tight(Lower(core), StripChars())
  {
    LowerKeepsClass(core[0]);
    LowerKeepsClass(core[|core| - 1]);
  }

  /** The raw words of one word: itself. */
  lemma TokensOfRaw(w: string)
    requires w != [] && NoSpace(w)
    ensures Tokens(w) == TokensOf([Lower(w)])
  {
    hide TokensOf, Words;
    LowerWord(w);
    WordsOfWord(Lower(w));
  }

  lemma TokensOfOne(raw: string, core: string)
    requires Strip(raw, StripChars()) == core
    ensures TokensOf([raw]) == if |core| > 1 && core !in StopWords() then [core] else []
  {
    hide StripChars, StopWords, Strip;
    assert [raw][..0] == [];
  }

  /**
    A word is its core in lower case, with the punctuation around it gone; it counts when it
    is longer than one character and no stop word.
   */
  lemma TokenOfWord(x: string, core: string, y: string)
    requires (forall c :: c in x ==> c in StripChars()) && (forall c :: c in y ==> c in StripChars())
    requires core == [] || Tight(core, StripChars())
    requires NoSpace(x + core + y) && x + core + y != []
    ensures Tokens(x + core + y) ==
            if |core| > 1 && Lower(core) !in StopWords() then [Lower(core)] else []
  {
    hide StripChars, StopWords, TokensOf, Strip, NoSpace, Tokens;
    TokensOfRaw(x + core + y);
    LowerConcat(x + core, y);
    LowerConcat(x, core);
    LowerOfPunctuation(x);
    LowerOfPunctuation(y);
    if core != [] { LowerTight(core); }
    StripsEnds(x, Lower(core), y, StripChars());
    TokensOfOne(x + Lower(core) + y, Lower(core));
  }
}
