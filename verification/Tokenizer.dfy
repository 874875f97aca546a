/**
  The text tokenizer: mkdb/db/query/tokenizer.py, over ASCII letters.
 */
module Tokenizer {
  import opened Text

  function StripChars(): set<char>
  {{
    '.', ',', '!', '?', ';', ':', '"', '\'', '(', ')', '[', ']', '{', '}', '<', '>', '@', '#', '$', '%', '^', '&',
    '*', '+', '-', '=', '/', '\\', '|', '~', '`', '_'
  }}

  function StopWords(): set<string>
  {{
    "the", "is", "a", "and", "for", "in", "to", "of",
    "with", "an", "on", "at", "by", "it", "as", "or",
    "be", "this", "that", "are", "was", "were", "not"
  }}

  function LowerChar(c: char): char
  {
    if 'A' <= c <= 'Z' then 'a' + (c - 'A') else c
  }

  function Lower(s: string): (r: string)
    ensures |r| == |s| && forall i :: 0 <= i < |s| ==> r[i] == LowerChar(s[i])
  {
    seq(|s|, i requires 0 <= i < |s| => LowerChar(s[i]))
  }

  predicate NoSpace(s: string) { forall c :: c in s ==> c !in WHITESPACE }

  /** `s.split()`: the maximal runs of non-white space. */
  function Words(s: string): (w: seq<string>)
    ensures forall i :: 0 <= i < |w| ==> w[i] != [] && NoSpace(w[i]) && forall c :: c in w[i] ==> c in s
  {
    if s == [] then []
    else
      var rest := Words(s[1..]);
      assert s == [s[0]] + s[1..];
      if s[0] in WHITESPACE then rest
      else if |s| > 1 && s[1] !in WHITESPACE && rest != [] then [[s[0]] + rest[0]] + rest[1..]
      else [[s[0]]] + rest
  }

  /** The test of the loop in tokenize. */
  predicate Keeps(word: string) { word != [] && word !in StopWords() && |word| > 1 }

  /** The tokens of a list of raw words. */
  function TokensOf(raw: seq<string>): seq<string>
  {
    if raw == [] then []
    else
      var before, word := TokensOf(raw[..|raw| - 1]), Strip(raw[|raw| - 1], StripChars());
      if Keeps(word) then before + [word] else before
  }

  function Tokens(text: string): seq<string> { TokensOf(Words(Lower(text))) }

  method Tokenize(text: string) returns (tokens: seq<string>)
    ensures tokens == Tokens(text)
  {
    hide StripChars, StopWords;
    if text == [] {
      return [];
    }
    tokens := [];
    var raw := Words(Lower(text));
    for i := 0 to |raw|
      invariant tokens == TokensOf(raw[..i])
    {
      assert raw[..i + 1][..i] == raw[..i];
      var word := Strip(raw[i], StripChars());
      if word != [] && word !in StopWords() && |word| > 1 {
        tokens := tokens + [word];
      }
    }
    assert raw[..|raw|] == raw;
  }

  // ---------- what a token is ----------

  /** The fixed points of the tokenizer. */
  predicate IsToken(t: string)
  {
    NoSpace(t) && Tight(t, StripChars()) && t !in StopWords() && |t| > 1 && Lower(t) == t
  }

  lemma {:induction false} WordsOfWord(s: string)
    requires s != [] && NoSpace(s)
    ensures Words(s) == [s]
    decreases |s|
  {
    if |s| > 1 {
      WordsOfWord(s[1..]);
      assert [s[0]] + s[1..] == s;
    } else {
      assert s == [s[0]];
    }
  }

  lemma LowerTwice(s: string)
    ensures forall c :: c in Lower(s) ==> LowerChar(c) == c
  {
  }

  lemma {:induction false} EmittedAreTokens(raw: seq<string>)
    requires forall i :: 0 <= i < |raw| ==> NoSpace(raw[i]) && forall c :: c in raw[i] ==> LowerChar(c) == c
    ensures forall t :: t in TokensOf(raw) ==> IsToken(t)
    decreases |raw|
  {
    hide StripChars, StopWords, Strip, IsToken, NoSpace;
    if raw != [] {
      EmittedAreTokens(raw[..|raw| - 1]);
      EmittedIsToken(raw[|raw| - 1]);
    }
  }

  lemma EmittedIsToken(raw: string)
    requires NoSpace(raw) && forall c :: c in raw ==> LowerChar(c) == c
    ensures var w := Strip(raw, StripChars()); w !in StopWords() && |w| > 1 ==> IsToken(w)
  {
    hide StripChars, StopWords;
    var w := Strip(raw, StripChars());
    StripIsTight(raw, StripChars());
    assert Lower(w) == w;
  }

  /** Every token of a text is a fixed point. */
  lemma TokensAreTokens(text: string)
    ensures forall t :: t in Tokens(text) ==> IsToken(t)
  {
    LowerTwice(text);
    EmittedAreTokens(Words(Lower(text)));
  }

  /** Idempotence: a string is its own only token exactly when it is a token. */
  lemma TokenizeFixpoint(t: string)
    ensures Tokens(t) == [t] <==> IsToken(t)
  {
    hide StripChars, StopWords;
    if IsToken(t) {
      WordsOfWord(t);
      StripTight(t, StripChars(), '.');
      assert [t][..0] == [];
      assert TokensOf([t]) == [t];
    }
    if Tokens(t) == [t] {
      TokensAreTokens(t);
      assert t in Tokens(t);
    }
  }
}
