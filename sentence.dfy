/** Span-tagged tokens and the sentence text rebuilt from them. */
module Sentence {
  import opened Text

  /** The value of a token's fields at one moment. */
  datatype TokenData = TokenData(text: string, start: int, end: int)

  /** A token of text with its half-open span `[start, end)`. The fields are plain mutable
      attributes: the coreference rewriter shifts `start`/`end` and overwrites `text`. */
  class Token {
    var text: string
    var start: int
    var end: int

    /** Stores the three values as given; nothing checks that `start <= end`. */
    constructor (text: string, start: int, end: int)
      ensures this.text == text && this.start == start && this.end == end
    {
      this.text := text;
      this.start := start;
      this.end := end;
    }

    function Data(): TokenData
      reads this
    {
      TokenData(text, start, end)
    }
  }

  /** The tokens' current field values are, one by one, those of `data`. */
  ghost predicate Holds(tokens: seq<Token>, data: seq<TokenData>)
    reads tokens
  {
    |tokens| == |data| && forall i :: 0 <= i < |tokens| ==> tokens[i].Data() == data[i]
  }

  /** The current texts of a list of tokens. */
  function TextsOf(tokens: seq<Token>): (r: seq<string>)
    reads tokens
    ensures |r| == |tokens|
    ensures forall i :: 0 <= i < |tokens| ==> r[i] == tokens[i].text
  {
    seq(|tokens|, i reads tokens requires 0 <= i < |tokens| => tokens[i].text)
  }

  /** Tokens holding `data` have the texts of `data`. */
  lemma HoldsTexts(tokens: seq<Token>, data: seq<TokenData>)
    requires Holds(tokens, data)
    ensures TextsOf(tokens) == Texts(data)
  {
  }

  /** The texts of a list of tokens. */
  function Texts(tokens: seq<TokenData>): (r: seq<string>)
    ensures |r| == |tokens|
    ensures forall i :: 0 <= i < |tokens| ==> r[i] == tokens[i].text
  {
    if tokens == [] then [] else [tokens[0].text] + Texts(tokens[1..])
  }

  /** What a token other than the first contributes to the sentence text:
      one space first exactly when its text is non-empty and starts with an alphanumeric. */
  function Spaced(t: string): string {
    if t != [] && IsAlnum(t[0]) then " " + t else t
  }

  /** The sentence text of a token list, accumulated left to right. */
  function JoinTokens(texts: seq<string>): string
    decreases |texts|
  {
    if texts == [] then []
    else if |texts| == 1 then texts[0]
    else JoinTokens(texts[..|texts| - 1]) + Spaced(texts[|texts| - 1])
  }

  /** The later tokens' contributions, concatenated. */
  function ConcatSpaced(texts: seq<string>): string {
    if texts == [] then [] else Spaced(texts[0]) + ConcatSpaced(texts[1..])
  }

  /** Total length of the texts. */
  function TotalLength(texts: seq<string>): nat {
    if texts == [] then 0 else |texts[0]| + TotalLength(texts[1..])
  }

  /** How many texts start with an alphanumeric character. */
  function AlnumStarts(texts: seq<string>): nat {
    if texts == [] then 0
    else (if texts[0] != [] && IsAlnum(texts[0][0]) then 1 else 0) + AlnumStarts(texts[1..])
  }

  /** A sentence built by one space-inserting pass over its tokens. `index` is the
      sentence's position among the sentences of its paragraph. */
  class SentenceProposal {
    const text: string
    const tokens: seq<Token>
    const index: int

    constructor (tokens: seq<Token>, index: int)
      ensures this.text == JoinTokens(TextsOf(tokens))
      ensures this.tokens == tokens && this.index == index
    {
      ghost var texts := TextsOf(tokens);
      var s := "";
      var i := 0;
      while i < |tokens|
        invariant 0 <= i <= |tokens|
        invariant s == JoinTokens(texts[..i])
      {
        var t := tokens[i].text;
        JoinStep(texts, i);
        if i == 0 {
          s := s + t;
        } else if t != [] && IsAlnum(t[0]) {
          s := s + " " + t;
        } else {
          s := s + t;
        }
        i := i + 1;
      }
      assert texts[..|tokens|] == texts;
      this.text := s;
      this.tokens := tokens;
      this.index := index;
    }
  }

  /** One more token extends the accumulated sentence by its own contribution. */
  lemma JoinStep(texts: seq<string>, i: nat)
    requires i < |texts|
    ensures JoinTokens(texts[..i + 1]) == if i == 0 then texts[0] else JoinTokens(texts[..i]) + Spaced(texts[i])
  {
    assert texts[..i + 1][..i] == texts[..i];
  }

  /** The left-to-right accumulation equals the first text followed by the later texts'
      contributions: the first token never gets a leading space. */
  lemma {:induction false} JoinFromLeft(texts: seq<string>)
    requires texts != []
    ensures JoinTokens(texts) == texts[0] + ConcatSpaced(texts[1..])
    decreases |texts|
  {
    if |texts| > 1 {
      var init := texts[..|texts| - 1];
      JoinFromLeft(init);
      assert init[0] == texts[0];
      ConcatSpacedSnoc(texts[1..|texts| - 1], texts[|texts| - 1]);
      assert init[1..] == texts[1..|texts| - 1];
      assert texts[1..|texts| - 1] + [texts[|texts| - 1]] == texts[1..];
    } else {
      assert texts[1..] == [];
    }
  }

  lemma {:induction false} ConcatSpacedSnoc(texts: seq<string>, t: string)
    ensures ConcatSpaced(texts + [t]) == ConcatSpaced(texts) + Spaced(t)
    decreases |texts|
  {
    if texts != [] {
      ConcatSpacedSnoc(texts[1..], t);
      assert (texts + [t])[1..] == texts[1..] + [t];
    } else {
      assert ([] + [t])[1..] == [];
    }
  }

  /** The first token's text opens the sentence verbatim. */
  lemma FirstTokenVerbatim(texts: seq<string>)
    requires texts != []
    ensures |texts[0]| <= |JoinTokens(texts)|
    ensures JoinTokens(texts)[..|texts[0]|] == texts[0]
  {
    JoinFromLeft(texts);
  }

  /** The sentence grows by exactly one appended token contribution per token:
      the text for a prefix of the tokens is a prefix of the text for all of them. */
  lemma {:induction false} JoinExtends(texts: seq<string>, k: nat)
    requires k <= |texts|
    ensures |JoinTokens(texts[..k])| <= |JoinTokens(texts)|
    ensures JoinTokens(texts)[..|JoinTokens(texts[..k])|] == JoinTokens(texts[..k])
    decreases |texts| - k
  {
    if k == |texts| {
      assert texts[..k] == texts;
    } else {
      JoinExtends(texts[..|texts| - 1], k);
      assert texts[..|texts| - 1][..k] == texts[..k];
    }
  }

  lemma {:induction false} ConcatSpacedLength(texts: seq<string>)
    ensures |ConcatSpaced(texts)| == TotalLength(texts) + AlnumStarts(texts)
    decreases |texts|
  {
    if texts != [] {
      ConcatSpacedLength(texts[1..]);
    }
  }

  /** Length of a sentence: the token lengths plus one space for each later token that
      starts with an alphanumeric character. */
  lemma JoinLength(texts: seq<string>)
    requires texts != []
    ensures |JoinTokens(texts)| == TotalLength(texts) + AlnumStarts(texts[1..])
  {
    JoinFromLeft(texts);
    ConcatSpacedLength(texts[1..]);
  }
}
