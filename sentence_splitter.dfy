/**
 * sentence_splitter.py: cuts a token sequence into sentences at the
 * sentence-boundary tokens, which are dropped.
 */
module SentenceSplitter {
  import opened PyBuiltins
  import opened Tokenizer

  const SplitSentenceChars: set<string> := {"\n", "\\n", "."}

  predicate IsBoundary(t: Token)
  {
    t.content in SplitSentenceChars
  }

  /** The sentence buffer `current`, if non-empty, as a list of zero or one sentences. */
  function Close(current: seq<Token>): (r: seq<seq<Token>>)
    ensures |r| <= 1
    ensures r == [] <==> current == []
    ensures r != [] ==> r[0] == current
  {
    if current != [] then [current] else []
  }

  /** The sentences `split` produces from `tokens` when the buffer already holds `current`. */
  function SplitFrom(tokens: seq<Token>, current: seq<Token>): seq<seq<Token>>
  {
    if tokens == [] then Close(current)
    else if IsBoundary(tokens[0]) then Close(current) + SplitFrom(tokens[1..], [])
    else SplitFrom(tokens[1..], current + [tokens[0]])
  }

  /** `split(tokens)`. */
  function Sentences(tokens: seq<Token>): seq<seq<Token>>
  {
    SplitFrom(tokens, [])
  }

  /** The tokens that are not sentence boundaries, in order. */
  function NonBoundary(tokens: seq<Token>): (r: seq<Token>)
    ensures |r| <= |tokens|
  {
    if tokens == [] then []
    else (if IsBoundary(tokens[0]) then [] else [tokens[0]]) + NonBoundary(tokens[1..])
  }

  function CountBoundaries(tokens: seq<Token>): (n: nat)
    ensures n <= |tokens|
  {
    if tokens == [] then 0 else (if IsBoundary(tokens[0]) then 1 else 0) + CountBoundaries(tokens[1..])
  }

  /** `split` as the source writes it: one pass that appends to `result` and `tmp_sen`. */
  method Split(tokens: seq<Token>) returns (result: seq<seq<Token>>)
    ensures result == Sentences(tokens)
  {
    result := [];
    var tmpSen: seq<Token> := [];
    for i := 0 to |tokens|
      invariant result + SplitFrom(tokens[i..], tmpSen) == Sentences(tokens)
    {
      assert tokens[i..][1..] == tokens[i + 1..];
      var token := tokens[i];
      var word := token.content;
      if word in SplitSentenceChars {
        if tmpSen != [] {
          result := result + [tmpSen];
          tmpSen := [];
        }
      } else {
        tmpSen := tmpSen + [token];
      }
    }
    assert tokens[|tokens|..] == [];
    if tmpSen != [] {
      result := result + [tmpSen];
    }
  }

  /** `split_texts`: every token list split on its own, in order. */
  method SplitTexts(textTokensList: seq<seq<Token>>) returns (textSents: seq<seq<seq<Token>>>)
    ensures |textSents| == |textTokensList|
    ensures forall i :: 0 <= i < |textTokensList| ==> textSents[i] == Sentences(textTokensList[i])
  {
    textSents := [];
    for i := 0 to |textTokensList|
      invariant |textSents| == i
      invariant forall j :: 0 <= j < i ==> textSents[j] == Sentences(textTokensList[j])
    {
      var sents := Split(textTokensList[i]);
      textSents := textSents + [sents];
    }
  }

  // ------------------------------------------------------------------ properties

  /** No sentence is empty and none holds a boundary token. */
  lemma {:induction false} SplitFromSentencesOk(tokens: seq<Token>, current: seq<Token>)
    requires forall t :: t in current ==> !IsBoundary(t)
    ensures forall s :: s in SplitFrom(tokens, current) ==> s != [] && forall t :: t in s ==> !IsBoundary(t)
    decreases |tokens|
  {
    if tokens != [] {
      if IsBoundary(tokens[0]) {
        SplitFromSentencesOk(tokens[1..], []);
      } else {
        SplitFromSentencesOk(tokens[1..], current + [tokens[0]]);
      }
    }
  }

  lemma SentencesOk(tokens: seq<Token>)
    ensures forall s :: s in Sentences(tokens) ==> s != [] && forall t :: t in s ==> !IsBoundary(t)
  {
    SplitFromSentencesOk(tokens, []);
  }

  /** Joining the sentences back gives the buffer, then the non-boundary tokens, in order. */
  lemma {:induction false} SplitFromFlatten(tokens: seq<Token>, current: seq<Token>)
    ensures Flatten(SplitFrom(tokens, current)) == current + NonBoundary(tokens)
    decreases |tokens|
  {
    if tokens == [] {
      assert Flatten(Close(current)) == current;
    } else if IsBoundary(tokens[0]) {
      SplitFromFlatten(tokens[1..], []);
      var rest := SplitFrom(tokens[1..], []);
      if current != [] {
        assert ([current] + rest)[1..] == rest;
      } else {
        assert [] + rest == rest;
      }
    } else {
      SplitFromFlatten(tokens[1..], current + [tokens[0]]);
    }
  }

  /** Concatenating the sentences keeps every non-boundary token, in its original order. */
  lemma SentencesFlatten(tokens: seq<Token>)
    ensures Flatten(Sentences(tokens)) == NonBoundary(tokens)
  {
    SplitFromFlatten(tokens, []);
  }

  lemma {:induction false} SplitFromCount(tokens: seq<Token>, current: seq<Token>)
    ensures |SplitFrom(tokens, current)| <= CountBoundaries(tokens) + 1
    decreases |tokens|
  {
    if tokens != [] {
      if IsBoundary(tokens[0]) {
        SplitFromCount(tokens[1..], []);
      } else {
        SplitFromCount(tokens[1..], current + [tokens[0]]);
      }
    }
  }

  /** There is at most one sentence more than there are boundary tokens. */
  lemma SentencesCount(tokens: seq<Token>)
    ensures |Sentences(tokens)| <= CountBoundaries(tokens) + 1
  {
    SplitFromCount(tokens, []);
  }

  lemma {:induction false} SplitFromNoBoundary(tokens: seq<Token>, current: seq<Token>)
    requires forall t :: t in tokens ==> !IsBoundary(t)
    ensures SplitFrom(tokens, current) == Close(current + tokens)
    decreases |tokens|
  {
    if tokens == [] {
      assert current + tokens == current;
    } else {
      assert tokens[0] in tokens;
      assert forall t :: t in tokens[1..] ==> t in tokens;
      SplitFromNoBoundary(tokens[1..], current + [tokens[0]]);
      assert current + [tokens[0]] + tokens[1..] == current + tokens;
    }
  }

  /** Without a boundary token, a non-empty token list is a single sentence. */
  lemma NoBoundaryOneSentence(tokens: seq<Token>)
    requires tokens != [] && forall t :: t in tokens ==> !IsBoundary(t)
    ensures Sentences(tokens) == [tokens]
  {
    SplitFromNoBoundary(tokens, []);
    assert [] + tokens == tokens;
  }

  lemma {:induction false} SplitFromAtBoundary(a: seq<Token>, b: seq<Token>, current: seq<Token>, t: Token)
    requires IsBoundary(t)
    ensures SplitFrom(a + [t] + b, current) == SplitFrom(a, current) + SplitFrom(b, [])
    decreases |a|
  {
    if a == [] {
      assert a + [t] + b == [t] + b;
      assert ([t] + b)[1..] == b;
    } else {
      assert (a + [t] + b)[0] == a[0];
      assert (a + [t] + b)[1..] == a[1..] + [t] + b;
      if IsBoundary(a[0]) {
        SplitFromAtBoundary(a[1..], b, [], t);
      } else {
        SplitFromAtBoundary(a[1..], b, current + [a[0]], t);
      }
    }
  }

  /** A boundary token separates: what comes before and after it are split independently. */
  lemma SentencesAtBoundary(a: seq<Token>, b: seq<Token>, t: Token)
    requires IsBoundary(t)
    ensures Sentences(a + [t] + b) == Sentences(a) + Sentences(b)
  {
    SplitFromAtBoundary(a, b, [], t);
  }

  lemma {:induction false} SplitFromMember(tokens: seq<Token>, current: seq<Token>, s: seq<Token>, t: Token)
    requires s in SplitFrom(tokens, current) && t in s
    ensures t in current || t in tokens
    decreases |tokens|
  {
    if tokens != [] {
      var rest := tokens[1..];
      if IsBoundary(tokens[0]) {
        if s !in Close(current) {
          SplitFromMember(rest, [], s, t);
        }
      } else {
        SplitFromMember(rest, current + [tokens[0]], s, t);
      }
      assert t in rest ==> t in tokens;
    }
  }

  /** Every token of every sentence is one of the input tokens. */
  lemma SentenceTokensFromInput(tokens: seq<Token>, s: seq<Token>, t: Token)
    requires s in Sentences(tokens) && t in s
    ensures t in tokens && !IsBoundary(t)
  {
    SplitFromMember(tokens, [], s, t);
    SentencesOk(tokens);
  }
}
