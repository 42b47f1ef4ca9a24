/**
 * preprocessor.py: the preprocessing interface and its one implementation,
 * which tokenizes every text (with its index-to-label map, when given) and
 * splits each token list into sentences.
 */
module Preprocessor {
  import opened Wrappers
  import opened PyBuiltins
  import opened Tokenizer
  import opened SentenceSplitter

  /** `PreprocessorIF` is the abstract base; `SimplePreprocessor` owns a tokenizer built on `cls`. */
  datatype Preprocessor = PreprocessorIF | SimplePreprocessor(cls: CharClasses)

  /** The `NotImplementedError` the base class raises. */
  datatype PreprocessError = NotImplemented

  type LabelMaps = Option<seq<Option<map<int, string>>>>

  /** `not index_2_labels`: the argument is `None` or an empty list. */
  predicate NoLabels(index2Labels: LabelMaps)
  {
    index2Labels.None? || index2Labels.value == []
  }

  /** How many texts are processed: all of them, or as many as `zip` pairs with a label map. */
  function ProcessedCount(textCount: nat, index2Labels: LabelMaps): nat
  {
    if NoLabels(index2Labels) then textCount else Min(textCount, |index2Labels.value|)
  }

  /** The index-to-label map the `i`-th text is tokenized with. */
  function LabelsOf(index2Labels: LabelMaps, i: nat): map<int, string>
  {
    if NoLabels(index2Labels) || i >= |index2Labels.value| then map[] else LabelMap(index2Labels.value[i])
  }

  /**
   * The result of `process`: the sentences of every processed text, in order.
   * Only the interface fails. Without label maps there is one entry per text;
   * with label maps `zip` stops at the shorter list, dropping the texts beyond it.
   */
  function Process(p: Preprocessor, texts: seq<string>, index2Labels: LabelMaps)
    : (r: Result<seq<seq<seq<Token>>>, PreprocessError>)
    ensures r.Failure? <==> p.PreprocessorIF?
    ensures r.Success? && NoLabels(index2Labels) ==> |r.value| == |texts|
    ensures r.Success? && !NoLabels(index2Labels) ==> |r.value| == Min(|texts|, |index2Labels.value|) <= |texts|
  {
    match p
    case PreprocessorIF => Failure(NotImplemented)
    case SimplePreprocessor(cls) =>
      var n := ProcessedCount(|texts|, index2Labels);
      Success(seq(n, i requires 0 <= i < n => Sentences(Tokens(cls, texts[i], LabelsOf(index2Labels, i)))))
  }

  /** `process` as the source writes it: tokenize text by text, then `split_texts`. */
  method ProcessTexts(p: Preprocessor, texts: seq<string>, index2Labels: LabelMaps)
    returns (r: Result<seq<seq<seq<Token>>>, PreprocessError>)
    ensures r == Process(p, texts, index2Labels)
  {
    match p
    case PreprocessorIF =>
      return Failure(NotImplemented);
    case SimplePreprocessor(cls) =>
      var textTokensList: seq<seq<Token>> := [];
      if NoLabels(index2Labels) {
        for i := 0 to |texts|
          invariant |textTokensList| == i
          invariant forall j :: 0 <= j < i ==> textTokensList[j] == Tokens(cls, texts[j], LabelsOf(index2Labels, j))
        {
          var tokens := Tokenize(cls, texts[i], None);
          textTokensList := textTokensList + [tokens];
        }
      } else {
        var labelMaps := index2Labels.value;
        for i := 0 to Min(|texts|, |labelMaps|)
          invariant |textTokensList| == i
          invariant forall j :: 0 <= j < i ==> textTokensList[j] == Tokens(cls, texts[j], LabelsOf(index2Labels, j))
        {
          var tokens := Tokenize(cls, texts[i], labelMaps[i]);
          textTokensList := textTokensList + [tokens];
        }
      }
      var textSentences := SplitTexts(textTokensList);
      var n := ProcessedCount(|texts|, index2Labels);
      assert |textSentences| == n;
      assert textSentences == seq(n, i requires 0 <= i < n => Sentences(Tokens(cls, texts[i], LabelsOf(index2Labels, i))));
      return Success(textSentences);
  }

  // ------------------------------------------------------------------ properties

  /** Label maps that are all `None` or empty behave as no label maps at all, when there is one per text. */
  lemma EmptyLabelMapsAreNoLabels(cls: CharClasses, texts: seq<string>, maps: seq<Option<map<int, string>>>)
    requires |maps| == |texts|
    requires forall i :: 0 <= i < |maps| ==> LabelMap(maps[i]) == map[]
    ensures Process(SimplePreprocessor(cls), texts, Some(maps)) == Process(SimplePreprocessor(cls), texts, None)
  {
    var a := Process(SimplePreprocessor(cls), texts, Some(maps)).value;
    var b := Process(SimplePreprocessor(cls), texts, None).value;
    assert |a| == |b|;
    forall i | 0 <= i < |a|
      ensures a[i] == b[i]
    {
      assert LabelsOf(Some(maps), i) == map[];
    }
    assert a == b;
  }

  /**
   * Every sentence of text `i` is non-empty, holds no boundary token, and each
   * of its tokens is a well-formed token of text `i` under that text's labels.
   */
  lemma ProcessSentencesOk(cls: CharClasses, texts: seq<string>, index2Labels: LabelMaps, i: nat, s: seq<Token>, t: Token)
    requires i < ProcessedCount(|texts|, index2Labels)
    requires s in Process(SimplePreprocessor(cls), texts, index2Labels).value[i]
    requires t in s
    ensures !IsBoundary(t)
    ensures TokenOk(texts[i], LabelsOf(index2Labels, i), t)
  {
    var labels := LabelsOf(index2Labels, i);
    var tokens := Tokens(cls, texts[i], labels);
    SentenceTokensFromInput(tokens, s, t);
    StripSpacesShortens();
    TokensWellFormed(cls, StripSpaces, texts[i], labels);
    var j :| 0 <= j < |tokens| && tokens[j] == t;
  }

  /** No processed sentence is empty. */
  lemma ProcessSentencesNonEmpty(cls: CharClasses, texts: seq<string>, index2Labels: LabelMaps, i: nat)
    requires i < ProcessedCount(|texts|, index2Labels)
    ensures forall s :: s in Process(SimplePreprocessor(cls), texts, index2Labels).value[i] ==> s != []
  {
    SentencesOk(Tokens(cls, texts[i], LabelsOf(index2Labels, i)));
  }
}
