/**
 * tokenizer.py: a left-to-right scan over the characters of a text that
 * keeps a pending buffer and emits tokens with half-open character offsets
 * and an optional label taken from a per-character label map.
 */
module Tokenizer {
  import opened Wrappers
  import opened PyBuiltins

  /** `build_token_dic(content, offset, label)`, with `offset == (start, end)` and the label as `tag`. */
  datatype Token = Token(content: string, start: int, end: int, tag: Option<string>)

  /**
   * The two classifiers the tokenizer uses but does not define:
   * `is_number` from number_helpers and `str.isalpha` for one character.
   */
  datatype CharClasses = CharClasses(isNumber: string -> bool, isAlpha: char -> bool)

  const SplitChars: set<char> := {' ', '\n', '\t', '\\'}

  const PunctuationChars: set<string> :=
    {".", ",", ";", ":", "\"", "'", "?", "“", "”", "!", "-", "—", "...", "\t", "(", ")", "[",
     "]", "‘", "’", "+", "\n", "\\n", "*"}

  const SpecialCharsAsTokens: set<string> :=
    {"@", ">", "<", "~", "%", "$", "£", "=", "/", "®", "am", "pm"} + PunctuationChars

  /** The one-character members of `SpecialCharsAsTokens`. */
  const SpecialSingles: set<char> :=
    {'@', '>', '<', '~', '%', '$', '£', '=', '/', '®', '.', ',', ';', ':', '"', '\'', '?', '“', '”', '!',
     '-', '—', '\t', '(', ')', '[', ']', '‘', '’', '+', '\n', '*'}

  /** Membership in `SpecialCharsAsTokens`, decided by length. */
  predicate IsSpecial(s: string)
  {
    if |s| == 1 then s[0] in SpecialSingles
    else if |s| == 2 then s == "am" || s == "pm" || s == "\\n"
    else s == "..."
  }

  lemma IsSpecialMeansMember(s: string)
    ensures IsSpecial(s) <==> s in SpecialCharsAsTokens
  {
    if |s| == 1 {
      assert s == [s[0]];
    }
  }

  /** `next_char(text, i)`: the character after `i`, or the empty string at the end. */
  function NextChar(text: string, i: nat): (r: string)
    ensures |r| <= 1
    ensures r != [] <==> i + 1 < |text|
    ensures r != [] ==> r[0] == text[i + 1]
  {
    if i + 1 >= |text| then [] else [text[i + 1]]
  }

  /** `pre_char(text, i)`: the character before `i`, or the empty string at the start. */
  function PreChar(text: string, i: nat): (r: string)
    requires i <= |text|
    ensures |r| <= 1
    ensures r != [] <==> i >= 1
    ensures r != [] ==> r[0] == text[i - 1]
  {
    if i < 1 then [] else [text[i - 1]]
  }

  /** `str.isalpha()`: non-empty and every character alphabetic. */
  predicate IsAlpha(cls: CharClasses, s: string)
  {
    s != [] && forall k :: 0 <= k < |s| ==> cls.isAlpha(s[k])
  }

  /** `index_to_label.get(k)`. */
  function LabelAt(labels: map<int, string>, k: int): Option<string>
  {
    if k in labels then Some(labels[k]) else None
  }

  /** `if not index_to_label: index_to_label = {}`. */
  function LabelMap(indexToLabel: Option<map<int, string>>): map<int, string>
  {
    if indexToLabel.None? || indexToLabel.value == map[] then map[] else indexToLabel.value
  }

  /** The index of the first non-space character of `s` at or after `k`. */
  function SpacesEnd(s: string, k: nat): (j: nat)
    requires k <= |s|
    ensures k <= j <= |s|
    decreases |s| - k
  {
    if k < |s| && s[k] == ' ' then SpacesEnd(s, k + 1) else k
  }

  /** The index just after the last non-space character of `s[lo..k]`, or `lo`. */
  function SpacesStart(s: string, lo: nat, k: nat): (j: nat)
    requires lo <= k <= |s|
    ensures lo <= j <= k
  {
    if k > lo && s[k - 1] == ' ' then SpacesStart(s, lo, k - 1) else k
  }

  /** `tmp_str.strip(' ')`, by index; `StripSpacesIsStrip` ties it to `str.strip`. */
  function StripSpaces(s: string): (r: string)
    ensures |r| <= |s|
  {
    var lo := SpacesEnd(s, 0);
    s[lo..SpacesStart(s, lo, |s|)]
  }

  /** Emits the pending buffer, if non-empty, as a token that ends at `end`. */
  function Flush(tokens: seq<Token>, pending: string, end: int, labels: map<int, string>): seq<Token>
  {
    if pending != [] then tokens + [Token(pending, end - |pending|, end, LabelAt(labels, end - 1))]
    else tokens
  }

  /** The state between two characters: the tokens so far and `tmp_str`. */
  datatype Scan = Scan(tokens: seq<Token>, pending: string)

  /**
   * The branches of one iteration once the buffer has been stripped to
   * `tmp`. The source's test `char == '.' and next_char(...).isalpha()`
   * inside the third branch never holds there, since the second branch took
   * that case, so that branch always emits the character. One iteration
   * keeps the tokens already emitted, adds at most two (the flushed buffer
   * and the character), and leaves a buffer that is empty or ends with the
   * current character.
   */
  function Decide(cls: CharClasses, text: string, labels: map<int, string>, i: nat, tokens: seq<Token>, tmp: string): (r: Scan)
    requires i < |text|
    ensures tokens <= r.tokens && |r.tokens| <= |tokens| + 2
  {
    var c := text[i];
    var next := NextChar(text, i);
    if IsSpecial([c]) then
      if (c == '.' || c == ',') && cls.isNumber(tmp) && cls.isNumber(next) then Scan(tokens, tmp + [c])
      else if c == '.' && IsAlpha(cls, next) then Scan(tokens, tmp + [c])
      else Scan(Flush(tokens, tmp, i, labels) + [Token([c], i, i + 1, LabelAt(labels, i))], [])
    else if IsSpecial(tmp) then
      if tmp == "." && IsAlpha(cls, [c]) then Scan(tokens, tmp + [c])
      else Scan(tokens + [Token(tmp, i - |tmp|, i, LabelAt(labels, i - 1))], [c])
    else if c in SplitChars then
      Scan(Flush(tokens, tmp, i, labels), if c == '\\' then [c] else [])
    else
      Scan(tokens, tmp + [c])
  }

  /**
   * One iteration of the loop of `tokenize`, for the character at `i`: strip
   * the buffer, then take the branch. The scan is written for any `strip`;
   * `tokenize` uses `StripSpaces`. Past the end of the text it does nothing.
   */
  function Step(cls: CharClasses, strip: string -> string, text: string, labels: map<int, string>): (nat, Scan) -> Scan
  {
    (i: nat, st: Scan) => if i < |text| then Decide(cls, text, labels, i, st.tokens, strip(st.pending)) else st
  }

  /** Unfolding helper for the loop proof: inside the text, `Step` is `Decide` on the stripped buffer. */
  lemma StepIsDecide(cls: CharClasses, strip: string -> string, text: string, labels: map<int, string>, i: nat, st: Scan)
    requires i < |text|
    ensures Step(cls, strip, text, labels)(i, st) == Decide(cls, text, labels, i, st.tokens, strip(st.pending))
  {
  }

  /** The state after the first `k` iterations of `step`, from no tokens and an empty buffer. */
  function Fold(step: (nat, Scan) -> Scan, k: nat): Scan
  {
    if k == 0 then Scan([], []) else step(k - 1, Fold(step, k - 1))
  }

  /** The state after the first `k` characters. */
  function Run(cls: CharClasses, strip: string -> string, text: string, labels: map<int, string>, k: nat): Scan
  {
    Fold(Step(cls, strip, text, labels), k)
  }

  /** The loop, then the final flush of the buffer (not stripped again). */
  function TokensWith(cls: CharClasses, strip: string -> string, text: string, labels: map<int, string>): seq<Token>
  {
    var st := Run(cls, strip, text, labels, |text|);
    Flush(st.tokens, st.pending, |text|, labels)
  }

  /** `tokenize(text, index_to_label)`. */
  function Tokens(cls: CharClasses, text: string, labels: map<int, string>): seq<Token>
  {
    TokensWith(cls, StripSpaces, text, labels)
  }

  /** What the properties below need of the strip: it never lengthens a string. */
  ghost predicate Shortens(strip: string -> string)
  {
    forall s :: |strip(s)| <= |s|
  }

  // ------------------------------------------------------------------ the branches, one by one
  // Unfolding helpers for `ScanChar`: each lemma below restates one branch of
  // `Decide` under that branch's condition. They are proof steps, not properties.

  /** A `.` or `,` between a numeric buffer and a numeric next character joins the buffer. */
  lemma NumberSeparatorJoinsBuffer(cls: CharClasses, text: string, labels: map<int, string>, i: nat, tokens: seq<Token>, tmp: string)
    requires i < |text| && (text[i] == '.' || text[i] == ',')
    requires cls.isNumber(tmp) && cls.isNumber(NextChar(text, i))
    ensures Decide(cls, text, labels, i, tokens, tmp) == Scan(tokens, tmp + [text[i]])
  {
    assert IsSpecial([text[i]]);
  }

  /** Otherwise a `.` before a letter joins the buffer (abbreviations such as `U.S`). */
  lemma AbbreviationDotJoinsBuffer(cls: CharClasses, text: string, labels: map<int, string>, i: nat, tokens: seq<Token>, tmp: string)
    requires i < |text| && text[i] == '.' && IsAlpha(cls, NextChar(text, i))
    ensures Decide(cls, text, labels, i, tokens, tmp) == Scan(tokens, tmp + ['.'])
  {
    assert IsSpecial(".");
  }

  /**
   * Any other special character flushes the non-empty buffer, then becomes a
   * one-character token at `(i, i + 1)`; the buffer is left empty.
   */
  lemma SpecialCharIsToken(cls: CharClasses, text: string, labels: map<int, string>, i: nat, tokens: seq<Token>, tmp: string)
    requires i < |text| && IsSpecial([text[i]])
    requires !((text[i] == '.' || text[i] == ',') && cls.isNumber(tmp) && cls.isNumber(NextChar(text, i)))
    requires !(text[i] == '.' && IsAlpha(cls, NextChar(text, i)))
    ensures Decide(cls, text, labels, i, tokens, tmp)
         == Scan(Flush(tokens, tmp, i, labels) + [Token([text[i]], i, i + 1, LabelAt(labels, i))], [])
  {
  }

  /** A buffer holding just `.` followed by a letter keeps growing (`.e` in `U.S.e`). */
  lemma DotBufferJoinsLetter(cls: CharClasses, text: string, labels: map<int, string>, i: nat, tokens: seq<Token>, tmp: string)
    requires i < |text| && !IsSpecial([text[i]]) && tmp == "." && cls.isAlpha(text[i])
    ensures Decide(cls, text, labels, i, tokens, tmp) == Scan(tokens, tmp + [text[i]])
  {
  }

  /**
   * A buffer that is itself a special token (and was not extended above) is
   * emitted ending at `i`, even before a split character, and the current
   * character starts the new buffer.
   */
  lemma SpecialBufferIsToken(cls: CharClasses, text: string, labels: map<int, string>, i: nat, tokens: seq<Token>, tmp: string)
    requires i < |text| && !IsSpecial([text[i]]) && IsSpecial(tmp)
    requires !(tmp == "." && cls.isAlpha(text[i]))
    ensures Decide(cls, text, labels, i, tokens, tmp)
         == Scan(tokens + [Token(tmp, i - |tmp|, i, LabelAt(labels, i - 1))], [text[i]])
  {
  }

  /**
   * Otherwise a split character flushes the non-empty buffer as a token
   * ending at `i`; a backslash then starts a new buffer holding just itself.
   */
  lemma SplitCharFlushes(cls: CharClasses, text: string, labels: map<int, string>, i: nat, tokens: seq<Token>, tmp: string)
    requires i < |text| && text[i] in SplitChars && !IsSpecial([text[i]]) && !IsSpecial(tmp)
    ensures Decide(cls, text, labels, i, tokens, tmp)
         == Scan(Flush(tokens, tmp, i, labels), if text[i] == '\\' then "\\" else [])
  {
  }

  /** Any other character is appended to the buffer. */
  lemma OrdinaryCharJoinsBuffer(cls: CharClasses, text: string, labels: map<int, string>, i: nat, tokens: seq<Token>, tmp: string)
    requires i < |text| && text[i] !in SplitChars && !IsSpecial([text[i]]) && !IsSpecial(tmp)
    ensures Decide(cls, text, labels, i, tokens, tmp) == Scan(tokens, tmp + [text[i]])
  {
  }

  // ------------------------------------------------------------------ the method

  /** One iteration of the scan at index `idx`: strip the buffer, then take one of the branches. */
  method ScanChar(cls: CharClasses, text: string, labels: map<int, string>, idx: nat, tokenList: seq<Token>, tmpStr: string)
    returns (tokenList': seq<Token>, tmpStr': string)
    requires idx < |text|
    ensures Scan(tokenList', tmpStr') == Decide(cls, text, labels, idx, tokenList, StripSpaces(tmpStr))
  {
    var c := text[idx];
    tokenList' := tokenList;
    tmpStr' := StripSpaces(tmpStr);
    if IsSpecial([c]) {
      if (c == '.' || c == ',') && cls.isNumber(tmpStr') && cls.isNumber(NextChar(text, idx)) {
        NumberSeparatorJoinsBuffer(cls, text, labels, idx, tokenList', tmpStr');
        tmpStr' := tmpStr' + [c];
      } else if c == '.' && IsAlpha(cls, NextChar(text, idx)) {
        AbbreviationDotJoinsBuffer(cls, text, labels, idx, tokenList', tmpStr');
        tmpStr' := tmpStr' + [c];
      } else {
        SpecialCharIsToken(cls, text, labels, idx, tokenList', tmpStr');
        if tmpStr' != [] {
          tokenList' := tokenList' + [Token(tmpStr', idx - |tmpStr'|, idx, LabelAt(labels, idx - 1))];
          tmpStr' := [];
        }
        tokenList' := tokenList' + [Token([c], idx, idx + 1, LabelAt(labels, idx))];
      }
    } else if IsSpecial(tmpStr') {
      if tmpStr' == "." && IsAlpha(cls, [c]) {
        DotBufferJoinsLetter(cls, text, labels, idx, tokenList', tmpStr');
        tmpStr' := tmpStr' + [c];
      } else {
        SpecialBufferIsToken(cls, text, labels, idx, tokenList', tmpStr');
        tokenList' := tokenList' + [Token(tmpStr', idx - |tmpStr'|, idx, LabelAt(labels, idx - 1))];
        tmpStr' := [c];
      }
    } else if c in SplitChars {
      SplitCharFlushes(cls, text, labels, idx, tokenList', tmpStr');
      if tmpStr' != [] {
        tokenList' := tokenList' + [Token(tmpStr', idx - |tmpStr'|, idx, LabelAt(labels, idx - 1))];
        tmpStr' := [];
      }
      if c == '\\' {
        tmpStr' := [c];
      }
    } else {
      OrdinaryCharJoinsBuffer(cls, text, labels, idx, tokenList', tmpStr');
      tmpStr' := tmpStr' + [c];
    }
  }

  /**
   * The scan as the source writes it: `tmp_str` and `token_list` updated in
   * place, one character at a time.
   */
  method Tokenize(cls: CharClasses, text: string, indexToLabel: Option<map<int, string>>)
    returns (tokenList: seq<Token>)
    ensures tokenList == Tokens(cls, text, LabelMap(indexToLabel))
    ensures WellFormed(text, LabelMap(indexToLabel), tokenList)
  {
    var labels := LabelMap(indexToLabel);
    tokenList := [];
    var tmpStr: string := [];
    var idx := 0;
    while idx < |text|
      invariant idx <= |text|
      invariant Scan(tokenList, tmpStr) == Run(cls, StripSpaces, text, labels, idx)
    {
      StepIsDecide(cls, StripSpaces, text, labels, idx, Scan(tokenList, tmpStr));
      tokenList, tmpStr := ScanChar(cls, text, labels, idx, tokenList, tmpStr);
      idx := idx + 1;
    }
    if tmpStr != [] {
      var textLen := |text|;
      tokenList := tokenList + [Token(tmpStr, textLen - |tmpStr|, textLen, LabelAt(labels, textLen - 1))];
    }
    StripSpacesShortens();
    TokensWellFormed(cls, StripSpaces, text, labels);
  }

  // ------------------------------------------------------------------ well-formed output

  /**
   * A token as the source builds it: non-empty content, offsets inside the
   * text whose width is the content's length, and the label of the
   * character just before its end offset.
   */
  ghost predicate TokenOk(text: string, labels: map<int, string>, t: Token)
  {
    && t.content != []
    && 0 <= t.start
    && t.end <= |text|
    && t.end - t.start == |t.content|
    && t.tag == LabelAt(labels, t.end - 1)
  }

  /** Tokens are in text order and do not overlap (so end offsets strictly increase). */
  ghost predicate Ordered(tokens: seq<Token>)
  {
    forall j :: 0 <= j < |tokens| - 1 ==> tokens[j].end <= tokens[j + 1].start
  }

  ghost predicate WellFormed(text: string, labels: map<int, string>, tokens: seq<Token>)
  {
    && (forall j :: 0 <= j < |tokens| ==> TokenOk(text, labels, tokens[j]))
    && Ordered(tokens)
  }

  /** What holds after `k` characters: every token emitted so far ends at or before the buffer starts. */
  ghost predicate ScanOk(text: string, labels: map<int, string>, k: nat, st: Scan)
  {
    && k <= |text|
    && |st.pending| <= k
    && WellFormed(text, labels, st.tokens)
    && (st.tokens != [] ==> st.tokens[|st.tokens| - 1].end <= k - |st.pending|)
  }

  lemma AppendToken(text: string, labels: map<int, string>, tokens: seq<Token>, t: Token)
    requires WellFormed(text, labels, tokens) && TokenOk(text, labels, t)
    requires tokens != [] ==> tokens[|tokens| - 1].end <= t.start
    ensures WellFormed(text, labels, tokens + [t])
  {
  }

  lemma FlushOk(text: string, labels: map<int, string>, tokens: seq<Token>, pending: string, end: int)
    requires WellFormed(text, labels, tokens)
    requires |pending| <= end <= |text|
    requires tokens != [] ==> tokens[|tokens| - 1].end <= end - |pending|
    ensures var r := Flush(tokens, pending, end, labels);
      && WellFormed(text, labels, r)
      && (r != [] ==> r[|r| - 1].end <= end)
  {
    if pending != [] {
      AppendToken(text, labels, tokens, Token(pending, end - |pending|, end, LabelAt(labels, end - 1)));
    }
  }

  lemma JoinOk(text: string, labels: map<int, string>, i: nat, tokens: seq<Token>, tmp: string, c: char)
    requires i < |text| && ScanOk(text, labels, i, Scan(tokens, tmp))
    ensures ScanOk(text, labels, i + 1, Scan(tokens, tmp + [c]))
  {
  }

  lemma EmitOk(text: string, labels: map<int, string>, i: nat, tokens: seq<Token>, tmp: string)
    requires i < |text| && ScanOk(text, labels, i, Scan(tokens, tmp))
    ensures ScanOk(text, labels, i + 1, Scan(Flush(tokens, tmp, i, labels) + [Token([text[i]], i, i + 1, LabelAt(labels, i))], []))
  {
    FlushOk(text, labels, tokens, tmp, i);
    AppendToken(text, labels, Flush(tokens, tmp, i, labels), Token([text[i]], i, i + 1, LabelAt(labels, i)));
  }

  lemma RestartOk(text: string, labels: map<int, string>, i: nat, tokens: seq<Token>, tmp: string)
    requires i < |text| && tmp != [] && ScanOk(text, labels, i, Scan(tokens, tmp))
    ensures ScanOk(text, labels, i + 1, Scan(tokens + [Token(tmp, i - |tmp|, i, LabelAt(labels, i - 1))], [text[i]]))
  {
    AppendToken(text, labels, tokens, Token(tmp, i - |tmp|, i, LabelAt(labels, i - 1)));
  }

  lemma SplitOk(text: string, labels: map<int, string>, i: nat, tokens: seq<Token>, tmp: string)
    requires i < |text| && ScanOk(text, labels, i, Scan(tokens, tmp))
    ensures ScanOk(text, labels, i + 1, Scan(Flush(tokens, tmp, i, labels), if text[i] == '\\' then "\\" else []))
  {
    FlushOk(text, labels, tokens, tmp, i);
  }

  lemma DecideOk(cls: CharClasses, text: string, labels: map<int, string>, i: nat, tokens: seq<Token>, tmp: string)
    requires i < |text| && ScanOk(text, labels, i, Scan(tokens, tmp))
    ensures ScanOk(text, labels, i + 1, Decide(cls, text, labels, i, tokens, tmp))
  {
    var c := text[i];
    var next := NextChar(text, i);
    if IsSpecial([c]) {
      if (c == '.' || c == ',') && cls.isNumber(tmp) && cls.isNumber(next) {
        NumberSeparatorJoinsBuffer(cls, text, labels, i, tokens, tmp);
        JoinOk(text, labels, i, tokens, tmp, c);
      } else if c == '.' && IsAlpha(cls, next) {
        AbbreviationDotJoinsBuffer(cls, text, labels, i, tokens, tmp);
        JoinOk(text, labels, i, tokens, tmp, c);
      } else {
        SpecialCharIsToken(cls, text, labels, i, tokens, tmp);
        EmitOk(text, labels, i, tokens, tmp);
      }
    } else if IsSpecial(tmp) {
      if tmp == "." && cls.isAlpha(c) {
        DotBufferJoinsLetter(cls, text, labels, i, tokens, tmp);
        JoinOk(text, labels, i, tokens, tmp, c);
      } else {
        SpecialBufferIsToken(cls, text, labels, i, tokens, tmp);
        RestartOk(text, labels, i, tokens, tmp);
      }
    } else if c in SplitChars {
      SplitCharFlushes(cls, text, labels, i, tokens, tmp);
      SplitOk(text, labels, i, tokens, tmp);
    } else {
      OrdinaryCharJoinsBuffer(cls, text, labels, i, tokens, tmp);
      JoinOk(text, labels, i, tokens, tmp, c);
    }
  }

  /** `step` takes a well-formed state after `i` characters to one after `i + 1`. */
  ghost predicate KeepsOk(step: (nat, Scan) -> Scan, text: string, labels: map<int, string>)
  {
    forall i: nat, st: Scan :: i < |text| && ScanOk(text, labels, i, st) ==> ScanOk(text, labels, i + 1, step(i, st))
  }

  lemma {:induction false} FoldOk(step: (nat, Scan) -> Scan, text: string, labels: map<int, string>, k: nat)
    requires k <= |text| && KeepsOk(step, text, labels)
    ensures ScanOk(text, labels, k, Fold(step, k))
  {
    if k > 0 {
      FoldOk(step, text, labels, k - 1);
    }
  }

  lemma StepKeepsOk(cls: CharClasses, strip: string -> string, text: string, labels: map<int, string>)
    requires Shortens(strip)
    ensures KeepsOk(Step(cls, strip, text, labels), text, labels)
  {
    forall i: nat, st: Scan | i < |text| && ScanOk(text, labels, i, st)
      ensures ScanOk(text, labels, i + 1, Step(cls, strip, text, labels)(i, st))
    {
      StepIsDecide(cls, strip, text, labels, i, st);
      DecideOk(cls, text, labels, i, st.tokens, strip(st.pending));
    }
  }

  lemma StripSpacesShortens()
    ensures Shortens(StripSpaces)
  {
  }

  /**
   * Every token is non-empty, its offsets lie in the text with
   * `end - start == len(content)`, its label is `index_to_label.get(end - 1)`,
   * and the tokens come in text order without overlapping; this holds for
   * any strip that never lengthens the buffer, `StripSpaces` among them.
   */
  lemma TokensWellFormed(cls: CharClasses, strip: string -> string, text: string, labels: map<int, string>)
    requires Shortens(strip)
    ensures WellFormed(text, labels, TokensWith(cls, strip, text, labels))
  {
    var st := Run(cls, strip, text, labels, |text|);
    StepKeepsOk(cls, strip, text, labels);
    FoldOk(Step(cls, strip, text, labels), text, labels, |text|);
    FlushOk(text, labels, st.tokens, st.pending, |text|);
  }

  /** An empty text has no tokens. */
  lemma EmptyText(cls: CharClasses, labels: map<int, string>)
    ensures Tokens(cls, [], labels) == []
  {
  }

  // ------------------------------------------------------------------ tokens once emitted stay

  /** One iteration never removes or changes a token already emitted. */
  lemma DecideGrows(cls: CharClasses, text: string, labels: map<int, string>, i: nat, tokens: seq<Token>, tmp: string)
    requires i < |text|
    ensures tokens <= Decide(cls, text, labels, i, tokens, tmp).tokens
  {
  }

  /** `step` never removes or changes a token already emitted. */
  ghost predicate KeepsTokens(step: (nat, Scan) -> Scan)
  {
    forall i: nat, st: Scan :: st.tokens <= step(i, st).tokens
  }

  lemma {:induction false} FoldGrows(step: (nat, Scan) -> Scan, j: nat, k: nat)
    requires j <= k && KeepsTokens(step)
    ensures Fold(step, j).tokens <= Fold(step, k).tokens
    decreases k - j
  {
    if j < k {
      FoldGrows(step, j, k - 1);
    }
  }

  lemma StepKeepsTokens(cls: CharClasses, strip: string -> string, text: string, labels: map<int, string>)
    ensures KeepsTokens(Step(cls, strip, text, labels))
  {
    forall i: nat, st: Scan
      ensures st.tokens <= Step(cls, strip, text, labels)(i, st).tokens
    {
      if i < |text| {
        StepIsDecide(cls, strip, text, labels, i, st);
        DecideGrows(cls, text, labels, i, st.tokens, strip(st.pending));
      }
    }
  }

  /** The tokens after `j` characters are a prefix of those after `k >= j`. */
  lemma RunGrows(cls: CharClasses, strip: string -> string, text: string, labels: map<int, string>, j: nat, k: nat)
    requires j <= k
    ensures Run(cls, strip, text, labels, j).tokens <= Run(cls, strip, text, labels, k).tokens
  {
    StepKeepsTokens(cls, strip, text, labels);
    FoldGrows(Step(cls, strip, text, labels), j, k);
  }

  /**
   * Each `\n` or `\t` is a special character, tested before the split
   * characters, so it becomes a one-character token at `(i, i + 1)`.
   */
  lemma NewlineAndTabAreTokens(cls: CharClasses, strip: string -> string, text: string, labels: map<int, string>, i: nat)
    requires i < |text| && (text[i] == '\n' || text[i] == '\t')
    ensures Token([text[i]], i, i + 1, LabelAt(labels, i)) in TokensWith(cls, strip, text, labels)
  {
    var before := Run(cls, strip, text, labels, i);
    var st := Run(cls, strip, text, labels, i + 1);
    var t := Token([text[i]], i, i + 1, LabelAt(labels, i));
    assert IsSpecial([text[i]]);
    StepIsDecide(cls, strip, text, labels, i, before);
    SpecialCharIsToken(cls, text, labels, i, before.tokens, strip(before.pending));
    assert st.tokens[|st.tokens| - 1] == t;
    RunGrows(cls, strip, text, labels, i + 1, |text|);
    var final := Run(cls, strip, text, labels, |text|);
    assert final.tokens[|st.tokens| - 1] == t;
    assert final.tokens <= TokensWith(cls, strip, text, labels);
  }

  // ------------------------------------------------------------------ tokens are slices of the text

  /** No space at either end. */
  predicate Clean(s: string)
  {
    s == [] || (s[0] != ' ' && s[|s| - 1] != ' ')
  }

  lemma StripSpacesClean(s: string)
    requires Clean(s) || s == " "
    ensures StripSpaces(s) == (if s == " " then [] else s)
  {
  }

  /** The token's content is the text between its offsets. */
  ghost predicate Spans(text: string, t: Token)
  {
    0 <= t.start <= t.end <= |text| && t.content == text[t.start..t.end]
  }

  /**
   * After `k` characters (when `str.isalpha` rejects the space, as Python's
   * does): the buffer is the text just before `k`, with no space at its ends
   * unless it is a single space, and every token spans its own content and
   * has no space at its ends.
   */
  ghost predicate ScanSpans(text: string, k: nat, st: Scan)
  {
    && k <= |text|
    && |st.pending| <= k
    && st.pending == text[k - |st.pending|..k]
    && (Clean(st.pending) || st.pending == " ")
    && forall j :: 0 <= j < |st.tokens| ==> Spans(text, st.tokens[j]) && Clean(st.tokens[j].content)
  }

  lemma AppendSpan(text: string, tokens: seq<Token>, t: Token)
    requires forall j :: 0 <= j < |tokens| ==> Spans(text, tokens[j]) && Clean(tokens[j].content)
    requires Spans(text, t) && Clean(t.content)
    ensures forall j :: 0 <= j < |tokens + [t]| ==> Spans(text, (tokens + [t])[j]) && Clean((tokens + [t])[j].content)
  {
  }

  /** The buffer grows by the current character, which is not a space. */
  lemma JoinSpans(text: string, i: nat, tokens: seq<Token>, tmp: string)
    requires i < |text| && text[i] != ' '
    requires ScanSpans(text, i, Scan(tokens, tmp)) && Clean(tmp)
    ensures ScanSpans(text, i + 1, Scan(tokens, tmp + [text[i]]))
  {
    assert text[i + 1 - |tmp| - 1..i + 1] == tmp + [text[i]];
  }

  /** The buffer, then the current character, become tokens. */
  lemma EmitSpans(text: string, labels: map<int, string>, i: nat, tokens: seq<Token>, tmp: string)
    requires i < |text| && text[i] != ' '
    requires ScanSpans(text, i, Scan(tokens, tmp)) && Clean(tmp)
    ensures ScanSpans(text, i + 1, Scan(Flush(tokens, tmp, i, labels) + [Token([text[i]], i, i + 1, LabelAt(labels, i))], []))
  {
    if tmp != [] {
      AppendSpan(text, tokens, Token(tmp, i - |tmp|, i, LabelAt(labels, i - 1)));
    }
    assert text[i..i + 1] == [text[i]];
    AppendSpan(text, Flush(tokens, tmp, i, labels), Token([text[i]], i, i + 1, LabelAt(labels, i)));
  }

  /** The non-empty buffer becomes a token and the current character starts the next buffer. */
  lemma RestartSpans(text: string, labels: map<int, string>, i: nat, tokens: seq<Token>, tmp: string)
    requires i < |text| && tmp != []
    requires ScanSpans(text, i, Scan(tokens, tmp)) && Clean(tmp)
    ensures ScanSpans(text, i + 1, Scan(tokens + [Token(tmp, i - |tmp|, i, LabelAt(labels, i - 1))], [text[i]]))
  {
    AppendSpan(text, tokens, Token(tmp, i - |tmp|, i, LabelAt(labels, i - 1)));
    assert text[i..i + 1] == [text[i]];
  }

  /** The buffer is flushed and the next buffer is empty or the backslash. */
  lemma SplitSpans(text: string, labels: map<int, string>, i: nat, tokens: seq<Token>, tmp: string)
    requires i < |text|
    requires ScanSpans(text, i, Scan(tokens, tmp)) && Clean(tmp)
    ensures ScanSpans(text, i + 1, Scan(Flush(tokens, tmp, i, labels), if text[i] == '\\' then "\\" else []))
  {
    if tmp != [] {
      AppendSpan(text, tokens, Token(tmp, i - |tmp|, i, LabelAt(labels, i - 1)));
    }
    assert text[i..i + 1] == [text[i]];
  }

  lemma DecideSpans(cls: CharClasses, text: string, labels: map<int, string>, i: nat, tokens: seq<Token>, tmp: string)
    requires i < |text| && !cls.isAlpha(' ')
    requires ScanSpans(text, i, Scan(tokens, tmp)) && Clean(tmp)
    ensures ScanSpans(text, i + 1, Decide(cls, text, labels, i, tokens, tmp))
  {
    var c := text[i];
    var next := NextChar(text, i);
    if IsSpecial([c]) {
      assert c != ' ';
      if (c == '.' || c == ',') && cls.isNumber(tmp) && cls.isNumber(next) {
        NumberSeparatorJoinsBuffer(cls, text, labels, i, tokens, tmp);
        JoinSpans(text, i, tokens, tmp);
      } else if c == '.' && IsAlpha(cls, next) {
        AbbreviationDotJoinsBuffer(cls, text, labels, i, tokens, tmp);
        JoinSpans(text, i, tokens, tmp);
      } else {
        SpecialCharIsToken(cls, text, labels, i, tokens, tmp);
        EmitSpans(text, labels, i, tokens, tmp);
      }
    } else if IsSpecial(tmp) {
      if tmp == "." && cls.isAlpha(c) {
        DotBufferJoinsLetter(cls, text, labels, i, tokens, tmp);
        JoinSpans(text, i, tokens, tmp);
      } else {
        SpecialBufferIsToken(cls, text, labels, i, tokens, tmp);
        RestartSpans(text, labels, i, tokens, tmp);
      }
    } else if c in SplitChars {
      SplitCharFlushes(cls, text, labels, i, tokens, tmp);
      SplitSpans(text, labels, i, tokens, tmp);
    } else {
      OrdinaryCharJoinsBuffer(cls, text, labels, i, tokens, tmp);
      JoinSpans(text, i, tokens, tmp);
    }
  }

  ghost predicate KeepsSpans(step: (nat, Scan) -> Scan, text: string)
  {
    forall i: nat, st: Scan :: i < |text| && ScanSpans(text, i, st) ==> ScanSpans(text, i + 1, step(i, st))
  }

  lemma {:induction false} FoldSpans(step: (nat, Scan) -> Scan, text: string, k: nat)
    requires k <= |text| && KeepsSpans(step, text)
    ensures ScanSpans(text, k, Fold(step, k))
  {
    if k > 0 {
      FoldSpans(step, text, k - 1);
    }
  }

  lemma StepKeepsSpans(cls: CharClasses, text: string, labels: map<int, string>)
    requires !cls.isAlpha(' ')
    ensures KeepsSpans(Step(cls, StripSpaces, text, labels), text)
  {
    forall i: nat, st: Scan | i < |text| && ScanSpans(text, i, st)
      ensures ScanSpans(text, i + 1, Step(cls, StripSpaces, text, labels)(i, st))
    {
      StepIsDecide(cls, StripSpaces, text, labels, i, st);
      StripSpacesClean(st.pending);
      var tmp := StripSpaces(st.pending);
      assert ScanSpans(text, i, Scan(st.tokens, tmp));
      DecideSpans(cls, text, labels, i, st.tokens, tmp);
    }
  }

  /**
   * Each token's content is the text between its offsets, with no space at
   * either end, except that the last token may be a single space (see
   * `TrailingSpaceToken`).
   */
  lemma TokensSpanText(cls: CharClasses, text: string, labels: map<int, string>)
    requires !cls.isAlpha(' ')
    ensures var r := Tokens(cls, text, labels);
      forall j :: 0 <= j < |r| ==>
        && Spans(text, r[j])
        && (Clean(r[j].content) || (j == |r| - 1 && r[j].content == " "))
  {
    StepKeepsSpans(cls, text, labels);
    FoldSpans(Step(cls, StripSpaces, text, labels), text, |text|);
  }

  lemma AScan(cls: CharClasses, labels: map<int, string>)
    ensures Run(cls, StripSpaces, "am ", labels, 1) == Scan([], "a")
  {
    StepIsDecide(cls, StripSpaces, "am ", labels, 0, Scan([], []));
    OrdinaryCharJoinsBuffer(cls, "am ", labels, 0, [], []);
    assert [] + ['a'] == "a";
  }

  /** The first two characters of `"am "` accumulate in the buffer. */
  lemma AmScan(cls: CharClasses, labels: map<int, string>)
    ensures Run(cls, StripSpaces, "am ", labels, 2) == Scan([], "am")
  {
    AScan(cls, labels);
    StepIsDecide(cls, StripSpaces, "am ", labels, 1, Scan([], "a"));
    StripSpacesClean("a");
    OrdinaryCharJoinsBuffer(cls, "am ", labels, 1, [], "a");
    assert "a" + ['m'] == "am";
  }

  /**
   * The final flush can emit a lone space: after the special token `am`, the
   * space that follows becomes the buffer and is never stripped again.
   */
  lemma TrailingSpaceToken(cls: CharClasses, labels: map<int, string>)
    ensures Tokens(cls, "am ", labels) == [Token("am", 0, 2, LabelAt(labels, 1)), Token(" ", 2, 3, LabelAt(labels, 2))]
  {
    AmScan(cls, labels);
    StepIsDecide(cls, StripSpaces, "am ", labels, 2, Scan([], "am"));
    StripSpacesClean("am");
    SpecialBufferIsToken(cls, "am ", labels, 2, [], "am");
  }

  // ------------------------------------------------------------------ two worked examples

  lemma UsScan2(cls: CharClasses, labels: map<int, string>)
    requires cls.isAlpha('S')
    ensures Run(cls, StripSpaces, "U.S.", labels, 2) == Scan([], "U.")
  {
    StepIsDecide(cls, StripSpaces, "U.S.", labels, 0, Scan([], []));
    OrdinaryCharJoinsBuffer(cls, "U.S.", labels, 0, [], []);
    assert [] + ['U'] == "U";
    StepIsDecide(cls, StripSpaces, "U.S.", labels, 1, Scan([], "U"));
    StripSpacesClean("U");
    if cls.isNumber("U") && cls.isNumber("S") {
      NumberSeparatorJoinsBuffer(cls, "U.S.", labels, 1, [], "U");
    } else {
      AbbreviationDotJoinsBuffer(cls, "U.S.", labels, 1, [], "U");
    }
    assert "U" + ['.'] == "U.";
  }

  /**
   * The abbreviation dot stays inside `U.S`; the final dot, with nothing
   * after it, is a token of its own.
   */
  lemma AbbreviationExample(cls: CharClasses, labels: map<int, string>)
    requires cls.isAlpha('S') && !cls.isNumber("")
    ensures Tokens(cls, "U.S.", labels) == [Token("U.S", 0, 3, LabelAt(labels, 2)), Token(".", 3, 4, LabelAt(labels, 3))]
  {
    UsScan2(cls, labels);
    StepIsDecide(cls, StripSpaces, "U.S.", labels, 2, Scan([], "U."));
    StripSpacesClean("U.");
    OrdinaryCharJoinsBuffer(cls, "U.S.", labels, 2, [], "U.");
    assert "U." + ['S'] == "U.S";
    StepIsDecide(cls, StripSpaces, "U.S.", labels, 3, Scan([], "U.S"));
    StripSpacesClean("U.S");
    SpecialCharIsToken(cls, "U.S.", labels, 3, [], "U.S");
  }

  lemma DecimalScan2(cls: CharClasses, labels: map<int, string>)
    requires cls.isNumber("3") && cls.isNumber("5")
    ensures Run(cls, StripSpaces, "3.5%", labels, 2) == Scan([], "3.")
  {
    StepIsDecide(cls, StripSpaces, "3.5%", labels, 0, Scan([], []));
    OrdinaryCharJoinsBuffer(cls, "3.5%", labels, 0, [], []);
    assert [] + ['3'] == "3";
    StepIsDecide(cls, StripSpaces, "3.5%", labels, 1, Scan([], "3"));
    StripSpacesClean("3");
    NumberSeparatorJoinsBuffer(cls, "3.5%", labels, 1, [], "3");
    assert "3" + ['.'] == "3.";
  }

  /** The decimal point stays inside `3.5`; `%` is a token of its own. */
  lemma DecimalExample(cls: CharClasses, labels: map<int, string>)
    requires cls.isNumber("3") && cls.isNumber("5")
    ensures Tokens(cls, "3.5%", labels) == [Token("3.5", 0, 3, LabelAt(labels, 2)), Token("%", 3, 4, LabelAt(labels, 3))]
  {
    DecimalScan2(cls, labels);
    StepIsDecide(cls, StripSpaces, "3.5%", labels, 2, Scan([], "3."));
    StripSpacesClean("3.");
    OrdinaryCharJoinsBuffer(cls, "3.5%", labels, 2, [], "3.");
    assert "3." + ['5'] == "3.5";
    StepIsDecide(cls, StripSpaces, "3.5%", labels, 3, Scan([], "3.5"));
    StripSpacesClean("3.5");
    SpecialCharIsToken(cls, "3.5%", labels, 3, [], "3.5");
  }

  // ------------------------------------------------------------------ the strip

  lemma {:induction false} StripLeadingSpaces(s: string, k: nat)
    requires k <= |s|
    ensures StripLeading(s[k..], {' '}) == s[SpacesEnd(s, k)..]
    decreases |s| - k
  {
    if k < |s| && s[k] == ' ' {
      assert s[k..][1..] == s[k + 1..];
      StripLeadingSpaces(s, k + 1);
    }
  }

  lemma {:induction false} StripTrailingSpaces(s: string, lo: nat, k: nat)
    requires lo <= k <= |s|
    ensures StripTrailing(s[lo..k], {' '}) == s[lo..SpacesStart(s, lo, k)]
  {
    if k > lo && s[k - 1] == ' ' {
      assert s[lo..k][..k - lo - 1] == s[lo..k - 1];
      StripTrailingSpaces(s, lo, k - 1);
    }
  }

  /** `StripSpaces` is Python's `s.strip(' ')`. */
  lemma StripSpacesIsStrip(s: string)
    ensures StripSpaces(s) == Strip(s, {' '})
  {
    StripLeadingSpaces(s, 0);
    assert s[0..] == s;
    var lo := SpacesEnd(s, 0);
    StripTrailingSpaces(s, lo, |s|);
    assert s[lo..] == s[lo..|s|];
  }
}
