/**
 * text_helpers.py: `chunk_text` (cut a text into chunks of about a given
 * UTF-8 byte size), `generate_ngrams` and the regex-based word `tokenize`.
 */
module TextHelpers {
  import opened Wrappers
  import opened PyBuiltins
  import opened CommonHelpers

  // ---------------------------------------------------------------- chunk_text

  /** The first guess: `int(byte_size / 5)` characters. */
  function InitialChunkSize(byteSize: int): int
  {
    TruncDiv5(byteSize)
  }

  /** The search step: `min(int(chunk_size / 5) or 1, granularity)`. */
  function SearchStep(byteSize: int, granularity: int): (step: int)
    ensures byteSize >= 0 && granularity >= 1 ==> 1 <= step <= granularity
  {
    var fifth := TruncDiv5(InitialChunkSize(byteSize));
    Min(if fifth == 0 then 1 else fifth, granularity)
  }

  /** The search loop stops once the prefix encodes to at least `byteSize` bytes or covers the text. */
  predicate SearchDone(text: string, byteSize: int, chunkSize: int)
  {
    !(Utf8Length(Prefix(text, chunkSize)) < byteSize && chunkSize < |text|)
  }

  /** The search loop of `chunk_text`, started at `chunkSize`. */
  function SearchChunkSize(text: string, byteSize: int, step: int, chunkSize: int): int
    requires byteSize > 0 ==> step >= 1
    decreases |text| - chunkSize
  {
    if SearchDone(text, byteSize, chunkSize) then chunkSize
    else SearchChunkSize(text, byteSize, step, chunkSize + step)
  }

  /** The chunk size `chunk_text` settles on. */
  function ChunkSize(text: string, byteSize: int, granularity: int): int
    requires granularity >= 1
  {
    SearchChunkSize(text, byteSize, SearchStep(byteSize, granularity), InitialChunkSize(byteSize))
  }

  /**
   * The search stops at the first candidate that is done: never below the
   * start, done there, and, when it moved at all, not done one step earlier.
   */
  lemma {:induction false} SearchChunkSizeFirst(text: string, byteSize: int, step: int, start: int)
    requires byteSize > 0 ==> step >= 1
    ensures var size := SearchChunkSize(text, byteSize, step, start);
      && size >= start
      && SearchDone(text, byteSize, size)
      && (size > start ==> (step >= 1 && size - step >= start && !SearchDone(text, byteSize, size - step)))
    decreases |text| - start
  {
    if !SearchDone(text, byteSize, start) {
      SearchChunkSizeFirst(text, byteSize, step, start + step);
    }
  }

  /**
   * The chunk size never drops below `int(byte_size / 5)`, and the prefix it
   * selects reaches `byte_size` UTF-8 bytes unless it already spans the text.
   */
  lemma ChunkSizeBounds(text: string, byteSize: int, granularity: int)
    requires granularity >= 1
    ensures var size := ChunkSize(text, byteSize, granularity);
      && size >= TruncDiv5(byteSize)
      && (Utf8Length(Prefix(text, size)) >= byteSize || size >= |text|)
  {
    SearchChunkSizeFirst(text, byteSize, SearchStep(byteSize, granularity), InitialChunkSize(byteSize));
  }

  /**
   * The chunk size is zero, and so the slicing `range` raises, exactly when
   * `-5 < byte_size <= 0`, or when `0 < byte_size < 5` and the text is empty.
   */
  lemma ChunkSizeZero(text: string, byteSize: int, granularity: int)
    requires granularity >= 1
    ensures ChunkSize(text, byteSize, granularity) == 0
            <==> (-5 < byteSize <= 0 || (0 < byteSize < 5 && text == []))
  {
    var step, start := SearchStep(byteSize, granularity), InitialChunkSize(byteSize);
    SearchChunkSizeFirst(text, byteSize, step, start);
    if 0 < byteSize < 5 && text != [] {
      assert Prefix(text, 0) == [];
      assert !SearchDone(text, byteSize, 0);
    }
  }

  /** The first half of `chunk_text`: grow the chunk size until the prefix is big enough. */
  method DetermineChunkSize(text: string, byteSize: int, granularity: int) returns (chunkSize: int)
    requires granularity >= 1
    ensures chunkSize == ChunkSize(text, byteSize, granularity)
  {
    chunkSize := InitialChunkSize(byteSize);
    var step := SearchStep(byteSize, granularity);
    var tmpText := Prefix(text, chunkSize);
    var txtLen := |text|;
    while Utf8Length(tmpText) < byteSize && chunkSize < txtLen
      invariant byteSize > 0 ==> step >= 1
      invariant tmpText == Prefix(text, chunkSize)
      invariant SearchChunkSize(text, byteSize, step, chunkSize) == ChunkSize(text, byteSize, granularity)
      decreases txtLen - chunkSize
    {
      assert !SearchDone(text, byteSize, chunkSize);
      chunkSize := chunkSize + step;
      tmpText := Prefix(text, chunkSize);
    }
  }

  /**
   * `chunk_text(text, byte_size, granularity)`: search for the chunk size,
   * then slice the text by it.
   */
  method ChunkText(text: string, byteSize: int, granularity: int) returns (r: Result<seq<string>, RangeError>)
    requires granularity >= 1
    ensures var size := ChunkSize(text, byteSize, granularity);
      && (r.Failure? <==> size == 0)
      && (size < 0 ==> r == Success([]))
      && (size > 0 ==> r == Success(Chunks(text, size)))
    ensures r.Failure? <==> (-5 < byteSize <= 0 || (0 < byteSize < 5 && text == []))
    ensures r.Success? && text != [] && byteSize > 0 ==> Flatten(r.value) == text
  {
    var chunkSize := DetermineChunkSize(text, byteSize, granularity);
    var txtLen := |text|;
    ChunkSizeZero(text, byteSize, granularity);
    if chunkSize == 0 {
      return Failure(ZeroStep);
    }
    var chunks: seq<string> := [];
    if chunkSize > 0 {
      var i := 0;
      while i < txtLen
        invariant 0 <= i
        invariant i <= txtLen ==> chunks + Chunks(text[i..], chunkSize) == Chunks(text, chunkSize)
        invariant i > txtLen ==> chunks == Chunks(text, chunkSize)
        decreases txtLen - i
      {
        ChunksStep(text, i, chunkSize);
        chunks := chunks + [Slice(text, i, i + chunkSize)];
        i := i + chunkSize;
      }
      if i == txtLen {
        assert text[i..] == [];
        assert chunks + Chunks(text[i..], chunkSize) == chunks;
      }
      ChunksFlatten(text, chunkSize);
    } else {
      ChunkSizeBounds(text, byteSize, granularity);
    }
    return Success(chunks);
  }

  // ----------------------------------------------------------- generate_ngrams

  /** The inner loop of `generate_ngrams` for one `n`: `items[idx:idx + n]` for each start. */
  function Grams<T>(items: seq<T>, n: int): (r: seq<seq<T>>)
    ensures |r| == Max(0, |items| - n + 1)
  {
    seq(Max(0, |items| - n + 1), idx => Slice(items, idx, idx + n))
  }

  /** `generate_ngrams(items, lo, hi)`: the grams of each length from `lo` to `hi`, ascending. */
  function NGrams<T>(items: seq<T>, lo: int, hi: int): seq<seq<T>>
    decreases hi - lo
  {
    if lo > hi then [] else Grams(items, lo) + NGrams(items, lo + 1, hi)
  }

  /** Σ over n in [lo, hi] of max(0, len − n + 1). */
  function GramCount(len: nat, lo: int, hi: int): nat
    decreases hi - lo
  {
    if lo > hi then 0 else Max(0, len - lo + 1) + GramCount(len, lo + 1, hi)
  }

  /** `generate_ngrams` returns Σₙ max(0, len(items) − n + 1) slices, none when `lo > hi`. */
  lemma {:induction false} NGramsCount<T>(items: seq<T>, lo: int, hi: int)
    ensures |NGrams(items, lo, hi)| == GramCount(|items|, lo, hi)
    ensures lo > hi ==> NGrams(items, lo, hi) == []
    decreases hi - lo
  {
    if lo <= hi {
      NGramsCount(items, lo + 1, hi);
    }
  }

  /** The `len` elements of `items` starting at `i`. */
  function Window<T>(items: seq<T>, i: nat, len: nat): seq<T>
    requires i + len <= |items|
  {
    items[i..i + len]
  }

  /** `g` is a contiguous run of `items`. */
  ghost predicate IsSliceOf<T>(g: seq<T>, items: seq<T>)
  {
    exists i: nat :: i + |g| <= |items| && Window(items, i, |g|) == g
  }

  /** For a non-negative `n`, the grams of length `n` are the contiguous slices of that length, by start index. */
  lemma GramsAreSlices<T>(items: seq<T>, n: nat, idx: nat)
    requires idx + n <= |items|
    ensures idx < |Grams(items, n)| && Grams(items, n)[idx] == items[idx..idx + n]
  {
    assert Grams(items, n)[idx] == Slice(items, idx, idx + n);
  }

  /** For `n >= 0`, a sequence is a gram of length `n` exactly when it is a contiguous slice of `items` of that length. */
  lemma GramsAreExactlySlices<T>(items: seq<T>, n: nat, g: seq<T>)
    ensures g in Grams(items, n) <==> |g| == n && IsSliceOf(g, items)
  {
    var grams := Grams(items, n);
    if g in grams {
      var idx :| 0 <= idx < |grams| && grams[idx] == g;
      GramsAreSlices(items, n, idx);
      assert Window(items, idx, n) == g;
    }
    if |g| == n && IsSliceOf(g, items) {
      var idx: nat :| idx + |g| <= |items| && Window(items, idx, |g|) == g;
      GramsAreSlices(items, n, idx);
      assert grams[idx] == g;
    }
  }

  /**
   * For `lo >= 0`, a sequence is among the n-grams exactly when it is a
   * contiguous slice of `items` whose length lies in `[lo, hi]`.
   */
  lemma {:induction false} NGramsAreExactlySlices<T>(items: seq<T>, lo: nat, hi: int, g: seq<T>)
    ensures g in NGrams(items, lo, hi) <==> lo <= |g| <= hi && IsSliceOf(g, items)
    decreases hi - lo
  {
    if lo <= hi {
      NGramsAreExactlySlices(items, lo + 1, hi, g);
      NGramsFirst(items, lo, hi);
      GramsAreExactlySlices(items, lo, g);
    }
  }

  lemma GramsPrefixStep<T>(items: seq<T>, n: int, idx: nat)
    requires idx < |Grams(items, n)|
    ensures Grams(items, n)[..idx + 1] == Grams(items, n)[..idx] + [Slice(items, idx, idx + n)]
  {
    assert Grams(items, n)[idx] == Slice(items, idx, idx + n);
  }

  lemma NGramsFirst<T>(items: seq<T>, lo: int, hi: int)
    requires lo <= hi
    ensures NGrams(items, lo, hi) == Grams(items, lo) + NGrams(items, lo + 1, hi)
  {
  }

  /** The inner loop of `generate_ngrams`: append every gram of length `n`, by start index. */
  method AppendGrams<T>(items: seq<T>, n: int, result: seq<seq<T>>) returns (result': seq<seq<T>>)
    ensures result' == result + Grams(items, n)
  {
    result' := result;
    ghost var grams := Grams(items, n);
    var idx := 0;
    while idx < |items| - n + 1
      invariant 0 <= idx <= |grams|
      invariant result' == result + grams[..idx]
    {
      GramsPrefixStep(items, n, idx);
      result' := result' + [Slice(items, idx, idx + n)];
      idx := idx + 1;
    }
    assert grams[..idx] == grams;
  }

  /** `generate_ngrams(items, min_gram, max_gram)`: two nested loops appending slices. */
  method GenerateNgrams<T>(items: seq<T>, minGram: int, maxGram: int) returns (result: seq<seq<T>>)
    ensures result == NGrams(items, minGram, maxGram)
    ensures |result| == GramCount(|items|, minGram, maxGram)
  {
    result := [];
    var ngram := minGram;
    while ngram <= maxGram
      invariant ngram <= maxGram + 1 || ngram == minGram
      invariant result + NGrams(items, ngram, maxGram) == NGrams(items, minGram, maxGram)
      decreases maxGram - ngram
    {
      NGramsFirst(items, ngram, maxGram);
      ghost var before := result;
      ghost var rest := NGrams(items, ngram + 1, maxGram);
      result := AppendGrams(items, ngram, result);
      AppendAssoc(before, Grams(items, ngram), rest);
      ngram := ngram + 1;
    }
    NGramsCount(items, minGram, maxGram);
  }

  // ------------------------------------------------------------------ tokenize

  /** Python's `s.split(' ')`: the fields between single spaces, empty ones included. */
  function SplitSpace(s: string): (fields: seq<string>)
    ensures |fields| >= 1
    decreases |s|
  {
    if s == [] then [[]]
    else
      var rest := SplitSpace(s[1..]);
      if s[0] == ' ' then [[]] + rest else [[s[0]] + rest[0]] + rest[1..]
  }

  /** `' '.join(fields)`. */
  function JoinSpace(fields: seq<string>): string
    requires |fields| >= 1
    decreases |fields|
  {
    if |fields| == 1 then fields[0] else fields[0] + [' '] + JoinSpace(fields[1..])
  }

  /** Splitting on spaces and joining with spaces gives the text back; no field holds a space. */
  lemma {:induction false} SplitSpaceJoin(s: string)
    ensures JoinSpace(SplitSpace(s)) == s
    ensures forall f :: f in SplitSpace(s) ==> ' ' !in f
    decreases |s|
  {
    if s != [] {
      SplitSpaceJoin(s[1..]);
      var rest := SplitSpace(s[1..]);
      if s[0] != ' ' {
        var fields := SplitSpace(s);
        assert fields[1..] == rest[1..];
        if |rest| > 1 {
          assert JoinSpace(rest) == rest[0] + [' '] + JoinSpace(rest[1..]);
        }
        forall f | f in fields ensures ' ' !in f {
          if f != fields[0] {
            assert f in rest;
          }
        }
      } else {
        assert SplitSpace(s)[1..] == rest;
      }
    }
  }

  /** Splitting `a + ' ' + b` gives the fields of `a` followed by those of `b`. */
  lemma {:induction false} SplitSpaceAppend(a: string, b: string)
    ensures SplitSpace(a + [' '] + b) == SplitSpace(a) + SplitSpace(b)
    decreases |a|
  {
    if a == [] {
      assert a + [' '] + b == [' '] + b;
      assert ([' '] + b)[1..] == b;
    } else {
      assert (a + [' '] + b)[1..] == a[1..] + [' '] + b;
      SplitSpaceAppend(a[1..], b);
    }
  }

  /** Python's `re.sub(r'\W+', '', s)`, with "word character" given by `isWord`. */
  function RemoveNonWord(isWord: char -> bool, s: string): (r: string)
    ensures forall c :: c in r ==> isWord(c)
  {
    if s == [] then [] else
      (if isWord(s[0]) then [s[0]] else []) + RemoveNonWord(isWord, s[1..])
  }

  /** A single character survives exactly when it is a word character. */
  lemma RemoveNonWordOne(isWord: char -> bool, c: char)
    ensures RemoveNonWord(isWord, [c]) == if isWord(c) then [c] else []
  {
    assert [c][1..] == [];
  }

  /** The substitution works character by character: it distributes over concatenation, so every word character is kept, in order. */
  lemma {:induction false} RemoveNonWordAppend(isWord: char -> bool, a: string, b: string)
    ensures RemoveNonWord(isWord, a + b) == RemoveNonWord(isWord, a) + RemoveNonWord(isWord, b)
    decreases |a|
  {
    if a == [] {
      assert a + b == b;
    } else {
      assert (a + b)[0] == a[0];
      assert (a + b)[1..] == a[1..] + b;
      RemoveNonWordAppend(isWord, a[1..], b);
    }
  }

  /** `re.sub(r'\W+', '', t.strip()).strip()` for one field. */
  function CleanField(isWord: char -> bool, field: string): (r: string)
    ensures forall c :: c in r ==> isWord(c)
  {
    Strip(RemoveNonWord(isWord, Strip(field, Whitespace)), Whitespace)
  }

  /** The comprehension's filter `if t and t.strip()`. */
  predicate Kept(t: string)
  {
    t != [] && Strip(t, Whitespace) != []
  }

  /** What one field contributes: its cleaned form, or nothing when that is blank. */
  function FieldToken(isWord: char -> bool, field: string): (r: seq<string>)
    ensures |r| <= 1
  {
    var t := CleanField(isWord, field);
    if Kept(t) then [t] else []
  }

  /** A field's token is non-empty and made of word characters. */
  lemma FieldTokenWords(isWord: char -> bool, field: string, t: string)
    requires t in FieldToken(isWord, field)
    ensures t != [] && forall c :: c in t ==> isWord(c)
  {
    var u := CleanField(isWord, field);
    assert Kept(u) && t == u;
  }

  /**
   * `tokenize(text)`: the comprehension over the fields of `text.split(' ')`.
   * Each field gives at most one token, so there are no more tokens than fields.
   */
  function Tokenize(isWord: char -> bool, text: string): (r: seq<string>)
    ensures |r| <= |SplitSpace(text)|
  {
    var f := field => FieldToken(isWord, field);
    assert forall x :: x in SplitSpace(text) ==> |f(x)| <= 1;
    FlatMapBounds(f, SplitSpace(text), 1);
    FlatMap(f, SplitSpace(text))
  }

  /** `tokenize` returns only non-empty tokens made of word characters. */
  lemma TokenizeWords(isWord: char -> bool, text: string)
    ensures forall t :: t in Tokenize(isWord, text) ==> t != [] && forall c :: c in t ==> isWord(c)
  {
    var f := field => FieldToken(isWord, field);
    forall t | t in Tokenize(isWord, text)
      ensures t != [] && forall c :: c in t ==> isWord(c)
    {
      var field := FlatMapMember(f, SplitSpace(text), t);
      FieldTokenWords(isWord, field, t);
    }
  }

  /** Tokens come field by field in text order: tokenizing `a + ' ' + b` is tokenizing `a`, then `b`. */
  lemma TokenizeAppend(isWord: char -> bool, a: string, b: string)
    ensures Tokenize(isWord, a + [' '] + b) == Tokenize(isWord, a) + Tokenize(isWord, b)
  {
    SplitSpaceAppend(a, b);
    FlatMapAppend(field => FieldToken(isWord, field), SplitSpace(a), SplitSpace(b));
  }

  /** A text without spaces is one field: one token, its cleaned form, unless that is empty. */
  lemma TokenizeOneField(isWord: char -> bool, field: string)
    requires ' ' !in field
    ensures var t := CleanField(isWord, field);
      Tokenize(isWord, field) == if t != [] then [t] else []
  {
    SingleField(field);
    var f := fld => FieldToken(isWord, fld);
    assert FlatMap(f, [field]) == f(field) + FlatMap(f, []);
    CleanFieldKept(isWord, field);
  }

  /** A cleaned field is already stripped, so the filter keeps it exactly when it is non-empty. */
  lemma CleanFieldKept(isWord: char -> bool, field: string)
    ensures var t := CleanField(isWord, field);
      FieldToken(isWord, field) == if t != [] then [t] else []
  {
    StripIdempotent(RemoveNonWord(isWord, Strip(field, Whitespace)), Whitespace);
  }

  lemma {:induction false} SingleField(s: string)
    requires ' ' !in s
    ensures SplitSpace(s) == [s]
    decreases |s|
  {
    if s != [] {
      assert ' ' !in s[1..] by {
        forall k | 0 <= k < |s[1..]| ensures s[1..][k] != ' ' {
          assert s[1..][k] == s[k + 1];
        }
      }
      SingleField(s[1..]);
      assert [s[0]] + s[1..] == s;
    }
  }
}
