# redis-minhash-es text pipeline and stream clustering, in Dafny

This project models the core of redis-minhash-es. That core is the text pipeline that turns raw article
text into labelled, offset-carrying tokens and then into sentences. It also covers the online grouping
step, which assigns each incoming document to a group of near-duplicates through two key-value
relations, `hash2doc` and `doc2sim`, kept in Redis. Finally, it covers the small list and string helpers
the pipeline uses.

| Dafny module | file | models |
|---|---|---|
| `Wrappers` | wrappers.dfy | `Option` / `Result` |
| `PyBuiltins` | builtins.dfy | the Python built-ins the core relies on: slicing, `int(x / 5)`, `str.strip`, UTF-8 length |
| `CommonHelpers` | common_helpers.dfy | `chunk_list` |
| `TextHelpers` | text_helpers.dfy | `chunk_text`, `generate_ngrams`, the regex `tokenize` |
| `Tokenizer` | tokenizer.dfy | `Tokenizer.tokenize` and its character sets, `next_char`, `pre_char` |
| `SentenceSplitter` | sentence_splitter.dfy | `split`, `split_texts` |
| `Preprocessor` | preprocessor.dfy | `PreprocessorIF.process`, `SimplePreprocessor.process` |
| `StreamClustering` | stream_clustering.dfy | the in-memory key-value store, `MinhashLSH.hash`, `StreamClustering.find_group` |

The imperative source loops are Dafny methods with loops:
- `Tokenizer.Tokenize`, `SentenceSplitter.Split`/`SplitTexts`, `Preprocessor.ProcessTexts`,
  `TextHelpers.ChunkText`/`GenerateNgrams`, `CommonHelpers.ChunkList`;
- `StreamClustering.StreamClustering.FindGroup`, which updates a `KVStorage` object in place.

Each method is proved equal to a specification function:
- `Tokens`, `Sentences`, `Process`, `ChunkSize`/`Chunks`, `NGrams`, `FindGroupOf`.

The properties are then proved as lemmas about those functions.

Names the source leaves to code outside the core become parameters:
- `is_number` and `str.isalpha` are fields of `Tokenizer.CharClasses`;
- the regex word-character class is the `isWord` predicate;
- the MinHash signer and the LSH banding are fields of `StreamClustering.MinhashLSH`.

### Behaviours of the code worth knowing

- **A dead branch in the tokenizer.** tokenizer.py:53-54 can never run. The `elif` at tokenizer.py:44
  already takes every `.` that is followed by a letter. The model omits the dead branch, and
  `Tokenizer.Decide` keeps the remaining branches in the source's order:
  1. a special character first;
  2. then a buffer that is itself special;
  3. then a split character;
  4. then a plain append.
- **Tokens can end in a space.** The buffer is stripped of spaces only at the start of each iteration
  (tokenizer.py:39). A space that follows a special buffer becomes the new buffer (tokenizer.py:64).
  When that space is the last character, the final flush emits it as a `" "` token
  (tokenizer.py:78-81). `Tokenizer.TrailingSpaceToken` shows this on `"am "`.
  `Tokenizer.TokensSpanText` proves that this is the only way a token can start or end with a space.
- **`find_group` adopts the owner's group.** When a bucket owner `sim_id` is found, the code reads
  `doc2sim[sim_id]` and takes it as the group whenever it is truthy (stream_clustering.py:46-48). In
  that case it does not write `doc2sim[doc_id]`. As a result, groups do not propagate along a chain
  of documents (`StreamClustering.ChainDoesNotPropagate`).
- **`process` drops unpaired texts.** With label maps, `zip` stops at the shorter of the two lists
  (preprocessor.py:19-20). Texts beyond the last label map are dropped (`Preprocessor.Process`).
- **A redundant check in `find_group`.** The second conjunct `group_id != sim_id` at
  stream_clustering.py:47 is always true there, because `sim_id` is truthy and `group_id` is not.
  The model keeps the check as written.

## Model

| member | source | states |
|---|---|---|
| `PyBuiltins.Slice` | similarity/helpers/common_helpers.py:4 | Python slicing `s[i:j]`: in-range bounds give `s[i..j]`; an end past the length is clamped; an empty range gives `[]` |
| `PyBuiltins.Prefix` | similarity/helpers/text_helpers.py:11 | `text[:k]` is the prefix of clamped length `SliceIndex(len, k)` |
| `PyBuiltins.TruncDiv5` | similarity/helpers/text_helpers.py:8 | `int(a / 5)` truncates toward zero, for negative `a` too |
| `PyBuiltins.StripLeading` | similarity/nlp/preprocess/tokenizer.py:39 | the leading part of `s` that `strip` removes is all in `chars`; what remains is a suffix of `s` that does not start with a character of `chars` |
| `PyBuiltins.StripTrailing` | similarity/nlp/preprocess/tokenizer.py:39 | the trailing part removed is all in `chars`; what remains is a prefix that does not end with a character of `chars` |
| `PyBuiltins.Strip` | similarity/nlp/preprocess/tokenizer.py:39 | `str.strip(chars)` never lengthens; the result neither starts nor ends with a stripped character; it keeps only characters of the input |
| `PyBuiltins.StripKeepsMiddle` | similarity/helpers/text_helpers.py:49 | `s.strip(chars)` is a middle slice `s[i:j]`: everything cut off before `i` and from `j` on is in `chars`, and nothing in between is dropped |
| `PyBuiltins.StripIdempotent` | similarity/helpers/text_helpers.py:49 | stripping an already stripped string changes nothing, so the outer `.strip()` of `tokenize` can only act on what the regex leaves |
| `PyBuiltins.Utf8Length` | similarity/helpers/text_helpers.py:13 | `len(s.encode('utf-8'))` lies between `len(s)` and `4 * len(s)` |
| `PyBuiltins.Utf8LengthPrefixMonotone` | similarity/helpers/text_helpers.py:13-15 | a longer prefix never encodes to fewer bytes, which is what makes the chunk-size search a search |
| `CommonHelpers.ChunkList` | similarity/helpers/common_helpers.py:1-4 | `size == 0` fails as `range` does; a negative size yields nothing; a positive size gives chunks that concatenate to `lst`, are all `size` long except a last one of 1..`size`, and number ⌈len/size⌉ |
| `CommonHelpers.ChunksFlatten` | similarity/helpers/common_helpers.py:3-4 | concatenating the chunks gives back the list |
| `CommonHelpers.ChunksEven` | similarity/helpers/common_helpers.py:3-4 | every chunk but the last has exactly `size` elements; the last has between 1 and `size` |
| `CommonHelpers.ChunksCount` | similarity/helpers/common_helpers.py:3 | the number of chunks is ⌈len/size⌉; an empty list gives none |
| `CommonHelpers.ChunksStep` | similarity/helpers/common_helpers.py:3-4 | the chunk starting at `i` is `lst[i:i + size]`, followed by the chunks from `i + size` |
| `TextHelpers.SearchStep` | similarity/helpers/text_helpers.py:9 | for a non-negative byte size and granularity ≥ 1, the step lies between 1 and the granularity |
| `TextHelpers.SearchChunkSizeFirst` | similarity/helpers/text_helpers.py:13-15 | the search loop stops at the first candidate that meets its exit condition: at or above the start, done there, not done one step before |
| `TextHelpers.ChunkSizeBounds` | similarity/helpers/text_helpers.py:8-15 | the final chunk size is at least `int(byte_size / 5)`, and `text[:chunk_size]` takes at least `byte_size` UTF-8 bytes unless it covers the whole text |
| `TextHelpers.ChunkSizeZero` | similarity/helpers/text_helpers.py:8-18 | the chunk size is 0, so that `range` raises, exactly when `-5 < byte_size <= 0`, or when `0 < byte_size < 5` and the text is empty |
| `TextHelpers.DetermineChunkSize` | similarity/helpers/text_helpers.py:7-15 | the search loop ends on `ChunkSize(text, byte_size, granularity)` |
| `TextHelpers.ChunkText` | similarity/helpers/text_helpers.py:4-21 | the loops compute `Chunks(text, ChunkSize(...))`, or the step-zero error exactly in the cases above; for a non-empty text and positive byte size, the chunks concatenate to the text |
| `TextHelpers.GramsAreExactlySlices` | similarity/helpers/text_helpers.py:27-28 | for `n >= 0`, a sequence is produced by the inner loop for `n` exactly when it is a contiguous slice of `items` of length `n` |
| `TextHelpers.NGramsCount` | similarity/helpers/text_helpers.py:26-30 | `generate_ngrams` returns Σₙ max(0, len − n + 1) slices, and none when `min_gram > max_gram` |
| `TextHelpers.GramsAreSlices` | similarity/helpers/text_helpers.py:27-28 | the gram at position `idx` for length `n` is `items[idx:idx + n]`, in start-index order |
| `TextHelpers.NGramsAreExactlySlices` | similarity/helpers/text_helpers.py:26-28 | for a non-negative `min_gram`, a sequence is in the result exactly when it is a contiguous slice of `items` whose length is in `[min_gram, max_gram]` |
| `TextHelpers.AppendGrams` | similarity/helpers/text_helpers.py:27-28 | the inner loop appends exactly `Grams(items, n)`, the slices of length `n` in start order |
| `TextHelpers.GenerateNgrams` | similarity/helpers/text_helpers.py:24-30 | the nested loops build `NGrams(items, min_gram, max_gram)`, of the counted length |
| `TextHelpers.SplitSpaceJoin` | similarity/helpers/text_helpers.py:49 | `' '.join(text.split(' ')) == text`, and no field contains a space |
| `TextHelpers.SplitSpaceAppend` | similarity/helpers/text_helpers.py:49 | splitting `a + ' ' + b` gives the fields of `a`, then the fields of `b` |
| `TextHelpers.RemoveNonWord` | similarity/helpers/text_helpers.py:49 | `re.sub(r'\W+', '', s)` keeps only word characters |
| `TextHelpers.RemoveNonWordOne` | similarity/helpers/text_helpers.py:49 | `re.sub(r'\W+', '', c)` keeps a single character exactly when it is a word character |
| `TextHelpers.RemoveNonWordAppend` | similarity/helpers/text_helpers.py:49 | the substitution distributes over concatenation; with the one-character case this pins it down as keeping every word character, in order, and nothing else |
| `TextHelpers.FieldToken` | similarity/helpers/text_helpers.py:49 | a field contributes at most one token |
| `TextHelpers.FieldTokenWords` | similarity/helpers/text_helpers.py:49 | the token a field contributes is non-empty and made of word characters |
| `TextHelpers.TokenizeWords` | similarity/helpers/text_helpers.py:48-49 | every token `tokenize` returns is non-empty and contains only word characters |
| `TextHelpers.Tokenize` | similarity/helpers/text_helpers.py:48-49 | `tokenize` keeps, field by field of `text.split(' ')`, the cleaned field when it is not blank; there are no more tokens than space-separated fields |
| `TextHelpers.TokenizeAppend` | similarity/helpers/text_helpers.py:49 | tokens come in field order: `tokenize(a + ' ' + b) == tokenize(a) + tokenize(b)` |
| `TextHelpers.TokenizeOneField` | similarity/helpers/text_helpers.py:49 | a text without spaces gives its cleaned form as the single token, or nothing when the cleaned form is empty |
| `Tokenizer.IsSpecialMeansMember` | similarity/nlp/preprocess/tokenizer.py:5-8 | the length-indexed test `IsSpecial` is membership in `SPECIAL_CHARS_AS_TOKENS`, which includes `\n`, `\t`, `\\n`, `...`, `am` and `pm` |
| `Tokenizer.NextChar` | similarity/nlp/preprocess/tokenizer.py:18-23 | the following character when there is one, else `''` |
| `Tokenizer.PreChar` | similarity/nlp/preprocess/tokenizer.py:25-30 | the previous character when there is one, else `''` |
| `Tokenizer.StripSpacesIsStrip` | similarity/nlp/preprocess/tokenizer.py:39 | the index-based buffer strip used by the model is exactly `tmp_str.strip(' ')` |
| `Tokenizer.Decide` | similarity/nlp/preprocess/tokenizer.py:39-76 | one iteration, on the stripped buffer, in the source's branch order: tokens already emitted are kept and at most two are added (the flushed buffer and the character) |
| `Tokenizer.ScanChar` | similarity/nlp/preprocess/tokenizer.py:39-76 | one iteration, in place, takes the branch `Decide` names for the stripped buffer: the character joins the buffer, is emitted as a token, or flushes the buffer |
| `Tokenizer.Tokenize` | similarity/nlp/preprocess/tokenizer.py:32-83 | the loop returns `Tokens(text, labels)` with a falsy map read as `{}`; the list is well-formed: every content is non-empty, `0 <= start`, `end <= len(text)`, `end - start == len(content)`, the label is `index_to_label.get(end - 1)`, and each token starts at or after the end of the one before, so end offsets never decrease |
| `Tokenizer.TokensWellFormed` | similarity/nlp/preprocess/tokenizer.py:36-83 | the same well-formedness for the token list of any text, under any buffer strip that never lengthens the buffer |
| `Tokenizer.EmptyText` | similarity/nlp/preprocess/tokenizer.py:36-83 | empty text yields an empty token list |
| `Tokenizer.RunGrows` | similarity/nlp/preprocess/tokenizer.py:49-69 | the token list only grows as the scan proceeds: tokens already emitted are never removed or changed |
| `Tokenizer.NewlineAndTabAreTokens` | similarity/nlp/preprocess/tokenizer.py:38-56 | every `\n` or `\t` at index `i` becomes its own token, at `(i, i + 1)`, labelled `index_to_label.get(i)` |
| `Tokenizer.TokensSpanText` | similarity/nlp/preprocess/tokenizer.py:36-83 | when a space is not alphabetic, every token's content is `text[start:end]`, and every token has no space at either end, except possibly a last token `" "` |
| `Tokenizer.TrailingSpaceToken` | similarity/nlp/preprocess/tokenizer.py:39-81 | `"am "` tokenizes to `"am"` at (0, 2) and a trailing `" "` at (2, 3) |
| `Tokenizer.AbbreviationExample` | similarity/nlp/preprocess/tokenizer.py:44-81 | with `S` alphabetic, `"U.S."` tokenizes to `"U.S"` at (0, 3) and `"."` at (3, 4): the abbreviation dot stays inside, the final dot is its own token |
| `Tokenizer.DecimalExample` | similarity/nlp/preprocess/tokenizer.py:41-56 | with `3` and `5` numbers, `"3.5%"` tokenizes to `"3.5"` and `"%"`: the number separator stays inside the token |
| `SentenceSplitter.Split` | similarity/nlp/preprocess/sentence_splitter.py:4-19 | the loop returns `Sentences(tokens)` |
| `SentenceSplitter.SplitTexts` | similarity/nlp/preprocess/sentence_splitter.py:21-26 | one result per token list, in order, each `Sentences` of its list |
| `SentenceSplitter.SentencesOk` | similarity/nlp/preprocess/sentence_splitter.py:4-19 | no sentence is empty, and none contains a boundary token (`\n`, `\\n`, `.`) |
| `SentenceSplitter.SentencesFlatten` | similarity/nlp/preprocess/sentence_splitter.py:4-19 | concatenating the sentences gives exactly the non-boundary tokens, in their original order |
| `SentenceSplitter.SentencesCount` | similarity/nlp/preprocess/sentence_splitter.py:4-19 | there is at most one more sentence than there are boundary tokens |
| `SentenceSplitter.NoBoundaryOneSentence` | similarity/nlp/preprocess/sentence_splitter.py:4-19 | a non-empty list without boundary tokens is a single sentence |
| `SentenceSplitter.SentencesAtBoundary` | similarity/nlp/preprocess/sentence_splitter.py:9-12 | a boundary token separates: `split(a + [t] + b) == split(a) + split(b)` |
| `SentenceSplitter.SentenceTokensFromInput` | similarity/nlp/preprocess/sentence_splitter.py:9-14 | every token of every sentence is an input token and not a boundary |
| `Preprocessor.Process` | similarity/nlp/preprocess/preprocessor.py:5-24 | only `PreprocessorIF` fails (`NotImplementedError`); without label maps there is one entry per text; with label maps there are `min(len(texts), len(index_2_labels))` entries |
| `Preprocessor.ProcessTexts` | similarity/nlp/preprocess/preprocessor.py:15-24 | tokenizing text by text and then calling `split_texts` gives `Process` |
| `Preprocessor.EmptyLabelMapsAreNoLabels` | similarity/nlp/preprocess/preprocessor.py:16-20 | one `None` or empty label map per text gives the same result as no label maps |
| `Preprocessor.ProcessSentencesOk` | similarity/nlp/preprocess/preprocessor.py:15-24 | every token in the output for text `i` is a well-formed token of text `i` under its label map, and not a sentence boundary |
| `Preprocessor.ProcessSentencesNonEmpty` | similarity/nlp/preprocess/preprocessor.py:15-24 | no output sentence is empty |
| `StreamClustering.KVStorage.Put` | similarity/io/kv_storage.py:25-26 | sets one entry of the named relation and nothing else |
| `StreamClustering.KVStorage.Get` | similarity/io/kv_storage.py:28-33 | returns the stored value or `None`, and changes no data |
| `StreamClustering.KVStorage.Delete` | similarity/io/kv_storage.py:35-36 | drops the named relation |
| `StreamClustering.StreamClustering.constructor` | similarity/stream_clustering.py:25-29 | keeps the hasher and the store; the relation names are `hash2doc` and `doc2sim` |
| `StreamClustering.ScanSnoc` | similarity/stream_clustering.py:40-49 | handling one more bucket key extends the scan's state by one `Visit`, and its call log by that visit's calls |
| `StreamClustering.Visit` | similarity/stream_clustering.py:41-49 | one pass of the loop body: a group already found is kept, and afterwards the key has a truthy owner in `hash2doc` whenever `doc_id` is truthy |
| `StreamClustering.StreamClustering.VisitKey` | similarity/stream_clustering.py:40-49 | one pass of the loop body does to the store, the group and the call log what `Visit`/`VisitOps` say |
| `StreamClustering.StreamClustering.FindGroup` | similarity/stream_clustering.py:31-54 | returns `FindGroupOf(doc_id, store, hash(tokens))`'s group; leaves the store as `FindGroupOf` says; logs exactly its calls |
| `StreamClustering.SameSignatureSameKeys` | similarity/stream_clustering.py:18-21 | `hash` is `lsh.hash(hasher.sign(tokens))`: token lists with the same MinHash signature get the same bucket keys |
| `StreamClustering.FindGroupFrame` | similarity/stream_clustering.py:41-49 | only `hash2doc` and `doc2sim` change; in `hash2doc`, truthy owners are never overwritten and every new or changed entry is one of the document's keys, owned by `doc_id`; `doc2sim` is unchanged or changed only at `doc_id`, to the returned group |
| `StreamClustering.FindGroupTouchesDoc2SimOnce` | similarity/stream_clustering.py:45-49 | per call, `doc2sim` is read at most once and written at most once, at key `doc_id`, right after that read |
| `StreamClustering.NoOwnerMeansOwnGroup` | similarity/stream_clustering.py:40-52 | with distinct keys and no truthy owners, the result is `doc_id`, `doc2sim` is unchanged, and every key now maps to `doc_id` |
| `StreamClustering.GroupIsFixed` | similarity/stream_clustering.py:45 | once the group is set, later keys change neither it nor `doc2sim` |
| `StreamClustering.FirstMatchDecides` | similarity/stream_clustering.py:45-49 | at the first key with a truthy owner, a truthy `doc2sim[owner]` becomes the group with no write; otherwise the owner is the group and `doc2sim[doc_id] := owner`; later matches change nothing |
| `StreamClustering.GroupIsACandidate` | similarity/stream_clustering.py:35-52 | the result is truthy when `doc_id` is, and it is `doc_id`, a bucket owner, or a group recorded in `doc2sim` |
| `StreamClustering.SecondDocumentJoinsFirst` | similarity/stream_clustering.py:38-54 | on an empty store, with the same distinct non-empty keys, `find_group(A)` returns A, then `find_group(B)` returns A and leaves `doc2sim[B] = A` |
| `StreamClustering.IdenticalDocumentsShareGroup` | similarity/stream_clustering.py:18-54 | for any signer and banding, two documents with identical tokens (distinct, non-empty bucket keys) end in the first one's group |
| `StreamClustering.ChainDoesNotPropagate` | similarity/stream_clustering.py:45-49 | in the A ← B ← C ← D chain, C adopts A without being recorded, so D's group is C, not A |
| `StreamClustering.RepeatedKeyRecordsSelf` | similarity/stream_clustering.py:40-49 | a key repeated within one call makes the document its own owner, so it is recorded as `doc2sim[doc_id] = doc_id` |

## Left out

- `TextHelpers.ChunkText`, `TextHelpers.DetermineChunkSize`: require `granularity >= 1`, which is stronger than the loop needs. Calls with `granularity <= 0` are not modelled; for a positive byte size the source behaves as follows (text_helpers.py:8-9, 13-15, 18). With `granularity == 0` the step is 0, so the loop ends only if the first candidate already meets its exit test; then the call returns, e.g. `chunk_text("ab", 100, 0) == ["ab"]`. With `granularity < 0` the step is negative and the candidate size goes down past 0. Python's `text[:chunk_size]` then counts from the end, so the loop can stop at a negative size, and the call returns `[]` because `range` with a negative step is empty there (e.g. `chunk_text("abcdefghij", 8, -1) == []`). Otherwise, for example when the whole text is shorter than `byte_size` bytes, it runs forever.
- `CommonHelpers.ChunkList`: the generator's laziness is not modelled; the chunks are returned as one list.
- `TextHelpers.ChunkText`: `int(byte_size / 5)` is modelled as exact division truncated toward zero. Floating-point rounding for sizes beyond 2^53 is not modelled.
- `is_mostly_numeric`, `is_mostly_alpha`, `is_mostly_numeric_tokens` (text_helpers.py:33-45): floating-point ratio tests with an epsilon.
- `to_dict` (common_helpers.py:7-23): reflection over `__dict__`.
- similarity/helpers/number_helpers.py is not part of this model. `is_number` is the parameter `CharClasses.isNumber`. `str.isalpha` is `CharClasses.isAlpha`, and `\w` is `isWord`; both are Unicode-table predicates and are parameters too.
- `Tokenizer.TokensSpanText`: assumes that a space is not alphabetic, which is true of `str.isalpha`.
- `Tokenizer.NextChar`, `Tokenizer.PreChar`: indices are natural numbers, so Python's negative indexing is not modelled. `next_char` is called only with loop indices (tokenizer.py:41, 44, 53). `pre_char` is never called in the source. Its `requires i <= |text|` excludes the `IndexError` that `text[cur_idx - 1]` raises past the end, a path no caller reaches.
- `build_token_dic` (tokenizer.py:10-16) is the `Token` datatype. Its `offset` tuple is the pair `start`/`end`, and its `label` is `tag`.
- Label maps whose entries are not strings: labels are modelled as `map<int, string>`.
- Strings are sequences of code points. Lone surrogates and encodings other than UTF-8 are not modelled.
- `MinHashSignature` and `LSH` live in a package that is not part of this model. They are the functions `MinhashLSH.sign` and `MinhashLSH.bands`. The probabilistic Jaccard guarantees of MinHash banding are not modelled. The abstract base `Hashing` (stream_clustering.py:7-10) has no behaviour of its own.
- `RedisStorage` (kv_storage.py:21-36) is replaced by the in-memory `KVStorage`:
  - the mapping of the stored string `'None'` to `None` is not modelled (kv_storage.py:30-31);
  - nor are the network connection and the `decode_responses` option;
  - store values are strings.
- Concurrent writers racing on the key-value store are not modelled: every call runs alone.
- similarity/group_es_articles.py (the Elasticsearch scan, bulk updates, counters and date loop), log_helpers.py and file_helpers.py are I/O orchestration and are not modelled.
