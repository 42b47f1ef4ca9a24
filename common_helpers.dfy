/** `chunk_list` from common_helpers.py: cutting a list into consecutive slices of one size. */
module CommonHelpers {
  import opened Wrappers
  import opened PyBuiltins

  /** The ValueError Python's `range` raises when its step is zero. */
  datatype RangeError = ZeroStep

  /**
   * `[s[i:i + size] for i in range(0, len(s), size)]` for a positive size:
   * the reference both `chunk_list` and the slicing loop of `chunk_text` are
   * proved against.
   */
  function Chunks<T>(s: seq<T>, size: nat): seq<seq<T>>
    requires size > 0
    decreases |s|
  {
    if s == [] then []
    else if |s| <= size then [s]
    else [s[..size]] + Chunks(s[size..], size)
  }

  /** Every chunk but the last holds exactly `size` elements, the last one 1 to `size`. */
  ghost predicate EvenChunks<T>(chunks: seq<seq<T>>, size: nat)
  {
    forall k :: 0 <= k < |chunks| ==>
      if k < |chunks| - 1 then |chunks[k]| == size else 1 <= |chunks[k]| <= size
  }

  /** Concatenating the chunks gives back the list. */
  lemma {:induction false} ChunksFlatten<T>(s: seq<T>, size: nat)
    requires size > 0
    ensures Flatten(Chunks(s, size)) == s
    decreases |s|
  {
    if |s| > size {
      ChunksFlatten(s[size..], size);
      assert Chunks(s, size)[1..] == Chunks(s[size..], size);
      assert s == s[..size] + s[size..];
    }
  }

  lemma {:induction false} ChunksEven<T>(s: seq<T>, size: nat)
    requires size > 0
    ensures EvenChunks(Chunks(s, size), size)
    decreases |s|
  {
    if |s| > size {
      ChunksEven(s[size..], size);
      var rest := Chunks(s[size..], size);
      assert Chunks(s, size) == [s[..size]] + rest;
      assert rest != [];
      forall k | 1 <= k < |Chunks(s, size)|
        ensures Chunks(s, size)[k] == rest[k - 1]
      {
      }
    }
  }

  /**
   * There are ceil(len(s) / size) chunks: the fewest whose total capacity
   * covers the list, so an empty list has none.
   */
  lemma {:induction false} ChunksCount<T>(s: seq<T>, size: nat)
    requires size > 0
    ensures IsCeilDiv(|Chunks(s, size)|, |s|, size)
    decreases |s|
  {
    if |s| > size {
      ChunksCount(s[size..], size);
      var n := |Chunks(s[size..], size)|;
      assert |Chunks(s, size)| == n + 1;
      assert (n + 1) * size == n * size + size;
    }
  }

  /** `n` is ceil(len / size): the fewest chunks of `size` that cover `len` elements. */
  ghost predicate IsCeilDiv(n: int, len: int, size: int)
  {
    (n - 1) * size < len <= n * size
  }

  /** One round of the slicing loop: the chunk at `i`, then the chunks after it. */
  lemma ChunksStep<T>(s: seq<T>, i: nat, size: nat)
    requires size > 0 && i < |s|
    ensures i + size <= |s| ==> Chunks(s[i..], size) == [Slice(s, i, i + size)] + Chunks(s[i + size..], size)
    ensures i + size > |s| ==> Chunks(s[i..], size) == [Slice(s, i, i + size)]
  {
    var rest := s[i..];
    if i + size < |s| {
      assert rest[size..] == s[i + size..];
      assert rest[..size] == s[i..i + size];
    } else if i + size == |s| {
      assert s[i + size..] == [];
    }
  }

  /**
   * `chunk_list(lst, size)`: a zero size is the ValueError of `range`, a
   * negative size an empty range, a positive size the chunks in order.
   */
  method ChunkList<T>(lst: seq<T>, size: int) returns (r: Result<seq<seq<T>>, RangeError>)
    ensures r.Failure? <==> size == 0
    ensures size < 0 ==> r == Success([])
    ensures size > 0 ==> r == Success(Chunks(lst, size))
    ensures size > 0 ==> Flatten(r.value) == lst && EvenChunks(r.value, size)
    ensures size > 0 ==> IsCeilDiv(|r.value|, |lst|, size)
  {
    if size == 0 {
      return Failure(ZeroStep);
    }
    var chunks: seq<seq<T>> := [];
    if size > 0 {
      var lstLen := |lst|;
      var i := 0;
      while i < lstLen
        invariant 0 <= i
        invariant i <= lstLen ==> chunks + Chunks(lst[i..], size) == Chunks(lst, size)
        invariant i > lstLen ==> chunks == Chunks(lst, size)
        decreases lstLen - i
      {
        ChunksStep(lst, i, size);
        chunks := chunks + [Slice(lst, i, i + size)];
        i := i + size;
      }
      if i == lstLen {
        assert lst[i..] == [];
        assert chunks + Chunks(lst[i..], size) == chunks;
      }
      ChunksFlatten(lst, size);
      ChunksEven(lst, size);
      ChunksCount(lst, size);
    }
    return Success(chunks);
  }
}
