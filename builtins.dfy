/**
 * The parts of Python's own semantics that the modelled code leans on:
 * slicing with index clamping and negative indices, `str.strip`,
 * truncating `int(x / 5)`, and the UTF-8 length of `str.encode('utf-8')`.
 */
module PyBuiltins {

  function Min(a: int, b: int): int { if a <= b then a else b }

  function Max(a: int, b: int): int { if a >= b then a else b }

  /** Where Python's slice bound `k` lands in a sequence of length `len`. */
  function SliceIndex(len: nat, k: int): (r: nat)
    ensures r <= len
    ensures 0 <= k <= len ==> r == k
    ensures k < 0 ==> r == Max(0, len + k)
  {
    if k < 0 then Max(0, len + k) else Min(k, len)
  }

  /** Python's `s[i:j]`: bounds are clamped, negative bounds count from the end. */
  function Slice<T>(s: seq<T>, i: int, j: int): (r: seq<T>)
    ensures 0 <= i <= j <= |s| ==> r == s[i..j]
    ensures 0 <= j <= i ==> r == []
    ensures 0 <= i <= |s| && |s| <= j ==> r == s[i..]
  {
    var a, b := SliceIndex(|s|, i), SliceIndex(|s|, j);
    if a < b then s[a..b] else []
  }

  /** Python's `s[:k]`. */
  function Prefix<T>(s: seq<T>, k: int): (r: seq<T>)
    ensures |r| == SliceIndex(|s|, k) && r == s[..|r|]
  {
    Slice(s, 0, k)
  }

  /** Python's `int(a / 5)`: true division, then truncation toward zero. */
  function TruncDiv5(a: int): (q: int)
    ensures a >= 0 ==> 0 <= a - 5 * q < 5
    ensures a < 0 ==> 0 <= 5 * q - a < 5
  {
    if a >= 0 then a / 5 else -((-a) / 5)
  }

  /** Concatenation of a sequence of sequences, in order. */
  function Flatten<T>(xss: seq<seq<T>>): seq<T>
  {
    if xss == [] then [] else xss[0] + Flatten(xss[1..])
  }

  lemma {:induction false} FlattenAppend<T>(xss: seq<seq<T>>, ys: seq<T>)
    ensures Flatten(xss + [ys]) == Flatten(xss) + ys
  {
    if xss != [] {
      assert (xss + [ys])[1..] == xss[1..] + [ys];
      FlattenAppend(xss[1..], ys);
    }
  }

  /** `[y for x in xs for y in f(x)]`. */
  function FlatMap<A, B>(f: A -> seq<B>, xs: seq<A>): seq<B>
  {
    if xs == [] then [] else f(xs[0]) + FlatMap(f, xs[1..])
  }

  lemma {:induction false} FlatMapAppend<A, B>(f: A -> seq<B>, xs: seq<A>, ys: seq<A>)
    ensures FlatMap(f, xs + ys) == FlatMap(f, xs) + FlatMap(f, ys)
    decreases |xs|
  {
    if xs == [] {
      assert xs + ys == ys;
    } else {
      assert (xs + ys)[1..] == xs[1..] + ys;
      FlatMapAppend(f, xs[1..], ys);
    }
  }

  /** When each `f(x)` has at most `k` elements, the result has at most `k * |xs|`. */
  lemma {:induction false} FlatMapBounds<A, B>(f: A -> seq<B>, xs: seq<A>, k: nat)
    requires forall x :: x in xs ==> |f(x)| <= k
    ensures |FlatMap(f, xs)| <= k * |xs|
    decreases |xs|
  {
    if xs != [] {
      FlatMapBounds(f, xs[1..], k);
      assert k * |xs| == k + k * |xs[1..]|;
    }
  }

  /** Every element of the result comes from some `f(x)` with `x` in `xs`. */
  lemma {:induction false} FlatMapMember<A, B>(f: A -> seq<B>, xs: seq<A>, y: B) returns (x: A)
    requires y in FlatMap(f, xs)
    ensures x in xs && y in f(x)
    decreases |xs|
  {
    if y in f(xs[0]) {
      x := xs[0];
    } else {
      x := FlatMapMember(f, xs[1..], y);
    }
  }

  /** Python's `s.lstrip(chars)`. */
  function StripLeading(s: string, chars: set<char>): (r: string)
    ensures |r| <= |s| && r == s[|s| - |r|..]
    ensures r == [] || r[0] !in chars
    ensures forall k :: 0 <= k < |s| - |r| ==> s[k] in chars
  {
    if s != [] && s[0] in chars then StripLeading(s[1..], chars) else s
  }

  /** Python's `s.rstrip(chars)`. */
  function StripTrailing(s: string, chars: set<char>): (r: string)
    ensures |r| <= |s| && r == s[..|r|]
    ensures r == [] || r[|r| - 1] !in chars
    ensures forall k :: |r| <= k < |s| ==> s[k] in chars
  {
    if s != [] && s[|s| - 1] in chars then StripTrailing(s[..|s| - 1], chars) else s
  }

  /** Concatenation is associative. */
  lemma AppendAssoc<T>(a: seq<T>, b: seq<T>, c: seq<T>)
    ensures (a + b) + c == a + (b + c)
  {
  }

  /** Python's `s.strip(chars)`: drops leading and trailing characters from `chars`. */
  function Strip(s: string, chars: set<char>): (r: string)
    ensures |r| <= |s|
    ensures r == [] || (r[0] !in chars && r[|r| - 1] !in chars)
    ensures forall c :: c in r ==> c in s
  {
    var t := StripLeading(s, chars);
    var r := StripTrailing(t, chars);
    assert r == s[|s| - |t|..][..|r|];
    r
  }

  /**
   * `s.strip(chars)` keeps a middle slice `s[i:j]` of `s`: everything cut off
   * before `i` or from `j` on is in `chars`, and nothing in between is dropped.
   */
  lemma StripKeepsMiddle(s: string, chars: set<char>) returns (i: nat, j: nat)
    ensures i <= j <= |s| && Strip(s, chars) == s[i..j]
    ensures forall k :: 0 <= k < i ==> s[k] in chars
    ensures forall k :: j <= k < |s| ==> s[k] in chars
  {
    var t := StripLeading(s, chars);
    var r := StripTrailing(t, chars);
    i := |s| - |t|;
    j := i + |r|;
    assert r == s[i..j];
    forall k | j <= k < |s|
      ensures s[k] in chars
    {
      assert s[k] == t[k - i];
    }
  }

  lemma StripNothing(s: string, chars: set<char>)
    requires forall c :: c in s ==> c !in chars
    ensures Strip(s, chars) == s
  {
  }

  /** Stripping twice strips no more than stripping once. */
  lemma StripIdempotent(s: string, chars: set<char>)
    ensures Strip(Strip(s, chars), chars) == Strip(s, chars)
  {
    var r := Strip(s, chars);
    assert StripLeading(r, chars) == r;
  }

  /** The characters Python's `str.isspace` accepts, which `str.strip()` removes by default. */
  const Whitespace: set<char> :=
    {'\t', '\n', '\U{000B}', '\U{000C}', '\r', '\U{001C}', '\U{001D}', '\U{001E}',
     '\U{001F}', ' ', '\U{0085}', '\U{00A0}', '\U{1680}', '\U{2000}', '\U{2001}', '\U{2002}',
     '\U{2003}', '\U{2004}', '\U{2005}', '\U{2006}', '\U{2007}', '\U{2008}', '\U{2009}', '\U{200A}',
     '\U{2028}', '\U{2029}', '\U{202F}', '\U{205F}', '\U{3000}'}

  /** Bytes taken by one code point in UTF-8. */
  function Utf8Width(c: char): (w: nat)
    ensures 1 <= w <= 4
    ensures w == 1 <==> c as int < 0x80
  {
    if c as int < 0x80 then 1 else if c as int < 0x800 then 2 else if c as int < 0x10000 then 3 else 4
  }

  /** `len(s.encode('utf-8'))`. */
  function Utf8Length(s: string): (n: nat)
    ensures |s| <= n <= 4 * |s|
  {
    if s == [] then 0 else Utf8Length(s[..|s| - 1]) + Utf8Width(s[|s| - 1])
  }

  /** A longer prefix never encodes to fewer bytes. */
  lemma {:induction false} Utf8LengthPrefixMonotone(s: string, i: nat, j: nat)
    requires i <= j <= |s|
    ensures Utf8Length(s[..i]) <= Utf8Length(s[..j])
    decreases j - i
  {
    if i < j {
      Utf8LengthPrefixMonotone(s, i, j - 1);
      assert s[..j][..j - 1] == s[..j - 1];
    }
  }
}
