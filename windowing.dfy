/**
 * Query combinators that cut the elements into pieces: `sliding_window`,
 * `subslices` and `grouper` (tests/test_itertools_mixin.py:299-389).
 */
module Windowing {
  import opened Basics
  import opened Seqs

  // ---------------------------------------------------------------------
  // sliding_window

  /** The consecutive length-`n` windows of `s`, one position apart. */
  function Windows<T>(s: seq<T>, n: nat): (r: seq<seq<T>>)
    ensures |r| == if |s| < n then 0 else |s| - n + 1
    ensures forall k :: 0 <= k < |r| ==> |r[k]| == n
    decreases |s|
  {
    if |s| < n then []
    else if |s| == n then [s]
    else [s[..n]] + Windows(s[1..], n)
  }

  /** The window at position `i` is the slice of `n` elements that starts at `i`. */
  lemma {:induction false} WindowsAt<T>(s: seq<T>, n: nat, i: nat)
    requires i < |Windows(s, n)|
    ensures Windows(s, n)[i] == s[i..i + n]
    decreases |s|
  {
    if |s| > n && i > 0 {
      WindowsAt(s[1..], n, i - 1);
      assert s[1..][i - 1..i - 1 + n] == s[i..i + n];
    }
  }

  /** `sliding_window(n)`: the windows of size `n`; a negative size raises `ValueError`. */
  function SlidingWindow<T>(s: seq<T>, n: int): (r: Result<seq<seq<T>>>)
    ensures r.Err? <==> n < 0
    ensures r.Err? ==> r.error == ValueError(NegativeWindowSize)
    ensures r.Ok? ==> r.value == Windows(s, n)
  {
    if n < 0 then Err(ValueError(NegativeWindowSize)) else Ok(Windows(s, n))
  }

  /** Every window of a non-empty size starts one element after the previous one: consecutive windows overlap in `n - 1` elements. */
  lemma WindowsOverlap<T>(s: seq<T>, n: nat, i: nat)
    requires 0 < n && i + 1 < |Windows(s, n)|
    ensures Windows(s, n)[i][1..] == Windows(s, n)[i + 1][..n - 1]
  {
    WindowsAt(s, n, i);
    WindowsAt(s, n, i + 1);
    assert s[i..i + n][1..] == s[i + 1..i + n] == s[i + 1..i + 1 + n][..n - 1];
  }

  // ---------------------------------------------------------------------
  // subslices

  /** The non-empty prefixes of `s`, shortest first. */
  function Prefixes<T>(s: seq<T>): (r: seq<seq<T>>)
    ensures |r| == |s|
    ensures forall j :: 0 <= j < |s| ==> r[j] == s[..j + 1]
  {
    if s == [] then []
    else
      var rest := Prefixes(s[..|s| - 1]);
      assert forall j :: 0 <= j < |s| - 1 ==> rest[j] == s[..j + 1];
      rest + [s]
  }

  /** `subslices()`: every non-empty contiguous slice, by start index and then by end index. */
  function Subslices<T>(s: seq<T>): (r: seq<seq<T>>)
    ensures |r| == Triangle(|s|)
    decreases |s|
  {
    if s == [] then [] else Prefixes(s) + Subslices(s[1..])
  }

  /** `0 + 1 + ... + n`: the number of pairs `i < j` in `0..n`. */
  function Triangle(n: nat): nat
  {
    if n == 0 then 0 else n + Triangle(n - 1)
  }

  lemma {:induction false} TriangleClosedForm(n: nat)
    ensures 2 * Triangle(n) == n * (n + 1)
  {
    if n > 0 {
      TriangleClosedForm(n - 1);
    }
  }

  /** The position in `Subslices` of a sequence of length `len` where the slices starting at `i` begin. */
  function StartOffset(len: nat, i: nat): nat
    requires i <= len
  {
    if i == 0 then 0 else len + StartOffset(len - 1, i - 1)
  }

  /** The position of the slice `[i..j]` in `Subslices` of a sequence of length `len`. */
  function SlicePos(len: nat, i: nat, j: nat): nat
    requires i < j <= len
  {
    StartOffset(len, i) + (j - i - 1)
  }

  /** The slices that start at `i` occupy the positions from `StartOffset(len, i)` on, up to `StartOffset(len, i + 1)`. */
  lemma {:induction false} StartOffsetStep(len: nat, i: nat)
    requires i < len
    ensures StartOffset(len, i + 1) == StartOffset(len, i) + (len - i)
  {
    if i > 0 {
      StartOffsetStep(len - 1, i - 1);
    }
  }

  lemma {:induction false} StartOffsetMonotone(len: nat, i: nat, i': nat)
    requires i <= i' <= len
    ensures StartOffset(len, i) + (if i < i' then len - i else 0) <= StartOffset(len, i')
    decreases i' - i
  {
    if i < i' {
      StartOffsetStep(len, i);
      StartOffsetMonotone(len, i + 1, i');
    }
  }

  /** The slice `s[i..j]` sits in `Subslices(s)` at position `SlicePos(|s|, i, j)`. */
  lemma {:induction false} SubslicesAt<T>(s: seq<T>, i: nat, j: nat)
    requires i < j <= |s|
    ensures SlicePos(|s|, i, j) < |Subslices(s)|
    ensures Subslices(s)[SlicePos(|s|, i, j)] == s[i..j]
  {
    if i == 0 {
      assert Subslices(s) == Prefixes(s) + Subslices(s[1..]);
    } else {
      SubslicesAt(s[1..], i - 1, j - 1);
      assert s[1..][i - 1..j - 1] == s[i..j];
    }
  }

  /** Positions follow the order by start index, then by end index; so `Subslices` lists each slice once, in that order. */
  lemma SlicePosOrdered(len: nat, i: nat, j: nat, i': nat, j': nat)
    requires i < j <= len && i' < j' <= len
    requires i < i' || (i == i' && j < j')
    ensures SlicePos(len, i, j) < SlicePos(len, i', j')
  {
    StartOffsetMonotone(len, i, i');
  }

  // ---------------------------------------------------------------------
  // grouper

  /** The complete chunks of length `n`, from the front; fewer than `n` elements are left over. */
  function Chunks<T>(s: seq<T>, n: nat): (r: seq<seq<T>>)
    requires n > 0
    ensures forall k :: 0 <= k < |r| ==> |r[k]| == n
    ensures Flatten(r) <= s && |s| - |Flatten(r)| == Rem(|s|, n)
    ensures |Flatten(r)| == |r| * n
    decreases |s|
  {
    if |s| < n then []
    else
      var rest := Chunks(s[n..], n);
      assert ([s[..n]] + rest)[1..] == rest;
      assert s == s[..n] + s[n..];
      [s[..n]] + rest
  }

  /** `len % n` for a positive `n`, by repeated subtraction. */
  function Rem(len: nat, n: nat): (m: nat)
    requires n > 0
    ensures m < n && m <= len
  {
    if len < n then len else Rem(len - n, n)
  }

  /** `rest` padded with copies of `fill` up to length `n`, as `zip_longest` pads a short last chunk. */
  function Pad<T>(rest: seq<T>, n: nat, fill: T): (r: seq<T>)
    requires |rest| <= n
    ensures |r| == n && r[..|rest|] == rest
    ensures forall k :: |rest| <= k < n ==> r[k] == fill
  {
    rest + seq(n - |rest|, _ => fill)
  }

  /** Under "fill", the complete chunks and the padded remainder hold `s` followed by fewer than `n` copies of `fill`. */
  lemma PaddedChunks<T>(s: seq<T>, n: nat, fill: T)
    requires n > 0 && |Flatten(Chunks(s, n))| < |s|
    ensures var full := Chunks(s, n);
            var r := full + [Pad(s[|Flatten(full)|..], n, fill)];
            && (forall k :: 0 <= k < |r| ==> |r[k]| == n)
            && |s| < |Flatten(r)| < |s| + n
            && Flatten(r)[..|s|] == s
            && forall k :: |s| <= k < |Flatten(r)| ==> Flatten(r)[k] == fill
  {
    var full := Chunks(s, n);
    var rest := s[|Flatten(full)|..];
    var last := Pad(rest, n, fill);
    assert Flatten(full) + rest == s;
    FlattenAppend(full, [last]);
    assert Flatten([last]) == last + Flatten([]);
    var f := Flatten(full + [last]);
    assert f == Flatten(full) + last;
    assert f[..|s|] == Flatten(full) + last[..|rest|];
    forall k | |s| <= k < |f|
      ensures f[k] == fill
    {
      assert f[k] == last[k - |Flatten(full)|];
    }
  }

  predicate ValidIncomplete(flag: string) {
    flag == "fill" || flag == "strict" || flag == "ignore"
  }

  /**
   * `grouper(n, incomplete, fill_value)`: chunks of `n` elements.  A short
   * last chunk is padded with `fill` under "fill", dropped under "ignore"
   * and raises `ValueError` under "strict"; any other flag raises at once.
   * A size of zero or less gives no chunks, as a zip of no iterators does.
   */
  function Grouper<T>(s: seq<T>, n: int, incomplete: string := "fill", fill: T): (r: Result<seq<seq<T>>>)
    ensures !ValidIncomplete(incomplete) ==> r == Err(ValueError(InvalidIncompleteFlag(incomplete)))
    ensures ValidIncomplete(incomplete) && n <= 0 ==> r == Ok([])
    ensures r.Ok? ==> forall k :: 0 <= k < |r.value| ==> |r.value[k]| == n
    ensures r.Ok? && n > 0 && incomplete == "fill" ==>
              |s| <= |Flatten(r.value)| < |s| + n
              && Flatten(r.value)[..|s|] == s
              && forall k :: |s| <= k < |Flatten(r.value)| ==> Flatten(r.value)[k] == fill
    ensures r.Ok? && n > 0 && incomplete == "ignore" ==>
              Flatten(r.value) <= s && |s| - |Flatten(r.value)| == Rem(|s|, n)
    ensures r.Ok? && n > 0 && incomplete == "strict" ==> Flatten(r.value) == s
    ensures ValidIncomplete(incomplete) && n > 0 ==>
              (r.Err? <==> incomplete == "strict" && Rem(|s|, n) != 0)
    ensures r.Err? && ValidIncomplete(incomplete) ==> r.error == ValueError(ZipLengthMismatch)
  {
    if !ValidIncomplete(incomplete) then Err(ValueError(InvalidIncompleteFlag(incomplete)))
    else if n <= 0 then Ok([])
    else
      var full := Chunks(s, n);
      var rest := s[|Flatten(full)|..];
      assert Flatten(full) + rest == s;
      if rest == [] then Ok(full)
      else if incomplete == "fill" then
        PaddedChunks(s, n, fill);
        Ok(full + [Pad(rest, n, fill)])
      else if incomplete == "ignore" then Ok(full)
      else Err(ValueError(ZipLengthMismatch))
  }
}
