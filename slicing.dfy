/**
 * Query combinators that bound, repeat, skip, index or slice the elements:
 * `limit`, `tabulate`, `repeat_func`, `ncycles`, `consume`, `take_nth`,
 * `all_equal` and `view` (tests/test_itertools_mixin.py:182-296).
 *
 * Every combinator is a function of the finite sequence of elements the
 * query would produce.  An infinite source such as `tabulate` is modelled by
 * its first `n` elements, that is, together with the `limit(n)` that bounds it.
 */
module Slicing {
  import opened Basics
  import Optionals

  /** `limit(n)`: at most the first `n` elements. */
  function Limit<T>(s: seq<T>, n: nat): (r: seq<T>)
    ensures |r| == Min(n, |s|)
    ensures r <= s
  {
    s[..Min(n, |s|)]
  }

  /** `tabulate(f, start).limit(n)`: `f(start), f(start + 1), ...`, `n` of them. */
  function Tabulate<T>(f: int -> T, start: int, n: nat): (r: seq<T>)
    ensures |r| == n
    ensures forall i :: 0 <= i < n ==> r[i] == f(start + i)
    decreases n
  {
    if n == 0 then [] else [f(start)] + Tabulate(f, start + 1, n - 1)
  }

  /** Bounding a longer prefix of `tabulate` and then limiting it gives the shorter prefix. */
  lemma LimitTabulate<T>(f: int -> T, start: int, m: nat, n: nat)
    requires n <= m
    ensures Limit(Tabulate(f, start, m), n) == Tabulate(f, start, n)
  {
  }

  /**
   * `repeat_func(operation, times)`: the query's elements are the arguments
   * and `operation(*args)` is evaluated `times` times; a non-positive count
   * yields nothing.
   */
  function RepeatFunc<A, T>(operation: seq<A> -> T, args: seq<A>, times: int): (r: seq<T>)
    ensures |r| == Max(0, times)
    ensures forall i :: 0 <= i < |r| ==> r[i] == operation(args)
    decreases times
  {
    if times <= 0 then [] else [operation(args)] + RepeatFunc(operation, args, times - 1)
  }

  /**
   * `ncycles(count)`: the whole sequence `count` times over; a non-positive
   * count yields nothing.  The result starts with `s` and repeats with
   * period `|s|`.
   */
  function NCycles<T>(s: seq<T>, count: int): (r: seq<T>)
    ensures |r| == |s| * Max(0, count)
    ensures count > 0 ==> r[..|s|] == s
    ensures forall i :: 0 <= i < |r| - |s| ==> r[i + |s|] == r[i]
    decreases count
  {
    if count <= 0 then []
    else
      var rest := NCycles(s, count - 1);
      assert |s| * Max(0, count) == |s| + |s| * Max(0, count - 1);
      assert count - 1 > 0 ==> rest[..|s|] == s;
      s + rest
  }

  /** Cycling `a + b` times is cycling `a` times, then `b` times. */
  lemma {:induction false} NCyclesAdd<T>(s: seq<T>, a: nat, b: nat)
    ensures NCycles(s, a + b) == NCycles(s, a) + NCycles(s, b)
  {
    if a > 0 {
      NCyclesAdd(s, a - 1, b);
      assert NCycles(s, a + b) == s + NCycles(s, a - 1 + b);
    }
  }

  /**
   * `consume(n)`: drops the first `n` elements; with no argument every
   * element is drained; a negative `n` raises `ValueError`.
   */
  function Consume<T>(s: seq<T>, n: Nullable<int> := Null): (r: Result<seq<T>>)
    ensures n.Null? ==> r == Ok([])
    ensures n.Val? && n.value < 0 ==> r == Err(ValueError(NegativeConsumeBoundary))
    ensures n.Val? && n.value >= 0 ==> r.Ok? && Limit(s, n.value) + r.value == s
  {
    if n.Null? then Ok([])
    else if n.value < 0 then Err(ValueError(NegativeConsumeBoundary))
    else Ok(s[Min(n.value, |s|)..])
  }

  /** `take_nth(index, default)`: the element at `index`, a negative index counting from the end, else `default`. */
  function TakeNth<T>(s: seq<T>, index: int, default: Nullable<T> := Null): (r: Optionals.Optional<T>)
    ensures 0 <= index < |s| ==> Optionals.Get(r) == Ok(s[index])
    ensures -|s| <= index < 0 ==> Optionals.Get(r) == Ok(s[|s| + index])
    ensures index < -|s| || |s| <= index ==> r == Optionals.OfNullable(default)
  {
    if 0 <= index < |s| then Optionals.OfNullable(Val(s[index]))
    else if -|s| <= index < 0 then Optionals.OfNullable(Val(s[|s| + index]))
    else Optionals.OfNullable(default)
  }

  /** `all_equal(key)`: every element has the same key (vacuously so for at most one element). */
  function AllEqual<T, K(==)>(s: seq<T>, key: T -> K): (r: bool)
    ensures r <==> forall i, j :: 0 <= i < |s| && 0 <= j < |s| ==> key(s[i]) == key(s[j])
  {
    if |s| <= 1 then true
    else
      var rest := AllEqual(s[1..], key);
      assert forall i :: 1 <= i < |s| ==> s[1..][i - 1] == s[i];
      key(s[0]) == key(s[1]) && rest
  }

  /** Python's normalisation of a slice bound for a positive step: negative counts from the end, then clamp. */
  function SliceBound(b: int, len: nat): (r: nat)
    ensures r <= len
    ensures 0 <= b ==> r == Min(b, len)
    ensures b < 0 ==> r == Max(0, len + b)
  {
    if b < 0 then Max(0, len + b) else Min(b, len)
  }

  /** The elements at `lo`, `lo + step`, ... below `hi`. */
  function Stride<T>(s: seq<T>, lo: nat, hi: nat, step: nat): (r: seq<T>)
    requires hi <= |s| && step > 0
    ensures |r| <= Max(0, hi - lo)
    ensures r != [] ==> lo < hi && r[0] == s[lo]
    decreases hi - lo
  {
    if lo >= hi then [] else [s[lo]] + Stride(s, lo + step, hi, step)
  }

  /** The `k`-th element of a stride is the source element at `lo + k * step`, below `hi`. */
  lemma {:induction false} StrideAt<T>(s: seq<T>, lo: nat, hi: nat, step: nat, k: nat)
    requires hi <= |s| && step > 0 && k < |Stride(s, lo, hi, step)|
    ensures lo + k * step < hi && Stride(s, lo, hi, step)[k] == s[lo + k * step]
    decreases hi - lo
  {
    if k > 0 {
      StrideAt(s, lo + step, hi, step, k - 1);
      assert lo + step + (k - 1) * step == lo + k * step;
    }
  }

  /** A stride stops at the first index past `lo` that reaches `hi`: it takes every index it can. */
  lemma {:induction false} StrideComplete<T>(s: seq<T>, lo: nat, hi: nat, step: nat)
    requires hi <= |s| && step > 0
    ensures lo + |Stride(s, lo, hi, step)| * step >= hi
    decreases hi - lo
  {
    if lo < hi {
      var n := |Stride(s, lo + step, hi, step)|;
      StrideComplete(s, lo + step, hi, step);
      assert lo + step + n * step == lo + (n + 1) * step;
    }
  }

  lemma {:induction false} StrideOne<T>(s: seq<T>, lo: nat, hi: nat)
    requires hi <= |s|
    ensures Stride(s, lo, hi, 1) == if lo < hi then s[lo..hi] else []
    decreases hi - lo
  {
    if lo < hi {
      StrideOne(s, lo + 1, hi);
    }
  }

  /**
   * `view(start, stop, step)`: Python slicing for a positive step.  `stop`
   * omitted means the end and `step` omitted means 1; a step that is not
   * positive raises `ValueError`.
   */
  function View<T>(s: seq<T>, start: int := 0, stop: Nullable<int> := Null, step: Nullable<int> := Null)
    : (r: Result<seq<T>>)
    ensures r.Err? <==> step.Val? && step.value <= 0
    ensures r.Err? ==> r.error == ValueError(NonPositiveStep)
    ensures r.Ok? && step.Null? ==>
              var lo := SliceBound(start, |s|);
              var hi := if stop.Null? then |s| else SliceBound(stop.value, |s|);
              r.value == if lo < hi then s[lo..hi] else []
  {
    if step.Val? && step.value <= 0 then Err(ValueError(NonPositiveStep))
    else
      var lo := SliceBound(start, |s|);
      var hi := if stop.Null? then |s| else SliceBound(stop.value, |s|);
      StrideOne(s, lo, hi);
      Ok(Stride(s, lo, hi, if step.Null? then 1 else step.value))
  }

  /**
   * With a positive step, the `k`-th element of a view is the source element
   * at `lo + k * step`, and the view has an element there exactly when that
   * index is below `hi`.
   */
  lemma ViewStepped<T>(s: seq<T>, start: int, stop: Nullable<int>, step: int, k: nat)
    requires step > 0
    ensures View(s, start, stop, Val(step)).Ok?
    ensures var lo := SliceBound(start, |s|);
            var hi := if stop.Null? then |s| else SliceBound(stop.value, |s|);
            var r := View(s, start, stop, Val(step)).value;
            (k < |r| <==> lo + k * step < hi)
            && (k < |r| ==> r[k] == s[lo + k * step])
  {
    var lo := SliceBound(start, |s|);
    var hi := if stop.Null? then |s| else SliceBound(stop.value, |s|);
    var r := View(s, start, stop, Val(step)).value;
    assert r == Stride(s, lo, hi, step);
    if k < |r| {
      StrideAt(s, lo, hi, step, k);
    } else {
      StrideComplete(s, lo, hi, step);
      MulMonotone(|r|, k, step);
    }
  }

  lemma MulMonotone(a: nat, b: nat, c: nat)
    requires a <= b
    ensures a * c <= b * c
  {
  }
}
