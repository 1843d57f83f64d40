/** The `find_indices` combinator (tests/test_itertools_mixin.py:455-465). */
module Searching {
  import opened Basics

  /** The indices `j` with `i <= j < hi` and `s[j] == value`, in increasing order. */
  function IndicesFrom<T(==)>(s: seq<T>, value: T, i: nat, hi: nat): (r: seq<nat>)
    requires hi <= |s|
    ensures forall k :: 0 <= k < |r| ==> i <= r[k] < hi && s[r[k]] == value
    ensures forall k, l :: 0 <= k < l < |r| ==> r[k] < r[l]
    ensures forall j :: i <= j < hi && s[j] == value ==> j in r
    decreases hi - i
  {
    if hi <= i then []
    else if s[i] == value then [i] + IndicesFrom(s, value, i + 1, hi)
    else IndicesFrom(s, value, i + 1, hi)
  }

  /**
   * `find_indices(value, start, stop)`: in increasing order, every index in
   * `[start, stop)` holding `value`; `stop` omitted means the end.
   */
  function FindIndices<T(==)>(s: seq<T>, value: T, start: nat := 0, stop: Nullable<nat> := Null): (r: seq<nat>)
    ensures forall k :: 0 <= k < |r| ==> start <= r[k] < |s| && s[r[k]] == value
    ensures stop.Val? ==> forall k :: 0 <= k < |r| ==> r[k] < stop.value
    ensures forall k, l :: 0 <= k < l < |r| ==> r[k] < r[l]
    ensures forall j :: start <= j < |s| && (stop.Null? || j < stop.value) && s[j] == value ==> j in r
  {
    IndicesFrom(s, value, start, if stop.Null? then |s| else Min(stop.value, |s|))
  }
}
