/**
 * The query pipeline: a `Query` holds the elements its source will still
 * produce and the `_is_consumed` flag that terminal operations set
 * (tests/test_itertools_mixin.py:222-255).
 *
 * A non-terminal combinator leaves its query untouched and returns a new
 * query over the transformed elements, as specified by the functions of
 * modules Slicing, Windowing, Interleaving, Dedup and Searching.  A terminal
 * operation drains the elements and sets the flag.  `Valid` is the class
 * invariant that a consumed query produces no more elements, so every
 * terminal operation on a consumed query sees an empty source.
 */
module Queries {
  import opened Basics
  import Optionals
  import Slicing
  import Windowing
  import Interleaving
  import Dedup
  import Searching

  /**
   * `to_dict(key_value)`: the pairs produced by `key_value`, as a mapping;
   * of several elements with the same key, the last one wins.
   */
  function AsDict<T, K, V>(s: seq<T>, kv: T -> (K, V)): (m: map<K, V>)
    ensures m.Keys == set i | 0 <= i < |s| :: kv(s[i]).0
  {
    if s == [] then map[]
    else
      var init := s[..|s| - 1];
      var last := kv(s[|s| - 1]);
      assert forall i :: 0 <= i < |s| - 1 ==> init[i] == s[i];
      assert (set i | 0 <= i < |s| :: kv(s[i]).0) == (set i | 0 <= i < |init| :: kv(init[i]).0) + {last.0};
      AsDict(init, kv)[last.0 := last.1]
  }

  /** Of several elements with the same key, the last one gives the value. */
  lemma {:induction false} AsDictLastWins<T, K, V>(s: seq<T>, kv: T -> (K, V), i: nat)
    requires i < |s|
    requires forall j :: i < j < |s| ==> kv(s[j]).0 != kv(s[i]).0
    ensures kv(s[i]).0 in AsDict(s, kv) && AsDict(s, kv)[kv(s[i]).0] == kv(s[i]).1
  {
    var init := s[..|s| - 1];
    if i < |s| - 1 {
      assert init[i] == s[i];
      assert forall j :: i < j < |init| ==> init[j] == s[j];
      AsDictLastWins(init, kv, i);
    }
  }

  class Query<T(==)> {
    /** The elements the query will still produce, in order. */
    var elements: seq<T>
    /** `_is_consumed`: set by every terminal operation. */
    var isConsumed: bool

    /** A consumed query has nothing left to produce. */
    ghost predicate Valid()
      reads this
    {
      isConsumed ==> elements == []
    }

    /** `Query(iterable)` and `Query.of(*values)`. */
    constructor (source: seq<T>)
      ensures Valid() && elements == source && !isConsumed
    {
      elements := source;
      isConsumed := false;
    }

    /** `Query.empty()`. */
    constructor Empty()
      ensures Valid() && elements == [] && !isConsumed
    {
      elements := [];
      isConsumed := false;
    }

    // -------------------------------------------------------------------
    // Terminal operations

    /** `to_list()`: everything the query still produces. */
    method ToList() returns (r: seq<T>)
      requires Valid()
      modifies this
      ensures old(isConsumed) ==> r == []
      ensures r == old(elements)
      ensures Valid() && isConsumed && elements == []
    {
      r := elements;
      elements := [];
      isConsumed := true;
    }

    /** `to_dict(key_value)`. */
    method ToDict<K, V>(kv: T -> (K, V)) returns (m: map<K, V>)
      requires Valid()
      modifies this
      ensures old(isConsumed) ==> m == map[]
      ensures m == AsDict(old(elements), kv)
      ensures Valid() && isConsumed && elements == []
    {
      m := AsDict(elements, kv);
      elements := [];
      isConsumed := true;
    }

    /** `take_nth(index, default)`. */
    method TakeNth(index: int, default: Nullable<T> := Null) returns (o: Optionals.Optional<T>)
      requires Valid()
      modifies this
      ensures old(isConsumed) ==> o == Optionals.OfNullable(default)
      ensures o == Slicing.TakeNth(old(elements), index, default)
      ensures Valid() && isConsumed && elements == []
    {
      o := Slicing.TakeNth(elements, index, default);
      elements := [];
      isConsumed := true;
    }

    /** `all_equal(key)`. */
    method AllEqual<K(==)>(key: T -> K) returns (b: bool)
      requires Valid()
      modifies this
      ensures old(isConsumed) ==> b
      ensures b == Slicing.AllEqual(old(elements), key)
      ensures Valid() && isConsumed && elements == []
    {
      b := Slicing.AllEqual(elements, key);
      elements := [];
      isConsumed := true;
    }

    // -------------------------------------------------------------------
    // Combinators: each returns a new, unconsumed query

    /** `limit(n)`. */
    method Limit(n: nat) returns (q: Query<T>)
      ensures fresh(q) && q.Valid() && !q.isConsumed
      ensures q.elements == Slicing.Limit(elements, n)
    {
      q := new Query(Slicing.Limit(elements, n));
    }

    /** `map(f)`. */
    method Map<U(==)>(f: T -> U) returns (q: Query<U>)
      ensures fresh(q) && q.Valid() && !q.isConsumed
      ensures |q.elements| == |elements|
      ensures forall i :: 0 <= i < |elements| ==> q.elements[i] == f(elements[i])
    {
      q := new Query(seq(|elements|, i requires 0 <= i < |elements| reads this => f(elements[i])));
    }

    /** `tabulate(f, start).limit(n)`: the source is replaced by `f(start), f(start + 1), ...`. */
    method Tabulate<U(==)>(f: int -> U, start: int, n: nat) returns (q: Query<U>)
      ensures fresh(q) && q.Valid() && !q.isConsumed
      ensures q.elements == Slicing.Tabulate(f, start, n)
    {
      q := new Query(Slicing.Tabulate(f, start, n));
    }

    /** `repeat_func(operation, times)`: the elements are the arguments of `operation`. */
    method RepeatFunc<U(==)>(operation: seq<T> -> U, times: int) returns (q: Query<U>)
      ensures fresh(q) && q.Valid() && !q.isConsumed
      ensures q.elements == Slicing.RepeatFunc(operation, elements, times)
    {
      q := new Query(Slicing.RepeatFunc(operation, elements, times));
    }

    /** `ncycles(count)`. */
    method NCycles(count: int) returns (q: Query<T>)
      ensures fresh(q) && q.Valid() && !q.isConsumed
      ensures q.elements == Slicing.NCycles(elements, count)
    {
      q := new Query(Slicing.NCycles(elements, count));
    }

    /** `consume(n)`. */
    method Consume(n: Nullable<int> := Null) returns (r: Result<Query<T>>)
      ensures Slicing.Consume(elements, n).Err? ==> r == Err(Slicing.Consume(elements, n).error)
      ensures Slicing.Consume(elements, n).Ok? ==>
                r.Ok? && fresh(r.value) && r.value.Valid() && !r.value.isConsumed
                && r.value.elements == Slicing.Consume(elements, n).value
    {
      var c := Slicing.Consume(elements, n);
      if c.Err? {
        return Err(c.error);
      }
      var q := new Query(c.value);
      return Ok(q);
    }

    /** `view(start, stop, step)`. */
    method View(start: int := 0, stop: Nullable<int> := Null, step: Nullable<int> := Null)
      returns (r: Result<Query<T>>)
      ensures Slicing.View(elements, start, stop, step).Err? ==>
                r == Err(Slicing.View(elements, start, stop, step).error)
      ensures Slicing.View(elements, start, stop, step).Ok? ==>
                r.Ok? && fresh(r.value) && r.value.Valid() && !r.value.isConsumed
                && r.value.elements == Slicing.View(elements, start, stop, step).value
    {
      var v := Slicing.View(elements, start, stop, step);
      if v.Err? {
        return Err(v.error);
      }
      var q := new Query(v.value);
      return Ok(q);
    }

    /** `sliding_window(n)`. */
    method SlidingWindow(n: int) returns (r: Result<Query<seq<T>>>)
      ensures Windowing.SlidingWindow(elements, n).Err? ==>
                r == Err(Windowing.SlidingWindow(elements, n).error)
      ensures Windowing.SlidingWindow(elements, n).Ok? ==>
                r.Ok? && fresh(r.value) && r.value.Valid() && !r.value.isConsumed
                && r.value.elements == Windowing.SlidingWindow(elements, n).value
    {
      var w := Windowing.SlidingWindow(elements, n);
      if w.Err? {
        return Err(w.error);
      }
      var q := new Query(w.value);
      return Ok(q);
    }

    /** `subslices()`. */
    method Subslices() returns (q: Query<seq<T>>)
      ensures fresh(q) && q.Valid() && !q.isConsumed
      ensures q.elements == Windowing.Subslices(elements)
    {
      q := new Query(Windowing.Subslices(elements));
    }

    /** `grouper(n, incomplete, fill_value)`. */
    method Grouper(n: int, incomplete: string := "fill", fill: T) returns (r: Result<Query<seq<T>>>)
      ensures Windowing.Grouper(elements, n, incomplete, fill).Err? ==>
                r == Err(Windowing.Grouper(elements, n, incomplete, fill).error)
      ensures Windowing.Grouper(elements, n, incomplete, fill).Ok? ==>
                r.Ok? && fresh(r.value) && r.value.Valid() && !r.value.isConsumed
                && r.value.elements == Windowing.Grouper(elements, n, incomplete, fill).value
    {
      var g := Windowing.Grouper(elements, n, incomplete, fill);
      if g.Err? {
        return Err(g.error);
      }
      var q := new Query(g.value);
      return Ok(q);
    }

    /** `partition(predicate)`: a query of two groups, the true group first. */
    method Partition(p: T -> bool) returns (q: Query<seq<T>>)
      ensures fresh(q) && q.Valid() && !q.isConsumed
      ensures q.elements == Interleaving.Partition(elements, p)
    {
      q := new Query(Interleaving.Partition(elements, p));
    }

    /** `unique(key, reverse)`. */
    method Unique<K(==)>(key: T -> K, reverse: bool := false) returns (q: Query<T>)
      ensures fresh(q) && q.Valid() && !q.isConsumed
      ensures q.elements == Dedup.Unique(elements, key, reverse)
    {
      q := new Query(Dedup.Unique(elements, key, reverse));
    }

    /** `unique_just_seen(key)`. */
    method UniqueJustSeen<K(==)>(key: T -> K) returns (q: Query<T>)
      ensures fresh(q) && q.Valid() && !q.isConsumed
      ensures q.elements == Dedup.UniqueJustSeen(elements, key)
    {
      q := new Query(Dedup.UniqueJustSeen(elements, key));
    }

    /** `unique_ever_seen(key)`. */
    method UniqueEverSeen<K(==)>(key: T -> K) returns (q: Query<T>)
      ensures fresh(q) && q.Valid() && !q.isConsumed
      ensures q.elements == Dedup.UniqueEverSeen(elements, key)
    {
      q := new Query(Dedup.UniqueEverSeen(elements, key));
    }

    /** `find_indices(value, start, stop)`. */
    method FindIndices(value: T, start: nat := 0, stop: Nullable<nat> := Null) returns (q: Query<nat>)
      ensures fresh(q) && q.Valid() && !q.isConsumed
      ensures q.elements == Searching.FindIndices(elements, value, start, stop)
    {
      q := new Query(Searching.FindIndices(elements, value, start, stop));
    }
  }

  /** `round_robin()` on a query whose elements are themselves sequences. */
  method RoundRobin<U(==)>(source: Query<seq<U>>) returns (q: Query<U>)
    ensures fresh(q) && q.Valid() && !q.isConsumed
    ensures q.elements == Interleaving.RoundRobin(source.elements)
  {
    q := new Query(Interleaving.RoundRobin(source.elements));
  }
}
