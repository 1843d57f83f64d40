# serpio: the `Optional` container and the query recipe combinators

This project models two parts of serpio, a Python library of lazy,
chainable queries over iterables, and proves properties of the model.

- **`Optional`** (serpio/utils/optional.py) is a value container with one
  field, `_element`. It is empty exactly when that field is `None`. The class
  never updates the field, so module `Optionals` models it as a datatype and
  each method as a pure function. A raised exception becomes an `Err` result.
  Where the source runs a user callback, the model returns a `Traced` value.
  It records which arguments each call got, in call order. This makes three
  quirks of the code visible and provable:
  - `flat_map` runs its mapper a second time;
  - `filter` calls its predicate on an empty `Optional`;
  - `or_else_raise` calls its supplier but drops what the supplier returns.
- **The query recipe combinators** are pinned down by
  tests/test_itertools_mixin.py:182-465. Each combinator is a specification
  function over the finite sequence of elements a query would produce:
  - `limit`, `tabulate`, `repeat_func`, `ncycles`, `consume`, `take_nth`,
    `all_equal` and `view` are in module `Slicing`;
  - `sliding_window`, `subslices` and `grouper` are in `Windowing`;
  - `partition` and `round_robin` are in `Interleaving`;
  - `unique`, `unique_just_seen` and `unique_ever_seen` are in `Dedup`;
  - `find_indices` is in `Searching`.
- **`Queries.Query`** is a class that holds two fields:
  - the elements the query will still produce;
  - the `_is_consumed` flag.

  A terminal operation drains the elements and sets the flag. These are
  `to_list`, `to_dict`, `take_nth` and `all_equal`. Every other combinator
  returns a fresh, unconsumed query over the transformed elements. Its
  contract ties those elements to the specification function.
- **Module `Scenarios`** replays the test cases as client code of `Query`.
  Where the expected elements take more than a few unfoldings, they are
  first derived as an example lemma about the specification functions;
  the other scenarios assert their results directly.

Where the prose description of the library and the code differ, the model
follows the code:
- `or_else_raise` raises `NoSuchElementError` even when a supplier is given.
- `filter` runs its predicate on an empty `Optional`.
- The exceptions are `NoneTypeError` and `NoSuchElementError`, as
  serpio/utils/optional.py names them.

The behaviour those descriptions call for is also modelled and related to
the code; see "## Findings".

Shared types are in module `Basics`:
- `Nullable<T>` is a Python value that may be `None`.
- `Exception` and `ValueErrorReason` are error tags in place of message
  strings.
- `Result<R>` is the outcome of a call that may raise.

Module `Seqs` holds the sequence helpers.

## Model

| member | source | states |
|---|---|---|
| Optionals.Empty | serpio/utils/optional.py:10-13 | `empty()` is empty and not present |
| Optionals.Of | serpio/utils/optional.py:15-20 | `of(None)` raises `NoneTypeError`, and only `None` does; `of(x)` is present and `get()` returns `x` |
| Optionals.OfNullable | serpio/utils/optional.py:22-28 | `of_nullable(v)` is empty exactly when `v` is `None`; otherwise `get()` returns `v` |
| Optionals.Get | serpio/utils/optional.py:30-34 | `get()` succeeds exactly when present and returns the element; on an empty `Optional` it raises `NoSuchElementError` |
| Optionals.IfPresent | serpio/utils/optional.py:44-47 | the action runs once, with the element, exactly when present; it never runs on an empty `Optional` |
| Optionals.IfPresentOrElse | serpio/utils/optional.py:49-56 | the action runs with the element exactly when present; otherwise `empty_action` runs |
| Optionals.OrElse | serpio/utils/optional.py:58-63 | the element when present, the given value when empty |
| Optionals.OrElseGet | serpio/utils/optional.py:65-70 | returns what `or_else(supplier())` returns; the supplier is called once when empty and never when present |
| Optionals.OrElseRaise | serpio/utils/optional.py:72-82 | returns what `get()` returns: the element, or `NoSuchElementError` when empty; a given supplier is called exactly once, only when empty, and its result is ignored |
| Optionals.OrElseRaiseSupplied | serpio/utils/optional.py:72-77 | the documented behaviour: returns the element when present; when empty it raises the supplier's exception if a supplier is given, else `NoSuchElementError` |
| Optionals.Map | serpio/utils/optional.py:84-87 | an empty `Optional` stays empty and the mapper is not called; a present one gives `of_nullable(mapper(x))` after one call with `x` |
| Optionals.FlatMap | serpio/utils/optional.py:89-95 | an empty `Optional` stays empty with no call; an `Optional` returned by the mapper is passed through after one call; a plain result is replaced by `of_nullable` of a second call with the same element |
| Optionals.FlatMapOnce | serpio/utils/optional.py:89-95 | the intended `flat_map`: the same results, with the mapper called exactly once on a present element |
| Optionals.Filter | serpio/utils/optional.py:97-102 | the result is present exactly when the source is present and the predicate holds, and is then the source itself; the predicate is called once with the raw element, even when that element is `None` |
| Optionals.FilterWhenPresent | serpio/utils/optional.py:97-102 | the intended `filter`: the same presence rule, but the predicate is called only on a present element |
| Optionals.Hash | serpio/utils/optional.py:114-115 | `__hash__` is 0 when empty and the element's hash when present |
| Optionals.EmptyIsOfNullableNone | serpio/utils/optional.py:10-42 | `empty()` equals `of_nullable(None)` and is empty; `is_present()` is always the negation of `is_empty()` |
| Optionals.OfAgreesWithOfNullable | serpio/utils/optional.py:15-28 | `of` and `of_nullable` build the same `Optional` from every non-`None` value |
| Optionals.OrElseExtendsGet | serpio/utils/optional.py:30-63 | `or_else(d)` returns `get()` when `get()` succeeds, and `d` exactly when it raises |
| Optionals.MapIdentity | serpio/utils/optional.py:84-87 | mapping with the identity gives back the same `Optional` |
| Optionals.MapCompose | serpio/utils/optional.py:84-87 | mapping with `f` then `g` equals mapping once with their composition, where a `None` from `f` ends the chain |
| Optionals.FlatMapOfPlainIsMap | serpio/utils/optional.py:84-95 | for a mapper that never returns an `Optional`, `flat_map` returns what `map` returns but makes twice as many calls |
| Optionals.FlatMapLeftIdentity | serpio/utils/optional.py:89-95 | `flat_map` of a present `x` with an `Optional`-returning `f` is `f(x)` |
| Optionals.FlatMapRightIdentity | serpio/utils/optional.py:89-95 | `flat_map` with `of_nullable` as the mapper gives back the same `Optional` |
| Optionals.FilterKeepsIff | serpio/utils/optional.py:97-102 | `filter` keeps an empty `Optional` empty; it returns a present one unchanged if and only if the predicate holds |
| Optionals.IsEmpty | serpio/utils/optional.py:40-42 | `is_empty()` holds exactly for the `Optional` whose element is `None` |
| Optionals.IsPresent | serpio/utils/optional.py:36-38 | `is_present()` holds exactly when an element is held, and is the negation of `is_empty()` |
| Optionals.Eq | serpio/utils/optional.py:109-112 | `__eq__` (both empty, or both present with equal elements) holds exactly for equal `Optional`s |
| Optionals.EqIsEquivalence | serpio/utils/optional.py:109-112 | `__eq__` is reflexive, symmetric and transitive |
| Optionals.HashRespectsEq | serpio/utils/optional.py:109-115 | equal `Optional`s have equal hashes |
| Optionals.OrElseRaiseDropsSuppliedException | serpio/utils/optional.py:72-82 | counterexample: with a supplier on an empty `Optional`, the code raises `NoSuchElementError`, while the documented behaviour raises the supplier's exception |
| Optionals.FlatMapCallsMapperTwice | serpio/utils/optional.py:89-95 | counterexample: a mapper returning a plain value is called twice by `flat_map` and once by the intended version |
| Optionals.FlatMapOnceSameResult | serpio/utils/optional.py:89-95 | the written and intended `flat_map` return the same `Optional`; the intended one never makes more calls |
| Optionals.FilterCallsPredicateOnNone | serpio/utils/optional.py:97-102 | counterexample: `filter` on an empty `Optional` calls the predicate with `None`; the intended version makes no call |
| Optionals.FilterWhenPresentSameResult | serpio/utils/optional.py:97-102 | for a predicate lifted to accept `None`, the written and intended `filter` return the same `Optional` |
| Slicing.Limit | tests/test_itertools_mixin.py:182-184 | `limit(n)` yields a prefix of the elements of length `min(n, len)` |
| Slicing.Tabulate | tests/test_itertools_mixin.py:182-184 | `tabulate(f, start).limit(n)` yields `n` elements, the `i`-th being `f(start + i)` |
| Slicing.LimitTabulate | tests/test_itertools_mixin.py:182-184 | limiting a longer prefix of `tabulate` gives the shorter prefix |
| Slicing.RepeatFunc | tests/test_itertools_mixin.py:187-191 | `repeat_func(op, times)` yields `max(0, times)` values, each `op` applied to the query's elements |
| Slicing.NCycles | tests/test_itertools_mixin.py:194-205 | `ncycles(count)` has length `len * max(0, count)`, starts with the elements, and repeats with period `len` |
| Slicing.NCyclesAdd | tests/test_itertools_mixin.py:194-197 | cycling `a + b` times is cycling `a` times and then `b` times |
| Slicing.Consume | tests/test_itertools_mixin.py:208-219 | `consume()` drains everything; `consume(n)` with `n >= 0` leaves exactly what follows the first `n` elements; a negative `n` raises `ValueError` |
| Slicing.TakeNth | tests/test_itertools_mixin.py:222-237 | `take_nth(i)` holds the element at `i`, a negative `i` counting from the end; out of range it is `of_nullable(default)` |
| Slicing.AllEqual | tests/test_itertools_mixin.py:240-255 | `all_equal(key)` holds if and only if every two elements have equal keys |
| Slicing.SliceBound | tests/test_itertools_mixin.py:259-290 | a slice bound counts from the end when negative and is clamped to `[0, len]` |
| Slicing.View | tests/test_itertools_mixin.py:259-296 | a non-positive step raises `ValueError`, and only it does; with the default step the result is the slice between the normalised bounds |
| Slicing.ViewStepped | tests/test_itertools_mixin.py:271-272 | with step `k`, element `i` of the view is the source element at `lo + i * k`, and the view has an `i`-th element exactly when that index is below the upper bound |
| Windowing.Windows | tests/test_itertools_mixin.py:300-310 | there are `len - n + 1` windows, none for a source shorter than `n`, each of length `n` |
| Windowing.WindowsAt | tests/test_itertools_mixin.py:300-306 | window `i` is the `n` elements starting at position `i` |
| Windowing.WindowsOverlap | tests/test_itertools_mixin.py:300-306 | consecutive windows overlap in `n - 1` elements |
| Windowing.SlidingWindow | tests/test_itertools_mixin.py:300-316 | a negative size raises `ValueError`, and only it does; otherwise the result is the windows |
| Windowing.Prefixes | tests/test_itertools_mixin.py:319-331 | the `j`-th prefix is the first `j + 1` elements |
| Windowing.Subslices | tests/test_itertools_mixin.py:319-335 | `subslices()` yields `0 + 1 + ... + len` slices, none for an empty source |
| Windowing.TriangleClosedForm | tests/test_itertools_mixin.py:319-331 | that count is `len * (len + 1) / 2` |
| Windowing.SubslicesAt | tests/test_itertools_mixin.py:319-331 | every non-empty slice `[i..j]` appears in `subslices()` at position `SlicePos(len, i, j)` |
| Windowing.SlicePosOrdered | tests/test_itertools_mixin.py:319-331 | those positions are ordered by start index, then by end index, so each slice appears once, in that order |
| Windowing.Chunks | tests/test_itertools_mixin.py:349-389 | the complete chunks of size `n` form a prefix of the source, and fewer than `n` elements are left over |
| Windowing.Pad | tests/test_itertools_mixin.py:349-370 | a short chunk is padded with `fill` up to size `n`, and its own elements are kept in front |
| Windowing.PaddedChunks | tests/test_itertools_mixin.py:349-370 | under "fill", the chunks hold the source followed by fewer than `n` copies of `fill` |
| Windowing.Grouper | tests/test_itertools_mixin.py:349-389 | an unknown flag raises at once; every chunk has size `n`. "fill" pads only the end, "ignore" drops the short tail, and "strict" raises `ValueError` exactly when a tail is left over |
| Interleaving.Partition | tests/test_itertools_mixin.py:338-342 | two groups: the true group first, the false group second; together they hold the source elements as a multiset |
| Interleaving.PartitionKeepsOrder | tests/test_itertools_mixin.py:338-342 | each group keeps source order, because partitioning a concatenation concatenates the groups |
| Interleaving.RoundSplits | tests/test_itertools_mixin.py:345-346 | one round takes one element from each non-empty source and keeps the rest |
| Interleaving.HeadsEmpty | tests/test_itertools_mixin.py:345-346 | a round is empty exactly when every source is exhausted |
| Interleaving.RoundRobin | tests/test_itertools_mixin.py:345-346 | `round_robin()` yields every element of every source exactly once |
| Interleaving.RoundRobinSingle | tests/test_itertools_mixin.py:345-346 | a single source is yielded unchanged |
| Dedup.UniqueJustSeen | tests/test_itertools_mixin.py:429-444 | `unique_just_seen` keeps the first element; no two adjacent results share a key; every result comes from the source; an empty source gives nothing |
| Dedup.UniqueJustSeenSnoc | tests/test_itertools_mixin.py:429-440 | a new element is yielded exactly when its key differs from that of the element just before it |
| Dedup.UniqueJustSeenIdempotent | tests/test_itertools_mixin.py:429-440 | applying `unique_just_seen` twice is applying it once |
| Dedup.EverSeenFromKeys | tests/test_itertools_mixin.py:447-452 | every key not yet seen is kept |
| Dedup.UniqueEverSeen | tests/test_itertools_mixin.py:447-452 | `unique_ever_seen` yields pairwise distinct keys, covers every key of the source, and yields only source elements |
| Dedup.UniqueEverSeenSnoc | tests/test_itertools_mixin.py:447-452 | a new element is yielded exactly when no earlier element had its key |
| Dedup.Unique | tests/test_itertools_mixin.py:393-426 | `unique` yields pairwise distinct keys, covers every key of the source, and yields only source elements; its order is pinned by `UniqueSnoc` (forward) and `UniqueReverse` (reversed) |
| Dedup.UniqueSnoc | tests/test_itertools_mixin.py:393-426 | `unique()` yields a new element exactly when no earlier element had its key: the first element with each key, in order of first occurrence |
| Dedup.UniqueReverse | tests/test_itertools_mixin.py:397-426 | `unique(reverse=True)` is exactly the reverse of `unique()`, and the other way round |
| Searching.FindIndices | tests/test_itertools_mixin.py:456-465 | `find_indices` yields, in strictly increasing order, exactly the indices in `[start, stop)` that hold `value` |
| Queries.AsDict | tests/test_itertools_mixin.py:401-412 | the keys of `to_dict` are the keys of the produced pairs |
| Queries.AsDictLastWins | tests/test_itertools_mixin.py:401-412 | the value of a key is the one from its last pair |
| Queries.Query.constructor | tests/test_itertools_mixin.py:208-209 | `Query(iterable)` and `Query.of(...)` start unconsumed, holding the given elements |
| Queries.Query.Empty | tests/test_itertools_mixin.py:236-237 | `Query.empty()` starts unconsumed and holds no elements |
| Queries.Query.ToList | tests/test_itertools_mixin.py:194-197 | `to_list()` returns the remaining elements, then marks the query consumed and drained; on an already consumed query it returns nothing |
| Queries.Query.ToDict | tests/test_itertools_mixin.py:401-412 | `to_dict(kv)` returns `AsDict` of the remaining elements and consumes the query; on an already consumed query it returns an empty mapping |
| Queries.Query.TakeNth | tests/test_itertools_mixin.py:222-237 | `take_nth` returns `Slicing.TakeNth` of the remaining elements and sets `_is_consumed`; on an already consumed query it returns `of_nullable(default)` |
| Queries.Query.AllEqual | tests/test_itertools_mixin.py:240-255 | `all_equal` returns `Slicing.AllEqual` of the remaining elements and sets `_is_consumed`; on an already consumed query it returns true |
| Queries.Query.Limit | tests/test_itertools_mixin.py:182-184 | a fresh unconsumed query over `Slicing.Limit` of the elements |
| Queries.Query.Map | tests/test_itertools_mixin.py:338-342 | a fresh unconsumed query of the same length whose `i`-th element is `f` of the `i`-th element |
| Queries.Query.Tabulate | tests/test_itertools_mixin.py:182-184 | a fresh unconsumed query over `Slicing.Tabulate` |
| Queries.Query.RepeatFunc | tests/test_itertools_mixin.py:187-191 | a fresh unconsumed query over `Slicing.RepeatFunc` of the elements |
| Queries.Query.NCycles | tests/test_itertools_mixin.py:194-205 | a fresh unconsumed query over `Slicing.NCycles` of the elements |
| Queries.Query.Consume | tests/test_itertools_mixin.py:208-219 | raises what `Slicing.Consume` raises; otherwise a fresh unconsumed query over its result |
| Queries.Query.View | tests/test_itertools_mixin.py:259-296 | raises what `Slicing.View` raises; otherwise a fresh unconsumed query over its result |
| Queries.Query.SlidingWindow | tests/test_itertools_mixin.py:300-316 | raises what `Windowing.SlidingWindow` raises; otherwise a fresh unconsumed query over the windows |
| Queries.Query.Subslices | tests/test_itertools_mixin.py:319-335 | a fresh unconsumed query over `Windowing.Subslices` of the elements |
| Queries.Query.Grouper | tests/test_itertools_mixin.py:349-389 | raises what `Windowing.Grouper` raises; otherwise a fresh unconsumed query over the chunks |
| Queries.Query.Partition | tests/test_itertools_mixin.py:338-342 | a fresh unconsumed query over the two groups of `Interleaving.Partition` |
| Queries.Query.Unique | tests/test_itertools_mixin.py:393-426 | a fresh unconsumed query over `Dedup.Unique` of the elements |
| Queries.Query.UniqueJustSeen | tests/test_itertools_mixin.py:429-444 | a fresh unconsumed query over `Dedup.UniqueJustSeen` of the elements |
| Queries.Query.UniqueEverSeen | tests/test_itertools_mixin.py:447-452 | a fresh unconsumed query over `Dedup.UniqueEverSeen` of the elements |
| Queries.Query.FindIndices | tests/test_itertools_mixin.py:456-465 | a fresh unconsumed query over `Searching.FindIndices` of the elements |
| Queries.RoundRobin | tests/test_itertools_mixin.py:345-346 | a fresh unconsumed query over `Interleaving.RoundRobin` of the sources |
| Scenarios.SlidingWindowExample | tests/test_itertools_mixin.py:300-306 | the size-4 windows of "ABCDEFG" are ABCD, BCDE, CDEF and DEFG |
| Scenarios.SubslicesExample | tests/test_itertools_mixin.py:319-331 | the subslices of "ABCD" are A, AB, ABC, ABCD, B, BC, BCD, C, CD, D |
| Scenarios.PartitionExample | tests/test_itertools_mixin.py:338-342 | partitioning 0..9 by oddness gives [1, 3, 5, 7, 9] and then [0, 2, 4, 6, 8] |
| Scenarios.RoundRobinThreeSources | tests/test_itertools_mixin.py:345-346 | over sources of lengths three, one and two, the order is a, d, e, b, f, c |
| Scenarios.RoundRobinExample | tests/test_itertools_mixin.py:345-346 | `round_robin` over "ABC", "D", "EF" yields A, D, E, B, F, C |
| Scenarios.GrouperExample | tests/test_itertools_mixin.py:349-389 | "ABCDEFG" in threes: fill gives ABC, DEF, Gxx; strict raises; ignore gives ABC, DEF; "foo" raises the invalid-flag error |
| Scenarios.GrouperNoneFillExample | tests/test_itertools_mixin.py:365-370 | with the default `None` fill, the last chunk is G, None, None |
| Scenarios.UniqueExample | tests/test_itertools_mixin.py:393-398 | `unique` of [1, 2], [3, 4], [1, 2] is [1, 2], [3, 4]; reversed it is [3, 4], [1, 2] |
| Scenarios.UniqueCustomKeyExample | tests/test_itertools_mixin.py:401-426 | by `num`, `unique(...).to_dict(...)` is {foo: 1, bar: 2, fizz: 3, buzz: 4}; reversed it is buzz, fizz, bar, foo |
| Scenarios.UniqueJustSeenFoldExample | tests/test_itertools_mixin.py:433-440 | `unique_just_seen` of "ABBcCAD" under casefold is A, B, c, A, D |
| Scenarios.UniqueEverSeenFoldExample | tests/test_itertools_mixin.py:451-452 | `unique_ever_seen` of "ABBcCAD" under casefold is A, B, c, D |
| Scenarios.FindIndicesExample | tests/test_itertools_mixin.py:456-457 | the indices of "A" in "AABCADEAF" are 0, 1, 4, 7 |
| Scenarios.FindIndicesStartExample | tests/test_itertools_mixin.py:460-461 | from `start=3` they are 4, 7 |
| Scenarios.FindIndicesStopExample | tests/test_itertools_mixin.py:464-465 | below `stop=5` they are 0, 1, 4 |

## Left out

- Laziness and infinite sources are not modelled. Every combinator works on
  the finite sequence a query would produce. An unbounded `tabulate` appears
  only together with the `limit(n)` that bounds it.
- The source of the `Query` class is not part of this model. The model gives a derived query its own copy of the
  elements. It does not model how a derived query shares, and advances, the
  iterator of the query it came from.
- Queries.Query.TakeNth: drains the whole query. A lazy `take_nth` may read
  only up to the index. The `_is_consumed` flag is set either way.
- Callbacks are pure, total Dafny functions. Exceptions raised inside a
  callback are not modelled, such as the `TypeError` a predicate may raise on
  `None` in `filter`. Side effects of `if_present` actions are not modelled
  either; the model records only which callback runs and with what argument.
- `Optional.__repr__` and exact exception messages are not modelled. Errors
  are tags (`NoneTypeError`, `NoSuchElementError`, `ValueError(reason)`).
- `__eq__` against an object that is not an `Optional` is not modelled.
- Python's `hash` is a parameter function. Its integer width is not modelled.
- The `use(...)` passthrough tests (tests/test_itertools_mixin.py:9-179)
  forward to Python's `itertools` and are not modelled.
  fumus/decorators/wrapper.py is not part of this model.
- Elements of a query are never `None`. The `grouper` scenarios with the
  default `None` fill use `Nullable` elements.
- Slicing.View: models positive steps only. A non-positive step is an error;
  the test for that error is not collected by pytest (`rest_view_negative_step`).
- Searching.FindIndices: `start` and `stop` are natural numbers. Negative
  bounds are not pinned by the tests.
- Slicing.Limit: `n` is a natural number. A negative limit is not modelled.
- Windowing.SlidingWindow: a size of 0 yields `len + 1` empty windows. No
  test pins this case.
- Windowing.Grouper: a size of 0 or less yields no chunks, as a zip of no
  iterators does. No test pins this case.
- Dedup.Unique: its own contract does not fix the order; `Dedup.UniqueSnoc`
  and `Dedup.UniqueReverse` do, as first-occurrence order. The tests cannot
  tell this apart from an order sorted by key, because every test input
  lists its keys in ascending order.
- Interleaving.RoundRobin: its contract states that every element is yielded
  exactly once. The round order comes from its definition through
  `Heads`/`Tails`. It is shown by `Scenarios.RoundRobinExample`, not stated
  as an index formula.
- `ncycles` in the test runs over the Python set `{1, 2, 3}`. The scenario
  uses the sequence `[1, 2, 3]`, the set's iteration order for small ints.
- The test at tests/test_itertools_mixin.py:237 checks the bound method
  `is_empty` without calling it. The scenario checks that the result is
  actually empty.
- `len % n` is written as repeated subtraction (`Windowing.Rem`).
- The 15-character inputs of the `unique_just_seen` and `unique_ever_seen`
  tests (tests/test_itertools_mixin.py:429-430 and 447-448) are not derived
  as example lemmas. They are covered only by the general contracts and the
  streaming lemmas `UniqueJustSeenSnoc` and `UniqueEverSeenSnoc`.
  `partition` and `round_robin` appear as example lemmas about the
  specification functions; `partition` also has no `Query` scenario method.

## Findings

| source | as written | input that shows it | evidently intended | confidence | as-written member | corrected member |
|---|---|---|---|---|---|---|
| serpio/utils/optional.py:89-95 | when the mapper's first result is not an `Optional`, the result is dropped and the mapper is called a second time | `Optional.of(1).flat_map(m)` with `m` returning a plain value calls `m(1)` twice | call the mapper once and wrap its result with `of_nullable` | high; not executed | Optionals.FlatMapCallsMapperTwice | Optionals.FlatMapOnceSameResult |
| serpio/utils/optional.py:97-102 | the guard `if self.is_present:` tests the bound method, which is always true, so the predicate runs on an empty `Optional` | `Optional.empty().filter(p)` calls `p(None)` | `if self.is_present():` — an empty `Optional` is returned without calling the predicate | high; not executed | Optionals.FilterCallsPredicateOnNone | Optionals.FilterWhenPresentSameResult |
| serpio/utils/optional.py:72-82 | on an empty `Optional` the supplier is called, its return value is dropped, and `NoSuchElementError` is raised | `Optional.empty().or_else_raise(lambda: KeyError())` raises `NoSuchElementError` | raise the exception the supplier produces, as the docstring says | high; not executed | Optionals.OrElseRaiseDropsSuppliedException | Optionals.OrElseRaiseSupplied |
