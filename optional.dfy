/**
 * The `Optional` container of serpio/utils/optional.py.
 *
 * An `Optional` has exactly one field, its element, and is empty exactly when
 * that element is `None`.  The class never updates the field after
 * construction, so it is modelled as a datatype and every method as a pure
 * function.  Raised exceptions become `Err` results.
 *
 * User callbacks (mappers, predicates, suppliers, actions) are modelled as
 * pure Dafny functions.  What the source does with them that a caller can
 * observe -- whether a callback runs, how often, and with which argument --
 * is recorded in a `Traced` value next to the result.
 */
module Optionals {
  import opened Basics

  /** An `Optional`: `element` is the `_element` field; `Null` means empty. */
  datatype Optional<T> = Optional(element: Nullable<T>)

  /** A result together with the arguments of every callback invocation, in call order. */
  datatype Traced<R, A> = Traced(result: R, calls: seq<A>)

  /** What a `flat_map` mapper returned: an `Optional`, or any other (possibly `None`) value. */
  datatype Mapped<U> = Wrapped(opt: Optional<U>) | Plain(value: Nullable<U>)

  /** Which callback `if_present_or_else` runs. */
  datatype Branch<T> = ActionCalled(arg: T) | EmptyActionCalled

  /** `is_empty()`: the element is `None`, which makes the `Optional` the empty one. */
  predicate IsEmpty<T>(o: Optional<T>): (b: bool)
    ensures b <==> o == Optional(Null)
  {
    o.element.Null?
  }

  /** `is_present()`: the negation of `is_empty()`, so an element is held exactly when present. */
  predicate IsPresent<T>(o: Optional<T>): (b: bool)
    ensures b <==> o.element.Val?
    ensures b != IsEmpty(o)
  {
    !IsEmpty(o)
  }

  /** `Optional.empty()`. */
  function Empty<T>(): (o: Optional<T>)
    ensures IsEmpty(o) && !IsPresent(o)
  {
    Optional(Null)
  }

  /** `Optional.of(element)`: refuses `None` with `NoneTypeError`. */
  function Of<T>(x: Nullable<T>): (r: Result<Optional<T>>)
    ensures x.Null? <==> r == Err(NoneTypeError)
    ensures x.Val? ==> r.Ok? && IsPresent(r.value) && Get(r.value) == Ok(x.value)
  {
    if x.Null? then Err(NoneTypeError) else Ok(Optional(x))
  }

  /** `Optional.of_nullable(element)`: wraps anything; `None` gives an empty `Optional`. */
  function OfNullable<T>(x: Nullable<T>): (o: Optional<T>)
    ensures IsEmpty(o) <==> x.Null?
    ensures x.Val? ==> Get(o) == Ok(x.value)
  {
    Optional(x)
  }

  /** `get()`: the element, or `NoSuchElementError` when empty. */
  function Get<T>(o: Optional<T>): (r: Result<T>)
    ensures r.Ok? <==> IsPresent(o)
    ensures r.Ok? ==> o.element == Val(r.value)
    ensures r.Err? ==> r.error == NoSuchElementError
  {
    if IsEmpty(o) then Err(NoSuchElementError) else Ok(o.element.value)
  }

  /** `if_present(action)`: the arguments `action` is called with. */
  function IfPresent<T>(o: Optional<T>): (calls: seq<T>)
    ensures |calls| <= 1
    ensures calls != [] <==> IsPresent(o)
    ensures IsPresent(o) ==> Get(o) == Ok(calls[0])
  {
    if IsPresent(o) then [o.element.value] else []
  }

  /** `if_present_or_else(action, empty_action)`: which of the two callbacks runs. */
  function IfPresentOrElse<T>(o: Optional<T>): (b: Branch<T>)
    ensures b.ActionCalled? <==> IsPresent(o)
    ensures b.ActionCalled? ==> Get(o) == Ok(b.arg)
  {
    if IsPresent(o) then ActionCalled(o.element.value) else EmptyActionCalled
  }

  /** `or_else(value)`: the element when present, `value` otherwise. */
  function OrElse<T>(o: Optional<T>, other: Nullable<T>): (r: Nullable<T>)
    ensures IsPresent(o) ==> r.Val? && Get(o) == Ok(r.value)
    ensures IsEmpty(o) ==> r == other
  {
    if IsPresent(o) then o.element else other
  }

  /** `or_else_get(supplier)`: like `or_else(supplier())`, but `supplier` runs only when empty. */
  function OrElseGet<T>(o: Optional<T>, supplier: () -> Nullable<T>): (r: Traced<Nullable<T>, ()>)
    ensures r.result == OrElse(o, supplier())
    ensures r.calls == if IsEmpty(o) then [()] else []
  {
    if IsPresent(o) then Traced(o.element, []) else Traced(supplier(), [()])
  }

  /**
   * `or_else_raise(supplier=None)`, as written: when empty, a given supplier
   * is called, its return value is dropped, and `NoSuchElementError` is
   * raised all the same.
   */
  function OrElseRaise<T, X>(o: Optional<T>, supplier: Nullable<() -> X>): (r: Traced<Result<T>, ()>)
    ensures r.result == Get(o)
    ensures r.calls == if IsEmpty(o) && supplier.Val? then [()] else []
  {
    if IsPresent(o) then Traced(Ok(o.element.value), [])
    else if supplier.Val? then
      var _ := supplier.value();
      Traced(Err(NoSuchElementError), [()])
    else Traced(Err(NoSuchElementError), [])
  }

  /** The outcome of an `or_else_raise` that raises what its supplier produces. */
  datatype Raising<T, X> = Returns(value: T) | RaisesSupplied(exception: X) | RaisesNoSuchElement

  /** `or_else_raise` as its documentation describes it: the supplier's exception is raised. */
  function OrElseRaiseSupplied<T, X>(o: Optional<T>, supplier: Nullable<() -> X>): (r: Raising<T, X>)
    ensures r.Returns? <==> IsPresent(o)
    ensures r.Returns? ==> Get(o) == Ok(r.value)
    ensures IsEmpty(o) && supplier.Val? ==> r == RaisesSupplied(supplier.value())
    ensures IsEmpty(o) && supplier.Null? ==> r == RaisesNoSuchElement
  {
    if IsPresent(o) then Returns(o.element.value)
    else if supplier.Val? then RaisesSupplied(supplier.value())
    else RaisesNoSuchElement
  }

  /** `map(mapper)`: an empty `Optional` is returned untouched, a present one maps through `of_nullable`. */
  function Map<T, U>(o: Optional<T>, mapper: T -> Nullable<U>): (r: Traced<Optional<U>, T>)
    ensures IsEmpty(o) ==> IsEmpty(r.result) && r.calls == []
    ensures IsPresent(o) ==> r.calls == [o.element.value]
    ensures IsPresent(o) ==> r.result == OfNullable(mapper(o.element.value))
  {
    if IsPresent(o) then Traced(OfNullable(mapper(o.element.value)), [o.element.value])
    else Traced(Optional(Null), [])
  }

  /**
   * `flat_map(mapper)`, as written: an `Optional` returned by the mapper is
   * passed through; any other value is discarded and the mapper is called a
   * second time, its new result wrapped with `of_nullable`.
   */
  function FlatMap<T, U>(o: Optional<T>, mapper: T -> Mapped<U>): (r: Traced<Optional<U>, T>)
    ensures IsEmpty(o) ==> IsEmpty(r.result) && r.calls == []
    ensures IsPresent(o) && mapper(o.element.value).Wrapped? ==>
              r.result == mapper(o.element.value).opt && r.calls == [o.element.value]
    ensures IsPresent(o) && mapper(o.element.value).Plain? ==>
              r.result == OfNullable(mapper(o.element.value).value)
              && r.calls == [o.element.value, o.element.value]
  {
    if IsPresent(o) then
      var x := o.element.value;
      var first := mapper(x);
      if first.Wrapped? then Traced(first.opt, [x])
      else Traced(OfNullable(mapper(x).value), [x, x])
    else Traced(Optional(Null), [])
  }

  /** `flat_map` with the mapper called once and its plain result reused. */
  function FlatMapOnce<T, U>(o: Optional<T>, mapper: T -> Mapped<U>): (r: Traced<Optional<U>, T>)
    ensures IsEmpty(o) ==> IsEmpty(r.result) && r.calls == []
    ensures IsPresent(o) ==> r.calls == [o.element.value]
    ensures IsPresent(o) && mapper(o.element.value).Wrapped? ==> r.result == mapper(o.element.value).opt
    ensures IsPresent(o) && mapper(o.element.value).Plain? ==>
              r.result == OfNullable(mapper(o.element.value).value)
  {
    if IsPresent(o) then
      var x := o.element.value;
      match mapper(x)
      case Wrapped(opt) => Traced(opt, [x])
      case Plain(v) => Traced(OfNullable(v), [x])
    else Traced(Optional(Null), [])
  }

  /**
   * `filter(predicate)`, as written: the guard `self.is_present` names the
   * method without calling it and is always true, so the predicate runs on
   * the element even when that element is `None`.  Either way an empty
   * `Optional` stays empty.
   */
  function Filter<T>(o: Optional<T>, pred: Nullable<T> -> bool): (r: Traced<Optional<T>, Nullable<T>>)
    ensures IsPresent(r.result) <==> IsPresent(o) && pred(o.element)
    ensures IsPresent(r.result) ==> r.result == o
    ensures r.calls == [o.element]
  {
    if pred(o.element) then Traced(o, [o.element]) else Traced(Empty(), [o.element])
  }

  /** `filter` with the guard `self.is_present()` called: the predicate runs only on a present element. */
  function FilterWhenPresent<T>(o: Optional<T>, pred: T -> bool): (r: Traced<Optional<T>, T>)
    ensures IsPresent(r.result) <==> IsPresent(o) && pred(o.element.value)
    ensures IsPresent(r.result) ==> r.result == o
    ensures r.calls == if IsPresent(o) then [o.element.value] else []
  {
    if IsPresent(o) then
      if pred(o.element.value) then Traced(o, [o.element.value])
      else Traced(Empty(), [o.element.value])
    else Traced(o, [])
  }

  /** `__eq__`: both empty, or both present with equal elements; this is equality of `Optional`s. */
  predicate Eq<T(==)>(a: Optional<T>, b: Optional<T>): (r: bool)
    ensures r <==> a == b
  {
    if IsPresent(a) && IsPresent(b) then Get(a) == Get(b)
    else IsEmpty(a) && IsEmpty(b)
  }

  /** `__hash__`: the element's hash when present, 0 when empty. */
  function Hash<T>(o: Optional<T>, hash: T -> int): (h: int)
    ensures IsEmpty(o) ==> h == 0
    ensures IsPresent(o) ==> h == hash(Get(o).value)
  {
    if IsPresent(o) then hash(o.element.value) else 0
  }

  // ---------------------------------------------------------------------
  // Properties relating several operations

  /** `empty()` and `of_nullable(None)` build the same empty `Optional`; presence is the negation of emptiness. */
  lemma EmptyIsOfNullableNone<T>(o: Optional<T>)
    ensures Empty<T>() == OfNullable(Null) && IsEmpty(Empty<T>())
    ensures IsPresent(o) != IsEmpty(o)
  {
  }

  /** `of(x)` and `of_nullable(x)` agree on every non-`None` element. */
  lemma OfAgreesWithOfNullable<T>(x: T)
    ensures Of(Val(x)) == Ok(OfNullable(Val(x)))
  {
  }

  /** `or_else(d)` is `get()` with a fallback. */
  lemma OrElseExtendsGet<T>(o: Optional<T>, d: Nullable<T>)
    ensures Get(o).Ok? ==> OrElse(o, d) == Val(Get(o).value)
    ensures Get(o).Err? ==> OrElse(o, d) == d
  {
  }

  /** `map` with `of_nullable`'s own wrapping as mapper gives back the same `Optional`. */
  lemma MapIdentity<T>(o: Optional<T>)
    ensures Map(o, (x: T) => Val(x)).result == o
  {
  }

  /** Mapping twice is mapping once with the composed mapper, where a `None` stops the chain. */
  lemma MapCompose<T, U, V>(o: Optional<T>, f: T -> Nullable<U>, g: U -> Nullable<V>)
    ensures Map(Map(o, f).result, g).result
         == Map(o, (x: T) => if f(x).Null? then Null else g(f(x).value)).result
  {
  }

  /** For a mapper that never returns an `Optional`, `flat_map` gives `map`'s result but runs the mapper twice. */
  lemma FlatMapOfPlainIsMap<T, U>(o: Optional<T>, f: T -> Nullable<U>)
    ensures FlatMap(o, (x: T) => Plain(f(x))).result == Map(o, f).result
    ensures FlatMap(o, (x: T) => Plain(f(x))).calls == Map(o, f).calls + Map(o, f).calls
  {
  }

  /** `flat_map` of a present element with an `Optional`-returning mapper is that mapper's result. */
  lemma FlatMapLeftIdentity<T, U>(x: T, f: T -> Optional<U>)
    ensures FlatMap(OfNullable(Val(x)), (y: T) => Wrapped(f(y))).result == f(x)
  {
  }

  /** `flat_map` with `of_nullable` as mapper gives back the same `Optional`. */
  lemma FlatMapRightIdentity<T>(o: Optional<T>)
    ensures FlatMap(o, (x: T) => Wrapped(OfNullable(Val(x)))).result == o
  {
  }

  /** `filter` never makes an empty `Optional` present, and keeps a present one exactly when the predicate holds. */
  lemma FilterKeepsIff<T>(o: Optional<T>, p: Nullable<T> -> bool)
    ensures IsEmpty(o) ==> IsEmpty(Filter(o, p).result)
    ensures IsPresent(o) ==> (Filter(o, p).result == o <==> p(o.element))
  {
  }

  /** `__eq__` is an equivalence relation. */
  lemma EqIsEquivalence<T>(a: Optional<T>, b: Optional<T>, c: Optional<T>)
    ensures Eq(a, a)
    ensures Eq(a, b) ==> Eq(b, a)
    ensures Eq(a, b) && Eq(b, c) ==> Eq(a, c)
  {
  }

  /** `__hash__` is consistent with `__eq__`. */
  lemma HashRespectsEq<T>(a: Optional<T>, b: Optional<T>, hash: T -> int)
    requires Eq(a, b)
    ensures Hash(a, hash) == Hash(b, hash)
  {
  }

  // ---------------------------------------------------------------------
  // The behaviour as written against the documented behaviour

  /** Counterexample: an empty `Optional` with a supplier raises `NoSuchElementError`, not the supplier's exception. */
  lemma OrElseRaiseDropsSuppliedException<T, X>(supplier: () -> X)
    ensures OrElseRaise(Empty<T>(), Val(supplier)).result == Err(NoSuchElementError)
    ensures OrElseRaiseSupplied(Empty<T>(), Val(supplier)) == RaisesSupplied(supplier())
  {
  }

  /** Counterexample: `flat_map` runs a mapper that returns a plain value twice; the intended version once. */
  lemma FlatMapCallsMapperTwice<T, U>(x: T, v: Nullable<U>)
    ensures FlatMap(OfNullable(Val(x)), (y: T) => Plain(v)).calls == [x, x]
    ensures FlatMapOnce(OfNullable(Val(x)), (y: T) => Plain(v)).calls == [x]
  {
  }

  /** `flat_map` as written and as intended return the same `Optional`; only the number of mapper calls differs. */
  lemma FlatMapOnceSameResult<T, U>(o: Optional<T>, mapper: T -> Mapped<U>)
    ensures FlatMapOnce(o, mapper).result == FlatMap(o, mapper).result
    ensures |FlatMapOnce(o, mapper).calls| <= |FlatMap(o, mapper).calls|
  {
  }

  /** Counterexample: `filter` on an empty `Optional` calls the predicate with `None`; the intended version does not call it. */
  lemma FilterCallsPredicateOnNone<T>(p: T -> bool)
    ensures Filter(Empty<T>(), (x: Nullable<T>) => x.Val? && p(x.value)).calls == [Null]
    ensures FilterWhenPresent(Empty<T>(), p).calls == []
  {
  }

  /** For a predicate that accepts `None`, `filter` as written and as intended return the same `Optional`. */
  lemma FilterWhenPresentSameResult<T>(o: Optional<T>, p: T -> bool)
    ensures FilterWhenPresent(o, p).result
         == Filter(o, (x: Nullable<T>) => x.Val? && p(x.value)).result
  {
  }
}
