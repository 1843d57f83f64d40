/**
 * Query combinators that drop repeated elements: `unique`,
 * `unique_just_seen` and `unique_ever_seen`
 * (tests/test_itertools_mixin.py:392-452).  Elements are compared through a
 * key function; the identity is the default key.
 */
module Dedup {
  import opened Seqs

  // ---------------------------------------------------------------------
  // unique_just_seen

  /** The key of the last element of `s`, or `prev` when `s` is empty. */
  function LastKey<T, K>(s: seq<T>, key: T -> K, prev: K): K
  {
    if s == [] then prev else key(s[|s| - 1])
  }

  /** The elements of `s` whose key differs from that of the element just before them; `prev` is the key before `s[0]`. */
  function JustSeenAfter<T, K(==)>(s: seq<T>, key: T -> K, prev: K): (r: seq<T>)
    ensures |r| <= |s|
    ensures r != [] ==> key(r[0]) != prev
    ensures forall i :: 0 <= i < |r| - 1 ==> key(r[i]) != key(r[i + 1])
    ensures forall x :: x in r ==> x in s
  {
    if s == [] then []
    else if key(s[0]) == prev then JustSeenAfter(s[1..], key, prev)
    else [s[0]] + JustSeenAfter(s[1..], key, key(s[0]))
  }

  /**
   * `unique_just_seen(key)`: every run of adjacent elements with equal keys
   * collapses to its first element.
   */
  function UniqueJustSeen<T, K(==)>(s: seq<T>, key: T -> K): (r: seq<T>)
    ensures |r| <= |s|
    ensures s != [] ==> r != [] && r[0] == s[0]
    ensures forall i :: 0 <= i < |r| - 1 ==> key(r[i]) != key(r[i + 1])
    ensures forall x :: x in r ==> x in s
  {
    if s == [] then [] else [s[0]] + JustSeenAfter(s[1..], key, key(s[0]))
  }

  lemma {:induction false} JustSeenAfterSnoc<T, K>(s: seq<T>, x: T, key: T -> K, prev: K)
    ensures JustSeenAfter(s + [x], key, prev)
         == JustSeenAfter(s, key, prev) + (if key(x) == LastKey(s, key, prev) then [] else [x])
  {
    if s == [] {
      assert JustSeenAfter([x], key, prev) == if key(x) == prev then [] else [x];
    } else {
      assert (s + [x])[1..] == s[1..] + [x];
      var prev' := if key(s[0]) == prev then prev else key(s[0]);
      JustSeenAfterSnoc(s[1..], x, key, prev');
      assert LastKey(s[1..], key, prev') == LastKey(s, key, prev);
    }
  }

  /**
   * Streaming view of `unique_just_seen`: a new element is yielded exactly
   * when its key differs from that of the element just before it.
   */
  lemma UniqueJustSeenSnoc<T, K>(s: seq<T>, x: T, key: T -> K)
    ensures UniqueJustSeen(s + [x], key)
         == UniqueJustSeen(s, key) + (if s != [] && key(x) == key(s[|s| - 1]) then [] else [x])
  {
    if s != [] {
      assert (s + [x])[1..] == s[1..] + [x];
      JustSeenAfterSnoc(s[1..], x, key, key(s[0]));
    }
  }

  lemma {:induction false} JustSeenAfterFixed<T, K>(t: seq<T>, key: T -> K, prev: K)
    requires t != [] ==> key(t[0]) != prev
    requires forall i :: 0 <= i < |t| - 1 ==> key(t[i]) != key(t[i + 1])
    ensures JustSeenAfter(t, key, prev) == t
  {
    if t != [] {
      JustSeenAfterFixed(t[1..], key, key(t[0]));
    }
  }

  /** `unique_just_seen` is idempotent. */
  lemma UniqueJustSeenIdempotent<T, K>(s: seq<T>, key: T -> K)
    ensures UniqueJustSeen(UniqueJustSeen(s, key), key) == UniqueJustSeen(s, key)
  {
    var t := UniqueJustSeen(s, key);
    if t != [] {
      JustSeenAfterFixed(t[1..], key, key(t[0]));
    }
  }

  // ---------------------------------------------------------------------
  // unique_ever_seen and unique

  /** The elements of `s` whose key is neither in `seen` nor the key of an earlier element of `s`. */
  function EverSeenFrom<T, K(==)>(s: seq<T>, key: T -> K, seen: set<K>): (r: seq<T>)
    ensures |r| <= |s|
    ensures forall i, j :: 0 <= i < j < |r| ==> key(r[i]) != key(r[j])
    ensures forall i :: 0 <= i < |r| ==> key(r[i]) !in seen
    ensures forall x :: x in r ==> x in s
  {
    if s == [] then []
    else if key(s[0]) in seen then EverSeenFrom(s[1..], key, seen)
    else [s[0]] + EverSeenFrom(s[1..], key, seen + {key(s[0])})
  }

  /** Every key of `s` outside `seen` is kept, by exactly the elements it has in the result. */
  lemma {:induction false} EverSeenFromKeys<T, K>(s: seq<T>, key: T -> K, seen: set<K>)
    ensures KeySet(EverSeenFrom(s, key, seen), key) == KeySet(s, key) - seen
  {
    if s != [] {
      if key(s[0]) in seen {
        EverSeenFromKeys(s[1..], key, seen);
      } else {
        var rest := EverSeenFrom(s[1..], key, seen + {key(s[0])});
        EverSeenFromKeys(s[1..], key, seen + {key(s[0])});
        var r := [s[0]] + rest;
        assert r[1..] == rest;
      }
    }
  }

  /** `unique_ever_seen(key)`: the first element with each key, in order of first occurrence. */
  function UniqueEverSeen<T, K(==)>(s: seq<T>, key: T -> K): (r: seq<T>)
    ensures forall i, j :: 0 <= i < j < |r| ==> key(r[i]) != key(r[j])
    ensures KeySet(r, key) == KeySet(s, key)
    ensures forall x :: x in r ==> x in s
  {
    EverSeenFromKeys(s, key, {});
    EverSeenFrom(s, key, {})
  }

  /** One step of `EverSeenFrom`: the first element is kept exactly when its key is new. */
  lemma EverSeenFromCons<T, K>(x: T, t: seq<T>, key: T -> K, seen: set<K>)
    ensures EverSeenFrom([x] + t, key, seen)
         == if key(x) in seen then EverSeenFrom(t, key, seen) else [x] + EverSeenFrom(t, key, seen + {key(x)})
  {
    assert ([x] + t)[1..] == t;
  }

  lemma {:induction false} EverSeenFromSnoc<T, K>(s: seq<T>, x: T, key: T -> K, seen: set<K>)
    ensures EverSeenFrom(s + [x], key, seen)
         == EverSeenFrom(s, key, seen) + (if key(x) in seen + KeySet(s, key) then [] else [x])
  {
    if s == [] {
      assert s + [x] == [x] + [];
      EverSeenFromCons(x, [], key, seen);
    } else {
      var y, t := s[0], s[1..];
      assert s == [y] + t;
      assert s + [x] == [y] + (t + [x]);
      EverSeenFromCons(y, t + [x], key, seen);
      EverSeenFromCons(y, t, key, seen);
      var seen' := if key(y) in seen then seen else seen + {key(y)};
      EverSeenFromSnoc(t, x, key, seen');
      var tail := if key(x) in seen' + KeySet(t, key) then [] else [x];
      assert tail == if key(x) in seen + KeySet(s, key) then [] else [x] by {
        assert seen' + KeySet(t, key) == seen + KeySet(s, key);
      }
      if key(y) in seen {
        assert EverSeenFrom(s + [x], key, seen) == EverSeenFrom(t, key, seen) + tail;
      } else {
        assert EverSeenFrom(s + [x], key, seen) == [y] + (EverSeenFrom(t, key, seen') + tail);
      }
    }
  }

  /**
   * Streaming view of `unique_ever_seen`: a new element is yielded exactly
   * when no earlier element had its key.
   */
  lemma UniqueEverSeenSnoc<T, K>(s: seq<T>, x: T, key: T -> K)
    ensures UniqueEverSeen(s + [x], key)
         == UniqueEverSeen(s, key) + (if key(x) in KeySet(s, key) then [] else [x])
  {
    EverSeenFromSnoc(s, x, key, {});
  }

  /**
   * `unique(key, reverse)`: the first element with each key, in order of
   * first occurrence; with `reverse` that same list reversed.
   */
  function Unique<T, K(==)>(s: seq<T>, key: T -> K, reverse: bool := false): (r: seq<T>)
    ensures forall i, j :: 0 <= i < j < |r| ==> key(r[i]) != key(r[j])
    ensures KeySet(r, key) == KeySet(s, key)
    ensures forall x :: x in r ==> x in s
  {
    var u := UniqueEverSeen(s, key);
    if reverse then
      var r := Reverse(u);
      assert forall i :: 0 <= i < |u| ==> r[|u| - 1 - i] == u[i];
      KeySetReverse(u, key);
      r
    else u
  }

  /**
   * Streaming view of `unique()`: a new element is yielded exactly when no
   * earlier element had its key, so the result is the first element with
   * each key, in order of first occurrence.
   */
  lemma UniqueSnoc<T, K>(s: seq<T>, x: T, key: T -> K)
    ensures Unique(s + [x], key) == Unique(s, key) + (if key(x) in KeySet(s, key) then [] else [x])
  {
    UniqueEverSeenSnoc(s, x, key);
  }

  /** `unique(reverse=True)` is exactly the reverse of `unique()`, and the other way round. */
  lemma UniqueReverse<T, K>(s: seq<T>, key: T -> K)
    ensures Unique(s, key, true) == Reverse(Unique(s, key, false))
    ensures Reverse(Unique(s, key, true)) == Unique(s, key, false)
  {
    ReverseInvolutive(UniqueEverSeen(s, key));
  }
}
