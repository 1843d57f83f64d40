/** Sequence helpers shared by the query combinators. */
module Seqs {

  /** The concatenation of a sequence of sequences. */
  function Flatten<T>(xss: seq<seq<T>>): seq<T>
  {
    if xss == [] then [] else xss[0] + Flatten(xss[1..])
  }

  lemma {:induction false} FlattenAppend<T>(a: seq<seq<T>>, b: seq<seq<T>>)
    ensures Flatten(a + b) == Flatten(a) + Flatten(b)
  {
    if a == [] {
      assert a + b == b;
    } else {
      assert (a + b)[1..] == a[1..] + b;
      FlattenAppend(a[1..], b);
    }
  }

  /** The negation of a predicate. */
  function Not<T>(p: T -> bool): T -> bool
  {
    x => !p(x)
  }

  /** The elements of `s` that satisfy `p`, in their original order. */
  function Filter<T>(s: seq<T>, p: T -> bool): (r: seq<T>)
    ensures |r| <= |s|
    ensures forall i :: 0 <= i < |r| ==> p(r[i])
  {
    if s == [] then []
    else (if p(s[0]) then [s[0]] else []) + Filter(s[1..], p)
  }

  /** Filtering distributes over concatenation, so it keeps the source order. */
  lemma {:induction false} FilterAppend<T>(a: seq<T>, b: seq<T>, p: T -> bool)
    ensures Filter(a + b, p) == Filter(a, p) + Filter(b, p)
  {
    if a == [] {
      assert a + b == b;
    } else {
      assert (a + b)[1..] == a[1..] + b;
      FilterAppend(a[1..], b, p);
    }
  }

  /** Every element goes to exactly one side of a split by a predicate. */
  lemma {:induction false} FilterSplitsMultiset<T>(s: seq<T>, p: T -> bool)
    ensures multiset(Filter(s, p)) + multiset(Filter(s, Not(p))) == multiset(s)
  {
    if s != [] {
      var x, rest := s[0], s[1..];
      FilterSplitsMultiset(rest, p);
      var yes: seq<T> := if p(x) then [x] else [];
      var no: seq<T> := if p(x) then [] else [x];
      assert Not(p)(x) == !p(x);
      assert Filter(s, p) == yes + Filter(rest, p);
      assert Filter(s, Not(p)) == no + Filter(rest, Not(p));
      assert multiset(yes) + multiset(no) == multiset([x]);
      assert s == [x] + rest;
    }
  }

  /** `s` in reverse order. */
  function Reverse<T>(s: seq<T>): (r: seq<T>)
    ensures |r| == |s|
    ensures forall i :: 0 <= i < |s| ==> r[i] == s[|s| - 1 - i]
  {
    if s == [] then [] else Reverse(s[1..]) + [s[0]]
  }

  lemma {:induction false} ReverseInvolutive<T>(s: seq<T>)
    ensures Reverse(Reverse(s)) == s
  {
    var r := Reverse(Reverse(s));
    assert |r| == |s|;
    forall i | 0 <= i < |s| ensures r[i] == s[i] {
      assert r[i] == Reverse(s)[|s| - 1 - i];
    }
  }

  /** The set of keys of the elements of `s`. */
  function KeySet<T, K>(s: seq<T>, key: T -> K): (ks: set<K>)
    ensures forall i :: 0 <= i < |s| ==> key(s[i]) in ks
  {
    if s == [] then {} else {key(s[0])} + KeySet(s[1..], key)
  }

  /** A key set holds nothing but the keys of the elements. */
  lemma {:induction false} KeySetOnly<T, K>(s: seq<T>, key: T -> K, k: K)
    requires k in KeySet(s, key)
    ensures exists i :: 0 <= i < |s| && key(s[i]) == k
  {
    if key(s[0]) != k {
      KeySetOnly(s[1..], key, k);
      var i :| 0 <= i < |s| - 1 && key(s[1..][i]) == k;
      assert key(s[i + 1]) == k;
    }
  }

  /** Reversing a sequence keeps its key set. */
  lemma KeySetReverse<T, K>(s: seq<T>, key: T -> K)
    ensures KeySet(Reverse(s), key) == KeySet(s, key)
  {
    var r := Reverse(s);
    forall k | k in KeySet(r, key)
      ensures k in KeySet(s, key)
    {
      KeySetOnly(r, key, k);
      var i :| 0 <= i < |r| && key(r[i]) == k;
      assert r[i] == s[|s| - 1 - i];
    }
    forall k | k in KeySet(s, key)
      ensures k in KeySet(r, key)
    {
      KeySetOnly(s, key, k);
      var i :| 0 <= i < |s| && key(s[i]) == k;
      assert r[|s| - 1 - i] == s[i];
    }
  }
}
