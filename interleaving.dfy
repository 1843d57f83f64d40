/**
 * Query combinators that split or merge streams: `partition` and
 * `round_robin` (tests/test_itertools_mixin.py:338-346).
 */
module Interleaving {
  import opened Seqs

  // ---------------------------------------------------------------------
  // partition

  /**
   * `partition(predicate)`: two groups, the elements for which the
   * predicate holds FIRST and the others second, each in source order.
   */
  function Partition<T>(s: seq<T>, p: T -> bool): (r: seq<seq<T>>)
    ensures |r| == 2
    ensures forall i :: 0 <= i < |r[0]| ==> p(r[0][i])
    ensures forall i :: 0 <= i < |r[1]| ==> !p(r[1][i])
    ensures multiset(r[0]) + multiset(r[1]) == multiset(s)
  {
    FilterSplitsMultiset(s, p);
    [Filter(s, p), Filter(s, Not(p))]
  }

  /** Each group keeps source order: partitioning a concatenation concatenates the groups. */
  lemma PartitionKeepsOrder<T>(a: seq<T>, b: seq<T>, p: T -> bool)
    ensures Partition(a + b, p)[0] == Partition(a, p)[0] + Partition(b, p)[0]
    ensures Partition(a + b, p)[1] == Partition(a, p)[1] + Partition(b, p)[1]
  {
    FilterAppend(a, b, p);
    FilterAppend(a, b, Not(p));
  }

  // ---------------------------------------------------------------------
  // round_robin

  /** The first element of every non-empty source, in source order: one round. */
  function Heads<T>(xss: seq<seq<T>>): (r: seq<T>)
    ensures |r| <= |xss|
  {
    if xss == [] then []
    else (if xss[0] == [] then [] else [xss[0][0]]) + Heads(xss[1..])
  }

  /** What remains of every source after one round; exhausted sources drop out. */
  function Tails<T>(xss: seq<seq<T>>): (r: seq<seq<T>>)
    ensures forall k :: 0 <= k < |r| ==> r[k] != []
  {
    if xss == [] then []
    else (if |xss[0]| <= 1 then [] else [xss[0][1..]]) + Tails(xss[1..])
  }

  /** One source's share of a round: its first element, and the rest it keeps for later rounds. */
  lemma SourceSplits<T>(x: seq<T>)
    ensures multiset(if x == [] then [] else [x[0]]) + multiset(Flatten(if |x| <= 1 then [] else [x[1..]]))
         == multiset(x)
  {
    if |x| > 1 {
      assert Flatten([x[1..]]) == x[1..] + Flatten([]);
    }
    if x != [] {
      assert x == [x[0]] + x[1..];
    }
  }

  /** One round takes exactly one element from every non-empty source and keeps the rest. */
  lemma {:induction false} RoundSplits<T>(xss: seq<seq<T>>)
    ensures multiset(Heads(xss)) + multiset(Flatten(Tails(xss))) == multiset(Flatten(xss))
  {
    if xss != [] {
      var x, rest := xss[0], xss[1..];
      RoundSplits(rest);
      var h := if x == [] then [] else [x[0]];
      var t := if |x| <= 1 then [] else [x[1..]];
      assert Heads(xss) == h + Heads(rest);
      assert Tails(xss) == t + Tails(rest);
      FlattenAppend(t, Tails(rest));
      SourceSplits(x);
      calc {
        multiset(Heads(xss)) + multiset(Flatten(Tails(xss)));
        multiset(h) + multiset(Heads(rest)) + multiset(Flatten(t)) + multiset(Flatten(Tails(rest)));
        multiset(x) + multiset(Flatten(rest));
        multiset(x + Flatten(rest));
      }
    }
  }

  /** A round is empty exactly when every source is exhausted. */
  lemma {:induction false} HeadsEmpty<T>(xss: seq<seq<T>>)
    ensures Heads(xss) == [] <==> Flatten(xss) == []
  {
    if xss != [] {
      HeadsEmpty(xss[1..]);
      assert Flatten(xss) == xss[0] + Flatten(xss[1..]);
    }
  }

  /**
   * `round_robin()`: one element from each source in turn, skipping
   * exhausted sources, until all are exhausted.  Every element of every
   * source is yielded exactly once.
   */
  function RoundRobin<T>(xss: seq<seq<T>>): (r: seq<T>)
    ensures multiset(r) == multiset(Flatten(xss))
    decreases |Flatten(xss)|
  {
    RoundSplits(xss);
    HeadsEmpty(xss);
    var heads := Heads(xss);
    if heads == [] then []
    else
      assert |multiset(Flatten(Tails(xss)))| < |multiset(Flatten(xss))|;
      heads + RoundRobin(Tails(xss))
  }

  /** A single source is yielded unchanged. */
  lemma {:induction false} RoundRobinSingle<T>(xs: seq<T>)
    ensures RoundRobin([xs]) == xs
    decreases |xs|
  {
    if xs != [] {
      assert Heads([xs]) == [xs[0]];
      if |xs| == 1 {
        assert Tails([xs]) == [];
      } else {
        assert Tails([xs]) == [xs[1..]];
        RoundRobinSingle(xs[1..]);
      }
    }
  }
}
