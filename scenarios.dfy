/**
 * The recipe scenarios of tests/test_itertools_mixin.py:182-465, as client
 * code of `Query`: each scenario builds a query, applies the combinator and
 * asserts the elements the test expects.  Where the expected elements take
 * more than a few unfoldings of the specification functions, an example
 * lemma derives them first, one suffix of the input at a time.
 */
module Scenarios {
  import opened Basics
  import Optionals
  import opened Seqs
  import opened Queries
  import Windowing
  import Interleaving
  import Dedup
  import Searching

  // ---------------------------------------------------------------------
  // Named callbacks of the scenarios

  function Same<T>(x: T): T { x }

  function Square(x: int): int { x * x }

  /** `lambda x, y: x * y`, applied to the query's elements as arguments. */
  function Product(args: seq<int>): int
  {
    if |args| == 2 then args[0] * args[1] else 0
  }

  function Odd(x: int): bool { x % 2 != 0 }

  /** `str.casefold` on the letters used below. */
  function Fold(c: char): char
  {
    if 'A' <= c <= 'Z' then c - 'A' + 'a' else c
  }

  datatype Foo = Foo(name: string, num: int)

  function Num(x: Foo): int { x.num }

  function NameNum(x: Foo): (string, int) { (x.name, x.num) }

  // ---------------------------------------------------------------------
  // Expected results, derived from the specification functions

  lemma SlidingWindowExample()
    ensures Windowing.Windows("ABCDEFG", 4) == ["ABCD", "BCDE", "CDEF", "DEFG"]
  {
    var r := Windowing.Windows("ABCDEFG", 4);
    Windowing.WindowsAt("ABCDEFG", 4, 0);
    Windowing.WindowsAt("ABCDEFG", 4, 1);
    Windowing.WindowsAt("ABCDEFG", 4, 2);
    Windowing.WindowsAt("ABCDEFG", 4, 3);
    assert r[0] == "ABCDEFG"[0..4] == "ABCD";
    assert r[1] == "ABCDEFG"[1..5] == "BCDE";
    assert r[2] == "ABCDEFG"[2..6] == "CDEF";
    assert r[3] == "ABCDEFG"[3..7] == "DEFG";
  }

  lemma PrefixesExample()
    ensures Windowing.Prefixes("ABCD") == ["A", "AB", "ABC", "ABCD"]
    ensures Windowing.Prefixes("BCD") == ["B", "BC", "BCD"]
    ensures Windowing.Prefixes("CD") == ["C", "CD"]
  {
    var p := Windowing.Prefixes("ABCD");
    assert p[0] == "ABCD"[..1] == "A";
    assert p[1] == "ABCD"[..2] == "AB";
    assert p[2] == "ABCD"[..3] == "ABC";
    assert p[3] == "ABCD"[..4] == "ABCD";
    var p' := Windowing.Prefixes("BCD");
    assert p'[0] == "BCD"[..1] == "B";
    assert p'[1] == "BCD"[..2] == "BC";
    assert p'[2] == "BCD"[..3] == "BCD";
    var p'' := Windowing.Prefixes("CD");
    assert p''[0] == "CD"[..1] == "C";
    assert p''[1] == "CD"[..2] == "CD";
  }

  lemma SubslicesExample()
    ensures Windowing.Subslices("ABCD") == ["A", "AB", "ABC", "ABCD", "B", "BC", "BCD", "C", "CD", "D"]
  {
    PrefixesExample();
    assert "ABCD"[1..] == "BCD" && "BCD"[1..] == "CD" && "CD"[1..] == "D";
    assert Windowing.Prefixes("D") == ["D"];
    assert Windowing.Subslices("D") == ["D"];
  }

  /** A round that yields something is followed by the rounds over what is left. */
  lemma RoundRobinRound<T>(xss: seq<seq<T>>)
    requires Interleaving.Heads(xss) != []
    ensures Interleaving.RoundRobin(xss) == Interleaving.Heads(xss) + Interleaving.RoundRobin(Interleaving.Tails(xss))
  {
  }

  lemma FirstRound<T>(a: T, b: T, c: T, d: T, e: T, f: T)
    ensures Interleaving.Heads([[a, b, c], [d], [e, f]]) == [a, d, e]
    ensures Interleaving.Tails([[a, b, c], [d], [e, f]]) == [[b, c], [f]]
  {
    var xss := [[a, b, c], [d], [e, f]];
    assert xss[1..] == [[d], [e, f]] && xss[1..][1..] == [[e, f]] && xss[1..][1..][1..] == [];
    assert [a, b, c][1..] == [b, c] && [e, f][1..] == [f];
    assert Interleaving.Heads([[e, f]]) == [e];
    assert Interleaving.Heads([[d], [e, f]]) == [d, e];
    assert Interleaving.Tails([[e, f]]) == [[f]];
    assert Interleaving.Tails([[d], [e, f]]) == [[f]];
  }

  lemma LastRounds<T>(b: T, c: T, f: T)
    ensures Interleaving.RoundRobin([[b, c], [f]]) == [b, f, c]
  {
    var yss := [[b, c], [f]];
    assert yss[1..] == [[f]] && yss[1..][1..] == [];
    assert [b, c][1..] == [c];
    assert Interleaving.Heads([[f]]) == [f];
    assert Interleaving.Tails([[f]]) == [];
    assert Interleaving.Heads(yss) == [b, f];
    assert Interleaving.Tails(yss) == [[c]];
    Interleaving.RoundRobinSingle([c]);
    RoundRobinRound(yss);
  }

  /** `round_robin` over three sources of lengths three, one and two. */
  lemma RoundRobinThreeSources<T>(a: T, b: T, c: T, d: T, e: T, f: T)
    ensures Interleaving.RoundRobin([[a, b, c], [d], [e, f]]) == [a, d, e, b, f, c]
  {
    assert [a, d, e] + [b, f, c] == [a, d, e, b, f, c];
    var xss := [[a, b, c], [d], [e, f]];
    FirstRound(a, b, c, d, e, f);
    RoundRobinRound(xss);
    LastRounds(b, c, f);
  }

  lemma RoundRobinExample()
    ensures Interleaving.RoundRobin(["ABC", "D", "EF"]) == "ADEBFC"
  {
    RoundRobinThreeSources('A', 'B', 'C', 'D', 'E', 'F');
  }

  /** Seven elements in chunks of three: two complete chunks and one element left over. */
  lemma ChunksOfSeven<T>(s: seq<T>)
    requires |s| == 7
    ensures Windowing.Chunks(s, 3) == [s[..3], s[3..6]]
    ensures Flatten(Windowing.Chunks(s, 3)) == s[..6]
    ensures Windowing.Rem(7, 3) == 1
  {
    assert s[3..][..3] == s[3..6] && s[3..][3..] == s[6..];
    assert Windowing.Chunks(s[6..], 3) == [];
    assert Windowing.Chunks(s[3..], 3) == [s[3..6]];
    assert Flatten([s[..3], s[3..6]]) == s[..3] + s[3..6] + Flatten([]);
    assert s[..3] + s[3..6] == s[..6];
  }

  lemma GrouperExample()
    ensures Windowing.Grouper("ABCDEFG", 3, "fill", 'x') == Ok(["ABC", "DEF", "Gxx"])
    ensures Windowing.Grouper("ABCDEFG", 3, "strict", 'x') == Err(ValueError(ZipLengthMismatch))
    ensures Windowing.Grouper("ABCDEFG", 3, "ignore", 'x') == Ok(["ABC", "DEF"])
    ensures Windowing.Grouper("ABCDEFG", 3, "foo", 'x') == Err(ValueError(InvalidIncompleteFlag("foo")))
  {
    var s := "ABCDEFG";
    ChunksOfSeven(s);
    var full := Windowing.Chunks(s, 3);
    assert s[..3] == "ABC" && s[3..6] == "DEF" && s[..6] == "ABCDEF";
    assert full == ["ABC", "DEF"];
    assert |Flatten(full)| == 6;
    var rest := s[|Flatten(full)|..];
    assert rest == "G";
    var last := Windowing.Pad(rest, 3, 'x');
    assert last == "Gxx";
    assert full + [last] == ["ABC", "DEF", "Gxx"];
  }

  lemma GrouperNoneFillExample()
    ensures Windowing.Grouper([Val('A'), Val('B'), Val('C'), Val('D'), Val('E'), Val('F'), Val('G')], 3, "fill", Null)
         == Ok([[Val('A'), Val('B'), Val('C')], [Val('D'), Val('E'), Val('F')], [Val('G'), Null, Null]])
  {
    var s := [Val('A'), Val('B'), Val('C'), Val('D'), Val('E'), Val('F'), Val('G')];
    ChunksOfSeven(s);
    var full := Windowing.Chunks(s, 3);
    assert s[..3] == [Val('A'), Val('B'), Val('C')] && s[3..6] == [Val('D'), Val('E'), Val('F')];
    assert full == [[Val('A'), Val('B'), Val('C')], [Val('D'), Val('E'), Val('F')]];
    assert |Flatten(full)| == 6;
    var rest := s[|Flatten(full)|..];
    assert rest == [Val('G')];
    var last := Windowing.Pad(rest, 3, Null);
    assert last == [Val('G'), Null, Null];
    assert full + [last] == [[Val('A'), Val('B'), Val('C')], [Val('D'), Val('E'), Val('F')], [Val('G'), Null, Null]];
  }

  // partition(lambda x: x % 2 != 0) over range(10), half by half

  lemma OddsLow()
    ensures Filter([0, 1, 2, 3, 4], Odd) == [1, 3]
  {
    assert [0, 1, 2, 3, 4][1..] == [1, 2, 3, 4] && [1, 2, 3, 4][1..] == [2, 3, 4] && [2, 3, 4][1..] == [3, 4] && [3, 4][1..] == [4] && [4][1..] == [];
  }

  lemma OddsHigh()
    ensures Filter([5, 6, 7, 8, 9], Odd) == [5, 7, 9]
  {
    assert [5, 6, 7, 8, 9][1..] == [6, 7, 8, 9] && [6, 7, 8, 9][1..] == [7, 8, 9] && [7, 8, 9][1..] == [8, 9] && [8, 9][1..] == [9] && [9][1..] == [];
  }

  lemma EvensLow()
    ensures Filter([0, 1, 2, 3, 4], Not(Odd)) == [0, 2, 4]
  {
    assert forall x :: Not(Odd)(x) == !Odd(x);
    assert [0, 1, 2, 3, 4][1..] == [1, 2, 3, 4] && [1, 2, 3, 4][1..] == [2, 3, 4] && [2, 3, 4][1..] == [3, 4] && [3, 4][1..] == [4] && [4][1..] == [];
  }

  lemma EvensHigh()
    ensures Filter([5, 6, 7, 8, 9], Not(Odd)) == [6, 8]
  {
    assert forall x :: Not(Odd)(x) == !Odd(x);
    assert [5, 6, 7, 8, 9][1..] == [6, 7, 8, 9] && [6, 7, 8, 9][1..] == [7, 8, 9] && [7, 8, 9][1..] == [8, 9] && [8, 9][1..] == [9] && [9][1..] == [];
  }

  lemma Halves(p: int -> bool)
    ensures Filter([0, 1, 2, 3, 4, 5, 6, 7, 8, 9], p) == Filter([0, 1, 2, 3, 4], p) + Filter([5, 6, 7, 8, 9], p)
  {
    assert [0, 1, 2, 3, 4, 5, 6, 7, 8, 9] == [0, 1, 2, 3, 4] + [5, 6, 7, 8, 9];
    FilterAppend([0, 1, 2, 3, 4], [5, 6, 7, 8, 9], p);
  }

  lemma OddsExample()
    ensures Filter([0, 1, 2, 3, 4, 5, 6, 7, 8, 9], Odd) == [1, 3, 5, 7, 9]
  {
    OddsLow();
    OddsHigh();
    assert [1, 3] + [5, 7, 9] == [1, 3, 5, 7, 9];
    Halves(Odd);
  }

  lemma EvensExample()
    ensures Filter([0, 1, 2, 3, 4, 5, 6, 7, 8, 9], Not(Odd)) == [0, 2, 4, 6, 8]
  {
    Halves(Not(Odd));
    EvensLow();
    EvensHigh();
  }

  lemma PartitionExample()
    ensures Interleaving.Partition([0, 1, 2, 3, 4, 5, 6, 7, 8, 9], Odd) == [[1, 3, 5, 7, 9], [0, 2, 4, 6, 8]]
  {
    OddsExample();
    EvensExample();
  }

  lemma UniqueExample()
    ensures Dedup.Unique([[1, 2], [3, 4], [1, 2]], Same) == [[1, 2], [3, 4]]
    ensures Dedup.Unique([[1, 2], [3, 4], [1, 2]], Same, true) == [[3, 4], [1, 2]]
  {
    var s := [[1, 2], [3, 4], [1, 2]];
    assert s[1..] == [[3, 4], [1, 2]] && s[2..] == [[1, 2]];
    assert {} + {[1, 2]} == {[1, 2]};
    assert {[1, 2]} + {[3, 4]} == {[1, 2], [3, 4]};
    assert Dedup.EverSeenFrom([[1, 2]], Same, {[1, 2], [3, 4]}) == [];
    assert Dedup.EverSeenFrom([[3, 4], [1, 2]], Same, {[1, 2]}) == [[3, 4]];
    assert Dedup.EverSeenFrom(s, Same, {}) == [[1, 2], [3, 4]];
  }

  lemma UniqueByNumStep()
    ensures Dedup.EverSeenFrom([Foo("fizz", 3), Foo("buzz", 4), Foo("foo", 1), Foo("bar", 2)], Num, {1, 2})
         == [Foo("fizz", 3), Foo("buzz", 4)]
  {
    var foo, bar, fizz, buzz := Foo("foo", 1), Foo("bar", 2), Foo("fizz", 3), Foo("buzz", 4);
    assert [foo, bar][1..] == [bar];
    assert [buzz, foo, bar][1..] == [foo, bar];
    assert [fizz, buzz, foo, bar][1..] == [buzz, foo, bar];
    assert {1, 2} + {3} == {1, 2, 3} && {1, 2, 3} + {4} == {1, 2, 3, 4};
    assert Dedup.EverSeenFrom([bar], Num, {1, 2, 3, 4}) == [];
    assert Dedup.EverSeenFrom([foo, bar], Num, {1, 2, 3, 4}) == [];
    assert Dedup.EverSeenFrom([buzz, foo, bar], Num, {1, 2, 3}) == [buzz];
  }

  lemma UniqueByNumExample()
    ensures Dedup.Unique([Foo("foo", 1), Foo("bar", 2), Foo("fizz", 3), Foo("buzz", 4), Foo("foo", 1), Foo("bar", 2)], Num)
         == [Foo("foo", 1), Foo("bar", 2), Foo("fizz", 3), Foo("buzz", 4)]
  {
    var foo, bar, fizz, buzz := Foo("foo", 1), Foo("bar", 2), Foo("fizz", 3), Foo("buzz", 4);
    var s := [foo, bar, fizz, buzz, foo, bar];
    UniqueByNumStep();
    assert s[1..] == [bar, fizz, buzz, foo, bar];
    assert s[1..][1..] == [fizz, buzz, foo, bar];
    assert {} + {1} == {1} && {1} + {2} == {1, 2};
    assert Dedup.EverSeenFrom([bar, fizz, buzz, foo, bar], Num, {1}) == [bar, fizz, buzz];
  }

  lemma UniqueCustomKeyExample()
    ensures var coll := [Foo("foo", 1), Foo("bar", 2), Foo("fizz", 3), Foo("buzz", 4), Foo("foo", 1), Foo("bar", 2)];
            && Queries.AsDict(Dedup.Unique(coll, Num), NameNum) == map["foo" := 1, "bar" := 2, "fizz" := 3, "buzz" := 4]
            && Dedup.Unique(coll, Num, true) == [Foo("buzz", 4), Foo("fizz", 3), Foo("bar", 2), Foo("foo", 1)]
  {
    UniqueByNumExample();
    var foo, bar, fizz, buzz := Foo("foo", 1), Foo("bar", 2), Foo("fizz", 3), Foo("buzz", 4);
    var u := [foo, bar, fizz, buzz];
    assert u[..3] == [foo, bar, fizz] && u[..3][..2] == [foo, bar] && u[..3][..2][..1] == [foo];
    assert Queries.AsDict([foo], NameNum) == map["foo" := 1];
    assert Queries.AsDict([foo, bar], NameNum) == map["foo" := 1, "bar" := 2];
    assert Queries.AsDict([foo, bar, fizz], NameNum) == map["foo" := 1, "bar" := 2, "fizz" := 3];
    var r := Reverse(u);
    assert r == [buzz, fizz, bar, foo];
  }

  lemma UniqueJustSeenFoldExampleStep0()
    ensures Dedup.JustSeenAfter("cCAD", Fold, 'b') == "cAD"
  {
    assert Dedup.JustSeenAfter("", Fold, 'd') == "";
    assert "D"[1..] == "";
    assert ['D'] + "" == "D";
    assert Dedup.JustSeenAfter("D", Fold, 'a') == "D";
    assert "AD"[1..] == "D";
    assert ['A'] + "D" == "AD";
    assert Dedup.JustSeenAfter("AD", Fold, 'c') == "AD";
    assert "CAD"[1..] == "AD";
    assert Dedup.JustSeenAfter("CAD", Fold, 'c') == "AD";
    assert "cCAD"[1..] == "CAD";
    assert ['c'] + "AD" == "cAD";
  }

  lemma UniqueJustSeenFoldExample()
    ensures Dedup.UniqueJustSeen("ABBcCAD", Fold) == "ABcAD"
  {
    UniqueJustSeenFoldExampleStep0();
    assert "BcCAD"[1..] == "cCAD";
    assert Dedup.JustSeenAfter("BcCAD", Fold, 'b') == "cAD";
    assert "BBcCAD"[1..] == "BcCAD";
    assert ['B'] + "cAD" == "BcAD";
    assert Dedup.JustSeenAfter("BBcCAD", Fold, 'a') == "BcAD";
  }

  lemma UniqueEverSeenFoldExampleStep0()
    ensures Dedup.EverSeenFrom("cCAD", Fold, {'a', 'b'}) == "cD"
  {
    assert Dedup.EverSeenFrom("", Fold, {'a', 'b', 'c', 'd'}) == "";
    assert "D"[1..] == "";
    assert ['D'] + "" == "D";
    assert {'a', 'b', 'c'} + {'d'} == {'a', 'b', 'c', 'd'};
    assert Dedup.EverSeenFrom("D", Fold, {'a', 'b', 'c'}) == "D";
    assert "AD"[1..] == "D";
    assert Dedup.EverSeenFrom("AD", Fold, {'a', 'b', 'c'}) == "D";
    assert "CAD"[1..] == "AD";
    assert Dedup.EverSeenFrom("CAD", Fold, {'a', 'b', 'c'}) == "D";
    assert "cCAD"[1..] == "CAD";
    assert ['c'] + "D" == "cD";
    assert {'a', 'b'} + {'c'} == {'a', 'b', 'c'};
  }

  lemma UniqueEverSeenFoldExample()
    ensures Dedup.UniqueEverSeen("ABBcCAD", Fold) == "ABcD"
  {
    UniqueEverSeenFoldExampleStep0();
    assert "BcCAD"[1..] == "cCAD";
    assert Dedup.EverSeenFrom("BcCAD", Fold, {'a', 'b'}) == "cD";
    assert "BBcCAD"[1..] == "BcCAD";
    assert ['B'] + "cD" == "BcD";
    assert {'a'} + {'b'} == {'a', 'b'};
    assert Dedup.EverSeenFrom("BBcCAD", Fold, {'a'}) == "BcD";
    assert "ABBcCAD"[1..] == "BBcCAD";
    assert ['A'] + "BcD" == "ABcD";
    assert {} + {'a'} == {'a'};
    assert Dedup.EverSeenFrom("ABBcCAD", Fold, {}) == "ABcD";
  }

  lemma FindIndicesTail()
    ensures Searching.IndicesFrom("AABCADEAF", 'A', 6, 9) == [7]
  {
    assert Searching.IndicesFrom("AABCADEAF", 'A', 9, 9) == [];
    assert Searching.IndicesFrom("AABCADEAF", 'A', 8, 9) == [];
    assert Searching.IndicesFrom("AABCADEAF", 'A', 7, 9) == [7];
  }

  lemma FindIndicesFromThree()
    ensures Searching.IndicesFrom("AABCADEAF", 'A', 3, 9) == [4, 7]
  {
    FindIndicesTail();
    assert Searching.IndicesFrom("AABCADEAF", 'A', 5, 9) == [7];
    assert Searching.IndicesFrom("AABCADEAF", 'A', 4, 9) == [4, 7];
  }

  lemma FindIndicesStartExample()
    ensures Searching.FindIndices("AABCADEAF", 'A', 3) == [4, 7]
  {
    FindIndicesFromThree();
  }

  lemma FindIndicesFromTwo()
    ensures Searching.IndicesFrom("AABCADEAF", 'A', 2, 9) == [4, 7]
  {
    FindIndicesFromThree();
  }

  lemma FindIndicesFromOne()
    ensures Searching.IndicesFrom("AABCADEAF", 'A', 1, 9) == [1, 4, 7]
  {
    FindIndicesFromTwo();
  }

  lemma FindIndicesExample()
    ensures Searching.FindIndices("AABCADEAF", 'A') == [0, 1, 4, 7]
  {
    FindIndicesFromOne();
    assert Searching.IndicesFrom("AABCADEAF", 'A', 0, 9) == [0, 1, 4, 7];
  }

  lemma FindIndicesStopExampleStep0()
    ensures Searching.IndicesFrom("AABCADEAF", 'A', 1, 5) == [1, 4]
  {
    assert Searching.IndicesFrom("AABCADEAF", 'A', 5, 5) == [];
    assert Searching.IndicesFrom("AABCADEAF", 'A', 4, 5) == [4];
    assert Searching.IndicesFrom("AABCADEAF", 'A', 3, 5) == [4];
    assert Searching.IndicesFrom("AABCADEAF", 'A', 2, 5) == [4];
  }

  lemma FindIndicesStopExample()
    ensures Searching.FindIndices("AABCADEAF", 'A', stop := Val(5)) == [0, 1, 4]
  {
    FindIndicesStopExampleStep0();
    assert Searching.IndicesFrom("AABCADEAF", 'A', 0, 5) == [0, 1, 4];
  }


  // ---------------------------------------------------------------------
  // The scenarios

  method Tabulate() {
    var q := new Query<int>.Empty();
    var t := q.Tabulate(Square, 0, 3);
    var r := t.ToList();
    assert r == [0, 1, 4];
    t := q.Tabulate(Square, 3, 3);
    r := t.ToList();
    assert r == [9, 16, 25];
  }

  method RepeatFunc() {
    var q := new Query([2, 3]);
    var t := q.RepeatFunc(Product, 4);
    var r := t.ToList();
    assert r == [6, 6, 6, 6];
  }

  method NCycles() {
    var q := new Query([1, 2, 3]);
    var c := q.NCycles(2);
    var r := c.ToList();
    assert r == [1, 2, 3, 1, 2, 3];
    c := q.NCycles(0);
    r := c.ToList();
    assert r == [];
    c := q.NCycles(-2);
    r := c.ToList();
    assert r == [];
  }

  method Consume() {
    var q := new Query([2, 3, 4, 5]);
    var c := q.Consume(Val(2));
    assert c.Ok?;
    var r := c.value.ToList();
    assert r == [4, 5];
    c := q.Consume();
    assert c.Ok?;
    r := c.value.ToList();
    assert r == [];
    c := q.Consume(Val(-2));
    assert c == Err(ValueError(NegativeConsumeBoundary));
  }

  method TakeNth() {
    var q := new Query([2, 3, 4]);
    var o := q.TakeNth(1);
    assert Optionals.Get(o) == Ok(3);
    assert q.isConsumed;

    q := new Query([2, 3, 4]);
    o := q.TakeNth(10, Val(66));
    assert Optionals.Get(o) == Ok(66);

    q := new Query([2, 3, 4]);
    o := q.TakeNth(-1);
    assert Optionals.Get(o) == Ok(4);

    q := new Query.Empty();
    o := q.TakeNth(2);
    assert Optionals.IsEmpty(o);
  }

  /** A second terminal operation on a consumed query sees no elements. */
  method ConsumedQueryIsDrained() {
    var q := new Query([2, 3, 4]);
    var first := q.ToList();
    assert first == [2, 3, 4];
    var second := q.ToList();
    assert second == [];
    assert q.isConsumed;
  }

  method AllEqual() {
    var q := new Query([2, 2, 2]);
    var b := q.AllEqual(Same);
    assert b;
    assert q.isConsumed;

    q := new Query([2, 5, 3]);
    b := q.AllEqual(Same);
    assert !b by {
      assert [2, 5, 3][0] != [2, 5, 3][1];
    }
  }

  method AllEqualCustomKey() {
    var q := new Query([Foo("fizz", 42), Foo("buzz", 42)]);
    var b := q.AllEqual(Num);
    assert b;
    q := new Query([Foo("fizz", 42), Foo("buzz", 42)]);
    b := q.AllEqual((x: Foo) => x.name);
    assert !b by {
      assert [Foo("fizz", 42), Foo("buzz", 42)][0].name != [Foo("fizz", 42), Foo("buzz", 42)][1].name;
    }
  }

  method View() {
    var q := new Query([1, 2, 3, 4, 5, 6, 7, 8, 9]);
    var v := q.View(2, Val(6));
    assert v.Ok? && v.value.elements == [3, 4, 5, 6];
    v := q.View(4);
    assert v.Ok? && v.value.elements == [5, 6, 7, 8, 9];
    v := q.View();
    assert v.Ok? && v.value.elements == [1, 2, 3, 4, 5, 6, 7, 8, 9];
    v := q.View(step := Val(-1));
    assert v == Err(ValueError(NonPositiveStep));
  }

  method ViewNegativeBounds() {
    var q := new Query([1, 2, 3, 4, 5, 6, 7, 8, 9]);
    var v := q.View(stop := Val(-3));
    assert v.Ok? && v.value.elements == [1, 2, 3, 4, 5, 6];
    v := q.View(-3);
    assert v.Ok? && v.value.elements == [7, 8, 9];
    v := q.View(stop := Val(-4));
    assert v.Ok? && v.value.elements == [1, 2, 3, 4, 5];
  }

  method ViewCustomBounds() {
    var q := new Query([1, 2, 3, 4, 5, 6, 7, 8, 9]);
    var v := q.View(2, Val(-3));
    assert v.Ok? && v.value.elements == [3, 4, 5, 6];
    v := q.View(-5, Val(-2));
    assert v.Ok? && v.value.elements == [5, 6, 7];
  }

  method ViewCustomStep() {
    var q := new Query([1, 2, 3, 4, 5, 6, 7, 8, 9]);
    var v := q.View(step := Val(2));
    assert v.Ok?;
    var r := v.value.ToList();
    assert r == [1, 3, 5, 7, 9];
  }

  method SlidingWindow() {
    var q := new Query("ABCDEFG");
    var w := q.SlidingWindow(4);
    SlidingWindowExample();
    assert w.Ok? && w.value.elements == ["ABCD", "BCDE", "CDEF", "DEFG"];
    var e := new Query<int>.Empty();
    var w' := e.SlidingWindow(2);
    assert w'.Ok? && w'.value.elements == [];
    q := new Query("ABCD");
    w := q.SlidingWindow(-1);
    assert w == Err(ValueError(NegativeWindowSize));
  }

  method Subslices() {
    var q := new Query("ABCD");
    var s := q.Subslices();
    SubslicesExample();
    assert s.elements == ["A", "AB", "ABC", "ABCD", "B", "BC", "BCD", "C", "CD", "D"];
    var e := new Query<int>.Empty();
    var s' := e.Subslices();
    assert s'.elements == [];
  }

  method RoundRobin() {
    var q := new Query(["ABC", "D", "EF"]);
    var r := Queries.RoundRobin(q);
    RoundRobinExample();
    assert r.elements == "ADEBFC";
  }

  method Grouper() {
    var q := new Query("ABCDEFG");
    GrouperExample();
    var g := q.Grouper(3, "fill", 'x');
    assert g.Ok? && g.value.elements == ["ABC", "DEF", "Gxx"];
    g := q.Grouper(3, fill := 'x');
    assert g.Ok? && g.value.elements == ["ABC", "DEF", "Gxx"];
    g := q.Grouper(3, "strict", 'x');
    assert g == Err(ValueError(ZipLengthMismatch));
    g := q.Grouper(3, "ignore", 'x');
    assert g.Ok? && g.value.elements == ["ABC", "DEF"];
    g := q.Grouper(3, "foo", 'x');
    assert g == Err(ValueError(InvalidIncompleteFlag("foo")));
  }

  /** The default fill value is `None`: the elements are `Nullable` characters here. */
  method GrouperNoneFill() {
    var q := new Query([Val('A'), Val('B'), Val('C'), Val('D'), Val('E'), Val('F'), Val('G')]);
    var g := q.Grouper(3, "fill", Null);
    GrouperNoneFillExample();
    assert g.Ok? && g.value.elements
        == [[Val('A'), Val('B'), Val('C')], [Val('D'), Val('E'), Val('F')], [Val('G'), Null, Null]];
  }

  method Unique() {
    var q := new Query([[1, 2], [3, 4], [1, 2]]);
    UniqueExample();
    var u := q.Unique(Same);
    assert u.elements == [[1, 2], [3, 4]];
    u := q.Unique(Same, true);
    assert u.elements == [[3, 4], [1, 2]];
  }

  method UniqueCustomKey() {
    var coll := [Foo("foo", 1), Foo("bar", 2), Foo("fizz", 3), Foo("buzz", 4), Foo("foo", 1), Foo("bar", 2)];
    var q := new Query(coll);
    UniqueCustomKeyExample();
    var u := q.Unique(Num);
    var d := u.ToDict(NameNum);
    assert d == map["foo" := 1, "bar" := 2, "fizz" := 3, "buzz" := 4];
    u := q.Unique(Num, true);
    assert u.elements == [Foo("buzz", 4), Foo("fizz", 3), Foo("bar", 2), Foo("foo", 1)];
  }

  method UniqueJustSeen() {
    var q := new Query("ABBcCAD");
    UniqueJustSeenFoldExample();
    var u := q.UniqueJustSeen(Fold);
    assert u.elements == "ABcAD";
    var e := new Query<int>([]);
    var u' := e.UniqueJustSeen(Same);
    assert u'.elements == [];
  }

  method UniqueEverSeen() {
    var q := new Query("ABBcCAD");
    UniqueEverSeenFoldExample();
    var u := q.UniqueEverSeen(Fold);
    assert u.elements == "ABcD";
  }

  method FindIndices() {
    var q := new Query("AABCADEAF");
    var f := q.FindIndices('A');
    assert f.elements == [0, 1, 4, 7] by {
      FindIndicesExample();
    }
    f := q.FindIndices('A', 3);
    assert f.elements == [4, 7] by {
      FindIndicesStartExample();
    }
    f := q.FindIndices('A', stop := Val(5));
    assert f.elements == [0, 1, 4] by {
      FindIndicesStopExample();
    }
  }
}
