/**
 The generators of a test case (UnitTest/catch.hpp): each cycles through its own
 indices, and together they count through every combination.
 */
module GeneratorOdometer {

  // ----- Mixed-radix numbers, least significant digit first

  predicate Digits(d: seq<nat>, sizes: seq<nat>)
  {
    |d| == |sizes| && forall i | 0 <= i < |d| :: d[i] < sizes[i]
  }

  function Product(sizes: seq<nat>): nat
  {
    if sizes == [] then 1 else sizes[0] * Product(sizes[1..])
  }

  function Value(d: seq<nat>, sizes: seq<nat>): nat
    requires |d| == |sizes|
  {
    if d == [] then 0 else d[0] + sizes[0] * Value(d[1..], sizes[1..])
  }

  function Zeros(n: nat): seq<nat> { seq(n, _ => 0) }

  lemma {:induction false} ValueBelowProduct(d: seq<nat>, sizes: seq<nat>)
    requires Digits(d, sizes)
    ensures Value(d, sizes) < Product(sizes)
  {
    if d != [] {
      ValueBelowProduct(d[1..], sizes[1..]);
      var v, p, n := Value(d[1..], sizes[1..]), Product(sizes[1..]), sizes[0];
      Farther(n, v, p);
    }
  }

  lemma {:induction false} ValueOfZeros(sizes: seq<nat>)
    ensures Value(Zeros(|sizes|), sizes) == 0
  {
    if sizes != [] {
      ValueOfZeros(sizes[1..]);
      assert Zeros(|sizes|)[1..] == Zeros(|sizes[1..]|);
    }
  }

  lemma SameQuotient(n: nat, a: nat, v: nat, b: nat, w: nat)
    requires a < n && b < n && a + n * v == b + n * w
    ensures a == b && v == w
  {
    Farther(n, v, w);
    Farther(n, w, v);
  }

  lemma Farther(n: nat, v: nat, w: nat)
    ensures v < w ==> n * v + n <= n * w
  {
    if v < w {
      assert n * v + n == n * (v + 1) <= n * w;
    }
  }

  /** Different tuples of indices have different values. */
  lemma {:induction false} ValueIsInjective(d: seq<nat>, e: seq<nat>, sizes: seq<nat>)
    requires Digits(d, sizes) && Digits(e, sizes) && Value(d, sizes) == Value(e, sizes)
    ensures d == e
  {
    if d != [] {
      SameQuotient(sizes[0], d[0], Value(d[1..], sizes[1..]), e[0], Value(e[1..], sizes[1..]));
      ValueIsInjective(d[1..], e[1..], sizes[1..]);
      assert d == [d[0]] + d[1..] && e == [e[0]] + e[1..];
    }
  }

  // ----- Advancing

  /** Digits from i on, when all the ones before it are about to wrap. */
  ghost predicate CarriesTo(before: seq<nat>, sizes: seq<nat>, i: nat)
  {
    i <= |before| == |sizes| && forall k | 0 <= k < i :: before[k] + 1 == sizes[k]
  }

  /** Wrapping the digits before i and increasing digit i adds one. */
  lemma {:induction false} CarryAddsOne(before: seq<nat>, after: seq<nat>, sizes: seq<nat>, i: nat)
    requires Digits(before, sizes) && Digits(after, sizes) && CarriesTo(before, sizes, i) && i < |before|
    requires forall k | 0 <= k < |before| :: after[k] == if k < i then 0 else if k == i then before[i] + 1 else before[k]
    ensures Value(after, sizes) == Value(before, sizes) + 1
  {
    hide Value;
    ValueSplits(before, sizes);
    ValueSplits(after, sizes);
    var b, a, s := before[1..], after[1..], sizes[1..];
    forall k | 0 <= k < |b|
      ensures b[k] == before[k + 1] && a[k] == after[k + 1] && s[k] == sizes[k + 1]
    {
    }
    if i == 0 {
      assert a == b;
    } else {
      CarryAddsOne(b, a, s, i - 1);
      assert sizes[0] * (Value(b, s) + 1) == sizes[0] * Value(b, s) + sizes[0];
    }
  }

  lemma ValueSplits(d: seq<nat>, sizes: seq<nat>)
    requires |d| == |sizes| > 0
    ensures Value(d, sizes) == d[0] + sizes[0] * Value(d[1..], sizes[1..])
  {
  }

  /** Only the greatest value carries out of every digit. */
  lemma {:induction false} FullCarry(before: seq<nat>, sizes: seq<nat>)
    requires Digits(before, sizes) && CarriesTo(before, sizes, |before|)
    ensures Value(before, sizes) + 1 == Product(sizes)
  {
    if before != [] {
      FullCarry(before[1..], sizes[1..]);
      var n, v := sizes[0], Value(before[1..], sizes[1..]);
      assert n * (v + 1) == n * v + n;
    }
  }

  predicate Positive(sizes: seq<nat>) { forall n <- sizes :: n >= 1 }

  /** Indices of generators: below their sizes, except for empty generators. */
  predicate InRange(d: seq<nat>, sizes: seq<nat>)
  {
    |d| == |sizes| && forall i | 0 <= i < |d| && sizes[i] >= 1 :: d[i] < sizes[i]
  }

  lemma Advanced(before: seq<nat>, after: seq<nat>, sizes: seq<nat>, i: nat)
    requires InRange(before, sizes) && InRange(after, sizes) && CarriesTo(before, sizes, i) && i < |before|
    requires forall k | 0 <= k < |before| :: after[k] == if k < i then 0 else if k == i then before[i] + 1 else before[k]
    ensures Positive(sizes) ==> Value(after, sizes) == Value(before, sizes) + 1 < Product(sizes)
  {
    hide Value, Product;
    if Positive(sizes) {
      assert forall k | 0 <= k < |sizes| :: sizes[k] in sizes;
      CarryAddsOne(before, after, sizes, i);
      ValueBelowProduct(after, sizes);
    }
  }

  lemma Wrapped(before: seq<nat>, sizes: seq<nat>)
    requires CarriesTo(before, sizes, |before|)
    ensures Positive(sizes)
    ensures Value(before, sizes) + 1 == Product(sizes) && Value(Zeros(|sizes|), sizes) == 0
  {
    hide Value, Product;
    FullCarry(before, sizes);
    ValueOfZeros(sizes);
  }

  class GeneratorInfo {
    const size: nat
    var currentIndex: nat

    constructor (size: nat)
      ensures this.size == size && currentIndex == 0
    {
      this.size, currentIndex := size, 0;
    }

    method MoveNext() returns (more: bool)
      modifies this
      ensures more == (old(currentIndex) + 1 != size)
      ensures currentIndex == if more then old(currentIndex) + 1 else 0
    {
      currentIndex := currentIndex + 1;
      if currentIndex == size {
        currentIndex := 0;
        return false;
      }
      return true;
    }
  }

  class GeneratorsForTest {
    var byName: map<string, GeneratorInfo>
    var inOrder: seq<GeneratorInfo>

    function Sizes(): seq<nat>
      reads this
    {
      seq(|inOrder|, i requires 0 <= i < |inOrder| reads this => inOrder[i].size)
    }

    function Indices(): seq<nat>
      reads this, inOrder
    {
      seq(|inOrder|, i requires 0 <= i < |inOrder| reads this, inOrder => inOrder[i].currentIndex)
    }

    /** Every generator is listed once, the names reach only listed ones, and no index is past its end. */
    ghost predicate Valid()
      reads this, inOrder
    {
      && (forall i, j | 0 <= i < j < |inOrder| :: inOrder[i] != inOrder[j])
      && (forall name <- byName :: byName[name] in inOrder)
      && (forall i | 0 <= i < |inOrder| :: inOrder[i].size >= 1 ==> inOrder[i].currentIndex < inOrder[i].size)
    }

    constructor ()
      ensures Valid() && inOrder == [] && byName == map[]
    {
      byName, inOrder := map[], [];
    }

    /** The generator of that name, created at index zero when it is new. */
    method GetGeneratorInfo(fileInfo: string, size: nat) returns (info: GeneratorInfo)
      requires Valid()
      modifies this
      ensures Valid() && info in inOrder && fileInfo in byName && byName[fileInfo] == info
      ensures fileInfo in old(byName) ==> byName == old(byName) && inOrder == old(inOrder)
      ensures fileInfo !in old(byName) ==> fresh(info) && info.size == size && info.currentIndex == 0
                                           && inOrder == old(inOrder) + [info] && byName == old(byName)[fileInfo := info]
      ensures forall g <- old(inOrder) :: g.currentIndex == old(g.currentIndex)
    {
      if fileInfo !in byName {
        info := new GeneratorInfo(size);
        byName := byName[fileInfo := info];
        inOrder := inOrder + [info];
        return;
      }
      return byName[fileInfo];
    }

    /** Moves the generators in turn until one of them does not wrap; `stop` is its place. */
    method MoveUntilOneStays() returns (more: bool, ghost stop: nat)
      requires Valid()
      modifies inOrder
      ensures Valid() && stop <= |inOrder| && more == (stop < |inOrder|)
      ensures forall k | 0 <= k < stop :: old(inOrder[k].currentIndex) + 1 == inOrder[k].size && inOrder[k].currentIndex == 0
      ensures more ==> inOrder[stop].currentIndex == old(inOrder[stop].currentIndex) + 1
      ensures forall k | stop < k < |inOrder| :: inOrder[k].currentIndex == old(inOrder[k].currentIndex)
    {
      var it := 0;
      while it < |inOrder|
        invariant 0 <= it <= |inOrder| && Valid()
        invariant forall k | 0 <= k < it :: old(inOrder[k].currentIndex) + 1 == inOrder[k].size && inOrder[k].currentIndex == 0
        invariant forall k | it <= k < |inOrder| :: inOrder[k].currentIndex == old(inOrder[k].currentIndex)
      {
        var moved := inOrder[it].MoveNext();
        if moved {
          return true, it;
        }
        it := it + 1;
      }
      return false, it;
    }

    /** Counts up by one, modulo the number of combinations; false exactly when it wraps, which an empty generator prevents. */
    method MoveNext() returns (more: bool)
      requires Valid()
      modifies inOrder
      ensures Valid() && Sizes() == old(Sizes())
      ensures Positive(Sizes()) ==> more == (Value(old(Indices()), Sizes()) + 1 < Product(Sizes()))
      ensures Positive(Sizes()) ==> Value(Indices(), Sizes()) == if more then Value(old(Indices()), Sizes()) + 1 else 0
      ensures !Positive(Sizes()) ==> more
    {
      hide Value, Product, Digits, Positive;
      ghost var before, sizes := Indices(), Sizes();
      ghost var stop;
      IndicesInRange();
      more, stop := MoveUntilOneStays();
      IndicesInRange();
      assert CarriesTo(before, sizes, stop);
      if more {
        Advanced(before, Indices(), sizes, stop);
      } else {
        assert Indices() == Zeros(|sizes|);
        Wrapped(before, sizes);
      }
    }

    lemma IndicesInRange()
      requires Valid()
      ensures InRange(Indices(), Sizes())
      ensures Positive(Sizes()) ==> Digits(Indices(), Sizes())
      ensures |Indices()| == |Sizes()| == |inOrder|
    {
      assert forall k | 0 <= k < |inOrder| :: Sizes()[k] in Sizes();
    }

    /** Runs one test body for every combination, as the run loop does: body, then advance, until it wraps. */
    method VisitAll() returns (visited: seq<seq<nat>>)
      requires Valid() && Positive(Sizes()) && Indices() == Zeros(|inOrder|)
      modifies inOrder
      ensures Valid() && Sizes() == old(Sizes()) && Indices() == old(Indices())
      ensures |visited| == Product(Sizes()) && Counted(visited, Sizes())
    {
      hide Value, Product, Digits, Positive, Indices, Sizes, Counted, Zeros;
      ghost var sizes := Sizes();
      visited := [Indices()];
      ZeroDigits(sizes);
      ValueOfZeros(sizes);
      IndicesInRange();
      ValueBelowProduct(Indices(), sizes);
      CountedMore([], Indices(), sizes);
      assert [] + [Indices()] == [Indices()];
      var more := MoveNext();
      IndicesInRange();
      while more
        invariant Valid() && Sizes() == sizes && Counted(visited, sizes) && visited != []
        invariant |visited| <= Product(sizes) && more == (|visited| < Product(sizes))
        invariant |Indices()| == |sizes| && Value(Indices(), sizes) == if more then |visited| else 0
        decreases Product(sizes) - |visited|
      {
        IndicesInRange();
        CountedMore(visited, Indices(), sizes);
        visited := visited + [Indices()];
        more := MoveNext();
        IndicesInRange();
      }
      IndicesInRange();
      ZeroDigits(sizes);
      ValueOfZeros(sizes);
      ValueIsInjective(Indices(), Zeros(|sizes|), sizes);
    }
  }

  /** The n-th tuple has value n. */
  ghost predicate Counted(visited: seq<seq<nat>>, sizes: seq<nat>)
  {
    forall n | 0 <= n < |visited| :: Digits(visited[n], sizes) && Value(visited[n], sizes) == n
  }

  lemma CountedMore(visited: seq<seq<nat>>, d: seq<nat>, sizes: seq<nat>)
    requires (visited == [] || Counted(visited, sizes)) && Digits(d, sizes) && Value(d, sizes) == |visited|
    ensures Counted(visited + [d], sizes)
  {
    hide Value, Digits;
  }

  lemma ZeroDigits(sizes: seq<nat>)
    requires Positive(sizes)
    ensures |Zeros(|sizes|)| == |sizes| && Digits(Zeros(|sizes|), sizes)
  {
    assert forall k | 0 <= k < |sizes| :: sizes[k] in sizes;
  }

  /** Counting through all values visits every tuple of indices, and each only once. */
  lemma EachTupleOnce(visited: seq<seq<nat>>, sizes: seq<nat>, d: seq<nat>)
    requires |visited| == Product(sizes) && Counted(visited, sizes)
    ensures Digits(d, sizes) <==> d in visited
    ensures forall i, j | 0 <= i < j < |visited| :: visited[i] != visited[j]
  {
    hide Value, Product;
    if Digits(d, sizes) {
      ValueBelowProduct(d, sizes);
      ValueIsInjective(d, visited[Value(d, sizes)], sizes);
    }
  }
}
