/**
 A whole test case (UnitTest/catch.hpp): under one combination of generator values after
 the other, the section tracker runs all root-to-leaf paths and the generators advance.
 Generators register when the body first asks for them, in whatever section that is.
 */
module TestCaseRun {
  import opened SectionTracker
  import opened GeneratorOdometer

  /** A generator that the test body asks for, by its place in the file. */
  datatype Declaration = Declaration(fileInfo: string, size: nat)

  /** What the body does under one combination: the generators it asks for, in order, and its sections. */
  datatype Pass = Pass(decls: seq<Declaration>, tree: Section)

  // ----- What is declared

  function NamesOf(decls: seq<Declaration>): set<string> { set d <- decls :: d.fileInfo }

  /** The sizes of the generators, each in the place of its first declaration. */
  function SizesOf(decls: seq<Declaration>): seq<nat>
  {
    if decls == [] then []
    else
      var before, last := decls[..|decls| - 1], decls[|decls| - 1];
      SizesOf(before) + if last.fileInfo in NamesOf(before) then [] else [last.size]
  }

  lemma {:induction false} SizesArePositive(decls: seq<Declaration>)
    requires forall d <- decls :: d.size >= 1
    ensures Positive(SizesOf(decls))
  {
    if decls != [] { SizesArePositive(decls[..|decls| - 1]); }
  }

  lemma OneMoreDeclared(done: seq<Declaration>, d: Declaration)
    ensures NamesOf(done + [d]) == NamesOf(done) + {d.fileInfo}
    ensures SizesOf(done + [d]) == SizesOf(done) + if d.fileInfo in NamesOf(done) then [] else [d.size]
  {
    assert (done + [d])[..|done|] == done;
  }

  /** Later declarations only add generators at the end. */
  lemma {:induction false} SizesGrow(done: seq<Declaration>, more: seq<Declaration>)
    ensures SizesOf(done) <= SizesOf(done + more)
    decreases |more|
  {
    if more == [] {
      assert done + more == done;
    } else {
      var m := |more| - 1;
      SizesGrow(done, more[..m]);
      OneMoreDeclared(done + more[..m], more[m]);
      assert done + more == (done + more[..m]) + [more[m]];
    }
  }

  /** All that the body has asked for in its first n runs. */
  function Asked(passes: seq<Pass>, n: nat): seq<Declaration>
    requires n <= |passes|
  {
    if n == 0 then [] else Asked(passes, n - 1) + passes[n - 1].decls
  }

  function SizesAfter(passes: seq<Pass>, n: nat): seq<nat>
    requires n <= |passes|
  {
    SizesOf(Asked(passes, n))
  }

  predicate Proper(passes: seq<Pass>)
  {
    forall p <- passes :: Distinct(p.tree) && forall d <- p.decls :: d.size >= 1
  }

  lemma {:induction false} AskedIsPositive(passes: seq<Pass>, n: nat)
    requires n <= |passes| && Proper(passes)
    ensures (forall d <- Asked(passes, n) :: d.size >= 1) && Positive(SizesAfter(passes, n))
  {
    hide Distinct, SizesOf;
    if n > 0 {
      AskedIsPositive(passes, n - 1);
      assert passes[n - 1] in passes;
    }
    SizesArePositive(Asked(passes, n));
  }

  lemma {:induction false} SizesAfterGrow(passes: seq<Pass>, m: nat, n: nat)
    requires m <= n <= |passes|
    ensures SizesAfter(passes, m) <= SizesAfter(passes, n)
  {
    if m < n {
      SizesAfterGrow(passes, m, n - 1);
      SizesGrow(Asked(passes, n - 1), passes[n - 1].decls);
    }
  }

  // ----- Registration

  /** The generators are those declared so far. */
  ghost predicate Declared(generators: GeneratorsForTest, done: seq<Declaration>)
    reads generators, generators.inOrder
  {
    generators.Valid() && generators.Sizes() == SizesOf(done) && generators.byName.Keys == NamesOf(done)
  }

  /** A new name registers at the end and at index zero; a known one is found where it stands. */
  method DeclareOne(generators: GeneratorsForTest, ghost done: seq<Declaration>, d: Declaration)
    requires Declared(generators, done)
    modifies generators
    ensures Declared(generators, done + [d]) && fresh(set g <- generators.inOrder | g !in old(generators.inOrder))
    ensures generators.Indices() == old(generators.Indices()) + Zeros(|SizesOf(done + [d])| - |SizesOf(done)|)
  {
    hide SizesOf, NamesOf;
    OneMoreDeclared(done, d);
    var info := generators.GetGeneratorInfo(d.fileInfo, d.size);
  }

  method DeclareMore(generators: GeneratorsForTest, ghost done: seq<Declaration>, decls: seq<Declaration>)
    requires Declared(generators, done)
    modifies generators
    ensures Declared(generators, done + decls) && fresh(set g <- generators.inOrder | g !in old(generators.inOrder))
    ensures |SizesOf(done)| <= |SizesOf(done + decls)|
    ensures generators.Indices() == old(generators.Indices()) + Zeros(|SizesOf(done + decls)| - |SizesOf(done)|)
  {
    hide SizesOf, NamesOf, Declared;
    assert done + decls[..0] == done;
    for k := 0 to |decls|
      invariant Declared(generators, done + decls[..k])
      invariant fresh(set g <- generators.inOrder | g !in old(generators.inOrder))
      invariant |SizesOf(done)| <= |SizesOf(done + decls[..k])|
      invariant generators.Indices() == old(generators.Indices()) + Zeros(|SizesOf(done + decls[..k])| - |SizesOf(done)|)
    {
      assert done + decls[..k + 1] == (done + decls[..k]) + [decls[k]];
      SizesGrow(done + decls[..k], [decls[k]]);
      DeclareOne(generators, done + decls[..k], decls[k]);
    }
    assert decls[..|decls|] == decls;
  }

  // ----- What a test case should run

  /** The combination of index n: the mixed-radix digits of n. */
  function Combination(n: nat, sizes: seq<nat>): seq<nat>
    requires Positive(sizes)
  {
    if sizes == [] then []
    else
      assert sizes[0] in sizes && forall m <- sizes[1..] :: m in sizes;
      [n % sizes[0]] + Combination(n / sizes[0], sizes[1..])
  }

  lemma {:induction false} CombinationOf(d: seq<nat>, sizes: seq<nat>)
    requires Positive(sizes) && Digits(d, sizes)
    ensures Combination(Value(d, sizes), sizes) == d
  {
    if d != [] {
      assert sizes[0] in sizes && forall m <- sizes[1..] :: m in sizes;
      CombinationOf(d[1..], sizes[1..]);
      var v := Value(d[1..], sizes[1..]);
      DivMod(sizes[0], d[0], v);
      assert d == [d[0]] + d[1..];
    }
  }

  lemma DivMod(n: nat, a: nat, v: nat)
    requires a < n
    ensures (a + n * v) % n == a && (a + n * v) / n == v
  {
    var s := a + n * v;
    SameQuotient(n, s % n, s / n, a, v);
  }

  function Paired(d: seq<nat>, paths: seq<seq<NameAndLocation>>): (r: seq<(seq<nat>, seq<NameAndLocation>)>)
    ensures |r| == |paths| && forall i :: 0 <= i < |r| ==> r[i] == (d, paths[i])
  {
    seq(|paths|, i requires 0 <= i < |paths| => (d, paths[i]))
  }

  /** More generators at the end, all at zero, do not change the value. */
  lemma {:induction false} ValuePadded(d: seq<nat>, sizes: seq<nat>, more: seq<nat>)
    requires |d| == |sizes|
    ensures Value(d + Zeros(|more|), sizes + more) == Value(d, sizes)
  {
    hide Value;
    if d == [] {
      assert d + Zeros(|more|) == Zeros(|more|) && sizes + more == more;
      ValueOfZeros(more);
      NoDigits();
    } else {
      ValueSplits(d, sizes);
      ValueSplits(d + Zeros(|more|), sizes + more);
      assert (d + Zeros(|more|))[1..] == d[1..] + Zeros(|more|) && (sizes + more)[1..] == sizes[1..] + more;
      ValuePadded(d[1..], sizes[1..], more);
    }
  }

  /** The combination under which the n-th pass is run, of the generators registered by its end. */
  ghost function Seen(passes: seq<Pass>, n: nat): seq<nat>
    requires n < |passes| && Positive(SizesAfter(passes, n + 1))
  {
    Combination(n, SizesAfter(passes, n + 1))
  }

  /** Pass by pass, all the paths; the sections met may depend on the combination. */
  ghost function AllRuns(passes: seq<Pass>, n: nat): seq<(seq<nat>, seq<NameAndLocation>)>
    requires n <= |passes| && Proper(passes)
  {
    if n == 0 then []
    else
      AskedIsPositive(passes, n);
      AllRuns(passes, n - 1) + Paired(Seen(passes, n - 1), AllPaths(passes[n - 1].tree))
  }

  /** The number of passes, from the n-th on, until all generators wrap or nothing more is known of the body. */
  function PassesRun(passes: seq<Pass>, n: nat := 0): (m: nat)
    requires n <= |passes|
    ensures n <= m <= |passes|
    decreases |passes| - n
  {
    if n == |passes| then n
    else if n + 1 >= Product(SizesAfter(passes, n + 1)) then n + 1
    else PassesRun(passes, n + 1)
  }

  /** The generators declared so far stand at the n-th combination. */
  ghost predicate StandAt(generators: GeneratorsForTest, done: seq<Declaration>, n: nat)
    reads generators, generators.inOrder
  {
    && Declared(generators, done)
    && |generators.Indices()| == |SizesOf(done)| && Value(generators.Indices(), SizesOf(done)) == n
  }

  /** Registering more generators leaves them at the same combination. */
  method Register(generators: GeneratorsForTest, ghost done: seq<Declaration>, decls: seq<Declaration>, ghost n: nat)
    requires StandAt(generators, done, n)
    modifies generators
    ensures StandAt(generators, done + decls, n) && fresh(set g <- generators.inOrder | g !in old(generators.inOrder))
  {
    hide Value, SizesOf, NamesOf, Declared;
    ghost var before, sizes := generators.Indices(), SizesOf(done);
    SizesGrow(done, decls);
    DeclareMore(generators, done, decls);
    ghost var more := SizesOf(done + decls)[|sizes|..];
    assert SizesOf(done + decls) == sizes + more;
    ValuePadded(before, sizes, more);
  }

  /** All the paths under one combination, and then the next one. */
  method RunPass(generators: GeneratorsForTest, context: TrackerContext, ghost done: seq<Declaration>, pass: Pass, ghost n: nat)
    returns (runs: seq<(seq<nat>, seq<NameAndLocation>)>, more: bool)
    requires Positive(SizesOf(done + pass.decls)) && Distinct(pass.tree) && StandAt(generators, done, n)
    modifies generators, generators.inOrder, context
    ensures fresh(set g <- generators.inOrder | g !in old(generators.inOrder))
    ensures runs == Paired(Combination(n, SizesOf(done + pass.decls)), AllPaths(pass.tree))
    ensures more == (n + 1 < Product(SizesOf(done + pass.decls)))
    ensures StandAt(generators, done + pass.decls, if more then n + 1 else 0)
  {
    hide Value, Product, Distinct, AllPaths, Combination, Positive, SizesOf, NamesOf, Digits;
    Register(generators, done, pass.decls, n);
    generators.IndicesInRange();
    CombinationOf(generators.Indices(), SizesOf(done + pass.decls));
    var tuple := generators.Indices();
    var paths := context.RunTest(pass.tree);
    runs := Paired(tuple, paths);
    more := generators.MoveNext();
    generators.IndicesInRange();
  }

  /**
   The run loop of a test case whose body does passes[n] in its n-th pass. It stops when
   all generators wrap; a body that goes on declaring new ones can put that off.
   */
  method RunTestCase(passes: seq<Pass>) returns (runs: seq<(seq<nat>, seq<NameAndLocation>)>, ended: bool)
    requires Proper(passes)
    ensures runs == AllRuns(passes, PassesRun(passes))
    ensures ended <==> passes != [] && PassesRun(passes) == Product(SizesAfter(passes, PassesRun(passes)))
  {
    hide Product, AllRuns, PassesRun, Positive, SizesOf, NamesOf, StandAt, Proper, Distinct;
    var generators := new GeneratorsForTest();
    var context := new TrackerContext();
    StandsAtZero(generators);
    NothingRun(passes);
    runs := [];
    var n, more := 0, true;
    while more && n < |passes|
      invariant fresh(generators) && fresh(generators.inOrder) && fresh(context)
      invariant 0 <= n <= |passes| && runs == AllRuns(passes, n)
      invariant more ==> StandAt(generators, Asked(passes, n), n) && PassesRun(passes) == PassesRun(passes, n)
      invariant more && n > 0 ==> n < Product(SizesAfter(passes, n))
      invariant !more ==> n > 0 && n == PassesRun(passes) && n == Product(SizesAfter(passes, n))
      decreases |passes| - n
    {
      var pass;
      OneMorePass(passes, n);
      ghost var done := Asked(passes, n);
      pass, more := RunPass(generators, context, done, passes[n], n);
      runs := runs + pass;
      n := n + 1;
    }
    ended := !more;
    LastPass(passes, n);
  }

  lemma StandsAtZero(generators: GeneratorsForTest)
    requires generators.Valid() && generators.byName == map[] && generators.inOrder == []
    ensures StandAt(generators, [], 0)
  {
    NoDigits();
    assert generators.Indices() == [] && generators.Sizes() == [];
  }

  lemma NothingRun(passes: seq<Pass>)
    requires Proper(passes)
    ensures AllRuns(passes, 0) == [] && Asked(passes, 0) == []
  {
  }

  /** What pass n adds, and whether another one follows. */
  lemma OneMorePass(passes: seq<Pass>, n: nat)
    requires n < |passes| && Proper(passes) && (n > 0 ==> n < Product(SizesAfter(passes, n)))
    ensures Distinct(passes[n].tree) && Asked(passes, n + 1) == Asked(passes, n) + passes[n].decls
    ensures Positive(SizesAfter(passes, n + 1)) && n < Product(SizesAfter(passes, n + 1))
    ensures AllRuns(passes, n + 1) == AllRuns(passes, n) + Paired(Seen(passes, n), AllPaths(passes[n].tree))
    ensures PassesRun(passes, n)
            == if n + 1 >= Product(SizesAfter(passes, n + 1)) then n + 1 else PassesRun(passes, n + 1)
  {
    hide Product, SizesOf, Distinct, AllPaths, Combination, Positive;
    AskedIsPositive(passes, n + 1);
    assert passes[n] in passes;
    ProductGrows(passes, n);
  }

  lemma ProductGrows(passes: seq<Pass>, n: nat)
    requires n < |passes| && Proper(passes) && (n > 0 ==> n < Product(SizesAfter(passes, n)))
    ensures n < Product(SizesAfter(passes, n + 1))
  {
    hide Product, SizesOf, Distinct;
    AskedIsPositive(passes, n);
    AskedIsPositive(passes, n + 1);
    SizesAfterGrow(passes, n, n + 1);
    var s, t := SizesAfter(passes, n), SizesAfter(passes, n + 1);
    assert t == s + t[|s|..];
    ProductOfMore(s, t[|s|..]);
    ProductPositive(s);
  }

  lemma {:induction false} ProductPositive(sizes: seq<nat>)
    requires Positive(sizes)
    ensures Product(sizes) >= 1
  {
    if sizes != [] {
      assert sizes[0] in sizes && forall m <- sizes[1..] :: m in sizes;
      ProductPositive(sizes[1..]);
      Farther(sizes[0], 0, Product(sizes[1..]));
    }
  }

  lemma {:induction false} ProductOfMore(s: seq<nat>, t: seq<nat>)
    requires Positive(s + t)
    ensures Product(s) <= Product(s + t)
  {
    if s == [] {
      assert s + t == t;
      ProductPositive(t);
    } else {
      assert s[0] in s + t && forall m <- s[1..] + t :: m in s + t;
      assert (s + t)[1..] == s[1..] + t;
      ProductOfMore(s[1..], t);
      Monotone(s[0], Product(s[1..]), Product(s[1..] + t));
    }
  }

  lemma Monotone(n: nat, a: nat, b: nat)
    requires a <= b
    ensures n * a <= n * b
  {
  }

  lemma LastPass(passes: seq<Pass>, n: nat)
    requires n <= |passes|
    ensures n == |passes| ==> PassesRun(passes, n) == n
  {
  }

  // ----- Each pair once

  lemma {:induction false} CombinationDigits(n: nat, sizes: seq<nat>)
    requires Positive(sizes) && n < Product(sizes)
    ensures Digits(Combination(n, sizes), sizes) && Value(Combination(n, sizes), sizes) == n
  {
    hide Digits, Value, Product, Combination, Positive;
    if sizes == [] {
      NoDigits();
      OnlyOne();
    } else {
      var a, q := FirstDigit(n, sizes);
      CombinationDigits(q, sizes[1..]);
      OneMoreDigit(a, Combination(q, sizes[1..]), sizes);
    }
  }

  lemma OnlyOne()
    ensures Product([]) == 1 && Combination(0, []) == []
  {
  }

  /** The lowest digit of n and what the others make up. */
  lemma FirstDigit(n: nat, sizes: seq<nat>) returns (a: nat, q: nat)
    requires sizes != [] && Positive(sizes) && n < Product(sizes)
    ensures Positive(sizes[1..]) && a < sizes[0] && q < Product(sizes[1..]) && n == a + sizes[0] * q
    ensures Combination(n, sizes) == [a] + Combination(q, sizes[1..])
  {
    assert sizes[0] in sizes;
    assert forall m <- sizes[1..] :: m in sizes;
    a, q := n % sizes[0], n / sizes[0];
    QuotientBelow(n, sizes[0], Product(sizes[1..]));
  }

  lemma NoDigits()
    ensures Digits([], []) && Value([], []) == 0
  {
  }

  lemma OneMoreDigit(a: nat, d: seq<nat>, sizes: seq<nat>)
    requires sizes != [] && a < sizes[0] && Digits(d, sizes[1..])
    ensures Digits([a] + d, sizes) && Value([a] + d, sizes) == a + sizes[0] * Value(d, sizes[1..])
  {
    var e := [a] + d;
    assert e[1..] == d;
    assert forall i | 0 < i < |e| :: e[i] == d[i - 1] && sizes[i] == sizes[1..][i - 1];
  }

  lemma QuotientBelow(n: nat, m: nat, p: nat)
    requires m >= 1 && n < m * p
    ensures n / m < p && n == n % m + m * (n / m)
  {
    Farther(m, p - 1, n / m);
    assert p >= 1 && m * (p - 1) == m * p - m;
  }

  /** A combination of all generators is what its pass has seen, and zero for those not yet registered. */
  lemma SeenAndZeros(passes: seq<Pass>, n: nat, end: nat)
    requires n < end <= |passes| && Proper(passes) && n < Product(SizesAfter(passes, n + 1))
    ensures Positive(SizesAfter(passes, n + 1)) && Positive(SizesAfter(passes, end))
    ensures |SizesAfter(passes, n + 1)| <= |SizesAfter(passes, end)|
    ensures Combination(n, SizesAfter(passes, end))
            == Seen(passes, n) + Zeros(|SizesAfter(passes, end)| - |SizesAfter(passes, n + 1)|)
  {
    hide Product, SizesOf, Distinct, Combination, Positive;
    AskedIsPositive(passes, n + 1);
    AskedIsPositive(passes, end);
    SizesAfterGrow(passes, n + 1, end);
    var s, t := SizesAfter(passes, n + 1), SizesAfter(passes, end);
    assert t == s + t[|s|..];
    CombinationPadded(n, s, t[|s|..]);
  }

  lemma {:induction false} CombinationPadded(n: nat, s: seq<nat>, t: seq<nat>)
    requires Positive(s) && Positive(s + t) && n < Product(s)
    ensures Combination(n, s + t) == Combination(n, s) + Zeros(|t|)
  {
    hide Combination, Product, Positive;
    if s == [] {
      OnlyOne();
      assert s + t == t;
      CombinationOfZero(t);
    } else {
      var a, q := FirstDigit(n, s);
      SplitsTheSame(n, s, t, a, q);
      CombinationPadded(q, s[1..], t);
    }
  }

  lemma SplitsTheSame(n: nat, s: seq<nat>, t: seq<nat>, a: nat, q: nat)
    requires s != [] && Positive(s + t) && a < s[0] && n == a + s[0] * q
    ensures Positive(s[1..] + t) && Combination(n, s + t) == [a] + Combination(q, s[1..] + t)
  {
    assert (s + t)[0] in s + t && forall m <- s[1..] + t :: m in s + t;
    assert (s + t)[1..] == s[1..] + t;
    DivMod(s[0], a, q);
  }

  lemma {:induction false} CombinationOfZero(t: seq<nat>)
    requires Positive(t)
    ensures Combination(0, t) == Zeros(|t|)
  {
    if t != [] {
      assert t[0] in t && forall m <- t[1..] :: m in t;
      CombinationOfZero(t[1..]);
      assert Zeros(|t|) == [0] + Zeros(|t[1..]|);
    }
  }

  /** As many passes as there are combinations of the generators registered before. */
  lemma {:induction false} RunInRange(passes: seq<Pass>, from: nat, n: nat)
    requires Proper(passes) && from <= |passes| && from <= n < PassesRun(passes, from)
    requires from > 0 ==> from < Product(SizesAfter(passes, from))
    ensures n < Product(SizesAfter(passes, n + 1))
    decreases |passes| - from
  {
    hide Product, SizesOf, Distinct;
    if from == n {
      ProductGrows(passes, n);
    } else {
      RunInRange(passes, from + 1, n);
    }
  }

  /**
   In a run that has ended, every combination of the generators has its pass, of the same
   number. It saw the combination, with zeros for those registered later, and the pairs
   run in it are those with the paths of its sections.
   */
  lemma RunsAre(passes: seq<Pass>, end: nat, d: seq<nat>, n: nat, path: seq<NameAndLocation>)
    requires Proper(passes) && passes != [] && end == PassesRun(passes) == Product(SizesAfter(passes, end))
    requires Digits(d, SizesAfter(passes, end)) && n == Value(d, SizesAfter(passes, end))
    ensures n < end && Positive(SizesAfter(passes, n + 1))
    ensures |Seen(passes, n)| <= |d| && d == Seen(passes, n) + Zeros(|d| - |Seen(passes, n)|)
    ensures (Seen(passes, n), path) in AllRuns(passes, end) <==> path in AllPaths(passes[n].tree)
  {
    hide Product, SizesOf, Distinct, AllPaths, Combination, Positive, Value, PassesRun, Seen, AllRuns, Zeros;
    var sizes := SizesAfter(passes, end);
    AskedIsPositive(passes, end);
    ValueBelowProduct(d, sizes);
    AskedIsPositive(passes, n + 1);
    RunInRange(passes, 0, n);
    SeenAndZeros(passes, n, end);
    CombinationOf(d, sizes);
    SeenLength(passes, n);
    RunOf(passes, end, n, path);
  }

  lemma SeenLength(passes: seq<Pass>, n: nat)
    requires n < |passes| && Positive(SizesAfter(passes, n + 1)) && n < Product(SizesAfter(passes, n + 1))
    ensures |Seen(passes, n)| == |SizesAfter(passes, n + 1)|
  {
    hide Product, SizesOf, Combination, Positive;
    CombinationDigits(n, SizesAfter(passes, n + 1));
  }

  /** Two passes do not see the same. */
  lemma SeenDiffer(passes: seq<Pass>, m: nat, n: nat, end: nat)
    requires m < n < end <= |passes| && Proper(passes)
    requires m < Product(SizesAfter(passes, m + 1)) && n < Product(SizesAfter(passes, n + 1))
    ensures Positive(SizesAfter(passes, m + 1)) && Positive(SizesAfter(passes, n + 1)) && Seen(passes, m) != Seen(passes, n)
  {
    hide Product, SizesAfter, Distinct, Combination, Positive, Seen, Proper;
    AskedIsPositive(passes, m + 1);
    AskedIsPositive(passes, n + 1);
    SeenLength(passes, m);
    SeenLength(passes, n);
    SizesAfterGrow(passes, m + 1, n + 1);
    if |SizesAfter(passes, m + 1)| == |SizesAfter(passes, n + 1)| { SameSizes(passes, m, n); }
  }

  lemma SameSizes(passes: seq<Pass>, m: nat, n: nat)
    requires m < n < |passes| && SizesAfter(passes, m + 1) == SizesAfter(passes, n + 1)
    requires Positive(SizesAfter(passes, n + 1)) && n < Product(SizesAfter(passes, n + 1))
    ensures Seen(passes, m) != Seen(passes, n)
  {
    hide Product, SizesOf, Combination, Positive;
    CombinationDigits(m, SizesAfter(passes, n + 1));
    CombinationDigits(n, SizesAfter(passes, n + 1));
  }

  /** What is run in pass n. */
  lemma {:induction false} RunOf(passes: seq<Pass>, end: nat, n: nat, path: seq<NameAndLocation>)
    requires end <= PassesRun(passes) && n < PassesRun(passes) && Proper(passes)
    ensures Positive(SizesAfter(passes, n + 1))
    ensures (Seen(passes, n), path) in AllRuns(passes, end) <==> n < end && path in AllPaths(passes[n].tree)
  {
    hide Product, SizesOf, Distinct, AllPaths, Positive, PassesRun, Seen;
    AskedIsPositive(passes, n + 1);
    if end > 0 {
      RunOf(passes, end - 1, n, path);
      RunInRange(passes, 0, end - 1);
      RunInRange(passes, 0, n);
      AskedIsPositive(passes, end);
      InPaired(Seen(passes, end - 1), AllPaths(passes[end - 1].tree), Seen(passes, n), path);
      if end - 1 < n {
        SeenDiffer(passes, end - 1, n, n + 1);
      } else if n < end - 1 {
        SeenDiffer(passes, n, end - 1, end);
      }
    }
  }

  lemma InPaired(c: seq<nat>, paths: seq<seq<NameAndLocation>>, d: seq<nat>, path: seq<NameAndLocation>)
    ensures (d, path) in Paired(c, paths) <==> d == c && path in paths
  {
    if d == c && path in paths {
      var i :| 0 <= i < |paths| && paths[i] == path;
      assert Paired(c, paths)[i] == (d, path);
    }
  }

  /** No pair is run twice. */
  lemma {:induction false} RunsAreDistinct(passes: seq<Pass>, end: nat, i: nat, j: nat)
    requires end <= PassesRun(passes) && Proper(passes) && i < j < |AllRuns(passes, end)|
    ensures AllRuns(passes, end)[i] != AllRuns(passes, end)[j]
  {
    hide Product, SizesOf, Distinct, AllPaths, Positive, PassesRun, Seen;
    AskedIsPositive(passes, end);
    var before, seen, paths := AllRuns(passes, end - 1), Seen(passes, end - 1), AllPaths(passes[end - 1].tree);
    assert passes[end - 1] in passes;
    if j < |before| {
      RunsAreDistinct(passes, end - 1, i, j);
    } else if i >= |before| {
      PathsDiffer(passes[end - 1].tree, i - |before|, j - |before|);
    } else {
      RunOf(passes, end - 1, end - 1, paths[j - |before|]);
      assert before[i] in before;
    }
  }

  lemma PathsDiffer(s: Section, i: nat, j: nat)
    requires Distinct(s) && i < j < |AllPaths(s)|
    ensures AllPaths(s)[i] != AllPaths(s)[j]
  {
    hide AllPaths, Path, Distinct;
    AllPathsAt(s);
    PathsAreDistinct(s, i, j);
  }
}
