/** What it means for a sequence to be sorted stably by a key. */
module StableSort {
  /** The elements of one key, in their order. */
  function OfKey<T(!new)>(s: seq<T>, key: T -> nat, k: nat): seq<T>
  {
    if s == [] then []
    else OfKey(s[..|s| - 1], key, k) + if key(s[|s| - 1]) == k then [s[|s| - 1]] else []
  }

  predicate Ordered<T(!new)>(s: seq<T>, key: T -> nat)
  {
    forall i: nat, j: nat | i < j < |s| :: key(s[i]) <= key(s[j])
  }

  /** t holds the elements of s, ordered by key and, within a key, as in s. */
  ghost predicate StablySorted<T(!new)>(s: seq<T>, t: seq<T>, key: T -> nat)
  {
    && Ordered(t, key)
    && forall k: nat :: OfKey(t, key, k) == OfKey(s, key, k)
  }

  lemma {:induction false} OfKeyConcat<T(!new)>(s: seq<T>, t: seq<T>, key: T -> nat, k: nat)
    ensures OfKey(s + t, key, k) == OfKey(s, key, k) + OfKey(t, key, k)
    decreases |t|
  {
    if t == [] {
      assert s + t == s;
    } else {
      assert (s + t)[..|s + t| - 1] == s + t[..|t| - 1];
      OfKeyConcat(s, t[..|t| - 1], key, k);
    }
  }

  lemma {:induction false} NoneOfKey<T(!new)>(s: seq<T>, key: T -> nat, k: nat)
    requires forall a <- s :: key(a) != k
    ensures OfKey(s, key, k) == []
  {
    if s != [] { NoneOfKey(s[..|s| - 1], key, k); }
  }

  /** Moving x back over elements of greater keys keeps every key's elements in order. */
  lemma MovingBackIsStable<T(!new)>(l: seq<T>, r: seq<T>, x: T, key: T -> nat, k: nat)
    requires forall a <- r :: key(a) > key(x)
    ensures OfKey(l + [x] + r, key, k) == OfKey(l + r + [x], key, k)
  {
    OfKeyConcat(l + [x], r, key, k);
    OfKeyConcat(l, [x], key, k);
    OfKeyConcat(l + r, [x], key, k);
    OfKeyConcat(l, r, key, k);
    if key(x) == k {
      NoneOfKey(r, key, k);
    } else {
      NoneOfKey([x], key, k);
    }
  }

  lemma Inserted<T(!new)>(l: seq<T>, r: seq<T>, x: T, key: T -> nat)
    requires Ordered(l + r, key)
    requires forall a <- r :: key(a) > key(x)
    requires l != [] ==> key(l[|l| - 1]) <= key(x)
    ensures StablySorted(l + r + [x], l + [x] + r, key)
  {
    hide OfKey;
    forall k: nat ensures OfKey(l + [x] + r, key, k) == OfKey(l + r + [x], key, k) {
      MovingBackIsStable(l, r, x, key, k);
    }
    InsertedOrder(l, r, x, key);
  }

  /** s holds l, room for one element, r and then rest. */
  ghost predicate HasRoom<T(!new)>(s: seq<T>, l: seq<T>, r: seq<T>, rest: seq<T>)
  {
    |l| < |s| && s == l + [s[|l|]] + r + rest
  }

  lemma RoomAtEnd<T(!new)>(l: seq<T>, x: T, rest: seq<T>)
    ensures HasRoom(l + [x] + rest, l, [], rest)
  {
    assert l + [x] + [] + rest == l + [x] + rest;
  }

  lemma RoomMovesBack<T(!new)>(s: seq<T>, l: seq<T>, x: T, r: seq<T>, rest: seq<T>)
    requires HasRoom(s, l + [x], r, rest)
    ensures s[|l|] == x && HasRoom(s[|l| + 1 := x], l, [x] + r, rest)
    ensures l + ([x] + r) == l + [x] + r
  {
    var t := s[|l| + 1 := x];
    assert t == l + [x] + [x] + r + rest;
  }

  lemma RoomFilled<T(!new)>(s: seq<T>, l: seq<T>, r: seq<T>, rest: seq<T>, x: T)
    requires HasRoom(s, l, r, rest)
    ensures s[|l| := x] == l + [x] + r + rest
    ensures s[|l| := x][..|l| + 1 + |r|] == l + [x] + r
  {
    assert s[|l| := x] == l + [x] + r + rest;
  }

  lemma InsertedOrder<T(!new)>(l: seq<T>, r: seq<T>, x: T, key: T -> nat)
    requires Ordered(l + r, key)
    requires forall a <- r :: key(a) > key(x)
    requires l != [] ==> key(l[|l| - 1]) <= key(x)
    ensures Ordered(l + [x] + r, key)
  {
    var t, u, n := l + [x] + r, l + r, |l|;
    var kx := key(x);
    forall i: nat | i < |t| ensures i < n ==> t[i] == u[i] == l[i] && key(t[i]) <= kx {
      if i < n - 1 { assert key(u[i]) <= key(u[n - 1]); }
    }
    forall i: nat | n < i < |t| ensures t[i] == u[i - 1] && key(t[i]) > kx {
      assert t[i] == r[i - 1 - n];
    }
    forall i: nat, j: nat | i < j < |t| ensures key(t[i]) <= key(t[j]) {
      if j < n { assert t[i] == u[i] && t[j] == u[j]; }
      else if i > n { assert t[i] == u[i - 1] && t[j] == u[j - 1]; }
    }
  }

  lemma StableThenAppend<T(!new)>(s: seq<T>, t: seq<T>, x: T, u: seq<T>, key: T -> nat)
    requires StablySorted(s, t, key) && StablySorted(t + [x], u, key)
    ensures StablySorted(s + [x], u, key)
  {
    hide OfKey;
    forall k: nat ensures OfKey(s + [x], key, k) == OfKey(u, key, k) {
      OfKeyConcat(s, [x], key, k);
      OfKeyConcat(t, [x], key, k);
    }
  }

  /** A stable sort is a permutation. */
  lemma StableIsPermutation<T(!new)>(s: seq<T>, t: seq<T>, key: T -> nat)
    requires StablySorted(s, t, key)
    ensures multiset(s) == multiset(t)
  {
    hide OfKey;
    forall a ensures multiset(s)[a] == multiset(t)[a] {
      CountOfKey(s, a, key);
      CountOfKey(t, a, key);
    }
  }

  lemma {:induction false} CountOfKey<T(!new)>(s: seq<T>, a: T, key: T -> nat)
    ensures multiset(s)[a] == multiset(OfKey(s, key, key(a)))[a]
  {
    if s != [] {
      assert s == s[..|s| - 1] + [s[|s| - 1]];
      CountOfKey(s[..|s| - 1], a, key);
    }
  }

  /** There is only one stable sort. */
  lemma {:induction false} StableIsUnique<T(!new)>(s: seq<T>, t: seq<T>, u: seq<T>, key: T -> nat)
    requires StablySorted(s, t, key) && StablySorted(s, u, key)
    ensures t == u
  {
    hide OfKey;
    SameGroups(t, u, key);
  }

  lemma {:induction false} SameGroups<T(!new)>(t: seq<T>, u: seq<T>, key: T -> nat)
    requires Ordered(t, key) && Ordered(u, key)
    requires forall k: nat :: OfKey(t, key, k) == OfKey(u, key, k)
    ensures t == u
    decreases |t|
  {
    if t == [] || u == [] {
      if t != [] { LastOfKey(t, key); }
      if u != [] { LastOfKey(u, key); }
    } else {
      var x, y := t[|t| - 1], u[|u| - 1];
      LastKeyIsGreatest(t, u, key);
      LastKeyIsGreatest(u, t, key);
      LastOfKey(t, key);
      LastOfKey(u, key);
      var t', u' := t[..|t| - 1], u[..|u| - 1];
      assert x == y by {
        assert OfKey(t, key, key(x))[|OfKey(t', key, key(x))|] == x;
      }
      assert OfKey(t, key, key(x)) == OfKey(u, key, key(x));
      forall k: nat ensures OfKey(t', key, k) == OfKey(u', key, k) {
        var a, b := OfKey(t, key, k), OfKey(u, key, k);
        if k == key(x) {
          assert OfKey(t', key, k) == a[..|a| - 1] && OfKey(u', key, k) == b[..|b| - 1];
        } else {
          assert OfKey(t', key, k) == a && OfKey(u', key, k) == b;
        }
      }
      SameGroups(t', u', key);
    }
  }

  lemma LastOfKey<T(!new)>(s: seq<T>, key: T -> nat)
    requires s != []
    ensures var x := s[|s| - 1];
            OfKey(s, key, key(x))
            == OfKey(s[..|s| - 1], key, key(x)) + [x]
  {
  }

  lemma NoneAbove<T(!new)>(u: seq<T>, key: T -> nat, k: nat)
    requires u != [] && Ordered(u, key) && k > key(u[|u| - 1])
    ensures forall a <- u :: key(a) != k
  {
    forall i: nat | i < |u| ensures key(u[i]) < k {
      if i < |u| - 1 { assert key(u[i]) <= key(u[|u| - 1]); }
    }
  }

  lemma LastKeyIsGreatest<T(!new)>(t: seq<T>, u: seq<T>, key: T -> nat)
    requires t != [] && u != [] && Ordered(u, key)
    requires OfKey(t, key, key(t[|t| - 1])) == OfKey(u, key, key(t[|t| - 1]))
    ensures key(t[|t| - 1]) <= key(u[|u| - 1])
  {
    hide OfKey;
    var k := key(t[|t| - 1]);
    LastOfKey(t, key);
    if k > key(u[|u| - 1]) {
      NoneAbove(u, key, k);
      NoneOfKey(u, key, k);
    }
  }

  /** The stable sort as a function: the groups of keys 0, 1, ... n - 1 in turn. */
  function Grouped<T(!new)>(s: seq<T>, key: T -> nat, n: nat): seq<T>
  {
    if n == 0 then [] else Grouped(s, key, n - 1) + OfKey(s, key, n - 1)
  }

  lemma {:induction false} GroupHasKey<T(!new)>(s: seq<T>, key: T -> nat, k: nat)
    ensures forall a <- OfKey(s, key, k) :: key(a) == k
  {
    if s != [] { GroupHasKey(s[..|s| - 1], key, k); }
  }

  lemma {:induction false} OneGroup<T(!new)>(s: seq<T>, key: T -> nat, k: nat)
    requires forall a <- s :: key(a) == k
    ensures OfKey(s, key, k) == s
  {
    if s != [] {
      var before, last := s[..|s| - 1], s[|s| - 1];
      assert s == before + [last];
      assert forall a <- before :: a in s;
      assert key(last) == k;
      OneGroup(before, key, k);
    }
  }

  lemma {:induction false} GroupsOfGrouped<T(!new)>(s: seq<T>, key: T -> nat, n: nat, k: nat)
    ensures forall a <- Grouped(s, key, n) :: key(a) < n
    ensures OfKey(Grouped(s, key, n), key, k) == if k < n then OfKey(s, key, k) else []
  {
    hide OfKey;
    if n == 0 {
      NoneOfKey([], key, k);
    } else {
      GroupsOfGrouped(s, key, n - 1, k);
      var last := OfKey(s, key, n - 1);
      GroupHasKey(s, key, n - 1);
      OfKeyConcat(Grouped(s, key, n - 1), last, key, k);
      if k == n - 1 { OneGroup(last, key, k); } else { NoneOfKey(last, key, k); }
    }
  }

  lemma {:induction false} GroupedIsOrdered<T(!new)>(s: seq<T>, key: T -> nat, n: nat)
    ensures Ordered(Grouped(s, key, n), key)
  {
    hide OfKey;
    if n != 0 {
      GroupedIsOrdered(s, key, n - 1);
      var first, last := Grouped(s, key, n - 1), OfKey(s, key, n - 1);
      GroupsOfGrouped(s, key, n - 1, 0);
      GroupHasKey(s, key, n - 1);
      var t := first + last;
      forall i: nat, j: nat | i < j < |t| ensures key(t[i]) <= key(t[j]) {
        assert i < |first| ==> t[i] in first;
        assert i >= |first| ==> t[i] in last;
        assert j >= |first| ==> t[j] in last;
      }
    }
  }

  /** A stable sort is exactly the groups in turn. */
  lemma {:induction false} StableIsGrouped<T(!new)>(s: seq<T>, t: seq<T>, key: T -> nat, n: nat)
    requires forall a <- s :: key(a) < n
    ensures StablySorted(s, t, key) <==> t == Grouped(s, key, n)
  {
    hide OfKey, Ordered;
    forall k: nat ensures OfKey(Grouped(s, key, n), key, k) == OfKey(s, key, k) {
      GroupsOfGrouped(s, key, n, k);
      if k >= n { NoneOfKey(s, key, k); }
    }
    GroupedIsOrdered(s, key, n);
    if StablySorted(s, t, key) { StableIsUnique(s, t, Grouped(s, key, n), key); }
  }
}
