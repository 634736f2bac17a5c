/**
 The query lists of a channel: circular doubly linked lists with a dummy head
 (c-ares/ares_llist.c), cancellation (c-ares/ares_cancel.c) and teardown
 (c-ares/ares_destroy.c).
 */
module QueryLists {
  import opened Status

  class ListNode {
    var prev: ListNode?
    var next: ListNode?
    var data: Query?

    /** ares__init_list_node. */
    constructor ()
      ensures prev == null && next == null && data == null
    {
      prev, next, data := null, null, null;
    }
  }

  ghost predicate Apart(ns: seq<ListNode>)
  {
    forall i, j :: 0 <= i < j < |ns| ==> ns[i] != ns[j]
  }

  /** Consecutive nodes point at each other. */
  ghost predicate Linked(r: seq<ListNode>)
    reads r
  {
    forall i :: 0 <= i < |r| - 1 ==> r[i].next == r[i + 1] && r[i + 1].prev == r[i]
  }

  /** One turn around the list, from the head back to the head. */
  ghost function Turn(head: ListNode, ns: seq<ListNode>): seq<ListNode>
  {
    [head] + ns + [head]
  }

  /** head and ns, in this order, form one closed ring of distinct nodes. */
  ghost predicate Ring(head: ListNode, ns: seq<ListNode>)
    reads head, ns
  {
    Apart([head] + ns) && Linked(Turn(head, ns))
  }

  ghost function RingNodes(head: ListNode, ns: seq<ListNode>): set<ListNode>
  {
    set n | n in [head] + ns
  }

  ghost function Inserted(ns: seq<ListNode>, p: nat, n: ListNode): seq<ListNode>
    requires p <= |ns|
  {
    ns[..p] + [n] + ns[p..]
  }

  ghost function Removed(ns: seq<ListNode>, p: nat): seq<ListNode>
    requires p < |ns|
  {
    ns[..p] + ns[p + 1..]
  }

  lemma ApartInserted(ns: seq<ListNode>, p: nat, n: ListNode)
    requires Apart(ns) && p <= |ns| && n !in ns
    ensures Apart(Inserted(ns, p, n))
  {
    var r := Inserted(ns, p, n);
    forall i, j | 0 <= i < j < |r|
      ensures r[i] != r[j]
    {
      assert r[i] == if i < p then ns[i] else if i == p then n else ns[i - 1];
      assert r[j] == if j < p then ns[j] else if j == p then n else ns[j - 1];
    }
  }

  lemma ApartRemoved(ns: seq<ListNode>, p: nat)
    requires Apart(ns) && p < |ns|
    ensures Apart(Removed(ns, p)) && ns[p] !in Removed(ns, p)
  {
    var r := Removed(ns, p);
    assert forall i :: 0 <= i < |r| ==> r[i] == if i < p then ns[i] else ns[i + 1];
  }

  method InitListHead(head: ListNode)
    modifies head
    ensures Ring(head, []) && head.data == null
  {
    head.prev := head;
    head.next := head;
    head.data := null;
  }

  method IsListEmpty(head: ListNode, ghost ns: seq<ListNode>) returns (empty: bool)
    requires Ring(head, ns)
    ensures empty <==> ns == []
  {
    ghost var r := Turn(head, ns);
    assert r[0].next == r[1] && r[|r| - 1].prev == r[|r| - 2];
    assert ns != [] ==> ns[0] == ([head] + ns)[1];
    empty := head.next == head && head.prev == head;
  }

  /** Inserts before `oldNode`, the node after position p of the turn. */
  method InsertInList(newNode: ListNode, oldNode: ListNode, ghost head: ListNode, ghost ns: seq<ListNode>, ghost p: nat)
    requires Ring(head, ns) && p <= |ns| && oldNode == Turn(head, ns)[p + 1]
    requires newNode != head && newNode !in ns && oldNode.prev != null
    modifies newNode`next, newNode`prev, oldNode`prev, oldNode.prev`next
    ensures Ring(head, Inserted(ns, p, newNode))
  {
    ghost var r := Turn(head, ns);
    ghost var r' := Turn(head, Inserted(ns, p, newNode));
    assert r[p].next == r[p + 1] && r[p + 1].prev == r[p];
    newNode.next := oldNode;
    newNode.prev := oldNode.prev;
    oldNode.prev.next := newNode;
    oldNode.prev := newNode;
    ApartInserted([head] + ns, p + 1, newNode);
    assert [head] + Inserted(ns, p, newNode) == Inserted([head] + ns, p + 1, newNode);
    forall i | 0 <= i < |r'| - 1
      ensures r'[i].next == r'[i + 1] && r'[i + 1].prev == r'[i]
    {
      if i < p {
        assert r'[i] == r[i] && r'[i + 1] == r[i + 1];
        assert r[i] == ([head] + ns)[i] && r[p] == ([head] + ns)[p];
      } else if i > p + 1 {
        assert r'[i] == r[i - 1] && r'[i + 1] == r[i];
        assert r[i - 1] == ([head] + ns)[i - 1];
      }
    }
  }

  /** Unlinks a node, which stands at position p of a ring unless it is on no list. */
  method RemoveFromList(node: ListNode, ghost head: ListNode, ghost ns: seq<ListNode>, ghost p: nat)
    requires node.next != null ==> Ring(head, ns) && p < |ns| && node == ns[p]
    modifies node`next, node`prev, RingNodes(head, ns)`next, RingNodes(head, ns)`prev
    ensures node.next == null
    ensures old(node.next) == null ==> unchanged(node, RingNodes(head, ns))
    ensures old(node.next) != null ==> Ring(head, Removed(ns, p))
  {
    if node.next != null {
      ghost var r := Turn(head, ns);
      ghost var r' := Turn(head, Removed(ns, p));
      assert r[p + 1] == node && r[p].next == node && node.prev == r[p] && node.next == r[p + 2] && r[p + 2].prev == node;
      assert r[p] == ([head] + ns)[p] && node == ([head] + ns)[p + 1];
      assert r[p + 2] in [head] + ns;
      node.prev.next := node.next;
      node.next.prev := node.prev;
      node.prev := null;
      node.next := null;
      ApartRemoved([head] + ns, p + 1);
      assert [head] + Removed(ns, p) == Removed([head] + ns, p + 1);
      forall i | 0 <= i < |r'| - 1
        ensures r'[i].next == r'[i + 1] && r'[i + 1].prev == r'[i]
      {
        assert r'[i] in [head] + Removed(ns, p) && r'[i + 1] in [head] + Removed(ns, p);
        if i < p {
          assert r'[i] == r[i] && r'[i + 1] == r[i + 1];
          assert r[i] == ([head] + ns)[i];
        } else if i > p {
          assert r'[i] == r[i + 1] && r'[i + 1] == r[i + 2];
          assert r[i + 1] == ([head] + ns)[i + 1];
        }
      }
    }
  }

  /** Swaps list heads: `copy` takes over the nodes of `head`, which is left empty. */
  method TakeOver(head: ListNode, copy: ListNode, ghost ns: seq<ListNode>)
    requires Ring(head, ns) && ns != [] && copy != head && copy !in ns
    modifies copy`next, copy`prev, RingNodes(head, ns)`next, RingNodes(head, ns)`prev
    ensures Ring(copy, ns) && Ring(head, [])
  {
    assert [head] + [] == [head];
    hide Apart;
    ghost var r, r' := Turn(head, ns), Turn(copy, ns);
    ghost var last := |ns| - 1;
    NewHead(head, copy, ns);
    assert r[0].next == r[1] && r[1].prev == r[0] && r[last + 1].next == r[last + 2] && r[last + 2].prev == r[last + 1];
    copy.prev := head.prev;
    copy.next := head.next;
    copy.prev.next := copy;
    copy.next.prev := copy;
    head.prev := head;
    head.next := head;
    forall i | 0 <= i < |r'| - 1
      ensures r'[i].next == r'[i + 1] && r'[i + 1].prev == r'[i]
    {
      assert 0 < i < |r'| - 1 ==> r'[i] == r[i] == ns[i - 1];
      assert i < |r'| - 2 ==> r'[i + 1] == r[i + 1] == ns[i];
    }
  }

  lemma NewHead(head: ListNode, copy: ListNode, ns: seq<ListNode>)
    requires Apart([head] + ns) && copy !in ns
    ensures Apart([copy] + ns) && Apart([head])
    ensures forall i :: 0 <= i < |ns| ==> ns[i] != head && ns[i] in [head] + ns
    ensures forall i, j :: 0 <= i < j < |ns| ==> ns[i] != ns[j]
  {
    var r := [head] + ns;
    assert forall i {:trigger ns[i]} :: 0 <= i < |ns| ==> r[i + 1] == ns[i] && r[i + 1] != r[0];
    assert forall i, j {:trigger ns[i], ns[j]} :: 0 <= i < j < |ns| ==> r[i + 1] != r[j + 1];
    assert Apart(ns);
    ApartInserted(ns, 0, copy);
    assert [copy] + ns == Inserted(ns, 0, copy);
  }

  /** A query and the four nodes by which it hangs on the channel's lists. */
  class Query {
    const byQid: ListNode
    const byTimeout: ListNode
    const toServer: ListNode
    const all: ListNode

    constructor ()
      ensures fresh(Links()) && |Links()| == 4
      ensures forall n :: n in Links() ==> n.next == null && n.prev == null && n.data == this
    {
      byQid := new ListNode();
      byTimeout := new ListNode();
      toServer := new ListNode();
      all := new ListNode();
      new;
      byQid.data, byTimeout.data, toServer.data, all.data := this, this, this, this;
    }

    function Links(): set<ListNode>
    {
      {byQid, byTimeout, toServer, all}
    }
  }

  // ----- The lists of a channel

  /** Each node is on one list: `home` says which, and lists hold just the nodes they are home to. */
  ghost predicate Placed(heads: seq<ListNode>, members: seq<seq<ListNode>>, home: map<ListNode, nat>)
  {
    && |heads| == |members|
    && (forall l :: 0 <= l < |heads| ==> heads[l] in home && home[heads[l]] == l)
    && (forall l, i :: 0 <= l < |heads| && 0 <= i < |members[l]| ==> members[l][i] in home && home[members[l][i]] == l)
    && (forall n :: n in home ==> home[n] < |heads| && (n == heads[home[n]] || n in members[home[n]]))
  }

  lemma PlacedRemoved(heads: seq<ListNode>, members: seq<seq<ListNode>>, home: map<ListNode, nat>, l: nat, p: nat)
    requires Placed(heads, members, home) && l < |heads| && p < |members[l]| && Apart([heads[l]] + members[l])
    ensures Placed(heads, members[l := Removed(members[l], p)], home - {members[l][p]})
  {
    var n, rest := members[l][p], Removed(members[l], p);
    ApartRemoved([heads[l]] + members[l], p + 1);
    assert [heads[l]] + rest == Removed([heads[l]] + members[l], p + 1);
    assert forall m :: m in [heads[l]] + rest ==> m != n;
    assert forall m :: m in members[l] ==> m == n || m in rest;
    assert forall i :: 0 <= i < |rest| ==> rest[i] in members[l];
  }

  lemma PlacedAppended(heads: seq<ListNode>, members: seq<seq<ListNode>>, home: map<ListNode, nat>, l: nat, n: ListNode)
    requires Placed(heads, members, home) && l < |heads| && n !in home
    ensures Placed(heads, members[l := members[l] + [n]], home[n := l])
  {
  }

  /** A list without the given nodes. */
  ghost function Without(ns: seq<ListNode>, gone: set<ListNode>): seq<ListNode>
  {
    if ns == [] then []
    else
      var last := ns[|ns| - 1];
      Without(ns[..|ns| - 1], gone) + if last in gone then [] else [last]
  }

  lemma {:induction false} WithoutNone(ns: seq<ListNode>, gone: set<ListNode>)
    requires forall n :: n in ns ==> n !in gone
    ensures Without(ns, gone) == ns
  {
    if ns != [] {
      WithoutNone(ns[..|ns| - 1], gone);
    }
  }

  lemma {:induction false} WithoutOne(ns: seq<ListNode>, p: nat)
    requires Apart(ns) && p < |ns|
    ensures Without(ns, {ns[p]}) == Removed(ns, p)
  {
    hide Without;
    var most, last := ns[..|ns| - 1], ns[|ns| - 1];
    WithoutLast(ns, {ns[p]});
    if p == |ns| - 1 {
      WithoutNone(most, {last});
    } else {
      WithoutOne(most, p);
      assert Removed(ns, p) == Removed(most, p) + [last];
    }
  }

  lemma WithoutLast(ns: seq<ListNode>, gone: set<ListNode>)
    requires ns != []
    ensures Without(ns, gone) == Without(ns[..|ns| - 1], gone) + if ns[|ns| - 1] in gone then [] else [ns[|ns| - 1]]
  {
  }

  lemma {:induction false} WithoutBoth(ns: seq<ListNode>, a: set<ListNode>, b: set<ListNode>)
    ensures Without(Without(ns, a), b) == Without(ns, a + b)
  {
    if ns != [] {
      var most, last := ns[..|ns| - 1], ns[|ns| - 1];
      WithoutBoth(most, a, b);
      if last !in a {
        var kept := Without(most, a) + [last];
        assert kept[..|kept| - 1] == Without(most, a) && Without(ns, a) == kept;
        assert Without(kept, b) == Without(Without(most, a), b) + if last in b then [] else [last];
      } else {
        assert Without(ns, a) == Without(most, a);
      }
    }
  }

  ghost function AllWithout(members: seq<seq<ListNode>>, gone: set<ListNode>): (r: seq<seq<ListNode>>)
    ensures |r| == |members| && forall l :: 0 <= l < |r| ==> r[l] == Without(members[l], gone)
  {
    seq(|members|, l requires 0 <= l < |members| => Without(members[l], gone))
  }

  /** Where a new query goes besides all_queries. */
  datatype Placement = Placement(qid: nat, sent: bool, timeout: nat, server: nat)
  {
    ghost predicate Fits(heads: seq<ListNode>, mains: set<nat>)
    {
      && qid < |heads| && qid !in mains
      && (sent ==> timeout < |heads| && timeout !in mains && server < |heads| && server !in mains)
    }
  }

  ghost function Appended(members: seq<seq<ListNode>>, l: nat, n: ListNode): seq<seq<ListNode>>
    requires l < |members|
  {
    members[l := members[l] + [n]]
  }

  ghost function SentHome(home: map<ListNode, nat>, q: Query, to: Placement): map<ListNode, nat>
  {
    var two := home[q.all := 0][q.byQid := to.qid];
    if to.sent then two[q.byTimeout := to.timeout][q.toServer := to.server] else two
  }

  /** The lists once a new query has been put on them. */
  ghost function Sent(members: seq<seq<ListNode>>, q: Query, to: Placement): (r: seq<seq<ListNode>>)
    requires 0 < |members| && to.qid < |members| && (to.sent ==> to.timeout < |members| && to.server < |members|)
    ensures |r| == |members|
  {
    var two := Appended(Appended(members, 0, q.all), to.qid, q.byQid);
    if to.sent then Appended(Appended(two, to.timeout, q.byTimeout), to.server, q.toServer) else two
  }

  /** A new query's nodes come behind what is listed, each on its own list. */
  lemma NewPlaces(members: seq<seq<ListNode>>, home: map<ListNode, nat>, q: Query, to: Placement)
    requires 0 < |members| && to.qid < |members| && (to.sent ==> to.timeout < |members| && to.server < |members|)
    requires |q.Links()| == 4 && q.Links() !! home.Keys
    ensures forall l :: 0 <= l < |members| ==> members[l] <= Sent(members, q, to)[l]
    ensures var h := SentHome(home, q, to);
            && (forall n :: n in home ==> n in h && h[n] == home[n])
            && h.Keys == home.Keys + (if to.sent then q.Links() else {q.all, q.byQid})
            && h[q.all] == 0 && h[q.byQid] == to.qid
            && (to.sent ==> h[q.byTimeout] == to.timeout && h[q.toServer] == to.server)
  {
    FourLinks(q);
  }

  lemma FourLinks(q: Query)
    requires |q.Links()| == 4
    ensures q.byQid != q.byTimeout && q.byQid != q.toServer && q.byQid != q.all
    ensures q.byTimeout != q.toServer && q.byTimeout != q.all && q.toServer != q.all
  {
    var a, b, c, d := q.byQid, q.byTimeout, q.toServer, q.all;
    Four(a, b, c, d);
  }

  lemma Four<T>(a: T, b: T, c: T, d: T)
    ensures |{a, b, c, d}| == 4 ==> a != b && a != c && a != d && b != c && b != d && c != d
  {
    if a == b { assert {a, b, c, d} == {b, c, d}; }
    if a == c { assert {a, b, c, d} == {b, c, d}; }
    if a == d { assert {a, b, c, d} == {b, c, d}; }
    if b == c { assert {a, b, c, d} == {a, c, d}; }
    if b == d { assert {a, b, c, d} == {a, c, d}; }
    if c == d { assert {a, b, c, d} == {a, b, d}; }
  }

  /** A live query is on a main list by its `all` node and by no other; its nodes point back to it. */
  ghost predicate OnMainList(q: Query, home: map<ListNode, nat>, mains: set<nat>)
    reads q.byQid`data, q.byTimeout`data, q.toServer`data, q.all`data
  {
    && q.byQid.data == q && q.byTimeout.data == q && q.toServer.data == q && q.all.data == q
    && q.all in home && home[q.all] in mains
    && (q.byQid in home ==> home[q.byQid] !in mains)
    && (q.byTimeout in home ==> home[q.byTimeout] !in mains)
    && (q.toServer in home ==> home[q.toServer] !in mains)
  }

  /** The lists are rings, and a node is on a list exactly when it is linked. */
  ghost predicate Linkage(heads: seq<ListNode>, members: seq<seq<ListNode>>, home: map<ListNode, nat>, nodes: set<ListNode>)
    reads nodes
  {
    && home.Keys <= nodes && Placed(heads, members, home)
    && (forall l :: 0 <= l < |heads| ==> Ring(heads[l], members[l]))
    && (forall n :: n in nodes && n !in home ==> n.next == null)
  }

  /** Lists hold nodes of live queries only, so every query on any list is also on a main list. */
  ghost predicate Ownership(heads: seq<ListNode>, mains: set<nat>, home: map<ListNode, nat>, live: set<Query>, nodes: set<ListNode>)
    reads nodes`data
  {
    && 0 in mains && (forall l :: l in mains ==> l < |heads|)
    && (forall h :: h in heads ==> h in nodes && h.data == null)
    && (forall q :: q in live ==> q.Links() <= nodes && OnMainList(q, home, mains))
    && (forall n :: n in home && n !in heads ==>
                      n in nodes && n.data != null && n.data in live && n in n.data.Links())
  }

  lemma LinkageGrows(heads: seq<ListNode>, members: seq<seq<ListNode>>, home: map<ListNode, nat>,
                     nodes: set<ListNode>, more: set<ListNode>)
    requires Linkage(heads, members, home, nodes) && forall n :: n in more ==> n.next == null
    ensures Linkage(heads, members, home, nodes + more)
  {
    hide Placed, Ring;
  }

  lemma OwnershipGrows(heads: seq<ListNode>, mains: set<nat>, home: map<ListNode, nat>, live: set<Query>,
                       nodes: set<ListNode>, more: set<ListNode>)
    requires Ownership(heads, mains, home, live, nodes)
    ensures Ownership(heads, mains, home, live, nodes + more)
  {
    hide OnMainList;
  }

  ghost function AsSet(qs: seq<Query>): set<Query>
  {
    set q | q in qs
  }

  ghost function First(head: ListNode, ns: seq<ListNode>): ListNode
  {
    if ns == [] then head else ns[0]
  }

  /** One callback with the same status for each of these queries. */
  ghost function Called(qs: seq<Query>, status: Status): (r: seq<(Query, Status)>)
    ensures |r| == |qs| && forall i :: 0 <= i < |r| ==> r[i] == (qs[i], status)
  {
    seq(|qs|, i requires 0 <= i < |qs| => (qs[i], status))
  }

  lemma NotEmpty(qs: seq<Query>, i: nat)
    requires i < |qs|
    ensures AllNodes(qs[i..]) != [] && AllNodes(qs[i..])[0] == qs[i].all
  {
  }

  lemma DrainBegins(qs: seq<Query>, status: Status, ns: seq<ListNode>, live: set<Query>)
    ensures qs[0..] == qs && Called(qs[..0], status) == [] && AllNodes([]) == [] && ns + [] == ns && AsSet([]) == {}
    ensures live - AsSet(qs[..0]) + AsSet([]) == live
  {
  }

  lemma LiveStep(live: set<Query>, gone: set<Query>, added: set<Query>, more: set<Query>, q: Query)
    requires q !in added + more
    ensures live - gone + added + more - {q} == live - (gone + {q}) + (added + more)
  {
  }

  lemma DrainEnds(qs: seq<Query>, i: nat)
    requires i <= |qs|
    ensures i < |qs| ==> AllNodes(qs[i..]) != []
    ensures i == |qs| ==> qs[..i] == qs && AllNodes(qs[i..]) == []
  {
  }

  lemma DrainStep(qs: seq<Query>, i: nat, status: Status, added: seq<Query>, more: seq<Query>)
    requires i < |qs|
    ensures AllNodes(qs[i..])[1..] == AllNodes(qs[i + 1..])
    ensures Called(qs[..i + 1], status) == Called(qs[..i], status) + [(qs[i], status)]
    ensures AllNodes(added + more) == AllNodes(added) + AllNodes(more)
    ensures AsSet(qs[..i + 1]) == AsSet(qs[..i]) + {qs[i]}
    ensures AsSet(added + more) == AsSet(added) + AsSet(more)
  {
    assert qs[..i + 1] == qs[..i] + [qs[i]];
  }

  // ----- A walk over a list that grows at its end

  ghost predicate NoDuplicates(qs: seq<Query>)
  {
    forall i, j :: 0 <= i < j < |qs| ==> qs[i] != qs[j]
  }

  /** How many queries the k-th callback sends. */
  function SendsOf(script: seq<seq<Placement>>, k: nat): nat
  {
    if k < |script| then |script[k]| else 0
  }

  function Remaining(script: seq<seq<Placement>>, k: nat): nat
    decreases if k < |script| then |script| - k else 0
  {
    if k >= |script| then 0 else |script[k]| + Remaining(script, k + 1)
  }

  /** Everything that callbacks send has its places on the channel's lists. */
  ghost predicate AllFit(script: seq<seq<Placement>>, heads: seq<ListNode>, mains: set<nat>)
  {
    forall i, to :: 0 <= i < |script| && to in script[i] ==> to.Fits(heads, mains)
  }

  /** The calls made in all, when n have been made and `listed` queries stand on the list. */
  function CallsFrom(n: nat, listed: nat, script: seq<seq<Placement>>): nat
    decreases listed + Remaining(script, n)
  {
    if listed <= 1 then n + listed else CallsFrom(n + 1, listed - 1 + SendsOf(script, n), script)
  }

  function CallsMade(listed: nat, script: seq<seq<Placement>>): nat { CallsFrom(0, listed, script) }

  lemma {:induction false} CallsAtLeast(n: nat, listed: nat, script: seq<seq<Placement>>)
    ensures CallsFrom(n, listed, script) >= n + listed
    decreases listed + Remaining(script, n)
  {
    if listed > 1 { CallsAtLeast(n + 1, listed - 1 + SendsOf(script, n), script); }
  }

  /** If callbacks send nothing, the walk calls back what was listed. */
  lemma {:induction false} QuietWalk(n: nat, listed: nat, script: seq<seq<Placement>>)
    requires forall k: nat :: SendsOf(script, k) == 0
    ensures CallsFrom(n, listed, script) == n + listed
    decreases listed
  {
    if listed > 1 {
      assert SendsOf(script, n) == 0;
      QuietWalk(n + 1, listed - 1, script);
    }
  }

  /** For instance one query whose callback sends another: it is called back, and the other is left. */
  lemma LeftBehind(to: Placement)
    ensures CallsMade(1, [[to]]) == 1 && SendsOf([[to]], 0) == 1
  {
  }

  lemma WalkBegins(entry: seq<Query>, script: seq<seq<Placement>>, calls: seq<(Query, Status)>)
    ensures entry[0..] == entry && calls + Called(entry[..0], EDESTRUCTION) == calls
    ensures AllNodes(entry) == [] <==> entry == []
    ensures entry != [] ==> AllNodes(entry)[0] == entry[0].all
    ensures entry == [] ==> CallsMade(|entry|, script) == 0
    ensures entry + [] == entry && AsSet([]) == {} && Paced(entry, [], 0, script, entry == [])
  {
  }

  lemma NextCall(queue: seq<Query>, i: nat, script: seq<seq<Placement>>)
    requires i < |queue|
    ensures i + 1 == |queue| ==> CallsFrom(i, |queue| - i, script) == i + 1
    ensures i + 1 < |queue| ==>
              CallsFrom(i, |queue| - i, script) == CallsFrom(i + 1, |queue| + SendsOf(script, i) - (i + 1), script)
    ensures Remaining(script, i) == SendsOf(script, i) + Remaining(script, i + 1)
  {
  }

  lemma WalkStep(queue: seq<Query>, i: nat, more: seq<Query>)
    requires i < |queue| && NoDuplicates(queue) && AsSet(queue) !! AsSet(more)
    ensures AllNodes(queue[i..])[1..] == AllNodes(queue[i + 1..])
    ensures AllNodes(queue[i + 1..]) + AllNodes(more) == AllNodes((queue + more)[i + 1..])
    ensures AllNodes(queue[i + 1..]) == [] <==> i + 1 == |queue|
    ensures i + 1 < |queue| ==> AllNodes(queue[i + 1..])[0] == queue[i + 1].all
    ensures Called((queue + more)[..i + 1], EDESTRUCTION) == Called(queue[..i], EDESTRUCTION) + [(queue[i], EDESTRUCTION)]
    ensures AsSet(queue[i..]) + AsSet(more) - {queue[i]} == AsSet((queue + more)[i + 1..])
  {
    assert (queue + more)[i + 1..] == queue[i + 1..] + more;
    assert (queue + more)[..i + 1] == queue[..i] + [queue[i]];
    assert queue[i..] == [queue[i]] + queue[i + 1..];
    assert queue[i] !in queue[i + 1..];
    assert queue[i] in queue;
  }

  lemma Separate(queue: seq<Query>, more: seq<Query>)
    requires forall k :: 0 <= k < |queue| ==> queue[k] !in AsSet(more)
    ensures AsSet(queue) !! AsSet(more)
  {
  }

  lemma StillDistinct(queue: seq<Query>, i: nat, more: seq<Query>)
    requires i < |queue| && NoDuplicates(queue) && NoDuplicates((queue + more)[i + 1..]) && AsSet(queue) !! AsSet(more)
    ensures NoDuplicates(queue + more)
  {
    var all, rest := queue + more, (queue + more)[i + 1..];
    forall a, b | 0 <= a < b < |all|
      ensures all[a] != all[b]
    {
      if a > i {
        assert rest[a - i - 1] == all[a] && rest[b - i - 1] == all[b];
      } else if b >= |queue| {
        assert all[a] in AsSet(queue) && all[b] in AsSet(more);
      }
    }
  }

  /** How far the walk is: `over` when it has ended. */
  ghost predicate Paced(entry: seq<Query>, added: seq<Query>, i: nat, script: seq<seq<Placement>>, over: bool)
  {
    var listed := |entry| + |added| - i;
    if over then i == CallsMade(|entry|, script) && listed == if i == 0 then 0 else SendsOf(script, i - 1)
    else listed >= 0 && CallsFrom(i, listed, script) == CallsMade(|entry|, script)
  }

  lemma PacedStep(entry: seq<Query>, added: seq<Query>, more: seq<Query>, i: nat, script: seq<seq<Placement>>)
    requires i < |entry| + |added| && Paced(entry, added, i, script, false) && |more| == SendsOf(script, i)
    ensures Paced(entry, added + more, i + 1, script, i + 1 == |entry| + |added|)
  {
    hide CallsFrom, SendsOf;
    NextCall(entry + added, i, script);
  }

  lemma WalkEnds(entry: seq<Query>, added: seq<Query>, i: nat, script: seq<seq<Placement>>)
    requires Paced(entry, added, i, script, true)
    ensures i >= |entry| && (i == 0 <==> entry == []) && i == CallsMade(|entry|, script)
    ensures |entry| + |added| - i == if i == 0 then 0 else SendsOf(script, i - 1)
    ensures i <= |entry + added| ==> entry <= (entry + added)[..i]
  {
    hide CallsFrom, SendsOf;
    CallsAtLeast(0, |entry|, script);
    NoCalls(script);
  }

  lemma NoCalls(script: seq<seq<Placement>>)
    ensures CallsFrom(0, 0, script) == 0
  {
  }

  lemma SentInTurn(entry: seq<Query>, added: seq<Query>, more: seq<Query>)
    ensures (entry + added) + more == entry + (added + more) && AsSet(added + more) == AsSet(added) + AsSet(more)
  {
  }

  /** The `all` nodes of some queries, in order. */
  ghost function AllNodes(qs: seq<Query>): (r: seq<ListNode>)
    ensures |r| == |qs| && forall i :: 0 <= i < |r| ==> r[i] == qs[i].all
  {
    seq(|qs|, i requires 0 <= i < |qs| => qs[i].all)
  }

  lemma AllNodesMore(qs: seq<Query>, q: Query)
    ensures AllNodes(qs + [q]) == AllNodes(qs) + [q.all]
  {
  }

  lemma SentOnMains(members: seq<seq<ListNode>>, q: Query, to: Placement, heads: seq<ListNode>, mains: set<nat>)
    requires 0 < |members| == |heads| && to.Fits(heads, mains) && 0 in mains
    ensures Sent(members, q, to)[0] == members[0] + [q.all]
    ensures forall l :: l in mains && 0 < l < |members| ==> Sent(members, q, to)[l] == members[l]
  {
  }

  /** `home` once the nodes `ns` have moved to the new list c, whose head is `copy`. */
  ghost function Rehomed(home: map<ListNode, nat>, ns: seq<ListNode>, copy: ListNode, c: nat): (r: map<ListNode, nat>)
    ensures r.Keys == home.Keys + {copy}
  {
    map n | n in home.Keys + {copy} :: if n == copy || n in ns then c else home[n]
  }

  lemma PlacedRehomed(heads: seq<ListNode>, members: seq<seq<ListNode>>, home: map<ListNode, nat>, copy: ListNode)
    requires Placed(heads, members, home) && 0 < |heads| && copy !in home && heads[0] !in members[0]
    ensures Placed(heads + [copy], members[0 := []] + [members[0]], Rehomed(home, members[0], copy, |heads|))
  {
    var heads', members', home' := heads + [copy], members[0 := []] + [members[0]], Rehomed(home, members[0], copy, |heads|);
    forall l | 0 <= l < |heads|
      ensures home'[heads[l]] == l
    {
      assert heads[l] !in members[0];
    }
    forall n | n in home'
      ensures home'[n] < |heads'| && (n == heads'[home'[n]] || n in members'[home'[n]])
    {
    }
  }

  lemma OwnershipRehomed(heads: seq<ListNode>, home: map<ListNode, nat>, live: set<Query>, nodes: set<ListNode>,
                         ns: seq<ListNode>, copy: ListNode)
    requires Ownership(heads, {0}, home, live, nodes) && copy !in nodes && copy.data == null
    requires forall n :: n in ns ==> n in home && home[n] == 0
    requires forall n :: n in home && n !in ns ==> n in heads || home[n] != 0
    requires forall n :: n in home ==> home[n] < |heads|
    ensures Ownership(heads + [copy], {0, |heads|}, Rehomed(home, ns, copy, |heads|), live, nodes + {copy})
  {
    var home' := Rehomed(home, ns, copy, |heads|);
    forall q | q in live
      ensures OnMainList(q, home', {0, |heads|})
    {
      assert OnMainList(q, home, {0}) && q.Links() <= nodes;
    }
  }

  lemma PlacedDropped(heads: seq<ListNode>, members: seq<seq<ListNode>>, home: map<ListNode, nat>)
    requires Placed(heads, members, home) && |heads| > 1 && members[|heads| - 1] == []
    ensures Placed(heads[..|heads| - 1], members[..|heads| - 1], home - {heads[|heads| - 1]})
  {
  }

  method SwapLists(heads: seq<ListNode>, copy: ListNode,
                   ghost members: seq<seq<ListNode>>, ghost home: map<ListNode, nat>, ghost nodes: set<ListNode>)
    requires Linkage(heads, members, home, nodes) && copy !in nodes && 0 < |heads| == |members| && members[0] != []
    modifies copy`next, copy`prev, nodes`next, nodes`prev
    ensures Linkage(heads + [copy], members[0 := []] + [members[0]], Rehomed(home, members[0], copy, |heads|), nodes + {copy})
  {
    hide Ring, Placed, Rehomed, Linked, Apart, Turn;
    ZeroRing(heads, members, home, nodes, copy);
    TakeOver(heads[0], copy, members[0]);
  }

  lemma ZeroRing(heads: seq<ListNode>, members: seq<seq<ListNode>>, home: map<ListNode, nat>, nodes: set<ListNode>, copy: ListNode)
    requires Linkage(heads, members, home, nodes) && copy !in nodes && 0 < |heads| == |members|
    ensures Ring(heads[0], members[0]) && copy != heads[0] && copy !in members[0]
    ensures RingNodes(heads[0], members[0]) <= home.Keys
    ensures forall l, n :: 0 < l < |heads| && n in RingNodes(heads[l], members[l]) ==> n in nodes && n !in RingNodes(heads[0], members[0])
    ensures Placed(heads + [copy], members[0 := []] + [members[0]], Rehomed(home, members[0], copy, |heads|))
  {
    forall l, n | 0 < l < |heads| && n in RingNodes(heads[l], members[l])
      ensures n in home && home[n] == l
    {
    }
    assert Ring(heads[0], members[0]);
    assert ([heads[0]] + members[0])[0] == heads[0];
    forall i | 0 <= i < |members[0]|
      ensures members[0][i] != heads[0]
    {
      assert members[0][i] == ([heads[0]] + members[0])[i + 1];
    }
    PlacedRehomed(heads, members, home, copy);
  }

  lemma LinkageDropped(heads: seq<ListNode>, members: seq<seq<ListNode>>, home: map<ListNode, nat>, nodes: set<ListNode>)
    requires Linkage(heads, members, home, nodes) && |heads| == |members| > 1 && members[|heads| - 1] == []
    ensures var c := |heads| - 1;
            Linkage(heads[..c], members[..c], home - {heads[c]}, nodes - {heads[c]})
    ensures Placed(heads, members, home)
  {
    hide Ring;
    PlacedDropped(heads, members, home);
    var c := |heads| - 1;
    forall l | 0 <= l < c
      ensures Ring(heads[..c][l], members[..c][l])
    {
      assert Ring(heads[l], members[l]);
    }
  }

  lemma OwnershipDropped(heads: seq<ListNode>, members: seq<seq<ListNode>>, home: map<ListNode, nat>, live: set<Query>, nodes: set<ListNode>)
    requires Placed(heads, members, home) && |heads| > 1 && members[|heads| - 1] == []
    requires Ownership(heads, {0, |heads| - 1}, home, live, nodes)
    ensures var c := |heads| - 1;
            Ownership(heads[..c], {0}, home - {heads[c]}, live, nodes - {heads[c]})
  {
    var c := |heads| - 1;
    var copy, home' := heads[c], home - {heads[c]};
    assert forall n :: n in home && home[n] == c ==> n == copy;
    forall q | q in live
      ensures OnMainList(q, home', {0}) && q.Links() <= nodes - {copy}
    {
      assert OnMainList(q, home, {0, c});
      assert copy in heads && copy.data == null;
    }
    forall h | h in heads[..c]
      ensures h in nodes - {copy} && h.data == null
    {
      var l :| 0 <= l < c && heads[l] == h;
      assert home[h] == l;
    }
    forall n | n in home' && n !in heads[..c]
      ensures n !in heads
    {
    }
  }

  /** The queries that own these nodes. */
  ghost function QueriesOf(ns: seq<ListNode>): (r: seq<Query>)
    requires forall n :: n in ns ==> n.data != null
    reads ns
    ensures |r| == |ns| && forall i :: 0 <= i < |r| ==> r[i] == ns[i].data
  {
    if ns == [] then [] else QueriesOf(ns[..|ns| - 1]) + [ns[|ns| - 1].data]
  }

  lemma NoLists()
    ensures Linkage([], [], map[], {}) && OnlyHeads([], map[], {})
  {
  }

  lemma NewList(heads: seq<ListNode>, members: seq<seq<ListNode>>, home: map<ListNode, nat>, nodes: set<ListNode>, head: ListNode)
    requires Linkage(heads, members, home, nodes) && head !in nodes && Ring(head, [])
    ensures Linkage(heads + [head], members + [[]], home[head := |heads|], nodes + {head})
  {
    hide Ring;
    var heads', members' := heads + [head], members + [[]];
    forall l | 0 <= l < |heads'|
      ensures Ring(heads'[l], members'[l])
    {
      assert l < |heads| ==> Ring(heads[l], members[l]);
    }
  }

  /** No list holds anything yet. */
  ghost predicate OnlyHeads(heads: seq<ListNode>, home: map<ListNode, nat>, nodes: set<ListNode>)
    reads nodes`data
  {
    (forall h :: h in heads ==> h in nodes && h.data == null) && forall n :: n in home ==> n in heads
  }

  lemma NothingOwned(heads: seq<ListNode>, home: map<ListNode, nat>, nodes: set<ListNode>)
    requires heads != [] && OnlyHeads(heads, home, nodes)
    ensures Ownership(heads, {0}, home, {}, nodes)
  {
  }

  class Channel {
    const stayOpen: bool
    var heads: seq<ListNode>                // heads[0] is all_queries
    var calls: seq<(Query, Status)>         // callbacks made, in order
    ghost var sent: seq<Query>              // queries sent by callbacks, in order
    ghost var members: seq<seq<ListNode>>   // what each list holds
    ghost var home: map<ListNode, nat>      // the list each linked node is on
    ghost var nodes: set<ListNode>          // heads and the nodes of live queries
    ghost var live: set<Query>              // queries that have not been freed
    ghost var mains: set<nat>               // lists that hold whole queries: all_queries and its copy

    /** The channel's lists as ares_init_options leaves them: `more` lists besides all_queries, all empty. */
    constructor (stayOpen: bool, more: nat)
      ensures Valid() && mains == {0} && live == {} && calls == [] && sent == [] && this.stayOpen == stayOpen
      ensures |heads| == |members| == more + 1 && forall l :: 0 <= l <= more ==> members[l] == []
      ensures fresh(nodes)
    {
      this.stayOpen := stayOpen;
      heads, calls, sent := [], [], [];
      members, home, nodes, live, mains := [], map[], {}, {}, {0};
      new;
      hide Linkage, Ownership, OnlyHeads;
      NoLists();
      for i := 0 to more + 1
        invariant |heads| == |members| == i && fresh(nodes) && mains == {0} && live == {} && calls == [] && sent == []
        invariant Linkage(heads, members, home, nodes) && OnlyHeads(heads, home, nodes)
        invariant forall l :: 0 <= l < i ==> members[l] == []
      {
        AddList();
      }
      NothingOwned(heads, home, nodes);
    }

    /** ares__init_list_head for one more of the channel's lists. */
    method AddList()
      requires |heads| == |members| && Linkage(heads, members, home, nodes) && OnlyHeads(heads, home, nodes)
      modifies this`heads, this`members, this`home, this`nodes
      ensures Linkage(heads, members, home, nodes) && OnlyHeads(heads, home, nodes)
      ensures |heads| == |old(heads)| + 1 && members == old(members) + [[]] && fresh(nodes - old(nodes))
    {
      hide Linkage, Ring;
      var head := new ListNode();
      InitListHead(head);
      NewList(heads, members, home, nodes, head);
      heads := heads + [head];
      members, home, nodes := members + [[]], home[head := |heads| - 1], nodes + {head};
    }

    ghost predicate WellLinked()
      reads this`heads, this`members, this`home, this`nodes, nodes
    {
      Linkage(heads, members, home, nodes)
    }

    /** Takes a node off its list, if it is on one. */
    method Detach(node: ListNode)
      requires WellLinked() && node in nodes && node !in heads
      modifies this`members, this`home, nodes`next, nodes`prev
      ensures WellLinked()
      ensures members == AllWithout(old(members), {node}) && home == old(home) - {node}
    {
      hide Ring, Placed, AllWithout, Removed, Without, Turn, Linked, Apart;
      ghost var l, head, ns, p := Removal(node);
      RemoveFromList(node, head, ns, p);
      ghost var rest := AllWithout(members, {node});
      members, home := rest, home - {node};
    }

    /** Everything about taking a node off its list that does not depend on the step itself. */
    lemma Removal(node: ListNode) returns (l: int, head: ListNode, ns: seq<ListNode>, p: nat)
      requires WellLinked() && node in nodes && node !in heads
      ensures node.next == null <==> node !in home
      ensures node in home ==> Ring(head, ns) && p < |ns| && ns[p] == node
      ensures |heads| == |members| == |AllWithout(members, {node})|
      ensures Placed(heads, AllWithout(members, {node}), home - {node})
      ensures node in home ==> 0 <= l < |heads| && head == heads[l] && AllWithout(members, {node})[l] == Removed(ns, p)
      ensures node !in home ==> l == -1
      ensures RingNodes(head, ns) <= home.Keys + {node}
      ensures forall m :: 0 <= m < |heads| && m != l ==>
                            && Ring(heads[m], members[m]) && AllWithout(members, {node})[m] == members[m]
                            && RingNodes(heads[m], members[m]) !! RingNodes(head, ns) + {node}
    {
      l, head, ns, p := -1, node, [], 0;
      if node in home {
        l, p := WhereIs(node);
        head, ns := heads[l], members[l];
        OneGone(heads, members, home, l, p);
        LinkedInRing(head, ns, p);
      } else {
        NoneGone(heads, members, home, node);
      }
      OtherRings(node, l, head, ns);
    }

    /** Puts a node at the end of list l. */
    method Append(node: ListNode, l: nat)
      requires WellLinked() && node in nodes && node !in home && l < |heads|
      modifies this`members, this`home, nodes`next, nodes`prev
      ensures WellLinked()
      ensures members == Appended(old(members), l, node) && home == old(home)[node := l]
    {
      hide Linked, Apart;
      RingEnds(l);
      ghost var ns := members[l];
      PlacedAppended(heads, members, home, l, node);
      InsertInList(node, heads[l], heads[l], ns, |ns|);
      assert Inserted(ns, |ns|, node) == ns + [node];
      members, home := members[l := ns + [node]], home[node := l];
    }

    lemma RingEnds(l: nat)
      requires WellLinked() && l < |heads|
      ensures |members| == |heads| && Turn(heads[l], members[l])[|members[l]| + 1] == heads[l]
      ensures heads[l].prev != null && heads[l].prev in home && home[heads[l].prev] == l && heads[l] in home
      ensures forall n :: n in members[l] ==> n in home
      ensures forall n :: n in home && home[n] != l ==> n !in RingNodes(heads[l], members[l])
    {
      var r := Turn(heads[l], members[l]);
      assert Ring(heads[l], members[l]);
      assert r[|r| - 1].prev == r[|r| - 2];
      assert r[|r| - 2] in [heads[l]] + members[l];
    }

    ghost predicate WellOwned(home: map<ListNode, nat>, live: set<Query>)
      reads this`nodes, this`mains, this`heads, nodes`data
    {
      Ownership(heads, mains, home, live, nodes)
    }

    ghost predicate Valid()
      reads this, nodes
    {
      WellLinked() && WellOwned(home, live)
    }

    lemma OthersStayOwned(q: Query, home: map<ListNode, nat>, live: set<Query>)
      requires WellOwned(home, live) && q in live
      ensures WellOwned(home - q.Links(), live - {q})
    {
      assert OnMainList(q, home, mains);
      forall k | k in live - {q}
        ensures OnMainList(k, home - q.Links(), mains)
      {
        assert OnMainList(k, home, mains);
        assert k.all.data == k;
      }
      forall n | n in home - q.Links() && n !in heads
        ensures n.data in live - {q}
      {
        assert n in home && n in n.data.Links();
      }
    }

    method DetachAll(q: Query)
      requires WellLinked() && q.Links() <= nodes && forall n :: n in q.Links() ==> n !in heads
      modifies this`members, this`home, nodes`next, nodes`prev
      ensures WellLinked()
      ensures members == AllWithout(old(members), q.Links()) && home == old(home) - q.Links()
    {
      hide WellLinked, Without, AllWithout;
      AllWithoutFour(members, q.byQid, q.byTimeout, q.toServer, q.all);
      Detach(q.byQid);
      Detach(q.byTimeout);
      Detach(q.toServer);
      Detach(q.all);
      assert home == old(home) - q.Links();
    }

    /** ares__free_query: unlinks the query from every list it is on. */
    method FreeQuery(q: Query)
      requires Valid() && q in live
      modifies this`members, this`home, this`live, nodes`next, nodes`prev
      ensures Valid() && live == old(live) - {q}
      ensures members == AllWithout(old(members), q.Links()) && home == old(home) - q.Links()
    {
      hide WellLinked, OnMainList, AllWithout;
      OthersStayOwned(q, home, live);
      LiveLinks(q);
      DetachAll(q);
      live := live - {q};
    }

    lemma LiveLinks(q: Query)
      requires WellOwned(home, live) && q in live
      ensures q.Links() <= nodes && (forall n :: n in q.Links() ==> n !in heads && n.data == q)
      ensures q.all in home && home[q.all] in mains
    {
      assert OnMainList(q, home, mains);
    }

    /**
     ares_send, as a callback may use it: a new query goes to the end of
     all_queries, of its qid bucket and, once sent, of a timeout and a server list.
     */
    method SendQuery(to: Placement) returns (q: Query)
      requires Valid() && to.Fits(heads, mains)
      modifies this`members, this`home, this`nodes, this`live, nodes`next, nodes`prev
      ensures Valid() && fresh(q) && fresh(q.Links()) && live == old(live) + {q} && nodes == old(nodes) + q.Links()
      ensures 0 < |heads| == |old(members)| && members == Sent(old(members), q, to) && home == SentHome(old(home), q, to)
    {
      hide WellLinked, WellOwned, Appended, Sent;
      q := AdmitQuery();
      ghost var h := home;
      Enlist(q, to);
      live := live + {q};
      NewQueryOwned(q, to, h, old(live));
    }

    method Enlist(q: Query, to: Placement)
      requires WellLinked() && q.Links() <= nodes && |q.Links()| == 4 && q.Links() !! home.Keys
      requires 0 < |heads| == |members| && to.Fits(heads, mains)
      modifies this`members, this`home, nodes`next, nodes`prev
      ensures WellLinked() && members == Sent(old(members), q, to) && home == SentHome(old(home), q, to)
    {
      hide WellLinked;
      Append(q.all, 0);
      Append(q.byQid, to.qid);
      if to.sent {
        Append(q.byTimeout, to.timeout);
        Append(q.toServer, to.server);
      }
    }

    /** A new query, with its nodes on no list yet. */
    method AdmitQuery() returns (q: Query)
      requires Valid()
      modifies this`nodes
      ensures Valid() && fresh(q) && fresh(q.Links()) && nodes == old(nodes) + q.Links()
      ensures q !in live && |q.Links()| == 4 && q.Links() !! home.Keys
      ensures forall n :: n in q.Links() ==> n.data == q && n !in heads
      ensures 0 < |heads| == |members|
    {
      hide Linkage, Ownership;
      Sizes();
      q := new Query();
      LinkageGrows(heads, members, home, nodes, q.Links());
      OwnershipGrows(heads, mains, home, live, nodes, q.Links());
      nodes := nodes + q.Links();
    }

    lemma Sizes()
      requires Valid()
      ensures 0 < |heads| == |members| && home.Keys <= nodes
      ensures forall h :: h in heads ==> h in nodes
    {
    }

    lemma NewQueryOwned(q: Query, to: Placement, h: map<ListNode, nat>, l: set<Query>)
      requires WellOwned(h, l) && q !in l && live == l + {q} && to.Fits(heads, mains)
      requires q.Links() <= nodes && |q.Links()| == 4
      requires forall n :: n in q.Links() ==> n.data == q && n !in h && n !in heads
      requires home == SentHome(h, q, to)
      ensures WellOwned(home, live)
    {
      assert OnMainList(q, home, mains);
      forall k | k in l
        ensures OnMainList(k, home, mains)
      {
        assert OnMainList(k, h, mains);
      }
    }

    /** A user callback, which may send new queries while it runs. */
    method Callback(q: Query, status: Status, sends: seq<Placement>) returns (ghost added: seq<Query>)
      requires Valid() && forall to :: to in sends ==> to.Fits(heads, mains)
      modifies this`calls, this`sent, this`members, this`home, this`nodes, this`live, nodes`next, nodes`prev
      ensures Valid() && calls == old(calls) + [(q, status)]
      ensures |added| == |sends| && live == old(live) + AsSet(added) && sent == old(sent) + added
      ensures fresh(nodes - old(nodes)) && fresh(AsSet(added))
      ensures |members| == |old(members)| > 0 && members[0] == old(members)[0] + AllNodes(added)
      ensures forall l :: l in mains && 0 < l < |members| ==> members[l] == old(members)[l]
    {
      hide WellLinked, WellOwned, Sent, SentHome;
      Sizes();
      calls := calls + [(q, status)];
      added := [];
      ghost var start := members;
      assert start[0] == start[0] + AllNodes([]);
      for i := 0 to |sends|
        invariant Valid() && calls == old(calls) + [(q, status)]
        invariant |added| == i && live == old(live) + AsSet(added) && sent == old(sent)
        invariant fresh(nodes - old(nodes)) && fresh(AsSet(added))
        invariant |members| == |start| && members[0] == start[0] + AllNodes(added)
        invariant forall l :: l in mains && 0 < l < |members| ==> members[l] == start[l]
      {
        ghost var ms := members;
        var k := SendQuery(sends[i]);
        ZeroIsMain();
        SentOnMains(ms, k, sends[i], heads, mains);
        AllNodesMore(added, k);
        added := added + [k];
        assert AsSet(added) == AsSet(added[..i]) + {k};
      }
      sent := sent + added;
    }

    lemma ZeroIsMain()
      requires Valid()
      ensures 0 in mains && forall l :: l in mains ==> l < |heads|
    {
    }

    /** A main list holds the `all` nodes of live queries. */
    lemma MainNodes(c: nat)
      requires Valid() && c in mains
      ensures c < |heads| == |members|
      ensures forall n :: n in members[c] ==> n in nodes && n.data != null && n.data in live && n == n.data.all && n in home && home[n] == c
      ensures Apart(members[c]) && heads[c] !in members[c]
    {
      assert Ring(heads[c], members[c]);
      assert forall i :: 0 <= i < |members[c]| ==> members[c][i] == ([heads[c]] + members[c])[i + 1];
      forall n | n in members[c]
        ensures n.data != null && n.data in live && n == n.data.all
      {
        assert n in home && home[n] == c;
        forall m | 0 <= m < |heads|
          ensures heads[m] != n
        {
          assert m == c ==> heads[m] == ([heads[c]] + members[c])[0];
        }
        assert OnMainList(n.data, home, mains);
      }
    }

    /** The query at the front of a main list goes, and nothing else does from a main list. */
    lemma FrontGoes(c: nat)
      requires Valid() && c in mains && c < |members| && members[c] != []
      ensures members[c][0].data != null && members[c][0].data in live
      ensures Without(members[c], members[c][0].data.Links()) == members[c][1..]
      ensures forall l :: l in mains && l < |members| && l != c ==> Without(members[l], members[c][0].data.Links()) == members[l]
    {
      MainNodes(c);
      var q := members[c][0].data;
      LiveLinks(q);
      FrontRemoved(members[c], q.Links());
      forall l | l in mains && l < |members| && l != c
        ensures Without(members[l], q.Links()) == members[l]
      {
        MainNodes(l);
        WithoutNone(members[l], q.Links());
      }
    }

    /** The first node of a list, and the one after it. */
    lemma FrontOf(c: nat)
      requires Valid() && c < |heads|
      ensures |heads| == |members| && heads[c] in nodes && heads[c] !in members[c]
      ensures heads[c].next == First(heads[c], members[c])
      ensures members[c] != [] ==> members[c][0] in nodes && members[c][0].next == First(heads[c], members[c][1..])
    {
      var r := Turn(heads[c], members[c]);
      assert Ring(heads[c], members[c]);
      assert r[0].next == r[1];
      assert forall i :: 0 <= i < |members[c]| ==> members[c][i] == ([heads[c]] + members[c])[i + 1];
      if members[c] != [] {
        assert r[1].next == r[2];
      }
    }

    /** One turn of a drain loop, at the first node of list c. */
    method DrainOne(c: nat, node: ListNode, status: Status, sends: seq<Placement>) returns (next: ListNode, ghost more: seq<Query>)
      requires Valid() && c in mains && c < |heads| == |members| && members[c] != [] && node == members[c][0]
      requires forall to :: to in sends ==> to.Fits(heads, mains)
      modifies this`calls, this`sent, this`members, this`home, this`nodes, this`live, nodes`next, nodes`prev
      ensures Valid() && |members| == |old(members)| && |more| == |sends| && sent == old(sent) + more
      ensures node.data != null && node.data in old(live) && calls == old(calls) + [(node.data, status)]
      ensures next == First(heads[c], old(members)[c][1..])
      ensures c == 0 ==> members[0] == old(members)[0][1..] + AllNodes(more)
      ensures c != 0 ==> members[c] == old(members)[c][1..] && members[0] == old(members)[0] + AllNodes(more)
      ensures live == old(live) + AsSet(more) - {node.data}
      ensures fresh(nodes - old(nodes)) && fresh(AsSet(more))
    {
      hide WellLinked, WellOwned, Without, AllNodes;
      MainNodes(c);
      FrontOf(c);
      ZeroIsMain();
      var query := node.data;
      next := node.next;
      more := Callback(query, status, sends);
      assert c != 0 ==> members[c] == old(members)[c];
      assert c == 0 ==> members[0][0] == node && members[0][1..] == old(members)[0][1..] + AllNodes(more);
      FrontGoes(c);
      FreeQuery(query);
      ZeroIsMain();
    }

    /**
     Walks list c, which holds the queries `entry`, from its first node: each query
     is called back and freed. `script` says what the i-th callback sends.
     */
    method Drain(c: nat, status: Status, script: seq<seq<Placement>>, ghost entry: seq<Query>) returns (ghost added: seq<Query>)
      requires Valid() && c in mains && 0 < c < |heads| == |members|
      requires members[c] == AllNodes(entry) && forall q :: q in entry ==> q in live && q.all.data == q
      requires forall i, to :: 0 <= i < |script| && to in script[i] ==> to.Fits(heads, mains)
      modifies this`calls, this`sent, this`members, this`home, this`nodes, this`live, nodes`next, nodes`prev
      ensures Valid() && |members| == |old(members)| && members[c] == []
      ensures calls == old(calls) + Called(entry, status)
      ensures members[0] == old(members)[0] + AllNodes(added)
      ensures live == old(live) - AsSet(entry) + AsSet(added) && sent == old(sent) + added
      ensures fresh(nodes - old(nodes)) && fresh(AsSet(added))
    {
      hide WellLinked, WellOwned, Valid, Without, AllWithout, AllNodes, Called, AsSet;
      added := [];
      FrontOf(c);
      DrainBegins(entry, status, old(members)[0], old(live));
      var node, i: nat := heads[c].next, 0;
      while node != heads[c]
        invariant 0 <= i <= |entry| && Valid() && |members| == |old(members)|
        invariant members[c] == AllNodes(entry[i..]) && node == First(heads[c], members[c])
        invariant calls == old(calls) + Called(entry[..i], status)
        invariant members[0] == old(members)[0] + AllNodes(added)
        invariant live == old(live) - AsSet(entry[..i]) + AsSet(added) && sent == old(sent) + added
        invariant fresh(nodes - old(nodes)) && fresh(AsSet(added))
        decreases |entry| - i
      {
        ghost var more;
        node, more := CancelOne(c, node, status, script, entry, i);
        DrainStep(entry, i, status, added, more);
        assert entry[i] !in AsSet(added) + AsSet(more);
        LiveStep(old(live), AsSet(entry[..i]), AsSet(added), AsSet(more), entry[i]);
        added := added + more;
        i := i + 1;
      }
      DrainEnds(entry, i);
    }

    /** One turn of the walk over list c, at the i-th query of `entry`. */
    method CancelOne(c: nat, node: ListNode, status: Status, script: seq<seq<Placement>>, ghost entry: seq<Query>, i: nat)
      returns (next: ListNode, ghost more: seq<Query>)
      requires Valid() && c in mains && 0 < c < |heads| == |members| && i <= |entry| && members[c] == AllNodes(entry[i..])
      requires node != heads[c] && node == First(heads[c], members[c])
      requires forall q :: q in entry ==> q.all.data == q
      requires forall i, to :: 0 <= i < |script| && to in script[i] ==> to.Fits(heads, mains)
      modifies this`calls, this`sent, this`members, this`home, this`nodes, this`live, nodes`next, nodes`prev
      ensures Valid() && |members| == |old(members)| && i < |entry| && entry[i] in old(live)
      ensures members[c] == AllNodes(entry[i + 1..]) && next == First(heads[c], members[c])
      ensures calls == old(calls) + [(entry[i], status)] && sent == old(sent) + more
      ensures members[0] == old(members)[0] + AllNodes(more) && live == old(live) + AsSet(more) - {entry[i]}
      ensures fresh(nodes - old(nodes)) && fresh(AsSet(more))
    {
      hide WellLinked, WellOwned, Without, AllWithout, AllNodes, Called, AsSet;
      DrainEnds(entry, i);
      NotEmpty(entry, i);
      DrainStep(entry, i, status, [], []);
      var sends := [];
      if i < |script| {
        sends := script[i];
      }
      next, more := DrainOne(c, node, status, sends);
    }

    /** Moves all queries to a list of their own, so that new ones can be told apart. */
    method SwapHeads() returns (copy: ListNode)
      requires Valid() && mains == {0} && |heads| == |members| > 0 && members[0] != []
      modifies this`heads, this`members, this`home, this`nodes, this`mains, nodes`next, nodes`prev
      ensures Valid() && fresh(copy) && nodes == old(nodes) + {copy}
      ensures heads == old(heads) + [copy] && mains == {0, |old(heads)|}
      ensures members == old(members)[0 := []] + [old(members)[0]]
    {
      hide Linkage, Ownership, Rehomed;
      copy := new ListNode();
      ghost var ns := members[0];
      AtHome();
      SwapLists(heads, copy, members, home, nodes);
      OwnershipRehomed(heads, home, live, nodes, ns, copy);
      heads, members, home := heads + [copy], members[0 := []] + [ns], Rehomed(home, ns, copy, |heads|);
      nodes, mains := nodes + {copy}, {0, |heads| - 1};
    }

    /** Where the nodes of all_queries are at home. */
    lemma AtHome()
      requires Valid() && mains == {0}
      ensures 0 < |heads| == |members| && home.Keys <= nodes
      ensures forall n :: n in members[0] ==> n in home && home[n] == 0
      ensures forall n :: n in home && n !in members[0] ==> n in heads || home[n] != 0
      ensures forall n :: n in home ==> home[n] < |heads|
    {
    }

    /** With one main list, the live queries are those on it. */
    lemma LiveAreListed() returns (entry: seq<Query>)
      requires Valid() && mains == {0}
      ensures 0 < |heads| == |members| && members[0] == AllNodes(entry) && AsSet(entry) == live
      ensures forall q :: q in entry ==> q in live && q.all.data == q
    {
      MainNodes(0);
      entry := QueriesOf(members[0]);
      assert members[0] == AllNodes(entry);
      forall q | q in live
        ensures q in entry
      {
        LiveLinks(q);
        assert q.all in home && home[q.all] == 0 && q.all in members[0];
        var i :| 0 <= i < |members[0]| && members[0][i] == q.all;
        assert entry[i] == q;
      }
    }

    /** The emptied copy of the head goes out of scope. */
    method DropCopy()
      requires Valid() && |heads| == |members| > 1 && mains == {0, |heads| - 1} && members[|heads| - 1] == []
      modifies this`heads, this`members, this`home, this`nodes, this`mains
      ensures Valid() && mains == {0}
      ensures heads == old(heads)[..|old(heads)| - 1] && members == old(members)[..|old(heads)| - 1]
      ensures nodes == old(nodes) - {old(heads)[|old(heads)| - 1]}
    {
      hide Linkage, Ownership, Placed;
      LinkageDropped(heads, members, home, nodes);
      OwnershipDropped(heads, members, home, live, nodes);
      ghost var copy := heads[|heads| - 1];
      heads, members := heads[..|heads| - 1], members[..|members| - 1];
      home, nodes, mains := home - {copy}, nodes - {copy}, {0};
    }

    /**
     ares_cancel: exactly the queries present on entry are called back and freed,
     in order; those their callbacks send are what remains. Returns whether the
     servers' sockets are closed.
     */
    method Cancel(script: seq<seq<Placement>>) returns (closeSockets: bool, ghost cancelled: seq<Query>, ghost added: seq<Query>)
      requires Valid() && mains == {0}
      requires forall i, to :: 0 <= i < |script| && to in script[i] ==> to.Fits(heads, {0})
      modifies this`calls, this`sent, this`heads, this`members, this`home, this`nodes, this`live, this`mains, nodes`next, nodes`prev
      ensures Valid() && mains == {0} && heads == old(heads) && 0 < |heads| == |members| == |old(members)|
      ensures old(members)[0] == AllNodes(cancelled) && AsSet(cancelled) == old(live)
      ensures calls == old(calls) + Called(cancelled, ECANCELLED)
      ensures members[0] == AllNodes(added) && live == AsSet(added) && fresh(AsSet(added)) && sent == old(sent) + added
      ensures closeSockets == (!stayOpen && added == [])
    {
      hide WellLinked, WellOwned, AllNodes, Called, AsSet, Ring;
      cancelled := LiveAreListed();
      added := [];
      EmptyLists(old(calls), cancelled, live);
      HeadRing();
      var empty := IsListEmpty(heads[0], members[0]);
      if !empty {
        var c := |heads|;
        var copy := SwapHeads();
        FitsAfterSwap(script, old(heads), copy);
        added := Drain(c, ECANCELLED, script, cancelled);
        DropCopy();
        AllGone(old(live), cancelled, added);
      }
      HeadRing();
      empty := IsListEmpty(heads[0], members[0]);
      closeSockets := !stayOpen && empty;
    }

    /**
     ares_destroy. The next node is read before each callback, so queries that a
     callback sends are reached by the walk too, unless it was the callback of the last
     query on the list. `script` says what the i-th callback sends. Returns whether the
     debug assertions that all lists are empty hold.
     */
    method Destroy(script: seq<seq<Placement>>)
      returns (clean: bool, ghost entry: seq<Query>, ghost added: seq<Query>, ghost called: seq<Query>, ghost left: seq<Query>)
      requires Valid() && mains == {0}
      requires forall i, to :: 0 <= i < |script| && to in script[i] ==> to.Fits(heads, mains)
      modifies this`calls, this`sent, this`members, this`home, this`nodes, this`live, nodes`next, nodes`prev
      ensures Valid() && 0 < |heads| == |members| == |old(members)|
      // Called back, each once, are the queries present on entry and then those sent, in order, up to what is left over.
      ensures calls == old(calls) + Called(called, EDESTRUCTION) && NoDuplicates(called + left)
      ensures old(members)[0] == AllNodes(entry) && AsSet(entry) == old(live) && entry <= called
      ensures sent == old(sent) + added && called + left == entry + added && fresh(AsSet(added))
      // The walk ends at the first query whose callback is made when nothing else is listed.
      ensures |called| == CallsMade(|entry|, script)
      // What its callback sends is left over.
      ensures members[0] == AllNodes(left) && live == AsSet(left)
      ensures |left| == if called == [] then 0 else SendsOf(script, |called| - 1)
      ensures left == [] ==> forall l :: 0 <= l < |heads| ==> members[l] == [] && Ring(heads[l], [])
      ensures clean <==> entry == [] || SendsOf(script, CallsMade(|entry|, script) - 1) == 0
    {
      hide WellLinked, WellOwned, AllNodes, Called, AsSet, Ring, NoDuplicates, CallsMade;
      entry := LiveAreListed();
      added, called, left := DrainAll(script, entry);
      EmptyLists(calls, left, live);
      AllRings();
      if left == [] { NothingListed(); }
      clean := true;
      for l := 0 to |heads|
        modifies {}
        invariant clean <==> forall k :: 0 <= k < l ==> members[k] == []
      {
        var empty := IsListEmpty(heads[l], members[l]);
        clean := clean && empty;
      }
    }

    lemma AllRings()
      requires Valid()
      ensures 0 < |heads| == |members| && forall l :: 0 <= l < |heads| ==> Ring(heads[l], members[l])
    {
    }

    /** The walk of ares_destroy over all_queries, which holds `entry`, while callbacks append to it. */
    method DrainAll(script: seq<seq<Placement>>, ghost entry: seq<Query>)
      returns (ghost added: seq<Query>, ghost called: seq<Query>, ghost left: seq<Query>)
      requires Valid() && mains == {0} && 0 < |heads| == |members| && members[0] == AllNodes(entry) && AsSet(entry) == live
      requires AllFit(script, heads, mains)
      modifies this`calls, this`sent, this`members, this`home, this`nodes, this`live, nodes`next, nodes`prev
      ensures Valid() && |members| == |old(members)|
      ensures calls == old(calls) + Called(called, EDESTRUCTION) && NoDuplicates(called + left)
      ensures sent == old(sent) + added && called + left == entry + added && entry <= called && fresh(AsSet(added))
      ensures |called| == CallsMade(|entry|, script) && (called == [] <==> entry == [])
      ensures members[0] == AllNodes(left) && live == AsSet(left)
      ensures |left| == if called == [] then 0 else SendsOf(script, |called| - 1)
    {
      hide WellLinked, WellOwned, Valid, AllNodes, Called, AsSet, NoDuplicates, CallsFrom, CallsMade, Remaining, SendsOf, Paced, AllFit, Walking;
      added := [];
      var i := 0;
      FrontOf(0);
      WalkBegins(entry, script, calls);
      StartsWalking(entry);
      var node := heads[0].next;
      while node != heads[0]
        invariant 0 <= i <= |entry + added| && Valid() && |members| == |old(members)| && mains == {0}
        invariant Walking(entry + added, i) && sent == old(sent) + added && fresh(AsSet(added))
        invariant calls == old(calls) + Called((entry + added)[..i], EDESTRUCTION)
        invariant node != heads[0] ==> i < |entry + added| && node == (entry + added)[i].all
        invariant Paced(entry, added, i, script, node == heads[0])
        invariant fresh(nodes - old(nodes))
        decreases |entry + added| - i + Remaining(script, i), if node != heads[0] then 1 else 0
      {
        ghost var more;
        ghost var queue := entry + added;
        NextCall(queue, i, script);
        node, more := DestroyOne(node, script, queue, i);
        SentInTurn(entry, added, more);
        PacedStep(entry, added, more, i, script);
        added := added + more;
        i := i + 1;
      }
      StopsWalking(entry + added, i);
      called, left := (entry + added)[..i], (entry + added)[i..];
      assert called + left == entry + added;
      WalkEnds(entry, added, i, script);
    }

    /** all_queries holds what the walk has not reached of the queue, and nothing else is alive. */
    ghost predicate Walking(queue: seq<Query>, i: nat)
      reads this`members, this`live
    {
      && i <= |queue| && NoDuplicates(queue) && |members| > 0
      && members[0] == AllNodes(queue[i..]) && live == AsSet(queue[i..])
    }

    lemma StartsWalking(entry: seq<Query>)
      requires Valid() && 0 in mains && 0 < |members| && members[0] == AllNodes(entry) && AsSet(entry) == live
      ensures Walking(entry, 0)
    {
      hide WellLinked, WellOwned, AllNodes, AsSet, NoDuplicates;
      DistinctQueries(0, entry);
      assert entry[0..] == entry;
    }

    lemma StopsWalking(queue: seq<Query>, i: nat)
      requires Walking(queue, i)
      ensures i <= |queue| && |members| > 0 && members[0] == AllNodes(queue[i..]) && live == AsSet(queue[i..])
      ensures NoDuplicates(queue[..i] + queue[i..])
    {
      hide AllNodes, AsSet, NoDuplicates;
      assert queue[..i] + queue[i..] == queue;
    }

    /** One turn of the walk: the next node is read before the callback appends to the queue. */
    method DestroyOne(node: ListNode, script: seq<seq<Placement>>, ghost queue: seq<Query>, i: nat)
      returns (next: ListNode, ghost more: seq<Query>)
      requires Valid() && mains == {0} && |heads| == |members| && Walking(queue, i) && i < |queue| && node == queue[i].all
      requires AllFit(script, heads, mains)
      modifies this`calls, this`sent, this`members, this`home, this`nodes, this`live, nodes`next, nodes`prev
      ensures Valid() && |members| == |old(members)| && Walking(queue + more, i + 1) && |more| == SendsOf(script, i)
      ensures next == if i + 1 < |queue| then queue[i + 1].all else heads[0]
      ensures i + 1 < |queue| ==> next != heads[0]
      ensures old(calls) + [(queue[i], EDESTRUCTION)] == calls && sent == old(sent) + more && fresh(AsSet(more))
      ensures Called((queue + more)[..i + 1], EDESTRUCTION) == Called(queue[..i], EDESTRUCTION) + [(queue[i], EDESTRUCTION)]
      ensures fresh(nodes - old(nodes))
    {
      hide WellLinked, WellOwned, AllNodes, Called, AsSet, NoDuplicates;
      FrontOf(0);
      NotEmpty(queue, i);
      FirstIsLive(queue, i);
      var sends := [];
      if i < |script| {
        sends := script[i];
      }
      next, more := DrainOne(0, node, EDESTRUCTION, sends);
      forall k | 0 <= k < |queue|
        ensures queue[k] !in AsSet(more)
      {
      }
      Separate(queue, more);
      WalkStep(queue, i, more);
      DistinctQueries(0, (queue + more)[i + 1..]);
      StillDistinct(queue, i, more);
      FrontOf(0);
    }

    /** The queries on a main list are all different. */
    lemma DistinctQueries(c: nat, qs: seq<Query>)
      requires Valid() && c in mains && c < |members| && members[c] == AllNodes(qs)
      ensures NoDuplicates(qs)
    {
      MainNodes(c);
      forall i, j | 0 <= i < j < |qs|
        ensures qs[i] != qs[j]
      {
        assert members[c][i] == qs[i].all && members[c][j] == qs[j].all;
      }
    }

    lemma FirstIsLive(queue: seq<Query>, i: nat)
      requires Valid() && i < |queue| && live == AsSet(queue[i..])
      ensures queue[i] in live && queue[i].all.data == queue[i]
    {
      assert queue[i] == queue[i..][0];
      LiveLinks(queue[i]);
    }

    lemma NothingListed()
      requires Valid() && live == {}
      ensures 0 < |heads| == |members| && forall l :: 0 <= l < |heads| ==> members[l] == [] && Ring(heads[l], members[l])
    {
      hide WellLinked, WellOwned, Ring;
      AllRings();
      forall l | 0 <= l < |heads|
        ensures members[l] == []
      {
        ListedIsLive(l);
      }
    }

    lemma ListedIsLive(l: nat)
      requires Valid() && l < |heads| == |members|
      ensures members[l] != [] ==> live != {}
    {
      if members[l] != [] {
        var n := members[l][0];
        assert Ring(heads[l], members[l]) && ([heads[l]] + members[l])[1] == n;
        assert n in home && home[n] == l;
        forall m | 0 <= m < |heads|
          ensures heads[m] != n
        {
          assert m == l ==> heads[m] == ([heads[l]] + members[l])[0];
        }
        assert n.data in live;
      }
    }

    lemma HeadRing()
      requires Valid()
      ensures 0 < |heads| == |members| && Ring(heads[0], members[0])
    {
    }

    lemma WhereIs(node: ListNode) returns (l: nat, p: nat)
      requires WellLinked() && node in home && node !in heads
      ensures l < |heads| == |members| && p < |members[l]| && members[l][p] == node
      ensures Apart([heads[l]] + members[l]) && home[node] == l && RingNodes(heads[l], members[l]) <= home.Keys
    {
      l := home[node];
      p :| 0 <= p < |members[l]| && members[l][p] == node;
      assert Ring(heads[l], members[l]);
    }

    lemma OtherRings(node: ListNode, l: int, head: ListNode, ns: seq<ListNode>)
      requires WellLinked() && node !in heads && (node in home ==> home[node] == l)
      requires if 0 <= l < |heads| then |heads| == |members| && head == heads[l] && ns == members[l] else head == node && ns == [] && node !in home
      ensures |heads| == |members|
      ensures forall m :: 0 <= m < |heads| && m != l ==> RingNodes(heads[m], members[m]) !! RingNodes(head, ns) + {node}
      ensures forall m :: 0 <= m < |heads| && m != l ==> Ring(heads[m], members[m])
    {
      forall m | 0 <= m < |heads| && m != l
        ensures RingNodes(heads[m], members[m]) !! RingNodes(head, ns) + {node}
      {
        assert forall n :: n in RingNodes(heads[m], members[m]) ==> n in home && home[n] == m;
      }
    }
  }

  lemma AllWithoutFour(members: seq<seq<ListNode>>, a: ListNode, b: ListNode, c: ListNode, d: ListNode)
    ensures AllWithout(AllWithout(AllWithout(AllWithout(members, {a}), {b}), {c}), {d}) == AllWithout(members, {a, b, c, d})
  {
    forall l | 0 <= l < |members|
      ensures Without(Without(Without(Without(members[l], {a}), {b}), {c}), {d}) == Without(members[l], {a, b, c, d})
    {
      WithoutBoth(members[l], {a}, {b});
      WithoutBoth(members[l], {a} + {b}, {c});
      WithoutBoth(members[l], {a} + {b} + {c}, {d});
      assert {a} + {b} + {c} + {d} == {a, b, c, d};
    }
  }

  lemma FrontRemoved(ns: seq<ListNode>, gone: set<ListNode>)
    requires ns != [] && Apart(ns) && ns[0] in gone && forall n :: n in ns && n != ns[0] ==> n !in gone
    ensures Without(ns, gone) == ns[1..]
  {
    WithoutFront(ns, gone);
    WithoutNone(ns[1..], gone);
  }

  lemma {:induction false} WithoutFront(ns: seq<ListNode>, gone: set<ListNode>)
    requires ns != [] && ns[0] in gone
    ensures Without(ns, gone) == Without(ns[1..], gone)
  {
    var most := ns[..|ns| - 1];
    if most != [] {
      WithoutFront(most, gone);
      assert ns[1..][..|ns| - 2] == most[1..];
    }
  }

  lemma EmptyLists(calls: seq<(Query, Status)>, qs: seq<Query>, live: set<Query>)
    ensures AllNodes([]) == [] && AsSet([]) == {}
    ensures AllNodes(qs) == [] <==> qs == []
    ensures forall st :: qs == [] ==> calls + Called(qs, st) == calls
    ensures AsSet(qs) == live && qs == [] ==> live == {}
  {
  }

  lemma FitsAfterSwap(script: seq<seq<Placement>>, heads: seq<ListNode>, copy: ListNode)
    requires forall i, to :: 0 <= i < |script| && to in script[i] ==> to.Fits(heads, {0})
    ensures forall i, to :: 0 <= i < |script| && to in script[i] ==> to.Fits(heads + [copy], {0, |heads|})
  {
    forall i, to | 0 <= i < |script| && to in script[i]
      ensures to.Fits(heads + [copy], {0, |heads|})
    {
      assert to.Fits(heads, {0});
    }
  }

  lemma AllGone(live: set<Query>, entry: seq<Query>, added: seq<Query>)
    requires AsSet(entry) == live
    ensures live - AsSet(entry) + AsSet(added) == AsSet(added)
    ensures AllNodes(added) == [] <==> added == []
    ensures [] + AllNodes(added) == AllNodes(added)
  {
  }

  lemma LinkedInRing(head: ListNode, ns: seq<ListNode>, p: nat)
    requires Ring(head, ns) && p < |ns|
    ensures ns[p].next != null
  {
    var r := Turn(head, ns);
    assert r[p + 1] == ns[p] && r[p + 1].next == r[p + 2];
  }

  lemma OneGone(heads: seq<ListNode>, members: seq<seq<ListNode>>, home: map<ListNode, nat>, l: nat, p: nat)
    requires Placed(heads, members, home) && l < |heads| && p < |members[l]| && Apart([heads[l]] + members[l])
    ensures AllWithout(members, {members[l][p]}) == members[l := Removed(members[l], p)]
    ensures Placed(heads, AllWithout(members, {members[l][p]}), home - {members[l][p]})
  {
    var n := members[l][p];
    PlacedRemoved(heads, members, home, l, p);
    forall m | 0 <= m < |members|
      ensures Without(members[m], {n}) == members[l := Removed(members[l], p)][m]
    {
      if m == l {
        assert forall i :: 0 <= i < |members[l]| ==> members[l][i] == ([heads[l]] + members[l])[i + 1];
        WithoutOne(members[l], p);
      } else {
        WithoutNone(members[m], {n});
      }
    }
  }

  lemma NoneGone(heads: seq<ListNode>, members: seq<seq<ListNode>>, home: map<ListNode, nat>, n: ListNode)
    requires Placed(heads, members, home) && n !in home
    ensures AllWithout(members, {n}) == members && home - {n} == home
  {
    forall m | 0 <= m < |members|
      ensures Without(members[m], {n}) == members[m]
    {
      WithoutNone(members[m], {n});
    }
  }
}
