/**
 Catch's section tracking (UnitTest/catch.hpp): a tree of trackers decides, cycle
 by cycle, which nested sections of a test body are entered.

 Trackers are allocated in an arena; a tracker pointer is an index into it.
 */
module SectionTracker {

  datatype NameAndLocation = NameAndLocation(name: string, line: nat)

  /** A test body's section: entering it runs its own sections in order. */
  datatype Section = Section(name: NameAndLocation, body: seq<Section>)

  datatype CycleState = NotStarted | Executing | ExecutingChildren | NeedsAnotherRun | CompletedSuccessfully | Failed

  const NO_PARENT := -1

  datatype Tracker = Tracker(name: NameAndLocation, parent: int, children: seq<nat>, runState: CycleState)
  {
    predicate IsComplete() { runState == CompletedSuccessfully || runState == Failed }
    predicate IsOpen() { runState != NotStarted && !IsComplete() }
  }

  // ----- What a complete run must do

  /** The root-to-leaf paths of a section, left to right. */
  function AllPaths(s: Section): (paths: seq<seq<NameAndLocation>>)
    decreases s, 1
  {
    if s.body == [] then [[s.name]] else Prefixed(s.name, AllPathsIn(s.body))
  }

  function AllPathsIn(body: seq<Section>): seq<seq<NameAndLocation>>
    decreases body, 0
  {
    if body == [] then [] else AllPaths(body[0]) + AllPathsIn(body[1..])
  }

  function Prefixed(n: NameAndLocation, paths: seq<seq<NameAndLocation>>): (r: seq<seq<NameAndLocation>>)
    ensures |r| == |paths| && forall i :: 0 <= i < |r| ==> r[i] == [n] + paths[i]
  {
    seq(|paths|, i requires 0 <= i < |paths| => [n] + paths[i])
  }

  /** Sibling sections have distinct names or locations, at every level. */
  predicate Distinct(s: Section)
    decreases s
  {
    && (forall i, j :: 0 <= i < j < |s.body| ==> s.body[i].name != s.body[j].name)
    && (forall i :: 0 <= i < |s.body| ==> Distinct(s.body[i]))
  }

  // ----- Counting leaves

  function Leaves(s: Section): (n: nat)
    ensures n >= 1
    decreases s, 1
  {
    if s.body == [] then 1 else assert s.body[0] in s.body; LeavesIn(s.body)
  }

  function LeavesIn(body: seq<Section>): (n: nat)
    ensures n >= |body|
    decreases body, 0
  {
    if body == [] then 0 else Leaves(body[0]) + LeavesIn(body[1..])
  }

  /** Leaves in the first m sections of a body. */
  function Before(body: seq<Section>, m: nat): nat
    requires m <= |body|
  {
    LeavesIn(body[..m])
  }

  /** How many of the first k leaves of a body lie in its m-th section. */
  function Share(body: seq<Section>, k: nat, m: nat): (n: nat)
    requires m < |body|
    ensures n <= Leaves(body[m])
  {
    if k <= Before(body, m) then 0
    else if k >= Before(body, m) + Leaves(body[m]) then Leaves(body[m])
    else k - Before(body, m)
  }

  /** The path to leaf number k. */
  function Path(s: Section, k: nat): seq<NameAndLocation>
    requires k < Leaves(s)
    decreases s, 1
  {
    [s.name] + if s.body == [] then [] else PathIn(s.body, k)
  }

  function PathIn(body: seq<Section>, k: nat): seq<NameAndLocation>
    requires k < LeavesIn(body)
    decreases body, 0
  {
    if k < Leaves(body[0]) then Path(body[0], k) else PathIn(body[1..], k - Leaves(body[0]))
  }

  lemma {:induction false} BeforeNext(body: seq<Section>, m: nat)
    requires m < |body|
    ensures Before(body, m + 1) == Before(body, m) + Leaves(body[m])
  {
    if m == 0 {
      assert body[..1] == [body[0]] && body[..1][1..] == [];
    } else {
      assert body[..m + 1][1..] == body[1..][..m] && body[..m][1..] == body[1..][..m - 1];
      BeforeNext(body[1..], m - 1);
    }
  }

  lemma BeforeEnds(body: seq<Section>)
    ensures Before(body, 0) == 0 && Before(body, |body|) == LeavesIn(body)
  {
    assert body[..|body|] == body;
  }

  /** The section that holds leaf k contributes its own path to that leaf. */
  lemma {:induction false} PathThrough(body: seq<Section>, k: nat, m: nat)
    requires m < |body| && Before(body, m) <= k < Before(body, m) + Leaves(body[m])
    ensures k < LeavesIn(body) && PathIn(body, k) == Path(body[m], k - Before(body, m))
  {
    if m != 0 {
      assert body[..m][1..] == body[1..][..m - 1];
      PathThrough(body[1..], k - Leaves(body[0]), m - 1);
    }
  }

  lemma {:induction false} AllPathsAt(s: Section)
    ensures |AllPaths(s)| == Leaves(s)
    ensures forall k :: 0 <= k < Leaves(s) ==> AllPaths(s)[k] == Path(s, k)
    decreases s, 1
  {
    if s.body != [] {
      AllPathsInAt(s.body);
    }
  }

  lemma {:induction false} AllPathsInAt(body: seq<Section>)
    ensures |AllPathsIn(body)| == LeavesIn(body)
    ensures forall k :: 0 <= k < LeavesIn(body) ==> AllPathsIn(body)[k] == PathIn(body, k)
    decreases body, 0
  {
    if body != [] {
      AllPathsAt(body[0]);
      AllPathsInAt(body[1..]);
    }
  }

  // ----- The arena

  /** Parents precede their children, and each child points back to its parent. */
  ghost predicate WellFormed(a: seq<Tracker>)
  {
    && a != []
    && (forall t :: 0 <= t < |a| ==> NO_PARENT <= a[t].parent < t)
    && (forall t, m :: 0 <= t < |a| && 0 <= m < |a[t].children| ==>
                         a[t].children[m] < |a| && a[a[t].children[m]].parent == t)
  }

  /** t is x or one of its descendants. */
  ghost predicate Under(a: seq<Tracker>, x: nat, t: int)
    requires WellFormed(a)
    decreases t
  {
    0 <= t < |a| && (t == x || Under(a, x, a[t].parent))
  }

  lemma {:induction false} UnderIsLater(a: seq<Tracker>, x: nat, t: int)
    requires WellFormed(a) && Under(a, x, t)
    ensures x <= t
    decreases t
  {
    if t != x {
      UnderIsLater(a, x, a[t].parent);
    }
  }

  /** Distinct siblings have no descendant in common. */
  lemma {:induction false} SiblingsAreApart(a: seq<Tracker>, x: nat, y: nat, t: int)
    requires WellFormed(a) && x < |a| && y < |a| && x != y && a[x].parent == a[y].parent
    requires Under(a, x, t)
    ensures !Under(a, y, t)
    decreases t
  {
    if Under(a, y, t) {
      if t == x {
        UnderIsLater(a, y, a[x].parent);
      } else if t == y {
        UnderIsLater(a, x, a[y].parent);
      } else {
        SiblingsAreApart(a, x, y, a[t].parent);
      }
    }
  }

  lemma {:induction false} UnderChild(a: seq<Tracker>, x: nat, c: nat, t: int)
    requires WellFormed(a) && c < |a| && a[c].parent == x && Under(a, c, t)
    ensures Under(a, x, t)
    decreases t
  {
    if t != c {
      UnderChild(a, x, c, a[t].parent);
    } else {
      assert Under(a, x, x);
    }
  }

  /** Tracker x has recorded exactly the first k leaves of section s. */
  ghost predicate Records(a: seq<Tracker>, x: nat, s: Section, k: nat)
    decreases s
  {
    && x < |a| && a[x].name == s.name && k <= Leaves(s)
    && if k == 0 then a[x].runState == NotStarted && a[x].children == []
       else
         && a[x].runState == (if k == Leaves(s) then CompletedSuccessfully else ExecutingChildren)
         && |a[x].children| == |s.body|
         && forall m :: 0 <= m < |s.body| ==> Records(a, a[x].children[m], s.body[m], Share(s.body, k, m))
  }

  /** Records of a tracker only look at the tracker and its descendants. */
  lemma {:induction false} RecordsFrame(a: seq<Tracker>, b: seq<Tracker>, x: nat, s: Section, k: nat)
    requires WellFormed(a) && Records(a, x, s, k) && |a| <= |b|
    requires forall t :: 0 <= t < |a| && Under(a, x, t) ==> b[t] == a[t]
    ensures Records(b, x, s, k)
    decreases s
  {
    assert Under(a, x, x);
    if k != 0 {
      forall m | 0 <= m < |s.body|
        ensures Records(b, b[x].children[m], s.body[m], Share(s.body, k, m))
      {
        var c := a[x].children[m];
        forall t | 0 <= t < |a| && Under(a, c, t)
          ensures b[t] == a[t]
        {
          UnderChild(a, x, c, t);
        }
        RecordsFrame(a, b, c, s.body[m], Share(s.body, k, m));
      }
    }
  }

  /**
   Tracker x is open and has met the first j sections of its body, k leaves of
   which had run before this cycle. Sections it has met are recorded with leaf k
   counted in, the others without.
   */
  ghost predicate Midway(a: seq<Tracker>, x: nat, body: seq<Section>, k: nat, j: nat)
  {
    && x < |a| && j <= |body|
    && |a[x].children| == (if k == 0 then j else |body|)
    && a[x].runState == (if j > 0 && Before(body, j) > k then ExecutingChildren else Executing)
    && forall m :: 0 <= m < |a[x].children| ==>
                     Records(a, a[x].children[m], body[m], Share(body, if m < j then k + 1 else k, m))
  }

  /** Only x and its descendants, old or new, differ between a and b. */
  ghost predicate OnlyUnder(a: seq<Tracker>, b: seq<Tracker>, x: nat)
    requires WellFormed(a)
  {
    && |a| <= |b|
    && (forall t :: 0 <= t < |a| ==> b[t].parent == a[t].parent && b[t].name == a[t].name)
    && (forall t :: 0 <= t < |a| && !Under(a, x, t) ==> b[t] == a[t])
  }

  lemma {:induction false} UnderStays(a: seq<Tracker>, b: seq<Tracker>, x: nat, t: int)
    requires WellFormed(a) && WellFormed(b) && |a| <= |b| && t < |a|
    requires forall u :: 0 <= u < |a| ==> b[u].parent == a[u].parent
    ensures Under(a, x, t) == Under(b, x, t)
    decreases t
  {
    if 0 <= t && t != x {
      UnderStays(a, b, x, a[t].parent);
    }
  }

  lemma OnlyUnderKeeps(a: seq<Tracker>, b: seq<Tracker>, x: nat)
    requires WellFormed(a) && OnlyUnder(a, b, x)
    ensures |a| <= |b| && forall t :: 0 <= t < |a| ==> b[t].parent == a[t].parent && b[t].name == a[t].name
  {
  }

  lemma OnlyUnderTwice(a: seq<Tracker>, b: seq<Tracker>, c: seq<Tracker>, x: nat)
    requires WellFormed(a) && WellFormed(b) && OnlyUnder(a, b, x) && OnlyUnder(b, c, x)
    ensures OnlyUnder(a, c, x)
  {
    forall t | 0 <= t < |a| && !Under(a, x, t)
      ensures c[t] == a[t]
    {
      UnderStays(a, b, x, t);
    }
  }

  lemma OnlyUnderParent(a: seq<Tracker>, b: seq<Tracker>, x: nat, c: nat)
    requires WellFormed(a) && c < |a| && a[c].parent == x && OnlyUnder(a, b, c)
    ensures OnlyUnder(a, b, x)
  {
    forall t | 0 <= t < |a| && !Under(a, x, t)
      ensures b[t] == a[t]
    {
      if Under(a, c, t) {
        UnderChild(a, x, c, t);
      }
    }
  }

  // ----- Operations on the arena

  function WithState(a: seq<Tracker>, x: nat, st: CycleState): seq<Tracker>
    requires x < |a|
  {
    a[x := a[x].(runState := st)]
  }

  /** A new tracker, appended to the arena and to x's children. */
  function AddChild(a: seq<Tracker>, x: nat, n: NameAndLocation): seq<Tracker>
    requires x < |a|
  {
    a[x := a[x].(children := a[x].children + [|a|])] + [Tracker(n, x, [], NotStarted)]
  }

  /** The first of these trackers that carries the name, or -1. */
  function FirstNamed(a: seq<Tracker>, kids: seq<nat>, n: NameAndLocation): (x: int)
    requires forall m :: 0 <= m < |kids| ==> kids[m] < |a|
    ensures x == -1 || 0 <= x < |a|
  {
    if kids == [] then -1 else if a[kids[0]].name == n then kids[0] else FirstNamed(a, kids[1..], n)
  }

  /** openChild: marks p and its ancestors, up to the first that is marked already. */
  function MarkOpen(a: seq<Tracker>, p: int): (b: seq<Tracker>)
    requires p < |a| && forall t :: 0 <= t < |a| ==> a[t].parent < t
    ensures |b| == |a|
    decreases p
  {
    if p < 0 || a[p].runState == ExecutingChildren then a
    else MarkOpen(WithState(a, p, ExecutingChildren), a[p].parent)
  }

  /** close, on a tracker that is open and current. */
  function Closed(a: seq<Tracker>, x: nat): (b: seq<Tracker>)
    requires x < |a| && forall m :: 0 <= m < |a[x].children| ==> a[x].children[m] < |a|
    ensures |b| == |a|
  {
    var kids := a[x].children;
    if a[x].runState == Executing
       || (a[x].runState == ExecutingChildren && (kids == [] || a[kids[|kids| - 1]].IsComplete()))
    then WithState(a, x, CompletedSuccessfully)
    else a
  }

  /** The trackers from `cur` up to its ancestor x are all open. */
  ghost predicate OpenUpTo(a: seq<Tracker>, cur: int, x: nat)
    requires WellFormed(a)
    decreases cur
  {
    x <= cur < |a| && a[cur].IsOpen() && (cur > x ==> OpenUpTo(a, a[cur].parent, x))
  }

  /** Closing x with everything below it that is still open, innermost first. */
  ghost function ClosedUpTo(a: seq<Tracker>, cur: int, x: nat): seq<Tracker>
    requires WellFormed(a) && OpenUpTo(a, cur, x)
    decreases cur
  {
    if cur == x then Closed(a, x) else StillOpen(a, cur, x); ClosedUpTo(Closed(a, cur), a[cur].parent, x)
  }

  lemma ParentsStay(a: seq<Tracker>, cur: int)
    requires WellFormed(a) && 0 <= cur < |a|
    ensures |Closed(a, cur)| == |a| && forall t :: 0 <= t < |a| ==> Closed(a, cur)[t].parent == a[t].parent
    ensures a[cur].parent < cur
  {
  }

  /** A tracker without open descendants. */
  lemma ClosedAlone(a: seq<Tracker>, x: nat)
    requires WellFormed(a) && x < |a| && a[x].IsOpen()
    ensures OpenUpTo(a, x, x) && ClosedUpTo(a, x, x) == Closed(a, x)
  {
  }

  lemma StillOpen(a: seq<Tracker>, cur: int, x: nat)
    requires WellFormed(a) && OpenUpTo(a, cur, x) && cur > x
    ensures WellFormed(Closed(a, cur)) && OpenUpTo(Closed(a, cur), a[cur].parent, x)
  {
    OpenUpToFrame(a, Closed(a, cur), a[cur].parent, x);
  }

  lemma {:induction false} OpenUpToFrame(a: seq<Tracker>, b: seq<Tracker>, cur: int, x: nat)
    requires WellFormed(a) && WellFormed(b) && OpenUpTo(a, cur, x) && |a| == |b|
    requires forall t :: 0 <= t <= cur ==> a[t] == b[t]
    ensures OpenUpTo(b, cur, x)
    decreases cur
  {
    if cur > x { OpenUpToFrame(a, b, a[cur].parent, x); }
  }

  /** If the ancestors of every tracker with executing children have so too, then p and all its ancestors get them. */
  lemma {:induction false} MarksAncestors(a: seq<Tracker>, p: int)
    requires WellFormed(a) && p < |a|
    requires forall t :: 0 <= t <= p && a[t].runState == ExecutingChildren && a[t].parent >= 0 ==>
               a[a[t].parent].runState == ExecutingChildren
    ensures forall t :: 0 <= t < |a| ==>
              MarkOpen(a, p)[t] == if Under(a, t, p) then a[t].(runState := ExecutingChildren) else a[t]
    decreases p
  {
    if p >= 0 {
      if a[p].runState == ExecutingChildren {
        forall t | 0 <= t < |a| && Under(a, t, p) ensures a[t].runState == ExecutingChildren {
          AncestorsExecute(a, t, p);
        }
      } else {
        var b, q := WithState(a, p, ExecutingChildren), a[p].parent;
        assert WellFormed(b);
        MarksAncestors(b, q);
        forall t | 0 <= t < |a|
          ensures Under(a, t, p) <==> t == p || Under(b, t, q)
        {
          UnderStays(a, b, t, q);
        }
      }
    }
  }

  lemma {:induction false} AncestorsExecute(a: seq<Tracker>, t: nat, p: int)
    requires WellFormed(a) && Under(a, t, p) && a[p].runState == ExecutingChildren
    requires forall t :: 0 <= t <= p && a[t].runState == ExecutingChildren && a[t].parent >= 0 ==>
               a[a[t].parent].runState == ExecutingChildren
    ensures t < |a| && a[t].runState == ExecutingChildren
    decreases p
  {
    if t != p { AncestorsExecute(a, t, a[p].parent); }
  }

  // ----- One section of a body, step by step

  ghost predicate SectionsDiffer(body: seq<Section>)
  {
    && (forall i, j :: 0 <= i < j < |body| ==> body[i].name != body[j].name)
    && (forall i :: 0 <= i < |body| ==> Distinct(body[i]))
  }

  /** Leaf k lies in section j. */
  ghost predicate Active(body: seq<Section>, k: nat, j: nat)
    requires j < |body|
  {
    Before(body, j) <= k < Before(body, j) + Leaves(body[j])
  }

  /** Like Midway, after section j's tracker c has been found or made. */
  ghost predicate Acquired(a: seq<Tracker>, x: nat, body: seq<Section>, k: nat, j: nat, c: nat)
  {
    && x < |a| && j < |body|
    && |a[x].children| == (if k == 0 then j + 1 else |body|) && a[x].children[j] == c
    && a[x].runState == (if j > 0 && Before(body, j) > k then ExecutingChildren else Executing)
    && forall m :: 0 <= m < |a[x].children| ==>
                     Records(a, a[x].children[m], body[m], Share(body, if m < j then k + 1 else k, m))
  }

  /** Like Acquired, while section j is being run: nothing is said of its own tracker. */
  ghost predicate Inside(a: seq<Tracker>, x: nat, body: seq<Section>, k: nat, j: nat, c: nat)
  {
    && x < |a| && j < |body|
    && |a[x].children| == (if k == 0 then j + 1 else |body|) && a[x].children[j] == c
    && a[x].runState == ExecutingChildren
    && forall m :: 0 <= m < |a[x].children| && m != j ==>
                     Records(a, a[x].children[m], body[m], Share(body, if m < j then k + 1 else k, m))
  }

  /** The first of the trackers with that name is found, if there is one. */
  lemma {:induction false} FirstNamedFinds(a: seq<Tracker>, kids: seq<nat>, n: NameAndLocation, j: nat)
    requires forall m :: 0 <= m < |kids| ==> kids[m] < |a|
    requires j <= |kids| && forall m :: 0 <= m < j ==> a[kids[m]].name != n
    requires j < |kids| ==> a[kids[j]].name == n
    ensures FirstNamed(a, kids, n) == if j < |kids| then kids[j] else -1
  {
    if kids != [] && j != 0 {
      FirstNamedFinds(a, kids[1..], n, j - 1);
    }
  }

  lemma FindSection(a: seq<Tracker>, x: nat, body: seq<Section>, k: nat, j: nat)
    requires WellFormed(a) && Midway(a, x, body, k, j) && j < |body| && SectionsDiffer(body)
    ensures FirstNamed(a, a[x].children, body[j].name) == if k == 0 then -1 else a[x].children[j]
  {
    FirstNamedFinds(a, a[x].children, body[j].name, if k == 0 then |a[x].children| else j);
  }

  lemma ChildRecordsSurvive(a: seq<Tracker>, b: seq<Tracker>, x: nat, c: nat, s: Section, k: nat)
    requires WellFormed(a) && c < |a| && a[c].parent == x && Records(a, c, s, k) && |a| <= |b|
    requires forall t :: 0 <= t < |a| && t != x ==> b[t] == a[t]
    ensures Records(b, c, s, k)
  {
    forall t | 0 <= t < |a| && Under(a, c, t)
      ensures b[t] == a[t]
    {
      UnderIsLater(a, c, t);
    }
    RecordsFrame(a, b, c, s, k);
  }

  lemma NewSection(a: seq<Tracker>, x: nat, body: seq<Section>, j: nat)
    requires WellFormed(a) && Midway(a, x, body, 0, j) && j < |body|
    ensures var b := AddChild(a, x, body[j].name);
            WellFormed(b) && OnlyUnder(a, b, x) && Acquired(b, x, body, 0, j, |a|)
  {
    hide Records, Share, Before, WellFormed, OnlyUnder, Under;
    var b := AddChild(a, x, body[j].name);
    ChildAdded(a, x, body[j].name);
    NothingShared(body, j);
    NotStartedRecords(b, |a|, body[j]);
    forall m | 0 <= m < j
      ensures Records(b, b[x].children[m], body[m], Share(body, 1, m))
    {
      ChildIndex(a, x);
      ChildRecordsSurvive(a, b, x, a[x].children[m], body[m], Share(body, 1, m));
    }
  }

  lemma ChildAdded(a: seq<Tracker>, x: nat, n: NameAndLocation)
    requires WellFormed(a) && x < |a|
    ensures var b := AddChild(a, x, n);
            && WellFormed(b) && OnlyUnder(a, b, x) && |b| == |a| + 1
            && b[x] == a[x].(children := a[x].children + [|a|]) && b[|a|] == Tracker(n, x, [], NotStarted)
            && forall t :: 0 <= t < |a| && t != x ==> b[t] == a[t]
  {
    assert Under(a, x, x);
  }

  lemma NothingShared(body: seq<Section>, j: nat)
    requires j < |body|
    ensures Share(body, 0, j) == 0
  {
  }

  lemma NotStartedRecords(a: seq<Tracker>, x: nat, s: Section)
    requires x < |a| && a[x].name == s.name && a[x].runState == NotStarted && a[x].children == []
    ensures Records(a, x, s, 0)
  {
  }

  /** A section that does not hold leaf k is met and passed over. */
  lemma SkipSection(a: seq<Tracker>, x: nat, body: seq<Section>, k: nat, j: nat, c: nat)
    requires WellFormed(a) && Acquired(a, x, body, k, j, c) && !Active(body, k, j)
    ensures c < |a| && !a[c].IsOpen()
    ensures !(j > 0 && Before(body, j) > k) ==> a[c].IsComplete()
    ensures Midway(a, x, body, k, j + 1)
    ensures (Before(body, j + 1) > k) == (j > 0 && Before(body, j) > k)
  {
    BeforeNext(body, j);
    BeforeEnds(body);
    assert Share(body, k, j) == Share(body, k + 1, j);
    assert k == 0 ==> j > 0;
  }

  /** The section that holds leaf k is entered. */
  lemma EnterSection(a: seq<Tracker>, x: nat, body: seq<Section>, k: nat, j: nat, c: nat)
    requires WellFormed(a) && Acquired(a, x, body, k, j, c) && Active(body, k, j)
    requires a[x].parent < 0 || a[a[x].parent].runState == ExecutingChildren
    requires forall i, m :: 0 <= i < m < |body| ==> body[i].name != body[m].name
    ensures c < |a| && !a[c].IsComplete() && a[c].parent == x && a[x].runState == Executing
    ensures var b := WithState(WithState(a, c, Executing), x, ExecutingChildren);
            && MarkOpen(WithState(a, c, Executing), x) == b
            && WellFormed(b) && OnlyUnder(a, b, x) && Inside(b, x, body, k, j, c)
            && Midway(b, c, body[j].body, Share(body, k, j), 0)
  {
    var kc := Share(body, k, j);
    var b := WithState(WithState(a, c, Executing), x, ExecutingChildren);
    assert Records(a, c, body[j], kc);
    OpenedStates(a, x, c);
    hide Under, WellFormed, OnlyUnder, MarkOpen, Before, Share;
    ChildIndex(a, x);
    forall m | 0 <= m < |a[x].children| && m != j
      ensures Records(b, b[x].children[m], body[m], Share(body, if m < j then k + 1 else k, m))
    {
      assert Records(a, a[x].children[m], body[m], Share(body, if m < j then k + 1 else k, m));
      assert a[a[x].children[m]].name == body[m].name != body[j].name;
      SiblingSurvives(a, b, x, c, a[x].children[m], body[m], Share(body, if m < j then k + 1 else k, m));
    }
    EnteredBody(a, b, x, c, body[j], kc);
  }

  lemma ChildIndex(a: seq<Tracker>, x: nat)
    requires WellFormed(a) && x < |a|
    ensures forall m :: 0 <= m < |a[x].children| ==> a[x].children[m] < |a| && a[a[x].children[m]].parent == x
    ensures forall c :: 0 <= c < |a| ==> Under(a, c, c)
  {
  }

  lemma OpenedStates(a: seq<Tracker>, x: nat, c: nat)
    requires WellFormed(a) && x < |a| && c < |a| && a[c].parent == x && a[x].runState == Executing
    requires a[x].parent < 0 || a[a[x].parent].runState == ExecutingChildren
    ensures var b := WithState(WithState(a, c, Executing), x, ExecutingChildren);
            WellFormed(b) && OnlyUnder(a, b, x) && MarkOpen(WithState(a, c, Executing), x) == b
  {
    var b := WithState(WithState(a, c, Executing), x, ExecutingChildren);
    assert Under(a, x, x) && Under(a, x, c);
    assert MarkOpen(b, a[x].parent) == b;
  }

  lemma EnteredBody(a: seq<Tracker>, b: seq<Tracker>, x: nat, c: nat, s: Section, k: nat)
    requires WellFormed(a) && x < |a| && c < |a| && a[c].parent == x && Records(a, c, s, k) && k < Leaves(s)
    requires b == WithState(WithState(a, c, Executing), x, ExecutingChildren)
    ensures Midway(b, c, s.body, k, 0)
  {
    forall m | 0 <= m < |a[c].children|
      ensures Records(b, b[c].children[m], s.body[m], Share(s.body, k, m))
    {
      GrandchildSurvives(a, b, x, c, a[c].children[m], s.body[m], Share(s.body, k, m));
    }
  }

  lemma SiblingSurvives(a: seq<Tracker>, b: seq<Tracker>, x: nat, c: nat, d: nat, s: Section, k: nat)
    requires WellFormed(a) && c < |a| && d < |a| && c != d && a[c].parent == x == a[d].parent
    requires Records(a, d, s, k) && |a| <= |b|
    requires forall t :: 0 <= t < |a| && t != x && !Under(a, c, t) ==> b[t] == a[t]
    ensures Records(b, d, s, k)
  {
    forall t | 0 <= t < |a| && Under(a, d, t)
      ensures b[t] == a[t]
    {
      UnderIsLater(a, d, t);
      SiblingsAreApart(a, d, c, t);
    }
    RecordsFrame(a, b, d, s, k);
  }

  lemma GrandchildSurvives(a: seq<Tracker>, b: seq<Tracker>, x: nat, c: nat, d: nat, s: Section, k: nat)
    requires WellFormed(a) && c < |a| && d < |a| && a[c].parent == x && a[d].parent == c
    requires Records(a, d, s, k) && |a| <= |b|
    requires forall t :: 0 <= t < |a| && t != x && t != c ==> b[t] == a[t]
    ensures Records(b, d, s, k)
  {
    forall t | 0 <= t < |a| && Under(a, d, t)
      ensures b[t] == a[t]
    {
      UnderIsLater(a, d, t);
    }
    RecordsFrame(a, b, d, s, k);
  }

  /** Closing a section whose body has been met in full counts its leaf in. */
  lemma ClosedRecords(a: seq<Tracker>, c: nat, s: Section, k: nat)
    requires WellFormed(a) && k < Leaves(s) && Midway(a, c, s.body, k, |s.body|) && a[c].name == s.name
    ensures WellFormed(Closed(a, c)) && Records(Closed(a, c), c, s, k + 1)
    ensures OnlyUnder(a, Closed(a, c), c)
  {
    hide Records, Midway, Share, Before, Leaves, Under, WellFormed, Closed, OnlyUnder;
    AfterBody(a, c, s, k);
    ChildIndex(a, c);
    ClosedFrame(a, c);
    var b, body := Closed(a, c), s.body;
    forall m | 0 <= m < |body|
      ensures Records(b, b[c].children[m], body[m], Share(body, k + 1, m))
    {
      ChildRecordsSurvive(a, b, c, a[c].children[m], body[m], Share(body, k + 1, m));
    }
    ClosedState(a, c, s, k);
    MakeRecords(b, c, s, k + 1);
  }

  /** What is recorded when a body has been passed, with leaf k run. */
  lemma AfterBody(a: seq<Tracker>, c: nat, s: Section, k: nat)
    requires WellFormed(a) && k < Leaves(s) && Midway(a, c, s.body, k, |s.body|)
    ensures c < |a| && |a[c].children| == |s.body|
    ensures forall m :: 0 <= m < |s.body| ==> Records(a, a[c].children[m], s.body[m], Share(s.body, k + 1, m))
    ensures a[c].runState == if s.body == [] then Executing else ExecutingChildren
    ensures s.body == [] ==> k + 1 == Leaves(s)
  {
    hide Records, Share;
    BeforeEnds(s.body);
  }

  lemma ClosedFrame(a: seq<Tracker>, c: nat)
    requires WellFormed(a) && c < |a|
    ensures var b := Closed(a, c);
            && |b| == |a| && b[c] == a[c].(runState := b[c].runState) && (forall t :: 0 <= t < |a| && t != c ==> b[t] == a[t])
            && WellFormed(b) && OnlyUnder(a, b, c)
  {
    assert Under(a, c, c);
  }

  /** A section is complete exactly when its last leaf has run. */
  lemma ClosedState(a: seq<Tracker>, c: nat, s: Section, k: nat)
    requires WellFormed(a) && k < Leaves(s) && c < |a| && |a[c].children| == |s.body|
    requires forall m :: 0 <= m < |s.body| ==> Records(a, a[c].children[m], s.body[m], Share(s.body, k + 1, m))
    requires a[c].runState == if s.body == [] then Executing else ExecutingChildren
    requires s.body == [] ==> k + 1 == Leaves(s)
    ensures Closed(a, c)[c].runState == if k + 1 == Leaves(s) then CompletedSuccessfully else ExecutingChildren
  {
    hide Records, Share, Under, Before;
    if s.body != [] {
      var last := |s.body| - 1;
      LastShare(s, k);
      RecordsComplete(a, a[c].children[last], s.body[last], Share(s.body, k + 1, last));
    }
  }

  lemma LastShare(s: Section, k: nat)
    requires s.body != [] && k < Leaves(s)
    ensures var last := |s.body| - 1; Share(s.body, k + 1, last) == Leaves(s.body[last]) <==> k + 1 == Leaves(s)
  {
    BeforeEnds(s.body);
    BeforeNext(s.body, |s.body| - 1);
  }

  lemma RecordsComplete(a: seq<Tracker>, x: nat, s: Section, k: nat)
    requires Records(a, x, s, k)
    ensures x < |a| && (a[x].IsComplete() <==> k == Leaves(s))
  {
  }

  lemma MakeRecords(a: seq<Tracker>, x: nat, s: Section, k: nat)
    requires x < |a| && a[x].name == s.name && 0 < k <= Leaves(s) && |a[x].children| == |s.body|
    requires a[x].runState == if k == Leaves(s) then CompletedSuccessfully else ExecutingChildren
    requires forall m :: 0 <= m < |s.body| ==> Records(a, a[x].children[m], s.body[m], Share(s.body, k, m))
    ensures Records(a, x, s, k)
  {
  }

  /** Back in the parent once the section that held leaf k is closed. */
  lemma LeaveSection(a: seq<Tracker>, b: seq<Tracker>, x: nat, body: seq<Section>, k: nat, j: nat, c: nat)
    requires WellFormed(a) && Inside(a, x, body, k, j, c) && Active(body, k, j) && c < |a| && a[c].parent == x
    requires WellFormed(b) && OnlyUnder(a, b, c) && Records(b, c, body[j], Share(body, k, j) + 1)
    requires forall i, m :: 0 <= i < m < |body| ==> body[i].name != body[m].name
    ensures Midway(b, x, body, k, j + 1) && OnlyUnder(a, b, x) && Before(body, j + 1) > k
  {
    BeforeNext(body, j);
    OnlyUnderParent(a, b, x, c);
    if Under(a, c, x) {
      UnderIsLater(a, c, x);
    }
    assert b[x] == a[x];
    assert Share(body, k, j) + 1 == Share(body, k + 1, j);
    forall m | 0 <= m < |b[x].children|
      ensures Records(b, b[x].children[m], body[m], Share(body, if m < j + 1 then k + 1 else k, m))
    {
      if m != j {
        assert a[a[x].children[m]].name == body[m].name;
        SiblingSurvives(a, b, x, c, a[x].children[m], body[m], Share(body, if m < j then k + 1 else k, m));
      }
    }
  }

  // ----- One section macro, as a whole

  /** Leaf k was reached among the first j sections of the body. */
  ghost predicate Reached(body: seq<Section>, k: nat, j: nat)
    requires j <= |body|
  {
    Before(body, j) > k
  }

  ghost predicate ParentOpen(a: seq<Tracker>, x: nat)
  {
    x < |a| && (a[x].parent < 0 || (a[x].parent < |a| && a[a[x].parent].runState == ExecutingChildren))
  }

  ghost predicate Ready(a: seq<Tracker>, x: nat, body: seq<Section>, k: nat, j: nat)
  {
    WellFormed(a) && Midway(a, x, body, k, j) && ParentOpen(a, x)
  }

  lemma ReachedStep(body: seq<Section>, k: nat, j: nat)
    requires j < |body|
    ensures Active(body, k, j) <==> !Reached(body, k, j) && Reached(body, k, j + 1)
    ensures Reached(body, k, j) ==> Reached(body, k, j + 1)
    ensures !Reached(body, k, 0)
  {
    BeforeNext(body, j);
    BeforeEnds(body);
  }

  lemma ParentStaysOpen(a: seq<Tracker>, b: seq<Tracker>, x: nat)
    requires WellFormed(a) && OnlyUnder(a, b, x) && ParentOpen(a, x)
    ensures ParentOpen(b, x)
  {
    var p := a[x].parent;
    if p >= 0 && Under(a, x, p) {
      UnderIsLater(a, x, p);
    }
  }

  /** The tracker of section j, and the arena once it has been found or made. */
  ghost function MetArena(a: seq<Tracker>, x: nat, n: NameAndLocation, k: nat): seq<Tracker>
    requires x < |a|
  {
    if k == 0 then AddChild(a, x, n) else a
  }

  ghost function MetTracker(a: seq<Tracker>, x: nat, k: nat, j: nat): int
    requires x < |a|
  {
    if k == 0 || j >= |a[x].children| then |a| else a[x].children[j]
  }

  lemma MeetSection(a: seq<Tracker>, x: nat, body: seq<Section>, k: nat, j: nat)
    requires Ready(a, x, body, k, j) && j < |body| && SectionsDiffer(body)
    ensures var b, c := MetArena(a, x, body[j].name, k), MetTracker(a, x, k, j);
            && WellFormed(b) && OnlyUnder(a, b, x) && Acquired(b, x, body, k, j, c) && ParentOpen(b, x)
            && FirstNamed(a, a[x].children, body[j].name) == if k == 0 then -1 else c
  {
    FindSection(a, x, body, k, j);
    if k == 0 {
      NewSection(a, x, body, j);
    } else {
      assert Acquired(a, x, body, k, j, a[x].children[j]);
    }
    ParentStaysOpen(a, MetArena(a, x, body[j].name, k), x);
  }

  lemma PassSection(a: seq<Tracker>, x: nat, body: seq<Section>, k: nat, j: nat, c: nat)
    requires WellFormed(a) && Acquired(a, x, body, k, j, c) && ParentOpen(a, x) && !Active(body, k, j)
    ensures c < |a| && !a[c].IsOpen() && (Reached(body, k, j) || a[c].IsComplete())
    ensures Ready(a, x, body, k, j + 1) && Reached(body, k, j + 1) == Reached(body, k, j)
  {
    SkipSection(a, x, body, k, j, c);
    BeforeEnds(body);
  }

  lemma OpenSection(a: seq<Tracker>, b: seq<Tracker>, x: nat, body: seq<Section>, k: nat, j: nat, c: nat)
    requires WellFormed(a) && WellFormed(b) && OnlyUnder(a, b, x) && ParentOpen(b, x)
    requires Acquired(b, x, body, k, j, c) && Active(body, k, j) && SectionsDiffer(body)
    ensures c < |b| && !b[c].IsComplete() && b[c].parent == x && b[c].name == body[j].name
    ensures var d := MarkOpen(WithState(b, c, Executing), x);
            && |d| == |b| && d[c].IsOpen() && d[c].parent == x && d[c].name == body[j].name
            && OnlyUnder(a, d, x) && ParentOpen(d, x)
            && Inside(d, x, body, k, j, c) && Ready(d, c, body[j].body, Share(body, k, j), 0)
  {
    EnterSection(b, x, body, k, j, c);
    var d := MarkOpen(WithState(b, c, Executing), x);
    OnlyUnderTwice(a, b, d, x);
    ParentStaysOpen(b, d, x);
  }

  lemma MidwayIsOpen(a: seq<Tracker>, x: nat, body: seq<Section>, k: nat, j: nat)
    requires Midway(a, x, body, k, j)
    ensures x < |a| && a[x].IsOpen()
  {
  }

  lemma EndSection(a: seq<Tracker>, d: seq<Tracker>, e: seq<Tracker>, x: nat, body: seq<Section>, k: nat, j: nat, c: nat)
    requires WellFormed(a) && WellFormed(d) && OnlyUnder(a, d, x) && ParentOpen(d, x)
    requires j < |body| && Inside(d, x, body, k, j, c) && Active(body, k, j) && SectionsDiffer(body)
    requires c < |d| && d[c].parent == x && d[c].name == body[j].name
    requires OnlyUnder(d, e, c) && Ready(e, c, body[j].body, Share(body, k, j), |body[j].body|)
    ensures WellFormed(e) && c < |e| && e[c].parent == x && e[c].IsOpen()
    ensures Ready(Closed(e, c), x, body, k, j + 1) && OnlyUnder(a, Closed(e, c), x)
  {
    hide Under, Records, OnlyUnder, Share, Before, ParentOpen, Midway, Inside, Closed, WellFormed, Leaves, Active;
    PathOfSection(body[j], body, k, j);
    OnlyUnderKeeps(d, e, c);
    ChildIndex(e, c);
    MidwayIsOpen(e, c, body[j].body, Share(body, k, j), |body[j].body|);
    var f := Closed(e, c);
    ClosedRecords(e, c, body[j], Share(body, k, j));
    OnlyUnderTwice(d, e, f, c);
    LeaveSection(d, f, x, body, k, j, c);
    ParentStaysOpen(d, f, x);
    OnlyUnderTwice(a, d, f, x);
  }

  lemma ReadyParts(a: seq<Tracker>, x: nat, body: seq<Section>, k: nat, j: nat)
    requires Ready(a, x, body, k, j)
    ensures WellFormed(a) && x < |a|
  {
  }

  lemma SubsectionsDiffer(body: seq<Section>, j: nat)
    requires SectionsDiffer(body) && j < |body|
    ensures SectionsDiffer(body[j].body)
  {
    assert Distinct(body[j]);
  }

  lemma PathOfSection(s: Section, body: seq<Section>, k: nat, j: nat)
    requires j < |body| && s == body[j] && Active(body, k, j)
    ensures Share(body, k, j) < Leaves(s)
    ensures if s.body == [] then Share(body, k, j) == 0 else Share(body, k, j) < LeavesIn(s.body)
    ensures Path(s, Share(body, k, j)) == [s.name] + if s.body == [] then [] else PathIn(s.body, Share(body, k, j))
    ensures !Reached(s.body, Share(body, k, j), 0)
  {
    BeforeEnds(s.body);
  }

  // ----- The test case, child of the root tracker

  const ROOT: NameAndLocation := NameAndLocation("{root}", 0)

  /** Between cycles: the root's only child is the test case's tracker, with k leaves recorded. */
  ghost predicate Between(a: seq<Tracker>, s: Section, k: nat)
  {
    && WellFormed(a) && a[0].parent == NO_PARENT
    && if k == 0 then a == [Tracker(ROOT, NO_PARENT, [], NotStarted)]
       else a[0].children == [1] && a[0].runState == ExecutingChildren && Records(a, 1, s, k)
  }

  lemma OpenTestCase(a: seq<Tracker>, s: Section, k: nat)
    requires Between(a, s, k) && k < Leaves(s)
    ensures FirstNamed(a, a[0].children, s.name) == if k == 0 then -1 else 1
    ensures var b := if k == 0 then AddChild(a, 0, s.name) else a;
            && |b| >= 2 && WellFormed(b) && !b[1].IsComplete() && b[1].parent == 0
            && var d := MarkOpen(WithState(b, 1, Executing), 0);
            && |d| == |b| && d[0].parent == NO_PARENT && d[0].children == [1] && d[0].runState == ExecutingChildren
            && d[1].name == s.name && d[1].parent == 0 && Ready(d, 1, s.body, k, 0)
  {
    var b := if k == 0 then AddChild(a, 0, s.name) else a;
    assert FirstNamed(a, a[0].children, s.name) == if k == 0 then -1 else 1 by {
      FirstNamedFinds(a, a[0].children, s.name, 0);
    }
    var d := WithState(WithState(b, 1, Executing), 0, ExecutingChildren);
    assert k == 0 ==> b[1] == Tracker(s.name, 0, [], NotStarted);
    assert Records(b, 1, s, k);
    EnteredBody(b, d, 0, 1, s, k);
    RootMarked(b, k > 0);
  }

  lemma RootMarked(b: seq<Tracker>, again: bool)
    requires WellFormed(b) && |b| >= 2 && b[1].parent == 0 && b[0].parent == NO_PARENT
    requires again ==> b[0].runState == ExecutingChildren
    ensures var d := WithState(WithState(b, 1, Executing), 0, ExecutingChildren);
            WellFormed(d) && MarkOpen(WithState(b, 1, Executing), 0) == d
  {
    var b1 := WithState(b, 1, Executing);
    var d := WithState(b1, 0, ExecutingChildren);
    if b1[0].runState == ExecutingChildren {
      assert d == b1;
    } else {
      assert MarkOpen(d, NO_PARENT) == d;
    }
  }

  lemma CloseTestCase(d: seq<Tracker>, e: seq<Tracker>, s: Section, k: nat)
    requires WellFormed(d) && |d| >= 2 && d[0].parent == NO_PARENT && d[0].children == [1]
    requires d[0].runState == ExecutingChildren && d[1].name == s.name && d[1].parent == 0
    requires OnlyUnder(d, e, 1) && Ready(e, 1, s.body, k, |s.body|) && k < Leaves(s)
    ensures e[1].IsOpen() && e[1].parent == 0
    ensures Between(Closed(e, 1), s, k + 1)
    ensures Closed(e, 1)[1].runState == CompletedSuccessfully <==> k + 1 == Leaves(s)
  {
    MidwayIsOpen(e, 1, s.body, k, |s.body|);
    if Under(d, 1, 0) {
      UnderIsLater(d, 1, 0);
    }
    ClosedRecords(e, 1, s, k);
  }

  /** The run context and the section callbacks that drive it. */
  class TrackerContext {
    var trackers: seq<Tracker>
    var current: int
    var completedCycle: bool
    var activeSections: seq<nat>
    var entered: seq<NameAndLocation>  // sections reported as starting in this cycle

    constructor ()
      ensures trackers == [] && activeSections == []
    {
      trackers, current, completedCycle, activeSections, entered := [], NO_PARENT, false, [], [];
    }

    /** Tracker x is current, j sections into a body of which k leaves ran in earlier cycles. */
    ghost predicate Running(x: nat, body: seq<Section>, k: nat, j: nat)
      requires j <= |body|
      reads this
    {
      Ready(trackers, x, body, k, j) && current == x && completedCycle == Reached(body, k, j)
    }

    method FindChild(x: nat, n: NameAndLocation) returns (r: int)
      requires WellFormed(trackers) && x < |trackers|
      ensures r == FirstNamed(trackers, trackers[x].children, n)
    {
      var kids := trackers[x].children;
      for i := 0 to |kids|
        invariant FirstNamed(trackers, kids, n) == FirstNamed(trackers, kids[i..], n)
      {
        if trackers[kids[i]].name == n {
          return kids[i];
        }
      }
      r := -1;
    }

    method OpenChild(x: int)
      requires x < |trackers| && forall t :: 0 <= t < |trackers| ==> trackers[t].parent < t
      modifies this`trackers
      ensures trackers == MarkOpen(old(trackers), x)
      decreases x
    {
      if x >= 0 && trackers[x].runState != ExecutingChildren {
        trackers := WithState(trackers, x, ExecutingChildren);
        OpenChild(trackers[x].parent);
      }
    }

    method Open(x: nat)
      requires x < |trackers| && forall t :: 0 <= t < |trackers| ==> trackers[t].parent < t
      modifies this`trackers, this`current
      ensures trackers == MarkOpen(WithState(old(trackers), x, Executing), old(trackers[x].parent))
      ensures current == x
    {
      trackers := WithState(trackers, x, Executing);
      current := x;
      OpenChild(trackers[x].parent);
    }

    /** SectionTracker::acquire: finds or makes the tracker, and opens it unless the cycle is complete. */
    method Acquire(n: NameAndLocation) returns (x: nat)
      requires WellFormed(trackers) && 0 <= current < |trackers|
      modifies this`trackers, this`current
      ensures var a, f := old(trackers), FirstNamed(old(trackers), old(trackers[current].children), n);
              && x == (if f >= 0 then f else |a|)
              && var b := if f >= 0 then a else AddChild(a, old(current), n);
              if completedCycle || b[x].IsComplete() then trackers == b && current == old(current)
              else trackers == MarkOpen(WithState(b, x, Executing), b[x].parent) && current == x
    {
      var f := FindChild(current, n);
      if f >= 0 {
        x := f;
      } else {
        x := |trackers|;
        trackers := AddChild(trackers, current, n);
      }
      if !completedCycle {
        if !trackers[x].IsComplete() {
          Open(x);
        }
      }
    }

    /** Closes the current tracker. */
    method CloseCurrent()
      requires WellFormed(trackers) && 0 <= current < |trackers| && trackers[current].IsOpen()
      modifies this`trackers, this`current, this`completedCycle
      ensures trackers == Closed(old(trackers), old(current))
      ensures current == old(trackers[current].parent) && completedCycle
      // Only the tracker itself changes, and only by completing: when it has no children to run, or the last one is done.
      ensures var a, x := old(trackers), old(current);
              var kids := a[x].children;
              trackers == if a[x].runState == Executing
                             || (a[x].runState == ExecutingChildren
                                 && (kids == [] || a[kids[|kids| - 1]].runState in [CompletedSuccessfully, Failed]))
                          then a[x := a[x].(runState := CompletedSuccessfully)] else a
    {
      match trackers[current].runState {
        case Executing =>
          trackers := WithState(trackers, current, CompletedSuccessfully);
        case ExecutingChildren =>
          var kids := trackers[current].children;
          if kids == [] || trackers[kids[|kids| - 1]].IsComplete() {
            trackers := WithState(trackers, current, CompletedSuccessfully);
          }
        case _ =>
      }
      current := trackers[current].parent;
      completedCycle := true;
    }

    /** Closes x after any of its descendants that are still open. */
    method Close(x: nat)
      requires WellFormed(trackers) && OpenUpTo(trackers, current, x)
      modifies this`trackers, this`current, this`completedCycle
      ensures trackers == ClosedUpTo(old(trackers), old(current), x)
      ensures current == old(trackers[x].parent) && completedCycle
    {
      hide WellFormed, Closed;
      ghost var goal := ClosedUpTo(trackers, current, x);
      while current != x
        invariant WellFormed(trackers) && OpenUpTo(trackers, current, x) && goal == ClosedUpTo(trackers, current, x)
        invariant x < |trackers| == |old(trackers)| && trackers[x].parent == old(trackers[x].parent)
        decreases current
      {
        StillOpen(trackers, current, x);
        ParentsStay(trackers, current);
        CloseCurrent();
      }
      ParentsStay(trackers, current);
      CloseCurrent();
    }

    method SectionEnded()
      requires activeSections != [] ==> WellFormed(trackers) && OpenUpTo(trackers, current, activeSections[|activeSections| - 1])
      modifies this`trackers, this`current, this`completedCycle, this`activeSections
      ensures old(activeSections) == [] ==> unchanged(this)
      ensures old(activeSections) != [] ==>
                var x := old(activeSections[|activeSections| - 1]);
                && trackers == ClosedUpTo(old(trackers), old(current), x)
                && current == old(trackers)[x].parent && completedCycle
                && activeSections == old(activeSections[..|activeSections| - 1])
    {
      if activeSections != [] {
        Close(activeSections[|activeSections| - 1]);
        activeSections := activeSections[..|activeSections| - 1];
      }
    }

    /** Returns whether the section is to be entered. */
    method SectionStarted(n: NameAndLocation) returns (toEnter: bool)
      requires WellFormed(trackers) && 0 <= current < |trackers|
      modifies this`trackers, this`current, this`activeSections, this`entered
      ensures var a, f := old(trackers), FirstNamed(old(trackers), old(trackers[current].children), n);
              var c := if f >= 0 then f else |a|;
              var b := if f >= 0 then a else AddChild(a, old(current), n);
              && (if completedCycle || b[c].IsComplete() then trackers == b && current == old(current)
                  else trackers == MarkOpen(WithState(b, c, Executing), b[c].parent) && current == c)
              && toEnter == trackers[c].IsOpen() == (trackers[c].runState !in [NotStarted, CompletedSuccessfully, Failed])
              && activeSections == old(activeSections) + (if toEnter then [c] else [])
              && entered == old(entered) + (if toEnter then [n] else [])
    {
      var c := Acquire(n);
      toEnter := trackers[c].IsOpen();
      if toEnter {
        activeSections := activeSections + [c];
        entered := entered + [n];
      }
    }

    /** One section of a body: entered, run and ended, or passed over. */
    method RunSection(s: Section, ghost body: seq<Section>, ghost k: nat, ghost j: nat)
      requires j < |body| && s == body[j] && SectionsDiffer(body)
      requires current >= 0 && Running(current, body, k, j)
      modifies this
      ensures Running(old(current), body, k, j + 1) && activeSections == old(activeSections)
      ensures OnlyUnder(old(trackers), trackers, old(current))
      ensures entered == old(entered) + if Active(body, k, j) then Path(s, Share(body, k, j)) else []
      decreases s, 1
    {
      hide WellFormed, Midway, Ready, Acquired, Inside, Active, Reached, SectionsDiffer, OnlyUnder, ParentOpen, Share, Path, Closed;
      hide MarkOpen, FirstNamed, AddChild, WithState, PathIn, Leaves, LeavesIn, Before, Distinct, OpenUpTo, ClosedUpTo;
      ghost var x, a := current, trackers;
      ReadyParts(a, x, body, k, j);
      MeetSection(a, x, body, k, j);
      ghost var b, c := MetArena(a, x, s.name, k), MetTracker(a, x, k, j);
      ReachedStep(body, k, j);
      if Active(body, k, j) {
        OpenSection(a, b, x, body, k, j, c);
      } else {
        PassSection(b, x, body, k, j, c);
      }
      var toEnter := SectionStarted(s.name);
      if toEnter {
        ghost var d := trackers;
        SubsectionsDiffer(body, j);
        PathOfSection(s, body, k, j);
        ghost var rest := if s.body == [] then [] else PathIn(s.body, Share(body, k, j));
        RunBody(s.body, Share(body, k, j));
        assert entered == old(entered) + ([s.name] + rest);
        ghost var e := trackers;
        EndSection(a, d, e, x, body, k, j, c);
        ClosedAlone(e, c);
        SectionEnded();
      }
    }

    method RunBody(body: seq<Section>, ghost k: nat)
      requires SectionsDiffer(body) && (if body == [] then k == 0 else k < LeavesIn(body))
      requires current >= 0 && Running(current, body, k, 0)
      modifies this
      ensures Running(old(current), body, k, |body|) && activeSections == old(activeSections)
      ensures OnlyUnder(old(trackers), trackers, old(current))
      ensures entered == old(entered) + if body == [] then [] else PathIn(body, k)
      decreases body, 0
    {
      ghost var x := current;
      for j := 0 to |body|
        invariant Running(x, body, k, j) && activeSections == old(activeSections)
        invariant OnlyUnder(old(trackers), trackers, x)
        invariant entered == old(entered) + if completedCycle then PathIn(body, k) else []
      {
        ghost var a := trackers;
        RunSection(body[j], body, k, j);
        OnlyUnderTwice(old(trackers), a, trackers, x);
        ReachedStep(body, k, j);
        if Active(body, k, j) {
          PathThrough(body, k, j);
        }
      }
      BeforeEnds(body);
    }

    method StartRun()
      modifies this
      ensures trackers == [Tracker(ROOT, NO_PARENT, [], NotStarted)] && activeSections == []
    {
      trackers := [Tracker(ROOT, NO_PARENT, [], NotStarted)];
      current, completedCycle, activeSections := NO_PARENT, false, [];
    }

    method StartCycle()
      modifies this`current, this`completedCycle
      ensures current == 0 && !completedCycle
    {
      current, completedCycle := 0, false;
    }

    /** One cycle: the test case is acquired, its body invoked and its tracker closed. */
    method RunCycle(testCase: Section, ghost k: nat) returns (done: bool)
      requires Distinct(testCase) && k < Leaves(testCase) && Between(trackers, testCase, k) && activeSections == []
      modifies this
      ensures Between(trackers, testCase, k + 1) && activeSections == []
      ensures entered == Path(testCase, k)
      ensures done <==> k + 1 == Leaves(testCase)
    {
      hide WellFormed, Midway, Reached, Records, Before, OnlyUnder, ParentOpen, Closed, MarkOpen, FirstNamed, AddChild, WithState;
      hide OpenUpTo, ClosedUpTo;
      OpenTestCase(trackers, testCase, k);
      StartCycle();
      BetweenParts(trackers, testCase, k);
      var tc := Acquire(testCase.name);
      entered := [testCase.name];
      ghost var d := trackers;
      TestCaseBody(testCase, k);
      ReadyParts(d, 1, testCase.body, k, 0);
      RunBody(testCase.body, k);
      ReadyParts(trackers, 1, testCase.body, k, |testCase.body|);
      CloseTestCase(d, trackers, testCase, k);
      ClosedAlone(trackers, tc);
      Close(tc);
      done := trackers[tc].runState == CompletedSuccessfully;
    }

    /** The run loop: one cycle per root-to-leaf path, in order, and then it stops. */
    method RunTest(testCase: Section) returns (cycles: seq<seq<NameAndLocation>>)
      requires Distinct(testCase)
      modifies this
      ensures cycles == AllPaths(testCase)
    {
      StartRun();
      cycles := [];
      var done := false;
      assert Between(trackers, testCase, 0);
      while !done
        invariant |cycles| <= Leaves(testCase) && activeSections == []
        invariant done <==> |cycles| == Leaves(testCase)
        invariant Between(trackers, testCase, |cycles|)
        invariant forall i :: 0 <= i < |cycles| ==> cycles[i] == Path(testCase, i)
        decreases Leaves(testCase) - |cycles|
      {
        done := RunCycle(testCase, |cycles|);
        cycles := cycles + [entered];
      }
      AllPathsAt(testCase);
    }
  }

  lemma BetweenParts(a: seq<Tracker>, s: Section, k: nat)
    requires Between(a, s, k)
    ensures WellFormed(a) && |a| >= 1
  {
  }

  lemma TestCaseBody(s: Section, k: nat)
    requires Distinct(s) && k < Leaves(s)
    ensures SectionsDiffer(s.body) && !Reached(s.body, k, 0)
    ensures if s.body == [] then k == 0 else k < LeavesIn(s.body)
  {
    BeforeEnds(s.body);
  }

  /** No path occurs twice, so each leaf runs exactly once. */
  lemma {:induction false} PathsAreDistinct(s: Section, i: nat, j: nat)
    requires Distinct(s) && i < j < Leaves(s)
    ensures Path(s, i) != Path(s, j)
    decreases s, 1
  {
    PathsInAreDistinct(s.body, i, j);
    assert Path(s, i)[1..] == PathIn(s.body, i) && Path(s, j)[1..] == PathIn(s.body, j);
  }

  lemma {:induction false} PathsInAreDistinct(body: seq<Section>, i: nat, j: nat)
    requires SectionsDiffer(body) && i < j < LeavesIn(body)
    ensures PathIn(body, i) != PathIn(body, j)
    decreases body, 0
  {
    var n := Leaves(body[0]);
    if j < n {
      PathsAreDistinct(body[0], i, j);
    } else if i >= n {
      PathsInAreDistinct(body[1..], i - n, j - n);
    } else {
      PathStartsInBody(body[1..], j - n);
    }
  }

  lemma {:induction false} PathStartsInBody(body: seq<Section>, k: nat)
    requires k < LeavesIn(body)
    ensures PathIn(body, k) != [] && exists m :: 0 <= m < |body| && PathIn(body, k)[0] == body[m].name
    decreases body
  {
    if k < Leaves(body[0]) {
      assert PathIn(body, k) == Path(body[0], k);
      assert Path(body[0], k)[0] == body[0].name;
    } else {
      var rest := body[1..];
      PathStartsInBody(rest, k - Leaves(body[0]));
      var m :| 0 <= m < |rest| && PathIn(rest, k - Leaves(body[0]))[0] == rest[m].name;
      assert rest[m] == body[m + 1];
    }
  }
}
