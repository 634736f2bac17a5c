/**
 Expansion of RFC 1035 encoded names (c-ares/ares_expand_name.c): the bounded
 checker `name_length` and the unguarded expansion loop that relies on it.
 */
module NameExpansion {
  import opened Bytes
  import opened Status

  // ----- The encoding, one hop at a time (sections 3.1 and 4.1.4 of RFC 1035)

  /** What the byte at a position of a message means for a name walk. */
  datatype Hop =
    | End                                   // the zero-length label
    | Label(text: seq<Byte>, next: nat)     // 1..63 literal bytes
    | Jump(next: nat)                       // a compression pointer
    | Bad                                   // outside the message, or top bits 01 / 10

  /** The message offset held in a two-byte pointer: the flag bits are stripped. */
  function Target(first: Byte, second: Byte): nat
  {
    first as int % 64 * 256 + second
  }

  function HopAt(msg: seq<Byte>, p: nat): (h: Hop)
    ensures h.End? <==> p < |msg| && msg[p] == 0
    ensures h.Label? ==> 1 <= |h.text| <= 63 && h.next == p + 1 + |h.text| < |msg| && h.text == msg[p + 1..h.next]
    ensures h.Jump? ==> p + 1 < |msg| && h.next < |msg|
  {
    if p >= |msg| then Bad
    else if msg[p] == 0 then End
    else if msg[p] >= 192 then
      if p + 1 >= |msg| then Bad
      else
        var target := Target(msg[p], msg[p + 1]);
        if target >= |msg| then Bad else Jump(target)
    else if msg[p] < 64 then
      if p + msg[p] + 1 >= |msg| then Bad
      else Label(msg[p + 1..p + 1 + msg[p]], p + 1 + msg[p])
    else Bad
  }

  /** The walk from p reaches the zero byte after exactly k hops. */
  predicate EndsIn(msg: seq<Byte>, p: nat, k: nat)
    decreases k
  {
    match HopAt(msg, p)
    case End => k == 0
    case Label(_, next) => k > 0 && EndsIn(msg, next, k - 1)
    case Jump(next) => k > 0 && EndsIn(msg, next, k - 1)
    case Bad => false
  }

  /** A name can be read at p: its walk is finite and stays inside the message. */
  ghost predicate Resolves(msg: seq<Byte>, p: nat)
  {
    exists k: nat :: EndsIn(msg, p, k)
  }

  /** The labels met on the walk, in order, whatever pointers were followed. */
  function Labels(msg: seq<Byte>, p: nat, k: nat): (labels: seq<seq<Byte>>)
    requires EndsIn(msg, p, k)
    ensures forall l :: l in labels ==> 1 <= |l| <= 63
    decreases k
  {
    match HopAt(msg, p)
    case End => []
    case Label(text, next) => [text] + Labels(msg, next, k - 1)
    case Jump(next) => Labels(msg, next, k - 1)
  }

  /** Bytes the encoded name occupies at p: up to and including its first pointer or zero byte. */
  function EncodedLength(msg: seq<Byte>, p: nat, k: nat): (n: nat)
    requires EndsIn(msg, p, k)
    ensures 1 <= n && p + n <= |msg|
    decreases k
  {
    match HopAt(msg, p)
    case End => 1
    case Label(text, next) => 1 + |text| + EncodedLength(msg, next, k - 1)
    case Jump(_) => 2
  }

  lemma {:induction false} HopsAreDetermined(msg: seq<Byte>, p: nat, j: nat, k: nat)
    requires EndsIn(msg, p, j) && EndsIn(msg, p, k)
    ensures j == k
    decreases j
  {
    match HopAt(msg, p)
    case End =>
    case Label(_, next) => HopsAreDetermined(msg, next, j - 1, k - 1);
    case Jump(next) => HopsAreDetermined(msg, next, j - 1, k - 1);
  }

  // ----- The printed form

  function EscapeByte(b: Byte): seq<Byte>
  {
    if b == DOT || b == BACKSLASH then [BACKSLASH, b] else [b]
  }

  /** A label with its periods and backslashes escaped. */
  function Escape(text: seq<Byte>): (s: seq<Byte>)
    ensures |s| >= |text|
  {
    if text == [] then [] else EscapeByte(text[0]) + Escape(text[1..])
  }

  /** Every label followed by a period. */
  function Dots(labels: seq<seq<Byte>>): (s: seq<Byte>)
    ensures labels != [] ==> |s| >= 1 && s[|s| - 1] == DOT
  {
    if labels == [] then [] else Escape(labels[0]) + [DOT] + Dots(labels[1..])
  }

  /** The presentation form: labels separated, not terminated, by periods. */
  function Dotted(labels: seq<seq<Byte>>): seq<Byte>
  {
    if labels == [] then [] else var s := Dots(labels); s[..|s| - 1]
  }

  lemma DotsOfCons(l: seq<Byte>, labels: seq<seq<Byte>>)
    ensures Dots([l] + labels) == Escape(l) + [DOT] + Dots(labels)
  {
    assert ([l] + labels)[1..] == labels;
  }

  // ----- Pigeonhole: why more pointers than message bytes means a loop

  lemma {:induction false} DistinctBelow(s: seq<nat>, bound: nat)
    requires forall i :: 0 <= i < |s| ==> s[i] < bound
    requires forall i, j :: 0 <= i < j < |s| ==> s[i] != s[j]
    ensures |s| <= bound
    decreases bound
  {
    if s != [] {
      assert s[0] < bound;
      // Drop the value bound - 1, wherever it is, and recurse.
      var top := bound - 1;
      if top in s {
        var at :| 0 <= at < |s| && s[at] == top;
        var rest := s[..at] + s[at + 1..];
        forall i, j | 0 <= i < j < |rest|
          ensures rest[i] != rest[j]
        {
          var i', j' := if i < at then i else i + 1, if j < at then j else j + 1;
          assert rest[i] == s[i'] && rest[j] == s[j'];
        }
        DistinctBelow(rest, top);
      } else {
        DistinctBelow(s, top);
      }
    }
  }

  /** The walk from `start` stands at `at` after `hops` hops. */
  predicate PathTo(msg: seq<Byte>, start: nat, at: nat, hops: nat)
    decreases hops
  {
    if hops == 0 then at == start
    else
      match HopAt(msg, start)
      case Label(_, next) => PathTo(msg, next, at, hops - 1)
      case Jump(next) => PathTo(msg, next, at, hops - 1)
      case _ => false
  }

  lemma {:induction false} PathExtends(msg: seq<Byte>, start: nat, at: nat, hops: nat)
    requires PathTo(msg, start, at, hops) && (HopAt(msg, at).Label? || HopAt(msg, at).Jump?)
    ensures PathTo(msg, start, HopAt(msg, at).next, hops + 1)
    decreases hops
  {
    if hops == 0 {
      assert PathTo(msg, HopAt(msg, at).next, HopAt(msg, at).next, 0);
    } else {
      PathExtends(msg, HopAt(msg, start).next, at, hops - 1);
    }
  }

  /** What is left of the walk at a visited position is the walk less the hops made so far. */
  lemma {:induction false} PathSplits(msg: seq<Byte>, start: nat, at: nat, hops: nat, k: nat)
    requires PathTo(msg, start, at, hops)
    ensures EndsIn(msg, start, k) <==> k >= hops && EndsIn(msg, at, k - hops)
    decreases hops
  {
    if hops != 0 && k != 0 {
      PathSplits(msg, HopAt(msg, start).next, at, hops - 1, k - 1);
    }
  }

  /** Distinct moments of one walk at which it stood on a byte of the message. */
  ghost predicate Visits(msg: seq<Byte>, start: nat, sites: seq<nat>, times: seq<nat>, now: nat)
  {
    && |sites| == |times|
    && (forall i :: 0 <= i < |sites| ==> sites[i] < |msg| && times[i] < now && PathTo(msg, start, sites[i], times[i]))
    && (forall i, j :: 0 <= i < j < |times| ==> times[i] < times[j])
  }

  lemma AnotherVisit(msg: seq<Byte>, start: nat, sites: seq<nat>, times: seq<nat>, at: nat, now: nat)
    requires Visits(msg, start, sites, times, now) && PathTo(msg, start, at, now) && at < |msg|
    ensures Visits(msg, start, sites + [at], times + [now], now + 1)
  {
  }

  lemma LaterVisits(msg: seq<Byte>, start: nat, sites: seq<nat>, times: seq<nat>, now: nat)
    requires Visits(msg, start, sites, times, now)
    ensures Visits(msg, start, sites, times, now + 1)
  {
  }

  /** A walk that stands on more pointers than the message has bytes never ends. */
  lemma TooManyVisitsIsALoop(msg: seq<Byte>, start: nat, sites: seq<nat>, times: seq<nat>, now: nat)
    requires Visits(msg, start, sites, times, now) && |sites| > |msg|
    ensures !Resolves(msg, start)
  {
    if forall i, j :: 0 <= i < j < |sites| ==> sites[i] != sites[j] {
      DistinctBelow(sites, |msg|);
      assert false;
    }
    var i, j :| 0 <= i < j < |sites| && sites[i] == sites[j];
    forall k: nat | EndsIn(msg, start, k)
      ensures false
    {
      PathSplits(msg, start, sites[i], times[i], k);
      PathSplits(msg, start, sites[j], times[j], k);
      HopsAreDetermined(msg, sites[i], k - times[i], k - times[j]);
    }
  }

  // ----- name_length

  /** Printed length of the label of `size` bytes that starts at `from`. */
  method LabelTextLength(msg: seq<Byte>, from: nat, size: nat) returns (n: nat)
    requires from + size <= |msg|
    ensures n == |Escape(msg[from..from + size])|
  {
    n := 0;
    var offset, encoded := size, from;
    while offset > 0
      invariant 0 <= offset <= size && encoded == from + size - offset
      invariant n + |Escape(msg[encoded..from + size])| == |Escape(msg[from..from + size])|
    {
      assert msg[encoded..from + size][1..] == msg[encoded + 1..from + size];
      n := n + if msg[encoded] == DOT || msg[encoded] == BACKSLASH then 2 else 1;
      encoded := encoded + 1;
      offset := offset - 1;
    }
  }

  /** The checks `name_length` makes on one length or pointer byte. */
  method ReadHop(msg: seq<Byte>, encoded: nat) returns (hop: Hop)
    requires encoded < |msg| && msg[encoded] != 0
    ensures hop == HopAt(msg, encoded)
  {
    var top := msg[encoded] / 64;
    if top == 3 {
      if encoded + 1 >= |msg| {
        return Bad;
      }
      var offset := Target(msg[encoded], msg[encoded + 1]);
      if offset >= |msg| {
        return Bad;
      }
      return Jump(offset);
    } else if top == 0 {
      var offset := msg[encoded];
      if encoded + offset + 1 >= |msg| {
        return Bad;
      }
      return Label(msg[encoded + 1..encoded + 1 + offset], encoded + 1 + offset);
    }
    return Bad;
  }

  /** The bytes the expansion loop writes from p on: every label escaped and followed by a period. */
  function Spelled(msg: seq<Byte>, p: nat, k: nat): seq<Byte>
    requires EndsIn(msg, p, k)
    decreases k
  {
    match HopAt(msg, p)
    case End => []
    case Label(text, next) => Escape(text) + [DOT] + Spelled(msg, next, k - 1)
    case Jump(next) => Spelled(msg, next, k - 1)
  }

  lemma {:induction false} SpelledIsDots(msg: seq<Byte>, p: nat, k: nat)
    requires EndsIn(msg, p, k)
    ensures Spelled(msg, p, k) == Dots(Labels(msg, p, k))
    decreases k
  {
    hide Spelled, Labels, Dots, HopAt, Escape;
    SpelledStep(msg, p, k);
    match HopAt(msg, p)
    case End =>
    case Label(text, next) =>
      SpelledIsDots(msg, next, k - 1);
      DotsOfCons(text, Labels(msg, next, k - 1));
    case Jump(next) => SpelledIsDots(msg, next, k - 1);
  }

  /** One hop of the walk, as it is spelled and as it is read. */
  lemma SpelledStep(msg: seq<Byte>, p: nat, k: nat)
    requires EndsIn(msg, p, k)
    ensures HopAt(msg, p).End? ==> Spelled(msg, p, k) == [] && Dots(Labels(msg, p, k)) == []
    ensures HopAt(msg, p).Label? ==>
              var h := HopAt(msg, p);
              && Spelled(msg, p, k) == Escape(h.text) + [DOT] + Spelled(msg, h.next, k - 1)
              && Labels(msg, p, k) == [h.text] + Labels(msg, h.next, k - 1)
    ensures HopAt(msg, p).Jump? ==>
              var h := HopAt(msg, p);
              Spelled(msg, p, k) == Spelled(msg, h.next, k - 1) && Labels(msg, p, k) == Labels(msg, h.next, k - 1)
  {
    hide Escape, HopAt;
  }

  /** The number of hops to the zero byte, or -1 when the walk never gets there. */
  ghost function HopsToEnd(msg: seq<Byte>, p: nat): (k: int)
    ensures k >= 0 <==> Resolves(msg, p)
    ensures k >= 0 ==> EndsIn(msg, p, k)
    ensures forall j: nat :: EndsIn(msg, p, j) ==> j == k
  {
    if Resolves(msg, p) then
      var k: nat :| EndsIn(msg, p, k);
      assert forall j: nat :: EndsIn(msg, p, j) ==> j == k by {
        forall j: nat | EndsIn(msg, p, j)
          ensures j == k
        {
          HopsAreDetermined(msg, p, j, k);
        }
      }
      k
    else -1
  }

  lemma WalkStarts(msg: seq<Byte>, start: nat)
    ensures PathTo(msg, start, start, 0) && Visits(msg, start, [], [], 0)
  {
  }

  lemma WalkEnds(msg: seq<Byte>, start: nat, at: nat, hops: nat, goal: int)
    requires PathTo(msg, start, at, hops) && HopAt(msg, at).End?
    requires if goal >= 0 then goal >= hops && EndsIn(msg, at, goal - hops) else !Resolves(msg, start)
    ensures goal == hops && |Spelled(msg, at, 0)| == 0
  {
    PathSplits(msg, start, at, hops, hops);
  }

  lemma PathGoesOn(msg: seq<Byte>, start: nat, at: nat, hops: nat, goal: int)
    requires PathTo(msg, start, at, hops) && !HopAt(msg, at).End?
    requires goal >= 0 ==> goal >= hops && EndsIn(msg, at, goal - hops)
    ensures HopAt(msg, at).Bad? ==> goal < 0
    ensures !HopAt(msg, at).Bad? ==> PathTo(msg, start, HopAt(msg, at).next, hops + 1)
    ensures goal >= 0 ==> goal > hops && EndsIn(msg, HopAt(msg, at).next, goal - hops - 1)
    ensures goal >= 0 && HopAt(msg, at).Jump? ==>
              |Spelled(msg, at, goal - hops)| == |Spelled(msg, HopAt(msg, at).next, goal - hops - 1)|
    ensures goal >= 0 && HopAt(msg, at).Label? ==>
              |Spelled(msg, at, goal - hops)|
              == |Escape(HopAt(msg, at).text)| + 1 + |Spelled(msg, HopAt(msg, at).next, goal - hops - 1)|
  {
    if !HopAt(msg, at).Bad? {
      PathExtends(msg, start, at, hops);
    }
  }

  /** The loop of `name_length`; `goal` is the number of hops to the end, or -1 if there is none. */
  method CountPrinted(msg: seq<Byte>, start: nat, ghost goal: int) returns (n: int)
    requires start < |msg|
    requires if goal >= 0 then Resolves(msg, start) && EndsIn(msg, start, goal) else !Resolves(msg, start)
    ensures n >= 0 <==> goal >= 0
    ensures goal >= 0 ==> n == |Spelled(msg, start, goal)|
  {
    hide *;
    WalkStarts(msg, start);
    var encoded: nat, indir: nat := start, 0;
    ghost var hops: nat, sites: seq<nat>, times: seq<nat> := 0, [], [];
    n := 0;
    while msg[encoded] != 0
      invariant encoded < |msg| && indir <= |msg| && n >= 0
      invariant PathTo(msg, start, encoded, hops)
      invariant goal >= 0 ==> goal >= hops && EndsIn(msg, encoded, goal - hops)
      invariant goal >= 0 ==> n + |Spelled(msg, encoded, goal - hops)| == |Spelled(msg, start, goal)|
      invariant |sites| == indir && Visits(msg, start, sites, times, hops)
      decreases |msg| - indir, |msg| - encoded
    {
      PathGoesOn(msg, start, encoded, hops, goal);
      var hop := ReadHop(msg, encoded);
      match hop {
        case Jump(offset) =>
          AnotherVisit(msg, start, sites, times, encoded, hops);
          sites, times := sites + [encoded], times + [hops];
          encoded := offset;
          indir := indir + 1;
          if indir > |msg| {
            TooManyVisitsIsALoop(msg, start, sites, times, hops + 1);
            return -1;
          }
        case Label(_, next) =>
          var printed := LabelTextLength(msg, encoded + 1, next - encoded - 1);
          n := n + printed + 1;
          encoded := next;
          LaterVisits(msg, start, sites, times, hops);
        case _ =>
          return -1;
      }
      hops := hops + 1;
    }
    WalkEnds(msg, start, encoded, hops, goal);
  }

  /**
   The length of the expansion of the name at `start`, or -1. The pointer
   budget rejects exactly the walks that never end.
   */
  method NameLength(msg: seq<Byte>, start: nat) returns (length: int)
    ensures length >= -1
    ensures length >= 0 <==> Resolves(msg, start)
    ensures forall k: nat :: EndsIn(msg, start, k) ==> length == |Dotted(Labels(msg, start, k))|
  {
    if start >= |msg| {
      return -1;
    }
    ghost var goal := HopsToEnd(msg, start);
    var n := CountPrinted(msg, start, goal);
    if n < 0 {
      return -1;
    }
    SpelledIsDots(msg, start, goal);
    length := if n != 0 then n - 1 else n;
  }

  // ----- ares_expand_name

  /** Writes one byte, escaped if need be, where `text` has it. */
  method WriteByte(b: Byte, s: array<Byte>, at: nat, ghost text: seq<Byte>) returns (q: nat)
    requires |text| == s.Length && at + |EscapeByte(b)| <= |text|
    requires s[..at] == text[..at] && text[at..at + |EscapeByte(b)|] == EscapeByte(b)
    modifies s
    ensures q == at + |EscapeByte(b)| && s[..q] == text[..q]
  {
    q := at;
    if b == DOT || b == BACKSLASH {
      s[q] := BACKSLASH;
      q := q + 1;
    }
    s[q] := b;
    q := q + 1;
  }

  /** The first byte of a run that `text` spells escaped between q and end. */
  lemma RunSplits(text: seq<Byte>, q: nat, end: nat, run: seq<Byte>)
    requires run != [] && q <= end <= |text| && text[q..end] == Escape(run)
    ensures q + |EscapeByte(run[0])| <= end
    ensures text[q..q + |EscapeByte(run[0])|] == EscapeByte(run[0])
    ensures text[q + |EscapeByte(run[0])|..end] == Escape(run[1..])
  {
    hide EscapeByte;
    var first, rest := EscapeByte(run[0]), Escape(run[1..]);
    assert text[q..end] == first + rest;
    assert text[q..end][..|first|] == first && text[q..end][|first|..] == rest;
  }

  /**
   Copies one label, escaped, and a period to position `at` of the output buffer
   and returns the advanced cursor. `text` is what the whole expansion must spell.
   */
  method WriteLabel(msg: seq<Byte>, from: nat, size: nat, s: array<Byte>, at: nat, ghost text: seq<Byte>)
    returns (q: nat)
    requires from + size <= |msg|
    requires |text| == s.Length && at + |Escape(msg[from..from + size])| < |text|
    requires s[..at] == text[..at]
    requires text[at..at + |Escape(msg[from..from + size])|] == Escape(msg[from..from + size])
    requires text[at + |Escape(msg[from..from + size])|] == DOT
    modifies s
    ensures q == at + |Escape(msg[from..from + size])| + 1
    ensures s[..q] == text[..q]
  {
    hide Escape, EscapeByte;
    ghost var end := at + |Escape(msg[from..from + size])|;
    q := at;
    var len, p := size, from;
    while len > 0
      invariant 0 <= len <= size && p == from + size - len
      invariant q <= end && text[q..end] == Escape(msg[p..from + size])
      invariant s[..q] == text[..q]
    {
      RunSplits(text, q, end, msg[p..from + size]);
      assert msg[p..from + size][1..] == msg[p + 1..from + size];
      q := WriteByte(msg[p], s, q, text);
      p := p + 1;
      len := len - 1;
    }
    EscapeNothing();
    s[q] := DOT;
    q := q + 1;
  }

  lemma EscapeNothing()
    ensures Escape([]) == []
  {
  }

  lemma AtEnd(msg: seq<Byte>, p: nat, k: nat)
    requires EndsIn(msg, p, k)
    ensures p < |msg|
    ensures msg[p] == 0 ==> Spelled(msg, p, k) == [] && EncodedLength(msg, p, k) == 1
  {
  }

  lemma AtPointer(msg: seq<Byte>, p: nat, k: nat)
    requires EndsIn(msg, p, k) && msg[p] >= 192
    ensures k > 0 && p + 1 < |msg| && EndsIn(msg, Target(msg[p], msg[p + 1]), k - 1)
    ensures Spelled(msg, p, k) == Spelled(msg, Target(msg[p], msg[p + 1]), k - 1)
    ensures EncodedLength(msg, p, k) == 2
  {
  }

  lemma AtLabel(msg: seq<Byte>, p: nat, k: nat, h: Hop)
    requires EndsIn(msg, p, k) && 0 < msg[p] < 192 && h == HopAt(msg, p)
    ensures k > 0 && h.Label? && |h.text| == msg[p] && EndsIn(msg, h.next, k - 1)
    ensures Spelled(msg, p, k) == Escape(h.text) + [DOT] + Spelled(msg, h.next, k - 1)
    ensures EncodedLength(msg, p, k) == 1 + |h.text| + EncodedLength(msg, h.next, k - 1)
  {
    LabelHop(msg, p);
    hide HopAt, Escape;
  }

  lemma LabelHop(msg: seq<Byte>, p: nat)
    requires p < |msg| && 0 < msg[p] < 192 && !HopAt(msg, p).Bad?
    ensures HopAt(msg, p).Label? && |HopAt(msg, p).text| == msg[p]
  {
  }

  lemma TextSplits(text: seq<Byte>, q: nat, printed: seq<Byte>, rest: seq<Byte>)
    requires q <= |text| && text[q..] == printed + [DOT] + rest
    ensures q + |printed| < |text|
    ensures text[q..q + |printed|] == printed
    ensures text[q + |printed|] == DOT && text[q + |printed| + 1..] == rest
  {
    assert text == text[..q] + (printed + [DOT] + rest);
  }

  /**
   The expansion loop. It checks nothing: that the walk ends inside the message
   and how many bytes it prints was established by `NameLength`.
   */
  method ExpandLabels(msg: seq<Byte>, start: nat, s: array<Byte>, ghost hops: nat) returns (enclen: nat)
    requires EndsIn(msg, start, hops)
    requires s.Length == |Spelled(msg, start, hops)|
    modifies s
    ensures s[..] == Spelled(msg, start, hops)
    ensures enclen == EncodedLength(msg, start, hops)
  {
    hide *;
    ghost var text := Spelled(msg, start, hops);
    var p: nat, q: nat, indir := start, 0, false;
    ghost var left: nat := hops;
    enclen := 0;
    AtEnd(msg, p, left);
    while msg[p] != 0
      invariant p < |msg| && EndsIn(msg, p, left)
      invariant q <= s.Length && s[..q] == text[..q] && Spelled(msg, p, left) == text[q..]
      invariant !indir ==> start <= p && p - start + EncodedLength(msg, p, left) == EncodedLength(msg, start, hops)
      invariant indir ==> enclen == EncodedLength(msg, start, hops)
      decreases left
    {
      if msg[p] >= 192 {
        AtPointer(msg, p, left);
        if !indir {
          enclen, indir := p + 2 - start, true;
        }
        p := Target(msg[p], msg[p + 1]);
      } else {
        var len := msg[p];
        ghost var h := HopAt(msg, p);
        AtLabel(msg, p, left, h);
        TextSplits(text, q, Escape(h.text), Spelled(msg, h.next, left - 1));
        q := WriteLabel(msg, p + 1, len, s, q, text);
        p := p + 1 + len;
      }
      left := left - 1;
      AtEnd(msg, p, left);
    }
    AtEnd(msg, p, left);
    if !indir {
      enclen := p + 1 - start;
    }
    assert s[..] == text[..q] == text;
  }

  method ExpandName(msg: seq<Byte>, start: nat) returns (status: Status, s: array?<Byte>, enclen: nat)
    ensures status == SUCCESS <==> Resolves(msg, start)
    ensures status != SUCCESS ==> status == EBADNAME && s == null
    ensures forall k: nat :: EndsIn(msg, start, k) ==>
                               && s != null && s[..] == Dotted(Labels(msg, start, k)) + [0]
                               && enclen == EncodedLength(msg, start, k)
  {
    hide EndsIn, Labels, Dots, Escape, Spelled, EncodedLength, HopAt;
    var nlen := NameLength(msg, start);
    if nlen < 0 {
      return EBADNAME, null, 0;
    }
    ghost var hops := HopsToEnd(msg, start);
    AtEnd(msg, start, hops);
    SpelledIsDots(msg, start, hops);
    NoTextNoLabels(Labels(msg, start, hops));
    s := new Byte[nlen + 1];
    if nlen == 0 {
      EmptyNameEncoded(msg, start, hops);
      s[0] := 0;
      enclen := if msg[start] >= 192 then 2 else 1;
    } else {
      enclen := ExpandLabels(msg, start, s, hops);
      s[nlen] := 0;
    }
    status := SUCCESS;
  }

  lemma EmptyNameEncoded(msg: seq<Byte>, p: nat, k: nat)
    requires EndsIn(msg, p, k) && Labels(msg, p, k) == []
    ensures EncodedLength(msg, p, k) == if msg[p] >= 192 then 2 else 1
  {
  }

  lemma NoTextNoLabels(labels: seq<seq<Byte>>)
    requires forall l :: l in labels ==> 1 <= |l|
    ensures Dotted(labels) == [] <==> labels == []
  {
    if labels != [] {
      assert labels[0] in labels;
      assert |Escape(labels[0])| >= 1;
    }
  }
}
