/**
 Looking up a host by name (c-ares/ares_gethostbyname.c): DNS searches and hosts
 file lookups in the channel's order, with the fallback from AAAA to A.
 */
module HostLookup {
  import opened Common
  import opened Status
  import opened AddressSort

  /** The family the caller asks for. */
  datatype Want = Want4 | Want6 | Unspecified | OtherFamily

  datatype Host = Host(name: string, family: Family, addresses: seq<Address>)

  /** What a reply parser returns. */
  datatype Parsed = Parsed(status: Status, host: Option<Host>)

  /** How one DNS search ends; `a` and `aaaa` are what the parsers make of its answer. */
  datatype Reply = Reply(status: Status, timeouts: nat, a: Parsed, aaaa: Parsed)
  {
    function As(family: Family): Parsed { if family == INET then a else aaaa }
  }

  datatype FileOutcome = Found(host: Host) | Missing(status: Status)

  /** The arguments of one user callback. */
  datatype Call = Call(status: Status, timeouts: nat, host: Option<Host>)

  predicate GoodReply(r: Reply)
  {
    && (r.a.host.Some? ==> forall x <- r.a.host.value.addresses :: IsAddress(x, INET))
    && (r.aaaa.host.Some? ==> forall x <- r.aaaa.host.value.addresses :: IsAddress(x, INET6))
  }

  // ----- What a lookup should do

  /** What the lookup has asked so far, and how it ended unless it still waits for a reply. */
  datatype Progress = Progress(searches: seq<Family>, call: Option<Call>)

  function FirstFamily(want: Want): Family { if want == Want4 then INET else INET6 }

  predicate NoAddresses(p: Parsed)
  {
    p.status == ENODATA || p.status == EBADRESP
    || (p.status == SUCCESS && p.host.Some? && p.host.value.addresses == [])
  }

  /** An AAAA search for an unspecified family that yields nothing useful is followed by A. */
  predicate FallsBack(want: Want, sent: Family, r: Reply)
  {
    && want == Unspecified && sent == INET6
    && if r.status == SUCCESS then NoAddresses(r.aaaa)
       else r.status == ENODATA || r.status == EBADRESP || r.status == ETIMEOUT
  }

  ghost function SortHost(host: Option<Host>, sortlist: seq<Pattern>, family: Family): Option<Host>
  {
    match host
    case None => None
    case Some(h) => Some(h.(addresses := Sorted(h.addresses, sortlist, family)))
  }

  /** The lookup from here, with `last` the status of the last DNS search. */
  ghost function Resolve(want: Want, sortlist: seq<Pattern>, lookups: seq<char>, files: seq<FileOutcome>, replies: seq<Reply>,
                         last: Status, elapsed: nat): Progress
    requires |files| == |lookups|
    decreases |lookups|, |replies|, 1
  {
    if lookups == [] then Progress([], Some(Call(last, elapsed, None)))
    else if lookups[0] == 'b' then
      Ask(want, sortlist, FirstFamily(want), lookups[1..], files[1..], replies, elapsed)
    else if lookups[0] == 'f' && files[0].Found? then
      Progress([], Some(Call(SUCCESS, elapsed, Some(files[0].host))))
    else Resolve(want, sortlist, lookups[1..], files[1..], replies, last, elapsed)
  }

  ghost function Ask(want: Want, sortlist: seq<Pattern>, sent: Family, lookups: seq<char>, files: seq<FileOutcome>,
                     replies: seq<Reply>, elapsed: nat): Progress
    requires |files| == |lookups|
    decreases |lookups|, |replies|, 2
  {
    if replies == [] then Progress([sent], None)
    else
      var r, rest, elapsed := replies[0], replies[1..], elapsed + replies[0].timeouts;
      After(sent,
            if FallsBack(want, sent, r) then Ask(want, sortlist, INET, lookups, files, rest, elapsed)
            else if r.status == SUCCESS then
              Progress([], Some(Call(r.As(sent).status, elapsed, SortHost(r.As(sent).host, sortlist, sent))))
            else if r.status == EDESTRUCTION then Progress([], Some(Call(EDESTRUCTION, elapsed, None)))
            else Resolve(want, sortlist, lookups, files, rest, r.status, elapsed))
  }

  /** What the lookup does at place p of the lookup string. */
  lemma ResolveHead(want: Want, sortlist: seq<Pattern>, lookups: seq<char>, files: seq<FileOutcome>, p: nat,
                    replies: seq<Reply>, last: Status, elapsed: nat)
    requires |files| == |lookups| && p <= |lookups|
    ensures Resolve(want, sortlist, lookups[p..], files[p..], replies, last, elapsed)
            == if p == |lookups| then Progress([], Some(Call(last, elapsed, None)))
               else if lookups[p] == 'b' then
                 Ask(want, sortlist, FirstFamily(want), lookups[p + 1..], files[p + 1..], replies, elapsed)
               else if lookups[p] == 'f' && files[p].Found? then
                 Progress([], Some(Call(SUCCESS, elapsed, Some(files[p].host))))
               else Resolve(want, sortlist, lookups[p + 1..], files[p + 1..], replies, last, elapsed)
  {
    hide Ask;
    if p < |lookups| {
      assert lookups[p..][1..] == lookups[p + 1..] && files[p..][1..] == files[p + 1..];
    }
  }

  lemma AskHears(want: Want, sortlist: seq<Pattern>, sent: Family, lookups: seq<char>, files: seq<FileOutcome>,
                 r: Reply, replies: seq<Reply>, elapsed: nat)
    requires |files| == |lookups|
    ensures Ask(want, sortlist, sent, lookups, files, [r] + replies, elapsed)
            == After(sent,
                     if FallsBack(want, sent, r) then Ask(want, sortlist, INET, lookups, files, replies, elapsed + r.timeouts)
                     else if r.status == SUCCESS then
                       Progress([], Some(Call(r.As(sent).status, elapsed + r.timeouts, SortHost(r.As(sent).host, sortlist, sent))))
                     else if r.status == EDESTRUCTION then Progress([], Some(Call(EDESTRUCTION, elapsed + r.timeouts, None)))
                     else Resolve(want, sortlist, lookups, files, replies, r.status, elapsed + r.timeouts))
  {
    hide Resolve, SortHost, FallsBack;
    assert ([r] + replies)[1..] == replies;
  }

  function After(sent: Family, p: Progress): Progress { p.(searches := [sent] + p.searches) }

  // ----- Whole lookups

  function SumTimeouts(replies: seq<Reply>): nat
  {
    if replies == [] then 0 else replies[0].timeouts + SumTimeouts(replies[1..])
  }

  function DnsLookups(lookups: seq<char>): nat
  {
    if lookups == [] then 0 else (if lookups[0] == 'b' then 1 else 0) + DnsLookups(lookups[1..])
  }

  /** The i-th lookup finds the host in the hosts file. */
  predicate Hit(lookups: seq<char>, files: seq<FileOutcome>, i: int)
    requires |files| == |lookups|
  {
    0 <= i < |lookups| && lookups[i] == 'f' && files[i].Found?
  }

  /** r DNS lookups are no more than there are, and have passed over no entry of the hosts file. */
  ghost predicate NoHitPassed(lookups: seq<char>, files: seq<FileOutcome>, r: int)
    requires |files| == |lookups|
  {
    r <= DnsLookups(lookups) && forall i | Hit(lookups, files, i) :: r <= DnsLookups(lookups[..i])
  }

  /**
   The call after r DNS lookups that gave no answer: the first entry the hosts file has,
   if that is consulted behind r DNS lookups; if it has none, the failure once all have been made.
   */
  ghost predicate FilesTell(lookups: seq<char>, files: seq<FileOutcome>, r: int, c: Call, failure: Status)
    requires |files| == |lookups|
  {
    if exists i :: Hit(lookups, files, i) then
      exists i | Hit(lookups, files, i) ::
        && (forall j | Hit(lookups, files, j) :: i <= j) && DnsLookups(lookups[..i]) == r
        && c.status == SUCCESS && c.host == Some(files[i].host)
    else DnsLookups(lookups) == r && c.status == failure && c.host == None
  }

  /** What a lookup in front of the others changes, unless it finds the host. */
  lemma LookupInFront(lookups: seq<char>, files: seq<FileOutcome>, r: int, c: Call, failure: Status)
    requires |files| == |lookups| && lookups != [] && !Hit(lookups, files, 0)
    ensures var n := if lookups[0] == 'b' then 1 else 0;
            && (NoHitPassed(lookups[1..], files[1..], r) ==> NoHitPassed(lookups, files, r + n))
            && (FilesTell(lookups[1..], files[1..], r, c, failure) ==> FilesTell(lookups, files, r + n, c, failure))
  {
    hide DnsLookups;
    var n := if lookups[0] == 'b' then 1 else 0;
    var later, laterFiles := lookups[1..], files[1..];
    assert forall i :: Hit(later, laterFiles, i) <==> i >= 0 && Hit(lookups, files, i + 1);
    assert forall i :: Hit(lookups, files, i) ==> i > 0 && Hit(later, laterFiles, i - 1);
    CountInFront(lookups);
  }

  lemma CountInFront(lookups: seq<char>)
    requires lookups != []
    ensures var n := if lookups[0] == 'b' then 1 else 0;
            && DnsLookups(lookups) == n + DnsLookups(lookups[1..])
            && forall i | 0 < i <= |lookups| :: DnsLookups(lookups[..i]) == n + DnsLookups(lookups[1..][..i - 1])
  {
    forall i | 0 < i <= |lookups|
      ensures lookups[..i] != [] && lookups[..i][0] == lookups[0] && lookups[..i][1..] == lookups[1..][..i - 1]
    {
    }
  }

  lemma FoundAtOnce(lookups: seq<char>, files: seq<FileOutcome>, c: Call, failure: Status)
    requires |files| == |lookups| && Hit(lookups, files, 0) && c.status == SUCCESS && c.host == Some(files[0].host)
    ensures NoHitPassed(lookups, files, 0) && FilesTell(lookups, files, 0, c, failure)
  {
  }

  lemma NothingToConsult(c: Call)
    ensures NoHitPassed([], [], 0) && (c.host == None ==> FilesTell([], [], 0, c, c.status))
  {
  }

  /** Whether a search begins the use of another 'b'; the A search after an AAAA search does not. */
  predicate Begins(want: Want, family: Family) { want != Unspecified || family == INET6 }

  /** How many 'b' the searches stand for. */
  function Rounds(want: Want, searches: seq<Family>): nat
  {
    if searches == [] then 0 else (if Begins(want, searches[0]) then 1 else 0) + Rounds(want, searches[1..])
  }

  /** An answer that ends the lookup, unless another search follows it. */
  predicate Conclusive(r: Reply) { r.status == SUCCESS || r.status == EDESTRUCTION }

  /** The parsed answer is handed on, its addresses sorted. */
  ghost predicate HandsOn(sortlist: seq<Pattern>, family: Family, parsed: Parsed, c: Call)
  {
    && c.status == parsed.status
    && match parsed.host
       case None => c.host == None
       case Some(h) => c.host == Some(Host(h.name, h.family, Sorted(h.addresses, sortlist, family)))
  }

  /** An answer that would end the lookup is followed by a search only if that is A after AAAA. */
  ghost predicate GoesOn(want: Want, searches: seq<Family>, replies: seq<Reply>)
  {
    forall i | 0 <= i < |searches| - 1 && i < |replies| && Conclusive(replies[i]) ::
      want == Unspecified && searches[i] == INET6 && searches[i + 1] == INET
  }

  /** The call of a lookup after r DNS lookups: the last answer decides, or else the hosts file. */
  ghost predicate Told(p: Progress, r: int, sortlist: seq<Pattern>, lookups: seq<char>, files: seq<FileOutcome>,
                       replies: seq<Reply>, last: Status, elapsed: nat)
    requires |files| == |lookups|
  {
    var s, n := p.searches, |p.searches|;
    if p.call.None? then n == |replies| + 1
    else
      var c := p.call.value;
      && n <= |replies| && c.timeouts == elapsed + SumTimeouts(replies[..n])
      && if n > 0 && replies[n - 1].status == SUCCESS then
           HandsOn(sortlist, s[n - 1], if s[n - 1] == INET then replies[n - 1].a else replies[n - 1].aaaa, c)
         else if n > 0 && replies[n - 1].status == EDESTRUCTION then c.status == EDESTRUCTION && c.host == None
         else FilesTell(lookups, files, r, c, if n == 0 then last else replies[n - 1].status)
  }

  /** How a lookup comes to its call, for lookups that b 'b' stand in front of. */
  ghost predicate Accounts(p: Progress, b: nat, want: Want, sortlist: seq<Pattern>, lookups: seq<char>, files: seq<FileOutcome>,
                           replies: seq<Reply>, last: Status, elapsed: nat)
    requires |files| == |lookups|
  {
    var r := Rounds(want, p.searches) - b;
    NoHitPassed(lookups, files, r) && GoesOn(want, p.searches, replies)
    && Told(p, r, sortlist, lookups, files, replies, last, elapsed)
  }

  lemma SumFirst(replies: seq<Reply>, n: nat)
    requires replies != [] && n <= |replies| - 1
    ensures SumTimeouts(replies[..n + 1]) == replies[0].timeouts + SumTimeouts(replies[1..][..n])
  {
    assert replies[..n + 1][1..] == replies[1..][..n];
  }

  /** An answer that lets the lookup go on. */
  lemma AccountsAfter(sent: Family, r: Reply, p: Progress, b: nat, want: Want, sortlist: seq<Pattern>, lookups: seq<char>,
                      files: seq<FileOutcome>, replies: seq<Reply>, last: Status, elapsed: nat)
    requires |files| == |lookups| && replies != [] && r == replies[0]
    requires Accounts(p, b, want, sortlist, lookups, files, replies[1..], r.status, elapsed + r.timeouts)
    requires Conclusive(r) ==> want == Unspecified && sent == INET6 && p.searches != [] && p.searches[0] == INET
    ensures Accounts(After(sent, p), b + if Begins(want, sent) then 1 else 0, want, sortlist, lookups, files, replies, last, elapsed)
  {
    hide NoHitPassed, Told, Begins, SumTimeouts, GoesOn, Conclusive;
    var t, s := [sent] + p.searches, p.searches;
    assert t[1..] == s;
    GoesOnAfter(want, sent, r, s, replies);
    ToldAfter(sent, r, p, Rounds(want, s) - b, sortlist, lookups, files, replies, last, elapsed);
  }

  lemma GoesOnAfter(want: Want, sent: Family, r: Reply, s: seq<Family>, replies: seq<Reply>)
    requires replies != [] && r == replies[0] && GoesOn(want, s, replies[1..])
    requires Conclusive(r) ==> want == Unspecified && sent == INET6 && s != [] && s[0] == INET
    ensures GoesOn(want, [sent] + s, replies)
  {
    hide Conclusive;
    OneBehind(sent, s, [sent] + s);
    OneBehind(r, replies[1..], replies);
  }

  lemma ToldAfter(sent: Family, r: Reply, p: Progress, rounds: int, sortlist: seq<Pattern>, lookups: seq<char>, files: seq<FileOutcome>,
                  replies: seq<Reply>, last: Status, elapsed: nat)
    requires |files| == |lookups| && replies != [] && r == replies[0]
    requires Told(p, rounds, sortlist, lookups, files, replies[1..], r.status, elapsed + r.timeouts)
    requires p.searches == [] ==> !Conclusive(r)
    ensures Told(After(sent, p), rounds, sortlist, lookups, files, replies, last, elapsed)
  {
    hide FilesTell, HandsOn, SumTimeouts;
    var n := |p.searches|;
    var t, rest := [sent] + p.searches, replies[1..];
    assert n > 0 ==> t[n] == p.searches[n - 1];
    if p.call.Some? {
      SumFirst(replies, n);
      assert n > 0 ==> replies[n] == rest[n - 1];
    }
  }

  lemma OneBehind<T>(first: T, rest: seq<T>, all: seq<T>)
    requires all != [] && all[0] == first && all[1..] == rest
    ensures |all| == |rest| + 1 && forall i | 0 < i < |all| :: all[i] == rest[i - 1]
  {
  }

  /** A lookup that is not for DNS and finds nothing changes nothing. */
  lemma AccountsSkip(p: Progress, want: Want, sortlist: seq<Pattern>, lookups: seq<char>, files: seq<FileOutcome>,
                     replies: seq<Reply>, last: Status, elapsed: nat)
    requires |files| == |lookups| && lookups != [] && !Hit(lookups, files, 0)
    requires Accounts(p, if lookups[0] == 'b' then 1 else 0, want, sortlist, lookups[1..], files[1..], replies, last, elapsed)
    ensures Accounts(p, 0, want, sortlist, lookups, files, replies, last, elapsed)
  {
    hide NoHitPassed, FilesTell, HandsOn, Hit, SumTimeouts, GoesOn;
    var n := |p.searches|;
    var r := Rounds(want, p.searches) - if lookups[0] == 'b' then 1 else 0;
    var c := if p.call.Some? then p.call.value else Call(last, 0, None);
    LookupInFront(lookups, files, r, c, if 0 < n <= |replies| then replies[n - 1].status else last);
  }

  /**
   The call reports all the timeouts of its searches. It tells of the last answer if that
   ended the lookup, and otherwise of the first entry that the hosts file has, which no
   search passes over, or if there is none of the last failure.
   */
  lemma {:induction false} ResolveAccounts(want: Want, sortlist: seq<Pattern>, lookups: seq<char>, files: seq<FileOutcome>,
                                           replies: seq<Reply>, last: Status, elapsed: nat)
    requires |files| == |lookups|
    ensures Accounts(Resolve(want, sortlist, lookups, files, replies, last, elapsed), 0, want, sortlist, lookups, files,
                     replies, last, elapsed)
    decreases |lookups|, |replies|, 1
  {
    hide Accounts;
    if lookups == [] || Hit(lookups, files, 0) {
      NoSearches(Resolve(want, sortlist, lookups, files, replies, last, elapsed).call.value, want, sortlist, lookups, files,
                 replies, last, elapsed);
    } else {
      if lookups[0] == 'b' {
        AskAccounts(want, sortlist, FirstFamily(want), lookups[1..], files[1..], replies, last, elapsed);
      } else {
        ResolveAccounts(want, sortlist, lookups[1..], files[1..], replies, last, elapsed);
      }
      AccountsSkip(Resolve(want, sortlist, lookups, files, replies, last, elapsed), want, sortlist, lookups, files, replies, last, elapsed);
    }
  }

  lemma NoSearches(c: Call, want: Want, sortlist: seq<Pattern>, lookups: seq<char>, files: seq<FileOutcome>,
                   replies: seq<Reply>, last: Status, elapsed: nat)
    requires |files| == |lookups| && c.timeouts == elapsed
    requires if lookups == [] then c.status == last && c.host == None
             else Hit(lookups, files, 0) && c.status == SUCCESS && c.host == Some(files[0].host)
    ensures Accounts(Progress([], Some(c)), 0, want, sortlist, lookups, files, replies, last, elapsed)
  {
    hide FilesTell, NoHitPassed;
    assert replies[..0] == [];
    if lookups == [] {
      NothingToConsult(c);
    } else {
      FoundAtOnce(lookups, files, c, last);
    }
  }

  lemma {:induction false} AskAccounts(want: Want, sortlist: seq<Pattern>, sent: Family, lookups: seq<char>, files: seq<FileOutcome>,
                                       replies: seq<Reply>, last: Status, elapsed: nat)
    requires |files| == |lookups|
    ensures Accounts(Ask(want, sortlist, sent, lookups, files, replies, elapsed), if Begins(want, sent) then 1 else 0,
                     want, sortlist, lookups, files, replies, last, elapsed)
    ensures var p := Ask(want, sortlist, sent, lookups, files, replies, elapsed); p.searches != [] && p.searches[0] == sent
    decreases |lookups|, |replies|, 2
  {
    hide Accounts, SortHost;
    if replies == [] {
      NothingHeard(sent, want, sortlist, lookups, files, last, elapsed);
    } else {
      var r, rest, later := replies[0], replies[1..], elapsed + replies[0].timeouts;
      if FallsBack(want, sent, r) {
        AskAccounts(want, sortlist, INET, lookups, files, rest, r.status, later);
        AccountsAfter(sent, r, Ask(want, sortlist, INET, lookups, files, rest, later), 0, want, sortlist, lookups, files,
                      replies, last, elapsed);
      } else if Conclusive(r) {
        var p := Ask(want, sortlist, sent, lookups, files, replies, elapsed);
        assert p == Progress([sent], p.call);
        EndsHere(sent, r, p.call.value, want, sortlist, lookups, files, replies, last, elapsed);
      } else {
        ResolveAccounts(want, sortlist, lookups, files, rest, r.status, later);
        AccountsAfter(sent, r, Resolve(want, sortlist, lookups, files, rest, r.status, later), 0, want, sortlist, lookups, files,
                      replies, last, elapsed);
      }
    }
  }

  lemma OneSearch(want: Want, sent: Family, lookups: seq<char>, files: seq<FileOutcome>)
    requires |files| == |lookups|
    ensures Rounds(want, [sent]) == if Begins(want, sent) then 1 else 0
    ensures NoHitPassed(lookups, files, 0)
  {
    assert [sent][1..] == [];
  }

  lemma NothingHeard(sent: Family, want: Want, sortlist: seq<Pattern>, lookups: seq<char>, files: seq<FileOutcome>,
                     last: Status, elapsed: nat)
    requires |files| == |lookups|
    ensures Accounts(Progress([sent], None), if Begins(want, sent) then 1 else 0, want, sortlist, lookups, files, [], last, elapsed)
  {
    OneSearch(want, sent, lookups, files);
  }

  lemma EndsHere(sent: Family, r: Reply, c: Call, want: Want, sortlist: seq<Pattern>, lookups: seq<char>, files: seq<FileOutcome>,
                 replies: seq<Reply>, last: Status, elapsed: nat)
    requires |files| == |lookups| && replies != [] && r == replies[0] && Conclusive(r) && c.timeouts == elapsed + r.timeouts
    requires c.status == (if r.status == SUCCESS then r.As(sent).status else r.status)
    requires c.host == if r.status == SUCCESS then SortHost(r.As(sent).host, sortlist, sent) else None
    ensures Accounts(Progress([sent], Some(c)), if Begins(want, sent) then 1 else 0, want, sortlist, lookups, files, replies, last, elapsed)
  {
    hide NoHitPassed, FilesTell;
    OneSearch(want, sent, lookups, files);
    assert replies[..1] == [r] && [r][1..] == [];
    assert SumTimeouts([r]) == r.timeouts;
  }

  /** Each search asks for the first family, or for A after an answer that calls for it. */
  ghost predicate InSequence(want: Want, searches: seq<Family>, replies: seq<Reply>)
  {
    && |searches| <= |replies| + 1
    && (forall i: nat | 0 < i < |searches| ::
          searches[i] == if FallsBack(want, searches[i - 1], replies[i - 1]) then INET else FirstFamily(want))
    && forall i: nat | i < |searches| && i < |replies| && FallsBack(want, searches[i], replies[i]) :: i + 1 < |searches|
  }

  lemma SequenceAfter(want: Want, sent: Family, searches: seq<Family>, replies: seq<Reply>)
    requires replies != [] && InSequence(want, searches, replies[1..])
    requires searches != [] ==> searches[0] == if FallsBack(want, sent, replies[0]) then INET else FirstFamily(want)
    requires FallsBack(want, sent, replies[0]) ==> searches != []
    ensures InSequence(want, [sent] + searches, replies)
  {
    hide FallsBack;
    var t, rest := [sent] + searches, replies[1..];
    forall i: nat | 0 < i < |t|
      ensures t[i] == if FallsBack(want, t[i - 1], replies[i - 1]) then INET else FirstFamily(want)
    {
      if i > 1 { assert searches[i - 1] == t[i] && searches[i - 2] == t[i - 1] && rest[i - 2] == replies[i - 1]; }
    }
    forall i: nat | i < |t| && i < |replies| && FallsBack(want, t[i], replies[i])
      ensures i + 1 < |t|
    {
      if i > 0 { assert searches[i - 1] == t[i] && rest[i - 1] == replies[i]; }
    }
  }

  lemma {:induction false} ResolveSequence(want: Want, sortlist: seq<Pattern>, lookups: seq<char>, files: seq<FileOutcome>,
                                           replies: seq<Reply>, last: Status, elapsed: nat)
    requires |files| == |lookups|
    ensures var s := Resolve(want, sortlist, lookups, files, replies, last, elapsed).searches;
            InSequence(want, s, replies) && (s != [] ==> s[0] == FirstFamily(want))
    decreases |lookups|, |replies|, 1
  {
    hide FallsBack;
    if lookups != [] {
      if lookups[0] == 'b' {
        AskSequence(want, sortlist, FirstFamily(want), lookups[1..], files[1..], replies, elapsed);
      } else if !(lookups[0] == 'f' && files[0].Found?) {
        ResolveSequence(want, sortlist, lookups[1..], files[1..], replies, last, elapsed);
      }
    }
  }

  lemma {:induction false} AskSequence(want: Want, sortlist: seq<Pattern>, sent: Family, lookups: seq<char>, files: seq<FileOutcome>,
                                       replies: seq<Reply>, elapsed: nat)
    requires |files| == |lookups|
    ensures var s := Ask(want, sortlist, sent, lookups, files, replies, elapsed).searches;
            InSequence(want, s, replies) && s != [] && s[0] == sent
    decreases |lookups|, |replies|, 2
  {
    hide InSequence, FallsBack, SortHost, FirstFamily;
    SequenceStarts(want, sent, replies);
    if replies != [] {
      var r, rest, later := replies[0], replies[1..], elapsed + replies[0].timeouts;
      if FallsBack(want, sent, r) {
        AskSequence(want, sortlist, INET, lookups, files, rest, later);
        SequenceAfter(want, sent, Ask(want, sortlist, INET, lookups, files, rest, later).searches, replies);
      } else if r.status != SUCCESS && r.status != EDESTRUCTION {
        ResolveSequence(want, sortlist, lookups, files, rest, r.status, later);
        SequenceAfter(want, sent, Resolve(want, sortlist, lookups, files, rest, r.status, later).searches, replies);
      }
    }
  }

  lemma SequenceStarts(want: Want, sent: Family, replies: seq<Reply>)
    ensures replies == [] || !FallsBack(want, sent, replies[0]) ==> InSequence(want, [sent], replies)
    ensures [sent] + [] == [sent]
  {
  }

  /** The searches still possible: two for each 'b' of an unspecified family, and a pending fallback. */
  function Budget(want: Want, lookups: seq<char>): nat
  {
    (if want == Unspecified then 2 else 1) * DnsLookups(lookups)
  }

  function Pending(want: Want, sent: Family): nat { if want == Unspecified && sent == INET6 then 1 else 0 }

  lemma {:induction false} ResolveWithinBudget(want: Want, sortlist: seq<Pattern>, lookups: seq<char>, files: seq<FileOutcome>,
                                               replies: seq<Reply>, last: Status, elapsed: nat)
    requires |files| == |lookups|
    ensures |Resolve(want, sortlist, lookups, files, replies, last, elapsed).searches| <= Budget(want, lookups)
    decreases |lookups|, |replies|, 1
  {
    hide FallsBack, SortHost;
    if lookups != [] {
      if lookups[0] == 'b' {
        AskWithinBudget(want, sortlist, FirstFamily(want), lookups[1..], files[1..], replies, elapsed);
      } else if !(lookups[0] == 'f' && files[0].Found?) {
        ResolveWithinBudget(want, sortlist, lookups[1..], files[1..], replies, last, elapsed);
      }
    }
  }

  lemma {:induction false} AskWithinBudget(want: Want, sortlist: seq<Pattern>, sent: Family, lookups: seq<char>, files: seq<FileOutcome>,
                                           replies: seq<Reply>, elapsed: nat)
    requires |files| == |lookups|
    ensures |Ask(want, sortlist, sent, lookups, files, replies, elapsed).searches|
            <= 1 + Pending(want, sent) + Budget(want, lookups)
    decreases |lookups|, |replies|, 2
  {
    hide SortHost;
    if replies != [] {
      var r, rest, later := replies[0], replies[1..], elapsed + replies[0].timeouts;
      if FallsBack(want, sent, r) {
        AskWithinBudget(want, sortlist, INET, lookups, files, rest, later);
      } else if r.status != SUCCESS && r.status != EDESTRUCTION {
        ResolveWithinBudget(want, sortlist, lookups, files, rest, r.status, later);
      }
    }
  }

  // ----- The lookup as the library performs it

  class HostQuery {
    const want: Want
    const sortlist: seq<Pattern>
    const lookups: seq<char>
    /** files[i] is what the hosts file says if lookups[i] consults it. */
    const files: seq<FileOutcome>
    var sent: Option<Family>
    var next: nat
    var timeouts: nat
    var alive: bool
    /** Searches started and callbacks made. */
    var searches: seq<Family>
    var calls: seq<Call>
    /** Host entries allocated and not yet freed. */
    var hosts: nat

    ghost predicate Valid()
      reads this
    {
      && |files| == |lookups| && next <= |lookups|
      && (forall p <- sortlist :: WellFormed(p))
      && want != OtherFamily
      && (if alive then calls == [] else |calls| == 1)
      && hosts == 0
    }

    /** A search is under way and its callback is due. */
    ghost predicate Waiting()
      reads this
    {
      Valid() && alive && sent.Some? && searches != [] && searches[|searches| - 1] == sent.value
    }

    constructor (want: Want, sortlist: seq<Pattern>, lookups: seq<char>, files: seq<FileOutcome>)
      requires |files| == |lookups| && (forall p <- sortlist :: WellFormed(p)) && want != OtherFamily
      ensures Valid() && alive && next == 0 && timeouts == 0 && searches == []
      ensures this.want == want && this.sortlist == sortlist && this.lookups == lookups && this.files == files
    {
      this.want, this.sortlist, this.lookups, this.files := want, sortlist, lookups, files;
      sent, next, timeouts, alive, searches, calls, hosts := None, 0, 0, true, [], [], 0;
    }

    ghost function Answered(replies: seq<Reply>, last: Status): Progress
      requires Valid()
      reads this
    {
      Resolve(want, sortlist, lookups[next..], files[next..], replies, last, timeouts)
    }

    ghost function Asked(replies: seq<Reply>): Progress
      requires Waiting()
      reads this
    {
      Ask(want, sortlist, sent.value, lookups[next..], files[next..], replies, timeouts)
    }

    method EndHquery(status: Status, host: Option<Host>)
      requires alive && calls == [] && hosts == if host.Some? then 1 else 0
      modifies this`alive, this`calls, this`hosts
      ensures !alive && calls == [Call(status, timeouts, host)] && hosts == 0
    {
      calls := calls + [Call(status, timeouts, host)];
      if host.Some? { hosts := hosts - 1; }
      alive := false;
    }

    method Search(family: Family)
      modifies this`sent, this`searches
      ensures sent == Some(family) && searches == old(searches) + [family]
    {
      sent := Some(family);
      searches := searches + [family];
    }

    method NextLookup(code: Status, ghost replies: seq<Reply>)
      requires Valid() && alive
      modifies this
      ensures Valid() && timeouts == old(timeouts)
      ensures alive ==> Waiting() && searches == old(searches) + [sent.value] && old(Answered(replies, code)) == Asked(replies)
      ensures alive ==> next > old(next)
      ensures !alive ==> searches == old(searches) && old(Answered(replies, code)) == Progress([], Some(calls[0]))
    {
      hide Resolve, Ask, WellFormed;
      ghost var goal := Answered(replies, code);
      var p := next;
      while p < |lookups|
        invariant next <= p <= |lookups| && unchanged(this)
        invariant goal == Resolve(want, sortlist, lookups[p..], files[p..], replies, code, timeouts)
      {
        ResolveHead(want, sortlist, lookups, files, p, replies, code, timeouts);
        if lookups[p] == 'b' {
          next := p + 1;
          Search(if want == Want6 || want == Unspecified then INET6 else INET);
          return;
        } else if lookups[p] == 'f' {
          if files[p].Found? {
            hosts := hosts + 1;
            EndHquery(SUCCESS, Some(files[p].host));
            return;
          }
        }
        p := p + 1;
      }
      ResolveHead(want, sortlist, lookups, files, p, replies, code, timeouts);
      EndHquery(code, None);
    }

    method HostCallback(r: Reply, ghost replies: seq<Reply>)
      requires Waiting() && GoodReply(r)
      modifies this
      ensures Valid() && timeouts == old(timeouts) + r.timeouts
      ensures alive ==> Waiting() && searches == old(searches) + [sent.value]
                        && old(Asked([r] + replies)) == After(old(sent.value), Asked(replies))
      ensures alive ==> next > old(next) || (next == old(next) && Pending(want, sent.value) < Pending(want, old(sent.value)))
      ensures !alive ==> searches == old(searches) && old(Asked([r] + replies)) == Progress([old(sent.value)], Some(calls[0]))
    {
      hide Ask, Resolve, SortHost, WellFormed;
      AskHears(want, sortlist, sent.value, lookups[next..], files[next..], r, replies, timeouts);
      timeouts := timeouts + r.timeouts;
      if r.status == SUCCESS {
        var parsed := r.As(sent.value);
        if parsed.host.Some? { hosts := hosts + 1; }
        if sent.value == INET6 && want == Unspecified
           && (parsed.status == ENODATA || parsed.status == EBADRESP
               || (parsed.status == SUCCESS && parsed.host.Some? && parsed.host.value.addresses == [])) {
          if parsed.host.Some? { hosts := hosts - 1; }
          Search(INET);
          return;
        }
        var host := SortedHost(parsed.host, sent.value);
        EndHquery(parsed.status, host);
      } else if (r.status == ENODATA || r.status == EBADRESP || r.status == ETIMEOUT)
                && sent.value == INET6 && want == Unspecified {
        Search(INET);
      } else if r.status == EDESTRUCTION {
        EndHquery(r.status, None);
      } else {
        NextLookup(r.status, replies);
      }
    }

    /** The host entry with its addresses sorted in place, if there is a sortlist. */
    method SortedHost(host: Option<Host>, family: Family) returns (r: Option<Host>)
      requires forall p <- sortlist :: WellFormed(p)
      requires host.Some? ==> forall x <- host.value.addresses :: IsAddress(x, family)
      ensures r == SortHost(host, sortlist, family) && (r.Some? <==> host.Some?)
    {
      hide Sorted, WellFormed, IsAddress;
      r := host;
      if host.Some? {
        if sortlist == [] {
          NoPatterns(host.value.addresses, family);
        } else {
          var given := host.value.addresses;
          var slots := new Address[|given|](i requires 0 <= i < |given| => given[i]);
          assert slots[..] == given;
          SortAddresses(slots, sortlist, family);
          StableIsSorted(given, slots[..], sortlist, family);
          r := Some(host.value.(addresses := slots[..]));
        }
      }
    }
  }
  // ----- The entry point

  function DotCount(name: string): nat
  {
    if name == "" then 0 else DotCount(name[..|name| - 1]) + if name[|name| - 1] == '.' then 1 else 0
  }

  /** Digits and exactly three dots. */
  predicate DottedQuad(name: string)
  {
    (forall c <- name :: IsDigit(c) || c == '.') && DotCount(name) == 3
  }

  /** Four runs of digits, which may be empty, with a dot between each two. */
  lemma QuadIsFourParts(name: string)
    ensures DottedQuad(name)
            <==> exists a, b, c, d | AllDigits(a) && AllDigits(b) && AllDigits(c) && AllDigits(d) ::
                   name == a + "." + b + "." + c + "." + d
  {
    hide DotCount, AllDigits;
    if DottedQuad(name) {
      var abc, d := AtLastDot(name);
      var ab, c := AtLastDot(abc);
      var a, b := AtLastDot(ab);
      NoDotsLeft(a);
      assert name == a + "." + b + "." + c + "." + d;
    }
    forall a, b, c, d | AllDigits(a) && AllDigits(b) && AllDigits(c) && AllDigits(d) && name == a + "." + b + "." + c + "." + d
      ensures DottedQuad(name)
    {
      OneDotMore(a, b); OneDotMore(a + "." + b, c); OneDotMore(a + "." + b + "." + c, d);
      DigitsOnly(a);
    }
  }

  predicate DigitsAndDots(s: string) { forall c <- s :: IsDigit(c) || c == '.' }

  lemma {:induction false} AtLastDot(s: string) returns (before: string, after: string)
    requires DotCount(s) > 0 && DigitsAndDots(s)
    ensures s == before + "." + after && AllDigits(after) && DotCount(before) == DotCount(s) - 1 && DigitsAndDots(before)
    decreases |s|
  {
    var n := |s| - 1;
    assert s == s[..n] + [s[n]];
    if s[n] == '.' {
      before, after := s[..n], "";
    } else {
      assert s[n] in s;
      before, after := AtLastDot(s[..n]);
      after := after + [s[n]];
    }
  }

  lemma {:induction false} NoDotsLeft(s: string)
    requires DotCount(s) == 0 && DigitsAndDots(s)
    ensures AllDigits(s)
  {
    if s != "" {
      var n := |s| - 1;
      NoDotsLeft(s[..n]);
      assert s == s[..n] + [s[n]];
      assert s[n] in s;
    }
  }

  lemma {:induction false} DigitsOnly(s: string)
    requires AllDigits(s)
    ensures DotCount(s) == 0 && DigitsAndDots(s)
  {
    if s != "" {
      assert s[|s| - 1] in s;
      DigitsOnly(s[..|s| - 1]);
    }
  }

  lemma {:induction false} OneDotMore(s: string, digits: string)
    requires AllDigits(digits)
    ensures DotCount(s + "." + digits) == DotCount(s) + 1
    ensures DigitsAndDots(s) ==> DigitsAndDots(s + "." + digits)
    decreases |digits|
  {
    var t := s + "." + digits;
    if digits == "" {
      assert t == s + "." && t[..|s|] == s;
    } else {
      var n := |digits| - 1;
      assert digits[n] in digits;
      OneDotMore(s, digits[..n]);
      assert t[..|t| - 1] == s + "." + digits[..n];
      assert t == s + "." + digits[..n] + [digits[n]];
    }
  }

  const INADDR_NONE := Address([255, 255, 255, 255])

  method IsDottedQuad(name: string) returns (yes: bool)
    ensures yes == DottedQuad(name)
  {
    hide DotCount;
    NoDots();
    var dots, p := 0, 0;
    assert name[..0] == "";
    while p < |name|
      invariant p <= |name| && dots == DotCount(name[..p])
      invariant forall k | 0 <= k < p :: IsDigit(name[k]) || name[k] == '.'
    {
      OneMoreDot(name, p);
      if !IsDigit(name[p]) && name[p] != '.' {
        assert name[p] in name;
        return false;
      } else if name[p] == '.' {
        dots := dots + 1;
      }
      p := p + 1;
    }
    assert name[..p] == name;
    yes := dots == 3;
  }

  lemma NoDots()
    ensures DotCount("") == 0
  {
  }

  lemma OneMoreDot(name: string, p: nat)
    requires p < |name|
    ensures DotCount(name[..p + 1]) == DotCount(name[..p]) + if name[p] == '.' then 1 else 0
  {
    assert name[..p + 1][..p] == name[..p];
  }

  /** A name taken for an IPv4 address, whichever family is asked for; the all-ones address counts as none. */
  ghost predicate Spells4(name: string, want: Want, inet4: Address)
  {
    (want == Want4 || want == Want6) && DottedQuad(name) && inet4.octets != [255, 255, 255, 255]
  }

  /** The host entry of a name that spells an address, given what the name converts to in each family. */
  method FakeHostent(name: string, want: Want, inet4: Address, inet6: Option<Address>) returns (host: Option<Host>)
    ensures Spells4(name, want, inet4) ==> host == Some(Host(name, INET, [inet4]))
    ensures !Spells4(name, want, inet4) && want == Want6 && inet6.Some? ==> host == Some(Host(name, INET6, [inet6.value]))
    ensures host.Some? ==> Spells4(name, want, inet4) || (want == Want6 && inet6.Some?)
  {
    hide DottedQuad;
    host := None;
    var family, result := want, false;
    if want == Want4 || want == Want6 {
      var quad := IsDottedQuad(name);
      if quad {
        result := inet4 != INADDR_NONE;
      }
      if result { family := Want4; }
    }
    if family == Want6 {
      result := inet6.Some?;
    }
    if !result { return; }
    host := Some(if family == Want4 then Host(name, INET, [inet4]) else Host(name, INET6, [inet6.value]));
  }

  /** Starts a lookup and lets its searches be answered by `replies` in turn. */
  method RunLookup(want: Want, sortlist: seq<Pattern>, lookups: seq<char>, files: seq<FileOutcome>, replies: seq<Reply>)
    returns (calls: seq<Call>, searches: seq<Family>)
    requires want != OtherFamily && |files| == |lookups|
    requires (forall p <- sortlist :: WellFormed(p)) && forall r <- replies :: GoodReply(r)
    ensures var p := Resolve(want, sortlist, lookups, files, replies, ECONNREFUSED, 0);
            searches == p.searches && calls == if p.call.Some? then [p.call.value] else []
  {
    hide WellFormed, GoodReply, Resolve, Ask, Pending, Preceded, After;
    NothingBefore();
    var q := new HostQuery(want, sortlist, lookups, files);
    assert lookups[0..] == lookups && files[0..] == files && replies[0..] == replies;
    ghost var goal := Resolve(want, sortlist, lookups, files, replies, ECONNREFUSED, 0);
    q.NextLookup(ECONNREFUSED, replies);
    var k := 0;
    while q.alive && k < |replies|
      invariant k <= |replies| && q.Valid()
      invariant q.want == want && q.sortlist == sortlist && q.lookups == lookups && q.files == files
      invariant if q.alive then q.Waiting() && |q.searches| == k + 1 && goal == Preceded(q.searches[..k], q.Asked(replies[k..]))
                else goal == Progress(q.searches, Some(q.calls[0]))
      invariant fresh(q)
    {
      ghost var earlier, sent := q.searches, q.sent.value;
      assert replies[k..] == [replies[k]] + replies[k + 1..];
      q.HostCallback(replies[k], replies[k + 1..]);
      ghost var later := if q.alive then q.Asked(replies[k + 1..]) else Progress([], Some(q.calls[0]));
      OneMoreSearch(earlier, k, sent, q.searches, later);
      k := k + 1;
    }
    calls, searches := q.calls, q.searches;
    if q.alive {
      assert replies[k..] == [];
      StillWaiting(want, sortlist, q.sent.value, lookups[q.next..], files[q.next..], q.timeouts);
      OneMoreSearch(q.searches, k, q.sent.value, q.searches, Progress([], None));
    }
  }

  /** The searches, written out: which family each asks for, and exactly when A follows AAAA. */
  ghost predicate Searched(want: Want, searches: seq<Family>, replies: seq<Reply>)
  {
    && |searches| <= |replies| + 1
    && (want == Want4 ==> forall f <- searches :: f == INET)
    && (want == Want6 ==> forall f <- searches :: f == INET6)
    && (want == Unspecified ==>
          && (searches != [] ==> searches[0] == INET6)
          && (forall i | 0 <= i < |searches| - 1 && searches[i] == INET :: searches[i + 1] == INET6)
          && forall i | 0 <= i < |searches| && i < |replies| && searches[i] == INET6 ::
               var r := replies[i];
               (i + 1 < |searches| && searches[i + 1] == INET)
               <==> r.status == ENODATA || r.status == EBADRESP || r.status == ETIMEOUT
                    || (r.status == SUCCESS
                        && (r.aaaa.status == ENODATA || r.aaaa.status == EBADRESP
                            || (r.aaaa.status == SUCCESS && r.aaaa.host.Some? && r.aaaa.host.value.addresses == []))))
  }

  lemma SearchesSpelled(want: Want, searches: seq<Family>, replies: seq<Reply>)
    requires want != OtherFamily && InSequence(want, searches, replies) && (searches != [] ==> searches[0] == FirstFamily(want))
    ensures Searched(want, searches, replies)
  {
    if want == Unspecified {
      forall i | 0 <= i < |searches| - 1
        ensures searches[i + 1] == if FallsBack(want, searches[i], replies[i]) then INET else INET6
      {
        var k: nat := i + 1;
        assert 0 < k < |searches|;
      }
      forall i | 0 <= i < |searches| && i < |replies| && FallsBack(want, searches[i], replies[i])
        ensures i + 1 < |searches|
      {
        var k: nat := i;
        assert k < |searches|;
      }
    } else {
      forall i | 0 <= i < |searches|
        ensures searches[i] == FirstFamily(want)
      {
        var k: nat := i;
        assert k > 0 ==> !FallsBack(want, searches[k - 1], replies[k - 1]);
      }
    }
  }

  /** The whole life of a lookup, with `replies` answering its searches in turn. */
  method GetHostByName(name: string, want: Want, inet4: Address, inet6: Option<Address>, sortlist: seq<Pattern>,
                       lookups: seq<char>, files: seq<FileOutcome>, replies: seq<Reply>)
    returns (calls: seq<Call>, searches: seq<Family>)
    requires |files| == |lookups| && (forall p <- sortlist :: WellFormed(p)) && forall r <- replies :: GoodReply(r)
    ensures want == OtherFamily ==> calls == [Call(ENOTIMP, 0, None)] && searches == []
    ensures Spells4(name, want, inet4) ==> calls == [Call(SUCCESS, 0, Some(Host(name, INET, [inet4])))] && searches == []
    ensures !Spells4(name, want, inet4) && want == Want6 && inet6.Some? ==>
              calls == [Call(SUCCESS, 0, Some(Host(name, INET6, [inet6.value])))] && searches == []
    ensures want != OtherFamily && !Spells4(name, want, inet4) && !(want == Want6 && inet6.Some?) ==>
              && |calls| <= 1 && Searched(want, searches, replies)
              && Accounts(Progress(searches, if calls == [] then None else Some(calls[0])), 0, want, sortlist, lookups, files,
                          replies, ECONNREFUSED, 0)
    ensures |replies| >= Budget(want, lookups) ==> |calls| == 1
    ensures |searches| <= Budget(want, lookups)
  {
    hide WellFormed, GoodReply, Resolve, Ask, Accounts, DottedQuad, InSequence, Searched, FirstFamily;
    if want == OtherFamily {
      return [Call(ENOTIMP, 0, None)], [];
    }
    var literal := FakeHostent(name, want, inet4, inet6);
    if literal.Some? {
      return [Call(SUCCESS, 0, literal)], [];
    }
    calls, searches := RunLookup(want, sortlist, lookups, files, replies);
    ghost var p := Resolve(want, sortlist, lookups, files, replies, ECONNREFUSED, 0);
    ResolveWithinBudget(want, sortlist, lookups, files, replies, ECONNREFUSED, 0);
    ResolveAccounts(want, sortlist, lookups, files, replies, ECONNREFUSED, 0);
    ResolveSequence(want, sortlist, lookups, files, replies, ECONNREFUSED, 0);
    SearchesSpelled(want, searches, replies);
    WaitsForMore(p, want, sortlist, lookups, files, replies, ECONNREFUSED, 0);
  }

  lemma WaitsForMore(p: Progress, want: Want, sortlist: seq<Pattern>, lookups: seq<char>, files: seq<FileOutcome>,
                     replies: seq<Reply>, last: Status, elapsed: nat)
    requires |files| == |lookups| && Accounts(p, 0, want, sortlist, lookups, files, replies, last, elapsed)
    ensures p.call.None? ==> |p.searches| == |replies| + 1
  {
    hide NoHitPassed, FilesTell, HandsOn, Rounds;
  }

  ghost function Preceded(before: seq<Family>, p: Progress): Progress { p.(searches := before + p.searches) }

  lemma NothingBefore()
    ensures forall p {:trigger Preceded([], p)} :: Preceded([], p) == p
  {
  }

  /** The search just answered joins those before it. */
  lemma OneMoreSearch(earlier: seq<Family>, k: nat, sent: Family, now: seq<Family>, later: Progress)
    requires |earlier| == k + 1 && earlier[k] == sent && earlier <= now
    ensures Preceded(earlier[..k], After(sent, later)) == Preceded(now[..k + 1], later)
    ensures After(sent, Progress([], later.call)) == Progress([sent], later.call)
    ensures Preceded(earlier[..k], Progress([sent], later.call)) == Progress(earlier, later.call)
  {
    assert earlier[..k] + ([sent] + later.searches) == earlier + later.searches;
    assert now[..k + 1] == earlier;
  }

  lemma StillWaiting(want: Want, sortlist: seq<Pattern>, sent: Family, lookups: seq<char>, files: seq<FileOutcome>, elapsed: nat)
    requires |files| == |lookups|
    ensures Ask(want, sortlist, sent, lookups, files, [], elapsed) == Progress([sent], None)
  {
  }
}
