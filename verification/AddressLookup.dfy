/**
 Looking up the host of an address (c-ares/ares_gethostbyaddr.c) and the name of a
 socket address on top of it (c-ares/ares_getnameinfo.c).
 */
module AddressLookup {
  import opened Common
  import opened Status
  import opened HostLookup
  import opened AddressSort

  /** How one PTR query ends; `parsed` is what the parser makes of its answer. */
  datatype PtrReply = PtrReply(status: Status, timeouts: nat, parsed: Parsed)

  // ----- What a lookup should do

  /** Queries sent so far, and how the lookup ended unless it still waits for a reply. */
  datatype PtrProgress = PtrProgress(queries: nat, call: Option<Call>)

  function AfterQuery(p: PtrProgress): PtrProgress { p.(queries := p.queries + 1) }

  function ResolvePtr(lookups: seq<char>, files: seq<FileOutcome>, replies: seq<PtrReply>, elapsed: nat): PtrProgress
    requires |files| == |lookups|
    decreases |lookups|, 0
  {
    if lookups == [] then PtrProgress(0, Some(Call(ENOTFOUND, elapsed, None)))
    else if lookups[0] == 'b' then AskPtr(lookups[1..], files[1..], replies, elapsed)
    else if lookups[0] == 'f' && files[0].Found? then PtrProgress(0, Some(Call(SUCCESS, elapsed, Some(files[0].host))))
    else ResolvePtr(lookups[1..], files[1..], replies, elapsed)
  }

  function AskPtr(lookups: seq<char>, files: seq<FileOutcome>, replies: seq<PtrReply>, elapsed: nat): PtrProgress
    requires |files| == |lookups|
    decreases |lookups|, 1
  {
    if replies == [] then PtrProgress(1, None)
    else
      var r, elapsed := replies[0], elapsed + replies[0].timeouts;
      AfterQuery(match r.status
            case SUCCESS => PtrProgress(0, Some(Call(r.parsed.status, elapsed, r.parsed.host)))
            case EDESTRUCTION => PtrProgress(0, Some(Call(EDESTRUCTION, elapsed, None)))
            case _ => ResolvePtr(lookups, files, replies[1..], elapsed))
  }

  // ----- Whole lookups

  function SumPtrTimeouts(replies: seq<PtrReply>): nat
  {
    if replies == [] then 0 else replies[0].timeouts + SumPtrTimeouts(replies[1..])
  }

  /**
   How a lookup comes to its call. All replies but perhaps the last one failed; the last
   one, or else the hosts file, decides. No query passes over an entry that the file has.
   */
  ghost predicate AccountsPtr(p: PtrProgress, lookups: seq<char>, files: seq<FileOutcome>, replies: seq<PtrReply>, elapsed: nat)
    requires |files| == |lookups|
  {
    var n := p.queries;
    && NoHitPassed(lookups, files, n)
    && (forall i | 0 <= i < n - 1 && i < |replies| :: replies[i].status != SUCCESS && replies[i].status != EDESTRUCTION)
    && if p.call.None? then n == |replies| + 1
       else
         var c := p.call.value;
         && n <= |replies| && c.timeouts == elapsed + SumPtrTimeouts(replies[..n])
         && if n > 0 && replies[n - 1].status == SUCCESS then
              c.status == replies[n - 1].parsed.status && c.host == replies[n - 1].parsed.host
            else if n > 0 && replies[n - 1].status == EDESTRUCTION then c.status == EDESTRUCTION && c.host == None
            else FilesTell(lookups, files, n, c, ENOTFOUND)
  }

  predicate Failed(r: PtrReply) { r.status != SUCCESS && r.status != EDESTRUCTION }

  /** A failed reply lets the lookup go on. */
  lemma AccountsAfterQuery(r: PtrReply, p: PtrProgress, lookups: seq<char>, files: seq<FileOutcome>, replies: seq<PtrReply>, elapsed: nat)
    requires |files| == |lookups| && lookups != [] && lookups[0] == 'b' && replies != [] && r == replies[0] && Failed(r)
    requires AccountsPtr(p, lookups[1..], files[1..], replies[1..], elapsed + r.timeouts)
    ensures AccountsPtr(AfterQuery(p), lookups, files, replies, elapsed)
  {
    hide NoHitPassed, FilesTell;
    var rest, n := replies[1..], p.queries;
    LookupInFront(lookups, files, n, if p.call.Some? then p.call.value else Call(ENOTFOUND, 0, None), ENOTFOUND);
    OneBehind(r, rest, replies);
    if p.call.Some? {
      assert replies[..n + 1][1..] == rest[..n];
    }
  }

  lemma OneReply(r: PtrReply, c: Call, lookups: seq<char>, files: seq<FileOutcome>, replies: seq<PtrReply>, elapsed: nat)
    requires |files| == |lookups| && lookups != [] && lookups[0] == 'b' && replies != [] && r == replies[0]
    requires c.timeouts == elapsed + r.timeouts
    requires if r.status == SUCCESS then c.status == r.parsed.status && c.host == r.parsed.host
             else r.status == EDESTRUCTION && c.status == EDESTRUCTION && c.host == None
    ensures AccountsPtr(PtrProgress(1, Some(c)), lookups, files, replies, elapsed)
  {
    hide FilesTell, NoHitPassed;
    OneQuery(lookups, files);
    assert replies[..1] == [r] && [r][1..] == [];
    assert SumPtrTimeouts([r]) == r.timeouts;
  }

  lemma OneQuery(lookups: seq<char>, files: seq<FileOutcome>)
    requires |files| == |lookups| && lookups != [] && lookups[0] == 'b'
    ensures NoHitPassed(lookups, files, 1)
  {
    CountInFront(lookups);
  }

  /** A lookup that is not for DNS and finds nothing changes nothing. */
  lemma AccountsSkipPtr(p: PtrProgress, lookups: seq<char>, files: seq<FileOutcome>, replies: seq<PtrReply>, elapsed: nat)
    requires |files| == |lookups| && lookups != [] && lookups[0] != 'b' && !Hit(lookups, files, 0)
    requires AccountsPtr(p, lookups[1..], files[1..], replies, elapsed)
    ensures AccountsPtr(p, lookups, files, replies, elapsed)
  {
    hide NoHitPassed, FilesTell, Hit, SumPtrTimeouts;
    LookupInFront(lookups, files, p.queries, if p.call.Some? then p.call.value else Call(ENOTFOUND, 0, None), ENOTFOUND);
  }

  lemma NoQueries(c: Call, lookups: seq<char>, files: seq<FileOutcome>, replies: seq<PtrReply>, elapsed: nat)
    requires |files| == |lookups| && c.timeouts == elapsed
    requires if lookups == [] then c.status == ENOTFOUND && c.host == None
             else Hit(lookups, files, 0) && c.status == SUCCESS && c.host == Some(files[0].host)
    ensures AccountsPtr(PtrProgress(0, Some(c)), lookups, files, replies, elapsed)
  {
    hide FilesTell, NoHitPassed;
    assert replies[..0] == [];
    if lookups == [] {
      NothingToConsult(c);
    } else {
      FoundAtOnce(lookups, files, c, ENOTFOUND);
    }
  }

  lemma {:induction false} ResolvePtrAccounts(lookups: seq<char>, files: seq<FileOutcome>, replies: seq<PtrReply>, elapsed: nat)
    requires |files| == |lookups|
    ensures AccountsPtr(ResolvePtr(lookups, files, replies, elapsed), lookups, files, replies, elapsed)
    decreases |lookups|
  {
    hide AccountsPtr;
    if lookups == [] || Hit(lookups, files, 0) {
      NoQueries(ResolvePtr(lookups, files, replies, elapsed).call.value, lookups, files, replies, elapsed);
    } else if lookups[0] != 'b' {
      ResolvePtrAccounts(lookups[1..], files[1..], replies, elapsed);
      AccountsSkipPtr(ResolvePtr(lookups, files, replies, elapsed), lookups, files, replies, elapsed);
    } else if replies == [] {
      NothingHeardPtr(lookups, files, elapsed);
    } else if Failed(replies[0]) {
      var later := elapsed + replies[0].timeouts;
      ResolvePtrAccounts(lookups[1..], files[1..], replies[1..], later);
      AccountsAfterQuery(replies[0], ResolvePtr(lookups[1..], files[1..], replies[1..], later), lookups, files, replies, elapsed);
    } else {
      assert ResolvePtr(lookups, files, replies, elapsed) == AskPtr(lookups[1..], files[1..], replies, elapsed);
      OneReply(replies[0], ResolvePtr(lookups, files, replies, elapsed).call.value, lookups, files, replies, elapsed);
    }
  }

  lemma NothingHeardPtr(lookups: seq<char>, files: seq<FileOutcome>, elapsed: nat)
    requires |files| == |lookups| && lookups != [] && lookups[0] == 'b'
    ensures AccountsPtr(PtrProgress(1, None), lookups, files, [], elapsed)
  {
    OneQuery(lookups, files);
  }

  // ----- The lookup as the library performs it

  class AddrQuery {
    const lookups: seq<char>
    /** files[i] is what the hosts file says if lookups[i] consults it. */
    const files: seq<FileOutcome>
    var next: nat
    var timeouts: nat
    var alive: bool
    /** Queries sent and callbacks made. */
    var queries: nat
    var calls: seq<Call>
    /** Host entries allocated and not yet freed. */
    var hosts: nat

    ghost predicate Valid()
      reads this
    {
      && |files| == |lookups| && next <= |lookups|
      && (if alive then calls == [] else |calls| == 1)
      && hosts == 0
    }

    constructor (lookups: seq<char>, files: seq<FileOutcome>)
      requires |files| == |lookups|
      ensures Valid() && alive && next == 0 && timeouts == 0 && queries == 0
      ensures this.lookups == lookups && this.files == files
    {
      this.lookups, this.files := lookups, files;
      next, timeouts, alive, queries, calls, hosts := 0, 0, true, 0, [], 0;
    }

    ghost function Answered(replies: seq<PtrReply>): PtrProgress
      requires Valid()
      reads this
    {
      ResolvePtr(lookups[next..], files[next..], replies, timeouts)
    }

    ghost function Asked(replies: seq<PtrReply>): PtrProgress
      requires Valid()
      reads this
    {
      AskPtr(lookups[next..], files[next..], replies, timeouts)
    }

    method EndAquery(status: Status, host: Option<Host>)
      requires alive && calls == [] && hosts == if host.Some? then 1 else 0
      modifies this`alive, this`calls, this`hosts
      ensures !alive && calls == [Call(status, timeouts, host)] && hosts == 0
    {
      calls := calls + [Call(status, timeouts, host)];
      if host.Some? { hosts := hosts - 1; }
      alive := false;
    }

    method NextLookup(ghost replies: seq<PtrReply>)
      requires Valid() && alive
      modifies this
      ensures Valid() && timeouts == old(timeouts)
      ensures alive ==> next > old(next) && queries == old(queries) + 1 && old(Answered(replies)) == Asked(replies)
      ensures !alive ==> queries == old(queries) && old(Answered(replies)) == PtrProgress(0, Some(calls[0]))
    {
      hide AskPtr;
      ghost var goal := Answered(replies);
      var p := next;
      while p < |lookups|
        invariant next <= p <= |lookups|
        invariant goal == ResolvePtr(lookups[p..], files[p..], replies, timeouts)
      {
        assert lookups[p..][1..] == lookups[p + 1..] && files[p..][1..] == files[p + 1..];
        if lookups[p] == 'b' {
          next := p + 1;
          queries := queries + 1;
          return;
        } else if lookups[p] == 'f' {
          if files[p].Found? {
            hosts := hosts + 1;
            EndAquery(SUCCESS, Some(files[p].host));
            return;
          }
        }
        p := p + 1;
      }
      EndAquery(ENOTFOUND, None);
    }

    method AddrCallback(r: PtrReply, ghost replies: seq<PtrReply>)
      requires Valid() && alive
      modifies this
      ensures Valid() && timeouts == old(timeouts) + r.timeouts
      ensures alive ==> next > old(next) && queries == old(queries) + 1 && old(Asked([r] + replies)) == AfterQuery(Asked(replies))
      ensures !alive ==> queries == old(queries) && old(Asked([r] + replies)) == PtrProgress(1, Some(calls[0]))
    {
      hide ResolvePtr;
      assert ([r] + replies)[1..] == replies;
      timeouts := timeouts + r.timeouts;
      if r.status == SUCCESS {
        if r.parsed.host.Some? { hosts := hosts + 1; }
        EndAquery(r.parsed.status, r.parsed.host);
      } else if r.status == EDESTRUCTION {
        EndAquery(r.status, None);
      } else {
        NextLookup(replies);
      }
    }
  }

  /** An address family, None if it is neither of the two, with the length its addresses must have. */
  predicate Supported(family: Option<Family>, addrlen: int)
  {
    family.Some? && addrlen == if family.value == INET then 4 else 16
  }

  /** A lookup from start to end, with `replies` answering its queries in turn. */
  method GetHostByAddr(family: Option<Family>, addrlen: int, lookups: seq<char>, files: seq<FileOutcome>, replies: seq<PtrReply>)
    returns (calls: seq<Call>, queries: nat)
    requires |files| == |lookups|
    ensures !Supported(family, addrlen) ==> calls == [Call(ENOTIMP, 0, None)] && queries == 0
    ensures Supported(family, addrlen) ==>
              && |calls| <= 1
              && AccountsPtr(PtrProgress(queries, if calls == [] then None else Some(calls[0])), lookups, files, replies, 0)
    ensures |replies| >= DnsLookups(lookups) ==> |calls| == 1
    ensures queries <= DnsLookups(lookups)
  {
    hide ResolvePtr, AskPtr, Failed, FilesTell, Hit;
    if family.None? {
      return [Call(ENOTIMP, 0, None)], 0;
    }
    if (family == Some(INET) && addrlen != 4) || (family == Some(INET6) && addrlen != 16) {
      return [Call(ENOTIMP, 0, None)], 0;
    }
    var q := new AddrQuery(lookups, files);
    assert lookups[0..] == lookups && files[0..] == files && replies[0..] == replies;
    ghost var goal := ResolvePtr(lookups, files, replies, 0);
    q.NextLookup(replies);
    var k := 0;
    while q.alive && k < |replies|
      invariant k <= |replies| && q.Valid() && fresh(q)
      invariant q.lookups == lookups && q.files == files
      invariant if q.alive then q.queries == k + 1 && goal == q.Asked(replies[k..]).(queries := k + q.Asked(replies[k..]).queries)
                else goal == PtrProgress(q.queries, Some(q.calls[0]))
    {
      assert replies[k..] == [replies[k]] + replies[k + 1..];
      q.AddrCallback(replies[k], replies[k + 1..]);
      k := k + 1;
    }
    calls, queries := q.calls, q.queries;
    if q.alive {
      assert replies[k..] == [];
      StillWaitingPtr(lookups[q.next..], files[q.next..], q.timeouts);
    }
    ResolvePtrAccounts(lookups, files, replies, 0);
  }

  lemma StillWaitingPtr(lookups: seq<char>, files: seq<FileOutcome>, elapsed: nat)
    requires |files| == |lookups|
    ensures AskPtr(lookups, files, [], elapsed) == PtrProgress(1, None)
  {
  }

  // ----- Socket addresses

  datatype Flags = Flags(lookupHost: bool, lookupService: bool, numericHost: bool, nameRequired: bool)

  /** The node of a socket address, by name or by its numeric text. */
  datatype Node = Named(host: Option<Host>) | Numeric(text: string) | NoNode

  datatype NameCall = NameCall(status: Status, timeouts: nat, node: Node, service: Option<string>)

  /** How the outcome of the address lookup is reported: the numeric text stands in for a name that is not required. */
  ghost predicate Reports(flags: Flags, ip: string, service: Option<string>, found: Call, c: NameCall)
  {
    c.timeouts == found.timeouts &&
    if found.status == SUCCESS then
      c.status == SUCCESS && c.node == Named(found.host) && c.service == if flags.lookupService then service else None
    else if found.status == ENOTFOUND && !flags.nameRequired then
      c.status == SUCCESS && c.node == Numeric(ip) && c.service == if flags.lookupService then service else None
    else c.status == found.status && c.node == NoNode && c.service == None
  }

  class NameInfoQuery {
    const flags: Flags
    const ip: string
    /** What the service lookup of the port yields. */
    const service: Option<string>
    var timeouts: nat
    var alive: bool
    var calls: seq<NameCall>

    constructor (flags: Flags, ip: string, service: Option<string>)
      ensures this.flags == flags && this.ip == ip && this.service == service && timeouts == 0 && alive && calls == []
    {
      this.flags, this.ip, this.service, timeouts, alive, calls := flags, ip, service, 0, true, [];
    }

    method NameInfoCallback(c: Call)
      requires alive && calls == []
      modifies this
      ensures !alive && timeouts == old(timeouts) + c.timeouts
      ensures |calls| == 1 && Reports(flags, ip, service, c.(timeouts := timeouts), calls[0])
    {
      var wanted := None;
      timeouts := timeouts + c.timeouts;
      if c.status == SUCCESS {
        if flags.lookupService { wanted := service; }
        calls := calls + [NameCall(SUCCESS, timeouts, Named(c.host), wanted)];
        alive := false;
        return;
      } else if c.status == ENOTFOUND && !flags.nameRequired {
        if flags.lookupService { wanted := service; }
        calls := calls + [NameCall(SUCCESS, timeouts, Numeric(ip), wanted)];
        alive := false;
        return;
      }
      calls := calls + [NameCall(c.status, timeouts, NoNode, None)];
      alive := false;
    }
  }

  /** sizeof(struct sockaddr_in) and sizeof(struct sockaddr_in6). */
  const SOCKADDR_IN_SIZE := 16
  const SOCKADDR_IN6_SIZE := 28

  /** The two socket address families, each with its own size. */
  predicate GoodSockaddr(family: Option<Family>, salen: int)
  {
    family.Some? && salen == if family.value == INET then 16 else 28
  }

  /** What the caller gets, by the four ways the flags can be read. */
  ghost predicate Answers(supported: bool, flags: Flags, ip: string, service: Option<string>, p: PtrProgress, c: NameCall)
  {
    if !supported then c == NameCall(ENOTIMP, 0, NoNode, None)
    else if flags.lookupService && !flags.lookupHost then c == NameCall(SUCCESS, 0, NoNode, service)
    else if flags.numericHost then
      if flags.nameRequired then c == NameCall(EBADFLAGS, 0, NoNode, None)
      else c == NameCall(SUCCESS, 0, Numeric(ip), if flags.lookupService then service else None)
    else
      p.call.Some? && Reports(flags, ip, service, p.call.value, c)
  }

  method GetNameInfo(family: Option<Family>, salen: int, given: Flags, ip: string, service: Option<string>, lookups: seq<char>,
                     files: seq<FileOutcome>, replies: seq<PtrReply>)
    returns (calls: seq<NameCall>, ghost lookup: PtrProgress)
    requires |files| == |lookups|
    ensures |calls| <= 1 && (|replies| >= DnsLookups(lookups) ==> |calls| == 1)
    ensures AccountsPtr(lookup, lookups, files, replies, 0)
    ensures forall c <- calls :: Answers(GoodSockaddr(family, salen), given, ip, service, lookup, c)
    // A required name is never replaced by numbers; otherwise "not found" is never reported.
    ensures forall c <- calls :: if given.nameRequired then !c.node.Numeric? else c.status != ENOTFOUND
    // Failures carry nothing, and a service is reported only on request.
    ensures forall c <- calls :: (c.status != SUCCESS ==> c.node == NoNode && c.service == None)
                                 && (c.service.Some? ==> given.lookupService)
  {
    hide AccountsPtr, ResolvePtr;
    lookup := ResolvePtr(lookups, files, replies, 0);
    ResolvePtrAccounts(lookups, files, replies, 0);
    var flags := given;
    calls := [];
    if !(family == Some(INET) && salen == SOCKADDR_IN_SIZE) && !(family == Some(INET6) && salen == SOCKADDR_IN6_SIZE) {
      calls := [NameCall(ENOTIMP, 0, NoNode, None)];
      return;
    }
    if !flags.lookupService && !flags.lookupHost {
      flags := flags.(lookupHost := true);
    }
    if flags.lookupService && !flags.lookupHost {
      calls := [NameCall(SUCCESS, 0, NoNode, service)];
      return;
    }
    if flags.numericHost {
      if flags.nameRequired {
        calls := [NameCall(EBADFLAGS, 0, NoNode, None)];
        return;
      }
      calls := [NameCall(SUCCESS, 0, Numeric(ip), if flags.lookupService then service else None)];
      return;
    }
    var query := new NameInfoQuery(flags, ip, service);
    var ended, queries := GetHostByAddr(family, Width(family.value), lookups, files, replies);
    lookup := PtrProgress(queries, if ended == [] then None else Some(ended[0]));
    if |ended| == 1 {
      query.NameInfoCallback(ended[0]);
    }
    calls := query.calls;
  }

  /** The timeouts reported for a socket address are those of all its queries. */
  lemma NameTimeouts(flags: Flags, ip: string, service: Option<string>, lookups: seq<char>, files: seq<FileOutcome>,
                     replies: seq<PtrReply>, p: PtrProgress, c: NameCall)
    requires |files| == |lookups| && (flags.lookupHost || !flags.lookupService) && !flags.numericHost
    requires AccountsPtr(p, lookups, files, replies, 0) && Answers(true, flags, ip, service, p, c)
    ensures p.queries <= |replies| && p.queries <= DnsLookups(lookups) && c.timeouts == SumPtrTimeouts(replies[..p.queries])
  {
    hide FilesTell;
  }
}
