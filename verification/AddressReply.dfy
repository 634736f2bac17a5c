/**
 Parsing an A reply (c-ares/ares_parse_a_reply.c): the answer loop, the CNAME
 chain, TTL clamping, and the ownership of every block the parser allocates.
 */
module AddressReply {
  import opened Common
  import opened Bytes
  import opened Status
  import opened NameExpansion

  const RRFIXEDSZ := 10
  const C_IN := 1
  const T_A := 1
  const T_CNAME := 5
  const INADDRSZ := 4
  const INT_MAX := 0x7fff_ffff

  // ----- Reading names and records

  /** The name at p in presentation form, and the bytes it occupies there. */
  ghost function NameText(msg: seq<Byte>, p: nat): seq<Byte>
    requires Resolves(msg, p)
  {
    Dotted(Labels(msg, p, HopsToEnd(msg, p)))
  }

  ghost function NameSpan(msg: seq<Byte>, p: nat): (n: nat)
    requires Resolves(msg, p)
    ensures 1 <= n && p + n <= |msg|
  {
    EncodedLength(msg, p, HopsToEnd(msg, p))
  }

  /** One answer record; `target` is the expanded data of a CNAME. */
  datatype Record = Record(owner: seq<Byte>, rtype: int, rclass: int, ttl: int, data: seq<Byte>, target: seq<Byte>)
  {
    predicate IsCname() { rclass == C_IN && rtype == T_CNAME }
    predicate IsAddress() { rclass == C_IN && rtype == T_A && |data| == INADDRSZ }
  }

  datatype Reading = Reading(record: Record, next: nat)

  /** The record at p, unless it is malformed or runs past the message. */
  ghost function ReadRecord(msg: seq<Byte>, p: nat): (r: Option<Reading>)
    ensures r.Some? ==> p < r.value.next <= |msg|
  {
    if !Resolves(msg, p) || p + NameSpan(msg, p) + RRFIXEDSZ > |msg| then None
    else
      var f := p + NameSpan(msg, p);
      var data, len := f + RRFIXEDSZ, Get16(msg, f + 8);
      var cname := Get16(msg, f + 2) == C_IN && Get16(msg, f) == T_CNAME;
      if data + len > |msg| || (cname && !Resolves(msg, data)) then None
      else
        Some(Reading(Record(NameText(msg, p), Get16(msg, f), Get16(msg, f + 2), ToInt32(Get32(msg, f + 4)),
                            msg[data..data + len], if cname then NameText(msg, data) else []),
                     data + len))
  }

  /** How a record is read: its name, its fixed fields and its data, each only if there is room for it. */
  lemma ReadInSteps(msg: seq<Byte>, p: nat)
    ensures !Resolves(msg, p) || p + NameSpan(msg, p) + RRFIXEDSZ > |msg| ==> ReadRecord(msg, p).None?
    ensures Resolves(msg, p) && p + NameSpan(msg, p) + RRFIXEDSZ <= |msg| ==>
              var f := p + NameSpan(msg, p);
              var data, len := f + RRFIXEDSZ, Get16(msg, f + 8);
              var cname := Get16(msg, f + 2) == C_IN && Get16(msg, f) == T_CNAME;
              ReadRecord(msg, p)
              == if data + len > |msg| || (cname && !Resolves(msg, data)) then None
                 else Some(Reading(Record(NameText(msg, p), Get16(msg, f), Get16(msg, f + 2), ToInt32(Get32(msg, f + 4)),
                                          msg[data..data + len], if cname then NameText(msg, data) else []),
                                   data + len))
  {
    hide NameText, NameSpan, Resolves, Get16, Get32, ToInt32;
  }

  /** The n records from p on, if all of them can be read. */
  ghost function ReadRecords(msg: seq<Byte>, p: nat, n: nat): (r: Option<seq<Record>>)
    ensures r.Some? ==> |r.value| == n
    decreases n
  {
    if n == 0 then Some([])
    else
      var first := ReadRecord(msg, p);
      if first.None? then None
      else
        var rest := ReadRecords(msg, first.value.next, n - 1);
        if rest.None? then None else Some([first.value.record] + rest.value)
  }

  // ----- What a list of answer records means

  function Lower(s: seq<Byte>): (r: seq<Byte>)
    ensures |r| == |s|
  {
    seq(|s|, i requires 0 <= i < |s| => if 65 <= s[i] <= 90 then s[i] + 32 else s[i])
  }

  /** strcasecmp(a, b) == 0 on the C strings held in two buffers. */
  predicate SameName(a: seq<Byte>, b: seq<Byte>)
  {
    Lower(BeforeNul(a)) == Lower(BeforeNul(b))
  }

  /** The end of the CNAME chain: the target of the last CNAME, or the question name. */
  function ChainEnd(question: seq<Byte>, records: seq<Record>): seq<Byte>
  {
    if records == [] then question
    else
      var last := records[|records| - 1];
      if last.IsCname() then last.target else ChainEnd(question, records[..|records| - 1])
  }

  /** The address records owned by the chain's end as it was when each was met. */
  function AddressRecords(question: seq<Byte>, records: seq<Record>): (r: seq<Record>)
    ensures |r| <= |records|
    ensures forall a :: a in r ==> a in records && |a.data| == INADDRSZ
  {
    if records == [] then []
    else
      var before, last := records[..|records| - 1], records[|records| - 1];
      AddressRecords(question, before)
      + if last.IsAddress() && SameName(last.owner, ChainEnd(question, before)) then [last] else []
  }

  function Cnames(records: seq<Record>): (r: seq<Record>)
    ensures |r| <= |records|
    ensures forall c :: c in r ==> c in records && c.IsCname()
  {
    if records == [] then []
    else
      var before, last := records[..|records| - 1], records[|records| - 1];
      Cnames(before) + if last.IsCname() then [last] else []
  }

  function Min(a: int, b: int): int { if a < b then a else b }

  /** The TTL imposed by the CNAME chain. */
  function ChainTtl(records: seq<Record>): int
  {
    if records == [] then INT_MAX
    else
      var before, last := records[..|records| - 1], records[|records| - 1];
      if last.IsCname() then Min(ChainTtl(before), last.ttl) else ChainTtl(before)
  }

  lemma {:induction false} ChainTtlIsMinimum(records: seq<Record>)
    ensures ChainTtl(records) <= INT_MAX
    ensures forall c :: c in Cnames(records) ==> ChainTtl(records) <= c.ttl
    ensures ChainTtl(records) == INT_MAX || exists c :: c in Cnames(records) && c.ttl == ChainTtl(records)
  {
    if records != [] {
      var before, last := records[..|records| - 1], records[|records| - 1];
      ChainTtlIsMinimum(before);
      if last.IsCname() {
        assert Cnames(records) == Cnames(before) + [last];
        assert last in Cnames(records);
        if ChainTtl(before) < last.ttl && ChainTtl(before) != INT_MAX {
          var c :| c in Cnames(before) && c.ttl == ChainTtl(before);
          assert c in Cnames(records);
        }
      } else {
        assert Cnames(records) == Cnames(before);
      }
    }
  }

  /** Reading one record more, once n have been read. */
  lemma {:induction false} ReadOneMore(msg: seq<Byte>, p: nat, records: seq<Record>, at: nat, r: Reading)
    requires ReadUpTo(msg, p, records, at) && ReadRecord(msg, at) == Some(r)
    ensures ReadUpTo(msg, p, records + [r.record], r.next)
    decreases |records|
  {
    hide ReadRecord;
    if records == [] {
      assert [] + [r.record] == [r.record];
      assert ReadUpTo(msg, r.next, [], r.next);
    } else {
      assert (records + [r.record])[1..] == records[1..] + [r.record];
      ReadOneMore(msg, ReadRecord(msg, p).value.next, records[1..], at, r);
    }
  }

  /** The records read so far, from p up to the cursor `at`. */
  ghost predicate ReadUpTo(msg: seq<Byte>, p: nat, records: seq<Record>, at: nat)
    decreases |records|
  {
    if records == [] then at == p
    else
      var first := ReadRecord(msg, p);
      first.Some? && first.value.record == records[0] && ReadUpTo(msg, first.value.next, records[1..], at)
  }

  /** What remains to be decided is whether the records after the cursor can be read. */
  lemma {:induction false} ReadTheRest(msg: seq<Byte>, p: nat, records: seq<Record>, at: nat, n: nat)
    requires ReadUpTo(msg, p, records, at) && |records| <= n
    ensures var rest := ReadRecords(msg, at, n - |records|);
            ReadRecords(msg, p, n) == if rest.None? then None else Some(records + rest.value)
    decreases |records|
  {
    hide ReadRecord;
    if records == [] {
      var rest := ReadRecords(msg, at, n);
      assert rest.Some? ==> [] + rest.value == rest.value;
    } else {
      var next := ReadRecord(msg, p).value.next;
      ReadTheRest(msg, next, records[1..], at, n - 1);
      var rest := ReadRecords(msg, at, n - |records|);
      assert rest.Some? ==> [records[0]] + (records[1..] + rest.value) == records + rest.value;
    }
  }

  // ----- Memory

  /** A string block: its address and its characters. */
  datatype Str = Str(id: nat, text: seq<Byte>)

  /** malloc and free. `grants` decides which allocation requests succeed. */
  class Allocator {
    const grants: nat -> bool
    var requests: nat
    var refusals: nat
    var live: set<nat>

    constructor (grants: nat -> bool)
      ensures Valid() && live == {} && this.grants == grants
    {
      this.grants := grants;
      requests, refusals, live := 0, 0, {};
    }

    ghost predicate Valid()
      reads this
    {
      (forall b :: b in live ==> b < requests) && refusals == Refused(grants, requests)
    }

    method Alloc() returns (ok: bool, block: nat)
      requires Valid()
      modifies this
      ensures Valid() && ok == grants(old(requests)) && requests == old(requests) + 1
      ensures refusals == if ok then old(refusals) else old(refusals) + 1
      ensures block !in old(live) && live == if ok then old(live) + {block} else old(live)
    {
      ok, block := grants(requests), requests;
      requests := requests + 1;
      if ok {
        live := live + {block};
      } else {
        refusals := refusals + 1;
      }
    }

    /** Freeing demands a live block, so nothing can be freed twice. */
    method Free(block: nat)
      requires Valid() && block in live
      modifies this`live
      ensures Valid() && live == old(live) - {block}
    {
      live := live - {block};
    }
  }

  /** How many of the first n requests are refused. */
  function Refused(grants: nat -> bool, n: nat): nat
  {
    if n == 0 then 0 else Refused(grants, n - 1) + if grants(n - 1) then 0 else 1
  }

  /** More refusals at the later of two times means a refused request between them. */
  lemma {:induction false} RefusedBetween(grants: nat -> bool, a: nat, b: nat)
    ensures Refused(grants, b) > Refused(grants, a) <==> exists i: nat :: a <= i < b && !grants(i)
    decreases b
  {
    if a < b {
      RefusedGrows(grants, a, b - 1);
      RefusedBetween(grants, a, b - 1);
    } else {
      RefusedGrows(grants, b, a);
    }
  }

  lemma {:induction false} RefusedGrows(grants: nat -> bool, a: nat, b: nat)
    requires a <= b
    ensures Refused(grants, a) <= Refused(grants, b)
    decreases b
  {
    if a < b { RefusedGrows(grants, a, b - 1); }
  }

  /** ares__expand_name_for_response, with its allocation. */
  method ExpandForResponse(msg: seq<Byte>, p: nat, mem: Allocator) returns (status: Status, s: Str, len: nat)
    requires mem.Valid()
    modifies mem
    ensures mem.Valid()
    ensures status == SUCCESS || status == EBADRESP || status == ENOMEM
    ensures status == EBADRESP <==> !Resolves(msg, p)
    ensures mem.refusals == old(mem.refusals) + if status == ENOMEM then 1 else 0
    ensures status == SUCCESS ==> s.text == NameText(msg, p) && len == NameSpan(msg, p)
    ensures status == SUCCESS ==> s.id !in old(mem.live) && mem.live == old(mem.live) + {s.id}
    ensures status != SUCCESS ==> mem.live == old(mem.live)
  {
    s := Str(0, []);
    var text;
    status, text, len := ExpandName(msg, p);
    if status != SUCCESS {
      return EBADRESP, s, 0;
    }
    var ok, block := mem.Alloc();
    if !ok {
      return ENOMEM, s, 0;
    }
    s := Str(block, text[..text.Length - 1]);
  }

  /** Each of the blocks is live, is owned once, and nothing else was added to `base`. */
  ghost predicate Holds(blocks: multiset<nat>, base: set<nat>, live: set<nat>)
  {
    && (forall b :: b in blocks ==> blocks[b] == 1 && b !in base)
    && live == base + set b | b in blocks
  }

  lemma HoldsMore(blocks: multiset<nat>, base: set<nat>, live: set<nat>, b: nat)
    requires Holds(blocks, base, live) && b !in live
    ensures Holds(blocks + multiset{b}, base, live + {b})
  {
  }

  lemma HoldsFewer(blocks: multiset<nat>, base: set<nat>, live: set<nat>, b: nat)
    requires Holds(blocks + multiset{b}, base, live)
    ensures b in live && Holds(blocks, base, live - {b})
  {
    assert b in blocks + multiset{b};
    forall c | c in blocks
      ensures blocks[c] == 1 && c !in base && c != b
    {
      assert c in blocks + multiset{b};
    }
  }

  function Ids(strings: seq<Str>): seq<nat>
  {
    if strings == [] then [] else Ids(strings[..|strings| - 1]) + [strings[|strings| - 1].id]
  }

  /** The blocks owned by a host name, and by the address and alias buffers if there are any. */
  ghost function Owned(hostname: Str, buffers: seq<nat>, aliases: seq<Str>): multiset<nat>
  {
    multiset{hostname.id} + multiset(buffers) + multiset(Ids(aliases))
  }

  lemma OwnedWithBuffers(hostname: Str, first: nat, second: nat, aliases: seq<Str>)
    ensures Owned(hostname, [first, second], aliases)
            == multiset{hostname.id} + multiset{first} + multiset{second} + multiset(Ids(aliases))
  {
    assert [first, second] == [first] + [second];
  }

  lemma OwnedAlone(hostname: Str)
    ensures Owned(hostname, [], []) == multiset{hostname.id}
  {
  }

  lemma OwnedAlias(hostname: Str, buffers: seq<nat>, aliases: seq<Str>, s: Str)
    ensures Owned(hostname, buffers, aliases + [s]) == Owned(hostname, buffers, aliases) + multiset{s.id}
  {
    assert (aliases + [s])[..|aliases|] == aliases;
  }

  datatype AddrTtl = AddrTtl(ip: seq<Byte>, ttl: int)

  /** What the four functions of the record list are for no records, and what one more record makes of them. */
  lemma OneMoreRecord(question: seq<Byte>, seen: seq<Record>, r: Record)
    ensures ChainEnd(question, []) == question && ChainTtl([]) == 0x7fff_ffff && Cnames([]) == [] == AddressRecords(question, [])
    ensures r.IsCname() <==> r.rclass == 1 && r.rtype == 5
    ensures ChainEnd(question, seen + [r]) == if r.IsCname() then r.target else ChainEnd(question, seen)
    ensures ChainTtl(seen + [r]) == if r.IsCname() then Min(ChainTtl(seen), r.ttl) else ChainTtl(seen)
    ensures Cnames(seen + [r]) == if r.IsCname() then Cnames(seen) + [r] else Cnames(seen)
    ensures AddressRecords(question, seen + [r])
            == if r.rclass == 1 && r.rtype == 1 && |r.data| == 4 && SameName(r.owner, ChainEnd(question, seen))
               then AddressRecords(question, seen) + [r] else AddressRecords(question, seen)
  {
    assert (seen + [r])[..|seen|] == seen;
  }

  /** strcasecmp: names are the same if they differ in the case of letters only, up to their first zeros. */
  lemma SameNameIgnoresCase(a: seq<Byte>, b: seq<Byte>)
    requires 0 !in a && 0 !in b
    ensures SameName(a, b)
            <==> |a| == |b| && forall i | 0 <= i < |a| ::
                   a[i] == b[i] || (65 <= a[i] <= 90 && b[i] == a[i] + 32) || (65 <= b[i] <= 90 && a[i] == b[i] + 32)
    ensures forall x, y :: SameName(a + [0] + x, b + [0] + y) == SameName(a, b)
  {
    hide BeforeNul, Lower;
    AllBeforeNul(a, []); AllBeforeNul(b, []);
    assert a + [] == a && b + [] == b;
    forall x, y
      ensures BeforeNul(a + [0] + x) == a && BeforeNul(b + [0] + y) == b
    {
      AllBeforeNul(a, [0] + x); AllBeforeNul(b, [0] + y);
      assert a + [0] + x == a + ([0] + x) && b + [0] + y == b + ([0] + y);
    }
    LowerEqual(a, b);
  }

  lemma LowerEqual(a: seq<Byte>, b: seq<Byte>)
    ensures Lower(a) == Lower(b)
            <==> |a| == |b| && forall i | 0 <= i < |a| ::
                   a[i] == b[i] || (65 <= a[i] <= 90 && b[i] == a[i] + 32) || (65 <= b[i] <= 90 && a[i] == b[i] + 32)
  {
    var x, y := Lower(a), Lower(b);
    forall i | 0 <= i < |a| && i < |b|
      ensures x[i] == y[i] <==> a[i] == b[i] || (65 <= a[i] <= 90 && b[i] == a[i] + 32) || (65 <= b[i] <= 90 && a[i] == b[i] + 32)
    {
    }
    assert x == y <==> |x| == |y| && forall i | 0 <= i < |x| :: x[i] == y[i];
  }

  lemma {:induction false} AllBeforeNul(a: seq<Byte>, rest: seq<Byte>)
    requires 0 !in a && (rest == [] || rest[0] == 0)
    ensures BeforeNul(a + rest) == a
  {
    if a == [] {
      assert a + rest == rest;
    } else {
      assert (a + rest)[1..] == a[1..] + rest;
      AllBeforeNul(a[1..], rest);
    }
  }

  /** The variables of the answer loop. A buffer is a sequence of fixed length; every store is a checked update. */
  class AnswerScan {
    const msg: seq<Byte>
    const mem: Allocator
    const wantHost: bool
    const ancount: nat
    var aptr: nat
    var hostname: Str
    var addrs: seq<seq<Byte>>
    var addrsBlock: nat
    var naddrs: nat
    var aliases: seq<Str>
    var aliasesBlock: nat
    var naliases: nat
    var cnameTtl: int
    var addrttls: seq<AddrTtl>

    constructor (msg: seq<Byte>, mem: Allocator, wantHost: bool, ancount: nat, aptr: nat, hostname: Str,
                 addrsBlock: nat, aliasesBlock: nat, addrttls: seq<AddrTtl>, ghost base: set<nat>)
      requires mem.Valid() && Holds(Owned(hostname, if wantHost then [addrsBlock, aliasesBlock] else [], []), base, mem.live)
      ensures this.msg == msg && this.mem == mem && this.wantHost == wantHost && this.ancount == ancount
      ensures this.aptr == aptr && this.addrttls == addrttls
      ensures Owns(base) && Means(hostname.text, [])
    {
      this.msg, this.mem, this.wantHost, this.ancount := msg, mem, wantHost, ancount;
      this.aptr, this.hostname, this.addrttls := aptr, hostname, addrttls;
      this.addrsBlock, this.aliasesBlock := addrsBlock, aliasesBlock;
      addrs := seq(ancount, _ => []);
      aliases := seq(ancount + 1, _ => Str(0, []));
      naddrs, naliases, cnameTtl := 0, 0, INT_MAX;
      new;
      assert aliases[..naliases] == [];
    }

    ghost function Mine(): multiset<nat>
      requires naliases <= |aliases|
      reads this`hostname, this`addrsBlock, this`aliases, this`aliasesBlock, this`naliases
    {
      Owned(hostname, if wantHost then [addrsBlock, aliasesBlock] else [], if wantHost then aliases[..naliases] else [])
    }

    /** The blocks these variables own are exactly what the call has allocated so far. */
    ghost predicate Owns(base: set<nat>)
      reads this`hostname, this`addrs, this`addrsBlock, this`aliases, this`aliasesBlock, this`naliases, mem
    {
      && mem.Valid() && |addrs| == ancount && |aliases| == ancount + 1 && naliases <= |aliases|
      && Holds(Mine(), base, mem.live)
    }

    /** The address buffers hold these address records. */
    ghost predicate AddressesAre(found: seq<Record>)
      reads this`addrs, this`naddrs, this`addrttls
    {
      && naddrs == |found| <= ancount && |addrs| == ancount
      && (wantHost ==> forall i :: 0 <= i < naddrs ==> addrs[i] == found[i].data)
      && (forall i :: 0 <= i < naddrs && i < |addrttls| ==> addrttls[i] == AddrTtl(found[i].data, found[i].ttl))
    }

    /** The alias buffer holds the owners of these CNAME records. */
    ghost predicate AliasesAre(cnames: seq<Record>)
      reads this`aliases, this`naliases
    {
      && naliases == |cnames| <= ancount && |aliases| == ancount + 1
      && (wantHost ==> forall i :: 0 <= i < naliases ==> aliases[i].text == cnames[i].owner)
    }

    /** The variables say of the records seen so far what the record list means. */
    ghost predicate Means(question: seq<Byte>, seen: seq<Record>)
      reads this
    {
      && hostname.text == ChainEnd(question, seen) && cnameTtl == ChainTtl(seen)
      && AliasesAre(Cnames(seen)) && AddressesAre(AddressRecords(question, seen))
    }

    /** An address record of the current host name. */
    method TakeAddress(data: seq<Byte>, ttl: int, ghost found: seq<Record>, ghost r: Record)
      requires AddressesAre(found) && |found| < ancount && r.data == data && r.ttl == ttl
      modifies this`addrs, this`addrttls, this`naddrs
      ensures AddressesAre(found + [r]) && |addrttls| == |old(addrttls)|
    {
      if wantHost {
        addrs := addrs[naddrs := data];
      }
      if naddrs < |addrttls| {
        addrttls := addrttls[naddrs := AddrTtl(data, ttl)];
      }
      naddrs := naddrs + 1;
    }

    /** A CNAME record: its owner becomes an alias, its target the new host name. */
    method TakeCname(rrName: Str, data: nat, ttl: int, ghost cnames: seq<Record>, ghost r: Record, ghost base: set<nat>)
      returns (status: Status)
      requires AliasesAre(cnames) && |cnames| < ancount && r.owner == rrName.text
      requires mem.Valid() && |addrs| == ancount && |aliases| == ancount + 1
      requires Holds(Mine() + multiset{rrName.id}, base, mem.live)
      modifies this`aliases, this`naliases, this`hostname, this`cnameTtl, mem
      ensures Owns(base) && AliasesAre(cnames + [r])
      ensures status == SUCCESS || status == EBADRESP || status == ENOMEM
      ensures status == EBADRESP <==> !Resolves(msg, data)
      ensures mem.refusals == old(mem.refusals) + if status == ENOMEM then 1 else 0
      ensures status == SUCCESS ==> hostname.text == NameText(msg, data) && cnameTtl == Min(old(cnameTtl), ttl)
    {
      hide Allocator.Valid, Holds, Owned, NameText, Resolves;
      ghost var buffers := if wantHost then [addrsBlock, aliasesBlock] else [];
      if wantHost {
        OwnedAlias(hostname, buffers, aliases[..naliases], rrName);
        aliases := aliases[naliases := rrName];
        assert aliases[..naliases + 1] == old(aliases)[..naliases] + [rrName];
      } else {
        HoldsFewer(Owned(hostname, buffers, []), base, mem.live, rrName.id);
        mem.Free(rrName.id);
      }
      naliases := naliases + 1;
      assert Owns(base);
      var rrData, len;
      status, rrData, len := ExpandForResponse(msg, data, mem);
      if status != SUCCESS {
        return;
      }
      ReplaceHostname(hostname, rrData, buffers, if wantHost then aliases[..naliases] else [], base, mem.live - {rrData.id});
      mem.Free(hostname.id);
      hostname := rrData;
      if cnameTtl > ttl {
        cnameTtl := ttl;
      }
    }

    /** Decodes the record at the cursor up to its data field. */
    method DecodeRecord(ghost base: set<nat>)
      returns (status: Status, rrName: Str, rrType: int, rrClass: int, rrTtl: int, rrLen: nat)
      requires Owns(base)
      modifies this`aptr, mem
      ensures mem.Valid()
      ensures status == SUCCESS || status == EBADRESP || status == ENOMEM
      ensures status != SUCCESS ==> Owns(base)
      ensures status == EBADRESP ==> ReadRecord(msg, old(aptr)).None?
      ensures mem.refusals == old(mem.refusals) + if status == ENOMEM then 1 else 0
      ensures status == SUCCESS ==>
                && aptr + rrLen <= |msg| && naliases <= |aliases|
                && Holds(Mine() + multiset{rrName.id}, base, mem.live)
                && var cname := rrClass == C_IN && rrType == T_CNAME;
                ReadRecord(msg, old(aptr))
                == if cname && !Resolves(msg, aptr) then None
                   else Some(Reading(Record(rrName.text, rrType, rrClass, rrTtl, msg[aptr..aptr + rrLen],
                                            if cname then NameText(msg, aptr) else []),
                                     aptr + rrLen))
    {
      hide Allocator.Valid, AnswerScan.Mine, ReadRecord, Holds, Owned, NameText, NameSpan, Resolves, Get16, Get32, ToInt32;
      ReadInSteps(msg, aptr);
      ghost var mine := Mine();
      rrType, rrClass, rrTtl, rrLen := 0, 0, 0, 0;
      var len;
      status, rrName, len := ExpandForResponse(msg, aptr, mem);
      if status != SUCCESS {
        return;
      }
      HoldsMore(mine, base, old(mem.live), rrName.id);
      aptr := aptr + len;
      if aptr + RRFIXEDSZ > |msg| {
        DropName(rrName, base);
        status := EBADRESP;
        return;
      }
      rrType, rrClass, rrLen := Get16(msg, aptr), Get16(msg, aptr + 2), Get16(msg, aptr + 8);
      rrTtl := ToInt32(Get32(msg, aptr + 4));
      aptr := aptr + RRFIXEDSZ;
      if aptr + rrLen > |msg| {
        DropName(rrName, base);
        status := EBADRESP;
        return;
      }
    }

    /** Frees a record's name that has not been put anywhere. */
    method DropName(rrName: Str, ghost base: set<nat>)
      requires mem.Valid() && |addrs| == ancount && |aliases| == ancount + 1 && naliases <= |aliases|
      requires Holds(Mine() + multiset{rrName.id}, base, mem.live)
      modifies mem`live
      ensures Owns(base)
    {
      hide Allocator.Valid, Holds, Owned;
      HoldsFewer(Mine(), base, mem.live, rrName.id);
      mem.Free(rrName.id);
    }

    /** Uses a decoded record, whose data starts at the cursor. */
    method TakeRecord(rrName: Str, rrType: int, rrClass: int, rrTtl: int, rrLen: nat,
                      ghost question: seq<Byte>, ghost seen: seq<Record>, ghost base: set<nat>)
      returns (status: Status)
      requires mem.Valid() && aptr + rrLen <= |msg| && Means(question, seen) && |seen| < ancount
      requires |addrs| == ancount && |aliases| == ancount + 1 && naliases <= |aliases|
      requires Holds(Mine() + multiset{rrName.id}, base, mem.live)
      modifies this`aliases, this`naliases, this`hostname, this`cnameTtl, this`addrs, this`naddrs, this`addrttls, mem
      ensures Owns(base) && |addrttls| == |old(addrttls)|
      ensures status == SUCCESS || status == EBADRESP || status == ENOMEM
      ensures status == EBADRESP <==> rrClass == C_IN && rrType == T_CNAME && !Resolves(msg, aptr)
      ensures mem.refusals == old(mem.refusals) + if status == ENOMEM then 1 else 0
      ensures status == SUCCESS ==>
                Means(question, seen + [Record(rrName.text, rrType, rrClass, rrTtl, msg[aptr..aptr + rrLen],
                                               if rrClass == C_IN && rrType == T_CNAME then NameText(msg, aptr) else [])])
    {
      hide Allocator.Valid, Holds, Owned, NameText, Resolves, SameName, AddressRecords, Cnames, ChainEnd, ChainTtl, Min, AddressesAre, AliasesAre;
      ghost var target := if rrClass == C_IN && rrType == T_CNAME && Resolves(msg, aptr) then NameText(msg, aptr) else [];
      ghost var r := Record(rrName.text, rrType, rrClass, rrTtl, msg[aptr..aptr + rrLen], target);
      OneMoreRecord(question, seen, r);
      if rrClass == C_IN && rrType == T_A && rrLen == INADDRSZ && SameName(rrName.text, hostname.text) {
        TakeAddress(msg[aptr..aptr + INADDRSZ], rrTtl, AddressRecords(question, seen), r);
      }
      if rrClass == C_IN && rrType == T_CNAME {
        status := TakeCname(rrName, aptr, rrTtl, Cnames(seen), r, base);
      } else {
        DropName(rrName, base);
        status := SUCCESS;
      }
    }

    /** One turn of the answer loop. */
    method ExamineRecord(ghost question: seq<Byte>, ghost seen: seq<Record>, ghost base: set<nat>)
      returns (status: Status)
      requires Owns(base) && Means(question, seen) && |seen| < ancount
      modifies this, mem
      ensures Owns(base) && |addrttls| == |old(addrttls)|
      ensures status == SUCCESS || status == EBADRESP || status == ENOMEM
      ensures status == EBADRESP ==> ReadRecord(msg, old(aptr)).None?
      ensures mem.refusals == old(mem.refusals) + if status == ENOMEM then 1 else 0
      ensures status == SUCCESS ==>
                && ReadRecord(msg, old(aptr)).Some? && aptr == ReadRecord(msg, old(aptr)).value.next
                && Means(question, seen + [ReadRecord(msg, old(aptr)).value.record])
    {
      hide Allocator.Valid, Holds, Owned, NameText, Resolves, ReadRecord, AddressRecords, Cnames, ChainEnd, ChainTtl, AddressesAre, AliasesAre;
      var rrName, rrType, rrClass, rrTtl, rrLen;
      status, rrName, rrType, rrClass, rrTtl, rrLen := DecodeRecord(base);
      if status == SUCCESS {
        status := TakeRecord(rrName, rrType, rrClass, rrTtl, rrLen, question, seen, base);
        aptr := aptr + rrLen;
      }
    }

    /** The answer loop. */
    method ExamineAll(ghost question: seq<Byte>, ghost base: set<nat>) returns (status: Status, ghost seen: seq<Record>)
      requires Owns(base) && Means(question, [])
      modifies this, mem
      ensures Owns(base) && |addrttls| == |old(addrttls)|
      ensures status == SUCCESS || status == EBADRESP || status == ENOMEM
      ensures status == EBADRESP ==> ReadRecords(msg, old(aptr), ancount).None?
      ensures mem.refusals == old(mem.refusals) + if status == ENOMEM then 1 else 0
      ensures status == SUCCESS ==> ReadRecords(msg, old(aptr), ancount) == Some(seen) && Means(question, seen)
    {
      hide Holds, Owned, ReadRecord, AddressRecords, Cnames, ChainEnd, ChainTtl, AddressesAre, AliasesAre;
      status, seen := SUCCESS, [];
      ghost var start := aptr;
      var i := 0;
      while i < ancount
        invariant 0 <= i <= ancount && |seen| == i
        invariant Owns(base) && Means(question, seen) && ReadUpTo(msg, start, seen, aptr)
        invariant |addrttls| == |old(addrttls)| && mem.refusals == old(mem.refusals)
        invariant status == SUCCESS
      {
        ghost var at := aptr;
        ReadTheRest(msg, start, seen, at, ancount);
        status := ExamineRecord(question, seen, base);
        if status != SUCCESS {
          return;
        }
        ReadOneMore(msg, start, seen, at, ReadRecord(msg, at).value);
        seen := seen + [ReadRecord(msg, at).value.record];
        i := i + 1;
      }
      ReadTheRest(msg, start, seen, aptr, ancount);
      assert seen + [] == seen;
    }

    /** No reported TTL outlives the CNAME chain. */
    method ClampTtls() returns (n: nat)
      modifies this`addrttls
      ensures n == if naddrs < |addrttls| then naddrs else |addrttls|
      ensures |addrttls| == |old(addrttls)|
      ensures forall i :: 0 <= i < n ==>
                            addrttls[i] == AddrTtl(old(addrttls)[i].ip, Min(old(addrttls)[i].ttl, cnameTtl))
    {
      n := if naddrs < |addrttls| then naddrs else |addrttls|;
      for i := 0 to n
        invariant |addrttls| == |old(addrttls)|
        invariant forall j :: i <= j < |addrttls| ==> addrttls[j] == old(addrttls)[j]
        invariant forall j :: 0 <= j < i ==>
                                addrttls[j] == AddrTtl(old(addrttls)[j].ip, Min(old(addrttls)[j].ttl, cnameTtl))
      {
        if addrttls[i].ttl > cnameTtl {
          addrttls := addrttls[i := addrttls[i].(ttl := cnameTtl)];
        }
      }
    }

    /** The common exit of every failure: frees all the variables own. */
    method Release(ghost base: set<nat>)
      requires Owns(base)
      modifies mem`live
      ensures mem.Valid() && mem.live == base
    {
      hide Holds, Ids, Owned;
      if wantHost {
        OwnedWithBuffers(hostname, addrsBlock, aliasesBlock, aliases[..naliases]);
        FreeStrings(mem, aliases[..naliases], multiset{hostname.id} + multiset{addrsBlock} + multiset{aliasesBlock}, base);
        FreeOne(mem, aliasesBlock, multiset{hostname.id} + multiset{addrsBlock}, base);
        FreeOne(mem, addrsBlock, multiset{hostname.id}, base);
      } else {
        OwnedAlone(hostname);
      }
      assert multiset{} + multiset{hostname.id} == multiset{hostname.id};
      FreeOne(mem, hostname.id, multiset{}, base);
      HoldsNothing(base, mem.live);
    }
  }

  method FreeOne(mem: Allocator, block: nat, ghost rest: multiset<nat>, ghost base: set<nat>)
    requires mem.Valid() && Holds(rest + multiset{block}, base, mem.live)
    modifies mem`live
    ensures mem.Valid() && Holds(rest, base, mem.live)
  {
    hide Holds;
    HoldsFewer(rest, base, mem.live, block);
    mem.Free(block);
  }

  method FreeStrings(mem: Allocator, strings: seq<Str>, ghost rest: multiset<nat>, ghost base: set<nat>)
    requires mem.Valid() && Holds(rest + multiset(Ids(strings)), base, mem.live)
    modifies mem`live
    ensures mem.Valid() && Holds(rest, base, mem.live)
  {
    hide Holds, Ids;
    assert strings[0..] == strings;
    for i := 0 to |strings|
      invariant mem.Valid() && Holds(rest + multiset(Ids(strings[i..])), base, mem.live)
    {
      IdsFirst(strings[i..]);
      assert strings[i..][1..] == strings[i + 1..];
      assert rest + multiset(Ids(strings[i..])) == (rest + multiset(Ids(strings[i + 1..]))) + multiset{strings[i].id};
      FreeOne(mem, strings[i].id, rest + multiset(Ids(strings[i + 1..])), base);
    }
    NoIds();
    assert rest + multiset([]) == rest;
  }

  lemma NoIds()
    ensures Ids([]) == []
  {
  }

  lemma HoldsNothing(base: set<nat>, live: set<nat>)
    requires Holds(multiset{}, base, live)
    ensures live == base
  {
  }

  lemma {:induction false} IdsFirst(strings: seq<Str>)
    requires strings != []
    ensures Ids(strings) == [strings[0].id] + Ids(strings[1..])
    ensures multiset(Ids(strings)) == multiset{strings[0].id} + multiset(Ids(strings[1..]))
    decreases |strings|
  {
    hide Ids;
    var n := |strings| - 1;
    IdsLast(strings);
    if n > 0 {
      IdsFirst(strings[..n]);
      IdsLast(strings[1..]);
      assert strings[..n][1..] == strings[1..][..n - 1];
    } else {
      NoIds();
      assert strings[..n] == [] && strings[1..] == [];
    }
  }

  lemma IdsLast(strings: seq<Str>)
    requires strings != []
    ensures Ids(strings) == Ids(strings[..|strings| - 1]) + [strings[|strings| - 1].id]
  {
  }

  /** A new host name takes the place of the old one, whose block is freed. */
  lemma ReplaceHostname(hostname: Str, next: Str, buffers: seq<nat>, aliases: seq<Str>, base: set<nat>, live: set<nat>)
    requires Holds(Owned(hostname, buffers, aliases), base, live) && next.id !in live
    ensures hostname.id in live
    ensures Holds(Owned(next, buffers, aliases), base, live + {next.id} - {hostname.id})
  {
    hide Holds;
    HoldsMore(Owned(hostname, buffers, aliases), base, live, next.id);
    assert Owned(hostname, buffers, aliases) + multiset{next.id} == Owned(next, buffers, aliases) + multiset{hostname.id};
    HoldsFewer(Owned(next, buffers, aliases), base, live + {next.id}, hostname.id);
    assert Owned(hostname, buffers, aliases)
           == multiset(buffers) + multiset(Ids(aliases)) + multiset{hostname.id};
    HoldsFewer(multiset(buffers) + multiset(Ids(aliases)), base, live, hostname.id);
  }

  // ----- ares_parse_a_reply

  /** The host entry handed to the caller, with the addresses of its blocks. */
  datatype Hostent = Hostent(block: nat, name: Str, aliases: seq<Str>, aliasesBlock: nat,
                             addrs: seq<seq<Byte>>, addrsBlock: nat, addrListBlock: nat)

  /** The blocks that can be reached from a host entry. Its address buffer hangs off the first address. */
  ghost function Reachable(h: Hostent): multiset<nat>
  {
    Owned(h.name, [h.aliasesBlock], h.aliases) + multiset{h.block} + multiset{h.addrListBlock}
    + if h.addrs == [] then multiset{} else multiset{h.addrsBlock}
  }

  /** The question's name and where the answers start. */
  datatype Question = Question(name: seq<Byte>, answers: nat, ancount: nat)

  ghost function ReadQuestion(msg: seq<Byte>): Option<Question>
  {
    if |msg| < HFIXEDSZ || Get16(msg, 4) != 1 || !Resolves(msg, HFIXEDSZ)
       || HFIXEDSZ + NameSpan(msg, HFIXEDSZ) + QFIXEDSZ > |msg|
    then None
    else Some(Question(NameText(msg, HFIXEDSZ), HFIXEDSZ + NameSpan(msg, HFIXEDSZ) + QFIXEDSZ, Get16(msg, 6)))
  }

  /** All the answer records of a reply, if the reply is well formed. */
  ghost function Answers(msg: seq<Byte>): Option<seq<Record>>
  {
    var q := ReadQuestion(msg);
    if q.None? then None else ReadRecords(msg, q.value.answers, q.value.ancount)
  }

  /** The outcome of parsing, when memory does not run out. */
  ghost function Outcome(msg: seq<Byte>): Status
  {
    var q, records := ReadQuestion(msg), Answers(msg);
    if records.None? then EBADRESP
    else if AddressRecords(q.value.name, records.value) == [] && Cnames(records.value) == [] then ENODATA
    else SUCCESS
  }

  /** Header and question: the host name asked for, and the start of the answers. */
  method BeginParse(msg: seq<Byte>, mem: Allocator) returns (status: Status, hostname: Str, aptr: nat)
    requires mem.Valid()
    modifies mem
    ensures mem.Valid()
    ensures status == SUCCESS || status == EBADRESP || status == ENOMEM
    ensures status == EBADRESP ==> ReadQuestion(msg).None?
    ensures mem.refusals == old(mem.refusals) + if status == ENOMEM then 1 else 0
    ensures status != SUCCESS ==> mem.live == old(mem.live)
    ensures status == SUCCESS ==>
              && |msg| >= HFIXEDSZ && ReadQuestion(msg) == Some(Question(hostname.text, aptr, Get16(msg, 6)))
              && Holds(Owned(hostname, [], []), old(mem.live), mem.live)
  {
    hide Holds, NameText, NameSpan, Resolves, Ids, Owned;
    hostname, aptr := Str(0, []), 0;
    if |msg| < HFIXEDSZ || Get16(msg, 4) != 1 {
      status := EBADRESP;
      return;
    }
    var len;
    status, hostname, len := ExpandForResponse(msg, HFIXEDSZ, mem);
    if status != SUCCESS {
      return;
    }
    if HFIXEDSZ + len + QFIXEDSZ > |msg| {
      mem.Free(hostname.id);
      status := EBADRESP;
      return;
    }
    HoldsOne(old(mem.live), hostname);
    OwnedAlone(hostname);
    aptr := HFIXEDSZ + len + QFIXEDSZ;
  }

  /** The address and alias buffers; on failure the host name is given up too. */
  method AllocBuffers(hostname: Str, mem: Allocator, ghost base: set<nat>)
    returns (status: Status, addrsBlock: nat, aliasesBlock: nat)
    requires mem.Valid() && Holds(Owned(hostname, [], []), base, mem.live)
    modifies mem
    ensures mem.Valid()
    ensures status == SUCCESS || status == ENOMEM
    ensures status == ENOMEM ==> mem.live == base
    ensures mem.refusals == old(mem.refusals) + if status == ENOMEM then 1 else 0
    ensures status == SUCCESS ==> Holds(Owned(hostname, [addrsBlock, aliasesBlock], []), base, mem.live)
  {
    hide Holds, Ids, Owned;
    OwnedAlone(hostname);
    assert multiset{} + multiset{hostname.id} == multiset{hostname.id};
    aliasesBlock := 0;
    var ok;
    ok, addrsBlock := mem.Alloc();
    if !ok {
      FreeOne(mem, hostname.id, multiset{}, base);
      HoldsNothing(base, mem.live);
      status := ENOMEM;
      return;
    }
    HoldsMore(multiset{hostname.id}, base, old(mem.live), addrsBlock);
    ghost var before := mem.live;
    ok, aliasesBlock := mem.Alloc();
    if !ok {
      assert multiset{hostname.id} + multiset{addrsBlock} == multiset{addrsBlock} + multiset{hostname.id};
      FreeOne(mem, hostname.id, multiset{addrsBlock}, base);
      assert multiset{addrsBlock} == multiset{} + multiset{addrsBlock};
      FreeOne(mem, addrsBlock, multiset{}, base);
      HoldsNothing(base, mem.live);
      status := ENOMEM;
      return;
    }
    HoldsMore(multiset{hostname.id} + multiset{addrsBlock}, base, before, aliasesBlock);
    OwnedWithBuffers(hostname, addrsBlock, aliasesBlock, []);
    NoIds();
    assert multiset{hostname.id} + multiset{addrsBlock} + multiset{aliasesBlock} + multiset([])
           == multiset{hostname.id} + multiset{addrsBlock} + multiset{aliasesBlock};
    status := SUCCESS;
  }

  lemma HoldsOne(base: set<nat>, s: Str)
    requires s.id !in base
    ensures Holds(multiset{s.id}, base, base + {s.id})
  {
  }

  /** The caller's last step: two more blocks make the variables into a host entry. */
  method BuildHostent(scan: AnswerScan, ghost base: set<nat>) returns (status: Status, host: Option<Hostent>)
    requires scan.Owns(base) && scan.wantHost && scan.naddrs <= scan.ancount
    modifies scan.mem
    ensures scan.mem.Valid()
    ensures status == SUCCESS || status == ENOMEM
    ensures status == ENOMEM ==> host == None && scan.mem.live == base
    ensures scan.mem.refusals == old(scan.mem.refusals) + if status == ENOMEM then 1 else 0
    ensures status == SUCCESS ==>
              && host.Some? && Holds(Reachable(host.value), base, scan.mem.live)
              && host.value.name == scan.hostname && host.value.aliases == scan.aliases[..scan.naliases]
              && host.value.addrs == scan.addrs[..scan.naddrs]
  {
    hide Holds, Owned, Ids;
    var mem := scan.mem;
    ghost var mine := scan.Mine();
    var ok, block := mem.Alloc();
    if !ok {
      scan.Release(base);
      return ENOMEM, None;
    }
    HoldsMore(mine, base, old(scan.mem.live), block);
    ghost var before := mem.live;
    var listOk, addrListBlock := mem.Alloc();
    if !listOk {
      FreeOne(mem, block, mine, base);
      scan.Release(base);
      return ENOMEM, None;
    }
    HoldsMore(mine + multiset{block}, base, before, addrListBlock);
    var h := Hostent(block, scan.hostname, scan.aliases[..scan.naliases], scan.aliasesBlock,
                     scan.addrs[..scan.naddrs], scan.addrsBlock, addrListBlock);
    ReachableFrom(h, scan.addrsBlock);
    if scan.naddrs == 0 {
      FreeOne(mem, scan.addrsBlock, Reachable(h), base);
    }
    return SUCCESS, Some(h);
  }

  /** ares_free_hostent: gives back everything that can be reached from a host entry. */
  method FreeHostent(h: Hostent, mem: Allocator, ghost base: set<nat>)
    requires mem.Valid() && Holds(Reachable(h), base, mem.live)
    modifies mem`live
    ensures mem.Valid() && mem.live == base
  {
    hide Holds, Ids, Owned;
    ReachableFrom(h, h.addrsBlock);
    OwnedInTurn(h);
    ghost var last := if h.addrs == [] then multiset{} else multiset{h.addrsBlock};
    ghost var lists := multiset{h.block} + multiset{h.addrListBlock} + last;
    FreeOne(mem, h.name.id, multiset(Ids(h.aliases)) + (multiset{h.aliasesBlock} + lists), base);
    assert multiset(Ids(h.aliases)) + (multiset{h.aliasesBlock} + lists) == (lists + multiset{h.aliasesBlock}) + multiset(Ids(h.aliases));
    FreeStrings(mem, h.aliases, lists + multiset{h.aliasesBlock}, base);
    FreeOne(mem, h.aliasesBlock, lists, base);
    if h.addrs != [] {
      FreeOne(mem, h.addrsBlock, multiset{h.block} + multiset{h.addrListBlock}, base);
    }
    assert multiset{h.block} + multiset{h.addrListBlock} + multiset{} == multiset{h.block} + multiset{h.addrListBlock};
    FreeOne(mem, h.addrListBlock, multiset{h.block}, base);
    assert multiset{h.block} == multiset{} + multiset{h.block};
    FreeOne(mem, h.block, multiset{}, base);
    HoldsNothing(base, mem.live);
  }

  lemma OwnedInTurn(h: Hostent)
    ensures var last := if h.addrs == [] then multiset{} else multiset{h.addrsBlock};
            Reachable(h) == multiset(Ids(h.aliases)) + (multiset{h.aliasesBlock} + (multiset{h.block} + multiset{h.addrListBlock} + last))
                            + multiset{h.name.id}
  {
    hide Ids;
    assert multiset([h.aliasesBlock]) == multiset{h.aliasesBlock};
  }

  lemma ReachableFrom(h: Hostent, addrsBlock: nat)
    requires h.addrsBlock == addrsBlock
    ensures Owned(h.name, [addrsBlock, h.aliasesBlock], h.aliases) + multiset{h.block} + multiset{h.addrListBlock}
            == if h.addrs == [] then Reachable(h) + multiset{addrsBlock} else Reachable(h)
  {
    hide Ids;
    OwnedWithBuffers(h.name, addrsBlock, h.aliasesBlock, h.aliases);
    TakeOut(multiset{h.name.id}, multiset{addrsBlock}, multiset{h.aliasesBlock}, multiset(Ids(h.aliases)),
            multiset{h.block}, multiset{h.addrListBlock});
  }

  lemma TakeOut(n: multiset<nat>, a: multiset<nat>, l: multiset<nat>, i: multiset<nat>, b: multiset<nat>, c: multiset<nat>)
    ensures n + a + l + i + b + c == n + l + i + b + c + a
    ensures n + l + i + b + c + multiset{} == n + l + i + b + c
  {
  }

  /** The host entry, TTLs and their number say of the answers what the record list means. */
  ghost predicate Reports(question: seq<Byte>, records: seq<Record>, host: Option<Hostent>, ttls: seq<AddrTtl>, naddrttls: nat)
  {
    var found, cnames := AddressRecords(question, records), Cnames(records);
    && naddrttls == (if |found| < |ttls| then |found| else |ttls|)
    && (forall i :: 0 <= i < naddrttls ==> ttls[i] == AddrTtl(found[i].data, Min(found[i].ttl, ChainTtl(records))))
    && (host.Some? ==>
          var h := host.value;
          && h.name.text == ChainEnd(question, records)
          && |h.aliases| == |cnames| && (forall i :: 0 <= i < |cnames| ==> h.aliases[i].text == cnames[i].owner)
          && |h.addrs| == |found| && (forall i :: 0 <= i < |found| ==> h.addrs[i] == found[i].data))
  }

  /** After the answer loop: report and hand over, or release everything. */
  method FinishReply(scan: AnswerScan, examined: Status, ghost question: seq<Byte>, ghost seen: seq<Record>, ghost base: set<nat>)
    returns (status: Status, host: Option<Hostent>, naddrttls: nat)
    requires scan.Owns(base) && (examined == SUCCESS ==> scan.Means(question, seen))
    modifies scan`addrttls, scan.mem
    ensures scan.mem.Valid() && |scan.addrttls| == |old(scan.addrttls)|
    ensures examined != SUCCESS ==> status == examined
    ensures examined == SUCCESS ==>
              if AddressRecords(question, seen) == [] && Cnames(seen) == [] then status == ENODATA
              else status == SUCCESS || status == ENOMEM
    ensures scan.mem.refusals == old(scan.mem.refusals) + if examined == SUCCESS && status == ENOMEM then 1 else 0
    ensures host.Some? <==> status == SUCCESS && scan.wantHost
    ensures Holds(if host.Some? then Reachable(host.value) else multiset{}, base, scan.mem.live)
    ensures status == SUCCESS ==> Reports(question, seen, host, scan.addrttls, naddrttls)
    ensures status != SUCCESS && status != ENOMEM ==> naddrttls == 0
  {
    hide Holds, Owned, Ids, Reachable, AddressRecords, Cnames, ChainEnd, ChainTtl, Min;
    HoldsEmpty(base);
    status, host, naddrttls := examined, None, 0;
    if status == SUCCESS && scan.naddrs == 0 && scan.naliases == 0 {
      status := ENODATA;
    }
    if status == SUCCESS {
      naddrttls := scan.ClampTtls();
      if scan.wantHost {
        status, host := BuildHostent(scan, base);
        return;
      }
    }
    scan.Release(base);
  }

  /**
   Parses a reply. `addrttls` is the caller's TTL array, empty if either of its
   two pointers is null.
   */
  method ParseAReply(msg: seq<Byte>, wantHost: bool, addrttls: seq<AddrTtl>, mem: Allocator)
    returns (status: Status, host: Option<Hostent>, ttls: seq<AddrTtl>, naddrttls: nat)
    requires mem.Valid()
    modifies mem
    ensures mem.Valid() && |ttls| == |addrttls|
    // The outcome is the reply's, unless one of the call's own requests for memory is refused.
    ensures status != ENOMEM ==> status == Outcome(msg)
    ensures status == ENOMEM <==> exists i: nat :: old(mem.requests) <= i < mem.requests && !mem.grants(i)
    ensures host.Some? <==> status == SUCCESS && wantHost
    // Every block allocated by the call is freed once or reachable once from the host entry.
    ensures Holds(if host.Some? then Reachable(host.value) else multiset{}, old(mem.live), mem.live)
    // What is reported.
    ensures status == SUCCESS ==> Reports(ReadQuestion(msg).value.name, Answers(msg).value, host, ttls, naddrttls)
    ensures status != SUCCESS && status != ENOMEM ==> naddrttls == 0
  {
    hide Refused;
    ghost var requests := mem.requests;
    status, host, ttls, naddrttls := ParseCounting(msg, wantHost, addrttls, mem);
    RefusedBetween(mem.grants, requests, mem.requests);
  }

  /** Parsing a reply and freeing the host entry leaves no block behind, and frees none twice. */
  method ParseThenFree(msg: seq<Byte>, addrttls: seq<AddrTtl>, mem: Allocator) returns (status: Status)
    requires mem.Valid()
    modifies mem
    ensures mem.Valid() && mem.live == old(mem.live)
    ensures status != ENOMEM ==> status == Outcome(msg)
  {
    hide Holds, Outcome, Reports, Refused, Reachable, Answers, ReadQuestion;
    ghost var base := mem.live;
    var host, ttls, naddrttls;
    status, host, ttls, naddrttls := ParseAReply(msg, true, addrttls, mem);
    if host.Some? {
      FreeHostent(host.value, mem, base);
    } else {
      HoldsNothing(base, mem.live);
    }
  }

  /** The parse itself; a refused request is the last one it makes. */
  method ParseCounting(msg: seq<Byte>, wantHost: bool, addrttls: seq<AddrTtl>, mem: Allocator)
    returns (status: Status, host: Option<Hostent>, ttls: seq<AddrTtl>, naddrttls: nat)
    requires mem.Valid()
    modifies mem
    ensures mem.Valid() && |ttls| == |addrttls|
    ensures status != ENOMEM ==> status == Outcome(msg)
    ensures mem.refusals == old(mem.refusals) + if status == ENOMEM then 1 else 0
    ensures host.Some? <==> status == SUCCESS && wantHost
    ensures Holds(if host.Some? then Reachable(host.value) else multiset{}, old(mem.live), mem.live)
    ensures status == SUCCESS ==> Reports(ReadQuestion(msg).value.name, Answers(msg).value, host, ttls, naddrttls)
    ensures status != SUCCESS && status != ENOMEM ==> naddrttls == 0
  {
    hide Holds, Owned, Ids, Reachable, ReadQuestion, ReadRecords, AddressRecords, Cnames, Reports, Refused;
    ghost var base := mem.live;
    HoldsEmpty(base);
    host, ttls, naddrttls := None, addrttls, 0;
    var hostname, aptr;
    status, hostname, aptr := BeginParse(msg, mem);
    if status != SUCCESS {
      return;
    }
    var addrsBlock, aliasesBlock := 0, 0;
    if wantHost {
      status, addrsBlock, aliasesBlock := AllocBuffers(hostname, mem, base);
      if status != SUCCESS {
        return;
      }
    }
    var scan := new AnswerScan(msg, mem, wantHost, Get16(msg, 6), aptr, hostname, addrsBlock, aliasesBlock, addrttls, base);
    ghost var seen;
    status, seen := scan.ExamineAll(hostname.text, base);
    status, host, naddrttls := FinishReply(scan, status, hostname.text, seen, base);
    ttls := scan.addrttls;
  }

  lemma HoldsEmpty(base: set<nat>)
    ensures Holds(multiset{}, base, base)
  {
  }
}
