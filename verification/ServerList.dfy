/**
 The channel's server list as text (c-ares/ares_options.c): scanning
 host[:port][,host[:port]]... in place, and storing and reading back servers.
 */
module ServerList {
  import opened Common
  import opened Status

  const NUL := '\0'

  /** What ares_inet_pton accepts in each family, and what it yields. */
  datatype Resolver = Resolver(v4: map<string, Octets>, v6: map<string, Octets>)

  datatype Node = Node(family: Family, addr: Octets, udpPort: int, tcpPort: int)

  // ----- Numbers

  const LONG_MAX := 0x7fff_ffff

  function DigitValue(c: char): int requires IsDigit(c) { c as int - '0' as int }

  /** The number strtol reads from a text without spaces or sign, saturating. */
  function Strtol(s: string, acc: nat := 0): nat
  {
    if s == "" || !IsDigit(s[0]) then acc
    else
      var v := 10 * acc + DigitValue(s[0]);
      Strtol(s[1..], if v > LONG_MAX then LONG_MAX else v)
  }

  function Decimal(n: nat): string
  {
    (if n < 10 then "" else Decimal(n / 10)) + [(n % 10 + '0' as int) as char]
  }

  lemma {:induction false} DecimalDigits(n: nat)
    ensures AllDigits(Decimal(n)) && Decimal(n) != ""
  {
    if n >= 10 { DecimalDigits(n / 10); }
  }

  lemma {:induction false} StrtolLastDigit(s: string, c: char, acc: nat)
    requires AllDigits(s) && IsDigit(c) && 10 * Strtol(s, acc) + DigitValue(c) <= LONG_MAX
    ensures Strtol(s + [c], acc) == 10 * Strtol(s, acc) + DigitValue(c)
  {
    if s == "" {
      assert (s + [c])[1..] == "";
    } else {
      var v := 10 * acc + DigitValue(s[0]);
      assert (s + [c])[1..] == s[1..] + [c];
      StrtolLastDigit(s[1..], c, if v > LONG_MAX then LONG_MAX else v);
    }
  }

  lemma {:induction false} DecimalReadsBack(n: nat)
    requires n <= LONG_MAX
    ensures Strtol(Decimal(n)) == n
  {
    var c := (n % 10 + '0' as int) as char;
    if n < 10 {
      assert Decimal(n) == "" + [c];
      StrtolLastDigit("", c, 0);
    } else {
      DecimalReadsBack(n / 10);
      DecimalDigits(n / 10);
      StrtolLastDigit(Decimal(n / 10), c, 0);
    }
  }

  /** The number that digits stand for, behind a number already read. */
  function NumberFrom(before: nat, digits: string): nat
    requires AllDigits(digits)
  {
    if digits == "" then before
    else
      assert digits[|digits| - 1] in digits;
      10 * NumberFrom(before, digits[..|digits| - 1]) + (digits[|digits| - 1] as int - '0' as int)
  }

  lemma {:induction false} FirstDigit(before: nat, c: char, digits: string)
    requires IsDigit(c) && AllDigits(digits)
    ensures AllDigits([c] + digits)
    ensures NumberFrom(before, [c] + digits) == NumberFrom(10 * before + (c as int - '0' as int), digits)
    decreases |digits|
  {
    if digits == "" {
      assert [c] + digits == [c] && [c][..0] == "";
      assert NumberFrom(before, "") == before;
    } else {
      var n := |digits| - 1;
      assert ([c] + digits)[..n + 1] == [c] + digits[..n];
      FirstDigit(before, c, digits[..n]);
    }
  }

  lemma {:induction false} NumberGrows(before: nat, digits: string)
    requires AllDigits(digits)
    ensures NumberFrom(before, digits) >= before
  {
    if digits != "" {
      assert digits[|digits| - 1] in digits;
      NumberGrows(before, digits[..|digits| - 1]);
    }
  }

  /** strtol reads digits up to the first other character, and no more than the greatest 32-bit number. */
  lemma {:induction false} StrtolReads(digits: string, rest: string, before: nat := 0)
    requires AllDigits(digits) && (rest == "" || !IsDigit(rest[0])) && before <= 0x7fff_ffff
    ensures var n := NumberFrom(before, digits);
            Strtol(digits + rest, before) == if n > 0x7fff_ffff then 0x7fff_ffff else n
    decreases |digits|
  {
    if digits == "" {
      assert digits + rest == rest && Strtol(rest, before) == before && NumberFrom(before, digits) == before;
    } else {
      var c, more := digits[0], digits[1..];
      assert digits == [c] + more && (digits + rest)[1..] == more + rest && (digits + rest)[0] == c;
      var v := 10 * before + (c as int - '0' as int);
      FirstDigit(before, c, more);
      StrtolReads(more, rest, if v > 0x7fff_ffff then 0x7fff_ffff else v);
      NumberGrows(v, more);
      NumberGrows(0x7fff_ffff, more);
    }
  }

  // ----- One item

  datatype Entry = Entry(host: string, port: int)

  function Colons(s: string): nat
  {
    if s == "" then 0 else Colons(s[..|s| - 1]) + if s[|s| - 1] == ':' then 1 else 0
  }

  /** Just after the last open bracket. */
  function StartHost(s: string): (k: nat)
    ensures k <= |s|
  {
    if s == "" then 0 else if s[|s| - 1] == '[' then |s| else StartHost(s[..|s| - 1])
  }

  /** Where the backward search for a port stops; |s| when it finds that there is none. */
  function FindPort(s: string, start: nat, colons: nat, at: int): (pp: int)
    requires at < |s|
    ensures pp <= |s| && (at >= start ==> pp >= start) && (at < start ==> pp == at)
    decreases at
  {
    if at <= start then at
    else if s[at] == ']' && at + 1 < |s| && s[at + 1] == ':' then at
    else if s[at] == ':' && colons == 1 then at
    else if !(IsDigit(s[at]) || s[at] == ':') then |s|
    else FindPort(s, start, colons, at - 1)
  }

  /** The host and port of an item. */
  function SplitItem(s: string): Entry
  {
    var start, pp := StartHost(s), FindPort(s, StartHost(s), Colons(s), |s| - 1);
    if Colons(s) > 0 && pp != start && pp + 1 < |s| then
      Entry(s[start..pp], Strtol(s[if s[pp] == ']' then pp + 2 else pp + 1..]))
    else Entry(s[start..], 0)
  }

  lemma {:induction false} ColonsConcat(a: string, b: string)
    ensures Colons(a + b) == Colons(a) + Colons(b)
    decreases |b|
  {
    if b == "" {
      assert a + b == a;
    } else {
      assert (a + b)[..|a + b| - 1] == a + b[..|b| - 1];
      ColonsConcat(a, b[..|b| - 1]);
    }
  }

  lemma {:induction false} ColonsZero(s: string)
    ensures Colons(s) == 0 <==> ':' !in s
  {
    if s != "" {
      assert s == s[..|s| - 1] + [s[|s| - 1]];
      ColonsZero(s[..|s| - 1]);
    }
  }

  lemma {:induction false} StartHostBefore(a: string, b: string)
    requires '[' !in b
    ensures StartHost(a + b) == StartHost(a)
    decreases |b|
  {
    if b == "" {
      assert a + b == a;
    } else {
      assert (a + b)[..|a + b| - 1] == a + b[..|b| - 1];
      StartHostBefore(a, b[..|b| - 1]);
    }
  }

  lemma DigitsHaveNoMarks(d: string)
    requires AllDigits(d)
    ensures ':' !in d && '[' !in d && ',' !in d && NUL !in d
  {
  }

  /** Text of an IPv4 address: nothing that the scanner gives a meaning to. */
  predicate PlainHost(h: string) { h != "" && ':' !in h && '[' !in h && ',' !in h && NUL !in h }

  /** Text of an IPv6 address: it has colons and no open bracket. */
  predicate ColonHost(h: string) { ':' in h && '[' !in h && ',' !in h && NUL !in h }

  lemma PlainItemMarks(h: string, t: string)
    requires PlainHost(h) && ':' !in t && '[' !in t
    ensures Colons(h + ":" + t) == 1 && StartHost(h + ":" + t) == 0
  {
    var s := h + ":" + t;
    assert Colons(":") == Colons("") + 1;
    assert StartHost("") == 0 && s == "" + s;
    hide Colons, StartHost;
    ColonsConcat(h + ":", t); ColonsConcat(h, ":"); ColonsZero(h); ColonsZero(t); ColonsZero("");
    StartHostBefore("", s);
  }

  /** The backward search stops at the only colon exactly if there are just digits behind it. */
  lemma {:induction false} FindPortPlain(s: string, c: nat, at: nat)
    requires 0 < c <= at < |s| && s[c] == ':' && forall k | c < k < |s| :: s[k] != ':'
    ensures FindPort(s, 0, 1, at) == if forall k | c < k <= at :: IsDigit(s[k]) then c else |s|
    decreases at
  {
    if at > c && IsDigit(s[at]) { FindPortPlain(s, c, at - 1); }
  }

  /** h:t is split at its colon exactly if t is digits; otherwise all of it is handed on. */
  lemma PlainItem(h: string, t: string)
    requires PlainHost(h) && ':' !in t && '[' !in t
    ensures SplitItem(h + ":" + t) == if t != "" && AllDigits(t) then Entry(h, Strtol(t)) else Entry(h + ":" + t, 0)
  {
    hide Strtol, Colons, StartHost, FindPort, SplitItem, AllDigits;
    var s := h + ":" + t;
    PlainParts(h, t);
    PlainItemMarks(h, t);
    SplitWith(s);
    FindPortPlain(s, |h|, |s| - 1);
  }

  lemma PlainParts(h: string, t: string)
    requires ':' !in t
    ensures var s := h + ":" + t;
            && s[|h|] == ':' && s[..|h|] == h && s[|h| + 1..] == t && s[0..] == s && |s| == |h| + 1 + |t|
            && (forall k | |h| < k < |s| :: s[k] != ':')
            && (AllDigits(t) <==> forall k | |h| < k < |s| :: IsDigit(s[k]))
  {
    var s := h + ":" + t;
    forall k | |h| < k < |s| ensures s[k] == t[k - |h| - 1] {}
    assert forall i | 0 <= i < |t| :: t[i] == s[|h| + 1 + i];
  }

  /** host:port is split at its colon. */
  lemma PlainItemSplits(h: string, d: string)
    requires PlainHost(h) && AllDigits(d) && d != ""
    ensures SplitItem(h + ":" + d) == Entry(h, Strtol(d))
  {
    hide Strtol, SplitItem;
    DigitsHaveNoMarks(d);
    PlainItem(h, d);
  }

  predicate PortText(c: char) { IsDigit(c) || c == ':' }

  /** Colon and digits or colons: what must follow a bracket for it to end the host. */
  predicate PortFollows(t: string)
  {
    t != "" && t[0] == ':' && forall c <- t :: PortText(c)
  }

  /**
   The backward search stays at or after a closing bracket, and stops at the bracket
   exactly when a colon follows it and it has met only digits and colons.
   */
  lemma {:induction false} FindPortFrom(s: string, colons: nat, b: nat, at: nat)
    requires 1 < b <= at < |s| && s[b] == ']' && (forall k | b < k < |s| :: s[k] == ':' ==> colons != 1)
    ensures var pp := FindPort(s, 1, colons, at);
            && pp >= b && (pp == b <==> b + 1 < |s| && s[b + 1] == ':' && forall k | b < k <= at :: PortText(s[k]))
            && (pp == b || pp == |s| || exists k | b < k <= at :: s[k] == ']')
    decreases at
  {
    if at > b && PortText(s[at]) { FindPortFrom(s, colons, b, at - 1); }
  }

  lemma BracketItemMarks(h: string, t: string)
    requires ColonHost(h) && '[' !in t
    ensures var s := "[" + h + "]" + t;
            Colons(s) >= 1 && StartHost(s) == 1 && (':' in t ==> Colons(s) >= 2)
  {
    var s, u := "[" + h + "]" + t, h + "]" + t;
    assert StartHost("[") == 1 && s == "[" + u && s == ("[" + h) + ("]" + t);
    hide Colons, StartHost;
    ColonsConcat("[" + h, "]" + t); ColonsConcat("[", h); ColonsConcat("]", t); ColonsZero(h); ColonsZero(t);
    StartHostBefore("[", u);
  }

  /**
   The host of [h]t is read as h exactly when t is a colon with nothing but digits and
   colons behind it. Otherwise more than h is handed on: all of it, if t has no bracket.
   */
  lemma BracketItem(h: string, t: string)
    requires ColonHost(h) && '[' !in t
    ensures SplitItem("[" + h + "]" + t).host == h <==> PortFollows(t)
    ensures PortFollows(t) ==> SplitItem("[" + h + "]" + t) == Entry(h, Strtol(t[1..]))
    ensures !PortFollows(t) && ']' !in t ==> SplitItem("[" + h + "]" + t) == Entry(h + "]" + t, 0)
  {
    hide Strtol, Colons, StartHost, SplitItem, PortFollows;
    BracketItemMarks(h, t);
    BracketParts(h, t);
    SplitsAfterBracket("[" + h + "]" + t, |h| + 1, t);
  }

  /** An item whose host starts at 1 and that has a closing bracket at b, with t behind it. */
  lemma SplitsAfterBracket(s: string, b: nat, t: string)
    requires 1 < b < |s| && s[b] == ']' && s[b + 1..] == t
    requires StartHost(s) == 1 && Colons(s) >= 1 && (':' in t ==> Colons(s) >= 2)
    ensures |SplitItem(s).host| == b - 1 <==> PortFollows(t)
    ensures PortFollows(t) ==> SplitItem(s) == Entry(s[1..b], Strtol(t[1..]))
    ensures !PortFollows(t) && ']' !in t ==> SplitItem(s) == Entry(s[1..], 0)
  {
    hide Strtol, Colons, StartHost, FindPort, SplitItem, PortFollows, PortText;
    SplitWith(s);
    TailFrom(s, b, t);
    FindPortFrom(s, Colons(s), b, |s| - 1);
    PortNotEmpty(t);
  }

  lemma PortNotEmpty(t: string)
    ensures PortFollows(t) ==> t != ""
  {
  }

  lemma BracketParts(h: string, t: string)
    requires h != ""
    ensures var s, b := "[" + h + "]" + t, |h| + 1;
            1 < b < |s| == b + 1 + |t| && s[b] == ']' && s[1..b] == h && s[b + 1..] == t && s[1..] == h + "]" + t
  {
  }

  lemma TailFrom(s: string, b: nat, t: string)
    requires b < |s| && s[b + 1..] == t
    ensures PortFollows(t) <==> b + 1 < |s| && s[b + 1] == ':' && forall k | b < k < |s| :: PortText(s[k])
    ensures t != "" ==> s[b + 2..] == t[1..]
    ensures forall k | b < k < |s| :: s[k] in t
  {
    hide PortText;
    forall k | b < k < |s| ensures s[k] == t[k - b - 1] {}
    assert forall i | 0 <= i < |t| :: t[i] == s[b + 1 + i];
    assert t != "" ==> s[b + 2..] == s[b + 1..][1..];
  }

  /** [host]:port is split at its bracket. */
  lemma BracketItemSplits(h: string, d: string)
    requires ColonHost(h) && AllDigits(d) && d != ""
    ensures SplitItem("[" + h + "]:" + d) == Entry(h, Strtol(d))
  {
    hide Strtol, SplitItem;
    DigitsHaveNoMarks(d);
    BracketItem(h, ":" + d);
    assert (":" + d)[1..] == d;
    assert "[" + h + "]:" + d == "[" + h + "]" + (":" + d);
  }

  /** A bracketed address with nothing behind it is handed on with its closing bracket. */
  lemma BracketWithoutPort(h: string)
    requires ColonHost(h)
    ensures SplitItem("[" + h + "]") == Entry(h + "]", 0)
  {
    hide SplitItem;
    BracketItem(h, "");
    assert "[" + h + "]" + "" == "[" + h + "]" && h + "]" + "" == h + "]";
  }

  /** Without brackets the search finds no port unless there is exactly one colon. */
  lemma {:induction false} FindPortNone(s: string, colons: nat, at: nat)
    requires ']' !in s && colons != 1 && at < |s|
    ensures FindPort(s, 0, colons, at) == 0 || FindPort(s, 0, colons, at) == |s|
    decreases at
  {
    if at > 0 {
      assert s[at] in s;
      FindPortNone(s, colons, at - 1);
    }
  }

  /** A host without brackets and without a port: a name has no colon, an IPv6 address more than one. */
  lemma BareItem(h: string)
    requires '[' !in h && ']' !in h && Colons(h) != 1
    ensures SplitItem(h) == Entry(h, 0)
  {
    hide Colons, StartHost, FindPort, Strtol, SplitItem;
    assert "" + h == h && h[0..] == h;
    StartHostBefore("", h);
    NoStart();
    SplitWith(h);
    if h != "" { FindPortNone(h, Colons(h), |h| - 1); }
    NoColons();
  }

  lemma NoStart()
    ensures StartHost("") == 0
  {
  }

  lemma NoColons()
    ensures Colons("") == 0
  {
  }

  // ----- The list

  datatype Scan = Scan(items: seq<string>, rest: string)

  /** The items ended by commas, and what follows the last comma. */
  function Split(s: string): Scan
  {
    if s == "" then Scan([], "")
    else
      var p, c := Split(s[..|s| - 1]), s[|s| - 1];
      if c == ',' then Scan(p.items + [p.rest], "") else Scan(p.items, p.rest + [c])
  }

  function EndWithComma(csv: string): string
  {
    if csv != "" && csv[|csv| - 1] == ',' then csv else csv + ","
  }

  /** The server an item names: IPv4 is tried first. */
  function NodeOf(r: Resolver, e: Entry, usePort: bool): Option<Node>
  {
    var port := if usePort then e.port else 0;
    if e.host in r.v4 then Some(Node(INET, r.v4[e.host], port, port))
    else if e.host in r.v6 then Some(Node(INET6, r.v6[e.host], port, port))
    else None
  }

  /** All the servers, unless some item names none. */
  function NodesOf(r: Resolver, items: seq<string>, usePort: bool): Option<seq<Node>>
  {
    if items == [] then Some([])
    else
      match NodesOf(r, items[..|items| - 1], usePort)
      case None => None
      case Some(nodes) =>
        match NodeOf(r, SplitItem(items[|items| - 1]), usePort)
        case None => None
        case Some(node) => Some(nodes + [node])
  }

  predicate Known(r: Resolver, host: string) { host in r.v4 || host in r.v6 }

  /** The server of one item: IPv4 before IPv6, and both ports from the item or else zero. */
  ghost predicate IsNodeOf(r: Resolver, item: string, usePort: bool, n: Node)
  {
    var e := SplitItem(item);
    && Known(r, e.host)
    && n.family == (if e.host in r.v4 then INET else INET6)
    && n.addr == (if e.host in r.v4 then r.v4[e.host] else r.v6[e.host])
    && n.udpPort == n.tcpPort == if usePort then e.port else 0
  }

  /** The list has servers if every item names one, and then just these. */
  lemma {:induction false} NodesAre(r: Resolver, items: seq<string>, usePort: bool)
    ensures NodesOf(r, items, usePort).Some? <==> forall item <- items :: Known(r, SplitItem(item).host)
    ensures NodesOf(r, items, usePort).Some? ==>
              var nodes := NodesOf(r, items, usePort).value;
              |nodes| == |items| && forall k | 0 <= k < |items| :: IsNodeOf(r, items[k], usePort, nodes[k])
  {
    hide SplitItem;
    if items != [] {
      var before, item := items[..|items| - 1], items[|items| - 1];
      assert items == before + [item];
      NodesAre(r, before, usePort);
      assert item in items && forall i <- before :: i in items;
    }
  }

  lemma {:induction false} NodesOfPrefix(r: Resolver, items: seq<string>, usePort: bool, k: nat)
    requires k <= |items| && NodesOf(r, items[..k], usePort).None?
    ensures NodesOf(r, items, usePort).None?
    decreases |items|
  {
    hide SplitItem, NodeOf;
    if k < |items| {
      assert items[..|items| - 1][..k] == items[..k];
      NodesOfPrefix(r, items[..|items| - 1], usePort, k);
    } else {
      assert items[..k] == items;
    }
  }

  lemma {:induction false} SplitGrows(s: string, k: nat)
    requires k <= |s|
    ensures Split(s[..k]).items <= Split(s).items
    decreases |s|
  {
    if k < |s| {
      assert s[..|s| - 1][..k] == s[..k];
      SplitGrows(s[..|s| - 1], k);
    } else {
      assert s[..k] == s;
    }
  }

  // ----- Scanning in place

  /** What a C function sees of the characters at a pointer. */
  function UpToNul(s: seq<char>): string
  {
    if s == [] || s[0] == NUL then "" else [s[0]] + UpToNul(s[1..])
  }

  lemma {:induction false} UpToNulIs(s: seq<char>, k: nat)
    requires k < |s| && s[k] == NUL && NUL !in s[..k]
    ensures UpToNul(s) == s[..k]
  {
    if k > 0 {
      assert s[0] in s[..k];
      assert s[1..][..k - 1] == s[..k][1..];
      UpToNulIs(s[1..], k - 1);
    }
  }

  /** The text from start to the first of the zeros that ended an item of the buffer. */
  lemma TextAt(buf: seq<char>, start: nat, end: nat, text: string)
    requires start <= end < |buf| && buf[end] == NUL && buf[start..end] == text && NUL !in text
    ensures UpToNul(buf[start..]) == text
  {
    assert buf[start..][..end - start] == text;
    UpToNulIs(buf[start..], end - start);
  }

  /** Searches backwards for the port of the item that ends at ptr. */
  method FindPortBackwards(buf: array<char>, ghost lo: nat, start: nat, ptr: nat, cc: nat, ghost item: string)
    returns (pp: int, p: int)
    requires lo <= start <= ptr < buf.Length && buf[lo..ptr] == item && buf[ptr] == NUL && cc > 0
    ensures pp == lo + FindPort(item, start - lo, cc, |item| - 1)
    ensures p == if pp == ptr then ptr else pp + 1
  {
    pp, p := ptr - 1, ptr;
    while pp > start
      invariant lo - 1 <= pp < ptr && p == pp + 1
      invariant FindPort(item, start - lo, cc, |item| - 1) == FindPort(item, start - lo, cc, pp - lo)
    {
      assert item[pp - lo] == buf[pp];
      assert p < ptr ==> item[p - lo] == buf[p];
      if buf[pp] == ']' && buf[p] == ':' { return; }
      if buf[pp] == ':' && cc == 1 { return; }
      if !(IsDigit(buf[pp]) || buf[pp] == ':') {
        pp, p := ptr, ptr;
        return;
      }
      pp, p := pp - 1, p - 1;
    }
  }

  /** Reads the port after pp and ends the host there. */
  method ReadPort(buf: array<char>, ghost lo: nat, ptr: nat, pp: nat, ghost item: string) returns (port: int)
    requires lo <= pp && pp + 1 < ptr < buf.Length && buf[lo..ptr] == item && buf[ptr] == NUL && NUL !in item
    modifies buf
    ensures port == Strtol(item[if item[pp - lo] == ']' then pp + 2 - lo else pp + 1 - lo..])
    ensures buf[..] == old(buf[..])[pp := NUL]
  {
    hide Strtol, UpToNul;
    assert item[pp - lo] == buf[pp];
    var p := pp + 1;
    if buf[pp] == ']' { p := p + 1; }
    assert buf[p..ptr] == item[p - lo..];
    TextAt(buf[..], p, ptr, item[p - lo..]);
    assert buf[..][p..] == buf[p..];
    port := Strtol(UpToNul(buf[p..]));
    buf[pp] := NUL;
  }

  /** Ends the item at ptr and its host, so that the host can be read at start. */
  method TakeItem(buf: array<char>, ghost lo: nat, start: nat, ptr: nat, cc: nat, ghost item: string) returns (port: int)
    requires lo <= ptr < buf.Length && buf[lo..ptr] == item && NUL !in item
    requires start == lo + StartHost(item) && cc == Colons(item)
    modifies buf
    ensures buf[ptr + 1..] == old(buf[ptr + 1..])
    ensures Entry(UpToNul(buf[start..]), port) == SplitItem(item)
  {
    hide FindPort, Strtol, StartHost, Colons, UpToNul, SplitItem;
    port := 0;
    ghost var before := buf[..];
    assert before[lo..ptr] == buf[lo..ptr] == item;
    buf[ptr] := NUL;
    ghost var end, was := ptr, buf[..];
    ItemEnded(before, was, lo, ptr);
    assert buf[lo..ptr] == was[lo..ptr];
    SplitWith(item);
    if cc > 0 {
      var pp, p := FindPortBackwards(buf, lo, start, ptr, cc, item);
      if pp != start && pp + 1 < ptr {
        port := ReadPort(buf, lo, ptr, pp, item);
        end := pp;
      }
    }
    ghost var now := buf[..];
    HostIn(was, now, lo, start, end, ptr, item);
    assert now[start..] == buf[start..];
    TailKept(before, was, now, end, ptr);
    assert buf[ptr + 1..] == now[ptr + 1..] && before[ptr + 1..] == old(buf[ptr + 1..]);
  }

  lemma ItemEnded(before: seq<char>, was: seq<char>, lo: nat, ptr: nat)
    requires lo <= ptr < |before| && was == before[ptr := NUL]
    ensures was[lo..ptr] == before[lo..ptr]
  {
  }

  lemma TailKept(before: seq<char>, was: seq<char>, now: seq<char>, end: nat, ptr: nat)
    requires end <= ptr < |before| && was == before[ptr := NUL] && now == was[end := NUL]
    ensures now[ptr + 1..] == before[ptr + 1..]
  {
  }

  /** The two ways an item is split. */
  lemma SplitWith(s: string)
    ensures var start, pp := StartHost(s), FindPort(s, StartHost(s), Colons(s), |s| - 1);
            SplitItem(s)
            == if Colons(s) > 0 && pp != start && pp + 1 < |s| then
                 Entry(s[start..pp], Strtol(s[if s[pp] == ']' then pp + 2 else pp + 1..]))
               else Entry(s[start..], 0)
  {
    hide FindPort, Strtol, StartHost, Colons;
  }

  /** Once a zero is stored at end, the host is the item up to there. */
  lemma HostIn(was: seq<char>, now: seq<char>, lo: nat, start: nat, end: nat, ptr: nat, item: string)
    requires lo <= start <= end <= ptr < |was| && was[lo..ptr] == item && was[ptr] == NUL && NUL !in item
    requires now == was[end := NUL]
    ensures UpToNul(now[start..]) == item[start - lo..end - lo]
  {
    hide UpToNul;
    forall k | start <= k < end ensures now[k] == item[k - lo] { assert was[lo..ptr][k - lo] == was[k]; }
    assert now[start..end] == item[start - lo..end - lo];
    TextAt(now, start, end, item[start - lo..end - lo]);
  }

  /** What is known of the buffer before ptr: the item under way is still in place. */
  ghost predicate Scanned(buf: seq<char>, text: string, ptr: nat, lo: int, start: nat, cc: nat)
  {
    && ptr <= |text| < |buf| && buf[ptr..|text|] == text[ptr..] && buf[|text|] == NUL
    && 0 <= lo == ptr - |Split(text[..ptr]).rest|
    && buf[lo..ptr] == Split(text[..ptr]).rest
    && start == lo + StartHost(buf[lo..ptr]) && cc == Colons(buf[lo..ptr])
  }

  lemma NothingScanned(buf: seq<char>, text: string)
    requires |text| < |buf| && buf[..|text|] == text && buf[|text|] == NUL
    ensures Scanned(buf, text, 0, 0, 0, 0) && Split(text[..0]).items == []
  {
  }

  lemma ScannedCharacter(buf: seq<char>, text: string, ptr: nat, lo: int, start: nat, cc: nat)
    requires Scanned(buf, text, ptr, lo, start, cc) && NUL !in text
    ensures buf[ptr] == NUL <==> ptr == |text|
    ensures ptr < |text| ==> buf[ptr] == text[ptr]
  {
    if ptr < |text| {
      assert buf[ptr..|text|][0] == text[ptr..][0];
      assert text[ptr] in text;
    }
  }

  lemma {:induction false} RestOfText(s: string)
    ensures |Split(s).rest| <= |s| && s[|s| - |Split(s).rest|..] == Split(s).rest
  {
    if s != "" { RestOfText(s[..|s| - 1]); }
  }

  lemma ScannedMore(buf: seq<char>, text: string, ptr: nat, lo: int, start: nat, cc: nat)
    requires Scanned(buf, text, ptr, lo, start, cc) && ptr < |text| && text[ptr] != ',' && buf[ptr] == text[ptr]
    ensures Scanned(buf, text, ptr + 1, lo, if text[ptr] == '[' then ptr + 1 else start, if text[ptr] == ':' then cc + 1 else cc)
    ensures Split(text[..ptr + 1]).items == Split(text[..ptr]).items
  {
    hide Split, StartHost, Colons;
    var c, rest := text[ptr], Split(text[..ptr]).rest;
    SplitGrowsBy(text, ptr);
    ItemGrows(rest, c);
    NextSlices(buf, text, lo, ptr);
  }

  lemma SplitGrowsBy(text: string, ptr: nat)
    requires ptr < |text| && text[ptr] != ','
    ensures Split(text[..ptr + 1]) == Scan(Split(text[..ptr]).items, Split(text[..ptr]).rest + [text[ptr]])
  {
    assert text[..ptr + 1][..ptr] == text[..ptr];
  }

  lemma ItemGrows(rest: string, c: char)
    ensures StartHost(rest + [c]) == if c == '[' then |rest| + 1 else StartHost(rest)
    ensures Colons(rest + [c]) == Colons(rest) + if c == ':' then 1 else 0
  {
    assert (rest + [c])[..|rest|] == rest;
  }

  lemma NextSlices(buf: seq<char>, text: string, lo: nat, ptr: nat)
    requires lo <= ptr < |text| < |buf| && buf[ptr..|text|] == text[ptr..]
    ensures buf[lo..ptr + 1] == buf[lo..ptr] + [buf[ptr]]
    ensures buf[ptr + 1..|text|] == text[ptr + 1..]
  {
    assert buf[ptr + 1..|text|] == buf[ptr..|text|][1..] == text[ptr..][1..];
  }

  lemma ScannedItem(was: seq<char>, buf: seq<char>, text: string, ptr: nat, lo: int, start: nat, cc: nat)
    requires Scanned(was, text, ptr, lo, start, cc) && ptr < |text| && text[ptr] == ','
    requires |buf| == |was| && buf[ptr + 1..] == was[ptr + 1..]
    ensures Scanned(buf, text, ptr + 1, ptr + 1, ptr + 1, 0)
    ensures Split(text[..ptr + 1]).items == Split(text[..ptr]).items + [Split(text[..ptr]).rest]
  {
    assert text[..ptr + 1][..ptr] == text[..ptr];
    assert buf[ptr + 1..|text|] == was[ptr + 1..][..|text| - ptr - 1] == was[ptr..|text|][1..];
    assert buf[|text|] == was[ptr + 1..][|text| - ptr - 1];
  }

  lemma NextNode(r: Resolver, items: seq<string>, item: string, usePort: bool, nodes: seq<Node>)
    requires NodesOf(r, items, usePort) == Some(nodes)
    ensures NodesOf(r, items + [item], usePort)
            == match NodeOf(r, SplitItem(item), usePort) case None => None case Some(n) => Some(nodes + [n])
  {
    hide SplitItem, NodeOf;
    assert (items + [item])[..|items|] == items;
  }

  /** Scans the list in the buffer; None stands for a host that is no address. */
  method ScanServers(buf: array<char>, ghost text: string, r: Resolver, usePort: bool) returns (servers: Option<seq<Node>>)
    requires NUL !in text && |text| < buf.Length && buf[..|text|] == text && buf[|text|] == NUL
    modifies buf
    ensures servers == NodesOf(r, Split(text).items, usePort)
  {
    hide SplitItem, StartHost, Colons, UpToNul, Split, NodesOf, Scanned;
    var nodes: seq<Node> := [];
    var start, cc, ptr := 0, 0, 0;
    ghost var lo := 0;
    NothingScanned(buf[..], text);
    NoItems(r, usePort);
    ScannedCharacter(buf[..], text, ptr, lo, start, cc);
    while buf[ptr] != NUL
      invariant ptr <= |text| < buf.Length && Scanned(buf[..], text, ptr, lo, start, cc)
      invariant buf[ptr] == NUL <==> ptr == |text|
      invariant ptr < |text| ==> buf[ptr] == text[ptr]
      invariant NodesOf(r, Split(text[..ptr]).items, usePort) == Some(nodes)
      decreases |text| - ptr
    {
      if buf[ptr] == ',' {
        var node := AddItem(buf, text, ptr, lo, start, cc, r, usePort);
        NextNode(r, Split(text[..ptr]).items, Split(text[..ptr]).rest, usePort, nodes);
        if node.None? {
          SplitGrows(text, ptr + 1);
          GivenUp(r, Split(text[..ptr + 1]).items, Split(text).items, usePort);
          return None;
        }
        nodes := nodes + [node.value];
        start, cc, lo := ptr + 1, 0, ptr + 1;
      } else {
        ScannedMore(buf[..], text, ptr, lo, start, cc);
        if buf[ptr] == ':' {
          cc := cc + 1;
        } else if buf[ptr] == '[' {
          start := ptr + 1;
        }
      }
      ptr := ptr + 1;
      ScannedCharacter(buf[..], text, ptr, lo, start, cc);
    }
    assert text[..ptr] == text;
    servers := Some(nodes);
  }

  lemma NoItems(r: Resolver, usePort: bool)
    ensures NodesOf(r, [], usePort) == Some([])
  {
  }

  lemma GivenUp(r: Resolver, some: seq<string>, all: seq<string>, usePort: bool)
    requires some <= all && NodesOf(r, some, usePort).None?
    ensures NodesOf(r, all, usePort).None?
  {
    hide NodesOf;
    assert all[..|some|] == some;
    NodesOfPrefix(r, all, usePort, |some|);
  }

  /** The server that the item ending at the comma names. */
  method AddItem(buf: array<char>, ghost text: string, ptr: nat, ghost lo: int, start: nat, cc: nat, r: Resolver, usePort: bool)
    returns (node: Option<Node>)
    requires Scanned(buf[..], text, ptr, lo, start, cc) && NUL !in text && ptr < |text| && text[ptr] == ',' && buf[ptr] == ','
    modifies buf
    ensures node == NodeOf(r, SplitItem(Split(text[..ptr]).rest), usePort)
    ensures Scanned(buf[..], text, ptr + 1, ptr + 1, ptr + 1, 0)
    ensures Split(text[..ptr + 1]).items == Split(text[..ptr]).items + [Split(text[..ptr]).rest]
  {
    hide SplitItem, StartHost, Colons, UpToNul, Split;
    ghost var was, item := buf[..], Split(text[..ptr]).rest;
    RestOfText(text[..ptr]);
    assert forall c <- item :: c in text;
    assert buf[lo..ptr] == was[lo..ptr];
    var port := TakeItem(buf, lo, start, ptr, cc, item);
    assert was[ptr + 1..] == old(buf[ptr + 1..]);
    assert buf[..][ptr + 1..] == buf[ptr + 1..];
    ScannedItem(was, buf[..], text, ptr, lo, start, cc);
    var host := UpToNul(buf[start..]);
    node := None;
    if host in r.v4 {
      node := Some(Node(INET, r.v4[host], if usePort then port else 0, if usePort then port else 0));
    } else if host in r.v6 {
      node := Some(Node(INET6, r.v6[host], if usePort then port else 0, if usePort then port else 0));
    }
  }

  // ----- Storing and reading back servers

  /** A server as the channel keeps it: ports in network order on a little-endian machine. */
  datatype ServerState = ServerState(family: Family, addr: Octets, udpPort: nat, tcpPort: nat)

  /** htons and ntohs: the two bytes change places. */
  function Swap16(v: nat): (w: nat)
    requires v < 0x1_0000
    ensures w < 0x1_0000
  {
    v % 256 * 256 + v / 256
  }

  lemma SwapTwice(v: nat)
    requires v < 0x1_0000
    ensures Swap16(Swap16(v)) == v
  {
    var lo, hi := v % 256, v / 256;
    var w := lo * 256 + hi;
    assert w / 256 == lo && w % 256 == hi;
  }

  function Narrow(n: Node): Node { n.(udpPort := n.udpPort % 0x1_0000, tcpPort := n.tcpPort % 0x1_0000) }

  predicate InRange(servers: seq<ServerState>)
  {
    forall s <- servers :: s.udpPort < 0x1_0000 && s.tcpPort < 0x1_0000
  }

  /** A server with its ports in host order. */
  function Fetched(s: ServerState): Node
    requires s.udpPort < 0x1_0000 && s.tcpPort < 0x1_0000
  {
    Node(s.family, s.addr, Swap16(s.udpPort), Swap16(s.tcpPort))
  }

  /** Fills a new server table; ports are cut to 16 bits. */
  method StoreServers(nodes: seq<Node>) returns (servers: seq<ServerState>)
    ensures Stored(nodes, servers)
  {
    hide Swap16;
    servers := [];
    var i := 0;
    while i < |nodes|
      invariant 0 <= i <= |nodes| && |servers| == i && InRange(servers)
      invariant forall k | 0 <= k < i :: Fetched(servers[k]) == Narrow(nodes[k])
    {
      var n := nodes[i];
      var udp, tcp := n.udpPort % 0x1_0000, n.tcpPort % 0x1_0000;
      SwapTwice(udp); SwapTwice(tcp);
      servers := servers + [ServerState(n.family, n.addr, Swap16(udp), Swap16(tcp))];
      i := i + 1;
    }
  }

  /** Lists the servers of a table. */
  method FetchServers(servers: seq<ServerState>) returns (nodes: seq<Node>)
    requires InRange(servers)
    ensures |nodes| == |servers| && forall i | 0 <= i < |nodes| :: nodes[i] == Fetched(servers[i])
  {
    nodes := [];
    var i := 0;
    while i < |servers|
      invariant 0 <= i <= |servers| && |nodes| == i
      invariant forall k | 0 <= k < i :: nodes[k] == Fetched(servers[k])
    {
      nodes := nodes + [Fetched(servers[i])];
      i := i + 1;
    }
  }

  /** Storing what was fetched restores the table, ports in network order included. */
  lemma FetchedThenStored(before: seq<ServerState>, after: seq<ServerState>)
    requires InRange(before) && InRange(after) && |before| == |after|
    requires forall i | 0 <= i < |before| :: Fetched(after[i]) == Narrow(Fetched(before[i]))
    ensures after == before
  {
    hide Swap16;
    forall i | 0 <= i < |before| ensures after[i] == before[i] {
      assert after[i] in after && before[i] in before;
      FetchedIsInjective(after[i], before[i]);
    }
  }

  lemma FetchedIsInjective(a: ServerState, b: ServerState)
    requires a.udpPort < 0x1_0000 && a.tcpPort < 0x1_0000 && b.udpPort < 0x1_0000 && b.tcpPort < 0x1_0000
    requires Fetched(a) == Narrow(Fetched(b))
    ensures a == b
  {
    hide Swap16;
    SwapTwice(a.udpPort); SwapTwice(b.udpPort);
    SwapTwice(a.tcpPort); SwapTwice(b.tcpPort);
  }

  /** The servers hold the nodes, with ports cut to 16 bits. */
  ghost predicate Stored(nodes: seq<Node>, servers: seq<ServerState>)
  {
    InRange(servers) && |servers| == |nodes| && forall i | 0 <= i < |nodes| :: Fetched(servers[i]) == Narrow(nodes[i])
  }

  /** A table set to no servers at all counts as unset again. */
  ghost predicate TableOf(nodes: seq<Node>, table: Option<seq<ServerState>>)
  {
    if nodes == [] then table == None else table.Some? && Stored(nodes, table.value)
  }

  /** The server of one item as the table keeps it; the two bytes of a port are in network order. */
  ghost predicate HoldsItem(r: Resolver, item: string, usePort: bool, s: ServerState)
  {
    var e := SplitItem(item);
    var port := if usePort then e.port % 0x1_0000 else 0;
    && Known(r, e.host)
    && s.family == (if e.host in r.v4 then INET else INET6)
    && s.addr == (if e.host in r.v4 then r.v4[e.host] else r.v6[e.host])
    && s.udpPort == s.tcpPort == port % 256 * 256 + port / 256
  }

  ghost predicate HoldsItems(r: Resolver, items: seq<string>, usePort: bool, servers: seq<ServerState>)
  {
    |servers| == |items| && InRange(servers) && forall k | 0 <= k < |items| :: HoldsItem(r, items[k], usePort, servers[k])
  }

  lemma ItemsHeld(r: Resolver, items: seq<string>, usePort: bool, nodes: seq<Node>, servers: seq<ServerState>)
    requires |nodes| == |items| && (forall k | 0 <= k < |items| :: IsNodeOf(r, items[k], usePort, nodes[k])) && Stored(nodes, servers)
    ensures HoldsItems(r, items, usePort, servers)
    ensures !usePort ==> forall s <- servers :: s.udpPort == 0 && s.tcpPort == 0
  {
    hide SplitItem, Known;
    forall k | 0 <= k < |items|
      ensures HoldsItem(r, items[k], usePort, servers[k])
    {
      assert servers[k] in servers;
      ItemHeld(r, items[k], usePort, nodes[k], servers[k]);
    }
  }

  lemma ItemHeld(r: Resolver, item: string, usePort: bool, n: Node, s: ServerState)
    requires IsNodeOf(r, item, usePort, n) && s.udpPort < 0x1_0000 && s.tcpPort < 0x1_0000 && Fetched(s) == Narrow(n)
    ensures HoldsItem(r, item, usePort, s)
  {
    hide SplitItem, Known;
    SwapTwice(s.udpPort); SwapTwice(s.tcpPort);
  }

  lemma SomeItems(csv: string)
    requires csv != ""
    ensures Split(EndWithComma(csv)).items != []
  {
  }

  class ServerTable {
    /** None stands for a server count of -1. */
    var servers: Option<seq<ServerState>>

    constructor ()
      ensures servers == None
    {
      servers := None;
    }

    /** Replaces all servers. */
    method SetServersPorts(nodes: seq<Node>)
      modifies this
      ensures TableOf(nodes, servers)
    {
      servers := None;
      if |nodes| > 0 {
        var table := StoreServers(nodes);
        servers := Some(table);
      }
    }

    method GetServersPorts() returns (nodes: seq<Node>)
      requires servers.Some? ==> InRange(servers.value)
      ensures servers.None? ==> nodes == []
      ensures servers.Some? ==> |nodes| == |servers.value| && forall i | 0 <= i < |nodes| :: nodes[i] == Fetched(servers.value[i])
    {
      nodes := [];
      if servers.Some? {
        nodes := FetchServers(servers.value);
      }
    }

    /** Replaces the servers by those of the list, or by none when it is empty or some host is no address. */
    method SetServersCsv(csv: string, r: Resolver, usePort: bool) returns (status: Status)
      requires NUL !in csv
      modifies this
      ensures csv == "" ==> status == SUCCESS && servers == None
      ensures csv != "" ==>
                var items := Split(EndWithComma(csv)).items;
                if forall item <- items :: Known(r, SplitItem(item).host) then
                  status == SUCCESS && servers.Some? && HoldsItems(r, items, usePort, servers.value)
                else status == EBADSTR && servers == None
      // Without ports every server has the channel's default.
      ensures !usePort && servers.Some? ==> forall s <- servers.value :: s.udpPort == 0 && s.tcpPort == 0
    {
      hide NodesOf, Split, SplitItem, Swap16;
      servers := None;
      var n := |csv|;
      if n == 0 {
        return SUCCESS;
      }
      var buf := new char[n + 2](i => if 0 <= i < n then csv[i] else NUL);
      assert buf[..n] == csv;
      if buf[n - 1] != ',' {
        buf[n], buf[n + 1] := ',', NUL;
      }
      ghost var text := EndWithComma(csv);
      assert buf[..|text|] == text;
      assert forall c <- text :: c in csv || c == ',';
      var nodes := ScanServers(buf, text, r, usePort);
      NodesAre(r, Split(text).items, usePort);
      if nodes.None? {
        return EBADSTR;
      }
      SomeItems(csv);
      SetServersPorts(nodes.value);
      ItemsHeld(r, Split(text).items, usePort, nodes.value, servers.value);
      return SUCCESS;
    }
  }

  // ----- Printed lists

  /** A list with a comma after each item. */
  function Joined(items: seq<string>): string
  {
    if items == [] then "" else Joined(items[..|items| - 1]) + items[|items| - 1] + ","
  }

  lemma {:induction false} SplitItemText(a: string, item: string)
    requires Split(a).rest == "" && ',' !in item
    ensures Split(a + item) == Scan(Split(a).items, item)
    decreases |item|
  {
    if item == "" {
      assert a + item == a;
    } else {
      var n := |item| - 1;
      assert (a + item)[..|a + item| - 1] == a + item[..n];
      SplitItemText(a, item[..n]);
      assert item == item[..n] + [item[n]];
    }
  }

  /** A list is split into its items again. */
  lemma {:induction false} ListSplits(items: seq<string>)
    requires forall item <- items :: ',' !in item
    ensures Split(Joined(items)) == Scan(items, "")
  {
    if items != [] {
      var n := |items| - 1;
      var a, item := Joined(items[..n]), items[n];
      assert items == items[..n] + [item] && item in items;
      assert forall i <- items[..n] :: i in items;
      ListSplits(items[..n]);
      SplitItemText(a, item);
      assert (a + item + ",")[..|a + item|] == a + item;
    }
  }

  /** A list without its last comma, and with an item behind the one before, is completed again by the scanner. */
  lemma LastCommaRestored(items: seq<string>)
    requires items != [] && items[|items| - 1] != "" && ',' !in items[|items| - 1]
    ensures var csv := Joined(items);
            |csv| > 1 && EndWithComma(csv) == csv && EndWithComma(csv[..|csv| - 1]) == csv
  {
    var item, csv := items[|items| - 1], Joined(items);
    assert csv[|csv| - 2] == item[|item| - 1];
    assert item[|item| - 1] in item;
  }

  lemma {:induction false} JoinedHasNoNul(items: seq<string>)
    requires forall item <- items :: NUL !in item
    ensures NUL !in Joined(items)
  {
    if items != [] {
      var n := |items| - 1;
      assert items[n] in items && forall i <- items[..n] :: i in items;
      JoinedHasNoNul(items[..n]);
    }
  }

  /** A server as it is printed, with a port or without. */
  datatype Shown = Shown(family: Family, text: string, addr: Octets, port: Option<nat>)

  function PrintItem(s: Shown): string
  {
    if s.port.None? then s.text
    else if s.family == INET then s.text + ":" + Decimal(s.port.value)
    else "[" + s.text + "]:" + Decimal(s.port.value)
  }

  function PrintItems(list: seq<Shown>): (items: seq<string>)
    ensures |items| == |list| && forall i | 0 <= i < |list| :: items[i] == PrintItem(list[i])
  {
    seq(|list|, i requires 0 <= i < |list| => PrintItem(list[i]))
  }

  /** The address text is one that pton reads as that address; IPv6 addresses have more than one colon. */
  predicate Readable(r: Resolver, s: Shown)
  {
    && (s.port.Some? ==> s.port.value < 0x1_0000)
    && match s.family
       case INET => PlainHost(s.text) && ']' !in s.text && s.text in r.v4 && r.v4[s.text] == s.addr
       case INET6 =>
         && ColonHost(s.text) && ']' !in s.text && Colons(s.text) > 1
         && s.text !in r.v4 && s.text in r.v6 && r.v6[s.text] == s.addr
  }

  /** The port a server should get: its own, unless it has none or ports are not wanted. */
  function PortShown(s: Shown, usePort: bool): nat { if usePort && s.port.Some? then s.port.value else 0 }

  lemma PrintedItemSplits(r: Resolver, s: Shown)
    requires Readable(r, s)
    ensures SplitItem(PrintItem(s)) == Entry(s.text, PortShown(s, true))
    ensures PrintItem(s) != "" && ',' !in PrintItem(s) && NUL !in PrintItem(s)
  {
    hide SplitItem, Decimal, Strtol, Colons;
    if s.port.None? {
      ColonsZero(s.text);
      BareItem(s.text);
    } else {
      var d := Decimal(s.port.value);
      DecimalDigits(s.port.value);
      DecimalReadsBack(s.port.value);
      DigitsHaveNoMarks(d);
      if s.family == INET {
        PlainItemSplits(s.text, d);
      } else {
        BracketItemSplits(s.text, d);
      }
    }
  }

  /** A printed list is scanned as its items, each of which is a known host. */
  lemma PrintedListReads(r: Resolver, list: seq<Shown>)
    requires list != [] && forall s <- list :: Readable(r, s)
    ensures var csv, items := Joined(PrintItems(list)), PrintItems(list);
            && |csv| > 1 && NUL !in csv
            && Split(EndWithComma(csv)).items == items && Split(EndWithComma(csv[..|csv| - 1])).items == items
            && forall item <- items :: Known(r, SplitItem(item).host)
  {
    hide SplitItem, PrintItem, Split, Joined, Readable, EndWithComma;
    var items := PrintItems(list);
    forall i | 0 <= i < |items|
      ensures items[i] != "" && ',' !in items[i] && NUL !in items[i] && Known(r, SplitItem(items[i]).host)
    {
      PrintedItemSplits(r, list[i]);
      KnownText(r, list[i]);
    }
    ListSplits(items);
    LastCommaRestored(items);
    JoinedHasNoNul(items);
  }

  lemma KnownText(r: Resolver, s: Shown)
    requires Readable(r, s)
    ensures Known(r, s.text)
    ensures s.text in r.v4 ==> s.family == INET && r.v4[s.text] == s.addr
    ensures s.text !in r.v4 ==> s.family == INET6 && r.v6[s.text] == s.addr
  {
  }

  lemma PrintedItemHeld(r: Resolver, s: Shown, usePort: bool, t: ServerState)
    requires Readable(r, s) && HoldsItem(r, PrintItem(s), usePort, t) && t.udpPort < 0x1_0000 && t.tcpPort < 0x1_0000
    ensures Fetched(t) == Node(s.family, s.addr, PortShown(s, usePort), PortShown(s, usePort))
  {
    hide SplitItem, PrintItem, Swap16, Readable, Known;
    PrintedItemSplits(r, s);
    KnownText(r, s);
    SmallPort(r, s, usePort);
    SwappedBack(PortShown(s, usePort), t.udpPort);
  }

  lemma SmallPort(r: Resolver, s: Shown, usePort: bool)
    requires Readable(r, s)
    ensures PortShown(s, usePort) < 0x1_0000 && PortShown(s, usePort) % 0x1_0000 == PortShown(s, usePort)
  {
  }

  lemma SwappedBack(v: nat, w: nat)
    requires v < 0x1_0000 && w == v % 256 * 256 + v / 256
    ensures w < 0x1_0000 && Swap16(w) == v
  {
    SwapTwice(v);
  }

  /**
   Setting a printed list and reading the servers back yields the same hosts in order,
   with the printed ports if ports are wanted and the default ports otherwise.
   */
  method ServersRoundTrip(table: ServerTable, r: Resolver, list: seq<Shown>, usePort: bool, trailingComma: bool)
    returns (status: Status, nodes: seq<Node>)
    requires list != [] && forall s <- list :: Readable(r, s)
    modifies table
    ensures status == SUCCESS && |nodes| == |list|
    ensures forall i | 0 <= i < |list| ::
              nodes[i].family == list[i].family && nodes[i].addr == list[i].addr
              && nodes[i].udpPort == nodes[i].tcpPort == if usePort && list[i].port.Some? then list[i].port.value else 0
  {
    hide Split, Joined, EndWithComma, SplitItem, PrintItem, Readable, Fetched, HoldsItem;
    var csv := Joined(PrintItems(list));
    PrintedListReads(r, list);
    if !trailingComma {
      csv := csv[..|csv| - 1];
    }
    status := table.SetServersCsv(csv, r, usePort);
    nodes := table.GetServersPorts();
    forall i | 0 <= i < |list|
      ensures nodes[i] == Node(list[i].family, list[i].addr, PortShown(list[i], usePort), PortShown(list[i], usePort))
    {
      assert table.servers.value[i] in table.servers.value;
      PrintedItemHeld(r, list[i], usePort, table.servers.value[i]);
    }
  }
}
