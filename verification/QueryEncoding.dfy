/** Building a query message (c-ares/ares_create_query.c). */
module QueryEncoding {
  import opened Common
  import opened Bytes
  import opened Status

  const MAXCDNAME := 255
  const MAXLABEL := 63
  const EDNSFIXEDSZ := 11
  const T_OPT := 41

  // ----- Reading a presentation-form name

  /** Characters taken by the first unit of a name: an escaped character takes two. */
  function UnitSize(name: seq<Byte>): (n: nat)
    requires name != []
    ensures 1 <= n <= |name|
  {
    if name[0] == BACKSLASH && |name| > 1 then 2 else 1
  }

  function Units(name: seq<Byte>): nat
  {
    if name == [] then 0 else 1 + Units(name[UnitSize(name)..])
  }

  /** The bytes the first label stands for: units up to an unescaped period or the end. */
  function LabelBytes(name: seq<Byte>): seq<Byte>
  {
    if name == [] || name[0] == DOT then []
    else [name[UnitSize(name) - 1]] + LabelBytes(name[UnitSize(name)..])
  }

  function LabelEnd(name: seq<Byte>): (n: nat)
    ensures n <= |name|
    ensures n < |name| ==> name[n] == DOT
    ensures n == 0 <==> name == [] || name[0] == DOT
  {
    if name == [] || name[0] == DOT then 0
    else UnitSize(name) + LabelEnd(name[UnitSize(name)..])
  }

  /** The labels of a name, unless one is empty or longer than 63 bytes. */
  function ParseName(name: seq<Byte>): (r: Option<seq<seq<Byte>>>)
    ensures r.Some? ==> forall l :: l in r.value ==> 1 <= |l| <= 63
    decreases |name|
  {
    if name == [] then Some([])
    else if name[0] == DOT || |LabelBytes(name)| > MAXLABEL then None
    else
      assert LabelBytes(name) != [];
      var rest := if LabelEnd(name) == |name| then Some([]) else ParseName(name[LabelEnd(name) + 1..]);
      if rest.None? then None else Some([LabelBytes(name)] + rest.value)
  }

  /** A lone period denotes the root and is encoded as the empty name. */
  function NameToEncode(name: seq<Byte>): seq<Byte>
  {
    if name == [DOT] then [] else name
  }

  /** The length reserved for the encoded name before any label is looked at. */
  function ReservedLength(name: seq<Byte>): nat
  {
    1 + Units(name) + if name != [] && name[|name| - 1] != DOT then 1 else 0
  }

  /** The name's last character is a period that a backslash escapes. */
  predicate EndsInEscapedPeriod(name: seq<Byte>)
  {
    name != [] &&
    var n := UnitSize(name);
    if n == |name| then n == 2 && name[1] == DOT else EndsInEscapedPeriod(name[n..])
  }

  // ----- The wire form

  /** Each label preceded by its length. */
  function WireLabels(labels: seq<seq<Byte>>): seq<Byte>
    requires forall l :: l in labels ==> |l| <= 63
  {
    if labels == [] then [] else [|labels[0]| as Byte] + labels[0] + WireLabels(labels[1..])
  }

  function Wire(labels: seq<seq<Byte>>): seq<Byte>
    requires forall l :: l in labels ==> |l| <= 63
  {
    WireLabels(labels) + [0]
  }

  function Header(id: int, rd: bool, edns: bool): (s: seq<Byte>)
    ensures |s| == HFIXEDSZ
  {
    [id / 256 % 256, id % 256, if rd then 1 else 0, 0, 0, 1, 0, 0, 0, 0, 0, if edns then 1 else 0]
  }

  /** The EDNS0 OPT record: root owner, type 41, the UDP size as its class, and six zero bytes. */
  function OptRecord(maxUdpSize: int): (s: seq<Byte>)
    ensures |s| == if maxUdpSize == 0 then 0 else EDNSFIXEDSZ
  {
    if maxUdpSize == 0 then [] else [0, 0, T_OPT, maxUdpSize / 256 % 256, maxUdpSize % 256, 0, 0, 0, 0, 0, 0]
  }

  function Message(labels: seq<seq<Byte>>, dnsclass: int, rrtype: int, id: int, rd: bool, maxUdpSize: int): seq<Byte>
    requires forall l :: l in labels ==> |l| <= 63
  {
    Header(id, rd, maxUdpSize != 0) + Wire(labels) + Put16(rrtype) + Put16(dnsclass) + OptRecord(maxUdpSize)
  }

  /** The value stored in *buflen. */
  function BufferLength(name: seq<Byte>, maxUdpSize: int): nat
  {
    ReservedLength(name) + HFIXEDSZ + QFIXEDSZ + if maxUdpSize != 0 then EDNSFIXEDSZ else 0
  }

  lemma {:induction false} WireLabelsAppend(labels: seq<seq<Byte>>, l: seq<Byte>)
    requires (forall m :: m in labels ==> |m| <= 63) && |l| <= 63
    ensures forall m :: m in labels + [l] ==> |m| <= 63
    ensures WireLabels(labels + [l]) == WireLabels(labels) + ([|l| as Byte] + l)
  {
    if labels == [] {
      assert labels + [l] == [l];
    } else {
      assert (labels + [l])[1..] == labels[1..] + [l];
      WireLabelsAppend(labels[1..], l);
    }
  }

  // ----- Accounting: units of text against bytes on the wire

  lemma {:induction false} UnitsOfLabel(name: seq<Byte>)
    ensures Units(name) == |LabelBytes(name)| + Units(name[LabelEnd(name)..])
    decreases |name|
  {
    if name == [] || name[0] == DOT {
      assert name[0..] == name;
    } else {
      var n := UnitSize(name);
      UnitsOfLabel(name[n..]);
      assert name[n..][LabelEnd(name[n..])..] == name[LabelEnd(name)..];
    }
  }

  lemma UnitsOfPeriod(name: seq<Byte>)
    requires name != [] && name[0] == DOT
    ensures Units(name) == 1 + Units(name[1..])
  {
  }

  lemma UnitsAfterLabel(name: seq<Byte>, start: nat)
    requires start < |name|
    ensures var end := start + LabelEnd(name[start..]);
            Units(name[start..]) == |LabelBytes(name[start..])|
                                    + if end == |name| then 0 else 1 + Units(name[end + 1..])
    ensures Units([]) == 0
  {
    var rest, end := name[start..], start + LabelEnd(name[start..]);
    UnitsOfLabel(rest);
    assert rest[LabelEnd(rest)..] == name[end..];
    if end < |name| {
      UnitsOfPeriod(name[end..]);
      assert name[end..][1..] == name[end + 1..];
    }
  }

  /** Cutting at a label's end cuts at a unit boundary. */
  lemma {:induction false} EscapedPeriodAfterLabel(name: seq<Byte>)
    requires LabelEnd(name) + 1 < |name|
    ensures EndsInEscapedPeriod(name) == EndsInEscapedPeriod(name[LabelEnd(name) + 1..])
    decreases |name|
  {
    if name[0] != DOT {
      var n := UnitSize(name);
      EscapedPeriodAfterLabel(name[n..]);
      assert name[n..][LabelEnd(name[n..]) + 1..] == name[LabelEnd(name) + 1..];
    }
  }

  /** A label that runs to the end of the name ends in a period only if that period is escaped. */
  lemma {:induction false} EscapedPeriodInLastLabel(name: seq<Byte>)
    requires name != [] && LabelEnd(name) == |name|
    ensures EndsInEscapedPeriod(name) <==> name[|name| - 1] == DOT
    decreases |name|
  {
    var n := UnitSize(name);
    if n < |name| {
      EscapedPeriodInLastLabel(name[n..]);
    }
  }

  lemma {:induction false} PeriodEndsName(name: seq<Byte>)
    requires LabelEnd(name) + 1 == |name|
    ensures !EndsInEscapedPeriod(name)
    decreases |name|
  {
    if name[0] != DOT {
      PeriodEndsName(name[UnitSize(name)..]);
    }
  }

  lemma WireOfCons(l: seq<Byte>, labels: seq<seq<Byte>>)
    requires |l| <= 63 && forall m :: m in labels ==> |m| <= 63
    ensures forall m :: m in [l] + labels ==> |m| <= 63
    ensures Wire([l] + labels) == [|l| as Byte] + l + Wire(labels)
    ensures Wire([]) == [0]
  {
    assert ([l] + labels)[1..] == labels;
  }

  lemma ParseShape(name: seq<Byte>)
    requires name != [] && ParseName(name).Some?
    ensures |LabelBytes(name)| <= 63
    ensures LabelEnd(name) < |name| ==> ParseName(name[LabelEnd(name) + 1..]).Some?
    ensures ParseName(name).value
            == [LabelBytes(name)] + if LabelEnd(name) == |name| then [] else ParseName(name[LabelEnd(name) + 1..]).value
  {
    hide LabelBytes, LabelEnd, ParseName;
    ParsesFirst(name);
    NothingParsed();
  }

  lemma NothingParsed()
    ensures ParseName([]) == Some([])
  {
  }

  lemma LabelBytesNonempty(name: seq<Byte>)
    requires name != []
    ensures name[0] != DOT <==> LabelBytes(name) != []
  {
  }

  lemma ReservedForRoot()
    ensures ParseName([]) == Some([]) && |Wire([])| == ReservedLength([]) && !EndsInEscapedPeriod([])
  {
  }

  /** The pre-count is the encoded length, except that a final escaped period is not paid for. */
  lemma {:induction false} ReservedIsWritten(name: seq<Byte>)
    requires ParseName(name).Some?
    ensures |Wire(ParseName(name).value)| == ReservedLength(name) + if EndsInEscapedPeriod(name) then 1 else 0
    decreases |name|
  {
    hide ParseName, Wire, Units, LabelBytes, LabelEnd, EndsInEscapedPeriod;
    if name == [] {
      ReservedForRoot();
    } else {
      ParseShape(name);
      UnitsAfterLabel(name, 0);
      assert name[0..] == name;
      var end := LabelEnd(name);
      if end == |name| {
        EscapedPeriodInLastLabel(name);
        WireOfCons(LabelBytes(name), []);
      } else {
        var rest := name[end + 1..];
        ReservedIsWritten(rest);
        WireOfCons(LabelBytes(name), ParseName(rest).value);
        if rest == [] {
          PeriodEndsName(name);
          ReservedForRoot();
        } else {
          EscapedPeriodAfterLabel(name);
        }
      }
    }
  }

  // ----- ares_create_query

  /** The length pre-pass, whose result is compared with MAXCDNAME. */
  method CountReserved(name: seq<Byte>) returns (len: nat)
    ensures len == ReservedLength(name)
  {
    len := 1;
    var p := 0;
    while p < |name|
      invariant 0 <= p <= |name|
      invariant len + Units(name[p..]) == 1 + Units(name)
    {
      assert name[p..][UnitSize(name[p..])..] == name[p + UnitSize(name[p..])..];
      if name[p] == BACKSLASH && p + 1 < |name| {
        p := p + 1;
      }
      len := len + 1;
      p := p + 1;
    }
    if name != [] && name[p - 1] != DOT {
      len := len + 1;
    }
  }

  method CountLabel(name: seq<Byte>, from: nat) returns (len: nat)
    requires from <= |name|
    ensures len == |LabelBytes(name[from..])|
  {
    len := 0;
    var p := from;
    while p < |name| && name[p] != DOT
      invariant from <= p <= |name|
      invariant len + |LabelBytes(name[p..])| == |LabelBytes(name[from..])|
    {
      assert name[p..][UnitSize(name[p..])..] == name[p + UnitSize(name[p..])..];
      if name[p] == BACKSLASH && p + 1 < |name| {
        p := p + 1;
      }
      len := len + 1;
      p := p + 1;
    }
  }

  lemma LabelStep(name: seq<Byte>, p: nat, next: nat)
    requires p < |name| && name[p] != DOT
    requires next == if name[p] == BACKSLASH && p + 1 < |name| then p + 2 else p + 1
    ensures LabelBytes(name[p..]) == [name[next - 1]] + LabelBytes(name[next..])
    ensures p + LabelEnd(name[p..]) == next + LabelEnd(name[next..])
  {
    assert name[p..][next - p..] == name[next..];
  }

  lemma LabelStops(name: seq<Byte>, p: nat)
    requires p <= |name| && (p == |name| || name[p] == DOT)
    ensures LabelBytes(name[p..]) == [] && LabelEnd(name[p..]) == 0
  {
  }

  /** Writes a label's length byte and then its bytes. */
  method WriteLabel(name: seq<Byte>, from: nat, len: Byte, buf: array<Byte>, at: nat) returns (p: nat, q: nat)
    requires from <= |name| && len == |LabelBytes(name[from..])| && at + 1 + len <= buf.Length
    modifies buf
    ensures p == from + LabelEnd(name[from..])
    ensures q == at + 1 + len
    ensures buf[..q] == old(buf[..at]) + ([len] + LabelBytes(name[from..]))
  {
    hide *;
    ghost var text := [len] + LabelBytes(name[from..]);
    buf[at] := len;
    p, q := from, at + 1;
    while p < |name| && name[p] != DOT
      invariant from <= p <= |name| && p + LabelEnd(name[p..]) == from + LabelEnd(name[from..])
      invariant at <= q <= at + |text| && LabelBytes(name[p..]) == text[q - at..]
      invariant buf[..at] == old(buf[..at]) && buf[at..q] == text[..q - at]
      decreases |name| - p
    {
      LabelStep(name, p, if name[p] == BACKSLASH && p + 1 < |name| then p + 2 else p + 1);
      if name[p] == BACKSLASH && p + 1 < |name| {
        p := p + 1;
      }
      buf[q] := name[p];
      q := q + 1;
      p := p + 1;
    }
    LabelStops(name, p);
  }

  /** The labels of a name, given the labels already read and the text still to read. */
  function ParseAfter(done: seq<seq<Byte>>, rest: seq<Byte>): Option<seq<seq<Byte>>>
  {
    var r := ParseName(rest);
    if r.None? then None else Some(done + r.value)
  }

  lemma ParsesFirst(rest: seq<Byte>)
    requires rest != []
    ensures ParseName(rest) == if rest[0] == DOT || |LabelBytes(rest)| > MAXLABEL then None
                               else
                                 var tail := ParseName(if LabelEnd(rest) == |rest| then [] else rest[LabelEnd(rest) + 1..]);
                                 if tail.None? then None else Some([LabelBytes(rest)] + tail.value)
  {
    hide LabelBytes, LabelEnd;
  }

  lemma ParseStep(done: seq<seq<Byte>>, rest: seq<Byte>)
    requires rest != []
    ensures rest[0] == DOT ==> ParseAfter(done, rest).None?
    ensures |LabelBytes(rest)| > MAXLABEL ==> ParseAfter(done, rest).None?
    ensures rest[0] != DOT && |LabelBytes(rest)| <= MAXLABEL ==>
              && 1 <= |LabelBytes(rest)|
              && ParseAfter(done, rest) == ParseAfter(done + [LabelBytes(rest)],
                                                     if LabelEnd(rest) == |rest| then [] else rest[LabelEnd(rest) + 1..])
  {
    hide LabelBytes, LabelEnd, UnitSize, ParseName;
    LabelBytesNonempty(rest);
    ParsesFirst(rest);
    if rest[0] != DOT && |LabelBytes(rest)| <= MAXLABEL {
      var l := LabelBytes(rest);
      var tail := ParseName(if LabelEnd(rest) == |rest| then [] else rest[LabelEnd(rest) + 1..]);
      assert tail.Some? ==> done + ([l] + tail.value) == (done + [l]) + tail.value;
    }
  }

  lemma ParseBegins(name: seq<Byte>)
    ensures name[0..] == name && ParseName(name) == ParseAfter([], name) && WireLabels([]) == []
  {
    if ParseName(name).Some? {
      assert [] + ParseName(name).value == ParseName(name).value;
    }
  }

  lemma ParseEnds(done: seq<seq<Byte>>)
    ensures ParseAfter(done, []) == Some(done)
  {
    assert done + [] == done;
  }

  /** DNS__SET16BIT. */
  method Set16(buf: array<Byte>, at: nat, v: int)
    requires at + 2 <= buf.Length
    modifies buf
    ensures buf[at] == v / 256 % 256 && buf[at + 1] == v % 256
    ensures forall i :: 0 <= i < buf.Length && i != at && i != at + 1 ==> buf[i] == old(buf[i])
  {
    buf[at] := v / 256 % 256;
    buf[at + 1] := v % 256;
  }

  /** memset(buf + at, 0, n). */
  method Clear(buf: array<Byte>, at: nat, n: nat)
    requires at + n <= buf.Length
    modifies buf
    ensures forall i :: 0 <= i < buf.Length ==> buf[i] == if at <= i < at + n then 0 else old(buf[i])
  {
    for i := at to at + n
      invariant forall j :: 0 <= j < buf.Length ==> buf[j] == if at <= j < i then 0 else old(buf[j])
    {
      buf[i] := 0;
    }
  }

  method WriteHeader(buf: array<Byte>, id: int, rd: bool, edns: bool)
    requires buf.Length >= HFIXEDSZ
    modifies buf
    ensures buf[..HFIXEDSZ] == Header(id, rd, edns)
  {
    Clear(buf, 0, HFIXEDSZ);
    Set16(buf, 0, id);
    // DNS_HEADER_SET_OPCODE(QUERY) ors in zero; DNS_HEADER_SET_RD ors in bit 0 of a cleared byte.
    if rd {
      buf[2] := buf[2] + 1;
    }
    Set16(buf, 4, 1);
    if edns {
      Set16(buf, 10, 1);
    }
  }

  /** Type and class of the question. */
  method WriteQuestion(buf: array<Byte>, at: nat, rrtype: int, dnsclass: int)
    requires at + QFIXEDSZ <= buf.Length
    modifies buf
    ensures buf[..at + QFIXEDSZ] == old(buf[..at]) + Put16(rrtype) + Put16(dnsclass)
  {
    Set16(buf, at, rrtype);
    Set16(buf, at + 2, dnsclass);
  }

  method WriteOpt(buf: array<Byte>, at: nat, maxUdpSize: int)
    requires at + EDNSFIXEDSZ <= buf.Length && maxUdpSize != 0
    modifies buf
    ensures buf[..at + EDNSFIXEDSZ] == old(buf[..at]) + OptRecord(maxUdpSize)
  {
    hide OptRecord;
    Clear(buf, at, EDNSFIXEDSZ);
    Set16(buf, at + 1, T_OPT);
    Set16(buf, at + 3, maxUdpSize);
    OptBytes(buf[at..at + EDNSFIXEDSZ], maxUdpSize);
    assert buf[..at] == old(buf[..at]);
    assert buf[..at + EDNSFIXEDSZ] == buf[..at] + buf[at..at + EDNSFIXEDSZ];
  }

  lemma OptBytes(s: seq<Byte>, maxUdpSize: int)
    requires |s| == EDNSFIXEDSZ && maxUdpSize != 0
    requires s[0] == 0 && s[1] == 0 && s[2] == T_OPT && s[3] == maxUdpSize / 256 % 256 && s[4] == maxUdpSize % 256
    requires s[5] == s[6] == s[7] == s[8] == s[9] == s[10] == 0
    ensures s == OptRecord(maxUdpSize)
  {
  }

  lemma AfterLabel(name: seq<Byte>, start: nat, n: nat)
    requires start + n <= |name|
    ensures n == |name[start..]| ==> name[start + n..] == []
    ensures n < |name[start..]| ==> name[start..][n + 1..] == name[start + n + 1..]
  {
  }

  /** One turn of the label loop, at the label that starts at `start`. */
  lemma LabelLoopStep(name: seq<Byte>, start: nat, end: nat, next: nat, done: seq<seq<Byte>>)
    requires start < |name| && forall l :: l in done ==> |l| <= 63
    requires end == start + LabelEnd(name[start..]) && next == if end == |name| then end else end + 1
    ensures name[start] == DOT || |LabelBytes(name[start..])| > MAXLABEL ==> ParseAfter(done, name[start..]).None?
    ensures name[start] != DOT && |LabelBytes(name[start..])| <= MAXLABEL ==>
              && (forall l :: l in done + [LabelBytes(name[start..])] ==> |l| <= 63)
              && ParseAfter(done, name[start..]) == ParseAfter(done + [LabelBytes(name[start..])], name[next..])
              && WireLabels(done + [LabelBytes(name[start..])])
                 == WireLabels(done) + ([|LabelBytes(name[start..])| as Byte] + LabelBytes(name[start..]))
              && Units(name[start..]) >= |LabelBytes(name[start..])| + Units(name[next..]) + if next < |name| then 1 else 0
  {
    hide ParseName, ParseAfter, Units, LabelBytes, WireLabels, LabelEnd;
    var rest := name[start..];
    ParseStep(done, rest);
    UnitsAfterLabel(name, start);
    AfterLabel(name, start, LabelEnd(rest));
    if |LabelBytes(rest)| <= MAXLABEL {
      WireLabelsAppend(done, LabelBytes(rest));
    }
  }

  /**
   The label loop: returns false where the source returns ARES_EBADNAME. The
   cursor never passes the position `limit`, whatever the outcome.
   */
  method WriteName(name: seq<Byte>, buf: array<Byte>, ghost limit: nat) returns (ok: bool, q: nat)
    requires HFIXEDSZ + Units(name) + 1 <= limit < buf.Length
    modifies buf
    ensures ok <==> ParseName(name).Some?
    ensures ok ==> q == HFIXEDSZ + |WireLabels(ParseName(name).value)| <= limit
    ensures ok ==> buf[..q] == old(buf[..HFIXEDSZ]) + WireLabels(ParseName(name).value)
  {
    hide ParseName, ParseAfter, Units, LabelBytes, LabelEnd, WireLabels;
    var start, p := 0, 0;
    q := HFIXEDSZ;
    ghost var done: seq<seq<Byte>> := [];
    ParseBegins(name);
    while start < |name|
      invariant start <= |name| && (forall l :: l in done ==> |l| <= 63)
      invariant ParseName(name) == ParseAfter(done, name[start..])
      invariant q + Units(name[start..]) + (if start < |name| then 1 else 0) <= limit
      invariant q == HFIXEDSZ + |WireLabels(done)| && buf[..q] == old(buf[..HFIXEDSZ]) + WireLabels(done)
    {
      ghost var end := start + LabelEnd(name[start..]);
      ghost var l := LabelBytes(name[start..]);
      LabelLoopStep(name, start, end, if end == |name| then end else end + 1, done);
      if name[start] == DOT {
        return false, q;
      }
      var len := CountLabel(name, start);
      if len > MAXLABEL {
        return false, q;
      }
      p, q := WriteLabel(name, start, len, buf, q);
      done := done + [l];
      if p == |name| {
        start := p;
        break;
      }
      start := p + 1;
    }
    assert name[|name|..] == [];
    ParseEnds(done);
    ok := true;
  }

  /**
   Builds the query. `buf` has one cell more than the `buflen` bytes the source
   allocates: that cell stands for the byte after the allocation.
   */
  method CreateQuery(name: CString, dnsclass: int, rrtype: int, id: int, rd: bool, maxUdpSize: int)
    returns (status: Status, buf: array?<Byte>, buflen: nat)
    ensures status == SUCCESS || status == EBADNAME
    ensures status == SUCCESS <==> ReservedLength(name) <= MAXCDNAME && ParseName(NameToEncode(name)).Some?
    ensures buflen == if ReservedLength(name) <= MAXCDNAME then BufferLength(name, maxUdpSize) else 0
    ensures status == SUCCESS ==>
              var image := Message(ParseName(NameToEncode(name)).value, dnsclass, rrtype, id, rd, maxUdpSize);
              buf != null && buf.Length == buflen + 1 && |image| <= buflen + 1 && buf[..|image|] == image
  {
    hide ParseName, Units, WireLabels, ReservedLength, Header, OptRecord, Put16;
    var len := CountReserved(name);
    if len > MAXCDNAME {
      return EBADNAME, null, 0;
    }
    buflen := len + HFIXEDSZ + QFIXEDSZ + if maxUdpSize != 0 then EDNSFIXEDSZ else 0;
    buf := new Byte[buflen + 1];
    WriteHeader(buf, id, rd, maxUdpSize != 0);
    var text := if name == [DOT] then [] else name;
    UnitsFit(name);
    var ok, q := WriteName(text, buf, len + HFIXEDSZ);
    if !ok {
      return EBADNAME, buf, buflen;
    }
    buf[q] := 0;
    q := q + 1;
    assert buf[..q] == Header(id, rd, maxUdpSize != 0) + Wire(ParseName(text).value);
    FinishQuery(buf, q, rrtype, dnsclass, maxUdpSize);
    status := SUCCESS;
  }

  /** What follows the name: type, class and the OPT record. */
  method FinishQuery(buf: array<Byte>, at: nat, rrtype: int, dnsclass: int, maxUdpSize: int)
    requires at + QFIXEDSZ + (if maxUdpSize != 0 then EDNSFIXEDSZ else 0) <= buf.Length
    modifies buf
    ensures var n := at + QFIXEDSZ + if maxUdpSize != 0 then EDNSFIXEDSZ else 0;
            buf[..n] == old(buf[..at]) + Put16(rrtype) + Put16(dnsclass) + OptRecord(maxUdpSize)
  {
    hide OptRecord, Put16;
    WriteQuestion(buf, at, rrtype, dnsclass);
    if maxUdpSize != 0 {
      WriteOpt(buf, at + QFIXEDSZ, maxUdpSize);
    } else {
      NoOpt();
    }
  }

  lemma UnitsFit(name: seq<Byte>)
    ensures Units(NameToEncode(name)) + 1 <= ReservedLength(name)
  {
  }

  lemma NoOpt()
    ensures OptRecord(0) == []
  {
  }
}
