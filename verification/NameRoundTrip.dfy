/**
 The laws that tie the query encoder to the name expander: exact buffer use,
 fields that read back, and round trips in both directions.
 */
module NameRoundTrip {
  import opened Common
  import opened Bytes
  import opened Status
  import opened NameExpansion
  import opened QueryEncoding

  ghost predicate Legal(labels: seq<seq<Byte>>)
  {
    forall l :: l in labels ==> 1 <= |l| <= 63
  }

  // ----- Buffer use

  /**
   The message fills exactly the `buflen` bytes, except that the root name "."
   leaves one byte over and a name ending in an escaped period needs one more.
   */
  lemma MessageFillsBuffer(name: CString, dnsclass: int, rrtype: int, id: int, rd: bool, maxUdpSize: int)
    requires ParseName(NameToEncode(name)).Some?
    ensures |Message(ParseName(NameToEncode(name)).value, dnsclass, rrtype, id, rd, maxUdpSize)|
            == BufferLength(name, maxUdpSize)
               + if name == [DOT] then -1 else if EndsInEscapedPeriod(name) then 1 else 0
  {
    hide ParseName, WireLabels, Header, OptRecord, EndsInEscapedPeriod, Units;
    ReservedIsWritten(NameToEncode(name));
    if name == [DOT] {
      RootReservesTwo();
    }
  }

  /** For instance the name a\\. is accepted, and its message is one byte longer than its buffer. */
  lemma OneByteTooMany(dnsclass: int, rrtype: int, id: int, rd: bool, maxUdpSize: int)
    ensures var name := [97, BACKSLASH, DOT];
            && ReservedLength(name) <= MAXCDNAME && ParseName(NameToEncode(name)) == Some([[97, DOT]])
            && |Message([[97, DOT]], dnsclass, rrtype, id, rd, maxUdpSize)| == BufferLength(name, maxUdpSize) + 1
  {
    hide Message, BufferLength;
    var name := [97, BACKSLASH, DOT];
    EscapedPeriodAlone();
    MessageFillsBuffer(name, dnsclass, rrtype, id, rd, maxUdpSize);
  }

  lemma EscapedPeriodAlone()
    ensures var name := [97, BACKSLASH, DOT];
            && ReservedLength(name) <= MAXCDNAME && ParseName(name) == Some([[97, DOT]]) && EndsInEscapedPeriod(name)
  {
    hide ParseName, ReservedLength, Units, LabelBytes, LabelEnd, EndsInEscapedPeriod;
    FirstUnit([]);
    FirstUnit([BACKSLASH, DOT]);
    FirstUnit([97, BACKSLASH, DOT]);
    assert [BACKSLASH, DOT][2..] == [] && [97, BACKSLASH, DOT][1..] == [BACKSLASH, DOT];
    assert [DOT] + [] == [DOT] && [97] + [DOT] == [97, DOT];
    OnlyLabel([97, BACKSLASH, DOT]);
  }

  /** How each reading of a name takes its first unit. */
  lemma FirstUnit(name: seq<Byte>)
    ensures name == [] ==> Units(name) == 0 && LabelBytes(name) == [] && LabelEnd(name) == 0
    ensures name != [] && name[0] != DOT ==>
              var n := if name[0] == BACKSLASH && |name| > 1 then 2 else 1;
              && Units(name) == 1 + Units(name[n..])
              && LabelBytes(name) == [name[n - 1]] + LabelBytes(name[n..])
              && LabelEnd(name) == n + LabelEnd(name[n..])
              && EndsInEscapedPeriod(name) == if n == |name| then n == 2 && name[1] == DOT else EndsInEscapedPeriod(name[n..])
  {
  }

  lemma OnlyLabel(name: seq<Byte>)
    requires name != [] && name[0] != DOT && LabelEnd(name) == |name| && |LabelBytes(name)| <= MAXLABEL
    ensures ParseName(name) == Some([LabelBytes(name)])
    ensures ReservedLength(name) == 1 + Units(name) + if name[|name| - 1] != DOT then 1 else 0
  {
    hide LabelBytes, LabelEnd, Units;
    assert [LabelBytes(name)] + [] == [LabelBytes(name)];
  }

  /** Every field the encoder sets is read back by the accessor macros. */
  lemma FieldsReadBack(labels: seq<seq<Byte>>, dnsclass: int, rrtype: int, id: int, rd: bool, maxUdpSize: int)
    requires Legal(labels)
    ensures var m := Message(labels, dnsclass, rrtype, id, rd, maxUdpSize);
            var q := 12 + |Wire(labels)|;
            && |m| == q + 4 + (if maxUdpSize != 0 then 11 else 0)
            && Get16(m, 0) == id % 0x1_0000                                   // QID
            && m[2] == (if rd then 1 else 0) && m[3] == 0                     // RD, and no other flag
            && Get16(m, 4) == 1 && Get16(m, 6) == 0 && Get16(m, 8) == 0       // QDCOUNT, ANCOUNT, NSCOUNT
            && Get16(m, 10) == (if maxUdpSize != 0 then 1 else 0)             // ARCOUNT
            && Get16(m, q) == rrtype % 0x1_0000 && Get16(m, q + 2) == dnsclass % 0x1_0000
            && (maxUdpSize != 0 ==>
                  && m[q + 4] == 0 && Get16(m, q + 5) == 41
                  && Get16(m, q + 7) == maxUdpSize % 0x1_0000
                  && Get32(m, q + 9) == 0 && Get16(m, q + 13) == 0)
  {
    hide Wire, Put16, Header, OptRecord, Get16, Get32;
    var header, wire, opt := Header(id, rd, maxUdpSize != 0), Wire(labels), OptRecord(maxUdpSize);
    var m := Message(labels, dnsclass, rrtype, id, rd, maxUdpSize);
    var q, rrt, cls := HFIXEDSZ + |wire|, Put16(rrtype), Put16(dnsclass);
    HeaderReadsBack(id, rd, maxUdpSize != 0);
    ReadsFirst(header, wire, rrt, cls, opt);
    ReadsType(header, wire, rrt, cls, opt);
    ReadsClass(header, wire, rrt, cls, opt);
    if maxUdpSize != 0 {
      OptReadsBack(maxUdpSize);
      ReadsLast(header, wire, rrt, cls, opt);
    }
  }

  /** The bytes of a query for the addresses of a.b, with recursion and a UDP size of 1280. */
  lemma QueryBytes()
    ensures ParseName([97, 46, 98]) == Some([[97], [98]])
    ensures Message([[97], [98]], 1, 1, 0x1234, true, 1280)
            == [0x12, 0x34, 1, 0, 0, 1, 0, 0, 0, 0, 0, 1] + [1, 97, 1, 98, 0] + [0, 1] + [0, 1] + [0, 0, 41, 5, 0, 0, 0, 0, 0, 0, 0]
  {
    hide Header, Wire, WireLabels, Put16, OptRecord, ParseName;
    NameOfTwoLabels();
    WireOfTwoLabels();
    FixedBytes();
  }

  lemma FixedBytes()
    ensures Header(0x1234, true, true) == [0x12, 0x34, 1, 0, 0, 1, 0, 0, 0, 0, 0, 1]
    ensures Put16(1) == [0, 1] && OptRecord(1280) == [0, 0, 41, 5, 0, 0, 0, 0, 0, 0, 0]
  {
  }

  lemma NameOfTwoLabels()
    ensures ParseName([97, 46, 98]) == Some([[97], [98]])
  {
    hide ParseName, LabelBytes, LabelEnd;
    FirstUnit([98]);
    FirstUnit([97, 46, 98]);
    FirstUnit([46, 98]);
    StopsAtOnce([46, 98]);
    StopsAtOnce([]);
    assert [98][1..] == [] && [97, 46, 98][1..] == [46, 98] && [97, 46, 98][2..] == [98];
    assert [98] + [] == [98] && [97] + [] == [97];
    OnlyLabel([98]);
    ParseOneLabel([97, 46, 98], [97], [[98]]);
    assert [[97]] + [[98]] == [[97], [98]];
  }

  lemma WireOfTwoLabels()
    ensures Wire([[97], [98]]) == [1, 97, 1, 98, 0]
  {
    hide Wire;
    WireOfCons([98], []);
    WireOfCons([97], [[98]]);
    assert [[97]] + [[98]] == [[97], [98]] && [[98]] + [] == [[98]];
  }

  /** All reads of a part of m that starts at p. */
  ghost predicate ReadsAs(m: seq<Byte>, p: nat, part: seq<Byte>)
  {
    && p + |part| <= |m|
    && (forall i :: 0 <= i < |part| ==> m[p + i] == part[i])
    && (forall i :: 0 <= i <= |part| - 2 ==> Get16(m, p + i) == Get16(part, i))
    && (forall i :: 0 <= i <= |part| - 4 ==> Get32(m, p + i) == Get32(part, i))
  }

  lemma ReadsFirst(h: seq<Byte>, w: seq<Byte>, a: seq<Byte>, b: seq<Byte>, o: seq<Byte>)
    ensures ReadsAs(h + w + a + b + o, 0, h)
  {
    hide ReadsAs;
    assert h + w + a + b + o == [] + h + (w + a + b + o);
    ReadsInside([], h, w + a + b + o);
  }

  lemma ReadsType(h: seq<Byte>, w: seq<Byte>, a: seq<Byte>, b: seq<Byte>, o: seq<Byte>)
    ensures ReadsAs(h + w + a + b + o, |h| + |w|, a)
  {
    hide ReadsAs;
    assert h + w + a + b + o == (h + w) + a + (b + o);
    ReadsInside(h + w, a, b + o);
  }

  lemma ReadsClass(h: seq<Byte>, w: seq<Byte>, a: seq<Byte>, b: seq<Byte>, o: seq<Byte>)
    ensures ReadsAs(h + w + a + b + o, |h| + |w| + |a|, b)
  {
    hide ReadsAs;
    ReadsInside(h + w + a, b, o);
  }

  lemma ReadsLast(h: seq<Byte>, w: seq<Byte>, a: seq<Byte>, b: seq<Byte>, o: seq<Byte>)
    ensures ReadsAs(h + w + a + b + o, |h| + |w| + |a| + |b|, o)
  {
    hide ReadsAs;
    ReadsAtEnd(h + w + a + b, o);
  }

  lemma ReadsAtEnd(before: seq<Byte>, part: seq<Byte>)
    ensures ReadsAs(before + part, |before|, part)
  {
    hide ReadsAs;
    assert before + part == before + part + [];
    ReadsInside(before, part, []);
  }

  lemma RootReservesTwo()
    ensures ReservedLength([DOT]) == 2 && ReservedLength([]) == 1
    ensures ParseName([]) == Some([]) && |Wire([])| == 1 && !EndsInEscapedPeriod([])
  {
    var root: seq<Byte> := [DOT];
    assert UnitSize(root) == 1 && root[1..] == [];
    assert Units(root) == 1 + Units([]);
    assert WireLabels([]) == [];
  }

  /** A field read inside a part of a message is the field read in that part. */
  lemma ReadsInside(before: seq<Byte>, part: seq<Byte>, after: seq<Byte>)
    ensures ReadsAs(before + part + after, |before|, part)
  {
  }

  lemma HeaderReadsBack(id: int, rd: bool, edns: bool)
    ensures var h := Header(id, rd, edns);
            && Get16(h, 0) == id % 0x1_0000 && h[2] == (if rd then 1 else 0) && h[3] == 0
            && Get16(h, 4) == 1 && Get16(h, 6) == 0 && Get16(h, 8) == 0 && Get16(h, 10) == if edns then 1 else 0
  {
  }

  lemma OptReadsBack(maxUdpSize: int)
    requires maxUdpSize != 0
    ensures var o := OptRecord(maxUdpSize);
            && o[0] == 0 && Get16(o, 1) == T_OPT && Get16(o, 3) == maxUdpSize % 0x1_0000
            && Get32(o, 5) == 0 && Get16(o, 9) == 0
  {
    var o := OptRecord(maxUdpSize);
    assert o[3..5] == Put16(maxUdpSize);
  }

  // ----- Wire form and expansion

  /** The name at p has these labels, takes n bytes there and is read in k hops. */
  ghost predicate NameAt(m: seq<Byte>, p: nat, k: nat, labels: seq<seq<Byte>>, n: nat)
  {
    EndsIn(m, p, k) && Labels(m, p, k) == labels && EncodedLength(m, p, k) == n
  }

  /** Labels in front of anything that can be read as a name are read before it. */
  lemma {:induction false} PrefixDecodes(before: seq<Byte>, labels: seq<seq<Byte>>, rest: seq<Byte>,
                                         k: nat, others: seq<seq<Byte>>, n: nat)
    requires Legal(labels) && NameAt(before + WireLabels(labels) + rest, |before| + |WireLabels(labels)|, k, others, n)
    ensures NameAt(before + WireLabels(labels) + rest, |before|, |labels| + k, labels + others, |WireLabels(labels)| + n)
    decreases |labels|
  {
    hide NameAt, HopAt, WireLabels, Legal;
    if labels == [] {
      NoLabelsOnWire();
      assert before + [] + rest == before + rest && [] + others == others;
    } else {
      var l, more := labels[0], labels[1..];
      LabelsOnWire(labels);
      var first := [|l| as Byte] + l;
      InFront(before, first, WireLabels(more), rest);
      PrefixDecodes(before + first, more, rest, k, others, n);
      DecodesLabel(before + WireLabels(labels) + rest, |before|, l, |more| + k, more + others, |WireLabels(more)| + n);
      assert [l] + (more + others) == labels + others;
    }
  }

  lemma NoLabelsOnWire()
    ensures WireLabels([]) == []
  {
  }

  lemma LabelsOnWire(labels: seq<seq<Byte>>)
    requires Legal(labels) && labels != []
    ensures 1 <= |labels[0]| <= 63 && Legal(labels[1..])
    ensures WireLabels(labels) == [|labels[0]| as Byte] + labels[0] + WireLabels(labels[1..])
  {
  }

  /** An encoded name decodes, wherever it stands, to its labels and spans its own length. */
  lemma WireDecodes(before: seq<Byte>, labels: seq<seq<Byte>>, after: seq<Byte>)
    requires Legal(labels)
    ensures NameAt(before + Wire(labels) + after, |before|, |labels|, labels, |Wire(labels)|)
  {
    hide NameAt, WireLabels;
    var wire := WireLabels(labels);
    AfterLabels(before, wire, [0], after);
    DecodesZero(before + wire + ([0] + after), |before| + |wire|);
    PrefixDecodes(before, labels, [0] + after, 0, [], 1);
    assert labels + [] == labels;
  }

  lemma AfterLabels(before: seq<Byte>, wire: seq<Byte>, end: seq<Byte>, after: seq<Byte>)
    requires end != []
    ensures var m, q := before + wire + (end + after), |before| + |wire|;
            && m == before + (wire + end) + after
            && q + |end| <= |m| && m[q..q + |end|] == end && m[q] == end[0]
  {
  }

  /**
   A compression pointer (section 4.1.4 of RFC 1035): two bytes that begin with two set
   bits stand for the rest of the name, which is at the offset in the other fourteen bits.
   */
  lemma PointerDecodes(m: seq<Byte>, q: nat, t: nat)
    requires t < 0x4000 && q + 2 <= |m| && m[q..q + 2] == Put16(0xC000 + t)
    ensures Resolves(m, q) <==> Resolves(m, t)
    ensures forall k: nat, labels, n: nat :: NameAt(m, t, k, labels, n) ==> NameAt(m, q, k + 1, labels, 2)
  {
    hide Put16;
    PointerHop(m, q, t);
    Follows(m, q, t);
  }

  lemma Follows(m: seq<Byte>, q: nat, t: nat)
    requires HopAt(m, q) == if t < |m| then Jump(t) else Bad
    requires t >= |m| ==> HopAt(m, t) == Bad
    ensures Resolves(m, q) <==> Resolves(m, t)
    ensures forall k: nat, labels, n: nat :: NameAt(m, t, k, labels, n) ==> NameAt(m, q, k + 1, labels, 2)
  {
    hide HopAt;
    assert forall k: nat :: EndsIn(m, t, k) ==> EndsIn(m, q, k + 1);
    assert forall k: nat :: EndsIn(m, q, k) ==> k > 0 && EndsIn(m, t, k - 1);
  }

  lemma PointerHop(m: seq<Byte>, q: nat, t: nat)
    requires t < 0x4000 && q + 2 <= |m| && m[q..q + 2] == Put16(0xC000 + t)
    ensures HopAt(m, q) == if t < |m| then Jump(t) else Bad
    ensures t >= |m| ==> HopAt(m, t) == Bad
  {
    var two := m[q..q + 2];
    assert m[q] == two[0] == 192 + t / 256 && m[q + 1] == two[1] == t % 256;
  }

  /** A name that ends in a pointer decodes to its own labels and those it points to. */
  lemma CompressedDecodes(before: seq<Byte>, labels: seq<seq<Byte>>, t: nat, after: seq<Byte>,
                          k: nat, others: seq<seq<Byte>>, n: nat)
    requires Legal(labels) && t < 0x4000 && NameAt(before + (WireLabels(labels) + Put16(0xC000 + t)) + after, t, k, others, n)
    ensures NameAt(before + (WireLabels(labels) + Put16(0xC000 + t)) + after, |before|, |labels| + k + 1,
                   labels + others, |WireLabels(labels)| + 2)
  {
    hide NameAt, WireLabels, Put16;
    var pointer, wire := Put16(0xC000 + t), WireLabels(labels);
    AfterLabels(before, wire, pointer, after);
    PointerDecodes(before + wire + (pointer + after), |before| + |wire|, t);
    PrefixDecodes(before, labels, pointer + after, k + 1, others, 2);
  }

  /** No name can be read outside the message, at top bits 01 or 10, or where a label or a pointer is cut off. */
  lemma Unreadable(m: seq<Byte>, p: nat)
    ensures p >= |m| || 64 <= m[p] < 192 || (0 < m[p] < 64 && p + 1 + m[p] >= |m|) || (m[p] >= 192 && p + 1 >= |m|)
            ==> !Resolves(m, p)
  {
    if p >= |m| || 64 <= m[p] < 192 || (0 < m[p] < 64 && p + 1 + m[p] >= |m|) || (m[p] >= 192 && p + 1 >= |m|) {
      assert HopAt(m, p) == Bad;
      assert forall k: nat :: !EndsIn(m, p, k);
    }
  }

  /** The bytes of a label in front of the rest of a name. */
  lemma InFront(before: seq<Byte>, first: seq<Byte>, rest: seq<Byte>, after: seq<Byte>)
    requires first != []
    ensures var m := before + (first + rest) + after;
            && m == (before + first) + rest + after
            && |before| + |first| <= |m|
            && m[|before|] == first[0] && m[|before| + 1..|before| + |first|] == first[1..]
  {
    var m := before + (first + rest) + after;
    forall k | |before| <= k < |before| + |first|
      ensures m[k] == first[k - |before|]
    {
    }
  }

  lemma DecodesZero(m: seq<Byte>, p: nat)
    requires p < |m| && m[p] == 0
    ensures NameAt(m, p, 0, [], 1)
  {
  }

  lemma DecodesLabel(m: seq<Byte>, p: nat, l: seq<Byte>, k: nat, others: seq<seq<Byte>>, n: nat)
    requires 1 <= |l| <= 63 && p + 1 + |l| <= |m| && m[p] == |l| && m[p + 1..p + 1 + |l|] == l
    requires NameAt(m, p + 1 + |l|, k, others, n)
    ensures NameAt(m, p, k + 1, [l] + others, 1 + |l| + n)
  {
    assert HopAt(m, p + 1 + |l|) != Bad;
    assert HopAt(m, p) == Label(l, p + 1 + |l|);
  }

  // ----- Presentation form

  /** Each backslash escapes a period or a backslash, and no bare period ends the name. */
  predicate WellEscaped(name: seq<Byte>)
  {
    if name == [] then true
    else if name[0] == BACKSLASH then
      |name| > 1 && (name[1] == DOT || name[1] == BACKSLASH) && WellEscaped(name[2..])
    else (name[0] == DOT ==> |name| > 1) && WellEscaped(name[1..])
  }

  lemma {:induction false} EscapedLabelParses(l: seq<Byte>, tail: seq<Byte>)
    requires tail == [] || tail[0] == DOT
    ensures LabelBytes(Escape(l) + tail) == l
    ensures LabelEnd(Escape(l) + tail) == |Escape(l)|
  {
    hide LabelBytes, LabelEnd, Escape, EscapeByte;
    var name := Escape(l) + tail;
    EscapeSplits(l);
    if l == [] {
      assert name == tail;
      StopsAtOnce(tail);
    } else {
      EscapedLabelParses(l[1..], tail);
      var rest := Escape(l[1..]) + tail;
      assert name == EscapeByte(l[0]) + rest;
      EscapedUnit(l[0], rest);
      assert l == [l[0]] + l[1..];
    }
  }

  lemma EscapeSplits(l: seq<Byte>)
    ensures Escape(l) == if l == [] then [] else EscapeByte(l[0]) + Escape(l[1..])
  {
  }

  lemma StopsAtOnce(tail: seq<Byte>)
    requires tail == [] || tail[0] == DOT
    ensures LabelBytes(tail) == [] && LabelEnd(tail) == 0
  {
  }

  lemma EscapedUnit(b: Byte, rest: seq<Byte>)
    ensures LabelBytes(EscapeByte(b) + rest) == [b] + LabelBytes(rest)
    ensures LabelEnd(EscapeByte(b) + rest) == |EscapeByte(b)| + LabelEnd(rest)
  {
    hide LabelBytes, LabelEnd;
    var name := EscapeByte(b) + rest;
    FirstUnit(name);
    assert name[|EscapeByte(b)|..] == rest;
  }

  lemma DottedOfCons(l: seq<Byte>, labels: seq<seq<Byte>>)
    ensures Dotted([l] + labels) == Escape(l) + if labels == [] then [] else [DOT] + Dotted(labels)
  {
    hide Escape, Dots;
    DotsOfCons(l, labels);
    if labels != [] {
      WithoutLastDot(Escape(l), Dots(labels));
    } else {
      NoDotsAtAll();
      assert Escape(l) + [DOT] + [] == Escape(l) + [DOT];
    }
  }

  lemma NoDotsAtAll()
    ensures Dots([]) == []
  {
  }

  lemma WithoutLastDot(e: seq<Byte>, dots: seq<Byte>)
    requires dots != []
    ensures var s := e + [DOT] + dots; s[..|s| - 1] == e + ([DOT] + dots[..|dots| - 1])
  {
  }

  /** The encoder reads back exactly the labels that the expander printed. */
  lemma {:induction false} ParseDotted(labels: seq<seq<Byte>>)
    requires Legal(labels)
    ensures ParseName(Dotted(labels)) == Some(labels)
    decreases |labels|
  {
    hide ParseName, Dotted, Escape, LabelBytes, LabelEnd;
    if labels == [] {
      ParseRoot();
    } else {
      var l, rest := labels[0], labels[1..];
      assert labels == [l] + rest;
      var tail := if rest == [] then [] else [DOT] + Dotted(rest);
      DottedOfCons(l, rest);
      EscapedLabelParses(l, tail);
      ParseDotted(rest);
      assert rest != [] ==> Dotted(labels)[|Escape(l)| + 1..] == Dotted(rest);
      ParseOneLabel(Dotted(labels), l, rest);
    }
  }

  lemma ParseRoot()
    ensures Dotted([]) == [] && ParseName([]) == Some([])
  {
  }

  lemma ParseOneLabel(name: seq<Byte>, l: seq<Byte>, rest: seq<seq<Byte>>)
    requires 1 <= |l| <= 63 && LabelBytes(name) == l
    requires if LabelEnd(name) == |name| then rest == [] else ParseName(name[LabelEnd(name) + 1..]) == Some(rest)
    ensures ParseName(name) == Some([l] + rest)
  {
    hide LabelBytes, LabelEnd, UnitSize;
    LabelBytesOfNothing();
    LabelBytesNonempty(name);
  }

  lemma LabelBytesOfNothing()
    ensures LabelBytes([]) == []
  {
  }

  lemma WellEscapedUnit(name: seq<Byte>)
    requires WellEscaped(name) && name != [] && name[0] != DOT
    ensures WellEscaped(name[UnitSize(name)..])
    ensures EscapeByte(name[UnitSize(name) - 1]) == name[..UnitSize(name)]
  {
  }

  lemma EscapedLabelUnit(name: seq<Byte>)
    requires name != [] && name[0] != DOT
    ensures LabelEnd(name) == UnitSize(name) + LabelEnd(name[UnitSize(name)..])
    ensures Escape(LabelBytes(name)) == EscapeByte(name[UnitSize(name) - 1]) + Escape(LabelBytes(name[UnitSize(name)..]))
  {
    assert LabelBytes(name)[1..] == LabelBytes(name[UnitSize(name)..]);
  }

  lemma NoLabelHere(name: seq<Byte>)
    requires WellEscaped(name) && (name == [] || name[0] == DOT)
    ensures LabelEnd(name) == 0 && Escape(LabelBytes(name)) == []
    ensures name != [] ==> |name| > 1 && WellEscaped(name[1..])
  {
  }

  /** Splitting off the first label of a well-escaped name. */
  lemma {:induction false} WellEscapedLabel(name: seq<Byte>)
    requires WellEscaped(name)
    ensures Escape(LabelBytes(name)) == name[..LabelEnd(name)]
    ensures LabelEnd(name) < |name| ==> LabelEnd(name) + 1 < |name| && WellEscaped(name[LabelEnd(name) + 1..])
    decreases |name|
  {
    hide WellEscaped, Escape, EscapeByte, LabelBytes, LabelEnd, UnitSize;
    if name == [] || name[0] == DOT {
      NoLabelHere(name);
    } else {
      var rest := name[UnitSize(name)..];
      WellEscapedUnit(name);
      EscapedLabelUnit(name);
      WellEscapedLabel(rest);
      assert name[..LabelEnd(name)] == name[..UnitSize(name)] + rest[..LabelEnd(rest)];
      assert LabelEnd(rest) < |rest| ==> rest[LabelEnd(rest) + 1..] == name[LabelEnd(name) + 1..];
    }
  }

  lemma {:induction false} WellEscapedLabelThen(l: seq<Byte>, tail: seq<Byte>)
    ensures WellEscaped(Escape(l) + tail) == WellEscaped(tail)
  {
    if l == [] {
      assert Escape(l) + tail == tail;
    } else {
      hide WellEscaped;
      WellEscapedLabelThen(l[1..], tail);
      WellEscapedByteThen(l[0], Escape(l[1..]) + tail);
      assert Escape(l) + tail == EscapeByte(l[0]) + (Escape(l[1..]) + tail);
    }
  }

  lemma WellEscapedByteThen(b: Byte, tail: seq<Byte>)
    ensures WellEscaped(EscapeByte(b) + tail) == WellEscaped(tail)
  {
    assert (EscapeByte(b) + tail)[|EscapeByte(b)|..] == tail;
  }

  /** What the expander prints is well escaped. */
  lemma {:induction false} DottedIsWellEscaped(labels: seq<seq<Byte>>)
    requires Legal(labels)
    ensures WellEscaped(Dotted(labels))
    ensures labels != [] ==> Dotted(labels) != []
    decreases |labels|
  {
    if labels != [] {
      var l, rest := labels[0], labels[1..];
      assert labels == [l] + rest;
      DottedOfCons(l, rest);
      DottedIsWellEscaped(rest);
      var tail := if rest == [] then [] else [DOT] + Dotted(rest);
      WellEscapedLabelThen(l, tail);
      assert rest != [] ==> tail[1..] == Dotted(rest);
    }
  }

  /** Printing what was parsed restores a name exactly when the name is well escaped. */
  lemma {:induction false} PrintingRestores(name: seq<Byte>)
    requires ParseName(name).Some?
    ensures Dotted(ParseName(name).value) == name <==> WellEscaped(name)
    decreases |name|
  {
    hide ParseName, Dotted, LabelBytes, LabelEnd, Escape, WellEscaped;
    var labels := ParseName(name).value;
    DottedIsWellEscaped(labels);
    if name == [] {
      ParseRoot();
    } else if WellEscaped(name) {
      ParseShape(name);
      WellEscapedLabel(name);
      var end := LabelEnd(name);
      if end == |name| {
        DottedOfCons(LabelBytes(name), []);
      } else {
        var rest := name[end + 1..];
        PrintingRestores(rest);
        assert ParseName(rest).value != [] by { ParseRoot(); }
        DottedOfCons(LabelBytes(name), ParseName(rest).value);
        assert name == name[..end] + [DOT] + rest;
      }
    }
  }

  // ----- Every spelling of a name

  /** A byte of a label as it is spelled; an escaped byte has a backslash in front. */
  datatype Unit = Unit(byte: Byte, escaped: bool)
  {
    /** A period that ends no label and a backslash that escapes nothing have to be escaped. */
    predicate Spellable() { escaped || (byte != 46 && byte != 92) }

    function Text(): seq<Byte> { if escaped then [92, byte] else [byte] }
  }

  function Spell(l: seq<Unit>): seq<Byte>
  {
    if l == [] then [] else l[0].Text() + Spell(l[1..])
  }

  function Meant(l: seq<Unit>): (bytes: seq<Byte>)
    ensures |bytes| == |l|
  {
    seq(|l|, i requires 0 <= i < |l| => l[i].byte)
  }

  /** Labels with a period after each, then a last one without, and perhaps a backslash that escapes nothing. */
  datatype Spelling = Spelling(labels: seq<seq<Unit>>, last: seq<Unit>, stray: bool)
  {
    ghost predicate Valid()
    {
      (forall l <- labels, u <- l :: u.Spellable()) && forall u <- last :: u.Spellable()
    }

    function End(): seq<Byte> { Spell(last) + if stray then [92] else [] }

    function EndMeant(): seq<Byte> { Meant(last) + if stray then [92] else [] }

    function Text(): seq<Byte>
      decreases |labels|
    {
      if labels == [] then End() else Spell(labels[0]) + [46] + Rest().Text()
    }

    function Rest(): Spelling
      requires labels != []
    {
      Spelling(labels[1..], last, stray)
    }

    /** What the labels stand for; an empty last one is not there. */
    function Labels(): seq<seq<Byte>>
      decreases |labels|
    {
      if labels == [] then (if EndMeant() == [] then [] else [EndMeant()]) else [Meant(labels[0])] + Rest().Labels()
    }

    /** The last character is a period that a backslash escapes. */
    predicate EscapedPeriodAtEnd() { !stray && last != [] && last[|last| - 1] == Unit(46, true) }
  }

  lemma SpelledUnit(u: Unit, tail: seq<Byte>)
    requires u.Spellable()
    ensures LabelBytes(u.Text() + tail) == [u.byte] + LabelBytes(tail)
    ensures LabelEnd(u.Text() + tail) == |u.Text()| + LabelEnd(tail)
    ensures EndsInEscapedPeriod(u.Text() + tail) == if tail == [] then u == Unit(46, true) else EndsInEscapedPeriod(tail)
  {
    hide LabelBytes, LabelEnd, EndsInEscapedPeriod;
    var name := u.Text() + tail;
    FirstUnit(name);
    assert name[|u.Text()|..] == tail;
  }

  lemma {:induction false} SpelledLabel(l: seq<Unit>, tail: seq<Byte>)
    requires forall u <- l :: u.Spellable()
    ensures LabelBytes(Spell(l) + tail) == Meant(l) + LabelBytes(tail)
    ensures LabelEnd(Spell(l) + tail) == |Spell(l)| + LabelEnd(tail)
    ensures EndsInEscapedPeriod(Spell(l) + tail)
            == if tail == [] then l != [] && l[|l| - 1] == Unit(46, true) else EndsInEscapedPeriod(tail)
  {
    hide LabelBytes, LabelEnd, EndsInEscapedPeriod, Spell, Meant, Unit.Text;
    SpelledFirst(l);
    if l == [] {
      assert [] + tail == tail && [] + LabelBytes(tail) == LabelBytes(tail);
      NothingEscaped();
    } else {
      var u, more := l[0], l[1..];
      var rest := Spell(more) + tail;
      assert u.Text() + Spell(more) + tail == u.Text() + rest;
      SpelledUnit(u, rest);
      SpelledLabel(more, tail);
      SpelledFirst(more);
      assert [u.byte] + Meant(more) + LabelBytes(tail) == [u.byte] + (Meant(more) + LabelBytes(tail));
    }
  }

  lemma SpelledFirst(l: seq<Unit>)
    ensures if l == [] then Spell(l) == [] && Meant(l) == []
            else Spell(l) == l[0].Text() + Spell(l[1..]) && Meant(l) == [l[0].byte] + Meant(l[1..]) && Spell(l) != []
  {
  }

  lemma NothingEscaped()
    ensures !EndsInEscapedPeriod([])
  {
  }

  lemma SpelledNonempty(l: seq<Unit>)
    ensures Spell(l) == [] <==> l == []
    ensures l != [] && l[0].Spellable() ==> Spell(l)[0] != 46
  {
  }

  lemma AfterPeriod(tail: seq<Byte>)
    ensures LabelBytes([46] + tail) == [] && LabelEnd([46] + tail) == 0
    ensures EndsInEscapedPeriod([46] + tail) == EndsInEscapedPeriod(tail)
    ensures LabelBytes([92]) == [92] && LabelEnd([92]) == 1 && !EndsInEscapedPeriod([92])
  {
    assert ([46] + tail)[1..] == tail && [92][1..] == [];
    assert [92] + [] == [92];
    FirstUnit([]);
    FirstUnit([92]);
  }

  /** The last part of a spelling: one label, or nothing. */
  lemma SpelledEnd(s: Spelling)
    requires s.Valid() && s.labels == []
    ensures ParseName(s.Text()) == if |s.EndMeant()| <= 63 then Some(s.Labels()) else None
    ensures EndsInEscapedPeriod(s.Text()) == s.EscapedPeriodAtEnd()
  {
    hide LabelBytes, LabelEnd, EndsInEscapedPeriod, ParseName, Spell;
    var tail: seq<Byte> := if s.stray then [92] else [];
    SpelledLabel(s.last, tail);
    SpelledNonempty(s.last);
    AfterPeriod([]);
    FirstUnit([]);
    NothingParsed();
    assert s.Text() == Spell(s.last) + tail;
    if s.Text() != [] {
      ParsesFirst(s.Text());
      FirstCharacter(s.last, tail);
      assert [s.EndMeant()] + [] == [s.EndMeant()];
    }
  }

  lemma FirstCharacter(l: seq<Unit>, tail: seq<Byte>)
    requires (forall u <- l :: u.Spellable()) && Spell(l) + tail != [] && (tail == [] || tail == [92])
    ensures (Spell(l) + tail)[0] != 46
  {
    SpelledNonempty(l);
  }

  /** A label in front of a period and the rest of a name. */
  lemma SpelledInFront(l: seq<Unit>, rest: seq<Byte>)
    requires forall u <- l :: u.Spellable()
    ensures var name := Spell(l) + [46] + rest;
            && LabelBytes(name) == Meant(l) && LabelEnd(name) == |Spell(l)| < |name| && name[|Spell(l)| + 1..] == rest
            && (name[0] == 46 <==> l == [])
            && EndsInEscapedPeriod(name) == EndsInEscapedPeriod(rest)
  {
    hide LabelBytes, LabelEnd, EndsInEscapedPeriod, Spell, Meant;
    var name := Spell(l) + [46] + rest;
    assert name == Spell(l) + ([46] + rest);
    SpelledLabel(l, [46] + rest);
    AfterPeriod(rest);
    SpelledNonempty(l);
    assert l != [] ==> l[0].Spellable();
    assert Meant(l) + [] == Meant(l);
  }

  /**
   Whatever is escaped in it, a name is read as the bytes its labels stand for, if each
   of them has one to 63; a name may end in a period or in a backslash.
   */
  lemma {:induction false} SpelledName(s: Spelling)
    requires s.Valid()
    ensures ParseName(s.Text()) == if forall l <- s.Labels() :: 1 <= |l| <= 63 then Some(s.Labels()) else None
    ensures EndsInEscapedPeriod(s.Text()) == s.EscapedPeriodAtEnd()
    decreases |s.labels|
  {
    hide LabelBytes, LabelEnd, EndsInEscapedPeriod, ParseName, Spell, Meant, Spelling.End, Spelling.EndMeant, Unit.Spellable;
    if s.labels == [] {
      SpelledEnd(s);
      EndLabels(s);
    } else {
      var first, more := s.labels[0], s.Rest();
      assert first in s.labels && forall l <- more.labels :: l in s.labels;
      SpelledName(more);
      SpelledInFront(first, more.Text());
      ParsesFirst(s.Text());
      assert s.Labels() == [Meant(first)] + more.Labels();
      Legality(Meant(first), more.Labels());
    }
  }

  lemma EndLabels(s: Spelling)
    requires s.labels == []
    ensures (forall l <- s.Labels() :: 1 <= |l| <= 63) <==> |s.EndMeant()| <= 63
  {
    assert s.EndMeant() != [] ==> s.EndMeant() in s.Labels();
  }

  lemma Legality(l: seq<Byte>, more: seq<seq<Byte>>)
    ensures (forall m <- [l] + more :: 1 <= |m| <= 63) <==> 1 <= |l| <= 63 && forall m <- more :: 1 <= |m| <= 63
  {
    assert l in [l] + more && forall m <- more :: m in [l] + more;
  }

  /** Every name is a spelling. */
  lemma {:induction false} EveryNameIsSpelled(name: seq<Byte>) returns (s: Spelling)
    ensures s.Valid() && s.Text() == name
    decreases |name|
  {
    if name == [] {
      s := Spelling([], [], false);
    } else if name == [92] {
      s := Spelling([], [], true);
    } else if name[0] == 46 {
      var more := EveryNameIsSpelled(name[1..]);
      s := Spelling([[]] + more.labels, more.last, more.stray);
      assert s.Rest() == more;
    } else {
      var u := if name[0] == 92 then Unit(name[1], true) else Unit(name[0], false);
      var more := EveryNameIsSpelled(name[|u.Text()|..]);
      s := WithUnit(u, more);
      UnitInFront(u, more);
      assert name == u.Text() + more.Text();
    }
  }

  function WithUnit(u: Unit, s: Spelling): Spelling
  {
    if s.labels == [] then s.(last := [u] + s.last) else s.(labels := s.labels[0 := [u] + s.labels[0]])
  }

  lemma UnitInFront(u: Unit, s: Spelling)
    requires u.Spellable() && s.Valid()
    ensures WithUnit(u, s).Valid() && WithUnit(u, s).Text() == u.Text() + s.Text()
  {
    hide Unit.Text, Unit.Spellable;
    var t, l := WithUnit(u, s), if s.labels == [] then s.last else s.labels[0];
    assert ([u] + l)[1..] == l;
    if s.labels != [] {
      assert l in s.labels;
      assert t.Rest() == s.Rest();
      forall m <- t.labels, v <- m ensures v.Spellable() { assert m in s.labels || m == [u] + l; }
    }
  }

  /** The names that are accepted: legal labels that take at most 255 bytes, with the byte that is not paid for. */
  lemma AcceptedNames(s: Spelling)
    requires s.Valid() && s.Text() != [46]
    ensures ReservedLength(s.Text()) <= MAXCDNAME && ParseName(NameToEncode(s.Text())).Some?
            <==> Legal(s.Labels()) && |Wire(s.Labels())| <= 255 + if s.EscapedPeriodAtEnd() then 1 else 0
  {
    hide ParseName, Wire, Units, EndsInEscapedPeriod, Spelling.Labels, Spelling.Text, Spelling.EscapedPeriodAtEnd, ReservedLength;
    SpelledName(s);
    if ParseName(s.Text()).Some? { ReservedIsWritten(s.Text()); }
  }

  // ----- The round trips

  /**
   Encoding then expanding: every accepted name comes back in presentation
   form, and comes back unchanged exactly when it was well escaped.
   */
  method EncodeThenExpand(name: CString, dnsclass: int, rrtype: int, id: int, rd: bool, maxUdpSize: int)
    returns (status: Status, text: seq<Byte>, enclen: nat)
    ensures status == SUCCESS <==> ReservedLength(name) <= MAXCDNAME && ParseName(NameToEncode(name)).Some?
    ensures status == SUCCESS ==> text == Dotted(ParseName(NameToEncode(name)).value)
    ensures status == SUCCESS ==> enclen == |Wire(ParseName(NameToEncode(name)).value)|
    ensures status == SUCCESS ==> (text == name <==> WellEscaped(name))
    // A lone period is the root: no labels, one zero byte.
    ensures name == [46] ==> status == SUCCESS && text == [] && enclen == 1
  {
    text, enclen := [], 0;
    var buf, buflen, s;
    status, buf, buflen := CreateQuery(name, dnsclass, rrtype, id, rd, maxUdpSize);
    RootReservesTwo();
    if status != SUCCESS {
      return;
    }
    ghost var labels := ParseName(NameToEncode(name)).value;
    QueryNameDecodes(name, buf[..buflen], dnsclass, rrtype, id, rd, maxUdpSize);
    status, s, enclen := ExpandName(buf[..buflen], HFIXEDSZ);
    text := s[..s.Length - 1];
    PrintingRestores(NameToEncode(name));
    if name == [DOT] { ParseRoot(); }
  }

  /** The question name of a built query, cut at `buflen`, still decodes to the parsed labels. */
  lemma QueryNameDecodes(name: CString, sent: seq<Byte>, dnsclass: int, rrtype: int, id: int, rd: bool, maxUdpSize: int)
    requires ParseName(NameToEncode(name)).Some?
    requires var image := Message(ParseName(NameToEncode(name)).value, dnsclass, rrtype, id, rd, maxUdpSize);
             |image| <= |sent| + 1 && (sent <= image || image <= sent)
    ensures var labels := ParseName(NameToEncode(name)).value;
            && EndsIn(sent, HFIXEDSZ, |labels|)
            && Labels(sent, HFIXEDSZ, |labels|) == labels
            && EncodedLength(sent, HFIXEDSZ, |labels|) == |Wire(labels)|
  {
    hide ParseName, Wire, Put16, OptRecord, EndsIn, Labels, EncodedLength;
    var labels := ParseName(NameToEncode(name)).value;
    var header := Header(id, rd, maxUdpSize != 0);
    var q := HFIXEDSZ + |Wire(labels)|;
    assert sent[..q] == header + Wire(labels);
    assert sent == header + Wire(labels) + sent[q..];
    WireDecodes(header, labels, sent[q..]);
  }

  /**
   Expanding then encoding: the expansion of any readable name with NUL-free
   labels is accepted when its wire form fits, and is encoded as the same
   labels without compression.
   */
  lemma ExpandThenEncode(msg: seq<Byte>, p: nat, k: nat)
    requires EndsIn(msg, p, k)
    ensures ParseName(NameToEncode(Dotted(Labels(msg, p, k)))) == Some(Labels(msg, p, k))
    ensures |Wire(Labels(msg, p, k))| <= MAXCDNAME ==> ReservedLength(Dotted(Labels(msg, p, k))) <= MAXCDNAME
    ensures (forall l :: l in Labels(msg, p, k) ==> 0 !in l) ==> 0 !in Dotted(Labels(msg, p, k))
  {
    var labels := Labels(msg, p, k);
    var name := Dotted(labels);
    ParseDotted(labels);
    DottedIsWellEscaped(labels);
    assert !WellEscaped([DOT]);
    ReservedIsWritten(name);
    if forall l :: l in labels ==> 0 !in l {
      DottedNulFree(labels);
    }
  }

  lemma {:induction false} EscapeNulFree(l: seq<Byte>)
    requires 0 !in l
    ensures 0 !in Escape(l)
  {
    if l != [] {
      EscapeNulFree(l[1..]);
    }
  }

  lemma {:induction false} DottedNulFree(labels: seq<seq<Byte>>)
    requires forall l :: l in labels ==> 0 !in l
    ensures 0 !in Dots(labels)
    ensures 0 !in Dotted(labels)
  {
    if labels != [] {
      EscapeNulFree(labels[0]);
      DottedNulFree(labels[1..]);
    }
  }
}
