/**
 What the A reply parser makes of replies as they stand on the wire: records, whole
 replies and CNAME chains are read back, and replies that are cut short are refused.
 */
module ReplyRoundTrip {
  import opened Common
  import opened Bytes
  import opened Status
  import opened NameExpansion
  import opened QueryEncoding
  import opened NameRoundTrip
  import opened AddressReply

  // ----- One record

  /** What follows the owner's name in a record (section 4.1.3 of RFC 1035). */
  function FieldBytes(rrtype: int, rrclass: int, ttl: int, data: seq<Byte>): (s: seq<Byte>)
    ensures |s| == 10 + |data|
  {
    Put16(rrtype) + Put16(rrclass) + Put16(ttl / 0x1_0000) + Put16(ttl % 0x1_0000) + Put16(|data|) + data
  }

  predicate FieldsFit(rrtype: int, rrclass: int, ttl: int, data: seq<Byte>)
  {
    0 <= rrtype < 0x1_0000 && 0 <= rrclass < 0x1_0000 && 0 <= ttl < 0x1_0000_0000 && |data| < 0x1_0000
  }

  /** A TTL as the parser keeps it, in a C int. */
  function Kept(ttl: int): int { if ttl < 0x8000_0000 then ttl else ttl - 0x1_0000_0000 }

  lemma FieldsReadAt(m: seq<Byte>, f: nat, rrtype: int, rrclass: int, ttl: int, data: seq<Byte>)
    requires FieldsFit(rrtype, rrclass, ttl, data)
    requires f + 10 + |data| <= |m| && m[f..f + 10 + |data|] == FieldBytes(rrtype, rrclass, ttl, data)
    ensures Get16(m, f) == rrtype && Get16(m, f + 2) == rrclass && ToInt32(Get32(m, f + 4)) == Kept(ttl)
    ensures Get16(m, f + 8) == |data| && m[f + 10..f + 10 + |data|] == data
  {
    hide FieldBytes;
    var s := FieldBytes(rrtype, rrclass, ttl, data);
    FieldsSplit(rrtype, rrclass, ttl, data);
    forall i | 0 <= i < |s| ensures m[f + i] == s[i] {}
    Halves(s, 4, ttl);
    assert m[f + 10..f + 10 + |data|] == m[f..f + 10 + |data|][10..];
  }

  lemma FieldsSplit(rrtype: int, rrclass: int, ttl: int, data: seq<Byte>)
    requires FieldsFit(rrtype, rrclass, ttl, data)
    ensures var s := FieldBytes(rrtype, rrclass, ttl, data);
            && Get16(s, 0) == rrtype && Get16(s, 2) == rrclass && Get16(s, 8) == |data| && s[10..] == data
            && Get16(s, 4) == ttl / 0x1_0000 && Get16(s, 6) == ttl % 0x1_0000
  {
    hide Put16;
  }

  lemma Halves(s: seq<Byte>, p: nat, v: int)
    requires p + 4 <= |s| && Get16(s, p) == v / 0x1_0000 && Get16(s, p + 2) == v % 0x1_0000
    ensures Get32(s, p) == v
  {
  }

  /** A name that can be read has one text and one span. */
  lemma NameIsRead(m: seq<Byte>, p: nat, k: nat, labels: seq<seq<Byte>>, n: nat)
    requires NameAt(m, p, k, labels, n)
    ensures Resolves(m, p) && NameText(m, p) == Dotted(labels) && NameSpan(m, p) == n
  {
    hide EndsIn, Labels, EncodedLength, Dotted;
    assert HopsToEnd(m, p) == k;
  }

  /**
   A record is read as its owner's name, its fields and its data, wherever it stands and
   whether or not the owner's name is compressed. A CNAME also needs a name for its data.
   */
  lemma RecordReads(m: seq<Byte>, p: nat, k: nat, owner: seq<seq<Byte>>, n: nat, rrtype: int, rrclass: int, ttl: int, data: seq<Byte>)
    requires NameAt(m, p, k, owner, n) && FieldsFit(rrtype, rrclass, ttl, data)
    requires p + n + 10 + |data| <= |m| && m[p + n..p + n + 10 + |data|] == FieldBytes(rrtype, rrclass, ttl, data)
    ensures var alias := rrclass == 1 && rrtype == 5;
            ReadRecord(m, p)
            == if alias && !Resolves(m, p + n + 10) then None
               else Some(Reading(Record(Dotted(owner), rrtype, rrclass, Kept(ttl), data,
                                        if alias then NameText(m, p + n + 10) else []),
                                 p + n + 10 + |data|))
  {
    hide NameAt, NameText, NameSpan, Resolves, Get16, Get32, ToInt32, FieldBytes, Dotted;
    NameIsRead(m, p, k, owner, n);
    ReadInSteps(m, p);
    FieldsReadAt(m, p + n, rrtype, rrclass, ttl, data);
  }

  // ----- Replies

  /** A record to be sent; the data of a CNAME is its target. */
  datatype Sent = Sent(owner: seq<seq<Byte>>, rrtype: int, rrclass: int, ttl: int, plain: seq<Byte>, target: seq<seq<Byte>>)
  {
    predicate IsAlias() { rrclass == 1 && rrtype == 5 }

    ghost predicate Valid()
    {
      Legal(owner) && Legal(target) && FieldsFit(rrtype, rrclass, ttl, Data())
    }

    ghost function Data(): seq<Byte>
      requires Legal(target)
    {
      if IsAlias() then Wire(target) else plain
    }

    ghost function Bytes(): seq<Byte>
      requires Valid()
    {
      Wire(owner) + FieldBytes(rrtype, rrclass, ttl, Data())
    }

    /** The record as it should be read. */
    ghost function Meaning(): Record
      requires Valid()
    {
      Record(Dotted(owner), rrtype, rrclass, Kept(ttl), Data(), if IsAlias() then Dotted(target) else [])
    }
  }

  lemma SentReads(before: seq<Byte>, a: Sent, after: seq<Byte>)
    requires a.Valid()
    ensures ReadRecord(before + a.Bytes() + after, |before|) == Some(Reading(a.Meaning(), |before| + |a.Bytes()|))
  {
    hide NameAt, NameText, Resolves, FieldBytes, Dotted, Wire, ReadRecord, FieldsFit;
    var name, fields := Wire(a.owner), FieldBytes(a.rrtype, a.rrclass, a.ttl, a.Data());
    var m, f := before + a.Bytes() + after, |before| + |name|;
    assert m == before + name + (fields + after) && m[f..f + |fields|] == fields;
    WireDecodes(before, a.owner, fields + after);
    if a.IsAlias() {
      TargetReads(before, a, after);
    }
    RecordReads(m, |before|, |a.owner|, a.owner, |name|, a.rrtype, a.rrclass, a.ttl, a.Data());
  }

  /** The data of a CNAME is read as its target. */
  lemma TargetReads(before: seq<Byte>, a: Sent, after: seq<Byte>)
    requires a.Valid() && a.IsAlias()
    ensures var m, d := before + a.Bytes() + after, |before| + |Wire(a.owner)| + 10;
            Resolves(m, d) && NameText(m, d) == Dotted(a.target)
  {
    hide NameAt, NameText, Resolves, Wire, FieldBytes, Dotted, FieldsFit;
    var fields, t := FieldBytes(a.rrtype, a.rrclass, a.ttl, a.Data()), Wire(a.target);
    DataLast(a.rrtype, a.rrclass, a.ttl, t);
    var front := before + Wire(a.owner) + fields[..10];
    DataPlace(before, Wire(a.owner), fields[..10], t, after);
    WireDecodes(front, a.target, after);
    NameIsRead(front + t + after, |front|, |a.target|, a.target, |t|);
  }

  lemma DataLast(rrtype: int, rrclass: int, ttl: int, data: seq<Byte>)
    ensures FieldBytes(rrtype, rrclass, ttl, data) == FieldBytes(rrtype, rrclass, ttl, data)[..10] + data
  {
    hide Put16;
  }

  lemma DataPlace(before: seq<Byte>, name: seq<Byte>, fields: seq<Byte>, data: seq<Byte>, after: seq<Byte>)
    ensures before + (name + (fields + data)) + after == (before + name + fields) + data + after
  {
  }

  // ----- Whole replies

  ghost predicate AllValid(answers: seq<Sent>)
  {
    forall a <- answers :: a.Valid()
  }

  ghost function RecordBytes(answers: seq<Sent>): seq<Byte>
    requires AllValid(answers)
  {
    if answers == [] then [] else answers[0].Bytes() + RecordBytes(answers[1..])
  }

  ghost function Meanings(answers: seq<Sent>): (r: seq<Record>)
    requires AllValid(answers)
    ensures |r| == |answers| && forall i | 0 <= i < |r| :: r[i] == answers[i].Meaning()
  {
    if answers == [] then [] else [answers[0].Meaning()] + Meanings(answers[1..])
  }

  /** The records behind any bytes are read back in order. */
  lemma {:induction false} RecordsRead(before: seq<Byte>, answers: seq<Sent>, after: seq<Byte>)
    requires AllValid(answers)
    ensures ReadRecords(before + RecordBytes(answers) + after, |before|, |answers|) == Some(Meanings(answers))
    decreases |answers|
  {
    hide ReadRecord, Sent.Valid, Sent.Bytes, Sent.Meaning;
    if answers != [] {
      var a, more := answers[0], answers[1..];
      assert before + (a.Bytes() + RecordBytes(more)) + after == before + a.Bytes() + (RecordBytes(more) + after);
      SentReads(before, a, RecordBytes(more) + after);
      RecordsRead(before + a.Bytes(), more, after);
      assert before + (a.Bytes() + RecordBytes(more)) + after == (before + a.Bytes()) + RecordBytes(more) + after;
    }
  }

  /** The header's counts of questions and answers are those of the reply (section 4.1.1 of RFC 1035). */
  predicate GoodHeader(header: seq<Byte>, answers: nat)
  {
    |header| == 12 && header[4] == 0 && header[5] == 1 && header[6] as int * 256 + header[7] == answers
  }

  /** Header, question and answers; `asked` is the type and class of the question. */
  ghost function ReplyBytes(header: seq<Byte>, question: seq<seq<Byte>>, asked: seq<Byte>, answers: seq<Sent>): seq<Byte>
    requires Legal(question) && AllValid(answers)
  {
    header + Wire(question) + asked + RecordBytes(answers)
  }

  /** A reply is read as its question and its answers, whatever follows them. */
  lemma ReplyReads(header: seq<Byte>, question: seq<seq<Byte>>, asked: seq<Byte>, answers: seq<Sent>, after: seq<Byte>)
    requires GoodHeader(header, |answers|) && Legal(question) && |asked| == 4 && AllValid(answers)
    ensures var m := ReplyBytes(header, question, asked, answers) + after;
            && ReadQuestion(m) == Some(Question(Dotted(question), 16 + |Wire(question)|, |answers|))
            && Answers(m) == Some(Meanings(answers))
  {
    hide ReadQuestion, ReadRecords, Answers, RecordBytes, Wire, Dotted, Meanings, GoodHeader;
    var front, records := header + Wire(question) + asked, RecordBytes(answers);
    FrontLength(header, question, asked, |answers|);
    Regrouped(front, records, after);
    QuestionReads(header, question, asked, |answers|, records + after);
    RecordsRead(front, answers, after);
    AnswersAre(front + records + after, Meanings(answers));
  }

  lemma Regrouped(a: seq<Byte>, b: seq<Byte>, c: seq<Byte>)
    ensures a + b + c == a + (b + c)
  {
  }

  lemma AnswersAre(m: seq<Byte>, records: seq<Record>)
    requires ReadQuestion(m).Some?
    requires ReadRecords(m, ReadQuestion(m).value.answers, ReadQuestion(m).value.ancount) == Some(records)
    ensures Answers(m) == Some(records)
  {
    hide ReadQuestion, ReadRecords;
  }

  lemma QuestionReads(header: seq<Byte>, question: seq<seq<Byte>>, asked: seq<Byte>, n: nat, after: seq<Byte>)
    requires GoodHeader(header, n) && Legal(question) && |asked| == 4
    ensures ReadQuestion(header + Wire(question) + asked + after) == Some(Question(Dotted(question), 16 + |Wire(question)|, n))
  {
    hide Wire, Dotted, NameAt, NameText, NameSpan, Resolves;
    var m := header + Wire(question) + asked + after;
    assert m == header + Wire(question) + (asked + after);
    WireDecodes(header, question, asked + after);
    NameIsRead(m, 12, |question|, question, |Wire(question)|);
    assert m[4] == header[4] && m[5] == header[5] && m[6] == header[6] && m[7] == header[7];
  }

  /** A message that does not ask exactly one question is no good reply. */
  lemma OneQuestionOnly(m: seq<Byte>)
    requires |m| < 12 || m[4] != 0 || m[5] != 1
    ensures Outcome(m) == EBADRESP
  {
    hide Resolves, ReadRecords, NameText, NameSpan, AddressRecords, Cnames;
  }

  // ----- Replies that are cut short

  /** A name that is cut off cannot be read. */
  lemma {:induction false} CutName(before: seq<Byte>, labels: seq<seq<Byte>>, cut: seq<Byte>)
    requires Legal(labels) && cut < Wire(labels)
    ensures !Resolves(before + cut, |before|)
    decreases |labels|
  {
    hide Wire, Resolves;
    var m := before + cut;
    if labels == [] {
      WireOfCons([], []);
      Unreadable(m, |before|);
    } else {
      var l, more := labels[0], labels[1..];
      assert labels == [l] + more;
      WireOfCons(l, more);
      CutBehind([|l| as Byte] + l, Wire(more), cut);
      if |cut| <= 1 + |l| {
        assert cut != [] ==> m[|before|] == cut[0] == |l|;
        Unreadable(m, |before|);
      } else {
        var rest := cut[1 + |l|..];
        assert m == (before + cut[..1 + |l|]) + rest;
        CutName(before + cut[..1 + |l|], more, rest);
        assert m[|before|] == cut[0] == |l|;
        PastLabel(m, |before|, |l|);
      }
    }
  }

  lemma CutBehind(first: seq<Byte>, rest: seq<Byte>, cut: seq<Byte>)
    requires cut < first + rest && first != []
    ensures cut != [] ==> cut[0] == first[0]
    ensures |cut| > |first| ==> cut[..|first|] == first && cut[|first|..] < rest
  {
    assert cut == (first + rest)[..|cut|];
  }

  lemma PastLabel(m: seq<Byte>, p: nat, n: nat)
    requires 1 <= n <= 63 && p + 1 + n < |m| && m[p] == n && !Resolves(m, p + 1 + n)
    ensures !Resolves(m, p)
  {
    assert HopAt(m, p).Label? && HopAt(m, p).next == p + 1 + n;
    assert forall k: nat :: EndsIn(m, p, k) ==> k > 0 && EndsIn(m, p + 1 + n, k - 1);
  }

  /** A record that is cut off cannot be read. */
  lemma CutRecord(before: seq<Byte>, a: Sent, cut: seq<Byte>)
    requires a.Valid() && cut < a.Bytes()
    ensures ReadRecord(before + cut, |before|).None?
  {
    hide NameAt, NameText, NameSpan, Resolves, FieldBytes, FieldsFit, Dotted, Wire, ReadRecord, Get16, Get32, ToInt32;
    var name, fields := Wire(a.owner), FieldBytes(a.rrtype, a.rrclass, a.ttl, a.Data());
    var m := before + cut;
    ReadInSteps(m, |before|);
    CutInTwo(name, fields, cut);
    if cut < name {
      CutName(before, a.owner, cut);
    } else {
      var rest := cut[|name|..];
      assert m == before + name + rest;
      WireDecodes(before, a.owner, rest);
      NameIsRead(m, |before|, |a.owner|, a.owner, |name|);
      if |rest| >= 10 {
        CutFields(m, |before| + |name|, a.rrtype, a.rrclass, a.ttl, a.Data(), rest);
      }
    }
  }

  lemma CutInTwo(name: seq<Byte>, fields: seq<Byte>, cut: seq<Byte>)
    requires cut < name + fields
    ensures cut < name || (name <= cut && cut == name + cut[|name|..] && cut[|name|..] < fields)
  {
    assert cut == (name + fields)[..|cut|];
    if |cut| >= |name| {
      assert cut == name + fields[..|cut| - |name|];
    }
  }

  /** The length field says how long the data should have been. */
  lemma CutFields(m: seq<Byte>, f: nat, rrtype: int, rrclass: int, ttl: int, data: seq<Byte>, rest: seq<Byte>)
    requires FieldsFit(rrtype, rrclass, ttl, data) && rest < FieldBytes(rrtype, rrclass, ttl, data) && |rest| >= 10
    requires f + |rest| == |m| && m[f..] == rest
    ensures Get16(m, f + 8) == |data| && f + 10 + |data| > |m|
  {
    hide FieldBytes;
    var s := FieldBytes(rrtype, rrclass, ttl, data);
    FieldsSplit(rrtype, rrclass, ttl, data);
    assert m[f + 8] == m[f..][8] == s[8] && m[f + 9] == m[f..][9] == s[9];
  }

  /** Some record of a list that is cut off cannot be read. */
  lemma {:induction false} CutRecords(before: seq<Byte>, answers: seq<Sent>, cut: seq<Byte>)
    requires AllValid(answers) && cut < RecordBytes(answers)
    ensures ReadRecords(before + cut, |before|, |answers|).None?
    decreases |answers|
  {
    hide ReadRecord, Sent.Valid, Sent.Bytes, Sent.Meaning;
    var a, more := answers[0], answers[1..];
    CutInTwo(a.Bytes(), RecordBytes(more), cut);
    if cut < a.Bytes() {
      CutRecord(before, a, cut);
    } else {
      var rest := cut[|a.Bytes()|..];
      assert before + cut == before + a.Bytes() + rest;
      SentReads(before, a, rest);
      CutRecords(before + a.Bytes(), more, rest);
    }
  }

  /** A question that is cut off cannot be read. */
  lemma CutQuestion(header: seq<Byte>, question: seq<seq<Byte>>, asked: seq<Byte>, n: nat, cut: seq<Byte>)
    requires GoodHeader(header, n) && Legal(question) && |asked| == 4 && cut < header + (Wire(question) + asked)
    ensures ReadQuestion(cut).None?
  {
    hide Wire, NameAt, NameText, NameSpan, Resolves, Dotted;
    CutInTwo(header, Wire(question) + asked, cut);
    if header <= cut {
      var rest := cut[12..];
      CutInTwo(Wire(question), asked, rest);
      if rest < Wire(question) {
        CutName(header, question, rest);
      } else {
        var tail := rest[|Wire(question)|..];
        assert cut == header + Wire(question) + tail;
        WireDecodes(header, question, tail);
        NameIsRead(cut, 12, |question|, question, |Wire(question)|);
      }
    }
  }

  /** A reply that is cut short anywhere is malformed. */
  lemma CutReply(header: seq<Byte>, question: seq<seq<Byte>>, asked: seq<Byte>, answers: seq<Sent>, cut: seq<Byte>)
    requires GoodHeader(header, |answers|) && Legal(question) && |asked| == 4 && AllValid(answers)
    requires cut < ReplyBytes(header, question, asked, answers)
    ensures Outcome(cut) == EBADRESP
  {
    hide ReadQuestion, ReadRecords, RecordBytes, Wire, GoodHeader;
    var front, records := header + Wire(question) + asked, RecordBytes(answers);
    CutInTwo(front, records, cut);
    if cut < front {
      Regrouped(header, Wire(question), asked);
      CutQuestion(header, question, asked, |answers|, cut);
    } else {
      var rest := cut[|front|..];
      QuestionReads(header, question, asked, |answers|, rest);
      FrontLength(header, question, asked, |answers|);
      CutRecords(front, answers, rest);
    }
  }

  lemma FrontLength(header: seq<Byte>, question: seq<seq<Byte>>, asked: seq<Byte>, n: nat)
    requires GoodHeader(header, n) && Legal(question) && |asked| == 4
    ensures |header + Wire(question) + asked| == 16 + |Wire(question)|
  {
  }

  // ----- CNAME chains

  datatype Alias = Alias(target: seq<seq<Byte>>, ttl: int)

  datatype Addr = Addr(ip: seq<Byte>, ttl: int)

  ghost predicate GoodChain(question: seq<seq<Byte>>, aliases: seq<Alias>, addrs: seq<Addr>)
  {
    && Legal(question)
    && (forall a <- aliases :: Legal(a.target) && |Wire(a.target)| < 0x1_0000 && 0 <= a.ttl < 0x1_0000_0000)
    && (forall a <- addrs :: |a.ip| == 4 && 0 <= a.ttl < 0x1_0000_0000)
  }

  /** The name that the first n aliases lead to. */
  function LeadsTo(question: seq<seq<Byte>>, aliases: seq<Alias>, n: nat): seq<seq<Byte>>
    requires n <= |aliases|
  {
    if n == 0 then question else aliases[n - 1].target
  }

  /** One CNAME for each alias, owned by the name that those before it lead to. */
  function AliasRecords(question: seq<seq<Byte>>, aliases: seq<Alias>): (r: seq<Sent>)
    ensures |r| == |aliases|
  {
    seq(|aliases|, i requires 0 <= i < |aliases| =>
      Sent(LeadsTo(question, aliases, i), 5, 1, aliases[i].ttl, [], aliases[i].target))
  }

  /** One address record for each address, owned by the name at the end of the chain. */
  function HostRecords(owner: seq<seq<Byte>>, addrs: seq<Addr>): (r: seq<Sent>)
    ensures |r| == |addrs|
  {
    seq(|addrs|, i requires 0 <= i < |addrs| => Sent(owner, 1, 1, addrs[i].ttl, addrs[i].ip, []))
  }

  function ChainAnswers(question: seq<seq<Byte>>, aliases: seq<Alias>, addrs: seq<Addr>): seq<Sent>
  {
    AliasRecords(question, aliases) + HostRecords(LeadsTo(question, aliases, |aliases|), addrs)
  }

  lemma ChainIsValid(question: seq<seq<Byte>>, aliases: seq<Alias>, addrs: seq<Addr>)
    requires GoodChain(question, aliases, addrs)
    ensures AllValid(AliasRecords(question, aliases)) && AllValid(ChainAnswers(question, aliases, addrs))
    ensures forall n | 0 <= n <= |aliases| :: Legal(LeadsTo(question, aliases, n))
  {
    hide Wire;
    forall n | 0 <= n <= |aliases| ensures Legal(LeadsTo(question, aliases, n)) {}
    hide LeadsTo, Legal;
    forall i | 0 <= i < |aliases| ensures AliasRecords(question, aliases)[i].Valid() {
      assert aliases[i] in aliases;
    }
    NoLegalLabels();
    forall i | 0 <= i < |addrs| ensures HostRecords(LeadsTo(question, aliases, |aliases|), addrs)[i].Valid() {
      assert addrs[i] in addrs;
    }
  }

  /** The reply that leads over these aliases to these addresses. */
  ghost function ChainBytes(header: seq<Byte>, question: seq<seq<Byte>>, asked: seq<Byte>, aliases: seq<Alias>, addrs: seq<Addr>): seq<Byte>
    requires GoodChain(question, aliases, addrs)
  {
    ChainIsValid(question, aliases, addrs);
    ReplyBytes(header, question, asked, ChainAnswers(question, aliases, addrs))
  }

  lemma NoLegalLabels()
    ensures Legal([])
  {
  }

  lemma MeaningsMore(answers: seq<Sent>, a: Sent)
    requires AllValid(answers) && a.Valid()
    ensures AllValid(answers + [a]) && Meanings(answers + [a]) == Meanings(answers) + [a.Meaning()]
  {
    hide Sent.Valid, Sent.Meaning;
  }

  /** The records of the aliases lead from the question to the last target, and are no addresses. */
  lemma {:induction false} AliasesLead(question: seq<seq<Byte>>, aliases: seq<Alias>)
    requires GoodChain(question, aliases, []) && AllValid(AliasRecords(question, aliases))
    ensures var records := Meanings(AliasRecords(question, aliases));
            && ChainEnd(Dotted(question), records) == Dotted(LeadsTo(question, aliases, |aliases|))
            && Cnames(records) == records && AddressRecords(Dotted(question), records) == []
  {
    hide Dotted, SameName, ChainEnd, Cnames, AddressRecords, ChainTtl, Sent.Valid, Wire, Legal;
    if aliases == [] {
      OneMoreRecord(Dotted(question), [], Record([], 0, 0, 0, [], []));
    } else {
      var n := |aliases| - 1;
      var before, last := AliasRecords(question, aliases[..n]), AliasRecords(question, aliases)[n];
      assert AliasRecords(question, aliases) == before + [last];
      assert last in AliasRecords(question, aliases) && forall a <- before :: a in AliasRecords(question, aliases);
      AliasesLead(question, aliases[..n]);
      MeaningsMore(before, last);
      OneMoreRecord(Dotted(question), Meanings(before), last.Meaning());
    }
  }

  /** Address records of the name the chain has led to are all taken. */
  lemma {:induction false} HostsTaken(question: seq<Byte>, seen: seq<Record>, owner: seq<seq<Byte>>, addrs: seq<Addr>)
    requires ChainEnd(question, seen) == Dotted(owner) && AllValid(HostRecords(owner, addrs)) && forall a <- addrs :: |a.ip| == 4
    ensures var hosts := Meanings(HostRecords(owner, addrs));
            && ChainEnd(question, seen + hosts) == ChainEnd(question, seen) && Cnames(seen + hosts) == Cnames(seen)
            && ChainTtl(seen + hosts) == ChainTtl(seen)
            && AddressRecords(question, seen + hosts) == AddressRecords(question, seen) + hosts
    decreases |addrs|
  {
    hide Dotted, SameName, ChainEnd, Cnames, AddressRecords, ChainTtl, Sent.Valid, Min, Meanings;
    if addrs == [] {
      NoMeanings();
      assert seen + [] == seen && AddressRecords(question, seen) + [] == AddressRecords(question, seen);
    } else {
      var n := |addrs| - 1;
      var before, last := HostRecords(owner, addrs[..n]), HostRecords(owner, addrs)[n];
      assert HostRecords(owner, addrs) == before + [last];
      assert last in HostRecords(owner, addrs) && forall a <- before :: a in HostRecords(owner, addrs);
      HostsTaken(question, seen, owner, addrs[..n]);
      MeaningsMore(before, last);
      assert seen + (Meanings(before) + [last.Meaning()]) == (seen + Meanings(before)) + [last.Meaning()];
      OneMoreRecord(question, seen + Meanings(before), last.Meaning());
      SameAsItself(Dotted(owner));
      assert addrs[n] in addrs;
      assert AddressRecords(question, seen) + Meanings(before) + [last.Meaning()]
             == AddressRecords(question, seen) + (Meanings(before) + [last.Meaning()]);
    }
  }

  lemma NoMeanings()
    ensures Meanings([]) == []
  {
  }

  lemma SameAsItself(name: seq<Byte>)
    ensures SameName(name, name)
  {
  }

  /** What the answers of a chain mean. */
  lemma ChainMeans(question: seq<seq<Byte>>, aliases: seq<Alias>, addrs: seq<Addr>)
    requires GoodChain(question, aliases, addrs) && AllValid(ChainAnswers(question, aliases, addrs))
    ensures AllValid(AliasRecords(question, aliases)) && AllValid(HostRecords(LeadsTo(question, aliases, |aliases|), addrs))
    ensures var q, records := Dotted(question), Meanings(ChainAnswers(question, aliases, addrs));
            && ChainEnd(q, records) == Dotted(LeadsTo(question, aliases, |aliases|))
            && Cnames(records) == Meanings(AliasRecords(question, aliases))
            && AddressRecords(q, records) == Meanings(HostRecords(LeadsTo(question, aliases, |aliases|), addrs))
            && ChainTtl(records) == ChainTtl(Meanings(AliasRecords(question, aliases)))
  {
    hide Dotted, ChainEnd, Cnames, AddressRecords, ChainTtl, Sent.Valid, Meanings, Legal, Wire;
    var owner := LeadsTo(question, aliases, |aliases|);
    var first, second := AliasRecords(question, aliases), HostRecords(owner, addrs);
    assert forall a <- first :: a in first + second;
    assert forall a <- second :: a in first + second;
    AliasesLead(question, aliases);
    assert forall a <- addrs :: |a.ip| == 4;
    HostsTaken(Dotted(question), Meanings(first), owner, addrs);
    MeaningsConcat(first, second);
    assert [] + Meanings(second) == Meanings(second);
  }

  lemma MeaningsConcat(a: seq<Sent>, b: seq<Sent>)
    requires AllValid(a) && AllValid(b) && AllValid(a + b)
    ensures Meanings(a + b) == Meanings(a) + Meanings(b)
  {
    hide Sent.Valid, Sent.Meaning;
  }

  /** What is reported for a chain, in terms of what was sent. */
  ghost predicate ReportsChain(question: seq<seq<Byte>>, aliases: seq<Alias>, addrs: seq<Addr>,
                               host: Option<Hostent>, ttls: seq<AddrTtl>, naddrttls: nat)
  {
    && naddrttls == (if |addrs| < |ttls| then |addrs| else |ttls|)
    && (forall i | 0 <= i < naddrttls ::
          && ttls[i].ip == addrs[i].ip
          // The least of the TTLs of the address and of all aliases.
          && ttls[i].ttl <= Kept(addrs[i].ttl) && (forall a <- aliases :: ttls[i].ttl <= Kept(a.ttl))
          && (ttls[i].ttl == Kept(addrs[i].ttl) || exists a <- aliases :: ttls[i].ttl == Kept(a.ttl)))
    && (host.Some? ==>
          var h := host.value;
          && h.name.text == Dotted(LeadsTo(question, aliases, |aliases|))
          && |h.aliases| == |aliases| && (forall i | 0 <= i < |aliases| :: h.aliases[i].text == Dotted(LeadsTo(question, aliases, i)))
          && |h.addrs| == |addrs| && (forall i | 0 <= i < |addrs| :: h.addrs[i] == addrs[i].ip))
  }

  lemma ReportsWhatWasSent(question: seq<seq<Byte>>, aliases: seq<Alias>, addrs: seq<Addr>,
                           host: Option<Hostent>, ttls: seq<AddrTtl>, naddrttls: nat)
    requires GoodChain(question, aliases, addrs) && AllValid(ChainAnswers(question, aliases, addrs))
    requires Reports(Dotted(question), Meanings(ChainAnswers(question, aliases, addrs)), host, ttls, naddrttls)
    ensures ReportsChain(question, aliases, addrs, host, ttls, naddrttls)
  {
    hide Dotted, ChainEnd, Cnames, AddressRecords, ChainTtl, Sent.Valid, Meanings, Legal, Wire;
    ChainMeans(question, aliases, addrs);
    LeastTtl(question, aliases);
  }

  /** The TTL of the chain is the least of those of its aliases. */
  lemma LeastTtl(question: seq<seq<Byte>>, aliases: seq<Alias>)
    requires GoodChain(question, aliases, []) && AllValid(AliasRecords(question, aliases))
    ensures var ttl := ChainTtl(Meanings(AliasRecords(question, aliases)));
            && ttl <= 0x7fff_ffff && (forall a <- aliases :: ttl <= Kept(a.ttl))
            && (ttl == 0x7fff_ffff || exists a <- aliases :: ttl == Kept(a.ttl))
  {
    hide Dotted, ChainTtl, Sent.Valid, Legal, Wire, Meanings;
    var records := Meanings(AliasRecords(question, aliases));
    AliasesLead(question, aliases);
    ChainTtlIsMinimum(records);
    forall i | 0 <= i < |aliases| ensures records[i] in Cnames(records) && records[i].ttl == Kept(aliases[i].ttl) {}
    if ChainTtl(records) != 0x7fff_ffff {
      var c :| c in Cnames(records) && c.ttl == ChainTtl(records);
      var i :| 0 <= i < |records| && records[i] == c;
      assert aliases[i] in aliases;
    }
  }

  /**
   Parses a reply that leads from the question over any number of aliases to any number
   of addresses, with anything behind the answers.
   */
  method ParseChain(msg: seq<Byte>, ghost header: seq<Byte>, ghost question: seq<seq<Byte>>, ghost asked: seq<Byte>,
                    ghost aliases: seq<Alias>, ghost addrs: seq<Addr>, ghost after: seq<Byte>,
                    wantHost: bool, addrttls: seq<AddrTtl>, mem: Allocator)
    returns (status: Status, host: Option<Hostent>, ttls: seq<AddrTtl>, naddrttls: nat)
    requires mem.Valid() && GoodChain(question, aliases, addrs) && |asked| == 4 && GoodHeader(header, |aliases| + |addrs|)
    requires msg == ChainBytes(header, question, asked, aliases, addrs) + after
    modifies mem
    ensures status == ENOMEM || status == if aliases == [] && addrs == [] then ENODATA else SUCCESS
    ensures |ttls| == |addrttls| && (host.Some? <==> status == SUCCESS && wantHost)
    ensures status == SUCCESS ==> ReportsChain(question, aliases, addrs, host, ttls, naddrttls)
  {
    hide AllValid, Dotted, ChainEnd, Cnames, AddressRecords, ChainTtl, Meanings, Wire, ReadQuestion, Answers, Reports, Holds;
    ghost var answers := ChainAnswers(question, aliases, addrs);
    ChainIsValid(question, aliases, addrs);
    ReplyReads(header, question, asked, answers, after);
    ChainMeans(question, aliases, addrs);
    status, host, ttls, naddrttls := ParseAReply(msg, wantHost, addrttls, mem);
    if status == SUCCESS {
      ReportsWhatWasSent(question, aliases, addrs, host, ttls, naddrttls);
    }
  }
}
