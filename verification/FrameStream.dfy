/**
 The platform's message frames: built by CDataStream (GB28181.Lib/UACTCP.h), taken
 apart and queued by CSmartSocket (GB28181.Lib/SmartSocket.cpp).
 */
module FrameStream {
  import opened Bytes

  const HASH: Byte := 35

  // ----- Frames

  function PutLe32(v: int): (s: seq<Byte>)
    ensures |s| == 4
  {
    [v % 256, v / 256 % 256, v / 256 / 256 % 256, v / 256 / 256 / 256 % 256]
  }

  /** The int a little-endian machine reads at p. */
  function GetLe32(s: seq<Byte>, p: nat): int
    requires p + 4 <= |s|
  {
    ToInt32(s[p] + 256 * (s[p + 1] + 256 * (s[p + 2] + 256 * s[p + 3] as int)))
  }

  lemma Le32RoundTrip(v: int)
    requires -0x8000_0000 <= v < 0x8000_0000
    ensures GetLe32(PutLe32(v), 0) == v
  {
    var a, b, c := v / 256, v / 256 / 256, v / 256 / 256 / 256;
    assert v == a * 256 + v % 256 && a == b * 256 + a % 256 && b == c * 256 + b % 256;
    assert c % 256 == if v < 0 then c + 256 else c;
  }

  /** A length field that counts the bytes after it. */
  predicate Chunk(f: seq<Byte>)
  {
    4 <= |f| && GetLe32(f, 0) == |f| - 4
  }

  predicate Terminated(f: seq<Byte>) { f != [] && f[|f| - 1] == HASH }

  /** The length check that is made on the first frame of a buffer. */
  predicate Admissible(f: seq<Byte>) { 8 <= |f| - 4 <= 50000 }

  function Join(frames: seq<seq<Byte>>): seq<Byte>
  {
    if frames == [] then [] else frames[0] + Join(frames[1..])
  }

  function Frame(payload: seq<Byte>): seq<Byte> { PutLe32(|payload| + 1) + payload + [HASH] }

  lemma FrameIsTerminatedChunk(payload: seq<Byte>)
    requires |payload| + 1 < 0x8000_0000
    ensures Chunk(Frame(payload)) && Terminated(Frame(payload))
  {
    Le32RoundTrip(|payload| + 1);
    HeaderReadsBack(PutLe32(|payload| + 1), payload + [HASH]);
    assert Frame(payload) == PutLe32(|payload| + 1) + (payload + [HASH]);
  }

  lemma HeaderReadsBack(h: seq<Byte>, rest: seq<Byte>)
    requires |h| == 4
    ensures GetLe32(h + rest, 0) == GetLe32(h, 0)
  {
  }

  /** The bytes of a frame: its length, least significant byte first, the payload and a hash sign. */
  lemma FrameBytes()
    ensures Frame([7, 9]) == [3, 0, 0, 0, 7, 9, 35]
  {
  }

  /** Chunks can be told apart in their concatenation. */
  lemma {:induction false} JoinIsInjective(a: seq<seq<Byte>>, b: seq<seq<Byte>>)
    requires (forall f <- a :: Chunk(f)) && (forall f <- b :: Chunk(f)) && Join(a) == Join(b)
    ensures a == b
  {
    if a != [] && b != [] {
      assert Chunk(a[0]) && Chunk(b[0]);
      var s := Join(a);
      assert s[..4] == a[0][..4] && s[..4] == b[0][..4];
      HeaderReadsBack(a[0][..4], a[0][4..]);
      HeaderReadsBack(b[0][..4], b[0][4..]);
      assert a[0] == a[0][..4] + a[0][4..] && b[0] == b[0][..4] + b[0][4..];
      assert s[..|a[0]|] == a[0] && s[..|b[0]|] == b[0];
      assert s[|a[0]|..] == Join(a[1..]) && s[|b[0]|..] == Join(b[1..]);
      JoinIsInjective(a[1..], b[1..]);
      assert a == [a[0]] + a[1..] && b == [b[0]] + b[1..];
    } else {
      assert a == [] || Chunk(a[0]);
      assert b == [] || Chunk(b[0]);
    }
  }

  // ----- Building a frame

  function Written(s: seq<Byte>, p: nat, data: seq<Byte>): (r: seq<Byte>)
    requires p + |data| <= |s|
    ensures |r| == |s|
  {
    s[..p] + data + s[p + |data|..]
  }

  method Copy(buf: array<Byte>, p: nat, data: seq<Byte>)
    requires p + |data| <= buf.Length
    modifies buf
    ensures buf[..] == Written(old(buf[..]), p, data)
  {
    hide Written;
    ghost var was := buf[..];
    assert Written(was, p, data[..0]) == was by { NothingWritten(was, p); }
    var i := 0;
    while i < |data|
      invariant i <= |data|
      invariant buf[..] == Written(was, p, data[..i])
    {
      WrittenOneMore(was, p, data, i);
      buf[p + i] := data[i];
      i := i + 1;
    }
    assert data[..i] == data;
  }

  lemma NothingWritten(s: seq<Byte>, p: nat)
    requires p <= |s|
    ensures Written(s, p, []) == s
  {
  }

  lemma WrittenOneMore(s: seq<Byte>, p: nat, data: seq<Byte>, i: nat)
    requires p + |data| <= |s| && i < |data|
    ensures Written(s, p, data[..i])[p + i := data[i]] == Written(s, p, data[..i + 1])
  {
  }

  class DataStream {
    const buf: array<Byte>
    /** The current position and the end of what was written. */
    var cur: nat
    var last: nat

    ghost predicate Valid()
      reads this
    {
      cur <= last <= buf.Length < 0x8000_0000
    }

    constructor (buf: array<Byte>)
      requires buf.Length < 0x8000_0000
      ensures Valid() && this.buf == buf && cur == last == 0
    {
      this.buf, cur, last := buf, 0, 0;
    }

    method InputData(pos: int, data: seq<Byte>) returns (r: int)
      requires Valid() && (if pos < 0 then cur else pos) + |data| <= buf.Length
      requires pos < 0 && data == [HASH] ==> 4 <= buf.Length
      modifies this, buf
      ensures Valid() && r == 0
      ensures cur == (if pos < 0 then old(cur) else pos) + |data|
      ensures last == if cur > old(last) then cur else old(last)
      ensures buf[..] == var s := Written(old(buf[..]), if pos < 0 then old(cur) else pos, data);
                         if pos < 0 && data == [HASH] then Written(s, 0, PutLe32(last - 4)) else s
    {
      hide Written, PutLe32;
      if pos < 0 {
        Copy(buf, cur, data);
        cur := cur + |data|;
        if cur > last { last := cur; }
        if |data| == 1 && data[0] == HASH {
          Copy(buf, 0, PutLe32(last - 4));
          return 0;
        }
      } else {
        Copy(buf, pos, data);
        cur := pos + |data|;
        if cur > last { last := cur; }
      }
      return 0;
    }
  }

  /** The payload written so far lies behind the four header bytes. */
  ghost predicate Holding(stream: DataStream, payload: seq<Byte>)
    reads stream, stream.buf
  {
    && stream.Valid() && stream.last == stream.cur == 4 + |payload|
    && stream.buf[..][4..4 + |payload|] == payload
  }

  /** A further field; a single '#' also stores the length so far, in the header only. */
  method AppendField(stream: DataStream, ghost payload: seq<Byte>, field: seq<Byte>)
    requires Holding(stream, payload) && 4 + |payload| + |field| <= stream.buf.Length
    modifies stream, stream.buf
    ensures Holding(stream, payload + field)
  {
    hide Written, PutLe32;
    ghost var s := stream.buf[..];
    WrittenAfter(s, payload, field);
    HeaderOnly(Written(s, 4 + |payload|, field), PutLe32(|payload + field|), 4 + |payload + field|);
    var r := stream.InputData(-1, field);
  }

  lemma HeaderOnly(s: seq<Byte>, header: seq<Byte>, n: nat)
    requires |header| == 4 <= n <= |s|
    ensures Written(s, 0, header)[4..n] == s[4..n]
  {
  }

  /** Fields written one after the other behind the four header bytes, then the terminator. */
  method BuildFrame(fields: seq<seq<Byte>>, capacity: nat) returns (frame: seq<Byte>)
    requires fields != [] && |Join(fields)| + 5 <= capacity < 0x8000_0000
    ensures frame == Frame(Join(fields))
    ensures Chunk(frame) && Terminated(frame)
  {
    hide Frame, Chunk, Terminated, Holding, Join;
    var buf := new Byte[capacity](_ => 0);
    var stream := new DataStream(buf);
    JoinSplits(fields, 0);
    FirstField(stream, fields[0]);
    var i := 1;
    while i < |fields|
      invariant 1 <= i <= |fields| && fresh(stream) && stream.buf == buf
      invariant Holding(stream, Join(fields[..i]))
    {
      JoinSplits(fields, i);
      AppendField(stream, Join(fields[..i]), fields[i]);
      i := i + 1;
    }
    assert fields[..i] == fields;
    frame := CloseFrame(stream, Join(fields));
    FrameIsTerminatedChunk(Join(fields));
  }

  /** The first field is written behind the header by position. */
  method FirstField(stream: DataStream, field: seq<Byte>)
    requires stream.Valid() && stream.last == 0 && 4 + |field| <= stream.buf.Length
    modifies stream, stream.buf
    ensures Holding(stream, field)
  {
    hide Written, PutLe32;
    WrittenAfter(stream.buf[..], [], field);
    assert [] + field == field;
    var r := stream.InputData(4, field);
  }

  method CloseFrame(stream: DataStream, ghost payload: seq<Byte>) returns (frame: seq<Byte>)
    requires Holding(stream, payload) && 5 + |payload| <= stream.buf.Length
    modifies stream, stream.buf
    ensures frame == Frame(payload)
  {
    hide Written, PutLe32, Frame;
    FrameInBuffer(stream.buf[..], payload);
    var r := stream.InputData(-1, [HASH]);
    frame := stream.buf[..stream.last];
    assert frame == stream.buf[..][..stream.last];
  }

  lemma WrittenAfter(s: seq<Byte>, payload: seq<Byte>, field: seq<Byte>)
    requires 4 + |payload| + |field| <= |s| && s[4..4 + |payload|] == payload
    ensures Written(s, 4 + |payload|, field)[4..4 + |payload + field|] == payload + field
  {
  }

  lemma FrameInBuffer(s: seq<Byte>, payload: seq<Byte>)
    requires |payload| + 5 <= |s| && s[4..4 + |payload|] == payload
    ensures Written(Written(s, 4 + |payload|, [HASH]), 0, PutLe32(|payload| + 1))[..|payload| + 5] == Frame(payload)
  {
    hide PutLe32;
  }

  lemma JoinSplits(frames: seq<seq<Byte>>, i: nat)
    requires i < |frames|
    ensures Join(frames[..i + 1]) == Join(frames[..i]) + frames[i]
    ensures |Join(frames[..i + 1])| <= |Join(frames)|
    ensures i == 0 ==> Join(frames[..i + 1]) == frames[0]
  {
    JoinConcat(frames[..i], [frames[i]]);
    assert frames[..i + 1] == frames[..i] + [frames[i]];
    JoinConcat(frames[..i + 1], frames[i + 1..]);
    assert frames == frames[..i + 1] + frames[i + 1..];
  }

  lemma {:induction false} JoinConcat(a: seq<seq<Byte>>, b: seq<seq<Byte>>)
    ensures Join(a + b) == Join(a) + Join(b)
  {
    if a == [] {
      assert a + b == b;
    } else {
      assert (a + b)[1..] == a[1..] + b;
      JoinConcat(a[1..], b);
    }
  }

  // ----- Taking frames apart

  /** How many frames at the front are terminated. */
  function Accepted(frames: seq<seq<Byte>>): (n: nat)
    ensures n <= |frames| && (n < |frames| ==> !Terminated(frames[n]))
    ensures forall i | 0 <= i < n :: Terminated(frames[i])
  {
    if frames == [] || !Terminated(frames[0]) then 0 else 1 + Accepted(frames[1..])
  }

  /** The frames of a received buffer that are queued: only the first length is checked. */
  function Queued(frames: seq<seq<Byte>>): seq<seq<Byte>>
  {
    if frames != [] && Admissible(frames[0]) then frames[..Accepted(frames)] else []
  }

  /**
   Every queued frame has an admissible length exactly if the first frame of the
   buffer has not, or if it and all terminated frames that follow it have.
   */
  lemma QueuedLengths(frames: seq<seq<Byte>>)
    requires frames != []
    ensures (forall f <- Queued(frames) :: Admissible(f))
            <==> !Admissible(frames[0]) || forall i | 0 <= i < Accepted(frames) :: Admissible(frames[i])
  {
    hide Accepted, Admissible;
    forall i | 0 <= i < |Queued(frames)| ensures Queued(frames)[i] in Queued(frames) && Queued(frames)[i] == frames[i] {}
  }

  lemma AddedLengths(before: seq<seq<Byte>>, after: seq<seq<Byte>>, frames: seq<seq<Byte>>)
    requires frames != [] && after == before + Queued(frames)
    ensures (forall k | |before| <= k < |after| :: Admissible(after[k]))
            <==> !Admissible(frames[0]) || forall i | 0 <= i < Accepted(frames) :: Admissible(frames[i])
  {
    hide Admissible, Queued, Accepted;
    QueuedLengths(frames);
    var queued := Queued(frames);
    forall i | 0 <= i < |queued| ensures after[|before| + i] == queued[i] && queued[i] in queued {}
    assert forall k | |before| <= k < |after| :: after[k] == queued[k - |before|];
  }

  /** For instance a frame of one byte behind an admissible one. */
  lemma ShortFrameIsQueued()
    ensures var frames := [Frame([0, 0, 0, 0, 0, 0, 0]), Frame([])];
            && (forall f <- frames :: Chunk(f) && Terminated(f))
            && Queued(frames) == frames && !Admissible(frames[1])
  {
    hide Frame, Chunk, Terminated, Accepted;
    var frames := [Frame([0, 0, 0, 0, 0, 0, 0]), Frame([])];
    FrameIsTerminatedChunk([0, 0, 0, 0, 0, 0, 0]); FrameIsTerminatedChunk([]);
    FrameLength([0, 0, 0, 0, 0, 0, 0]); FrameLength([]);
    AcceptedFrom(frames, 2);
  }

  lemma {:induction false} AcceptedFrom(frames: seq<seq<Byte>>, n: nat)
    requires n <= |frames| && forall i | 0 <= i < n :: Terminated(frames[i])
    requires n < |frames| ==> !Terminated(frames[n])
    ensures n == Accepted(frames)
  {
    if n > 0 { AcceptedFrom(frames[1..], n - 1); }
  }

  /** The frame at place i starts where the frames before it end, and its length is read there. */
  lemma FrameAt(frames: seq<seq<Byte>>, i: nat)
    requires i < |frames| && Chunk(frames[i])
    ensures var p := |Join(frames[..i])|;
            && 4 <= |frames[i]| && p + |frames[i]| <= |Join(frames)|
            && Join(frames)[p..p + |frames[i]|] == frames[i]
            && GetLe32(Join(frames), p) == |frames[i]| - 4
            && |Join(frames[..i + 1])| == p + |frames[i]|
  {
    hide GetLe32;
    JoinSplits(frames, i);
    var s, p, f := Join(frames), |Join(frames[..i])|, frames[i];
    JoinConcat(frames[..i + 1], frames[i + 1..]);
    assert frames == frames[..i + 1] + frames[i + 1..];
    assert s == Join(frames[..i]) + f + Join(frames[i + 1..]);
    assert s[p..p + |f|] == f;
    SameHeader(s, p, f);
  }

  lemma SameHeader(s: seq<Byte>, p: nat, f: seq<Byte>)
    requires 4 <= |f| && p + |f| <= |s| && s[p..p + |f|] == f
    ensures GetLe32(s, p) == GetLe32(f, 0)
  {
    assert f[0] == s[p] && f[1] == s[p + 1] && f[2] == s[p + 2] && f[3] == s[p + 3];
  }

  lemma NothingJoined()
    ensures Join([]) == []
  {
  }

  /** Some bytes are left exactly while some frames are. */
  lemma BytesLeft(frames: seq<seq<Byte>>, i: nat)
    requires i <= |frames| && forall f <- frames :: Chunk(f)
    ensures |Join(frames[..i])| <= |Join(frames)|
    ensures |Join(frames[..i])| < |Join(frames)| <==> i < |frames|
  {
    JoinConcat(frames[..i], frames[i..]);
    assert frames == frames[..i] + frames[i..];
    if i < |frames| { assert Chunk(frames[i]); }
  }

  class RawData {
    const bytes: seq<Byte>
    var isRead: bool

    constructor (bytes: seq<Byte>)
      ensures this.bytes == bytes && !isRead
    {
      this.bytes, isRead := bytes, false;
    }
  }

  class SmartSocket {
    var packages: seq<RawData>
    /** A frame of which only a part has arrived, and how much is missing. */
    var incomplete: RawData?
    var surplus: int

    constructor ()
      ensures packages == [] && incomplete == null
    {
      packages, incomplete, surplus := [], null, 0;
    }

    function Texts(): seq<seq<Byte>>
      reads this
    {
      seq(|packages|, i requires 0 <= i < |packages| reads this => packages[i].bytes)
    }

    method AddDataToList(data: RawData)
      modifies this`packages
      ensures packages == old(packages) + [data]
    {
      packages := packages + [data];
    }

    /** Queues the frames of a buffer in order, up to one that is not terminated; only the first length is checked. */
    method ProRawData(buf: seq<Byte>, ghost frames: seq<seq<Byte>>) returns (r: int)
      requires incomplete == null
      requires frames != [] && (forall f <- frames :: Chunk(f)) && buf == Join(frames)
      modifies this
      ensures incomplete == null && old(packages) <= packages
      ensures Texts() == old(Texts()) + Queued(frames)
      ensures r == if Queued(frames) == frames then 0 else -1
      // Nothing is queued if the first length is not from 8 to 50000.
      ensures |frames[0]| - 4 < 8 || |frames[0]| - 4 > 50000 ==> r == -1 && packages == old(packages)
      // All lengths that are queued are admissible exactly if the first frame's is not, or those of all terminated frames
      // up to the first unterminated one are.
      ensures (forall k | |old(packages)| <= k < |packages| :: Admissible(Texts()[k]))
              <==> !Admissible(frames[0]) || forall i | 0 <= i < Accepted(frames) :: Admissible(frames[i])
      ensures forall k | |old(packages)| <= k < |packages| :: fresh(packages[k]) && !packages[k].isRead
    {
      hide Chunk, GetLe32, Terminated, Accepted, Join;
      NothingJoined();
      BytesLeft(frames, 0);
      assert Chunk(frames[0]);
      FrameAt(frames, 0);
      assert frames[..0] == [];
      assert Join(frames[..0]) == [];
      var dataSize := GetLe32(buf, 0);
      if 50000 < dataSize || 8 > dataSize {
        return -1;
      }
      ghost var i, added: seq<RawData> := 0, [];
      var count, left, first := 0, |buf|, true;
      while 0 < left
        invariant 0 <= i <= |frames| && count == |Join(frames[..i])| && left == |buf| - count
        invariant left > 0 <==> i < |frames|
        invariant first == (i == 0) && (first ==> dataSize == GetLe32(buf, 0))
        invariant incomplete == null && packages == old(packages) + added && |added| == i
        invariant forall k | 0 <= k < i :: fresh(added[k]) && !added[k].isRead
        invariant forall k | 0 <= k < i :: added[k].bytes == frames[k] && Terminated(frames[k])
        decreases left
      {
        assert Chunk(frames[i]);
        FrameAt(frames, i);
        BytesLeft(frames, i + 1);
        if !first {
          dataSize := GetLe32(buf, count);
        }
        var data := new RawData(buf[count..count + dataSize + 4]);
        incomplete, surplus := null, 0;
        if Terminated(data.bytes) {
          AddDataToList(data);
          added := added + [data];
        } else {
          AcceptedFrom(frames, i);
          assert Texts() == old(Texts()) + frames[..i];
          AddedLengths(old(Texts()), Texts(), frames);
          return -1;
        }
        first := false;
        count := count + dataSize + 4;
        left := left - (dataSize + 4);
        i := i + 1;
      }
      AcceptedFrom(frames, i);
      assert Texts() == old(Texts()) + frames[..i];
      AddedLengths(old(Texts()), Texts(), frames);
      return 0;
    }

    /** Packages at the front that a reader has marked are dropped; the first other one is returned. */
    method DequeuePackage(isDelete: bool) returns (data: RawData?)
      modifies this`packages
      ensures var k := ReadCount(old(packages));
              if k == |old(packages)| then data == null && packages == []
              else data == old(packages)[k] && packages == old(packages)[k + if isDelete then 1 else 0..]
    {
      ghost var n, k := ReadCount(packages), 0;
      assert packages[0..] == packages;
      while 0 < |packages|
        invariant 0 <= k <= |old(packages)| && packages == old(packages)[k..] && n == k + ReadCount(packages)
      {
        data := packages[0];
        if data.isRead {
          packages := packages[1..];
          k := k + 1;
          continue;
        }
        if isDelete {
          packages := packages[1..];
        }
        return;
      }
      return null;
    }
  }

  function ReadCount(packages: seq<RawData>): (k: nat)
    reads packages
    ensures k <= |packages| && (forall i | 0 <= i < k :: packages[i].isRead) && (k < |packages| ==> !packages[k].isRead)
  {
    if packages == [] || !packages[0].isRead then 0 else 1 + ReadCount(packages[1..])
  }

  /** Deleting dequeues until none is left. */
  method DrainPackages(socket: SmartSocket) returns (received: seq<seq<Byte>>)
    requires forall p <- socket.packages :: !p.isRead
    modifies socket`packages
    ensures received == old(socket.Texts()) && socket.packages == []
  {
    received := [];
    ghost var texts, k := socket.Texts(), 0;
    var data := socket.DequeuePackage(true);
    while data != null
      invariant 0 <= k <= |old(socket.packages)| && received == texts[..k]
      invariant data == null ==> k == |texts| && socket.packages == []
      invariant data != null ==> k < |texts| && data == old(socket.packages)[k] && socket.packages == old(socket.packages)[k + 1..]
      decreases |texts| - k, data != null
    {
      received := received + [data.bytes];
      k := k + 1;
      data := socket.DequeuePackage(true);
    }
  }

  /** Frames sent as one buffer come out of the queue one by one, in order. */
  method SendAndReceive(messages: seq<seq<seq<Byte>>>, capacity: nat) returns (received: seq<seq<Byte>>)
    requires messages != [] && capacity < 0x8000_0000
    requires forall m <- messages :: m != [] && 7 <= |Join(m)| && |Join(m)| + 5 <= capacity && |Join(m)| + 1 <= 50000
    ensures |received| == |messages|
    ensures forall k | 0 <= k < |messages| :: received[k] == Frame(Join(messages[k]))
  {
    hide Frame, Chunk, Terminated, Join, Accepted;
    var frames: seq<seq<Byte>> := [];
    var k := 0;
    while k < |messages|
      invariant 0 <= k <= |messages| && |frames| == k
      invariant forall j | 0 <= j < k :: frames[j] == Frame(Join(messages[j])) && Chunk(frames[j]) && Terminated(frames[j])
    {
      assert messages[k] in messages;
      var frame := BuildFrame(messages[k], capacity);
      frames := frames + [frame];
      k := k + 1;
    }
    var socket := new SmartSocket();
    FrameLength(Join(messages[0]));
    AcceptedFrom(frames, |frames|);
    var r := socket.ProRawData(Join(frames), frames);
    assert frames[..|frames|] == frames;
    received := DrainPackages(socket);
  }

  lemma FrameLength(payload: seq<Byte>)
    ensures |Frame(payload)| == |payload| + 5
  {
  }
}
