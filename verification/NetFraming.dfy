/**
  Framing of the peer byte stream (src/net.cpp:729-779, 808-854; src/net.h:567-608):
  a header of 24 bytes, which holds the size of the payload, then the payload.

  First what the stream means, byte by byte and message by message; then the
  parser that is given chunks of any length.
*/
module NetFraming {

  type byte = x: int | 0 <= x < 256
  type Bytes = seq<byte>

  const HEADER_SIZE := 24
  const MESSAGE_SIZE_OFFSET := 16
  const MAX_SIZE := 0x0200_0000
  const MAX_PROTOCOL_MESSAGE_LENGTH := 4_000_000
  const READ_AHEAD := 256 * 1024

  datatype Message = Message(header: Bytes, payload: Bytes)

  function FieldByte(header: Bytes, i: nat): nat
    requires |header| == HEADER_SIZE && i < 4
  {
    header[MESSAGE_SIZE_OFFSET + i]
  }

  /** The size field of a header, lowest byte first. */
  function SizeOf(header: Bytes): nat
    requires |header| == HEADER_SIZE
  {
    FieldByte(header, 0) + 0x100 * FieldByte(header, 1) + 0x1_0000 * FieldByte(header, 2) +
      0x100_0000 * FieldByte(header, 3)
  }

  /** The n lowest bytes of a number, lowest first. */
  function LittleEndian(x: nat, n: nat): (b: Bytes)
    ensures |b| == n
    decreases n, x
  {
    if n == 0 then [] else [x % 0x100] + LittleEndian(x / 0x100, n - 1)
  }

  /** A header as it is sent: network, command, size of the payload, checksum. */
  function MakeHeader(start: Bytes, command: Bytes, size: nat, checksum: Bytes): Bytes {
    start + command + LittleEndian(size, 4) + checksum
  }

  /** The size read from a header is the size that was written into it. */
  lemma HeaderSize(start: Bytes, command: Bytes, size: nat, checksum: Bytes)
    requires |start| == 4 && |command| == 12 && |checksum| == 4 && size < 0x1_0000_0000
    ensures |MakeHeader(start, command, size, checksum)| == HEADER_SIZE
    ensures SizeOf(MakeHeader(start, command, size, checksum)) == size
  {
    var h, b := MakeHeader(start, command, size, checksum), LittleEndian(size, 4);
    forall i | 0 <= i < 4 ensures h[MESSAGE_SIZE_OFFSET + i] == b[i] { }
    FourBytes(size, b);
  }

  lemma FourBytes(x: nat, b: Bytes)
    requires x < 0x1_0000_0000 && b == LittleEndian(x, 4)
    ensures b[0] == x % 0x100 && b[1] == x / 0x100 % 0x100
    ensures b[2] == x / 0x100 / 0x100 % 0x100 && b[3] == x / 0x100 / 0x100 / 0x100
    ensures b[0] as int + 0x100 * b[1] as int + 0x1_0000 * b[2] as int + 0x100_0000 * b[3] as int == x
  {
    var y := x / 0x100;
    var z := y / 0x100;
    var b1, b2, b3 := LittleEndian(y, 3), LittleEndian(z, 2), LittleEndian(z / 0x100, 1);
    assert b == [x % 0x100] + b1 && b1 == [y % 0x100] + b2 && b2 == [z % 0x100] + b3;
    assert b3 == [z / 0x100 % 0x100] + LittleEndian(z / 0x100 / 0x100, 0);
  }

  predicate TooLong(header: Bytes)
    requires |header| == HEADER_SIZE
  {
    SizeOf(header) > MAX_SIZE || SizeOf(header) > MAX_PROTOCOL_MESSAGE_LENGTH
  }

  // ----- The stream, byte by byte -----

  /** The complete messages and the one in progress; or the complete ones before
      a header that was refused. */
  datatype Stream = Open(done: seq<Message>, header: Bytes, payload: Bytes) | Broken(done: seq<Message>)

  const START := Open([], [], [])

  ghost predicate ValidStream(s: Stream) {
    s.Open? ==>
      && |s.header| <= HEADER_SIZE
      && (|s.header| < HEADER_SIZE ==> s.payload == [])
      && (|s.header| == HEADER_SIZE ==> !TooLong(s.header) && |s.payload| < SizeOf(s.header))
  }

  /** A message that has all its bytes joins the complete ones. */
  function Close(s: Stream): Stream
    requires s.Open? && |s.header| == HEADER_SIZE
  {
    if |s.payload| == SizeOf(s.header) then Open(s.done + [Message(s.header, s.payload)], [], []) else s
  }

  function Absorb(s: Stream, b: byte): Stream
    requires ValidStream(s)
    ensures ValidStream(Absorb(s, b))
  {
    if s.Broken? then s
    else if |s.header| < HEADER_SIZE then
      var t := s.(header := s.header + [b]);
      if |t.header| < HEADER_SIZE then t
      else if TooLong(t.header) then Broken(s.done)
      else Close(t)
    else Close(s.(payload := s.payload + [b]))
  }

  function AbsorbAll(s: Stream, bytes: Bytes): (t: Stream)
    requires ValidStream(s)
    ensures ValidStream(t)
    decreases |bytes|
  {
    if bytes == [] then s else AbsorbAll(Absorb(s, bytes[0]), bytes[1..])
  }

  /** Where a chunk ends makes no difference. */
  lemma {:induction false} AbsorbSplit(s: Stream, a: Bytes, b: Bytes)
    requires ValidStream(s)
    ensures AbsorbAll(s, a + b) == AbsorbAll(AbsorbAll(s, a), b)
    decreases |a|
  {
    if a == [] {
      assert a + b == b;
    } else {
      assert (a + b)[1..] == a[1..] + b;
      AbsorbSplit(Absorb(s, a[0]), a[1..], b);
    }
  }

  function Concat(chunks: seq<Bytes>): Bytes {
    if chunks == [] then [] else chunks[0] + Concat(chunks[1..])
  }

  function AbsorbChunks(s: Stream, chunks: seq<Bytes>): Stream
    requires ValidStream(s)
    decreases |chunks|
  {
    if chunks == [] then s else AbsorbChunks(AbsorbAll(s, chunks[0]), chunks[1..])
  }

  lemma {:induction false} ChunksDoNotMatter(s: Stream, chunks: seq<Bytes>)
    requires ValidStream(s)
    ensures AbsorbChunks(s, chunks) == AbsorbAll(s, Concat(chunks))
    decreases |chunks|
  {
    if chunks != [] {
      AbsorbSplit(s, chunks[0], Concat(chunks[1..]));
      ChunksDoNotMatter(AbsorbAll(s, chunks[0]), chunks[1..]);
    }
  }

  // ----- The stream, message by message -----

  /** Parsing in one go what follows the complete messages `done`. */
  function Parse(done: seq<Message>, bytes: Bytes): Stream
    decreases |bytes|
  {
    if |bytes| < HEADER_SIZE then Open(done, bytes, [])
    else
      var header, rest := bytes[..HEADER_SIZE], bytes[HEADER_SIZE..];
      if TooLong(header) then Broken(done)
      else if |rest| < SizeOf(header) then Open(done, header, rest)
      else Parse(done + [Message(header, rest[..SizeOf(header)])], rest[SizeOf(header)..])
  }

  lemma {:induction false} AbsorbHeaderPart(s: Stream, bytes: Bytes)
    requires ValidStream(s) && s.Open? && |s.header| + |bytes| < HEADER_SIZE
    ensures AbsorbAll(s, bytes) == s.(header := s.header + bytes)
    decreases |bytes|
  {
    if bytes == [] {
      assert s.header + bytes == s.header;
    } else {
      AbsorbHeaderPart(Absorb(s, bytes[0]), bytes[1..]);
      assert s.header + [bytes[0]] + bytes[1..] == s.header + bytes;
    }
  }

  /** The bytes that complete a header. */
  lemma AbsorbHeader(s: Stream, bytes: Bytes)
    requires ValidStream(s) && s.Open? && |s.header| < HEADER_SIZE == |s.header| + |bytes|
    ensures var t := s.(header := s.header + bytes);
      AbsorbAll(s, bytes) == if TooLong(t.header) then Broken(s.done) else Close(t)
  {
    var n := |bytes| - 1;
    assert bytes == bytes[..n] + [bytes[n]];
    AbsorbSplit(s, bytes[..n], [bytes[n]]);
    AbsorbHeaderPart(s, bytes[..n]);
    assert s.header + bytes[..n] + [bytes[n]] == s.header + bytes;
  }

  lemma {:induction false} AbsorbPayload(s: Stream, bytes: Bytes)
    requires ValidStream(s) && s.Open? && |s.header| == HEADER_SIZE && |s.payload| + |bytes| <= SizeOf(s.header)
    ensures AbsorbAll(s, bytes) == Close(s.(payload := s.payload + bytes))
    decreases |bytes|
  {
    if bytes == [] {
      assert s.payload + bytes == s.payload;
    } else {
      var t := Absorb(s, bytes[0]);
      assert s.payload + [bytes[0]] + bytes[1..] == s.payload + bytes;
      if |bytes| > 1 { AbsorbPayload(t, bytes[1..]); } else { assert bytes == [bytes[0]]; }
    }
  }

  lemma {:induction false} BrokenStays(s: Stream, bytes: Bytes)
    requires s.Broken?
    ensures AbsorbAll(s, bytes) == s
    decreases |bytes|
  {
    if bytes != [] { BrokenStays(s, bytes[1..]); }
  }

  lemma AbsorbMessage(done: seq<Message>, header: Bytes, body: Bytes)
    requires |header| == HEADER_SIZE && !TooLong(header) && |body| == SizeOf(header)
    ensures AbsorbAll(Open(done, [], []), header + body) == Open(done + [Message(header, body)], [], [])
  {
    var s := Open(done, [], []);
    AbsorbSplit(s, header, body);
    AbsorbHeader(s, header);
    assert [] + header == header;
    if body != [] {
      AbsorbPayload(Open(done, header, []), body);
      assert [] + body == body;
    }
  }

  lemma AbsorbUnfinished(done: seq<Message>, header: Bytes, rest: Bytes)
    requires |header| == HEADER_SIZE && !TooLong(header) && |rest| < SizeOf(header)
    ensures AbsorbAll(Open(done, [], []), header + rest) == Open(done, header, rest)
  {
    var s := Open(done, [], []);
    AbsorbSplit(s, header, rest);
    AbsorbHeader(s, header);
    assert [] + header == header;
    AbsorbPayload(Open(done, header, []), rest);
    assert [] + rest == rest;
  }

  lemma AbsorbRefused(done: seq<Message>, header: Bytes, rest: Bytes)
    requires |header| == HEADER_SIZE && TooLong(header)
    ensures AbsorbAll(Open(done, [], []), header + rest) == Broken(done)
  {
    var s := Open(done, [], []);
    AbsorbSplit(s, header, rest);
    AbsorbHeader(s, header);
    assert [] + header == header;
    BrokenStays(Broken(done), rest);
  }

  /** Feeding byte by byte gives the same messages, the same rest and the same
      failure as parsing in one go. */
  lemma {:induction false} AbsorbIsParse(done: seq<Message>, bytes: Bytes)
    ensures AbsorbAll(Open(done, [], []), bytes) == Parse(done, bytes)
    decreases |bytes|
  {
    var s := Open(done, [], []);
    if |bytes| < HEADER_SIZE {
      AbsorbHeaderPart(s, bytes);
      assert [] + bytes == bytes;
    } else {
      var header, rest := bytes[..HEADER_SIZE], bytes[HEADER_SIZE..];
      assert bytes == header + rest;
      if TooLong(header) {
        AbsorbRefused(done, header, rest);
      } else if |rest| < SizeOf(header) {
        AbsorbUnfinished(done, header, rest);
      } else {
        var body, tail := rest[..SizeOf(header)], rest[SizeOf(header)..];
        assert bytes == header + body + tail;
        AbsorbSplit(s, header + body, tail);
        AbsorbMessage(done, header, body);
        AbsorbIsParse(done + [Message(header, body)], tail);
      }
    }
  }

  // ----- Messages on the wire -----

  ghost predicate Sendable(m: Message) {
    |m.header| == HEADER_SIZE && !TooLong(m.header) && SizeOf(m.header) == |m.payload|
  }

  /** A message with a header made for it can be sent if and only if its payload is
      within the limit. */
  lemma SendableExactly(start: Bytes, command: Bytes, checksum: Bytes, payload: Bytes)
    requires |start| == 4 && |command| == 12 && |checksum| == 4 && |payload| < 0x1_0000_0000
    ensures Sendable(Message(MakeHeader(start, command, |payload|, checksum), payload)) <==>
      |payload| <= MAX_PROTOCOL_MESSAGE_LENGTH
  {
    HeaderSize(start, command, |payload|, checksum);
  }

  function Wire(ms: seq<Message>): Bytes {
    if ms == [] then [] else Wire(ms[..|ms| - 1]) + (ms[|ms| - 1].header + ms[|ms| - 1].payload)
  }

  /** Messages that are sent one after the other are received as they are. */
  lemma {:induction false} WireIsParsed(ms: seq<Message>)
    requires forall i :: 0 <= i < |ms| ==> Sendable(ms[i])
    ensures AbsorbAll(START, Wire(ms)) == Open(ms, [], [])
  {
    if ms != [] {
      var n := |ms| - 1;
      WireIsParsed(ms[..n]);
      AbsorbSplit(START, Wire(ms[..n]), ms[n].header + ms[n].payload);
      AbsorbMessage(ms[..n], ms[n].header, ms[n].payload);
      assert ms == ms[..n] + [ms[n]];
      assert ms[n] == Message(ms[n].header, ms[n].payload);
    }
  }

  // ----- The parser -----

  function Min(a: nat, b: nat): nat { if a < b then a else b }

  /** memcpy of n bytes to position p of a buffer. */
  function Copied(buffer: Bytes, p: nat, bytes: Bytes): Bytes
    requires p + |bytes| <= |buffer|
  {
    buffer[..p] + bytes + buffer[p + |bytes|..]
  }

  /** resize: new bytes are zero. */
  function Resized(buffer: Bytes, n: nat): (r: Bytes)
    requires n >= |buffer|
    ensures |r| == n && r[..|buffer|] == buffer
  {
    buffer + seq(n - |buffer|, i => 0)
  }

  class NetMessage {
    var inData: bool
    var hdrbuf: Bytes
    var hdr: Bytes
    var nHdrPos: nat
    var vRecv: Bytes
    var nDataPos: nat

    ghost predicate Valid()
      reads this
    {
      && |hdrbuf| == HEADER_SIZE && nHdrPos <= HEADER_SIZE
      && (!inData ==> nHdrPos < HEADER_SIZE && vRecv == [] && nDataPos == 0)
      && (inData ==> |hdr| == HEADER_SIZE && nDataPos <= |vRecv| <= SizeOf(hdr))
    }

    predicate Complete()
      requires inData ==> |hdr| == HEADER_SIZE
      reads this
    {
      inData && SizeOf(hdr) == nDataPos
    }

    ghost function Header(): Bytes
      requires Valid()
      reads this
    {
      if inData then hdr else hdrbuf[..nHdrPos]
    }

    ghost function Payload(): Bytes
      requires Valid()
      reads this
    {
      vRecv[..nDataPos]
    }

    constructor ()
      ensures Valid() && !inData && Header() == [] && Payload() == []
    {
      inData, hdrbuf, hdr, nHdrPos, vRecv, nDataPos := false, seq(HEADER_SIZE, i => 0), [], 0, [], 0;
    }

    /** Copies bytes into the header; a complete header is read. */
    method ReadHeader(pch: Bytes) returns (handled: int)
      requires Valid() && !inData && pch != []
      modifies this
      ensures var n := Min(HEADER_SIZE - old(nHdrPos), |pch|); var h := old(Header()) + pch[..n];
        && 0 < n && |h| <= HEADER_SIZE
        && (if |h| < HEADER_SIZE then handled == n && Valid() && !inData && Header() == h
            else if SizeOf(h) > MAX_SIZE then handled == -1
            else handled == n && Valid() && inData && hdr == h && Payload() == [])
    {
      ghost var h := Header();
      var nCopy := Min(HEADER_SIZE - nHdrPos, |pch|);
      hdrbuf := Copied(hdrbuf, nHdrPos, pch[..nCopy]);
      nHdrPos := nHdrPos + nCopy;
      assert hdrbuf[..nHdrPos] == h + pch[..nCopy];
      if nHdrPos < HEADER_SIZE {
        return nCopy;
      }
      assert hdrbuf[..HEADER_SIZE] == hdrbuf;
      hdr := hdrbuf;
      if SizeOf(hdr) > MAX_SIZE {
        return -1;
      }
      inData := true;
      handled := nCopy;
    }

    /** Copies bytes into the payload, whose buffer grows in steps; the buffer
        of a complete message is exactly its payload. */
    method ReadData(pch: Bytes) returns (handled: nat)
      requires Valid() && inData && !Complete() && pch != []
      modifies this
      ensures Valid() && inData && hdr == old(hdr)
      ensures handled == Min(SizeOf(hdr) - old(nDataPos), |pch|) > 0
      ensures Payload() == old(Payload()) + pch[..handled]
      ensures Complete() ==> vRecv == Payload() && |vRecv| == SizeOf(hdr)
    {
      ghost var was := Payload();
      var nCopy := Min(SizeOf(hdr) - nDataPos, |pch|);
      if |vRecv| < nDataPos + nCopy {
        vRecv := Resized(vRecv, Min(SizeOf(hdr), nDataPos + nCopy + READ_AHEAD));
        assert vRecv[..nDataPos] == was;
      }
      vRecv := Copied(vRecv, nDataPos, pch[..nCopy]);
      nDataPos := nDataPos + nCopy;
      assert vRecv[..nDataPos] == was + pch[..nCopy];
      handled := nCopy;
    }
  }

  class Node {
    var vRecvMsg: seq<NetMessage>
    ghost var done: seq<Message>

    /** The received list holds the complete messages, and perhaps one more. */
    ghost predicate Valid()
      reads this, vRecvMsg
    {
      && |done| <= |vRecvMsg| <= |done| + 1
      && (forall i :: 0 <= i < |done| ==> Holds(vRecvMsg[i], done[i]))
      && (|vRecvMsg| > |done| ==>
        Pending(vRecvMsg[|done|]) && forall i :: 0 <= i < |done| ==> vRecvMsg[i] != vRecvMsg[|done|])
    }

    /** The list holds the complete messages, whatever became of the last one. */
    ghost predicate Kept()
      reads this, vRecvMsg
    {
      |done| <= |vRecvMsg| && forall i :: 0 <= i < |done| ==> Holds(vRecvMsg[i], done[i])
    }

    /** The stream that the received list stands for. */
    ghost function State(): (s: Stream)
      requires Valid()
      reads this, vRecvMsg
      ensures s.Open? && ValidStream(s)
    {
      if |vRecvMsg| == |done| then Open(done, [], [])
      else Open(done, vRecvMsg[|done|].Header(), vRecvMsg[|done|].Payload())
    }

    constructor ()
      ensures Valid() && State() == START
    {
      vRecvMsg, done := [], [];
    }

    /** The message in progress, a new one if there is none. */
    method Current() returns (msg: NetMessage)
      requires Valid()
      modifies this`vRecvMsg
      ensures Valid() && State() == old(State()) && done == old(done)
      ensures |vRecvMsg| == |done| + 1 && msg == vRecvMsg[|done|]
      ensures vRecvMsg == old(vRecvMsg) || (fresh(msg) && vRecvMsg == old(vRecvMsg) + [msg])
    {
      if vRecvMsg == [] || vRecvMsg[|vRecvMsg| - 1].Complete() {
        var started := new NetMessage();
        vRecvMsg := vRecvMsg + [started];
      }
      msg := vRecvMsg[|vRecvMsg| - 1];
    }

    method TakeHeader(msg: NetMessage, pch: Bytes) returns (handled: int, completed: bool)
      requires Valid() && |vRecvMsg| == |done| + 1 && msg == vRecvMsg[|done|] && !msg.inData && pch != []
      modifies this`done, msg
      ensures handled < 0 ==> AbsorbAll(old(State()), pch) == Broken(done) && done == old(done) && Kept()
      ensures handled >= 0 ==>
        && 0 < handled <= |pch| && Valid()
        && State() == AbsorbAll(old(State()), pch[..handled])
        && |old(done)| <= |done| && completed == (|done| > |old(done)|)
    {
      ghost var s, n := State(), Min(HEADER_SIZE - msg.nHdrPos, |pch|);
      assert pch == pch[..n] + pch[n..];
      AbsorbSplit(s, pch[..n], pch[n..]);
      if |s.header| + n < HEADER_SIZE {
        AbsorbHeaderPart(s, pch[..n]);
      } else {
        AbsorbHeader(s, pch[..n]);
        BrokenStays(Broken(done), pch[n..]);
      }
      handled := msg.ReadHeader(pch);
      if handled < 0 || (msg.inData && SizeOf(msg.hdr) > MAX_PROTOCOL_MESSAGE_LENGTH) {
        return -1, false;
      }
      completed := msg.Complete();
      if completed {
        assert msg.vRecv == [];
        done := done + [Message(msg.hdr, msg.vRecv)];
      }
    }

    method TakeData(msg: NetMessage, pch: Bytes) returns (handled: int, completed: bool)
      requires Valid() && |vRecvMsg| == |done| + 1 && msg == vRecvMsg[|done|] && msg.inData && pch != []
      modifies this`done, msg
      ensures 0 < handled <= |pch| && Valid()
      ensures State() == AbsorbAll(old(State()), pch[..handled])
      ensures |old(done)| <= |done| && completed == (|done| > |old(done)|)
    {
      ghost var s, n := State(), Min(SizeOf(msg.hdr) - msg.nDataPos, |pch|);
      AbsorbPayload(s, pch[..n]);
      handled := msg.ReadData(pch);
      completed := msg.Complete();
      if completed {
        done := done + [Message(msg.hdr, msg.vRecv)];
      }
    }

    /** One round of the loop: the current message takes what it can. */
    method Take(pch: Bytes) returns (handled: int, completed: bool)
      requires Valid() && pch != []
      modifies this, vRecvMsg
      ensures handled < 0 ==> AbsorbAll(old(State()), pch) == Broken(done) && done == old(done) && Kept()
      ensures handled >= 0 ==>
        && 0 < handled <= |pch| && Valid()
        && State() == AbsorbAll(old(State()), pch[..handled])
        && |old(done)| <= |done| && completed == (|done| > |old(done)|)
        && fresh(Objects(vRecvMsg) - Objects(old(vRecvMsg)))
    {
      var msg := Current();
      if !msg.inData {
        handled, completed := TakeHeader(msg, pch);
      } else {
        handled, completed := TakeData(msg, pch);
      }
    }

    /** Whatever the chunk, the list is what parsing the whole stream gives;
        false is returned exactly when a header is refused. */
    method ReceiveMsgBytes(pch: Bytes) returns (ok: bool, complete: bool)
      requires Valid()
      modifies this, vRecvMsg
      ensures ok <==> AbsorbAll(old(State()), pch).Open?
      ensures ok ==> Valid() && State() == AbsorbAll(old(State()), pch) && complete == (|done| > |old(done)|)
      ensures !ok ==> AbsorbAll(old(State()), pch) == Broken(done) && Kept()
      ensures ok ==> fresh(Objects(vRecvMsg) - Objects(old(vRecvMsg)))
    {
      complete := false;
      var pos := 0;
      ghost var start := State();
      while pos < |pch|
        invariant 0 <= pos <= |pch| && Valid()
        invariant State() == AbsorbAll(start, pch[..pos])
        invariant |done| >= |old(done)| && complete == (|done| > |old(done)|)
        invariant fresh(Objects(vRecvMsg) - Objects(old(vRecvMsg)))
      {
        ghost var s := State();
        assert pch == pch[..pos] + pch[pos..];
        AbsorbSplit(start, pch[..pos], pch[pos..]);
        var handled, completed := Take(pch[pos..]);
        if handled < 0 {
          return false, complete;
        }
        assert pch[..pos + handled] == pch[..pos] + pch[pos..][..handled];
        AbsorbSplit(start, pch[..pos], pch[pos..][..handled]);
        pos := pos + handled;
        if completed { complete := true; }
      }
      assert pch[..pos] == pch;
      ok := true;
    }
  }

  ghost function Objects(msgs: seq<NetMessage>): set<object> { set m | m in msgs }

  /** A complete message; its buffer is the payload. */
  ghost predicate Holds(msg: NetMessage, m: Message)
    reads msg
  {
    msg.Valid() && msg.Complete() && m == Message(msg.hdr, msg.vRecv)
  }

  ghost predicate Pending(msg: NetMessage)
    reads msg
  {
    msg.Valid() && !msg.Complete() && (msg.inData ==> !TooLong(msg.hdr))
  }
}
