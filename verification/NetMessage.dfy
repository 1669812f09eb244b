/** Cutting the byte stream of a peer into messages. */
module NetMessages {
  import opened Transactions

  const MAX_SIZE: nat := 0x0200_0000
  const HEADER_SIZE: nat := 24

  // ---------------------------------------------------------------- byte by byte

  /** What has arrived of a message. */
  datatype Message = Message(hdr: seq<Byte>, data: seq<Byte>)

  /** The payload size in a header: the 4 bytes from 16 on, least significant first. */
  function SizeOf(hdr: seq<Byte>): nat
    requires |hdr| == HEADER_SIZE
  {
    var b0: int, b1: int, b2: int, b3: int := hdr[16], hdr[17], hdr[18], hdr[19];
    b0 + 0x100 * b1 + 0x1_0000 * b2 + 0x100_0000 * b3
  }

  predicate Complete(m: Message) {
    |m.hdr| == HEADER_SIZE && SizeOf(m.hdr) == |m.data|
  }

  datatype Received = Received(queue: seq<Message>, ok: bool)

  /** The meaning of one more byte. */
  function TakeByte(queue: seq<Message>, b: Byte): Received {
    if queue == [] || Complete(queue[|queue| - 1]) then Received(queue + [Message([b], [])], true)
    else
      var last := queue[|queue| - 1];
      var m := if |last.hdr| < HEADER_SIZE then last.(hdr := last.hdr + [b]) else last.(data := last.data + [b]);
      Received(queue[..|queue| - 1] + [m], !(|last.hdr| == HEADER_SIZE - 1 && SizeOf(m.hdr) > MAX_SIZE))
  }

  /** The meaning of a stream: its bytes one after the other, up to a header that asks for too much. */
  function Feed(queue: seq<Message>, bytes: seq<Byte>): Received
    decreases |bytes|
  {
    if bytes == [] then Received(queue, true)
    else
      var r := TakeByte(queue, bytes[0]);
      if r.ok then Feed(r.queue, bytes[1..]) else r
  }

  /** However a stream is cut into two calls, the outcome is the same. */
  lemma {:induction false} ChunksJoin(queue: seq<Message>, a: seq<Byte>, b: seq<Byte>)
    ensures Feed(queue, a + b) == if Feed(queue, a).ok then Feed(Feed(queue, a).queue, b) else Feed(queue, a)
    decreases |a|
  {
    if a == [] {
      assert a + b == b;
    } else {
      assert (a + b)[0] == a[0] && (a + b)[1..] == a[1..] + b;
      var r := TakeByte(queue, a[0]);
      if r.ok {
        ChunksJoin(r.queue, a[1..], b);
      }
    }
  }

  function Concat(chunks: seq<seq<Byte>>): seq<Byte> {
    if chunks == [] then [] else chunks[0] + Concat(chunks[1..])
  }

  /** Calls with one chunk after the other, until one fails. */
  function FeedAll(queue: seq<Message>, chunks: seq<seq<Byte>>): Received
    decreases |chunks|
  {
    if chunks == [] then Received(queue, true)
    else
      var r := Feed(queue, chunks[0]);
      if r.ok then FeedAll(r.queue, chunks[1..]) else r
  }

  /** Any two ways to cut the same stream give the same messages and the same failure. */
  lemma {:induction false} ChunkingDoesNotMatter(queue: seq<Message>, chunks: seq<seq<Byte>>)
    ensures FeedAll(queue, chunks) == Feed(queue, Concat(chunks))
    decreases |chunks|
  {
    if chunks != [] {
      ChunksJoin(queue, chunks[0], Concat(chunks[1..]));
      var r := Feed(queue, chunks[0]);
      if r.ok {
        ChunkingDoesNotMatter(r.queue, chunks[1..]);
      }
    }
  }

  // ---------------------------------------------------------------- frames

  function Bytes(m: Message): seq<Byte> {
    m.hdr + m.data
  }

  function AllBytes(queue: seq<Message>): seq<Byte> {
    if queue == [] then [] else AllBytes(queue[..|queue| - 1]) + Bytes(queue[|queue| - 1])
  }

  /** What a header starts: all messages before the last one are complete, and the last one is not
      over its size. */
  predicate InOrder(queue: seq<Message>) {
    forall i | 0 <= i < |queue| ::
      && 0 < |queue[i].hdr| <= HEADER_SIZE
      && (|queue[i].hdr| < HEADER_SIZE ==> queue[i].data == [])
      && (|queue[i].hdr| == HEADER_SIZE ==> |queue[i].data| <= SizeOf(queue[i].hdr) <= MAX_SIZE)
      && (i < |queue| - 1 ==> Complete(queue[i]))
  }

  lemma AllBytesAppend(queue: seq<Message>, m: Message)
    ensures AllBytes(queue + [m]) == AllBytes(queue) + Bytes(m)
  {
    assert (queue + [m])[..|queue|] == queue;
  }

  /** The last header asks for more than the limit. */
  predicate TooLarge(queue: seq<Message>) {
    |queue| > 0 && |queue[|queue| - 1].hdr| == HEADER_SIZE && SizeOf(queue[|queue| - 1].hdr) > MAX_SIZE
  }

  /** One byte is one byte more in the queue. */
  lemma ByteKept(queue: seq<Message>, b: Byte)
    requires InOrder(queue)
    ensures AllBytes(TakeByte(queue, b).queue) == AllBytes(queue) + [b]
    ensures if TakeByte(queue, b).ok then InOrder(TakeByte(queue, b).queue) else TooLarge(TakeByte(queue, b).queue)
  {
    hide AllBytes, SizeOf;
    if queue == [] || Complete(queue[|queue| - 1]) {
      AllBytesAppend(queue, Message([b], []));
    } else {
      var init, last := queue[..|queue| - 1], queue[|queue| - 1];
      assert queue == init + [last];
      AllBytesAppend(init, last);
      AllBytesAppend(init, last.(hdr := last.hdr + [b]));
      AllBytesAppend(init, last.(data := last.data + [b]));
      assert |last.hdr| < HEADER_SIZE ==> last.data == [];
    }
  }

  /** No byte is lost, doubled or moved, and a failure means a header over the limit. */
  lemma {:induction false} BytesKept(queue: seq<Message>, bytes: seq<Byte>)
    requires InOrder(queue)
    ensures var r := Feed(queue, bytes);
      if r.ok then AllBytes(r.queue) == AllBytes(queue) + bytes && InOrder(r.queue)
      else AllBytes(r.queue) <= AllBytes(queue) + bytes && TooLarge(r.queue)
    decreases |bytes|
  {
    hide AllBytes, InOrder, TooLarge, TakeByte;
    if bytes != [] {
      ByteKept(queue, bytes[0]);
      var r := TakeByte(queue, bytes[0]);
      assert bytes == [bytes[0]] + bytes[1..];
      assert AllBytes(queue) + bytes == AllBytes(queue) + [bytes[0]] + bytes[1..];
      if r.ok {
        BytesKept(r.queue, bytes[1..]);
      }
    }
  }

  predicate WellFormed(m: Message) {
    Complete(m) && SizeOf(m.hdr) <= MAX_SIZE
  }

  /** While the bytes of one frame arrive, after complete messages. */
  lemma {:induction false} FramePrefix(queue: seq<Message>, m: Message, k: nat)
    requires queue == [] || Complete(queue[|queue| - 1])
    requires WellFormed(m) && 0 < k <= |Bytes(m)|
    ensures Feed(queue, Bytes(m)[..k]) ==
      Received(queue +
        [if k <= HEADER_SIZE then Message(m.hdr[..k], []) else Message(m.hdr, m.data[..k - HEADER_SIZE])], true)
    decreases k
  {
    var bytes := Bytes(m);
    if k == 1 {
      assert bytes[..1] == [m.hdr[0]] && bytes[..1][1..] == [];
      assert m.hdr[..1] == [m.hdr[0]];
    } else {
      FramePrefix(queue, m, k - 1);
      assert bytes[..k] == bytes[..k - 1] + [bytes[k - 1]];
      ChunksJoin(queue, bytes[..k - 1], [bytes[k - 1]]);
      NextByteOfFrame(queue, m, k);
    }
  }

  lemma NextByteOfFrame(queue: seq<Message>, m: Message, k: nat)
    requires WellFormed(m) && 1 < k <= |Bytes(m)|
    ensures var so := if k - 1 <= HEADER_SIZE then Message(m.hdr[..k - 1], [])
      else Message(m.hdr, m.data[..k - 1 - HEADER_SIZE]);
      Feed(queue + [so], [Bytes(m)[k - 1]]) ==
      Received(queue +
        [if k <= HEADER_SIZE then Message(m.hdr[..k], []) else Message(m.hdr, m.data[..k - HEADER_SIZE])], true)
  {
    var so := if k - 1 <= HEADER_SIZE then Message(m.hdr[..k - 1], [])
      else Message(m.hdr, m.data[..k - 1 - HEADER_SIZE]);
    var b := Bytes(m)[k - 1];
    assert (queue + [so])[..|queue|] == queue;
    if k <= HEADER_SIZE {
      assert m.hdr[..k] == m.hdr[..k - 1] + [b];
      if k == HEADER_SIZE {
        assert m.hdr[..k] == m.hdr;
      }
    } else {
      assert k - 1 == HEADER_SIZE ==> so == Message(m.hdr, []) == Message(m.hdr, m.data[..0]);
      assert m.data[..k - HEADER_SIZE] == m.data[..k - 1 - HEADER_SIZE] + [b];
    }
    assert Feed(TakeByte(queue + [so], b).queue, [b][1..]) == Received(TakeByte(queue + [so], b).queue, true);
  }

  lemma NotEmpty(m: Message)
    requires WellFormed(m)
    ensures |Bytes(m)| == HEADER_SIZE + |m.data| && |m.hdr| == HEADER_SIZE && Complete(m)
  {
  }

  /** Frames sent one after the other, empty payloads included, arrive as exactly those messages. */
  lemma {:induction false} FramesParseBack(frames: seq<Message>)
    requires forall i | 0 <= i < |frames| :: WellFormed(frames[i])
    ensures Feed([], AllBytes(frames)) == Received(frames, true)
    decreases |frames|
  {
    hide Feed, WellFormed, Bytes;
    FeedNothing([]);
    if frames != [] {
      NotEmpty(frames[|frames| - 1]);
      var init, m := frames[..|frames| - 1], frames[|frames| - 1];
      FramesParseBack(init);
      if init != [] {
        NotEmpty(init[|init| - 1]);
      }
      ChunksJoin([], AllBytes(init), Bytes(m));
      FramePrefix(init, m, |Bytes(m)|);
      assert Bytes(m)[..|Bytes(m)|] == Bytes(m);
      assert m.hdr[..|m.hdr|] == m.hdr && m.data[..|m.data|] == m.data;
      assert init + [m] == frames;
    }
  }

  // ---------------------------------------------------------------- the sender's side

  /** The four bytes of a 32-bit number, lowest first. */
  function LittleEndian(n: nat): (bytes: seq<Byte>)
    requires n < 0x1_0000_0000
    ensures |bytes| == 4
  {
    [n % 256, n / 256 % 256, n / 256 / 256 % 256, n / 256 / 256 / 256]
  }

  /** The size field of a header is exactly these bytes. */
  lemma SizeIsLittleEndian(hdr: seq<Byte>, n: nat)
    requires |hdr| == 24 && n < 0x1_0000_0000
    ensures SizeOf(hdr) == n <==> hdr[16..20] == LittleEndian(n)
  {
    var b0: int, b1: int, b2: int, b3: int := hdr[16], hdr[17], hdr[18], hdr[19];
    assert hdr[16..20] == [hdr[16], hdr[17], hdr[18], hdr[19]];
    Digits(b0, b1, b2, b3);
    DigitsBack(n);
  }

  lemma Digits(b0: int, b1: int, b2: int, b3: int)
    requires 0 <= b0 < 256 && 0 <= b1 < 256 && 0 <= b2 < 256 && 0 <= b3 < 256
    ensures var n := b0 + 0x100 * b1 + 0x1_0000 * b2 + 0x100_0000 * b3;
      n < 0x1_0000_0000 && LittleEndian(n) == [b0, b1, b2, b3]
  {
    OneDigit(b0, b1 + 0x100 * b2 + 0x1_0000 * b3);
    OneDigit(b1, b2 + 0x100 * b3);
    OneDigit(b2, b3);
  }

  lemma OneDigit(b: int, q: int)
    requires 0 <= b < 256
    ensures (b + 0x100 * q) % 256 == b && (b + 0x100 * q) / 256 == q
  {
  }

  lemma DigitsBack(n: nat)
    requires n < 0x1_0000_0000
    ensures var b := LittleEndian(n);
      var b0: int, b1: int, b2: int, b3: int := b[0], b[1], b[2], b[3];
      n == b0 + 0x100 * b1 + 0x1_0000 * b2 + 0x100_0000 * b3
  {
    var b := LittleEndian(n);
    var b1: int, b2: int := b[1], b[2];
    assert n / 256 == b1 + 256 * (n / 256 / 256);
    assert n / 256 / 256 == b2 + 256 * (n / 256 / 256 / 256);
  }

  /** A message to be sent: network and command, the checksum, and the payload. */
  datatype Outgoing = Outgoing(start: seq<Byte>, checksum: seq<Byte>, data: seq<Byte>) {
    predicate Valid() {
      |start| == 16 && |checksum| == 4 && |data| <= 0x0200_0000
    }

    /** The frame, with the size of the payload in its header. */
    function Frame(): Message
      requires Valid()
    {
      Message(start + LittleEndian(|data|) + checksum, data)
    }
  }

  lemma FrameIsWellFormed(o: Outgoing)
    requires o.Valid()
    ensures WellFormed(o.Frame())
  {
    hide LittleEndian;
    var hdr := o.Frame().hdr;
    assert hdr[16..20] == LittleEndian(|o.data|);
    SizeIsLittleEndian(hdr, |o.data|);
  }

  /** Whatever is sent, of any size up to the limit, arrives. */
  lemma SentArrives(sent: seq<Outgoing>)
    requires forall i | 0 <= i < |sent| :: sent[i].Valid()
    ensures var frames := seq(|sent|, i requires 0 <= i < |sent| => sent[i].Frame());
      Feed([], AllBytes(frames)) == Received(frames, true)
  {
    hide *;
    var frames := seq(|sent|, i requires 0 <= i < |sent| => sent[i].Frame());
    forall i | 0 <= i < |sent|
      ensures WellFormed(frames[i])
    {
      FrameIsWellFormed(sent[i]);
    }
    FramesParseBack(frames);
  }

  /** A header is refused exactly when its size is over the limit. */
  lemma RefusedOverLimit(start: seq<Byte>, n: nat, checksum: seq<Byte>)
    requires |start| == 16 && |checksum| == 4 && n < 0x1_0000_0000
    ensures Feed([], start + LittleEndian(n) + checksum).ok <==> n <= 0x0200_0000
  {
    hide Feed, LittleEndian;
    var hdr := start + LittleEndian(n) + checksum;
    assert hdr[16..20] == LittleEndian(n);
    SizeIsLittleEndian(hdr, n);
    FirstChunk([], hdr);
  }

  // ---------------------------------------------------------------- chunk by chunk

  /** A run of bytes into a header that they do not complete, or complete acceptably, or not. */
  lemma {:induction false} HeaderChunk(queue: seq<Message>, m: Message, chunk: seq<Byte>)
    requires |m.hdr| + |chunk| <= HEADER_SIZE && chunk != [] && (m.hdr != [] || m.data == [])
    requires |m.hdr| < HEADER_SIZE && m.hdr != []
    ensures Feed(queue + [m], chunk) == Received(queue + [m.(hdr := m.hdr + chunk)],
              |m.hdr + chunk| < HEADER_SIZE || SizeOf(m.hdr + chunk) <= MAX_SIZE)
    decreases |chunk|
  {
    var m' := m.(hdr := m.hdr + [chunk[0]]);
    assert (queue + [m])[..|queue|] == queue;
    assert TakeByte(queue + [m], chunk[0]).queue == queue + [m'];
    assert m.hdr + chunk == m'.hdr + chunk[1..];
    if |chunk| > 1 {
      HeaderChunk(queue, m', chunk[1..]);
    } else {
      assert chunk == [chunk[0]] && chunk[1..] == [];
    }
  }

  /** The same for the first bytes of a message. */
  lemma FirstChunk(queue: seq<Message>, chunk: seq<Byte>)
    requires queue == [] || Complete(queue[|queue| - 1])
    requires 0 < |chunk| <= HEADER_SIZE
    ensures Feed(queue, chunk) ==
      Received(queue + [Message(chunk, [])], |chunk| < HEADER_SIZE || SizeOf(chunk) <= MAX_SIZE)
  {
    assert chunk == [chunk[0]] + chunk[1..];
    assert TakeByte(queue, chunk[0]) == Received(queue + [Message([chunk[0]], [])], true);
    if |chunk| > 1 {
      HeaderChunk(queue, Message([chunk[0]], []), chunk[1..]);
    } else {
      assert chunk == [chunk[0]] && chunk[1..] == [];
    }
  }

  lemma {:induction false} DataChunk(queue: seq<Message>, m: Message, chunk: seq<Byte>)
    requires |m.hdr| == HEADER_SIZE && |m.data| + |chunk| <= SizeOf(m.hdr)
    ensures Feed(queue + [m], chunk) == Received(queue + [m.(data := m.data + chunk)], true)
    decreases |chunk|
  {
    if chunk == [] {
      assert m.data + chunk == m.data;
    } else {
      var m' := m.(data := m.data + [chunk[0]]);
      assert (queue + [m])[..|queue|] == queue;
      assert TakeByte(queue + [m], chunk[0]) == Received(queue + [m'], true);
      assert m.data + chunk == m'.data + chunk[1..];
      DataChunk(queue, m', chunk[1..]);
    }
  }

  class NetMessage {
    var in_data: bool
    var hdrbuf: seq<Byte>
    var nMessageSize: nat
    var nHdrPos: nat
    var vRecv: seq<Byte>
    var nDataPos: nat

    predicate Valid()
      reads this
    {
      && |hdrbuf| == HEADER_SIZE && nHdrPos <= HEADER_SIZE
      && (in_data <==> nHdrPos == HEADER_SIZE)
      && (in_data ==> nMessageSize == SizeOf(hdrbuf) == |vRecv| && nDataPos <= nMessageSize)
      && (!in_data ==> nDataPos == 0)
    }

    function Value(): Message
      requires nHdrPos <= |hdrbuf| && nDataPos <= |vRecv|
      reads this
    {
      Message(hdrbuf[..nHdrPos], vRecv[..nDataPos])
    }

    constructor ()
      ensures Valid() && Value() == Message([], [])
    {
      in_data, nHdrPos, nDataPos, nMessageSize, vRecv := false, 0, 0, 0, [];
      hdrbuf := seq(HEADER_SIZE, _ => 0);
    }

    predicate IsComplete()
      requires Valid()
      reads this
      ensures IsComplete() == Complete(Value())
    {
      in_data && nMessageSize == nDataPos
    }

    /** Takes as much of the header as there is; -1 when the header asks for too much. */
    method ReadHeader(pch: seq<Byte>) returns (handled: int, ghost nTaken: nat)
      requires Valid() && !in_data && pch != []
      modifies this
      ensures 0 < nTaken <= |pch| && nHdrPos == old(nHdrPos) + nTaken <= |hdrbuf| == HEADER_SIZE && nDataPos <= |vRecv|
      ensures Value() == old(Value()).(hdr := old(Value()).hdr + pch[..nTaken])
      ensures handled == if |Value().hdr| < HEADER_SIZE || SizeOf(Value().hdr) <= MAX_SIZE then nTaken else -1
      ensures handled >= 0 ==> Valid()
    {
      hide SizeOf;
      var nRemaining := HEADER_SIZE - nHdrPos;
      var nCopy := if nRemaining < |pch| then nRemaining else |pch|;
      nTaken := nCopy;
      hdrbuf := hdrbuf[..nHdrPos] + pch[..nCopy] + hdrbuf[nHdrPos + nCopy..];
      nHdrPos := nHdrPos + nCopy;
      assert hdrbuf[..nHdrPos] == old(hdrbuf)[..old(nHdrPos)] + pch[..nCopy];
      if nHdrPos < HEADER_SIZE {
        return nCopy, nTaken;
      }
      assert hdrbuf[..HEADER_SIZE] == hdrbuf;
      nMessageSize := SizeOf(hdrbuf);
      if nMessageSize > MAX_SIZE {
        return -1, nTaken;
      }
      in_data := true;
      vRecv := seq(nMessageSize, _ => 0);
      return nCopy, nTaken;
    }

    method ReadData(pch: seq<Byte>) returns (handled: int)
      requires Valid() && in_data && !IsComplete() && pch != []
      modifies this
      ensures Valid() && 0 < handled <= |pch| && in_data && hdrbuf == old(hdrbuf)
      ensures Value() == old(Value()).(data := old(Value()).data + pch[..handled])
      ensures |Value().hdr| == HEADER_SIZE && |Value().data| <= SizeOf(Value().hdr)
    {
      hide SizeOf;
      var nRemaining := nMessageSize - nDataPos;
      var nCopy := if nRemaining < |pch| then nRemaining else |pch|;
      vRecv := vRecv[..nDataPos] + pch[..nCopy] + vRecv[nDataPos + nCopy..];
      nDataPos := nDataPos + nCopy;
      assert hdrbuf[..HEADER_SIZE] == hdrbuf;
      assert vRecv[..nDataPos] == old(vRecv)[..old(nDataPos)] + pch[..nCopy];
      return nCopy;
    }
  }

  class Node {
    var vRecvMsg: seq<NetMessage>

    /** All messages are in order, and the last one was started. */
    predicate Valid()
      reads this, vRecvMsg
    {
      && (forall i, j | 0 <= i < j < |vRecvMsg| :: vRecvMsg[i] != vRecvMsg[j])
      && (forall i | 0 <= i < |vRecvMsg| :: vRecvMsg[i].Valid() && vRecvMsg[i].nHdrPos > 0)
    }

    /** The messages' values. */
    ghost predicate Holds(queue: seq<Message>)
      reads this, vRecvMsg
    {
      && |queue| == |vRecvMsg|
      && forall i | 0 <= i < |queue| ::
        vRecvMsg[i].nHdrPos <= |vRecvMsg[i].hdrbuf| && vRecvMsg[i].nDataPos <= |vRecvMsg[i].vRecv| &&
          vRecvMsg[i].Value() == queue[i]
    }

    /** One call has the effect of its bytes one after the other. */
    method ReceiveMsgBytes(pch: seq<Byte>, ghost queue: seq<Message>) returns (ok: bool, ghost now: seq<Message>)
      requires Valid() && Holds(queue)
      modifies this, vRecvMsg
      ensures Received(now, ok) == Feed(queue, pch) && Holds(now)
      ensures ok ==> Valid()
      ensures fresh((set m | m in vRecvMsg) - (set m | m in old(vRecvMsg)))
    {
      hide *;
      var pos := 0;
      now := queue;
      while pos < |pch|
        invariant pos <= |pch| && Valid() && Holds(now)
        invariant Feed(now, pch[pos..]) == Feed(queue, pch)
        invariant fresh((set m | m in vRecvMsg) - (set m | m in old(vRecvMsg)))
        decreases |pch| - pos
      {
        var handled, took, more := Absorb(pch[pos..], now);
        assert pch[pos..] == pch[pos..][..took] + pch[pos..][took..];
        ChunksJoin(now, pch[pos..][..took], pch[pos..][took..]);
        now := more;
        if handled < 0 {
          return false, now;
        }
        assert pch[pos..][took..] == pch[pos + took..];
        pos := pos + handled;
      }
      FeedNothing(now);
      assert pch[pos..] == [];
      ok := true;
    }

    /** One pass of the loop: at least one byte is taken. */
    method Absorb(pch: seq<Byte>, ghost queue: seq<Message>)
      returns (handled: int, ghost took: nat, ghost now: seq<Message>)
      requires Valid() && Holds(queue) && pch != []
      modifies this, vRecvMsg
      ensures 0 < took <= |pch| && (handled == took || handled == -1)
      ensures Feed(queue, pch[..took]) == Received(now, handled >= 0) && Holds(now)
      ensures handled >= 0 ==> Valid()
      ensures fresh((set m | m in vRecvMsg) - (set m | m in old(vRecvMsg)))
    {
      hide Feed, Complete, SizeOf;
      if vRecvMsg == [] || vRecvMsg[|vRecvMsg| - 1].IsComplete() {
        handled, took, now := AbsorbNew(pch, queue);
      } else {
        handled, took, now := AbsorbMore(pch, queue);
      }
    }

    method AbsorbNew(pch: seq<Byte>, ghost queue: seq<Message>)
      returns (handled: int, ghost took: nat, ghost now: seq<Message>)
      requires Valid() && Holds(queue) && pch != []
      requires queue == [] || Complete(queue[|queue| - 1])
      modifies this
      ensures 0 < took <= |pch| && (handled == took || handled == -1)
      ensures Feed(queue, pch[..took]) == Received(now, handled >= 0) && Holds(now)
      ensures handled >= 0 ==> Valid()
      ensures fresh((set m | m in vRecvMsg) - (set m | m in old(vRecvMsg)))
    {
      hide Feed, Complete, SizeOf;
      var msg := new NetMessage();
      assert forall i | 0 <= i < |vRecvMsg| :: vRecvMsg[i] != msg;
      vRecvMsg := vRecvMsg + [msg];
      handled, took := msg.ReadHeader(pch);
      assert [] + pch[..took] == pch[..took];
      FirstChunk(queue, pch[..took]);
      now := queue + [Message(pch[..took], [])];
    }

    method AbsorbMore(pch: seq<Byte>, ghost queue: seq<Message>)
      returns (handled: int, ghost took: nat, ghost now: seq<Message>)
      requires Valid() && Holds(queue) && pch != []
      requires vRecvMsg != [] && !vRecvMsg[|vRecvMsg| - 1].IsComplete()
      modifies vRecvMsg
      ensures 0 < took <= |pch| && (handled == took || handled == -1)
      ensures Feed(queue, pch[..took]) == Received(now, handled >= 0) && Holds(now)
      ensures handled >= 0 ==> Valid()
    {
      hide Feed, Complete, SizeOf;
      var msg := vRecvMsg[|vRecvMsg| - 1];
      ghost var init, last := queue[..|queue| - 1], queue[|queue| - 1];
      assert queue == init + [last];
      if !msg.in_data {
        handled, took := msg.ReadHeader(pch);
        HeaderChunk(init, last, pch[..took]);
        now := init + [last.(hdr := last.hdr + pch[..took])];
      } else {
        handled := msg.ReadData(pch);
        took := handled;
        DataChunk(init, last, pch[..took]);
        now := init + [last.(data := last.data + pch[..took])];
      }
    }
  }

  lemma FeedNothing(queue: seq<Message>)
    ensures Feed(queue, []) == Received(queue, true)
  {
  }
}
