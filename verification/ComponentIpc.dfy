/** The component's end of its session's IPC connection (weft-runtime). */
module ComponentIpc {
  import opened Options
  import opened Streams

  /** The limit on a message, without its line break. */
  const MAX_MESSAGE := 64 * 1024
  /** The most one read returns. */
  const CHUNK := 4096

  // ----- What a stream of lines means -----

  /** A line without the carriage return that may end it. */
  function Text(line: Bytes): Bytes {
    if line != [] && line[|line| - 1] == CR then line[..|line| - 1] else line
  }

  predicate OverLimit(line: Bytes) { |Text(line)| > MAX_MESSAGE }

  /** The messages `lines` carry: the UTF-8 ones before the first over the limit. */
  function Deliver(lines: seq<Bytes>): seq<Bytes> {
    if lines == [] || OverLimit(lines[0]) then []
    else (if Utf8(Text(lines[0])) then [Text(lines[0])] else []) + Deliver(lines[1..])
  }

  /** Whether a line over the limit ends the connection. */
  predicate Cut(lines: seq<Bytes>) { lines != [] && (OverLimit(lines[0]) || Cut(lines[1..])) }

  /** The messages of everything that arrived. */
  function Messages(s: Bytes): seq<Bytes> { Deliver(CompleteLines(s)) }

  lemma {:induction false} DeliverAppend(a: seq<Bytes>, b: seq<Bytes>)
    ensures Cut(a + b) <==> Cut(a) || Cut(b)
    ensures Cut(a) ==> Deliver(a + b) == Deliver(a)
    ensures !Cut(a) ==> Deliver(a + b) == Deliver(a) + Deliver(b)
    decreases |a|
  {
    hide OverLimit, Text, Utf8;
    if a == [] {
      assert a + b == b;
    } else {
      assert (a + b)[0] == a[0] && (a + b)[1..] == a[1..] + b;
      DeliverAppend(a[1..], b);
    }
  }

  /** What arrives later adds messages and takes none back. */
  lemma MessagesGrow(a: Bytes, b: Bytes)
    ensures Messages(a) <= Messages(a + b)
    ensures Cut(CompleteLines(a)) ==> Messages(a + b) == Messages(a)
  {
    LinesAppend(a, b);
    DeliverAppend(CompleteLines(a), CompleteLines(Unfinished(a) + b));
  }

  /** An unfinished line beyond the limit carries nothing, however it ends. */
  lemma OverlongStays(a: Bytes, b: Bytes)
    requires |Unfinished(a)| > MAX_MESSAGE + 2
    ensures Messages(a + b) == Messages(a)
  {
    LinesAppend(a, b);
    var u := Unfinished(a);
    if LF in u + b {
      var n := LineEnd(u + b);
      assert n >= |u| by {
        forall i | 0 <= i < |u| ensures (u + b)[i] != LF { assert (u + b)[i] == u[i]; }
      }
      assert OverLimit(CompleteLines(u + b)[0]);
    }
    assert Deliver(CompleteLines(u + b)) == [];
    DeliverAppend(CompleteLines(a), CompleteLines(u + b));
  }

  // ----- The connection -----

  /** What one read of the socket returns. */
  datatype Read = Data(bytes: Bytes) | WouldBlock | Interrupted | Eof | Failure

  predicate Possible(script: seq<Read>) {
    forall r :: r in script && r.Data? ==> 0 < |r.bytes| <= CHUNK
  }

  predicate Ends(r: Read) { r.Eof? || r.Failure? }

  /** The bytes of `script` that arrive before the connection ends. */
  function Arrived(script: seq<Read>): Bytes {
    if script == [] || Ends(script[0]) then []
    else (if script[0].Data? then script[0].bytes else []) + Arrived(script[1..])
  }

  predicate Ended(script: seq<Read>) { exists r :: r in script && Ends(r) }

  lemma {:induction false} ArrivedAppend(a: seq<Read>, b: seq<Read>)
    ensures Ended(a) ==> Arrived(a + b) == Arrived(a)
    ensures !Ended(a) ==> Arrived(a + b) == Arrived(a) + Arrived(b)
    decreases |a|
  {
    if a == [] {
      assert a + b == b;
    } else {
      assert a == [a[0]] + a[1..];
      assert (a + b)[1..] == a[1..] + b;
      ArrivedAppend(a[1..], b);
    }
  }

  datatype Reason = ClosedByPeer | Failed | OverSizeLimit

  datatype Refusal = TooLong | HasLineBreak | NotConnected(reason: Reason) | WriteFailed

  /** Why a payload cannot be one line, if it cannot. */
  function CheckPayload(payload: Bytes): (refusal: Option<Refusal>)
    ensures refusal.None? <==> |payload| <= MAX_MESSAGE && LF !in payload && CR !in payload
  {
    if |payload| > MAX_MESSAGE then Some(TooLong)
    else if LF in payload || CR in payload then Some(HasLineBreak)
    else None
  }

  /** The buffer holds what follows the drained lines, whose messages were delivered. */
  predicate Flowing(received: Bytes, drained: Bytes, buf: Bytes, delivered: seq<Bytes>) {
    && received == drained + buf
    && Unfinished(drained) == []
    && !Cut(CompleteLines(drained))
    && delivered == Messages(drained)
  }

  /** A line over the limit arrived, and the messages before it were delivered. */
  predicate Stopped(received: Bytes, delivered: seq<Bytes>) {
    && delivered == Messages(received)
    && (Cut(CompleteLines(received)) || |Unfinished(received)| > MAX_MESSAGE + 2)
  }

  /** Draining the first line of the buffer delivers its message, or ends the connection. */
  lemma DrainStep(received: Bytes, drained: Bytes, buf: Bytes, delivered: seq<Bytes>)
    requires Flowing(received, drained, buf, delivered) && LF in buf
    ensures var line, rest := buf[..LineEnd(buf)], buf[LineEnd(buf) + 1..];
      if OverLimit(line) then Stopped(received, delivered)
      else Flowing(received, drained + (line + [LF]), rest,
                   if Utf8(Text(line)) then delivered + [Text(line)] else delivered)
  {
    var line, rest := buf[..LineEnd(buf)], buf[LineEnd(buf) + 1..];
    assert buf == line + [LF] + rest;
    DrainLine(drained, line, rest);
    DrainMessage(drained, line);
    if OverLimit(line) {
      OverLimitEnds(drained, line, rest);
    }
  }

  /** Bytes just read wait in the buffer. */
  lemma ReadStep(received: Bytes, drained: Bytes, buf: Bytes, delivered: seq<Bytes>, bytes: Bytes)
    requires Flowing(received, drained, buf, delivered)
    ensures Flowing(received + bytes, drained, buf + bytes, delivered)
  {
    assert received + bytes == drained + (buf + bytes);
  }

  /** With no line in the buffer, everything delivered is everything received;
      a buffer longer than any line ends the connection. */
  lemma NothingPending(received: Bytes, drained: Bytes, buf: Bytes, delivered: seq<Bytes>)
    requires Flowing(received, drained, buf, delivered)
    ensures delivered <= Messages(received)
    ensures LF !in buf ==> delivered == Messages(received)
    ensures LF !in buf && |buf| > MAX_MESSAGE + 2 ==> Stopped(received, delivered)
  {
    MessagesGrow(drained, buf);
    LinesAppend(drained, buf);
    assert [] + buf == buf;
    DeliverAppend(CompleteLines(drained), CompleteLines(buf));
  }

  class IpcState {
    var recvBuf: Bytes
    var closed: Option<Reason>
    /** What the socket's coming reads return; with none left, nothing has arrived. */
    var socket: seq<Read>

    /** The reads made so far, the bytes they returned, and the part of
        those already drained from the buffer. */
    ghost var past: seq<Read>
    ghost var received: Bytes
    ghost var drained: Bytes
    /** Every message returned. */
    ghost var delivered: seq<Bytes>
    /** Every message sent and the bytes that reached the socket. */
    ghost var sent: seq<Bytes>
    ghost var written: Bytes

    ghost predicate Valid()
      reads this
    {
      && Possible(past + socket)
      && received == Arrived(past)
      && (closed.None? ==> !Ended(past))
      && (closed == Some(ClosedByPeer) ==> Ended(past))
      && |recvBuf| <= MAX_MESSAGE + 2 + CHUNK
      && (closed != Some(OverSizeLimit) ==> Flowing(received, drained, recvBuf, delivered))
      && (closed == Some(OverSizeLimit) ==> recvBuf == [] && Stopped(received, delivered))
      && EncodeLines(sent) <= written
      && (closed.None? ==> EncodeLines(sent) == written)
    }

    /** Between calls the buffer holds at most one read beyond a line, or
        less than the longest line. */
    ghost predicate Settled()
      reads this
    {
      if LF in recvBuf then |recvBuf| <= LineEnd(recvBuf) + 1 + CHUNK else |recvBuf| <= MAX_MESSAGE + 2
    }

    constructor (socket: seq<Read>)
      requires Possible(socket)
      ensures Valid() && Settled() && closed.None?
      ensures this.socket == socket && past == [] && received == [] && delivered == [] && sent == [] && written == []
    {
      recvBuf, closed, this.socket := [], None, socket;
      past, received, drained, delivered, sent, written := [], [], [], [], [], [];
      new;
      assert past + this.socket == socket;
    }

    /** What was returned so far is what arrived so far says, or its beginning. */
    lemma DeliveredSoFar()
      requires Valid()
      ensures delivered <= Messages(received)
      ensures LF !in recvBuf ==> delivered == Messages(received)
    {
      if closed != Some(OverSizeLimit) {
        NothingPending(received, drained, recvBuf, delivered);
      }
    }

    /** Once the connection ended, or everything was read, no message is missing. */
    lemma EverythingReceived()
      requires Valid() && delivered == Messages(received)
      requires closed.Some? && closed != Some(OverSizeLimit) ==> Ended(past)
      requires closed.Some? || socket == []
      ensures delivered == Messages(Arrived(past + socket))
    {
      ArrivedAppend(past, socket);
      if closed == Some(OverSizeLimit) && !Ended(past) {
        var rest := Arrived(socket);
        if Cut(CompleteLines(received)) {
          MessagesGrow(received, rest);
        } else {
          OverlongStays(received, rest);
        }
      } else if closed.None? {
        assert received + [] == received;
      }
    }

    /** Sends one message; `writes` says how much of the line the socket took
        before it failed, if it did. */
    method Send(payload: Bytes, writes: Option<nat>) returns (refusal: Option<Refusal>)
      requires Valid()
      modifies this`closed, this`sent, this`written
      ensures Valid()
      ensures CheckPayload(payload).Some? ==> refusal == CheckPayload(payload)
      ensures CheckPayload(payload).None? && old(closed).Some? ==> refusal == Some(NotConnected(old(closed).value))
      ensures CheckPayload(payload).None? && old(closed).None? ==>
                (refusal.None? <==> writes.None?) && (writes.Some? ==> refusal == Some(WriteFailed) && closed == Some(Failed))
      ensures refusal.None? ==> closed == old(closed) && sent == old(sent) + [payload] && written == old(written) + payload + [LF]
      ensures refusal.Some? ==> sent == old(sent) && (closed == old(closed) ==> written == old(written))
    {
      refusal := CheckPayload(payload);
      if refusal.Some? { return; }
      if closed.Some? { return Some(NotConnected(closed.value)); }
      var line := payload + [LF];
      match writes {
        case None =>
          EncodeAppend(sent, [payload]);
          EncodeCons(payload, []);
          assert [payload] + [] == [payload];
          assert EncodeLines(sent + [payload]) == written + line;
          sent, written := sent + [payload], written + line;
        case Some(n) =>
          // `written` may now end inside a line, which nothing may follow.
          written := written + (if n <= |line| then line[..n] else line);
          closed := Some(Failed);
          refusal := Some(WriteFailed);
      }
    }

    /** Ends the connection: the line in the buffer is over the limit. */
    method Overlong()
      requires received == Arrived(past) && Possible(past + socket)
      requires Stopped(received, delivered)
      requires EncodeLines(sent) <= written
      modifies this`recvBuf, this`closed
      ensures Valid() && closed == Some(OverSizeLimit)
    {
      closed := Some(OverSizeLimit);
      recvBuf := [];
    }

    /** Drains buffered lines up to the first message, if they hold one, or to
        a line over the limit. */
    method TakeLine() returns (message: Option<Bytes>)
      requires Valid() && Settled()
      modifies this`recvBuf, this`closed, this`drained, this`delivered
      ensures Valid() && Settled()
      ensures closed == old(closed) || closed == Some(OverSizeLimit)
      ensures |recvBuf| <= old(|recvBuf|) && (message.Some? ==> |recvBuf| < old(|recvBuf|))
      ensures message.Some? ==> delivered == old(delivered) + [message.value]
      ensures message.None? ==> delivered == old(delivered) && LF !in recvBuf
      ensures old(LF !in recvBuf) ==> message.None? && closed == old(closed)
    {
      hide Flowing, Stopped, Possible, Ended, Arrived, EncodeLines, CompleteLines, Utf8;
      while LF in recvBuf
        invariant Valid() && Settled() && closed == old(closed) && delivered == old(delivered)
        invariant |recvBuf| <= old(|recvBuf|) && (recvBuf == old(recvBuf) || LF in old(recvBuf))
        decreases |recvBuf|
      {
        var pos := LineEnd(recvBuf);
        var line := recvBuf[..pos];
        DrainStep(received, drained, recvBuf, delivered);
        drained := drained + (line + [LF]);
        recvBuf := recvBuf[pos + 1..];
        var text := Text(line);
        if |text| > MAX_MESSAGE {
          Overlong();
          return None;
        }
        if Utf8(text) {
          delivered := delivered + [text];
          return Some(text);
        }
      }
      return None;
    }

    /** Reads the socket once, and tells whether to read it again: no whole
        line has arrived and more may be waiting. */
    method ReadOnce() returns (again: bool)
      requires Valid() && Settled() && closed.None? && LF !in recvBuf
      modifies this`recvBuf, this`closed, this`socket, this`past, this`received
      ensures Valid() && Settled()
      ensures past + socket == old(past + socket) && old(past) <= past
      ensures again ==> closed.None? && LF !in recvBuf && |socket| < old(|socket|)
      ensures closed.Some? && closed != Some(OverSizeLimit) ==> Ended(past)
      ensures !again ==> |past| > old(|past|) || socket == []
      ensures past == old(past) ==> LF !in recvBuf
    {
      hide Flowing, Stopped, Possible, Ended, Arrived, EncodeLines, CompleteLines, Utf8, Deliver;
      if socket == [] { return false; }
      var read := socket[0];
      assert past + socket == (past + [read]) + socket[1..];
      ArrivedAppend(past, [read]);
      ReadOne(past, read);
      PossibleData(past + socket, |past|);
      socket, past := socket[1..], past + [read];
      match read {
        case Eof =>
          closed := Some(ClosedByPeer);
          return false;
        case Data(bytes) =>
          ReadStep(received, drained, recvBuf, delivered, bytes);
          FirstBreak(recvBuf, bytes);
          received := received + bytes;
          recvBuf := recvBuf + bytes;
          if LF in recvBuf { return false; }
          if |recvBuf| > MAX_MESSAGE + 2 {
            NothingPending(received, drained, recvBuf, delivered);
            Overlong();
            return false;
          }
          return true;
        case WouldBlock => return false;
        case Interrupted => return true;
        case Failure =>
          closed := Some(Failed);
          return false;
      }
    }

    /** Returns what `Messages` says comes next, once its line is here. */
    method Recv() returns (message: Option<Bytes>)
      requires Valid() && Settled()
      modifies this`recvBuf, this`closed, this`socket, this`past, this`received, this`drained, this`delivered
      ensures Valid() && Settled()
      // Each read is made once, in order, and none after the connection ended.
      ensures past + socket == old(past + socket) && old(past) <= past
      ensures old(closed).Some? ==> past == old(past) && (closed == old(closed) || closed == Some(OverSizeLimit))
      ensures message.Some? ==> delivered == old(delivered) + [message.value]
      // Without a message, every one that arrived was returned before.
      ensures message.None? ==> delivered == old(delivered) && delivered == Messages(received)
      ensures message.None? ==> closed.Some? || |past| > old(|past|) || socket == []
      ensures message.Some? && past == old(past) ==> |recvBuf| < old(|recvBuf|)
      ensures closed.Some? && old(closed).None? && closed != Some(OverSizeLimit) ==> Ended(past)
    {
      hide Flowing, Stopped, Ended, Arrived, EncodeLines, CompleteLines, Utf8, Deliver;
      message := TakeLine();
      if message.Some? || closed.Some? {
        DeliveredSoFar();
        return;
      }
      var reading := true;
      while reading
        invariant Valid() && Settled()
        invariant past + socket == old(past + socket) && old(past) <= past
        invariant delivered == old(delivered)
        invariant reading ==> closed.None? && LF !in recvBuf
        invariant closed.Some? && closed != Some(OverSizeLimit) ==> Ended(past)
        invariant !reading ==> closed.Some? || |past| > old(|past|) || socket == []
        invariant past == old(past) ==> LF !in recvBuf
        decreases reading, |socket|
      {
        reading := ReadOnce();
      }
      message := TakeLine();
      DeliveredSoFar();
    }
  }

  lemma PossibleData(script: seq<Read>, i: nat)
    requires Possible(script) && i < |script|
    ensures script[i].Data? ==> 0 < |script[i].bytes| <= CHUNK
  {
  }

  lemma ReadOne(past: seq<Read>, read: Read)
    ensures Arrived([read]) == if read.Data? then read.bytes else []
    ensures Ended(past + [read]) <==> Ended(past) || Ends(read)
  {
    assert [read][1..] == [];
    assert read in past + [read];
  }

  lemma FirstBreak(buf: Bytes, bytes: Bytes)
    requires LF !in buf
    ensures LF in buf + bytes ==> LineEnd(buf + bytes) >= |buf|
  {
    forall i | 0 <= i < |buf| ensures (buf + bytes)[i] != LF { assert (buf + bytes)[i] == buf[i]; }
  }

  lemma DrainLine(drained: Bytes, line: Bytes, rest: Bytes)
    requires LF !in line && Unfinished(drained) == []
    ensures CompleteLines(drained + (line + [LF])) == CompleteLines(drained) + [line]
    ensures Unfinished(drained + (line + [LF])) == []
    ensures drained + (line + [LF] + rest) == drained + (line + [LF]) + rest
  {
    hide CompleteLines, Unfinished;
    var ended := line + [LF];
    EndedLine(line);
    LinesAppend(drained, ended);
    assert [] + ended == ended;
    assert drained + (ended + rest) == drained + ended + rest;
  }

  lemma EndedLine(line: Bytes)
    requires LF !in line
    ensures CompleteLines(line + [LF]) == [line] && Unfinished(line + [LF]) == []
  {
    LinesCons(line, []);
    assert line + [LF] + [] == line + [LF];
  }

  lemma DrainMessage(drained: Bytes, line: Bytes)
    requires LF !in line && Unfinished(drained) == [] && !Cut(CompleteLines(drained))
    ensures Cut(CompleteLines(drained + (line + [LF]))) <==> OverLimit(line)
    ensures Messages(drained + (line + [LF])) == Messages(drained)
              + (if !OverLimit(line) && Utf8(Text(line)) then [Text(line)] else [])
  {
    DrainLine(drained, line, []);
    var lines := CompleteLines(drained);
    DeliverAppend(lines, [line]);
    DeliverOne(line);
  }

  lemma DeliverOne(line: Bytes)
    ensures Cut([line]) <==> OverLimit(line)
    ensures Deliver([line]) == if !OverLimit(line) && Utf8(Text(line)) then [Text(line)] else []
  {
    assert [line][1..] == [];
  }

  lemma OverLimitEnds(drained: Bytes, line: Bytes, rest: Bytes)
    requires LF !in line && Unfinished(drained) == [] && OverLimit(line) && !Cut(CompleteLines(drained))
    ensures Messages(drained + (line + [LF]) + rest) == Messages(drained)
    ensures Cut(CompleteLines(drained + (line + [LF]) + rest))
  {
    DrainMessage(drained, line);
    var a := drained + (line + [LF]);
    MessagesGrow(a, rest);
    LinesAppend(a, rest);
    DeliverAppend(CompleteLines(a), CompleteLines(Unfinished(a) + rest));
  }

  /** Successive calls return exactly the messages of everything that arrives
      before the connection ends, however the bytes are cut into reads. */
  method ReceiveAll(socket: seq<Read>) returns (messages: seq<Bytes>)
    requires Possible(socket)
    ensures messages == Messages(Arrived(socket))
  {
    var ipc := new IpcState(socket);
    messages := [];
    while true
      invariant fresh(ipc) && ipc.Valid() && ipc.Settled()
      invariant messages == ipc.delivered && ipc.past + ipc.socket == socket
      invariant ipc.closed.Some? && ipc.closed != Some(OverSizeLimit) ==> Ended(ipc.past)
      decreases |ipc.socket|, |ipc.recvBuf|
    {
      var message := ipc.Recv();
      if message.Some? {
        messages := messages + [message.value];
      } else if ipc.closed.Some? || ipc.socket == [] {
        break;
      }
    }
    ipc.EverythingReceived();
  }
}
