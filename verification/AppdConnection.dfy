/** The connection from weft-appd as the compositor serves it: frames, the
    descriptors that travel with them, and the clients they attach. */
module AppdConnection {
  import opened Options
  import opened Streams
  import opened Frames
  import Names

  type Fd = nat
  type SessionId = nat
  type Client = nat

  datatype ToCompositor =
    | AttachClient(session: SessionId, appId: string)
    | AppSurfaceDestroyed(session: SessionId)
    | AppFocusRequest(session: SessionId)
    | AppCloseRequest(session: SessionId)

  /** How many unclaimed descriptors a connection may hold. */
  const MAX_PENDING_FDS := 16
  /** The descriptors one `recvmsg` has room for; it drops the others. */
  const CONTROL_FDS := 4

  function FdsTaken(chunk: seq<Cell>): seq<Fd> {
    var fds := FdsOf(chunk);
    if |fds| <= CONTROL_FDS then fds else fds[..CONTROL_FDS]
  }

  // ----- The wire -----

  /** A byte on the socket and the descriptor sent with it, if any. */
  datatype Cell = Cell(byte: Byte, fd: Option<Fd>)

  function BytesOf(cells: seq<Cell>): (bytes: Bytes)
    ensures |bytes| == |cells|
  {
    if cells == [] then [] else [cells[0].byte] + BytesOf(cells[1..])
  }

  function FdsOf(cells: seq<Cell>): seq<Fd> {
    if cells == [] then []
    else (if cells[0].fd.Some? then [cells[0].fd.value] else []) + FdsOf(cells[1..])
  }

  lemma {:induction false} BytesAppend(a: seq<Cell>, b: seq<Cell>)
    ensures BytesOf(a + b) == BytesOf(a) + BytesOf(b)
    decreases |a|
  {
    if a == [] {
      assert a + b == b;
    } else {
      assert (a + b)[0] == a[0] && (a + b)[1..] == a[1..] + b;
      BytesAppend(a[1..], b);
    }
  }

  lemma {:induction false} FdsAppend(a: seq<Cell>, b: seq<Cell>)
    ensures FdsOf(a + b) == FdsOf(a) + FdsOf(b)
    decreases |a|
  {
    if a == [] {
      assert a + b == b;
    } else {
      var first := if a[0].fd.Some? then [a[0].fd.value] else [];
      assert (a + b)[0] == a[0] && (a + b)[1..] == a[1..] + b;
      FdsAppend(a[1..], b);
      assert first + (FdsOf(a[1..]) + FdsOf(b)) == first + FdsOf(a[1..]) + FdsOf(b);
    }
  }

  lemma CellsAppend(a: seq<Cell>, b: seq<Cell>)
    ensures BytesOf(a + b) == BytesOf(a) + BytesOf(b)
    ensures FdsOf(a + b) == FdsOf(a) + FdsOf(b)
  {
    BytesAppend(a, b);
    FdsAppend(a, b);
  }

  datatype Outbound = Outbound(msg: ToCompositor, fd: Option<Fd>)

  /** What weft-appd sends: exactly each `AttachClient` carries a descriptor. */
  predicate Honest(c: Codec<ToCompositor>, o: Outbound) {
    Encodable(c, o.msg) && (o.fd.Some? <==> o.msg.AttachClient?)
  }

  predicate AllHonest(c: Codec<ToCompositor>, outs: seq<Outbound>) {
    forall o :: o in outs ==> Honest(c, o)
  }

  /** A frame as sent, with the descriptor on its first byte. */
  function SendFrame(c: Codec<ToCompositor>, o: Outbound): (cells: seq<Cell>)
    requires Encodable(c, o.msg)
    ensures |cells| == |FrameEncode(c, o.msg)| >= 4
  {
    var frame := FrameEncode(c, o.msg);
    [Cell(frame[0], o.fd)] + Plain(frame[1..])
  }

  function Plain(bytes: Bytes): (cells: seq<Cell>)
    ensures |cells| == |bytes|
  {
    if bytes == [] then [] else [Cell(bytes[0], None)] + Plain(bytes[1..])
  }

  lemma {:induction false} PlainCells(bytes: Bytes)
    ensures BytesOf(Plain(bytes)) == bytes && FdsOf(Plain(bytes)) == []
  {
    if bytes != [] {
      PlainCells(bytes[1..]);
      assert Plain(bytes)[1..] == Plain(bytes[1..]);
    }
  }

  lemma {:induction false} PlainPrefix(bytes: Bytes, n: nat)
    requires n <= |bytes|
    ensures Plain(bytes)[..n] == Plain(bytes[..n])
    decreases n
  {
    if n > 0 {
      PlainPrefix(bytes[1..], n - 1);
      assert bytes[..n][1..] == bytes[1..][..n - 1];
    }
  }

  /** A piece of a frame carries its descriptor as soon as it is not empty. */
  lemma FramePiece(c: Codec<ToCompositor>, o: Outbound, n: nat)
    requires Encodable(c, o.msg) && n <= |SendFrame(c, o)|
    ensures BytesOf(SendFrame(c, o)[..n]) == FrameEncode(c, o.msg)[..n]
    ensures FdsOf(SendFrame(c, o)[..n]) == if n > 0 && o.fd.Some? then [o.fd.value] else []
  {
    if n > 0 {
      var frame := FrameEncode(c, o.msg);
      var tail := frame[1..];
      PlainPrefix(tail, n - 1);
      PlainCells(tail[..n - 1]);
      var piece := SendFrame(c, o)[..n];
      assert piece == [Cell(frame[0], o.fd)] + Plain(tail)[..n - 1];
      assert piece[1..] == Plain(tail[..n - 1]);
      assert frame[..n] == [frame[0]] + tail[..n - 1];
    }
  }

  function Wire(c: Codec<ToCompositor>, outs: seq<Outbound>): seq<Cell>
    requires AllHonest(c, outs)
  {
    if outs == [] then []
    else
      assert outs[0] in outs;
      SendFrame(c, outs[0]) + Wire(c, outs[1..])
  }

  function Sent(outs: seq<Outbound>): (messages: seq<ToCompositor>)
    ensures |messages| == |outs|
    ensures forall i :: 0 <= i < |outs| ==> messages[i] == outs[i].msg
  {
    seq(|outs|, i requires 0 <= i < |outs| => outs[i].msg)
  }

  /** The descriptors that go with the first messages, in order. */
  function Descriptors(outs: seq<Outbound>): seq<Fd> {
    if outs == [] then []
    else (if outs[0].fd.Some? then [outs[0].fd.value] else []) + Descriptors(outs[1..])
  }

  function Attachments(messages: seq<ToCompositor>): nat {
    if messages == [] then 0
    else (if messages[0].AttachClient? then 1 else 0) + Attachments(messages[1..])
  }

  lemma {:induction false} AttachmentsAppend(a: seq<ToCompositor>, b: seq<ToCompositor>)
    ensures Attachments(a + b) == Attachments(a) + Attachments(b)
    decreases |a|
  {
    if a == [] {
      assert a + b == b;
    } else {
      assert (a + b)[0] == a[0] && (a + b)[1..] == a[1..] + b;
      AttachmentsAppend(a[1..], b);
    }
  }

  /** The whole frames in what arrived decode to the messages sent, its
      descriptors are those of these messages, and at most the next message's
      descriptor is ahead of its frame. */
  predicate Agrees(c: Codec<ToCompositor>, outs: seq<Outbound>, arrived: seq<Cell>) {
    var d := Decode(c, BytesOf(arrived));
    var k := |d.messages|;
    && !d.broken && k <= |outs| && d.messages == Sent(outs)[..k]
    && Attachments(d.messages) == |Descriptors(outs[..k])|
    && Descriptors(outs[..k]) <= FdsOf(arrived) && |FdsOf(arrived)| <= |Descriptors(outs[..k])| + 1
  }

  lemma AgreesPiece(c: Codec<ToCompositor>, outs: seq<Outbound>, n: nat)
    requires Faithful(c) && outs != [] && Honest(c, outs[0]) && n < |SendFrame(c, outs[0])|
    ensures Agrees(c, outs, SendFrame(c, outs[0])[..n])
  {
    FramePiece(c, outs[0], n);
    DecodePiece(c, outs[0].msg, n);
    assert Sent(outs)[..0] == [] && outs[..0] == [];
  }

  lemma AgreesFrame(c: Codec<ToCompositor>, outs: seq<Outbound>, v: seq<Cell>)
    requires Faithful(c) && outs != [] && Honest(c, outs[0]) && Agrees(c, outs[1..], v)
    ensures Agrees(c, outs, SendFrame(c, outs[0]) + v)
    ensures |Decode(c, BytesOf(SendFrame(c, outs[0]) + v)).messages| == |Decode(c, BytesOf(v)).messages| + 1
  {
    hide Decode, FrameEncode, SendFrame, BytesOf, FdsOf, Descriptors, Attachments, Wire;
    var o, rest := outs[0], outs[1..];
    var frame, bytes := SendFrame(c, o), FrameEncode(c, o.msg);
    CellsAppend(frame, v);
    FramePiece(c, o, |frame|);
    assert frame[..|frame|] == frame && bytes[..|frame|] == bytes;
    DecodeFrame(c, o.msg, BytesOf(v));
    var messages := Decode(c, BytesOf(v)).messages;
    FirstSent(outs, |messages|, messages);
    var own := if o.fd.Some? then [o.fd.value] else [];
    PrefixKept(own, Descriptors(rest[..|messages|]), FdsOf(v));
  }

  lemma FirstSent(outs: seq<Outbound>, k: nat, messages: seq<ToCompositor>)
    requires outs != [] && k < |outs| && (outs[0].fd.Some? <==> outs[0].msg.AttachClient?)
    requires messages == Sent(outs[1..])[..k]
    ensures [outs[0].msg] + messages == Sent(outs)[..k + 1]
    ensures Attachments([outs[0].msg] + messages) == (if outs[0].fd.Some? then 1 else 0) + Attachments(messages)
    ensures Descriptors(outs[..k + 1]) ==
              (if outs[0].fd.Some? then [outs[0].fd.value] else []) + Descriptors(outs[1..][..k])
  {
    assert outs[..k + 1][0] == outs[0] && outs[..k + 1][1..] == outs[1..][..k];
    assert ([outs[0].msg] + messages)[1..] == messages;
  }

  lemma PrefixKept(own: seq<Fd>, part: seq<Fd>, whole: seq<Fd>)
    requires part <= whole
    ensures own + part <= own + whole
  {
  }

  /** However much of the wire has arrived, it agrees with what was sent. */
  lemma {:induction false} HonestPrefix(c: Codec<ToCompositor>, outs: seq<Outbound>, n: nat)
    requires Faithful(c) && AllHonest(c, outs)
    requires n <= |Wire(c, outs)|
    ensures Agrees(c, outs, Wire(c, outs)[..n])
    ensures n == |Wire(c, outs)| ==> |Decode(c, BytesOf(Wire(c, outs)[..n])).messages| == |outs|
    decreases |outs|
  {
    hide Agrees, Decode, BytesOf, FrameEncode, SendFrame;
    var w := Wire(c, outs)[..n];
    if outs == [] {
      AgreesNothing(c);
      assert w == [];
    } else {
      assert outs[0] in outs && Honest(c, outs[0]);
      var frame, rest := SendFrame(c, outs[0]), outs[1..];
      assert Wire(c, outs) == frame + Wire(c, rest);
      if n < |frame| {
        assert w == frame[..n];
        AgreesPiece(c, outs, n);
      } else {
        HonestPrefix(c, rest, n - |frame|);
        assert w == frame + Wire(c, rest)[..n - |frame|];
        AgreesFrame(c, outs, Wire(c, rest)[..n - |frame|]);
      }
    }
  }

  lemma AgreesNothing(c: Codec<ToCompositor>)
    ensures Agrees(c, [], []) && |Decode(c, BytesOf([])).messages| == 0
  {
    var none: seq<Outbound> := [];
    assert Sent(none)[..0] == [] && none[..0] == [];
  }

  // ----- The connection -----

  function Flatten(chunks: seq<seq<Cell>>): seq<Cell> {
    if chunks == [] then [] else chunks[0] + Flatten(chunks[1..])
  }

  function Somes(fds: seq<Option<Fd>>): seq<Fd> {
    if fds == [] then [] else (if fds[0].Some? then [fds[0].value] else []) + Somes(fds[1..])
  }

  lemma {:induction false} SomesSnoc(fds: seq<Option<Fd>>, fd: Option<Fd>)
    ensures Somes(fds + [fd]) == Somes(fds) + (if fd.Some? then [fd.value] else [])
    decreases |fds|
  {
    if fds == [] {
      assert fds + [fd] == [fd];
    } else {
      assert (fds + [fd])[0] == fds[0] && (fds + [fd])[1..] == fds[1..] + [fd];
      SomesSnoc(fds[1..], fd);
    }
  }

  lemma Assoc<T>(a: seq<T>, b: seq<T>, c: seq<T>)
    ensures a + b + c == a + (b + c)
  {
  }

  lemma FlattenNone(chunks: seq<seq<Cell>>)
    ensures Flatten(chunks[..0]) == [] && BytesOf([]) == [] && FdsOf([]) == []
  {
  }

  lemma {:induction false} FlattenSnoc(chunks: seq<seq<Cell>>, i: nat)
    requires i < |chunks|
    ensures Flatten(chunks[..i + 1]) == Flatten(chunks[..i]) + chunks[i]
    decreases i
  {
    if i == 0 {
      assert chunks[..1] == [chunks[0]] && Flatten([chunks[0]]) == chunks[0] + Flatten([]);
    } else {
      FlattenSnoc(chunks[1..], i - 1);
      assert chunks[..i + 1][1..] == chunks[1..][..i] && chunks[..i][1..] == chunks[1..][..i - 1];
      assert chunks[..i + 1][0] == chunks[0] && chunks[..i][0] == chunks[0];
    }
  }

  function Wrapped(fds: seq<Fd>): (some: seq<Option<Fd>>)
    ensures |some| == |fds|
    ensures forall i :: 0 <= i < |fds| ==> some[i] == Some(fds[i])
  {
    seq(|fds|, i requires 0 <= i < |fds| => Some(fds[i]))
  }

  lemma {:induction false} SomesWrapped(fds: seq<Fd>)
    ensures Somes(Wrapped(fds)) == fds
  {
    if fds != [] {
      SomesWrapped(fds[1..]);
      assert Wrapped(fds)[1..] == Wrapped(fds[1..]);
    }
  }

  lemma HandleOne(messages: seq<ToCompositor>, i: nat)
    requires i < |messages|
    ensures Attachments(messages[..i + 1]) == Attachments(messages[..i]) + (if messages[i].AttachClient? then 1 else 0)
    ensures messages[i].AttachClient? ==> Attachments(messages[..i]) < Attachments(messages)
  {
    var m: seq<ToCompositor> := [messages[i]];
    assert messages[..i + 1] == messages[..i] + m;
    AttachmentsAppend(messages[..i], m);
    assert Attachments(m) == if messages[i].AttachClient? then 1 else 0;
    assert messages == messages[..i + 1] + messages[i + 1..];
    AttachmentsAppend(messages[..i + 1], messages[i + 1..]);
  }

  /** The descriptor in front of the queue is the next message's. */
  lemma NextDescriptor(popped: seq<Option<Fd>>, fds: seq<Fd>, arrived: seq<Fd>, all: seq<Fd>)
    requires |popped| < |all| && all <= arrived && arrived == Somes(popped) + fds
    requires popped == Wrapped(all[..|popped|])
    ensures fds != [] && popped + [Some(fds[0])] == Wrapped(all[..|popped| + 1])
  {
    var n := |popped|;
    SomesWrapped(all[..n]);
    assert |Somes(popped)| == n;
    hide Somes;
    assert arrived[n] == all[n] && arrived[n] == fds[0];
    assert all[..n + 1] == all[..n] + [all[n]];
    WrappedSnoc(all[..n], all[n]);
  }

  lemma {:induction false} WrappedSnoc(fds: seq<Fd>, fd: Fd)
    ensures Wrapped(fds + [fd]) == Wrapped(fds) + [Some(fd)]
  {
    var longer := Wrapped(fds + [fd]);
    assert |longer| == |fds| + 1;
    forall i | 0 <= i < |longer| ensures longer[i] == (Wrapped(fds) + [Some(fd)])[i] {}
  }

  // ----- Which sessions have a client -----

  /** The clients for the first `n` messages of a wakeup. */
  function ClientsFor(inserted: seq<Option<Client>>, n: nat): seq<Option<Client>> {
    seq(n, i => if 0 <= i < |inserted| then inserted[i] else None)
  }

  function GivenAt(given: seq<Option<Client>>, j: nat): Option<Client> { if j < |given| then given[j] else None }

  /** Message `j` attached a client to session `s`, and no later one destroyed
      it. `given` are the clients the display had for the messages. */
  predicate StillAttached(messages: seq<ToCompositor>, given: seq<Option<Client>>, s: SessionId, j: nat) {
    && j < |messages| <= |given|
    && messages[j].AttachClient? && messages[j].session == s && Names.IsValidAppId(messages[j].appId)
    && given[j].Some?
    && forall k :: j < k < |messages| ==> messages[k] != AppSurfaceDestroyed(s)
  }

  /** A session has the client of the first attachment since it was last
      destroyed, and none without an attachment. */
  ghost predicate BoundTo(messages: seq<ToCompositor>, given: seq<Option<Client>>, s: SessionId, bound: Option<Client>) {
    match bound
    case None => forall j: nat :: !StillAttached(messages, given, s, j)
    case Some(client) =>
      exists j: nat :: StillAttached(messages, given, s, j) && GivenAt(given, j) == bound
                       && forall k: nat :: StillAttached(messages, given, s, k) ==> j <= k
  }

  function ClientOf(sessions: map<SessionId, Client>, s: SessionId): Option<Client> {
    if s in sessions then Some(sessions[s]) else None
  }

  ghost predicate SessionsAre(sessions: map<SessionId, Client>, messages: seq<ToCompositor>, given: seq<Option<Client>>) {
    |given| == |messages| && forall s :: BoundTo(messages, given, s, ClientOf(sessions, s))
  }

  /** What a message does to the clients of sessions. */
  function SessionsAfter(sessions: map<SessionId, Client>, msg: ToCompositor, client: Option<Client>): map<SessionId, Client> {
    match msg
    case AttachClient(s, appId) =>
      if Names.IsValidAppId(appId) && s !in sessions && client.Some? then sessions[s := client.value] else sessions
    case AppSurfaceDestroyed(s) => sessions - {s}
    case _ => sessions
  }

  lemma AttachedAfter(messages: seq<ToCompositor>, given: seq<Option<Client>>, msg: ToCompositor, client: Option<Client>,
                      s: SessionId, j: nat)
    requires |given| == |messages|
    ensures StillAttached(messages + [msg], given + [client], s, j) <==>
              if j == |messages|
              then msg.AttachClient? && msg.session == s && Names.IsValidAppId(msg.appId) && client.Some?
              else StillAttached(messages, given, s, j) && msg != AppSurfaceDestroyed(s)
  {
    var more := messages + [msg];
    if j < |messages| {
      assert more[|messages|] == msg;
      assert forall k :: 0 <= k < |messages| ==> more[k] == messages[k];
    }
  }

  lemma BoundAfter(sessions: map<SessionId, Client>, messages: seq<ToCompositor>, given: seq<Option<Client>>,
                   msg: ToCompositor, client: Option<Client>, s: SessionId)
    requires |given| == |messages| && BoundTo(messages, given, s, ClientOf(sessions, s))
    ensures BoundTo(messages + [msg], given + [client], s, ClientOf(SessionsAfter(sessions, msg, client), s))
  {
    hide StillAttached, Names.IsValidAppId;
    var n, was, now := |messages|, ClientOf(sessions, s), ClientOf(SessionsAfter(sessions, msg, client), s);
    forall j: nat
      ensures StillAttached(messages + [msg], given + [client], s, j) <==>
                if j == n
                then msg.AttachClient? && msg.session == s && Names.IsValidAppId(msg.appId) && client.Some?
                else StillAttached(messages, given, s, j) && msg != AppSurfaceDestroyed(s)
    {
      AttachedAfter(messages, given, msg, client, s, j);
    }
    if now.Some? {
      var j: nat;
      if was.Some? {
        j :| StillAttached(messages, given, s, j) && GivenAt(given, j) == was
             && forall k: nat :: StillAttached(messages, given, s, k) ==> j <= k;
        AttachedIn(messages, given, s, j);
      } else {
        j := n;
        forall k: nat | StillAttached(messages + [msg], given + [client], s, k) ensures n <= k {}
      }
      forall k: nat | StillAttached(messages + [msg], given + [client], s, k) ensures j <= k {}
      assert StillAttached(messages + [msg], given + [client], s, j) && GivenAt(given + [client], j) == now;
    } else {
      forall j: nat ensures !StillAttached(messages + [msg], given + [client], s, j) {}
    }
  }

  lemma AttachedIn(messages: seq<ToCompositor>, given: seq<Option<Client>>, s: SessionId, j: nat)
    requires StillAttached(messages, given, s, j)
    ensures j < |messages| <= |given|
  {
  }

  lemma SessionsStep(sessions: map<SessionId, Client>, messages: seq<ToCompositor>, given: seq<Option<Client>>,
                     msg: ToCompositor, client: Option<Client>)
    requires SessionsAre(sessions, messages, given)
    ensures SessionsAre(SessionsAfter(sessions, msg, client), messages + [msg], given + [client])
  {
    hide BoundTo, SessionsAfter;
    forall s ensures BoundTo(messages + [msg], given + [client], s, ClientOf(SessionsAfter(sessions, msg, client), s)) {
      BoundAfter(sessions, messages, given, msg, client, s);
    }
  }

  lemma OtherMessages(sessions: map<SessionId, Client>, msg: ToCompositor, client: Option<Client>)
    ensures msg.AppSurfaceDestroyed? ==> SessionsAfter(sessions, msg, client) == sessions - {msg.session}
    ensures msg.AppFocusRequest? || msg.AppCloseRequest? ==> SessionsAfter(sessions, msg, client) == sessions
  {
  }

  lemma NoSessions()
    ensures SessionsAre(map[], [], [])
  {
  }

  class WeftAppdIpc {
    const codec: Codec<ToCompositor>
    var readBuf: Bytes
    /** Descriptors received with messages, in arrival order. */
    var fds: seq<Fd>
    /** The Wayland client of each session. */
    var sessions: map<SessionId, Client>

    ghost var received: seq<Cell>
    ghost var decoded: seq<ToCompositor>
    ghost var handled: nat
    /** What each handled `AttachClient` popped. */
    ghost var popped: seq<Option<Fd>>
    /** The client the display had for each handled message. */
    ghost var given: seq<Option<Client>>

    ghost predicate Valid()
      reads this
    {
      && Decode(codec, BytesOf(received)) == Decoded(decoded, false, readBuf)
      && handled <= |decoded|
      && |popped| == Attachments(decoded[..handled])
      && FdsOf(received) == Somes(popped) + fds
    }

    constructor (codec: Codec<ToCompositor>)
      ensures Valid() && this.codec == codec && received == [] && decoded == [] && sessions == map[]
      ensures popped == [] && fds == [] && handled == 0 && given == []
    {
      this.codec := codec;
      readBuf, fds, sessions := [], [], map[];
      received, decoded, handled, popped, given := [], [], 0, [], [];
    }

    /** Takes from the buffer what `Decode` makes of it, frame by frame. */
    method TryDecodeFrames() returns (messages: seq<ToCompositor>, broken: bool)
      modifies this`readBuf
      ensures var d := Decode(codec, old(readBuf));
        messages == d.messages && broken == d.broken && readBuf == d.rest
    {
      messages, broken := [], false;
      ghost var d := Decode(codec, readBuf);
      assert [] + d.messages == d.messages;
      while true
        invariant var e := Decode(codec, readBuf);
          messages + e.messages == d.messages && e.broken == d.broken && e.rest == d.rest
        decreases |readBuf|
      {
        DecodeUnfold(codec, readBuf);
        hide Decode;
        if |readBuf| < 4 { break; }
        var declared := FromLe32(readBuf);
        if declared > MAX_FRAME_LEN { return messages, true; }
        if |readBuf| < 4 + declared { break; }
        var end := 4 + declared;
        match FrameDecode(codec, readBuf[..end]) {
          case Ok(m) =>
            ghost var e := Decode(codec, readBuf[end..]);
            assert messages + ([m] + e.messages) == messages + [m] + e.messages;
            messages := messages + [m];
          case Err(_) => return messages, true;
        }
        readBuf := readBuf[end..];
      }
    }

    /** Receives until the socket would block. */
    method ReadAll(chunks: seq<seq<Cell>>)
      requires Valid()
      requires forall chunk :: chunk in chunks ==> |FdsOf(chunk)| <= CONTROL_FDS
      modifies this`readBuf, this`fds, this`received
      ensures received == old(received) + Flatten(chunks)
      ensures FdsOf(received) == Somes(popped) + fds
      ensures var d := Decode(codec, BytesOf(received)); var e := Decode(codec, readBuf);
        d.messages == decoded + e.messages && d.broken == e.broken && d.rest == e.rest
    {
      hide Decode, Somes, BytesOf, FdsOf, Flatten;
      var i := 0;
      FlattenNone(chunks);
      while i < |chunks|
        invariant i <= |chunks|
        invariant var part := Flatten(chunks[..i]);
          && received == old(received) + part
          && readBuf == old(readBuf) + BytesOf(part)
          && fds == old(fds) + FdsOf(part)
      {
        var chunk := chunks[i];
        ghost var part := Flatten(chunks[..i]);
        FlattenSnoc(chunks, i);
        CellsAppend(part, chunk);
        Assoc(old(received), part, chunk);
        Assoc(old(readBuf), BytesOf(part), BytesOf(chunk));
        Assoc(old(fds), FdsOf(part), FdsOf(chunk));
        assert chunk in chunks && FdsTaken(chunk) == FdsOf(chunk);
        fds := fds + FdsTaken(chunk);
        readBuf := readBuf + BytesOf(chunk);
        received := received + chunk;
        i := i + 1;
      }
      assert chunks[..|chunks|] == chunks;
      ghost var part := Flatten(chunks);
      CellsAppend(old(received), part);
      Assoc(Somes(popped), old(fds), FdsOf(part));
      DecodeAppend(codec, BytesOf(old(received)), BytesOf(part));
    }

    /** One wakeup's reads, decoded: the connection is over after a hangup, a
        broken frame or too many descriptors nobody claims. */
    method OnRead(chunks: seq<seq<Cell>>, hungUp: bool) returns (messages: seq<ToCompositor>, eof: bool)
      requires Valid() && handled == |decoded|
      requires forall chunk :: chunk in chunks ==> |FdsOf(chunk)| <= CONTROL_FDS
      modifies this`readBuf, this`fds, this`received, this`decoded
      ensures received == old(received) + Flatten(chunks)
      ensures decoded == old(decoded) + messages && Decode(codec, BytesOf(received)).messages == decoded
      ensures FdsOf(received) == Somes(popped) + fds
      ensures eof <==> || hungUp || Decode(codec, BytesOf(received)).broken
                       || |fds| > MAX_PENDING_FDS + Attachments(messages)
      ensures !Decode(codec, BytesOf(received)).broken ==> Valid()
    {
      hide BytesOf, Decode, FdsOf, Somes, Flatten;
      ReadAll(chunks);
      var broken;
      messages, broken := TryDecodeFrames();
      decoded := decoded + messages;
      assert decoded[..handled] == old(decoded)[..handled];
      var claimed := Attachments(messages);
      var unclaimed := if |fds| >= claimed then |fds| - claimed else 0;
      eof := hungUp || broken || unclaimed > MAX_PENDING_FDS;
    }

    /** Claims the next descriptor, and binds its client to `session` unless
        the app ID, an earlier client or the display refuses it. */
    method AttachClient(session: SessionId, appId: string, inserted: Option<Client>)
      requires Valid() && handled < |decoded| && decoded[handled] == ToCompositor.AttachClient(session, appId)
      modifies this`fds, this`sessions, this`handled, this`popped
      ensures Valid() && handled == old(handled) + 1
      ensures popped == old(popped) + [if old(fds) == [] then None else Some(old(fds)[0])]
      ensures fds == if old(fds) == [] then [] else old(fds)[1..]
      ensures sessions ==
        if old(fds) != [] && Names.IsValidAppId(appId) && session !in old(sessions) && inserted.Some?
        then old(sessions)[session := inserted.value] else old(sessions)
    {
      var fd := PopFd();
      if fd.None? { return; }
      if !Names.IsValidAppId(appId) { return; }
      if session in sessions { return; }
      match inserted {
        case Some(client) => sessions := sessions[session := client];
        case None =>
      }
    }

    /** Takes the descriptor that arrived first. */
    method PopFd() returns (fd: Option<Fd>)
      requires Valid() && handled < |decoded| && decoded[handled].AttachClient?
      modifies this`fds, this`handled, this`popped
      ensures Valid() && handled == old(handled) + 1 && popped == old(popped) + [fd]
      ensures fd == if old(fds) == [] then None else Some(old(fds)[0])
      ensures fds == if old(fds) == [] then [] else old(fds)[1..]
    {
      HandleOne(decoded, handled);
      hide Attachments, Decode, BytesOf, FdsOf, Somes;
      fd := if fds == [] then None else Some(fds[0]);
      SomesSnoc(popped, fd);
      handled, popped := handled + 1, popped + [fd];
      if fd.Some? {
        assert fds == [fd.value] + fds[1..];
        fds := fds[1..];
      }
    }

    method HandleMessage(msg: ToCompositor, inserted: Option<Client>)
      requires Valid() && handled < |decoded| && decoded[handled] == msg
      modifies this`fds, this`sessions, this`handled, this`popped
      ensures Valid() && handled == old(handled) + 1
      ensures match msg
        case AttachClient(session, appId) =>
          && popped == old(popped) + [if old(fds) == [] then None else Some(old(fds)[0])]
          && fds == (if old(fds) == [] then [] else old(fds)[1..])
          && (old(fds) != [] ==> sessions == SessionsAfter(old(sessions), msg, inserted))
        case AppSurfaceDestroyed(session) =>
          && popped == old(popped) && fds == old(fds) && sessions == old(sessions) - {session}
        case _ => popped == old(popped) && fds == old(fds) && sessions == old(sessions)
    {
      hide Decode, BytesOf, FdsOf, Somes, Attachments;
      HandleOne(decoded, handled);
      match msg {
        case AttachClient(session, appId) => AttachClient(session, appId, inserted);
        case AppSurfaceDestroyed(session) =>
          sessions := sessions - {session};
          handled := handled + 1;
        // These two act on windows only.
        case AppFocusRequest(session) => handled := handled + 1;
        case AppCloseRequest(session) => handled := handled + 1;
      }
    }

    /** This connection is served as weft-appd wrote it: what arrived begins
        what was sent, every whole message in it was handled in order, and
        each `AttachClient` got its own descriptor, and its client if it was
        the first for its session. */
    ghost predicate Follows(outs: seq<Outbound>)
      reads this
    {
      && Valid() && handled == |decoded|
      && Faithful(codec) && AllHonest(codec, outs)
      && received <= Wire(codec, outs)
      && |decoded| <= |outs| && decoded == Sent(outs)[..|decoded|]
      && (received == Wire(codec, outs) ==> decoded == Sent(outs))
      && popped == Wrapped(Descriptors(outs[..|decoded|]))
      && |fds| <= 1
      && SessionsAre(sessions, decoded, given)
    }

    /** One wakeup of the connection's read source, with what `recvmsg`
        returned until it would block. */
    method Serve(ghost outs: seq<Outbound>, chunks: seq<seq<Cell>>, hungUp: bool, inserted: seq<Option<Client>>)
      returns (eof: bool)
      requires Follows(outs)
      requires received + Flatten(chunks) <= Wire(codec, outs)
      requires forall chunk :: chunk in chunks ==> |FdsOf(chunk)| <= CONTROL_FDS
      modifies this
      ensures Follows(outs)
      ensures received == old(received) + Flatten(chunks)
      // The display's clients are for the messages of this wakeup, in order.
      ensures |old(decoded)| <= |decoded| && given == old(given) + ClientsFor(inserted, |decoded| - |old(decoded)|)
      // An honest connection is never judged broken.
      ensures eof == hungUp
    {
      hide Decode, BytesOf, FdsOf, Somes, Attachments, Descriptors, Wire, Flatten, Sent, Honest, Faithful, SessionsAre;
      ghost var arrived := received + Flatten(chunks);
      assert arrived == Wire(codec, outs)[..|arrived|];
      HonestPrefix(codec, outs, |arrived|);
      var messages;
      messages, eof := OnRead(chunks, hungUp);
      AttachmentsAppend(old(decoded), messages);
      assert old(decoded)[..old(handled)] == old(decoded);
      ghost var all := Descriptors(outs[..|decoded|]);
      SomesWrapped(Descriptors(outs[..|old(decoded)|]));
      DescriptorsGrow(outs, |old(decoded)|, |decoded|);
      HandleAll(messages, inserted, all);
      SomesWrapped(all);
      assert Sent(outs)[..|outs|] == Sent(outs);
    }

    /** Handles decoded messages in order, when `all` are the descriptors of
        every message decoded so far. */
    method HandleAll(messages: seq<ToCompositor>, inserted: seq<Option<Client>>, ghost all: seq<Fd>)
      requires Valid() && handled <= |decoded| && decoded[handled..] == messages
      requires |popped| <= |all| && popped == Wrapped(all[..|popped|])
      requires all <= FdsOf(received) && |all| == Attachments(decoded)
      requires SessionsAre(sessions, decoded[..handled], given)
      modifies this`fds, this`sessions, this`handled, this`popped, this`given
      ensures Valid() && handled == |decoded| && popped == Wrapped(all)
      ensures SessionsAre(sessions, decoded, given) && given == old(given) + ClientsFor(inserted, |messages|)
    {
      hide Decode, BytesOf, FdsOf, Somes, Attachments, SessionsAre, SessionsAfter;
      var i := 0;
      assert given + ClientsFor(inserted, 0) == given;
      while i < |messages|
        invariant i <= |messages| && handled == old(handled) + i && Valid()
        invariant |popped| <= |all| && popped == Wrapped(all[..|popped|])
        invariant SessionsAre(sessions, decoded[..handled], given) && given == old(given) + ClientsFor(inserted, i)
      {
        assert decoded[handled] == decoded[old(handled)..][i];
        HandleOne(decoded, handled);
        if messages[i].AttachClient? { NextDescriptor(popped, fds, FdsOf(received), all); }
        var client := if i < |inserted| then inserted[i] else None;
        ghost var before, done := sessions, decoded[..handled];
        SessionsStep(before, done, given, messages[i], client);
        OtherMessages(before, messages[i], client);
        HandleMessage(messages[i], client);
        assert decoded[..handled] == done + [messages[i]];
        given := given + [client];
        assert ClientsFor(inserted, i + 1) == ClientsFor(inserted, i) + [client];
        i := i + 1;
      }
      assert decoded[..handled] == decoded && all[..|popped|] == all;
    }
  }

  lemma {:induction false} DescriptorsGrow(outs: seq<Outbound>, i: nat, j: nat)
    requires i <= j <= |outs|
    ensures Descriptors(outs[..i]) <= Descriptors(outs[..j])
    decreases i
  {
    if i > 0 {
      DescriptorsGrow(outs[1..], i - 1, j - 1);
      assert outs[..i][1..] == outs[1..][..i - 1] && outs[..j][1..] == outs[1..][..j - 1];
    }
  }

  // ----- weft-appd's side: one connection after another -----

  /** What happens next at weft-appd's end: a write that takes the whole
      frame, or fails after part of it (never the whole), or the connection's reader ending. */
  datatype ClientEvent = Write(failsAfter: Option<nat>) | ReaderEnded

  /** One connection: the frames written whole, and a piece of the next. */
  datatype Link = Link(sent: seq<Outbound>, piece: seq<Cell>)

  function SentOver(links: seq<Link>): seq<Outbound> {
    if links == [] then [] else SentOver(links[..|links| - 1]) + links[|links| - 1].sent
  }

  /** A piece that is empty or begins an honest frame without completing it. */
  ghost predicate CutShort(c: Codec<ToCompositor>, piece: seq<Cell>) {
    piece == [] || exists o, n: nat :: Honest(c, o) && n < |SendFrame(c, o)| && piece == SendFrame(c, o)[..n]
  }

  /** The compositor decodes exactly the frames a connection carried whole. */
  lemma LinkDecodes(c: Codec<ToCompositor>, link: Link)
    requires Faithful(c) && AllHonest(c, link.sent) && CutShort(c, link.piece)
    ensures var d := Decode(c, BytesOf(Wire(c, link.sent) + link.piece));
      d.messages == Sent(link.sent) && !d.broken
  {
    var w := Wire(c, link.sent);
    HonestPrefix(c, link.sent, |w|);
    assert w[..|w|] == w;
    AllSent(c, link.sent, w);
    WireWhole(c, link.sent);
    PieceDecodes(c, link.piece);
    CellsAppend(w, link.piece);
    var a, b := BytesOf(w), BytesOf(link.piece);
    DecodeAppend(c, a, b);
    hide Decode, BytesOf, Wire;
    assert [] + b == b;
    assert Sent(link.sent) + Decode(c, b).messages == Sent(link.sent);
  }

  lemma AllSent(c: Codec<ToCompositor>, outs: seq<Outbound>, w: seq<Cell>)
    requires Agrees(c, outs, w) && |Decode(c, BytesOf(w)).messages| == |outs|
    ensures Decode(c, BytesOf(w)).messages == Sent(outs) && !Decode(c, BytesOf(w)).broken
  {
    assert Sent(outs)[..|outs|] == Sent(outs);
  }

  lemma PieceDecodes(c: Codec<ToCompositor>, piece: seq<Cell>)
    requires CutShort(c, piece)
    ensures Decode(c, BytesOf(piece)).messages == [] && !Decode(c, BytesOf(piece)).broken
  {
    if piece != [] {
      var o, n: nat :| Honest(c, o) && n < |SendFrame(c, o)| && piece == SendFrame(c, o)[..n];
      FramePiece(c, o, n);
      DecodePiece(c, o.msg, n);
    }
  }

  lemma {:induction false} WireWhole(c: Codec<ToCompositor>, outs: seq<Outbound>)
    requires Faithful(c) && AllHonest(c, outs)
    ensures Decode(c, BytesOf(Wire(c, outs))).rest == []
    decreases |outs|
  {
    if outs != [] {
      assert outs[0] in outs;
      var frame := SendFrame(c, outs[0]);
      WireWhole(c, outs[1..]);
      CellsAppend(frame, Wire(c, outs[1..]));
      FramePiece(c, outs[0], |frame|);
      assert frame[..|frame|] == frame;
      assert FrameEncode(c, outs[0].msg)[..|frame|] == FrameEncode(c, outs[0].msg);
      DecodeFrame(c, outs[0].msg, BytesOf(Wire(c, outs[1..])));
    }
  }

  /** Writes one frame; a write that fails leaves a piece of it and ends the
      connection. */
  method WriteFrame(c: Codec<ToCompositor>, links: seq<Link>, current: seq<Outbound>, o: Outbound, failsAfter: Option<nat>)
    returns (after: seq<Link>, now: seq<Outbound>)
    requires Honest(c, o) && AllSound(c, links) && AllHonest(c, current)
    ensures AllSound(c, after) && AllHonest(c, now)
    ensures SentOver(after) + now == SentOver(links) + current + if failsAfter.None? then [o] else []
  {
    var frame := SendFrame(c, o);
    if failsAfter.Some? {
      var written := if failsAfter.value < |frame| then failsAfter.value else |frame| - 1;
      FrameCutShort(c, o, written);
      after, now := NextLink(c, links, Link(current, frame[..written])), [];
    } else {
      Assoc(SentOver(links), current, [o]);
      after, now := links, current + [o];
    }
  }

  /** One connection after another: what a connection leaves unfinished opens
      the next, so over all of them each queued message is written whole
      once, in order, with nothing mixed in. */
  method RunClient(c: Codec<ToCompositor>, queue: seq<Outbound>, script: seq<ClientEvent>)
    returns (links: seq<Link>, next: nat)
    requires AllHonest(c, queue)
    ensures next <= |queue| && SentOver(links) == queue[..next]
    ensures AllSound(c, links)
    // Each write that succeeds, and no other, moves on to the next message.
    ensures next == if Successes(script) < |queue| then Successes(script) else |queue|
  {
    NothingSent();
    hide CutShort, Honest, SentOver;
    links, next := [], 0;
    var unsent: Option<Outbound> := None;
    var current: seq<Outbound> := [];
    var taken := 0;
    var step := 0;
    assert queue[..0] == [];
    while step < |script|
      invariant step <= |script| && next <= taken <= |queue|
      invariant unsent == (if taken == next then None else Some(queue[next])) && taken <= next + 1
      invariant SentOver(links) + current == queue[..next] && AllHonest(c, current)
      invariant AllSound(c, links)
      invariant next == if Successes(script[..step]) < |queue| then Successes(script[..step]) else |queue|
    {
      var event := script[step];
      assert script[..step + 1][..step] == script[..step];
      step := step + 1;
      match event {
        case ReaderEnded =>
          // Only a loop with nothing to write waits for the reader.
          if unsent.None? {
            NothingCutShort(c);
            links, current := NextLink(c, links, Link(current, [])), [];
          }
        case Write(failsAfter) =>
          if unsent.None? {
            if taken == |queue| { continue; }
            unsent, taken := Some(queue[taken]), taken + 1;
          }
          var outbound := unsent.value;
          assert outbound in queue && Honest(c, outbound);
          links, current := WriteFrame(c, links, current, outbound, failsAfter);
          if failsAfter.None? {
            assert queue[..next + 1] == queue[..next] + [outbound];
            unsent, next := None, next + 1;
          }
      }
    }
    NothingCutShort(c);
    links := NextLink(c, links, Link(current, []));
    assert script[..|script|] == script;
  }

  /** Every connection carries whole honest frames, and a piece of one more. */
  ghost predicate AllSound(c: Codec<ToCompositor>, links: seq<Link>) {
    forall link :: link in links ==> AllHonest(c, link.sent) && CutShort(c, link.piece)
  }

  lemma NothingSent()
    ensures SentOver([]) == []
  {
  }

  lemma NothingCutShort(c: Codec<ToCompositor>)
    ensures CutShort(c, [])
  {
  }

  lemma FrameCutShort(c: Codec<ToCompositor>, o: Outbound, n: nat)
    requires Honest(c, o) && n < |SendFrame(c, o)|
    ensures CutShort(c, SendFrame(c, o)[..n])
  {
  }

  function Successes(script: seq<ClientEvent>): nat {
    if script == [] then 0
    else Successes(script[..|script| - 1]) + (if script[|script| - 1] == Write(None) then 1 else 0)
  }

  /** Ends a connection and starts the next. */
  function NextLink(c: Codec<ToCompositor>, links: seq<Link>, link: Link): (all: seq<Link>)
    ensures SentOver(all) == SentOver(links) + link.sent
    ensures all == links + [link]
  {
    assert (links + [link])[..|links|] == links;
    links + [link]
  }
}
