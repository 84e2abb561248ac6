/** The session's IPC relay in weft-appd, between the component's socket and
    the application's page. */
module Relay {
  import opened Options
  import opened Streams
  import ComponentIpc

  /** The limit on a component's line, with its break. */
  const MAX_RELAY_FRAME := 64 * 1024 + 2
  /** The longest message a page may send. */
  const MAX_APP_PAYLOAD := 64 * 1024

  /** Whether an application message is queued for the component. */
  predicate AppRequestAdmits(payload: Bytes) {
    Utf8(payload) && |payload| <= MAX_APP_PAYLOAD && LF !in payload
  }

  /** A string without the line breaks and carriage returns that end it. */
  function TrimEnd(s: Bytes): Bytes {
    if s != [] && s[|s| - 1] in {LF, CR} then TrimEnd(s[..|s| - 1]) else s
  }

  /** Whether a line ends the relay: over the limit or not UTF-8. */
  predicate Refused(line: Bytes) { |line| + 1 > MAX_RELAY_FRAME || !Utf8(line + [LF]) }

  /** What the page hears of `lines`: those before the first refused one. */
  function Broadcasts(lines: seq<Bytes>): seq<Bytes> {
    if lines == [] || Refused(lines[0]) then []
    else [TrimEnd(lines[0] + [LF])] + Broadcasts(lines[1..])
  }

  predicate AnyRefused(lines: seq<Bytes>) { lines != [] && (Refused(lines[0]) || AnyRefused(lines[1..])) }

  lemma {:induction false} BroadcastsAppend(a: seq<Bytes>, b: seq<Bytes>)
    ensures AnyRefused(a + b) <==> AnyRefused(a) || AnyRefused(b)
    ensures AnyRefused(a) ==> Broadcasts(a + b) == Broadcasts(a)
    ensures !AnyRefused(a) ==> Broadcasts(a + b) == Broadcasts(a) + Broadcasts(b)
    decreases |a|
  {
    if a == [] {
      assert a + b == b;
    } else {
      assert (a + b)[1..] == a[1..] + b;
      BroadcastsAppend(a[1..], b);
    }
  }

  /** `frame` is the unfinished line of what was read, and every line before it was broadcast. */
  predicate Between(read: Bytes, frame: Bytes, broadcast: seq<Bytes>) {
    && frame == Unfinished(read)
    && !AnyRefused(CompleteLines(read))
    && broadcast == Broadcasts(CompleteLines(read))
  }

  /** `frame` is the last line read, still to be broadcast. */
  predicate LineRead(read: Bytes, frame: Bytes, broadcast: seq<Bytes>) {
    var lines := CompleteLines(read);
    && Unfinished(read) == []
    && lines != []
    && frame == lines[|lines| - 1] + [LF]
    && !AnyRefused(lines[..|lines| - 1])
    && broadcast == Broadcasts(lines[..|lines| - 1])
  }

  predicate EndsLine(frame: Bytes) { frame != [] && frame[|frame| - 1] == LF }

  lemma NoBreak(read: Bytes, frame: Bytes, broadcast: seq<Bytes>)
    requires Between(read, frame, broadcast)
    ensures !EndsLine(frame)
    ensures broadcast == Broadcasts(CompleteLines(read))
  {
  }

  lemma ReadPart(read: Bytes, frame: Bytes, broadcast: seq<Bytes>, part: Bytes)
    requires Between(read, frame, broadcast) && LF !in part
    ensures Between(read + part, frame + part, broadcast) && !EndsLine(frame + part)
  {
    LinesAppend(read, part);
    assert LF !in frame + part;
    var lines := CompleteLines(read);
    assert CompleteLines(frame + part) == [] && lines + [] == lines;
  }

  lemma ReadToBreak(read: Bytes, frame: Bytes, broadcast: seq<Bytes>, part: Bytes)
    requires Between(read, frame, broadcast) && LF !in part
    ensures LineRead(read + (part + [LF]), frame + (part + [LF]), broadcast)
    ensures EndsLine(frame + (part + [LF]))
  {
    LinesAppend(read, part + [LF]);
    var line := frame + part;
    assert LF !in line;
    LinesCons(line, []);
    assert frame + (part + [LF]) == line + [LF] + [];
    var lines := CompleteLines(read);
    assert (lines + [line])[..|lines|] == lines;
  }

  /** A line that was read is broadcast, or ends the relay. */
  lemma LineBroadcast(read: Bytes, frame: Bytes, broadcast: seq<Bytes>)
    requires LineRead(read, frame, broadcast)
    ensures |frame| > MAX_RELAY_FRAME || !Utf8(frame) ==>
              broadcast == Broadcasts(CompleteLines(read)) && AnyRefused(CompleteLines(read))
    ensures |frame| <= MAX_RELAY_FRAME && Utf8(frame) ==> Between(read, [], broadcast + [TrimEnd(frame)])
  {
    var lines := CompleteLines(read);
    var before, line := lines[..|lines| - 1], lines[|lines| - 1];
    assert lines == before + [line];
    var none: seq<Bytes> := [];
    assert [line][1..] == none;
    BroadcastsAppend(before, [line]);
    assert frame == line + [LF];
    assert Broadcasts([line]) == if Refused(line) then [] else [TrimEnd(frame)];
  }

  /** What the relay's select sees next: `Fill(n)`, at most n more bytes of
      the component's stream for the pending read; `Page`, a queued message
      of the page, which cancels the pending read; `Hangup`, the end of the
      component's stream; `Stop`, a read error, a failed write to the
      component or the end of the queue. */
  datatype Event = Fill(n: nat) | Page(payload: Bytes) | Hangup | Stop

  /** How one turn of the select ends: the limited `read_until` returned `n`
      bytes, the page's message won, the relay stops, or nothing more happened. */
  datatype Turn = Complete(n: nat) | Cancelled(payload: Bytes) | Stopped | Waiting

  predicate AllFills(script: seq<Event>, n: nat)
    requires n <= |script|
  {
    forall i :: 0 <= i < n ==> script[i].Fill?
  }

  /** The fills that bring something, if anything is left. */
  function Fills(script: seq<Event>): nat {
    if script == [] then 0
    else Fills(script[..|script| - 1]) + (if script[|script| - 1].Fill? && script[|script| - 1].n > 0 then 1 else 0)
  }

  lemma {:induction false} FillsAppend(a: seq<Event>, b: seq<Event>)
    ensures Fills(a + b) == Fills(a) + Fills(b)
    decreases |b|
  {
    if b == [] {
      assert a + b == a;
    } else {
      assert (a + b)[..|a + b| - 1] == a + b[..|b| - 1];
      FillsAppend(a, b[..|b| - 1]);
    }
  }

  lemma NoFills(script: seq<Event>)
    ensures Fills(script[..0]) == 0 && Pages(script[..0]) == []
  {
  }

  lemma FillsOneMore(script: seq<Event>, n: nat)
    requires n < |script|
    ensures Fills(script[..n + 1]) == Fills(script[..n]) + if script[n].Fill? && script[n].n > 0 then 1 else 0
  {
    assert script[..n + 1][..n] == script[..n];
  }

  function Least(a: nat, b: nat): nat { if a < b then a else b }

  class IpcRelay {
    /** What the component sends, as far as it is not read yet. */
    var reader: Bytes
    /** The message being read; it outlives a cancelled read. */
    var frame: Bytes
    var broadcast: seq<Bytes>
    var toComponent: Bytes
    var running: bool

    ghost var read: Bytes
    ghost var forwarded: seq<Bytes>

    ghost predicate Valid()
      reads this
    {
      && toComponent == EncodeLines(forwarded)
      && broadcast == Broadcasts(CompleteLines(read))
      && (running ==> |frame| <= MAX_RELAY_FRAME && Between(read, frame, broadcast))
    }

    constructor (stream: Bytes)
      ensures Valid() && running && reader == stream
      ensures read == [] && forwarded == []
    {
      reader, frame, broadcast, toComponent, running := stream, [], [], [], true;
      read, forwarded := [], [];
    }

    /** Moves bytes from the reader to the frame. */
    method Consume(n: nat)
      requires n <= |reader|
      modifies this`reader, this`frame, this`read
      ensures frame == old(frame) + old(reader)[..n] && read == old(read) + old(reader)[..n]
      ensures reader == old(reader)[n..]
      ensures read + reader == old(read + reader)
    {
      assert reader == reader[..n] + reader[n..];
      read, frame, reader := read + reader[..n], frame + reader[..n], reader[n..];
    }

    /** Takes from the reader as much as there is, the fill brings and there is
        room for, but nothing after the first line break in it. */
    method TakeFill(k: nat, room: nat) returns (n: nat, ended: bool)
      requires Between(read, frame, broadcast)
      modifies this`reader, this`frame, this`read
      ensures n <= room && |frame| == |old(frame)| + n
      ensures read + reader == old(read + reader)
      ensures if ended then n > 0 && LineRead(read, frame, broadcast) && EndsLine(frame)
              else Between(read, frame, broadcast) && !EndsLine(frame)
      ensures var brought := old(reader)[..Least(Least(k, room), |old(reader)|)];
        if LF in brought then ended && n == LineEnd(brought) + 1 else !ended && n == |brought|
      ensures reader == old(reader)[n..]
    {
      hide Between, LineRead;
      var available := if k < |reader| then k else |reader|;
      if available > room { available := room; }
      var chunk := reader[..available];
      ended := LF in chunk;
      if ended {
        n := LineEnd(chunk) + 1;
        assert chunk[..n] == chunk[..n - 1] + [LF] && reader[..n] == chunk[..n];
        ReadToBreak(read, frame, broadcast, chunk[..n - 1]);
      } else {
        n := available;
        ReadPart(read, frame, broadcast, chunk);
      }
      Consume(n);
    }

    /** Reads up to the next line break, over as many fills as it takes, and
        never more than one byte over the limit: the size given to the
        limited reader is never negative. A message of the page cancels the
        read, which leaves what it has read in the frame. */
    method ReadUntil(script: seq<Event>) returns (turn: Turn, used: nat)
      requires |frame| <= MAX_RELAY_FRAME && Between(read, frame, broadcast)
      modifies this`reader, this`frame, this`read
      ensures used <= |script| && (script != [] ==> used > 0)
      ensures read + reader == old(read + reader)
      ensures if turn.Complete? && EndsLine(frame) then LineRead(read, frame, broadcast) else Between(read, frame, broadcast)
      ensures !turn.Complete? ==> |frame| <= MAX_RELAY_FRAME
      // Every fill brings a byte at least, as long as there is one.
      ensures reader == [] || |reader| + Fills(script[..used]) <= |old(reader)|
      ensures turn.Waiting? || (used > 0 && AllFills(script, used - 1))
      ensures turn.Waiting? ==> used == |script| && AllFills(script, used)
      ensures turn.Stopped? ==> script[used - 1] == Stop
      ensures turn.Cancelled? ==> script[used - 1] == Page(turn.payload)
      ensures turn.Complete? ==> !script[used - 1].Page?
      // A read that returns nothing, or less than a line, met the end of the stream.
      ensures turn.Complete? && turn.n == 0 ==> !EndsLine(frame)
      ensures turn.Complete? && (turn.n == 0 || (|frame| <= MAX_RELAY_FRAME && !EndsLine(frame))) ==>
                script[used - 1] == Hangup
    {
      NoBreak(read, frame, broadcast);
      hide Between, LineRead, EndsLine, Fills;
      var limit: nat := MAX_RELAY_FRAME + 1 - |frame|;
      var n: nat := 0;
      used := 0;
      while used < |script| && n < limit
        invariant used <= |script| && n <= limit && n + |old(frame)| == |frame|
        invariant n > 0 ==> used > 0
        invariant read + reader == old(read + reader)
        invariant reader == [] || |reader| + Fills(script[..used]) <= |old(reader)|
        invariant Between(read, frame, broadcast)
        invariant AllFills(script, used) && !EndsLine(frame)
        decreases |script| - used
      {
        var event := script[used];
        FillsOneMore(script, used);
        used := used + 1;
        match event {
          case Page(payload) => return Cancelled(payload), used;
          case Stop => return Stopped, used;
          case Hangup => return Complete(n), used;
          case Fill(k) =>
            var taken, ended := TakeFill(k, limit - n);
            n := n + taken;
            if ended { return Complete(n), used; }
        }
      }
      if n == limit { return Complete(n), used; }
      return Waiting, used;
    }

    /** Whether the component broke the framing. */
    ghost predicate Broken()
      reads this
    {
      AnyRefused(CompleteLines(read)) || |Unfinished(read)| > MAX_RELAY_FRAME
    }

    /** Acts on the `n` bytes a completed read returned. */
    method LineArrived(n: nat)
      requires running && toComponent == EncodeLines(forwarded)
      requires n == 0 ==> !EndsLine(frame)
      requires if EndsLine(frame) then LineRead(read, frame, broadcast) else Between(read, frame, broadcast)
      modifies this`frame, this`broadcast, this`running
      ensures Valid()
      ensures !running ==> n == 0 || Broken()
    {
      if EndsLine(frame) { LineBroadcast(read, frame, broadcast); }
      hide Utf8, Refused, CompleteLines, EncodeLines;
      if n == 0 {
        running := false;
      } else if |frame| > MAX_RELAY_FRAME {
        running := false;
      } else if EndsLine(frame) {
        var line := frame;
        frame := [];
        if !Utf8(line) {
          running := false;
        } else {
          broadcast := broadcast + [TrimEnd(line)];
        }
      }
    }

    /** The relay's loop, over everything its select sees. */
    method Run(script: seq<Event>)
      requires Valid() && running
      modifies this
      ensures Valid()
      ensures read + reader == old(read + reader)
      // While it runs, nothing waits longer than its bytes take to come.
      ensures running ==> reader == [] || |reader| + Fills(script) <= |old(reader)|
      // Only the component, by hanging up or breaking the framing, and the
      // session's end stop it.
      ensures !running ==> Hangup in script || Stop in script || Broken()
      ensures running ==> forwarded == old(forwarded) + Pages(script)
      ensures exists n: nat :: n <= |script| && forwarded == old(forwarded) + Pages(script[..n])
    {
      hide Between, LineRead, Utf8, Refused, AllFills, CompleteLines, EncodeLines, Fills, Pages;
      var done := 0;
      assert forwarded + [] == forwarded;
      NoFills(script);
      while running && done < |script|
        invariant done <= |script| && Valid()
        invariant read + reader == old(read + reader)
        invariant reader == [] || |reader| + Fills(script[..done]) <= |old(reader)|
        invariant forwarded == old(forwarded) + Pages(script[..done])
        invariant !running ==> Hangup in script || Stop in script || Broken()
        decreases |script| - done
      {
        var turn, used := ReadUntil(script[done..]);
        PagesRead(script, done, used);
        FillsAppend(script[..done], script[done..][..used]);
        assert script[..done] + script[done..][..used] == script[..done + used];
        done := done + used;
        if !turn.Complete? { NoBreak(read, frame, broadcast); }
        match turn {
          case Complete(n) => LineArrived(n);
          case Cancelled(payload) =>
            ForwardOne(forwarded, payload);
            toComponent := toComponent + (payload + [LF]);
            forwarded := forwarded + [payload];
          case Stopped => running := false;
          case Waiting =>
        }
      }
      assert script[..|script|] == script;
    }
  }

  lemma ForwardOne(forwarded: seq<Bytes>, payload: Bytes)
    ensures EncodeLines(forwarded + [payload]) == EncodeLines(forwarded) + (payload + [LF])
  {
    EncodeAppend(forwarded, [payload]);
    EncodeCons(payload, []);
    assert [payload] + [] == [payload] && payload + [LF] + EncodeLines([]) == payload + [LF];
  }

  /** The page's messages among the events. */
  function Pages(script: seq<Event>): seq<Bytes> {
    if script == [] then []
    else (if script[0].Page? then [script[0].payload] else []) + Pages(script[1..])
  }

  lemma {:induction false} PagesAppend(a: seq<Event>, b: seq<Event>)
    ensures Pages(a + b) == Pages(a) + Pages(b)
    decreases |a|
  {
    if a == [] {
      assert a + b == b;
    } else {
      assert (a + b)[1..] == a[1..] + b;
      PagesAppend(a[1..], b);
    }
  }

  /** One turn of the select takes at most its last event from the page. */
  lemma PagesRead(script: seq<Event>, done: nat, used: nat)
    requires done + used <= |script|
    ensures AllFills(script[done..], used) ==> Pages(script[..done + used]) == Pages(script[..done])
    ensures used > 0 && AllFills(script[done..], used - 1) ==>
      var last := script[done..][used - 1];
      && last in script
      && Pages(script[..done + used]) == Pages(script[..done]) + (if last.Page? then [last.payload] else [])
    decreases used
  {
    assert script[..done + 0] == script[..done];
    if used > 0 {
      PagesRead(script, done, used - 1);
      var before, last := script[..done + used - 1], script[done..][used - 1];
      assert script[..done + used] == before + [last];
      PagesAppend(before, [last]);
      assert Pages([last]) == if last.Page? then [last.payload] else [];
    }
  }

  // ----- From the component to the page -----

  /** A message the component is allowed to send. */
  predicate Sendable(payload: Bytes) { Utf8(payload) && ComponentIpc.CheckPayload(payload).None? }

  lemma SendableHeard(payload: Bytes)
    requires Sendable(payload)
    ensures !Refused(payload) && TrimEnd(payload + [LF]) == payload
  {
    Utf8Ascii(LF);
    Utf8Append(payload, [LF]);
    assert (payload + [LF])[..|payload|] == payload;
    if payload != [] {
      assert payload[|payload| - 1] in payload;
    }
  }

  lemma {:induction false} SendableBroadcasts(payloads: seq<Bytes>)
    requires forall p :: p in payloads ==> Sendable(p)
    ensures !AnyRefused(payloads) && Broadcasts(payloads) == payloads
    decreases |payloads|
  {
    if payloads != [] {
      SendableHeard(payloads[0]);
      SendableBroadcasts(payloads[1..]);
    }
  }

  /** Wherever the stream of sendable messages is cut, the relay accepts it:
      it has broadcast the messages sent before the cut, and holds less than
      the longest frame. */
  lemma ComponentToPage(payloads: seq<Bytes>, cut: nat)
    requires forall p :: p in payloads ==> Sendable(p)
    requires cut <= |EncodeLines(payloads)|
    ensures var w := EncodeLines(payloads)[..cut];
      && !AnyRefused(CompleteLines(w))
      && |Unfinished(w)| < MAX_RELAY_FRAME
      && Broadcasts(CompleteLines(w)) <= payloads
      && (cut == |EncodeLines(payloads)| ==> Broadcasts(CompleteLines(w)) == payloads)
  {
    forall p | p in payloads ensures LF !in p && |p| <= ComponentIpc.MAX_MESSAGE { assert Sendable(p); }
    EncodedPrefix(payloads, cut);
    var w := EncodeLines(payloads)[..cut];
    var k := |CompleteLines(w)|;
    SendableBroadcasts(payloads[..k]);
    if k < |payloads| { assert payloads[k] in payloads; }
    if cut == |EncodeLines(payloads)| {
      assert w == EncodeLines(payloads);
      EncodedWhole(payloads);
    }
  }

  /** Whatever the fills, the page's messages in between and the cancelled
      reads, the relay broadcasts exactly the component's messages, in order,
      and stops only when the connection or the session ends. */
  method RelayComponent(payloads: seq<Bytes>, script: seq<Event>) returns (relay: IpcRelay)
    requires forall p :: p in payloads ==> Sendable(p)
    ensures fresh(relay) && relay.Valid()
    ensures relay.broadcast <= payloads
    ensures relay.reader == [] ==> relay.broadcast == payloads
    // With fills enough, every message has been broadcast.
    ensures relay.running && Fills(script) >= |EncodeLines(payloads)| ==> relay.broadcast == payloads
    ensures !relay.running ==> Hangup in script || Stop in script
    ensures relay.toComponent == EncodeLines(relay.forwarded)
  {
    var stream := EncodeLines(payloads);
    relay := new IpcRelay(stream);
    assert [] + stream == stream;
    relay.Run(script);
    assert relay.read == stream[..|relay.read|];
    ComponentToPage(payloads, |relay.read|);
    if relay.reader == [] { assert relay.read + [] == relay.read; }
  }

  // ----- From the page to the component -----

  function Texts(lines: seq<Bytes>): (texts: seq<Bytes>)
    ensures |texts| == |lines|
    ensures forall i :: 0 <= i < |lines| ==> texts[i] == ComponentIpc.Text(lines[i])
  {
    seq(|lines|, i requires 0 <= i < |lines| => ComponentIpc.Text(lines[i]))
  }

  predicate EndsInReturn(payload: Bytes) { payload != [] && payload[|payload| - 1] == CR }

  lemma {:induction false} AdmittedDelivered(payloads: seq<Bytes>)
    requires forall p :: p in payloads ==> AppRequestAdmits(p)
    ensures ComponentIpc.Deliver(payloads) == Texts(payloads)
    ensures !ComponentIpc.Cut(payloads)
    decreases |payloads|
  {
    if payloads != [] {
      var p := payloads[0];
      assert AppRequestAdmits(p);
      if EndsInReturn(p) { Utf8DropLast(p); }
      AdmittedDelivered(payloads[1..]);
      assert Texts(payloads) == [ComponentIpc.Text(p)] + Texts(payloads[1..]);
    }
  }

  /** Every message queued for the component arrives, less one carriage
      return at its end: the messages arrive unchanged exactly when none
      ends in one. */
  lemma PageToComponent(payloads: seq<Bytes>)
    requires forall p :: p in payloads ==> AppRequestAdmits(p)
    ensures ComponentIpc.Messages(EncodeLines(payloads)) == Texts(payloads)
    ensures ComponentIpc.Messages(EncodeLines(payloads)) == payloads <==> forall p :: p in payloads ==> !EndsInReturn(p)
  {
    forall p | p in payloads ensures LF !in p { assert AppRequestAdmits(p); }
    EncodedWhole(payloads);
    AdmittedDelivered(payloads);
    var texts := Texts(payloads);
    if texts == payloads {
      forall p | p in payloads ensures !EndsInReturn(p) {
        var i :| 0 <= i < |payloads| && payloads[i] == p;
        assert |texts[i]| == |payloads[i]|;
      }
    } else {
      var i :| 0 <= i < |payloads| && texts[i] != payloads[i];
      assert EndsInReturn(payloads[i]);
    }
  }

  /** A page's message that the component never receives as it was sent. */
  lemma ReturnIsLost()
    ensures AppRequestAdmits([CR])
    ensures ComponentIpc.Messages(EncodeLines([[CR]])) == [[]]
  {
    Utf8Ascii(CR);
    var payload: Bytes := [CR];
    var payloads := [payload];
    forall p | p in payloads ensures AppRequestAdmits(p) { assert p == payload; }
    PageToComponent(payloads);
    assert Texts(payloads) == [[]];
  }

  /** However the relay's bytes are cut into the component's reads. */
  method DeliverToComponent(payloads: seq<Bytes>, socket: seq<ComponentIpc.Read>) returns (messages: seq<Bytes>)
    requires forall p :: p in payloads ==> AppRequestAdmits(p)
    requires ComponentIpc.Possible(socket) && ComponentIpc.Arrived(socket) == EncodeLines(payloads)
    ensures messages == Texts(payloads)
  {
    messages := ComponentIpc.ReceiveAll(socket);
    PageToComponent(payloads);
  }
}
