/** What the compositor reports to weft-appd: frames queued, written as far as
    the socket takes them, and dropped only with the connection. */
module Reports {
  import opened Streams
  import opened Frames

  type SessionId = nat

  datatype ToAppd = SurfaceReady(session: SessionId) | ClientDisconnected(session: SessionId)

  /** What a write to the socket does: takes up to `n` bytes, would block, is
      interrupted or fails. */
  datatype Attempt = Takes(n: nat) | WouldBlock | Interrupted | Fails

  function EncodeAll(c: Codec<ToAppd>, messages: seq<ToAppd>): Bytes
    requires forall m :: m in messages ==> Encodable(c, m)
  {
    if messages == [] then []
    else
      assert messages[0] in messages;
      FrameEncode(c, messages[0]) + EncodeAll(c, messages[1..])
  }

  lemma {:induction false} EncodeOneMore(c: Codec<ToAppd>, messages: seq<ToAppd>, m: ToAppd)
    requires Encodable(c, m) && forall x :: x in messages ==> Encodable(c, x)
    ensures EncodeAll(c, messages + [m]) == EncodeAll(c, messages) + FrameEncode(c, m)
    decreases |messages|
  {
    if messages == [] {
      assert [m][1..] == [] && messages + [m] == [m];
    } else {
      assert (messages + [m])[1..] == messages[1..] + [m];
      assert messages[0] in messages;
      EncodeOneMore(c, messages[1..], m);
    }
  }

  /** However much of the frames was written, it decodes to the first of the
      messages; all of it, to all of them. */
  lemma {:induction false} WrittenDecodes(c: Codec<ToAppd>, messages: seq<ToAppd>, n: nat)
    requires Faithful(c) && forall m :: m in messages ==> Encodable(c, m)
    requires n <= |EncodeAll(c, messages)|
    ensures var d := Decode(c, EncodeAll(c, messages)[..n]);
      && !d.broken && d.messages <= messages
      && (n == |EncodeAll(c, messages)| ==> d.messages == messages)
    decreases |messages|
  {
    hide Decode, FrameEncode, Faithful;
    if messages == [] {
      DecodeUnfold(c, []);
    } else {
      assert messages[0] in messages;
      var frame, rest := FrameEncode(c, messages[0]), EncodeAll(c, messages[1..]);
      var cut := EncodeAll(c, messages)[..n];
      if n < |frame| {
        assert cut == frame[..n];
        DecodePiece(c, messages[0], n);
      } else {
        assert cut == frame + rest[..n - |frame|];
        DecodeFrame(c, messages[0], rest[..n - |frame|]);
        WrittenDecodes(c, messages[1..], n - |frame|);
        assert messages == [messages[0]] + messages[1..];
      }
    }
  }

  predicate AllTake(attempts: seq<Attempt>) {
    forall i :: 0 <= i < |attempts| ==> attempts[i].Takes? && attempts[i].n > 0
  }

  class AppdReports {
    const codec: Codec<ToAppd>
    var connected: bool
    var outBuf: Bytes
    var sessions: set<SessionId>
    var reported: set<SessionId>

    /** What the socket took on this connection, and what was sent on it. */
    ghost var written: Bytes
    ghost var queued: seq<ToAppd>

    ghost predicate Valid()
      reads this
    {
      && (forall m :: m in queued ==> Encodable(codec, m))
      && (if connected then written + outBuf == EncodeAll(codec, queued) && |outBuf| <= MAX_FRAME_LEN
          else outBuf == [] && written <= EncodeAll(codec, queued))
    }

    constructor (codec: Codec<ToAppd>)
      ensures Valid() && connected && this.codec == codec && queued == [] && sessions == {} && reported == {}
    {
      this.codec := codec;
      connected, outBuf, sessions, reported, written, queued := true, [], {}, {}, [], [];
    }

    /** weft-appd has decoded the first of the messages sent, in order, and all
        of them once nothing waits. */
    lemma AppdHasDecoded()
      requires Valid() && Faithful(codec)
      ensures !Decode(codec, written).broken && Decode(codec, written).messages <= queued
      ensures connected && outBuf == [] ==> Decode(codec, written).messages == queued
    {
      var all := EncodeAll(codec, queued);
      assert all[..|written|] == written;
      WrittenDecodes(codec, queued, |written|);
      assert connected && outBuf == [] ==> all == written;
    }

    /** Writes what the socket takes now. A write error, or a backlog over the
        limit, ends the connection. */
    method Flush(attempts: seq<Attempt>)
      requires forall m :: m in queued ==> Encodable(codec, m)
      requires if connected then written + outBuf == EncodeAll(codec, queued) else written <= EncodeAll(codec, queued)
      modifies this`connected, this`outBuf, this`written
      ensures Valid()
      ensures connected ==> old(connected) && written + outBuf == old(written + outBuf)
      ensures old(connected) && (forall a :: a in attempts ==> !a.Fails?) && |old(outBuf)| <= MAX_FRAME_LEN ==> connected
      ensures old(written) <= written
      // A socket that keeps taking bytes takes all of them.
      ensures old(connected) && AllTake(attempts) && |old(outBuf)| <= |attempts| ==> connected && outBuf == []
    {
      if !connected { outBuf := []; return; }
      var i := 0;
      while outBuf != [] && i < |attempts|
        invariant connected && i <= |attempts| && written + outBuf == old(written + outBuf)
        invariant old(written) <= written && |outBuf| <= |old(outBuf)|
        invariant AllTake(attempts) ==> outBuf == [] || |outBuf| + i <= |old(outBuf)|
      {
        var attempt := attempts[i];
        i := i + 1;
        match attempt {
          case Takes(n) =>
            if n == 0 { break; }
            var taken := if n < |outBuf| then n else |outBuf|;
            assert outBuf == outBuf[..taken] + outBuf[taken..];
            written, outBuf := written + outBuf[..taken], outBuf[taken..];
          case WouldBlock => break;
          case Interrupted =>
          case Fails =>
            assert attempts[i - 1] in attempts;
            connected, outBuf := false, [];
            return;
        }
      }
      if |outBuf| > MAX_FRAME_LEN {
        connected, outBuf := false, [];
      }
    }

    method Send(msg: ToAppd, attempts: seq<Attempt>)
      requires Valid() && Encodable(codec, msg)
      modifies this`connected, this`outBuf, this`written, this`queued
      ensures Valid()
      ensures queued == old(queued) + if old(connected) then [msg] else []
      ensures connected ==> written + outBuf == old(written + outBuf) + FrameEncode(codec, msg)
      ensures old(written) <= written
    {
      if connected {
        EncodeOneMore(codec, queued, msg);
        var frame := FrameEncode(codec, msg);
        assert written + (outBuf + frame) == written + outBuf + frame;
        queued, outBuf := queued + [msg], outBuf + frame;
        Flush(attempts);
      }
    }

    /** Queues `SurfaceReady`, unless it was queued since the client attached. */
    method SurfaceCreated(session: SessionId, attempts: seq<Attempt>)
      requires Valid() && Encodable(codec, SurfaceReady(session))
      modifies this`connected, this`outBuf, this`written, this`queued, this`reported
      ensures Valid()
      ensures var first := session in sessions && session !in old(reported);
        && reported == old(reported) + (if first then {session} else {})
        && queued == old(queued) + if first && old(connected) then [SurfaceReady(session)] else []
    {
      if session in sessions && session !in reported {
        reported := reported + {session};
        Send(SurfaceReady(session), attempts);
      }
    }

    /** The session's client is gone: what it reported is forgotten with it. */
    method Disconnected(session: SessionId, attempts: seq<Attempt>)
      requires Valid() && Encodable(codec, ClientDisconnected(session))
      modifies this
      ensures Valid()
      ensures sessions == old(sessions) - {session}
      ensures session in old(sessions) ==>
                && reported == old(reported) - {session}
                && queued == old(queued) + if old(connected) then [ClientDisconnected(session)] else []
      ensures session !in old(sessions) ==> reported == old(reported) && queued == old(queued)
    {
      if session in sessions {
        sessions, reported := sessions - {session}, reported - {session};
        Send(ClientDisconnected(session), attempts);
      }
    }
  }
}
