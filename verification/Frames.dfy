/** Length-prefixed message frames with file descriptors, between weft-appd
    and the compositor. */
module Frames {
  import opened Options
  import opened Streams

  const MAX_FRAME_LEN := 4 * 1024 * 1024

  // ----- The frame format -----

  /** MessagePack, taken as opaque. */
  datatype Codec<!M> = Codec(encode: M -> Bytes, decode: Bytes -> Option<M>)

  ghost predicate Faithful<M(!new)>(c: Codec<M>) {
    forall m :: c.decode(c.encode(m)) == Some(m)
  }

  function Le32(n: nat): (bytes: Bytes)
    requires n < 0x1_0000_0000
    ensures |bytes| == 4
  {
    [n % 256, n / 256 % 256, n / 65536 % 256, n / 16777216]
  }

  function FromLe32(bytes: Bytes): nat
    requires |bytes| >= 4
  {
    bytes[0] as int + 256 * bytes[1] as int + 65536 * bytes[2] as int + 16777216 * bytes[3] as int
  }

  lemma Le32RoundTrip(n: nat)
    requires n < 0x1_0000_0000
    ensures FromLe32(Le32(n)) == n
  {
    assert n / 256 == (n / 65536) * 256 + n / 256 % 256;
    assert n / 65536 == (n / 16777216) * 256 + n / 65536 % 256;
  }

  /** The encoder refuses, by panicking, a message over the limit. */
  predicate Encodable<M>(c: Codec<M>, m: M) { |c.encode(m)| <= MAX_FRAME_LEN }

  function FrameEncode<M>(c: Codec<M>, m: M): (frame: Bytes)
    requires Encodable(c, m)
    ensures |frame| == 4 + |c.encode(m)|
  {
    Le32(|c.encode(m)|) + c.encode(m)
  }

  datatype FrameError = TooShort | TooLong | LengthMismatch | Deserialize
  datatype Result<+T> = Ok(value: T) | Err(error: FrameError)

  function FrameDecode<M>(c: Codec<M>, buf: Bytes): Result<M> {
    if |buf| < 4 then Err(TooShort)
    else if |buf| - 4 != FromLe32(buf) then Err(LengthMismatch)
    else if FromLe32(buf) > MAX_FRAME_LEN then Err(TooLong)
    else match c.decode(buf[4..]) case Some(m) => Ok(m) case None => Err(Deserialize)
  }

  lemma FrameRoundTrip<M(!new)>(c: Codec<M>, m: M)
    requires Faithful(c) && Encodable(c, m)
    ensures FrameDecode(c, FrameEncode(c, m)) == Ok(m)
  {
    Le32RoundTrip(|c.encode(m)|);
    assert FrameEncode(c, m)[4..] == c.encode(m);
    assert FrameEncode(c, m)[..4] == Le32(|c.encode(m)|);
  }

  // ----- What a stream of frames means -----

  datatype Decoded<+M> = Decoded(messages: seq<M>, broken: bool, rest: Bytes)

  /** Whether the buffer holds something to decide on: a whole frame, or a
      length over the limit. */
  predicate HasFrame(buf: Bytes) {
    |buf| >= 4 && (FromLe32(buf) > MAX_FRAME_LEN || |buf| >= 4 + FromLe32(buf))
  }

  /** The messages a stream carries, whether its framing is broken, and
      what is left of it. */
  function Decode<M>(c: Codec<M>, buf: Bytes): Decoded<M>
    decreases |buf|
  {
    if !HasFrame(buf) then Decoded([], false, buf)
    else if FromLe32(buf) > MAX_FRAME_LEN then Decoded([], true, buf)
    else
      var end := 4 + FromLe32(buf);
      match FrameDecode(c, buf[..end])
      case Err(_) => Decoded([], true, buf)
      case Ok(m) => var d := Decode(c, buf[end..]); Decoded([m] + d.messages, d.broken, d.rest)
  }

  lemma DecodeUnfold<M>(c: Codec<M>, buf: Bytes)
    ensures |buf| < 4 ==> Decode(c, buf) == Decoded([], false, buf)
    ensures |buf| >= 4 && FromLe32(buf) > MAX_FRAME_LEN ==> Decode(c, buf) == Decoded([], true, buf)
    ensures |buf| >= 4 && FromLe32(buf) <= MAX_FRAME_LEN && |buf| < 4 + FromLe32(buf) ==>
              Decode(c, buf) == Decoded([], false, buf)
    ensures |buf| >= 4 && FromLe32(buf) <= MAX_FRAME_LEN && |buf| >= 4 + FromLe32(buf) ==>
      var end := 4 + FromLe32(buf);
      match FrameDecode(c, buf[..end])
      case Err(_) => Decode(c, buf) == Decoded([], true, buf)
      case Ok(m) => var d := Decode(c, buf[end..]); Decode(c, buf) == Decoded([m] + d.messages, d.broken, d.rest)
  {
  }

  /** A stream that arrives in two pieces decodes as the first, and then
      what it left with the second, wherever it was cut. */
  lemma {:induction false} DecodeAppend<M>(c: Codec<M>, a: Bytes, b: Bytes)
    ensures var d := Decode(c, a);
      if d.broken then Decode(c, a + b).messages == d.messages && Decode(c, a + b).broken
      else var e := Decode(c, d.rest + b);
        Decode(c, a + b) == Decoded(d.messages + e.messages, e.broken, e.rest)
    decreases |a|
  {
    if HasFrame(a) {
      assert FromLe32(a + b) == FromLe32(a) && HasFrame(a + b);
      hide FromLe32, HasFrame;
      if FromLe32(a) <= MAX_FRAME_LEN {
        FrameFits(a);
        var end := 4 + FromLe32(a);
        assert (a + b)[..end] == a[..end];
        assert (a + b)[end..] == a[end..] + b;
        hide FrameDecode;
        if FrameDecode(c, a[..end]).Ok? {
          DecodeAppend(c, a[end..], b);
          var d := Decode(c, a[end..]);
          var e := Decode(c, d.rest + b);
          var m := FrameDecode(c, a[..end]).value;
          assert [m] + (d.messages + e.messages) == [m] + d.messages + e.messages;
        }
      }
    } else {
      var e := Decode(c, a + b);
      assert [] + e.messages == e.messages;
    }
  }

  lemma FrameFits(buf: Bytes)
    requires HasFrame(buf) && FromLe32(buf) <= MAX_FRAME_LEN
    ensures 4 + FromLe32(buf) <= |buf|
  {
  }

  /** A frame at the front of the stream is its first message. */
  lemma DecodeFrame<M(!new)>(c: Codec<M>, m: M, rest: Bytes)
    requires Faithful(c) && Encodable(c, m)
    ensures var d := Decode(c, rest);
      Decode(c, FrameEncode(c, m) + rest) == Decoded([m] + d.messages, d.broken, d.rest)
  {
    var frame := FrameEncode(c, m);
    var buf := frame + rest;
    Le32RoundTrip(|c.encode(m)|);
    FrameRoundTrip(c, m);
    assert buf[..4] == Le32(|c.encode(m)|);
    assert FromLe32(buf) == |c.encode(m)|;
    assert buf[..|frame|] == frame && buf[|frame|..] == rest;
  }

  /** A piece of a frame, short of the whole, waits for the rest. */
  lemma DecodePiece<M(!new)>(c: Codec<M>, m: M, n: nat)
    requires Encodable(c, m) && n < |FrameEncode(c, m)|
    ensures Decode(c, FrameEncode(c, m)[..n]) == Decoded([], false, FrameEncode(c, m)[..n])
  {
    Le32RoundTrip(|c.encode(m)|);
    var piece := FrameEncode(c, m)[..n];
    if n >= 4 {
      assert piece[..4] == Le32(|c.encode(m)|);
      assert FromLe32(piece) == |c.encode(m)|;
    }
  }
}
