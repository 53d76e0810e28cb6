/** Server-to-client text frames, and the reader of section 5.2 of RFC 6455 as their measure. */
module WebSocketFrame {
  import opened Domain
  import opened Octets

  /** The length octets behind the first one: 7 bits, 16 bits or 64 bits. */
  function LengthField(size: nat): seq<byte> {
    if size <= 125 then [size]
    else if size <= 0xFFFF then [126] + BigEndian(size, 2)
    else [127] + BigEndian(size, 8)
  }

  function Frame(payload: seq<byte>): seq<byte> {
    [0x81] + LengthField(|payload|) + payload
  }

  method BuildWebSocketFrame(payload: seq<byte>) returns (frame: seq<byte>)
    ensures frame == Frame(payload)
  {
    frame := [0x81];
    var size := |payload|;
    if size <= 125 {
      frame := frame + [size];
    } else if size <= 0xFFFF {
      frame := frame + [126];
      frame := frame + [size / 256 % 256];
      frame := frame + [size % 256];
      assert BigEndian(size, 2) == BigEndian(size / 256, 1) + [size % 256];
      assert BigEndian(size / 256, 1) == BigEndian(size / 256 / 256, 0) + [size / 256 % 256];
      assert frame == [0x81] + LengthField(size);
    } else {
      frame := frame + [127];
      for pushed := 0 to 8
        invariant frame == [0x81] + ([127] + BigEndian(ShiftRight(size, 8 - pushed), pushed))
      {
        BigEndianByShifts(size, 8, pushed);
        frame := frame + [ShiftRight(size, 8 - pushed - 1) % 256];
      }
    }
    frame := frame + payload;
  }

  // ---------- Reading frames ----------

  datatype Reading = Malformed | Read(payload: seq<byte>, rest: seq<byte>)

  function TakePayload(size: nat, stream: seq<byte>): Reading {
    if size <= |stream| then Read(stream[..size], stream[size..]) else Malformed
  }

  /**
    One unfragmented, unmasked text frame. The length must use the fewest octets that hold it and
    a 64-bit length must have its top bit clear.
   */
  function ReadFrame(stream: seq<byte>): Reading {
    if |stream| < 2 || stream[0] != 0x81 then Malformed
    else if stream[1] <= 125 then TakePayload(stream[1], stream[2..])
    else if stream[1] == 126 then
      if |stream| < 4 || Number(stream[2..4]) <= 125 then Malformed
      else TakePayload(Number(stream[2..4]), stream[4..])
    else if stream[1] == 127 then
      if |stream| < 10 || Number(stream[2..10]) <= 0xFFFF || Number(stream[2..10]) >= TWO_TO_THE_63 then Malformed
      else TakePayload(Number(stream[2..10]), stream[10..])
    else Malformed
  }

  /** All frames of a stream with nothing left over. */
  function ReadFrames(stream: seq<byte>): Option<seq<seq<byte>>>
    decreases |stream|
  {
    if stream == [] then Some([]) else
    match ReadFrame(stream)
    case Malformed => None
    case Read(payload, rest) =>
      if |rest| >= |stream| then None else
      match ReadFrames(rest)
      case None => None
      case Some(payloads) => Some([payload] + payloads)
  }

  lemma LengthFits(size: nat)
    requires size < TWO_TO_THE_63
    ensures 125 < size <= 0xFFFF ==> Number(BigEndian(size, 2)) == size
    ensures size > 0xFFFF ==> Number(BigEndian(size, 8)) == size
  {
    SmallPowers();
    if 125 < size <= 0xFFFF { NumberOfBigEndian(size, 2); }
    if size > 0xFFFF { NumberOfBigEndian(size, 8); }
  }

  /** Reading a frame gives its payload back, whatever follows. */
  lemma FrameIsRead(payload: seq<byte>, rest: seq<byte>)
    requires |payload| < TWO_TO_THE_63
    ensures ReadFrame(Frame(payload) + rest) == Read(payload, rest)
  {
    hide BigEndian, Number;
    var stream, size := Frame(payload) + rest, |payload|;
    LengthFits(size);
    var start := 1 + |LengthField(size)|;
    assert stream[start..] == payload + rest;
    assert (payload + rest)[..size] == payload && (payload + rest)[size..] == rest;
    if 125 < size <= 0xFFFF {
      assert stream[2..4] == BigEndian(size, 2);
    } else if size > 0xFFFF {
      assert stream[2..10] == BigEndian(size, 8);
    }
  }

  /** A stream cut behind a length of 7, 16 or 64 bits. */
  lemma StreamParts(stream: seq<byte>, width: nat, size: nat)
    requires |stream| >= 2 + width && size <= |stream| - 2 - width
    ensures stream == [stream[0], stream[1]] + stream[2..2 + width] + stream[2 + width..][..size] + stream[2 + width..][size..]
  {
  }

  /** The frame is the only text the reader takes for its payload, so lengths are minimal. */
  lemma OnlyFramesAreRead(stream: seq<byte>)
    requires ReadFrame(stream).Read?
    ensures stream == Frame(ReadFrame(stream).payload) + ReadFrame(stream).rest
    ensures |ReadFrame(stream).payload| < TWO_TO_THE_63
  {
    hide BigEndian, Number;
    SmallPowers();
    var size := |ReadFrame(stream).payload|;
    var width := if stream[1] <= 125 then 0 else if stream[1] == 126 then 2 else 8;
    StreamParts(stream, width, size);
    BigEndianOfNumber(stream[2..2 + width]);
    assert width == 0 ==> [0x81] + LengthField(size) == [stream[0], stream[1]] + stream[2..2 + width];
    assert width == 2 ==> [0x81] + LengthField(size) == [stream[0], stream[1]] + stream[2..2 + width];
    assert width == 8 ==> [0x81] + LengthField(size) == [stream[0], stream[1]] + stream[2..2 + width];
  }

  function Frames(payloads: seq<seq<byte>>): seq<byte> {
    if payloads == [] then [] else Frame(payloads[0]) + Frames(payloads[1..])
  }

  /** A stream of frames is read as exactly the payloads it was built from, with nothing left over. */
  lemma {:induction false} FrameStreamIsRead(payloads: seq<seq<byte>>)
    requires forall i :: 0 <= i < |payloads| ==> |payloads[i]| < TWO_TO_THE_63
    ensures ReadFrames(Frames(payloads)) == Some(payloads)
  {
    if payloads == [] {
    } else {
      FrameIsRead(payloads[0], Frames(payloads[1..]));
      FrameStreamIsRead(payloads[1..]);
      assert payloads == [payloads[0]] + payloads[1..];
      assert |Frame(payloads[0])| > 0;
    }
  }

  /** ... and only a stream of frames is read at all, so the payloads determine the stream. */
  lemma {:induction false} OnlyFrameStreamsAreRead(stream: seq<byte>)
    requires ReadFrames(stream).Some?
    ensures stream == Frames(ReadFrames(stream).value)
    decreases |stream|
  {
    if stream == [] {
    } else {
      hide Frame, ReadFrame;
      OnlyFramesAreRead(stream);
      var payload, rest := ReadFrame(stream).payload, ReadFrame(stream).rest;
      OnlyFrameStreamsAreRead(rest);
      var payloads := ReadFrames(stream).value;
      assert payloads[0] == payload && payloads[1..] == ReadFrames(rest).value;
    }
  }
}
