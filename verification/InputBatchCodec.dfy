/** `SBI1`: one binary message carrying a short batch of controller input frames. */
module InputBatchCodec {
  import opened Prelude
  import opened BigEndian

  const MAX_INPUT_BATCH_FRAMES: nat := 4
  const MAX_INPUT_BATCH_BYTES: nat := 8 * 1024
  const MVP_ROOM_CAPACITY: nat := 2

  const MAGIC: seq<byte> := [0x53, 0x42, 0x49, 0x31]
  const BATCH_TYPE: byte := 1
  const HEADER_BYTES: nat := 23
  const FRAME_HEADER_BYTES: nat := 10

  datatype InputFrame = InputFrame(playerIndex: byte, frame: U64, payload: seq<byte>)

  datatype InputFrameBatch = InputFrameBatch(
    roomEpoch: U64, sessionEpoch: U64, playerIndex: byte, frames: seq<InputFrame>)

  datatype CodecError = Malformed | Unsupported | TooManyFrames | InvalidPlayerIndex | Empty

  // Encoding

  function FrameBytes(frame: InputFrame): seq<byte>
    requires |frame.payload| <= U16_MAX
  {
    WriteU64(frame.frame) + WriteU16(|frame.payload|) + frame.payload
  }

  predicate Encodable(frame: InputFrame, playerIndex: byte) {
    frame.playerIndex == playerIndex && |frame.payload| <= U16_MAX
  }

  predicate AllEncodable(frames: seq<InputFrame>, playerIndex: byte) {
    forall i :: 0 <= i < |frames| ==> Encodable(frames[i], playerIndex)
  }

  function FramesBytes(frames: seq<InputFrame>, playerIndex: byte): seq<byte>
    requires AllEncodable(frames, playerIndex)
  {
    if frames == [] then [] else FrameBytes(frames[0]) + FramesBytes(frames[1..], playerIndex)
  }

  function Header(batch: InputFrameBatch): (r: seq<byte>)
    requires |batch.frames| <= MAX_INPUT_BATCH_FRAMES
    ensures |r| == HEADER_BYTES
  {
    MAGIC + [BATCH_TYPE] + WriteU64(batch.roomEpoch) + WriteU64(batch.sessionEpoch)
    + [batch.playerIndex] + [|batch.frames|]
  }

  function Encode(batch: InputFrameBatch): Result<seq<byte>, CodecError> {
    if batch.frames == [] then Err(Empty)
    else if |batch.frames| > MAX_INPUT_BATCH_FRAMES then Err(TooManyFrames)
    else if !AllEncodable(batch.frames, batch.playerIndex) then Err(Malformed)
    else
      var bytes := Header(batch) + FramesBytes(batch.frames, batch.playerIndex);
      if |bytes| > MAX_INPUT_BATCH_BYTES then Err(Malformed) else Ok(bytes)
  }

  lemma AppendStep(sofar: seq<byte>, frames: seq<InputFrame>, i: nat, playerIndex: byte)
    requires i < |frames| && AllEncodable(frames, playerIndex)
    ensures sofar + FramesBytes(frames[i..], playerIndex)
         == sofar + WriteU64(frames[i].frame) + WriteU16(|frames[i].payload|) + frames[i].payload
            + FramesBytes(frames[i + 1..], playerIndex)
  {
    assert frames[i..][1..] == frames[i + 1..];
  }

  method EncodeInputFrameBatch(batch: InputFrameBatch) returns (r: Result<seq<byte>, CodecError>)
    ensures r == Encode(batch)
  {
    if batch.frames == [] {
      return Err(Empty);
    }
    if |batch.frames| > MAX_INPUT_BATCH_FRAMES {
      return Err(TooManyFrames);
    }
    var payload: seq<byte> := MAGIC;
    payload := payload + [BATCH_TYPE];
    payload := payload + WriteU64(batch.roomEpoch);
    payload := payload + WriteU64(batch.sessionEpoch);
    payload := payload + [batch.playerIndex];
    payload := payload + [|batch.frames|];
    var i := 0;
    while i < |batch.frames|
      invariant i <= |batch.frames|
      invariant AllEncodable(batch.frames[..i], batch.playerIndex)
      invariant AllEncodable(batch.frames, batch.playerIndex) ==>
                  payload + FramesBytes(batch.frames[i..], batch.playerIndex)
                  == Header(batch) + FramesBytes(batch.frames, batch.playerIndex)
    {
      var frame := batch.frames[i];
      if !Encodable(frame, batch.playerIndex) {
        return Err(Malformed);
      }
      if AllEncodable(batch.frames, batch.playerIndex) {
        AppendStep(payload, batch.frames, i, batch.playerIndex);
      }
      payload := payload + WriteU64(frame.frame);
      payload := payload + WriteU16(|frame.payload|);
      payload := payload + frame.payload;
      i := i + 1;
    }
    assert batch.frames[..i] == batch.frames && batch.frames[i..] == [];
    assert payload == Header(batch) + FramesBytes(batch.frames, batch.playerIndex);
    if |payload| > MAX_INPUT_BATCH_BYTES {
      return Err(Malformed);
    }
    r := Ok(payload);
  }

  // Decoding

  /** Whether a whole frame is present at an offset. */
  predicate FrameFits(bytes: seq<byte>, offset: nat) {
    && offset + FRAME_HEADER_BYTES <= |bytes|
    && offset + FRAME_HEADER_BYTES + U16At(bytes, offset + 8) <= |bytes|
  }

  function FrameEnd(bytes: seq<byte>, offset: nat): (end: nat)
    requires FrameFits(bytes, offset)
    ensures offset < end <= |bytes|
  {
    offset + FRAME_HEADER_BYTES + U16At(bytes, offset + 8)
  }

  function FrameAt(bytes: seq<byte>, offset: nat, playerIndex: byte): InputFrame
    requires FrameFits(bytes, offset)
  {
    InputFrame(playerIndex, U64At(bytes, offset), bytes[offset + FRAME_HEADER_BYTES..FrameEnd(bytes, offset)])
  }

  /** `count` frames from an offset, ending exactly at the end of the message. */
  function DecodeFrames(bytes: seq<byte>, offset: nat, count: nat, playerIndex: byte)
    : Result<seq<InputFrame>, CodecError>
    requires offset <= |bytes|
    decreases count
  {
    if count == 0 then if offset == |bytes| then Ok([]) else Err(Malformed)
    else if !FrameFits(bytes, offset) then Err(Malformed)
    else Prepend([FrameAt(bytes, offset, playerIndex)],
                 DecodeFrames(bytes, FrameEnd(bytes, offset), count - 1, playerIndex))
  }

  /** Frames already read, in front of the rest of the reading. */
  function Prepend<T>(done: seq<T>, rest: Result<seq<T>, CodecError>): Result<seq<T>, CodecError> {
    match rest
    case Err(e) => Err(e)
    case Ok(frames) => Ok(done + frames)
  }

  lemma PrependTwice<T>(done: seq<T>, next: T, rest: Result<seq<T>, CodecError>)
    ensures Prepend(done, Prepend([next], rest)) == Prepend(done + [next], rest)
  {
    if rest.Ok? {
      assert done + ([next] + rest.value) == done + [next] + rest.value;
    }
  }

  lemma PrependNothing<T>(rest: Result<seq<T>, CodecError>)
    ensures Prepend([], rest) == rest
  {
    if rest.Ok? {
      assert [] + rest.value == rest.value;
    }
  }

  lemma PrependEnd<T>(done: seq<T>)
    ensures Prepend(done, Ok([])) == Ok(done)
  {
    assert done + [] == done;
  }

  function Decode(bytes: seq<byte>): Result<InputFrameBatch, CodecError> {
    if |bytes| > MAX_INPUT_BATCH_BYTES || |bytes| < HEADER_BYTES then Err(Malformed)
    else if bytes[..4] != MAGIC || bytes[4] != BATCH_TYPE then Err(Unsupported)
    else if bytes[21] >= MVP_ROOM_CAPACITY then Err(InvalidPlayerIndex)
    else if bytes[22] == 0 then Err(Empty)
    else if bytes[22] > MAX_INPUT_BATCH_FRAMES then Err(TooManyFrames)
    else
      match DecodeFrames(bytes, HEADER_BYTES, bytes[22], bytes[21])
      case Err(e) => Err(e)
      case Ok(frames) => Ok(InputFrameBatch(U64At(bytes, 5), U64At(bytes, 13), bytes[21], frames))
  }

  /** The frame loop of the decoder. */
  method ReadFrames(payload: seq<byte>, start: nat, count: nat, playerIndex: byte)
    returns (r: Result<seq<InputFrame>, CodecError>)
    requires start <= |payload|
    ensures r == DecodeFrames(payload, start, count, playerIndex)
  {
    var offset: nat, frames: seq<InputFrame>, i: nat := start, [], 0;
    ghost var goal := DecodeFrames(payload, start, count, playerIndex);
    ghost var rest := goal;
    PrependNothing(rest);
    while i < count
      invariant i <= count && offset <= |payload|
      invariant rest == DecodeFrames(payload, offset, count - i, playerIndex)
      invariant goal == Prepend(frames, rest)
    {
      if |payload| - offset < FRAME_HEADER_BYTES {
        return Err(Malformed);
      }
      ghost var from := offset;
      var frame := U64At(payload, offset);
      offset := offset + 8;
      var payloadLen: nat := U16At(payload, offset);
      offset := offset + 2;
      if |payload| - offset < payloadLen {
        return Err(Malformed);
      }
      var input := InputFrame(playerIndex, frame, payload[offset..offset + payloadLen]);
      assert input == FrameAt(payload, from, playerIndex);
      offset := offset + payloadLen;
      rest := DecodeFrames(payload, offset, count - i - 1, playerIndex);
      PrependTwice(frames, input, rest);
      frames := frames + [input];
      i := i + 1;
    }
    PrependEnd(frames);
    if offset != |payload| {
      return Err(Malformed);
    }
    r := Ok(frames);
  }

  method DecodeInputFrameBatch(payload: seq<byte>) returns (r: Result<InputFrameBatch, CodecError>)
    ensures r == Decode(payload)
  {
    if |payload| > MAX_INPUT_BATCH_BYTES || |payload| < HEADER_BYTES {
      return Err(Malformed);
    }
    if payload[..4] != MAGIC || payload[4] != BATCH_TYPE {
      return Err(Unsupported);
    }
    var roomEpoch := U64At(payload, 5);
    var sessionEpoch := U64At(payload, 13);
    if payload[21] >= MVP_ROOM_CAPACITY {
      return Err(InvalidPlayerIndex);
    }
    var playerIndex, frameCount := payload[21], payload[22];
    if frameCount == 0 {
      return Err(Empty);
    }
    if frameCount > MAX_INPUT_BATCH_FRAMES {
      return Err(TooManyFrames);
    }
    var frames := ReadFrames(payload, HEADER_BYTES, frameCount, playerIndex);
    if frames.Err? {
      return Err(frames.error);
    }
    r := Ok(InputFrameBatch(roomEpoch, sessionEpoch, playerIndex, frames.value));
  }

  // The decoder undoes the encoder

  lemma WrittenFrame(before: seq<byte>, frame: InputFrame, after: seq<byte>)
    requires |frame.payload| <= U16_MAX
    ensures var bytes := before + FrameBytes(frame) + after;
            && FrameFits(bytes, |before|)
            && FrameEnd(bytes, |before|) == |before| + |FrameBytes(frame)|
            && FrameAt(bytes, |before|, frame.playerIndex) == frame
  {
    var bytes, o := before + FrameBytes(frame) + after, |before|;
    assert bytes[o..o + 8] == WriteU64(frame.frame);
    assert bytes[o + 8..o + 10] == WriteU16(|frame.payload|);
    assert bytes[o + 10..o + 10 + |frame.payload|] == frame.payload;
  }

  lemma {:induction false} DecodeWritten(before: seq<byte>, frames: seq<InputFrame>, playerIndex: byte)
    requires AllEncodable(frames, playerIndex)
    ensures DecodeFrames(before + FramesBytes(frames, playerIndex), |before|, |frames|, playerIndex) == Ok(frames)
    decreases |frames|
  {
    if frames != [] {
      var frame, later := frames[0], FramesBytes(frames[1..], playerIndex);
      var next := before + FrameBytes(frame);
      assert Encodable(frame, playerIndex);
      WrittenFrame(before, frame, later);
      assert before + FramesBytes(frames, playerIndex) == next + later;
      DecodeWritten(next, frames[1..], playerIndex);
      assert [frame] + frames[1..] == frames;
    }
  }

  lemma HeaderFields(batch: InputFrameBatch, rest: seq<byte>)
    requires |batch.frames| <= MAX_INPUT_BATCH_FRAMES
    ensures var bytes := Header(batch) + rest;
            && bytes[..4] == MAGIC && bytes[4] == BATCH_TYPE
            && U64At(bytes, 5) == batch.roomEpoch && U64At(bytes, 13) == batch.sessionEpoch
            && bytes[21] == batch.playerIndex && bytes[22] == |batch.frames|
  {
    var bytes := Header(batch) + rest;
    assert bytes[5..13] == WriteU64(batch.roomEpoch);
    assert bytes[13..21] == WriteU64(batch.sessionEpoch);
  }

  /** Whatever the encoder produces decodes to the very batch it was given; only a player index outside
      the room, which the encoder does not look at, is turned away. */
  lemma DecodeUndoesEncode(batch: InputFrameBatch)
    requires Encode(batch).Ok?
    ensures Decode(Encode(batch).value) == if batch.playerIndex < MVP_ROOM_CAPACITY
                                           then Ok(batch) else Err(InvalidPlayerIndex)
  {
    HeaderFields(batch, FramesBytes(batch.frames, batch.playerIndex));
    DecodeWritten(Header(batch), batch.frames, batch.playerIndex);
  }

  // The encoder undoes the decoder

  lemma RebuiltFrame(bytes: seq<byte>, offset: nat, playerIndex: byte)
    requires FrameFits(bytes, offset)
    ensures Encodable(FrameAt(bytes, offset, playerIndex), playerIndex)
    ensures FrameBytes(FrameAt(bytes, offset, playerIndex)) == bytes[offset..FrameEnd(bytes, offset)]
  {
    var end := FrameEnd(bytes, offset);
    RewriteU64(bytes[offset..offset + 8]);
    RewriteU16(bytes[offset + 8..offset + 10]);
    assert bytes[offset..end] == bytes[offset..offset + 8] + bytes[offset + 8..offset + 10] + bytes[offset + 10..end];
  }

  lemma FramesBytesCons(frame: InputFrame, frames: seq<InputFrame>, playerIndex: byte)
    requires Encodable(frame, playerIndex) && AllEncodable(frames, playerIndex)
    ensures AllEncodable([frame] + frames, playerIndex)
    ensures FramesBytes([frame] + frames, playerIndex) == FrameBytes(frame) + FramesBytes(frames, playerIndex)
  {
    assert ([frame] + frames)[1..] == frames;
  }

  lemma {:induction false} WriteDecoded(bytes: seq<byte>, offset: nat, count: nat, playerIndex: byte)
    requires offset <= |bytes| && DecodeFrames(bytes, offset, count, playerIndex).Ok?
    ensures var frames := DecodeFrames(bytes, offset, count, playerIndex).value;
            && |frames| == count && AllEncodable(frames, playerIndex)
            && FramesBytes(frames, playerIndex) == bytes[offset..]
    decreases count
  {
    if count > 0 {
      var end := FrameEnd(bytes, offset);
      WriteDecoded(bytes, end, count - 1, playerIndex);
      RebuiltFrame(bytes, offset, playerIndex);
      FramesBytesCons(FrameAt(bytes, offset, playerIndex),
                      DecodeFrames(bytes, end, count - 1, playerIndex).value, playerIndex);
      assert bytes[offset..] == bytes[offset..end] + bytes[end..];
    }
  }

  lemma RebuiltHeader(bytes: seq<byte>, batch: InputFrameBatch)
    requires |bytes| >= HEADER_BYTES && bytes[..4] == MAGIC && bytes[4] == BATCH_TYPE
    requires batch.roomEpoch == U64At(bytes, 5) && batch.sessionEpoch == U64At(bytes, 13)
    requires batch.playerIndex == bytes[21] && |batch.frames| == bytes[22] <= MAX_INPUT_BATCH_FRAMES
    ensures Header(batch) == bytes[..HEADER_BYTES]
  {
    RewriteU64(bytes[5..13]);
    RewriteU64(bytes[13..21]);
  }

  /** Every accepted message is exactly what encoding its batch gives: the wire form is canonical. */
  lemma EncodeUndoesDecode(bytes: seq<byte>)
    requires Decode(bytes).Ok?
    ensures Encode(Decode(bytes).value) == Ok(bytes)
    ensures Decode(bytes).value.playerIndex < MVP_ROOM_CAPACITY
  {
    var batch := Decode(bytes).value;
    WriteDecoded(bytes, HEADER_BYTES, bytes[22], bytes[21]);
    RebuiltHeader(bytes, batch);
    assert bytes == bytes[..HEADER_BYTES] + bytes[HEADER_BYTES..];
  }
}
