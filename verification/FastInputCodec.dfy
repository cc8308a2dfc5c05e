/** `SBI2`: self-contained input records, one to four to a message, that the
    relay validates and then forwards byte for byte. */
module FastInputCodec {
  import opened Prelude
  import opened BigEndian
  import Limits = InputBatchCodec

  type CodecError = Limits.CodecError

  const MAGIC: seq<byte> := [0x53, 0x42, 0x49, 0x32]
  const RECORD_TYPE: byte := 2
  const HEADER_BYTES: nat := 32

  /** The fields of one record. */
  datatype Record = Record(roomEpoch: U64, sessionEpoch: U64, playerIndex: byte, frame: U64, payload: seq<byte>)

  /** A decoded record together with the bytes it came from. */
  datatype FastInputFrame = FastInputFrame(record: Record, encoded: seq<byte>)

  // Encoding

  function RecordBytes(record: Record): (r: seq<byte>)
    requires |record.payload| <= U16_MAX
    ensures |r| == HEADER_BYTES + |record.payload|
  {
    MAGIC + [RECORD_TYPE] + WriteU64(record.roomEpoch) + WriteU64(record.sessionEpoch) + [record.playerIndex]
    + WriteU64(record.frame) + WriteU16(|record.payload|) + record.payload
  }

  function Encode(record: Record): Result<seq<byte>, CodecError> {
    if |record.payload| > U16_MAX then Err(Limits.Malformed)
    else if |RecordBytes(record)| > Limits.MAX_INPUT_BATCH_BYTES then Err(Limits.Malformed)
    else Ok(RecordBytes(record))
  }

  method EncodeFastInputFrame(record: Record) returns (r: Result<seq<byte>, CodecError>)
    ensures r == Encode(record)
  {
    if |record.payload| > U16_MAX {
      return Err(Limits.Malformed);
    }
    var payload: seq<byte> := MAGIC;
    payload := payload + [RECORD_TYPE];
    payload := payload + WriteU64(record.roomEpoch);
    payload := payload + WriteU64(record.sessionEpoch);
    payload := payload + [record.playerIndex];
    payload := payload + WriteU64(record.frame);
    payload := payload + WriteU16(|record.payload|);
    payload := payload + record.payload;
    if |payload| > Limits.MAX_INPUT_BATCH_BYTES {
      return Err(Limits.Malformed);
    }
    r := Ok(payload);
  }

  // Decoding

  /** Why the record at an offset is refused, if it is; `taken` records came before. */
  function Problem(bytes: seq<byte>, offset: nat, taken: nat): Option<CodecError>
    requires offset <= |bytes|
  {
    if |bytes| - offset < HEADER_BYTES then Some(Limits.Malformed)
    else if bytes[offset..offset + 4] != MAGIC || bytes[offset + 4] != RECORD_TYPE then Some(Limits.Unsupported)
    else if taken >= Limits.MAX_INPUT_BATCH_FRAMES then Some(Limits.TooManyFrames)
    else if bytes[offset + 21] >= Limits.MVP_ROOM_CAPACITY then Some(Limits.InvalidPlayerIndex)
    else if |bytes| - offset - HEADER_BYTES < U16At(bytes, offset + 30) then Some(Limits.Malformed)
    else None
  }

  predicate RecordFits(bytes: seq<byte>, offset: nat) {
    && offset + HEADER_BYTES <= |bytes|
    && offset + HEADER_BYTES + U16At(bytes, offset + 30) <= |bytes|
  }

  function RecordEnd(bytes: seq<byte>, offset: nat): (end: nat)
    requires RecordFits(bytes, offset)
    ensures offset < end <= |bytes|
  {
    offset + HEADER_BYTES + U16At(bytes, offset + 30)
  }

  function RecordAt(bytes: seq<byte>, offset: nat): Record
    requires RecordFits(bytes, offset)
  {
    Record(U64At(bytes, offset + 5), U64At(bytes, offset + 13), bytes[offset + 21], U64At(bytes, offset + 22),
           bytes[offset + HEADER_BYTES..RecordEnd(bytes, offset)])
  }

  function FrameAt(bytes: seq<byte>, offset: nat): FastInputFrame
    requires RecordFits(bytes, offset)
  {
    FastInputFrame(RecordAt(bytes, offset), bytes[offset..RecordEnd(bytes, offset)])
  }

  /** Records from an offset to the end of the message; `taken` records came before. */
  function DecodeRecords(bytes: seq<byte>, offset: nat, taken: nat): Result<seq<FastInputFrame>, CodecError>
    requires offset <= |bytes|
    decreases |bytes| - offset
  {
    if offset == |bytes| then Ok([])
    else match Problem(bytes, offset, taken)
      case Some(e) => Err(e)
      case None =>
        Limits.Prepend([FrameAt(bytes, offset)], DecodeRecords(bytes, RecordEnd(bytes, offset), taken + 1))
  }

  function Decode(bytes: seq<byte>): Result<seq<FastInputFrame>, CodecError> {
    if |bytes| > Limits.MAX_INPUT_BATCH_BYTES then Err(Limits.Malformed)
    else if bytes == [] then Err(Limits.Empty)
    else DecodeRecords(bytes, 0, 0)
  }

  method DecodeFastInputBatch(payload: seq<byte>) returns (r: Result<seq<FastInputFrame>, CodecError>)
    ensures r == Decode(payload)
  {
    if |payload| > Limits.MAX_INPUT_BATCH_BYTES {
      return Err(Limits.Malformed);
    }
    var offset: nat, frames: seq<FastInputFrame> := 0, [];
    ghost var goal := DecodeRecords(payload, 0, 0);
    ghost var rest := goal;
    Limits.PrependNothing(rest);
    while offset < |payload|
      invariant offset <= |payload|
      invariant rest == DecodeRecords(payload, offset, |frames|)
      invariant goal == Limits.Prepend(frames, rest)
      invariant frames == [] <==> offset == 0
    {
      if |payload| - offset < HEADER_BYTES {
        return Err(Limits.Malformed);
      }
      if payload[offset..offset + 4] != MAGIC || payload[offset + 4] != RECORD_TYPE {
        return Err(Limits.Unsupported);
      }
      if |frames| >= Limits.MAX_INPUT_BATCH_FRAMES {
        return Err(Limits.TooManyFrames);
      }
      var recordStart := offset;
      var roomEpoch := U64At(payload, offset + 5);
      var sessionEpoch := U64At(payload, offset + 13);
      var playerIndex := payload[offset + 21];
      if playerIndex >= Limits.MVP_ROOM_CAPACITY {
        return Err(Limits.InvalidPlayerIndex);
      }
      var frame := U64At(payload, offset + 22);
      var payloadLen: nat := U16At(payload, offset + 30);
      offset := offset + HEADER_BYTES;
      if |payload| - offset < payloadLen {
        return Err(Limits.Malformed);
      }
      var payloadEnd := offset + payloadLen;
      var input := FastInputFrame(
        Record(roomEpoch, sessionEpoch, playerIndex, frame, payload[offset..payloadEnd]),
        payload[recordStart..payloadEnd]);
      assert input == FrameAt(payload, recordStart);
      offset := payloadEnd;
      rest := DecodeRecords(payload, offset, |frames| + 1);
      Limits.PrependTwice(frames, input, rest);
      frames := frames + [input];
    }
    Limits.PrependEnd(frames);
    if frames == [] {
      return Err(Limits.Empty);
    }
    r := Ok(frames);
  }

  // Encoding and decoding undo each other

  /** A frame whose bytes are the encoding of its fields, for a player of the room. */
  predicate Faithful(frame: FastInputFrame) {
    Encode(frame.record) == Ok(frame.encoded) && frame.record.playerIndex < Limits.MVP_ROOM_CAPACITY
  }

  predicate AllFaithful(frames: seq<FastInputFrame>) {
    forall i :: 0 <= i < |frames| ==> Faithful(frames[i])
  }

  /** The message a client builds: its records one after another. */
  function Concatenated(frames: seq<FastInputFrame>): seq<byte> {
    if frames == [] then [] else frames[0].encoded + Concatenated(frames[1..])
  }

  /** The fields of an encoded record stand at their offsets. */
  lemma EncodedFields(record: Record)
    requires |record.payload| <= U16_MAX
    ensures var bytes := RecordBytes(record);
            && bytes[..4] == MAGIC && bytes[4] == RECORD_TYPE && bytes[21] == record.playerIndex
            && bytes[5..13] == WriteU64(record.roomEpoch) && bytes[13..21] == WriteU64(record.sessionEpoch)
            && bytes[22..30] == WriteU64(record.frame) && bytes[30..32] == WriteU16(|record.payload|)
            && bytes[HEADER_BYTES..] == record.payload
  {
  }

  lemma Nested(bytes: seq<byte>, offset: nat, end: nat, from: nat, to: nat)
    requires offset <= end <= |bytes| && from <= to <= end - offset
    ensures bytes[offset..end][from..to] == bytes[offset + from..offset + to]
  {
    var inner, outer := bytes[offset..end][from..to], bytes[offset + from..offset + to];
    assert |inner| == |outer|;
    assert forall i :: 0 <= i < |inner| ==> inner[i] == outer[i];
  }

  lemma WrittenRecord(bytes: seq<byte>, o: nat, end: nat, frame: FastInputFrame)
    requires Faithful(frame) && o <= end <= |bytes| && bytes[o..end] == frame.encoded
    ensures WellFormedAt(bytes, o) && RecordEnd(bytes, o) == end && FrameAt(bytes, o) == frame
  {
    EncodedFields(frame.record);
    Nested(bytes, o, end, 0, 4);
    Nested(bytes, o, end, 5, 13);
    Nested(bytes, o, end, 13, 21);
    Nested(bytes, o, end, 22, 30);
    Nested(bytes, o, end, 30, 32);
    Nested(bytes, o, end, HEADER_BYTES, end - o);
    assert bytes[o + 4] == bytes[o..end][4] && bytes[o + 21] == bytes[o..end][21];
  }

  /** A well-formed record for a player of the room stands at an offset. */
  predicate WellFormedAt(bytes: seq<byte>, o: nat) {
    && RecordFits(bytes, o)
    && bytes[o..o + 4] == MAGIC && bytes[o + 4] == RECORD_TYPE && bytes[o + 21] < Limits.MVP_ROOM_CAPACITY
  }

  /** The message holds exactly these frames from an offset on. */
  predicate Laid(bytes: seq<byte>, o: nat, frames: seq<FastInputFrame>)
    decreases |frames|
  {
    if frames == [] then o == |bytes|
    else WellFormedAt(bytes, o) && FrameAt(bytes, o) == frames[0] && Laid(bytes, RecordEnd(bytes, o), frames[1..])
  }

  lemma {:induction false} LaidDecodes(bytes: seq<byte>, o: nat, frames: seq<FastInputFrame>, taken: nat)
    requires o <= |bytes| && Laid(bytes, o, frames)
    ensures DecodeRecords(bytes, o, taken)
         == if taken + |frames| <= Limits.MAX_INPUT_BATCH_FRAMES || frames == []
            then Ok(frames) else Err(Limits.TooManyFrames)
    decreases |frames|
  {
    if frames != [] {
      LaidDecodes(bytes, RecordEnd(bytes, o), frames[1..], taken + 1);
      assert [frames[0]] + frames[1..] == frames;
    }
  }

  lemma FirstOf(bytes: seq<byte>, o: nat, frames: seq<FastInputFrame>)
    requires AllFaithful(frames) && frames != []
    requires o <= |bytes| && bytes[o..] == Concatenated(frames)
    ensures AllFaithful(frames[1..]) && Faithful(frames[0])
    ensures var end := o + |frames[0].encoded|;
            && end <= |bytes| && bytes[o..end] == frames[0].encoded
            && bytes[end..] == Concatenated(frames[1..])
  {
    var first, later := frames[0].encoded, Concatenated(frames[1..]);
    assert bytes[o..] == first + later;
    Nested(bytes, o, |bytes|, 0, |first|);
    Nested(bytes, o, |bytes|, |first|, |bytes| - o);
    assert (first + later)[..|first|] == first && (first + later)[|first|..] == later;
  }

  lemma {:induction false} ConcatenatedIsLaid(bytes: seq<byte>, o: nat, frames: seq<FastInputFrame>)
    requires AllFaithful(frames)
    requires o <= |bytes| && bytes[o..] == Concatenated(frames)
    ensures Laid(bytes, o, frames)
    decreases |frames|
  {
    if frames == [] {
      assert |bytes[o..]| == 0;
    } else {
      FirstOf(bytes, o, frames);
      var end := o + |frames[0].encoded|;
      WrittenRecord(bytes, o, end, frames[0]);
      ConcatenatedIsLaid(bytes, end, frames[1..]);
    }
  }

  /** A message of records decodes to exactly those records, each with its own bytes: unless there are
      none of them, more than four, or more than 8 KiB. */
  lemma DecodeUndoesConcatenation(frames: seq<FastInputFrame>)
    requires AllFaithful(frames)
    ensures Decode(Concatenated(frames))
         == if |Concatenated(frames)| > Limits.MAX_INPUT_BATCH_BYTES then Err(Limits.Malformed)
            else if frames == [] then Err(Limits.Empty)
            else if |frames| > Limits.MAX_INPUT_BATCH_FRAMES then Err(Limits.TooManyFrames)
            else Ok(frames)
  {
    var bytes := Concatenated(frames);
    assert bytes[0..] == bytes;
    ConcatenatedIsLaid(bytes, 0, frames);
    LaidDecodes(bytes, 0, frames, 0);
    if frames != [] {
      FirstOf(bytes, 0, frames);
    }
  }

  lemma Grow(bytes: seq<byte>, from: nat, mid: nat, to: nat)
    requires from <= mid <= to <= |bytes|
    ensures bytes[from..mid] + bytes[mid..to] == bytes[from..to]
  {
  }

  lemma RebuiltRecord(bytes: seq<byte>, o: nat)
    requires RecordFits(bytes, o) && bytes[o..o + 4] == MAGIC && bytes[o + 4] == RECORD_TYPE
    ensures RecordBytes(RecordAt(bytes, o)) == bytes[o..RecordEnd(bytes, o)]
  {
    var end := RecordEnd(bytes, o);
    RewriteU64(bytes[o + 5..o + 13]);
    RewriteU64(bytes[o + 13..o + 21]);
    RewriteU64(bytes[o + 22..o + 30]);
    RewriteU16(bytes[o + 30..o + 32]);
    assert [bytes[o + 4]] == bytes[o + 4..o + 5] && [bytes[o + 21]] == bytes[o + 21..o + 22];
    Grow(bytes, o, o + 4, o + 5);
    Grow(bytes, o, o + 5, o + 13);
    Grow(bytes, o, o + 13, o + 21);
    Grow(bytes, o, o + 21, o + 22);
    Grow(bytes, o, o + 22, o + 30);
    Grow(bytes, o, o + 30, o + 32);
    Grow(bytes, o, o + 32, end);
  }

  lemma ConcatenatedCons(first: FastInputFrame, frames: seq<FastInputFrame>)
    requires Faithful(first) && AllFaithful(frames)
    ensures AllFaithful([first] + frames)
    ensures Concatenated([first] + frames) == first.encoded + Concatenated(frames)
  {
    assert ([first] + frames)[1..] == frames;
  }

  lemma {:induction false} DecodedAreFaithful(bytes: seq<byte>, offset: nat, taken: nat)
    requires offset <= |bytes| <= Limits.MAX_INPUT_BATCH_BYTES
    requires DecodeRecords(bytes, offset, taken).Ok? && taken <= Limits.MAX_INPUT_BATCH_FRAMES
    ensures var frames := DecodeRecords(bytes, offset, taken).value;
            && Concatenated(frames) == bytes[offset..]
            && taken + |frames| <= Limits.MAX_INPUT_BATCH_FRAMES
            && AllFaithful(frames)
    decreases |bytes| - offset
  {
    if offset < |bytes| {
      var end := RecordEnd(bytes, offset);
      DecodedAreFaithful(bytes, end, taken + 1);
      RebuiltRecord(bytes, offset);
      ConcatenatedCons(FrameAt(bytes, offset), DecodeRecords(bytes, end, taken + 1).value);
      Grow(bytes, offset, end, |bytes|);
    }
  }

  /** For every accepted message, the forwarded bytes put together are the received bytes, and each
      record's bytes are exactly the encoding of its fields. */
  lemma ForwardedBytesAreReceivedBytes(bytes: seq<byte>)
    requires Decode(bytes).Ok?
    ensures Concatenated(Decode(bytes).value) == bytes
    ensures 1 <= |Decode(bytes).value| <= Limits.MAX_INPUT_BATCH_FRAMES
    ensures AllFaithful(Decode(bytes).value)
  {
    DecodedAreFaithful(bytes, 0, 0);
    assert bytes[0..] == bytes;
  }
}
