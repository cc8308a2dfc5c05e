/** The two binary input messages byte by byte. */
module WireLayout {
  import opened Prelude
  import opened BigEndian
  import Sbi1 = InputBatchCodec
  import Sbi2 = FastInputCodec

  /** The `width` bytes at an offset spell the number, the most significant byte first. */
  ghost predicate Spells(bytes: seq<byte>, offset: nat, width: nat, n: nat) {
    && offset + width <= |bytes|
    && forall i: nat :: i < width ==> bytes[offset + i] == BigByte(n, width, i)
  }

  lemma WrittenSpells(bytes: seq<byte>, offset: nat, width: nat, n: nat)
    requires offset + width <= |bytes| && bytes[offset..offset + width] == ToBytes(n, width)
    ensures Spells(bytes, offset, width, n)
  {
    forall i: nat | i < width ensures bytes[offset + i] == BigByte(n, width, i) {
      BytesAreBigEndian(n, width, i);
      assert bytes[offset + i] == bytes[offset..offset + width][i];
    }
  }

  // SBI1

  /** Where the frame at a position starts: after 23 bytes of header, each frame takes ten bytes and its payload. */
  function FrameOffset(frames: seq<Sbi1.InputFrame>, i: nat): nat
    requires i <= |frames|
  {
    if i == 0 then 23 else FrameOffset(frames, i - 1) + 10 + |frames[i - 1].payload|
  }

  lemma {:induction false} OffsetSkipsFirst(frames: seq<Sbi1.InputFrame>, i: nat)
    requires 0 < i <= |frames|
    ensures FrameOffset(frames, i) == FrameOffset(frames[1..], i - 1) + 10 + |frames[0].payload|
    decreases i
  {
    if i > 1 {
      OffsetSkipsFirst(frames, i - 1);
    }
  }

  lemma {:induction false} FramesBytesSplit(frames: seq<Sbi1.InputFrame>, p: byte, i: nat)
    returns (before: seq<byte>, after: seq<byte>)
    requires Sbi1.AllEncodable(frames, p) && i < |frames|
    ensures Sbi1.FramesBytes(frames, p) == before + Sbi1.FrameBytes(frames[i]) + after
    ensures 23 + |before| == FrameOffset(frames, i)
    decreases |frames|
  {
    if i == 0 {
      before, after := [], Sbi1.FramesBytes(frames[1..], p);
      assert [] + Sbi1.FrameBytes(frames[0]) == Sbi1.FrameBytes(frames[0]);
    } else {
      var front, rest := FramesBytesSplit(frames[1..], p, i - 1);
      OffsetSkipsFirst(frames, i);
      before, after := Sbi1.FrameBytes(frames[0]) + front, rest;
      assert Sbi1.FrameBytes(frames[0]) + (front + Sbi1.FrameBytes(frames[i]) + rest)
          == Sbi1.FrameBytes(frames[0]) + front + Sbi1.FrameBytes(frames[i]) + rest;
    }
  }

  lemma {:induction false} FramesBytesLength(frames: seq<Sbi1.InputFrame>, p: byte)
    requires Sbi1.AllEncodable(frames, p)
    ensures 23 + |Sbi1.FramesBytes(frames, p)| == FrameOffset(frames, |frames|)
    decreases |frames|
  {
    if frames != [] {
      FramesBytesLength(frames[1..], p);
      OffsetSkipsFirst(frames, |frames|);
    }
  }

  /** A frame of a message: its number in eight bytes, the payload length in two, and the payload. */
  ghost predicate FrameSpelled(bytes: seq<byte>, o: nat, frame: Sbi1.InputFrame) {
    && o + 10 + |frame.payload| <= |bytes|
    && Spells(bytes, o, 8, frame.frame) && Spells(bytes, o + 8, 2, |frame.payload|)
    && bytes[o + 10..o + 10 + |frame.payload|] == frame.payload
  }

  lemma FrameLayout(bytes: seq<byte>, head: seq<byte>, frame: Sbi1.InputFrame, tail: seq<byte>)
    requires |frame.payload| <= U16_MAX && bytes == head + Sbi1.FrameBytes(frame) + tail
    ensures FrameSpelled(bytes, |head|, frame)
  {
    var o := |head|;
    assert bytes[o..o + 8] == WriteU64(frame.frame);
    assert bytes[o + 8..o + 10] == WriteU16(|frame.payload|);
    WrittenSpells(bytes, o, 8, frame.frame);
    WrittenSpells(bytes, o + 8, 2, |frame.payload|);
  }

  /** The header: "SBI1", type 1, both epochs, the player index and the frame count. */
  ghost predicate HeaderSpelled(bytes: seq<byte>, batch: Sbi1.InputFrameBatch) {
    && |bytes| >= 23 && bytes[..5] == [0x53, 0x42, 0x49, 0x31, 1]
    && Spells(bytes, 5, 8, batch.roomEpoch) && Spells(bytes, 13, 8, batch.sessionEpoch)
    && bytes[21] == batch.playerIndex && bytes[22] == |batch.frames|
  }

  lemma HeaderLayout(batch: Sbi1.InputFrameBatch, rest: seq<byte>)
    requires |batch.frames| <= 4
    ensures HeaderSpelled(Sbi1.Header(batch) + rest, batch)
  {
    var bytes := Sbi1.Header(batch) + rest;
    assert bytes[5..13] == WriteU64(batch.roomEpoch);
    assert bytes[13..21] == WriteU64(batch.sessionEpoch);
    WrittenSpells(bytes, 5, 8, batch.roomEpoch);
    WrittenSpells(bytes, 13, 8, batch.sessionEpoch);
  }

  lemma FrameInside(header: seq<byte>, before: seq<byte>, frame: Sbi1.InputFrame, after: seq<byte>)
    requires |frame.payload| <= U16_MAX
    ensures FrameSpelled(header + (before + Sbi1.FrameBytes(frame) + after), |header| + |before|, frame)
  {
    var bytes := Sbi1.FrameBytes(frame);
    assert header + (before + bytes + after) == (header + before) + bytes + after;
    FrameLayout(header + (before + bytes + after), header + before, frame, after);
  }

  /** An encoded batch, byte by byte: the header, and the frames one after another. */
  lemma BatchLayout(batch: Sbi1.InputFrameBatch, i: nat)
    requires Sbi1.Encode(batch).Ok? && i < |batch.frames|
    ensures var bytes := Sbi1.Encode(batch).value;
            && |bytes| == FrameOffset(batch.frames, |batch.frames|) && HeaderSpelled(bytes, batch)
            && FrameSpelled(bytes, FrameOffset(batch.frames, i), batch.frames[i])
  {
    var frames := Sbi1.FramesBytes(batch.frames, batch.playerIndex);
    FramesBytesLength(batch.frames, batch.playerIndex);
    HeaderLayout(batch, frames);
    var before, after := FramesBytesSplit(batch.frames, batch.playerIndex, i);
    assert Sbi1.Encodable(batch.frames[i], batch.playerIndex);
    FrameInside(Sbi1.Header(batch), before, batch.frames[i], after);
  }

  lemma {:induction false} PayloadsAreShorter(frames: seq<Sbi1.InputFrame>, i: nat, n: nat)
    requires i < n <= |frames|
    ensures FrameOffset(frames, n) >= 33 + |frames[i].payload|
    decreases n
  {
    if i < n - 1 {
      PayloadsAreShorter(frames, i, n - 1);
    } else {
      OffsetsAreLarge(frames, i);
    }
  }

  lemma {:induction false} OffsetsAreLarge(frames: seq<Sbi1.InputFrame>, i: nat)
    requires i <= |frames|
    ensures FrameOffset(frames, i) >= 23
    decreases i
  {
    if i > 0 {
      OffsetsAreLarge(frames, i - 1);
    }
  }

  /** A batch has a wire form exactly when it holds one to four frames, all of its own player, in at most 8192
      bytes; the refusal says what is wrong. */
  lemma EncodesExactlyWhen(batch: Sbi1.InputFrameBatch)
    ensures var n, r := |batch.frames|, Sbi1.Encode(batch);
            && (r.Ok? <==> && 1 <= n <= 4 && FrameOffset(batch.frames, n) <= 8192
                           && forall i :: 0 <= i < n ==> batch.frames[i].playerIndex == batch.playerIndex)
            && (r.Err? ==> r.error == if n == 0 then Sbi1.Empty
                                      else if n > 4 then Sbi1.TooManyFrames else Sbi1.Malformed)
  {
    var n := |batch.frames|;
    if Sbi1.AllEncodable(batch.frames, batch.playerIndex) {
      FramesBytesLength(batch.frames, batch.playerIndex);
      assert forall i :: 0 <= i < n ==> Sbi1.Encodable(batch.frames[i], batch.playerIndex);
    } else if FrameOffset(batch.frames, n) <= 8192 {
      var i :| 0 <= i < n && !Sbi1.Encodable(batch.frames[i], batch.playerIndex);
      PayloadsAreShorter(batch.frames, i, n);
    }
  }

  /** A message is accepted exactly when it is the wire form of a batch for one of the room's two players. */
  lemma DecodesExactlyWhen(bytes: seq<byte>)
    ensures Sbi1.Decode(bytes).Ok? <==>
              exists batch: Sbi1.InputFrameBatch :: Sbi1.Encode(batch) == Ok(bytes) && batch.playerIndex < 2
  {
    if Sbi1.Decode(bytes).Ok? {
      Sbi1.EncodeUndoesDecode(bytes);
    }
    if batch: Sbi1.InputFrameBatch :| Sbi1.Encode(batch) == Ok(bytes) && batch.playerIndex < 2 {
      Sbi1.DecodeUndoesEncode(batch);
    }
  }

  /** The first thing wrong with a message: its length, its first five bytes, the player index, the frame count,
      or what follows. */
  lemma DecodeRefusals(bytes: seq<byte>)
    requires Sbi1.Decode(bytes).Err?
    ensures Sbi1.Decode(bytes).error
         == if |bytes| > 8192 || |bytes| < 23 then Sbi1.Malformed
            else if bytes[..5] != [0x53, 0x42, 0x49, 0x31, 1] then Sbi1.Unsupported
            else if bytes[21] >= 2 then Sbi1.InvalidPlayerIndex
            else if bytes[22] == 0 then Sbi1.Empty
            else if bytes[22] > 4 then Sbi1.TooManyFrames
            else Sbi1.Malformed
  {
    if 23 <= |bytes| <= 8192 {
      assert bytes[..5] == bytes[..4] + [bytes[4]];
      FramesAreMalformed(bytes, 23, bytes[22], bytes[21]);
    }
  }

  lemma {:induction false} FramesAreMalformed(bytes: seq<byte>, offset: nat, count: nat, p: byte)
    requires offset <= |bytes|
    ensures Sbi1.DecodeFrames(bytes, offset, count, p).Err? ==>
              Sbi1.DecodeFrames(bytes, offset, count, p).error == Sbi1.Malformed
    decreases count
  {
    if count > 0 && Sbi1.FrameFits(bytes, offset) {
      FramesAreMalformed(bytes, Sbi1.FrameEnd(bytes, offset), count - 1, p);
    }
  }

  // SBI2

  /** An encoded record, byte by byte: "SBI2", type 2, both epochs, the player index, the frame number, the payload
      length and the payload; it is refused exactly when that takes more than 8192 bytes. */
  lemma RecordLayout(record: Sbi2.Record)
    ensures Sbi2.Encode(record).Ok? <==> 32 + |record.payload| <= 8192
    ensures Sbi2.Encode(record).Ok? ==>
              var bytes := Sbi2.Encode(record).value;
              && |bytes| == 32 + |record.payload| && bytes[..5] == [0x53, 0x42, 0x49, 0x32, 2]
              && Spells(bytes, 5, 8, record.roomEpoch) && Spells(bytes, 13, 8, record.sessionEpoch)
              && bytes[21] == record.playerIndex
              && Spells(bytes, 22, 8, record.frame) && Spells(bytes, 30, 2, |record.payload|)
              && bytes[32..] == record.payload
  {
    if Sbi2.Encode(record).Ok? {
      var bytes := Sbi2.Encode(record).value;
      Sbi2.EncodedFields(record);
      assert bytes[..5] == bytes[..4] + [bytes[4]];
      WrittenSpells(bytes, 5, 8, record.roomEpoch);
      WrittenSpells(bytes, 13, 8, record.sessionEpoch);
      WrittenSpells(bytes, 22, 8, record.frame);
      WrittenSpells(bytes, 30, 2, |record.payload|);
    }
  }

  /** No good record stands at the start of these bytes, or four have been read already. */
  predicate BadTail(tail: seq<byte>, taken: nat) {
    tail != [] &&
    (|| |tail| < 32 || tail[..5] != [0x53, 0x42, 0x49, 0x32, 2] || taken == 4 || tail[21] >= 2
     || |tail| - 32 < U16At(tail, 30))
  }

  function TailError(tail: seq<byte>, taken: nat): Sbi1.CodecError {
    if |tail| < 32 then Sbi1.Malformed
    else if tail[..5] != [0x53, 0x42, 0x49, 0x32, 2] then Sbi1.Unsupported
    else if taken == 4 then Sbi1.TooManyFrames
    else if tail[21] >= 2 then Sbi1.InvalidPlayerIndex
    else Sbi1.Malformed
  }

  /** The first thing wrong with what stands after some good records: it is too short, does not begin with "SBI2" and
      type 2, is a fifth record, is for no player of the room, or is cut off. */
  lemma FastRefusals(frames: seq<Sbi2.FastInputFrame>, tail: seq<byte>)
    requires Sbi2.AllFaithful(frames) && |Sbi2.Concatenated(frames) + tail| <= 8192
    requires |frames| <= 4 && BadTail(tail, |frames|)
    ensures Sbi2.Decode(Sbi2.Concatenated(frames) + tail) == Err(TailError(tail, |frames|))
  {
    var head := Sbi2.Concatenated(frames);
    HeadIsLaid(frames, tail);
    TailStands(head, tail, |frames|);
    RefusedAfter(head + tail, |frames|, |head|, TailError(tail, |frames|));
  }

  lemma HeadIsLaid(frames: seq<Sbi2.FastInputFrame>, tail: seq<byte>)
    requires Sbi2.AllFaithful(frames)
    ensures Chain(Sbi2.Concatenated(frames) + tail, 0, |frames|, |Sbi2.Concatenated(frames)|)
  {
    var head := Sbi2.Concatenated(frames);
    assert head[0..] == head;
    Sbi2.ConcatenatedIsLaid(head, 0, frames);
    LongerKeepsRecords(head, tail, 0, frames);
  }

  lemma TailStands(head: seq<byte>, tail: seq<byte>, taken: nat)
    requires taken <= 4 && BadTail(tail, taken)
    ensures Sbi2.DecodeRecords(head + tail, |head|, taken) == Err(TailError(tail, taken))
  {
    assert (head + tail)[|head|..] == tail;
    TailIsRefused(head + tail, |head|, tail, taken);
  }

  lemma RefusedAfter(bytes: seq<byte>, n: nat, end: nat, e: Sbi1.CodecError)
    requires 0 < |bytes| <= 8192 && end <= |bytes| && n <= 4 && Chain(bytes, 0, n, end)
    requires Sbi2.DecodeRecords(bytes, end, n) == Err(e)
    ensures Sbi2.Decode(bytes) == Err(e)
  {
    ChainIsRead(bytes, 0, n, end, 0, e);
  }

  lemma TailIsRefused(bytes: seq<byte>, o: nat, tail: seq<byte>, taken: nat)
    requires o < |bytes| && bytes[o..] == tail && taken <= 4 && BadTail(tail, taken)
    ensures Sbi2.DecodeRecords(bytes, o, taken) == Err(TailError(tail, taken))
  {
    assert |tail| == |bytes| - o;
    if |tail| >= 32 {
      assert bytes[o..o + 4] == tail[..4];
      assert bytes[o + 30..o + 32] == tail[30..32];
      assert tail[..5] == tail[..4] + [tail[4]];
      assert bytes[o + 4] == tail[4] && bytes[o + 21] == tail[21];
      assert [0x53, 0x42, 0x49, 0x32, 2] == Sbi2.MAGIC + [2];
      assert U16At(bytes, o + 30) == U16At(tail, 30);
    }
  }

  lemma SameSlice(head: seq<byte>, tail: seq<byte>, from: nat, to: nat)
    requires from <= to <= |head|
    ensures (head + tail)[from..to] == head[from..to]
  {
  }

  /** A good record stays one when more bytes follow. */
  lemma LongerKeepsRecord(head: seq<byte>, tail: seq<byte>, o: nat)
    requires Sbi2.WellFormedAt(head, o)
    ensures Sbi2.WellFormedAt(head + tail, o) && Sbi2.RecordEnd(head + tail, o) == Sbi2.RecordEnd(head, o)
  {
    SameSlice(head, tail, o, o + 4);
    SameSlice(head, tail, o + 30, o + 32);
  }

  lemma ReadOne(bytes: seq<byte>, o: nat, taken: nat)
    requires Sbi2.WellFormedAt(bytes, o) && taken < 4
    ensures Sbi2.DecodeRecords(bytes, o, taken)
         == Sbi1.Prepend([Sbi2.FrameAt(bytes, o)], Sbi2.DecodeRecords(bytes, Sbi2.RecordEnd(bytes, o), taken + 1))
  {
  }

  /** So many good records stand one after another between the two offsets. */
  predicate Chain(bytes: seq<byte>, o: nat, n: nat, end: nat)
    decreases n
  {
    if n == 0 then o == end
    else Sbi2.WellFormedAt(bytes, o) && Chain(bytes, Sbi2.RecordEnd(bytes, o), n - 1, end)
  }

  lemma PassesOn(bytes: seq<byte>, o: nat, taken: nat, e: Sbi1.CodecError)
    requires Sbi2.WellFormedAt(bytes, o) && taken < 4
    requires Sbi2.DecodeRecords(bytes, Sbi2.RecordEnd(bytes, o), taken + 1) == Err(e)
    ensures Sbi2.DecodeRecords(bytes, o, taken) == Err(e)
  {
    ReadOne(bytes, o, taken);
  }

  lemma {:induction false} ChainIsRead(bytes: seq<byte>, o: nat, n: nat, end: nat, taken: nat, e: Sbi1.CodecError)
    requires o <= |bytes| && end <= |bytes| && Chain(bytes, o, n, end) && taken + n <= 4
    requires Sbi2.DecodeRecords(bytes, end, taken + n) == Err(e)
    ensures Sbi2.DecodeRecords(bytes, o, taken) == Err(e)
    decreases n
  {
    if n > 0 {
      ChainIsRead(bytes, Sbi2.RecordEnd(bytes, o), n - 1, end, taken + 1, e);
      PassesOn(bytes, o, taken, e);
    }
  }

  lemma {:induction false} LongerKeepsRecords(head: seq<byte>, tail: seq<byte>, o: nat,
                                              frames: seq<Sbi2.FastInputFrame>)
    requires Sbi2.Laid(head, o, frames)
    ensures Chain(head + tail, o, |frames|, |head|)
    decreases |frames|
  {
    if frames != [] {
      LongerKeepsRecord(head, tail, o);
      LongerKeepsRecords(head, tail, Sbi2.RecordEnd(head, o), frames[1..]);
    }
  }
}
