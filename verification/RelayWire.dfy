/** What the relay sends can be sent: when every batch it puts out fits the wire form and
    reads back as itself. */
module RelayWire {
  import opened Prelude
  import opened RoomTypes
  import opened BigEndian
  import opened FrameClock
  import opened InputSockets
  import opened RelayBuffers
  import opened RelayPipeline
  import opened RelayCursors
  import opened RelayQueues
  import Sbi1 = InputBatchCodec

  // The wire form

  /** The batch encodes, and decodes to itself. */
  predicate Travels(batch: Sbi1.InputFrameBatch) {
    Sbi1.Encode(batch).Ok? && Sbi1.Decode(Sbi1.Encode(batch).value) == Ok(batch)
  }

  predicate AllTravel(batches: seq<BufferedBatch>) {
    forall k :: 0 <= k < |batches| ==> Travels(batches[k].batch)
  }

  predicate AllSingle(batches: seq<BufferedBatch>) {
    forall k :: 0 <= k < |batches| ==> |batches[k].batch.frames| == 1
  }

  /** An input that fits a message of its own. */
  predicate Sendable(input: InputFrame) {
    && input.playerIndex < Sbi1.MVP_ROOM_CAPACITY
    && Sbi1.HEADER_BYTES + Sbi1.FRAME_HEADER_BYTES + |input.payload| <= Sbi1.MAX_INPUT_BATCH_BYTES
  }

  predicate AllSendable(inputs: seq<InputFrame>) {
    forall i :: 0 <= i < |inputs| ==> Sendable(inputs[i])
  }

  lemma {:induction false} FramesBytesHoldEach(frames: seq<InputFrame>, playerIndex: byte, i: nat)
    requires Sbi1.AllEncodable(frames, playerIndex) && i < |frames|
    ensures |Sbi1.FramesBytes(frames, playerIndex)|
            >= Sbi1.FRAME_HEADER_BYTES + |frames[i].payload| + if |frames| > 1 then Sbi1.FRAME_HEADER_BYTES else 0
    decreases |frames|
  {
    if i > 0 {
      FramesBytesHoldEach(frames[1..], playerIndex, i - 1);
    } else if |frames| > 1 {
      FramesBytesHoldEach(frames[1..], playerIndex, 0);
    }
  }

  /** Whatever was read off the wire could go back on it, frame by frame. */
  lemma DecodedAreSendable(bytes: seq<byte>)
    requires Sbi1.Decode(bytes).Ok?
    ensures AllSendable(Sbi1.Decode(bytes).value.frames)
  {
    var batch := Sbi1.Decode(bytes).value;
    Sbi1.EncodeUndoesDecode(bytes);
    forall i | 0 <= i < |batch.frames| ensures Sendable(batch.frames[i]) {
      assert Sbi1.Encodable(batch.frames[i], batch.playerIndex);
      FramesBytesHoldEach(batch.frames, batch.playerIndex, i);
    }
  }

  /** A batch of one input travels if the input is sendable. */
  lemma OneInputTravels(batch: Sbi1.InputFrameBatch)
    requires |batch.frames| == 1 && Sendable(batch.frames[0]) && batch.frames[0].playerIndex == batch.playerIndex
    ensures Travels(batch)
  {
    assert Sbi1.AllEncodable(batch.frames, batch.playerIndex);
    assert batch.frames[1..] == [];
    assert Sbi1.FramesBytes(batch.frames, batch.playerIndex) == Sbi1.FrameBytes(batch.frames[0]);
    Sbi1.DecodeUndoesEncode(batch);
  }

  // Runs whose messages came off the wire

  ghost predicate OffTheWire(event: Event) {
    event.InputBatch? ==> exists bytes: seq<byte> :: Sbi1.Decode(bytes) == Ok(event.batch)
  }

  ghost predicate AllOffTheWire(events: seq<Event>) {
    forall i :: 0 <= i < |events| ==> OffTheWire(events[i])
  }

  lemma {:induction false} AdmittedAreGiven(c: Clock, stage: Stage, owner: byte, inputs: seq<InputFrame>)
    requires AdmitAll(c, stage, owner, inputs).Ok? && AllSendable(inputs)
    ensures AllSendable(AdmitAll(c, stage, owner, inputs).value.inputs)
    decreases |inputs|
  {
    if inputs != [] {
      assert forall i :: 0 <= i < |inputs| - 1 ==> inputs[..|inputs| - 1][i] == inputs[i];
      AdmittedAreGiven(c, stage, owner, inputs[..|inputs| - 1]);
    }
  }

  lemma EventAdmitsSendable(room: Room, connectionId: ConnectionId, batch: Sbi1.InputFrameBatch)
    requires OffTheWire(InputBatch(connectionId, batch))
    ensures AllSendable(AdmittedInputs(room, connectionId, batch))
  {
    var bytes: seq<byte> :| Sbi1.Decode(bytes) == Ok(batch);
    DecodedAreSendable(bytes);
    var c, owner := room.clock, OwnerOf(room.clock, connectionId);
    if owner.Some? {
      var stage := Stage(c.lastInputFrames, c.nextInputFrames);
      if AdmitAll(c, stage, owner.value, batch.frames).Ok? {
        AdmittedAreGiven(c, stage, owner.value, batch.frames);
      }
    }
  }

  predicate ItemsSendable(items: seq<BufferedInput>) {
    forall i :: 0 <= i < |items| ==> Sendable(items[i].body)
  }

  lemma {:induction false} AdmittedStaySendable(j: Journal, events: seq<Event>)
    requires j.admitted == [] && AllOffTheWire(events)
    ensures ItemsSendable(Play(j, events).admitted)
    decreases |events|
  {
    if events != [] {
      var front, last := events[..|events| - 1], events[|events| - 1];
      assert forall i :: 0 <= i < |front| ==> front[i] == events[i];
      AdmittedStaySendable(j, front);
      if last.InputBatch? {
        EventAdmitsSendable(Play(j, front).room, last.connectionId, last.batch);
      }
    }
  }

  // Messages relayed at once

  lemma {:induction false} RelayedTravel(c: Clock, held: Held<InputFrame>, source: ConnectionId,
                                         inputs: seq<InputFrame>)
    requires AllSendable(inputs)
    ensures var sent := RelayAll(c, Relayed(held, []), source, inputs).batches; AllTravel(sent) && AllSingle(sent)
    decreases |inputs|
  {
    if inputs != [] {
      var front, last := inputs[..|inputs| - 1], inputs[|inputs| - 1];
      assert forall i :: 0 <= i < |front| ==> front[i] == inputs[i];
      RelayedTravel(c, held, source, front);
      OneInputTravels(SingleBatch(c, source, last).batch);
    }
  }

  lemma MessageTravels(room: Room, connectionId: ConnectionId, batch: Sbi1.InputFrameBatch)
    requires room == Synchronized(room) && OffTheWire(InputBatch(connectionId, batch))
    ensures var sent := SentBy(room, InputBatch(connectionId, batch)); AllTravel(sent) && AllSingle(sent)
  {
    EventAdmitsSendable(room, connectionId, batch);
    if RelayBatch(room, connectionId, batch).1.Ok? {
      BatchResult(room, connectionId, batch);
      RelayedTravel(RelayBatch(room, connectionId, batch).0.clock, room.held, connectionId,
                    AdmittedInputs(room, connectionId, batch));
    }
  }

  // Batches of a released frame

  /** The batch of one socket and player. */
  function BatchOf(c: Clock, items: seq<BufferedInput>, key: BatchKey): Sbi1.InputFrameBatch {
    Sbi1.InputFrameBatch(c.roomEpoch, c.sessionEpoch, key.playerIndex, InputsOf(items, key))
  }

  /** The batches are those of the sockets and players that have inputs, and no others. */
  lemma GroupsAreBatches(c: Clock, items: seq<BufferedInput>, k: nat)
    requires SameEpochs(items, c.roomEpoch, c.sessionEpoch) && k < |Grouped(items)|
    ensures var key := BatchKeyOf(Grouped(items)[k]);
            && Grouped(items)[k].batch == BatchOf(c, items, key) && InputsOf(items, key) != []
            && OwnedBy(InputsOf(items, key), key.playerIndex)
  {
    GroupingIsRight(items, c.roomEpoch, c.sessionEpoch);
    assert BatchIsRight(Grouped(items), k, items, c.roomEpoch, c.sessionEpoch);
  }

  lemma InputsHaveBatch(c: Clock, items: seq<BufferedInput>, key: BatchKey)
    requires SameEpochs(items, c.roomEpoch, c.sessionEpoch) && InputsOf(items, key) != []
    ensures exists k :: 0 <= k < |Grouped(items)| && Grouped(items)[k].batch == BatchOf(c, items, key)
  {
    GroupingIsRight(items, c.roomEpoch, c.sessionEpoch);
    NoInputsWithoutKey(items, key);
    var k :| 0 <= k < |Keys(items)| && Keys(items)[k] == key;
    GroupsAreBatches(c, items, k);
  }

  /** What a session may find in the buffer of a socket and player, for a frame that it can release: a batch that
      travels, if the socket no longer speaks for the player. */
  predicate LeftFits(j: Journal, frame: U64, key: BatchKey) {
    var left := HeldAt(j.room.held, frame);
    j.room.clock.syncStartFrame <= frame < U64_MAX && InputsOf(left, key) != [] ==>
      Travels(BatchOf(j.room.clock, left, key)) && !Seated(j.room.clock, key)
  }

  ghost predicate LeftTravels(j: Journal) {
    forall frame: U64, key: BatchKey :: LeftFits(j, frame, key)
  }

  /** At most one input of each socket and player is left for a frame. */
  ghost predicate LeftSingle(j: Journal) {
    forall f, key: BatchKey :: f in j.room.held ==> |InputsOf(j.room.held[f], key)| <= 1
  }

  lemma LeftIsKnown(j: Journal, frame: U64, key: BatchKey)
    requires Restarted(j) && InputsOf(HeldAt(j.room.held, frame), key) != []
    ensures key.source in j.sockets
  {
    var left := HeldAt(j.room.held, frame);
    InputsHaveItem(left, key);
    var i :| 0 <= i < |left| && KeyOf(left[i]) == key;
    assert j.room.held[frame][i].source in j.sockets;
  }

  /** The next frame to release is not before the session's start, and the epochs are the session's. */
  lemma NextFrame(j: Journal, events: seq<Event>)
    requires Restarted(j) && Lawful(j, events)
    ensures var c := Play(j, events).room.clock;
            && j.room.clock.syncStartFrame <= c.nextReleaseFrame
            && c.roomEpoch == j.room.clock.roomEpoch && c.sessionEpoch == j.room.clock.sessionEpoch
  {
    PlayStaysSound(j, events, AnyInput(j.room.clock));
    PlayStaysInReach(j, events);
  }

  /** A socket and player with input left over, in a buffer as above, gets none admitted. */
  lemma LeftIsAlone(j: Journal, events: seq<Event>, frame: U64, key: BatchKey)
    requires Restarted(j) && LeftTravels(j) && Lawful(j, events)
    requires j.room.clock.syncStartFrame <= frame < U64_MAX && InputsOf(HeldAt(j.room.held, frame), key) != []
    ensures InputsOf(At(Play(j, events).admitted, frame), key) == []
    ensures Travels(BatchOf(j.room.clock, HeldAt(j.room.held, frame), key))
  {
    LeftIsKnown(j, frame, key);
    assert LeftFits(j, frame, key);
    GoneStaysGone(j, events, key);
    PlayStaysKeyOrderly(j, events);
    NoInputsOf(Play(j, events).admitted, frame, key);
  }

  lemma AdmittedIsSendable(j: Journal, events: seq<Event>, frame: U64, key: BatchKey)
    requires Restarted(j) && Lawful(j, events) && AllOffTheWire(events) && frame < U64_MAX
    ensures var inputs := InputsOf(At(Play(j, events).admitted, frame), key);
            inputs == [] || (|inputs| == 1 && Sendable(inputs[0]))
  {
    PlayStaysKeyOrderly(j, events);
    OneAtFrame(Play(j, events).admitted, frame, key);
    AdmittedStaySendable(j, events);
  }

  lemma PartTravels(c: Clock, d: Clock, left: seq<BufferedInput>, news: seq<BufferedInput>, key: BatchKey)
    requires d.roomEpoch == c.roomEpoch && d.sessionEpoch == c.sessionEpoch && InputsOf(left + news, key) != []
    requires InputsOf(left, key) != [] ==> InputsOf(news, key) == [] && Travels(BatchOf(c, left, key))
    requires InputsOf(news, key) == [] || (|InputsOf(news, key)| == 1 && Sendable(InputsOf(news, key)[0]))
    ensures Travels(BatchOf(d, left + news, key))
    ensures |InputsOf(left, key)| <= 1 ==> |InputsOf(left + news, key)| == 1
  {
    InputsSplit(left, news, key);
    if InputsOf(left, key) != [] {
      assert InputsOf(left + news, key) == InputsOf(left, key);
      assert BatchOf(d, left + news, key) == BatchOf(c, left, key);
    } else {
      assert InputsOf(left + news, key) == InputsOf(news, key);
      InputsAreOwned(news, key);
      OneInputTravels(BatchOf(d, left + news, key));
    }
  }

  lemma ReleasedBatchTravels(j: Journal, events: seq<Event>, key: BatchKey)
    requires Restarted(j) && LeftTravels(j) && Lawful(j, events) && AllOffTheWire(events)
    requires Play(j, events).room.clock.nextReleaseFrame < U64_MAX && InputsOf(Queue(j, events), key) != []
    ensures Travels(BatchOf(Play(j, events).room.clock, Queue(j, events), key))
    ensures LeftSingle(j) ==> |InputsOf(Queue(j, events), key)| == 1
  {
    var c := Play(j, events).room.clock;
    var left, news := HeldAt(j.room.held, c.nextReleaseFrame), At(Play(j, events).admitted, c.nextReleaseFrame);
    NextFrame(j, events);
    if InputsOf(left, key) != [] {
      LeftIsAlone(j, events, c.nextReleaseFrame, key);
    }
    AdmittedIsSendable(j, events, c.nextReleaseFrame, key);
    PartTravels(j.room.clock, c, left, news, key);
  }

  lemma ReleaseTravels(j: Journal, events: seq<Event>, t: nat)
    requires Restarted(j) && LeftTravels(j) && Lawful(j, events) && AllOffTheWire(events)
    requires Play(j, events).room.clock.nextReleaseFrame < U64_MAX
    ensures var sent := SentBy(Play(j, events).room, ClockTick(t));
            AllTravel(sent) && (LeftSingle(j) ==> AllSingle(sent))
  {
    ReleaseSendsQueue(j, events, t);
    var c, sent := Play(j, events).room.clock, SentBy(Play(j, events).room, ClockTick(t));
    forall k | 0 <= k < |sent| ensures Travels(sent[k].batch) && (LeftSingle(j) ==> |sent[k].batch.frames| == 1) {
      GroupsAreBatches(c, Queue(j, events), k);
      ReleasedBatchTravels(j, events, BatchKeyOf(sent[k]));
    }
  }

  predicate BelowCeiling(j: Journal, event: Event) {
    event.ClockTick? ==> j.room.clock.nextReleaseFrame < U64_MAX
  }

  /** In a session whose messages come off the wire, and whose buffer is as `LeftTravels` says: every batch that
      goes out, at once or with a released frame below the 64-bit ceiling, fits the wire form and decodes to
      itself, and holds one input if at most one was left per socket, player and frame. */
  lemma EveryBatchTravels(j: Journal, events: seq<Event>, event: Event)
    requires Restarted(j) && LeftTravels(j) && Lawful(j, events)
    requires AllOffTheWire(events) && OffTheWire(event) && BelowCeiling(Play(j, events), event)
    ensures AllTravel(SentBy(Play(j, events).room, event))
    ensures LeftSingle(j) ==> AllSingle(SentBy(Play(j, events).room, event))
  {
    match event
    case InputBatch(connectionId, batch) =>
      PlayStaysSynchronized(j, events);
      MessageTravels(Play(j, events).room, connectionId, batch);
    case ClockTick(t) => ReleaseTravels(j, events, t);
    case _ =>
  }
}
