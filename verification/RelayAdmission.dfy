/** Which input a protocol-4 message gets admitted, frame by frame, and why a message is
    turned away. */
module RelayAdmission {
  import opened Prelude
  import opened RoomTypes
  import opened BigEndian
  import opened FrameClock
  import opened InputSockets
  import opened RelayBuffers
  import opened RelayPipeline
  import opened RelayCursors
  import opened RelayLanes
  import Sbi1 = InputBatchCodec

  // Why a message is turned away

  /** Under a coordinated pause frames count up to the pause frame plus the input delay. */
  predicate LetThrough(c: Clock, frame: U64) {
    c.pauseAtFrame.Some? ==> frame <= c.pauseAtFrame.value + c.inputDelayFrames
  }

  /** The input turns the whole message away: it is another player's, the room is neither playing nor paused, or
      it counts and is more than 240 frames ahead of the canonical frame. */
  predicate TurnsAway(c: Clock, owner: byte, input: InputFrame) {
    || input.playerIndex != owner
    || (c.status != RoomPlaying && c.status != RoomPaused)
    || (LetThrough(c, input.frame) && input.frame > c.roomFrame + 240)
  }

  function ReasonOf(c: Clock, owner: byte, input: InputFrame): RelayError {
    if input.playerIndex != owner then SlotSpoofing(input.playerIndex)
    else if c.status != RoomPlaying && c.status != RoomPaused then NotPlaying
    else FutureFrameTooLarge
  }

  predicate FirstTurnsAway(c: Clock, owner: byte, inputs: seq<InputFrame>, i: nat) {
    && i < |inputs| && TurnsAway(c, owner, inputs[i])
    && forall j :: 0 <= j < i ==> !TurnsAway(c, owner, inputs[j])
  }

  lemma OneTurnsAway(c: Clock, stage: Stage, owner: byte, input: InputFrame)
    ensures AdmitOne(c, stage, owner, input)
         == if TurnsAway(c, owner, input) then Err(ReasonOf(c, owner, input))
            else if LetThrough(c, input.frame) && NextFor(stage, owner, c.syncStartFrame) <= input.frame
            then Ok((Stage(stage.last[owner := input.frame], stage.next[owner := Min(input.frame + 1, U64_MAX)]), true))
            else Ok((stage, false))
  {
  }

  /** A message is turned away exactly by the first of its inputs that does so, and for that input's reason. */
  lemma {:induction false} TurnedAwayExactlyWhen(c: Clock, stage: Stage, owner: byte, inputs: seq<InputFrame>)
    ensures AdmitAll(c, stage, owner, inputs).Ok? <==>
              forall i :: 0 <= i < |inputs| ==> !TurnsAway(c, owner, inputs[i])
    ensures AdmitAll(c, stage, owner, inputs).Err? ==>
              exists i: nat :: && FirstTurnsAway(c, owner, inputs, i)
                          && AdmitAll(c, stage, owner, inputs).error == ReasonOf(c, owner, inputs[i])
    decreases |inputs|
  {
    if inputs != [] {
      var front, last := inputs[..|inputs| - 1], inputs[|inputs| - 1];
      assert forall i :: 0 <= i < |front| ==> front[i] == inputs[i];
      TurnedAwayExactlyWhen(c, stage, owner, front);
      if AdmitAll(c, stage, owner, front).Err? {
        var i: nat :| && FirstTurnsAway(c, owner, front, i)
                 && AdmitAll(c, stage, owner, front).error == ReasonOf(c, owner, front[i]);
        assert FirstTurnsAway(c, owner, inputs, i);
      } else {
        OneTurnsAway(c, AdmitAll(c, stage, owner, front).value.stage, owner, last);
        if TurnsAway(c, owner, last) {
          assert FirstTurnsAway(c, owner, inputs, |inputs| - 1);
        }
      }
    }
  }

  // Which inputs are admitted

  /** The input counts, and is not before the cursor. */
  predicate Counts(c: Clock, cursor: U64, input: InputFrame) {
    LetThrough(c, input.frame) && cursor <= input.frame
  }

  /** The input counts, and its frame is above those of all earlier ones that do. */
  predicate NewHigh(c: Clock, cursor: U64, inputs: seq<InputFrame>, i: nat)
    requires i < |inputs|
  {
    && Counts(c, cursor, inputs[i])
    && forall j :: 0 <= j < i && Counts(c, cursor, inputs[j]) ==> Rising(inputs[j].frame, inputs[i].frame)
  }

  /** The inputs that reach a new high, in order. */
  function NewHighs(c: Clock, cursor: U64, inputs: seq<InputFrame>): seq<InputFrame>
    decreases |inputs|
  {
    if inputs == [] then []
    else
      NewHighs(c, cursor, inputs[..|inputs| - 1])
      + (if NewHigh(c, cursor, inputs, |inputs| - 1) then [inputs[|inputs| - 1]] else [])
  }

  /** The frame is above all inputs that count. */
  predicate Above(c: Clock, cursor: U64, inputs: seq<InputFrame>, x: U64) {
    && cursor <= x
    && forall j :: 0 <= j < |inputs| && Counts(c, cursor, inputs[j]) ==> Rising(inputs[j].frame, x)
  }

  lemma AboveOneMore(c: Clock, cursor: U64, front: seq<InputFrame>, input: InputFrame, x: U64)
    ensures Above(c, cursor, front + [input], x) <==>
              Above(c, cursor, front, x) && (Counts(c, cursor, input) ==> Rising(input.frame, x))
  {
    var all := front + [input];
    assert forall j :: 0 <= j < |front| ==> all[j] == front[j];
    assert all[|front|] == input;
  }

  lemma OneMoves(c: Clock, stage: Stage, owner: byte, input: InputFrame, x: U64)
    requires AdmitOne(c, stage, owner, input).Ok?
    ensures var cursor, one := NextFor(stage, owner, c.syncStartFrame), AdmitOne(c, stage, owner, input).value;
            && (one.1 <==> Counts(c, cursor, input))
            && (NextFor(one.0, owner, c.syncStartFrame) <= x <==>
                  cursor <= x && (Counts(c, cursor, input) ==> Rising(input.frame, x)))
  {
    OneTurnsAway(c, stage, owner, input);
  }

  /** The cursor that a message leaves lets through what is above all of its inputs that count. */
  lemma {:induction false} CursorStandsAbove(c: Clock, stage: Stage, owner: byte, inputs: seq<InputFrame>, x: U64)
    requires AdmitAll(c, stage, owner, inputs).Ok?
    ensures NextFor(AdmitAll(c, stage, owner, inputs).value.stage, owner, c.syncStartFrame) <= x <==>
              Above(c, NextFor(stage, owner, c.syncStartFrame), inputs, x)
    decreases |inputs|
  {
    if inputs != [] {
      var front, last := inputs[..|inputs| - 1], inputs[|inputs| - 1];
      CursorStandsAbove(c, stage, owner, front, x);
      CursorStandsAbove(c, stage, owner, front, last.frame);
      OneMoves(c, AdmitAll(c, stage, owner, front).value.stage, owner, last, x);
      AboveOneMore(c, NextFor(stage, owner, c.syncStartFrame), front, last, x);
      assert front + [last] == inputs;
    }
  }

  /** What a message gets admitted are its inputs that reach a new high, in order. */
  lemma {:induction false} AdmittedAreNewHighs(c: Clock, stage: Stage, owner: byte, inputs: seq<InputFrame>)
    requires AdmitAll(c, stage, owner, inputs).Ok?
    ensures AdmitAll(c, stage, owner, inputs).value.inputs
         == NewHighs(c, NextFor(stage, owner, c.syncStartFrame), inputs)
    decreases |inputs|
  {
    if inputs != [] {
      var front, last := inputs[..|inputs| - 1], inputs[|inputs| - 1];
      var cursor := NextFor(stage, owner, c.syncStartFrame);
      AdmittedAreNewHighs(c, stage, owner, front);
      CursorStandsAbove(c, stage, owner, front, last.frame);
      OneMoves(c, AdmitAll(c, stage, owner, front).value.stage, owner, last, last.frame);
      assert forall j :: 0 <= j < |front| ==> front[j] == inputs[j];
      assert NewHigh(c, cursor, inputs, |inputs| - 1) <==>
               LetThrough(c, last.frame) && Above(c, cursor, front, last.frame);
    }
  }

  // Whole messages

  /** The guards of a message over the batch lane: its epochs, the mode, the socket, and each of its inputs. */
  predicate BatchIsTaken(room: Room, connectionId: ConnectionId, batch: Sbi1.InputFrameBatch) {
    && batch.roomEpoch == room.clock.roomEpoch && batch.sessionEpoch == room.clock.sessionEpoch
    && room.controllerNetplay && OwnerOf(room.clock, connectionId).Some?
    && forall i :: 0 <= i < |batch.frames| ==>
         !TurnsAway(room.clock, OwnerOf(room.clock, connectionId).value, batch.frames[i])
  }

  /** A message is taken exactly under its guards; then it gets admitted what reaches a new high from its player's
      cursor on, and otherwise it changes nothing. */
  lemma BatchIsTakenExactlyWhen(room: Room, connectionId: ConnectionId, batch: Sbi1.InputFrameBatch)
    ensures var r, owner := RelayBatch(room, connectionId, batch), OwnerOf(room.clock, connectionId);
            && (r.1.Ok? <==> BatchIsTaken(room, connectionId, batch))
            && (r.1.Err? ==> r.0 == room && AdmittedInputs(room, connectionId, batch) == [])
            && (r.1.Ok? ==> AdmittedInputs(room, connectionId, batch)
                            == NewHighs(room.clock, CursorOf(room.clock, owner.value), batch.frames))
  {
    var c, owner := room.clock, OwnerOf(room.clock, connectionId);
    if owner.Some? {
      var stage := Stage(c.lastInputFrames, c.nextInputFrames);
      TurnedAwayExactlyWhen(c, stage, owner.value, batch.frames);
      if AdmitAll(c, stage, owner.value, batch.frames).Ok? {
        AdmittedAreNewHighs(c, stage, owner.value, batch.frames);
      }
    }
  }

  /** The reason a refused message is given. */
  lemma BatchRefusals(room: Room, connectionId: ConnectionId, batch: Sbi1.InputFrameBatch)
    requires RelayBatch(room, connectionId, batch).1.Err?
    ensures var e, c, owner := RelayBatch(room, connectionId, batch).1.error, room.clock,
                               OwnerOf(room.clock, connectionId);
            if batch.roomEpoch != c.roomEpoch then e == StaleRoomEpoch
            else if batch.sessionEpoch != c.sessionEpoch then e == StaleSessionEpoch
            else if !room.controllerNetplay then e == NotPlaying
            else if owner.None? then e == UnknownSocket
            else exists i: nat :: FirstTurnsAway(c, owner.value, batch.frames, i)
                             && e == ReasonOf(c, owner.value, batch.frames[i])
  {
    var c, owner := room.clock, OwnerOf(room.clock, connectionId);
    if owner.Some? {
      TurnedAwayExactlyWhen(c, Stage(c.lastInputFrames, c.nextInputFrames), owner.value, batch.frames);
    }
  }

  /** A message over the fast lane is taken exactly when all clients take fast records, all of its records are of
      the current epochs, and nothing in it turns it away; then it gets admitted what reaches a new high. */
  lemma FastIsTakenExactlyWhen(room: Room, supported: bool, connectionId: ConnectionId, records: seq<Record>)
    ensures var (d, chosen) := AcceptFast(room, supported, connectionId, records);
            var c, owner := room.clock, OwnerOf(room.clock, connectionId);
            if && supported && room.controllerNetplay && owner.Some?
               && (forall i :: 0 <= i < |records| ==>
                     && records[i].record.roomEpoch == c.roomEpoch && records[i].record.sessionEpoch == c.sessionEpoch
                     && !TurnsAway(c, owner.value, AsInput(records[i])))
            then AsInputs(chosen) == NewHighs(c, CursorOf(c, owner.value), AsInputs(records))
            else d == c && chosen == []
  {
    var c, owner := room.clock, OwnerOf(room.clock, connectionId);
    if owner.Some? {
      var stage := Stage(c.lastInputFrames, c.nextInputFrames);
      TurnedAwayExactlyWhen(c, stage, owner.value, AsInputs(records));
      if AdmitAll(c, stage, owner.value, AsInputs(records)).Ok? {
        AdmittedAreNewHighs(c, stage, owner.value, AsInputs(records));
        ChosenAreAdmitted(c, stage, owner.value, records);
      }
    }
  }
}
