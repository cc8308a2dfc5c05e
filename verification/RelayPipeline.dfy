/** From accepted input to broadcast: cursors admit each player's frames in
    order, the release buffer holds what is ahead of the canonical frame, and the
    frame clock lets it out. */
module RelayPipeline {
  import opened Prelude
  import opened RoomTypes
  import opened BigEndian
  import opened FrameClock
  import opened InputSockets
  import opened RelayBuffers
  import Sbi1 = InputBatchCodec

  type InputFrame = Sbi1.InputFrame

  const MAX_FUTURE_FRAME_DISTANCE: nat := 240

  datatype RelayError =
    | NotPlaying | UnknownSocket | SlotSpoofing(playerIndex: byte) | FutureFrameTooLarge
    | StaleRoomEpoch | StaleSessionEpoch

  // Admission of input

  /** Input cursors staged while a message is examined. */
  datatype Stage = Stage(last: map<PlayerIndex, U64>, next: map<PlayerIndex, U64>)

  function NextFor(stage: Stage, playerIndex: PlayerIndex, syncStartFrame: U64): U64 {
    if playerIndex in stage.next then stage.next[playerIndex] else syncStartFrame
  }

  /** A coordinated pause lets input through up to its frame plus the input delay. */
  predicate PauseLetsThrough(c: Clock, frame: U64) {
    c.pauseAtFrame.Some? ==> frame <= Min(c.pauseAtFrame.value + c.inputDelayFrames, U64_MAX)
  }

  /** One frame: refused with the whole message, ignored, or admitted. */
  function AdmitOne(c: Clock, stage: Stage, owner: byte, input: InputFrame): Result<(Stage, bool), RelayError> {
    if owner != input.playerIndex then Err(SlotSpoofing(input.playerIndex))
    else if c.status != RoomPlaying && c.status != RoomPaused then Err(NotPlaying)
    else if !PauseLetsThrough(c, input.frame) then Ok((stage, false))
    else if input.frame > c.roomFrame + MAX_FUTURE_FRAME_DISTANCE then Err(FutureFrameTooLarge)
    else if input.frame < NextFor(stage, owner, c.syncStartFrame) then Ok((stage, false))
    else Ok((Stage(stage.last[owner := input.frame], stage.next[owner := Min(input.frame + 1, U64_MAX)]), true))
  }

  datatype Admission = Admission(stage: Stage, inputs: seq<InputFrame>)

  function AdmitAll(c: Clock, stage: Stage, owner: byte, inputs: seq<InputFrame>): Result<Admission, RelayError>
    decreases |inputs|
  {
    if inputs == [] then Ok(Admission(stage, []))
    else
      match AdmitAll(c, stage, owner, inputs[..|inputs| - 1])
      case Err(e) => Err(e)
      case Ok(sofar) =>
        match AdmitOne(c, sofar.stage, owner, inputs[|inputs| - 1])
        case Err(e) => Err(e)
        case Ok((after, relayed)) =>
          Ok(Admission(after, if relayed then sofar.inputs + [inputs[|inputs| - 1]] else sofar.inputs))
  }

  lemma {:induction false} RefusalSticks(c: Clock, stage: Stage, owner: byte, inputs: seq<InputFrame>, i: nat)
    requires i <= |inputs| && AdmitAll(c, stage, owner, inputs[..i]).Err?
    ensures AdmitAll(c, stage, owner, inputs) == AdmitAll(c, stage, owner, inputs[..i])
    decreases |inputs| - i
  {
    if i == |inputs| {
      assert inputs[..i] == inputs;
    } else {
      assert inputs[..i + 1][..i] == inputs[..i];
      RefusalSticks(c, stage, owner, inputs, i + 1);
    }
  }

  /** A whole message: the cursors it leaves and the inputs to relay, or a refusal that moves nothing. */
  function AcceptCursors(controllerNetplay: bool, c: Clock, connectionId: ConnectionId, inputs: seq<InputFrame>)
    : (Clock, Result<seq<InputFrame>, RelayError>)
  {
    var owner := OwnerOf(c, connectionId);
    if !controllerNetplay then (c, Err(NotPlaying))
    else if owner.None? then (c, Err(UnknownSocket))
    else
      match AdmitAll(c, Stage(c.lastInputFrames, c.nextInputFrames), owner.value, inputs)
      case Err(e) => (c, Err(e))
      case Ok(admission) =>
        (c.(lastInputFrames := admission.stage.last, nextInputFrames := admission.stage.next), Ok(admission.inputs))
  }

  method AcceptInputFrameCursors(room: FrameClockRoom, controllerNetplay: bool, connectionId: ConnectionId,
                                 inputs: seq<InputFrame>)
    returns (r: Result<seq<InputFrame>, RelayError>)
    modifies room`lastInputFrames, room`nextInputFrames
    ensures (room.Value(), r) == AcceptCursors(controllerNetplay, old(room.Value()), connectionId, inputs)
  {
    if !controllerNetplay {
      return Err(NotPlaying);
    }
    var c := room.Value();
    var owner := OwnerOf(c, connectionId);
    if owner.None? {
      return Err(UnknownSocket);
    }
    ghost var start := Stage(c.lastInputFrames, c.nextInputFrames);
    var stage, admitted, i := Stage(room.lastInputFrames, room.nextInputFrames), [], 0;
    while i < |inputs|
      invariant i <= |inputs|
      invariant AdmitAll(c, start, owner.value, inputs[..i]) == Ok(Admission(stage, admitted))
    {
      assert inputs[..i + 1][..i] == inputs[..i];
      var one := AdmitOne(c, stage, owner.value, inputs[i]);
      if one.Err? {
        RefusalSticks(c, start, owner.value, inputs, i + 1);
        return Err(one.error);
      }
      if one.value.1 {
        admitted := admitted + [inputs[i]];
      }
      stage := one.value.0;
      i := i + 1;
    }
    assert inputs[..i] == inputs;
    room.lastInputFrames, room.nextInputFrames := stage.last, stage.next;
    r := Ok(admitted);
  }

  // Relay of admitted input

  function ItemOf(c: Clock, source: ConnectionId, input: InputFrame): BufferedInput {
    Buffered(source, c.roomEpoch, c.sessionEpoch, input.frame, input)
  }

  predicate Released(c: Clock, frame: U64) {
    c.releasedFrame.Some? && frame <= c.releasedFrame.value
  }

  function SingleBatch(c: Clock, source: ConnectionId, input: InputFrame): BufferedBatch {
    BufferedBatch(source, Sbi1.InputFrameBatch(c.roomEpoch, c.sessionEpoch, input.playerIndex, [input]))
  }

  /** What is held after relaying, and what went out. */
  datatype Relayed = Relayed(held: Held<InputFrame>, batches: seq<BufferedBatch>)

  /** Input for a frame already released goes out at once; the rest waits. */
  function RelayOne(c: Clock, r: Relayed, source: ConnectionId, input: InputFrame): Relayed {
    if Released(c, input.frame) then r.(batches := r.batches + [SingleBatch(c, source, input)])
    else r.(held := Push(r.held, ItemOf(c, source, input)))
  }

  function RelayAll(c: Clock, r: Relayed, source: ConnectionId, inputs: seq<InputFrame>): Relayed
    decreases |inputs|
  {
    if inputs == [] then r
    else RelayOne(c, RelayAll(c, r, source, inputs[..|inputs| - 1]), source, inputs[|inputs| - 1])
  }

  /** Relaying one more input after what went out so far. */
  lemma RelayStep(ready: Room, held: Held<InputFrame>, batches: seq<BufferedBatch>, source: ConnectionId,
                  front: seq<InputFrame>, input: InputFrame)
    ensures var one := RelayOne(ready.clock, Relayed(held, []), source, input);
            RelayOne(ready.clock, Relayed(held, batches), source, input) == Relayed(one.held, batches + one.batches)
    ensures RelayAll(ready.clock, Relayed(ready.held, []), source, front + [input])
         == RelayOne(ready.clock, RelayAll(ready.clock, Relayed(ready.held, []), source, front), source, input)
  {
    assert (front + [input])[..|front|] == front;
  }

  datatype Room = Room(
    controllerNetplay: bool, clock: Clock, held: Held<InputFrame>, relayRoomEpoch: U64, relaySessionEpoch: U64)

  /** A buffer filled under other epochs is thrown away. */
  function Synchronized(room: Room): Room {
    if room.relayRoomEpoch == room.clock.roomEpoch && room.relaySessionEpoch == room.clock.sessionEpoch then room
    else room.(held := map[], relayRoomEpoch := room.clock.roomEpoch, relaySessionEpoch := room.clock.sessionEpoch)
  }

  function RelayBatch(room: Room, connectionId: ConnectionId, batch: Sbi1.InputFrameBatch)
    : (Room, Result<seq<BufferedBatch>, RelayError>)
  {
    if room.clock.roomEpoch != batch.roomEpoch then (room, Err(StaleRoomEpoch))
    else if room.clock.sessionEpoch != batch.sessionEpoch then (room, Err(StaleSessionEpoch))
    else
      var (moved, accepted) := AcceptCursors(room.controllerNetplay, room.clock, connectionId, batch.frames);
      if accepted.Err? then (room, Err(accepted.error))
      else if accepted.value == [] then (room.(clock := moved), Ok([]))
      else
        var ready := Synchronized(room.(clock := moved));
        var relayed := RelayAll(moved, Relayed(ready.held, []), connectionId, accepted.value);
        (ready.(held := relayed.held), Ok(relayed.batches))
  }

  /** One clock tick: a released frame takes its waiting input out with it. */
  function TickRoom(room: Room, serverTimeMs: nat): (Room, Option<(ServerFrame, seq<BufferedBatch>)>) {
    var ready := Synchronized(room);
    var (clock, released) := Release(ready.clock, serverTimeMs);
    if released.None? then (ready.(clock := clock), None)
    else
      var f := released.value;
      var out := Grouped(Sift(HeldAt(ready.held, f.frame), f.roomEpoch, f.sessionEpoch, true));
      (ready.(clock := clock, held := ready.held - {f.frame}), Some((f, out)))
  }

  class StoredRoom {
    const controllerNetplay: bool
    const room: FrameClockRoom
    var inputRelayBuffer: InputFrameRelayBuffer
    var relayRoomEpoch: U64
    var relaySessionEpoch: U64

    ghost predicate Valid()
      reads this, inputRelayBuffer
    {
      inputRelayBuffer.Valid()
    }

    ghost function Value(): Room
      reads this, room, inputRelayBuffer
    {
      Room(controllerNetplay, room.Value(), inputRelayBuffer.framesByNumber, relayRoomEpoch, relaySessionEpoch)
    }

    constructor (controllerNetplay: bool, room: FrameClockRoom)
      ensures Valid() && this.room == room && fresh(inputRelayBuffer)
      ensures Value() == Room(controllerNetplay, room.Value(), map[], room.roomEpoch, room.sessionEpoch)
    {
      this.controllerNetplay, this.room := controllerNetplay, room;
      inputRelayBuffer := new InputFrameRelayBuffer();
      relayRoomEpoch, relaySessionEpoch := room.roomEpoch, room.sessionEpoch;
    }

    method SynchronizeInputRuntimeEpoch()
      requires Valid()
      modifies this
      ensures Valid() && (inputRelayBuffer == old(inputRelayBuffer) || fresh(inputRelayBuffer))
      ensures Value() == Synchronized(old(Value()))
    {
      if relayRoomEpoch == room.roomEpoch && relaySessionEpoch == room.sessionEpoch {
        return;
      }
      inputRelayBuffer := new InputFrameRelayBuffer();
      relayRoomEpoch := room.roomEpoch;
      relaySessionEpoch := room.sessionEpoch;
    }

    /** A released frame goes out with the input held for it, every batch of that frame and of one player. */
    method EmitNextServerFrame(serverTimeMs: nat) returns (out: Option<(ServerFrame, seq<BufferedBatch>)>)
      requires Valid()
      modifies this, room, inputRelayBuffer
      ensures Valid() && (inputRelayBuffer == old(inputRelayBuffer) || fresh(inputRelayBuffer))
      ensures (Value(), out) == TickRoom(old(Value()), serverTimeMs)
      ensures out.Some? ==>
                && AllOfFrame(out.value.1, out.value.0.frame)
                && forall k :: 0 <= k < |out.value.1| ==>
                     OwnedBy(out.value.1[k].batch.frames, out.value.1[k].batch.playerIndex)
    {
      SynchronizeInputRuntimeEpoch();
      var released := room.ReleaseNextServerFrame(serverTimeMs);
      if released.None? {
        return None;
      }
      var f := released.value;
      ghost var items := Sift(HeldAt(inputRelayBuffer.framesByNumber, f.frame), f.roomEpoch, f.sessionEpoch, true);
      var batches := inputRelayBuffer.DrainFrame(f.frame, f.roomEpoch, f.sessionEpoch);
      forall k | 0 <= k < |batches| ensures OwnedBy(batches[k].batch.frames, batches[k].batch.playerIndex) {
        assert BatchIsRight(batches, k, items, f.roomEpoch, f.sessionEpoch);
      }
      out := Some((f, batches));
    }

    method RelayAcceptedInputFrame(source: ConnectionId, input: InputFrame) returns (sent: seq<BufferedBatch>)
      requires Valid()
      modifies this, inputRelayBuffer
      ensures Valid() && (inputRelayBuffer == old(inputRelayBuffer) || fresh(inputRelayBuffer))
      ensures var ready := Synchronized(old(Value()));
              var relayed := RelayOne(ready.clock, Relayed(ready.held, []), source, input);
              Value() == ready.(held := relayed.held) && sent == relayed.batches
    {
      SynchronizeInputRuntimeEpoch();
      if room.releasedFrame.Some? && input.frame <= room.releasedFrame.value {
        return [BufferedBatch(source, Sbi1.InputFrameBatch(room.roomEpoch, room.sessionEpoch, input.playerIndex,
                                                           [input]))];
      }
      inputRelayBuffer.PushFrame(source, room.roomEpoch, room.sessionEpoch, input);
      sent := [];
    }

    method RelayInputFrameBatch(connectionId: ConnectionId, batch: Sbi1.InputFrameBatch)
      returns (r: Result<seq<BufferedBatch>, RelayError>)
      requires Valid()
      modifies this, room, inputRelayBuffer
      ensures Valid() && (inputRelayBuffer == old(inputRelayBuffer) || fresh(inputRelayBuffer))
      ensures (Value(), r) == RelayBatch(old(Value()), connectionId, batch)
    {
      if room.roomEpoch != batch.roomEpoch {
        return Err(StaleRoomEpoch);
      }
      if room.sessionEpoch != batch.sessionEpoch {
        return Err(StaleSessionEpoch);
      }
      var accepted := AcceptInputFrameCursors(room, controllerNetplay, connectionId, batch.frames);
      if accepted.Err? {
        return Err(accepted.error);
      }
      var batches := RelayAcceptedInputFrames(connectionId, accepted.value);
      r := Ok(batches);
    }

    /** The loop over a message's accepted inputs. */
    method RelayAcceptedInputFrames(source: ConnectionId, inputs: seq<InputFrame>)
      returns (batches: seq<BufferedBatch>)
      requires Valid()
      modifies this, inputRelayBuffer
      ensures Valid() && (inputRelayBuffer == old(inputRelayBuffer) || fresh(inputRelayBuffer))
      ensures var ready := if inputs == [] then old(Value()) else Synchronized(old(Value()));
              var relayed := RelayAll(ready.clock, Relayed(ready.held, []), source, inputs);
              Value() == ready.(held := relayed.held) && batches == relayed.batches
    {
      ghost var ready := if inputs == [] then Value() else Synchronized(Value());
      batches := [];
      var i := 0;
      while i < |inputs|
        invariant i <= |inputs|
        invariant Valid() && (inputRelayBuffer == old(inputRelayBuffer) || fresh(inputRelayBuffer))
        invariant i == 0 ==> Value() == old(Value()) && batches == []
        invariant i > 0 ==>
                    var relayed := RelayAll(ready.clock, Relayed(ready.held, []), source, inputs[..i]);
                    Value() == ready.(held := relayed.held) && batches == relayed.batches
      {
        assert inputs[..i + 1][..i] == inputs[..i];
        ghost var before := Value();
        RelayStep(ready, before.held, batches, source, inputs[..i], inputs[i]);
        var sent := RelayAcceptedInputFrame(source, inputs[i]);
        batches := batches + sent;
        i := i + 1;
      }
      assert inputs[..i] == inputs;
    }
  }

  // Runs of the relay between sync resets

  datatype Event =
    | InputBatch(connectionId: ConnectionId, batch: Sbi1.InputFrameBatch)
    | ClockTick(serverTimeMs: nat)
    | SocketClosed(connectionId: ConnectionId, handoff: bool)
    | Circumstance(clock: Clock)

  /** The session goes on: epochs, start frame and release cursors stay, and no input cursor is before the start. */
  predicate SameSession(c: Clock, d: Clock) {
    && KeepsCursors(c, d)
    && c.roomEpoch == d.roomEpoch && c.sessionEpoch == d.sessionEpoch && c.syncStartFrame == d.syncStartFrame
    && InputsAhead(d)
  }

  function SocketsOf(players: seq<Seat>): set<ConnectionId> {
    set k | 0 <= k < |players| && players[k].inputConnectionId.Some? :: players[k].inputConnectionId.value
  }

  /** A seat without a socket, or with one never seen before. */
  predicate NewlySocketed(seat: Seat, known: set<ConnectionId>) {
    seat.inputConnectionId.Some? ==> seat.inputConnectionId.value !in known
  }

  /** Seats keep their players; a seat that keeps its socket does not have its player's cursor lowered. */
  predicate SeatsMove(c: Clock, d: Clock, known: set<ConnectionId>) {
    && SameSeats(c.players, d.players) && SeatsValid(d.players)
    && forall k :: 0 <= k < |c.players| ==>
         || NewlySocketed(d.players[k], known)
         || (&& d.players[k].inputConnectionId == c.players[k].inputConnectionId
             && CursorOf(c, c.players[k].playerIndex) <= CursorOf(d, c.players[k].playerIndex))
  }

  /** What may happen to a room besides the modelled steps: statuses, reports, pauses, delays and start
      schedules change, sockets close and are replaced by new ones, and input cursors are dropped with their
      socket or raised by other input; nothing but a release moves the canonical frame, and a closed room
      stays closed. */
  predicate Allowed(c: Clock, d: Clock, known: set<ConnectionId>) {
    && SameSession(c, d) && SeatsMove(c, d, known) && d.roomFrame == c.roomFrame && d.strict == c.strict
    && (c.status == RoomClosed ==> d.status == RoomClosed)
  }

  /** The room with everything ever admitted, in order, everything ever broadcast, and every socket ever seen. */
  datatype Journal = Journal(
    room: Room, admitted: seq<BufferedInput>, broadcast: multiset<BufferedInput>, sockets: set<ConnectionId>)

  function Items(c: Clock, source: ConnectionId, inputs: seq<InputFrame>): (r: seq<BufferedInput>)
    ensures |r| == |inputs|
  {
    seq(|inputs|, i requires 0 <= i < |inputs| => ItemOf(c, source, inputs[i]))
  }

  /** The inputs a message gets admitted; none when it is refused. */
  function AdmittedInputs(room: Room, connectionId: ConnectionId, batch: Sbi1.InputFrameBatch): seq<InputFrame> {
    var accepted := AcceptCursors(room.controllerNetplay, room.clock, connectionId, batch.frames).1;
    if RelayBatch(room, connectionId, batch).1.Err? || accepted.Err? then [] else accepted.value
  }

  /** The batches an event sends out. */
  function SentBy(room: Room, event: Event): seq<BufferedBatch> {
    match event
    case Circumstance(_) => []
    case SocketClosed(_, _) => []
    case ClockTick(t) => var out := TickRoom(room, t).1; if out.None? then [] else out.value.1
    case InputBatch(connectionId, batch) =>
      var out := RelayBatch(room, connectionId, batch).1; if out.Err? then [] else out.value
  }

  function AfterEvent(j: Journal, event: Event): Journal {
    var broadcast := j.broadcast + Carried(SentBy(j.room, event));
    match event
    case Circumstance(clock) =>
      Journal(j.room.(clock := clock), j.admitted, broadcast, j.sockets + SocketsOf(clock.players))
    case SocketClosed(connectionId, handoff) =>
      Journal(j.room.(clock := CloseSocket(j.room.clock, connectionId, handoff).0), j.admitted, broadcast, j.sockets)
    case ClockTick(t) => Journal(TickRoom(j.room, t).0, j.admitted, broadcast, j.sockets)
    case InputBatch(connectionId, batch) =>
      Journal(RelayBatch(j.room, connectionId, batch).0,
              j.admitted + Items(j.room.clock, connectionId, AdmittedInputs(j.room, connectionId, batch)),
              broadcast, j.sockets)
  }

  function Play(j: Journal, events: seq<Event>): Journal
    decreases |events|
  {
    if events == [] then j else AfterEvent(Play(j, events[..|events| - 1]), events[|events| - 1])
  }

  /** A closing that starts the room over ends the run. */
  predicate LawfulEvent(j: Journal, event: Event) {
    match event
    case Circumstance(clock) => Allowed(j.room.clock, clock, j.sockets)
    case SocketClosed(connectionId, handoff) => !EndsSession(j.room.clock, connectionId, handoff)
    case _ => true
  }

  predicate Lawful(j: Journal, events: seq<Event>)
    decreases |events|
  {
    events == [] ||
    (Lawful(j, events[..|events| - 1]) && LawfulEvent(Play(j, events[..|events| - 1]), events[|events| - 1]))
  }

  /** A room at the start of a session: reset to some start frame, with input held, if at all, under the
      current epochs and its own frame numbers. */
  predicate Restarted(j: Journal) {
    && j.room.clock.releasedFrame.None?
    && j.room.clock.nextReleaseFrame == j.room.clock.roomFrame == j.room.clock.syncStartFrame
    && j.room.clock.nextInputFrames == map[]
    && AllWait(j.room.clock, j.room.held) && j.admitted == [] && j.broadcast == multiset{}
    && j.room.relayRoomEpoch == j.room.clock.roomEpoch && j.room.relaySessionEpoch == j.room.clock.sessionEpoch
    && SeatsValid(j.room.clock.players) && SocketsOf(j.room.clock.players) <= j.sockets
    && SourcesKnown(j.room.held, j.sockets)
  }

  predicate SourcesKnown(held: Held<InputFrame>, sockets: set<ConnectionId>) {
    forall f, i :: f in held && 0 <= i < |held[f]| ==> held[f][i].source in sockets
  }

  /** The frame has been released in this session. */
  predicate Reached(c: Clock, frame: U64) {
    c.syncStartFrame <= frame && Released(c, frame)
  }

  /** A held input belongs under its frame and the current epochs, and its frame is still to come. */
  predicate Waits(c: Clock, frame: U64, item: BufferedInput) {
    && item.frame == frame && OwnFrame(item) && IsCurrent(item, c.roomEpoch, c.sessionEpoch)
    && !Reached(c, frame)
  }

  predicate AllWait(c: Clock, held: Held<InputFrame>) {
    forall f, i :: f in held && 0 <= i < |held[f]| ==> Waits(c, f, held[f][i])
  }

  /** The release cursor stands right after the last released frame, or at the start. */
  predicate CursorFits(c: Clock) {
    && c.syncStartFrame <= c.nextReleaseFrame
    && c.nextReleaseFrame == if c.releasedFrame.Some? then Min(c.releasedFrame.value + 1, U64_MAX) else c.syncStartFrame
  }

  predicate InputsAhead(c: Clock) {
    forall p :: p in c.nextInputFrames ==> c.syncStartFrame <= c.nextInputFrames[p]
  }

  /** How often the input was held when the session started. */
  function LeftOver(start: Journal, x: BufferedInput): nat {
    Count(HeldAt(start.room.held, x.frame), x)
  }

  /** The books balance for one input: admitted or left over as often as broadcast or held, and broadcast
      only once its frame is released. */
  predicate Balanced(j: Journal, left: nat, x: BufferedInput) {
    && Count(j.admitted, x) + left == j.broadcast[x] + Count(HeldAt(j.room.held, x.frame), x)
    && (j.broadcast[x] > 0 ==> Reached(j.room.clock, x.frame))
  }

  predicate Sound(j: Journal, left: nat, x: BufferedInput) {
    && j.room.relayRoomEpoch == j.room.clock.roomEpoch && j.room.relaySessionEpoch == j.room.clock.sessionEpoch
    && AllWait(j.room.clock, j.room.held)
    && CursorFits(j.room.clock)
    && InputsAhead(j.room.clock)
    && Balanced(j, left, x)
  }

  // Every input is broadcast exactly when its frame is released

  predicate StageAhead(stage: Stage, syncStartFrame: U64) {
    forall p :: p in stage.next ==> syncStartFrame <= stage.next[p]
  }

  lemma {:induction false} AdmittedAreAhead(c: Clock, stage: Stage, owner: byte, inputs: seq<InputFrame>)
    requires StageAhead(stage, c.syncStartFrame) && AdmitAll(c, stage, owner, inputs).Ok?
    ensures var admission := AdmitAll(c, stage, owner, inputs).value;
            && StageAhead(admission.stage, c.syncStartFrame)
            && forall i :: 0 <= i < |admission.inputs| ==> c.syncStartFrame <= admission.inputs[i].frame
    decreases |inputs|
  {
    if inputs != [] {
      AdmittedAreAhead(c, stage, owner, inputs[..|inputs| - 1]);
    }
  }

  /** Relaying accounts for each input: it is held, or it went out because its frame was released. */
  predicate Accounted(c: Clock, before: Held<InputFrame>, r: Relayed, source: ConnectionId, inputs: seq<InputFrame>,
                      x: BufferedInput)
  {
    && AllWait(c, r.held)
    && Count(HeldAt(r.held, x.frame), x) + Carried(r.batches)[x]
       == Count(HeldAt(before, x.frame), x) + Count(Items(c, source, inputs), x)
    && (Carried(r.batches)[x] > 0 ==> Reached(c, x.frame))
  }

  lemma PushKeepsWaiting(c: Clock, held: Held<InputFrame>, item: BufferedInput)
    requires AllWait(c, held) && Waits(c, item.frame, item)
    ensures AllWait(c, Push(held, item))
  {
  }

  lemma RelayOneAccounts(c: Clock, before: Held<InputFrame>, r: Relayed, source: ConnectionId,
                         front: seq<InputFrame>, input: InputFrame, x: BufferedInput)
    requires Accounted(c, before, r, source, front, x) && c.syncStartFrame <= input.frame
    ensures Accounted(c, before, RelayOne(c, r, source, input), source, front + [input], x)
  {
    var item := ItemOf(c, source, input);
    assert Items(c, source, front + [input]) == Items(c, source, front) + [item];
    CountSplits(Items(c, source, front), [item], x);
    if Released(c, input.frame) {
      CarriedAppend(r.batches, SingleBatch(c, source, input));
      assert Unbatched(source, SingleBatch(c, source, input).batch) == [item];
    } else {
      PushKeepsWaiting(c, r.held, item);
      PushIsCounted(r.held, item, x);
    }
  }

  lemma {:induction false} RelayAllAccounts(c: Clock, before: Held<InputFrame>, source: ConnectionId,
                                            inputs: seq<InputFrame>, x: BufferedInput)
    requires AllWait(c, before)
    requires forall i :: 0 <= i < |inputs| ==> c.syncStartFrame <= inputs[i].frame
    ensures Accounted(c, before, RelayAll(c, Relayed(before, []), source, inputs), source, inputs, x)
    decreases |inputs|
  {
    if inputs != [] {
      var front, last := inputs[..|inputs| - 1], inputs[|inputs| - 1];
      RelayAllAccounts(c, before, source, front, x);
      RelayOneAccounts(c, before, RelayAll(c, Relayed(before, []), source, front), source, front, last, x);
      assert front + [last] == inputs;
    }
  }

  /** An accepted message: the cursors it leaves, and its inputs relayed in order. */
  lemma BatchResult(room: Room, connectionId: ConnectionId, batch: Sbi1.InputFrameBatch)
    requires room == Synchronized(room) && RelayBatch(room, connectionId, batch).1.Ok?
    ensures OwnerOf(room.clock, connectionId).Some?
    ensures var c := room.clock;
            var admitted := AdmitAll(c, Stage(c.lastInputFrames, c.nextInputFrames),
                                     OwnerOf(c, connectionId).value, batch.frames);
            && admitted.Ok?
            && AdmittedInputs(room, connectionId, batch) == admitted.value.inputs
            && var moved := c.(lastInputFrames := admitted.value.stage.last,
                               nextInputFrames := admitted.value.stage.next);
               var relayed := RelayAll(moved, Relayed(room.held, []), connectionId, admitted.value.inputs);
               RelayBatch(room, connectionId, batch)
               == (room.(clock := moved, held := relayed.held), Ok(relayed.batches))
  {
  }

  lemma SameCursorsWait(c: Clock, d: Clock, held: Held<InputFrame>)
    requires AllWait(c, held) && c.releasedFrame == d.releasedFrame && c.syncStartFrame == d.syncStartFrame
    requires c.roomEpoch == d.roomEpoch && c.sessionEpoch == d.sessionEpoch
    ensures AllWait(d, held)
  {
    forall f, i | f in held && 0 <= i < |held[f]| ensures Waits(d, f, held[f][i]) {
      assert Waits(c, f, held[f][i]);
    }
  }

  lemma AcceptedStaysSound(j: Journal, moved: Clock, source: ConnectionId, inputs: seq<InputFrame>, left: nat,
                           x: BufferedInput)
    requires Sound(j, left, x) && InputsAhead(moved)
    requires moved == j.room.clock.(lastInputFrames := moved.lastInputFrames, nextInputFrames := moved.nextInputFrames)
    requires forall i :: 0 <= i < |inputs| ==> moved.syncStartFrame <= inputs[i].frame
    ensures var relayed := RelayAll(moved, Relayed(j.room.held, []), source, inputs);
            Sound(Journal(j.room.(clock := moved, held := relayed.held),
                          j.admitted + Items(j.room.clock, source, inputs),
                          j.broadcast + Carried(relayed.batches), j.sockets), left, x)
  {
    SameCursorsWait(j.room.clock, moved, j.room.held);
    RelayAllAccounts(moved, j.room.held, source, inputs, x);
    assert Items(moved, source, inputs) == Items(j.room.clock, source, inputs);
    CountSplits(j.admitted, Items(j.room.clock, source, inputs), x);
  }

  lemma BatchStaysSound(j: Journal, connectionId: ConnectionId, batch: Sbi1.InputFrameBatch, left: nat,
                        x: BufferedInput)
    requires Sound(j, left, x)
    ensures Sound(AfterEvent(j, InputBatch(connectionId, batch)), left, x)
  {
    var c := j.room.clock;
    var inputs := AdmittedInputs(j.room, connectionId, batch);
    if RelayBatch(j.room, connectionId, batch).1.Ok? {
      BatchResult(j.room, connectionId, batch);
      AdmittedAreAhead(c, Stage(c.lastInputFrames, c.nextInputFrames), OwnerOf(c, connectionId).value, batch.frames);
      AcceptedStaysSound(j, RelayBatch(j.room, connectionId, batch).0.clock, connectionId, inputs, left, x);
    } else {
      assert j.admitted + Items(c, connectionId, inputs) == j.admitted;
    }
  }

  lemma {:induction false} SiftKeepsCurrent<P>(items: seq<Buffered<P>>, roomEpoch: U64, sessionEpoch: U64)
    requires SameEpochs(items, roomEpoch, sessionEpoch)
    ensures Sift(items, roomEpoch, sessionEpoch, true) == items
    decreases |items|
  {
    if items != [] {
      SiftKeepsCurrent(items[..|items| - 1], roomEpoch, sessionEpoch);
      assert IsCurrent(items[|items| - 1], roomEpoch, sessionEpoch);
      assert items == items[..|items| - 1] + [items[|items| - 1]];
    }
  }

  /** A release takes out all that waits for it, and everything else still waits. */
  lemma ReleaseLeavesWaiting(c: Clock, held: Held<InputFrame>, next: Clock, frame: U64)
    requires AllWait(c, held) && CursorFits(c) && frame == c.nextReleaseFrame
    requires next.releasedFrame == Some(frame) && next.syncStartFrame == c.syncStartFrame
    requires next.roomEpoch == c.roomEpoch && next.sessionEpoch == c.sessionEpoch
    ensures AllWait(next, held - {frame})
    ensures SameEpochs(HeldAt(held, frame), c.roomEpoch, c.sessionEpoch)
    ensures forall i :: 0 <= i < |HeldAt(held, frame)| ==>
              OwnFrame(HeldAt(held, frame)[i]) && HeldAt(held, frame)[i].frame == frame
  {
    forall f, i | f in held - {frame} && 0 <= i < |held[f]| ensures Waits(next, f, held[f][i]) {
      assert Waits(c, f, held[f][i]);
    }
    forall i | 0 <= i < |HeldAt(held, frame)|
      ensures OwnFrame(HeldAt(held, frame)[i]) && HeldAt(held, frame)[i].frame == frame
              && IsCurrent(HeldAt(held, frame)[i], c.roomEpoch, c.sessionEpoch)
    {
      assert Waits(c, frame, held[frame][i]);
    }
  }

  lemma ReleaseAccounts(c: Clock, held: Held<InputFrame>, next: Clock, frame: U64, x: BufferedInput)
    requires AllWait(c, held) && CursorFits(c) && frame == c.nextReleaseFrame
    requires next.releasedFrame == Some(frame) && next.syncStartFrame == c.syncStartFrame
    requires next.roomEpoch == c.roomEpoch && next.sessionEpoch == c.sessionEpoch
    ensures var out := Grouped(Sift(HeldAt(held, frame), c.roomEpoch, c.sessionEpoch, true));
            && Carried(out)[x] + Count(HeldAt(held - {frame}, x.frame), x) == Count(HeldAt(held, x.frame), x)
            && (Carried(out)[x] > 0 ==> x.frame == frame)
  {
    ReleaseLeavesWaiting(c, held, next, frame);
    var items := HeldAt(held, frame);
    SiftKeepsCurrent(items, c.roomEpoch, c.sessionEpoch);
    GroupingCarriesAll(items, c.roomEpoch, c.sessionEpoch);
    if x in items {
      var i :| 0 <= i < |items| && items[i] == x;
    }
    assert Carried(Grouped(items))[x] == Count(items, x);
    assert x !in items ==> Count(items, x) == 0;
  }

  lemma ReleaseStaysSound(j: Journal, next: Clock, frame: U64, left: nat, x: BufferedInput)
    requires Sound(j, left, x) && frame == j.room.clock.nextReleaseFrame
    requires next.releasedFrame == Some(frame) && next.nextReleaseFrame == Min(frame + 1, U64_MAX)
    requires next.syncStartFrame == j.room.clock.syncStartFrame && next.nextInputFrames == j.room.clock.nextInputFrames
    requires next.roomEpoch == j.room.clock.roomEpoch && next.sessionEpoch == j.room.clock.sessionEpoch
    ensures var out := Grouped(Sift(HeldAt(j.room.held, frame), next.roomEpoch, next.sessionEpoch, true));
            Sound(Journal(j.room.(clock := next, held := j.room.held - {frame}), j.admitted,
                          j.broadcast + Carried(out), j.sockets), left, x)
  {
    ReleaseLeavesWaiting(j.room.clock, j.room.held, next, frame);
    ReleaseAccounts(j.room.clock, j.room.held, next, frame, x);
  }

  lemma TickStaysSound(j: Journal, t: nat, left: nat, x: BufferedInput)
    requires Sound(j, left, x)
    ensures Sound(AfterEvent(j, ClockTick(t)), left, x)
  {
    var c := j.room.clock;
    ReleaseMovesCursor(c, t);
    var (next, released) := Release(c, t);
    if released.Some? {
      ReleaseStaysSound(j, next, released.value.frame, left, x);
    } else {
      SameCursorsWait(c, next, j.room.held);
    }
  }

  lemma SameSessionStaysSound(j: Journal, clock: Clock, sockets: set<ConnectionId>, left: nat, x: BufferedInput)
    requires Sound(j, left, x) && SameSession(j.room.clock, clock)
    ensures Sound(Journal(j.room.(clock := clock), j.admitted, j.broadcast, sockets), left, x)
  {
    SameCursorsWait(j.room.clock, clock, j.room.held);
  }

  lemma ClosingKeepsSession(c: Clock, connectionId: ConnectionId, handoff: bool)
    requires !EndsSession(c, connectionId, handoff) && InputsAhead(c)
    ensures SameSession(c, CloseSocket(c, connectionId, handoff).0)
  {
    ClosingKeepsRest(c, connectionId, handoff);
    forall p: PlayerIndex | p in CloseSocket(c, connectionId, handoff).0.nextInputFrames
      ensures c.syncStartFrame <= CloseSocket(c, connectionId, handoff).0.nextInputFrames[p]
    {
      ClosingDropsExactlyWhen(c, connectionId, handoff, p);
    }
  }

  lemma QuietStaysSound(j: Journal, event: Event, left: nat, x: BufferedInput)
    requires Sound(j, left, x) && LawfulEvent(j, event) && (event.Circumstance? || event.SocketClosed?)
    ensures Sound(AfterEvent(j, event), left, x)
  {
    assert j.broadcast + Carried([]) == j.broadcast;
    match event
    case Circumstance(clock) =>
      SameSessionStaysSound(j, clock, j.sockets + SocketsOf(clock.players), left, x);
    case SocketClosed(connectionId, handoff) =>
      ClosingKeepsSession(j.room.clock, connectionId, handoff);
      SameSessionStaysSound(j, CloseSocket(j.room.clock, connectionId, handoff).0, j.sockets, left, x);
  }

  lemma {:induction false} PlayStaysSound(j: Journal, events: seq<Event>, x: BufferedInput)
    requires Restarted(j) && Lawful(j, events)
    ensures Sound(Play(j, events), LeftOver(j, x), x)
    decreases |events|
  {
    if events != [] {
      var front, last, left := events[..|events| - 1], events[|events| - 1], LeftOver(j, x);
      PlayStaysSound(j, front, x);
      match last
      case InputBatch(connectionId, batch) => BatchStaysSound(Play(j, front), connectionId, batch, left, x);
      case ClockTick(t) => TickStaysSound(Play(j, front), t, left, x);
      case _ => QuietStaysSound(Play(j, front), last, left, x);
    }
  }

  lemma HeldIsUnreached(c: Clock, held: Held<InputFrame>, x: BufferedInput)
    requires AllWait(c, held)
    ensures Count(HeldAt(held, x.frame), x) > 0 ==> !Reached(c, x.frame)
  {
    var items := HeldAt(held, x.frame);
    if x in items {
      var i :| 0 <= i < |items| && items[i] == x;
      assert Waits(c, x.frame, held[x.frame][i]);
    }
  }

  /** From one reset to the next, whatever messages, ticks, pauses, closings and new sockets come in whatever
      order, and however input cursors are dropped or raised: each input has been broadcast as often as it was
      admitted, or was left in the buffer by the session before, if its frame has been released, and not at all
      if it has not. */
  lemma BroadcastExactlyWhenReleased(j: Journal, events: seq<Event>, x: BufferedInput)
    requires Restarted(j) && Lawful(j, events)
    ensures var end := Play(j, events);
            end.broadcast[x] == if Reached(end.room.clock, x.frame) then Count(end.admitted, x) + LeftOver(j, x) else 0
  {
    PlayStaysSound(j, events, x);
    var end := Play(j, events).room;
    HeldIsUnreached(end.clock, end.held, x);
  }
}
