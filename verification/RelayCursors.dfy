/** Which input is admitted how often: each socket's frames of a player rise, a player's
    frames are admitted once as long as the player's cursor is not lowered, and not
    otherwise. */
module RelayCursors {
  import opened Prelude
  import opened RoomTypes
  import opened BigEndian
  import opened FrameClock
  import opened InputSockets
  import opened RelayBuffers
  import opened RelayPipeline
  import Sbi1 = InputBatchCodec

  // One message

  /** Later frames are higher, until the 64-bit ceiling. */
  predicate Rising(earlier: U64, later: U64) {
    earlier < later || later == U64_MAX
  }

  predicate RisingInputs(inputs: seq<InputFrame>) {
    forall a, b :: 0 <= a < b < |inputs| ==> Rising(inputs[a].frame, inputs[b].frame)
  }

  /** What an admission says about its player: its inputs rise from the old cursor to the new one. */
  predicate OrderlyAdmission(before: U64, after: U64, inputs: seq<InputFrame>, owner: byte) {
    && before <= after
    && RisingInputs(inputs)
    && forall i :: 0 <= i < |inputs| ==>
         inputs[i].playerIndex == owner && before <= inputs[i].frame && Rising(inputs[i].frame, after)
  }

  lemma {:induction false} AdmissionIsOrderly(c: Clock, stage: Stage, owner: byte, inputs: seq<InputFrame>)
    requires AdmitAll(c, stage, owner, inputs).Ok?
    ensures var admission := AdmitAll(c, stage, owner, inputs).value;
            && OrderlyAdmission(NextFor(stage, owner, c.syncStartFrame),
                                NextFor(admission.stage, owner, c.syncStartFrame), admission.inputs, owner)
            && admission.stage.next.Keys <= stage.next.Keys + {owner}
            && (forall p :: p in stage.next && p != owner ==>
                  p in admission.stage.next && admission.stage.next[p] == stage.next[p])
            && (forall i :: 0 <= i < |admission.inputs| ==>
                  admission.inputs[i].frame <= c.roomFrame + MAX_FUTURE_FRAME_DISTANCE)
    decreases |inputs|
  {
    if inputs != [] {
      AdmissionIsOrderly(c, stage, owner, inputs[..|inputs| - 1]);
    }
  }

  /** A message moves its owner's cursor over the inputs it gets admitted, and nothing else of the clock. */
  lemma MessageMovesCursor(room: Room, connectionId: ConnectionId, batch: Sbi1.InputFrameBatch)
    ensures var c, d := room.clock, RelayBatch(room, connectionId, batch).0.clock;
            var owner, inputs := OwnerOf(c, connectionId), AdmittedInputs(room, connectionId, batch);
            && d == c.(lastInputFrames := d.lastInputFrames, nextInputFrames := d.nextInputFrames)
            && (owner.None? ==> inputs == [] && d == c)
            && (owner.Some? ==>
                  OrderlyAdmission(CursorOf(c, owner.value), CursorOf(d, owner.value), inputs, owner.value))
            && (forall q: PlayerIndex :: owner != Some(q) ==> CursorOf(d, q) == CursorOf(c, q))
            && (forall i :: 0 <= i < |inputs| ==> inputs[i].frame <= c.roomFrame + MAX_FUTURE_FRAME_DISTANCE)
            && (inputs != [] ==> room.controllerNetplay)
  {
    var c, owner := room.clock, OwnerOf(room.clock, connectionId);
    if owner.Some? {
      var stage := Stage(c.lastInputFrames, c.nextInputFrames);
      if AdmitAll(c, stage, owner.value, batch.frames).Ok? {
        AdmissionIsOrderly(c, stage, owner.value, batch.frames);
      }
    }
  }

  // Each socket's frames of a player rise

  predicate KeysRise(admitted: seq<BufferedInput>) {
    forall a, b :: 0 <= a < b < |admitted| && KeyOf(admitted[a]) == KeyOf(admitted[b]) ==>
      Rising(admitted[a].frame, admitted[b].frame)
  }

  /** A socket still at its seat has the player's cursor above everything it sent. */
  predicate Stands(c: Clock, k: nat, x: BufferedInput)
    requires k < |c.players|
  {
    c.players[k].inputConnectionId == Some(x.source) ==>
      && c.players[k].playerIndex == x.body.playerIndex
      && Rising(x.frame, CursorOf(c, c.players[k].playerIndex))
  }

  predicate SocketsStand(c: Clock, admitted: seq<BufferedInput>, sockets: set<ConnectionId>) {
    && SeatsValid(c.players) && SocketsOf(c.players) <= sockets
    && (forall a :: 0 <= a < |admitted| ==> admitted[a].source in sockets)
    && (forall a, k :: 0 <= a < |admitted| && 0 <= k < |c.players| ==> Stands(c, k, admitted[a]))
  }

  lemma MoveKeepsStanding(c: Clock, d: Clock, admitted: seq<BufferedInput>, sockets: set<ConnectionId>)
    requires SocketsStand(c, admitted, sockets) && SeatsMove(c, d, sockets)
    ensures SocketsStand(d, admitted, sockets + SocketsOf(d.players))
  {
    forall a, k | 0 <= a < |admitted| && 0 <= k < |d.players| ensures Stands(d, k, admitted[a]) {
      assert Stands(c, k, admitted[a]);
    }
  }

  lemma OwnSocketsKnown(c: Clock, d: Clock, sockets: set<ConnectionId>)
    requires SocketsOf(c.players) <= sockets && SameSeats(c.players, d.players)
    requires forall k :: 0 <= k < |c.players| ==>
               d.players[k].inputConnectionId.None? || d.players[k].inputConnectionId == c.players[k].inputConnectionId
    ensures sockets + SocketsOf(d.players) == sockets
  {
    forall s | s in SocketsOf(d.players) ensures s in sockets {
      var k :| 0 <= k < |d.players| && d.players[k].inputConnectionId == Some(s);
      assert c.players[k].inputConnectionId == Some(s);
      assert s in SocketsOf(c.players);
    }
  }

  lemma TickMovesSeats(c: Clock, t: nat, sockets: set<ConnectionId>)
    requires SeatsValid(c.players)
    ensures var d := Release(c, t).0;
            && SeatsMove(c, d, sockets)
            && (forall k :: 0 <= k < |c.players| ==> d.players[k].inputConnectionId == c.players[k].inputConnectionId)
            && (forall p :: CursorOf(d, p) == CursorOf(c, p)) && c.roomFrame <= d.roomFrame
            && d.syncStartFrame == c.syncStartFrame && d.strict == c.strict
            && (c.status == RoomClosed ==> d.status == RoomClosed)
  {
    ReleaseKeepsSeats(c, t);
    ReleaseMovesCursor(c, t);
    SeatsKeptMove(c, Release(c, t).0, sockets);
  }

  lemma SeatsKeptMove(c: Clock, d: Clock, sockets: set<ConnectionId>)
    requires SeatsValid(c.players) && (d.players == c.players || d.players == PlayingSeats(c.players))
    requires forall p :: CursorOf(d, p) == CursorOf(c, p)
    ensures SeatsMove(c, d, sockets)
    ensures forall k :: 0 <= k < |c.players| ==> d.players[k].inputConnectionId == c.players[k].inputConnectionId
  {
    assert forall k :: 0 <= k < |c.players| ==>
      && d.players[k].playerIndex == c.players[k].playerIndex && d.players[k].role == c.players[k].role
      && d.players[k].inputConnectionId == c.players[k].inputConnectionId;
  }

  lemma ReleaseKeepsSeats(c: Clock, t: nat)
    ensures var d := Release(c, t).0;
            && (d.players == c.players || d.players == PlayingSeats(c.players))
            && c.roomFrame <= d.roomFrame && d.strict == c.strict
            && (c.status == RoomClosed ==> d.status == RoomClosed)
  {
  }

  lemma ClosingMovesSeats(c: Clock, connectionId: ConnectionId, handoff: bool, sockets: set<ConnectionId>)
    requires SeatsValid(c.players) && !EndsSession(c, connectionId, handoff)
    ensures SeatsMove(c, CloseSocket(c, connectionId, handoff).0, sockets)
  {
    ClosingKeepsRest(c, connectionId, handoff);
    ClosingKeepsSeatsValid(c, connectionId, handoff);
    var d := CloseSocket(c, connectionId, handoff).0;
    forall k | 0 <= k < |c.players|
      ensures || NewlySocketed(d.players[k], sockets)
              || (&& d.players[k].inputConnectionId == c.players[k].inputConnectionId
                  && CursorOf(c, c.players[k].playerIndex) <= CursorOf(d, c.players[k].playerIndex))
    {
      var held := SeatHolding(c.players, connectionId);
      if k != held {
        assert held < |c.players| ==> c.players[held].playerIndex != c.players[k].playerIndex;
        ClosingDropsExactlyWhen(c, connectionId, handoff, c.players[k].playerIndex);
      }
    }
  }

  lemma Risen(x: U64, cursor: U64, later: U64)
    requires Rising(x, cursor) && cursor <= later
    ensures Rising(x, later)
  {
  }

  lemma AdmissionKeepsStanding(c: Clock, d: Clock, admitted: seq<BufferedInput>, sockets: set<ConnectionId>,
                               source: ConnectionId, inputs: seq<InputFrame>)
    requires KeysRise(admitted) && SocketsStand(c, admitted, sockets)
    requires d == c.(lastInputFrames := d.lastInputFrames, nextInputFrames := d.nextInputFrames)
    requires OwnerOf(c, source).Some?
    requires var p := OwnerOf(c, source).value; OrderlyAdmission(CursorOf(c, p), CursorOf(d, p), inputs, p)
    requires forall q: PlayerIndex :: OwnerOf(c, source) != Some(q) ==> CursorOf(d, q) == CursorOf(c, q)
    ensures KeysRise(admitted + Items(c, source, inputs))
    ensures SocketsStand(d, admitted + Items(c, source, inputs), sockets)
  {
    var all, seat := admitted + Items(c, source, inputs), SeatHolding(c.players, source);
    var p := c.players[seat].playerIndex;
    assert source in SocketsOf(c.players);
    forall a, b | 0 <= a < b < |all| && KeyOf(all[a]) == KeyOf(all[b]) ensures Rising(all[a].frame, all[b].frame) {
      if a < |admitted| <= b {
        assert Stands(c, seat, admitted[a]);
        Risen(all[a].frame, CursorOf(c, p), all[b].frame);
      }
    }
    forall a, k | 0 <= a < |all| && 0 <= k < |d.players| ensures Stands(d, k, all[a]) {
      if a < |admitted| {
        assert Stands(c, k, admitted[a]);
      } else {
        assert all[a].source == source;
        assert k != seat ==> c.players[k].inputConnectionId != Some(source);
      }
    }
  }

  predicate KeyOrderly(j: Journal) {
    KeysRise(j.admitted) && SocketsStand(j.room.clock, j.admitted, j.sockets)
  }

  lemma EventStaysKeyOrderly(j: Journal, event: Event)
    requires KeyOrderly(j) && LawfulEvent(j, event) && j.room == Synchronized(j.room)
    ensures KeyOrderly(AfterEvent(j, event))
  {
    var c := j.room.clock;
    match event
    case Circumstance(clock) => MoveKeepsStanding(c, clock, j.admitted, j.sockets);
    case SocketClosed(connectionId, handoff) =>
      var d := CloseSocket(c, connectionId, handoff).0;
      ClosingMovesSeats(c, connectionId, handoff, j.sockets);
      ClosingKeepsRest(c, connectionId, handoff);
      MoveKeepsStanding(c, d, j.admitted, j.sockets);
      OwnSocketsKnown(c, d, j.sockets);
    case ClockTick(t) =>
      TickMovesSeats(c, t, j.sockets);
      MoveKeepsStanding(c, Release(c, t).0, j.admitted, j.sockets);
      OwnSocketsKnown(c, Release(c, t).0, j.sockets);
    case InputBatch(connectionId, batch) => BatchStaysKeyOrderly(j, connectionId, batch);
  }

  lemma BatchStaysKeyOrderly(j: Journal, connectionId: ConnectionId, batch: Sbi1.InputFrameBatch)
    requires KeyOrderly(j)
    ensures KeyOrderly(AfterEvent(j, InputBatch(connectionId, batch)))
  {
    var c, inputs := j.room.clock, AdmittedInputs(j.room, connectionId, batch);
    MessageMovesCursor(j.room, connectionId, batch);
    if OwnerOf(c, connectionId).Some? {
      AdmissionKeepsStanding(c, RelayBatch(j.room, connectionId, batch).0.clock, j.admitted, j.sockets,
                             connectionId, inputs);
    } else {
      assert j.admitted + Items(c, connectionId, inputs) == j.admitted;
    }
  }

  function AnyInput(c: Clock): BufferedInput {
    ItemOf(c, 0, Sbi1.InputFrame(0, 0, []))
  }

  lemma PlayStaysSynchronized(j: Journal, events: seq<Event>)
    requires Restarted(j) && Lawful(j, events)
    ensures Play(j, events).room == Synchronized(Play(j, events).room)
    ensures AllWait(Play(j, events).room.clock, Play(j, events).room.held)
    ensures InputsAhead(Play(j, events).room.clock)
  {
    PlayStaysSound(j, events, AnyInput(j.room.clock));
  }

  /** In every run, whatever sockets close and come back: what one socket gets admitted for a player rises. */
  lemma {:induction false} PlayStaysKeyOrderly(j: Journal, events: seq<Event>)
    requires Restarted(j) && Lawful(j, events)
    ensures KeyOrderly(Play(j, events))
    decreases |events|
  {
    if events != [] {
      PlayStaysKeyOrderly(j, events[..|events| - 1]);
      PlayStaysSynchronized(j, events[..|events| - 1]);
      EventStaysKeyOrderly(Play(j, events[..|events| - 1]), events[|events| - 1]);
    }
  }

  // A player's frames rise while the cursor is not lowered

  predicate IsOf(x: BufferedInput, p: PlayerIndex) {
    x.body.playerIndex == p
  }

  /** From position `n` on, the player's admitted frames rise from `floor` to the cursor. */
  predicate RisesFrom(j: Journal, n: nat, floor: U64, p: PlayerIndex) {
    && n <= |j.admitted| && floor <= CursorOf(j.room.clock, p)
    && (forall a :: n <= a < |j.admitted| && IsOf(j.admitted[a], p) ==>
          floor <= j.admitted[a].frame && Rising(j.admitted[a].frame, CursorOf(j.room.clock, p)))
    && (forall a, b :: n <= a < b < |j.admitted| && IsOf(j.admitted[a], p) && IsOf(j.admitted[b], p) ==>
          Rising(j.admitted[a].frame, j.admitted[b].frame))
  }

  predicate Lowers(j: Journal, event: Event, p: PlayerIndex) {
    CursorOf(AfterEvent(j, event).room.clock, p) < CursorOf(j.room.clock, p)
  }

  predicate NeverLowered(j: Journal, events: seq<Event>, p: PlayerIndex)
    decreases |events|
  {
    events == [] ||
    (&& NeverLowered(j, events[..|events| - 1], p)
     && !Lowers(Play(j, events[..|events| - 1]), events[|events| - 1], p))
  }

  /** Appending inputs that rise from the old cursor to the new one. */
  lemma AppendRises(j: Journal, after: Journal, news: seq<BufferedInput>, n: nat, floor: U64, p: PlayerIndex)
    requires RisesFrom(j, n, floor, p) && after.admitted == j.admitted + news
    requires var low, high := CursorOf(j.room.clock, p), CursorOf(after.room.clock, p);
             && low <= high
             && forall i :: 0 <= i < |news| && IsOf(news[i], p) ==>
                  low <= news[i].frame && Rising(news[i].frame, high)
    requires forall a, b :: 0 <= a < b < |news| && IsOf(news[a], p) && IsOf(news[b], p) ==>
               Rising(news[a].frame, news[b].frame)
    ensures RisesFrom(after, n, floor, p)
  {
    var all, before := after.admitted, |j.admitted|;
    assert forall a :: 0 <= a < before ==> all[a] == j.admitted[a];
    assert forall a :: before <= a < |all| ==> all[a] == news[a - before];
  }

  lemma BatchRises(j: Journal, connectionId: ConnectionId, batch: Sbi1.InputFrameBatch, n: nat, floor: U64,
                   p: PlayerIndex)
    requires RisesFrom(j, n, floor, p)
    ensures RisesFrom(AfterEvent(j, InputBatch(connectionId, batch)), n, floor, p)
  {
    MessageMovesCursor(j.room, connectionId, batch);
    var inputs := AdmittedInputs(j.room, connectionId, batch);
    var after := AfterEvent(j, InputBatch(connectionId, batch));
    AppendRises(j, after, Items(j.room.clock, connectionId, inputs), n, floor, p);
  }

  lemma {:induction false} PlayRises(j: Journal, events: seq<Event>, n: nat, floor: U64, p: PlayerIndex)
    requires RisesFrom(j, n, floor, p) && NeverLowered(j, events, p)
    ensures RisesFrom(Play(j, events), n, floor, p)
    ensures |j.admitted| <= |Play(j, events).admitted| && Play(j, events).admitted[..|j.admitted|] == j.admitted
    decreases |events|
  {
    if events != [] {
      var front, last := events[..|events| - 1], events[|events| - 1];
      PlayRises(j, front, n, floor, p);
      if last.InputBatch? {
        BatchRises(Play(j, front), last.connectionId, last.batch, n, floor, p);
      }
    }
  }

  predicate RepeatFree(admitted: seq<BufferedInput>, p: PlayerIndex) {
    forall a, b :: 0 <= a < b < |admitted| && IsOf(admitted[a], p) && IsOf(admitted[b], p) ==>
      admitted[a].frame < U64_MAX ==> admitted[a].frame != admitted[b].frame
  }

  lemma {:induction false} AtMostOne(items: seq<BufferedInput>, x: BufferedInput)
    requires forall a, b :: 0 <= a < b < |items| ==> items[a] != x || items[b] != x
    ensures Count(items, x) <= 1
    decreases |items|
  {
    if items != [] {
      var front := items[..|items| - 1];
      AtMostOne(front, x);
      assert items == front + [items[|items| - 1]];
    }
  }

  lemma RepeatFreeCounts(admitted: seq<BufferedInput>, x: BufferedInput)
    requires RepeatFree(admitted, x.body.playerIndex) && x.frame < U64_MAX
    ensures Count(admitted, x) <= 1
  {
    forall a, b | 0 <= a < b < |admitted| ensures admitted[a] != x || admitted[b] != x {
      assert IsOf(x, x.body.playerIndex);
    }
    AtMostOne(admitted, x);
  }

  /** Whatever is resent or reordered, as long as the player's cursor is not lowered no frame of the player
      below the 64-bit ceiling is admitted twice, and none is broadcast twice unless it was left over. */
  lemma EachFrameOnce(j: Journal, events: seq<Event>, x: BufferedInput)
    requires Restarted(j) && Lawful(j, events) && NeverLowered(j, events, x.body.playerIndex)
    ensures RepeatFree(Play(j, events).admitted, x.body.playerIndex)
    ensures x.frame < U64_MAX ==> Play(j, events).broadcast[x] <= 1 + LeftOver(j, x)
  {
    PlayRises(j, events, 0, CursorOf(j.room.clock, x.body.playerIndex), x.body.playerIndex);
    RisingIsRepeatFree(Play(j, events), CursorOf(j.room.clock, x.body.playerIndex), x.body.playerIndex);
    BroadcastExactlyWhenReleased(j, events, x);
    if x.frame < U64_MAX {
      RepeatFreeCounts(Play(j, events).admitted, x);
    }
  }

  lemma RisingIsRepeatFree(j: Journal, floor: U64, p: PlayerIndex)
    requires RisesFrom(j, 0, floor, p)
    ensures RepeatFree(j.admitted, p)
  {
  }

  // When a frame can come again

  /** Every admitted frame of the player below the ceiling is below the player's cursor. */
  predicate CursorAbove(j: Journal, p: PlayerIndex) {
    forall a :: 0 <= a < |j.admitted| && IsOf(j.admitted[a], p) && j.admitted[a].frame < U64_MAX ==>
      j.admitted[a].frame < CursorOf(j.room.clock, p)
  }

  /** No run from here admits a frame of the player again, unless it lowers the cursor. */
  ghost predicate NeverRepeats(j: Journal, p: PlayerIndex) {
    forall more :: Lawful(j, more) && NeverLowered(j, more, p) ==> RepeatFree(Play(j, more).admitted, p)
  }

  /** What was admitted once could be admitted now, were the cursor no higher. */
  predicate InReach(j: Journal) {
    forall a :: 0 <= a < |j.admitted| ==> Admissible(j.room, j.admitted[a].body.playerIndex, j.admitted[a].frame)
  }

  predicate Admissible(room: Room, p: PlayerIndex, frame: U64) {
    && room.controllerNetplay && room.clock.syncStartFrame <= frame
    && frame <= room.clock.roomFrame + MAX_FUTURE_FRAME_DISTANCE
    && exists k :: 0 <= k < |room.clock.players| && room.clock.players[k].playerIndex == p
  }

  lemma StillAdmissible(room: Room, after: Room, p: PlayerIndex, frame: U64)
    requires Admissible(room, p, frame) && after.controllerNetplay == room.controllerNetplay
    requires SameSeats(room.clock.players, after.clock.players)
    requires after.clock.syncStartFrame == room.clock.syncStartFrame && room.clock.roomFrame <= after.clock.roomFrame
    ensures Admissible(after, p, frame)
  {
    var k :| 0 <= k < |room.clock.players| && room.clock.players[k].playerIndex == p;
    assert after.clock.players[k].playerIndex == p;
  }

  /** The room keeps its seats, start frame and mode, its canonical frame does not fall, and a closed room
      stays closed. */
  predicate RoomGoesOn(room: Room, after: Room) {
    && after.controllerNetplay == room.controllerNetplay && SameSeats(room.clock.players, after.clock.players)
    && after.clock.syncStartFrame == room.clock.syncStartFrame && room.clock.roomFrame <= after.clock.roomFrame
    && after.clock.strict == room.clock.strict && SeatsValid(after.clock.players)
    && after.clock.roomEpoch == room.clock.roomEpoch && after.clock.sessionEpoch == room.clock.sessionEpoch
    && (room.clock.status == RoomClosed ==> after.clock.status == RoomClosed)
  }

  lemma EventGoesOn(j: Journal, event: Event)
    requires LawfulEvent(j, event) && SeatsValid(j.room.clock.players) && j.room == Synchronized(j.room)
    ensures RoomGoesOn(j.room, AfterEvent(j, event).room)
  {
    match event
    case Circumstance(_) =>
    case SocketClosed(connectionId, handoff) =>
      ClosingKeepsRest(j.room.clock, connectionId, handoff);
      ClosingKeepsSeatsValid(j.room.clock, connectionId, handoff);
    case ClockTick(t) =>
      TickMovesSeats(j.room.clock, t, j.sockets);
      ReleaseMovesCursor(j.room.clock, t);
    case InputBatch(connectionId, batch) => MessageMovesCursor(j.room, connectionId, batch);
  }

  lemma EventStaysInReach(j: Journal, event: Event)
    requires InReach(j) && LawfulEvent(j, event) && SeatsValid(j.room.clock.players)
    requires j.room == Synchronized(j.room) && InputsAhead(j.room.clock)
    ensures InReach(AfterEvent(j, event))
  {
    EventGoesOn(j, event);
    var after := AfterEvent(j, event);
    forall a | 0 <= a < |after.admitted|
      ensures Admissible(after.room, after.admitted[a].body.playerIndex, after.admitted[a].frame)
    {
      AdmittedWasAdmissible(j, event, a);
      StillAdmissible(j.room, after.room, after.admitted[a].body.playerIndex, after.admitted[a].frame);
    }
  }

  lemma AdmittedWasAdmissible(j: Journal, event: Event, a: nat)
    requires InReach(j) && InputsAhead(j.room.clock) && a < |AfterEvent(j, event).admitted|
    ensures var x := AfterEvent(j, event).admitted[a]; Admissible(j.room, x.body.playerIndex, x.frame)
  {
    if a < |j.admitted| {
      assert AfterEvent(j, event).admitted[a] == j.admitted[a];
    } else {
      NewIsAdmissible(j.room, event.connectionId, event.batch, a - |j.admitted|);
    }
  }

  lemma NewIsAdmissible(room: Room, connectionId: ConnectionId, batch: Sbi1.InputFrameBatch, i: nat)
    requires i < |AdmittedInputs(room, connectionId, batch)| && InputsAhead(room.clock)
    ensures var input := AdmittedInputs(room, connectionId, batch)[i];
            Admissible(room, input.playerIndex, input.frame)
  {
    MessageMovesCursor(room, connectionId, batch);
    var k := SeatHolding(room.clock.players, connectionId);
    assert room.clock.players[k].playerIndex == AdmittedInputs(room, connectionId, batch)[i].playerIndex;
  }

  lemma {:induction false} PlayStaysInReach(j: Journal, events: seq<Event>)
    requires Restarted(j) && Lawful(j, events)
    ensures InReach(Play(j, events)) && RoomGoesOn(j.room, Play(j, events).room)
    decreases |events|
  {
    if events != [] {
      var front, last := events[..|events| - 1], events[|events| - 1];
      PlayStaysInReach(j, front);
      PlayStaysSynchronized(j, front);
      EventStaysInReach(Play(j, front), last);
      EventGoesOn(Play(j, front), last);
    }
  }

  // A new socket takes an input

  lemma {:induction false} UnseenSocket(sockets: set<ConnectionId>) returns (s: ConnectionId)
    ensures forall x :: x in sockets ==> x < s
    decreases |sockets|
  {
    if sockets == {} {
      s := 0;
    } else {
      var y :| y in sockets;
      var rest := UnseenSocket(sockets - {y});
      s := if y < rest then rest else y + 1;
      assert forall x :: x in sockets ==> x in sockets - {y} || x == y;
    }
  }

  /** In play, with a socket at seat `k`; other seats as they are. */
  function InPlay(c: Clock, k: nat, socket: ConnectionId): Clock
    requires k < |c.players|
  {
    c.(status := RoomPlaying, pauseAtFrame := None,
       players := c.players[k := c.players[k].(inputConnectionId := Some(socket))])
  }

  lemma InPlayIsAllowed(j: Journal, k: nat, socket: ConnectionId)
    requires SeatsValid(j.room.clock.players) && SocketsOf(j.room.clock.players) <= j.sockets
    requires InputsAhead(j.room.clock) && k < |j.room.clock.players| && j.room.clock.status != RoomClosed
    requires socket !in j.sockets || j.room.clock.players[k].inputConnectionId == Some(socket)
    ensures LawfulEvent(j, Circumstance(InPlay(j.room.clock, k, socket)))
    ensures OwnerOf(InPlay(j.room.clock, k, socket), socket) == Some(j.room.clock.players[k].playerIndex)
  {
    var c, d := j.room.clock, InPlay(j.room.clock, k, socket);
    forall i | 0 <= i < |c.players| && i != k ensures c.players[i].inputConnectionId != Some(socket) {
      assert c.players[i].inputConnectionId.Some? ==> c.players[i].inputConnectionId.value in SocketsOf(c.players);
    }
    assert forall i :: 0 <= i < |c.players| && i != k ==> d.players[i] == c.players[i];
    HolderSpeaks(d, k);
  }

  /** A message of one input. */
  function Message(c: Clock, input: InputFrame): Sbi1.InputFrameBatch {
    Sbi1.InputFrameBatch(c.roomEpoch, c.sessionEpoch, input.playerIndex, [input])
  }

  function OneInput(c: Clock, p: PlayerIndex, frame: U64): Sbi1.InputFrameBatch {
    Message(c, Sbi1.InputFrame(p, frame, []))
  }

  /** In play, with the socket speaking for the input's player and the frame within reach. */
  predicate Takes(room: Room, socket: ConnectionId, input: InputFrame) {
    && room.controllerNetplay && room == Synchronized(room)
    && OwnerOf(room.clock, socket) == Some(input.playerIndex)
    && room.clock.status == RoomPlaying && room.clock.pauseAtFrame.None?
    && CursorOf(room.clock, input.playerIndex) <= input.frame <= room.clock.roomFrame + MAX_FUTURE_FRAME_DISTANCE
  }

  /** A playing room takes an input within reach that is not below the player's cursor. */
  lemma OneInputIsTaken(room: Room, socket: ConnectionId, input: InputFrame)
    requires Takes(room, socket, input)
    ensures var after, p := RelayBatch(room, socket, Message(room.clock, input)).0, input.playerIndex;
            && AdmittedInputs(room, socket, Message(room.clock, input)) == [input]
            && after == room.(clock := after.clock, held := after.held)
            && after.clock == room.clock.(
                 lastInputFrames := room.clock.lastInputFrames[p := input.frame],
                 nextInputFrames := room.clock.nextInputFrames[p := Min(input.frame + 1, U64_MAX)])
  {
    var c := room.clock;
    AdmitSingle(c, Stage(c.lastInputFrames, c.nextInputFrames), input.playerIndex, input);
    assert Message(c, input).frames == [input];
  }

  lemma AdmitSingle(c: Clock, stage: Stage, p: PlayerIndex, input: InputFrame)
    requires c.status == RoomPlaying && c.pauseAtFrame.None? && input.playerIndex == p
    requires NextFor(stage, p, c.syncStartFrame) <= input.frame <= c.roomFrame + MAX_FUTURE_FRAME_DISTANCE
    ensures AdmitAll(c, stage, p, [input])
         == Ok(Admission(Stage(stage.last[p := input.frame], stage.next[p := Min(input.frame + 1, U64_MAX)]), [input]))
  {
    assert [input][..0] == [];
    assert AdmitAll(c, stage, p, [input][..0]) == Ok(Admission(stage, []));
    assert [] + [input] == [input];
  }

  lemma PlayNext(j: Journal, events: seq<Event>, event: Event)
    ensures Play(j, events + [event]) == AfterEvent(Play(j, events), event)
    ensures Lawful(j, events + [event]) <==> Lawful(j, events) && LawfulEvent(Play(j, events), event)
  {
    assert (events + [event])[..|events|] == events;
  }

  lemma PlayOne(j: Journal, event: Event)
    ensures Play(j, [event]) == AfterEvent(j, event)
    ensures Lawful(j, [event]) <==> LawfulEvent(j, event)
  {
    PlayNext(j, [], event);
    assert [] + [event] == [event];
  }

  lemma NotLoweredNext(j: Journal, events: seq<Event>, event: Event, p: PlayerIndex)
    ensures NeverLowered(j, events + [event], p) <==> NeverLowered(j, events, p) && !Lowers(Play(j, events), event, p)
  {
    assert (events + [event])[..|events|] == events;
  }

  /** A circumstance after which a new socket speaks for the player in play. */
  lemma PlayerReturns(j: Journal, p: PlayerIndex, frame: U64) returns (ready: Event, socket: ConnectionId)
    requires KeyOrderly(j) && InputsAhead(j.room.clock) && j.room == Synchronized(j.room)
    requires Admissible(j.room, p, frame) && j.room.clock.status != RoomClosed && CursorOf(j.room.clock, p) <= frame
    ensures ready.Circumstance? && LawfulEvent(j, ready) && !Lowers(j, ready, p)
    ensures Takes(AfterEvent(j, ready).room, socket, Sbi1.InputFrame(p, frame, []))
    ensures AfterEvent(j, ready).admitted == j.admitted
  {
    var k :| 0 <= k < |j.room.clock.players| && j.room.clock.players[k].playerIndex == p;
    socket := UnseenSocket(j.sockets);
    InPlayIsAllowed(j, k, socket);
    ready := Circumstance(InPlay(j.room.clock, k, socket));
  }

  lemma InputComesAgain(j: Journal, socket: ConnectionId, p: PlayerIndex, frame: U64)
    requires Takes(j.room, socket, Sbi1.InputFrame(p, frame, []))
    ensures var again := InputBatch(socket, OneInput(j.room.clock, p, frame));
            && AfterEvent(j, again).admitted
               == j.admitted + [ItemOf(j.room.clock, socket, Sbi1.InputFrame(p, frame, []))]
            && !Lowers(j, again, p)
  {
    InputIsAdmitted(j, socket, Sbi1.InputFrame(p, frame, []));
  }

  lemma SameFrameTwice(admitted: seq<BufferedInput>, a: nat, again: BufferedInput)
    requires a < |admitted| && admitted[a].frame == again.frame < U64_MAX
    requires admitted[a].body.playerIndex == again.body.playerIndex
    ensures !RepeatFree(admitted + [again], again.body.playerIndex)
  {
    var all := admitted + [again];
    assert IsOf(all[a], again.body.playerIndex) && IsOf(all[|admitted|], again.body.playerIndex);
    assert all[a].frame == all[|admitted|].frame;
  }

  /** A frame the player has had admitted, and the cursor has fallen back to, can be admitted again. */
  lemma FrameComesAgain(j: Journal, a: nat) returns (more: seq<Event>)
    requires KeyOrderly(j) && InReach(j) && InputsAhead(j.room.clock) && j.room == Synchronized(j.room)
    requires a < |j.admitted| && j.admitted[a].frame < U64_MAX && j.room.clock.status != RoomClosed
    requires CursorOf(j.room.clock, j.admitted[a].body.playerIndex) <= j.admitted[a].frame
    ensures Lawful(j, more) && NeverLowered(j, more, j.admitted[a].body.playerIndex)
    ensures !RepeatFree(Play(j, more).admitted, j.admitted[a].body.playerIndex)
  {
    var p, frame := j.admitted[a].body.playerIndex, j.admitted[a].frame;
    assert Admissible(j.room, p, frame);
    var ready, socket := PlayerReturns(j, p, frame);
    PlayNext(j, [], ready);
    NotLoweredNext(j, [], ready, p);
    var begun := AfterEvent(j, ready);
    var again := InputBatch(socket, OneInput(begun.room.clock, p, frame));
    InputComesAgain(begun, socket, p, frame);
    PlayNext(j, [] + [ready], again);
    NotLoweredNext(j, [] + [ready], again, p);
    more := [] + [ready] + [again];
    SameFrameTwice(j.admitted, a, ItemOf(begun.room.clock, socket, Sbi1.InputFrame(p, frame, [])));
  }

  lemma {:induction false} ClosedAdmitsNothing(c: Clock, stage: Stage, owner: byte, inputs: seq<InputFrame>)
    requires c.status == RoomClosed
    ensures AdmitAll(c, stage, owner, inputs).Ok? <==> inputs == []
    decreases |inputs|
  {
    if |inputs| > 1 {
      ClosedAdmitsNothing(c, stage, owner, inputs[..|inputs| - 1]);
    }
  }

  lemma ClosedTakesNoMessage(room: Room, connectionId: ConnectionId, batch: Sbi1.InputFrameBatch)
    requires room.clock.status == RoomClosed
    ensures AdmittedInputs(room, connectionId, batch) == []
  {
    var c, owner := room.clock, OwnerOf(room.clock, connectionId);
    if owner.Some? {
      ClosedAdmitsNothing(c, Stage(c.lastInputFrames, c.nextInputFrames), owner.value, batch.frames);
    }
  }

  /** Nothing is admitted into a closed room, in whatever run. */
  lemma {:induction false} ClosedTakesNothing(j: Journal, more: seq<Event>)
    requires j.room.clock.status == RoomClosed && Lawful(j, more)
    ensures Play(j, more).room.clock.status == RoomClosed && Play(j, more).admitted == j.admitted
    decreases |more|
  {
    if more != [] {
      var before, last := Play(j, more[..|more| - 1]), more[|more| - 1];
      ClosedTakesNothing(j, more[..|more| - 1]);
      match last
      case SocketClosed(connectionId, handoff) => ClosingKeepsRest(before.room.clock, connectionId, handoff);
      case ClockTick(t) => ReleaseKeepsSeats(before.room.clock, t);
      case InputBatch(connectionId, batch) =>
        MessageMovesCursor(before.room, connectionId, batch);
        ClosedTakesNoMessage(before.room, connectionId, batch);
        assert before.admitted + Items(before.room.clock, connectionId, []) == before.admitted;
      case _ =>
    }
  }

  /** At any point of any run: no frame of the player can be admitted again without a further lowering of the
      cursor, exactly when none has been yet, and the cursor stands above all of them or the room is closed. */
  lemma NeverRepeatsExactlyWhen(j: Journal, events: seq<Event>, p: PlayerIndex)
    requires Restarted(j) && Lawful(j, events)
    ensures var end := Play(j, events);
            NeverRepeats(end, p) <==>
              RepeatFree(end.admitted, p) && (CursorAbove(end, p) || end.room.clock.status == RoomClosed)
  {
    PlayStaysSynchronized(j, events);
    PlayStaysKeyOrderly(j, events);
    PlayStaysInReach(j, events);
    RepeatsExactlyWhen(Play(j, events), p);
  }

  lemma RepeatsExactlyWhen(j: Journal, p: PlayerIndex)
    requires KeyOrderly(j) && InReach(j) && InputsAhead(j.room.clock) && j.room == Synchronized(j.room)
    ensures NeverRepeats(j, p) <==>
              RepeatFree(j.admitted, p) && (CursorAbove(j, p) || j.room.clock.status == RoomClosed)
  {
    if !RepeatFree(j.admitted, p) {
      assert Lawful(j, []) && NeverLowered(j, [], p) && Play(j, []) == j;
    } else if j.room.clock.status == RoomClosed {
      forall more | Lawful(j, more) && NeverLowered(j, more, p) ensures RepeatFree(Play(j, more).admitted, p) {
        ClosedTakesNothing(j, more);
      }
    } else if CursorAbove(j, p) {
      forall more | Lawful(j, more) && NeverLowered(j, more, p) ensures RepeatFree(Play(j, more).admitted, p) {
        AboveStaysRepeatFree(j, more, p);
      }
    } else {
      var a :| 0 <= a < |j.admitted| && IsOf(j.admitted[a], p) && j.admitted[a].frame < U64_MAX
               && CursorOf(j.room.clock, p) <= j.admitted[a].frame;
      var more := FrameComesAgain(j, a);
    }
  }

  lemma AboveStaysRepeatFree(j: Journal, more: seq<Event>, p: PlayerIndex)
    requires RepeatFree(j.admitted, p) && CursorAbove(j, p) && NeverLowered(j, more, p)
    ensures RepeatFree(Play(j, more).admitted, p)
  {
    var n, floor := |j.admitted|, CursorOf(j.room.clock, p);
    PlayRises(j, more, n, floor, p);
    var all := Play(j, more).admitted;
    forall a, b | 0 <= a < b < |all| && IsOf(all[a], p) && IsOf(all[b], p) && all[a].frame < U64_MAX
      ensures all[a].frame != all[b].frame
    {
      if a < n {
        assert all[a] == all[..n][a] == j.admitted[a];
      }
      if b < n {
        assert all[b] == all[..n][b] == j.admitted[b];
      }
      assert a >= n ==> Rising(all[a].frame, all[b].frame);
    }
  }

  /** The room is not closed, and the socket speaks for the player, who has had a frame below the ceiling
      admitted. */
  predicate SpeaksForAdmitted(j: Journal, connectionId: ConnectionId, p: PlayerIndex) {
    && j.room.clock.status != RoomClosed && OwnerOf(j.room.clock, connectionId) == Some(p)
    && exists a :: 0 <= a < |j.admitted| && IsOf(j.admitted[a], p) && j.admitted[a].frame < U64_MAX
  }

  /** A closing within the session lets a frame come again exactly when it takes the cursor of a player who
      has had a frame below the ceiling admitted, in a room that is not closed; the guard can be read off the
      room before the closing. */
  lemma ClosingLetsRepeatExactlyWhen(j: Journal, events: seq<Event>, connectionId: ConnectionId, handoff: bool,
                                     p: PlayerIndex)
    requires Restarted(j) && Lawful(j, events) && !EndsSession(Play(j, events).room.clock, connectionId, handoff)
    requires NeverRepeats(Play(j, events), p)
    ensures var end := Play(j, events);
            !NeverRepeats(AfterEvent(end, SocketClosed(connectionId, handoff)), p) <==>
              SpeaksForAdmitted(end, connectionId, p)
  {
    var closing := SocketClosed(connectionId, handoff);
    NeverRepeatsExactlyWhen(j, events, p);
    PlayNext(j, events, closing);
    NeverRepeatsExactlyWhen(j, events + [closing], p);
    PlayStaysInReach(j, events);
    ClosingLeavesCursorAbove(Play(j, events), connectionId, handoff, p);
  }

  lemma ClosingLeavesCursorAbove(j: Journal, connectionId: ConnectionId, handoff: bool, p: PlayerIndex)
    requires InReach(j) && !EndsSession(j.room.clock, connectionId, handoff)
    requires CursorAbove(j, p) || j.room.clock.status == RoomClosed
    ensures var after := AfterEvent(j, SocketClosed(connectionId, handoff));
            && after.admitted == j.admitted
            && (CursorAbove(after, p) || after.room.clock.status == RoomClosed <==>
                  !SpeaksForAdmitted(j, connectionId, p))
  {
    var after := AfterEvent(j, SocketClosed(connectionId, handoff));
    ClosingDropsExactlyWhen(j.room.clock, connectionId, handoff, p);
    ClosingKeepsRest(j.room.clock, connectionId, handoff);
    if OwnerOf(j.room.clock, connectionId) == Some(p) {
      assert CursorOf(after.room.clock, p) == j.room.clock.syncStartFrame;
      forall a | 0 <= a < |j.admitted| ensures j.room.clock.syncStartFrame <= j.admitted[a].frame {
        assert Admissible(j.room, j.admitted[a].body.playerIndex, j.admitted[a].frame);
      }
    }
  }

  // A frame that goes out twice

  /** A two-player protocol-4 room in play at frame 0. */
  function StartOfPlay(): Journal {
    var players := [Seat(0, Host, true, Some(0), PlayerStatus.Playing, RuntimePlaying),
                    Seat(1, Guest, true, Some(1), PlayerStatus.Playing, RuntimePlaying)];
    var clock := Clock(false, RoomPlaying, players, None, None, 3, None, 1, 1, 0, 0, None, 0, map[], map[]);
    Journal(Room(true, clock, map[], 1, 1), [], multiset{}, {0, 1})
  }

  lemma StartOfPlayRestarts()
    ensures Restarted(StartOfPlay()) && OwnerOf(StartOfPlay().room.clock, 0) == Some(0)
    ensures OwnerOf(StartOfPlay().room.clock, 1) == Some(1)
  {
    var c := StartOfPlay().room.clock;
    assert SocketsOf(c.players) <= {0, 1};
    HolderSpeaks(c, 0);
    HolderSpeaks(c, 1);
  }

  /** An input that a player in play gets admitted. */
  lemma InputIsAdmitted(j: Journal, socket: ConnectionId, input: InputFrame)
    requires Takes(j.room, socket, input)
    ensures var after, p := AfterEvent(j, InputBatch(socket, Message(j.room.clock, input))), input.playerIndex;
            && after.admitted == j.admitted + [ItemOf(j.room.clock, socket, input)]
            && after.room == Synchronized(after.room) && after.room.controllerNetplay && after.sockets == j.sockets
            && after.room.clock == j.room.clock.(
                 lastInputFrames := j.room.clock.lastInputFrames[p := input.frame],
                 nextInputFrames := j.room.clock.nextInputFrames[p := Min(input.frame + 1, U64_MAX)])
  {
    OneInputIsTaken(j.room, socket, input);
    assert Items(j.room.clock, socket, [input]) == [ItemOf(j.room.clock, socket, input)];
  }
}
