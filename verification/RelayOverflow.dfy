/** When a session of a relay room can put out a batch that does not fit the wire: exactly
    when the session before left it input that does not travel, or input of a socket that
    still speaks for its player. */
module RelayOverflow {
  import opened Prelude
  import opened RoomTypes
  import opened BigEndian
  import opened FrameClock
  import opened InputSockets
  import opened RelayBuffers
  import opened RelayPipeline
  import opened RelayCursors
  import opened RelayQueues
  import opened RelayWire
  import opened RelaySessions
  import Sbi1 = InputBatchCodec

  // Batches that do not travel

  /** An input that fills a message of its own. */
  function FullInput(p: PlayerIndex, frame: U64): (r: InputFrame)
    ensures p < Sbi1.MVP_ROOM_CAPACITY ==> Sendable(r)
  {
    var size := Sbi1.MAX_INPUT_BATCH_BYTES - Sbi1.HEADER_BYTES - Sbi1.FRAME_HEADER_BYTES;
    Sbi1.InputFrame(p, frame, seq(size, i => 0))
  }

  lemma OverfullIsRefused(batch: Sbi1.InputFrameBatch, p: PlayerIndex, frame: U64)
    requires |batch.frames| > 1 && FullInput(p, frame) in batch.frames
    ensures Sbi1.Encode(batch).Err?
  {
    var i :| 0 <= i < |batch.frames| && batch.frames[i] == FullInput(p, frame);
    if Sbi1.AllEncodable(batch.frames, batch.playerIndex) {
      FramesBytesHoldEach(batch.frames, batch.playerIndex, i);
    }
  }

  /** A tick that releases a frame sends the batch of every socket and player in the queue. */
  lemma QueuedBatchGoesOut(j: Journal, events: seq<Event>, key: BatchKey)
    requires Restarted(j) && Lawful(j, events) && InputsOf(Queue(j, events), key) != []
    requires var c := Play(j, events).room.clock; c.nextReleaseFrame < U64_MAX && Release(c, 0).1.Some?
    requires !Travels(BatchOf(Play(j, events).room.clock, Queue(j, events), key))
    ensures !AllTravel(SentBy(Play(j, events).room, ClockTick(0)))
  {
    ReleaseSendsQueue(j, events, 0);
    var c, sent := Play(j, events).room.clock, SentBy(Play(j, events).room, ClockTick(0));
    InputsHaveBatch(c, Queue(j, events), key);
    var k :| 0 <= k < |sent| && sent[k].batch == BatchOf(c, Queue(j, events), key);
  }

  // A socket that is gone has left what does not travel

  /** The room at a frame with the host's input for it in. */
  lemma HostComesTo(j: Journal, frame: U64) returns (events: seq<Event>)
    requires Restarted(j) && j.room.controllerNetplay && Playable(j.room.clock)
    requires HostOf(j.room.clock.players).value < Sbi1.MVP_ROOM_CAPACITY && j.room.clock.syncStartFrame <= frame
    ensures Lawful(j, events) && AllOffTheWire(events)
    ensures var c := Play(j, events).room.clock; c.nextReleaseFrame == frame && Release(c, 0).1.Some?
  {
    var host := HostOf(j.room.clock.players).value;
    var first, socket := ComesTo(j, frame);
    var there := Play(j, first);
    HostSendsAt(there, socket, host, frame);
    PlayNext(j, first, HostSends(there.room.clock, socket, host, frame));
    HostIsOffTheWire(HostSends(there.room.clock, socket, host, frame), host);
    events := first + [HostSends(there.room.clock, socket, host, frame)];
  }

  lemma HostSendsAt(j: Journal, socket: ConnectionId, host: PlayerIndex, frame: U64)
    requires AtFrame(j, socket, host, frame)
    ensures var c := AfterEvent(j, HostSends(j.room.clock, socket, host, frame)).room.clock;
            c.nextReleaseFrame == frame && Release(c, 0).1.Some?
    ensures AfterEvent(j, HostSends(j.room.clock, socket, host, frame)).admitted
         == j.admitted + [ItemOf(j.room.clock, socket, Sbi1.InputFrame(host, frame, []))]
  {
    InputIsAdmitted(j, socket, Sbi1.InputFrame(host, frame, []));
    HostInputReleases(AfterEvent(j, HostSends(j.room.clock, socket, host, frame)).room.clock, host, frame);
  }

  lemma GoneLeftGoesOut(j: Journal, events: seq<Event>, key: BatchKey)
    requires Restarted(j) && Lawful(j, events) && Gone(j, key)
    requires var c := Play(j, events).room.clock; c.nextReleaseFrame < U64_MAX && Release(c, 0).1.Some?
    requires var left := HeldAt(j.room.held, Play(j, events).room.clock.nextReleaseFrame);
             InputsOf(left, key) != [] && !Travels(BatchOf(j.room.clock, left, key))
    ensures !AllTravel(SentBy(Play(j, events).room, ClockTick(0)))
  {
    var c := Play(j, events).room.clock;
    var left, news := HeldAt(j.room.held, c.nextReleaseFrame), At(Play(j, events).admitted, c.nextReleaseFrame);
    GoneStaysGone(j, events, key);
    PlayStaysKeyOrderly(j, events);
    NoInputsOf(Play(j, events).admitted, c.nextReleaseFrame, key);
    InputsSplit(left, news, key);
    NextFrame(j, events);
    assert InputsOf(Queue(j, events), key) == InputsOf(left, key);
    assert BatchOf(c, Queue(j, events), key) == BatchOf(j.room.clock, left, key);
    QueuedBatchGoesOut(j, events, key);
  }

  // A socket that still speaks has left an input

  lemma {:induction false} AdmittedIsQueued(admitted: seq<BufferedInput>, i: nat)
    requires i < |admitted|
    ensures admitted[i].body in InputsOf(At(admitted, admitted[i].frame), KeyOf(admitted[i]))
    decreases |admitted|
  {
    var front, last, x := admitted[..|admitted| - 1], admitted[|admitted| - 1], admitted[i];
    var before := At(front, x.frame);
    if i < |admitted| - 1 {
      AdmittedIsQueued(front, i);
      InputsSplit(before, [last], KeyOf(x));
      assert before + [] == before;
    } else {
      assert (before + [last])[..|before|] == before;
    }
  }

  /** The input left and the input sent share a batch, and one of them fills a message. */
  lemma OverfullGoesOut(j: Journal, events: seq<Event>, key: BatchKey, i: nat)
    requires Restarted(j) && Lawful(j, events) && i < |Play(j, events).admitted|
    requires var c := Play(j, events).room.clock;
             && c.nextReleaseFrame < U64_MAX && Release(c, 0).1.Some?
             && InputsOf(HeldAt(j.room.held, c.nextReleaseFrame), key) != []
             && Play(j, events).admitted[i].frame == c.nextReleaseFrame
             && Play(j, events).admitted[i].body == FullInput(key.playerIndex, c.nextReleaseFrame)
             && KeyOf(Play(j, events).admitted[i]) == key
    ensures !AllTravel(SentBy(Play(j, events).room, ClockTick(0)))
  {
    var c, admitted := Play(j, events).room.clock, Play(j, events).admitted;
    AdmittedIsQueued(admitted, i);
    InputsSplit(HeldAt(j.room.held, c.nextReleaseFrame), At(admitted, c.nextReleaseFrame), key);
    OverfullIsRefused(BatchOf(c, Queue(j, events), key), key.playerIndex, c.nextReleaseFrame);
    QueuedBatchGoesOut(j, events, key);
  }

  lemma SeatedStaysSeated(c: Clock, d: Clock, key: BatchKey, host: PlayerIndex)
    requires Seated(c, key) && SeatsStay(c, d, host)
    ensures Seated(d, key)
  {
    var k :| 0 <= k < |c.players| && c.players[k].inputConnectionId == Some(key.source)
             && c.players[k].playerIndex == key.playerIndex;
    assert d.players[k].inputConnectionId == Some(key.source) && d.players[k].playerIndex == key.playerIndex;
  }

  lemma SeatedSpeaks(c: Clock, key: BatchKey)
    requires Seated(c, key) && SeatsValid(c.players)
    ensures OwnerOf(c, key.source) == Some(key.playerIndex)
  {
    var k :| 0 <= k < |c.players| && c.players[k].inputConnectionId == Some(key.source)
             && c.players[k].playerIndex == key.playerIndex;
    HolderSpeaks(c, k);
  }

  /** At a frame that a player may still send input for. */
  predicate MaySend(j: Journal, socket: ConnectionId, host: PlayerIndex, frame: U64, key: BatchKey) {
    && AtFrame(j, socket, host, frame) && OwnerOf(j.room.clock, key.source) == Some(key.playerIndex)
    && CursorOf(j.room.clock, key.playerIndex) <= frame
  }

  function SendsFull(j: Journal, key: BatchKey, frame: U64): Event {
    InputBatch(key.source, Message(j.room.clock, FullInput(key.playerIndex, frame)))
  }

  lemma FullIsOffTheWire(j: Journal, key: BatchKey, frame: U64)
    requires key.playerIndex < Sbi1.MVP_ROOM_CAPACITY
    ensures OffTheWire(SendsFull(j, key, frame))
  {
    OneInputTravels(Message(j.room.clock, FullInput(key.playerIndex, frame)));
    TravellerIsOffTheWire(key.source, Message(j.room.clock, FullInput(key.playerIndex, frame)));
  }

  /** The socket sends a full input for the frame at which the room stands. If it is the host's, the frame can be
      released; else the host can still send its own. */
  lemma FullIsAdmitted(j: Journal, socket: ConnectionId, host: PlayerIndex, frame: U64, key: BatchKey)
    requires MaySend(j, socket, host, frame, key)
    ensures var sent := AfterEvent(j, SendsFull(j, key, frame));
            && sent.admitted == j.admitted + [ItemOf(j.room.clock, key.source, FullInput(key.playerIndex, frame))]
            && sent.room.clock.nextReleaseFrame == frame
            && sent.room.clock.roomEpoch == j.room.clock.roomEpoch
            && sent.room.clock.sessionEpoch == j.room.clock.sessionEpoch
            && (key.playerIndex == host ==> Release(sent.room.clock, 0).1.Some?)
            && (key.playerIndex != host ==> AtFrame(sent, socket, host, frame))
  {
    InputIsAdmitted(j, key.source, FullInput(key.playerIndex, frame));
    var sent := AfterEvent(j, SendsFull(j, key, frame));
    if key.playerIndex == host {
      HostInputReleases(sent.room.clock, host, frame);
    }
  }

  /** The room at the frame, with a full input of the socket and the host's input for it in. */
  predicate FullIsIn(j: Journal, end: Journal, key: BatchKey, frame: U64) {
    && end.room.clock.nextReleaseFrame == frame && Release(end.room.clock, 0).1.Some?
    && |j.admitted| < |end.admitted|
    && end.admitted[|j.admitted|] == ItemOf(j.room.clock, key.source, FullInput(key.playerIndex, frame))
  }

  /** The socket sends, and then the host unless it was the host. */
  function FullRun(j: Journal, socket: ConnectionId, host: PlayerIndex, frame: U64, key: BatchKey): seq<Event> {
    var sends := SendsFull(j, key, frame);
    if key.playerIndex == host then [sends]
    else [sends] + [HostSends(j.room.clock, socket, host, frame)]
  }

  lemma FullThenHost(j: Journal, sent: Journal, socket: ConnectionId, host: PlayerIndex, frame: U64, key: BatchKey)
    requires AtFrame(sent, socket, host, frame)
    requires sent.admitted == j.admitted + [ItemOf(j.room.clock, key.source, FullInput(key.playerIndex, frame))]
    ensures FullIsIn(j, AfterEvent(sent, HostSends(sent.room.clock, socket, host, frame)), key, frame)
  {
    HostSendsAt(sent, socket, host, frame);
  }

  lemma FullRunSendsFull(j: Journal, socket: ConnectionId, host: PlayerIndex, frame: U64, key: BatchKey)
    requires MaySend(j, socket, host, frame, key)
    ensures var run := FullRun(j, socket, host, frame, key);
            Lawful(j, run) && FullIsIn(j, Play(j, run), key, frame)
  {
    var sends := SendsFull(j, key, frame);
    FullIsAdmitted(j, socket, host, frame, key);
    PlayOne(j, sends);
    if key.playerIndex != host {
      var sent := AfterEvent(j, sends);
      FullThenHost(j, sent, socket, host, frame, key);
      assert HostSends(sent.room.clock, socket, host, frame) == HostSends(j.room.clock, socket, host, frame);
      PlayNext(j, [sends], HostSends(j.room.clock, socket, host, frame));
    }
  }

  lemma FullRunIsOffTheWire(j: Journal, socket: ConnectionId, host: PlayerIndex, frame: U64, key: BatchKey)
    requires host < Sbi1.MVP_ROOM_CAPACITY && key.playerIndex < Sbi1.MVP_ROOM_CAPACITY
    ensures AllOffTheWire(FullRun(j, socket, host, frame, key))
  {
    FullIsOffTheWire(j, key, frame);
    HostIsOffTheWire(HostSends(j.room.clock, socket, host, frame), host);
  }

  // The exact condition

  /** Every seat's index fits the wire form; a room has two. */
  predicate RoomSeats(players: seq<Seat>) {
    forall k :: 0 <= k < |players| ==> players[k].playerIndex < Sbi1.MVP_ROOM_CAPACITY
  }

  /** In every run of messages off the wire, all that goes out below the 64-bit ceiling travels. */
  ghost predicate AlwaysTravels(j: Journal) {
    forall events, event ::
      Lawful(j, events) && AllOffTheWire(events) && OffTheWire(event) && BelowCeiling(Play(j, events), event) ==>
        AllTravel(SentBy(Play(j, events).room, event))
  }

  lemma SeatedLeftGoesOut(j: Journal, frame: U64, key: BatchKey) returns (events: seq<Event>)
    requires Restarted(j) && j.room.controllerNetplay && Playable(j.room.clock) && RoomSeats(j.room.clock.players)
    requires j.room.clock.syncStartFrame <= frame < U64_MAX
    requires InputsOf(HeldAt(j.room.held, frame), key) != [] && Seated(j.room.clock, key)
    ensures Lawful(j, events) && AllOffTheWire(events)
    ensures Play(j, events).room.clock.nextReleaseFrame == frame
    ensures !AllTravel(SentBy(Play(j, events).room, ClockTick(0)))
  {
    var host := HostOf(j.room.clock.players).value;
    var first, socket := ComesTo(j, frame);
    var there := Play(j, first);
    SeatedStaysSeated(j.room.clock, there.room.clock, key, host);
    PlayStaysKeyOrderly(j, first);
    SeatedSpeaks(there.room.clock, key);
    var sends := FullRun(there, socket, host, frame, key);
    FullRunSendsFull(there, socket, host, frame, key);
    FullRunIsOffTheWire(there, socket, host, frame, key);
    LawfulInTwo(j, first, sends);
    events := first + sends;
    OverfullGoesOut(j, events, key, |there.admitted|);
  }

  lemma UnfitLeftGoesOut(j: Journal, frame: U64, key: BatchKey) returns (events: seq<Event>)
    requires Restarted(j) && j.room.controllerNetplay && Playable(j.room.clock) && RoomSeats(j.room.clock.players)
    requires !LeftFits(j, frame, key)
    ensures Lawful(j, events) && AllOffTheWire(events)
    ensures Play(j, events).room.clock.nextReleaseFrame == frame
    ensures !AllTravel(SentBy(Play(j, events).room, ClockTick(0)))
  {
    if Seated(j.room.clock, key) {
      events := SeatedLeftGoesOut(j, frame, key);
    } else {
      LeftIsKnown(j, frame, key);
      events := HostComesTo(j, frame);
      GoneLeftGoesOut(j, events, key);
    }
  }

  lemma UnplayableTravels(j: Journal, events: seq<Event>, event: Event)
    requires Restarted(j) && Lawful(j, events) && OffTheWire(event) && !Playable(j.room.clock)
    ensures AllTravel(SentBy(Play(j, events).room, event))
  {
    PlayStaysSynchronized(j, events);
    UnplayableStandsStill(j, events);
    match event
    case InputBatch(connectionId, batch) => MessageTravels(Play(j, events).room, connectionId, batch);
    case ClockTick(t) => UnplayableReleasesNothing(Play(j, events).room.clock, t);
    case _ =>
  }

  /** Whatever the session finds in its buffer: every batch that goes out in any run travels, exactly when all
      that was left for a frame from the start on does and none of it is of a socket that still speaks for its
      player, or the room cannot be in play at all. */
  lemma EveryBatchTravelsExactlyWhen(j: Journal)
    requires Restarted(j) && j.room.controllerNetplay && RoomSeats(j.room.clock.players)
    ensures AlwaysTravels(j) <==> LeftTravels(j) || !Playable(j.room.clock)
  {
    if !Playable(j.room.clock) {
      forall events, event | Lawful(j, events) && OffTheWire(event)
        ensures AllTravel(SentBy(Play(j, events).room, event))
      {
        UnplayableTravels(j, events, event);
      }
    } else if LeftTravels(j) {
      forall events, event |
        Lawful(j, events) && AllOffTheWire(events) && OffTheWire(event) && BelowCeiling(Play(j, events), event)
        ensures AllTravel(SentBy(Play(j, events).room, event))
      {
        EveryBatchTravels(j, events, event);
      }
    } else {
      var frame: U64, key: BatchKey :| !LeftFits(j, frame, key);
      var events := UnfitLeftGoesOut(j, frame, key);
      assert OffTheWire(ClockTick(0)) && BelowCeiling(Play(j, events), ClockTick(0));
    }
  }

  // From one session to the next

  /** No socket that still speaks for its player has an input held for a frame from the start on. */
  predicate NoneSeated(held: Held<InputFrame>, c: Clock) {
    forall f, i :: f in held && c.syncStartFrame <= f < U64_MAX && 0 <= i < |held[f]| ==>
      !Seated(c, KeyOf(held[f][i]))
  }

  /** A session that began with an empty buffer holds what it admitted. */
  lemma HeldWasAdmitted(j: Journal, events: seq<Event>, frame: U64)
    requires Restarted(j) && j.room.held == map[] && Lawful(j, events)
    ensures var end := Play(j, events);
            HeldAt(end.room.held, frame) == [] || HeldAt(end.room.held, frame) == At(end.admitted, frame)
  {
    var end := Play(j, events);
    if HeldAt(end.room.held, frame) != [] {
      var x := end.room.held[frame][0];
      PlayStaysSound(j, events, x);
      assert Waits(end.room.clock, frame, end.room.held[frame][0]);
      assert x in HeldAt(end.room.held, x.frame);
      var a :| 0 <= a < |end.admitted| && end.admitted[a] == x;
      PlayStaysInReach(j, events);
      assert Admissible(end.room, end.admitted[a].body.playerIndex, end.admitted[a].frame);
      PlayKeepsQueues(j, events, frame);
      assert [] + At(end.admitted, frame) == At(end.admitted, frame);
    }
  }

  lemma HeldTravels(j: Journal, events: seq<Event>, frame: U64, key: BatchKey)
    requires Restarted(j) && j.room.held == map[] && Lawful(j, events) && AllOffTheWire(events) && frame < U64_MAX
    requires InputsOf(HeldAt(Play(j, events).room.held, frame), key) != []
    ensures Travels(BatchOf(Play(j, events).room.clock, HeldAt(Play(j, events).room.held, frame), key))
  {
    var held := HeldAt(Play(j, events).room.held, frame);
    HeldWasAdmitted(j, events, frame);
    AdmittedIsSendable(j, events, frame, key);
    InputsAreOwned(held, key);
    OneInputTravels(BatchOf(Play(j, events).room.clock, held, key));
  }

  lemma UnseatedFits(j: Journal, events: seq<Event>, after: Journal, frame: U64, key: BatchKey)
    requires Restarted(j) && j.room.held == map[] && Lawful(j, events) && AllOffTheWire(events)
    requires after.room.held == Play(j, events).room.held
    requires !NewEpochs(Play(j, events).room.clock, after.room.clock)
    requires NoneSeated(after.room.held, after.room.clock)
    ensures LeftFits(after, frame, key)
  {
    var left, c, d := HeldAt(after.room.held, frame), Play(j, events).room.clock, after.room.clock;
    if d.syncStartFrame <= frame < U64_MAX && InputsOf(left, key) != [] {
      InputsHaveItem(left, key);
      var i :| 0 <= i < |left| && KeyOf(left[i]) == key;
      assert !Seated(d, KeyOf(after.room.held[frame][i]));
      HeldTravels(j, events, frame, key);
      assert BatchOf(d, left, key) == BatchOf(c, left, key);
    }
  }

  lemma SeatedDoesNotFit(after: Journal, frame: U64, i: nat)
    requires frame in after.room.held && i < |after.room.held[frame]|
    requires after.room.clock.syncStartFrame <= frame < U64_MAX
    requires Seated(after.room.clock, KeyOf(after.room.held[frame][i]))
    ensures !LeftFits(after, frame, KeyOf(after.room.held[frame][i]))
  {
    HasInputs(after.room.held[frame], i);
  }

  lemma NoneSeatedTravels(j: Journal, events: seq<Event>, after: Journal)
    requires Restarted(j) && j.room.held == map[] && Lawful(j, events) && AllOffTheWire(events)
    requires after.room.held == Play(j, events).room.held
    requires !NewEpochs(Play(j, events).room.clock, after.room.clock)
    ensures NoneSeated(after.room.held, after.room.clock) <==> LeftTravels(after)
  {
    var held, d := after.room.held, after.room.clock;
    if NoneSeated(held, d) {
      forall frame: U64, key: BatchKey ensures LeftFits(after, frame, key) {
        UnseatedFits(j, events, after, frame, key);
      }
    } else {
      var f, i :| f in held && d.syncStartFrame <= f < U64_MAX && 0 <= i < |held[f]| && Seated(d, KeyOf(held[f][i]));
      SeatedDoesNotFit(after, f, i);
    }
  }

  /** After a session that began with an empty buffer, any reset starts one whose batches all travel in every
      run, exactly when an epoch changes, the room cannot be in play, or no socket still at its seat has an
      input held for a frame from the new start on. The guard can be read off the room at the reset. */
  lemma NextSessionTravelsExactlyWhen(j: Journal, events: seq<Event>, clock: Clock)
    requires Restarted(j) && j.room.held == map[] && j.room.controllerNetplay && RoomSeats(j.room.clock.players)
    requires Lawful(j, events) && AllOffTheWire(events) && IsReset(Play(j, events).room.clock, clock)
    ensures var end := Play(j, events);
            AlwaysTravels(NewSession(end, clock)) <==>
              NewEpochs(end.room.clock, clock) || !Playable(clock) || NoneSeated(end.room.held, clock)
  {
    var end, after := Play(j, events), NewSession(Play(j, events), clock);
    ResetRestarts(j, events, clock);
    PlayStaysInReach(j, events);
    EveryBatchTravelsExactlyWhen(after);
    if !NewEpochs(end.room.clock, clock) {
      NoneSeatedTravels(j, events, after);
    }
  }

  // A batch that the encoder refuses

  /** The host of a two-player room in play sends a full-size input for frame 0. */
  function HostFills(): Event {
    InputBatch(0, Message(StartOfPlay().room.clock, FullInput(0, 0)))
  }

  function HostFilled(): Journal {
    Play(StartOfPlay(), [HostFills()])
  }

  /** The session after the guest's socket closed, with the guest's runner hand-off open. */
  function HandedOff(): Journal {
    NewSession(HostFilled(), CloseSocket(HostFilled().room.clock, 1, true).0)
  }

  function FullItem(): BufferedInput {
    ItemOf(StartOfPlay().room.clock, 0, FullInput(0, 0))
  }

  lemma HostFillsLawfully()
    ensures Restarted(StartOfPlay()) && Lawful(StartOfPlay(), [HostFills()]) && OffTheWire(HostFills())
    ensures HostFilled().admitted == [FullItem()] && HeldAt(HostFilled().room.held, 0) == [FullItem()]
    ensures var c, d := StartOfPlay().room.clock, HostFilled().room.clock;
            d == c.(lastInputFrames := d.lastInputFrames, nextInputFrames := d.nextInputFrames)
    ensures HostFilled().room == Synchronized(HostFilled().room) && HostFilled().room.controllerNetplay
  {
    var first, message := StartOfPlay(), Message(StartOfPlay().room.clock, FullInput(0, 0));
    StartOfPlayRestarts();
    OneInputTravels(message);
    TravellerIsOffTheWire(0, message);
    PlayOne(first, HostFills());
    InputIsAdmitted(first, 0, FullInput(0, 0));
    assert [] + [FullItem()] == [FullItem()];
    PlayKeepsQueues(first, [HostFills()], 0);
    AtOneMore([], FullItem(), 0);
  }

  lemma HandoffStartsOver()
    ensures EndsSession(HostFilled().room.clock, 1, true) && Restarted(HandedOff())
    ensures HeldAt(HandedOff().room.held, 0) == [FullItem()] && AtFrame(HandedOff(), 0, 0, 0)
    ensures Message(HandedOff().room.clock, FullInput(0, 0)) == Message(StartOfPlay().room.clock, FullInput(0, 0))
  {
    HostFillsLawfully();
    var c := HostFilled().room.clock;
    HolderSpeaks(c, 1);
    ClosingResets(c, 1, true);
    ResetRestarts(StartOfPlay(), [HostFills()], CloseSocket(c, 1, true).0);
    HostIsAtFrame(HandedOff(), c);
  }

  lemma HostFillsAgain()
    ensures var end := Play(HandedOff(), [HostFills()]);
            && Lawful(HandedOff(), [HostFills()])
            && end.admitted == [ItemOf(HandedOff().room.clock, 0, FullInput(0, 0))]
            && end.room.clock.nextReleaseFrame == 0 && Release(end.room.clock, 0).1.Some?
  {
    var after := HandedOff();
    HandoffStartsOver();
    PlayOne(after, HostFills());
    InputIsAdmitted(after, 0, FullInput(0, 0));
    HostInputReleases(AfterEvent(after, HostFills()).room.clock, 0, 0);
  }

  /** The host has sent a full-size input for frame 0 when the guest's socket closes while the guest's runner
      hand-off is open: the room starts over at frame 0 under the same epochs, still in play, with the host's
      socket still at its seat. The host sends its first message again and the clock ticks: both inputs go out in
      one batch, which the encoder refuses. */
  lemma HandoffOverfillsBatch()
    ensures Restarted(StartOfPlay()) && Lawful(StartOfPlay(), [HostFills()]) && OffTheWire(HostFills())
    ensures EndsSession(HostFilled().room.clock, 1, true)
    ensures Restarted(HandedOff()) && Lawful(HandedOff(), [HostFills()])
    ensures var sent := SentBy(Play(HandedOff(), [HostFills()]).room, ClockTick(0));
            && |sent| == 1 && sent[0].batch.frames == [FullInput(0, 0), FullInput(0, 0)]
            && Sbi1.Encode(sent[0].batch).Err?
  {
    HostFillsLawfully();
    HandoffStartsOver();
    HostFillsAgain();
    ReleaseSendsQueue(HandedOff(), [HostFills()], 0);
    var again := ItemOf(HandedOff().room.clock, 0, FullInput(0, 0));
    AtOneMore([], again, 0);
    assert [] + [again] == [again];
    TwoInOneBatch(FullItem(), again);
    OverfullIsRefused(SentBy(Play(HandedOff(), [HostFills()]).room, ClockTick(0))[0].batch, 0, 0);
  }

  lemma TwoInOneBatch(x: BufferedInput, y: BufferedInput)
    requires KeyOf(x) == KeyOf(y)
    ensures |Grouped([x] + [y])| == 1 && Grouped([x] + [y])[0].batch.frames == [x.body, y.body]
  {
    GroupedOneMore([], x);
    GroupedOneMore([x], y);
    assert [] + [x] == [x];
  }
}
