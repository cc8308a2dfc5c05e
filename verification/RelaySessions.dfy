/** From one session of a relay room to the next: what a reset leaves in the release
    buffer, and what that does to the session that follows. */
module RelaySessions {
  import opened Prelude
  import opened RoomTypes
  import opened BigEndian
  import opened FrameClock
  import opened InputSockets
  import opened RelayBuffers
  import opened RelayPipeline
  import opened RelayCursors
  import opened RelayWire
  import Sbi1 = InputBatchCodec

  // Resets

  /** A new session: the room with another clock, as the stored room next sees it. */
  function NewSession(j: Journal, clock: Clock): Journal {
    Journal(Synchronized(j.room.(clock := clock)), [], multiset{}, j.sockets)
  }

  predicate NewEpochs(c: Clock, d: Clock) {
    d.roomEpoch != c.roomEpoch || d.sessionEpoch != c.sessionEpoch
  }

  /** The frame cursors back at some start frame, no input, and no new seats or sockets. */
  predicate IsReset(c: Clock, d: Clock) {
    && d.releasedFrame.None? && d.nextReleaseFrame == d.roomFrame == d.syncStartFrame && d.nextInputFrames == map[]
    && SameSeats(c.players, d.players)
    && forall k :: 0 <= k < |c.players| ==>
         d.players[k].inputConnectionId.None? || d.players[k].inputConnectionId == c.players[k].inputConnectionId
  }

  /** The closing of an input socket in play is a reset: under new epochs, short of their ceiling, but under
      the old ones while the seat's runner hand-off is open. */
  lemma ClosingResets(c: Clock, connectionId: ConnectionId, handoff: bool)
    requires EndsSession(c, connectionId, handoff)
    ensures var d := CloseSocket(c, connectionId, handoff).0;
            && IsReset(c, d) && (NewEpochs(c, d) <==> !handoff && (c.roomEpoch < U64_MAX || c.sessionEpoch < U64_MAX))
  {
  }

  lemma {:induction false} SocketsStayKnown(j: Journal, events: seq<Event>)
    ensures j.sockets <= Play(j, events).sockets
    decreases |events|
  {
    if events != [] {
      SocketsStayKnown(j, events[..|events| - 1]);
    }
  }

  lemma HeldIsKnown(j: Journal, events: seq<Event>, x: BufferedInput)
    requires Restarted(j) && Lawful(j, events) && x in HeldAt(Play(j, events).room.held, x.frame)
    ensures x.source in Play(j, events).sockets
  {
    PlayStaysSound(j, events, x);
    PlayStaysKeyOrderly(j, events);
    SocketsStayKnown(j, events);
    var admitted, left := Play(j, events).admitted, HeldAt(j.room.held, x.frame);
    assert Count(admitted, x) + Count(left, x) > 0;
    if x in left {
      var i :| 0 <= i < |left| && left[i] == x;
    } else {
      var a :| 0 <= a < |admitted| && admitted[a] == x;
    }
  }

  lemma SourcesStayKnown(j: Journal, events: seq<Event>)
    requires Restarted(j) && Lawful(j, events)
    ensures SourcesKnown(Play(j, events).room.held, Play(j, events).sockets)
  {
    var end := Play(j, events);
    PlayStaysSynchronized(j, events);
    forall f, i | f in end.room.held && 0 <= i < |end.room.held[f]| ensures end.room.held[f][i].source in end.sockets {
      var x := end.room.held[f][i];
      assert Waits(end.room.clock, f, x);
      HeldIsKnown(j, events, x);
    }
  }

  /** After any session, any reset starts another one. It starts with an empty buffer exactly when an epoch
      changes or nothing was held, and otherwise with all that was held. */
  lemma ResetRestarts(j: Journal, events: seq<Event>, clock: Clock)
    requires Restarted(j) && Lawful(j, events) && IsReset(Play(j, events).room.clock, clock)
    ensures var before, after := Play(j, events), NewSession(Play(j, events), clock);
            && Restarted(after)
            && (after.room.held == map[] <==> NewEpochs(before.room.clock, clock) || before.room.held == map[])
            && (!NewEpochs(before.room.clock, clock) ==> after.room.held == before.room.held)
  {
    var before, after := Play(j, events), NewSession(Play(j, events), clock);
    PlayStaysSynchronized(j, events);
    PlayStaysKeyOrderly(j, events);
    SourcesStayKnown(j, events);
    OwnSocketsKnown(before.room.clock, clock, before.sockets);
    if !NewEpochs(before.room.clock, clock) {
      forall f, i | f in after.room.held && 0 <= i < |after.room.held[f]|
        ensures Waits(after.room.clock, f, after.room.held[f][i])
      {
        assert Waits(before.room.clock, f, before.room.held[f][i]);
      }
    }
  }

  // Reaching a frame

  /** The player of the first host seat. */
  function HostOf(players: seq<Seat>): Option<PlayerIndex> {
    var k := IndexWhere(players, (seat: Seat) => seat.role == Host);
    if k < |players| then Some(players[k].playerIndex) else None
  }

  /** In play, with the host about to send input for the frame to be released next. */
  predicate AtFrame(j: Journal, socket: ConnectionId, host: PlayerIndex, frame: U64) {
    var c := j.room.clock;
    && j.room.controllerNetplay && j.room == Synchronized(j.room) && !c.strict
    && c.status == RoomPlaying && c.pauseAtFrame.None?
    && OwnerOf(c, socket) == Some(host) && HostOf(c.players) == Some(host)
    && CursorOf(c, host) <= frame == c.nextReleaseFrame <= c.roomFrame + MAX_FUTURE_FRAME_DISTANCE
  }

  function HostSends(c: Clock, socket: ConnectionId, host: PlayerIndex, frame: U64): Event {
    InputBatch(socket, OneInput(c, host, frame))
  }

  /** With the host's input for the frame in, the next tick releases it. */
  lemma HostInputReleases(c: Clock, host: PlayerIndex, frame: U64)
    requires !c.strict && c.status == RoomPlaying && HostOf(c.players) == Some(host)
    requires host in c.lastInputFrames && c.lastInputFrames[host] == frame == c.nextReleaseFrame
    ensures var d := Release(c, 0).0;
            && Release(c, 0).1.Some?
            && d == c.(inputDelayFrames := d.inputDelayFrames, pendingDelay := d.pendingDelay,
                       nextReleaseFrame := Min(frame + 1, U64_MAX), releasedFrame := Some(frame),
                       roomFrame := Max(c.roomFrame, frame))
  {
    assert HostInput(ApplyPendingDelay(c)) == HostInput(c) == Some(frame);
  }

  /** Nobody but the host has sent anything, and no seat, socket or epoch has changed. */
  predicate OnlyHostSent(j: Journal, end: Journal, host: PlayerIndex) {
    var c, d := j.room.clock, end.room.clock;
    && end.sockets == j.sockets && d.players == c.players && d.syncStartFrame == c.syncStartFrame
    && d.roomEpoch == c.roomEpoch && d.sessionEpoch == c.sessionEpoch
    && end.room.controllerNetplay == j.room.controllerNetplay
    && forall q: PlayerIndex :: q != host ==> CursorOf(d, q) == CursorOf(c, q)
  }

  function Step(c: Clock, socket: ConnectionId, host: PlayerIndex, frame: U64): seq<Event> {
    [HostSends(c, socket, host, frame)] + [ClockTick(0)]
  }

  /** Host input and a tick release the frame and leave the room at the next one. */
  lemma StepUp(j: Journal, socket: ConnectionId, host: PlayerIndex, frame: U64)
    requires AtFrame(j, socket, host, frame)
    ensures var end := Play(j, Step(j.room.clock, socket, host, frame));
            && Lawful(j, Step(j.room.clock, socket, host, frame))
            && end.room.clock.releasedFrame == Some(frame) && frame <= end.room.clock.roomFrame
            && (frame < U64_MAX ==> AtFrame(end, socket, host, frame + 1))
            && end.admitted == j.admitted + [ItemOf(j.room.clock, socket, Sbi1.InputFrame(host, frame, []))]
            && OnlyHostSent(j, end, host)
  {
    var sends := HostSends(j.room.clock, socket, host, frame);
    PlayOne(j, sends);
    InputIsAdmitted(j, socket, Sbi1.InputFrame(host, frame, []));
    var sent := AfterEvent(j, sends);
    PlayNext(j, [sends], ClockTick(0));
    HostInputReleases(sent.room.clock, host, frame);
  }

  lemma {:induction false} PlayInTwo(j: Journal, first: seq<Event>, later: seq<Event>)
    ensures Play(j, first + later) == Play(Play(j, first), later)
    decreases |later|
  {
    if later == [] {
      assert first + later == first;
    } else {
      var front, last := later[..|later| - 1], later[|later| - 1];
      PlayInTwo(j, first, front);
      calc {
        Play(j, first + later);
        { assert (first + later)[..|first + later| - 1] == first + front; }
        AfterEvent(Play(j, first + front), last);
        AfterEvent(Play(Play(j, first), front), last);
        Play(Play(j, first), later);
      }
    }
  }

  lemma {:induction false} LawfulInTwo(j: Journal, first: seq<Event>, later: seq<Event>)
    requires Lawful(j, first) && Lawful(Play(j, first), later)
    ensures Lawful(j, first + later) && Play(j, first + later) == Play(Play(j, first), later)
    decreases |later|
  {
    PlayInTwo(j, first, later);
    if later == [] {
      assert first + later == first;
    } else {
      assert (first + later)[..|first + later| - 1] == first + later[..|later| - 1];
      LawfulInTwo(j, first, later[..|later| - 1]);
    }
  }

  lemma TravellerIsOffTheWire(socket: ConnectionId, batch: Sbi1.InputFrameBatch)
    requires Travels(batch)
    ensures OffTheWire(InputBatch(socket, batch))
  {
    assert Sbi1.Decode(Sbi1.Encode(batch).value) == Ok(batch);
  }

  /** A tick, or a message of the host with one empty input. */
  predicate OfHost(event: Event, host: PlayerIndex) {
    match event
    case ClockTick(_) => true
    case InputBatch(_, batch) =>
      && batch.playerIndex == host && |batch.frames| == 1
      && batch.frames[0].playerIndex == host && batch.frames[0].payload == []
    case _ => false
  }

  predicate AllOfHost(events: seq<Event>, host: PlayerIndex) {
    forall i :: 0 <= i < |events| ==> OfHost(events[i], host)
  }

  lemma HostIsOffTheWire(event: Event, host: PlayerIndex)
    requires OfHost(event, host) && host < Sbi1.MVP_ROOM_CAPACITY
    ensures OffTheWire(event)
  {
    if event.InputBatch? {
      OneInputTravels(event.batch);
      TravellerIsOffTheWire(event.connectionId, event.batch);
    }
  }

  /** Host input and a tick, to the next frame. */
  lemma ClimbOne(j: Journal, socket: ConnectionId, host: PlayerIndex, frame: U64) returns (step: seq<Event>)
    requires AtFrame(j, socket, host, frame) && frame < U64_MAX
    ensures Lawful(j, step) && AtFrame(Play(j, step), socket, host, frame + 1)
    ensures OnlyHostSent(j, Play(j, step), host) && AllOfHost(step, host)
  {
    StepUp(j, socket, host, frame);
    step := Step(j.room.clock, socket, host, frame);
  }

  lemma ClimbOn(j: Journal, first: seq<Event>, rest: seq<Event>, socket: ConnectionId, host: PlayerIndex,
                target: U64)
    requires Lawful(j, first) && OnlyHostSent(j, Play(j, first), host)
    requires Lawful(Play(j, first), rest) && OnlyHostSent(Play(j, first), Play(Play(j, first), rest), host)
    requires AtFrame(Play(Play(j, first), rest), socket, host, target)
    ensures Lawful(j, first + rest) && AtFrame(Play(j, first + rest), socket, host, target)
    ensures OnlyHostSent(j, Play(j, first + rest), host)
  {
    LawfulInTwo(j, first, rest);
  }

  /** The host's input and the ticks take the room from frame to frame. */
  lemma {:induction false} ClimbTo(j: Journal, socket: ConnectionId, host: PlayerIndex, frame: U64, target: U64)
    returns (events: seq<Event>)
    requires AtFrame(j, socket, host, frame) && frame <= target
    ensures Lawful(j, events) && AtFrame(Play(j, events), socket, host, target)
    ensures OnlyHostSent(j, Play(j, events), host) && AllOfHost(events, host)
    decreases target - frame
  {
    if frame == target {
      events := [];
    } else {
      var step := ClimbOne(j, socket, host, frame);
      var rest := ClimbTo(Play(j, step), socket, host, frame + 1, target);
      ClimbOn(j, step, rest, socket, host, target);
      events := step + rest;
    }
  }

  /** A protocol-4 room that can be in play: it is not closed, and has a host's seat. */
  predicate Playable(c: Clock) {
    !c.strict && c.status != RoomClosed && HostOf(c.players).Some?
  }

  /** Seats, sockets and cursors stay but for the host's, who may have got a socket and sent input. */
  predicate SeatsStay(c: Clock, d: Clock, host: PlayerIndex) {
    && SameSeats(c.players, d.players) && d.syncStartFrame == c.syncStartFrame
    && d.roomEpoch == c.roomEpoch && d.sessionEpoch == c.sessionEpoch
    && (forall k :: 0 <= k < |c.players| && c.players[k].inputConnectionId.Some? ==>
          d.players[k].inputConnectionId == c.players[k].inputConnectionId)
    && forall q: PlayerIndex :: q != host ==> CursorOf(d, q) == CursorOf(c, q)
  }

  /** Play begins: the host is at its seat with a socket, and no other seat changes. */
  lemma PlayBegins(j: Journal) returns (event: Event, socket: ConnectionId)
    requires Restarted(j) && j.room.controllerNetplay && Playable(j.room.clock)
    ensures event.Circumstance? && LawfulEvent(j, event)
    ensures AtFrame(AfterEvent(j, event), socket, HostOf(j.room.clock.players).value, j.room.clock.syncStartFrame)
    ensures SeatsStay(j.room.clock, AfterEvent(j, event).room.clock, HostOf(j.room.clock.players).value)
  {
    var c := j.room.clock;
    var k := IndexWhere(c.players, (seat: Seat) => seat.role == Host);
    if c.players[k].inputConnectionId.Some? {
      socket := c.players[k].inputConnectionId.value;
    } else {
      socket := UnseenSocket(j.sockets);
    }
    InPlayIsAllowed(j, k, socket);
    event := Circumstance(InPlay(c, k, socket));
    HostStaysHost(c.players, InPlay(c, k, socket).players);
  }

  lemma HostStaysHost(before: seq<Seat>, after: seq<Seat>)
    requires SameSeats(before, after)
    ensures HostOf(after) == HostOf(before)
  {
    var k := IndexWhere(before, (seat: Seat) => seat.role == Host);
    var i := IndexWhere(after, (seat: Seat) => seat.role == Host);
    assert i == k;
  }

  /** Some run of the session comes to any frame from the start on. */
  lemma ComesTo(j: Journal, frame: U64) returns (events: seq<Event>, socket: ConnectionId)
    requires Restarted(j) && j.room.controllerNetplay && Playable(j.room.clock)
    requires j.room.clock.syncStartFrame <= frame
    ensures var host, end := HostOf(j.room.clock.players).value, Play(j, events);
            && Lawful(j, events) && AtFrame(end, socket, host, frame)
            && SeatsStay(j.room.clock, end.room.clock, host)
            && (host < Sbi1.MVP_ROOM_CAPACITY ==> AllOffTheWire(events))
  {
    var begin, speaks := PlayBegins(j);
    PlayOne(j, begin);
    var host := HostOf(j.room.clock.players).value;
    var rest := ClimbTo(AfterEvent(j, begin), speaks, host, j.room.clock.syncStartFrame, frame);
    LawfulInTwo(j, [begin], rest);
    events, socket := [begin] + rest, speaks;
    if host < Sbi1.MVP_ROOM_CAPACITY {
      forall i | 0 <= i < |events| ensures OffTheWire(events[i]) {
        if i > 0 {
          HostIsOffTheWire(rest[i - 1], host);
        }
      }
    }
  }

  /** Any frame from the start on can be released in some run of the session. */
  lemma FrameCanBeReached(j: Journal, frame: U64) returns (events: seq<Event>)
    requires Restarted(j) && j.room.controllerNetplay && Playable(j.room.clock)
    requires j.room.clock.syncStartFrame <= frame
    ensures Lawful(j, events) && Reached(Play(j, events).room.clock, frame)
  {
    var host := HostOf(j.room.clock.players).value;
    var first, socket := ComesTo(j, frame);
    StepUp(Play(j, first), socket, host, frame);
    var step := Step(Play(j, first).room.clock, socket, host, frame);
    LawfulInTwo(j, first, step);
    events := first + step;
  }

  lemma UnplayableReleasesNothing(c: Clock, t: nat)
    requires !Playable(c)
    ensures Release(c, t).1.None?
  {
    PlayingKeepsHost(c.players);
    assert HostInput(ApplyPendingDelay(Begun(c))) == HostInput(c);
  }

  /** A room that cannot be in play stays so in every run of the session, and releases nothing. */
  lemma {:induction false} UnplayableStandsStill(j: Journal, events: seq<Event>)
    requires Restarted(j) && Lawful(j, events) && !Playable(j.room.clock)
    ensures !Playable(Play(j, events).room.clock) && Play(j, events).room.clock.releasedFrame.None?
    decreases |events|
  {
    if events != [] {
      var front, last := events[..|events| - 1], events[|events| - 1];
      UnplayableStandsStill(j, front);
      PlayStaysInReach(j, events);
      HostStaysHost(j.room.clock.players, Play(j, events).room.clock.players);
      var before := Play(j, front);
      match last
      case Circumstance(_) =>
      case SocketClosed(connectionId, handoff) => ClosingKeepsRest(before.room.clock, connectionId, handoff);
      case ClockTick(t) =>
        UnplayableReleasesNothing(before.room.clock, t);
        ReleaseMovesCursor(before.room.clock, t);
      case InputBatch(connectionId, batch) => MessageMovesCursor(before.room, connectionId, batch);
    }
  }

  // When a session's broadcasts are its own

  /** Everything broadcast in the session was admitted in it. */
  predicate OwnBooks(end: Journal, x: BufferedInput) {
    end.broadcast[x] == if Reached(end.room.clock, x.frame) then Count(end.admitted, x) else 0
  }

  predicate NothingToComeHeld(j: Journal) {
    forall f :: f in j.room.held && j.room.clock.syncStartFrame <= f ==> j.room.held[f] == []
  }

  /** The session broadcasts only its own input, in every run, exactly when it starts with nothing held for
      a frame still to come, by `ResetRestarts` ensured by new epochs, or the room cannot be in play at all. */
  lemma SessionIsCleanExactlyWhen(j: Journal)
    requires Restarted(j) && j.room.controllerNetplay
    ensures NothingToComeHeld(j) || !Playable(j.room.clock) <==>
              forall events, x :: Lawful(j, events) ==> OwnBooks(Play(j, events), x)
  {
    if !Playable(j.room.clock) {
      forall events, x | Lawful(j, events) ensures OwnBooks(Play(j, events), x) {
        BroadcastExactlyWhenReleased(j, events, x);
        UnplayableStandsStill(j, events);
      }
    } else if NothingToComeHeld(j) {
      forall events, x | Lawful(j, events) ensures OwnBooks(Play(j, events), x) {
        BroadcastExactlyWhenReleased(j, events, x);
        PlayStaysInReach(j, events);
      }
    } else {
      var f :| f in j.room.held && j.room.clock.syncStartFrame <= f && j.room.held[f] != [];
      var x := j.room.held[f][0];
      assert Waits(j.room.clock, f, j.room.held[f][0]);
      var events := FrameCanBeReached(j, f);
      BroadcastExactlyWhenReleased(j, events, x);
      assert x in HeldAt(j.room.held, x.frame);
      assert !OwnBooks(Play(j, events), x);
    }
  }

  // A reset without new epochs

  /** After any session, a reset under the same epochs keeps every input held for a frame from its start
      on, and some run of the next session broadcasts it more often than it is admitted there. */
  lemma OldInputIsReplayed(j: Journal, events: seq<Event>, clock: Clock, x: BufferedInput)
    returns (more: seq<Event>)
    requires Restarted(j) && Lawful(j, events) && IsReset(Play(j, events).room.clock, clock)
    requires !NewEpochs(Play(j, events).room.clock, clock) && j.room.controllerNetplay && Playable(clock)
    requires x in HeldAt(Play(j, events).room.held, x.frame) && clock.syncStartFrame <= x.frame
    ensures var after := NewSession(Play(j, events), clock);
            && Restarted(after) && x in HeldAt(after.room.held, x.frame) && Lawful(after, more)
            && Play(after, more).broadcast[x] > Count(Play(after, more).admitted, x)
  {
    ResetRestarts(j, events, clock);
    PlayStaysInReach(j, events);
    var after := NewSession(Play(j, events), clock);
    more := FrameCanBeReached(after, x.frame);
    BroadcastExactlyWhenReleased(after, more, x);
  }

  /** The guest has sent its input for frame 0 when its socket closes while its runner hand-off is open: the
      room starts over at frame 0 under the same epochs, still in play. The host sends its frame 0 and the
      clock ticks: the guest's old input goes out, though the guest has sent nothing in this session. */
  lemma HandoffReplaysOldInput()
    ensures var first := StartOfPlay();
            var guest := InputBatch(1, OneInput(first.room.clock, 1, 0));
            var x := ItemOf(first.room.clock, 1, Sbi1.InputFrame(1, 0, []));
            var before := Play(first, [guest]);
            var closed := CloseSocket(before.room.clock, 1, true);
            var after := NewSession(before, closed.0);
            var run := Step(after.room.clock, 0, 0, 0);
            && Restarted(first) && Lawful(first, [guest]) && EndsSession(before.room.clock, 1, true)
            && Restarted(after) && Lawful(after, run)
            && Count(Play(after, run).admitted, x) == 0 && Play(after, run).broadcast[x] == 1
  {
    var first := StartOfPlay();
    var c := first.room.clock;
    var guest := InputBatch(1, OneInput(c, 1, 0));
    var x := ItemOf(c, 1, Sbi1.InputFrame(1, 0, []));
    StartOfPlayRestarts();
    PlayOne(first, guest);
    InputIsAdmitted(first, 1, Sbi1.InputFrame(1, 0, []));
    var before := Play(first, [guest]);
    GuestInputWaits(first, before, x);
    var d := CloseSocket(before.room.clock, 1, true).0;
    HolderSpeaks(before.room.clock, 1);
    ClosingResets(before.room.clock, 1, true);
    ResetRestarts(first, [guest], d);
    var after := NewSession(before, d);
    HostIsAtFrame(after, before.room.clock);
    StepUp(after, 0, 0, 0);
    BroadcastExactlyWhenReleased(after, Step(after.room.clock, 0, 0, 0), x);
    OtherInputIsNotCounted(ItemOf(after.room.clock, 0, Sbi1.InputFrame(0, 0, [])), x);
  }

  lemma OtherInputIsNotCounted(y: BufferedInput, x: BufferedInput)
    requires y != x
    ensures Count([] + [y], x) == 0
  {
    assert [] + [y] == [y];
  }

  /** The one input sent so far is held, once. */
  lemma GuestInputWaits(first: Journal, before: Journal, x: BufferedInput)
    requires first == StartOfPlay() && before == Play(first, [InputBatch(1, OneInput(first.room.clock, 1, 0))])
    requires Restarted(first) && x.frame == 0
    requires before.admitted == [] + [x]
    requires before.room.clock.releasedFrame.None? && before.room.clock.syncStartFrame == 0
    ensures Count(HeldAt(before.room.held, 0), x) == 1
  {
    var guest := InputBatch(1, OneInput(first.room.clock, 1, 0));
    PlayOne(first, guest);
    PlayStaysSound(first, [guest], x);
    assert before.admitted == [x];
    assert LeftOver(first, x) == 0;
  }

  lemma HostIsAtFrame(after: Journal, c: Clock)
    requires c.players == StartOfPlay().room.clock.players && c.status == RoomPlaying && !c.strict
    requires after.room.controllerNetplay && after.room.clock == CloseSocket(c, 1, true).0
    requires after.room == Synchronized(after.room)
    ensures AtFrame(after, 0, 0, 0)
  {
    var d := after.room.clock;
    assert SeatHolding(c.players, 1) == 1 by {
      assert c.players[0].inputConnectionId == Some(0) && c.players[1].inputConnectionId == Some(1);
    }
    assert d.players[0] == c.players[0];
    assert OwnerOf(d, 0) == Some(0);
    assert HostOf(d.players) == Some(0);
  }

  // A frame admitted and broadcast twice in one session

  function Resyncing(c: Clock): Clock {
    c.(status := SyncingState)
  }

  /** What a resent fingerprint, a closing and a return in play leave. */
  predicate BackInPlay(j: Journal, end: Journal, k: nat, again: ConnectionId)
    requires k < |j.room.clock.players|
  {
    var c, d, p := j.room.clock, end.room.clock, j.room.clock.players[k].playerIndex;
    && end.room.controllerNetplay == j.room.controllerNetplay && end.room == Synchronized(end.room)
    && d.status == RoomPlaying && d.pauseAtFrame.None? && OwnerOf(d, again) == Some(p)
    && CursorOf(d, p) == d.syncStartFrame == c.syncStartFrame && d.roomFrame == c.roomFrame
    && d.releasedFrame == c.releasedFrame && d.roomEpoch == c.roomEpoch && d.sessionEpoch == c.sessionEpoch
    && end.admitted == j.admitted
  }

  /** A resent fingerprint takes the room out of play, and then the socket closes. */
  lemma ResyncAndClose(j: Journal, k: nat)
    requires SeatsValid(j.room.clock.players) && SocketsOf(j.room.clock.players) <= j.sockets
    requires InputsAhead(j.room.clock) && k < |j.room.clock.players|
    requires j.room.clock.players[k].inputConnectionId.Some? && j.room.clock.status != RoomClosed
    ensures var c, p := j.room.clock, j.room.clock.players[k].playerIndex;
            var resync := Circumstance(Resyncing(c));
            var closing := SocketClosed(c.players[k].inputConnectionId.value, false);
            var end := AfterEvent(AfterEvent(j, resync), closing);
            && LawfulEvent(j, resync) && LawfulEvent(AfterEvent(j, resync), closing)
            && end.room == j.room.(clock := end.room.clock) && end.admitted == j.admitted && end.sockets == j.sockets
            && end.room.clock == Silenced(Resyncing(c), k) && CursorOf(end.room.clock, p) == c.syncStartFrame
  {
    var c := j.room.clock;
    OwnSocketsKnown(c, Resyncing(c), j.sockets);
    HolderSpeaks(Resyncing(c), k);
  }

  lemma SilencedIsStillValid(c: Clock, k: nat, sockets: set<ConnectionId>)
    requires SeatsValid(c.players) && SocketsOf(c.players) <= sockets && InputsAhead(c) && k < |c.players|
    ensures var d := Silenced(c, k); SeatsValid(d.players) && SocketsOf(d.players) <= sockets && InputsAhead(d)
  {
    OwnSocketsKnown(c, Silenced(c, k), sockets);
  }

  lemma ClosesAndReturns(j: Journal, k: nat, again: ConnectionId) returns (events: seq<Event>)
    requires SeatsValid(j.room.clock.players) && SocketsOf(j.room.clock.players) <= j.sockets
    requires InputsAhead(j.room.clock) && j.room == Synchronized(j.room) && j.room.clock.status != RoomClosed
    requires k < |j.room.clock.players| && j.room.clock.players[k].inputConnectionId.Some? && again !in j.sockets
    ensures Lawful(j, events) && BackInPlay(j, Play(j, events), k, again)
  {
    var c := j.room.clock;
    var resync, closing := Circumstance(Resyncing(c)), SocketClosed(c.players[k].inputConnectionId.value, false);
    ResyncAndClose(j, k);
    PlayOne(j, resync);
    PlayNext(j, [resync], closing);
    var closed := AfterEvent(AfterEvent(j, resync), closing);
    SilencedIsStillValid(Resyncing(c), k, j.sockets);
    InPlayIsAllowed(closed, k, again);
    var back := Circumstance(InPlay(closed.room.clock, k, again));
    PlayNext(j, [resync] + [closing], back);
    events := [resync] + [closing] + [back];
  }

  /** A seat with the socket of the host, at the start of a session. */
  predicate HostReady(j: Journal, k: nat) {
    && Restarted(j) && j.room.held == map[] && k < |j.room.clock.players|
    && j.room.clock.players[k].inputConnectionId.Some?
    && AtFrame(j, j.room.clock.players[k].inputConnectionId.value, j.room.clock.players[k].playerIndex,
               j.room.clock.syncStartFrame)
  }

  function HostItem(j: Journal, k: nat): BufferedInput
    requires k < |j.room.clock.players| && j.room.clock.players[k].inputConnectionId.Some?
  {
    ItemOf(j.room.clock, j.room.clock.players[k].inputConnectionId.value,
           Sbi1.InputFrame(j.room.clock.players[k].playerIndex, j.room.clock.syncStartFrame, []))
  }

  /** The host's first frame is released, and nothing else has happened. */
  predicate FirstFrameOut(j: Journal, end: Journal, k: nat)
    requires k < |j.room.clock.players| && j.room.clock.players[k].inputConnectionId.Some?
  {
    var c, d := j.room.clock, end.room.clock;
    && end.admitted == [] + [HostItem(j, k)] && d.releasedFrame == Some(c.syncStartFrame)
    && end.room.controllerNetplay && d.status == RoomPlaying && d.players == c.players && end.sockets == j.sockets
    && d.syncStartFrame == c.syncStartFrame <= d.roomFrame
    && d.roomEpoch == c.roomEpoch && d.sessionEpoch == c.sessionEpoch
  }

  lemma SendsFirst(j: Journal, k: nat) returns (step: seq<Event>)
    requires HostReady(j, k) && j.room.clock.syncStartFrame < U64_MAX
    ensures Lawful(j, step) && FirstFrameOut(j, Play(j, step), k)
  {
    var c := j.room.clock;
    var socket, host := c.players[k].inputConnectionId.value, c.players[k].playerIndex;
    StepUp(j, socket, host, c.syncStartFrame);
    step := Step(c, socket, host, c.syncStartFrame);
  }

  /** The host's first frame is released, the host's socket closes and the host is back in play. */
  lemma SendsAndReturns(j: Journal, k: nat, again: ConnectionId) returns (events: seq<Event>)
    requires HostReady(j, k) && again !in j.sockets && j.room.clock.syncStartFrame < U64_MAX
    ensures Lawful(j, events)
    ensures var c, end := j.room.clock, Play(j, events);
            && end.admitted == [] + [HostItem(j, k)] && end.room.clock.releasedFrame == Some(c.syncStartFrame)
            && c.syncStartFrame == end.room.clock.syncStartFrame
            && end.room.clock.roomEpoch == c.roomEpoch && end.room.clock.sessionEpoch == c.sessionEpoch
            && Takes(end.room, again, Sbi1.InputFrame(c.players[k].playerIndex, c.syncStartFrame, []))
  {
    var step := SendsFirst(j, k);
    PlayStaysSynchronized(j, step);
    var back := ClosesAndReturns(Play(j, step), k, again);
    LawfulInTwo(j, step, back);
    events := step + back;
  }

  /** A host's first frame is released and broadcast; a fingerprint is sent again, the host's socket closes, the
      host comes back on another one and play goes on. The frame, sent again, is admitted and broadcast again,
      without a reset in between. */
  lemma FrameGoesOutTwice(j: Journal, k: nat, again: ConnectionId) returns (events: seq<Event>)
    requires HostReady(j, k) && again !in j.sockets && j.room.clock.syncStartFrame < U64_MAX
    requires again != j.room.clock.players[k].inputConnectionId.value
    ensures var x, end := HostItem(j, k), Play(j, events);
            && Lawful(j, events) && end.admitted == [x, x.(source := again)]
            && !RepeatFree(end.admitted, x.body.playerIndex)
            && end.broadcast[x] == 1 && end.broadcast[x.(source := again)] == 1
  {
    var first := SendsAndReturns(j, k, again);
    var back, host, frame := Play(j, first), j.room.clock.players[k].playerIndex, j.room.clock.syncStartFrame;
    InputIsAdmitted(back, again, Sbi1.InputFrame(host, frame, []));
    var resent := InputBatch(again, OneInput(back.room.clock, host, frame));
    PlayNext(j, first, resent);
    events := first + [resent];
    TwoGoOut(j, events, HostItem(j, k), HostItem(j, k).(source := again));
  }

  lemma HostFrameGoesOutTwice() returns (events: seq<Event>)
    ensures var first, end := StartOfPlay(), Play(StartOfPlay(), events);
            var x := ItemOf(first.room.clock, 0, Sbi1.InputFrame(0, 0, []));
            && Restarted(first) && Lawful(first, events) && !RepeatFree(end.admitted, 0)
            && end.admitted == [x, x.(source := 2)]
            && end.broadcast[x] == 1 && end.broadcast[x.(source := 2)] == 1
  {
    StartOfPlayRestarts();
    assert HostOf(StartOfPlay().room.clock.players) == Some(0);
    events := FrameGoesOutTwice(StartOfPlay(), 0, 2);
  }

  lemma TwoGoOut(j: Journal, events: seq<Event>, x: BufferedInput, y: BufferedInput)
    requires Restarted(j) && Lawful(j, events) && j.room.held == map[] && x != y && x.frame == y.frame < U64_MAX
    requires x.body.playerIndex == y.body.playerIndex
    requires Play(j, events).admitted == [] + [x] + [y] && Reached(Play(j, events).room.clock, x.frame)
    ensures Play(j, events).admitted == [x, y] && !RepeatFree(Play(j, events).admitted, x.body.playerIndex)
    ensures Play(j, events).broadcast[x] == 1 && Play(j, events).broadcast[y] == 1
  {
    BroadcastExactlyWhenReleased(j, events, x);
    BroadcastExactlyWhenReleased(j, events, y);
    var admitted := Play(j, events).admitted;
    assert admitted == [x, y];
    assert IsOf(admitted[0], x.body.playerIndex) && IsOf(admitted[1], x.body.playerIndex);
    assert multiset([x, y]) == multiset{x, y};
  }
}
