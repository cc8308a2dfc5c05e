/** The relay-owned frame clock of protocol-4 controller rooms: canonical frames
    are released one at a time, in step with the host's accepted input. */
module FrameClock {
  import opened Prelude
  import opened RoomTypes
  import opened BigEndian

  datatype Seat = Seat(
    playerIndex: PlayerIndex,
    role: PlayerRole,
    connected: bool,
    inputConnectionId: Option<ConnectionId>,
    status: PlayerStatus,
    runtime: RuntimeState)

  datatype DelayChange = DelayChange(effectiveFrame: U64, inputDelayFrames: nat)

  datatype ServerFrame = ServerFrame(roomEpoch: U64, sessionEpoch: U64, frame: U64, canonicalFrame: U64)

  datatype Clock = Clock(
    strict: bool,
    status: RoomStatus,
    players: seq<Seat>,
    scheduledStartMs: Option<nat>,
    pauseAtFrame: Option<U64>,
    inputDelayFrames: nat,
    pendingDelay: Option<DelayChange>,
    roomEpoch: U64,
    sessionEpoch: U64,
    syncStartFrame: U64,
    roomFrame: U64,
    releasedFrame: Option<U64>,
    nextReleaseFrame: U64,
    lastInputFrames: map<PlayerIndex, U64>,
    nextInputFrames: map<PlayerIndex, U64>)

  /** The host's latest accepted input, if any. */
  function HostInput(c: Clock): Option<U64> {
    var k := IndexWhere(c.players, (seat: Seat) => seat.role == Host);
    if k < |c.players| && c.players[k].playerIndex in c.lastInputFrames
    then Some(c.lastInputFrames[c.players[k].playerIndex]) else None
  }

  predicate HostHasInputFor(c: Clock, frame: U64) {
    HostInput(c).Some? && HostInput(c).value >= frame
  }

  function PlayingSeat(seat: Seat): Seat {
    if seat.connected then seat.(status := Playing, runtime := RuntimePlaying) else seat
  }

  function PlayingSeats(players: seq<Seat>): (r: seq<Seat>)
    ensures |r| == |players|
    ensures forall i :: 0 <= i < |r| ==> r[i] == PlayingSeat(players[i])
  {
    seq(|players|, i requires 0 <= i < |players| => PlayingSeat(players[i]))
  }

  function ApplyPendingDelay(c: Clock): Clock {
    if c.pendingDelay.None? || c.nextReleaseFrame < c.pendingDelay.value.effectiveFrame then c
    else c.(inputDelayFrames := c.pendingDelay.value.inputDelayFrames, pendingDelay := None)
  }

  /** The room once a scheduled start is due. */
  function Begun(c: Clock): Clock {
    if c.status == StartScheduled then c.(status := RoomPlaying, players := PlayingSeats(c.players)) else c
  }

  /** A scheduled start without a schedule, or before its deadline, holds everything. */
  predicate HeldByStart(c: Clock, serverTimeMs: nat) {
    c.status == StartScheduled && (c.scheduledStartMs.None? || serverTimeMs < c.scheduledStartMs.value)
  }

  function Release(c: Clock, serverTimeMs: nat): (Clock, Option<ServerFrame>) {
    if c.strict || HeldByStart(c, serverTimeMs) then (c, None)
    else if Begun(c).status != RoomPlaying then (Begun(c), None)
    else
      var ready := ApplyPendingDelay(Begun(c));
      var frame := ready.nextReleaseFrame;
      if !HostHasInputFor(ready, frame) then (ready, None)
      else
        var canonical := Max(ready.roomFrame, frame);
        (ready.(nextReleaseFrame := Min(frame + 1, U64_MAX), releasedFrame := Some(frame), roomFrame := canonical),
         Some(ServerFrame(ready.roomEpoch, ready.sessionEpoch, frame, canonical)))
  }

  function ResetTo(c: Clock, startFrame: U64): Clock {
    c.(lastInputFrames := map[], nextInputFrames := map[], pauseAtFrame := None, syncStartFrame := startFrame,
       roomFrame := startFrame, releasedFrame := None, nextReleaseFrame := startFrame, pendingDelay := None,
       scheduledStartMs := None)
  }

  class FrameClockRoom {
    const strict: bool
    var status: RoomStatus
    var players: seq<Seat>
    var scheduledStartMs: Option<nat>
    var pauseAtFrame: Option<U64>
    var inputDelayFrames: nat
    var pendingDelay: Option<DelayChange>
    var roomEpoch: U64
    var sessionEpoch: U64
    var syncStartFrame: U64
    var roomFrame: U64
    var releasedFrame: Option<U64>
    var nextReleaseFrame: U64
    var lastInputFrames: map<PlayerIndex, U64>
    var nextInputFrames: map<PlayerIndex, U64>

    constructor (c: Clock)
      ensures Value() == c
    {
      strict, status, players, scheduledStartMs := c.strict, c.status, c.players, c.scheduledStartMs;
      pauseAtFrame, inputDelayFrames, pendingDelay := c.pauseAtFrame, c.inputDelayFrames, c.pendingDelay;
      roomEpoch, sessionEpoch, syncStartFrame := c.roomEpoch, c.sessionEpoch, c.syncStartFrame;
      roomFrame, releasedFrame, nextReleaseFrame := c.roomFrame, c.releasedFrame, c.nextReleaseFrame;
      lastInputFrames, nextInputFrames := c.lastInputFrames, c.nextInputFrames;
    }

    function Value(): Clock
      reads this
    {
      Clock(strict, status, players, scheduledStartMs, pauseAtFrame, inputDelayFrames, pendingDelay, roomEpoch,
            sessionEpoch, syncStartFrame, roomFrame, releasedFrame, nextReleaseFrame, lastInputFrames, nextInputFrames)
    }

    method ReleaseNextServerFrame(serverTimeMs: nat) returns (released: Option<ServerFrame>)
      modifies this
      ensures (Value(), released) == Release(old(Value()), serverTimeMs)
    {
      if strict {
        return None;
      }
      var held := StartIfDue(serverTimeMs);
      if held {
        return None;
      }
      if status != RoomPlaying {
        return None;
      }
      ApplyPendingInputDelayIfDue();
      var frame := nextReleaseFrame;
      if !HostHasInputFor(Value(), frame) {
        return None;
      }
      Advance();
      released := Some(ServerFrame(roomEpoch, sessionEpoch, frame, roomFrame));
    }

    /** Begins a scheduled start that is due; reports one that still holds everything. */
    method StartIfDue(serverTimeMs: nat) returns (held: bool)
      modifies this`status, this`players
      ensures held == HeldByStart(old(Value()), serverTimeMs)
      ensures Value() == if held then old(Value()) else Begun(old(Value()))
    {
      if status == StartScheduled {
        if scheduledStartMs.None? || serverTimeMs < scheduledStartMs.value {
          return true;
        }
        status := RoomPlaying;
        MarkSeatsPlaying();
      }
      held := false;
    }

    method ApplyPendingInputDelayIfDue()
      modifies this`inputDelayFrames, this`pendingDelay
      ensures Value() == ApplyPendingDelay(old(Value()))
    {
      if pendingDelay.Some? && nextReleaseFrame >= pendingDelay.value.effectiveFrame {
        inputDelayFrames := pendingDelay.value.inputDelayFrames;
        pendingDelay := None;
      }
    }

    method Advance()
      modifies this`nextReleaseFrame, this`releasedFrame, this`roomFrame
      ensures nextReleaseFrame == Min(old(nextReleaseFrame) + 1, U64_MAX)
      ensures releasedFrame == Some(old(nextReleaseFrame))
      ensures roomFrame == Max(old(roomFrame), old(nextReleaseFrame))
    {
      releasedFrame := Some(nextReleaseFrame);
      roomFrame := Max(roomFrame, nextReleaseFrame);
      nextReleaseFrame := Min(nextReleaseFrame + 1, U64_MAX);
    }

    method MarkSeatsPlaying()
      modifies this`players
      ensures players == PlayingSeats(old(players))
    {
      var i := 0;
      while i < |players|
        invariant i <= |players| == |old(players)|
        invariant forall j :: 0 <= j < i ==> players[j] == PlayingSeat(old(players)[j])
        invariant forall j :: i <= j < |players| ==> players[j] == old(players)[j]
      {
        if players[i].connected {
          players := players[i := players[i].(status := Playing, runtime := RuntimePlaying)];
        }
        i := i + 1;
      }
    }

    method ResetSyncStateTo(startFrame: U64)
      modifies this
      ensures Value() == ResetTo(old(Value()), startFrame)
    {
      ForgetInput();
      MoveCursors(startFrame);
    }

    method ForgetInput()
      modifies this`lastInputFrames, this`nextInputFrames, this`pauseAtFrame, this`pendingDelay, this`scheduledStartMs
      ensures lastInputFrames == map[] && nextInputFrames == map[] && pauseAtFrame == None
      ensures pendingDelay == None && scheduledStartMs == None
    {
      lastInputFrames := map[];
      nextInputFrames := map[];
      pauseAtFrame := None;
      pendingDelay := None;
      scheduledStartMs := None;
    }

    method MoveCursors(startFrame: U64)
      modifies this`syncStartFrame, this`roomFrame, this`releasedFrame, this`nextReleaseFrame
      ensures syncStartFrame == roomFrame == nextReleaseFrame == startFrame && releasedFrame == None
    {
      syncStartFrame := startFrame;
      roomFrame := startFrame;
      releasedFrame := None;
      nextReleaseFrame := startFrame;
    }
  }

  // Runs of the clock between resets

  /** A tick of the clock, or anything else that happens to the room meanwhile. */
  datatype ClockEvent = Tick(serverTimeMs: nat) | Disturbed(room: Clock)

  /** Everything but the release cursors may change under a disturbance. */
  predicate KeepsCursors(c: Clock, d: Clock) {
    c.releasedFrame == d.releasedFrame && c.nextReleaseFrame == d.nextReleaseFrame
  }

  /** A released frame, with the host input and the start deadline that stood when it was released. */
  datatype Entry = Entry(released: ServerFrame, hostInput: Option<U64>, deadlineMs: Option<nat>, atMs: nat)

  datatype Trace = Trace(clock: Clock, log: seq<Entry>)

  function After(trace: Trace, event: ClockEvent): Trace {
    match event
    case Disturbed(room) => trace.(clock := room)
    case Tick(t) =>
      var (next, released) := Release(trace.clock, t);
      if released.None? then trace.(clock := next)
      else
        var deadline := if trace.clock.status == StartScheduled then trace.clock.scheduledStartMs else None;
        Trace(next, trace.log + [Entry(released.value, HostInput(trace.clock), deadline, t)])
  }

  function Run(c: Clock, events: seq<ClockEvent>): Trace
    decreases |events|
  {
    if events == [] then Trace(c, []) else After(Run(c, events[..|events| - 1]), events[|events| - 1])
  }

  predicate LawfulRun(c: Clock, events: seq<ClockEvent>)
    decreases |events|
  {
    events == [] ||
    (&& LawfulRun(c, events[..|events| - 1])
     && (events[|events| - 1].Disturbed? ==>
           KeepsCursors(Run(c, events[..|events| - 1]).clock, events[|events| - 1].room)))
  }

  /** A release is covered by the host's input, not ahead of the canonical frame, and not early. */
  predicate Due(entry: Entry) {
    && entry.hostInput.Some? && entry.released.frame <= entry.hostInput.value
    && entry.released.frame <= entry.released.canonicalFrame
    && (entry.deadlineMs.Some? ==> entry.deadlineMs.value <= entry.atMs)
  }

  lemma ReleaseMovesCursor(c: Clock, t: nat)
    ensures var (next, released) := Release(c, t);
            && next.roomEpoch == c.roomEpoch && next.sessionEpoch == c.sessionEpoch
            && next.syncStartFrame == c.syncStartFrame
            && next.lastInputFrames == c.lastInputFrames && next.nextInputFrames == c.nextInputFrames
            && (released.None? ==> KeepsCursors(c, next))
            && (released.Some? ==>
                  && released.value.roomEpoch == c.roomEpoch && released.value.sessionEpoch == c.sessionEpoch
                  && released.value.frame == c.nextReleaseFrame
                  && next.releasedFrame == Some(c.nextReleaseFrame)
                  && next.nextReleaseFrame == Min(c.nextReleaseFrame + 1, U64_MAX))
  {
  }

  lemma PlayingKeepsHost(players: seq<Seat>)
    ensures IndexWhere(PlayingSeats(players), (seat: Seat) => seat.role == Host)
         == IndexWhere(players, (seat: Seat) => seat.role == Host)
  {
    assert forall i :: 0 <= i < |players| ==> PlayingSeats(players)[i].role == players[i].role;
  }

  lemma BegunKeepsHostInput(c: Clock)
    ensures var ready := ApplyPendingDelay(Begun(c));
            && HostInput(ready) == HostInput(c) && ready.nextReleaseFrame == c.nextReleaseFrame
            && ready.roomFrame == c.roomFrame && ready.roomEpoch == c.roomEpoch && ready.sessionEpoch == c.sessionEpoch
  {
    PlayingKeepsHost(c.players);
  }

  lemma ReleaseIsDue(c: Clock, t: nat)
    requires Release(c, t).1.Some?
    ensures Due(Entry(Release(c, t).1.value, HostInput(c),
                      if c.status == StartScheduled then c.scheduledStartMs else None, t))
  {
    BegunKeepsHostInput(c);
  }

  /** A player's seat is the first of the host's role. */
  predicate FirstHostSeat(players: seq<Seat>, k: nat) {
    && k < |players| && players[k].role == Host
    && forall j :: 0 <= j < k ==> players[j].role != Host
  }

  /** The room is in play, or its scheduled start is due by now. */
  predicate InPlayBy(c: Clock, t: nat) {
    && !c.strict
    && (|| c.status == RoomPlaying
        || (c.status == StartScheduled && c.scheduledStartMs.Some? && c.scheduledStartMs.value <= t))
  }

  /** The first host seat's player has had input accepted for the frame or a later one. */
  ghost predicate HostCovers(c: Clock, frame: U64) {
    exists k: nat {:trigger FirstHostSeat(c.players, k)} ::
      && FirstHostSeat(c.players, k) && c.players[k].playerIndex in c.lastInputFrames
      && frame <= c.lastInputFrames[c.players[k].playerIndex]
  }

  lemma HostCoversExactlyWhen(c: Clock, frame: U64)
    ensures HostHasInputFor(c, frame) <==> HostCovers(c, frame)
  {
    var k := IndexWhere(c.players, (seat: Seat) => seat.role == Host);
    if k < |c.players| {
      assert FirstHostSeat(c.players, k);
    }
    forall i: nat | FirstHostSeat(c.players, i) ensures i == k {
    }
  }

  lemma ReleaseNeedsHost(c: Clock, t: nat)
    ensures Release(c, t).1.Some? <==> InPlayBy(c, t) && HostHasInputFor(c, c.nextReleaseFrame)
    ensures Release(c, t).1.Some? ==>
              && Release(c, t).1.value
                 == ServerFrame(c.roomEpoch, c.sessionEpoch, c.nextReleaseFrame, Max(c.roomFrame, c.nextReleaseFrame))
              && Release(c, t).0.roomFrame == Max(c.roomFrame, c.nextReleaseFrame)
  {
    BegunKeepsHostInput(c);
    var ready := ApplyPendingDelay(Begun(c));
    assert HostHasInputFor(ready, c.nextReleaseFrame) <==> HostHasInputFor(c, c.nextReleaseFrame);
  }

  /** A tick releases a frame exactly in play, or at a start that is due, once the first host seat's player has
      had input accepted for it; and it releases the very next one. */
  lemma ReleasesExactlyWhen(c: Clock, t: nat)
    ensures Release(c, t).1.Some? <==> InPlayBy(c, t) && HostCovers(c, c.nextReleaseFrame)
    ensures Release(c, t).1.Some? ==>
              && Release(c, t).1.value
                 == ServerFrame(c.roomEpoch, c.sessionEpoch, c.nextReleaseFrame, Max(c.roomFrame, c.nextReleaseFrame))
              && Release(c, t).0.roomFrame == Max(c.roomFrame, c.nextReleaseFrame)
  {
    ReleaseNeedsHost(c, t);
    HostCoversExactlyWhen(c, c.nextReleaseFrame);
  }

  /** What else a tick does: a due start begins play for everyone connected, and in play a pending delay is taken
      over exactly when the release cursor has reached its frame. */
  lemma TickBeginsPlay(c: Clock, t: nat)
    ensures var d := Release(c, t).0;
            && d.status == (if InPlayBy(c, t) then RoomPlaying else c.status)
            && |d.players| == |c.players|
            && (forall i :: 0 <= i < |c.players| ==>
                  d.players[i] == if InPlayBy(c, t) && c.status == StartScheduled && c.players[i].connected
                                  then c.players[i].(status := Playing, runtime := RuntimePlaying) else c.players[i])
            && (if InPlayBy(c, t) && c.pendingDelay.Some? && c.pendingDelay.value.effectiveFrame <= c.nextReleaseFrame
                then d.pendingDelay.None? && d.inputDelayFrames == c.pendingDelay.value.inputDelayFrames
                else d.pendingDelay == c.pendingDelay && d.inputDelayFrames == c.inputDelayFrames)
            && d.scheduledStartMs == c.scheduledStartMs && d.pauseAtFrame == c.pauseAtFrame && d.strict == c.strict
  {
  }

  /** A reset forgets all that a release could rest on: until new input is accepted no tick releases anything, and
      the pause, the schedule and the pending delay are gone. */
  lemma ResetForgets(c: Clock, startFrame: U64, t: nat)
    ensures var d := ResetTo(c, startFrame);
            && Release(d, t).1.None? && d.lastInputFrames == map[] && d.nextInputFrames == map[]
            && d.pauseAtFrame.None? && d.pendingDelay.None? && d.scheduledStartMs.None?
            && d.syncStartFrame == d.roomFrame == d.nextReleaseFrame == startFrame && d.releasedFrame.None?
            && d.status == c.status && d.players == c.players && d.inputDelayFrames == c.inputDelayFrames
            && d.roomEpoch == c.roomEpoch && d.sessionEpoch == c.sessionEpoch && d.strict == c.strict
  {
    ReleasesExactlyWhen(ResetTo(c, startFrame), t);
    assert !HostCovers(ResetTo(c, startFrame), startFrame);
  }

  /** The log runs start, start + 1, start + 2, ... up to the 64-bit ceiling, and the cursors stand at its end. */
  predicate InRow(c: Clock, trace: Trace) {
    && (forall k :: 0 <= k < |trace.log| ==> trace.log[k].released.frame == Min(c.nextReleaseFrame + k, U64_MAX))
    && (forall k :: 0 <= k < |trace.log| ==> Due(trace.log[k]))
    && trace.clock.nextReleaseFrame == Min(c.nextReleaseFrame + |trace.log|, U64_MAX)
    && trace.clock.releasedFrame == (if trace.log == [] then c.releasedFrame
                                     else Some(trace.log[|trace.log| - 1].released.frame))
  }

  lemma AfterStaysInRow(c: Clock, trace: Trace, event: ClockEvent)
    requires InRow(c, trace) && (event.Disturbed? ==> KeepsCursors(trace.clock, event.room))
    ensures InRow(c, After(trace, event))
  {
    if event.Tick? {
      var t := event.serverTimeMs;
      ReleaseMovesCursor(trace.clock, t);
      var (next, released) := Release(trace.clock, t);
      if released.Some? {
        ReleaseIsDue(trace.clock, t);
        var deadline := if trace.clock.status == StartScheduled then trace.clock.scheduledStartMs else None;
        RowGrows(c, trace, next, Entry(released.value, HostInput(trace.clock), deadline, t));
      }
    }
  }

  lemma RowGrows(c: Clock, trace: Trace, next: Clock, entry: Entry)
    requires InRow(c, trace) && Due(entry)
    requires entry.released.frame == trace.clock.nextReleaseFrame
    requires next.releasedFrame == Some(entry.released.frame)
    requires next.nextReleaseFrame == Min(entry.released.frame + 1, U64_MAX)
    ensures InRow(c, Trace(next, trace.log + [entry]))
  {
  }

  /** However the room changes between ticks, the released frames are start, start + 1, start + 2, ... up
      to the 64-bit ceiling, each of them due when it was released. */
  lemma {:induction false} FramesAreConsecutive(c: Clock, events: seq<ClockEvent>)
    requires LawfulRun(c, events)
    ensures InRow(c, Run(c, events))
    decreases |events|
  {
    if events != [] {
      FramesAreConsecutive(c, events[..|events| - 1]);
      AfterStaysInRow(c, Run(c, events[..|events| - 1]), events[|events| - 1]);
    }
  }

  // The scheduled start

  /** Seats, sockets, reports, input and pauses may change; the schedule and the release cursors do not. */
  predicate KeepsSchedule(c: Clock, d: Clock) {
    KeepsCursors(c, d) && d.status == c.status && d.scheduledStartMs == c.scheduledStartMs
  }

  /** Ticks at nondecreasing times, and otherwise only what leaves the schedule alone. */
  predicate Waiting(c: Clock, events: seq<ClockEvent>)
    decreases |events|
  {
    events == [] ||
    (&& Waiting(c, events[..|events| - 1])
     && match events[|events| - 1]
        case Disturbed(room) => KeepsSchedule(Run(c, events[..|events| - 1]).clock, room)
        case Tick(t) => forall i :: 0 <= i < |events| - 1 && events[i].Tick? ==> events[i].serverTimeMs <= t)
  }

  /** From a scheduled start on, no frame at all is released before the deadline. */
  lemma {:induction false} NoFrameBeforeTheDeadline(c: Clock, events: seq<ClockEvent>, deadline: nat)
    requires c.status == StartScheduled && c.scheduledStartMs == Some(deadline) && Waiting(c, events)
    ensures var trace := Run(c, events);
            && (forall k :: 0 <= k < |trace.log| ==> deadline <= trace.log[k].atMs)
            && (|| (trace.clock.status == StartScheduled && trace.clock.scheduledStartMs == Some(deadline))
                || exists i :: 0 <= i < |events| && events[i].Tick? && deadline <= events[i].serverTimeMs)
    decreases |events|
  {
    if events != [] {
      var front, last := events[..|events| - 1], events[|events| - 1];
      NoFrameBeforeTheDeadline(c, front, deadline);
      assert forall i :: 0 <= i < |front| ==> front[i] == events[i];
      var before := Run(c, front).clock;
      if !(before.status == StartScheduled && before.scheduledStartMs == Some(deadline)) {
        var i :| 0 <= i < |front| && front[i].Tick? && deadline <= front[i].serverTimeMs;
        assert events[i].Tick? && deadline <= events[i].serverTimeMs;
      } else if last.Tick? && deadline <= last.serverTimeMs {
        assert events[|events| - 1].Tick?;
      }
    }
  }
}
