/** Binary input sockets: who speaks through one, and what its closing does to the
    room's input cursors and its session. */
module InputSockets {
  import opened Prelude
  import opened RoomTypes
  import opened FrameClock

  /** The frame a player's next input is expected to carry. */
  function CursorOf(c: Clock, playerIndex: PlayerIndex): U64 {
    if playerIndex in c.nextInputFrames then c.nextInputFrames[playerIndex] else c.syncStartFrame
  }

  function SeatHolding(players: seq<Seat>, connectionId: ConnectionId): (k: nat)
    ensures k <= |players|
    ensures k < |players| ==> players[k].inputConnectionId == Some(connectionId)
    ensures forall j :: 0 <= j < k ==> players[j].inputConnectionId != Some(connectionId)
  {
    IndexWhere(players, (seat: Seat) => seat.inputConnectionId == Some(connectionId))
  }

  /** The player a socket speaks for. */
  function OwnerOf(c: Clock, connectionId: ConnectionId): Option<PlayerIndex> {
    var k := SeatHolding(c.players, connectionId);
    if k < |c.players| then Some(c.players[k].playerIndex) else None
  }

  /** Seats keep their players and roles; whatever else happens to them. */
  predicate SameSeats(before: seq<Seat>, after: seq<Seat>) {
    && |after| == |before|
    && forall k :: 0 <= k < |before| ==>
         after[k].playerIndex == before[k].playerIndex && after[k].role == before[k].role
  }

  /** No two seats share a player or a socket. */
  predicate SeatsValid(players: seq<Seat>) {
    forall i, k :: 0 <= i < k < |players| ==>
      && players[i].playerIndex != players[k].playerIndex
      && (players[i].inputConnectionId.Some? ==> players[i].inputConnectionId != players[k].inputConnectionId)
  }

  lemma HolderSpeaks(c: Clock, k: nat)
    requires SeatsValid(c.players) && k < |c.players| && c.players[k].inputConnectionId.Some?
    ensures SeatHolding(c.players, c.players[k].inputConnectionId.value) == k
    ensures OwnerOf(c, c.players[k].inputConnectionId.value) == Some(c.players[k].playerIndex)
  {
    var found := SeatHolding(c.players, c.players[k].inputConnectionId.value);
    assert found <= k;
  }

  // Closing a socket

  datatype SocketError = UnknownConnection

  predicate Recoverable(status: RoomStatus) {
    status in {StartScheduled, RoomPlaying, RoomPaused, Recovering}
  }

  /** The seat without its socket, and the player without input cursors. */
  function Silenced(c: Clock, k: nat): Clock
    requires k < |c.players|
  {
    var p := c.players[k].playerIndex;
    c.(players := c.players[k := c.players[k].(inputConnectionId := None)],
       lastInputFrames := c.lastInputFrames - {p}, nextInputFrames := c.nextInputFrames - {p})
  }

  function Away(seat: Seat): Seat {
    seat.(connected := false, inputConnectionId := None, status := PlayerStatus.Reconnecting,
          runtime := RuntimeReconnecting)
  }

  function WaitingSeat(seat: Seat): Seat {
    if seat.connected then seat.(status := PlayerStatus.Connected, runtime := RuntimeConnected) else seat
  }

  function WaitingSeats(players: seq<Seat>): (r: seq<Seat>)
    ensures |r| == |players|
    ensures forall i :: 0 <= i < |r| ==> r[i] == WaitingSeat(players[i])
  {
    seq(|players|, i requires 0 <= i < |players| => WaitingSeat(players[i]))
  }

  /** Recovery starts the room over at frame 0, under new epochs. */
  function Recover(c: Clock): Clock {
    ResetTo(c, 0).(status := Recovering, players := WaitingSeats(c.players),
                   roomEpoch := Min(c.roomEpoch + 1, U64_MAX), sessionEpoch := Min(c.sessionEpoch + 1, U64_MAX))
  }

  /** `handoff` says that the seat's runner hand-off is still open: then the room starts over under the
      epochs it has. */
  function CloseSocket(c: Clock, connectionId: ConnectionId, handoff: bool): (Clock, Result<bool, SocketError>) {
    var k := SeatHolding(c.players, connectionId);
    if k == |c.players| then (c, Err(UnknownConnection))
    else if !Recoverable(c.status) then (Silenced(c, k), Ok(false))
    else if !c.players[k].connected then (Silenced(c, k), Err(UnknownConnection))
    else
      var away := Silenced(c, k).(players := c.players[k := Away(c.players[k])]);
      if handoff then (ResetTo(away, 0), Ok(true))
      else if c.status == Recovering then (away, Ok(true))
      else (Recover(away), Ok(true))
  }

  method MarkSeatsConnected(room: FrameClockRoom)
    modifies room`players
    ensures room.players == WaitingSeats(old(room.players))
  {
    var i := 0;
    while i < |room.players|
      invariant i <= |room.players| == |old(room.players)|
      invariant forall j :: 0 <= j < i ==> room.players[j] == WaitingSeat(old(room.players)[j])
      invariant forall j :: i <= j < |room.players| ==> room.players[j] == old(room.players)[j]
    {
      if room.players[i].connected {
        room.players := room.players[i := room.players[i].(status := PlayerStatus.Connected,
                                                           runtime := RuntimeConnected)];
      }
      i := i + 1;
    }
  }

  method EnterRecovery(room: FrameClockRoom)
    modifies room
    ensures room.Value() == Recover(old(room.Value()))
  {
    room.ResetSyncStateTo(0);
    room.status := Recovering;
    room.roomEpoch := Min(room.roomEpoch + 1, U64_MAX);
    room.sessionEpoch := Min(room.sessionEpoch + 1, U64_MAX);
    MarkSeatsConnected(room);
  }

  method DisconnectInputSocket(room: FrameClockRoom, connectionId: ConnectionId, handoff: bool)
    returns (r: Result<bool, SocketError>)
    modifies room
    ensures (room.Value(), r) == CloseSocket(old(room.Value()), connectionId, handoff)
  {
    var k := SeatHolding(room.players, connectionId);
    if k == |room.players| {
      return Err(UnknownConnection);
    }
    var seat := room.players[k];
    room.players := room.players[k := seat.(inputConnectionId := None)];
    room.lastInputFrames := room.lastInputFrames - {seat.playerIndex};
    room.nextInputFrames := room.nextInputFrames - {seat.playerIndex};
    if !Recoverable(room.status) {
      return Ok(false);
    }
    if !seat.connected {
      return Err(UnknownConnection);
    }
    room.players := room.players[k := Away(seat)];
    assert room.players == old(room.players)[k := Away(seat)];
    if handoff {
      room.ResetSyncStateTo(0);
    } else if room.status != Recovering {
      EnterRecovery(room);
    }
    r := Ok(true);
  }

  /** Whether a closing starts the room over. */
  predicate EndsSession(c: Clock, connectionId: ConnectionId, handoff: bool) {
    var k := SeatHolding(c.players, connectionId);
    k < |c.players| && Recoverable(c.status) && c.players[k].connected && (handoff || c.status != Recovering)
  }

  /** A closing that starts the room over leaves no cursor and no release; the epochs move, short of their
      ceiling, unless a hand-off is open. */
  lemma EndedSessionIsReset(c: Clock, connectionId: ConnectionId, handoff: bool)
    requires EndsSession(c, connectionId, handoff)
    ensures var d := CloseSocket(c, connectionId, handoff).0;
            && d.nextInputFrames == map[] && d.releasedFrame.None? && d.syncStartFrame == d.nextReleaseFrame == 0
            && (handoff ==> d.roomEpoch == c.roomEpoch && d.sessionEpoch == c.sessionEpoch)
            && (!handoff && c.roomEpoch < U64_MAX ==> d.roomEpoch == c.roomEpoch + 1)
  {
  }

  /** The statuses in which gameplay depends on every input socket. */
  predicate DependsOnSockets(status: RoomStatus) {
    status == StartScheduled || status == RoomPlaying || status == RoomPaused || status == Recovering
  }

  /** What a closing answers: an unknown socket is refused; outside gameplay, and for a seat that is already away,
      only the socket and the cursor go; otherwise recovery or the hand-off follows. */
  lemma ClosingAnswers(c: Clock, connectionId: ConnectionId, handoff: bool)
    ensures var (d, r) := CloseSocket(c, connectionId, handoff);
            var k := SeatHolding(c.players, connectionId);
            if k == |c.players| then d == c && r == Err(UnknownConnection)
            else if DependsOnSockets(c.status) && c.players[k].connected then r == Ok(true)
            else && r == (if DependsOnSockets(c.status) then Err(UnknownConnection) else Ok(false))
                 && d.players == c.players[k := c.players[k].(inputConnectionId := None)]
                 && d == c.(players := d.players, lastInputFrames := d.lastInputFrames,
                            nextInputFrames := d.nextInputFrames)
                 && d.lastInputFrames == c.lastInputFrames - {c.players[k].playerIndex}
                 && d.nextInputFrames == c.nextInputFrames - {c.players[k].playerIndex}
  {
  }

  /** The seats after a closing during gameplay: its own is away, and when the room enters recovery every other
      connected one waits again; the status is Recovering then, and stays what it was under an open hand-off. */
  lemma ClosingMovesSeatsAway(c: Clock, connectionId: ConnectionId, handoff: bool)
    requires var k := SeatHolding(c.players, connectionId);
             k < |c.players| && DependsOnSockets(c.status) && c.players[k].connected
    ensures var d, k := CloseSocket(c, connectionId, handoff).0, SeatHolding(c.players, connectionId);
            && |d.players| == |c.players|
            && d.status == (if handoff then c.status else Recovering)
            && d.players[k] == Seat(c.players[k].playerIndex, c.players[k].role, false, None,
                                    PlayerStatus.Reconnecting, RuntimeReconnecting)
            && (forall i :: 0 <= i < |c.players| && i != k ==>
                  d.players[i] == if !handoff && c.status != Recovering && c.players[i].connected
                                  then c.players[i].(status := PlayerStatus.Connected, runtime := RuntimeConnected)
                                  else c.players[i])
            && (EndsSession(c, connectionId, handoff) ==>
                  && d.lastInputFrames == map[] && d.pauseAtFrame.None? && d.pendingDelay.None?
                  && d.scheduledStartMs.None? && d.roomFrame == 0)
            && (EndsSession(c, connectionId, handoff) <==> handoff || c.status != Recovering)
  {
  }

  /** The player loses input cursors without a reset. */
  predicate Drops(c: Clock, d: Clock, p: PlayerIndex) {
    p in c.nextInputFrames && p !in d.nextInputFrames
  }

  /** A closing within a session takes the socket from one seat and drops that player's cursor if there is
      one; nothing else moves. */
  lemma ClosingDropsExactlyWhen(c: Clock, connectionId: ConnectionId, handoff: bool, p: PlayerIndex)
    requires !EndsSession(c, connectionId, handoff)
    ensures var d := CloseSocket(c, connectionId, handoff).0;
            && (Drops(c, d, p) <==> OwnerOf(c, connectionId) == Some(p) && p in c.nextInputFrames)
            && (OwnerOf(c, connectionId) != Some(p) ==> CursorOf(d, p) == CursorOf(c, p))
            && (forall q :: q in d.nextInputFrames ==>
                  q in c.nextInputFrames && d.nextInputFrames[q] == c.nextInputFrames[q])
  {
  }

  lemma ClosingKeepsRest(c: Clock, connectionId: ConnectionId, handoff: bool)
    requires !EndsSession(c, connectionId, handoff)
    ensures var d := CloseSocket(c, connectionId, handoff).0;
            && KeepsCursors(c, d) && d.roomFrame == c.roomFrame && d.syncStartFrame == c.syncStartFrame
            && d.roomEpoch == c.roomEpoch && d.sessionEpoch == c.sessionEpoch
            && d.status == c.status && d.strict == c.strict && SameSeats(c.players, d.players)
            && (forall k :: 0 <= k < |c.players| ==>
                  d.players[k].inputConnectionId
                  == if k == SeatHolding(c.players, connectionId) then None else c.players[k].inputConnectionId)
  {
  }

  lemma ClosingKeepsSeatsValid(c: Clock, connectionId: ConnectionId, handoff: bool)
    requires !EndsSession(c, connectionId, handoff) && SeatsValid(c.players)
    ensures SeatsValid(CloseSocket(c, connectionId, handoff).0.players)
  {
    ClosingKeepsRest(c, connectionId, handoff);
  }
}
