/** Whose seat is whose: what joining, leaving and reconnecting mean for the seats,
    over whole runs of the lobby. */
module LobbySeats {
  import opened Prelude
  import opened LobbyState
  import opened LobbyOps
  import opened LobbyInvariant
  import opened LobbyRuns

  predicate Owns(s: State, seat: nat, identityKey: string) {
    seat < |s.players| && s.players[seat].subjectKey == Some(identityKey)
  }

  predicate HasRoomFor(s: State, identityKey: string) {
    exists i :: 0 <= i < |s.players| && (s.players[i].subjectKey.None? || Owns(s, i, identityKey))
  }

  /** Nobody but one seat's holder is affected. */
  predicate OnlySeatChanged(before: seq<PlayerSlot>, after: seq<PlayerSlot>, seat: nat) {
    |after| == |before| && forall i :: 0 <= i < |before| && i != seat ==> after[i] == before[i]
  }

  /** A join succeeds unless the lobby is closed or others hold every seat. */
  lemma JoinSucceedsWhen(s: State, claim: Claim)
    requires Valid(s)
    ensures Join(s, claim).result.Ok? <==> s.status != Closed && HasRoomFor(s, claim.license.identityKey)
  {
    var own, free := SlotOf(s.players, claim.license.identityKey), FreeSlot(s.players);
    assert forall i :: 0 <= i < |s.players| ==> SlotValid(s.players[i], i);
    if own < |s.players| {
      assert Owns(s, own, claim.license.identityKey);
    } else if free < |s.players| {
      assert s.players[free].subjectKey.None?;
    }
  }

  lemma OccupiedSeatIsOwned(s: State, t: State, seat: nat, role: Role, claim: Claim)
    requires SlotsValid(s.players) && SlotsValid(t.players) && seat < |s.players|
    requires t.players == s.players[seat := Occupy(s.players[seat], role, claim)]
    ensures forall i :: Owns(t, i, claim.license.identityKey) <==> i == seat
    ensures forall i :: Owns(s, i, claim.license.identityKey) ==> i == seat
    ensures Requester(t, claim.connectionId) == Ok(t.players[seat])
  {
    RequesterIsHolder(t, claim.connectionId);
    assert t.players[seat].connectionId == Some(claim.connectionId);
    forall i | 0 <= i < |s.players| && i != seat
      ensures !Owns(t, i, claim.license.identityKey) && !Owns(s, i, claim.license.identityKey)
    {
      assert t.players[i] == s.players[i];
      assert !SameOwner(t.players[if i < seat then i else seat], t.players[if i < seat then seat else i]);
    }
  }

  /** A join takes exactly one seat: the player's own if there is one, with its role, otherwise the lowest
      free one; the connection then speaks for that seat, and no other seat changes. */
  lemma JoinTakesOneSeat(s: State, claim: Claim)
    requires Valid(s) && Unheld(s.players, claim.connectionId) && Join(s, claim).result.Ok?
    ensures var key, o := claim.license.identityKey, Join(s, claim);
            var seat := o.result.value;
            && seat < |s.players| && OnlySeatChanged(s.players, o.state.players, seat)
            && (forall i :: Owns(o.state, i, key) <==> i == seat)
            && Requester(o.state, claim.connectionId) == Ok(o.state.players[seat])
            && o.state.players[seat].role == s.players[seat].role
            && (forall i :: Owns(s, i, key) ==> i == seat)
            && (!Owns(s, seat, key) ==> forall i :: 0 <= i < seat ==> s.players[i].subjectKey.Some?)
  {
    JoinKeepsValid(s, claim);
    var own, free := SlotOf(s.players, claim.license.identityKey), FreeSlot(s.players);
    var seat, t := if own < |s.players| then own else free, Join(s, claim).state;
    assert SlotValid(s.players[seat], seat);
    OccupiedSeatIsOwned(s, t, seat, s.players[seat].role, claim);
  }

  // Connections that are gone stay gone

  lemma FrameKeepsAway(s: State, call: Call, t: Step, connectionId: ConnectionId)
    requires Frame(s, call, t) && Unheld(s.players, connectionId)
    requires call.JoinCall? || call.ReconnectCall? ==> call.claim.connectionId != connectionId
    ensures Unheld(t.state.players, connectionId)
  {
    forall i | 0 <= i < |t.state.players| ensures t.state.players[i].connectionId != Some(connectionId) {
      assert SlotMoves(s.players[i], t.state.players[i], call, t.effect);
    }
  }

  function CallerOf(call: Call): Option<ConnectionId> {
    match call
    case JoinCall(_) => None
    case ReconnectCall(_, _, _) => None
    case IdleCall(_) => None
    case ReturnCall(request) => Some(request.connectionId)
    case _ => Some(call.connectionId)
  }

  lemma StrangersAreRefused(s: State, call: Call, connectionId: ConnectionId)
    requires SlotsValid(s.players) && Unheld(s.players, connectionId) && CallerOf(call) == Some(connectionId)
    ensures Apply(s, call).state == s
    ensures Apply(s, call).effect
         == (if call.DisconnectCall? then NoChange
             else if call.RemoveCall? && call.lobbyEpoch != s.lobbyEpoch then Rejected(StaleLobbyEpoch)
             else Rejected(UnknownConnection))
  {
    RequesterIsHolder(s, connectionId);
  }

  lemma {:induction false} GoneStaysGone(w: World, calls: seq<Call>, connectionId: ConnectionId)
    requires WorldValid(w) && FreshRun(w, calls)
    requires connectionId in w.connections && Unheld(w.lobby.players, connectionId)
    ensures WorldValid(Play(w, calls)) && connectionId in Play(w, calls).connections
    ensures Unheld(Play(w, calls).lobby.players, connectionId)
    decreases |calls|
  {
    if calls != [] {
      var front, call := calls[..|calls| - 1], calls[|calls| - 1];
      GoneStaysGone(w, front, connectionId);
      var before := Play(w, front);
      AfterKeepsWorld(before, call);
      ApplyFrame(before.lobby, call);
      AfterRecords(before, call);
      FrameKeepsAway(before.lobby, call, Apply(before.lobby, call), connectionId);
    }
  }

  /** A connection that has left, was removed, was replaced or dropped can do nothing for the rest of the run. */
  lemma GoneConnectionsArePowerless(w: World, calls: seq<Call>, call: Call, connectionId: ConnectionId)
    requires WorldValid(w) && FreshRun(w, calls)
    requires connectionId in w.connections && Unheld(w.lobby.players, connectionId)
    requires CallerOf(call) == Some(connectionId)
    ensures Apply(Play(w, calls).lobby, call).state == Play(w, calls).lobby
    ensures !Apply(Play(w, calls).lobby, call).effect.Changed? && !Apply(Play(w, calls).lobby, call).effect.Touched?
  {
    GoneStaysGone(w, calls, connectionId);
    StrangersAreRefused(Play(w, calls).lobby, call, connectionId);
  }

  lemma HolderIsUnique(s: State, connectionId: ConnectionId, k: nat)
    requires SlotsValid(s.players) && k < |s.players| && s.players[k].connectionId == Some(connectionId)
    ensures forall i :: 0 <= i < |s.players| && i != k ==> s.players[i].connectionId != Some(connectionId)
  {
    forall i | 0 <= i < |s.players| && i != k ensures s.players[i].connectionId != Some(connectionId) {
      assert !SameOwner(s.players[if i < k then i else k], s.players[if i < k then k else i]);
    }
  }

  /** Leaving ends the connection's hold, whether the seat is emptied or the lobby closes. */
  lemma LeavingReleases(s: State, connectionId: ConnectionId, nowMs: Millis)
    requires Valid(s) && Leave(s, connectionId, nowMs).result.Ok?
    ensures Unheld(Leave(s, connectionId, nowMs).state.players, connectionId)
  {
    RequesterIsHolder(s, connectionId);
    var k := Requester(s, connectionId).value.playerIndex;
    HolderIsUnique(s, connectionId, k);
    LeaveKeepsValid(s, connectionId, nowMs);
    assert SlotValid(s.players[k], k);
  }

  /** A dropped connection ends its hold, but the seat stays with its player. */
  lemma DroppingReleases(s: State, connectionId: ConnectionId, nowMs: Millis)
    requires Valid(s)
    ensures var t := Disconnect(s, connectionId, nowMs).state;
            && Unheld(t.players, connectionId)
            && |t.players| == |s.players|
            && forall i :: 0 <= i < |s.players| ==>
                 && t.players[i].subjectKey == s.players[i].subjectKey
                 && t.players[i].resumeTokenHash == s.players[i].resumeTokenHash
                 && (s.players[i].connectionId == Some(connectionId) ==> Waiting(t.players[i]))
  {
    var k := SlotHolding(s.players, connectionId);
    if k < |s.players| {
      HolderIsUnique(s, connectionId, k);
      assert SlotValid(s.players[k], k);
    }
  }

  /** Removal empties the seat and names the connection whose hold it ended. */
  lemma RemovalReleases(s: State, requester: ConnectionId, lobbyEpoch: nat, target: PlayerIndex, nowMs: Millis)
    requires Valid(s) && RemovePlayer(s, requester, lobbyEpoch, target, nowMs).result.Ok?
    ensures var o := RemovePlayer(s, requester, lobbyEpoch, target, nowMs);
            && 0 < target < |s.players| && o.state.players[target] == EmptySlot(target)
            && OnlySeatChanged(s.players, o.state.players, target)
            && o.result.value == Removal(target, s.players[target].connectionId)
            && (o.result.value.connectionId.Some? ==> Unheld(o.state.players, o.result.value.connectionId.value))
  {
    var k := SlotAt(s.players, target);
    assert SlotValid(s.players[k], k);
    if s.players[k].connectionId.Some? {
      HolderIsUnique(s, s.players[k].connectionId.value, k);
    }
  }

  // A seat waits for its player

  /** Calls that are not about the seat's absent player: no one joins or reconnects as that player, and the
      host does not remove the seat. */
  predicate LeavesAlone(call: Call, seat: nat, identityKey: string) {
    && (call.JoinCall? || call.ReconnectCall? ==> call.claim.license.identityKey != identityKey)
    && (call.RemoveCall? ==> call.target != seat)
  }

  predicate Waiting(slot: PlayerSlot) {
    slot.subjectKey.Some? && slot.connectionId.None?
  }

  predicate Spared(s: State, t: State, seat: nat)
    requires seat < |s.players|
  {
    t.status == Closed || (|t.players| == |s.players| && t.players[seat] == s.players[seat])
  }

  lemma JoinSpares(s: State, claim: Claim, seat: nat)
    requires Valid(s) && seat < |s.players| && Waiting(s.players[seat])
    requires claim.license.identityKey != s.players[seat].subjectKey.value
    ensures Spared(s, Join(s, claim).state, seat)
  {
    assert SlotValid(s.players[seat], seat);
  }

  lemma ReconnectSpares(s: State, i: PlayerIndex, epoch: nat, claim: Claim, seat: nat)
    requires Valid(s) && seat < |s.players| && Waiting(s.players[seat])
    requires claim.license.identityKey != s.players[seat].subjectKey.value
    ensures Spared(s, Reconnect(s, i, epoch, claim).state, seat)
  {
  }

  lemma DisconnectSpares(s: State, c: ConnectionId, now: Millis, seat: nat)
    requires seat < |s.players| && Waiting(s.players[seat])
    ensures Spared(s, Disconnect(s, c, now).state, seat)
  {
  }

  lemma LeaveSpares(s: State, c: ConnectionId, now: Millis, seat: nat)
    requires Valid(s) && seat < |s.players| && Waiting(s.players[seat])
    ensures Spared(s, Leave(s, c, now).state, seat)
  {
    RequesterIsHolder(s, c);
  }

  lemma RemoveSpares(s: State, c: ConnectionId, epoch: nat, target: PlayerIndex, now: Millis, seat: nat)
    requires Valid(s) && seat < |s.players| && target != seat
    ensures Spared(s, RemovePlayer(s, c, epoch, target, now).state, seat)
  {
    assert SlotValid(s.players[seat], seat);
  }

  /** No other call than these touches the seats. */
  lemma OthersKeepSeats(s: State, call: Call)
    requires !call.JoinCall? && !call.ReconnectCall? && !call.DisconnectCall? && !call.LeaveCall? && !call.RemoveCall?
    ensures Apply(s, call).state.players == s.players || Apply(s, call).state.status == Closed
  {
  }

  lemma OneCallSpares(s: State, call: Call, seat: nat)
    requires Valid(s) && seat < |s.players| && Waiting(s.players[seat])
    requires LeavesAlone(call, seat, s.players[seat].subjectKey.value)
    ensures Spared(s, Apply(s, call).state, seat)
  {
    match call
    case JoinCall(claim) => JoinSpares(s, claim, seat);
    case ReconnectCall(i, epoch, claim) => ReconnectSpares(s, i, epoch, claim, seat);
    case DisconnectCall(c, now) => DisconnectSpares(s, c, now, seat);
    case LeaveCall(c, now) => LeaveSpares(s, c, now, seat);
    case RemoveCall(c, epoch, target, now) => RemoveSpares(s, c, epoch, target, now, seat);
    case _ => OthersKeepSeats(s, call);
  }

  /** The seat of an absent player stays exactly as it was, whatever the others do, until the lobby closes. */
  lemma {:induction false} SeatWaits(w: World, calls: seq<Call>, seat: nat)
    requires WorldValid(w) && FreshRun(w, calls) && seat < |w.lobby.players| && Waiting(w.lobby.players[seat])
    requires forall k :: 0 <= k < |calls| ==> LeavesAlone(calls[k], seat, w.lobby.players[seat].subjectKey.value)
    ensures WorldValid(Play(w, calls))
    ensures Spared(w.lobby, Play(w, calls).lobby, seat)
    decreases |calls|
  {
    if calls != [] {
      var front, call := calls[..|calls| - 1], calls[|calls| - 1];
      assert forall k :: 0 <= k < |front| ==> front[k] == calls[k];
      SeatWaits(w, front, seat);
      var before := Play(w, front);
      AfterKeepsWorld(before, call);
      if before.lobby.status == Closed {
        ClosedIgnores(before.lobby, call);
      } else {
        OneCallSpares(before.lobby, call, seat);
      }
    }
  }

  /** Reconnecting to a seat works exactly with its token in an open lobby, and keeps the seat's role. */
  predicate ComesBack(s: State, slot: PlayerSlot, seat: nat, lobbyEpoch: nat, claim: Claim) {
    var back := Reconnect(s, seat, lobbyEpoch, claim);
    && (back.result.Ok? <==> && s.status != Closed && lobbyEpoch <= s.lobbyEpoch
                             && slot.resumeTokenHash == Some(claim.resumeTokenHash))
    && (back.result.Ok? ==>
          && back.result.value == seat && Owns(back.state, seat, claim.license.identityKey)
          && back.state.players[seat].role == slot.role
          && Requester(back.state, claim.connectionId) == Ok(back.state.players[seat])
          && OnlySeatChanged(s.players, back.state.players, seat))
  }

  lemma OwnerComesBack(s: State, seat: nat, lobbyEpoch: nat, claim: Claim)
    requires Valid(s) && Owns(s, seat, claim.license.identityKey) && Unheld(s.players, claim.connectionId)
    ensures ComesBack(s, s.players[seat], seat, lobbyEpoch, claim)
  {
    assert SlotValid(s.players[seat], seat);
    assert SlotAt(s.players, seat) == seat;
    var back := Reconnect(s, seat, lobbyEpoch, claim);
    if back.result.Ok? {
      ReconnectKeepsValid(s, seat, lobbyEpoch, claim);
      OccupiedSeatIsOwned(s, back.state, seat, s.players[seat].role, claim);
    }
  }

  /** An absent player who presents the token last issued gets the same seat and role back, whatever the
      others did meanwhile, unless the lobby has closed; any other token is refused. */
  lemma AbsentPlayerCanReturn(w: World, calls: seq<Call>, seat: nat, lobbyEpoch: nat, claim: Claim)
    requires WorldValid(w) && FreshRun(w, calls) && seat < |w.lobby.players| && Waiting(w.lobby.players[seat])
    requires claim.license.identityKey == w.lobby.players[seat].subjectKey.value
    requires claim.connectionId !in Play(w, calls).connections
    requires forall k :: 0 <= k < |calls| ==> LeavesAlone(calls[k], seat, claim.license.identityKey)
    ensures ComesBack(Play(w, calls).lobby, w.lobby.players[seat], seat, lobbyEpoch, claim)
  {
    SeatWaits(w, calls, seat);
    var later := Play(w, calls);
    if later.lobby.status != Closed {
      assert Unheld(later.lobby.players, claim.connectionId);
      OwnerComesBack(later.lobby, seat, lobbyEpoch, claim);
    }
  }

  // Readiness answers with the latest report

  lemma RecordedReads(before: seq<Readiness>, entry: Readiness, player: PlayerIndex)
    requires OneEntryPerPlayer(before)
    ensures HasReadyEntry(Recorded(before, entry), player, entry.proposalId)
       <==> if player == entry.playerIndex then entry.status == Ready
            else HasReadyEntry(before, player, entry.proposalId)
  {
    var after, k := Recorded(before, entry), EntryOf(before, entry.playerIndex);
    assert after[k] == entry;
    assert forall j :: 0 <= j < |before| && j != k ==>
             after[j] == before[j] && before[j].playerIndex != entry.playerIndex;
    if player == entry.playerIndex {
      assert IsReadyFor(after[k], player, entry.proposalId) <==> entry.status == Ready;
    } else {
      if HasReadyEntry(before, player, entry.proposalId) {
        var j :| 0 <= j < |before| && IsReadyFor(before[j], player, entry.proposalId);
        assert IsReadyFor(after[j], player, entry.proposalId);
      }
      if HasReadyEntry(after, player, entry.proposalId) {
        var j :| 0 <= j < |after| && IsReadyFor(after[j], player, entry.proposalId);
        assert IsReadyFor(before[j], player, entry.proposalId);
      }
    }
  }

  /** A readiness report is what the lobby reads back for that player, and no other player's answer changes. */
  lemma ReadinessIsLatest(s: State, connectionId: ConnectionId, proposalId: ProposalId, status: ReadinessStatus,
                          detail: CleanDetail, nowMs: Millis, player: PlayerIndex)
    requires Valid(s) && SetReadiness(s, connectionId, proposalId, status, detail, nowMs).result.Ok?
    ensures var t := SetReadiness(s, connectionId, proposalId, status, detail, nowMs).state;
            HasReadyEntry(t.gameReadiness, player, proposalId)
            <==> if s.players[SlotHolding(s.players, connectionId)].playerIndex == player then status == Ready
                 else HasReadyEntry(s.gameReadiness, player, proposalId)
  {
    RequesterIsHolder(s, connectionId);
    var entry := SetReadiness(s, connectionId, proposalId, status, detail, nowMs).result.value;
    RecordedReads(s.gameReadiness, entry, player);
  }
}
