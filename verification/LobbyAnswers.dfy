/** What each lobby call answers and leaves behind, told from the seats, the selected game
    and the launch: exactly when it succeeds, why it is refused otherwise, and all that a
    success changes. */
module LobbyAnswers {
  import opened Prelude
  import opened LobbyState
  import opened LobbyOps
  import opened LobbyInvariant
  import opened LobbyRuns
  import opened LobbySeats
  import opened LobbyRelay

  /** The seat's connection; seat 0 is the host's. */
  predicate Holds(s: State, seat: nat, c: ConnectionId) {
    seat < |s.players| && s.players[seat].connectionId == Some(c)
  }

  /** The proposal is the selected one. */
  predicate Offers(s: State, p: ProposalId) {
    s.selectedGame.Some? && s.selectedGame.value.proposalId == p
  }

  predicate Launching(s: State, p: ProposalId) {
    s.pendingLaunch.Some? && s.pendingLaunch.value.proposalId == p
  }

  /** The state but for its counters and clocks. */
  function Rest(s: State): State {
    s.(eventSeq := 0, lobbyEpoch := 0, updatedAtMs := 0, lastMeaningfulActivityAtMs := 0)
  }

  /** In a valid lobby a connection speaks for the one seat that holds it. */
  lemma SpeaksForSeat(s: State, seat: nat, c: ConnectionId)
    requires SlotsValid(s.players) && Holds(s, seat, c)
    ensures Requester(s, c) == Ok(s.players[seat]) && s.players[seat].playerIndex == seat
    ensures s.players[seat].role == Host <==> seat == 0
    ensures SlotAt(s.players, seat) == seat && SlotHolding(s.players, c) == seat
  {
    RequesterIsHolder(s, c);
    HolderIsUnique(s, c, seat);
    assert SlotValid(s.players[seat], seat);
    assert forall i :: 0 <= i < |s.players| ==> SlotValid(s.players[i], i);
  }

  lemma SeatIsIndexed(s: State, seat: nat)
    requires SlotsValid(s.players)
    ensures SlotAt(s.players, seat) == if seat < |s.players| then seat else |s.players|
    ensures seat < |s.players| ==> SlotValid(s.players[seat], seat)
  {
    var k := SlotAt(s.players, seat);
    assert k < |s.players| ==> SlotValid(s.players[k], k);
    assert seat < |s.players| ==> SlotValid(s.players[seat], seat);
  }

  lemma NobodySpeaks(s: State, c: ConnectionId)
    requires SlotsValid(s.players) && Unheld(s.players, c)
    ensures Requester(s, c) == Err(UnknownConnection) && SlotHolding(s.players, c) == |s.players|
  {
    RequesterIsHolder(s, c);
  }

  // Creating, joining and coming back

  /** Everything a claim puts into a slot. */
  predicate ClaimedBy(slot: PlayerSlot, claim: Claim) {
    && slot.subjectKey == Some(claim.license.identityKey) && slot.clientKind == Some(claim.license.clientKind)
    && slot.connectionId == Some(claim.connectionId) && slot.status == Connected
    && slot.capabilities == claim.capabilities && slot.resumeTokenHash == Some(claim.resumeTokenHash)
    && slot.lastSeenAtMs == Some(claim.nowMs)
    && (claim.displayName.Some? ==> slot.displayName == claim.displayName)
  }

  /** A name is kept when the claim brings none. */
  predicate KeepsName(before: PlayerSlot, after: PlayerSlot, claim: Claim) {
    claim.displayName.None? ==> after.displayName == before.displayName
  }

  lemma CreatedLobby(request: CreateRequest)
    ensures var s, now := Create(request), request.host.nowMs;
            && s.lobbyId == request.lobbyId && s.inviteCode == request.inviteCode
            && s.visibility == request.visibility && s.lobbyEpoch == s.eventSeq == 1
            && s.createdAtMs == s.updatedAtMs == s.lastMeaningfulActivityAtMs == now
            && |s.players| == 4 && ClaimedBy(s.players[0], request.host) && s.players[0].role == Host
            && (forall i :: 1 <= i < 4 ==> s.players[i] == EmptySlot(i))
            && s.gameReadiness == [] && s.pendingLaunch.None? && s.lastReturn.None?
            && (match request.initialGame
                case None => s.selectedGame.None? && s.status == Open
                case Some(game) =>
                  && s.selectedGame == Some(GameSelection(request.initialProposalId, 0, now, game))
                  && s.status == GameSelected)
  {
  }

  /** A join that succeeds fills the seat with the claim and changes no game or launch. */
  lemma JoinAnswers(s: State, claim: Claim)
    requires Valid(s)
    ensures var o := Join(s, claim);
            && (o.result.Err? ==>
                  o.state == s && o.result.error == if s.status == Closed then LobbyClosed else LobbyFull)
            && (o.result.Ok? ==>
                  var seat := o.result.value;
                  && seat < |s.players| && |o.state.players| == |s.players|
                  && ClaimedBy(o.state.players[seat], claim) && KeepsName(s.players[seat], o.state.players[seat], claim)
                  && Rest(o.state) == Rest(s).(players := o.state.players))
  {
    var own, free := SlotOf(s.players, claim.license.identityKey), FreeSlot(s.players);
    assert own < |s.players| ==> SlotValid(s.players[own], own);
    assert free < |s.players| ==> SlotValid(s.players[free], free);
  }

  /** A seat is reclaimed exactly in an open lobby, by its own player with its own token, at no later epoch than
      the lobby's. */
  lemma ReconnectAnswers(s: State, seat: PlayerIndex, epoch: nat, claim: Claim)
    requires Valid(s)
    ensures var o := Reconnect(s, seat, epoch, claim);
            && (o.result.Ok? <==>
                  && s.status != Closed && epoch <= s.lobbyEpoch && Owns(s, seat, claim.license.identityKey)
                  && s.players[seat].resumeTokenHash == Some(claim.resumeTokenHash))
            && (o.result.Err? ==>
                  && o.state == s
                  && o.result.error == if s.status == Closed then LobbyClosed
                                       else if epoch > s.lobbyEpoch then StaleLobbyEpoch
                                       else if !Owns(s, seat, claim.license.identityKey) then PlayerSlotUnavailable
                                       else ResumeTokenInvalid)
            && (o.result.Ok? ==>
                  && o.result.value == seat && OnlySeatChanged(s.players, o.state.players, seat)
                  && ClaimedBy(o.state.players[seat], claim) && KeepsName(s.players[seat], o.state.players[seat], claim)
                  && Rest(o.state) == Rest(s).(players := o.state.players))
  {
    SeatIsIndexed(s, seat);
  }

  // Dropping and leaving

  /** A dropped connection leaves its seat waiting and changes nothing else. */
  lemma DropAnswers(s: State, c: ConnectionId, now: Millis, seat: nat)
    requires Valid(s)
    ensures Unheld(s.players, c) ==> Disconnect(s, c, now) == Outcome(s, Ok(false))
    ensures Holds(s, seat, c) ==>
              var o := Disconnect(s, c, now);
              && o.result == Ok(true)
              && Rest(o.state) == Rest(s).(
                   players := s.players[seat := s.players[seat].(connectionId := None, status := Reconnecting,
                                                                 lastSeenAtMs := Some(now))])
  {
    if Holds(s, seat, c) {
      SpeaksForSeat(s, seat, c);
    } else if Unheld(s.players, c) {
      NobodySpeaks(s, c);
    }
  }

  /** All readiness entries but one player's. */
  ghost predicate EntriesWithout(before: seq<Readiness>, after: seq<Readiness>, player: PlayerIndex) {
    forall r :: r in after <==> r in before && r.playerIndex != player
  }

  lemma {:induction false} WithoutKeepsOthers(readiness: seq<Readiness>, player: PlayerIndex)
    ensures EntriesWithout(readiness, WithoutPlayer(readiness, player), player)
  {
    if readiness != [] {
      WithoutKeepsOthers(readiness[1..], player);
      assert readiness == [readiness[0]] + readiness[1..];
    }
  }

  /** The seat is empty again, its readiness is forgotten, and the lobby is back at setup. */
  ghost predicate Vacated(s: State, t: State, seat: nat) {
    && seat < |s.players| && t.players == s.players[seat := EmptySlot(seat)]
    && EntriesWithout(s.gameReadiness, t.gameReadiness, seat)
    && t.pendingLaunch.None? && t.status == (if s.selectedGame.Some? then GameSelected else Open)
    && Rest(t) == Rest(s).(players := t.players, gameReadiness := t.gameReadiness, pendingLaunch := None,
                           status := t.status)
  }

  /** Everyone is out of the lobby for good. */
  predicate ShutDown(s: State, t: State, now: Millis) {
    && t.status == Closed && t.pendingLaunch.None? && |t.players| == |s.players|
    && (forall i :: 0 <= i < |s.players| ==>
          t.players[i] == if s.players[i].subjectKey.None? then s.players[i]
                          else s.players[i].(connectionId := None, status := Disconnected, lastSeenAtMs := Some(now)))
    && Rest(t) == Rest(s).(players := t.players, pendingLaunch := None, status := Closed)
  }

  /** A guest's leave empties the guest's seat, and no other; the host's leave closes the lobby. */
  lemma LeaveAnswers(s: State, c: ConnectionId, now: Millis, seat: nat)
    requires Valid(s)
    ensures Unheld(s.players, c) ==> Leave(s, c, now) == Outcome(s, Err(UnknownConnection))
    ensures Holds(s, seat, c) ==>
              var o := Leave(s, c, now);
              o.result == Ok(()) && if seat == 0 then ShutDown(s, o.state, now) else Vacated(s, o.state, seat)
  {
    if Holds(s, seat, c) {
      SpeaksForSeat(s, seat, c);
      WithoutKeepsOthers(s.gameReadiness, seat);
    } else if Unheld(s.players, c) {
      NobodySpeaks(s, c);
    }
  }

  /** Right after a guest has left, a newcomer finds room. */
  lemma NewcomerFindsRoom(s: State, c: ConnectionId, now: Millis, seat: nat, claim: Claim)
    requires Valid(s) && 0 < seat && Holds(s, seat, c)
    ensures Join(Leave(s, c, now).state, claim).result.Ok?
  {
    LeaveAnswers(s, c, now, seat);
    LeaveKeepsValid(s, c, now);
    var left := Leave(s, c, now).state;
    assert left.players[seat].subjectKey.None?;
    JoinSucceedsWhen(left, claim);
  }

  /** A player is removed exactly by the host, at the current epoch, outside a game, from a guest's taken seat. */
  lemma RemoveAnswers(s: State, c: ConnectionId, epoch: nat, target: PlayerIndex, now: Millis)
    requires Valid(s)
    ensures var o := RemovePlayer(s, c, epoch, target, now);
            && (o.result.Ok? <==>
                  && epoch == s.lobbyEpoch && Holds(s, 0, c) && (s.status == Open || s.status == GameSelected)
                  && 0 < target < |s.players| && s.players[target].subjectKey.Some?)
            && (o.result.Ok? ==>
                  && Vacated(s, o.state, target)
                  && o.result.value == Removal(target, s.players[target].connectionId))
            && (o.result.Err? ==>
                  && o.state == s
                  && o.result.error == if epoch != s.lobbyEpoch then StaleLobbyEpoch
                                       else if Unheld(s.players, c) then UnknownConnection
                                       else if !Holds(s, 0, c) then PlayerRemovalHostOnly
                                       else if s.status == Closed || s.status == InGame
                                       then LobbyPlayerRemovalUnavailable
                                       else if target == 0 then CannotRemoveLobbyHost
                                       else LobbyPlayerNotFound)
  {
    SeatIsIndexed(s, target);
    WithoutKeepsOthers(s.gameReadiness, target);
    SpeakerCases(s, c);
  }

  /** Whoever speaks is the host exactly when seat 0 holds the connection. */
  lemma SpeakerCases(s: State, c: ConnectionId)
    requires SlotsValid(s.players)
    ensures Unheld(s.players, c) ==> Requester(s, c) == Err(UnknownConnection)
    ensures !Unheld(s.players, c) ==> Requester(s, c).Ok? && Holds(s, Requester(s, c).value.playerIndex, c)
    ensures Requester(s, c).Ok? ==> (Requester(s, c).value.role == Host <==> Holds(s, 0, c))
    ensures Holds(s, 0, c) ==> Requester(s, c) == Ok(s.players[0]) && s.players[0].playerIndex == 0
  {
    RequesterIsHolder(s, c);
    if !Unheld(s.players, c) {
      var seat := Requester(s, c).value.playerIndex;
      SpeaksForSeat(s, seat, c);
      if Holds(s, 0, c) {
        SpeaksForSeat(s, 0, c);
      }
    }
  }

  // Selecting a game

  predicate SaysSomething(text: string) {
    exists i :: 0 <= i < |text| && !IsWhitespace(text[i])
  }

  /** A title, a system and a core that say something, and a hash, if any, of 64 hexadecimal digits. */
  predicate Selectable(game: GameCandidate) {
    && SaysSomething(game.title) && SaysSomething(game.systemId) && SaysSomething(game.coreId)
    && (game.contentSha256.Some? ==>
          && |game.contentSha256.value| == 64
          && forall i :: 0 <= i < 64 ==> IsHexDigit(game.contentSha256.value[i]))
  }

  /** A game is selected exactly by the host if it is selectable. It is what the proposal names, and readiness,
      launch and the last return start afresh. */
  lemma SelectAnswers(s: State, c: ConnectionId, game: GameCandidate, p: ProposalId, now: Millis)
    requires Valid(s)
    ensures var o := SelectGame(s, c, game, p, now);
            && (o.result.Ok? <==> Holds(s, 0, c) && Selectable(game))
            && (o.result.Err? ==>
                  && o.state == s
                  && o.result.error == if Unheld(s.players, c) then UnknownConnection
                                       else if !Holds(s, 0, c) then HostOnly else InvalidPayload)
            && (o.result.Ok? ==>
                  && o.result.value == GameSelection(p, 0, now, game)
                  && Rest(o.state) == Rest(s).(selectedGame := Some(GameSelection(p, 0, now, game)),
                                               gameReadiness := [], pendingLaunch := None, lastReturn := None,
                                               status := GameSelected))
  {
    SpeakerCases(s, c);
    BlankIsWhitespace(game.title);
    BlankIsWhitespace(game.systemId);
    BlankIsWhitespace(game.coreId);
  }

  // Readiness and launch

  /** A readiness report is taken exactly from a seat, for the selected proposal, with a detail of allowed length;
      it becomes that seat's one entry, and calls a launch off. */
  lemma ReadinessAnswers(s: State, c: ConnectionId, p: ProposalId, status: ReadinessStatus, detail: CleanDetail,
                         now: Millis, seat: nat)
    requires Valid(s) && Holds(s, seat, c)
    ensures var o := SetReadiness(s, c, p, status, detail, now);
            && (o.result.Ok? <==> Offers(s, p) && detail.Detail?)
            && (o.result.Err? ==>
                  o.state == s && o.result.error == if !Offers(s, p) then StaleGameProposal else InvalidPayload)
            && (o.result.Ok? ==>
                  && o.result.value == Readiness(seat, p, status, detail.text, now)
                  && (forall r :: r in o.state.gameReadiness <==>
                        r == o.result.value || (r in s.gameReadiness && r.playerIndex != seat))
                  && Rest(o.state) == Rest(s).(gameReadiness := o.state.gameReadiness, pendingLaunch := None,
                                               status := GameSelected))
  {
    SpeaksForSeat(s, seat, c);
    if Offers(s, p) && detail.Detail? {
      RecordedEntries(s.gameReadiness, Readiness(seat, p, status, detail.text, now));
    }
  }

  lemma RecordedEntries(before: seq<Readiness>, entry: Readiness)
    requires OneEntryPerPlayer(before)
    ensures forall r :: r in Recorded(before, entry) <==>
                          r == entry || (r in before && r.playerIndex != entry.playerIndex)
  {
    var after, k := Recorded(before, entry), EntryOf(before, entry.playerIndex);
    assert after[k] == entry;
    assert forall j :: 0 <= j < |before| && j != k ==>
             after[j] == before[j] && before[j].playerIndex != entry.playerIndex;
    forall r | r in before && r.playerIndex != entry.playerIndex ensures r in after {
      var j :| 0 <= j < |before| && before[j] == r;
      assert after[j] == r;
    }
    forall r | r in after ensures r == entry || (r in before && r.playerIndex != entry.playerIndex) {
      var j :| 0 <= j < |after| && after[j] == r;
    }
  }

  /** Every connected seat has an entry that says it is ready for the proposal. */
  predicate EveryoneReady(s: State, p: ProposalId) {
    forall i :: 0 <= i < |s.players| && s.players[i].connectionId.Some? ==>
      exists r :: r in s.gameReadiness && r.playerIndex == i && r.proposalId == p && r.status == Ready
  }

  lemma EveryoneReadyExactlyWhen(s: State, p: ProposalId)
    requires Valid(s)
    ensures ConnectedPlayersAreReady(s, p) <==> EveryoneReady(s, p)
  {
    forall i | 0 <= i < |s.players|
      ensures HasReadyEntry(s.gameReadiness, i, p) <==>
                exists r :: r in s.gameReadiness && r.playerIndex == i && r.proposalId == p && r.status == Ready
    {
      if HasReadyEntry(s.gameReadiness, i, p) {
        var k :| 0 <= k < |s.gameReadiness| && IsReadyFor(s.gameReadiness[k], i, p);
        assert s.gameReadiness[k] in s.gameReadiness;
      }
      if r :| r in s.gameReadiness && r.playerIndex == i && r.proposalId == p && r.status == Ready {
        var k :| 0 <= k < |s.gameReadiness| && s.gameReadiness[k] == r;
        assert IsReadyFor(s.gameReadiness[k], i, p);
      }
    }
    assert forall i :: 0 <= i < |s.players| ==> SlotValid(s.players[i], i);
    assert forall i :: 0 <= i < |s.players| ==> (Present(s.players[i]) <==> s.players[i].connectionId.Some?);
  }

  /** A launch is granted exactly to the host, for the selected proposal, with everyone connected ready for it. */
  lemma LaunchAnswers(s: State, c: ConnectionId, p: ProposalId, now: Millis)
    requires Valid(s)
    ensures var o := RequestLaunch(s, c, p, now);
            && (o.result.Ok? <==> Holds(s, 0, c) && Offers(s, p) && EveryoneReady(s, p))
            && (o.result.Err? ==>
                  && o.state == s
                  && o.result.error == if Unheld(s.players, c) then UnknownConnection
                                       else if !Holds(s, 0, c) then HostOnly
                                       else if !Offers(s, p) then StaleGameProposal else PlayersNotReady)
            && (o.result.Ok? ==>
                  && o.result.value == Launch(p, 0, now, Preparing, None, None, None, [])
                  && Rest(o.state) == Rest(s).(pendingLaunch := Some(o.result.value), lastReturn := None,
                                               status := InGame))
  {
    SpeakerCases(s, c);
    EveryoneReadyExactlyWhen(s, p);
  }

  /** A room is published exactly by the host, for the launch of the selected proposal; the launch is then ready
      with that code. */
  lemma PublishAnswers(s: State, c: ConnectionId, p: ProposalId, code: string, now: Millis)
    requires Valid(s)
    ensures var o := PublishGameRoom(s, c, p, code, now);
            && (o.result.Ok? <==> Holds(s, 0, c) && Launching(s, p))
            && (o.result.Err? ==>
                  && o.state == s
                  && o.result.error == if Unheld(s.players, c) then UnknownConnection
                                       else if !Holds(s, 0, c) then HostOnly else StaleGameProposal)
            && (o.result.Ok? ==>
                  && o.result.value == s.pendingLaunch.value.(status := RoomReady, roomInviteCode := Some(code),
                                                              roomPublishedAtMs := Some(now))
                  && Rest(o.state) == Rest(s).(pendingLaunch := Some(o.result.value)))
  {
    SpeakerCases(s, c);
  }

  // Start reports and returns

  /** Every connected client can report its start. */
  predicate EveryoneReports(s: State) {
    forall i :: 0 <= i < |s.players| && s.players[i].connectionId.Some? ==>
      s.players[i].capabilities.supportsLobbyGameplayStarted
  }

  /** A start report counts exactly at the current epoch, from a client that reports, for the published launch of
      the selected proposal while every connected client can report, and once per seat. Late and repeated reports
      are idle; the others are refused. */
  lemma StartedAnswers(s: State, c: ConnectionId, epoch: nat, p: ProposalId, now: Millis, seat: nat)
    requires Valid(s) && Holds(s, seat, c)
    ensures MarkGameplayStarted(s, c, epoch, p, now).result
         == if !s.players[seat].capabilities.supportsLobbyGameplayStarted then Ok(false)
            else if !Offers(s, p) then Err(StaleGameProposal)
            else if epoch != s.lobbyEpoch then
              if Launching(s, p) && s.pendingLaunch.value.status == Playing then Ok(false) else Err(StaleLobbyEpoch)
            else if !EveryoneReports(s) then Ok(false)
            else if !Launching(s, p) then Err(StaleGameProposal)
            else if s.pendingLaunch.value.status == Preparing then Err(GameLaunchNotReady)
            else Ok(s.pendingLaunch.value.status == RoomReady && seat !in s.pendingLaunch.value.startedPlayerIndexes)
  {
    SpeaksForSeat(s, seat, c);
    EveryoneReportsExactlyWhen(s);
  }

  lemma EveryoneReportsExactlyWhen(s: State)
    requires Valid(s)
    ensures EveryoneReports(s) <==> ExpectedStarters(s.players).Some?
  {
    assert forall i :: 0 <= i < |s.players| ==> SlotValid(s.players[i], i);
    assert forall i :: 0 <= i < |s.players| ==> (Present(s.players[i]) <==> s.players[i].connectionId.Some?);
    if ExpectedStarters(s.players).None? {
      var i :| 0 <= i < |s.players| && Present(s.players[i])
               && !s.players[i].capabilities.supportsLobbyGameplayStarted;
    }
  }

  /** A return is applied exactly at the current epoch, for the launch of the selected proposal; a return for a
      proposal already returned is answered again, and any other refused. */
  lemma ReturnAnswers(s: State, request: ReturnRequest, seat: nat)
    requires Valid(s) && Holds(s, seat, request.connectionId)
    ensures var o, p := ReturnToLobby(s, request), request.proposalId;
            var returned := Returned(p, request.returnRequestedByPlayerIndex, request.reason, request.nowMs);
            if request.lobbyEpoch == s.lobbyEpoch && Launching(s, p) then
              && o.result == Ok(ReturnOutcome(returned, true))
              && Rest(o.state) == Rest(s).(gameReadiness := [], pendingLaunch := None, status := GameSelected,
                                           lastReturn := Some(returned))
            else
              && o.state == s
              && o.result == if s.lastReturn.Some? && s.lastReturn.value.proposalId == p
                             then Ok(ReturnOutcome(s.lastReturn.value, false))
                             else if Offers(s, p) && request.lobbyEpoch != s.lobbyEpoch
                             then Err(StaleLobbyEpoch) else Err(StaleGameProposal)
  {
    SpeaksForSeat(s, seat, request.connectionId);
  }

  // Activity

  /** The idle sweep closes a lobby exactly when it is not closed yet. */
  lemma IdleAnswers(s: State, now: Millis)
    ensures var o := CloseDueToIdle(s, now);
            if s.status == Closed then o == Outcome(s, Ok(false)) else o.result == Ok(true) && ShutDown(s, o.state, now)
  {
  }

  /** The time a call comes with. */
  function TimeOf(call: Call): Millis {
    match call
    case JoinCall(claim) => claim.nowMs
    case ReconnectCall(_, _, claim) => claim.nowMs
    case ReturnCall(request) => request.nowMs
    case _ => call.nowMs
  }

  /** The clocks after a call: a change is stamped with the call's time, and counts as activity unless a connection
      dropped or the lobby closed; a touch is activity alone. */
  predicate Stamped(s: State, call: Call, t: Step) {
    && t.state.updatedAtMs == (if t.effect == Changed then TimeOf(call) else s.updatedAtMs)
    && t.state.lastMeaningfulActivityAtMs
       == (if t.effect == Touched || (t.effect == Changed && !call.DisconnectCall? && t.state.status != Closed)
           then TimeOf(call) else s.lastMeaningfulActivityAtMs)
  }

  lemma JoinStamps(s: State, claim: Claim)
    ensures Stamped(s, JoinCall(claim), Always(Join(s, claim)))
  {
  }

  lemma ReconnectStamps(s: State, i: PlayerIndex, epoch: nat, claim: Claim)
    ensures Stamped(s, ReconnectCall(i, epoch, claim), Always(Reconnect(s, i, epoch, claim)))
  {
  }

  lemma LeaveStamps(s: State, c: ConnectionId, now: Millis)
    ensures Stamped(s, LeaveCall(c, now), Always(Leave(s, c, now)))
  {
  }

  lemma RemoveStamps(s: State, c: ConnectionId, epoch: nat, target: PlayerIndex, now: Millis)
    ensures Stamped(s, RemoveCall(c, epoch, target, now), Always(RemovePlayer(s, c, epoch, target, now)))
  {
  }

  lemma SelectStamps(s: State, c: ConnectionId, game: GameCandidate, p: ProposalId, now: Millis)
    ensures Stamped(s, SelectCall(c, game, p, now), Always(SelectGame(s, c, game, p, now)))
  {
  }

  lemma ReadinessStamps(s: State, c: ConnectionId, p: ProposalId, status: ReadinessStatus, detail: CleanDetail,
                        now: Millis)
    ensures Stamped(s, ReadinessCall(c, p, status, detail, now), Always(SetReadiness(s, c, p, status, detail, now)))
  {
  }

  lemma StartedStamps(s: State, c: ConnectionId, epoch: nat, p: ProposalId, now: Millis)
    ensures Stamped(s, StartedCall(c, epoch, p, now), Reported(MarkGameplayStarted(s, c, epoch, p, now)))
  {
  }

  lemma ReturnStamps(s: State, request: ReturnRequest)
    ensures Stamped(s, ReturnCall(request), Apply(s, ReturnCall(request)))
  {
  }

  lemma OtherStamps(s: State, call: Call)
    requires call.DisconnectCall? || call.LaunchCall? || call.PublishCall? || call.ActivityCall? || call.IdleCall?
    ensures Stamped(s, call, Apply(s, call))
  {
  }

  /** Every call keeps the clocks so, and a touch is exactly an activity call from a seat. */
  lemma ActivityExactly(s: State, call: Call)
    requires Valid(s)
    ensures Stamped(s, call, Apply(s, call))
    ensures Apply(s, call).effect == Touched <==> call.ActivityCall? && !Unheld(s.players, call.connectionId)
  {
    match call
    case JoinCall(claim) => JoinStamps(s, claim);
    case ReconnectCall(i, epoch, claim) => ReconnectStamps(s, i, epoch, claim);
    case LeaveCall(c, now) => LeaveStamps(s, c, now);
    case RemoveCall(c, epoch, target, now) => RemoveStamps(s, c, epoch, target, now);
    case SelectCall(c, game, p, now) => SelectStamps(s, c, game, p, now);
    case ReadinessCall(c, p, status, detail, now) => ReadinessStamps(s, c, p, status, detail, now);
    case StartedCall(c, epoch, p, now) => StartedStamps(s, c, epoch, p, now);
    case ReturnCall(request) => ReturnStamps(s, request);
    case ActivityCall(c, now) =>
      OtherStamps(s, call);
      SpeakerCases(s, c);
    case _ => OtherStamps(s, call);
  }

  // What stays over a run

  /** From its selection on, whatever happens, a proposal that is still selected names the game the host chose. */
  lemma SelectedGameStays(w: World, c: ConnectionId, game: GameCandidate, p: ProposalId, now: Millis, calls: seq<Call>)
    requires WorldValid(w) && Fresh(w, SelectCall(c, game, p, now)) && SelectGame(w.lobby, c, game, p, now).result.Ok?
    requires FreshRun(After(w, SelectCall(c, game, p, now)), calls)
    ensures var later := Play(After(w, SelectCall(c, game, p, now)), calls).lobby;
            Offers(later, p) ==> later.selectedGame == Some(GameSelection(p, 0, now, game))
  {
    var call := SelectCall(c, game, p, now);
    AfterKeepsWorld(w, call);
    SelectAnswers(w.lobby, c, game, p, now);
    SpeakerCases(w.lobby, c);
    var next := After(w, call);
    assert next.lobby.players == w.lobby.players;
    HolderIsUnique(next.lobby, c, 0);
    RunKeepsPins(next, calls, c, next.lobby.players[0], GameSelection(p, 0, now, game));
  }

  /** The room of a launch, as players read it. */
  predicate PublishedAs(launch: Launch, p: ProposalId, code: string, at: Millis) {
    launch.proposalId == p && launch.roomInviteCode == Some(code) && launch.roomPublishedAtMs == Some(at)
  }

  lemma SeatCallsKeepLaunch(s: State, call: Call)
    requires call.JoinCall? || call.ReconnectCall? || call.DisconnectCall? || call.LeaveCall? || call.RemoveCall?
    ensures Apply(s, call).state.pendingLaunch.None? || Apply(s, call).state.pendingLaunch == s.pendingLaunch
  {
  }

  lemma GameCallsKeepLaunch(s: State, call: Call)
    requires call.SelectCall? || call.ReadinessCall? || call.ReturnCall? || call.ActivityCall? || call.IdleCall?
    ensures Apply(s, call).state.pendingLaunch.None? || Apply(s, call).state.pendingLaunch == s.pendingLaunch
  {
  }

  lemma StartedKeepsRoom(s: State, c: ConnectionId, epoch: nat, p: ProposalId, now: Millis)
    requires s.pendingLaunch.Some?
    ensures var t := MarkGameplayStarted(s, c, epoch, p, now).state;
            && t.pendingLaunch.Some?
            && t.pendingLaunch.value.proposalId == s.pendingLaunch.value.proposalId
            && t.pendingLaunch.value.roomInviteCode == s.pendingLaunch.value.roomInviteCode
            && t.pendingLaunch.value.roomPublishedAtMs == s.pendingLaunch.value.roomPublishedAtMs
  {
  }

  lemma StartedStartsNone(s: State, c: ConnectionId, epoch: nat, p: ProposalId, now: Millis)
    requires s.pendingLaunch.None?
    ensures MarkGameplayStarted(s, c, epoch, p, now).state.pendingLaunch.None?
  {
  }

  lemma CallKeepsRoom(s: State, call: Call, p: ProposalId, code: string, at: Millis)
    requires !call.LaunchCall? && !call.PublishCall?
    requires s.pendingLaunch.Some? ==> PublishedAs(s.pendingLaunch.value, p, code, at)
    ensures var t := Apply(s, call).state;
            t.pendingLaunch.Some? ==> PublishedAs(t.pendingLaunch.value, p, code, at)
  {
    if call.StartedCall? {
      if s.pendingLaunch.Some? {
        StartedKeepsRoom(s, call.connectionId, call.lobbyEpoch, call.proposalId, call.nowMs);
      } else {
        StartedStartsNone(s, call.connectionId, call.lobbyEpoch, call.proposalId, call.nowMs);
      }
    } else if call.SelectCall? || call.ReadinessCall? || call.ReturnCall? || call.ActivityCall? || call.IdleCall? {
      GameCallsKeepLaunch(s, call);
    } else {
      SeatCallsKeepLaunch(s, call);
    }
  }

  /** A published room keeps its code until another launch or another publish. */
  lemma {:induction false} PublishedCodeStays(s: State, c: ConnectionId, p: ProposalId, code: string, now: Millis,
                                              calls: seq<Call>)
    requires Valid(s) && PublishGameRoom(s, c, p, code, now).result.Ok?
    requires forall i :: 0 <= i < |calls| ==> !calls[i].LaunchCall? && !calls[i].PublishCall?
    ensures var later := Run(PublishGameRoom(s, c, p, code, now).state, calls);
            later.pendingLaunch.Some? ==> PublishedAs(later.pendingLaunch.value, p, code, now)
    decreases |calls|
  {
    PublishAnswers(s, c, p, code, now);
    if calls != [] {
      var front := calls[..|calls| - 1];
      assert forall i :: 0 <= i < |front| ==> front[i] == calls[i];
      PublishedCodeStays(s, c, p, code, now, front);
      CallKeepsRoom(Run(PublishGameRoom(s, c, p, code, now).state, front), calls[|calls| - 1], p, code, now);
    }
  }
}
