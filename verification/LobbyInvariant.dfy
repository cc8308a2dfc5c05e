/** The joint invariant of a lobby, and the proof that every operation keeps it. */
module LobbyInvariant {
  import opened Prelude
  import opened LobbyState
  import opened LobbyOps

  predicate SlotValid(slot: PlayerSlot, seat: nat) {
    && slot.playerIndex == seat
    && (slot.role == Host <==> seat == 0)
    && (seat == 0 ==> slot.subjectKey.Some?)
    && (slot.status == Empty <==> slot.subjectKey.None?)
    && (slot.status == Connected <==> slot.connectionId.Some?)
    && (slot.resumeTokenHash.Some? <==> slot.subjectKey.Some?)
    && (slot.clientKind.Some? <==> slot.subjectKey.Some?)
  }

  predicate SameOwner(a: PlayerSlot, b: PlayerSlot) {
    || (a.subjectKey.Some? && a.subjectKey == b.subjectKey)
    || (a.connectionId.Some? && a.connectionId == b.connectionId)
  }

  predicate SlotsValid(players: seq<PlayerSlot>) {
    && |players| == MAX_LOBBY_PLAYERS
    && (forall i :: 0 <= i < |players| ==> SlotValid(players[i], i))
    && (forall i, j :: 0 <= i < j < |players| ==> !SameOwner(players[i], players[j]))
  }

  predicate LaunchValid(launch: Launch) {
    var started := launch.startedPlayerIndexes;
    && launch.requestedByPlayerIndex == 0
    && StrictlyAscending(started)
    && (forall i :: 0 <= i < |started| ==> started[i] < MAX_LOBBY_PLAYERS)
    && (launch.status == Preparing <==> launch.roomInviteCode.None?)
    && (launch.status == Preparing <==> launch.roomPublishedAtMs.None?)
    && (launch.status == Preparing ==> started == [])
    && (launch.status == Playing ==> started != [] && launch.gameplayStartedAtMs.Some?)
    && (launch.gameplayStartedAtMs.Some? ==> started != [])
  }

  predicate OneEntryPerPlayer(readiness: seq<Readiness>) {
    forall j, k :: 0 <= j < k < |readiness| ==> readiness[j].playerIndex != readiness[k].playerIndex
  }

  /** Readiness speaks of the selected proposal, once per player, for occupied seats only. */
  predicate ReadinessValid(s: State) {
    && (forall k :: 0 <= k < |s.gameReadiness| ==>
          && Selected(s, s.gameReadiness[k].proposalId)
          && s.gameReadiness[k].playerIndex < |s.players|
          && s.players[s.gameReadiness[k].playerIndex].subjectKey.Some?)
    && OneEntryPerPlayer(s.gameReadiness)
  }

  predicate Valid(s: State) {
    && SlotsValid(s.players)
    && ReadinessValid(s)
    && s.eventSeq == s.lobbyEpoch
    && (s.pendingLaunch.Some? <==> s.status == InGame)
    && (s.status == Open <==> s.status != Closed && s.selectedGame.None?)
    && (s.pendingLaunch.Some? ==> Selected(s, s.pendingLaunch.value.proposalId) && LaunchValid(s.pendingLaunch.value))
    && (s.lastReturn.Some? ==> Selected(s, s.lastReturn.value.proposalId) && s.pendingLaunch.None?)
    && (s.status == Closed ==>
          forall i :: 0 <= i < |s.players| ==> s.players[i].status in {Empty, Disconnected})
  }

  /** The connection a call brings in is not held by any seat yet. */
  predicate BringsUnheldConnection(s: State, call: Call) {
    call.JoinCall? || call.ReconnectCall? ==> Unheld(s.players, call.claim.connectionId)
  }

  predicate Unheld(players: seq<PlayerSlot>, connectionId: ConnectionId) {
    forall i :: 0 <= i < |players| ==> players[i].connectionId != Some(connectionId)
  }

  lemma CreateIsValid(request: CreateRequest)
    ensures Valid(Create(request))
  {
  }

  lemma RequesterIsHolder(s: State, connectionId: ConnectionId)
    requires SlotsValid(s.players)
    ensures Requester(s, connectionId).Ok? ==>
              var slot := Requester(s, connectionId).value;
              && slot.playerIndex < |s.players|
              && slot == s.players[slot.playerIndex]
              && slot.connectionId == Some(connectionId)
    ensures Requester(s, connectionId).Ok? <==> !Unheld(s.players, connectionId)
  {
  }

  lemma OccupyKeepsSlots(players: seq<PlayerSlot>, k: nat, role: Role, claim: Claim)
    requires SlotsValid(players) && k < |players|
    requires Unheld(players, claim.connectionId)
    requires role == Host <==> k == 0
    requires forall i :: 0 <= i < |players| && i != k ==> players[i].subjectKey != Some(claim.license.identityKey)
    ensures SlotsValid(players[k := Occupy(players[k], role, claim)])
  {
  }

  lemma JoinKeepsValid(s: State, claim: Claim)
    requires Valid(s) && Unheld(s.players, claim.connectionId)
    ensures Valid(Join(s, claim).state)
  {
    var own, free := SlotOf(s.players, claim.license.identityKey), FreeSlot(s.players);
    if own < |s.players| {
      OccupyKeepsSlots(s.players, own, s.players[own].role, claim);
    } else if free < |s.players| {
      OccupyKeepsSlots(s.players, free, Guest, claim);
    }
  }

  lemma ReconnectKeepsValid(s: State, playerIndex: PlayerIndex, lobbyEpoch: nat, claim: Claim)
    requires Valid(s) && Unheld(s.players, claim.connectionId)
    ensures Valid(Reconnect(s, playerIndex, lobbyEpoch, claim).state)
  {
    var k := SlotAt(s.players, playerIndex);
    if k < |s.players| && s.players[k].subjectKey == Some(claim.license.identityKey) {
      OccupyKeepsSlots(s.players, k, s.players[k].role, claim);
    }
  }

  lemma {:induction false} WithoutPlayerKeepsDistinct(readiness: seq<Readiness>, playerIndex: PlayerIndex)
    requires OneEntryPerPlayer(readiness)
    ensures OneEntryPerPlayer(WithoutPlayer(readiness, playerIndex))
  {
    if readiness != [] {
      var rest := WithoutPlayer(readiness[1..], playerIndex);
      WithoutPlayerKeepsDistinct(readiness[1..], playerIndex);
      forall k | 0 <= k < |rest| ensures rest[k].playerIndex != readiness[0].playerIndex {
        assert rest[k] in rest;
        var j :| 0 <= j < |readiness[1..]| && readiness[1..][j] == rest[k];
        assert readiness[j + 1] == rest[k];
      }
      var r := WithoutPlayer(readiness, playerIndex);
      if readiness[0].playerIndex == playerIndex {
        assert r == rest;
      } else {
        assert r == [readiness[0]] + rest;
      }
    }
  }

  lemma VacateKeepsSlots(players: seq<PlayerSlot>, playerIndex: PlayerIndex)
    requires SlotsValid(players) && 0 < playerIndex
    ensures SlotsValid(VacateSlot(players, playerIndex))
    ensures forall i :: 0 <= i < |players| && i != playerIndex ==> VacateSlot(players, playerIndex)[i] == players[i]
  {
  }

  lemma VacateKeepsReadiness(s: State, playerIndex: PlayerIndex)
    requires SlotsValid(s.players) && ReadinessValid(s) && 0 < playerIndex
    ensures ReadinessValid(s.(players := VacateSlot(s.players, playerIndex),
                              gameReadiness := WithoutPlayer(s.gameReadiness, playerIndex)))
  {
    VacateKeepsSlots(s.players, playerIndex);
    WithoutPlayerKeepsDistinct(s.gameReadiness, playerIndex);
    var kept := WithoutPlayer(s.gameReadiness, playerIndex);
    forall k | 0 <= k < |kept| ensures kept[k] in s.gameReadiness && kept[k].playerIndex != playerIndex {
      assert kept[k] in kept;
    }
  }

  /** A guest's seat is emptied, with the launch called off if there was one. */
  lemma VacateKeepsValid(s: State, playerIndex: PlayerIndex, nowMs: Millis)
    requires Valid(s) && 0 < playerIndex && s.status != Closed
    ensures Valid(BumpWithActivity(s.(players := VacateSlot(s.players, playerIndex),
                                      gameReadiness := WithoutPlayer(s.gameReadiness, playerIndex),
                                      pendingLaunch := None,
                                      status := SetupStatus(s)), nowMs))
  {
    VacateKeepsSlots(s.players, playerIndex);
    VacateKeepsReadiness(s, playerIndex);
  }

  lemma CloseKeepsValid(s: State, nowMs: Millis)
    requires Valid(s)
    ensures Valid(Close(s, nowMs))
  {
  }

  lemma DisconnectKeepsValid(s: State, connectionId: ConnectionId, nowMs: Millis)
    requires Valid(s)
    ensures Valid(Disconnect(s, connectionId, nowMs).state)
  {
  }

  lemma LeaveKeepsValid(s: State, connectionId: ConnectionId, nowMs: Millis)
    requires Valid(s)
    ensures Valid(Leave(s, connectionId, nowMs).state)
  {
    RequesterIsHolder(s, connectionId);
    var requester := Requester(s, connectionId);
    if requester.Ok? {
      if requester.value.role == Host {
        CloseKeepsValid(s, nowMs);
      } else {
        VacateKeepsValid(s, requester.value.playerIndex, nowMs);
      }
    }
  }

  lemma RemoveKeepsValid(s: State, requester: ConnectionId, lobbyEpoch: nat, target: PlayerIndex, nowMs: Millis)
    requires Valid(s)
    ensures Valid(RemovePlayer(s, requester, lobbyEpoch, target, nowMs).state)
  {
    if RemovePlayer(s, requester, lobbyEpoch, target, nowMs).result.Ok? {
      VacateKeepsValid(s, target, nowMs);
    }
  }

  lemma SelectKeepsValid(s: State, c: ConnectionId, game: GameCandidate, proposalId: ProposalId, nowMs: Millis)
    requires Valid(s)
    ensures Valid(SelectGame(s, c, game, proposalId, nowMs).state)
  {
    RequesterIsHolder(s, c);
  }

  lemma RecordedKeepsReadiness(s: State, entry: Readiness)
    requires SlotsValid(s.players) && ReadinessValid(s) && Selected(s, entry.proposalId)
    requires entry.playerIndex < |s.players| && s.players[entry.playerIndex].subjectKey.Some?
    ensures ReadinessValid(s.(gameReadiness := Recorded(s.gameReadiness, entry)))
  {
    var before, after := s.gameReadiness, Recorded(s.gameReadiness, entry);
    var k := EntryOf(before, entry.playerIndex);
    assert forall j :: 0 <= j < |before| && j != k ==> after[j] == before[j];
    assert after[k] == entry;
  }

  lemma ReadinessKeepsValid(s: State, connectionId: ConnectionId, proposalId: ProposalId, status: ReadinessStatus,
                            detail: CleanDetail, nowMs: Millis)
    requires Valid(s)
    ensures Valid(SetReadiness(s, connectionId, proposalId, status, detail, nowMs).state)
  {
    RequesterIsHolder(s, connectionId);
    var o := SetReadiness(s, connectionId, proposalId, status, detail, nowMs);
    if o.result.Ok? {
      assert s.status != Closed;
      RecordedKeepsReadiness(s, o.result.value);
    }
  }

  lemma LaunchKeepsValid(s: State, c: ConnectionId, proposalId: ProposalId, nowMs: Millis)
    requires Valid(s)
    ensures Valid(RequestLaunch(s, c, proposalId, nowMs).state)
  {
    RequesterIsHolder(s, c);
  }

  lemma PublishKeepsValid(s: State, c: ConnectionId, proposalId: ProposalId, inviteCode: string, nowMs: Millis)
    requires Valid(s)
    ensures Valid(PublishGameRoom(s, c, proposalId, inviteCode, nowMs).state)
  {
  }

  lemma ReturnKeepsValid(s: State, request: ReturnRequest)
    requires Valid(s)
    ensures Valid(ReturnToLobby(s, request).state)
  {
  }

  predicate StrictlyAscending(s: seq<nat>) {
    forall i, j :: 0 <= i < j < |s| ==> s[i] < s[j]
  }

  lemma {:induction false} SortFixesAscending(s: seq<nat>)
    requires Ascending(s)
    ensures Sort(s) == s
  {
    if s != [] {
      var front, last := s[..|s| - 1], s[|s| - 1];
      assert front + [last] == s;
      assert Ascending(front) by {
        assert forall i :: 0 <= i < |front| ==> front[i] == s[i];
      }
      SortFixesAscending(front);
      InsertLast(front, last);
    }
  }

  lemma {:induction false} InsertLast(s: seq<nat>, x: nat)
    requires Ascending(s + [x])
    ensures Ascending(s) && InsertInOrder(s, x) == s + [x]
  {
    assert forall i :: 0 <= i < |s| ==> (s + [x])[i] == s[i];
    if s != [] {
      var whole := s + [x];
      assert s[0] <= whole[|s|];
      if x <= s[0] {
        assert forall i :: 0 <= i < |s| ==> s[0] <= whole[i] <= whole[|s|];
        assert [x] + s == s + [x];
      } else {
        assert s[1..] + [x] == whole[1..];
        InsertLast(s[1..], x);
      }
    }
  }

  lemma {:induction false} InsertNew(s: seq<nat>, x: nat)
    requires StrictlyAscending(s) && x !in s
    ensures StrictlyAscending(InsertInOrder(s, x))
    ensures forall y :: y in InsertInOrder(s, x) <==> y in s || y == x
    ensures InsertInOrder(s, x) != []
  {
    if s != [] && x > s[0] {
      InsertNew(s[1..], x);
      assert s == [s[0]] + s[1..];
      var rest := InsertInOrder(s[1..], x);
      assert forall k :: 0 <= k < |rest| ==> rest[k] in rest;
    }
  }

  /** Sorting a strictly ascending list with one new element gives a strictly ascending list. */
  lemma SortOneMore(started: seq<nat>, x: nat)
    requires StrictlyAscending(started) && x !in started
    ensures StrictlyAscending(Sort(started + [x]))
    ensures forall y :: y in Sort(started + [x]) <==> y in started || y == x
    ensures Sort(started + [x]) != []
  {
    var all := started + [x];
    assert all[..|all| - 1] == started;
    SortFixesAscending(started);
    InsertNew(started, x);
  }

  lemma MarkKeepsLaunch(launch: Launch, playerIndex: PlayerIndex, expected: seq<PlayerIndex>, nowMs: Millis)
    requires LaunchValid(launch) && playerIndex < MAX_LOBBY_PLAYERS
    ensures LaunchValid(MarkPlayerStarted(launch, playerIndex, expected, nowMs).0)
    ensures MarkPlayerStarted(launch, playerIndex, expected, nowMs).0.proposalId == launch.proposalId
  {
    var started := launch.startedPlayerIndexes;
    if launch.status == RoomReady && playerIndex !in started {
      assert StrictlyAscending(started);
      SortOneMore(started, playerIndex);
      var sorted := Sort(started + [playerIndex]);
      forall i | 0 <= i < |sorted| ensures sorted[i] < MAX_LOBBY_PLAYERS {
        assert sorted[i] in sorted;
      }
    }
  }

  lemma StartedKeepsValid(s: State, connectionId: ConnectionId, lobbyEpoch: nat, proposalId: ProposalId, nowMs: Millis)
    requires Valid(s)
    ensures Valid(MarkGameplayStarted(s, connectionId, lobbyEpoch, proposalId, nowMs).state)
  {
    RequesterIsHolder(s, connectionId);
    var requester, expected := Requester(s, connectionId), ExpectedStarters(s.players);
    if requester.Ok? && expected.Some? && s.pendingLaunch.Some? {
      MarkKeepsLaunch(s.pendingLaunch.value, requester.value.playerIndex, expected.value, nowMs);
    }
  }

  /** Every call keeps the joint invariant, as long as it brings in an unheld connection. */
  lemma ApplyKeepsValid(s: State, call: Call)
    requires Valid(s) && BringsUnheldConnection(s, call)
    ensures Valid(Apply(s, call).state)
  {
    match call
    case JoinCall(claim) => JoinKeepsValid(s, claim);
    case ReconnectCall(i, epoch, claim) => ReconnectKeepsValid(s, i, epoch, claim);
    case DisconnectCall(c, now) => DisconnectKeepsValid(s, c, now);
    case LeaveCall(c, now) => LeaveKeepsValid(s, c, now);
    case RemoveCall(c, epoch, target, now) => RemoveKeepsValid(s, c, epoch, target, now);
    case SelectCall(c, game, p, now) => SelectKeepsValid(s, c, game, p, now);
    case ReadinessCall(c, p, status, detail, now) => ReadinessKeepsValid(s, c, p, status, detail, now);
    case LaunchCall(c, p, now) => LaunchKeepsValid(s, c, p, now);
    case PublishCall(c, p, code, now) => PublishKeepsValid(s, c, p, code, now);
    case StartedCall(c, epoch, p, now) => StartedKeepsValid(s, c, epoch, p, now);
    case ReturnCall(request) => ReturnKeepsValid(s, request);
    case ActivityCall(_, _) =>
    case IdleCall(now) => CloseKeepsValid(s, now);
  }
}
