/** The mutable lobby. Its methods update fields in place, guard by guard; each
    is proved to leave exactly the state, and return exactly the result, that
    `LobbyOps` assigns to the call, and to keep the joint invariant. */
module LobbyObject {
  import opened Prelude
  import opened LobbyState
  import Ops = LobbyOps
  import Inv = LobbyInvariant

  class Lobby {
    const lobbyId: nat
    const inviteCode: string
    const createdAtMs: Millis
    const visibility: Visibility
    var eventSeq: nat
    var lobbyEpoch: nat
    var updatedAtMs: Millis
    var lastMeaningfulActivityAtMs: Millis
    var status: LobbyStatus
    var players: seq<PlayerSlot>
    var selectedGame: Option<GameSelection>
    var gameReadiness: seq<Readiness>
    var pendingLaunch: Option<Launch>
    var lastReturn: Option<Returned>

    /** The lobby's whole state as a value. */
    function Value(): State
      reads this
    {
      State(lobbyId, inviteCode, eventSeq, lobbyEpoch, createdAtMs, updatedAtMs, lastMeaningfulActivityAtMs,
            status, visibility, players, selectedGame, gameReadiness, pendingLaunch, lastReturn)
    }

    /** The joint invariant, in the lobby's own fields. */
    ghost predicate Valid()
      reads this
    {
      Inv.Valid(Value())
    }

    constructor (request: Ops.CreateRequest)
      ensures Valid() && Value() == Ops.Create(request)
    {
      Inv.CreateIsValid(request);
      var now := request.host.nowMs;
      lobbyId, inviteCode := request.lobbyId, request.inviteCode;
      createdAtMs, visibility := now, request.visibility;
      eventSeq, lobbyEpoch := 1, 1;
      updatedAtMs, lastMeaningfulActivityAtMs := now, now;
      players := [Occupy(EmptySlot(0), Host, request.host), EmptySlot(1), EmptySlot(2), EmptySlot(3)];
      if request.initialGame.Some? {
        selectedGame := Some(GameSelection(request.initialProposalId, 0, now, request.initialGame.value));
        status := GameSelected;
      } else {
        selectedGame, status := None, Open;
      }
      gameReadiness, pendingLaunch, lastReturn := [], None, None;
    }

    method JoinOrRefreshPlayer(claim: Claim) returns (r: Result<PlayerIndex, LobbyError>)
      modifies this
      ensures Ops.Outcome(Value(), r) == Ops.Join(old(Value()), claim)
      ensures old(Valid()) && old(Inv.Unheld(players, claim.connectionId)) ==> Valid()
    {
      if Valid() && Inv.Unheld(players, claim.connectionId) {
        Inv.JoinKeepsValid(Value(), claim);
      }
      if status == Closed {
        return Err(LobbyClosed);
      }
      var k := SlotOf(players, claim.license.identityKey);
      if k < |players| {
        var role := players[k].role;
        r := Ok(players[k].playerIndex);
        players := players[k := Occupy(players[k], role, claim)];
        BumpWithActivity(claim.nowMs);
        return;
      }
      k := FreeSlot(players);
      if k == |players| {
        return Err(LobbyFull);
      }
      r := Ok(players[k].playerIndex);
      players := players[k := Occupy(players[k], Guest, claim)];
      BumpWithActivity(claim.nowMs);
    }

    method ReconnectPlayer(playerIndex: PlayerIndex, epoch: nat, claim: Claim)
      returns (r: Result<PlayerIndex, LobbyError>)
      modifies this
      ensures Ops.Outcome(Value(), r) == Ops.Reconnect(old(Value()), playerIndex, epoch, claim)
      ensures old(Valid()) && old(Inv.Unheld(players, claim.connectionId)) ==> Valid()
    {
      if Valid() && Inv.Unheld(players, claim.connectionId) {
        Inv.ReconnectKeepsValid(Value(), playerIndex, epoch, claim);
      }
      if status == Closed {
        return Err(LobbyClosed);
      }
      if epoch > lobbyEpoch {
        return Err(StaleLobbyEpoch);
      }
      var k := SlotAt(players, playerIndex);
      if k == |players| || players[k].subjectKey != Some(claim.license.identityKey) {
        return Err(PlayerSlotUnavailable);
      }
      if players[k].resumeTokenHash != Some(claim.resumeTokenHash) {
        return Err(ResumeTokenInvalid);
      }
      players := players[k := Occupy(players[k], players[k].role, claim)];
      BumpWithActivity(claim.nowMs);
      r := Ok(playerIndex);
    }

    method Disconnect(connectionId: ConnectionId, nowMs: Millis) returns (changed: bool)
      modifies this
      ensures Ops.Outcome(Value(), Ok(changed)) == Ops.Disconnect(old(Value()), connectionId, nowMs)
      ensures old(Valid()) ==> Valid()
    {
      if Valid() {
        Inv.DisconnectKeepsValid(Value(), connectionId, nowMs);
      }
      var k := SlotHolding(players, connectionId);
      if k == |players| {
        return false;
      }
      var slot := players[k];
      players := players[k := slot.(connectionId := None, status := Reconnecting, lastSeenAtMs := Some(nowMs))];
      Bump(nowMs);
      changed := true;
    }

    method Leave(connectionId: ConnectionId, nowMs: Millis) returns (r: Result<(), LobbyError>)
      modifies this
      ensures Ops.Outcome(Value(), r) == Ops.Leave(old(Value()), connectionId, nowMs)
      ensures old(Valid()) ==> Valid()
    {
      if Valid() {
        Inv.LeaveKeepsValid(Value(), connectionId, nowMs);
      }
      var requester := Ops.Requester(Value(), connectionId);
      if requester.Err? {
        return Err(requester.error);
      }
      if requester.value.role == Host {
        Close(nowMs);
        return Ok(());
      }
      Vacate(requester.value.playerIndex);
      pendingLaunch := None;
      status := Ops.SetupStatus(Value());
      BumpWithActivity(nowMs);
      r := Ok(());
    }

    method RemovePlayer(requesterId: ConnectionId, epoch: nat, target: PlayerIndex, nowMs: Millis)
      returns (r: Result<Ops.Removal, LobbyError>)
      modifies this
      ensures Ops.Outcome(Value(), r) == Ops.RemovePlayer(old(Value()), requesterId, epoch, target, nowMs)
      ensures old(Valid()) ==> Valid()
    {
      if Valid() {
        Inv.RemoveKeepsValid(Value(), requesterId, epoch, target, nowMs);
      }
      if lobbyEpoch != epoch {
        return Err(StaleLobbyEpoch);
      }
      var requester := Ops.Requester(Value(), requesterId);
      if requester.Err? {
        return Err(requester.error);
      }
      if requester.value.role != Host {
        return Err(PlayerRemovalHostOnly);
      }
      if status == Closed || status == InGame || pendingLaunch.Some? {
        return Err(LobbyPlayerRemovalUnavailable);
      }
      var k := SlotAt(players, target);
      if k == |players| {
        return Err(LobbyPlayerNotFound);
      }
      if players[k].role == Host {
        return Err(CannotRemoveLobbyHost);
      }
      if players[k].subjectKey.None? {
        return Err(LobbyPlayerNotFound);
      }
      r := Ok(Ops.Removal(target, players[k].connectionId));
      Vacate(target);
      status := Ops.SetupStatus(Value());
      BumpWithActivity(nowMs);
    }

    method SelectGame(connectionId: ConnectionId, game: GameCandidate, proposalId: ProposalId, nowMs: Millis)
      returns (r: Result<GameSelection, LobbyError>)
      modifies this
      ensures Ops.Outcome(Value(), r) == Ops.SelectGame(old(Value()), connectionId, game, proposalId, nowMs)
      ensures old(Valid()) ==> Valid()
    {
      if Valid() {
        Inv.SelectKeepsValid(Value(), connectionId, game, proposalId, nowMs);
      }
      var requester := Ops.Requester(Value(), connectionId);
      if requester.Err? {
        return Err(requester.error);
      }
      if requester.value.role != Host {
        return Err(HostOnly);
      }
      if !Ops.ValidCandidate(game) {
        return Err(InvalidPayload);
      }
      var proposal := GameSelection(proposalId, requester.value.playerIndex, nowMs, game);
      selectedGame := Some(proposal);
      gameReadiness := [];
      pendingLaunch := None;
      lastReturn := None;
      status := GameSelected;
      BumpWithActivity(nowMs);
      r := Ok(proposal);
    }

    method SetGameReadiness(connectionId: ConnectionId, proposalId: ProposalId, readiness: ReadinessStatus,
                            detail: CleanDetail, nowMs: Millis)
      returns (r: Result<Readiness, LobbyError>)
      modifies this
      ensures Ops.Outcome(Value(), r)
           == Ops.SetReadiness(old(Value()), connectionId, proposalId, readiness, detail, nowMs)
      ensures old(Valid()) ==> Valid()
    {
      if Valid() {
        Inv.ReadinessKeepsValid(Value(), connectionId, proposalId, readiness, detail, nowMs);
      }
      var requester := Ops.Requester(Value(), connectionId);
      if requester.Err? {
        return Err(requester.error);
      }
      if !Selected(Value(), proposalId) {
        return Err(StaleGameProposal);
      }
      if detail.TooLong? {
        return Err(InvalidPayload);
      }
      var entry := Readiness(requester.value.playerIndex, proposalId, readiness, detail.text, nowMs);
      var k := Ops.EntryOf(gameReadiness, entry.playerIndex);
      if k < |gameReadiness| {
        gameReadiness := gameReadiness[k := entry];
      } else {
        gameReadiness := gameReadiness + [entry];
      }
      pendingLaunch := None;
      status := GameSelected;
      BumpWithActivity(nowMs);
      r := Ok(entry);
    }

    method RequestGameLaunch(connectionId: ConnectionId, proposalId: ProposalId, nowMs: Millis)
      returns (r: Result<Launch, LobbyError>)
      modifies this
      ensures Ops.Outcome(Value(), r) == Ops.RequestLaunch(old(Value()), connectionId, proposalId, nowMs)
      ensures old(Valid()) ==> Valid()
    {
      if Valid() {
        Inv.LaunchKeepsValid(Value(), connectionId, proposalId, nowMs);
      }
      var requester := Ops.Requester(Value(), connectionId);
      if requester.Err? {
        return Err(requester.error);
      }
      if requester.value.role != Host {
        return Err(HostOnly);
      }
      if !Selected(Value(), proposalId) {
        return Err(StaleGameProposal);
      }
      if !ConnectedPlayersAreReady(Value(), proposalId) {
        return Err(PlayersNotReady);
      }
      var launch := Launch(proposalId, requester.value.playerIndex, nowMs, Preparing, None, None, None, []);
      pendingLaunch := Some(launch);
      lastReturn := None;
      status := InGame;
      BumpWithActivity(nowMs);
      r := Ok(launch);
    }

    method PublishGameRoom(connectionId: ConnectionId, proposalId: ProposalId, code: string, nowMs: Millis)
      returns (r: Result<Launch, LobbyError>)
      modifies this
      ensures Ops.Outcome(Value(), r) == Ops.PublishGameRoom(old(Value()), connectionId, proposalId, code, nowMs)
      ensures old(Valid()) ==> Valid()
    {
      if Valid() {
        Inv.PublishKeepsValid(Value(), connectionId, proposalId, code, nowMs);
      }
      var requester := Ops.Requester(Value(), connectionId);
      if requester.Err? {
        return Err(requester.error);
      }
      if requester.value.role != Host {
        return Err(HostOnly);
      }
      if !Selected(Value(), proposalId) {
        return Err(StaleGameProposal);
      }
      if pendingLaunch.None? || pendingLaunch.value.proposalId != proposalId {
        return Err(StaleGameProposal);
      }
      var launch := pendingLaunch.value;
      launch := launch.(status := RoomReady);
      launch := launch.(roomInviteCode := Some(code));
      launch := launch.(roomPublishedAtMs := Some(nowMs));
      pendingLaunch := Some(launch);
      status := InGame;
      BumpWithActivity(nowMs);
      r := Ok(launch);
    }

    method MarkGameplayStarted(connectionId: ConnectionId, epoch: nat, proposalId: ProposalId, nowMs: Millis)
      returns (r: Result<bool, LobbyError>)
      modifies this
      ensures Ops.Outcome(Value(), r) == Ops.MarkGameplayStarted(old(Value()), connectionId, epoch, proposalId, nowMs)
      ensures old(Valid()) ==> Valid()
    {
      if Valid() {
        Inv.StartedKeepsValid(Value(), connectionId, epoch, proposalId, nowMs);
      }
      var requester := Ops.Requester(Value(), connectionId);
      if requester.Err? {
        return Err(requester.error);
      }
      if !requester.value.capabilities.supportsLobbyGameplayStarted {
        return Ok(false);
      }
      if !Selected(Value(), proposalId) {
        return Err(StaleGameProposal);
      }
      if epoch != lobbyEpoch {
        if pendingLaunch.Some? && pendingLaunch.value.proposalId == proposalId
           && pendingLaunch.value.status == Playing {
          return Ok(false);
        }
        return Err(StaleLobbyEpoch);
      }
      var expected := Ops.ExpectedStarters(players);
      if expected.None? {
        return Ok(false);
      }
      if pendingLaunch.None? || pendingLaunch.value.proposalId != proposalId {
        return Err(StaleGameProposal);
      }
      var launch;
      launch, r := MarkPlayerStarted(pendingLaunch.value, requester.value.playerIndex, expected.value, nowMs);
      if r == Ok(true) {
        pendingLaunch := Some(launch);
        status := InGame;
        BumpWithActivity(nowMs);
      }
    }

    method ReturnToLobby(request: ReturnRequest) returns (r: Result<ReturnOutcome, LobbyError>)
      modifies this
      ensures Ops.Outcome(Value(), r) == Ops.ReturnToLobby(old(Value()), request)
      ensures old(Valid()) ==> Valid()
    {
      if Valid() {
        Inv.ReturnKeepsValid(Value(), request);
      }
      if SlotHolding(players, request.connectionId) == |players| {
        return Err(UnknownConnection);
      }
      if !Selected(Value(), request.proposalId) {
        return Err(StaleGameProposal);
      }
      if request.lobbyEpoch != lobbyEpoch {
        return Ops.EarlierReturn(Value(), request.proposalId, StaleLobbyEpoch);
      }
      if pendingLaunch.None? || pendingLaunch.value.proposalId != request.proposalId {
        return Ops.EarlierReturn(Value(), request.proposalId, StaleGameProposal);
      }
      var returned := Returned(request.proposalId, request.returnRequestedByPlayerIndex, request.reason, request.nowMs);
      gameReadiness := [];
      pendingLaunch := None;
      status := Ops.SetupStatus(Value());
      lastReturn := Some(returned);
      BumpWithActivity(request.nowMs);
      r := Ok(ReturnOutcome(returned, true));
    }

    method RecordActivity(connectionId: ConnectionId, nowMs: Millis) returns (r: Result<(), LobbyError>)
      modifies this
      ensures Ops.Outcome(Value(), r) == Ops.RecordActivity(old(Value()), connectionId, nowMs)
      ensures old(Valid()) ==> Valid()
    {
      if SlotHolding(players, connectionId) == |players| {
        return Err(UnknownConnection);
      }
      lastMeaningfulActivityAtMs := nowMs;
      r := Ok(());
    }

    method CloseDueToIdle(nowMs: Millis) returns (closed: bool)
      modifies this
      ensures Ops.Outcome(Value(), Ok(closed)) == Ops.CloseDueToIdle(old(Value()), nowMs)
      ensures old(Valid()) ==> Valid()
    {
      if Valid() {
        Inv.CloseKeepsValid(Value(), nowMs);
      }
      if status == Closed {
        return false;
      }
      Close(nowMs);
      closed := true;
    }

    method Close(nowMs: Millis)
      modifies this
      ensures Value() == Ops.Close(old(Value()), nowMs)
    {
      status := Closed;
      pendingLaunch := None;
      var i := 0;
      while i < |players|
        invariant i <= |players| == |old(players)|
        invariant forall j :: 0 <= j < i ==> players[j] == Ops.ClosedSlot(old(players)[j], nowMs)
        invariant forall j :: i <= j < |players| ==> players[j] == old(players)[j]
        invariant Value() == old(Value()).(status := Closed, pendingLaunch := None, players := players)
      {
        var slot := players[i];
        if slot.subjectKey.Some? {
          slot := slot.(connectionId := None);
          slot := slot.(status := Disconnected);
          slot := slot.(lastSeenAtMs := Some(nowMs));
          players := players[i := slot];
        }
        i := i + 1;
      }
      assert players == Ops.ClosedSlots(old(players), nowMs);
      Bump(nowMs);
    }

    method Vacate(playerIndex: PlayerIndex)
      modifies this`players, this`gameReadiness
      ensures players == Ops.VacateSlot(old(players), playerIndex)
      ensures gameReadiness == Ops.WithoutPlayer(old(gameReadiness), playerIndex)
    {
      var k := SlotAt(players, playerIndex);
      if k < |players| {
        players := players[k := EmptySlot(playerIndex)];
      }
      gameReadiness := Ops.WithoutPlayer(gameReadiness, playerIndex);
    }

    method Bump(nowMs: Millis)
      modifies this
      ensures Value() == Ops.Bump(old(Value()), nowMs)
    {
      eventSeq := eventSeq + 1;
      lobbyEpoch := lobbyEpoch + 1;
      updatedAtMs := nowMs;
    }

    method BumpWithActivity(nowMs: Millis)
      modifies this
      ensures Value() == Ops.BumpWithActivity(old(Value()), nowMs)
    {
      Bump(nowMs);
      lastMeaningfulActivityAtMs := nowMs;
    }
  }

  /** Records one start report on a launch, field by field. */
  method MarkPlayerStarted(launch: Launch, playerIndex: PlayerIndex, expected: seq<PlayerIndex>, nowMs: Millis)
    returns (updated: Launch, r: Result<bool, LobbyError>)
    ensures (updated, r) == Ops.MarkPlayerStarted(launch, playerIndex, expected, nowMs)
  {
    updated := launch;
    match launch.status
    case Preparing => r := Err(GameLaunchNotReady);
    case Playing => r := Ok(false);
    case RoomReady =>
      if playerIndex in updated.startedPlayerIndexes {
        return updated, Ok(false);
      }
      updated := updated.(startedPlayerIndexes := updated.startedPlayerIndexes + [playerIndex]);
      updated := updated.(startedPlayerIndexes := Sort(updated.startedPlayerIndexes));
      if Ops.AllStarted(expected, updated.startedPlayerIndexes) {
        updated := updated.(status := Playing);
        updated := updated.(gameplayStartedAtMs := Some(nowMs));
      }
      r := Ok(true);
  }
}
