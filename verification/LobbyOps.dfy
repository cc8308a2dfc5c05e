/** What each lobby operation does to the lobby state, as a function of the
    state and the call. Whole-run properties are proved about these functions;
    the imperative lobby is proved to compute them. */
module LobbyOps {
  import opened Prelude
  import opened LobbyState

  datatype Outcome<+T> = Outcome(state: State, result: Result<T, LobbyError>)

  datatype CreateRequest = CreateRequest(
    lobbyId: nat,
    inviteCode: string,
    host: Claim,
    initialGame: Option<GameCandidate>,
    initialProposalId: ProposalId,
    visibility: Visibility)

  function Create(request: CreateRequest): State {
    var now := request.host.nowMs;
    State(
      request.lobbyId, request.inviteCode, 1, 1, now, now, now,
      if request.initialGame.Some? then GameSelected else Open,
      request.visibility,
      [Occupy(EmptySlot(0), Host, request.host), EmptySlot(1), EmptySlot(2), EmptySlot(3)],
      if request.initialGame.Some?
      then Some(GameSelection(request.initialProposalId, 0, now, request.initialGame.value)) else None,
      [], None, None)
  }

  function Bump(s: State, nowMs: Millis): State {
    s.(eventSeq := s.eventSeq + 1, lobbyEpoch := s.lobbyEpoch + 1, updatedAtMs := nowMs)
  }

  function BumpWithActivity(s: State, nowMs: Millis): State {
    Bump(s, nowMs).(lastMeaningfulActivityAtMs := nowMs)
  }

  /** Status of a lobby that is neither closed nor in a game. */
  function SetupStatus(s: State): LobbyStatus {
    if s.selectedGame.Some? then GameSelected else Open
  }

  /** The slot that speaks for a connection. */
  function Requester(s: State, connectionId: ConnectionId): (r: Result<PlayerSlot, LobbyError>)
  {
    var k := SlotHolding(s.players, connectionId);
    if k == |s.players| then Err(UnknownConnection)
    else Ok(s.players[SlotAt(s.players, s.players[k].playerIndex)])
  }

  function Join(s: State, claim: Claim): Outcome<PlayerIndex> {
    if s.status == Closed then Outcome(s, Err(LobbyClosed))
    else
      var own := SlotOf(s.players, claim.license.identityKey);
      var free := FreeSlot(s.players);
      if own < |s.players| then
        var slot := s.players[own];
        Outcome(BumpWithActivity(s.(players := s.players[own := Occupy(slot, slot.role, claim)]), claim.nowMs),
                Ok(slot.playerIndex))
      else if free < |s.players| then
        var slot := s.players[free];
        Outcome(BumpWithActivity(s.(players := s.players[free := Occupy(slot, Guest, claim)]), claim.nowMs),
                Ok(slot.playerIndex))
      else
        Outcome(s, Err(LobbyFull))
  }

  /** `claim.resumeTokenHash` is the hash of the token the client presented. */
  function Reconnect(s: State, playerIndex: PlayerIndex, lobbyEpoch: nat, claim: Claim): Outcome<PlayerIndex> {
    var k := SlotAt(s.players, playerIndex);
    if s.status == Closed then Outcome(s, Err(LobbyClosed))
    else if lobbyEpoch > s.lobbyEpoch then Outcome(s, Err(StaleLobbyEpoch))
    else if k == |s.players| then Outcome(s, Err(PlayerSlotUnavailable))
    else
      var slot := s.players[k];
      if slot.subjectKey != Some(claim.license.identityKey) then Outcome(s, Err(PlayerSlotUnavailable))
      else if slot.resumeTokenHash != Some(claim.resumeTokenHash) then Outcome(s, Err(ResumeTokenInvalid))
      else
        Outcome(BumpWithActivity(s.(players := s.players[k := Occupy(slot, slot.role, claim)]), claim.nowMs),
                Ok(playerIndex))
  }

  function Disconnect(s: State, connectionId: ConnectionId, nowMs: Millis): Outcome<bool> {
    var k := SlotHolding(s.players, connectionId);
    if k == |s.players| then Outcome(s, Ok(false))
    else
      var slot := s.players[k].(connectionId := None, status := Reconnecting, lastSeenAtMs := Some(nowMs));
      Outcome(Bump(s.(players := s.players[k := slot]), nowMs), Ok(true))
  }

  function ClosedSlot(slot: PlayerSlot, nowMs: Millis): PlayerSlot {
    if slot.subjectKey.Some?
    then slot.(connectionId := None, status := Disconnected, lastSeenAtMs := Some(nowMs))
    else slot
  }

  function ClosedSlots(players: seq<PlayerSlot>, nowMs: Millis): (r: seq<PlayerSlot>)
    ensures |r| == |players|
    ensures forall i :: 0 <= i < |r| ==> r[i] == ClosedSlot(players[i], nowMs)
  {
    seq(|players|, i requires 0 <= i < |players| => ClosedSlot(players[i], nowMs))
  }

  function Close(s: State, nowMs: Millis): State {
    Bump(s.(status := Closed, pendingLaunch := None, players := ClosedSlots(s.players, nowMs)), nowMs)
  }

  /** Readiness entries of everyone but one player, in order. */
  function WithoutPlayer(readiness: seq<Readiness>, playerIndex: PlayerIndex): (r: seq<Readiness>)
    ensures forall x :: x in r ==> x in readiness && x.playerIndex != playerIndex
  {
    if readiness == [] then []
    else
      (if readiness[0].playerIndex != playerIndex then [readiness[0]] else [])
      + WithoutPlayer(readiness[1..], playerIndex)
  }

  function VacateSlot(players: seq<PlayerSlot>, playerIndex: PlayerIndex): (r: seq<PlayerSlot>)
    ensures |r| == |players|
  {
    var k := SlotAt(players, playerIndex);
    if k < |players| then players[k := EmptySlot(playerIndex)] else players
  }

  function Leave(s: State, connectionId: ConnectionId, nowMs: Millis): Outcome<()> {
    match Requester(s, connectionId)
    case Err(e) => Outcome(s, Err(e))
    case Ok(slot) =>
      if slot.role == Host then Outcome(Close(s, nowMs), Ok(()))
      else
        var left := s.(players := VacateSlot(s.players, slot.playerIndex),
                       gameReadiness := WithoutPlayer(s.gameReadiness, slot.playerIndex),
                       pendingLaunch := None,
                       status := SetupStatus(s));
        Outcome(BumpWithActivity(left, nowMs), Ok(()))
  }

  datatype Removal = Removal(playerIndex: PlayerIndex, connectionId: Option<ConnectionId>)

  function RemovePlayer(s: State, requester: ConnectionId, lobbyEpoch: nat, target: PlayerIndex, nowMs: Millis)
    : Outcome<Removal>
  {
    if s.lobbyEpoch != lobbyEpoch then Outcome(s, Err(StaleLobbyEpoch))
    else match Requester(s, requester)
    case Err(e) => Outcome(s, Err(e))
    case Ok(slot) =>
      var k := SlotAt(s.players, target);
      if slot.role != Host then Outcome(s, Err(PlayerRemovalHostOnly))
      else if s.status == Closed || s.status == InGame || s.pendingLaunch.Some? then
        Outcome(s, Err(LobbyPlayerRemovalUnavailable))
      else if k == |s.players| then Outcome(s, Err(LobbyPlayerNotFound))
      else if s.players[k].role == Host then Outcome(s, Err(CannotRemoveLobbyHost))
      else if s.players[k].subjectKey.None? then Outcome(s, Err(LobbyPlayerNotFound))
      else
        var removed := s.(players := VacateSlot(s.players, target),
                          gameReadiness := WithoutPlayer(s.gameReadiness, target),
                          status := SetupStatus(s));
        Outcome(BumpWithActivity(removed, nowMs), Ok(Removal(target, s.players[k].connectionId)))
  }

  predicate ValidCandidate(game: GameCandidate) {
    && !Blank(game.title) && !Blank(game.systemId) && !Blank(game.coreId)
    && (game.contentSha256.Some? ==> IsSha256(game.contentSha256.value))
  }

  /** `proposalId` is the identifier drawn for the new proposal. */
  function SelectGame(s: State, connectionId: ConnectionId, game: GameCandidate, proposalId: ProposalId, nowMs: Millis)
    : Outcome<GameSelection>
  {
    match Requester(s, connectionId)
    case Err(e) => Outcome(s, Err(e))
    case Ok(slot) =>
      if slot.role != Host then Outcome(s, Err(HostOnly))
      else if !ValidCandidate(game) then Outcome(s, Err(InvalidPayload))
      else
        var proposal := GameSelection(proposalId, slot.playerIndex, nowMs, game);
        var chosen := s.(selectedGame := Some(proposal), gameReadiness := [], pendingLaunch := None,
                         lastReturn := None, status := GameSelected);
        Outcome(BumpWithActivity(chosen, nowMs), Ok(proposal))
  }

  function EntryOf(readiness: seq<Readiness>, playerIndex: PlayerIndex): (k: nat)
    ensures k <= |readiness|
    ensures k < |readiness| ==> readiness[k].playerIndex == playerIndex
    ensures forall j :: 0 <= j < k ==> readiness[j].playerIndex != playerIndex
  {
    IndexWhere(readiness, (r: Readiness) => r.playerIndex == playerIndex)
  }

  function Recorded(readiness: seq<Readiness>, entry: Readiness): seq<Readiness> {
    var k := EntryOf(readiness, entry.playerIndex);
    if k < |readiness| then readiness[k := entry] else readiness + [entry]
  }

  function SetReadiness(s: State, connectionId: ConnectionId, proposalId: ProposalId, status: ReadinessStatus,
                        detail: CleanDetail, nowMs: Millis)
    : Outcome<Readiness>
  {
    match Requester(s, connectionId)
    case Err(e) => Outcome(s, Err(e))
    case Ok(slot) =>
      if !Selected(s, proposalId) then Outcome(s, Err(StaleGameProposal))
      else if detail.TooLong? then Outcome(s, Err(InvalidPayload))
      else
        var entry := Readiness(slot.playerIndex, proposalId, status, detail.text, nowMs);
        var reported := s.(gameReadiness := Recorded(s.gameReadiness, entry), pendingLaunch := None,
                           status := GameSelected);
        Outcome(BumpWithActivity(reported, nowMs), Ok(entry))
  }

  function RequestLaunch(s: State, connectionId: ConnectionId, proposalId: ProposalId, nowMs: Millis): Outcome<Launch> {
    match Requester(s, connectionId)
    case Err(e) => Outcome(s, Err(e))
    case Ok(slot) =>
      if slot.role != Host then Outcome(s, Err(HostOnly))
      else if !Selected(s, proposalId) then Outcome(s, Err(StaleGameProposal))
      else if !ConnectedPlayersAreReady(s, proposalId) then Outcome(s, Err(PlayersNotReady))
      else
        var launch := Launch(proposalId, slot.playerIndex, nowMs, Preparing, None, None, None, []);
        var launched := s.(pendingLaunch := Some(launch), lastReturn := None, status := InGame);
        Outcome(BumpWithActivity(launched, nowMs), Ok(launch))
  }

  function PublishRoom(launch: Launch, inviteCode: string, publishedAtMs: Millis): Launch {
    launch.(status := RoomReady, roomInviteCode := Some(inviteCode), roomPublishedAtMs := Some(publishedAtMs))
  }

  function PublishGameRoom(s: State, connectionId: ConnectionId, proposalId: ProposalId, inviteCode: string,
                           nowMs: Millis)
    : Outcome<Launch>
  {
    match Requester(s, connectionId)
    case Err(e) => Outcome(s, Err(e))
    case Ok(slot) =>
      if slot.role != Host then Outcome(s, Err(HostOnly))
      else if !Selected(s, proposalId) then Outcome(s, Err(StaleGameProposal))
      else if s.pendingLaunch.None? || s.pendingLaunch.value.proposalId != proposalId then
        Outcome(s, Err(StaleGameProposal))
      else
        var launch := PublishRoom(s.pendingLaunch.value, inviteCode, nowMs);
        Outcome(BumpWithActivity(s.(pendingLaunch := Some(launch), status := InGame), nowMs), Ok(launch))
  }

  /** The seats of the connected players, in seat order. */
  function PresentSeats(players: seq<PlayerSlot>): (r: seq<PlayerIndex>)
    ensures forall i :: 0 <= i < |players| && Present(players[i]) ==> players[i].playerIndex in r
    ensures forall x :: x in r ==> exists i :: 0 <= i < |players| && Present(players[i]) && players[i].playerIndex == x
    decreases |players|
  {
    if players == [] then []
    else
      var front, last := players[..|players| - 1], players[|players| - 1];
      assert forall i :: 0 <= i < |front| ==> front[i] == players[i];
      PresentSeats(front) + (if Present(last) then [last.playerIndex] else [])
  }

  /** The seats whose start reports a launch waits for; none when a connected client cannot report. */
  function ExpectedStarters(players: seq<PlayerSlot>): Option<seq<PlayerIndex>> {
    if exists i :: 0 <= i < |players| && Present(players[i]) && !players[i].capabilities.supportsLobbyGameplayStarted
    then None else Some(PresentSeats(players))
  }

  predicate AllStarted(expected: seq<PlayerIndex>, started: seq<PlayerIndex>) {
    expected != [] && forall i :: 0 <= i < |expected| ==> expected[i] in started
  }

  /** Records one start report; the launch is playing once every expected seat has reported. */
  function MarkPlayerStarted(launch: Launch, playerIndex: PlayerIndex, expected: seq<PlayerIndex>, nowMs: Millis)
    : (Launch, Result<bool, LobbyError>)
  {
    match launch.status
    case Preparing => (launch, Err(GameLaunchNotReady))
    case Playing => (launch, Ok(false))
    case RoomReady =>
      if playerIndex in launch.startedPlayerIndexes then (launch, Ok(false))
      else
        var started := Sort(launch.startedPlayerIndexes + [playerIndex]);
        var reported := launch.(startedPlayerIndexes := started);
        if AllStarted(expected, started)
        then (reported.(status := Playing, gameplayStartedAtMs := Some(nowMs)), Ok(true))
        else (reported, Ok(true))
  }

  function MarkGameplayStarted(s: State, connectionId: ConnectionId, lobbyEpoch: nat, proposalId: ProposalId,
                               nowMs: Millis)
    : Outcome<bool>
  {
    match Requester(s, connectionId)
    case Err(e) => Outcome(s, Err(e))
    case Ok(slot) =>
      if !slot.capabilities.supportsLobbyGameplayStarted then Outcome(s, Ok(false))
      else if !Selected(s, proposalId) then Outcome(s, Err(StaleGameProposal))
      else if lobbyEpoch != s.lobbyEpoch then
        if s.pendingLaunch.Some? && s.pendingLaunch.value.proposalId == proposalId
           && s.pendingLaunch.value.status == Playing
        then Outcome(s, Ok(false)) else Outcome(s, Err(StaleLobbyEpoch))
      else
        var expected := ExpectedStarters(s.players);
        if expected.None? then Outcome(s, Ok(false))
        else if s.pendingLaunch.None? || s.pendingLaunch.value.proposalId != proposalId then
          Outcome(s, Err(StaleGameProposal))
        else
          var (launch, changed) :=
            MarkPlayerStarted(s.pendingLaunch.value, slot.playerIndex, expected.value, nowMs);
          if changed == Ok(true) then
            Outcome(BumpWithActivity(s.(pendingLaunch := Some(launch), status := InGame), nowMs), changed)
          else Outcome(s, changed)
  }

  /** The answer to a duplicate return, or the error when nothing was returned yet. */
  function EarlierReturn(s: State, proposalId: ProposalId, otherwise: LobbyError): Result<ReturnOutcome, LobbyError> {
    if s.lastReturn.Some? && s.lastReturn.value.proposalId == proposalId
    then Ok(ReturnOutcome(s.lastReturn.value, false)) else Err(otherwise)
  }

  function ReturnToLobby(s: State, request: ReturnRequest): Outcome<ReturnOutcome> {
    if Requester(s, request.connectionId).Err? then Outcome(s, Err(UnknownConnection))
    else if !Selected(s, request.proposalId) then Outcome(s, Err(StaleGameProposal))
    else if request.lobbyEpoch != s.lobbyEpoch then
      Outcome(s, EarlierReturn(s, request.proposalId, StaleLobbyEpoch))
    else if s.pendingLaunch.None? || s.pendingLaunch.value.proposalId != request.proposalId then
      Outcome(s, EarlierReturn(s, request.proposalId, StaleGameProposal))
    else
      var returned := Returned(request.proposalId, request.returnRequestedByPlayerIndex, request.reason, request.nowMs);
      var back := s.(gameReadiness := [], pendingLaunch := None, status := SetupStatus(s),
                     lastReturn := Some(returned));
      Outcome(BumpWithActivity(back, request.nowMs), Ok(ReturnOutcome(returned, true)))
  }

  function RecordActivity(s: State, connectionId: ConnectionId, nowMs: Millis): Outcome<()> {
    if Requester(s, connectionId).Err? then Outcome(s, Err(UnknownConnection))
    else Outcome(s.(lastMeaningfulActivityAtMs := nowMs), Ok(()))
  }

  function CloseDueToIdle(s: State, nowMs: Millis): Outcome<bool> {
    if s.status == Closed then Outcome(s, Ok(false)) else Outcome(Close(s, nowMs), Ok(true))
  }

  // Every call a lobby can receive, and the effect it reports.

  datatype Call =
    | JoinCall(claim: Claim)
    | ReconnectCall(playerIndex: PlayerIndex, lobbyEpoch: nat, claim: Claim)
    | DisconnectCall(connectionId: ConnectionId, nowMs: Millis)
    | LeaveCall(connectionId: ConnectionId, nowMs: Millis)
    | RemoveCall(connectionId: ConnectionId, lobbyEpoch: nat, target: PlayerIndex, nowMs: Millis)
    | SelectCall(connectionId: ConnectionId, game: GameCandidate, proposalId: ProposalId, nowMs: Millis)
    | ReadinessCall(connectionId: ConnectionId, proposalId: ProposalId, status: ReadinessStatus,
                    detail: CleanDetail, nowMs: Millis)
    | LaunchCall(connectionId: ConnectionId, proposalId: ProposalId, nowMs: Millis)
    | PublishCall(connectionId: ConnectionId, proposalId: ProposalId, inviteCode: string, nowMs: Millis)
    | StartedCall(connectionId: ConnectionId, lobbyEpoch: nat, proposalId: ProposalId, nowMs: Millis)
    | ReturnCall(request: ReturnRequest)
    | ActivityCall(connectionId: ConnectionId, nowMs: Millis)
    | IdleCall(nowMs: Millis)

  datatype Effect = Rejected(error: LobbyError) | NoChange | Touched | Changed

  datatype Step = Step(state: State, effect: Effect)

  /** Effect of a call that changes the lobby whenever it succeeds. */
  function Always<T>(o: Outcome<T>): Step {
    Step(o.state, if o.result.Ok? then Changed else Rejected(o.result.error))
  }

  /** Effect of a call whose success says whether anything changed. */
  function Reported(o: Outcome<bool>): Step {
    Step(o.state, match o.result case Ok(b) => (if b then Changed else NoChange) case Err(e) => Rejected(e))
  }

  function Apply(s: State, call: Call): Step {
    match call
    case JoinCall(claim) => Always(Join(s, claim))
    case ReconnectCall(i, epoch, claim) => Always(Reconnect(s, i, epoch, claim))
    case DisconnectCall(c, now) => Reported(Disconnect(s, c, now))
    case LeaveCall(c, now) => Always(Leave(s, c, now))
    case RemoveCall(c, epoch, target, now) => Always(RemovePlayer(s, c, epoch, target, now))
    case SelectCall(c, game, p, now) => Always(SelectGame(s, c, game, p, now))
    case ReadinessCall(c, p, status, detail, now) => Always(SetReadiness(s, c, p, status, detail, now))
    case LaunchCall(c, p, now) => Always(RequestLaunch(s, c, p, now))
    case PublishCall(c, p, code, now) => Always(PublishGameRoom(s, c, p, code, now))
    case StartedCall(c, epoch, p, now) => Reported(MarkGameplayStarted(s, c, epoch, p, now))
    case ReturnCall(request) =>
      var o := ReturnToLobby(s, request);
      Step(o.state, match o.result
                    case Ok(r) => (if r.stateChanged then Changed else NoChange)
                    case Err(e) => Rejected(e))
    case ActivityCall(c, now) =>
      var o := RecordActivity(s, c, now);
      Step(o.state, if o.result.Ok? then Touched else Rejected(o.result.error))
    case IdleCall(now) => Reported(CloseDueToIdle(s, now))
  }

  /** The state after a whole sequence of calls. */
  function Run(s: State, calls: seq<Call>): State
    decreases |calls|
  {
    if calls == [] then s else Apply(Run(s, calls[..|calls| - 1]), calls[|calls| - 1]).state
  }
}
