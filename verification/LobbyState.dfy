/** The values a lobby holds: player slots, the selected game, per-player
    readiness, the pending launch and the record of the last return. */
module LobbyState {
  import opened Prelude

  type ProposalId = nat
  type PlayerIndex = nat
  type Millis = nat

  const MAX_LOBBY_PLAYERS: nat := 4

  datatype LobbyError =
    | LobbyFull
    | LobbyClosed
    | StaleLobbyEpoch
    | ResumeTokenInvalid
    | PlayerSlotUnavailable
    | UnknownConnection
    | HostOnly
    | PlayerRemovalHostOnly
    | LobbyPlayerNotFound
    | CannotRemoveLobbyHost
    | LobbyPlayerRemovalUnavailable
    | StaleGameProposal
    | PlayersNotReady
    | GameLaunchNotReady
    | RomRelayUnsupported
    | RomRelayTooLarge
    | StartupStateRelayUnsupported
    | StartupStateRelayTooLarge
    | InvalidPayload

  datatype LobbyStatus = Open | GameSelected | InGame | Closed

  datatype Visibility = Private | Public

  datatype ClientKind = Desktop | Android | Ios

  /** A verified client identity. */
  datatype License = License(identityKey: string, clientKind: ClientKind)

  datatype Capabilities = Capabilities(
    supportsLobby: bool,
    supportsTemporarySessionRomRelay: bool,
    supportsLobbyVoice: bool,
    supportsMultiGameLobby: bool,
    supportsLobbyReturnedEvent: bool,
    supportsLobbyGameplayStarted: bool,
    supportsLobbyPlayerRemovedEvent: bool)

  const NO_CAPABILITIES := Capabilities(false, false, false, false, false, false, false)

  datatype Role = Host | Guest

  datatype PlayerStatus = Empty | Connected | Reconnecting | Disconnected

  datatype PlayerSlot = PlayerSlot(
    playerIndex: PlayerIndex,
    role: Role,
    subjectKey: Option<string>,
    clientKind: Option<ClientKind>,
    connectionId: Option<ConnectionId>,
    displayName: Option<string>,
    status: PlayerStatus,
    capabilities: Capabilities,
    resumeTokenHash: Option<string>,
    lastSeenAtMs: Option<Millis>)

  /** What a client presents when it takes or refreshes a slot. */
  datatype Claim = Claim(
    license: License,
    connectionId: ConnectionId,
    displayName: Option<string>,
    capabilities: Capabilities,
    resumeTokenHash: string,
    nowMs: Millis)

  function EmptySlot(playerIndex: PlayerIndex): PlayerSlot {
    PlayerSlot(playerIndex, Guest, None, None, None, None, Empty, NO_CAPABILITIES, None, None)
  }

  function Occupy(slot: PlayerSlot, role: Role, claim: Claim): PlayerSlot {
    slot.(role := role,
          subjectKey := Some(claim.license.identityKey),
          clientKind := Some(claim.license.clientKind),
          connectionId := Some(claim.connectionId),
          displayName := if claim.displayName.Some? then claim.displayName else slot.displayName,
          status := Connected,
          capabilities := claim.capabilities,
          resumeTokenHash := Some(claim.resumeTokenHash),
          lastSeenAtMs := Some(claim.nowMs))
  }

  datatype GameCandidate = GameCandidate(
    title: string,
    systemId: string,
    coreId: string,
    contentSha256: Option<string>,
    romSizeBytes: Option<nat>,
    startStateLabel: Option<string>)

  datatype GameSelection = GameSelection(
    proposalId: ProposalId,
    selectedByPlayerIndex: PlayerIndex,
    selectedAtMs: Millis,
    game: GameCandidate)

  datatype ReadinessStatus = Unknown | Ready | NotReady | MissingRom | MissingStartupState | Unsupported

  datatype Readiness = Readiness(
    playerIndex: PlayerIndex,
    proposalId: ProposalId,
    status: ReadinessStatus,
    detail: Option<string>,
    updatedAtMs: Millis)

  datatype LaunchStatus = Preparing | RoomReady | Playing

  datatype Launch = Launch(
    proposalId: ProposalId,
    requestedByPlayerIndex: PlayerIndex,
    requestedAtMs: Millis,
    status: LaunchStatus,
    roomInviteCode: Option<string>,
    roomPublishedAtMs: Option<Millis>,
    gameplayStartedAtMs: Option<Millis>,
    startedPlayerIndexes: seq<PlayerIndex>)

  datatype ReturnReason =
    | PlayerRequestedReturn
    | RunnerClosed
    | RemoteDisconnected
    | RoomClosed
    | LaunchFailed
    | NetplayError
    | EmulatorError
    | RunnerCrashed

  datatype Returned = Returned(
    proposalId: ProposalId,
    returnRequestedByPlayerIndex: Option<PlayerIndex>,
    reason: Option<ReturnReason>,
    returnedAtMs: Millis)

  datatype ReturnRequest = ReturnRequest(
    connectionId: ConnectionId,
    lobbyEpoch: nat,
    proposalId: ProposalId,
    returnRequestedByPlayerIndex: Option<PlayerIndex>,
    reason: Option<ReturnReason>,
    nowMs: Millis)

  datatype ReturnOutcome = ReturnOutcome(returned: Returned, stateChanged: bool)

  /** A free-form readiness detail after whitespace cleaning: kept, or refused as too long. */
  datatype CleanDetail = Detail(text: Option<string>) | TooLong

  datatype State = State(
    lobbyId: nat,
    inviteCode: string,
    eventSeq: nat,
    lobbyEpoch: nat,
    createdAtMs: Millis,
    updatedAtMs: Millis,
    lastMeaningfulActivityAtMs: Millis,
    status: LobbyStatus,
    visibility: Visibility,
    players: seq<PlayerSlot>,
    selectedGame: Option<GameSelection>,
    gameReadiness: seq<Readiness>,
    pendingLaunch: Option<Launch>,
    lastReturn: Option<Returned>)

  // Lookups. Each finds the first slot in seat order, as the lobby does.

  function SlotHolding(players: seq<PlayerSlot>, connectionId: ConnectionId): (k: nat)
    ensures k <= |players|
    ensures k < |players| ==> players[k].connectionId == Some(connectionId)
    ensures forall j :: 0 <= j < k ==> players[j].connectionId != Some(connectionId)
  {
    IndexWhere(players, (slot: PlayerSlot) => slot.connectionId == Some(connectionId))
  }

  function SlotOf(players: seq<PlayerSlot>, identityKey: string): (k: nat)
    ensures k <= |players|
    ensures k < |players| ==> players[k].subjectKey == Some(identityKey)
    ensures forall j :: 0 <= j < k ==> players[j].subjectKey != Some(identityKey)
  {
    IndexWhere(players, (slot: PlayerSlot) => slot.subjectKey == Some(identityKey))
  }

  function FreeSlot(players: seq<PlayerSlot>): (k: nat)
    ensures k <= |players|
    ensures k < |players| ==> players[k].status == Empty
    ensures forall j :: 0 <= j < k ==> players[j].status != Empty
  {
    IndexWhere(players, (slot: PlayerSlot) => slot.status == Empty)
  }

  function SlotAt(players: seq<PlayerSlot>, playerIndex: PlayerIndex): (k: nat)
    ensures k <= |players|
    ensures k < |players| ==> players[k].playerIndex == playerIndex
    ensures forall j :: 0 <= j < k ==> players[j].playerIndex != playerIndex
  {
    IndexWhere(players, (slot: PlayerSlot) => slot.playerIndex == playerIndex)
  }

  predicate Present(slot: PlayerSlot) {
    slot.subjectKey.Some? && slot.connectionId.Some?
  }

  predicate IsReadyFor(r: Readiness, playerIndex: PlayerIndex, proposalId: ProposalId) {
    r.playerIndex == playerIndex && r.proposalId == proposalId && r.status == Ready
  }

  predicate HasReadyEntry(readiness: seq<Readiness>, playerIndex: PlayerIndex, proposalId: ProposalId) {
    exists k :: 0 <= k < |readiness| && IsReadyFor(readiness[k], playerIndex, proposalId)
  }

  predicate ConnectedPlayersAreReady(s: State, proposalId: ProposalId) {
    forall i :: 0 <= i < |s.players| && Present(s.players[i]) ==>
      HasReadyEntry(s.gameReadiness, s.players[i].playerIndex, proposalId)
  }

  predicate Selected(s: State, proposalId: ProposalId) {
    s.selectedGame.Some? && s.selectedGame.value.proposalId == proposalId
  }

  /** Ascending order, as left behind by sorting the started list. */
  predicate Ascending(s: seq<nat>) {
    forall i, j :: 0 <= i < j < |s| ==> s[i] <= s[j]
  }

  function InsertInOrder(s: seq<nat>, x: nat): (r: seq<nat>)
    requires Ascending(s)
    ensures Ascending(r)
    ensures r != [] && r[0] == if s == [] || x <= s[0] then x else s[0]
  {
    if s == [] || x <= s[0] then [x] + s else [s[0]] + InsertInOrder(s[1..], x)
  }

  /** Insertion sort; sorting is a library call in the lobby. */
  function Sort(s: seq<nat>): (r: seq<nat>)
    ensures Ascending(r)
  {
    if s == [] then [] else InsertInOrder(Sort(s[..|s| - 1]), s[|s| - 1])
  }

  lemma {:induction false} InsertAddsOne(s: seq<nat>, x: nat)
    requires Ascending(s)
    ensures multiset(InsertInOrder(s, x)) == multiset(s) + multiset{x}
  {
    if s != [] && x > s[0] {
      InsertAddsOne(s[1..], x);
      assert s == [s[0]] + s[1..];
    }
  }

  /** Sorting only reorders. */
  lemma {:induction false} SortIsPermutation(s: seq<nat>)
    ensures multiset(Sort(s)) == multiset(s)
  {
    if s != [] {
      var front, last := s[..|s| - 1], s[|s| - 1];
      var sorted := Sort(front);
      SortIsPermutation(front);
      InsertAddsOne(sorted, last);
      assert multiset(s) == multiset(front) + multiset{last} by {
        assert s == front + [last];
      }
      assert Sort(s) == InsertInOrder(sorted, last);
    }
  }
}
