/** Temporary file transfers between lobby players. A transfer is prepared, the
    relay broker is called without the lobby lock, and the prepared intent is
    re-validated before grants go out. Re-validation looks only at connections
    and the proposal id; the theorems here say that this is enough. */
module LobbyRelay {
  import opened Prelude
  import opened LobbyState
  import opened LobbyOps
  import opened LobbyInvariant
  import opened LobbyRuns

  /** The two ends of a transfer. */
  datatype Route = Route(
    senderPlayerIndex: PlayerIndex,
    senderConnectionId: ConnectionId,
    receiverPlayerIndex: PlayerIndex,
    receiverConnectionId: ConnectionId)

  datatype RomIntent = RomIntent(
    lobbyId: nat, proposalId: ProposalId, game: GameCandidate, sha256: string, sizeBytes: nat, route: Route)

  datatype RestorePolicy = Immediate | AfterFrames(frames: nat)

  datatype StartupState = StartupState(
    sha256: string,
    sizeBytes: nat,
    stateLabel: Option<string>,
    restorePolicy: RestorePolicy,
    stateFormat: Option<string>)

  datatype StartupStateIntent = StartupStateIntent(
    lobbyId: nat, proposalId: ProposalId, game: GameCandidate, state: StartupState, route: Route)

  /** The host sends to a connected receiver, and both clients support file relay. */
  function PrepareRoute(s: State, connectionId: ConnectionId, receiver: PlayerIndex, unsupported: LobbyError)
    : Result<Route, LobbyError>
  {
    match Requester(s, connectionId)
    case Err(e) => Err(e)
    case Ok(sender) =>
      var k := SlotAt(s.players, receiver);
      if sender.role != Host then Err(HostOnly)
      else if k == |s.players| || s.players[k].connectionId.None? then Err(PlayerSlotUnavailable)
      else if !sender.capabilities.supportsTemporarySessionRomRelay
           || !s.players[k].capabilities.supportsTemporarySessionRomRelay then Err(unsupported)
      else Ok(Route(sender.playerIndex, connectionId, receiver, s.players[k].connectionId.value))
  }

  function PrepareRom(s: State, connectionId: ConnectionId, proposalId: ProposalId, receiver: PlayerIndex,
                      maxBytes: nat)
    : Result<RomIntent, LobbyError>
  {
    match PrepareRoute(s, connectionId, receiver, RomRelayUnsupported)
    case Err(e) => Err(e)
    case Ok(route) =>
      if !Selected(s, proposalId) then Err(StaleGameProposal)
      else
        var game := s.selectedGame.value.game;
        if game.contentSha256.None? || game.romSizeBytes.None? || !IsSha256(game.contentSha256.value)
        then Err(InvalidPayload)
        else if game.romSizeBytes.value > maxBytes then Err(RomRelayTooLarge)
        else Ok(RomIntent(s.lobbyId, proposalId, game, game.contentSha256.value, game.romSizeBytes.value, route))
  }

  /** A label that says something, trimmed. */
  function Spoken(text: Option<string>): Option<string> {
    if text.Some? && !Blank(text.value) then Some(Trim(text.value)) else None
  }

  predicate ValidStartupState(state: StartupState, selectedLabel: string) {
    && IsSha256(state.sha256)
    && state.sizeBytes > 0
    && (Spoken(state.stateLabel).Some? ==> Spoken(state.stateLabel).value == selectedLabel)
    && (state.stateFormat.Some? ==> !Blank(state.stateFormat.value))
  }

  function PrepareStartupState(s: State, connectionId: ConnectionId, proposalId: ProposalId, receiver: PlayerIndex,
                               state: StartupState, maxBytes: nat)
    : Result<StartupStateIntent, LobbyError>
  {
    match PrepareRoute(s, connectionId, receiver, StartupStateRelayUnsupported)
    case Err(e) => Err(e)
    case Ok(route) =>
      if !Selected(s, proposalId) then Err(StaleGameProposal)
      else
        var game := s.selectedGame.value.game;
        var chosen := Spoken(game.startStateLabel);
        if chosen.None? || !ValidStartupState(state, chosen.value) then Err(InvalidPayload)
        else if state.sizeBytes > maxBytes then Err(StartupStateRelayTooLarge)
        else
          var labelled := if Spoken(state.stateLabel).None? then state.(stateLabel := chosen) else state;
          Ok(StartupStateIntent(s.lobbyId, proposalId, game, labelled, route))
  }

  /** Re-validation of either kind of intent: the proposal is still selected and both ends still
      hold the connections they had. */
  function RequireCurrent(s: State, proposalId: ProposalId, route: Route): Result<(), LobbyError> {
    var sender, receiver := SlotAt(s.players, route.senderPlayerIndex), SlotAt(s.players, route.receiverPlayerIndex);
    if !Selected(s, proposalId) then Err(StaleGameProposal)
    else if sender == |s.players| then Err(UnknownConnection)
    else if receiver == |s.players| then Err(PlayerSlotUnavailable)
    else if || s.players[sender].connectionId != Some(route.senderConnectionId)
            || s.players[receiver].connectionId != Some(route.receiverConnectionId) then Err(PlayerSlotUnavailable)
    else Ok(())
  }

  // What is prepared, and when

  /** The connection is the host's, and the receiver asked for is connected. */
  predicate HostReaches(s: State, connectionId: ConnectionId, receiver: PlayerIndex) {
    && |s.players| > 0 && s.players[0].role == Host && s.players[0].connectionId == Some(connectionId)
    && receiver < |s.players| && s.players[receiver].connectionId.Some?
  }

  /** Both clients take part in file relay. */
  predicate BothRelay(s: State, receiver: PlayerIndex)
    requires 0 < |s.players| && receiver < |s.players|
  {
    && s.players[0].capabilities.supportsTemporarySessionRomRelay
    && s.players[receiver].capabilities.supportsTemporarySessionRomRelay
  }

  /** From the host's seat and connection to the seat asked for and its connection. */
  predicate FromHostTo(s: State, route: Route, connectionId: ConnectionId, receiver: PlayerIndex) {
    && HostReaches(s, connectionId, receiver)
    && route.senderPlayerIndex == 0 && route.senderConnectionId == connectionId
    && route.receiverPlayerIndex == receiver
    && s.players[receiver].connectionId == Some(route.receiverConnectionId)
  }

  /** Why no route is prepared: nobody or a guest asks, the receiver is away, or a client does not relay. */
  lemma RouteIsPreparedExactlyWhen(s: State, connectionId: ConnectionId, receiver: PlayerIndex,
                                   unsupported: LobbyError)
    requires SlotsValid(s.players)
    ensures var r := PrepareRoute(s, connectionId, receiver, unsupported);
            && (r.Ok? <==> HostReaches(s, connectionId, receiver) && BothRelay(s, receiver))
            && (r.Ok? ==> FromHostTo(s, r.value, connectionId, receiver))
            && (r.Err? ==>
                  r.error == if Unheld(s.players, connectionId) then UnknownConnection
                             else if s.players[0].connectionId != Some(connectionId) then HostOnly
                             else if !HostReaches(s, connectionId, receiver) then PlayerSlotUnavailable
                             else unsupported)
  {
    RequesterIsHolder(s, connectionId);
    var k := SlotAt(s.players, receiver);
    assert k < |s.players| ==> SlotValid(s.players[k], k);
    assert receiver < |s.players| ==> SlotValid(s.players[receiver], receiver);
    if Requester(s, connectionId).Ok? {
      var seat := Requester(s, connectionId).value.playerIndex;
      assert SlotValid(s.players[seat], seat);
    }
  }

  /** The selected game can be sent: its hash is known and well formed, and its size known and allowed. */
  predicate RomCanBeSent(game: GameCandidate, maxBytes: nat) {
    && game.contentSha256.Some? && IsSha256(game.contentSha256.value)
    && game.romSizeBytes.Some? && game.romSizeBytes.value <= maxBytes
  }

  /** A ROM transfer is prepared exactly when the host asks for a connected receiver, both clients relay, and the
      proposal is the selected one with a game that can be sent. It goes from the host to that receiver, and its
      game, hash and size are those selected. */
  lemma RomIsPreparedExactlyWhen(s: State, connectionId: ConnectionId, proposalId: ProposalId, receiver: PlayerIndex,
                                 maxBytes: nat)
    requires SlotsValid(s.players)
    ensures var r := PrepareRom(s, connectionId, proposalId, receiver, maxBytes);
            && (r.Ok? <==> && HostReaches(s, connectionId, receiver) && BothRelay(s, receiver)
                           && s.selectedGame.Some? && s.selectedGame.value.proposalId == proposalId
                           && RomCanBeSent(s.selectedGame.value.game, maxBytes))
            && (r.Ok? ==>
                  && FromHostTo(s, r.value.route, connectionId, receiver)
                  && r.value.lobbyId == s.lobbyId && r.value.proposalId == proposalId
                  && s.selectedGame == Some(s.selectedGame.value.(game := r.value.game))
                  && r.value.game.contentSha256 == Some(r.value.sha256)
                  && r.value.game.romSizeBytes == Some(r.value.sizeBytes))
  {
    RouteIsPreparedExactlyWhen(s, connectionId, receiver, RomRelayUnsupported);
  }

  /** The refusals past the route, in order: another proposal, no usable hash and size, too large. */
  lemma RomRefusals(s: State, connectionId: ConnectionId, proposalId: ProposalId, receiver: PlayerIndex, maxBytes: nat)
    requires SlotsValid(s.players) && HostReaches(s, connectionId, receiver) && BothRelay(s, receiver)
    requires PrepareRom(s, connectionId, proposalId, receiver, maxBytes).Err?
    ensures PrepareRom(s, connectionId, proposalId, receiver, maxBytes).error
         == if !(s.selectedGame.Some? && s.selectedGame.value.proposalId == proposalId) then StaleGameProposal
            else if s.selectedGame.value.game.romSizeBytes.Some?
                 && RomCanBeSent(s.selectedGame.value.game, s.selectedGame.value.game.romSizeBytes.value)
            then RomRelayTooLarge else InvalidPayload
  {
    RouteIsPreparedExactlyWhen(s, connectionId, receiver, RomRelayUnsupported);
  }

  /** The text says something: some character of it is not white space. */
  predicate Speaks(text: Option<string>) {
    text.Some? && exists i :: 0 <= i < |text.value| && !IsWhitespace(text.value[i])
  }

  lemma {:induction false} TrimStartEmpty(s: string)
    ensures TrimStart(s) == "" <==> forall i :: 0 <= i < |s| ==> IsWhitespace(s[i])
  {
    if s != [] && IsWhitespace(s[0]) {
      TrimStartEmpty(s[1..]);
      assert forall i :: 1 <= i < |s| ==> s[i] == s[1..][i - 1];
    }
  }

  lemma {:induction false} TrimEndEmpty(s: string)
    ensures TrimEnd(s) == "" <==> forall i :: 0 <= i < |s| ==> IsWhitespace(s[i])
  {
    if s != [] && IsWhitespace(s[|s| - 1]) {
      TrimEndEmpty(s[..|s| - 1]);
      assert forall i :: 0 <= i < |s| - 1 ==> s[i] == s[..|s| - 1][i];
    }
  }

  /** A text is blank exactly when all of it is white space. */
  lemma BlankIsWhitespace(s: string)
    ensures Blank(s) <==> forall i :: 0 <= i < |s| ==> IsWhitespace(s[i])
  {
    TrimStartEmpty(s);
    TrimEndEmpty(TrimStart(s));
    TrimStartStable(s);
    if TrimStart(s) != "" {
      assert !IsWhitespace(TrimStart(s)[0]);
    }
  }

  /** A startup state is prepared exactly when the host asks for a connected receiver, both clients relay, the
      proposal is the selected one and names a state, and what is offered is a well-formed state of allowed size
      under that name or none. It goes from the host to that receiver. */
  lemma StateIsPreparedExactlyWhen(s: State, connectionId: ConnectionId, proposalId: ProposalId,
                                   receiver: PlayerIndex, state: StartupState, maxBytes: nat)
    requires SlotsValid(s.players)
    ensures var r := PrepareStartupState(s, connectionId, proposalId, receiver, state, maxBytes);
            && (r.Ok? <==>
                  && HostReaches(s, connectionId, receiver) && BothRelay(s, receiver)
                  && s.selectedGame.Some? && s.selectedGame.value.proposalId == proposalId
                  && var named := s.selectedGame.value.game.startStateLabel;
                     && Speaks(named) && IsSha256(state.sha256) && 0 < state.sizeBytes <= maxBytes
                     && (Speaks(state.stateLabel) ==> Trim(state.stateLabel.value) == Trim(named.value))
                     && (state.stateFormat.Some? ==> Speaks(state.stateFormat)))
            && (r.Ok? ==>
                  && FromHostTo(s, r.value.route, connectionId, receiver)
                  && r.value.lobbyId == s.lobbyId && r.value.proposalId == proposalId
                  && s.selectedGame == Some(s.selectedGame.value.(game := r.value.game)))
  {
    RouteIsPreparedExactlyWhen(s, connectionId, receiver, StartupStateRelayUnsupported);
    SpeaksIsSpoken(state.stateLabel);
    SpeaksIsSpoken(state.stateFormat);
    if s.selectedGame.Some? {
      SpeaksIsSpoken(s.selectedGame.value.game.startStateLabel);
    }
  }

  lemma SpeaksIsSpoken(text: Option<string>)
    ensures Speaks(text) <==> Spoken(text).Some?
    ensures Speaks(text) ==> Spoken(text) == Some(Trim(text.value))
  {
    if text.Some? {
      BlankIsWhitespace(text.value);
    }
  }

  // Re-validation

  /** Wherever the connection is held, it is held by this very slot. */
  predicate Pinned(s: State, connectionId: ConnectionId, slot: PlayerSlot) {
    forall i :: 0 <= i < |s.players| && s.players[i].connectionId == Some(connectionId) ==> s.players[i] == slot
  }

  lemma FrameKeepsPin(s: State, call: Call, t: Step, connectionId: ConnectionId, slot: PlayerSlot)
    requires Frame(s, call, t) && Pinned(s, connectionId, slot)
    requires call.JoinCall? || call.ReconnectCall? ==> call.claim.connectionId != connectionId
    ensures Pinned(t.state, connectionId, slot)
  {
  }

  /** An installed connection never moves to another slot, role or capability set, and a selected
      proposal never names another game. */
  lemma {:induction false} RunKeepsPins(w: World, calls: seq<Call>, connectionId: ConnectionId, slot: PlayerSlot,
                                        selection: GameSelection)
    requires WorldValid(w) && FreshRun(w, calls)
    requires connectionId in w.connections && Pinned(w.lobby, connectionId, slot)
    requires w.lobby.selectedGame == Some(selection)
    ensures var later := Play(w, calls);
            && WorldValid(later)
            && later.lobby.lobbyId == w.lobby.lobbyId
            && w.connections <= later.connections && w.proposals <= later.proposals
            && Pinned(later.lobby, connectionId, slot)
            && (Selected(later.lobby, selection.proposalId) ==> later.lobby.selectedGame == Some(selection))
    decreases |calls|
  {
    if calls != [] {
      var front, call := calls[..|calls| - 1], calls[|calls| - 1];
      RunKeepsPins(w, front, connectionId, slot, selection);
      var before := Play(w, front);
      AfterKeepsWorld(before, call);
      ApplyFrame(before.lobby, call);
      FrameKeepsPin(before.lobby, call, Apply(before.lobby, call), connectionId, slot);
    }
  }

  /** While both ends hold their slots or nothing, a route is current exactly when it can be prepared again. */
  lemma PinnedRoute(s: State, t: State, connectionId: ConnectionId, proposalId: ProposalId, receiver: PlayerIndex,
                    unsupported: LobbyError)
    requires SlotsValid(s.players) && SlotsValid(t.players)
    requires PrepareRoute(s, connectionId, receiver, unsupported).Ok?
    requires Pinned(t, connectionId, Requester(s, connectionId).value)
    requires var target := s.players[SlotAt(s.players, receiver)]; Pinned(t, target.connectionId.value, target)
    ensures var route := PrepareRoute(s, connectionId, receiver, unsupported);
            && (RequireCurrent(t, proposalId, route.value).Ok? <==>
                  PrepareRoute(t, connectionId, receiver, unsupported) == route && Selected(t, proposalId))
            && (RequireCurrent(t, proposalId, route.value).Err? ==>
                  RequireCurrent(t, proposalId, route.value).error
                  == if Selected(t, proposalId) then PlayerSlotUnavailable else StaleGameProposal)
  {
    RequesterIsHolder(s, connectionId);
    RequesterIsHolder(t, connectionId);
  }

  /** A route prepared in one state is current later exactly when preparing it again gives the same route. */
  lemma RouteIsCurrent(w: World, calls: seq<Call>, connectionId: ConnectionId, proposalId: ProposalId,
                       receiver: PlayerIndex, unsupported: LobbyError)
    requires WorldValid(w) && FreshRun(w, calls)
    requires PrepareRoute(w.lobby, connectionId, receiver, unsupported).Ok? && Selected(w.lobby, proposalId)
    ensures var route := PrepareRoute(w.lobby, connectionId, receiver, unsupported);
            var later := Play(w, calls).lobby;
            && (RequireCurrent(later, proposalId, route.value).Ok? <==>
                  PrepareRoute(later, connectionId, receiver, unsupported) == route && Selected(later, proposalId))
            && (RequireCurrent(later, proposalId, route.value).Err? ==>
                  RequireCurrent(later, proposalId, route.value).error
                  == if Selected(later, proposalId) then PlayerSlotUnavailable else StaleGameProposal)
            && later.lobbyId == w.lobby.lobbyId
            && (Selected(later, proposalId) ==> later.selectedGame == w.lobby.selectedGame)
  {
    var sender := Requester(w.lobby, connectionId).value;
    RequesterIsHolder(w.lobby, connectionId);
    var target := w.lobby.players[SlotAt(w.lobby.players, receiver)];
    RunKeepsPins(w, calls, connectionId, sender, w.lobby.selectedGame.value);
    RunKeepsPins(w, calls, target.connectionId.value, target, w.lobby.selectedGame.value);
    PinnedRoute(w.lobby, Play(w, calls).lobby, connectionId, proposalId, receiver, unsupported);
  }

  /** Two-phase grant of a ROM transfer: whatever happened in between, the intent is accepted exactly
      when preparing the same transfer now would give the same sender, receiver, game, hash and size. */
  lemma RomGrantIsCurrent(w: World, calls: seq<Call>, connectionId: ConnectionId, proposalId: ProposalId,
                          receiver: PlayerIndex, maxBytes: nat)
    requires WorldValid(w) && FreshRun(w, calls)
    requires PrepareRom(w.lobby, connectionId, proposalId, receiver, maxBytes).Ok?
    ensures var intent := PrepareRom(w.lobby, connectionId, proposalId, receiver, maxBytes);
            var later := Play(w, calls).lobby;
            var check := RequireCurrent(later, intent.value.proposalId, intent.value.route);
            && (check.Ok? <==> PrepareRom(later, connectionId, proposalId, receiver, maxBytes) == intent)
            && (check.Err? ==>
                  check.error == if Selected(later, proposalId) then PlayerSlotUnavailable else StaleGameProposal)
  {
    RouteIsCurrent(w, calls, connectionId, proposalId, receiver, RomRelayUnsupported);
  }

  /** With the same game behind the proposal, a state is prepared again alike exactly when its route is. */
  lemma PreparedAgain(s: State, t: State, connectionId: ConnectionId, proposalId: ProposalId, receiver: PlayerIndex,
                      state: StartupState, maxBytes: nat)
    requires PrepareStartupState(s, connectionId, proposalId, receiver, state, maxBytes).Ok?
    requires t.lobbyId == s.lobbyId && (Selected(t, proposalId) ==> t.selectedGame == s.selectedGame)
    ensures PrepareStartupState(t, connectionId, proposalId, receiver, state, maxBytes)
         == PrepareStartupState(s, connectionId, proposalId, receiver, state, maxBytes)
       <==> && Selected(t, proposalId)
            && PrepareRoute(t, connectionId, receiver, StartupStateRelayUnsupported)
               == PrepareRoute(s, connectionId, receiver, StartupStateRelayUnsupported)
  {
  }

  /** Two-phase grant of a startup-state transfer. */
  lemma StartupStateGrantIsCurrent(w: World, calls: seq<Call>, connectionId: ConnectionId, proposalId: ProposalId,
                                   receiver: PlayerIndex, state: StartupState, maxBytes: nat)
    requires WorldValid(w) && FreshRun(w, calls)
    requires PrepareStartupState(w.lobby, connectionId, proposalId, receiver, state, maxBytes).Ok?
    ensures var intent := PrepareStartupState(w.lobby, connectionId, proposalId, receiver, state, maxBytes);
            var later := Play(w, calls).lobby;
            var check := RequireCurrent(later, intent.value.proposalId, intent.value.route);
            && (check.Ok? <==>
                  PrepareStartupState(later, connectionId, proposalId, receiver, state, maxBytes) == intent)
            && (check.Err? ==>
                  check.error == if Selected(later, proposalId) then PlayerSlotUnavailable else StaleGameProposal)
  {
    RouteIsCurrent(w, calls, connectionId, proposalId, receiver, StartupStateRelayUnsupported);
    PreparedAgain(w.lobby, Play(w, calls).lobby, connectionId, proposalId, receiver, state, maxBytes);
  }

  /** A prepared startup state always leaves with the label the host selected. */
  lemma PreparedStateIsLabelled(s: State, connectionId: ConnectionId, proposalId: ProposalId, receiver: PlayerIndex,
                                state: StartupState, maxBytes: nat)
    requires PrepareStartupState(s, connectionId, proposalId, receiver, state, maxBytes).Ok?
    ensures var intent := PrepareStartupState(s, connectionId, proposalId, receiver, state, maxBytes).value;
            && Spoken(intent.state.stateLabel) == Spoken(intent.game.startStateLabel)
            && intent.state == state.(stateLabel := intent.state.stateLabel)
  {
    TrimIsStable(s.selectedGame.value.game.startStateLabel.value);
  }

  lemma {:induction false} TrimStartStable(s: string)
    ensures TrimStart(TrimStart(s)) == TrimStart(s)
    ensures TrimStart(s) != "" ==> !IsWhitespace(TrimStart(s)[0])
  {
    if s != [] && IsWhitespace(s[0]) {
      TrimStartStable(s[1..]);
    }
  }

  lemma {:induction false} TrimEndStable(s: string)
    ensures TrimEnd(s) <= s
    ensures TrimEnd(s) != "" ==> !IsWhitespace(TrimEnd(s)[|TrimEnd(s)| - 1])
  {
    if s != [] && IsWhitespace(s[|s| - 1]) {
      TrimEndStable(s[..|s| - 1]);
    }
  }

  lemma TrimIsStable(s: string)
    ensures Trim(Trim(s)) == Trim(s)
  {
    TrimStartStable(s);
    TrimEndStable(TrimStart(s));
  }
}
