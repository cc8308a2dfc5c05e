/** Properties of whole lobby runs: reachable states satisfy the joint invariant,
    the epoch is a version number, a closed lobby stays as it is, returns are
    idempotent and a pending launch keeps the readiness it was granted on. */
module LobbyRuns {
  import opened Prelude
  import opened LobbyState
  import opened LobbyOps
  import opened LobbyInvariant

  // What one call may do, whatever it is

  /** How a slot may look after a call: as it was, without a connection, or newly claimed. */
  predicate SlotMoves(before: PlayerSlot, after: PlayerSlot, call: Call, effect: Effect) {
    || after == before
    || after.connectionId.None?
    || (&& (call.JoinCall? || call.ReconnectCall?) && effect == Changed
        && after.connectionId == Some(call.claim.connectionId))
  }

  /** The frame of one call: what it may change, told from the effect it reports. */
  predicate Frame(s: State, call: Call, t: Step) {
    && t.state.lobbyId == s.lobbyId
    && (t.effect.Rejected? || t.effect == NoChange ==> t.state == s)
    && (t.effect == Touched ==>
          t.state == s.(lastMeaningfulActivityAtMs := t.state.lastMeaningfulActivityAtMs))
    && (t.effect == Changed ==> t.state.lobbyEpoch == s.lobbyEpoch + 1 && t.state.eventSeq == s.eventSeq + 1)
    && |t.state.players| == |s.players|
    && (forall i :: 0 <= i < |s.players| ==> SlotMoves(s.players[i], t.state.players[i], call, t.effect))
    && (|| t.state.selectedGame == s.selectedGame
        || (&& call.SelectCall? && t.effect == Changed
            && t.state.selectedGame.Some? && t.state.selectedGame.value.proposalId == call.proposalId))
    && (t.state.lastReturn != s.lastReturn && t.state.lastReturn.Some? ==>
          call.ReturnCall? && s.pendingLaunch.Some?)
    && (t.state.lastReturn != s.lastReturn && t.state.lastReturn.None? ==>
          (call.SelectCall? || call.LaunchCall?) && t.effect == Changed)
    && ((call.SelectCall? || call.LaunchCall?) && t.effect == Changed ==> t.state.lastReturn.None?)
    && (t.state.pendingLaunch.Some? ==>
          || (call.LaunchCall? && t.effect == Changed)
          || (&& s.pendingLaunch.Some?
              && t.state.pendingLaunch.value.proposalId == s.pendingLaunch.value.proposalId
              && t.state.gameReadiness == s.gameReadiness))
  }

  lemma JoinFrame(s: State, claim: Claim)
    ensures Frame(s, JoinCall(claim), Always(Join(s, claim)))
  {
  }

  lemma ReconnectFrame(s: State, i: PlayerIndex, epoch: nat, claim: Claim)
    ensures Frame(s, ReconnectCall(i, epoch, claim), Always(Reconnect(s, i, epoch, claim)))
  {
  }

  lemma DisconnectFrame(s: State, c: ConnectionId, now: Millis)
    ensures Frame(s, DisconnectCall(c, now), Reported(Disconnect(s, c, now)))
  {
  }

  lemma LeaveFrame(s: State, c: ConnectionId, now: Millis)
    ensures Frame(s, LeaveCall(c, now), Always(Leave(s, c, now)))
  {
  }

  lemma RemoveFrame(s: State, c: ConnectionId, epoch: nat, target: PlayerIndex, now: Millis)
    ensures Frame(s, RemoveCall(c, epoch, target, now), Always(RemovePlayer(s, c, epoch, target, now)))
  {
  }

  lemma SelectFrame(s: State, c: ConnectionId, game: GameCandidate, p: ProposalId, now: Millis)
    ensures Frame(s, SelectCall(c, game, p, now), Always(SelectGame(s, c, game, p, now)))
  {
  }

  lemma ReadinessFrame(s: State, c: ConnectionId, p: ProposalId, status: ReadinessStatus, detail: CleanDetail,
                       now: Millis)
    ensures Frame(s, ReadinessCall(c, p, status, detail, now), Always(SetReadiness(s, c, p, status, detail, now)))
  {
  }

  lemma LaunchFrame(s: State, c: ConnectionId, p: ProposalId, now: Millis)
    ensures Frame(s, LaunchCall(c, p, now), Always(RequestLaunch(s, c, p, now)))
  {
  }

  lemma PublishFrame(s: State, c: ConnectionId, p: ProposalId, code: string, now: Millis)
    ensures Frame(s, PublishCall(c, p, code, now), Always(PublishGameRoom(s, c, p, code, now)))
  {
  }

  lemma StartedFrame(s: State, c: ConnectionId, epoch: nat, p: ProposalId, now: Millis)
    ensures Frame(s, StartedCall(c, epoch, p, now), Reported(MarkGameplayStarted(s, c, epoch, p, now)))
  {
  }

  lemma ReturnFrame(s: State, request: ReturnRequest)
    ensures Frame(s, ReturnCall(request), Apply(s, ReturnCall(request)))
  {
  }

  /** Every call stays within its frame. */
  lemma ApplyFrame(s: State, call: Call)
    ensures Frame(s, call, Apply(s, call))
  {
    match call
    case JoinCall(claim) => JoinFrame(s, claim);
    case ReconnectCall(i, epoch, claim) => ReconnectFrame(s, i, epoch, claim);
    case DisconnectCall(c, now) => DisconnectFrame(s, c, now);
    case LeaveCall(c, now) => LeaveFrame(s, c, now);
    case RemoveCall(c, epoch, target, now) => RemoveFrame(s, c, epoch, target, now);
    case SelectCall(c, game, p, now) => SelectFrame(s, c, game, p, now);
    case ReadinessCall(c, p, status, detail, now) => ReadinessFrame(s, c, p, status, detail, now);
    case LaunchCall(c, p, now) => LaunchFrame(s, c, p, now);
    case PublishCall(c, p, code, now) => PublishFrame(s, c, p, code, now);
    case StartedCall(c, epoch, p, now) => StartedFrame(s, c, epoch, p, now);
    case ReturnCall(request) => ReturnFrame(s, request);
    case ActivityCall(_, _) =>
    case IdleCall(_) =>
  }

  // The epoch is a version number

  /** The part of the state that an epoch identifies: all but the idle-cleanup timestamp. */
  function Version(s: State): State {
    s.(lastMeaningfulActivityAtMs := 0)
  }

  /** A later state of a run: a higher epoch, or the same version. */
  predicate Follows(earlier: State, later: State) {
    earlier.lobbyEpoch < later.lobbyEpoch
    || (earlier.lobbyEpoch == later.lobbyEpoch && Version(earlier) == Version(later))
  }

  lemma FrameFollows(earlier: State, s: State, call: Call, t: Step)
    requires Follows(earlier, s) && Frame(s, call, t)
    ensures Follows(earlier, t.state)
  {
  }

  lemma LastStep(s: State, calls: seq<Call>, j: nat) returns (t: Step)
    requires 0 < j <= |calls|
    ensures Frame(Run(s, calls[..j - 1]), calls[j - 1], t)
    ensures Run(s, calls[..j]) == t.state
  {
    assert calls[..j][..j - 1] == calls[..j - 1];
    t := Apply(Run(s, calls[..j - 1]), calls[j - 1]);
    ApplyFrame(Run(s, calls[..j - 1]), calls[j - 1]);
  }

  lemma {:induction false} EpochNeverFalls(s: State, calls: seq<Call>, i: nat, j: nat)
    requires i <= j <= |calls|
    ensures Follows(Run(s, calls[..i]), Run(s, calls[..j]))
    decreases j
  {
    if i < j {
      EpochNeverFalls(s, calls, i, j - 1);
      var t := LastStep(s, calls, j);
      FrameFollows(Run(s, calls[..i]), Run(s, calls[..j - 1]), calls[j - 1], t);
    }
  }

  /** Two moments of one run with the same epoch show the same lobby. */
  lemma EpochIdentifiesVersion(s: State, calls: seq<Call>, i: nat, j: nat)
    requires i <= |calls| && j <= |calls|
    requires Run(s, calls[..i]).lobbyEpoch == Run(s, calls[..j]).lobbyEpoch
    ensures Version(Run(s, calls[..i])) == Version(Run(s, calls[..j]))
  {
    EpochNeverFalls(s, calls, if i <= j then i else j, if i <= j then j else i);
  }

  // Closed is terminal

  lemma ClosedHoldsNoConnection(s: State, connectionId: ConnectionId)
    requires Valid(s) && s.status == Closed
    ensures SlotHolding(s.players, connectionId) == |s.players|
    ensures Requester(s, connectionId) == Err(UnknownConnection)
  {
  }

  lemma ClosedIgnores(s: State, call: Call)
    requires Valid(s) && s.status == Closed
    ensures Apply(s, call).state == s
    ensures Apply(s, call).effect.Rejected? || Apply(s, call).effect == NoChange
  {
    if !call.JoinCall? && !call.ReconnectCall? && !call.IdleCall? {
      ClosedHoldsNoConnection(s, if call.ReturnCall? then call.request.connectionId else call.connectionId);
    }
  }

  /** No sequence of calls, with any arguments, moves a closed lobby. */
  lemma {:induction false} ClosedIsTerminal(s: State, calls: seq<Call>)
    requires Valid(s) && s.status == Closed
    ensures Run(s, calls) == s
    ensures forall call :: !Apply(Run(s, calls), call).effect.Touched? && !Apply(Run(s, calls), call).effect.Changed?
    decreases |calls|
  {
    if calls != [] {
      ClosedIsTerminal(s, calls[..|calls| - 1]);
      ClosedIgnores(s, calls[|calls| - 1]);
    }
    forall call ensures !Apply(s, call).effect.Touched? && !Apply(s, call).effect.Changed? {
      ClosedIgnores(s, call);
    }
  }

  // Returns are idempotent

  /** The two calls that start something new for the lobby's game, when they succeed. */
  predicate StartsAnew(s: State, call: Call) {
    (call.SelectCall? || call.LaunchCall?) && Apply(s, call).effect == Changed
  }

  predicate NothingNew(s: State, calls: seq<Call>)
    decreases |calls|
  {
    calls == [] ||
    (&& NothingNew(s, calls[..|calls| - 1])
     && !StartsAnew(Run(s, calls[..|calls| - 1]), calls[|calls| - 1]))
  }

  predicate ReturnedFrom(s: State, returned: Returned) {
    s.lastReturn == Some(returned) && s.pendingLaunch.None? && Selected(s, returned.proposalId)
  }

  lemma {:induction false} ReturnIsRemembered(s: State, returned: Returned, calls: seq<Call>)
    requires ReturnedFrom(s, returned) && NothingNew(s, calls)
    ensures ReturnedFrom(Run(s, calls), returned)
    decreases |calls|
  {
    if calls != [] {
      var front := calls[..|calls| - 1];
      ReturnIsRemembered(s, returned, front);
      ApplyFrame(Run(s, front), calls[|calls| - 1]);
    }
  }

  /** After a return is applied, every later return request for that proposal, from any connection
      the lobby knows and with any epoch, is answered with the first attribution and changes nothing. */
  lemma ReturnIsIdempotent(s: State, first: ReturnRequest, calls: seq<Call>, again: ReturnRequest)
    requires ReturnToLobby(s, first).result.Ok? && ReturnToLobby(s, first).result.value.stateChanged
    requires NothingNew(ReturnToLobby(s, first).state, calls)
    requires again.proposalId == first.proposalId
    ensures var later := Run(ReturnToLobby(s, first).state, calls);
            Requester(later, again.connectionId).Ok? ==>
              ReturnToLobby(later, again)
              == Outcome(later, Ok(ReturnOutcome(Returned(first.proposalId, first.returnRequestedByPlayerIndex,
                                                          first.reason, first.nowMs), false)))
  {
    var returned := ReturnToLobby(s, first).result.value.returned;
    ReturnIsRemembered(ReturnToLobby(s, first).state, returned, calls);
  }

  // Reachable states, with the history that fresh identifiers are drawn against

  /** A lobby with every connection ever installed, every proposal ever selected, and the seats
      connected at the latest accepted launch request. */
  datatype World = World(
    lobby: State,
    connections: set<ConnectionId>,
    proposals: set<ProposalId>,
    roster: set<PlayerIndex>)

  function Seats(players: seq<PlayerSlot>): set<PlayerIndex> {
    set i | 0 <= i < |players| && Present(players[i]) :: players[i].playerIndex
  }

  function Start(request: CreateRequest): World {
    World(Create(request), {request.host.connectionId}, {request.initialProposalId}, {})
  }

  /** Connections and proposals are drawn at random and never repeat. */
  predicate Fresh(w: World, call: Call) {
    && (call.JoinCall? || call.ReconnectCall? ==> call.claim.connectionId !in w.connections)
    && (call.SelectCall? ==> call.proposalId !in w.proposals)
  }

  function After(w: World, call: Call): World {
    var step := Apply(w.lobby, call);
    if step.effect != Changed then w.(lobby := step.state)
    else match call
      case JoinCall(claim) => w.(lobby := step.state, connections := w.connections + {claim.connectionId})
      case ReconnectCall(_, _, claim) => w.(lobby := step.state, connections := w.connections + {claim.connectionId})
      case SelectCall(_, _, p, _) => w.(lobby := step.state, proposals := w.proposals + {p})
      case LaunchCall(_, _, _) => w.(lobby := step.state, roster := Seats(w.lobby.players))
      case _ => w.(lobby := step.state)
  }

  function Play(w: World, calls: seq<Call>): World
    decreases |calls|
  {
    if calls == [] then w else After(Play(w, calls[..|calls| - 1]), calls[|calls| - 1])
  }

  predicate FreshRun(w: World, calls: seq<Call>)
    decreases |calls|
  {
    calls == [] ||
    (FreshRun(w, calls[..|calls| - 1]) && Fresh(Play(w, calls[..|calls| - 1]), calls[|calls| - 1]))
  }

  predicate RosterIsReady(w: World) {
    w.lobby.pendingLaunch.Some? ==>
      forall i :: i in w.roster ==> HasReadyEntry(w.lobby.gameReadiness, i, w.lobby.pendingLaunch.value.proposalId)
  }

  predicate HistoryKnows(w: World) {
    && (forall i :: 0 <= i < |w.lobby.players| && w.lobby.players[i].connectionId.Some? ==>
          w.lobby.players[i].connectionId.value in w.connections)
    && (w.lobby.selectedGame.Some? ==> w.lobby.selectedGame.value.proposalId in w.proposals)
  }

  predicate WorldValid(w: World) {
    Valid(w.lobby) && HistoryKnows(w) && RosterIsReady(w)
  }

  lemma AfterKeepsRoster(w: World, call: Call)
    requires RosterIsReady(w)
    ensures RosterIsReady(After(w, call))
  {
    ApplyFrame(w.lobby, call);
  }

  /** The history grows by what the call installed or selected. */
  predicate HistoryGrows(w: World, call: Call, t: Step, v: World) {
    && v.lobby == t.state && w.connections <= v.connections && w.proposals <= v.proposals
    && (t.effect == Changed && (call.JoinCall? || call.ReconnectCall?) ==> call.claim.connectionId in v.connections)
    && (t.effect == Changed && call.SelectCall? ==> call.proposalId in v.proposals)
  }

  lemma AfterRecords(w: World, call: Call)
    ensures HistoryGrows(w, call, Apply(w.lobby, call), After(w, call))
  {
  }

  lemma RecordedIsKnown(w: World, call: Call, t: Step, v: World)
    requires HistoryKnows(w) && Frame(w.lobby, call, t) && HistoryGrows(w, call, t, v)
    ensures HistoryKnows(v)
  {
    forall i | 0 <= i < |v.lobby.players| && v.lobby.players[i].connectionId.Some?
      ensures v.lobby.players[i].connectionId.value in v.connections
    {
      assert SlotMoves(w.lobby.players[i], t.state.players[i], call, t.effect);
    }
  }

  lemma AfterKeepsWorld(w: World, call: Call)
    requires WorldValid(w) && Fresh(w, call)
    ensures WorldValid(After(w, call))
  {
    ApplyKeepsValid(w.lobby, call);
    AfterKeepsRoster(w, call);
    ApplyFrame(w.lobby, call);
    AfterRecords(w, call);
    RecordedIsKnown(w, call, Apply(w.lobby, call), After(w, call));
  }

  lemma {:induction false} PlayKeepsWorld(w: World, calls: seq<Call>)
    requires WorldValid(w) && FreshRun(w, calls)
    ensures WorldValid(Play(w, calls))
    ensures Play(w, calls).lobby == Run(w.lobby, calls)
    decreases |calls|
  {
    if calls != [] {
      var front := calls[..|calls| - 1];
      PlayKeepsWorld(w, front);
      AfterKeepsWorld(Play(w, front), calls[|calls| - 1]);
    }
  }

  /** Every state of every run of every lobby satisfies the joint invariant, and while a launch is
      pending everyone connected when it was requested still has a Ready entry for it. */
  lemma ReachableIsValid(request: CreateRequest, calls: seq<Call>)
    requires FreshRun(Start(request), calls)
    ensures Valid(Run(Create(request), calls))
    ensures WorldValid(Play(Start(request), calls)) && RosterIsReady(Play(Start(request), calls))
    ensures Play(Start(request), calls).lobby == Run(Create(request), calls)
  {
    CreateIsValid(request);
    PlayKeepsWorld(Start(request), calls);
  }
}
