/** Compatibility fingerprints and the room's check that all of them agree, made
    against whichever fingerprint a hash map happens to yield first. */
module Compatibility {
  import opened Prelude
  import opened RoomTypes
  import V5 = CompatibilityV5

  datatype Fingerprint = Fingerprint(
    desktopVersion: string,
    protocolVersion: nat,
    systemId: string,
    coreId: string,
    coreBuild: string,
    stateFormat: Option<string>,
    contentHash: string,
    settingsHash: string,
    cheatsHash: string,
    systemDataHash: Option<string>,
    saveDataMode: string,
    determinismV5: Option<V5.Profile>)

  function NormalizedStateFormat(f: Fingerprint): string {
    if f.stateFormat.Some? then f.stateFormat.value else f.coreBuild
  }

  function FirstMismatch(f: Fingerprint, other: Fingerprint): Option<V5.Mismatch> {
    if f.protocolVersion != other.protocolVersion then Some(V5.ProtocolVersion)
    else if f.systemId != other.systemId then Some(V5.System)
    else if f.coreId != other.coreId then Some(V5.Core)
    else if NormalizedStateFormat(f) != NormalizedStateFormat(other) then Some(V5.StateFormat)
    else if f.contentHash != other.contentHash then Some(V5.Content)
    else if f.settingsHash != other.settingsHash then Some(V5.Settings)
    else if f.cheatsHash != other.cheatsHash then Some(V5.Cheats)
    else if f.systemDataHash != other.systemDataHash then Some(V5.SystemData)
    else if f.saveDataMode != other.saveDataMode then Some(V5.SaveDataMode)
    else if f.protocolVersion >= 5 then
      if f.determinismV5.None? || other.determinismV5.None? then Some(V5.DeterminismProfileMissing)
      else V5.FirstMismatch(f.determinismV5.value, other.determinismV5.value)
    else None
  }

  predicate Agree(f: Fingerprint, other: Fingerprint) {
    FirstMismatch(f, other).None?
  }

  /** The fingerprints differ in what the reason names. A missing state format stands for the core build, and
      profiles are compared from protocol 5 on, if both are there. */
  predicate Differs(m: V5.Mismatch, f: Fingerprint, g: Fingerprint) {
    match m
    case ProtocolVersion => f.protocolVersion != g.protocolVersion
    case System => f.systemId != g.systemId
    case Core => f.coreId != g.coreId
    case StateFormat =>
      (if f.stateFormat.Some? then f.stateFormat.value else f.coreBuild)
      != (if g.stateFormat.Some? then g.stateFormat.value else g.coreBuild)
    case Content => f.contentHash != g.contentHash
    case Settings => f.settingsHash != g.settingsHash
    case Cheats => f.cheatsHash != g.cheatsHash
    case SystemData => f.systemDataHash != g.systemDataHash
    case SaveDataMode => f.saveDataMode != g.saveDataMode
    case DeterminismProfileMissing => f.protocolVersion >= 5 && !(f.determinismV5.Some? && g.determinismV5.Some?)
    case _ =>
      && f.protocolVersion >= 5 && f.determinismV5.Some? && g.determinismV5.Some?
      && V5.Differs(m, f.determinismV5.value, g.determinismV5.value)
  }

  /** The reported reason is the first of those that hold. */
  ghost predicate IsFirstReason(r: Option<V5.Mismatch>, f: Fingerprint, g: Fingerprint) {
    match r
    case None => forall n: V5.Mismatch :: !Differs(n, f, g)
    case Some(m) => Differs(m, f, g) && forall n: V5.Mismatch :: V5.Rank(n) < V5.Rank(m) ==> !Differs(n, f, g)
  }

  lemma ReasonIsFirst(f: Fingerprint, g: Fingerprint)
    ensures IsFirstReason(FirstMismatch(f, g), f, g)
  {
    if f.determinismV5.Some? && g.determinismV5.Some? {
      var first := V5.FirstMismatch(f.determinismV5.value, g.determinismV5.value);
      if first.Some? {
        V5.MismatchIsFirst(f.determinismV5.value, g.determinismV5.value, first.value);
      } else {
        V5.MismatchIsFirst(f.determinismV5.value, g.determinismV5.value, V5.DigestContract);
      }
    }
  }

  lemma OneFirstReason(a: Option<V5.Mismatch>, b: Option<V5.Mismatch>, f: Fingerprint, g: Fingerprint)
    requires IsFirstReason(a, f, g) && IsFirstReason(b, f, g)
    ensures a == b
  {
    if a.Some? && b.Some? {
      V5.RanksDiffer(a.value, b.value);
    }
  }

  /** A comparison reports exactly the first field, in the fixed order, in which the fingerprints differ, and
      agreement means that they differ in none. */
  lemma MismatchIsFirst(f: Fingerprint, g: Fingerprint, r: Option<V5.Mismatch>)
    ensures FirstMismatch(f, g) == r <==> IsFirstReason(r, f, g)
    ensures Agree(f, g) <==> forall n: V5.Mismatch :: !Differs(n, f, g)
  {
    ReasonIsFirst(f, g);
    if IsFirstReason(r, f, g) {
      OneFirstReason(FirstMismatch(f, g), r, f, g);
    }
    if FirstMismatch(f, g).Some? {
      assert Differs(FirstMismatch(f, g).value, f, g);
    }
  }

  /** Either side reports the same reason. */
  lemma MismatchIsSymmetric(f: Fingerprint, other: Fingerprint)
    ensures FirstMismatch(f, other) == FirstMismatch(other, f)
  {
  }

  lemma AgreementIsTransitive(a: Fingerprint, b: Fingerprint, c: Fingerprint)
    requires Agree(a, b) && Agree(b, c)
    ensures Agree(a, c)
  {
  }

  /** Agreement is not reflexive: from protocol 5 on, a fingerprint without a profile agrees with nothing. */
  lemma AgreesWithItself(f: Fingerprint)
    ensures Agree(f, f) <==> f.protocolVersion < 5 || f.determinismV5.Some?
  {
  }

  // Comparing a room's fingerprints

  type Fingerprints = map<PlayerIndex, Fingerprint>

  /** One order in which a hash map may yield its entries. */
  ghost predicate Enumerates(order: seq<PlayerIndex>, players: set<PlayerIndex>) {
    && (forall p :: p in players <==> p in order)
    && (forall i, j :: 0 <= i < j < |order| ==> order[i] != order[j])
  }

  /** The room's check: every later fingerprint is compared with the first. */
  predicate BaselineAccepts(fingerprints: Fingerprints, order: seq<PlayerIndex>)
    requires forall i :: 0 <= i < |order| ==> order[i] in fingerprints
  {
    forall i :: 1 <= i < |order| ==> Agree(fingerprints[order[0]], fingerprints[order[i]])
  }

  predicate AllAgree(fingerprints: Fingerprints) {
    forall p, q :: p in fingerprints && q in fingerprints && p != q ==> Agree(fingerprints[p], fingerprints[q])
  }

  /** Whatever comes out first, the check accepts exactly when all players agree with one another. */
  lemma BaselineIsFair(fingerprints: Fingerprints, order: seq<PlayerIndex>)
    requires Enumerates(order, fingerprints.Keys)
    ensures forall i :: 0 <= i < |order| ==> order[i] in fingerprints
    ensures BaselineAccepts(fingerprints, order) <==> AllAgree(fingerprints)
  {
    assert forall i :: 0 <= i < |order| ==> order[i] in order;
    if BaselineAccepts(fingerprints, order) {
      forall p, q | p in fingerprints && q in fingerprints && p != q
        ensures Agree(fingerprints[p], fingerprints[q])
      {
        var i :| 0 <= i < |order| && order[i] == p;
        var j :| 0 <= j < |order| && order[j] == q;
        MismatchIsSymmetric(fingerprints[order[0]], fingerprints[p]);
        if i != 0 && j != 0 {
          AgreementIsTransitive(fingerprints[p], fingerprints[order[0]], fingerprints[q]);
        }
      }
    }
  }

  /** The comparison loop over one order of the map. */
  method CompareWithBaseline(fingerprints: Fingerprints, order: seq<PlayerIndex>) returns (accepts: bool)
    requires Enumerates(order, fingerprints.Keys)
    ensures accepts == AllAgree(fingerprints)
  {
    BaselineIsFair(fingerprints, order);
    var i := 1;
    while i < |order| && Agree(fingerprints[order[0]], fingerprints[order[i]])
      invariant 1 <= i
      invariant forall j :: 1 <= j < i && j < |order| ==> Agree(fingerprints[order[0]], fingerprints[order[j]])
    {
      i := i + 1;
    }
    accepts := i >= |order|;
  }

  // The room operation

  datatype Seat = Seat(
    playerIndex: PlayerIndex, connectionId: Option<ConnectionId>, status: PlayerStatus, runtime: RuntimeState)

  datatype RoomError = CompatibilityMismatch | Closed | UnknownConnection

  datatype Transfer = Snapshot | SnapshotFileRelay | RomRelay

  datatype Session = Session(
    controllerNetplay: bool,
    systemId: string,
    coreId: string,
    stateFormat: Option<string>,
    romSha256: string,
    romIdentitySize: Option<nat>,
    coreOptionsSha256: Option<string>,
    protocolVersion: nat,
    maxPlayers: nat,
    rules: V5.Rules)

  datatype Room = Room(
    status: RoomStatus,
    players: seq<Seat>,
    compatibility: Fingerprints,
    readyPlayers: set<PlayerIndex>,
    transfers: set<Transfer>)

  predicate ValidDeterminism(f: Fingerprint, rules: V5.Rules) {
    && f.determinismV5.Some?
    && IsSha256(f.contentHash) && IsSha256(f.settingsHash) && IsSha256(f.cheatsHash)
    && (f.systemDataHash.Some? ==> IsSha256(f.systemDataHash.value))
    && V5.IsValid(f.determinismV5.value, rules)
  }

  predicate MatchesSession(f: Fingerprint, session: Session) {
    && f.protocolVersion == session.protocolVersion
    && f.systemId == session.systemId
    && f.coreId == session.coreId
    && (session.stateFormat.Some? ==> f.stateFormat == session.stateFormat)
    && Lower(f.contentHash) == Lower(session.romSha256)
    && (session.protocolVersion >= 5 && session.controllerNetplay ==>
          && ValidDeterminism(f, session.rules)
          && session.romIdentitySize == Some(f.determinismV5.value.romSizeBytes)
          && Lower(f.settingsHash) == Lower(f.determinismV5.value.coreOptionsDigest)
          && (session.coreOptionsSha256.Some? ==>
                Lower(session.coreOptionsSha256.value) == Lower(f.determinismV5.value.coreOptionsDigest)))
  }

  function SeatHolding(players: seq<Seat>, connectionId: ConnectionId): (k: nat)
    ensures k <= |players|
    ensures k < |players| ==> players[k].connectionId == Some(connectionId)
  {
    IndexWhere(players, (seat: Seat) => seat.connectionId == Some(connectionId))
  }

  function ConnectedPlayers(players: seq<Seat>): seq<PlayerIndex> {
    if players == [] then []
    else (if players[0].connectionId.Some? then [players[0].playerIndex] else []) + ConnectedPlayers(players[1..])
  }

  predicate HaveFingerprints(players: seq<Seat>, fingerprints: Fingerprints, maxPlayers: nat) {
    && |ConnectedPlayers(players)| == maxPlayers
    && forall p :: p in ConnectedPlayers(players) ==> p in fingerprints
  }

  /** One player's status and the runtime state that goes with it. */
  function Mark(players: seq<Seat>, playerIndex: PlayerIndex, status: PlayerStatus, runtime: RuntimeState): seq<Seat> {
    var k := IndexWhere(players, (seat: Seat) => seat.playerIndex == playerIndex);
    if k < |players| then players[k := players[k].(status := status, runtime := runtime)] else players
  }

  function FailAll(players: seq<Seat>): (r: seq<Seat>)
    ensures |r| == |players|
    ensures forall i :: 0 <= i < |r| ==>
              r[i] == if players[i].status == Empty then players[i]
                      else players[i].(status := CompatibilityFailed, runtime := RuntimeConnected)
  {
    seq(|players|, i requires 0 <= i < |players| =>
      if players[i].status == Empty then players[i]
      else players[i].(status := CompatibilityFailed, runtime := RuntimeConnected))
  }

  function SyncConnected(players: seq<Seat>): (r: seq<Seat>)
    ensures |r| == |players|
    ensures forall i :: 0 <= i < |r| ==>
              r[i] == if players[i].connectionId.None? then players[i]
                      else players[i].(status := Syncing, runtime := RuntimeSyncing)
  {
    seq(|players|, i requires 0 <= i < |players| =>
      if players[i].connectionId.None? then players[i]
      else players[i].(status := Syncing, runtime := RuntimeSyncing))
  }

  /** The room after the sender's own fingerprint is stored, before any comparison. */
  function Stored(room: Room, playerIndex: PlayerIndex, f: Fingerprint): Room {
    room.(compatibility := room.compatibility[playerIndex := f.(contentHash := Lower(f.contentHash))],
          readyPlayers := room.readyPlayers - {playerIndex},
          players := Mark(room.players, playerIndex, Checking, RuntimeChecking))
  }

  /** The operation, with no mention of any order: the room syncs when all stored fingerprints agree. */
  function SetCompatibility(session: Session, room: Room, connectionId: ConnectionId, f: Fingerprint)
    : (Room, Result<(), RoomError>)
  {
    var k := SeatHolding(room.players, connectionId);
    if !session.controllerNetplay then (room, Err(CompatibilityMismatch))
    else if room.status == RoomClosed then (room, Err(Closed))
    else if k == |room.players| then (room, Err(UnknownConnection))
    else
      var playerIndex := room.players[k].playerIndex;
      if !MatchesSession(f, session) then
        (Room(CheckingCompatibility,
              Mark(room.players, playerIndex, CompatibilityFailed, RuntimeConnected),
              room.compatibility - {playerIndex}, room.readyPlayers - {playerIndex}, {}),
         Err(CompatibilityMismatch))
      else
        var stored := Stored(room, playerIndex, f);
        if !HaveFingerprints(stored.players, stored.compatibility, session.maxPlayers) then (stored, Ok(()))
        else if !AllAgree(stored.compatibility) then
          (stored.(status := CheckingCompatibility, players := FailAll(stored.players)), Err(CompatibilityMismatch))
        else
          (stored.(status := SyncingState, players := SyncConnected(stored.players)), Ok(()))
  }

  // What a submission leads to

  /** The fingerprints with the sender's new one, its content hash in lower case. */
  function WithFingerprint(room: Room, k: nat, f: Fingerprint): Fingerprints
    requires k < |room.players|
  {
    room.compatibility[room.players[k].playerIndex := f.(contentHash := Lower(f.contentHash))]
  }

  /** The seats with a connection, and how many they are. */
  function ConnectedSeats(players: seq<Seat>): set<nat> {
    set k: nat | k < |players| && players[k].connectionId.Some?
  }

  /** As many seats are connected as the session has players, and each of their players has a fingerprint. */
  predicate EveryoneSubmitted(players: seq<Seat>, fingerprints: Fingerprints, maxPlayers: nat) {
    && |ConnectedSeats(players)| == maxPlayers
    && forall k :: k in ConnectedSeats(players) ==> players[k].playerIndex in fingerprints
  }

  /** No two players' fingerprints differ in any compared field. */
  ghost predicate NoneDiffer(fingerprints: Fingerprints) {
    forall p, q, m: V5.Mismatch :: p in fingerprints && q in fingerprints && p != q ==>
      !Differs(m, fingerprints[p], fingerprints[q])
  }

  lemma NoneDifferExactlyWhen(fingerprints: Fingerprints)
    ensures AllAgree(fingerprints) <==> NoneDiffer(fingerprints)
  {
    forall p, q | p in fingerprints && q in fingerprints && p != q
      ensures Agree(fingerprints[p], fingerprints[q]) <==>
                forall m: V5.Mismatch :: !Differs(m, fingerprints[p], fingerprints[q])
    {
      MismatchIsFirst(fingerprints[p], fingerprints[q], None);
    }
  }

  lemma {:induction false} ConnectedAreSeats(players: seq<Seat>)
    ensures |ConnectedPlayers(players)| == |ConnectedSeats(players)|
    ensures forall p :: p in ConnectedPlayers(players) <==>
                          exists k :: k in ConnectedSeats(players) && players[k].playerIndex == p
    decreases |players|
  {
    if players != [] {
      ConnectedAreSeats(players[1..]);
      SeatsShift(players);
      var rest, all := ConnectedSeats(players[1..]), ConnectedSeats(players);
      forall p ensures p in ConnectedPlayers(players) <==> exists k :: k in all && players[k].playerIndex == p {
        if p in ConnectedPlayers(players[1..]) {
          var k :| k in rest && players[1..][k].playerIndex == p;
          assert k + 1 in all && players[k + 1].playerIndex == p;
        }
        if k :| k in all && players[k].playerIndex == p {
          if k > 0 {
            assert k - 1 in rest && players[1..][k - 1].playerIndex == p;
          }
        }
      }
    }
  }

  lemma SeatsShift(players: seq<Seat>)
    requires players != []
    ensures |ConnectedSeats(players)|
         == |ConnectedSeats(players[1..])| + if players[0].connectionId.Some? then 1 else 0
  {
    var rest, all := ConnectedSeats(players[1..]), ConnectedSeats(players);
    forall k: nat ensures k in all - {0} <==> k > 0 && k - 1 in rest {
      assert k > 0 && k < |players| ==> players[k] == players[1..][k - 1];
    }
    ShiftKeepsSize(rest, all - {0});
    assert players[0].connectionId.Some? <==> 0 in all;
  }

  lemma MarkKeepsSeats(players: seq<Seat>, p: PlayerIndex, status: PlayerStatus, runtime: RuntimeState)
    ensures var after := Mark(players, p, status, runtime);
            && |after| == |players| && ConnectedSeats(after) == ConnectedSeats(players)
            && forall i :: 0 <= i < |players| ==>
                 after[i].playerIndex == players[i].playerIndex && after[i].connectionId == players[i].connectionId
  {
    var after := Mark(players, p, status, runtime);
    assert forall k: nat :: k in ConnectedSeats(after) <==> k in ConnectedSeats(players);
  }

  lemma StoredIsComplete(session: Session, room: Room, k: nat, f: Fingerprint)
    requires k < |room.players|
    ensures var stored := Stored(room, room.players[k].playerIndex, f);
            && stored.compatibility == WithFingerprint(room, k, f)
            && (HaveFingerprints(stored.players, stored.compatibility, session.maxPlayers) <==>
                  EveryoneSubmitted(room.players, WithFingerprint(room, k, f), session.maxPlayers))
  {
    var stored := Stored(room, room.players[k].playerIndex, f);
    MarkKeepsSeats(room.players, room.players[k].playerIndex, Checking, RuntimeChecking);
    ConnectedAreSeats(stored.players);
    var fingerprints := stored.compatibility;
    if forall p :: p in ConnectedPlayers(stored.players) ==> p in fingerprints {
      forall i | i in ConnectedSeats(room.players) ensures room.players[i].playerIndex in fingerprints {
        assert i in ConnectedSeats(stored.players) && stored.players[i].playerIndex in ConnectedPlayers(stored.players);
      }
    }
  }

  /** The room takes the sender's fingerprint: it is open and the sender's, and the fingerprint is the session's. */
  predicate Takes(session: Session, room: Room, connectionId: ConnectionId, f: Fingerprint) {
    && session.controllerNetplay && room.status != RoomClosed
    && (exists k :: 0 <= k < |room.players| && room.players[k].connectionId == Some(connectionId))
    && MatchesSession(f, session)
  }

  lemma SenderIsSeated(players: seq<Seat>, connectionId: ConnectionId)
    ensures SeatHolding(players, connectionId) < |players| <==>
              exists k :: 0 <= k < |players| && players[k].connectionId == Some(connectionId)
  {
    var k := IndexWhere(players, (seat: Seat) => seat.connectionId == Some(connectionId));
    assert forall j :: 0 <= j < k ==> players[j].connectionId != Some(connectionId);
  }

  /** A taken fingerprint: the room syncs exactly when everyone has submitted and no two fingerprints differ in any
      compared field, fails everyone when two differ, and waits until all are in. */
  lemma TakenLeadsTo(session: Session, room: Room, connectionId: ConnectionId, f: Fingerprint)
    requires Takes(session, room, connectionId, f)
    ensures SeatHolding(room.players, connectionId) < |room.players|
    ensures var (after, answer) := SetCompatibility(session, room, connectionId, f);
            var k := SeatHolding(room.players, connectionId);
            var all := WithFingerprint(room, k, f);
            && after.compatibility == all && after.readyPlayers == room.readyPlayers - {room.players[k].playerIndex}
            && after.transfers == room.transfers
            && if !EveryoneSubmitted(room.players, all, session.maxPlayers) then
                 answer == Ok(()) && after.status == room.status
               else if NoneDiffer(all) then
                 answer == Ok(()) && after.status == SyncingState
               else
                 answer == Err(CompatibilityMismatch) && after.status == CheckingCompatibility
  {
    SenderIsSeated(room.players, connectionId);
    var k := SeatHolding(room.players, connectionId);
    StoredIsComplete(session, room, k, f);
    NoneDifferExactlyWhen(WithFingerprint(room, k, f));
  }

  /** What a refused submission leaves: an unseated sender, a closed room or another mode change nothing; a
      fingerprint of another session is forgotten, and puts the room back to checking. */
  lemma RefusedLeadsTo(session: Session, room: Room, connectionId: ConnectionId, f: Fingerprint)
    requires !Takes(session, room, connectionId, f)
    ensures var (after, answer) := SetCompatibility(session, room, connectionId, f);
            var k := SeatHolding(room.players, connectionId);
            if !session.controllerNetplay then after == room && answer == Err(CompatibilityMismatch)
            else if room.status == RoomClosed then after == room && answer == Err(Closed)
            else if k == |room.players| then after == room && answer == Err(UnknownConnection)
            else
              var p := room.players[k].playerIndex;
              && answer == Err(CompatibilityMismatch) && after.status == CheckingCompatibility
              && after.compatibility == room.compatibility - {p} && after.readyPlayers == room.readyPlayers - {p}
              && after.transfers == {}
  {
    SenderIsSeated(room.players, connectionId);
  }

  /** After any submissions, the next one leaves the room syncing that was not exactly when the room takes it,
      everyone has submitted and no two fingerprints differ in any compared field. */
  lemma SyncsExactlyWhen(session: Session, room: Room, submissions: seq<Submission>, connectionId: ConnectionId,
                         f: Fingerprint)
    requires Submit(session, room, submissions).status != SyncingState
    ensures var before := Submit(session, room, submissions);
            var after := Submit(session, room, submissions + [Submission(connectionId, f)]);
            after.status == SyncingState <==>
              && Takes(session, before, connectionId, f)
              && var k := SeatHolding(before.players, connectionId);
                 && k < |before.players|
                 && EveryoneSubmitted(before.players, WithFingerprint(before, k, f), session.maxPlayers)
                 && NoneDiffer(WithFingerprint(before, k, f))
  {
    var all, before := submissions + [Submission(connectionId, f)], Submit(session, room, submissions);
    assert all[..|submissions|] == submissions;
    if Takes(session, before, connectionId, f) {
      TakenLeadsTo(session, before, connectionId, f);
    } else {
      RefusedLeadsTo(session, before, connectionId, f);
    }
  }

  /** The seats after a submission: the sender's is checking, or failed if its fingerprint is of another session;
      a disagreement fails every occupied seat, and agreement puts every connected one to syncing. */
  lemma SeatsAfterSubmission(session: Session, room: Room, connectionId: ConnectionId, f: Fingerprint, i: nat)
    requires session.controllerNetplay && room.status != RoomClosed && i < |room.players|
    requires SeatHolding(room.players, connectionId) < |room.players|
    requires forall a, b :: 0 <= a < b < |room.players| ==> room.players[a].playerIndex != room.players[b].playerIndex
    requires forall a :: 0 <= a < |room.players| && room.players[a].connectionId.Some? ==>
               room.players[a].status != Empty
    ensures var (after, answer) := SetCompatibility(session, room, connectionId, f);
            var own, was := i == SeatHolding(room.players, connectionId), room.players[i];
            && |after.players| == |room.players|
            && after.players[i].playerIndex == was.playerIndex && after.players[i].connectionId == was.connectionId
            && (after.players[i].status, after.players[i].runtime)
               == (if answer.Ok? && after.status == SyncingState && was.connectionId.Some?
                      && EveryoneSubmitted(room.players, after.compatibility, session.maxPlayers)
                   then (Syncing, RuntimeSyncing)
                   else if answer.Err? && (own || (MatchesSession(f, session) && was.status != Empty))
                   then (CompatibilityFailed, RuntimeConnected)
                   else if own then (Checking, RuntimeChecking)
                   else (was.status, was.runtime))
  {
    var k := SeatHolding(room.players, connectionId);
    var p := room.players[k].playerIndex;
    assert IndexWhere(room.players, (seat: Seat) => seat.playerIndex == p) == k;
    if MatchesSession(f, session) {
      StoredIsComplete(session, room, k, f);
    }
  }

  // What storing guarantees over a run

  /** Every stored fingerprint was matched with the session, and its content hash is in lower case. */
  predicate Admitted(session: Session, room: Room) {
    forall p :: p in room.compatibility ==> AdmittedOne(session, room.compatibility[p])
  }

  predicate AdmittedOne(session: Session, f: Fingerprint) {
    MatchesSession(f, session) && f.contentHash == Lower(session.romSha256)
  }

  lemma LoweredIsAdmitted(session: Session, f: Fingerprint)
    requires MatchesSession(f, session)
    ensures AdmittedOne(session, f.(contentHash := Lower(f.contentHash)))
  {
    LowerIsStable(f.contentHash);
  }

  lemma AdmittedPair(session: Session, f: Fingerprint, g: Fingerprint)
    requires AdmittedOne(session, f) && AdmittedOne(session, g)
    ensures var mismatch := FirstMismatch(f, g);
            && mismatch !in {Some(V5.ProtocolVersion), Some(V5.System), Some(V5.Core), Some(V5.Content)}
            && (session.stateFormat.Some? ==> mismatch != Some(V5.StateFormat))
            && (session.protocolVersion >= 5 && session.controllerNetplay ==>
                  mismatch !in {Some(V5.RomSize), Some(V5.DeterminismProfileMissing), Some(V5.InputContract),
                                Some(V5.ReplayOutputSuppression)})
  {
  }

  lemma {:induction false} LowerIsStable(s: string)
    ensures Lower(Lower(s)) == Lower(s)
    ensures forall i :: 0 <= i < |s| ==> Lower(s)[i] == LowerChar(s[i])
  {
    if s != [] {
      LowerIsStable(s[1..]);
      assert Lower(s)[1..] == Lower(s[1..]);
    }
  }

  lemma SetKeepsAdmitted(session: Session, room: Room, connectionId: ConnectionId, f: Fingerprint)
    requires Admitted(session, room)
    ensures Admitted(session, SetCompatibility(session, room, connectionId, f).0)
  {
    if MatchesSession(f, session) {
      LoweredIsAdmitted(session, f);
    }
  }

  datatype Submission = Submission(connectionId: ConnectionId, fingerprint: Fingerprint)

  function Submit(session: Session, room: Room, submissions: seq<Submission>): Room
    decreases |submissions|
  {
    if submissions == [] then room
    else
      var last := submissions[|submissions| - 1];
      SetCompatibility(session, Submit(session, room, submissions[..|submissions| - 1]),
                       last.connectionId, last.fingerprint).0
  }

  lemma {:induction false} SubmitKeepsAdmitted(session: Session, room: Room, submissions: seq<Submission>)
    requires Admitted(session, room)
    ensures Admitted(session, Submit(session, room, submissions))
    decreases |submissions|
  {
    if submissions != [] {
      var front, last := submissions[..|submissions| - 1], submissions[|submissions| - 1];
      SubmitKeepsAdmitted(session, room, front);
      SetKeepsAdmitted(session, Submit(session, room, front), last.connectionId, last.fingerprint);
    }
  }

  /** What every stored fingerprint of a session is, after any submissions: of its protocol, system, core, content
      and, if it names one, state format; and in a protocol-5 room with a valid profile of the session's ROM size,
      whose core options are the settings and, if the session names them, the session's. */
  lemma StoredFitSession(session: Session, room: Room, submissions: seq<Submission>, p: PlayerIndex)
    requires room.compatibility == map[] && p in Submit(session, room, submissions).compatibility
    ensures var f := Submit(session, room, submissions).compatibility[p];
            && f.protocolVersion == session.protocolVersion && f.systemId == session.systemId
            && f.coreId == session.coreId && f.contentHash == Lower(session.romSha256)
            && (session.stateFormat.Some? ==> f.stateFormat == session.stateFormat)
            && (session.protocolVersion >= 5 && session.controllerNetplay ==>
                  && f.determinismV5.Some? && session.romIdentitySize == Some(f.determinismV5.value.romSizeBytes)
                  && IsSha256(f.contentHash) && IsSha256(f.settingsHash) && IsSha256(f.cheatsHash)
                  && (f.systemDataHash.Some? ==> IsSha256(f.systemDataHash.value))
                  && Lower(f.settingsHash) == Lower(f.determinismV5.value.coreOptionsDigest)
                  && (session.coreOptionsSha256.Some? ==>
                        Lower(session.coreOptionsSha256.value) == Lower(f.settingsHash))
                  && ProfileFits(f.determinismV5.value, session.rules))
  {
    SubmitKeepsAdmitted(session, room, submissions);
    assert AdmittedOne(session, Submit(session, room, submissions).compatibility[p]);
  }

  /** What the session may rely on in a profile. */
  predicate ProfileFits(p: V5.Profile, rules: V5.Rules) {
    && p.frameRateNumerator > 0 && p.frameRateDenominator > 0
    && V5.Gcd(p.frameRateNumerator, p.frameRateDenominator) == 1 && p.romSizeBytes > 0
    && p.inputCodecId == rules.inputCodecId && p.inputPayloadSize == 10 && p.predictorId == rules.inputPredictorId
    && p.replayOutputSuppressed && 1 <= |p.controllerProfileIds| <= 8 && IsSha256(p.coreOptionsDigest)
    && (p.contentTransformationDigest.Some? ==> IsSha256(p.contentTransformationDigest.value))
    && (p.digestMode == V5.Disabled <==> p.digestAlgorithmId.None?)
    && rules.isId(p.netplayCoreCompatibilityId) && rules.isId(p.localArtifactId) && rules.isId(p.platformClass)
    && rules.isId(p.startupStatePolicyId)
    && (p.digestAlgorithmId.Some? ==> rules.isId(p.digestAlgorithmId.value))
    && forall i :: 0 <= i < |p.controllerProfileIds| ==> rules.isId(p.controllerProfileIds[i])
  }

  /** After any submissions, two stored fingerprints never disagree about what the session fixes: the
      protocol, system, core and content, nor in a v5 room about the ROM size or a missing profile. */
  lemma SessionFixesFields(session: Session, room: Room, submissions: seq<Submission>, p: PlayerIndex, q: PlayerIndex)
    requires room.compatibility == map[]
    requires var after := Submit(session, room, submissions).compatibility; p in after && q in after
    ensures var after := Submit(session, room, submissions).compatibility;
            var mismatch := FirstMismatch(after[p], after[q]);
            && mismatch !in {Some(V5.ProtocolVersion), Some(V5.System), Some(V5.Core), Some(V5.Content)}
            && (session.stateFormat.Some? ==> mismatch != Some(V5.StateFormat))
            && (session.protocolVersion >= 5 && session.controllerNetplay ==>
                  mismatch !in {Some(V5.RomSize), Some(V5.DeterminismProfileMissing), Some(V5.InputContract),
                                Some(V5.ReplayOutputSuppression)})
  {
    SubmitKeepsAdmitted(session, room, submissions);
    var after := Submit(session, room, submissions).compatibility;
    AdmittedPair(session, after[p], after[q]);
  }

  class NetplayRoom {
    const session: Session
    var status: RoomStatus
    var players: seq<Seat>
    var compatibility: Fingerprints
    var readyPlayers: set<PlayerIndex>
    var transfers: set<Transfer>

    constructor (session: Session, room: Room)
      ensures this.session == session && Value() == room
    {
      this.session := session;
      status, players, compatibility := room.status, room.players, room.compatibility;
      readyPlayers, transfers := room.readyPlayers, room.transfers;
    }

    function Value(): Room
      reads this
    {
      Room(status, players, compatibility, readyPlayers, transfers)
    }

    /** `order` is the order in which the fingerprint map yields its entries. Whatever it is, the room
        syncs exactly when all fingerprints agree. */
    method SetCompatibilityForConnection(connectionId: ConnectionId, fingerprint: Fingerprint, order: seq<PlayerIndex>)
      returns (r: Result<(), RoomError>)
      requires SeatHolding(players, connectionId) < |players| ==>
                 Enumerates(order, compatibility.Keys + {players[SeatHolding(players, connectionId)].playerIndex})
      modifies this
      ensures (Value(), r) == SetCompatibility(session, old(Value()), connectionId, fingerprint)
    {
      if !session.controllerNetplay {
        return Err(CompatibilityMismatch);
      }
      if status == RoomClosed {
        return Err(Closed);
      }
      var k := SeatHolding(players, connectionId);
      if k == |players| {
        return Err(UnknownConnection);
      }
      var playerIndex := players[k].playerIndex;
      if !MatchesSession(fingerprint, session) {
        compatibility := compatibility - {playerIndex};
        readyPlayers := readyPlayers - {playerIndex};
        transfers := {};
        status := CheckingCompatibility;
        players := Mark(players, playerIndex, CompatibilityFailed, RuntimeConnected);
        return Err(CompatibilityMismatch);
      }
      compatibility := compatibility[playerIndex := fingerprint.(contentHash := Lower(fingerprint.contentHash))];
      readyPlayers := readyPlayers - {playerIndex};
      players := Mark(players, playerIndex, Checking, RuntimeChecking);
      if !HaveFingerprints(players, compatibility, session.maxPlayers) {
        return Ok(());
      }
      var accepts := CompareWithBaseline(compatibility, order);
      if !accepts {
        status := CheckingCompatibility;
        players := FailAll(players);
        return Err(CompatibilityMismatch);
      }
      status := SyncingState;
      players := SyncConnected(players);
      r := Ok(());
    }
  }
}
