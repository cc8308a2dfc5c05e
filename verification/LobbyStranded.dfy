/** Launches that start reports alone cannot start: two lobbies that get there from
    their creation, and the newcomer who gets them going again. */
module LobbyStranded {
  import opened Prelude
  import opened LobbyState
  import opened LobbyOps
  import opened LobbyInvariant
  import opened LobbyRuns
  import opened LobbyBarrier
  import opened LobbySeats

  /** A published launch waiting although every connected seat has started. */
  predicate Stranded(s: State) {
    AwaitsStarts(s) && s.pendingLaunch.value.status == RoomReady && Seats(s.players) <= Started(s)
  }

  // A newcomer

  lemma JoinAddsSeat(s: State, claim: Claim)
    requires Valid(s) && Unheld(s.players, claim.connectionId) && Join(s, claim).result.Ok?
    ensures Valid(Join(s, claim).state)
    ensures Seats(Join(s, claim).state.players) == Seats(s.players) + {Join(s, claim).result.value}
    ensures Requester(Join(s, claim).state, claim.connectionId).Ok?
    ensures Requester(Join(s, claim).state, claim.connectionId).value.playerIndex == Join(s, claim).result.value
  {
    JoinTakesOneSeat(s, claim);
    JoinKeepsValid(s, claim);
    var t, seat := Join(s, claim).state, Join(s, claim).result.value;
    assert forall i :: 0 <= i < |t.players| ==> SlotValid(t.players[i], i) && SlotValid(s.players[i], i);
    assert t.players[seat].connectionId == Some(claim.connectionId) by {
      RequesterIsHolder(t, claim.connectionId);
    }
    assert Present(t.players[seat]);
    forall x ensures x in Seats(t.players) <==> x in Seats(s.players) || x == seat {
      if 0 <= x < |s.players| && x != seat {
        assert t.players[x] == s.players[x];
      }
    }
  }

  lemma JoinKeepsReporting(s: State, claim: Claim)
    requires Valid(s) && Unheld(s.players, claim.connectionId) && Join(s, claim).result.Ok?
    requires CanAllReport(s) && claim.capabilities.supportsLobbyGameplayStarted
    ensures CanAllReport(Join(s, claim).state)
  {
  }

  /** A player who joins a seat that has not started, with a client that reports, ends the wait: the
      report plays the launch. */
  lemma NewcomerStartsPlay(s: State, claim: Claim, nowMs: Millis)
    requires Stranded(s) && Unheld(s.players, claim.connectionId) && Join(s, claim).result.Ok?
    requires claim.capabilities.supportsLobbyGameplayStarted && Join(s, claim).result.value !in Started(s)
    ensures var joined := Join(s, claim).state;
            var report := StartedCall(claim.connectionId, joined.lobbyEpoch, s.pendingLaunch.value.proposalId, nowMs);
            IsPlaying(Apply(joined, report).state)
  {
    var joined := Join(s, claim).state;
    JoinAddsSeat(s, claim);
    JoinKeepsReporting(s, claim);
    assert joined.pendingLaunch == s.pendingLaunch && joined.selectedGame == s.selectedGame;
    var report := StartedCall(claim.connectionId, joined.lobbyEpoch, s.pendingLaunch.value.proposalId, nowMs);
    assert Reporter(joined, report) == Some(Join(s, claim).result.value);
    PlayBeginsExactlyWhen(joined, report);
  }

  // Two lobbies from their creation

  const REPORTS := NO_CAPABILITIES.(supportsLobbyGameplayStarted := true)

  function HostClaim(): Claim {
    Claim(License("host", Desktop), 10, None, REPORTS, "host token", 0)
  }

  function GuestClaim(): Claim {
    Claim(License("guest", Desktop), 11, None, REPORTS, "guest token", 1)
  }

  function Request(): CreateRequest {
    CreateRequest(0, "lobby", HostClaim(), Some(GameCandidate("game", "system", "core", None, None, None)), 7, Private)
  }

  lemma RunOne(s: State, call: Call)
    ensures Run(s, [call]) == Apply(s, call).state
  {
    assert [call][..0] == [];
    assert Run(s, [call][..0]) == s;
  }

  lemma {:induction false} RunInTwo(s: State, first: seq<Call>, later: seq<Call>)
    ensures Run(s, first + later) == Run(Run(s, first), later)
    decreases |later|
  {
    if later == [] {
      assert first + later == first;
    } else {
      RunInTwo(s, first, later[..|later| - 1]);
      assert (first + later)[..|first + later| - 1] == first + later[..|later| - 1];
    }
  }

  predicate BringNoIds(calls: seq<Call>) {
    forall k :: 0 <= k < |calls| ==> !calls[k].JoinCall? && !calls[k].ReconnectCall? && !calls[k].SelectCall?
  }

  /** A run is fresh if only its first call brings an identifier, and that one is fresh. */
  lemma {:induction false} FirstIdsOnly(w: World, first: Call, calls: seq<Call>)
    requires Fresh(w, first) && BringNoIds(calls)
    ensures FreshRun(w, [first] + calls)
    decreases |calls|
  {
    var all := [first] + calls;
    if calls == [] {
      assert all[..0] == [] && all[|all| - 1] == first;
      assert FreshRun(w, all[..0]) && Play(w, all[..0]) == w;
      assert all[..|all| - 1] == all[..0];
    } else {
      var front := calls[..|calls| - 1];
      assert forall k :: 0 <= k < |front| ==> front[k] == calls[k];
      FirstIdsOnly(w, first, front);
      assert all[..|all| - 1] == [first] + front && all[|all| - 1] == calls[|calls| - 1];
    }
  }

  /** Seat 0 holds connection 10 and, if `guest`, seat 1 holds connection 11; proposal 7 is selected. */
  predicate Table(s: State, guest: bool) {
    && Valid(s) && Selected(s, 7) && CanAllReport(s)
    && s.players[0].connectionId == Some(10)
    && (if guest then s.players[1].connectionId == Some(11) else s.players[1].connectionId.None?)
    && s.players[2].connectionId.None? && s.players[3].connectionId.None?
  }

  lemma TableSeats(s: State, guest: bool)
    requires Table(s, guest)
    ensures Seats(s.players) == if guest then {0, 1} else {0}
    ensures Requester(s, 10) == Ok(s.players[0]) && s.players[0].playerIndex == 0 && s.players[0].role == Host
    ensures guest ==> Requester(s, 11) == Ok(s.players[1]) && s.players[1].playerIndex == 1
  {
    RequesterIsHolder(s, 10);
    RequesterIsHolder(s, 11);
    assert forall i :: 0 <= i < 4 ==> SlotValid(s.players[i], i);
    assert Present(s.players[0]) && (guest ==> Present(s.players[1]));
  }

  lemma ReadyAtTable(s: State, guest: bool, c: ConnectionId)
    requires Table(s, guest) && (c == 10 || (c == 11 && guest))
    ensures var t := Apply(s, ReadinessCall(c, 7, Ready, Detail(None), 2)).state;
            && Table(t, guest)
            && HasReadyEntry(t.gameReadiness, c - 10, 7)
            && (HasReadyEntry(s.gameReadiness, 0, 7) ==> HasReadyEntry(t.gameReadiness, 0, 7))
  {
    TableSeats(s, guest);
    ReadinessKeepsValid(s, c, 7, Ready, Detail(None), 2);
    ReadinessIsLatest(s, c, 7, Ready, Detail(None), 2, 0);
    ReadinessIsLatest(s, c, 7, Ready, Detail(None), 2, c - 10);
  }

  lemma LaunchedAtTable(s: State, guest: bool)
    requires Table(s, guest) && HasReadyEntry(s.gameReadiness, 0, 7) && (guest ==> HasReadyEntry(s.gameReadiness, 1, 7))
    ensures var t := Apply(s, LaunchCall(10, 7, 3)).state;
            Table(t, guest) && t.pendingLaunch.Some? && t.pendingLaunch.value.proposalId == 7 && Started(t) == {}
  {
    TableSeats(s, guest);
    LaunchKeepsValid(s, 10, 7, 3);
    assert forall i :: 0 <= i < 4 ==> SlotValid(s.players[i], i);
    assert ConnectedPlayersAreReady(s, 7);
  }

  lemma PublishedAtTable(s: State, guest: bool)
    requires Table(s, guest) && s.pendingLaunch.Some? && s.pendingLaunch.value.proposalId == 7
    ensures var t := Apply(s, PublishCall(10, 7, "room", 4)).state;
            Table(t, guest) && AwaitsStarts(t) && t.pendingLaunch.value.status == RoomReady && Started(t) == Started(s)
  {
    TableSeats(s, guest);
    PublishKeepsValid(s, 10, 7, "room", 4);
  }

  lemma HostReports(s: State, guest: bool)
    requires Table(s, guest) && AwaitsStarts(s) && s.pendingLaunch.value.status == RoomReady && Started(s) == {}
    ensures var t := Apply(s, StartedCall(10, s.lobbyEpoch, 7, 5)).state;
            && Table(t, guest) && AwaitsStarts(t) && Started(t) == {0}
            && (IsPlaying(t) <==> !guest)
  {
    TableSeats(s, guest);
    OneReport(s, StartedCall(10, s.lobbyEpoch, 7, 5));
    if guest {
      assert 1 in Seats(s.players) && 1 !in {0};
    }
  }

  /** The table after launch, publish and the host's report. */
  lemma HostStarts(s: State, guest: bool) returns (calls: seq<Call>)
    requires Table(s, guest) && HasReadyEntry(s.gameReadiness, 0, 7) && (guest ==> HasReadyEntry(s.gameReadiness, 1, 7))
    ensures var t := Run(s, calls);
            Table(t, guest) && AwaitsStarts(t) && Started(t) == {0} && (IsPlaying(t) <==> !guest)
    ensures BringNoIds(calls)
  {
    var launch, publish := LaunchCall(10, 7, 3), PublishCall(10, 7, "room", 4);
    LaunchedAtTable(s, guest);
    RunOne(s, launch);
    var launched := Run(s, [launch]);
    PublishedAtTable(launched, guest);
    RunOne(launched, publish);
    RunInTwo(s, [launch], [publish]);
    var published := Run(s, [launch] + [publish]);
    HostReports(published, guest);
    var report := StartedCall(10, published.lobbyEpoch, 7, 5);
    RunOne(published, report);
    RunInTwo(s, [launch] + [publish], [report]);
    calls := [launch] + [publish] + [report];
  }

  lemma CreatedTable()
    ensures Table(Create(Request()), false)
  {
    CreateIsValid(Request());
    var s := Create(Request());
    assert s.players[0] == Occupy(EmptySlot(0), Host, HostClaim());
    assert s.players[1] == EmptySlot(1) && s.players[2] == EmptySlot(2) && s.players[3] == EmptySlot(3);
  }

  lemma JoinedTable()
    ensures Table(Run(Create(Request()), [JoinCall(GuestClaim())]), true)
  {
    CreatedTable();
    var s := Create(Request());
    RunOne(s, JoinCall(GuestClaim()));
    assert s.players[0] == Occupy(EmptySlot(0), Host, HostClaim()) && s.players[1] == EmptySlot(1);
    assert SlotOf(s.players, "guest") == |s.players| by {
      assert |"host"| != |"guest"|;
    }
    assert FreeSlot(s.players) == 1;
    JoinKeepsValid(s, GuestClaim());
  }

  lemma ReadiedAtTable(s: State, guest: bool, c: ConnectionId)
    requires Table(s, guest) && (c == 10 || (c == 11 && guest))
    ensures var t := Run(s, [ReadinessCall(c, 7, Ready, Detail(None), 2)]);
            && Table(t, guest) && HasReadyEntry(t.gameReadiness, c - 10, 7)
            && (HasReadyEntry(s.gameReadiness, 0, 7) ==> HasReadyEntry(t.gameReadiness, 0, 7))
  {
    ReadyAtTable(s, guest, c);
    RunOne(s, ReadinessCall(c, 7, Ready, Detail(None), 2));
  }

  lemma RepublishAfter(s: State) returns (calls: seq<Call>)
    requires Table(s, false) && AwaitsStarts(s) && Started(s) == {0}
    ensures Stranded(Run(s, calls)) && !BarrierWorks(Run(s, calls)) && BringNoIds(calls)
  {
    TableSeats(s, false);
    RepublishSilencesReports(s, 10, 7, "room", 6);
    calls := [PublishCall(10, 7, "room", 6)];
    RunOne(s, calls[0]);
  }

  lemma DropAfter(s: State) returns (calls: seq<Call>)
    requires Table(s, true) && AwaitsStarts(s) && s.pendingLaunch.value.status == RoomReady && Started(s) == {0}
    ensures Stranded(Run(s, calls)) && !BarrierWorks(Run(s, calls)) && BringNoIds(calls)
  {
    TableSeats(s, true);
    DropSilencesReports(s, 11, 6);
    calls := [DisconnectCall(11, 6)];
    RunOne(s, calls[0]);
  }

  lemma StartAndRepublish(s: State) returns (calls: seq<Call>)
    requires Table(s, false) && HasReadyEntry(s.gameReadiness, 0, 7)
    ensures Stranded(Run(s, calls)) && !BarrierWorks(Run(s, calls)) && BringNoIds(calls)
  {
    var start := HostStarts(s, false);
    var again := RepublishAfter(Run(s, start));
    RunInTwo(s, start, again);
    calls := start + again;
  }

  lemma StartAndDrop(s: State) returns (calls: seq<Call>)
    requires Table(s, true) && HasReadyEntry(s.gameReadiness, 0, 7) && HasReadyEntry(s.gameReadiness, 1, 7)
    ensures Stranded(Run(s, calls)) && !BarrierWorks(Run(s, calls)) && BringNoIds(calls)
  {
    var start := HostStarts(s, true);
    var drop := DropAfter(Run(s, start));
    RunInTwo(s, start, drop);
    calls := start + drop;
  }

  lemma ReadyStartAndDrop(s: State) returns (calls: seq<Call>)
    requires Table(s, true)
    ensures Stranded(Run(s, calls)) && !BarrierWorks(Run(s, calls)) && BringNoIds(calls)
  {
    var ready := [ReadinessCall(10, 7, Ready, Detail(None), 2)];
    var guestReady := [ReadinessCall(11, 7, Ready, Detail(None), 2)];
    ReadiedAtTable(s, true, 10);
    ReadiedAtTable(Run(s, ready), true, 11);
    RunInTwo(s, ready, guestReady);
    var rest := StartAndDrop(Run(s, ready + guestReady));
    RunInTwo(s, ready + guestReady, rest);
    calls := ready + guestReady + rest;
  }

  /** A lone host readies, launches, publishes, starts, and publishes again: the launch is stranded. */
  lemma RepublishStrands() returns (calls: seq<Call>)
    ensures FreshRun(Start(Request()), calls)
    ensures Stranded(Run(Create(Request()), calls)) && !BarrierWorks(Run(Create(Request()), calls))
  {
    var s, ready := Create(Request()), ReadinessCall(10, 7, Ready, Detail(None), 2);
    CreatedTable();
    ReadiedAtTable(s, false, 10);
    var rest := StartAndRepublish(Run(s, [ready]));
    RunInTwo(s, [ready], rest);
    FirstIdsOnly(Start(Request()), ready, rest);
    calls := [ready] + rest;
  }

  /** Host and guest ready up, the game is published once, the host starts and the guest drops: the launch
      is stranded without a second publish. */
  lemma DropStrands() returns (calls: seq<Call>)
    ensures FreshRun(Start(Request()), calls)
    ensures Stranded(Run(Create(Request()), calls)) && !BarrierWorks(Run(Create(Request()), calls))
  {
    var s, join := Create(Request()), JoinCall(GuestClaim());
    JoinedTable();
    var rest := ReadyStartAndDrop(Run(s, [join]));
    RunInTwo(s, [join], rest);
    FirstIdsOnly(Start(Request()), join, rest);
    calls := [join] + rest;
  }
}
