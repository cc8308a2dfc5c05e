/** The gameplay-start barrier: a published launch becomes playing when every
    connected seat has reported its start. */
module LobbyBarrier {
  import opened Prelude
  import opened LobbyState
  import opened LobbyOps
  import opened LobbyInvariant
  import opened LobbyRuns

  /** A launch whose room is published, in a lobby whose connected clients can all report starts. */
  predicate AwaitsStarts(s: State) {
    && Valid(s)
    && s.pendingLaunch.Some? && s.pendingLaunch.value.status != Preparing
    && (forall i :: 0 <= i < |s.players| && Present(s.players[i]) ==>
          s.players[i].capabilities.supportsLobbyGameplayStarted)
  }

  function Started(s: State): set<PlayerIndex>
    requires s.pendingLaunch.Some?
  {
    set x | x in s.pendingLaunch.value.startedPlayerIndexes
  }

  /** The seat a call reports for, when it is a start report from a known connection about the
      selected proposal that quotes the current epoch. */
  function Reporter(s: State, call: Call): Option<PlayerIndex> {
    if && call.StartedCall? && Requester(s, call.connectionId).Ok?
       && Selected(s, call.proposalId) && call.lobbyEpoch == s.lobbyEpoch
    then Some(Requester(s, call.connectionId).value.playerIndex) else None
  }

  predicate OnlyStartReports(calls: seq<Call>) {
    forall k :: 0 <= k < |calls| ==> calls[k].StartedCall?
  }

  /** Every seat that reported with a current epoch at its moment of the run. */
  function Reporters(s: State, calls: seq<Call>): set<PlayerIndex>
    decreases |calls|
  {
    if calls == [] then {}
    else
      var front := calls[..|calls| - 1];
      var last := Reporter(Run(s, front), calls[|calls| - 1]);
      Reporters(s, front) + (if last.Some? then {last.value} else {})
  }

  lemma ExpectedAreSeats(s: State)
    requires AwaitsStarts(s)
    ensures ExpectedStarters(s.players).Some?
    ensures forall x :: x in ExpectedStarters(s.players).value <==> x in Seats(s.players)
  {
  }

  lemma ReporterIsSeated(s: State, call: Call)
    requires Valid(s) && Reporter(s, call).Some?
    ensures Reporter(s, call).value in Seats(s.players)
    ensures AwaitsStarts(s) ==> Requester(s, call.connectionId).value.capabilities.supportsLobbyGameplayStarted
  {
    RequesterIsHolder(s, call.connectionId);
    var slot := Requester(s, call.connectionId).value;
    assert SlotValid(s.players[slot.playerIndex], slot.playerIndex);
  }

  /** One report: the started set gains the reporter, and the launch turns to playing exactly when a
      seat that had not reported yet completes the connected seats. */
  lemma OneReport(s: State, call: Call)
    requires AwaitsStarts(s) && call.StartedCall?
    requires s.pendingLaunch.value.status == Playing ==> Seats(s.players) <= Started(s)
    ensures var t := Apply(s, call).state;
            var who := Reporter(s, call);
            && AwaitsStarts(t) && t.players == s.players && t.selectedGame == s.selectedGame
            && Started(t) == Started(s) + (if who.Some? then {who.value} else {})
            && (t.pendingLaunch.value.status == Playing <==>
                  || s.pendingLaunch.value.status == Playing
                  || (&& who.Some? && who.value !in Started(s) && Seats(s.players) <= Started(s) + {who.value}))
            && (t.pendingLaunch.value.status == Playing != s.pendingLaunch.value.status ==>
                  t.pendingLaunch.value.gameplayStartedAtMs == Some(call.nowMs))
            && (who.None? || who.value in Started(s) ==> t == s)
  {
    var who := Reporter(s, call);
    if who.Some? && who.value !in Started(s) && s.pendingLaunch.value.status == RoomReady {
      NewReport(s, call);
    } else {
      QuietReport(s, call);
      if who.Some? {
        ReporterIsSeated(s, call);
      }
    }
  }

  lemma QuietReport(s: State, call: Call)
    requires AwaitsStarts(s) && call.StartedCall?
    requires Reporter(s, call).Some? && s.pendingLaunch.value.status == RoomReady ==>
               Reporter(s, call).value in Started(s)
    ensures Apply(s, call).state == s
  {
  }

  /** A start report from a seat that had not reported yet is recorded. */
  lemma ReportIsRecorded(s: State, call: Call)
    requires AwaitsStarts(s) && call.StartedCall? && s.pendingLaunch.value.status == RoomReady
    requires Reporter(s, call).Some? && Reporter(s, call).value !in Started(s)
    ensures ExpectedStarters(s.players).Some?
    ensures var after := MarkPlayerStarted(s.pendingLaunch.value, Reporter(s, call).value,
                                           ExpectedStarters(s.players).value, call.nowMs).0;
            Apply(s, call).state == BumpWithActivity(s.(pendingLaunch := Some(after), status := InGame), call.nowMs)
    ensures Valid(Apply(s, call).state)
  {
    ReporterIsSeated(s, call);
    ExpectedAreSeats(s);
    StartedKeepsValid(s, call.connectionId, call.lobbyEpoch, call.proposalId, call.nowMs);
  }

  lemma NewReport(s: State, call: Call)
    requires AwaitsStarts(s) && call.StartedCall? && s.pendingLaunch.value.status == RoomReady
    requires Reporter(s, call).Some? && Reporter(s, call).value !in Started(s)
    ensures var t := Apply(s, call).state;
            var who := Reporter(s, call).value;
            && AwaitsStarts(t) && t.players == s.players && t.selectedGame == s.selectedGame
            && Started(t) == Started(s) + {who}
            && (t.pendingLaunch.value.status == Playing <==> Seats(s.players) <= Started(s) + {who})
            && (t.pendingLaunch.value.status == Playing ==>
                  t.pendingLaunch.value.gameplayStartedAtMs == Some(call.nowMs))
  {
    var who, launch := Reporter(s, call).value, s.pendingLaunch.value;
    ReportIsRecorded(s, call);
    ReporterIsSeated(s, call);
    ExpectedAreSeats(s);
    MarkCovers(launch, who, ExpectedStarters(s.players).value, call.nowMs, Seats(s.players));
  }

  /** Recording a new starter: the launch plays exactly when the expected seats are covered. */
  lemma MarkCovers(launch: Launch, who: PlayerIndex, expected: seq<PlayerIndex>, nowMs: Millis, seats: set<PlayerIndex>)
    requires launch.status == RoomReady && StrictlyAscending(launch.startedPlayerIndexes)
    requires who !in launch.startedPlayerIndexes && who in seats
    requires forall x :: x in expected <==> x in seats
    ensures var after := MarkPlayerStarted(launch, who, expected, nowMs).0;
            var before := set x | x in launch.startedPlayerIndexes;
            && after.status != Preparing
            && (set x | x in after.startedPlayerIndexes) == before + {who}
            && (after.status == Playing <==> seats <= before + {who})
            && (after.status == Playing ==> after.gameplayStartedAtMs == Some(nowMs))
  {
    var started := Sort(launch.startedPlayerIndexes + [who]);
    SortOneMore(launch.startedPlayerIndexes, who);
    assert who in expected;
    if AllStarted(expected, started) {
      forall x | x in seats ensures x in started {
        var i :| 0 <= i < |expected| && expected[i] == x;
      }
    } else {
      var i :| 0 <= i < |expected| && expected[i] !in started;
      assert expected[i] in seats;
    }
  }

  /** The barrier, from any published launch: whatever reports arrive in whatever order, the started
      list is the strictly sorted set of earlier and current reporters, and the launch is playing
      exactly when the connected seats are covered and some reporter was new. */
  lemma {:induction false} BarrierOpensOnCoverage(s: State, calls: seq<Call>)
    requires AwaitsStarts(s) && s.pendingLaunch.value.status == RoomReady && OnlyStartReports(calls)
    ensures var t := Run(s, calls);
            && AwaitsStarts(t) && t.players == s.players
            && Started(t) == Started(s) + Reporters(s, calls)
            && StrictlyAscending(t.pendingLaunch.value.startedPlayerIndexes)
            && (t.pendingLaunch.value.status == Playing <==>
                  Seats(s.players) <= Started(t) && !(Reporters(s, calls) <= Started(s)))
            && (Reporters(s, calls) <= Started(s) ==> t == s)
    decreases |calls|
  {
    if calls != [] {
      var front, call := calls[..|calls| - 1], calls[|calls| - 1];
      BarrierOpensOnCoverage(s, front);
      assert call == calls[|calls| - 1];
      OneReport(Run(s, front), call);
    }
  }

  /** After the first publish of a launch, the launch is playing exactly when every connected seat has
      reported, and the started list is exactly the reporters in seat order. */
  lemma FirstPublishBarrier(s: State, connectionId: ConnectionId, proposalId: ProposalId, inviteCode: string,
                            nowMs: Millis, calls: seq<Call>)
    requires Valid(s) && s.pendingLaunch.Some? && s.pendingLaunch.value.status == Preparing
    requires PublishGameRoom(s, connectionId, proposalId, inviteCode, nowMs).result.Ok?
    requires AwaitsStarts(PublishGameRoom(s, connectionId, proposalId, inviteCode, nowMs).state)
    requires OnlyStartReports(calls)
    ensures var published := PublishGameRoom(s, connectionId, proposalId, inviteCode, nowMs).state;
            var t := Run(published, calls);
            && t.pendingLaunch.Some?
            && Started(t) == Reporters(published, calls)
            && StrictlyAscending(t.pendingLaunch.value.startedPlayerIndexes)
            && (t.pendingLaunch.value.status == Playing <==> Seats(s.players) == Reporters(published, calls))
  {
    var published := PublishGameRoom(s, connectionId, proposalId, inviteCode, nowMs).state;
    BarrierOpensOnCoverage(published, calls);
    RequesterIsHolder(s, connectionId);
    var host := Requester(s, connectionId).value;
    assert SlotValid(s.players[host.playerIndex], host.playerIndex);
    assert host.playerIndex in Seats(s.players);
    ReportersAreSeated(published, calls);
  }

  lemma {:induction false} ReportersAreSeated(s: State, calls: seq<Call>)
    requires AwaitsStarts(s) && s.pendingLaunch.value.status == RoomReady && OnlyStartReports(calls)
    ensures Reporters(s, calls) <= Seats(s.players)
    decreases |calls|
  {
    if calls != [] {
      var front, call := calls[..|calls| - 1], calls[|calls| - 1];
      ReportersAreSeated(s, front);
      BarrierOpensOnCoverage(s, front);
      if Reporter(Run(s, front), call).Some? {
        ReporterIsSeated(Run(s, front), call);
      }
    }
  }

  // When the barrier works

  predicate IsPlaying(s: State) {
    s.pendingLaunch.Some? && s.pendingLaunch.value.status == Playing
  }

  /** Playing means that every connected seat has started. */
  predicate BarrierHolds(s: State) {
    s.pendingLaunch.Some? && (IsPlaying(s) <==> Seats(s.players) <= Started(s))
  }

  /** The barrier can be relied on while nothing but start reports arrive. */
  ghost predicate BarrierWorks(s: State) {
    forall calls :: OnlyStartReports(calls) ==> BarrierHolds(Run(s, calls))
  }

  /** A published launch that is not playing can rely on its barrier exactly when some connected seat has
      not started yet; otherwise no report is new and the launch waits for ever. */
  lemma BarrierWorksExactlyWhen(s: State)
    requires AwaitsStarts(s) && s.pendingLaunch.value.status == RoomReady
    ensures BarrierWorks(s) <==> !(Seats(s.players) <= Started(s))
    ensures Seats(s.players) <= Started(s) ==> forall calls :: OnlyStartReports(calls) ==> Run(s, calls) == s
  {
    if Seats(s.players) <= Started(s) {
      forall calls | OnlyStartReports(calls) ensures Run(s, calls) == s {
        ReportersAreSeated(s, calls);
        BarrierOpensOnCoverage(s, calls);
      }
      assert OnlyStartReports([]) && Run(s, []) == s && !BarrierHolds(s);
    } else {
      forall calls | OnlyStartReports(calls) ensures BarrierHolds(Run(s, calls)) {
        BarrierOpensOnCoverage(s, calls);
      }
    }
  }

  /** Publishing again while everyone connected has already reported sends a playing launch back to ready,
      and start reports alone, however many, never make it play again. */
  lemma RepublishSilencesReports(s: State, connectionId: ConnectionId, proposalId: ProposalId, inviteCode: string,
                                 nowMs: Millis)
    requires AwaitsStarts(s) && Seats(s.players) <= Started(s)
    requires PublishGameRoom(s, connectionId, proposalId, inviteCode, nowMs).result.Ok?
    ensures var again := PublishGameRoom(s, connectionId, proposalId, inviteCode, nowMs).state;
            && AwaitsStarts(again) && again.pendingLaunch.value.status == RoomReady
            && Seats(again.players) <= Started(again) && !BarrierWorks(again)
            && forall calls :: OnlyStartReports(calls) ==> Run(again, calls) == again
  {
    PublishKeepsValid(s, connectionId, proposalId, inviteCode, nowMs);
    BarrierWorksExactlyWhen(PublishGameRoom(s, connectionId, proposalId, inviteCode, nowMs).state);
  }

  /** When the only connected seat that has not reported drops, the launch stays ready, and start reports
      alone never make it play, though nothing was published twice. */
  lemma DropSilencesReports(s: State, connectionId: ConnectionId, nowMs: Millis)
    requires AwaitsStarts(s) && s.pendingLaunch.value.status == RoomReady
    requires Requester(s, connectionId).Ok?
    requires Seats(s.players) - {Requester(s, connectionId).value.playerIndex} <= Started(s)
    ensures var after := Disconnect(s, connectionId, nowMs).state;
            && AwaitsStarts(after) && after.pendingLaunch == s.pendingLaunch
            && Seats(after.players) <= Started(after) && !BarrierWorks(after)
            && forall calls :: OnlyStartReports(calls) ==> Run(after, calls) == after
  {
    var after := Disconnect(s, connectionId, nowMs).state;
    DisconnectKeepsValid(s, connectionId, nowMs);
    RequesterIsHolder(s, connectionId);
    var k := SlotHolding(s.players, connectionId);
    assert forall i :: 0 <= i < |s.players| ==> SlotValid(s.players[i], i);
    assert Requester(s, connectionId).value.playerIndex == k;
    assert forall i :: 0 <= i < |s.players| && i != k ==> after.players[i] == s.players[i];
    forall x | x in Seats(after.players) ensures x in Started(after) {
      var i :| 0 <= i < |after.players| && Present(after.players[i]) && after.players[i].playerIndex == x;
      assert i != k && x in Seats(s.players);
    }
    BarrierWorksExactlyWhen(after);
  }

  // Every call, not only start reports

  predicate CanAllReport(s: State) {
    forall i :: 0 <= i < |s.players| && Present(s.players[i]) ==>
      s.players[i].capabilities.supportsLobbyGameplayStarted
  }

  /** The one thing that starts play: a first report that completes the connected seats of a published
      launch, while every connected client can report. */
  predicate StartsPlay(s: State, call: Call) {
    && s.pendingLaunch.Some? && s.pendingLaunch.value.status == RoomReady && CanAllReport(s)
    && Reporter(s, call).Some? && Reporter(s, call).value !in Started(s)
    && Seats(s.players) <= Started(s) + {Reporter(s, call).value}
  }

  /** What calls other than launches and reports do to the launch: nothing that starts it. */
  predicate LaunchKept(s: State, t: State) {
    t.pendingLaunch.Some? ==>
      && s.pendingLaunch.Some?
      && t.pendingLaunch.value.startedPlayerIndexes == s.pendingLaunch.value.startedPlayerIndexes
      && (t.pendingLaunch.value.status == Playing ==> s.pendingLaunch.value.status == Playing)
      && (t.pendingLaunch.value.status == Preparing ==> s.pendingLaunch.value.status == Preparing)
  }

  lemma ComingAndGoingKeepsLaunch(s: State, call: Call)
    requires call.JoinCall? || call.ReconnectCall? || call.DisconnectCall? || call.LeaveCall? || call.RemoveCall?
    ensures LaunchKept(s, Apply(s, call).state)
  {
  }

  lemma PublishKeepsLaunch(s: State, call: Call)
    requires call.PublishCall?
    ensures LaunchKept(s, Apply(s, call).state)
  {
  }

  lemma PreparingKeepsLaunch(s: State, call: Call)
    requires call.SelectCall? || call.ReadinessCall? || call.ReturnCall? || call.ActivityCall? || call.IdleCall?
    ensures LaunchKept(s, Apply(s, call).state)
  {
  }

  lemma OthersKeepLaunch(s: State, call: Call)
    requires !call.StartedCall? && !call.LaunchCall?
    ensures LaunchKept(s, Apply(s, call).state)
  {
    match call
    case PublishCall(_, _, _, _) => PublishKeepsLaunch(s, call);
    case SelectCall(_, _, _, _) => PreparingKeepsLaunch(s, call);
    case ReadinessCall(_, _, _, _, _) => PreparingKeepsLaunch(s, call);
    case ReturnCall(_) => PreparingKeepsLaunch(s, call);
    case ActivityCall(_, _) => PreparingKeepsLaunch(s, call);
    case IdleCall(_) => PreparingKeepsLaunch(s, call);
    case _ => ComingAndGoingKeepsLaunch(s, call);
  }

  lemma UnreportableStays(s: State, call: Call)
    requires Valid(s) && call.StartedCall? && !IsPlaying(s)
    requires s.pendingLaunch.Some? && s.pendingLaunch.value.status != Preparing ==> !CanAllReport(s)
    ensures Apply(s, call).state == s
  {
    if !CanAllReport(s) {
      assert ExpectedStarters(s.players).None?;
    }
  }

  /** Whatever the call, a launch turns to playing exactly when the call starts play. */
  lemma PlayBeginsExactlyWhen(s: State, call: Call)
    requires Valid(s) && !IsPlaying(s)
    ensures IsPlaying(Apply(s, call).state) <==> StartsPlay(s, call)
  {
    if call.StartedCall? {
      if s.pendingLaunch.Some? && s.pendingLaunch.value.status != Preparing && CanAllReport(s) {
        assert AwaitsStarts(s);
        OneReport(s, call);
      } else {
        UnreportableStays(s, call);
      }
    } else if !call.LaunchCall? {
      OthersKeepLaunch(s, call);
    }
  }

  /** Reports from seats that have started change nothing. */
  lemma CoveredReportIsQuiet(s: State, call: Call, started: set<PlayerIndex>)
    requires Valid(s) && call.StartedCall? && !IsPlaying(s)
    requires s.pendingLaunch.Some? ==> Started(s) == started && s.pendingLaunch.value.status != Preparing
    requires Seats(s.players) <= started
    ensures Apply(s, call).state == s
  {
    if s.pendingLaunch.Some? && CanAllReport(s) {
      assert AwaitsStarts(s);
      if Reporter(s, call).Some? {
        ReporterIsSeated(s, call);
      }
      QuietReport(s, call);
    } else {
      UnreportableStays(s, call);
    }
  }

  /** Through joins, drops, publishes, reports and everything else short of a new launch: as long as the
      connected seats are all among those that had started, the launch does not play. */
  lemma {:induction false} CoveredStaysUnplayed(w: World, calls: seq<Call>)
    requires WorldValid(w) && FreshRun(w, calls)
    requires w.lobby.pendingLaunch.Some? && w.lobby.pendingLaunch.value.status == RoomReady
    requires forall k :: 0 <= k < |calls| ==> !calls[k].LaunchCall?
    requires forall k :: 0 <= k <= |calls| ==> Seats(Play(w, calls[..k]).lobby.players) <= Started(w.lobby)
    ensures var later := Play(w, calls);
            && WorldValid(later) && !IsPlaying(later.lobby)
            && (later.lobby.pendingLaunch.Some? ==>
                  Started(later.lobby) == Started(w.lobby) && later.lobby.pendingLaunch.value.status != Preparing)
    decreases |calls|
  {
    if calls != [] {
      var front, call := calls[..|calls| - 1], calls[|calls| - 1];
      assert forall k :: 0 <= k <= |front| ==> front[..k] == calls[..k];
      assert calls[..|front|] == front;
      CoveredStaysUnplayed(w, front);
      var before := Play(w, front);
      AfterKeepsWorld(before, call);
      if call.StartedCall? {
        CoveredReportIsQuiet(before.lobby, call, Started(w.lobby));
      } else {
        OthersKeepLaunch(before.lobby, call);
      }
    }
  }
}
