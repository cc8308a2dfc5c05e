# Netplay relay: a verified model

The relay server hosts lobbies in which up to four players gather, choose a game and launch it, and
netplay rooms through which the players' controller input is relayed frame by frame. This project
models the parts of that server whose correctness depends on whole runs, and proves what they promise.

| module | models |
|---|---|
| `LobbyState`, `LobbyOps` | the lobby's values, and each lobby operation as a function of state and call |
| `LobbyObject` | the lobby as a mutable object; every method is proved to compute its operation |
| `LobbyInvariant`, `LobbyRuns` | the joint invariant, and run theorems: epochs, closing, returns, launch readiness |
| `LobbyAnswers` | exactly when each lobby call succeeds, why it is refused, and all it changes |
| `LobbySeats` | whose seat is whose: joining, leaving, removal, coming back |
| `LobbyRelay` | prepare, call the broker, re-validate, grant: the two-phase file transfers |
| `LobbyBarrier`, `LobbyStranded` | the gameplay-start barrier, when it can be relied on, and the lobbies where it cannot |
| `RateLimiter` | the sliding-window limiter against its full acceptance history |
| `BigEndian`, `InputBatchCodec`, `FastInputCodec`, `WireLayout` | the SBI1 and SBI2 binary input messages, as round trips and byte by byte |
| `InputSockets` | binary input sockets, and what the closing of one does to input cursors and session |
| `RelayBuffers`, `FrameClock`, `RelayPipeline` | input held per frame, the protocol-4 frame clock, and both joined: admission, waiting, release |
| `RelayAdmission`, `RelayCursors`, `RelayLanes` | which input a message gets admitted, and how often, over one lane and over both |
| `RelayQueues`, `RelaySessions` | the order in which input waits and leaves, and what a reset carries into the next session |
| `RelayWire`, `RelayOverflow` | when every batch sent fits the wire, and the run in which one does not |
| `StrictInput` | the protocol-5 input lane: exact cursors, cumulative acknowledgement, resend |
| `CompatibilityV5`, `Compatibility` | fingerprint agreement, the determinism profile and its lowest-terms rate |
| `InputDelay` | the startup input delay |

Operations that update state in place are methods of classes (or loops), each proved equal to a
function of the old state; the functions carry the theorems. `Run`, `Play` and `Serve` apply a whole
sequence of calls, so a theorem about them is a theorem about every run. Connection ids and proposal
ids are drawn fresh: `FreshRun` says that no call installs a connection or selects a proposal that
was used before (`src/transport/websocket_lobby_session.rs:31` draws one connection id per socket).

## Where the code falls short of the expected property

- A published launch should play once every connected seat has started. While nothing but start reports
  arrive it does so exactly when some connected seat has not started yet
  (`LobbyBarrier.BarrierWorksExactlyWhen`); otherwise every report is a repeat and changes nothing. Two
  ways lead there: publishing the room of a playing launch again, which keeps the started list
  (`LobbyStranded.RepublishStrands`), and the drop of the only connected seat that has not reported
  (`LobbyStranded.DropStrands`); both are runs from a lobby's creation. It lasts as long as the connected
  seats are among those that had started, through any calls short of a new launch
  (`LobbyBarrier.CoveredStaysUnplayed`), and ends when a newcomer takes another seat and reports
  (`LobbyStranded.NewcomerStartsPlay`).
- A session of a relay room should broadcast only its own input. It does so in every run exactly when it
  starts with nothing held for a frame still to come, or the room cannot be in play at all: it is closed, has
  no host or is not of protocol 4 (`RelaySessions.SessionIsCleanExactlyWhen`). A reset
  empties the buffer exactly when an epoch changes or nothing was held (`RelaySessions.ResetRestarts`).
  The closing of an input socket in play is such a reset, and changes no epoch while the seat's runner
  hand-off is open (`RelaySessions.ClosingResets`). `RelaySessions.HandoffReplaysOldInput` is a run in which
  an input of the session before goes out although nobody sent it in this one.
- Every batch the relay sends should fit the wire; a receiver's input session ends when one does not
  (`src/transport/websocket_input_session.rs:342-345`). In a room that can be in play, and below the 64-bit
  ceiling of frame numbers, it is so in every run exactly when all that the session found in its buffer, for a
  frame from its start on, travels, and none of it is of a socket still at its player's seat
  (`RelayOverflow.EveryBatchTravelsExactlyWhen`). After a session that began with an empty buffer that means: an
  epoch changes, or no socket still at its seat has an input held for a frame from the new start on
  (`RelayOverflow.NextSessionTravelsExactlyWhen`).
  `RelayOverflow.HandoffOverfillsBatch` is a run in which the guest's hand-off resets the room, the host sends its
  frame 0 again, and both inputs go out in one batch that the encoder refuses.
- A player's input should be delivered, or admitted, once per frame of a session. Outside play the closing
  of an input socket drops the player's cursor without a reset (`InputSockets.ClosingDropsExactlyWhen`), and
  the next socket starts again at the start frame. On the protocol-5 lane the delivery is contiguous exactly
  when no cursor is dropped after it has moved (`StrictInput.ContiguousExactlyWhen`);
  `StrictInput.HostInputGoesOutTwice` is a run in which the host's first input goes out twice. In a
  protocol-4 room that is not closed a closing lets a frame come again, over either lane, exactly when its player
  has had one admitted over some lane (`RelayLanes.ClosingLetsLanesRepeatExactlyWhen`, and
  `RelayCursors.ClosingLetsRepeatExactlyWhen` for the batch lane alone); `RelaySessions.HostFrameGoesOutTwice` is a
  run in which a released frame is admitted and broadcast a second time.
- Fingerprint agreement is symmetric and transitive but not reflexive: a protocol-5 fingerprint without
  a determinism profile does not even agree with itself. `Compatibility.AgreesWithItself` is the exact
  condition, and the baseline comparison is nevertheless independent of the order.
- The SBI1 encoder does not look at the player index; the decoder refuses indexes of two or more.
  `InputBatchCodec.DecodeUndoesEncode` states the round trip with both outcomes.

## Model

| member | source | states |
|---|---|---|
| `LobbyObject.Lobby.constructor` | src/lobbies/lobby.rs:111-150 | a new lobby is the created state, host in seat 0, three empty seats, epoch 1, and satisfies the joint invariant |
| `LobbyObject.Lobby.JoinOrRefreshPlayer` | src/lobbies/lobby.rs:153-202 | the object's new state and result are those of the join operation, and an unheld connection keeps its invariant |
| `LobbyObject.Lobby.ReconnectPlayer` | src/lobbies/lobby.rs:205-238 | likewise for reconnecting, with its five refusals in order, again keeping the invariant |
| `LobbyObject.Lobby.Disconnect` | src/lobbies/lobby.rs:241-256 | likewise for a dropped connection, known or not; this and every later method keeps the invariant |
| `LobbyObject.Lobby.Leave` | src/lobbies/lobby.rs:259-285 | likewise for leaving: a host closes the lobby, a guest empties the seat and calls off a launch |
| `LobbyObject.Lobby.RemovePlayer` | src/lobbies/lobby.rs:288-342 | likewise for removal by the host, with every refusal |
| `LobbyObject.Lobby.SelectGame` | src/lobbies/lobby.rs:345-369 | likewise for selecting a game |
| `LobbyObject.Lobby.SetGameReadiness` | src/lobbies/lobby.rs:372-399 | likewise for a readiness report |
| `LobbyObject.Lobby.RequestGameLaunch` | src/lobbies/lobby.rs:402-427 | likewise for a launch request |
| `LobbyObject.Lobby.PublishGameRoom` | src/lobbies/lobby.rs:430-459 | likewise for publishing the room of a launch |
| `LobbyObject.Lobby.MarkGameplayStarted` | src/lobbies/lobby.rs:462-506 | likewise for a start report, stale ones included |
| `LobbyObject.Lobby.ReturnToLobby` | src/lobbies/lobby.rs:509-546 | likewise for a return, first or repeated |
| `LobbyObject.Lobby.RecordActivity` | src/lobbies/lobby.rs:566-576 | likewise for recorded activity |
| `LobbyObject.Lobby.CloseDueToIdle` | src/lobbies/lobby.rs:612-619 | likewise for the idle sweep |
| `LobbyObject.Lobby.Close` | src/lobbies/lobby.rs:662-673 | the loop over the slots closes every occupied one and leaves the empty ones |
| `LobbyObject.MarkPlayerStarted` | src/lobbies/lobby_launch.rs:127-154 | the launch record and answer of a start report, the list kept sorted |
| `LobbyState.SortIsPermutation` | src/lobbies/lobby_launch.rs:140-141 | sorting the started list neither drops nor invents a seat |
| `LobbyInvariant.CreateIsValid` | src/lobbies/lobby.rs:111-150 | every created lobby satisfies the joint invariant, whatever its first game |
| `LobbyInvariant.RequesterIsHolder` | src/lobbies/lobby.rs:549-558 | under the invariant a connection speaks for exactly the seat that holds it |
| `LobbyInvariant.JoinKeepsValid` | src/lobbies/lobby.rs:153-202 | joining keeps the joint invariant |
| `LobbyInvariant.VacateKeepsValid` | src/lobbies/lobby.rs:259-342 | emptying a guest seat keeps it: no readiness entry and no launch is left dangling |
| `LobbyInvariant.MarkKeepsLaunch` | src/lobbies/lobby_launch.rs:127-154 | a start report keeps the started list strictly ascending, in range and consistent with the launch status |
| `LobbyInvariant.ApplyKeepsValid` | src/lobbies/lobby.rs:111-673 | every call with any arguments keeps the joint invariant if it brings in an unheld connection |
| `LobbyRuns.ApplyFrame` | src/lobbies/lobby.rs:153-673 | refused and idle calls change nothing, changing calls add one to the epoch and stay inside a frame of slots, game, launch and return |
| `LobbyRuns.EpochNeverFalls` | src/lobbies/lobby.rs:647-656 | along any run a later state has a higher epoch or is the same version |
| `LobbyRuns.EpochIdentifiesVersion` | src/lobbies/lobby.rs:647-656 | two moments of a run with equal epochs agree on everything but the activity timestamp |
| `LobbyRuns.ClosedIsTerminal` | src/lobbies/lobby.rs:662-673 | no sequence of calls changes a closed lobby, and every call is refused or idle |
| `LobbyRuns.ReturnIsIdempotent` | src/lobbies/lobby.rs:509-546 | after a return, every later request for that proposal by a known connection, at any epoch, gets the first attribution and changes nothing, until a game is selected or launched |
| `LobbyRuns.ReturnIsRemembered` | src/lobbies/lobby.rs:730-734 | the return record survives every run without a selection or launch |
| `LobbyRuns.PlayKeepsWorld` | src/lobbies/lobby.rs:697-708 | through any fresh run the invariant, the identifier history and the launch roster's readiness hold |
| `LobbyRuns.ReachableIsValid` | src/lobbies/lobby.rs:111-546 | every state of every run satisfies the joint invariant, and while a launch is pending everyone connected when it was requested still has a Ready entry |
| `LobbyAnswers.CreatedLobby` | src/lobbies/lobby.rs:111-150 | what a new lobby is made of, seat by seat and field by field |
| `LobbyAnswers.JoinAnswers` | src/lobbies/lobby.rs:153-202 | a join puts the whole claim into its seat and touches no game or launch, or is refused as closed or full |
| `LobbyAnswers.ReconnectAnswers` | src/lobbies/lobby.rs:205-238 | a seat is reclaimed exactly in an open lobby, by its player, with its token, at no later epoch |
| `LobbyAnswers.DropAnswers` | src/lobbies/lobby.rs:241-256 | a drop sets its seat reconnecting and changes nothing else |
| `LobbyAnswers.LeaveAnswers` | src/lobbies/lobby.rs:259-285 | a guest's leave empties the seat and its readiness and calls off the launch; the host's closes the lobby |
| `LobbyAnswers.NewcomerFindsRoom` | src/lobbies/lobby.rs:259-285 | right after a guest's leave any join succeeds |
| `LobbyAnswers.RemoveAnswers` | src/lobbies/lobby.rs:288-342 | a removal succeeds exactly for the host, at the current epoch, outside a game, on a guest's taken seat |
| `LobbyAnswers.SelectAnswers` | src/lobbies/lobby.rs:345-369 | a selection succeeds exactly for the host with a selectable game, which the proposal then names |
| `LobbyAnswers.ReadinessAnswers` | src/lobbies/lobby.rs:372-399 | a report succeeds exactly for the selected proposal with an allowed detail, and becomes the seat's one entry |
| `LobbyAnswers.LaunchAnswers` | src/lobbies/lobby.rs:402-427 | a launch is granted exactly to the host, for the selected proposal, with everyone connected ready |
| `LobbyAnswers.PublishAnswers` | src/lobbies/lobby.rs:430-459 | a room is published exactly by the host for the pending launch, and its code stored |
| `LobbyAnswers.StartedAnswers` | src/lobbies/lobby.rs:462-506 | the answer to every start report, stale and repeated ones included |
| `LobbyAnswers.ReturnAnswers` | src/lobbies/lobby.rs:509-546 | a return is applied exactly at the current epoch for the pending launch, answered again afterwards, and otherwise refused |
| `LobbyAnswers.IdleAnswers` | src/lobbies/lobby.rs:612-619 | the sweep shuts an open lobby down, every seat disconnected |
| `LobbyAnswers.ActivityExactly` | src/lobbies/lobby.rs:647-656 | which calls stamp the lobby as changed and which count as activity |
| `LobbyAnswers.SelectedGameStays` | src/lobbies/lobby.rs:345-369 | over any fresh run a proposal still selected names the game the host chose |
| `LobbyAnswers.PublishedCodeStays` | src/lobbies/lobby.rs:430-459 | a pending launch keeps its published code until another launch or publish |
| `LobbySeats.JoinSucceedsWhen` | src/lobbies/lobby.rs:153-202 | a join succeeds exactly in an open lobby with a free seat or the player's own |
| `LobbySeats.JoinTakesOneSeat` | src/lobbies/lobby.rs:153-202 | a join gives the player exactly one seat, the own one with its role or else the lowest free one, and touches no other |
| `LobbySeats.StrangersAreRefused` | src/lobbies/lobby.rs:549-558 | a connection no seat holds changes nothing: a drop is ignored, a removal at a stale epoch is refused for that, everything else for the unknown connection |
| `LobbySeats.GoneConnectionsArePowerless` | src/lobbies/lobby.rs:241-342 | a connection that lost its seat can change nothing in any later state of the run |
| `LobbySeats.LeavingReleases` | src/lobbies/lobby.rs:259-285 | leaving ends the connection's hold, as guest or as host |
| `LobbySeats.DroppingReleases` | src/lobbies/lobby.rs:241-256 | a dropped connection loses its hold while the seat keeps its player and token |
| `LobbySeats.RemovalReleases` | src/lobbies/lobby.rs:288-342 | removal empties exactly the target seat, never the host's, and names the connection that lost its hold |
| `LobbySeats.SeatWaits` | src/lobbies/lobby.rs:241-342 | an absent player's seat stays exactly as it was whatever the others do, until the lobby closes |
| `LobbySeats.AbsentPlayerCanReturn` | src/lobbies/lobby.rs:205-238 | after any such run the player gets the same seat and role back exactly with the seat's token in an open lobby |
| `LobbySeats.ReadinessIsLatest` | src/lobbies/lobby.rs:372-399 | the lobby reads back each player's latest readiness report and nobody else's changes |
| `LobbyRelay.RunKeepsPins` | src/lobbies/lobby.rs:153-342 | over any fresh run a connection stays with one slot, role and capability set, and a proposal with one game |
| `LobbyRelay.RomIsPreparedExactlyWhen` | src/lobbies/lobby_rom_relay.rs:42-104 | a ROM transfer is prepared exactly when the host asks for a connected receiver, both clients relay and the selected game has a well-formed hash and an allowed size; it goes from the host's seat and connection to the receiver's, with the selected game, hash and size |
| `LobbyRelay.RomRefusals` | src/lobbies/lobby_rom_relay.rs:68-91 | why a transfer between relaying clients is refused, in order |
| `LobbyRelay.RouteIsPreparedExactlyWhen` | src/lobbies/lobby_rom_relay.rs:49-66 | who may send to whom, and the refusals of everyone else, for both kinds of transfer |
| `LobbyRelay.StateIsPreparedExactlyWhen` | src/lobbies/lobby_start_state_relay.rs:42-152 | the same for startup states, with the label, hash, size and format a state needs |
| `LobbyRelay.RomGrantIsCurrent` | src/lobbies/lobby_rom_relay.rs:42-126 | a prepared ROM transfer is accepted in a later state exactly when preparing it there gives the same intent, and refused for its proposal or else for its seats |
| `LobbyRelay.StartupStateGrantIsCurrent` | src/lobbies/lobby_start_state_relay.rs:42-129 | the same for startup-state transfers |
| `LobbyRelay.PreparedStateIsLabelled` | src/lobbies/lobby_start_state_relay.rs:132-152 | a prepared state carries the label the host selected and is otherwise what was asked for |
| `LobbyBarrier.MarkCovers` | src/lobbies/lobby_launch.rs:127-154 | recording a new starter opens the barrier exactly when the expected seats are covered |
| `LobbyBarrier.OneReport` | src/lobbies/lobby.rs:462-506 | one report adds its seat, and turns the launch to playing exactly when a new seat completes the connected ones |
| `LobbyBarrier.BarrierOpensOnCoverage` | src/lobbies/lobby.rs:462-506 | for every sequence of reports from any published launch: the started list is strictly sorted and is the reporters, and playing means covered by someone new |
| `LobbyBarrier.FirstPublishBarrier` | src/lobbies/lobby.rs:710-728 | after a first publish the launch is playing exactly when all connected seats have reported |
| `LobbyBarrier.BarrierWorksExactlyWhen` | src/lobbies/lobby_launch.rs:127-154 | for every sequence of reports playing means covered, if and only if some connected seat has not started when the reports begin; otherwise no report changes anything |
| `LobbyBarrier.RepublishSilencesReports` | src/lobbies/lobby_launch.rs:119-123 | publishing again after everyone connected reported leaves a ready launch that no sequence of start reports starts |
| `LobbyBarrier.DropSilencesReports` | src/lobbies/lobby.rs:241-256 | the drop of the only connected seat that had not reported does the same without a second publish |
| `LobbyBarrier.PlayBeginsExactlyWhen` | src/lobbies/lobby.rs:462-506 | whatever the call, a launch turns to playing exactly at a first report that completes the connected seats while all of them can report |
| `LobbyBarrier.CoveredStaysUnplayed` | src/lobbies/lobby.rs:153-506 | over any run without a new launch, the launch does not play as long as the connected seats are among those that had started |
| `LobbyStranded.NewcomerStartsPlay` | src/lobbies/lobby.rs:153-202 | a newcomer in a seat that had not started plays a stranded launch with one report |
| `LobbyStranded.RepublishStrands` | src/lobbies/lobby_launch.rs:119-123 | a run from creation in which a second publish strands the launch |
| `LobbyStranded.DropStrands` | src/lobbies/lobby.rs:241-256 | a run from creation in which a drop strands the launch |
| `RateLimiter.InMemoryRateLimiter.CheckAt` | src/rate_limit/window_limiter.rs:34-68 | the pruning loop and the verdict are those of one check on the old buckets |
| `RateLimiter.CheckKeepsTail` | src/rate_limit/window_limiter.rs:54-67 | a check keeps the deque the unexpired tail of the full history |
| `RateLimiter.DequeIsTail` | src/rate_limit/window_limiter.rs:34-68 | after any run each deque is the tail of its bucket's history and all that was dropped has expired |
| `RateLimiter.PrunedDequeRefinesHistory` | src/rate_limit/window_limiter.rs:34-68 | each verdict, retry time included, is the one the full acceptance history calls for |
| `RateLimiter.AcceptedTimesAreHistory` | src/rate_limit/window_limiter.rs:34-68 | over any run the requests the limiter accepts in a bucket are the reference history |
| `RateLimiter.AcceptancesAreSpaced` | src/rate_limit/window_limiter.rs:58-67 | requests the limiter accepts `limit` apart in one bucket are at least sixty seconds apart |
| `RateLimiter.NoWindowIsOverfull` | src/rate_limit/window_limiter.rs:34-68 | in no half-open sixty-second window anywhere does the limiter accept more than the limit |
| `RateLimiter.AcceptedExactlyWhen` | src/rate_limit/window_limiter.rs:34-68 | a request is accepted exactly when fewer than its action's own policy limit were accepted in the sixty seconds up to it |
| `RateLimiter.BucketsAreIndependent` | src/rate_limit/window_limiter.rs:34-68 | deleting all requests of other actions and keys from a run does not change the verdict |
| `RateLimiter.RetryAfterIsExact` | src/rate_limit/window_limiter.rs:58-64 | after a refusal a retry is accepted exactly from the announced time on, whatever is asked in between |
| `BigEndian.ReadWritten` | src/protocol/input_batch.rs:150-166 | reading back a written integer gives the integer |
| `BigEndian.WriteRead` | src/protocol/input_batch.rs:150-166 | writing a read integer gives back the bytes |
| `BigEndian.BytesAreBigEndian` | src/protocol/input_batch.rs:150-166 | byte by byte, the most significant first |
| `WireLayout.BatchLayout` | src/protocol/input_batch.rs:112-148 | an encoded batch byte by byte: magic, type, epochs, player index, count, and each frame at its offset |
| `WireLayout.EncodesExactlyWhen` | src/protocol/input_batch.rs:112-148 | a batch has a wire form exactly with one to four frames, all its player's, in at most 8192 bytes; otherwise the refusal says why |
| `WireLayout.DecodesExactlyWhen` | src/protocol/input_batch.rs:49-109 | a message is accepted exactly when it is the wire form of a batch for one of the two players |
| `WireLayout.DecodeRefusals` | src/protocol/input_batch.rs:49-109 | the first thing wrong with a message decides the refusal |
| `WireLayout.RecordLayout` | src/protocol/fast_input.rs:122-148 | an encoded record byte by byte, and exactly when there is one |
| `WireLayout.FastRefusals` | src/protocol/fast_input.rs:66-119 | the refusal of a message whose bytes after some good records are not another one |
| `InputBatchCodec.EncodeInputFrameBatch` | src/protocol/input_batch.rs:112-148 | the appending loop yields the specified bytes or the specified error |
| `InputBatchCodec.DecodeInputFrameBatch` | src/protocol/input_batch.rs:49-109 | the offset loop yields the specified batch or the specified error, trailing bytes refused |
| `InputBatchCodec.DecodeUndoesEncode` | src/protocol/input_batch.rs:49-148 | decoding an encoded batch gives that batch, or refuses its player index |
| `InputBatchCodec.EncodeUndoesDecode` | src/protocol/input_batch.rs:49-148 | every accepted byte string is the encoding of its batch: one wire form per batch |
| `FastInputCodec.EncodeFastInputFrame` | src/protocol/fast_input.rs:122-148 | the encoder yields the specified record bytes or error |
| `FastInputCodec.DecodeFastInputBatch` | src/protocol/fast_input.rs:66-119 | the offset loop yields the specified records or the specified first error |
| `FastInputCodec.DecodeUndoesConcatenation` | src/protocol/fast_input.rs:66-148 | concatenated encoded records decode to exactly those records, with the exact limits under which they do not |
| `FastInputCodec.ForwardedBytesAreReceivedBytes` | src/protocol/fast_input.rs:66-148 | the forwarded slices put together are the received bytes, each the encoding of its fields |
| `RelayBuffers.InputFrameRelayBuffer.PushFrame` | src/rooms/input_frame_relay_buffer.rs:33-49 | pushing files the input last under its own frame number, which the buffer's invariant keeps |
| `RelayBuffers.InputFrameRelayBuffer.DrainFrame` | src/rooms/input_frame_relay_buffer.rs:52-75 | draining removes the frame; its batches hold exactly the current inputs, every one of the drained frame and of its batch's own player, none lost or repeated |
| `RelayBuffers.FastInputRelayBuffer.PushFrame` | src/rooms/fast_input_relay_buffer.rs:27-32 | pushing files the record last under its frame |
| `RelayBuffers.FastInputRelayBuffer.DrainFrame` | src/rooms/fast_input_relay_buffer.rs:35-50 | draining removes the frame; the records returned are current, of that frame and in order of arrival, and with the stale ones make up what was held |
| `RelayBuffers.NothingIsLostOrDuplicated` | src/rooms/input_frame_relay_buffer.rs:33-75 | over any run every input is pushed as often as it is emitted, dropped as stale or still held |
| `RelayBuffers.FramesAreQueues` | src/rooms/fast_input_relay_buffer.rs:27-50 | per frame, what was taken followed by what is held is what was pushed, in order |
| `RelayBuffers.GroupingIsRight` | src/rooms/input_frame_relay_buffer.rs:78-103 | batches are non-empty, have distinct source and player, and hold that source's and player's inputs, all the player's own, in arrival order |
| `RelayBuffers.GroupingCarriesAll` | src/rooms/input_frame_relay_buffer.rs:52-103 | the batches carry exactly the drained inputs, as often as they were held |
| `FrameClock.FrameClockRoom.ReleaseNextServerFrame` | src/rooms/room_frame_clock_ops.rs:11-51 | the room's new state and released frame are those of the release operation |
| `FrameClock.FrameClockRoom.ApplyPendingInputDelayIfDue` | src/rooms/room_adaptive_input_delay_ops.rs:90-101 | a pending delay is taken over exactly when the cursor has reached its frame |
| `FrameClock.FrameClockRoom.ResetSyncStateTo` | src/rooms/room.rs:496-527 | a reset moves all cursors to the start frame and forgets input, pause, delay change and schedule |
| `FrameClock.ReleasesExactlyWhen` | src/rooms/room_frame_clock_ops.rs:11-78 | a tick releases a frame exactly in play, or at a start that is due, once the first host seat's player has had input accepted for it; it releases the very next frame |
| `FrameClock.TickBeginsPlay` | src/rooms/room_frame_clock_ops.rs:15-34 | a due start begins play for everyone connected, and in play a pending delay is taken over exactly when the cursor has reached its frame; schedule and pause stay as they are |
| `FrameClock.ResetForgets` | src/rooms/room.rs:496-527 | after a reset no tick releases anything, and input, pause, schedule and pending delay are gone |
| `FrameClock.ReleaseIsDue` | src/rooms/room_frame_clock_ops.rs:11-78 | a released frame is covered by the host's input, not ahead of the canonical frame, and not before its deadline |
| `FrameClock.FramesAreConsecutive` | src/rooms/room_frame_clock_ops.rs:11-51 | however the room changes between ticks, the released frames are start, start + 1, ... without gap or repeat below the 64-bit ceiling |
| `FrameClock.NoFrameBeforeTheDeadline` | src/rooms/room_frame_clock_ops.rs:15-27 | from a scheduled start no frame at all is released before the deadline, however seats, sockets and input change |
| `InputSockets.DisconnectInputSocket` | src/rooms/room_input_connection_ops.rs:61-100 | the room's new state and answer are those of the closing operation, recovery and hand-off included |
| `InputSockets.ClosingAnswers` | src/rooms/room_input_connection_ops.rs:61-100 | an unknown socket is refused, and outside gameplay or for a seat already away only the socket and its player's cursors go |
| `InputSockets.ClosingMovesSeatsAway` | src/rooms/room_connection_ops.rs:198-258 | during gameplay the seat goes away and, outside a hand-off or a running recovery, the room recovers and every other connected seat waits again |
| `InputSockets.EndedSessionIsReset` | src/rooms/room_connection_ops.rs:198-258 | a closing in play leaves no cursor and no release, under new epochs unless a hand-off is open |
| `InputSockets.ClosingDropsExactlyWhen` | src/rooms/room_input_connection_ops.rs:89-90 | a closing outside play drops a player's cursor exactly when the socket speaks for that player and the cursor has moved, and moves no other |
| `RelayPipeline.AcceptInputFrameCursors` | src/rooms/room_controller_netplay_ops.rs:48-93 | the staged loop admits a whole message and moves the room's cursors, or refuses it and moves none |
| `RelayPipeline.StoredRoom.RelayAcceptedInputFrame` | src/rooms/stored_room.rs:535-548 | input for a released frame goes out at once, other input is filed in the buffer |
| `RelayPipeline.StoredRoom.RelayAcceptedInputFrames` | src/rooms/room_registry_relay_ops.rs:72-77 | the loop over a message's inputs relays them in order |
| `RelayPipeline.StoredRoom.EmitNextServerFrame` | src/rooms/stored_room.rs:570-604 | a tick of the room's clock and a drain of its buffer together release one frame with its input, every batch of that frame and of one player |
| `RelayPipeline.StoredRoom.SynchronizeInputRuntimeEpoch` | src/rooms/stored_room.rs:656-667 | a buffer filled under other epochs is thrown away |
| `RelayPipeline.StoredRoom.RelayInputFrameBatch` | src/rooms/room_registry_relay_ops.rs:43-79 | the whole path of one message, with its refusals in order |
| `RelayPipeline.PlayStaysSound` | src/rooms/stored_room.rs:535-604 | over any run from a reset, with sockets closing and coming back and cursors dropped or raised, all held input waits for a frame still to come and each input's books balance, what the reset left over included |
| `RelayPipeline.BroadcastExactlyWhenReleased` | src/rooms/stored_room.rs:535-604 | over any such run an input has been broadcast as often as it was admitted or left over if its frame has been released, and never otherwise |
| `RelayAdmission.TurnedAwayExactlyWhen` | src/rooms/room_controller_netplay_ops.rs:435-470 | a message is turned away exactly by its first input of another player, outside play and pause, or that counts and is more than 240 frames ahead, for that reason |
| `RelayAdmission.AdmittedAreNewHighs` | src/rooms/room_controller_netplay_ops.rs:435-470 | a message gets admitted exactly its inputs that a pause lets through and that exceed the cursor and all such earlier ones |
| `RelayAdmission.BatchIsTakenExactlyWhen` | src/rooms/room_registry_relay_ops.rs:43-79 | a message is taken exactly under its guards on epochs, mode, socket and inputs, and otherwise changes nothing |
| `RelayAdmission.BatchRefusals` | src/rooms/room_registry_relay_ops.rs:43-79 | the reason given to a refused message |
| `RelayAdmission.FastIsTakenExactlyWhen` | src/rooms/room_registry_relay_ops.rs:82-126 | the same for the fast lane, with every client's support and every record's epochs |
| `RelayCursors.AdmissionIsOrderly` | src/rooms/room_controller_netplay_ops.rs:435-470 | the inputs a message gets admitted rise from the player's old cursor to the new one and are the player's own |
| `RelayCursors.PlayStaysKeyOrderly` | src/rooms/room_controller_netplay_ops.rs:48-93 | over any run what one socket gets admitted for a player rises, and a socket still at its seat has the cursor above all of it |
| `RelayCursors.EachFrameOnce` | src/rooms/room_controller_netplay_ops.rs:48-93 | as long as the player's cursor is not lowered, no frame of the player below the 64-bit ceiling is admitted twice, nor broadcast twice unless left over |
| `RelayCursors.NeverRepeatsExactlyWhen` | src/rooms/room_controller_netplay_ops.rs:48-93 | at any point of any run, no later run admits a frame of the player again without lowering the cursor, if and only if none was yet, and the cursor stands above all of them or the room is closed |
| `RelayCursors.ClosingLetsRepeatExactlyWhen` | src/rooms/room_input_connection_ops.rs:61-100 | a closing within a session opens the way to a repeat on the batch lane exactly when the room is not closed and its player has had a frame admitted there |
| `RelayQueues.PlayKeepsQueues` | src/rooms/stored_room.rs:535-548 | in every run, until a frame is released there waits for it what the session found for it and then what it admitted for it, all of it and in that order |
| `RelayQueues.ReleaseSendsQueue` | src/rooms/stored_room.rs:570-604 | a release sends one batch per socket and player, made of what was left over for the frame and then what was admitted for it |
| `RelayQueues.GoneStaysGone` | src/rooms/room_controller_netplay_ops.rs:48-93 | a socket that has left a player's seat never gets input admitted for the player again |
| `RelayLanes.LanesAreSlowRuns` | src/rooms/room_registry_relay_ops.rs:82-126 | every run of both lanes is a lawful run of the batch lane in which fast messages only raise cursors |
| `RelayLanes.RecordsLeaveWhenReleased` | src/rooms/stored_room.rs:551-604 | over any run of both lanes a fast record has left its own buffer as often as it was admitted or left over if its frame has been released, and never otherwise |
| `RelayLanes.OnceAcrossLanes` | src/rooms/room_registry_relay_ops.rs:43-126 | however the lanes' messages mix, a player's frame is admitted over one lane or the other, once, while the cursor is not lowered |
| `RelayLanes.LanesNeverRepeatExactlyWhen` | src/rooms/room_registry_relay_ops.rs:43-126 | at any point of any run of both lanes, no later run takes a frame of the player again over any lane without lowering the cursor, if and only if none was yet, and the cursor stands above all of them or the room is closed |
| `RelayLanes.ClosingLetsLanesRepeatExactlyWhen` | src/rooms/room_input_connection_ops.rs:61-100 | a closing within a session opens the way to a repeat over either lane exactly when the room is not closed and its player has had a frame taken over some lane |
| `RelayLanes.ResetRestartsLanes` | src/rooms/stored_room.rs:656-667 | after any session of both lanes any reset starts another; the fast lane starts with an empty buffer exactly when an epoch changes or nothing was held |
| `RelaySessions.ResetRestarts` | src/rooms/room.rs:496-527 | after any session any reset starts another; it starts with an empty buffer exactly when an epoch changes or nothing was held |
| `RelaySessions.ClosingResets` | src/rooms/room_connection_ops.rs:198-258 | the closing of a socket in play is a reset, under new epochs exactly unless a hand-off is open or the epochs are at their ceiling |
| `RelaySessions.SessionIsCleanExactlyWhen` | src/rooms/stored_room.rs:535-604 | a session broadcasts only its own input in every run if and only if it starts with nothing held for a frame still to come or the room cannot be in play |
| `RelaySessions.OldInputIsReplayed` | src/rooms/room_runner_handoff_ops.rs:66-107 | after any session a reset under the same epochs keeps held input, and some run of host input and ticks broadcasts it more often than it is admitted |
| `RelaySessions.HandoffReplaysOldInput` | src/rooms/room_runner_handoff_ops.rs:66-107 | in a two-player room the guest's input of the session before goes out once, admitted not at all |
| `RelaySessions.FrameGoesOutTwice` | src/rooms/room_input_connection_ops.rs:61-100 | from any room ready to play: a host frame is released, the host's socket closes outside play and is replaced, and the frame is admitted and broadcast again |
| `RelaySessions.HostFrameGoesOutTwice` | src/rooms/room_input_connection_ops.rs:61-100 | a two-player room in which this happens |
| `RelayWire.DecodedAreSendable` | src/protocol/input_batch.rs:49-148 | every input read off the wire fits a message of its own |
| `RelayWire.EveryBatchTravels` | src/rooms/stored_room.rs:535-654 | in any run of a session whose leftovers travel and are of sockets gone from their seats, every batch sent below the 64-bit ceiling encodes and decodes to itself, and holds one input if the leftovers do |
| `RelayOverflow.EveryBatchTravelsExactlyWhen` | src/rooms/stored_room.rs:535-604 | whatever the session finds in its buffer, every batch sent in every run below the 64-bit ceiling travels if and only if all it can release of that does and none of it is of a socket still at its player's seat, or the room cannot be in play |
| `RelayOverflow.NextSessionTravelsExactlyWhen` | src/rooms/room.rs:496-527 | after a session that began with an empty buffer, any reset starts one whose batches all travel in every run if and only if an epoch changes, the room cannot be in play, or no socket still at its seat has an input held from the new start on |
| `RelayOverflow.HandoffOverfillsBatch` | src/rooms/room_runner_handoff_ops.rs:66-107 | a run in which two full-size inputs of the host go out in one batch, which the encoder refuses |
| `StrictInput.AcceptStrictInputBatch` | src/rooms/room_strict_input_ops.rs:29-120 | the room's cursors and the answer are those of the accept operation, with every refusal |
| `StrictInput.AcceptanceTakesTheRest` | src/rooms/room_strict_input_ops.rs:84-103 | what is accepted is the batch from the cursor on, and the cursor moves past it and no other does |
| `StrictInput.AnswersExactly` | src/rooms/room_strict_input_ops.rs:29-178 | every answer, with its guards on sender, epochs, the five statuses, the pause, the gap and the 96-frame window, and what it delivers |
| `StrictInput.DeliversExactlyWhen` | src/rooms/room_strict_input_ops.rs:29-147 | new input goes out exactly for the owner's current batch, in one of the five statuses, within pause and window, that reaches over the cursor without a gap |
| `StrictInput.CursorFollowsSegment` | src/rooms/room_strict_input_ops.rs:29-120 | in every run, sockets closing and coming back, a player's cursor stands where the payloads sent out since it was last dropped end |
| `StrictInput.ContiguousExactlyWhen` | src/rooms/room_strict_input_ops.rs:29-120 | a player's delivered batches tile the frames from the start frame to the cursor if and only if the cursor was never dropped after it had moved |
| `StrictInput.SegmentIsAPrefix` | src/rooms/room_strict_input_ops.rs:29-120 | since the last drop, lost, repeated, reordered and overlapping batches of one stream come out as a prefix of that stream |
| `StrictInput.DeliveryIsAPrefix` | src/rooms/room_strict_input_ops.rs:29-120 | the whole delivery is a prefix of the stream as long as nothing goes out after a drop |
| `StrictInput.PrefixExactlyWhen` | src/rooms/room_strict_input_ops.rs:29-120 | for a stream without repeats it is a prefix only then |
| `StrictInput.AnswersNameTheCursor` | src/rooms/room_strict_input_ops.rs:104-178 | every answer names the frame after what went out since the last drop, after all that went out exactly if there was none, and an admissible batch from there is delivered whole |
| `StrictInput.ResendIsDeliveredTwice` | src/rooms/room_input_connection_ops.rs:61-100 | in any room not yet in play, a first batch, a closing, a new socket and the resend that the answers ask for deliver the batch twice |
| `StrictInput.HostInputGoesOutTwice` | src/rooms/room_input_connection_ops.rs:61-100 | a two-player room in which this happens |
| `CompatibilityV5.GreatestCommonDivisor` | src/protocol/compatibility_v5.rs:173-180 | Euclid's loop computes the recursive gcd |
| `CompatibilityV5.GcdIsGreatest` | src/protocol/compatibility_v5.rs:173-180 | that number divides both arguments and every common divisor divides it |
| `CompatibilityV5.LowestTermsAreUnique` | src/protocol/compatibility_v5.rs:62-99 | two rates in lowest terms are equal as fractions exactly when their fields are equal |
| `CompatibilityV5.RateMismatchIsReal` | src/protocol/compatibility_v5.rs:101-146 | valid profiles report a rate mismatch only when the rates differ as rational numbers, and agree only at one rate |
| `Compatibility.MismatchIsFirst` | src/protocol/compatibility.rs:45-85 | a comparison reports exactly the first field, in the fixed order, in which the fingerprints differ, and agreement means that they differ in none |
| `CompatibilityV5.MismatchIsFirst` | src/protocol/compatibility_v5.rs:101-146 | the same for determinism profiles, digests compared without regard to case |
| `Compatibility.MismatchIsSymmetric` | src/protocol/compatibility.rs:45-85 | both sides of a comparison see the same first mismatch |
| `Compatibility.AgreementIsTransitive` | src/protocol/compatibility.rs:45-85 | agreement carries over a third fingerprint |
| `Compatibility.AgreesWithItself` | src/protocol/compatibility.rs:72-82 | a fingerprint agrees with itself exactly below protocol 5 or with a profile |
| `Compatibility.BaselineIsFair` | src/rooms/room.rs:269-281 | comparing with whichever entry comes first accepts exactly when all distinct players' fingerprints agree pairwise |
| `Compatibility.CompareWithBaseline` | src/rooms/room.rs:269-281 | the comparison loop decides pairwise agreement, for every iteration order |
| `Compatibility.NetplayRoom.SetCompatibilityForConnection` | src/rooms/room.rs:232-293 | the room's new state and answer are those of the order-free operation |
| `Compatibility.TakenLeadsTo` | src/rooms/room.rs:258-292 | with a fingerprint of the session taken, the room waits until everyone has submitted, syncs when no two fingerprints differ in any compared field, and fails otherwise |
| `Compatibility.RefusedLeadsTo` | src/rooms/room.rs:237-257 | every other submission is refused in order, and only one of another session changes the room |
| `Compatibility.SyncsExactlyWhen` | src/rooms/room.rs:232-293 | after any submissions, the next one sets the room syncing exactly when it is taken, everyone has submitted and no two fingerprints differ in any compared field |
| `Compatibility.SeatsAfterSubmission` | src/rooms/room.rs:232-293 | what a submission does to every seat's status |
| `Compatibility.StoredFitSession` | src/rooms/room.rs:537-577 | field by field, what every stored fingerprint is after any submissions |
| `Compatibility.SubmitKeepsAdmitted` | src/rooms/room.rs:537-577 | after any submissions every stored fingerprint matches the session, content hash in lower case |
| `Compatibility.SessionFixesFields` | src/rooms/room.rs:232-293 | stored fingerprints never disagree about anything the session fixes |
| `InputDelay.FramesAreLeastCover` | src/rooms/adaptive_input_delay_policy.rs:212-218 | the conversion gives the least frame count covering the time, capped at eight, and its products fit 128 bits |
| `InputDelay.FoldIsCappedTotal` | src/rooms/adaptive_input_delay_policy.rs:109-118 | the saturating fold is the true sum of path budgets capped at the 64-bit maximum |
| `InputDelay.V5DelayIsLeastCover` | src/rooms/adaptive_input_delay_policy.rs:79-129 | the startup delay is the least covering frame count plus one, within 2..8, with no saturation for a room of up to 255 seats, and deciding again after applying it changes nothing |
| `InputDelay.V5DecidesExactlyWhen` | src/rooms/adaptive_input_delay_policy.rs:79-129 | a delay is decided exactly when someone is connected, everyone connected has reported in full within ten seconds, and the delay called for is another |
| `InputDelay.V5DelayIgnoresOrder` | src/rooms/adaptive_input_delay_policy.rs:79-129 | permuting the players does not change the decision |
| `InputDelay.V5DelayIsMonotone` | src/rooms/adaptive_input_delay_policy.rs:79-129 | more latency or jitter anywhere never shortens the delay |
| `InputDelay.ReportDelayIsLeastCover` | src/rooms/adaptive_input_delay_policy.rs:186-202 | a report asks for the least frame count covering half its round trip and its jitter, plus a safety frame and one under pressure, within 2..8, saturation never showing |
| `InputDelay.WishExactly` | src/rooms/adaptive_input_delay_policy.rs:149-172 | what a connected player asks for, by report and by local frame, and when nothing |
| `InputDelay.DecidesExactlyWhen` | src/rooms/adaptive_input_delay_policy.rs:49-73 | a delay is decided exactly when it is the largest wish, another than the present one, and longer or backed by everyone's sample |
| `InputDelay.ScanPlayers` | src/rooms/adaptive_input_delay_policy.rs:132-184 | the loop finds the largest delay any connected player asks for, and whether all of them sent samples |
| `InputDelay.TargetDelay` | src/rooms/adaptive_input_delay_policy.rs:132-184 | the target is that maximum within 2..8, or none when nobody asks |
| `InputDelay.TargetIgnoresOrder` | src/rooms/adaptive_input_delay_policy.rs:132-184 | permuting the players does not change the target |
| `InputDelay.InitialDecisionIsStable` | src/rooms/adaptive_input_delay_policy.rs:49-73 | a decision stays in 2..8, lowers the delay only on a full set of fresh samples, and is final |

## Left out

- HTTP routes, WebSocket transport, telemetry, the license authority, the voice and file-relay brokers: input and output around the modelled operations.
- Registries and stored lobbies: locking and broadcasting; operations are taken one at a time, as the locks make them.
- Lobby voice state, slot colours and views: they change outside the epoch discipline or only present the state.
- Text cleaning of readiness details: the cleaned text, or the fact that it was too long, is an input of the operation.
- Resume tokens: their hash is an input; hashing itself is not modelled.
- Epochs, timestamps and sequence numbers of lobbies are unbounded naturals; their 64-bit overflow is not modelled.
- `room_frame` plus the future-frame allowance is an unbounded sum where the source adds 64-bit numbers.
- The rule for identifier text in a determinism profile is a parameter of the profile rules.
- The limiter's times are nondecreasing in the order of the calls; the mutex that orders them is not modelled.
- Launches and player slots are values inside the lobby object: aliasing between them is not modelled, and the source has none.
- LobbyObject.Lobby.RemovePlayer: the removed player's voice room and participant are not part of the answer, because voice is not modelled.
- LobbyObject.Lobby.SetGameReadiness: takes the cleaned detail text, or that it was too long, as an input, because text cleaning is not modelled.
- InputSockets.DisconnectInputSocket: whether the seat's runner hand-off is still open is an input; deadlines, socket tokens and the fingerprints the closing also forgets are not part of the clock.
- FrameClock.FrameClockRoom.ResetSyncStateTo: covers the frame cursors, input, pause, delay change and schedule; the fingerprints, readiness, transfers and state hashes that the reset also clears are not part of the clock.
- The fast-input path through a stored room is modelled on values: its buffer and codec are objects and loops, the path between them is not; whether all connected clients take fast records is an input.
- RelayPipeline.BroadcastExactlyWhenReleased: runs extend from one reset to the next; what a reset keeps in the buffer is counted, and `RelaySessions.ResetRestarts` joins one session to the next.
- StrictInput.ContiguousExactlyWhen: batches carry at least one payload, as the wire decoder ensures (`src/protocol/strict_input/input_batch.rs:114-122`).
- StrictInput.DeliveryIsAPrefix: the protocol-5 transport takes no other lane's messages (`src/transport/websocket_input_session.rs:132-152`), so nothing raises a cursor; runs extend from one sync reset to the next, as a reset starts a new stream.
- RelayOverflow.EveryBatchTravelsExactlyWhen: for controller rooms whose seats carry the two indexes of the wire form, as rooms are built (`src/rooms/room.rs:122-133`).
- The rest of the room (host-driven frames, coordinated pauses, recovery, snapshots, state hashes, scheduled-start negotiation) enters as changes between modelled steps: any that keep epochs, start frame, release cursors, canonical frame and seats, with sockets closing and new ones attached, and input cursors dropped with their socket or, on the protocol-4 lanes, raised; a closed room stays closed until a reset.
- Analytics, configuration, ROM-relay completion flags, link-cable checks, protocol rollout, debug rings and the SBF1 message: easy or finite.
