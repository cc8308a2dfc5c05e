/** Protocol-5 controller input: batches of consecutive payloads, accepted only at
    the exact next cursor, acknowledged cumulatively and refused with the cursor to
    resend from. */
module StrictInput {
  import opened Prelude
  import opened RoomTypes
  import opened BigEndian
  import opened FrameClock
  import opened InputSockets
  import Pipeline = RelayPipeline

  const MAX_FUTURE_FRAME_DISTANCE: nat := 96

  type Payload = seq<byte>

  datatype Batch = Batch(
    roomEpoch: U64, sessionEpoch: U64, playerIndex: PlayerIndex, startFrame: U64, payloads: seq<Payload>)

  datatype NackReason = SessionState | InputGap | FutureFrameTooLarge

  datatype Response =
    | Ack(roomEpoch: U64, sessionEpoch: U64, playerIndex: PlayerIndex, nextExpectedFrame: U64)
    | Nack(roomEpoch: U64, sessionEpoch: U64, playerIndex: PlayerIndex, expectedFrame: U64,
           receivedFrame: U64, reason: NackReason)

  datatype StrictError = InvalidPayload | UnknownSocket | SlotSpoofing(playerIndex: PlayerIndex)

  datatype Outcome = Outcome(response: Response, accepted: Option<Batch>, duplicateFrames: nat)

  // Acceptance

  /** Inclusive last frame; a batch without payloads counts as one frame. */
  function EndFrame(batch: Batch): nat {
    batch.startFrame + Max(|batch.payloads| - 1, 0)
  }

  predicate StateAccepts(c: Clock, frame: U64) {
    && c.status in {SyncingState, RoomReady, StartScheduled, RoomPlaying, RoomPaused}
    && Pipeline.PauseLetsThrough(c, frame)
  }

  function HighestAllowed(c: Clock): U64 {
    Min(c.nextReleaseFrame + MAX_FUTURE_FRAME_DISTANCE, U64_MAX)
  }

  function Refusal(c: Clock, p: PlayerIndex, received: U64, reason: NackReason): Outcome {
    Outcome(Nack(c.roomEpoch, c.sessionEpoch, p, CursorOf(c, p), received, reason), None, 0)
  }

  /** The part of a batch from the cursor on. */
  function Suffix(batch: Batch, expected: U64): Batch
    requires batch.startFrame <= expected <= EndFrame(batch)
  {
    batch.(startFrame := expected, payloads := batch.payloads[expected - batch.startFrame..])
  }

  function Accept(c: Clock, connectionId: ConnectionId, batch: Batch): (Clock, Result<Outcome, StrictError>) {
    var owner := OwnerOf(c, connectionId);
    var p, expected, end := batch.playerIndex, CursorOf(c, batch.playerIndex), EndFrame(batch);
    if !c.strict then (c, Err(InvalidPayload))
    else if owner.None? then (c, Err(UnknownSocket))
    else if owner.value != p then (c, Err(SlotSpoofing(p)))
    else if batch.roomEpoch != c.roomEpoch || batch.sessionEpoch != c.sessionEpoch then
      (c, Ok(Refusal(c, p, batch.startFrame, SessionState)))
    else if end > U64_MAX then (c, Err(InvalidPayload))
    else if !StateAccepts(c, end) then (c, Ok(Refusal(c, p, end, SessionState)))
    else if batch.startFrame > expected then (c, Ok(Refusal(c, p, batch.startFrame, InputGap)))
    else if end > HighestAllowed(c) then
      (c, Ok(Refusal(c, p, Min(HighestAllowed(c) + 1, U64_MAX), FutureFrameTooLarge)))
    else if end < expected then
      (c, Ok(Outcome(Ack(c.roomEpoch, c.sessionEpoch, p, expected), None, |batch.payloads|)))
    else if end == U64_MAX then (c, Err(InvalidPayload))
    else
      (c.(lastInputFrames := c.lastInputFrames[p := end], nextInputFrames := c.nextInputFrames[p := end + 1]),
       Ok(Outcome(Ack(c.roomEpoch, c.sessionEpoch, p, end + 1), Some(Suffix(batch, expected)),
                  |batch.payloads| - |Suffix(batch, expected).payloads|)))
  }

  method AcceptStrictInputBatch(room: FrameClockRoom, connectionId: ConnectionId, batch: Batch)
    returns (r: Result<Outcome, StrictError>)
    modifies room`lastInputFrames, room`nextInputFrames
    ensures (room.Value(), r) == Accept(old(room.Value()), connectionId, batch)
  {
    var c := room.Value();
    var owner := OwnerOf(c, connectionId);
    if !room.strict {
      return Err(InvalidPayload);
    }
    if owner.None? {
      return Err(UnknownSocket);
    }
    if owner.value != batch.playerIndex {
      return Err(SlotSpoofing(batch.playerIndex));
    }
    var p, expected, end := batch.playerIndex, CursorOf(c, batch.playerIndex), EndFrame(batch);
    if batch.roomEpoch != room.roomEpoch || batch.sessionEpoch != room.sessionEpoch {
      return Ok(Refusal(c, p, batch.startFrame, SessionState));
    }
    if end > U64_MAX {
      return Err(InvalidPayload);
    }
    if !StateAccepts(c, end) {
      return Ok(Refusal(c, p, end, SessionState));
    }
    if batch.startFrame > expected {
      return Ok(Refusal(c, p, batch.startFrame, InputGap));
    }
    if end > HighestAllowed(c) {
      return Ok(Refusal(c, p, Min(HighestAllowed(c) + 1, U64_MAX), FutureFrameTooLarge));
    }
    var accepted := None;
    if expected <= end {
      if end == U64_MAX {
        return Err(InvalidPayload);
      }
      accepted := Some(Suffix(batch, expected));
      room.lastInputFrames := room.lastInputFrames[p := end];
      room.nextInputFrames := room.nextInputFrames[p := end + 1];
    }
    var kept := if accepted.Some? then |accepted.value.payloads| else 0;
    r := Ok(Outcome(Ack(room.roomEpoch, room.sessionEpoch, p, CursorOf(room.Value(), p)), accepted,
                    |batch.payloads| - kept));
  }

  // Runs between sync resets

  datatype Event =
    | Sent(connectionId: ConnectionId, batch: Batch)
    | SocketClosed(connectionId: ConnectionId, handoff: bool)
    | Circumstance(clock: Clock)

  /** Statuses, sockets, pauses, delays and releases may change, and input cursors may be dropped; the epochs,
      the start frame and the cursors that stay do not move. */
  predicate SameSession(c: Clock, d: Clock) {
    && c.roomEpoch == d.roomEpoch && c.sessionEpoch == d.sessionEpoch && c.syncStartFrame == d.syncStartFrame
    && forall p :: p in d.nextInputFrames ==> p in c.nextInputFrames && d.nextInputFrames[p] == c.nextInputFrames[p]
  }

  /** The room with every batch handed on to the other players, in order. */
  datatype Journal = Journal(clock: Clock, log: seq<Batch>)

  function Logged(log: seq<Batch>, r: Result<Outcome, StrictError>): seq<Batch> {
    if r.Ok? && r.value.accepted.Some? then log + [r.value.accepted.value] else log
  }

  function After(j: Journal, event: Event): Journal {
    match event
    case Circumstance(clock) => j.(clock := clock)
    case SocketClosed(connectionId, handoff) => j.(clock := CloseSocket(j.clock, connectionId, handoff).0)
    case Sent(connectionId, batch) =>
      var (next, r) := Accept(j.clock, connectionId, batch);
      Journal(next, Logged(j.log, r))
  }

  function Play(c: Clock, events: seq<Event>): Journal
    decreases |events|
  {
    if events == [] then Journal(c, []) else After(Play(c, events[..|events| - 1]), events[|events| - 1])
  }

  /** Decoded batches carry at least one payload; a closing that starts the room over ends the run. */
  predicate LawfulEvent(c: Clock, event: Event) {
    match event
    case Sent(_, batch) => batch.payloads != []
    case SocketClosed(connectionId, handoff) => !EndsSession(c, connectionId, handoff)
    case Circumstance(clock) => SameSession(c, clock)
  }

  predicate Lawful(c: Clock, events: seq<Event>)
    decreases |events|
  {
    events == [] ||
    (&& Lawful(c, events[..|events| - 1])
     && LawfulEvent(Play(c, events[..|events| - 1]).clock, events[|events| - 1]))
  }

  /** The payloads of one player that went out, in order. */
  function Delivered(log: seq<Batch>, p: PlayerIndex): seq<Payload>
    decreases |log|
  {
    if log == [] then []
    else
      var last := log[|log| - 1];
      Delivered(log[..|log| - 1], p) + (if last.playerIndex == p then last.payloads else [])
  }

  /** Every batch of the player picks up at the frame where the payloads before it stopped. */
  predicate Tiles(log: seq<Batch>, p: PlayerIndex, start: U64) {
    forall k :: 0 <= k < |log| && log[k].playerIndex == p ==>
      log[k].startFrame == start + |Delivered(log[..k], p)|
  }

  /** One unbroken row of frames from the start frame up to the cursor, each frame once. */
  predicate Contiguous(j: Journal, p: PlayerIndex) {
    && CursorOf(j.clock, p) == j.clock.syncStartFrame + |Delivered(j.log, p)|
    && Tiles(j.log, p, j.clock.syncStartFrame)
  }

  lemma LogGrows(log: seq<Batch>, batch: Batch, p: PlayerIndex, start: U64)
    requires Tiles(log, p, start)
    requires batch.playerIndex == p ==> batch.startFrame == start + |Delivered(log, p)|
    ensures Delivered(log + [batch], p) == Delivered(log, p) + (if batch.playerIndex == p then batch.payloads else [])
    ensures Tiles(log + [batch], p, start)
  {
    var longer := log + [batch];
    assert longer[..|log|] == log;
    forall k | 0 <= k < |longer| && longer[k].playerIndex == p
      ensures longer[k].startFrame == start + |Delivered(longer[..k], p)|
    {
      if k < |log| {
        assert longer[..k] == log[..k] && longer[k] == log[k];
      }
    }
  }

  /** The end of a batch, from some frame on. */
  predicate RestOf(rest: Batch, batch: Batch) {
    && rest.playerIndex == batch.playerIndex && batch.startFrame <= rest.startFrame
    && rest.startFrame + |rest.payloads| == batch.startFrame + |batch.payloads|
    && (forall i :: 0 <= i < |rest.payloads| ==>
          rest.payloads[i] == batch.payloads[rest.startFrame - batch.startFrame + i])
  }

  lemma SuffixIsRest(batch: Batch, expected: U64)
    requires batch.payloads != [] && batch.startFrame <= expected <= EndFrame(batch)
    ensures RestOf(Suffix(batch, expected), batch)
  {
  }

  /** An accepted batch is the rest of the sent one from the cursor on, and moves the cursor past it. */
  lemma AcceptanceTakesTheRest(c: Clock, connectionId: ConnectionId, batch: Batch)
    requires batch.payloads != []
    ensures var (next, r) := Accept(c, connectionId, batch);
            && next.syncStartFrame == c.syncStartFrame
            && (forall q :: q != batch.playerIndex ==> CursorOf(next, q) == CursorOf(c, q))
            && (if r.Ok? && r.value.accepted.Some? then
                  && var a := r.value.accepted.value;
                  && RestOf(a, batch) && a.startFrame == CursorOf(c, batch.playerIndex)
                  && CursorOf(next, batch.playerIndex) == a.startFrame + |a.payloads|
                else next == c)
  {
    var expected := CursorOf(c, batch.playerIndex);
    if batch.startFrame <= expected <= EndFrame(batch) {
      SuffixIsRest(batch, expected);
    }
  }

  // Segments: what a player's cursor stands for

  /** The payloads an event sends out for a player. */
  function NewPayloads(c: Clock, event: Event, p: PlayerIndex): seq<Payload> {
    if !event.Sent? then []
    else
      var r := Accept(c, event.connectionId, event.batch).1;
      if r.Ok? && r.value.accepted.Some? && event.batch.playerIndex == p then r.value.accepted.value.payloads else []
  }

  function SegmentAfter(j: Journal, event: Event, segment: seq<Payload>, p: PlayerIndex): seq<Payload> {
    if Drops(j.clock, After(j, event).clock, p) then [] else segment + NewPayloads(j.clock, event, p)
  }

  /** What went out for a player since the player's cursor was last dropped. */
  function Segment(c: Clock, events: seq<Event>, p: PlayerIndex): seq<Payload>
    decreases |events|
  {
    if events == [] then []
    else
      var front := events[..|events| - 1];
      SegmentAfter(Play(c, front), events[|events| - 1], Segment(c, front, p), p)
  }

  /** At some point of the run the player's cursor was dropped after it had moved. */
  predicate CursorDropped(c: Clock, events: seq<Event>, p: PlayerIndex)
    decreases |events|
  {
    events != [] &&
    (|| CursorDropped(c, events[..|events| - 1], p)
     || Drops(Play(c, events[..|events| - 1]).clock, Play(c, events).clock, p))
  }

  /** The cursor counts the segment from the start frame. */
  predicate Follows(j: Journal, segment: seq<Payload>, p: PlayerIndex) {
    && CursorOf(j.clock, p) == j.clock.syncStartFrame + |segment|
    && (p in j.clock.nextInputFrames <==> segment != [])
  }

  lemma QuietKeepsFollowing(j: Journal, event: Event, segment: seq<Payload>, p: PlayerIndex)
    requires Follows(j, segment, p) && LawfulEvent(j.clock, event) && !event.Sent?
    ensures Follows(After(j, event), SegmentAfter(j, event, segment, p), p)
    ensures After(j, event).clock.syncStartFrame == j.clock.syncStartFrame
  {
    if event.SocketClosed? {
      ClosingDropsExactlyWhen(j.clock, event.connectionId, event.handoff, p);
      ClosingKeepsRest(j.clock, event.connectionId, event.handoff);
    }
    assert segment + NewPayloads(j.clock, event, p) == segment;
  }

  lemma SentKeepsFollowing(j: Journal, event: Event, segment: seq<Payload>, p: PlayerIndex)
    requires Follows(j, segment, p) && LawfulEvent(j.clock, event) && event.Sent?
    ensures Follows(After(j, event), SegmentAfter(j, event, segment, p), p)
    ensures After(j, event).clock.syncStartFrame == j.clock.syncStartFrame
  {
    AcceptanceTakesTheRest(j.clock, event.connectionId, event.batch);
    AcceptanceDropsNothing(j.clock, event.connectionId, event.batch, p);
  }

  lemma AcceptanceDropsNothing(c: Clock, connectionId: ConnectionId, batch: Batch, p: PlayerIndex)
    requires batch.payloads != []
    ensures var (next, r) := Accept(c, connectionId, batch);
            && (p in next.nextInputFrames
                <==> p in c.nextInputFrames || (r.Ok? && r.value.accepted.Some? && batch.playerIndex == p))
            && (r.Ok? && r.value.accepted.Some? ==> r.value.accepted.value.payloads != [])
  {
  }

  /** In every run, with sockets closing and coming back, a player's cursor stands where the payloads sent
      out since it was last dropped end. */
  lemma {:induction false} CursorFollowsSegment(c: Clock, events: seq<Event>, p: PlayerIndex)
    requires c.nextInputFrames == map[] && Lawful(c, events)
    ensures Follows(Play(c, events), Segment(c, events, p), p)
    ensures Play(c, events).clock.syncStartFrame == c.syncStartFrame
    decreases |events|
  {
    if events != [] {
      var front, last := events[..|events| - 1], events[|events| - 1];
      CursorFollowsSegment(c, front, p);
      if last.Sent? {
        SentKeepsFollowing(Play(c, front), last, Segment(c, front, p), p);
      } else {
        QuietKeepsFollowing(Play(c, front), last, Segment(c, front, p), p);
      }
    }
  }

  lemma EventDelivers(j: Journal, event: Event, p: PlayerIndex)
    requires LawfulEvent(j.clock, event)
    ensures Delivered(After(j, event).log, p) == Delivered(j.log, p) + NewPayloads(j.clock, event, p)
  {
    if event.Sent? {
      var r := Accept(j.clock, event.connectionId, event.batch).1;
      if r.Ok? && r.value.accepted.Some? {
        var accepted := r.value.accepted.value;
        AcceptanceTakesTheRest(j.clock, event.connectionId, event.batch);
        assert (j.log + [accepted])[..|j.log|] == j.log;
      }
    }
  }

  /** The segment is the end of the delivery, and all of it exactly as long as no cursor was dropped. */
  lemma {:induction false} SegmentEndsDelivery(c: Clock, events: seq<Event>, p: PlayerIndex)
    requires c.nextInputFrames == map[] && Lawful(c, events)
    ensures var delivered, segment := Delivered(Play(c, events).log, p), Segment(c, events, p);
            && |segment| <= |delivered| && (|segment| == |delivered| <==> !CursorDropped(c, events, p))
            && (!CursorDropped(c, events, p) ==> segment == delivered)
    decreases |events|
  {
    if events != [] {
      var front, last := events[..|events| - 1], events[|events| - 1];
      SegmentEndsDelivery(c, front, p);
      CursorFollowsSegment(c, front, p);
      EventDelivers(Play(c, front), last, p);
      assert Play(c, events) == After(Play(c, front), last);
    }
  }

  lemma {:induction false} UndroppedTiles(c: Clock, events: seq<Event>, p: PlayerIndex)
    requires c.nextInputFrames == map[] && Lawful(c, events) && !CursorDropped(c, events, p)
    ensures Tiles(Play(c, events).log, p, c.syncStartFrame)
    decreases |events|
  {
    if events != [] {
      var front, last := events[..|events| - 1], events[|events| - 1];
      UndroppedTiles(c, front, p);
      CursorFollowsSegment(c, front, p);
      SegmentEndsDelivery(c, front, p);
      if last.Sent? {
        var r := Accept(Play(c, front).clock, last.connectionId, last.batch).1;
        if r.Ok? && r.value.accepted.Some? {
          AcceptanceTakesTheRest(Play(c, front).clock, last.connectionId, last.batch);
          LogGrows(Play(c, front).log, r.value.accepted.value, p, c.syncStartFrame);
        }
      }
    }
  }

  /** Whatever is sent, in whatever order and however often: what goes out for a player is contiguous
      exactly when the player's cursor is never dropped after it has moved. */
  lemma ContiguousExactlyWhen(c: Clock, events: seq<Event>, p: PlayerIndex)
    requires c.nextInputFrames == map[] && Lawful(c, events)
    ensures Contiguous(Play(c, events), p) <==> !CursorDropped(c, events, p)
  {
    CursorFollowsSegment(c, events, p);
    SegmentEndsDelivery(c, events, p);
    if !CursorDropped(c, events, p) {
      UndroppedTiles(c, events, p);
    }
  }

  // A player's own stream arrives intact

  /** A batch cut from the player's stream, whose first payload belongs to the start frame; frames before
      that are free. */
  predicate CutFrom(batch: Batch, stream: seq<Payload>, start: U64) {
    forall i :: 0 <= i < |batch.payloads| && start <= batch.startFrame + i ==>
      batch.startFrame + i - start < |stream| && batch.payloads[i] == stream[batch.startFrame + i - start]
  }

  predicate Honest(events: seq<Event>, p: PlayerIndex, stream: seq<Payload>, start: U64) {
    forall k :: 0 <= k < |events| && events[k].Sent? && events[k].batch.playerIndex == p ==>
      CutFrom(events[k].batch, stream, start)
  }

  predicate IsPrefix(s: seq<Payload>, stream: seq<Payload>) {
    |s| <= |stream| && forall i :: 0 <= i < |s| ==> s[i] == stream[i]
  }

  lemma RestMatches(s: seq<Payload>, batch: Batch, rest: Batch, stream: seq<Payload>, start: U64, i: nat)
    requires CutFrom(batch, stream, start) && RestOf(rest, batch) && rest.startFrame == start + |s|
    requires |s| <= i < |s| + |rest.payloads|
    ensures i < |stream| && rest.payloads[i - |s|] == stream[i]
  {
    var k := start + i - batch.startFrame;
    assert rest.payloads[i - |s|] == batch.payloads[k];
    assert start <= batch.startFrame + k;
  }

  lemma RestExtendsPrefix(s: seq<Payload>, batch: Batch, rest: Batch, stream: seq<Payload>, start: U64)
    requires IsPrefix(s, stream) && CutFrom(batch, stream, start)
    requires RestOf(rest, batch) && rest.startFrame == start + |s|
    ensures IsPrefix(s + rest.payloads, stream)
  {
    forall i | |s| <= i < |s| + |rest.payloads| ensures i < |stream| && rest.payloads[i - |s|] == stream[i] {
      RestMatches(s, batch, rest, stream, start, i);
    }
    if rest.payloads != [] {
      RestMatches(s, batch, rest, stream, start, |s| + |rest.payloads| - 1);
    }
  }

  lemma HonestNewPayloads(j: Journal, event: Event, segment: seq<Payload>, p: PlayerIndex, stream: seq<Payload>)
    requires Follows(j, segment, p) && LawfulEvent(j.clock, event) && IsPrefix(segment, stream)
    requires event.Sent? && event.batch.playerIndex == p ==> CutFrom(event.batch, stream, j.clock.syncStartFrame)
    ensures IsPrefix(segment + NewPayloads(j.clock, event, p), stream)
  {
    if event.Sent? && event.batch.playerIndex == p {
      AcceptanceTakesTheRest(j.clock, event.connectionId, event.batch);
      var r := Accept(j.clock, event.connectionId, event.batch).1;
      if r.Ok? && r.value.accepted.Some? {
        RestExtendsPrefix(segment, event.batch, r.value.accepted.value, stream, j.clock.syncStartFrame);
      }
    }
    assert NewPayloads(j.clock, event, p) == [] ==> segment + NewPayloads(j.clock, event, p) == segment;
  }

  /** Lost, repeated, reordered and overlapping batches of one stream, with sockets closing and coming back:
      since the cursor was last dropped, what went out is a prefix of the stream. */
  lemma {:induction false} SegmentIsAPrefix(c: Clock, events: seq<Event>, p: PlayerIndex, stream: seq<Payload>)
    requires c.nextInputFrames == map[] && Lawful(c, events) && Honest(events, p, stream, c.syncStartFrame)
    ensures IsPrefix(Segment(c, events, p), stream)
    decreases |events|
  {
    if events != [] {
      var front, last := events[..|events| - 1], events[|events| - 1];
      assert forall k :: 0 <= k < |front| ==> front[k] == events[k];
      SegmentIsAPrefix(c, front, p, stream);
      CursorFollowsSegment(c, front, p);
      HonestNewPayloads(Play(c, front), last, Segment(c, front, p), p, stream);
    }
  }

  /** Something went out for the player after the player's cursor had been dropped. */
  predicate Redelivered(c: Clock, events: seq<Event>, p: PlayerIndex)
    decreases |events|
  {
    events != [] &&
    (|| Redelivered(c, events[..|events| - 1], p)
     || (&& CursorDropped(c, events[..|events| - 1], p)
         && NewPayloads(Play(c, events[..|events| - 1]).clock, events[|events| - 1], p) != []))
  }

  /** As long as nothing goes out after a drop, the whole delivery is a prefix of the stream. */
  lemma {:induction false} DeliveryIsAPrefix(c: Clock, events: seq<Event>, p: PlayerIndex, stream: seq<Payload>)
    requires c.nextInputFrames == map[] && Lawful(c, events) && Honest(events, p, stream, c.syncStartFrame)
    requires !Redelivered(c, events, p)
    ensures IsPrefix(Delivered(Play(c, events).log, p), stream)
    decreases |events|
  {
    if events != [] {
      var front, last := events[..|events| - 1], events[|events| - 1];
      assert forall k :: 0 <= k < |front| ==> front[k] == events[k];
      DeliveryIsAPrefix(c, front, p, stream);
      EventDelivers(Play(c, front), last, p);
      if NewPayloads(Play(c, front).clock, last, p) != [] {
        CursorFollowsSegment(c, front, p);
        SegmentEndsDelivery(c, front, p);
        HonestNewPayloads(Play(c, front), last, Segment(c, front, p), p, stream);
      } else {
        assert Delivered(Play(c, front).log, p) + [] == Delivered(Play(c, front).log, p);
      }
    }
  }

  /** The first payload of the stream shows up again further on. */
  predicate FirstRepeats(delivered: seq<Payload>, stream: seq<Payload>) {
    exists i :: 0 < i < |delivered| && stream != [] && delivered[i] == stream[0]
  }

  lemma FirstAfterDrop(c: Clock, events: seq<Event>, p: PlayerIndex, stream: seq<Payload>)
    requires c.nextInputFrames == map[] && Lawful(c, events) && Honest(events, p, stream, c.syncStartFrame)
    requires CursorDropped(c, events, p) && Segment(c, events, p) != []
    requires IsTail(Segment(c, events, p), Delivered(Play(c, events).log, p))
    ensures FirstRepeats(Delivered(Play(c, events).log, p), stream)
  {
    SegmentIsAPrefix(c, events, p, stream);
    SegmentEndsDelivery(c, events, p);
    var delivered, segment := Delivered(Play(c, events).log, p), Segment(c, events, p);
    var i := |delivered| - |segment|;
    assert delivered[i] == delivered[i..][0] == segment[0] == stream[0];
  }

  predicate IsTail(tail: seq<Payload>, s: seq<Payload>) {
    |tail| <= |s| && s[|s| - |tail|..] == tail
  }

  lemma TailGrows(s: seq<Payload>, tail: seq<Payload>, more: seq<Payload>)
    requires IsTail(tail, s)
    ensures IsTail(tail + more, s + more)
  {
    assert s == s[..|s| - |tail|] + tail;
    assert (s + more)[|s| - |tail|..] == tail + more;
  }

  lemma EventKeepsTail(j: Journal, event: Event, segment: seq<Payload>, p: PlayerIndex)
    requires LawfulEvent(j.clock, event) && IsTail(segment, Delivered(j.log, p))
    ensures IsTail(SegmentAfter(j, event, segment, p), Delivered(After(j, event).log, p))
  {
    EventDelivers(j, event, p);
    TailGrows(Delivered(j.log, p), segment, NewPayloads(j.clock, event, p));
  }

  lemma {:induction false} SegmentIsTail(c: Clock, events: seq<Event>, p: PlayerIndex)
    requires c.nextInputFrames == map[] && Lawful(c, events)
    ensures IsTail(Segment(c, events, p), Delivered(Play(c, events).log, p))
    decreases |events|
  {
    if events != [] {
      var front := events[..|events| - 1];
      SegmentIsTail(c, front, p);
      EventKeepsTail(Play(c, front), events[|events| - 1], Segment(c, front, p), p);
    }
  }

  lemma {:induction false} RedeliveryRepeats(c: Clock, events: seq<Event>, p: PlayerIndex, stream: seq<Payload>)
    requires c.nextInputFrames == map[] && Lawful(c, events) && Honest(events, p, stream, c.syncStartFrame)
    requires Redelivered(c, events, p)
    ensures FirstRepeats(Delivered(Play(c, events).log, p), stream)
    decreases |events|
  {
    var front, last := events[..|events| - 1], events[|events| - 1];
    assert forall k :: 0 <= k < |front| ==> front[k] == events[k];
    EventDelivers(Play(c, front), last, p);
    if Redelivered(c, front, p) {
      RedeliveryRepeats(c, front, p, stream);
      var delivered := Delivered(Play(c, front).log, p);
      var i :| 0 < i < |delivered| && stream != [] && delivered[i] == stream[0];
      assert Delivered(Play(c, events).log, p)[i] == delivered[i];
    } else {
      DeliveringDropsNothing(Play(c, front), last, p);
      SegmentIsTail(c, events, p);
      FirstAfterDrop(c, events, p, stream);
    }
  }

  lemma DeliveringDropsNothing(j: Journal, event: Event, p: PlayerIndex)
    requires LawfulEvent(j.clock, event) && NewPayloads(j.clock, event, p) != []
    ensures !Drops(j.clock, After(j, event).clock, p)
  {
  }

  predicate Distinct(stream: seq<Payload>) {
    forall i, k :: 0 <= i < k < |stream| ==> stream[i] != stream[k]
  }

  /** For a stream without repeats the delivery is a prefix of it exactly when nothing goes out after a drop. */
  lemma PrefixExactlyWhen(c: Clock, events: seq<Event>, p: PlayerIndex, stream: seq<Payload>)
    requires c.nextInputFrames == map[] && Lawful(c, events) && Honest(events, p, stream, c.syncStartFrame)
    requires Distinct(stream)
    ensures IsPrefix(Delivered(Play(c, events).log, p), stream) <==> !Redelivered(c, events, p)
  {
    if Redelivered(c, events, p) {
      RedeliveryRepeats(c, events, p, stream);
      var delivered := Delivered(Play(c, events).log, p);
      var i :| 0 < i < |delivered| && stream != [] && delivered[i] == stream[0];
      assert i < |stream| ==> stream[i] != stream[0];
    } else {
      DeliveryIsAPrefix(c, events, p, stream);
    }
  }

  // Answers and progress

  /** Input is taken while the room syncs its state, is ready, has a start scheduled, plays or is paused, and
      under a coordinated pause up to its frame plus the input delay. */
  predicate OpenFor(c: Clock, frame: nat) {
    && (|| c.status == SyncingState || c.status == RoomReady || c.status == StartScheduled
        || c.status == RoomPlaying || c.status == RoomPaused)
    && (c.pauseAtFrame.Some? ==> frame <= c.pauseAtFrame.value + c.inputDelayFrames)
  }

  /** The guards a sender can check: its own current-epoch batch, in a room open for it, at most 96 frames ahead. */
  predicate Admissible(c: Clock, connectionId: ConnectionId, batch: Batch) {
    && c.strict && OwnerOf(c, connectionId) == Some(batch.playerIndex)
    && batch.roomEpoch == c.roomEpoch && batch.sessionEpoch == c.sessionEpoch
    && EndFrame(batch) <= c.nextReleaseFrame + 96 && EndFrame(batch) < U64_MAX && OpenFor(c, EndFrame(batch))
  }

  /** Every answer: the sender is checked first, then the epochs, the state of the room, a gap and the window; a
      batch below the cursor is acknowledged again, and any other moves the cursor past its last frame. */
  lemma AnswersExactly(c: Clock, connectionId: ConnectionId, batch: Batch)
    requires batch.payloads != []
    ensures var (d, r) := Accept(c, connectionId, batch);
            var p, cursor, end := batch.playerIndex, CursorOf(c, batch.playerIndex), EndFrame(batch);
            var ack := (next: U64) => Ack(c.roomEpoch, c.sessionEpoch, p, next);
            var nack := (frame: U64, reason: NackReason) =>
              Ok(Outcome(Nack(c.roomEpoch, c.sessionEpoch, p, cursor, frame, reason), None, 0));
            && end == batch.startFrame + |batch.payloads| - 1
            && (d != c ==> d == c.(lastInputFrames := c.lastInputFrames[p := end],
                                   nextInputFrames := c.nextInputFrames[p := end + 1]))
            && (d != c ==> r.Ok? && r.value.accepted.Some?)
            && r == if !c.strict then Err(InvalidPayload)
                    else if OwnerOf(c, connectionId).None? then Err(UnknownSocket)
                    else if OwnerOf(c, connectionId) != Some(p) then Err(SlotSpoofing(p))
                    else if batch.roomEpoch != c.roomEpoch || batch.sessionEpoch != c.sessionEpoch
                    then nack(batch.startFrame, SessionState)
                    else if end > U64_MAX then Err(InvalidPayload)
                    else if !OpenFor(c, end) then nack(end, SessionState)
                    else if batch.startFrame > cursor then nack(batch.startFrame, InputGap)
                    else if end > c.nextReleaseFrame + 96
                    then nack(Min(c.nextReleaseFrame + 97, U64_MAX), FutureFrameTooLarge)
                    else if end < cursor then Ok(Outcome(ack(cursor), None, |batch.payloads|))
                    else if end == U64_MAX then Err(InvalidPayload)
                    else Ok(Outcome(ack(end + 1),
                                    Some(Batch(c.roomEpoch, c.sessionEpoch, p, cursor,
                                               batch.payloads[cursor - batch.startFrame..])),
                                    cursor - batch.startFrame))
  {
  }

  /** New payloads go out exactly when an admissible batch reaches over the cursor without a gap before it. */
  lemma DeliversExactlyWhen(c: Clock, connectionId: ConnectionId, batch: Batch)
    ensures var r := Accept(c, connectionId, batch).1;
            (r.Ok? && r.value.accepted.Some?)
            <==> && Admissible(c, connectionId, batch)
                 && batch.startFrame <= CursorOf(c, batch.playerIndex) <= EndFrame(batch)
  {
  }

  function CursorIn(response: Response): U64 {
    if response.Ack? then response.nextExpectedFrame else response.expectedFrame
  }

  lemma SentIsAnswered(j: Journal, event: Event, segment: seq<Payload>)
    requires event.Sent? && LawfulEvent(j.clock, event) && Follows(j, segment, event.batch.playerIndex)
    ensures var r := Accept(j.clock, event.connectionId, event.batch).1;
            r.Ok? ==> CursorIn(r.value.response)
                      == j.clock.syncStartFrame + |SegmentAfter(j, event, segment, event.batch.playerIndex)|
  {
    SentKeepsFollowing(j, event, segment, event.batch.playerIndex);
  }

  lemma NextBatchIsAccepted(c: Clock, connectionId: ConnectionId, batch: Batch)
    requires Admissible(c, connectionId, batch) && batch.startFrame == CursorOf(c, batch.playerIndex)
    ensures var r := Accept(c, connectionId, batch).1; r.Ok? && r.value.accepted == Some(batch)
  {
    assert Suffix(batch, batch.startFrame).payloads == batch.payloads;
  }

  lemma NextBatchIsDelivered(j: Journal, connectionId: ConnectionId, batch: Batch)
    requires batch.payloads != [] && Admissible(j.clock, connectionId, batch)
    requires batch.startFrame == CursorOf(j.clock, batch.playerIndex)
    ensures Delivered(After(j, Sent(connectionId, batch)).log, batch.playerIndex)
         == Delivered(j.log, batch.playerIndex) + batch.payloads
  {
    NextBatchIsAccepted(j.clock, connectionId, batch);
    EventDelivers(j, Sent(connectionId, batch), batch.playerIndex);
  }

  /** Over any run, every answer, positive or not, names the frame after the payloads that went out since the
      cursor was last dropped, and so after all that went out exactly when it never was; and an admissible
      batch sent from that frame is delivered whole. */
  lemma AnswersNameTheCursor(c: Clock, events: seq<Event>, connectionId: ConnectionId, batch: Batch)
    requires c.nextInputFrames == map[] && Lawful(c, events) && batch.payloads != []
    ensures var j, p := Play(c, events), batch.playerIndex;
            var after := events + [Sent(connectionId, batch)];
            var r := Accept(j.clock, connectionId, batch).1;
            && (r.Ok? ==>
                  && CursorIn(r.value.response) == c.syncStartFrame + |Segment(c, after, p)|
                  && (CursorIn(r.value.response) == c.syncStartFrame + |Delivered(Play(c, after).log, p)|
                      <==> !CursorDropped(c, after, p)))
            && (Admissible(j.clock, connectionId, batch)
                && batch.startFrame == c.syncStartFrame + |Segment(c, events, p)| ==>
                  Delivered(Play(c, after).log, p) == Delivered(j.log, p) + batch.payloads)
  {
    var j, p, sent := Play(c, events), batch.playerIndex, Sent(connectionId, batch);
    var after := events + [sent];
    assert after[..|events|] == events;
    CursorFollowsSegment(c, events, p);
    SentIsAnswered(j, sent, Segment(c, events, p));
    SegmentEndsDelivery(c, after, p);
    if Admissible(j.clock, connectionId, batch) && batch.startFrame == c.syncStartFrame + |Segment(c, events, p)| {
      NextBatchIsDelivered(j, connectionId, batch);
    }
  }

  // A socket that closes before play

  lemma PlayNext(c: Clock, events: seq<Event>, event: Event)
    ensures Play(c, events + [event]) == After(Play(c, events), event)
    ensures Lawful(c, events + [event]) <==> Lawful(c, events) && LawfulEvent(Play(c, events).clock, event)
  {
    assert (events + [event])[..|events|] == events;
  }

  /** The seat with a new socket. */
  function Reattached(c: Clock, k: nat, connectionId: ConnectionId): Clock
    requires k < |c.players|
  {
    c.(players := c.players[k := c.players[k].(inputConnectionId := Some(connectionId))])
  }

  /** The state after a player's first batch and the closing of the player's socket. */
  lemma DeliveredThenClosed(c: Clock, k: nat, batch: Batch)
    requires c.nextInputFrames == map[] && !Recoverable(c.status) && batch.payloads != []
    requires SeatsValid(c.players) && k < |c.players| && c.players[k].inputConnectionId.Some?
    requires batch.playerIndex == c.players[k].playerIndex && batch.startFrame == c.syncStartFrame
    requires Admissible(c, c.players[k].inputConnectionId.value, batch)
    ensures var socket := c.players[k].inputConnectionId.value;
            var one := After(Journal(c, []), Sent(socket, batch));
            var two := After(one, SocketClosed(socket, false));
            && LawfulEvent(one.clock, SocketClosed(socket, false)) && Drops(one.clock, two.clock, batch.playerIndex)
            && one.log == two.log == [batch]
            && two.clock == c.(players := c.players[k := c.players[k].(inputConnectionId := None)],
                               lastInputFrames := two.clock.lastInputFrames, nextInputFrames := map[])
  {
    var socket := c.players[k].inputConnectionId.value;
    HolderSpeaks(c, k);
    NextBatchIsAccepted(c, socket, batch);
    assert [] + [batch] == [batch];
  }

  lemma AgainIsAdmissible(c: Clock, k: nat, again: ConnectionId, batch: Batch, d: Clock)
    requires k < |c.players| && SeatHolding(c.players, again) == |c.players|
    requires c.players[k].inputConnectionId.Some? && batch.playerIndex == c.players[k].playerIndex
    requires Admissible(c, c.players[k].inputConnectionId.value, batch)
    requires d == c.(players := d.players, lastInputFrames := d.lastInputFrames, nextInputFrames := d.nextInputFrames)
    requires d.players == c.players[k := c.players[k].(inputConnectionId := Some(again))]
    ensures Admissible(d, again, batch)
  {
    assert forall j :: 0 <= j < k ==> d.players[j] == c.players[j];
    assert d.players[k].inputConnectionId == Some(again);
  }

  /** While a room is syncing or ready, the first batch of a player is delivered, the player's socket closes,
      and the player comes back on another socket and does what the answers ask for: the same batch is
      delivered again. */
  lemma ResendIsDeliveredTwice(c: Clock, k: nat, again: ConnectionId, batch: Batch) returns (events: seq<Event>)
    requires c.nextInputFrames == map[] && !Recoverable(c.status) && batch.payloads != []
    requires SeatsValid(c.players) && k < |c.players| && c.players[k].inputConnectionId.Some?
    requires SeatHolding(c.players, again) == |c.players|
    requires batch.playerIndex == c.players[k].playerIndex && batch.startFrame == c.syncStartFrame
    requires Admissible(c, c.players[k].inputConnectionId.value, batch)
    ensures Lawful(c, events) && CursorDropped(c, events, batch.playerIndex)
    ensures Delivered(Play(c, events).log, batch.playerIndex) == batch.payloads + batch.payloads
    ensures forall i :: 0 <= i < |events| && events[i].Sent? ==> events[i].batch == batch
  {
    var socket := c.players[k].inputConnectionId.value;
    var first := [Sent(socket, batch)] + [SocketClosed(socket, false)];
    DeliveredThenClosed(c, k, batch);
    PlayNext(c, [], Sent(socket, batch));
    assert [] + [Sent(socket, batch)] == [Sent(socket, batch)];
    PlayNext(c, [Sent(socket, batch)], SocketClosed(socket, false));
    var two := Play(c, first);
    assert CursorDropped(c, first, batch.playerIndex) by {
      assert first[..1] == [Sent(socket, batch)];
    }
    assert Delivered(two.log, batch.playerIndex) == batch.payloads by {
      assert [batch][..0] == [];
    }
    var rest := ComesBackAndResends(c, first, k, again, batch);
    events := first + rest;
  }

  lemma ReattachedDelivers(c: Clock, j: Journal, k: nat, again: ConnectionId, batch: Batch)
    requires k < |c.players| && SeatHolding(c.players, again) == |c.players| && batch.payloads != []
    requires c.players[k].inputConnectionId.Some? && batch.playerIndex == c.players[k].playerIndex
    requires Admissible(c, c.players[k].inputConnectionId.value, batch) && batch.startFrame == c.syncStartFrame
    requires j.clock == c.(players := c.players[k := c.players[k].(inputConnectionId := None)],
                           lastInputFrames := j.clock.lastInputFrames, nextInputFrames := map[])
    ensures var back := Circumstance(Reattached(j.clock, k, again));
            && LawfulEvent(j.clock, back)
            && Delivered(After(After(j, back), Sent(again, batch)).log, batch.playerIndex)
               == Delivered(j.log, batch.playerIndex) + batch.payloads
  {
    var three := After(j, Circumstance(Reattached(j.clock, k, again)));
    assert three.clock.players == c.players[k := c.players[k].(inputConnectionId := Some(again))];
    AgainIsAdmissible(c, k, again, batch, three.clock);
    NextBatchIsDelivered(three, again, batch);
  }

  lemma DroppedStays(c: Clock, events: seq<Event>, event: Event, p: PlayerIndex)
    requires CursorDropped(c, events, p)
    ensures CursorDropped(c, events + [event], p)
  {
    assert (events + [event])[..|events|] == events;
  }

  lemma TwoMore(c: Clock, first: seq<Event>, a: Event, b: Event, p: PlayerIndex)
    requires Lawful(c, first) && CursorDropped(c, first, p)
    requires LawfulEvent(Play(c, first).clock, a) && LawfulEvent(After(Play(c, first), a).clock, b)
    ensures Play(c, first + ([a] + [b])) == After(After(Play(c, first), a), b)
    ensures Lawful(c, first + ([a] + [b])) && CursorDropped(c, first + ([a] + [b]), p)
  {
    PlayNext(c, first, a);
    PlayNext(c, first + [a], b);
    DroppedStays(c, first, a, p);
    DroppedStays(c, first + [a], b, p);
    assert first + ([a] + [b]) == first + [a] + [b];
  }

  lemma ComesBackAndResends(c: Clock, first: seq<Event>, k: nat, again: ConnectionId, batch: Batch)
    returns (rest: seq<Event>)
    requires Lawful(c, first) && CursorDropped(c, first, batch.playerIndex) && batch.payloads != []
    requires k < |c.players| && SeatHolding(c.players, again) == |c.players|
    requires c.players[k].inputConnectionId.Some? && batch.playerIndex == c.players[k].playerIndex
    requires Admissible(c, c.players[k].inputConnectionId.value, batch) && batch.startFrame == c.syncStartFrame
    requires var d := Play(c, first).clock;
             d == c.(players := c.players[k := c.players[k].(inputConnectionId := None)],
                     lastInputFrames := d.lastInputFrames, nextInputFrames := map[])
    ensures Lawful(c, first + rest) && CursorDropped(c, first + rest, batch.playerIndex)
    ensures Delivered(Play(c, first + rest).log, batch.playerIndex)
         == Delivered(Play(c, first).log, batch.playerIndex) + batch.payloads
    ensures forall i :: 0 <= i < |rest| && rest[i].Sent? ==> rest[i].batch == batch
  {
    var back := Circumstance(Reattached(Play(c, first).clock, k, again));
    ReattachedDelivers(c, Play(c, first), k, again, batch);
    TwoMore(c, first, back, Sent(again, batch), batch.playerIndex);
    rest := [back] + [Sent(again, batch)];
  }

  /** A protocol-5 room syncing its state, with both players on their input sockets. */
  function SyncingRoom(): Clock {
    var players := [Seat(0, Host, true, Some(0), Syncing, RuntimeSyncing),
                    Seat(1, Guest, true, Some(1), Syncing, RuntimeSyncing)];
    Clock(true, SyncingState, players, None, None, 3, None, 1, 1, 0, 0, None, 0, map[], map[])
  }

  /** The host's first input goes out twice. */
  lemma HostInputGoesOutTwice() returns (events: seq<Event>)
    ensures Lawful(SyncingRoom(), events)
    ensures Delivered(Play(SyncingRoom(), events).log, 0) == [[7], [7]]
    ensures !Contiguous(Play(SyncingRoom(), events), 0)
  {
    var c, batch := SyncingRoom(), Batch(1, 1, 0, 0, [[7]]);
    HolderSpeaks(c, 0);
    events := ResendIsDeliveredTwice(c, 0, 2, batch);
    assert [[7]] + [[7]] == [[7 as byte], [7]];
    ContiguousExactlyWhen(c, events, 0);
  }
}
