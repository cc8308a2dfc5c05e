/** Both binary input lanes of a protocol-4 room at once: batches and fast records move
    the same input cursors, and leave through buffers of their own. */
module RelayLanes {
  import opened Prelude
  import opened RoomTypes
  import opened BigEndian
  import opened FrameClock
  import opened InputSockets
  import opened RelayBuffers
  import opened RelayPipeline
  import opened RelayCursors
  import opened RelaySessions
  import Sbi1 = InputBatchCodec
  import Sbi2 = FastInputCodec

  type Record = Sbi2.FastInputFrame
  type BufferedRecord = Buffered<Record>

  // Admission of fast records

  /** All that a cursor sees of a record. */
  function AsInput(r: Record): InputFrame {
    Sbi1.InputFrame(r.record.playerIndex, r.record.frame, [])
  }

  function AsInputs(records: seq<Record>): (r: seq<InputFrame>)
    ensures |r| == |records|
    ensures forall i :: 0 <= i < |r| ==> r[i] == AsInput(records[i])
  {
    seq(|records|, i requires 0 <= i < |records| => AsInput(records[i]))
  }

  /** The records that a message gets admitted. */
  function Chosen(c: Clock, stage: Stage, owner: byte, records: seq<Record>): seq<Record>
    decreases |records|
  {
    if records == [] then []
    else
      var front, last := records[..|records| - 1], records[|records| - 1];
      var sofar := AdmitAll(c, stage, owner, AsInputs(front));
      if sofar.Ok? && AdmitOne(c, sofar.value.stage, owner, AsInput(last)).Ok?
         && AdmitOne(c, sofar.value.stage, owner, AsInput(last)).value.1
      then Chosen(c, stage, owner, front) + [last] else Chosen(c, stage, owner, front)
  }

  lemma {:induction false} ChosenAreAdmitted(c: Clock, stage: Stage, owner: byte, records: seq<Record>)
    requires AdmitAll(c, stage, owner, AsInputs(records)).Ok?
    ensures AsInputs(Chosen(c, stage, owner, records)) == AdmitAll(c, stage, owner, AsInputs(records)).value.inputs
    ensures forall r :: r in Chosen(c, stage, owner, records) ==> r in records
    decreases |records|
  {
    if records != [] {
      var front := records[..|records| - 1];
      assert AsInputs(records)[..|records| - 1] == AsInputs(front);
      ChosenAreAdmitted(c, stage, owner, front);
    }
  }

  predicate OfEpochs(records: seq<Record>, c: Clock) {
    forall i :: 0 <= i < |records| ==>
      records[i].record.roomEpoch == c.roomEpoch && records[i].record.sessionEpoch == c.sessionEpoch
  }

  /** The clock after a fast message, and the records it gets admitted; none when it is refused. `supported`
      says that every connected client takes fast records. */
  function AcceptFast(room: Room, supported: bool, connectionId: ConnectionId, records: seq<Record>)
    : (Clock, seq<Record>)
  {
    var c, owner := room.clock, OwnerOf(room.clock, connectionId);
    var (moved, accepted) := AcceptCursors(room.controllerNetplay, c, connectionId, AsInputs(records));
    if !supported || !OfEpochs(records, c) || accepted.Err? || owner.None? then (c, [])
    else (moved, Chosen(c, Stage(c.lastInputFrames, c.nextInputFrames), owner.value, records))
  }

  /** A fast message moves its owner's cursor over the records it gets admitted, like any other message. */
  lemma FastMovesCursor(room: Room, supported: bool, connectionId: ConnectionId, records: seq<Record>)
    ensures var c, owner := room.clock, OwnerOf(room.clock, connectionId);
            var (d, chosen) := AcceptFast(room, supported, connectionId, records);
            && d == c.(lastInputFrames := d.lastInputFrames, nextInputFrames := d.nextInputFrames)
            && (owner.None? ==> chosen == [] && d == c) && (InputsAhead(c) ==> InputsAhead(d))
            && (owner.Some? ==>
                  OrderlyAdmission(CursorOf(c, owner.value), CursorOf(d, owner.value), AsInputs(chosen), owner.value))
            && (forall q: PlayerIndex :: owner != Some(q) ==> CursorOf(d, q) == CursorOf(c, q))
            && OfEpochs(chosen, c)
  {
    var c, owner := room.clock, OwnerOf(room.clock, connectionId);
    var stage := Stage(c.lastInputFrames, c.nextInputFrames);
    if owner.Some? && AdmitAll(c, stage, owner.value, AsInputs(records)).Ok? {
      AdmissionIsOrderly(c, stage, owner.value, AsInputs(records));
      if InputsAhead(c) {
        AdmittedAreAhead(c, stage, owner.value, AsInputs(records));
      }
      ChosenAreAdmitted(c, stage, owner.value, records);
      var chosen := Chosen(c, stage, owner.value, records);
      if OfEpochs(records, c) {
        forall i | 0 <= i < |chosen|
          ensures chosen[i].record.roomEpoch == c.roomEpoch && chosen[i].record.sessionEpoch == c.sessionEpoch
        {
          assert chosen[i] in chosen;
        }
      }
    }
  }

  /** Records are admitted into an open controller room only, and within reach of its canonical frame. */
  lemma FastIsInReach(room: Room, supported: bool, connectionId: ConnectionId, records: seq<Record>)
    ensures var c, chosen := room.clock, AcceptFast(room, supported, connectionId, records).1;
            && (forall i :: 0 <= i < |chosen| ==> chosen[i].record.frame <= c.roomFrame + MAX_FUTURE_FRAME_DISTANCE)
            && (chosen != [] ==> room.controllerNetplay && c.status != RoomClosed)
  {
    var c, owner := room.clock, OwnerOf(room.clock, connectionId);
    var stage := Stage(c.lastInputFrames, c.nextInputFrames);
    if owner.Some? && AdmitAll(c, stage, owner.value, AsInputs(records)).Ok? {
      AdmissionIsOrderly(c, stage, owner.value, AsInputs(records));
      ChosenAreAdmitted(c, stage, owner.value, records);
      var chosen := Chosen(c, stage, owner.value, records);
      assert forall i :: 0 <= i < |chosen| ==> AsInputs(chosen)[i].frame == chosen[i].record.frame;
      if c.status == RoomClosed {
        ClosedAdmitsNothing(c, stage, owner.value, AsInputs(records));
      }
    }
  }

  // Relay of fast records

  datatype RelayedFast = RelayedFast(held: Held<Record>, sent: seq<BufferedRecord>)

  function RelayFastOne(c: Clock, r: RelayedFast, source: ConnectionId, record: Record): RelayedFast {
    if Released(c, record.record.frame) then r.(sent := r.sent + [FastItem(source, record)])
    else r.(held := Push(r.held, FastItem(source, record)))
  }

  function RelayFastAll(c: Clock, held: Held<Record>, source: ConnectionId, records: seq<Record>): RelayedFast
    decreases |records|
  {
    if records == [] then RelayedFast(held, [])
    else RelayFastOne(c, RelayFastAll(c, held, source, records[..|records| - 1]), source, records[|records| - 1])
  }

  // Runs with both lanes

  /** Who had which frame admitted, over either lane. */
  datatype Taken = Taken(source: ConnectionId, playerIndex: PlayerIndex, frame: U64)

  /** The batch lane's journal, the fast lane's buffer and books, and every admission of either lane in order. */
  datatype Lanes = Lanes(
    slow: Journal, held: Held<Record>, admitted: seq<BufferedRecord>, broadcast: multiset<BufferedRecord>,
    taken: seq<Taken>)

  datatype LaneEvent =
    | Other(event: Event)
    | FastBatch(connectionId: ConnectionId, supported: bool, records: seq<Record>)

  /** What the batch lane sees of an event: a fast message is a circumstance that raises a cursor. */
  function SlowView(l: Lanes, event: LaneEvent): Event {
    match event
    case Other(e) => e
    case FastBatch(connectionId, supported, records) =>
      Circumstance(AcceptFast(l.slow.room, supported, connectionId, records).0)
  }

  function FastItems(source: ConnectionId, records: seq<Record>): (r: seq<BufferedRecord>)
    ensures |r| == |records|
    ensures forall i :: 0 <= i < |r| ==> r[i] == FastItem(source, records[i])
  {
    seq(|records|, i requires 0 <= i < |records| => FastItem(source, records[i]))
  }

  function TakenBy(source: ConnectionId, inputs: seq<InputFrame>): (r: seq<Taken>)
    ensures |r| == |inputs|
    ensures forall i :: 0 <= i < |r| ==> r[i] == Taken(source, inputs[i].playerIndex, inputs[i].frame)
  {
    seq(|inputs|, i requires 0 <= i < |inputs| => Taken(source, inputs[i].playerIndex, inputs[i].frame))
  }

  function AfterLane(l: Lanes, event: LaneEvent): Lanes {
    var slow, c := AfterEvent(l.slow, SlowView(l, event)), l.slow.room.clock;
    match event
    case FastBatch(connectionId, supported, records) =>
      var (moved, chosen) := AcceptFast(l.slow.room, supported, connectionId, records);
      var relayed := RelayFastAll(moved, l.held, connectionId, chosen);
      Lanes(slow, relayed.held, l.admitted + FastItems(connectionId, chosen), l.broadcast + multiset(relayed.sent),
            l.taken + TakenBy(connectionId, AsInputs(chosen)))
    case Other(InputBatch(connectionId, batch)) =>
      l.(slow := slow, taken := l.taken + TakenBy(connectionId, AdmittedInputs(l.slow.room, connectionId, batch)))
    case Other(ClockTick(t)) =>
      var released := Release(c, t).1;
      if released.None? then l.(slow := slow)
      else
        var f := released.value;
        var out := Sift(HeldAt(l.held, f.frame), f.roomEpoch, f.sessionEpoch, true);
        l.(slow := slow, held := l.held - {f.frame}, broadcast := l.broadcast + multiset(out))
    case _ => l.(slow := slow)
  }

  function PlayLanes(l: Lanes, events: seq<LaneEvent>): Lanes
    decreases |events|
  {
    if events == [] then l else AfterLane(PlayLanes(l, events[..|events| - 1]), events[|events| - 1])
  }

  predicate LawfulLanes(l: Lanes, events: seq<LaneEvent>)
    decreases |events|
  {
    events == [] ||
    (&& LawfulLanes(l, events[..|events| - 1])
     && (events[|events| - 1].Other? ==>
           LawfulEvent(PlayLanes(l, events[..|events| - 1]).slow, events[|events| - 1].event)))
  }

  /** The run as the batch lane sees it. */
  function SlowRun(l: Lanes, events: seq<LaneEvent>): seq<Event>
    decreases |events|
  {
    if events == [] then []
    else
      var front := events[..|events| - 1];
      SlowRun(l, front) + [SlowView(PlayLanes(l, front), events[|events| - 1])]
  }

  lemma FastViewIsAllowed(j: Journal, supported: bool, connectionId: ConnectionId, records: seq<Record>)
    requires KeyOrderly(j) && InputsAhead(j.room.clock)
    ensures LawfulEvent(j, Circumstance(AcceptFast(j.room, supported, connectionId, records).0))
  {
    FastMovesCursor(j.room, supported, connectionId, records);
    var c, d := j.room.clock, AcceptFast(j.room, supported, connectionId, records).0;
    forall k | 0 <= k < |c.players|
      ensures CursorOf(c, c.players[k].playerIndex) <= CursorOf(d, c.players[k].playerIndex)
    {
      var owner := OwnerOf(c, connectionId);
      assert owner != Some(c.players[k].playerIndex) ==>
        CursorOf(d, c.players[k].playerIndex) == CursorOf(c, c.players[k].playerIndex);
    }
  }

  /** Every run of both lanes is a run of the batch lane among circumstances, so all that holds of its runs
      holds of it. */
  lemma {:induction false} LanesAreSlowRuns(l: Lanes, events: seq<LaneEvent>)
    requires Restarted(l.slow) && LawfulLanes(l, events)
    ensures Lawful(l.slow, SlowRun(l, events)) && PlayLanes(l, events).slow == Play(l.slow, SlowRun(l, events))
    decreases |events|
  {
    if events != [] {
      var front, last := events[..|events| - 1], events[|events| - 1];
      LanesAreSlowRuns(l, front);
      var before := PlayLanes(l, front);
      PlayNext(l.slow, SlowRun(l, front), SlowView(before, last));
      if last.FastBatch? {
        PlayStaysSynchronized(l.slow, SlowRun(l, front));
        PlayStaysKeyOrderly(l.slow, SlowRun(l, front));
        FastViewIsAllowed(before.slow, last.supported, last.connectionId, last.records);
      }
    }
  }

  // Fast records leave once, when their frame is released

  predicate FastWaits(c: Clock, frame: U64, y: BufferedRecord) {
    y.frame == frame && IsCurrent(y, c.roomEpoch, c.sessionEpoch) && !Reached(c, frame)
  }

  predicate AllFastWait(c: Clock, held: Held<Record>) {
    forall f, i :: f in held && 0 <= i < |held[f]| ==> FastWaits(c, f, held[f][i])
  }

  predicate LanesRestarted(l: Lanes) {
    && Restarted(l.slow) && AllFastWait(l.slow.room.clock, l.held)
    && l.admitted == [] && l.broadcast == multiset{} && l.taken == []
  }

  /** How often the record was held when the session started. */
  function FastLeftOver(start: Lanes, y: BufferedRecord): nat {
    Count(HeldAt(start.held, y.frame), y)
  }

  /** The fast lane's books balance for one record. */
  predicate FastSound(l: Lanes, left: nat, y: BufferedRecord) {
    && AllFastWait(l.slow.room.clock, l.held)
    && Count(l.admitted, y) + left == l.broadcast[y] + Count(HeldAt(l.held, y.frame), y)
    && (l.broadcast[y] > 0 ==> Reached(l.slow.room.clock, y.frame))
  }

  predicate FastAccounted(c: Clock, before: Held<Record>, r: RelayedFast, source: ConnectionId, records: seq<Record>,
                          y: BufferedRecord)
  {
    && AllFastWait(c, r.held)
    && Count(HeldAt(r.held, y.frame), y) + Count(r.sent, y)
       == Count(HeldAt(before, y.frame), y) + Count(FastItems(source, records), y)
    && (Count(r.sent, y) > 0 ==> Reached(c, y.frame))
  }

  lemma PushKeepsFastWaiting(c: Clock, held: Held<Record>, item: BufferedRecord)
    requires AllFastWait(c, held) && FastWaits(c, item.frame, item)
    ensures AllFastWait(c, Push(held, item))
  {
  }

  lemma FastOneAccounts(c: Clock, before: Held<Record>, r: RelayedFast, source: ConnectionId, front: seq<Record>,
                        record: Record, y: BufferedRecord)
    requires FastAccounted(c, before, r, source, front, y) && c.syncStartFrame <= record.record.frame
    requires OfEpochs([record], c)
    ensures FastAccounted(c, before, RelayFastOne(c, r, source, record), source, front + [record], y)
  {
    var item := FastItem(source, record);
    assert [record][0].record.roomEpoch == c.roomEpoch && [record][0].record.sessionEpoch == c.sessionEpoch;
    assert FastItems(source, front + [record]) == FastItems(source, front) + [item];
    CountSplits(FastItems(source, front), [item], y);
    if Released(c, record.record.frame) {
      CountSplits(r.sent, [item], y);
    } else {
      PushKeepsFastWaiting(c, r.held, item);
      PushIsCounted(r.held, item, y);
    }
  }

  lemma {:induction false} FastAllAccounts(c: Clock, before: Held<Record>, source: ConnectionId, records: seq<Record>,
                                           y: BufferedRecord)
    requires AllFastWait(c, before) && OfEpochs(records, c)
    requires forall i :: 0 <= i < |records| ==> c.syncStartFrame <= records[i].record.frame
    ensures FastAccounted(c, before, RelayFastAll(c, before, source, records), source, records, y)
    decreases |records|
  {
    if records != [] {
      var front, last := records[..|records| - 1], records[|records| - 1];
      FastAllAccounts(c, before, source, front, y);
      FastOneAccounts(c, before, RelayFastAll(c, before, source, front), source, front, last, y);
      assert front + [last] == records;
    }
  }

  lemma FastStillWaits(c: Clock, d: Clock, held: Held<Record>)
    requires AllFastWait(c, held) && c.releasedFrame == d.releasedFrame && c.syncStartFrame == d.syncStartFrame
    requires c.roomEpoch == d.roomEpoch && c.sessionEpoch == d.sessionEpoch
    ensures AllFastWait(d, held)
  {
    forall f, i | f in held && 0 <= i < |held[f]| ensures FastWaits(d, f, held[f][i]) {
      assert FastWaits(c, f, held[f][i]);
    }
  }

  lemma ChosenStaySound(l: Lanes, after: Lanes, source: ConnectionId, chosen: seq<Record>, left: nat,
                        y: BufferedRecord)
    requires FastSound(l, left, y) && OfEpochs(chosen, l.slow.room.clock)
    requires forall i :: 0 <= i < |chosen| ==> l.slow.room.clock.syncStartFrame <= chosen[i].record.frame
    requires var c, d := l.slow.room.clock, after.slow.room.clock;
             d == c.(lastInputFrames := d.lastInputFrames, nextInputFrames := d.nextInputFrames)
    requires var relayed := RelayFastAll(after.slow.room.clock, l.held, source, chosen);
             && after.held == relayed.held && after.broadcast == l.broadcast + multiset(relayed.sent)
             && after.admitted == l.admitted + FastItems(source, chosen)
    ensures FastSound(after, left, y)
  {
    FastStillWaits(l.slow.room.clock, after.slow.room.clock, l.held);
    assert OfEpochs(chosen, after.slow.room.clock);
    FastAllAccounts(after.slow.room.clock, l.held, source, chosen, y);
    CountSplits(l.admitted, FastItems(source, chosen), y);
  }

  lemma FastResult(l: Lanes, connectionId: ConnectionId, supported: bool, records: seq<Record>)
    ensures var accepted := AcceptFast(l.slow.room, supported, connectionId, records);
            var relayed := RelayFastAll(accepted.0, l.held, connectionId, accepted.1);
            var after := AfterLane(l, FastBatch(connectionId, supported, records));
            && after.slow.room.clock == accepted.0
            && after.held == relayed.held && after.broadcast == l.broadcast + multiset(relayed.sent)
            && after.admitted == l.admitted + FastItems(connectionId, accepted.1)
            && after.slow.admitted == l.slow.admitted
            && after.taken == l.taken + TakenBy(connectionId, AsInputs(accepted.1))
  {
  }

  lemma ChosenAhead(room: Room, supported: bool, connectionId: ConnectionId, records: seq<Record>)
    requires InputsAhead(room.clock)
    ensures var chosen := AcceptFast(room, supported, connectionId, records).1;
            forall i :: 0 <= i < |chosen| ==> room.clock.syncStartFrame <= chosen[i].record.frame
  {
    FastMovesCursor(room, supported, connectionId, records);
    var chosen := AcceptFast(room, supported, connectionId, records).1;
    assert forall i :: 0 <= i < |chosen| ==> AsInputs(chosen)[i].frame == chosen[i].record.frame;
  }

  lemma FastBatchStaysSound(l: Lanes, connectionId: ConnectionId, supported: bool, records: seq<Record>, left: nat,
                            y: BufferedRecord)
    requires FastSound(l, left, y) && InputsAhead(l.slow.room.clock)
    ensures FastSound(AfterLane(l, FastBatch(connectionId, supported, records)), left, y)
  {
    var accepted := AcceptFast(l.slow.room, supported, connectionId, records);
    FastMovesCursor(l.slow.room, supported, connectionId, records);
    ChosenAhead(l.slow.room, supported, connectionId, records);
    FastResult(l, connectionId, supported, records);
    ChosenStaySound(l, AfterLane(l, FastBatch(connectionId, supported, records)), connectionId, accepted.1, left, y);
  }

  lemma FastReleaseAccounts(c: Clock, held: Held<Record>, next: Clock, frame: U64, y: BufferedRecord)
    requires AllFastWait(c, held) && CursorFits(c) && frame == c.nextReleaseFrame
    requires next.releasedFrame == Some(frame) && next.syncStartFrame == c.syncStartFrame
    requires next.roomEpoch == c.roomEpoch && next.sessionEpoch == c.sessionEpoch
    ensures AllFastWait(next, held - {frame})
    ensures var out := Sift(HeldAt(held, frame), c.roomEpoch, c.sessionEpoch, true);
            && Count(out, y) + Count(HeldAt(held - {frame}, y.frame), y) == Count(HeldAt(held, y.frame), y)
            && (Count(out, y) > 0 ==> y.frame == frame)
  {
    var items := HeldAt(held, frame);
    forall i | 0 <= i < |items| ensures items[i].frame == frame && IsCurrent(items[i], c.roomEpoch, c.sessionEpoch) {
      assert FastWaits(c, frame, held[frame][i]);
    }
    SiftKeepsCurrent(items, c.roomEpoch, c.sessionEpoch);
    if y.frame != frame {
      assert y !in items;
    }
    forall f, i | f in held - {frame} && 0 <= i < |held[f]| ensures FastWaits(next, f, held[f][i]) {
      assert FastWaits(c, f, held[f][i]);
    }
  }

  lemma TickStaysFastSound(l: Lanes, t: nat, left: nat, y: BufferedRecord)
    requires FastSound(l, left, y) && CursorFits(l.slow.room.clock) && l.slow.room == Synchronized(l.slow.room)
    ensures FastSound(AfterLane(l, Other(ClockTick(t))), left, y)
  {
    var c := l.slow.room.clock;
    ReleaseMovesCursor(c, t);
    var (next, released) := Release(c, t);
    if released.Some? {
      FastReleaseAccounts(c, l.held, next, released.value.frame, y);
    } else {
      FastStillWaits(c, next, l.held);
    }
  }

  lemma OtherStaysFastSound(l: Lanes, event: Event, left: nat, y: BufferedRecord)
    requires FastSound(l, left, y) && LawfulEvent(l.slow, event) && !event.ClockTick?
    requires l.slow.room == Synchronized(l.slow.room) && InputsAhead(l.slow.room.clock)
    ensures FastSound(AfterLane(l, Other(event)), left, y)
  {
    var c, d := l.slow.room.clock, AfterEvent(l.slow, event).room.clock;
    match event
    case SocketClosed(connectionId, handoff) => ClosingKeepsRest(c, connectionId, handoff);
    case InputBatch(connectionId, batch) => MessageMovesCursor(l.slow.room, connectionId, batch);
    case _ =>
    FastStillWaits(c, d, l.held);
  }

  lemma {:induction false} LanesStayFastSound(l: Lanes, events: seq<LaneEvent>, y: BufferedRecord)
    requires LanesRestarted(l) && LawfulLanes(l, events)
    ensures FastSound(PlayLanes(l, events), FastLeftOver(l, y), y)
    decreases |events|
  {
    if events != [] {
      var front, last, left := events[..|events| - 1], events[|events| - 1], FastLeftOver(l, y);
      LanesStayFastSound(l, front, y);
      LanesAreSlowRuns(l, front);
      PlayStaysSound(l.slow, SlowRun(l, front), AnyInput(l.slow.room.clock));
      match last
      case FastBatch(connectionId, supported, records) =>
        FastBatchStaysSound(PlayLanes(l, front), connectionId, supported, records, left, y);
      case Other(event) =>
        if event.ClockTick? {
          TickStaysFastSound(PlayLanes(l, front), event.serverTimeMs, left, y);
        } else {
          OtherStaysFastSound(PlayLanes(l, front), event, left, y);
        }
    }
  }

  /** Over any run of both lanes each fast record leaves through its own buffer as often as it was admitted, or
      left over, if its frame has been released, and not at all if it has not. */
  lemma RecordsLeaveWhenReleased(l: Lanes, events: seq<LaneEvent>, y: BufferedRecord)
    requires LanesRestarted(l) && LawfulLanes(l, events)
    ensures var end := PlayLanes(l, events);
            end.broadcast[y]
            == if Reached(end.slow.room.clock, y.frame) then Count(end.admitted, y) + FastLeftOver(l, y) else 0
  {
    LanesStayFastSound(l, events, y);
    var end := PlayLanes(l, events);
    var items := HeldAt(end.held, y.frame);
    if y in items {
      var i :| 0 <= i < |items| && items[i] == y;
      assert FastWaits(end.slow.room.clock, y.frame, end.held[y.frame][i]);
    }
  }

  // From one session to the next

  /** A new session of both lanes: new epochs empty the fast lane's buffer with the other. */
  function NewLanes(l: Lanes, clock: Clock): Lanes {
    Lanes(NewSession(l.slow, clock), if NewEpochs(l.slow.room.clock, clock) then map[] else l.held, [], multiset{}, [])
  }

  /** After any session of both lanes, any reset starts another one. The fast lane starts with an empty buffer
      exactly when an epoch changes or nothing was held, and otherwise with all that was held. */
  lemma ResetRestartsLanes(l: Lanes, events: seq<LaneEvent>, clock: Clock)
    requires LanesRestarted(l) && LawfulLanes(l, events) && IsReset(PlayLanes(l, events).slow.room.clock, clock)
    ensures var before, after := PlayLanes(l, events), NewLanes(PlayLanes(l, events), clock);
            && LanesRestarted(after)
            && (after.held == map[] <==> NewEpochs(before.slow.room.clock, clock) || before.held == map[])
            && (!NewEpochs(before.slow.room.clock, clock) ==> after.held == before.held)
  {
    var before, after := PlayLanes(l, events), NewLanes(PlayLanes(l, events), clock);
    LanesAreSlowRuns(l, events);
    ResetRestarts(l.slow, SlowRun(l, events), clock);
    HeldRecordsWait(l, events);
    forall f, i | f in after.held && 0 <= i < |after.held[f]| ensures FastWaits(clock, f, after.held[f][i]) {
      assert FastWaits(before.slow.room.clock, f, before.held[f][i]);
    }
  }

  lemma HeldRecordsWait(l: Lanes, events: seq<LaneEvent>)
    requires LanesRestarted(l) && LawfulLanes(l, events)
    ensures AllFastWait(PlayLanes(l, events).slow.room.clock, PlayLanes(l, events).held)
  {
    var any := FastItem(0, Sbi2.FastInputFrame(Sbi2.Record(0, 0, 0, 0, []), []));
    LanesStayFastSound(l, events, any);
  }

  // No frame twice across the lanes

  /** From position `n` on, what was taken of the player rises from `floor` to the cursor. */
  predicate TakenRises(taken: seq<Taken>, n: nat, floor: U64, cursor: U64, p: PlayerIndex) {
    && n <= |taken| && floor <= cursor
    && (forall a :: n <= a < |taken| && taken[a].playerIndex == p ==>
          floor <= taken[a].frame && Rising(taken[a].frame, cursor))
    && (forall a, b :: n <= a < b < |taken| && taken[a].playerIndex == p && taken[b].playerIndex == p ==>
          Rising(taken[a].frame, taken[b].frame))
  }

  lemma TakingRises(taken: seq<Taken>, n: nat, floor: U64, source: ConnectionId, inputs: seq<InputFrame>, owner: byte,
                    before: U64, after: U64, p: PlayerIndex, low: U64, high: U64)
    requires TakenRises(taken, n, floor, low, p) && OrderlyAdmission(before, after, inputs, owner)
    requires if p == owner then before == low && after == high else low <= high
    ensures TakenRises(taken + TakenBy(source, inputs), n, floor, high, p)
  {
    var all := taken + TakenBy(source, inputs);
    forall a | n <= a < |all| && all[a].playerIndex == p ensures floor <= all[a].frame && Rising(all[a].frame, high) {
      if a >= |taken| {
        assert inputs[a - |taken|].playerIndex == owner;
      }
    }
    forall a, b | n <= a < b < |all| && all[a].playerIndex == p && all[b].playerIndex == p
      ensures Rising(all[a].frame, all[b].frame)
    {
      if a < |taken| <= b {
        assert before <= inputs[b - |taken|].frame;
      }
    }
  }

  lemma EventTakesRising(l: Lanes, event: LaneEvent, n: nat, floor: U64, p: PlayerIndex)
    requires TakenRises(l.taken, n, floor, CursorOf(l.slow.room.clock, p), p)
    requires !Lowers(l.slow, SlowView(l, event), p)
    ensures TakenRises(AfterLane(l, event).taken, n, floor, CursorOf(AfterLane(l, event).slow.room.clock, p), p)
  {
    var c, d := l.slow.room.clock, AfterLane(l, event).slow.room.clock;
    match event
    case FastBatch(connectionId, supported, records) =>
      FastMovesCursor(l.slow.room, supported, connectionId, records);
      var chosen := AcceptFast(l.slow.room, supported, connectionId, records).1;
      TakesRising(l.taken, n, floor, connectionId, AsInputs(chosen), c, d, p);
    case Other(InputBatch(connectionId, batch)) =>
      MessageMovesCursor(l.slow.room, connectionId, batch);
      TakesRising(l.taken, n, floor, connectionId, AdmittedInputs(l.slow.room, connectionId, batch), c, d, p);
    case _ =>
  }

  lemma TakesRising(taken: seq<Taken>, n: nat, floor: U64, source: ConnectionId, inputs: seq<InputFrame>, c: Clock,
                    d: Clock, p: PlayerIndex)
    requires TakenRises(taken, n, floor, CursorOf(c, p), p) && CursorOf(c, p) <= CursorOf(d, p)
    requires OwnerOf(c, source).None? ==> inputs == []
    requires OwnerOf(c, source).Some? ==>
               var q := OwnerOf(c, source).value; OrderlyAdmission(CursorOf(c, q), CursorOf(d, q), inputs, q)
    ensures TakenRises(taken + TakenBy(source, inputs), n, floor, CursorOf(d, p), p)
  {
    if OwnerOf(c, source).Some? {
      var q := OwnerOf(c, source).value;
      TakingRises(taken, n, floor, source, inputs, q, CursorOf(c, q), CursorOf(d, q), p, CursorOf(c, p),
                  CursorOf(d, p));
    } else {
      assert taken + TakenBy(source, inputs) == taken;
    }
  }

  /** As long as the player's cursor is not lowered, whatever is taken of the player rises. */
  lemma {:induction false} LanesTakeRising(l: Lanes, events: seq<LaneEvent>, n: nat, floor: U64, p: PlayerIndex)
    requires TakenRises(l.taken, n, floor, CursorOf(l.slow.room.clock, p), p)
    requires LanesNeverLowered(l, events, p)
    ensures var end := PlayLanes(l, events); TakenRises(end.taken, n, floor, CursorOf(end.slow.room.clock, p), p)
    ensures l.taken <= PlayLanes(l, events).taken
    decreases |events|
  {
    if events != [] {
      LanesTakeRising(l, events[..|events| - 1], n, floor, p);
      EventTakesRising(PlayLanes(l, events[..|events| - 1]), events[|events| - 1], n, floor, p);
    }
  }

  predicate LanesNeverLowered(l: Lanes, events: seq<LaneEvent>, p: PlayerIndex)
    decreases |events|
  {
    events == [] ||
    (&& LanesNeverLowered(l, events[..|events| - 1], p)
     && var before := PlayLanes(l, events[..|events| - 1]);
        !Lowers(before.slow, SlowView(before, events[|events| - 1]), p))
  }

  function TakenCount(taken: seq<Taken>, p: PlayerIndex, f: U64): nat
    decreases |taken|
  {
    if taken == [] then 0
    else
      var last := taken[|taken| - 1];
      TakenCount(taken[..|taken| - 1], p, f) + (if last.playerIndex == p && last.frame == f then 1 else 0)
  }

  /** How often the batch lane, or the fast lane, got a player's frame admitted. */
  function SlowCount(admitted: seq<BufferedInput>, p: PlayerIndex, f: U64): nat {
    TakenCount(seq(|admitted|, i requires 0 <= i < |admitted| =>
                     Taken(admitted[i].source, admitted[i].body.playerIndex, admitted[i].body.frame)), p, f)
  }

  function FastCount(admitted: seq<BufferedRecord>, p: PlayerIndex, f: U64): nat {
    TakenCount(seq(|admitted|, i requires 0 <= i < |admitted| =>
                     Taken(admitted[i].source, admitted[i].body.record.playerIndex, admitted[i].body.record.frame)),
               p, f)
  }

  lemma {:induction false} TakenCountSplits(a: seq<Taken>, b: seq<Taken>, p: PlayerIndex, f: U64)
    ensures TakenCount(a + b, p, f) == TakenCount(a, p, f) + TakenCount(b, p, f)
    decreases |b|
  {
    if b == [] {
      assert a + b == a;
    } else {
      TakenCountSplits(a, b[..|b| - 1], p, f);
      assert (a + b)[..|a + b| - 1] == a + b[..|b| - 1];
    }
  }

  lemma {:induction false} RisingCountsOnce(taken: seq<Taken>, cursor: U64, p: PlayerIndex, f: U64)
    requires TakenRises(taken, 0, 0, cursor, p) && f < U64_MAX
    ensures TakenCount(taken, p, f) <= 1
    ensures TakenCount(taken, p, f) > 0 ==>
              exists a :: 0 <= a < |taken| && taken[a].playerIndex == p && taken[a].frame == f
    decreases |taken|
  {
    if taken != [] {
      var front, last := taken[..|taken| - 1], taken[|taken| - 1];
      assert forall a :: 0 <= a < |front| ==> front[a] == taken[a];
      RisingCountsOnce(front, cursor, p, f);
      if last.playerIndex == p && last.frame == f {
        assert taken[|taken| - 1].playerIndex == p;
        assert forall a :: 0 <= a < |front| && front[a].playerIndex == p ==> Rising(taken[a].frame, last.frame);
      } else if TakenCount(front, p, f) > 0 {
        var a :| 0 <= a < |front| && front[a].playerIndex == p && front[a].frame == f;
        assert taken[a].playerIndex == p && taken[a].frame == f;
      }
    }
  }

  /** The lanes' own lists together count what was taken. */
  predicate CountsAdd(l: Lanes, p: PlayerIndex, f: U64) {
    SlowCount(l.slow.admitted, p, f) + FastCount(l.admitted, p, f) == TakenCount(l.taken, p, f)
  }

  lemma EventCountsAdd(l: Lanes, event: LaneEvent, p: PlayerIndex, f: U64)
    requires CountsAdd(l, p, f)
    ensures CountsAdd(AfterLane(l, event), p, f)
  {
    match event
    case FastBatch(connectionId, supported, records) => FastCountsAdd(l, connectionId, supported, records, p, f);
    case Other(InputBatch(connectionId, batch)) => BatchCountsAdd(l, connectionId, batch, p, f);
    case _ =>
  }

  lemma ChosenCountAdd(l: Lanes, after: Lanes, source: ConnectionId, chosen: seq<Record>, p: PlayerIndex, f: U64)
    requires CountsAdd(l, p, f) && after.slow.admitted == l.slow.admitted
    requires after.admitted == l.admitted + FastItems(source, chosen)
    requires after.taken == l.taken + TakenBy(source, AsInputs(chosen))
    ensures CountsAdd(after, p, f)
  {
    FastCountGrows(l.admitted, source, chosen, p, f);
    TakenCountSplits(l.taken, TakenBy(source, AsInputs(chosen)), p, f);
  }

  lemma FastCountsAdd(l: Lanes, connectionId: ConnectionId, supported: bool, records: seq<Record>, p: PlayerIndex,
                      f: U64)
    requires CountsAdd(l, p, f)
    ensures CountsAdd(AfterLane(l, FastBatch(connectionId, supported, records)), p, f)
  {
    FastResult(l, connectionId, supported, records);
    ChosenCountAdd(l, AfterLane(l, FastBatch(connectionId, supported, records)), connectionId,
                   AcceptFast(l.slow.room, supported, connectionId, records).1, p, f);
  }

  lemma BatchCountsAdd(l: Lanes, connectionId: ConnectionId, batch: Sbi1.InputFrameBatch, p: PlayerIndex, f: U64)
    requires CountsAdd(l, p, f)
    ensures CountsAdd(AfterLane(l, Other(InputBatch(connectionId, batch))), p, f)
  {
    var inputs := AdmittedInputs(l.slow.room, connectionId, batch);
    SlowCountGrows(l.slow.admitted, l.slow.room.clock, connectionId, inputs, p, f);
    TakenCountSplits(l.taken, TakenBy(connectionId, inputs), p, f);
  }

  lemma SlowCountGrows(admitted: seq<BufferedInput>, c: Clock, source: ConnectionId, inputs: seq<InputFrame>,
                       p: PlayerIndex, f: U64)
    ensures SlowCount(admitted + Items(c, source, inputs), p, f)
         == SlowCount(admitted, p, f) + TakenCount(TakenBy(source, inputs), p, f)
  {
    var all := admitted + Items(c, source, inputs);
    var before := seq(|admitted|, i requires 0 <= i < |admitted| =>
                        Taken(admitted[i].source, admitted[i].body.playerIndex, admitted[i].body.frame));
    var after := seq(|all|, i requires 0 <= i < |all| =>
                       Taken(all[i].source, all[i].body.playerIndex, all[i].body.frame));
    assert after == before + TakenBy(source, inputs);
    TakenCountSplits(before, TakenBy(source, inputs), p, f);
  }

  lemma FastCountGrows(admitted: seq<BufferedRecord>, source: ConnectionId, records: seq<Record>, p: PlayerIndex,
                       f: U64)
    ensures FastCount(admitted + FastItems(source, records), p, f)
         == FastCount(admitted, p, f) + TakenCount(TakenBy(source, AsInputs(records)), p, f)
  {
    var all := admitted + FastItems(source, records);
    var before := seq(|admitted|, i requires 0 <= i < |admitted| =>
                        Taken(admitted[i].source, admitted[i].body.record.playerIndex, admitted[i].body.record.frame));
    var after := seq(|all|, i requires 0 <= i < |all| =>
                       Taken(all[i].source, all[i].body.record.playerIndex, all[i].body.record.frame));
    assert after == before + TakenBy(source, AsInputs(records));
    TakenCountSplits(before, TakenBy(source, AsInputs(records)), p, f);
  }

  lemma {:induction false} LanesCountsAdd(l: Lanes, events: seq<LaneEvent>, p: PlayerIndex, f: U64)
    requires LanesRestarted(l)
    ensures CountsAdd(PlayLanes(l, events), p, f)
    decreases |events|
  {
    if events != [] {
      LanesCountsAdd(l, events[..|events| - 1], p, f);
      EventCountsAdd(PlayLanes(l, events[..|events| - 1]), events[|events| - 1], p, f);
    }
  }

  /** With both lanes in use, however their messages mix: as long as the player's cursor is not lowered, a frame
      below the 64-bit ceiling is admitted over one lane or the other, once. */
  lemma OnceAcrossLanes(l: Lanes, events: seq<LaneEvent>, p: PlayerIndex, f: U64)
    requires LanesRestarted(l) && LawfulLanes(l, events) && LanesNeverLowered(l, events, p) && f < U64_MAX
    ensures var end := PlayLanes(l, events);
            SlowCount(end.slow.admitted, p, f) + FastCount(end.admitted, p, f) <= 1
  {
    LanesTakeRising(l, events, 0, 0, p);
    LanesCountsAdd(l, events, p, f);
    var end := PlayLanes(l, events);
    RisingCountsOnce(end.taken, CursorOf(end.slow.room.clock, p), p, f);
  }

  // When a frame can come again over either lane

  predicate TakenOnce(taken: seq<Taken>, p: PlayerIndex) {
    forall a, b :: 0 <= a < b < |taken| && taken[a].playerIndex == p && taken[b].playerIndex == p ==>
      taken[a].frame < U64_MAX ==> taken[a].frame != taken[b].frame
  }

  /** Every frame of the player taken below the ceiling is below the player's cursor. */
  predicate TakenBelow(l: Lanes, p: PlayerIndex) {
    forall a :: 0 <= a < |l.taken| && l.taken[a].playerIndex == p && l.taken[a].frame < U64_MAX ==>
      l.taken[a].frame < CursorOf(l.slow.room.clock, p)
  }

  /** No run from here takes a frame of the player again over any lane, unless it lowers the cursor. */
  ghost predicate LanesNeverRepeat(l: Lanes, p: PlayerIndex) {
    forall more :: LawfulLanes(l, more) && LanesNeverLowered(l, more, p) ==> TakenOnce(PlayLanes(l, more).taken, p)
  }

  lemma BelowStaysOnce(l: Lanes, more: seq<LaneEvent>, p: PlayerIndex)
    requires TakenOnce(l.taken, p) && TakenBelow(l, p) && LanesNeverLowered(l, more, p)
    ensures TakenOnce(PlayLanes(l, more).taken, p)
  {
    var n, floor := |l.taken|, CursorOf(l.slow.room.clock, p);
    LanesTakeRising(l, more, n, floor, p);
    var all := PlayLanes(l, more).taken;
    forall a, b | 0 <= a < b < |all| && all[a].playerIndex == p && all[b].playerIndex == p && all[a].frame < U64_MAX
      ensures all[a].frame != all[b].frame
    {
      assert a < n ==> all[a] == l.taken[a];
      assert b < n ==> all[b] == l.taken[b];
      assert a >= n ==> Rising(all[a].frame, all[b].frame);
    }
  }

  lemma ClosedTakesNoFastMessage(l: Lanes, connectionId: ConnectionId, supported: bool, records: seq<Record>)
    requires l.slow.room.clock.status == RoomClosed
    ensures var after := AfterLane(l, FastBatch(connectionId, supported, records));
            after.slow.room.clock.status == RoomClosed && after.taken == l.taken
  {
    FastMovesCursor(l.slow.room, supported, connectionId, records);
    FastIsInReach(l.slow.room, supported, connectionId, records);
    assert l.taken + TakenBy(connectionId, AsInputs([])) == l.taken;
  }

  lemma ClosedTakesNoOther(l: Lanes, event: Event)
    requires l.slow.room.clock.status == RoomClosed && LawfulEvent(l.slow, event)
    ensures var after := AfterLane(l, Other(event));
            after.slow.room.clock.status == RoomClosed && after.taken == l.taken
  {
    PlayOne(l.slow, event);
    ClosedTakesNothing(l.slow, [event]);
    if event.InputBatch? {
      ClosedTakesNoMessage(l.slow.room, event.connectionId, event.batch);
      assert l.taken + TakenBy(event.connectionId, []) == l.taken;
    }
  }

  lemma {:induction false} ClosedLanesTakeNothing(l: Lanes, more: seq<LaneEvent>)
    requires l.slow.room.clock.status == RoomClosed && LawfulLanes(l, more)
    ensures PlayLanes(l, more).slow.room.clock.status == RoomClosed && PlayLanes(l, more).taken == l.taken
    decreases |more|
  {
    if more != [] {
      var before := PlayLanes(l, more[..|more| - 1]);
      ClosedLanesTakeNothing(l, more[..|more| - 1]);
      match more[|more| - 1]
      case FastBatch(connectionId, supported, records) =>
        ClosedTakesNoFastMessage(before, connectionId, supported, records);
      case Other(event) => ClosedTakesNoOther(before, event);
    }
  }

  /** What was taken once could be taken now, were the cursor no higher. */
  predicate TakenInReach(l: Lanes) {
    AllAdmissible(l.slow.room, l.taken)
  }

  lemma NewRecordIsAdmissible(room: Room, connectionId: ConnectionId, supported: bool, records: seq<Record>, i: nat)
    requires InputsAhead(room.clock) && i < |AcceptFast(room, supported, connectionId, records).1|
    ensures var r := AcceptFast(room, supported, connectionId, records).1[i].record;
            Admissible(room, r.playerIndex, r.frame)
  {
    FastMovesCursor(room, supported, connectionId, records);
    FastIsInReach(room, supported, connectionId, records);
    var chosen := AcceptFast(room, supported, connectionId, records).1;
    assert AsInputs(chosen)[i].playerIndex == chosen[i].record.playerIndex;
    var k := SeatHolding(room.clock.players, connectionId);
    assert room.clock.players[k].playerIndex == chosen[i].record.playerIndex;
  }

  predicate AllAdmissible(room: Room, taken: seq<Taken>) {
    forall a :: 0 <= a < |taken| ==> Admissible(room, taken[a].playerIndex, taken[a].frame)
  }

  lemma FastAdmissible(room: Room, connectionId: ConnectionId, supported: bool, records: seq<Record>)
    requires InputsAhead(room.clock)
    ensures AllAdmissible(room, TakenBy(connectionId, AsInputs(AcceptFast(room, supported, connectionId, records).1)))
  {
    var chosen := AcceptFast(room, supported, connectionId, records).1;
    forall i | 0 <= i < |chosen| ensures Admissible(room, chosen[i].record.playerIndex, chosen[i].record.frame) {
      NewRecordIsAdmissible(room, connectionId, supported, records, i);
    }
  }

  lemma BatchAdmissible(room: Room, connectionId: ConnectionId, batch: Sbi1.InputFrameBatch)
    requires InputsAhead(room.clock)
    ensures AllAdmissible(room, TakenBy(connectionId, AdmittedInputs(room, connectionId, batch)))
  {
    var inputs := AdmittedInputs(room, connectionId, batch);
    forall i | 0 <= i < |inputs| ensures Admissible(room, inputs[i].playerIndex, inputs[i].frame) {
      NewIsAdmissible(room, connectionId, batch, i);
    }
  }

  /** All that is taken after an event was within reach before it. */
  lemma TakenWasAdmissible(l: Lanes, event: LaneEvent)
    requires AllAdmissible(l.slow.room, l.taken) && InputsAhead(l.slow.room.clock)
    ensures AllAdmissible(l.slow.room, AfterLane(l, event).taken)
  {
    match event
    case FastBatch(connectionId, supported, records) =>
      FastAdmissible(l.slow.room, connectionId, supported, records);
    case Other(InputBatch(connectionId, batch)) => BatchAdmissible(l.slow.room, connectionId, batch);
    case _ =>
  }

  lemma LaneStaysInReach(l: Lanes, event: LaneEvent)
    requires TakenInReach(l) && InputsAhead(l.slow.room.clock)
    requires RoomGoesOn(l.slow.room, AfterLane(l, event).slow.room)
    ensures TakenInReach(AfterLane(l, event))
  {
    TakenWasAdmissible(l, event);
    var after := AfterLane(l, event);
    forall a | 0 <= a < |after.taken|
      ensures Admissible(after.slow.room, after.taken[a].playerIndex, after.taken[a].frame)
    {
      StillAdmissible(l.slow.room, after.slow.room, after.taken[a].playerIndex, after.taken[a].frame);
    }
  }

  /** The lanes' room at any point of a run is as the batch lane's runs leave it. */
  lemma LanesStayFit(l: Lanes, events: seq<LaneEvent>)
    requires LanesRestarted(l) && LawfulLanes(l, events)
    ensures var j := PlayLanes(l, events).slow;
            KeyOrderly(j) && InputsAhead(j.room.clock) && j.room == Synchronized(j.room)
  {
    LanesAreSlowRuns(l, events);
    PlayStaysSynchronized(l.slow, SlowRun(l, events));
    PlayStaysKeyOrderly(l.slow, SlowRun(l, events));
  }

  lemma LaneGoesOn(l: Lanes, event: LaneEvent)
    requires KeyOrderly(l.slow) && InputsAhead(l.slow.room.clock) && l.slow.room == Synchronized(l.slow.room)
    requires event.Other? ==> LawfulEvent(l.slow, event.event)
    ensures RoomGoesOn(l.slow.room, AfterLane(l, event).slow.room)
  {
    if event.FastBatch? {
      FastViewIsAllowed(l.slow, event.supported, event.connectionId, event.records);
    }
    EventGoesOn(l.slow, SlowView(l, event));
  }

  lemma {:induction false} LanesStayInReach(l: Lanes, events: seq<LaneEvent>)
    requires LanesRestarted(l) && LawfulLanes(l, events)
    ensures TakenInReach(PlayLanes(l, events))
    decreases |events|
  {
    if events != [] {
      var front, last := events[..|events| - 1], events[|events| - 1];
      LanesStayInReach(l, front);
      LanesStayFit(l, front);
      LaneGoesOn(PlayLanes(l, front), last);
      LaneStaysInReach(PlayLanes(l, front), last);
    }
  }

  lemma LanesNext(l: Lanes, events: seq<LaneEvent>, event: LaneEvent)
    ensures PlayLanes(l, events + [event]) == AfterLane(PlayLanes(l, events), event)
    ensures LawfulLanes(l, events + [event]) <==>
              LawfulLanes(l, events) && (event.Other? ==> LawfulEvent(PlayLanes(l, events).slow, event.event))
  {
    assert (events + [event])[..|events|] == events;
  }

  lemma LanesNotLoweredNext(l: Lanes, events: seq<LaneEvent>, event: LaneEvent, p: PlayerIndex)
    ensures var before := PlayLanes(l, events);
            LanesNeverLowered(l, events + [event], p) <==>
              LanesNeverLowered(l, events, p) && !Lowers(before.slow, SlowView(before, event), p)
  {
    assert (events + [event])[..|events|] == events;
  }

  lemma TakenAgain(l: Lanes, socket: ConnectionId, p: PlayerIndex, frame: U64)
    requires Takes(l.slow.room, socket, Sbi1.InputFrame(p, frame, []))
    ensures var again := Other(InputBatch(socket, OneInput(l.slow.room.clock, p, frame)));
            && AfterLane(l, again).taken == l.taken + [Taken(socket, p, frame)]
            && !Lowers(l.slow, again.event, p)
  {
    OneInputIsTaken(l.slow.room, socket, Sbi1.InputFrame(p, frame, []));
    assert TakenBy(socket, [Sbi1.InputFrame(p, frame, [])]) == [Taken(socket, p, frame)];
  }

  /** A frame the player has had taken over some lane, and the cursor has fallen back to, can be taken again. */
  lemma TakenComesAgain(l: Lanes, a: nat) returns (more: seq<LaneEvent>)
    requires KeyOrderly(l.slow) && InputsAhead(l.slow.room.clock) && l.slow.room == Synchronized(l.slow.room)
    requires TakenInReach(l) && a < |l.taken| && l.taken[a].frame < U64_MAX
    requires l.slow.room.clock.status != RoomClosed
    requires CursorOf(l.slow.room.clock, l.taken[a].playerIndex) <= l.taken[a].frame
    ensures LawfulLanes(l, more) && LanesNeverLowered(l, more, l.taken[a].playerIndex)
    ensures !TakenOnce(PlayLanes(l, more).taken, l.taken[a].playerIndex)
  {
    var p, frame := l.taken[a].playerIndex, l.taken[a].frame;
    assert Admissible(l.slow.room, l.taken[a].playerIndex, l.taken[a].frame);
    var ready, socket := PlayerReturns(l.slow, p, frame);
    LanesNext(l, [], Other(ready));
    LanesNotLoweredNext(l, [], Other(ready), p);
    var begun := AfterLane(l, Other(ready));
    var again := Other(InputBatch(socket, OneInput(begun.slow.room.clock, p, frame)));
    TakenAgain(begun, socket, p, frame);
    LanesNext(l, [] + [Other(ready)], again);
    LanesNotLoweredNext(l, [] + [Other(ready)], again, p);
    more := [] + [Other(ready)] + [again];
    var all := PlayLanes(l, more).taken;
    assert all[a] == l.taken[a] && all[|l.taken|] == Taken(socket, p, frame);
  }

  /** At any point of any run of both lanes: no frame of the player can be taken again over any lane without a
      further lowering of the cursor, exactly when none has been yet, and the cursor stands above all of them or
      the room is closed. */
  lemma LanesNeverRepeatExactlyWhen(l: Lanes, events: seq<LaneEvent>, p: PlayerIndex)
    requires LanesRestarted(l) && LawfulLanes(l, events)
    ensures var end := PlayLanes(l, events);
            LanesNeverRepeat(end, p) <==>
              TakenOnce(end.taken, p) && (TakenBelow(end, p) || end.slow.room.clock.status == RoomClosed)
  {
    LanesStayFit(l, events);
    LanesStayInReach(l, events);
    LanesRepeatExactlyWhen(PlayLanes(l, events), p);
  }

  lemma LanesRepeatExactlyWhen(l: Lanes, p: PlayerIndex)
    requires KeyOrderly(l.slow) && InputsAhead(l.slow.room.clock) && l.slow.room == Synchronized(l.slow.room)
    requires TakenInReach(l)
    ensures LanesNeverRepeat(l, p) <==>
              TakenOnce(l.taken, p) && (TakenBelow(l, p) || l.slow.room.clock.status == RoomClosed)
  {
    if !TakenOnce(l.taken, p) {
      assert LawfulLanes(l, []) && LanesNeverLowered(l, [], p) && PlayLanes(l, []) == l;
    } else if l.slow.room.clock.status == RoomClosed {
      forall more | LawfulLanes(l, more) && LanesNeverLowered(l, more, p)
        ensures TakenOnce(PlayLanes(l, more).taken, p)
      {
        ClosedLanesTakeNothing(l, more);
      }
    } else if TakenBelow(l, p) {
      forall more | LawfulLanes(l, more) && LanesNeverLowered(l, more, p)
        ensures TakenOnce(PlayLanes(l, more).taken, p)
      {
        BelowStaysOnce(l, more, p);
      }
    } else {
      var a :| 0 <= a < |l.taken| && l.taken[a].playerIndex == p && l.taken[a].frame < U64_MAX
               && CursorOf(l.slow.room.clock, p) <= l.taken[a].frame;
      var more := TakenComesAgain(l, a);
    }
  }

  /** The room is not closed, and the socket speaks for the player, who has had a frame below the ceiling taken
      over some lane. */
  predicate SpeaksForTaken(l: Lanes, connectionId: ConnectionId, p: PlayerIndex) {
    && l.slow.room.clock.status != RoomClosed && OwnerOf(l.slow.room.clock, connectionId) == Some(p)
    && exists a :: 0 <= a < |l.taken| && l.taken[a].playerIndex == p && l.taken[a].frame < U64_MAX
  }

  /** A closing within the session lets a frame come again over either lane exactly when it takes the cursor of a
      player who has had a frame below the ceiling taken over some lane, in a room that is not closed. */
  lemma ClosingLetsLanesRepeatExactlyWhen(l: Lanes, events: seq<LaneEvent>, connectionId: ConnectionId, handoff: bool,
                                          p: PlayerIndex)
    requires LanesRestarted(l) && LawfulLanes(l, events)
    requires !EndsSession(PlayLanes(l, events).slow.room.clock, connectionId, handoff)
    requires LanesNeverRepeat(PlayLanes(l, events), p)
    ensures var end := PlayLanes(l, events);
            !LanesNeverRepeat(AfterLane(end, Other(SocketClosed(connectionId, handoff))), p) <==>
              SpeaksForTaken(end, connectionId, p)
  {
    var closing := Other(SocketClosed(connectionId, handoff));
    LanesNeverRepeatExactlyWhen(l, events, p);
    LanesNext(l, events, closing);
    LanesNeverRepeatExactlyWhen(l, events + [closing], p);
    LanesStayInReach(l, events);
    ClosingLeavesTakenBelow(PlayLanes(l, events), connectionId, handoff, p);
  }

  lemma ClosingLeavesTakenBelow(l: Lanes, connectionId: ConnectionId, handoff: bool, p: PlayerIndex)
    requires TakenInReach(l) && !EndsSession(l.slow.room.clock, connectionId, handoff)
    requires TakenBelow(l, p) || l.slow.room.clock.status == RoomClosed
    ensures var after := AfterLane(l, Other(SocketClosed(connectionId, handoff)));
            && after.taken == l.taken
            && (TakenBelow(after, p) || after.slow.room.clock.status == RoomClosed <==>
                  !SpeaksForTaken(l, connectionId, p))
  {
    var after := AfterLane(l, Other(SocketClosed(connectionId, handoff)));
    ClosingDropsExactlyWhen(l.slow.room.clock, connectionId, handoff, p);
    ClosingKeepsRest(l.slow.room.clock, connectionId, handoff);
    if OwnerOf(l.slow.room.clock, connectionId) == Some(p) {
      assert CursorOf(after.slow.room.clock, p) == l.slow.room.clock.syncStartFrame;
      forall a | 0 <= a < |l.taken| ensures l.slow.room.clock.syncStartFrame <= l.taken[a].frame {
        assert Admissible(l.slow.room, l.taken[a].playerIndex, l.taken[a].frame);
      }
    }
  }
}
