/** The order in which input waits and leaves: for each frame what a session found in the
    buffer, and then what it admitted for that frame. */
module RelayQueues {
  import opened Prelude
  import opened RoomTypes
  import opened BigEndian
  import opened FrameClock
  import opened InputSockets
  import opened RelayBuffers
  import opened RelayPipeline
  import opened RelayCursors
  import Sbi1 = InputBatchCodec

  lemma {:induction false} AtSplits<P>(a: seq<Buffered<P>>, b: seq<Buffered<P>>, frame: U64)
    ensures At(a + b, frame) == At(a, frame) + At(b, frame)
    decreases |b|
  {
    if b == [] {
      assert a + b == a;
    } else {
      AtSplits(a, b[..|b| - 1], frame);
      assert (a + b)[..|a + b| - 1] == a + b[..|b| - 1];
    }
  }

  lemma AtOneMore<P>(items: seq<Buffered<P>>, item: Buffered<P>, frame: U64)
    ensures At(items + [item], frame) == At(items, frame) + if item.frame == frame then [item] else []
  {
    assert (items + [item])[..|items|] == items;
  }

  lemma RelayOneWaits(c: Clock, r: Relayed, source: ConnectionId, input: InputFrame, frame: U64)
    requires !Released(c, frame)
    ensures HeldAt(RelayOne(c, r, source, input).held, frame)
         == HeldAt(r.held, frame) + if input.frame == frame then [ItemOf(c, source, input)] else []
  {
    assert HeldAt(r.held, frame) + [] == HeldAt(r.held, frame);
  }

  lemma {:induction false} RelayedWaitInOrder(c: Clock, held: Held<InputFrame>, source: ConnectionId,
                                              inputs: seq<InputFrame>, frame: U64)
    requires !Released(c, frame)
    ensures HeldAt(RelayAll(c, Relayed(held, []), source, inputs).held, frame)
         == HeldAt(held, frame) + At(Items(c, source, inputs), frame)
    decreases |inputs|
  {
    if inputs == [] {
      assert HeldAt(held, frame) + [] == HeldAt(held, frame);
    } else {
      var front, last := inputs[..|inputs| - 1], inputs[|inputs| - 1];
      RelayedWaitInOrder(c, held, source, front, frame);
      RelayOneWaits(c, RelayAll(c, Relayed(held, []), source, front), source, last, frame);
      AtOneMore(Items(c, source, front), ItemOf(c, source, last), frame);
      assert Items(c, source, inputs) == Items(c, source, front) + [ItemOf(c, source, last)];
    }
  }

  /** A frame not yet released has waiting for it what was left over and what was admitted, in that order. */
  predicate Queued(j: Journal, left: seq<BufferedInput>, frame: U64) {
    !Released(j.room.clock, frame) ==> HeldAt(j.room.held, frame) == left + At(j.admitted, frame)
  }

  lemma AcceptedKeepsQueue(c: Clock, moved: Clock, held: Held<InputFrame>, admitted: seq<BufferedInput>,
                           source: ConnectionId, inputs: seq<InputFrame>, left: seq<BufferedInput>, frame: U64)
    requires HeldAt(held, frame) == left + At(admitted, frame) && !Released(moved, frame)
    requires moved == c.(lastInputFrames := moved.lastInputFrames, nextInputFrames := moved.nextInputFrames)
    ensures HeldAt(RelayAll(moved, Relayed(held, []), source, inputs).held, frame)
         == left + At(admitted + Items(c, source, inputs), frame)
  {
    var news := Items(c, source, inputs);
    RelayedWaitInOrder(moved, held, source, inputs, frame);
    ItemsAgree(c, moved, source, inputs);
    AtSplits(admitted, news, frame);
    Regroup(left, At(admitted, frame), At(news, frame));
  }

  lemma ItemsAgree(c: Clock, d: Clock, source: ConnectionId, inputs: seq<InputFrame>)
    requires d.roomEpoch == c.roomEpoch && d.sessionEpoch == c.sessionEpoch
    ensures Items(d, source, inputs) == Items(c, source, inputs)
  {
  }

  lemma Regroup<T>(a: seq<T>, b: seq<T>, c: seq<T>)
    ensures (a + b) + c == a + (b + c)
  {
  }

  lemma BatchKeepsQueue(j: Journal, connectionId: ConnectionId, batch: Sbi1.InputFrameBatch,
                        left: seq<BufferedInput>, frame: U64)
    requires Queued(j, left, frame) && j.room == Synchronized(j.room)
    ensures Queued(AfterEvent(j, InputBatch(connectionId, batch)), left, frame)
  {
    var c, inputs := j.room.clock, AdmittedInputs(j.room, connectionId, batch);
    if RelayBatch(j.room, connectionId, batch).1.Err? {
      assert j.admitted + Items(c, connectionId, inputs) == j.admitted;
    } else if !Released(c, frame) {
      BatchResult(j.room, connectionId, batch);
      AcceptedKeepsQueue(c, RelayBatch(j.room, connectionId, batch).0.clock, j.room.held, j.admitted, connectionId,
                         inputs, left, frame);
    }
  }

  lemma EventKeepsQueue(j: Journal, event: Event, left: seq<BufferedInput>, frame: U64)
    requires Queued(j, left, frame) && LawfulEvent(j, event)
    requires j.room == Synchronized(j.room) && CursorFits(j.room.clock)
    ensures Queued(AfterEvent(j, event), left, frame)
  {
    match event
    case Circumstance(_) =>
    case SocketClosed(connectionId, handoff) => ClosingKeepsRest(j.room.clock, connectionId, handoff);
    case ClockTick(t) => ReleaseMovesCursor(j.room.clock, t);
    case InputBatch(connectionId, batch) => BatchKeepsQueue(j, connectionId, batch, left, frame);
  }

  /** In every run: until a frame is released, what the session found for it and what it admitted for it
      waits, all of it and in that order. */
  lemma {:induction false} PlayKeepsQueues(j: Journal, events: seq<Event>, frame: U64)
    requires Restarted(j) && Lawful(j, events)
    ensures Queued(Play(j, events), HeldAt(j.room.held, frame), frame)
    decreases |events|
  {
    if events == [] {
      assert HeldAt(j.room.held, frame) + At(j.admitted, frame) == HeldAt(j.room.held, frame);
    } else {
      var front := events[..|events| - 1];
      PlayKeepsQueues(j, front, frame);
      PlayStaysSound(j, front, AnyInput(j.room.clock));
      EventKeepsQueue(Play(j, front), events[|events| - 1], HeldAt(j.room.held, frame), frame);
    }
  }

  lemma HeldAreCurrent(j: Journal, events: seq<Event>, frame: U64)
    requires Restarted(j) && Lawful(j, events)
    ensures var room := Play(j, events).room;
            SameEpochs(HeldAt(room.held, frame), room.clock.roomEpoch, room.clock.sessionEpoch)
  {
    PlayStaysSynchronized(j, events);
    var end := Play(j, events);
    var items := HeldAt(end.room.held, frame);
    forall i | 0 <= i < |items| ensures IsCurrent(items[i], end.room.clock.roomEpoch, end.room.clock.sessionEpoch) {
      assert Waits(end.room.clock, frame, end.room.held[frame][i]);
    }
  }

  /** What the next released frame takes out. */
  function Queue(j: Journal, events: seq<Event>): seq<BufferedInput> {
    var frame := Play(j, events).room.clock.nextReleaseFrame;
    HeldAt(j.room.held, frame) + At(Play(j, events).admitted, frame)
  }

  lemma HeldIsQueue(j: Journal, events: seq<Event>)
    requires Restarted(j) && Lawful(j, events) && Play(j, events).room.clock.nextReleaseFrame < U64_MAX
    ensures HeldAt(Play(j, events).room.held, Play(j, events).room.clock.nextReleaseFrame) == Queue(j, events)
  {
    PlayStaysSound(j, events, AnyInput(j.room.clock));
    PlayKeepsQueues(j, events, Play(j, events).room.clock.nextReleaseFrame);
  }

  lemma TickSendsHeld(room: Room, t: nat)
    requires room == Synchronized(room)
    requires SameEpochs(HeldAt(room.held, room.clock.nextReleaseFrame), room.clock.roomEpoch, room.clock.sessionEpoch)
    ensures SentBy(room, ClockTick(t))
         == if Release(room.clock, t).1.Some? then Grouped(HeldAt(room.held, room.clock.nextReleaseFrame)) else []
  {
    ReleaseMovesCursor(room.clock, t);
    SiftKeepsCurrent(HeldAt(room.held, room.clock.nextReleaseFrame), room.clock.roomEpoch, room.clock.sessionEpoch);
  }

  /** A release below the 64-bit ceiling sends one batch per socket and player, made of what was left over for
      the frame and then what was admitted for it. */
  lemma ReleaseSendsQueue(j: Journal, events: seq<Event>, t: nat)
    requires Restarted(j) && Lawful(j, events) && Play(j, events).room.clock.nextReleaseFrame < U64_MAX
    ensures var c, sent := Play(j, events).room.clock, SentBy(Play(j, events).room, ClockTick(t));
            && SameEpochs(Queue(j, events), c.roomEpoch, c.sessionEpoch)
            && sent == if Release(c, t).1.Some? then Grouped(Queue(j, events)) else []
  {
    var room := Play(j, events).room;
    HeldIsQueue(j, events);
    HeldAreCurrent(j, events, room.clock.nextReleaseFrame);
    PlayStaysSynchronized(j, events);
    TickSendsHeld(room, t);
  }

  // Sockets that no longer speak for a player

  /** The socket is at the player's seat. */
  predicate Seated(c: Clock, key: BatchKey) {
    exists k :: 0 <= k < |c.players| && c.players[k].inputConnectionId == Some(key.source)
                && c.players[k].playerIndex == key.playerIndex
  }

  predicate Gone(j: Journal, key: BatchKey) {
    key.source in j.sockets && !Seated(j.room.clock, key)
  }

  lemma SeatsKeepGone(c: Clock, d: Clock, key: BatchKey, known: set<ConnectionId>)
    requires !Seated(c, key) && key.source in known && SeatsMove(c, d, known)
    ensures !Seated(d, key)
  {
    forall k | 0 <= k < |d.players| && d.players[k].inputConnectionId == Some(key.source)
      ensures d.players[k].playerIndex != key.playerIndex
    {
      assert c.players[k].inputConnectionId == Some(key.source);
    }
  }

  lemma EventKeepsGone(j: Journal, event: Event, key: BatchKey)
    requires Gone(j, key) && LawfulEvent(j, event)
    requires SeatsValid(j.room.clock.players) && j.room == Synchronized(j.room)
    ensures Gone(AfterEvent(j, event), key)
  {
    var c := j.room.clock;
    match event
    case Circumstance(clock) => SeatsKeepGone(c, clock, key, j.sockets);
    case SocketClosed(connectionId, handoff) =>
      ClosingMovesSeats(c, connectionId, handoff, j.sockets);
      SeatsKeepGone(c, CloseSocket(c, connectionId, handoff).0, key, j.sockets);
    case ClockTick(t) =>
      TickMovesSeats(c, t, j.sockets);
      SeatsKeepGone(c, Release(c, t).0, key, j.sockets);
    case InputBatch(connectionId, batch) =>
      MessageMovesCursor(j.room, connectionId, batch);
      assert RelayBatch(j.room, connectionId, batch).0.clock.players == c.players;
  }

  predicate NoneOf(admitted: seq<BufferedInput>, key: BatchKey) {
    forall a :: 0 <= a < |admitted| ==> KeyOf(admitted[a]) != key
  }

  lemma GoneSendsNothing(j: Journal, event: Event, key: BatchKey)
    requires Gone(j, key) && NoneOf(j.admitted, key)
    ensures NoneOf(AfterEvent(j, event).admitted, key)
  {
    if event.InputBatch? {
      var c, connectionId := j.room.clock, event.connectionId;
      MessageMovesCursor(j.room, connectionId, event.batch);
      var k := SeatHolding(c.players, connectionId);
      assert k < |c.players| && connectionId == key.source ==> c.players[k].playerIndex != key.playerIndex;
    }
  }

  /** A socket that has left a player's seat never gets input admitted for the player again. */
  lemma {:induction false} GoneStaysGone(j: Journal, events: seq<Event>, key: BatchKey)
    requires Restarted(j) && Lawful(j, events) && Gone(j, key)
    ensures Gone(Play(j, events), key) && NoneOf(Play(j, events).admitted, key)
    decreases |events|
  {
    if events != [] {
      var front := events[..|events| - 1];
      GoneStaysGone(j, front, key);
      PlayStaysSynchronized(j, front);
      PlayStaysKeyOrderly(j, front);
      EventKeepsGone(Play(j, front), events[|events| - 1], key);
      GoneSendsNothing(Play(j, front), events[|events| - 1], key);
    }
  }

  // One socket's and player's part of a queue

  lemma {:induction false} InputsSplit(a: seq<BufferedInput>, b: seq<BufferedInput>, key: BatchKey)
    ensures InputsOf(a + b, key) == InputsOf(a, key) + InputsOf(b, key)
    decreases |b|
  {
    if b == [] {
      assert a + b == a;
    } else {
      InputsSplit(a, b[..|b| - 1], key);
      assert (a + b)[..|a + b| - 1] == a + b[..|b| - 1];
    }
  }

  /** Of one socket and player there is at most one admitted input for a frame. */
  lemma {:induction false} OneAtFrame(admitted: seq<BufferedInput>, frame: U64, key: BatchKey)
    requires KeysRise(admitted) && frame < U64_MAX
    ensures var inputs := InputsOf(At(admitted, frame), key);
            inputs == [] || exists a :: 0 <= a < |admitted| && KeyOf(admitted[a]) == key && admitted[a].frame == frame
                                        && inputs == [admitted[a].body]
    decreases |admitted|
  {
    if admitted != [] {
      var front, last := admitted[..|admitted| - 1], admitted[|admitted| - 1];
      assert forall a :: 0 <= a < |front| ==> front[a] == admitted[a];
      OneAtFrame(front, frame, key);
      InputsSplit(At(front, frame), [last], key);
      assert InputsOf([last], key) == if KeyOf(last) == key then [last.body] else [] by {
        assert [last][..0] == [];
      }
      assert At(front, frame) + [] == At(front, frame);
      var before := InputsOf(At(front, frame), key);
      if before != [] {
        var a :| 0 <= a < |front| && KeyOf(front[a]) == key && front[a].frame == frame && before == [front[a].body];
        assert KeyOf(admitted[a]) == key && admitted[a].frame == frame;
        assert last.frame == frame ==> KeyOf(last) != key;
      } else if last.frame == frame && KeyOf(last) == key {
        assert InputsOf(At(admitted, frame), key) == [last.body];
      }
    }
  }

  lemma NoInputsOf(admitted: seq<BufferedInput>, frame: U64, key: BatchKey)
    requires KeysRise(admitted) && frame < U64_MAX && NoneOf(admitted, key)
    ensures InputsOf(At(admitted, frame), key) == []
  {
    OneAtFrame(admitted, frame, key);
  }

  lemma {:induction false} HasInputs(items: seq<BufferedInput>, i: nat)
    requires i < |items|
    ensures InputsOf(items, KeyOf(items[i])) != []
    decreases |items|
  {
    if i < |items| - 1 {
      HasInputs(items[..|items| - 1], i);
    }
  }

  /** An input of a socket and player comes from an item of theirs. */
  lemma {:induction false} InputsHaveItem(items: seq<BufferedInput>, key: BatchKey)
    requires InputsOf(items, key) != []
    ensures exists i :: 0 <= i < |items| && KeyOf(items[i]) == key
    decreases |items|
  {
    var front := items[..|items| - 1];
    if KeyOf(items[|items| - 1]) != key {
      InputsHaveItem(front, key);
      var i :| 0 <= i < |front| && KeyOf(front[i]) == key;
      assert KeyOf(items[i]) == key;
    }
  }
}
