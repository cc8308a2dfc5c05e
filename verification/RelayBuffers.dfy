/** The relay's release buffers: accepted input waits under its frame number
    until the canonical frame reaches it, and is then emitted or, when its epochs
    are no longer current, dropped. */
module RelayBuffers {
  import opened Prelude
  import opened BigEndian
  import Sbi1 = InputBatchCodec
  import Sbi2 = FastInputCodec

  /** One accepted input, with the epochs it was accepted under. */
  datatype Buffered<+P> = Buffered(source: ConnectionId, roomEpoch: U64, sessionEpoch: U64, frame: U64, body: P)

  type Held<P> = map<U64, seq<Buffered<P>>>

  function HeldAt<P>(held: Held<P>, frame: U64): seq<Buffered<P>> {
    if frame in held then held[frame] else []
  }

  function Push<P>(held: Held<P>, item: Buffered<P>): Held<P> {
    held[item.frame := HeldAt(held, item.frame) + [item]]
  }

  predicate IsCurrent<P>(item: Buffered<P>, roomEpoch: U64, sessionEpoch: U64) {
    item.roomEpoch == roomEpoch && item.sessionEpoch == sessionEpoch
  }

  /** The items of the given epochs, or with `current` false the stale ones, in order. */
  function Sift<P>(items: seq<Buffered<P>>, roomEpoch: U64, sessionEpoch: U64, current: bool): seq<Buffered<P>>
    decreases |items|
  {
    if items == [] then []
    else
      var last := items[|items| - 1];
      Sift(items[..|items| - 1], roomEpoch, sessionEpoch, current)
      + (if IsCurrent(last, roomEpoch, sessionEpoch) == current then [last] else [])
  }

  // Runs of a buffer

  datatype BufferEvent<+P> = Pushed(item: Buffered<P>) | Drained(frame: U64, roomEpoch: U64, sessionEpoch: U64)

  function After<P>(held: Held<P>, event: BufferEvent<P>): Held<P> {
    match event
    case Pushed(item) => Push(held, item)
    case Drained(frame, _, _) => held - {frame}
  }

  function Run<P>(events: seq<BufferEvent<P>>): Held<P>
    decreases |events|
  {
    if events == [] then map[] else After(Run(events[..|events| - 1]), events[|events| - 1])
  }

  function PushedItems<P>(events: seq<BufferEvent<P>>): seq<Buffered<P>>
    decreases |events|
  {
    if events == [] then []
    else
      var last := events[|events| - 1];
      PushedItems(events[..|events| - 1]) + (if last.Pushed? then [last.item] else [])
  }

  /** What drains put out, or with `current` false what they dropped as stale, in order. */
  function DrainedItems<P>(events: seq<BufferEvent<P>>, current: bool): seq<Buffered<P>>
    decreases |events|
  {
    if events == [] then []
    else
      var front, last := events[..|events| - 1], events[|events| - 1];
      DrainedItems(front, current)
      + (if last.Drained? then Sift(HeldAt(Run(front), last.frame), last.roomEpoch, last.sessionEpoch, current) else [])
  }

  lemma {:induction false} SiftSplits<P>(items: seq<Buffered<P>>, roomEpoch: U64, sessionEpoch: U64)
    ensures multiset(items)
         == multiset(Sift(items, roomEpoch, sessionEpoch, true)) + multiset(Sift(items, roomEpoch, sessionEpoch, false))
    decreases |items|
  {
    if items != [] {
      assert items == items[..|items| - 1] + [items[|items| - 1]];
      SiftSplits(items[..|items| - 1], roomEpoch, sessionEpoch);
    }
  }

  /** Items wait under their own frame number. */
  predicate Filed<P>(held: Held<P>) {
    forall f, i :: f in held && 0 <= i < |held[f]| ==> held[f][i].frame == f
  }

  lemma {:induction false} RunIsFiled<P>(events: seq<BufferEvent<P>>)
    ensures Filed(Run(events))
    decreases |events|
  {
    if events != [] {
      RunIsFiled(events[..|events| - 1]);
    }
  }

  function Count<P(==)>(items: seq<Buffered<P>>, x: Buffered<P>): nat {
    multiset(items)[x]
  }

  lemma CountSplits<P>(a: seq<Buffered<P>>, b: seq<Buffered<P>>, x: Buffered<P>)
    ensures Count(a + b, x) == Count(a, x) + Count(b, x)
  {
    assert multiset(a + b) == multiset(a) + multiset(b);
  }

  lemma PushIsCounted<P>(held: Held<P>, item: Buffered<P>, x: Buffered<P>)
    ensures Count(HeldAt(Push(held, item), x.frame), x) == Count(HeldAt(held, x.frame), x) + Count([item], x)
  {
    CountSplits(HeldAt(held, x.frame), [item], x);
  }

  lemma DrainIsCounted<P>(held: Held<P>, frame: U64, roomEpoch: U64, sessionEpoch: U64, x: Buffered<P>)
    requires Filed(held)
    ensures var items := HeldAt(held, frame);
            Count(HeldAt(held, x.frame), x)
            == Count(Sift(items, roomEpoch, sessionEpoch, true), x)
               + Count(Sift(items, roomEpoch, sessionEpoch, false), x)
               + Count(HeldAt(held - {frame}, x.frame), x)
  {
    var items := HeldAt(held, frame);
    SiftSplits(items, roomEpoch, sessionEpoch);
    if x.frame != frame {
      assert x !in items;
      assert Count(items, x) == 0;
    }
  }

  /** Conservation: over any run of pushes and drains, every input is accounted for. As often as it was
      pushed, it was emitted, dropped as stale, or is still held under its frame. */
  lemma {:induction false} NothingIsLostOrDuplicated<P>(events: seq<BufferEvent<P>>, x: Buffered<P>)
    ensures Count(PushedItems(events), x)
         == Count(DrainedItems(events, true), x) + Count(DrainedItems(events, false), x)
            + Count(HeldAt(Run(events), x.frame), x)
    decreases |events|
  {
    if events != [] {
      var front, last := events[..|events| - 1], events[|events| - 1];
      NothingIsLostOrDuplicated(front, x);
      var held := Run(front);
      match last
      case Pushed(item) =>
        PushIsCounted(held, item, x);
        CountSplits(PushedItems(front), [item], x);
        assert DrainedItems(events, true) == DrainedItems(front, true);
        assert DrainedItems(events, false) == DrainedItems(front, false);
      case Drained(frame, roomEpoch, sessionEpoch) =>
        RunIsFiled(front);
        DrainIsCounted(held, frame, roomEpoch, sessionEpoch, x);
        var items := HeldAt(held, frame);
        CountSplits(DrainedItems(front, true), Sift(items, roomEpoch, sessionEpoch, true), x);
        CountSplits(DrainedItems(front, false), Sift(items, roomEpoch, sessionEpoch, false), x);
        assert PushedItems(events) == PushedItems(front);
    }
  }

  function At<P>(items: seq<Buffered<P>>, frame: U64): seq<Buffered<P>>
    decreases |items|
  {
    if items == [] then []
    else
      var last := items[|items| - 1];
      At(items[..|items| - 1], frame) + (if last.frame == frame then [last] else [])
  }

  /** Everything drains took out from under a frame, current or stale, in order. */
  function TakenAt<P>(events: seq<BufferEvent<P>>, frame: U64): seq<Buffered<P>>
    decreases |events|
  {
    if events == [] then []
    else
      var front, last := events[..|events| - 1], events[|events| - 1];
      TakenAt(front, frame) + (if last.Drained? && last.frame == frame then HeldAt(Run(front), frame) else [])
  }

  /** Within a frame, input leaves in the order it arrived: what was taken out followed by what is still
      held is what was pushed. */
  lemma {:induction false} FramesAreQueues<P>(events: seq<BufferEvent<P>>, frame: U64)
    ensures At(PushedItems(events), frame) == TakenAt(events, frame) + HeldAt(Run(events), frame)
    decreases |events|
  {
    if events != [] {
      var front, last := events[..|events| - 1], events[|events| - 1];
      FramesAreQueues(front, frame);
      if last.Pushed? {
        var items := PushedItems(front) + [last.item];
        assert items[..|items| - 1] == PushedItems(front);
      } else {
        assert PushedItems(events) == PushedItems(front);
      }
    }
  }

  // Batches of one released frame

  datatype BatchKey = BatchKey(source: ConnectionId, playerIndex: byte)

  datatype BufferedBatch = BufferedBatch(source: ConnectionId, batch: Sbi1.InputFrameBatch)

  type BufferedInput = Buffered<Sbi1.InputFrame>

  function KeyOf(item: BufferedInput): BatchKey {
    BatchKey(item.source, item.body.playerIndex)
  }

  function BatchKeyOf(batch: BufferedBatch): BatchKey {
    BatchKey(batch.source, batch.batch.playerIndex)
  }

  function BatchFor(batches: seq<BufferedBatch>, key: BatchKey): (k: nat)
    ensures k <= |batches|
    ensures k < |batches| ==> BatchKeyOf(batches[k]) == key
    ensures forall j :: 0 <= j < k ==> BatchKeyOf(batches[j]) != key
  {
    IndexWhere(batches, (batch: BufferedBatch) => BatchKeyOf(batch) == key)
  }

  function PushToBatch(batches: seq<BufferedBatch>, item: BufferedInput): seq<BufferedBatch> {
    var k := BatchFor(batches, KeyOf(item));
    if k < |batches| then
      batches[k := batches[k].(batch := batches[k].batch.(frames := batches[k].batch.frames + [item.body]))]
    else
      batches + [BufferedBatch(item.source, Sbi1.InputFrameBatch(item.roomEpoch, item.sessionEpoch,
                                                                 item.body.playerIndex, [item.body]))]
  }

  function Grouped(items: seq<BufferedInput>): seq<BufferedBatch>
    decreases |items|
  {
    if items == [] then [] else PushToBatch(Grouped(items[..|items| - 1]), items[|items| - 1])
  }

  /** The inputs of one socket and player, in order of arrival. */
  function InputsOf(items: seq<BufferedInput>, key: BatchKey): seq<Sbi1.InputFrame>
    decreases |items|
  {
    if items == [] then []
    else
      var last := items[|items| - 1];
      InputsOf(items[..|items| - 1], key) + (if KeyOf(last) == key then [last.body] else [])
  }

  /** The sockets and players, in order of first arrival. */
  function Keys(items: seq<BufferedInput>): seq<BatchKey>
    decreases |items|
  {
    if items == [] then []
    else
      var keys, key := Keys(items[..|items| - 1]), KeyOf(items[|items| - 1]);
      if key in keys then keys else keys + [key]
  }

  predicate SameEpochs<P>(items: seq<Buffered<P>>, roomEpoch: U64, sessionEpoch: U64) {
    forall i :: 0 <= i < |items| ==> IsCurrent(items[i], roomEpoch, sessionEpoch)
  }

  /** The batch at position `k` collects exactly what its key pushed. */
  predicate BatchIsRight(batches: seq<BufferedBatch>, k: nat, items: seq<BufferedInput>, roomEpoch: U64,
                         sessionEpoch: U64)
    requires k < |batches|
  {
    var batch := batches[k].batch;
    && batch.roomEpoch == roomEpoch && batch.sessionEpoch == sessionEpoch
    && batch.frames == InputsOf(items, BatchKeyOf(batches[k]))
    && batch.frames != [] && OwnedBy(batch.frames, batch.playerIndex)
  }

  predicate OwnedBy(frames: seq<Sbi1.InputFrame>, playerIndex: byte) {
    forall i :: 0 <= i < |frames| ==> frames[i].playerIndex == playerIndex
  }

  lemma {:induction false} InputsAreOwned(items: seq<BufferedInput>, key: BatchKey)
    ensures OwnedBy(InputsOf(items, key), key.playerIndex)
    decreases |items|
  {
    if items != [] {
      InputsAreOwned(items[..|items| - 1], key);
    }
  }

  lemma {:induction false} NoInputsWithoutKey(items: seq<BufferedInput>, key: BatchKey)
    ensures key in Keys(items) <==> InputsOf(items, key) != []
    decreases |items|
  {
    if items != [] {
      NoInputsWithoutKey(items[..|items| - 1], key);
    }
  }

  predicate GroupedRight(batches: seq<BufferedBatch>, items: seq<BufferedInput>, roomEpoch: U64, sessionEpoch: U64) {
    && |batches| == |Keys(items)|
    && (forall k :: 0 <= k < |batches| ==>
          BatchKeyOf(batches[k]) == Keys(items)[k] && BatchIsRight(batches, k, items, roomEpoch, sessionEpoch))
    && (forall j, k :: 0 <= j < k < |batches| ==> BatchKeyOf(batches[j]) != BatchKeyOf(batches[k]))
  }

  lemma PushKeepsGrouping(batches: seq<BufferedBatch>, front: seq<BufferedInput>, item: BufferedInput)
    requires GroupedRight(batches, front, item.roomEpoch, item.sessionEpoch)
    ensures GroupedRight(PushToBatch(batches, item), front + [item], item.roomEpoch, item.sessionEpoch)
  {
    var items, key := front + [item], KeyOf(item);
    assert items[..|items| - 1] == front;
    var k := BatchFor(batches, key);
    var after := PushToBatch(batches, item);
    if k < |batches| {
      assert Keys(front)[k] == key;
    } else {
      forall j | 0 <= j < |Keys(front)| ensures Keys(front)[j] != key {
        assert BatchKeyOf(batches[j]) != key;
      }
      NoInputsWithoutKey(front, key);
    }
    forall j | 0 <= j < |after| ensures BatchIsRight(after, j, items, item.roomEpoch, item.sessionEpoch) {
      if j < |batches| {
        assert BatchIsRight(batches, j, front, item.roomEpoch, item.sessionEpoch);
      }
      InputsAreOwned(items, BatchKeyOf(after[j]));
    }
  }

  /** One batch per socket and player, in order of first arrival, holding exactly that player's inputs
      in order of arrival, all of them the player's own, under the released epochs. */
  lemma {:induction false} GroupingIsRight(items: seq<BufferedInput>, roomEpoch: U64, sessionEpoch: U64)
    requires SameEpochs(items, roomEpoch, sessionEpoch)
    ensures GroupedRight(Grouped(items), items, roomEpoch, sessionEpoch)
    decreases |items|
  {
    if items != [] {
      var front, last := items[..|items| - 1], items[|items| - 1];
      GroupingIsRight(front, roomEpoch, sessionEpoch);
      assert IsCurrent(last, roomEpoch, sessionEpoch);
      PushKeepsGrouping(Grouped(front), front, last);
      assert front + [last] == items;
    }
  }

  // What a list of batches carries

  function Unbatched(source: ConnectionId, batch: Sbi1.InputFrameBatch): seq<BufferedInput> {
    seq(|batch.frames|, i requires 0 <= i < |batch.frames| =>
      Buffered(source, batch.roomEpoch, batch.sessionEpoch, batch.frames[i].frame, batch.frames[i]))
  }

  function Carried(batches: seq<BufferedBatch>): (r: multiset<BufferedInput>) {
    if batches == [] then multiset{}
    else multiset(Unbatched(batches[0].source, batches[0].batch)) + Carried(batches[1..])
  }

  lemma UnbatchedOneMore(source: ConnectionId, batch: Sbi1.InputFrameBatch, input: Sbi1.InputFrame)
    ensures multiset(Unbatched(source, batch.(frames := batch.frames + [input])))
         == multiset(Unbatched(source, batch))
            + multiset{Buffered(source, batch.roomEpoch, batch.sessionEpoch, input.frame, input)}
  {
    assert Unbatched(source, batch.(frames := batch.frames + [input]))
        == Unbatched(source, batch) + [Buffered(source, batch.roomEpoch, batch.sessionEpoch, input.frame, input)];
  }

  lemma {:induction false} CarriedUpdate(batches: seq<BufferedBatch>, k: nat, input: Sbi1.InputFrame)
    requires k < |batches|
    ensures var b := batches[k];
            Carried(batches[k := b.(batch := b.batch.(frames := b.batch.frames + [input]))])
            == Carried(batches)
               + multiset{Buffered(b.source, b.batch.roomEpoch, b.batch.sessionEpoch, input.frame, input)}
    decreases |batches|
  {
    var b := batches[k];
    var grown := b.(batch := b.batch.(frames := b.batch.frames + [input]));
    var after := batches[k := grown];
    if k == 0 {
      UnbatchedOneMore(b.source, b.batch, input);
      assert after[1..] == batches[1..];
    } else {
      CarriedUpdate(batches[1..], k - 1, input);
      assert after[1..] == batches[1..][k - 1 := grown];
    }
  }

  lemma {:induction false} CarriedAppend(batches: seq<BufferedBatch>, b: BufferedBatch)
    ensures Carried(batches + [b]) == Carried(batches) + multiset(Unbatched(b.source, b.batch))
    decreases |batches|
  {
    if batches != [] {
      assert (batches + [b])[1..] == batches[1..] + [b];
      CarriedAppend(batches[1..], b);
    }
  }

  predicate OwnFrame(item: BufferedInput) {
    item.frame == item.body.frame
  }

  /** Grouping neither loses nor repeats an input. */
  lemma {:induction false} GroupingCarriesAll(items: seq<BufferedInput>, roomEpoch: U64, sessionEpoch: U64)
    requires SameEpochs(items, roomEpoch, sessionEpoch)
    requires forall i :: 0 <= i < |items| ==> OwnFrame(items[i])
    ensures Carried(Grouped(items)) == multiset(items)
    decreases |items|
  {
    if items != [] {
      var front, last := items[..|items| - 1], items[|items| - 1];
      assert items == front + [last];
      GroupingCarriesAll(front, roomEpoch, sessionEpoch);
      GroupingIsRight(front, roomEpoch, sessionEpoch);
      assert IsCurrent(last, roomEpoch, sessionEpoch) && OwnFrame(last);
      var batches := Grouped(front);
      var k := BatchFor(batches, KeyOf(last));
      if k < |batches| {
        assert BatchIsRight(batches, k, front, roomEpoch, sessionEpoch);
        CarriedUpdate(batches, k, last.body);
      } else {
        var b := BufferedBatch(last.source, Sbi1.InputFrameBatch(last.roomEpoch, last.sessionEpoch,
                                                                 last.body.playerIndex, [last.body]));
        CarriedAppend(batches, b);
        assert Unbatched(b.source, b.batch) == [last];
      }
    }
  }

  lemma {:induction false} SiftedAreCurrent<P>(items: seq<Buffered<P>>, roomEpoch: U64, sessionEpoch: U64)
    ensures forall i :: 0 <= i < |Sift(items, roomEpoch, sessionEpoch, true)| ==>
              IsCurrent(Sift(items, roomEpoch, sessionEpoch, true)[i], roomEpoch, sessionEpoch)
    decreases |items|
  {
    if items != [] {
      SiftedAreCurrent(items[..|items| - 1], roomEpoch, sessionEpoch);
    }
  }

  predicate Subsequence<T(==)>(a: seq<T>, b: seq<T>)
    decreases |b|
  {
    if b == [] then a == []
    else
      || Subsequence(a, b[..|b| - 1])
      || (a != [] && a[|a| - 1] == b[|b| - 1] && Subsequence(a[..|a| - 1], b[..|b| - 1]))
  }

  lemma {:induction false} SiftKeepsOrder<P>(items: seq<Buffered<P>>, roomEpoch: U64, sessionEpoch: U64)
    ensures Subsequence(Sift(items, roomEpoch, sessionEpoch, true), items)
    decreases |items|
  {
    if items != [] {
      var front := items[..|items| - 1];
      SiftKeepsOrder(front, roomEpoch, sessionEpoch);
      var sifted := Sift(items, roomEpoch, sessionEpoch, true);
      if sifted != Sift(front, roomEpoch, sessionEpoch, true) {
        assert sifted[..|sifted| - 1] == Sift(front, roomEpoch, sessionEpoch, true);
      }
    }
  }

  lemma SiftOneMore<P>(items: seq<Buffered<P>>, i: nat, roomEpoch: U64, sessionEpoch: U64)
    requires i < |items|
    ensures var sifted := Sift(items[..i], roomEpoch, sessionEpoch, true);
            Sift(items[..i + 1], roomEpoch, sessionEpoch, true)
            == if IsCurrent(items[i], roomEpoch, sessionEpoch) then sifted + [items[i]] else sifted
  {
    assert items[..i + 1][..i] == items[..i];
  }

  lemma GroupedOneMore(items: seq<BufferedInput>, item: BufferedInput)
    ensures Grouped(items + [item]) == PushToBatch(Grouped(items), item)
  {
    assert (items + [item])[..|items|] == items;
  }

  /** Every input waits under the number of its own frame. */
  predicate InputsFiled(held: Held<Sbi1.InputFrame>) {
    forall f, i :: f in held && 0 <= i < |held[f]| ==> held[f][i].frame == f && OwnFrame(held[f][i])
  }

  predicate ForFrame(items: seq<BufferedInput>, frame: U64) {
    forall i :: 0 <= i < |items| ==> items[i].frame == frame && OwnFrame(items[i])
  }

  lemma {:induction false} SiftKeepsFrame(items: seq<BufferedInput>, frame: U64, roomEpoch: U64, sessionEpoch: U64)
    requires ForFrame(items, frame)
    ensures ForFrame(Sift(items, roomEpoch, sessionEpoch, true), frame)
    decreases |items|
  {
    if items != [] {
      assert items[|items| - 1].frame == frame && OwnFrame(items[|items| - 1]);
      assert forall i :: 0 <= i < |items| - 1 ==> items[..|items| - 1][i] == items[i];
      SiftKeepsFrame(items[..|items| - 1], frame, roomEpoch, sessionEpoch);
    }
  }

  lemma {:induction false} InputsKeepFrame(items: seq<BufferedInput>, frame: U64, key: BatchKey)
    requires ForFrame(items, frame)
    ensures forall i :: 0 <= i < |InputsOf(items, key)| ==> InputsOf(items, key)[i].frame == frame
    decreases |items|
  {
    if items != [] {
      assert items[|items| - 1].frame == frame && OwnFrame(items[|items| - 1]);
      assert forall i :: 0 <= i < |items| - 1 ==> items[..|items| - 1][i] == items[i];
      InputsKeepFrame(items[..|items| - 1], frame, key);
    }
  }

  /** Every input in the batches carries the one frame number. */
  predicate AllOfFrame(batches: seq<BufferedBatch>, frame: U64) {
    forall k, i :: 0 <= k < |batches| && 0 <= i < |batches[k].batch.frames| ==>
      batches[k].batch.frames[i].frame == frame
  }

  lemma GroupingKeepsFrame(items: seq<BufferedInput>, frame: U64, roomEpoch: U64, sessionEpoch: U64)
    requires ForFrame(items, frame) && SameEpochs(items, roomEpoch, sessionEpoch)
    ensures AllOfFrame(Grouped(items), frame)
  {
    GroupingIsRight(items, roomEpoch, sessionEpoch);
    var batches := Grouped(items);
    forall k, i | 0 <= k < |batches| && 0 <= i < |batches[k].batch.frames|
      ensures batches[k].batch.frames[i].frame == frame
    {
      assert BatchIsRight(batches, k, items, roomEpoch, sessionEpoch);
      InputsKeepFrame(items, frame, BatchKeyOf(batches[k]));
    }
  }

  /** All a drain promises about its batches: right groups, one frame, nothing lost or repeated. */
  lemma DrainedIsRight(held: Held<Sbi1.InputFrame>, frame: U64, roomEpoch: U64, sessionEpoch: U64)
    requires InputsFiled(held)
    ensures var items := Sift(HeldAt(held, frame), roomEpoch, sessionEpoch, true);
            && GroupedRight(Grouped(items), items, roomEpoch, sessionEpoch)
            && AllOfFrame(Grouped(items), frame)
            && Carried(Grouped(items)) == multiset(items)
  {
    var items := Sift(HeldAt(held, frame), roomEpoch, sessionEpoch, true);
    SiftedAreCurrent(HeldAt(held, frame), roomEpoch, sessionEpoch);
    SiftKeepsFrame(HeldAt(held, frame), frame, roomEpoch, sessionEpoch);
    GroupingIsRight(items, roomEpoch, sessionEpoch);
    GroupingKeepsFrame(items, frame, roomEpoch, sessionEpoch);
    GroupingCarriesAll(items, roomEpoch, sessionEpoch);
  }

  class InputFrameRelayBuffer {
    var framesByNumber: Held<Sbi1.InputFrame>

    ghost predicate Valid()
      reads this
    {
      InputsFiled(framesByNumber)
    }

    constructor ()
      ensures Valid() && framesByNumber == map[]
    {
      framesByNumber := map[];
    }

    method PushFrame(source: ConnectionId, roomEpoch: U64, sessionEpoch: U64, input: Sbi1.InputFrame)
      requires Valid()
      modifies this
      ensures Valid()
      ensures framesByNumber
           == Push(old(framesByNumber), Buffered(source, roomEpoch, sessionEpoch, input.frame, input))
    {
      var entry := HeldAt(framesByNumber, input.frame);
      entry := entry + [Buffered(source, roomEpoch, sessionEpoch, input.frame, input)];
      framesByNumber := framesByNumber[input.frame := entry];
    }

    /** Takes one frame out: its inputs of the given epochs, grouped by source and player in order of
        arrival, each of that frame and of the batch's own player, none lost or repeated. */
    method DrainFrame(frame: U64, roomEpoch: U64, sessionEpoch: U64) returns (batches: seq<BufferedBatch>)
      requires Valid()
      modifies this
      ensures Valid() && framesByNumber == old(framesByNumber) - {frame}
      ensures var items := Sift(HeldAt(old(framesByNumber), frame), roomEpoch, sessionEpoch, true);
              && GroupedRight(batches, items, roomEpoch, sessionEpoch) && AllOfFrame(batches, frame)
              && Carried(batches) == multiset(items)
              && batches == Grouped(items)
    {
      var taken := HeldAt(framesByNumber, frame);
      framesByNumber := framesByNumber - {frame};
      batches := [];
      var i := 0;
      while i < |taken|
        invariant i <= |taken|
        invariant framesByNumber == old(framesByNumber) - {frame}
        invariant batches == Grouped(Sift(taken[..i], roomEpoch, sessionEpoch, true))
      {
        var item := taken[i];
        SiftOneMore(taken, i, roomEpoch, sessionEpoch);
        if IsCurrent(item, roomEpoch, sessionEpoch) {
          GroupedOneMore(Sift(taken[..i], roomEpoch, sessionEpoch, true), item);
          batches := PushToBatch(batches, item);
        }
        i := i + 1;
      }
      assert taken[..i] == taken;
      DrainedIsRight(old(framesByNumber), frame, roomEpoch, sessionEpoch);
    }
  }

  /** A fast record is buffered under the epochs and frame it carries itself. */
  function FastItem(source: ConnectionId, frame: Sbi2.FastInputFrame): Buffered<Sbi2.FastInputFrame> {
    Buffered(source, frame.record.roomEpoch, frame.record.sessionEpoch, frame.record.frame, frame)
  }

  predicate RecordsFiled(held: Held<Sbi2.FastInputFrame>) {
    forall f, i :: f in held && 0 <= i < |held[f]| ==>
      held[f][i].frame == f && held[f][i] == FastItem(held[f][i].source, held[f][i].body)
  }

  predicate RecordsOf(items: seq<Buffered<Sbi2.FastInputFrame>>, frame: U64) {
    forall i :: 0 <= i < |items| ==> items[i].body.record.frame == frame
  }

  lemma {:induction false} SiftKeepsRecordFrame(items: seq<Buffered<Sbi2.FastInputFrame>>, frame: U64,
                                                roomEpoch: U64, sessionEpoch: U64)
    requires RecordsOf(items, frame)
    ensures RecordsOf(Sift(items, roomEpoch, sessionEpoch, true), frame)
    decreases |items|
  {
    if items != [] {
      assert forall i :: 0 <= i < |items| - 1 ==> items[..|items| - 1][i] == items[i];
      SiftKeepsRecordFrame(items[..|items| - 1], frame, roomEpoch, sessionEpoch);
    }
  }

  /** What a drain of records promises: current, of the frame, in order, and the rest is stale. */
  lemma FastDrainedIsRight(held: Held<Sbi2.FastInputFrame>, frame: U64, roomEpoch: U64, sessionEpoch: U64)
    requires RecordsFiled(held)
    ensures var items := HeldAt(held, frame);
            var ready := Sift(items, roomEpoch, sessionEpoch, true);
            && (forall i :: 0 <= i < |ready| ==> IsCurrent(ready[i], roomEpoch, sessionEpoch))
            && RecordsOf(ready, frame) && Subsequence(ready, items)
            && multiset(ready) + multiset(Sift(items, roomEpoch, sessionEpoch, false)) == multiset(items)
  {
    var items := HeldAt(held, frame);
    forall i | 0 <= i < |items| ensures items[i].body.record.frame == frame {
      assert items[i] == FastItem(items[i].source, items[i].body);
    }
    SiftKeepsRecordFrame(items, frame, roomEpoch, sessionEpoch);
    SiftedAreCurrent(items, roomEpoch, sessionEpoch);
    SiftKeepsOrder(items, roomEpoch, sessionEpoch);
    SiftSplits(items, roomEpoch, sessionEpoch);
  }

  class FastInputRelayBuffer {
    var framesByNumber: Held<Sbi2.FastInputFrame>

    ghost predicate Valid()
      reads this
    {
      RecordsFiled(framesByNumber)
    }

    constructor ()
      ensures Valid() && framesByNumber == map[]
    {
      framesByNumber := map[];
    }

    method PushFrame(source: ConnectionId, frame: Sbi2.FastInputFrame)
      requires Valid()
      modifies this
      ensures Valid()
      ensures framesByNumber == Push(old(framesByNumber), FastItem(source, frame))
    {
      var entry := HeldAt(framesByNumber, frame.record.frame);
      framesByNumber := framesByNumber[frame.record.frame := entry + [FastItem(source, frame)]];
    }

    /** Takes one frame out: its records of the given epochs in order of arrival, each of that frame; the
        rest of what was held is stale. */
    method DrainFrame(frame: U64, roomEpoch: U64, sessionEpoch: U64)
      returns (ready: seq<Buffered<Sbi2.FastInputFrame>>)
      requires Valid()
      modifies this
      ensures Valid() && framesByNumber == old(framesByNumber) - {frame}
      ensures forall i :: 0 <= i < |ready| ==> IsCurrent(ready[i], roomEpoch, sessionEpoch)
      ensures RecordsOf(ready, frame) && Subsequence(ready, HeldAt(old(framesByNumber), frame))
      ensures multiset(ready) + multiset(Sift(HeldAt(old(framesByNumber), frame), roomEpoch, sessionEpoch, false))
           == multiset(HeldAt(old(framesByNumber), frame))
      ensures ready == Sift(HeldAt(old(framesByNumber), frame), roomEpoch, sessionEpoch, true)
    {
      var taken := HeldAt(framesByNumber, frame);
      framesByNumber := framesByNumber - {frame};
      ready := [];
      var i := 0;
      while i < |taken|
        invariant i <= |taken| && framesByNumber == old(framesByNumber) - {frame}
        invariant ready == Sift(taken[..i], roomEpoch, sessionEpoch, true)
      {
        SiftOneMore(taken, i, roomEpoch, sessionEpoch);
        assert taken[i].frame == frame && taken[i] == FastItem(taken[i].source, taken[i].body);
        if taken[i].body.record.roomEpoch == roomEpoch && taken[i].body.record.sessionEpoch == sessionEpoch {
          ready := ready + [taken[i]];
        }
        i := i + 1;
      }
      assert taken[..i] == taken;
      FastDrainedIsRight(old(framesByNumber), frame, roomEpoch, sessionEpoch);
    }
  }
}
