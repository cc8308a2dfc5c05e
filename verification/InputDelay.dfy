/** The startup input-delay policy: latency reports turned into a frame count by
    ceiling division at a rational frame rate, with saturating machine integers. */
module InputDelay {
  import opened Prelude

  type U32 = x: int | 0 <= x <= 0xFFFF_FFFF

  const U128_MAX: nat := 0xFFFF_FFFF_FFFF_FFFF_FFFF_FFFF_FFFF_FFFF
  const MIN_DELAY: nat := 2
  const MAX_DELAY: nat := 8
  const DEFAULT_DELAY: nat := 3
  const SAFETY_FRAMES: nat := 1
  const HIGH_PREDICTION_PRESSURE_FRAMES: nat := 45
  const FRESHNESS: int := 10_000_000_000

  datatype Report = Report(
    roundTripMs: Option<U32>, jitterMs: Option<U32>, predictionFrames: Option<U32>, lateInputFrames: Option<U32>)

  datatype Player = Player(
    connected: bool,
    report: Option<Report>,
    reportedAt: Option<int>,
    localFrame: Option<U64>,
    localFrameReportedAt: Option<int>)

  predicate IsFresh(at: Option<int>, now: int) {
    at.Some? && Max(0, now - at.value) <= FRESHNESS
  }

  function Clamp(x: int, lo: int, hi: int): int {
    Max(lo, Min(x, hi))
  }

  function DivCeil(a: nat, b: nat): nat
    requires b > 0
  {
    (a + b - 1) / b
  }

  /** Frames that cover a time span, at most eight. */
  function FramesForMsAtRate(ms: U64, numerator: U64, denominator: U64): nat {
    var dividend := Min(ms * numerator, U128_MAX);
    var divisor := Min(1000 * denominator, U128_MAX);
    Min(DivCeil(dividend, Max(divisor, 1)), MAX_DELAY)
  }

  /** `frames` frames at the given rate last at least `ms` milliseconds. */
  predicate Covers(frames: nat, ms: nat, numerator: nat, denominator: nat) {
    frames * (1000 * denominator) >= ms * numerator
  }

  lemma MulMonotone(a: int, b: int, c: int)
    requires a <= b && 0 <= c
    ensures a * c <= b * c
  {
  }

  lemma ProductFits(a: U64, b: U64)
    ensures a * b <= U128_MAX
  {
    MulMonotone(a, U64_MAX, b);
    MulMonotone(b, U64_MAX, U64_MAX);
  }

  lemma CeilIsLeast(a: nat, b: nat, f: nat)
    requires b > 0
    ensures DivCeil(a, b) * b >= a
    ensures f * b >= a ==> DivCeil(a, b) <= f
  {
    var q := DivCeil(a, b);
    assert (a + b - 1) == q * b + (a + b - 1) % b;
    if f < q {
      MulMonotone(f, q - 1, b);
    }
  }

  /** The conversion yields the least covering frame count, capped at eight, and no step of it overflows. */
  lemma FramesAreLeastCover(ms: U64, numerator: U64, denominator: U64, f: nat)
    requires denominator > 0
    ensures ms * numerator <= U128_MAX && 1000 * denominator <= U128_MAX
    ensures var r := FramesForMsAtRate(ms, numerator, denominator);
            && r <= MAX_DELAY
            && (Covers(f, ms, numerator, denominator) ==> r <= f)
            && (r < MAX_DELAY ==> Covers(r, ms, numerator, denominator))
  {
    ProductFits(ms, numerator);
    CeilIsLeast(ms * numerator, 1000 * denominator, f);
  }

  lemma FramesAreMonotone(ms: U64, more: U64, numerator: U64, denominator: U64)
    requires ms <= more && denominator > 0
    ensures FramesForMsAtRate(ms, numerator, denominator) <= FramesForMsAtRate(more, numerator, denominator)
  {
    var r := FramesForMsAtRate(more, numerator, denominator);
    FramesAreLeastCover(more, numerator, denominator, r);
    FramesAreLeastCover(ms, numerator, denominator, r);
    MulMonotone(ms, more, numerator);
  }

  // The protocol-v5 decision

  predicate Complete(player: Player, now: int) {
    && player.report.Some? && IsFresh(player.reportedAt, now)
    && player.report.value.roundTripMs.Some? && player.report.value.jitterMs.Some?
  }

  /** One player's path: half the round trip, rounded up, plus jitter. */
  function PathMs(player: Player): nat {
    if player.report.Some? && player.report.value.roundTripMs.Some? && player.report.value.jitterMs.Some?
    then (player.report.value.roundTripMs.value + 1) / 2 + player.report.value.jitterMs.value
    else 0
  }

  function SaturatingAdd(a: U64, b: U64): U64 {
    Min(a + b, U64_MAX)
  }

  /** The fold over the connected players' reports. */
  function FoldBudget(budget: U64, players: seq<Player>, now: int): U64
    requires AllComplete(players, now)
    decreases |players|
  {
    if players == [] then budget
    else if !players[0].connected then FoldBudget(budget, players[1..], now)
    else
      assert Complete(players[0], now);
      var report := players[0].report.value;
      var oneWay := SaturatingAdd(report.roundTripMs.value, 1) / 2;
      FoldBudget(SaturatingAdd(SaturatingAdd(budget, oneWay), report.jitterMs.value), players[1..], now)
  }

  function TotalPathMs(players: seq<Player>): nat {
    if players == [] then 0
    else (if players[0].connected then PathMs(players[0]) else 0) + TotalPathMs(players[1..])
  }

  predicate AnyConnected(players: seq<Player>) {
    exists i :: 0 <= i < |players| && players[i].connected
  }

  predicate AllComplete(players: seq<Player>, now: int) {
    forall i :: 0 <= i < |players| && players[i].connected ==> Complete(players[i], now)
  }

  function UsableRate(rate: Option<(U64, U64)>): (r: (U64, U64))
    ensures r.0 > 0 && r.1 > 0
  {
    if rate.Some? && rate.value.0 > 0 && rate.value.1 > 0 then rate.value else (60, 1)
  }

  /** The delay the reports call for, when every connected player sent a fresh, complete one. */
  function V5Target(players: seq<Player>, rate: Option<(U64, U64)>, now: int): Option<nat> {
    if !AnyConnected(players) || !AllComplete(players, now) then None
    else
      var (numerator, denominator) := UsableRate(rate);
      var frames := FramesForMsAtRate(FoldBudget(0, players, now), numerator, denominator);
      Some(Clamp(frames + SAFETY_FRAMES, MIN_DELAY, MAX_DELAY))
  }

  function InitialV5Decision(currentDelay: nat, players: seq<Player>, rate: Option<(U64, U64)>, now: int): Option<nat> {
    var target := V5Target(players, rate, now);
    if target.Some? && target.value != currentDelay then target else None
  }

  lemma {:induction false} FoldIsCappedTotal(budget: U64, players: seq<Player>, now: int)
    requires AllComplete(players, now)
    ensures FoldBudget(budget, players, now) == Min(budget + TotalPathMs(players), U64_MAX)
    decreases |players|
  {
    if players != [] {
      if players[0].connected {
        var report := players[0].report.value;
        var oneWay := SaturatingAdd(report.roundTripMs.value, 1) / 2;
        FoldIsCappedTotal(SaturatingAdd(SaturatingAdd(budget, oneWay), report.jitterMs.value), players[1..], now);
      } else {
        FoldIsCappedTotal(budget, players[1..], now);
      }
    }
  }

  lemma {:induction false} TotalIsSmall(players: seq<Player>)
    ensures TotalPathMs(players) <= |players| * 0x1_8000_0000
    decreases |players|
  {
    if players != [] {
      TotalIsSmall(players[1..]);
    }
  }

  /** The startup delay is the least frame count that covers the summed paths, plus one safety frame,
      within 2..8; for rooms of up to 255 seats, all a player count can say, no addition saturates. Once it
      is applied, deciding again changes nothing. */
  lemma V5DelayIsLeastCover(players: seq<Player>, rate: Option<(U64, U64)>, now: int, f: nat)
    requires V5Target(players, rate, now).Some? && |players| <= 255
    ensures var (numerator, denominator) :=
              if rate.Some? && rate.value.0 > 0 && rate.value.1 > 0 then rate.value else (60, 1);
            var delay := V5Target(players, rate, now).value;
            var total := TotalPathMs(players);
            && FoldBudget(0, players, now) == total
            && 2 <= delay <= 8
            && (Covers(f, total, numerator, denominator) ==> delay <= Max(2, f + 1))
            && (delay < 8 ==> Covers(delay - 1, total, numerator, denominator))
            && InitialV5Decision(delay, players, rate, now).None?
  {
    FoldIsCappedTotal(0, players, now);
    TotalIsSmall(players);
    var (numerator, denominator) := UsableRate(rate);
    var total := TotalPathMs(players);
    var r := FramesForMsAtRate(total, numerator, denominator);
    FramesAreLeastCover(total, numerator, denominator, f);
    if r < MAX_DELAY {
      var delay := V5Target(players, rate, now).value;
      if delay < MAX_DELAY {
        MulMonotone(r, delay - SAFETY_FRAMES, 1000 * denominator);
      }
    }
  }

  /** A sample counts for ten seconds. */
  predicate WithinTenSeconds(at: Option<int>, now: int) {
    at.Some? && now - at.value <= 10_000_000_000
  }

  /** A report within ten seconds names both the round trip and the jitter. */
  predicate ReportsInFull(player: Player, now: int) {
    && player.report.Some? && WithinTenSeconds(player.reportedAt, now)
    && player.report.value.roundTripMs.Some? && player.report.value.jitterMs.Some?
  }

  /** The startup delay is decided exactly when someone is connected, everyone connected has reported round trip
      and jitter within ten seconds, and the delay they call for is not the one there is. */
  lemma V5DecidesExactlyWhen(currentDelay: nat, players: seq<Player>, rate: Option<(U64, U64)>, now: int, delay: nat)
    ensures InitialV5Decision(currentDelay, players, rate, now) == Some(delay) <==>
              V5Target(players, rate, now) == Some(delay) && delay != currentDelay
    ensures V5Target(players, rate, now).Some? <==>
              && (exists i :: 0 <= i < |players| && players[i].connected)
              && forall i :: 0 <= i < |players| && players[i].connected ==> ReportsInFull(players[i], now)
  {
    forall p: Player ensures Complete(p, now) <==> ReportsInFull(p, now) {
    }
  }

  lemma {:induction false} TotalSplits(a: seq<Player>, b: seq<Player>)
    ensures TotalPathMs(a + b) == TotalPathMs(a) + TotalPathMs(b)
    decreases |a|
  {
    if a == [] {
      assert a + b == b;
    } else {
      assert (a + b)[1..] == a[1..] + b;
      TotalSplits(a[1..], b);
    }
  }

  lemma CancelOne(a: multiset<Player>, b: multiset<Player>, p: Player)
    requires multiset{p} + a == multiset{p} + b
    ensures a == b
  {
    assert a == (multiset{p} + a) - multiset{p};
    assert b == (multiset{p} + b) - multiset{p};
  }

  lemma {:induction false} TotalIgnoresOrder(players: seq<Player>, other: seq<Player>)
    requires multiset(players) == multiset(other)
    ensures TotalPathMs(players) == TotalPathMs(other)
    decreases |players|
  {
    if players == [] {
      assert |multiset(other)| == 0;
    } else {
      var p, rest := players[0], players[1..];
      assert players == [p] + rest;
      assert p in multiset(other);
      var i :| 0 <= i < |other| && other[i] == p;
      var before, after := other[..i], other[i + 1..];
      assert other == before + [p] + after;
      assert multiset(players) == multiset{p} + multiset(rest);
      assert multiset(other) == multiset{p} + multiset(before + after);
      CancelOne(multiset(rest), multiset(before + after), p);
      TotalIgnoresOrder(rest, before + after);
      TotalSplits(before + [p], after);
      TotalSplits(before, [p]);
      TotalSplits(before, after);
    }
  }

  lemma SameMembers(players: seq<Player>, other: seq<Player>)
    requires multiset(players) == multiset(other)
    ensures forall p :: p in players <==> p in other
  {
    forall p ensures p in players <==> p in other {
      assert p in multiset(players) <==> p in multiset(other);
    }
  }

  /** The decision does not depend on the order of the players. */
  lemma V5DelayIgnoresOrder(currentDelay: nat, players: seq<Player>, other: seq<Player>, rate: Option<(U64, U64)>,
                            now: int)
    requires multiset(players) == multiset(other)
    ensures InitialV5Decision(currentDelay, players, rate, now) == InitialV5Decision(currentDelay, other, rate, now)
  {
    SameMembers(players, other);
    TotalIgnoresOrder(players, other);
    MembersDecide(players, other, now);
    MembersDecide(other, players, now);
    if AllComplete(players, now) {
      FoldIsCappedTotal(0, players, now);
      FoldIsCappedTotal(0, other, now);
    }
  }

  lemma MembersDecide(players: seq<Player>, other: seq<Player>, now: int)
    requires forall p :: p in players <==> p in other
    ensures AnyConnected(players) ==> AnyConnected(other)
    ensures AllComplete(players, now) ==> AllComplete(other, now)
  {
    if AnyConnected(players) {
      var i :| 0 <= i < |players| && players[i].connected;
      assert players[i] in other;
    }
    forall i | 0 <= i < |other| && other[i].connected && AllComplete(players, now) ensures Complete(other[i], now) {
      assert other[i] in players;
    }
  }

  /** Player by player, `slower` reports at least the latency and jitter of `players`. */
  predicate NoFaster(players: seq<Player>, slower: seq<Player>) {
    && |players| == |slower|
    && forall i :: 0 <= i < |players| ==>
         && slower[i] == players[i].(report := slower[i].report)
         && (players[i].connected && players[i].report.Some? ==>
               && slower[i].report.Some?
               && AtLeast(players[i].report.value.roundTripMs, slower[i].report.value.roundTripMs)
               && AtLeast(players[i].report.value.jitterMs, slower[i].report.value.jitterMs))
  }

  predicate AtLeast(a: Option<U32>, b: Option<U32>) {
    a.Some? ==> b.Some? && a.value <= b.value
  }

  lemma {:induction false} TotalIsMonotone(players: seq<Player>, slower: seq<Player>)
    requires NoFaster(players, slower)
    ensures TotalPathMs(players) <= TotalPathMs(slower)
    decreases |players|
  {
    if players != [] {
      TotalIsMonotone(players[1..], slower[1..]);
    }
  }

  /** More latency or jitter anywhere never shortens the delay. */
  lemma V5DelayIsMonotone(players: seq<Player>, slower: seq<Player>, rate: Option<(U64, U64)>, now: int)
    requires NoFaster(players, slower) && V5Target(players, rate, now).Some?
    ensures V5Target(slower, rate, now).Some?
    ensures V5Target(players, rate, now).value <= V5Target(slower, rate, now).value
  {
    var i :| 0 <= i < |players| && players[i].connected;
    assert slower[i].connected;
    FoldIsCappedTotal(0, players, now);
    FoldIsCappedTotal(0, slower, now);
    TotalIsMonotone(players, slower);
    var (numerator, denominator) := UsableRate(rate);
    FramesAreMonotone(FoldBudget(0, players, now), FoldBudget(0, slower, now), numerator, denominator);
  }

  // The decision for earlier protocols

  function DelayForReport(report: Report): Option<nat> {
    if report.roundTripMs.None? then None
    else
      var oneWay := Min(report.roundTripMs.value + 1, U32_MAX) / 2;
      var jitter := if report.jitterMs.Some? then report.jitterMs.value else 0;
      var pressure := if || (report.lateInputFrames.Some? && report.lateInputFrames.value > 0)
                         || (report.predictionFrames.Some? && report.predictionFrames.value >= 30) then 1 else 0;
      var frames := FramesForMsAtRate(Min(oneWay + jitter, U32_MAX), 60, 1);
      Some(Clamp(frames + SAFETY_FRAMES + pressure, MIN_DELAY, MAX_DELAY))
  }

  /** The time one report speaks of: half the round trip, rounded up, plus jitter. */
  function ReportMs(report: Report): nat
    requires report.roundTripMs.Some?
  {
    (report.roundTripMs.value + 1) / 2 + if report.jitterMs.Some? then report.jitterMs.value else 0
  }

  /** One more frame for a client that sees late input or predicts thirty frames or more. */
  function PressureFrames(report: Report): nat {
    if || (report.lateInputFrames.Some? && report.lateInputFrames.value > 0)
       || (report.predictionFrames.Some? && report.predictionFrames.value >= 30) then 1 else 0
  }

  /** A report with a round trip asks for the least frame count at sixty frames a second that covers its time, plus
      a safety frame and one under pressure, within 2..8; that the sums saturate at 32 bits never shows. */
  lemma ReportDelayIsLeastCover(report: Report, f: nat)
    ensures DelayForReport(report).Some? <==> report.roundTripMs.Some?
    ensures report.roundTripMs.Some? ==>
              var delay, ms, extra := DelayForReport(report).value, ReportMs(report), 1 + PressureFrames(report);
              && 2 <= delay <= 8
              && (Covers(f, ms, 60, 1) ==> delay <= Max(2, f + extra))
              && (delay < 8 ==> Covers(delay - extra, ms, 60, 1))
  {
    if report.roundTripMs.Some? {
      var jitter := if report.jitterMs.Some? then report.jitterMs.value else 0;
      var used := Min(Min(report.roundTripMs.value + 1, U32_MAX) / 2 + jitter, U32_MAX);
      var frames := FramesForMsAtRate(used, 60, 1);
      FramesAreLeastCover(used, 60, 1, f);
      if used != ReportMs(report) {
        FramesAreLeastCover(used, 60, 1, 7);
        assert frames == 8;
      }
    }
  }

  /** What one connected player's fresh network report asks for. */
  function Sample(player: Player, now: int): Option<nat> {
    if player.connected && player.report.Some? && IsFresh(player.reportedAt, now)
    then DelayForReport(player.report.value) else None
  }

  /** A connected player whose fresh local frame runs far ahead of the relay. */
  predicate Pressed(player: Player, baseline: nat, now: int) {
    && player.connected && player.localFrame.Some? && IsFresh(player.localFrameReportedAt, now)
    && Max(0, player.localFrame.value - baseline) >= HIGH_PREDICTION_PRESSURE_FRAMES
  }

  /** What one player asks for, when the player says anything at all. */
  function Wish(player: Player, baseline: nat, now: int): Option<nat> {
    var sample, pressed := Sample(player, now), Pressed(player, baseline, now);
    if sample.Some? then Some(if pressed then Max(sample.value, DEFAULT_DELAY + 1) else sample.value)
    else if pressed then Some(DEFAULT_DELAY + 1) else None
  }

  /** A connected player's wish: what a report within ten seconds asks for, at least four frames if a local frame
      reported within ten seconds is 45 or more ahead of the relay, and nothing without either. */
  lemma WishExactly(player: Player, baseline: nat, now: int)
    ensures var heard := && player.connected && player.report.Some? && WithinTenSeconds(player.reportedAt, now)
                         && player.report.value.roundTripMs.Some?;
            var ahead := && player.connected && player.localFrame.Some?
                         && WithinTenSeconds(player.localFrameReportedAt, now)
                         && baseline + 45 <= player.localFrame.value;
            && (Sample(player, now).Some? <==> heard)
            && (heard ==> Sample(player, now) == DelayForReport(player.report.value))
            && (Wish(player, baseline, now).Some? <==> heard || ahead)
            && (heard || ahead ==>
                  Wish(player, baseline, now).value
                  == Max(if heard then DelayForReport(player.report.value).value else 0, if ahead then 4 else 0))
  {
    if player.report.Some? {
      ReportDelayIsLeastCover(player.report.value, 0);
    }
  }

  datatype Target = Target(allFresh: bool, delay: nat)

  /** The target in terms of the players as a collection: the largest wish, in 2..8. */
  ghost predicate IsTarget(target: Option<Target>, players: seq<Player>, baseline: nat, now: int) {
    if forall p :: p in players ==> Wish(p, baseline, now).None? then target.None?
    else
      && target.Some?
      && (target.value.allFresh <==> forall p :: p in players && p.connected ==> Sample(p, now).Some?)
      && (exists p :: p in players && Wish(p, baseline, now) == Some(target.value.delay))
      && (forall p :: p in players && Wish(p, baseline, now).Some? ==>
            Wish(p, baseline, now).value <= target.value.delay)
  }

  lemma WishIsInRange(player: Player, baseline: nat, now: int)
    requires Wish(player, baseline, now).Some?
    ensures MIN_DELAY <= Wish(player, baseline, now).value <= MAX_DELAY
  {
  }

  /** The loop over the players: whether anyone spoke, whether everyone connected sent a sample, and
      the largest delay asked for. */
  method ScanPlayers(players: seq<Player>, baseline: nat, now: int)
    returns (sawSample: bool, allFresh: bool, delay: nat)
    ensures sawSample <==> exists j :: 0 <= j < |players| && Wish(players[j], baseline, now).Some?
    ensures allFresh <==> forall j :: 0 <= j < |players| && players[j].connected ==> Sample(players[j], now).Some?
    ensures forall j :: 0 <= j < |players| && Wish(players[j], baseline, now).Some? ==>
              Wish(players[j], baseline, now).value <= delay
    ensures sawSample ==> exists j :: 0 <= j < |players| && Wish(players[j], baseline, now) == Some(delay)
    ensures MIN_DELAY <= delay <= MAX_DELAY
  {
    sawSample, delay := false, MIN_DELAY;
    var samples, connected, i := 0, 0, 0;
    while i < |players|
      invariant i <= |players| && samples <= connected
      invariant sawSample <==> exists j :: 0 <= j < i && Wish(players[j], baseline, now).Some?
      invariant samples == connected
           <==> forall j :: 0 <= j < i && players[j].connected ==> Sample(players[j], now).Some?
      invariant forall j :: 0 <= j < i && Wish(players[j], baseline, now).Some? ==>
                  Wish(players[j], baseline, now).value <= delay
      invariant MIN_DELAY <= delay <= MAX_DELAY
      invariant if sawSample
                then exists j :: 0 <= j < i && Wish(players[j], baseline, now) == Some(delay)
                else delay == MIN_DELAY
    {
      var player := players[i];
      ghost var before := delay;
      if player.connected {
        connected := connected + 1;
        var sample := Sample(player, now);
        if sample.Some? {
          sawSample := true;
          samples := samples + 1;
          delay := Max(delay, sample.value);
        }
        if Pressed(player, baseline, now) {
          sawSample := true;
          delay := Max(delay, DEFAULT_DELAY + 1);
        }
      }
      ghost var wish := Wish(player, baseline, now);
      assert wish.Some? ==> delay == Max(before, wish.value);
      assert wish.None? ==> delay == before;
      if wish.Some? {
        WishIsInRange(player, baseline, now);
      }
      i := i + 1;
    }
    allFresh := samples == connected;
  }

  method TargetDelay(players: seq<Player>, roomFrame: U64, releasedFrame: Option<U64>, now: int)
    returns (target: Option<Target>)
    ensures IsTarget(target, players, if releasedFrame.Some? then releasedFrame.value else roomFrame, now)
  {
    var baseline := if releasedFrame.Some? then releasedFrame.value else roomFrame;
    var sawSample, allFresh, delay := ScanPlayers(players, baseline, now);
    if sawSample {
      ghost var j :| 0 <= j < |players| && Wish(players[j], baseline, now) == Some(delay);
      assert players[j] in players;
      target := Some(Target(allFresh, Clamp(delay, MIN_DELAY, MAX_DELAY)));
    } else {
      target := None;
    }
  }

  lemma TargetsCompare(target: Option<Target>, players: seq<Player>, target': Option<Target>, other: seq<Player>,
                       baseline: nat, now: int)
    requires forall p :: p in players <==> p in other
    requires IsTarget(target, players, baseline, now) && IsTarget(target', other, baseline, now)
    ensures target.Some? ==> target'.Some? && target.value.delay <= target'.value.delay
    ensures target.Some? && target.value.allFresh ==> target'.Some? && target'.value.allFresh
  {
    if target.Some? {
      var p :| p in players && Wish(p, baseline, now) == Some(target.value.delay);
      assert p in other;
    }
  }

  /** Players as a collection determine the target, so their order does not matter. */
  lemma TargetIgnoresOrder(target: Option<Target>, players: seq<Player>, target': Option<Target>, other: seq<Player>,
                           baseline: nat, now: int)
    requires multiset(players) == multiset(other)
    requires IsTarget(target, players, baseline, now) && IsTarget(target', other, baseline, now)
    ensures target == target'
  {
    SameMembers(players, other);
    TargetsCompare(target, players, target', other, baseline, now);
    TargetsCompare(target', other, target, players, baseline, now);
  }

  function InitialDecision(currentDelay: nat, target: Option<Target>): Option<nat> {
    if target.None? || target.value.delay == currentDelay then None
    else if target.value.delay < currentDelay && !target.value.allFresh then None
    else Some(target.value.delay)
  }

  ghost predicate LargestWish(players: seq<Player>, baseline: nat, now: int, delay: nat) {
    && (exists p :: p in players && Wish(p, baseline, now) == Some(delay))
    && (forall p :: p in players && Wish(p, baseline, now).Some? ==> Wish(p, baseline, now).value <= delay)
  }

  lemma TargetIsLargestWish(target: Option<Target>, players: seq<Player>, baseline: nat, now: int, delay: nat)
    requires IsTarget(target, players, baseline, now)
    ensures LargestWish(players, baseline, now, delay) <==> target.Some? && target.value.delay == delay
  {
    if LargestWish(players, baseline, now, delay) {
      var p :| p in players && Wish(p, baseline, now) == Some(delay);
      assert target.Some? && delay <= target.value.delay;
      var q :| q in players && Wish(q, baseline, now) == Some(target.value.delay);
    }
  }

  /** A delay is decided exactly when it is the largest wish, is not the delay there is, and is longer than that
      or everyone connected has a sample. */
  lemma DecidesExactlyWhen(currentDelay: nat, target: Option<Target>, players: seq<Player>, baseline: nat, now: int,
                           delay: nat)
    requires IsTarget(target, players, baseline, now)
    ensures InitialDecision(currentDelay, target) == Some(delay) <==>
              && LargestWish(players, baseline, now, delay) && delay != currentDelay
              && (delay > currentDelay || forall p :: p in players && p.connected ==> Sample(p, now).Some?)
  {
    TargetIsLargestWish(target, players, baseline, now, delay);
  }

  /** A decision stays within 2..8, is lowered only on a full set of fresh samples, and is final: the
      same target asks for no further change. */
  lemma InitialDecisionIsStable(currentDelay: nat, target: Option<Target>, players: seq<Player>, baseline: nat,
                                now: int)
    requires IsTarget(target, players, baseline, now) && InitialDecision(currentDelay, target).Some?
    ensures var delay := InitialDecision(currentDelay, target).value;
            && MIN_DELAY <= delay <= MAX_DELAY
            && (delay < currentDelay ==> forall p :: p in players && p.connected ==> Sample(p, now).Some?)
            && InitialDecision(delay, target).None?
  {
    var p :| p in players && Wish(p, baseline, now) == Some(target.value.delay);
    WishIsInRange(p, baseline, now);
  }
}
