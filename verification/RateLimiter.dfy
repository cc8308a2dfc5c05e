/** The sliding-window rate limiter: a deque of recent acceptance times per
    (action, key), pruned on every check, against the full history of
    acceptances that it stands for. */
module RateLimiter {
  import opened Prelude

  /** Nanoseconds on a monotone clock. */
  type Instant = int

  const WINDOW: int := 60_000_000_000

  datatype Action = CreateRoom | WebSocketJoin | RoomStatus

  datatype Policy = Policy(createRoomPerMinute: nat, websocketJoinPerMinute: nat, roomStatusPerMinute: nat)

  function LimitFor(policy: Policy, action: Action): nat {
    match action
    case CreateRoom => policy.createRoomPerMinute
    case WebSocketJoin => policy.websocketJoinPerMinute
    case RoomStatus => policy.roomStatusPerMinute
  }

  datatype Bucket = Bucket(action: Action, key: string)

  datatype Request = Request(bucket: Bucket, at: Instant)

  datatype Verdict = Accepted | Exceeded(action: Action, retryAfter: int)

  type Buckets = map<Bucket, seq<Instant>>

  /** The entries left after popping expired ones off the front. */
  function Pruned(entries: seq<Instant>, cutoff: Instant): seq<Instant> {
    if entries != [] && entries[0] <= cutoff then Pruned(entries[1..], cutoff) else entries
  }

  function Entries(buckets: Buckets, bucket: Bucket): seq<Instant> {
    if bucket in buckets then buckets[bucket] else []
  }

  function RetryAfter(oldest: Instant, now: Instant): int {
    Max(0, WINDOW - Max(0, now - oldest))
  }

  /** One check: the buckets it leaves and its verdict. */
  function Check(policy: Policy, buckets: Buckets, request: Request): (Buckets, Verdict) {
    var limit := LimitFor(policy, request.bucket.action);
    if limit == 0 then (buckets, Exceeded(request.bucket.action, WINDOW))
    else
      var entries := Pruned(Entries(buckets, request.bucket), request.at - WINDOW);
      if |entries| >= limit then
        (buckets[request.bucket := entries],
         Exceeded(request.bucket.action, RetryAfter(entries[0], request.at)))
      else
        (buckets[request.bucket := entries + [request.at]], Accepted)
  }

  class InMemoryRateLimiter {
    const policy: Policy
    var buckets: Buckets

    constructor (policy: Policy)
      ensures this.policy == policy && buckets == map[]
    {
      this.policy := policy;
      buckets := map[];
    }

    method CheckAt(action: Action, key: string, now: Instant) returns (verdict: Verdict)
      modifies this
      ensures (buckets, verdict) == Check(policy, old(buckets), Request(Bucket(action, key), now))
    {
      var limit := LimitFor(policy, action);
      if limit == 0 {
        return Exceeded(action, WINDOW);
      }
      var bucket := Bucket(action, key);
      var entries := Entries(buckets, bucket);
      var cutoff := now - WINDOW;
      while entries != [] && entries[0] <= cutoff
        invariant Pruned(entries, cutoff) == Pruned(Entries(old(buckets), bucket), cutoff)
        decreases |entries|
      {
        entries := entries[1..];
      }
      if |entries| >= limit {
        buckets := buckets[bucket := entries];
        return Exceeded(action, RetryAfter(entries[0], now));
      }
      buckets := buckets[bucket := entries + [now]];
      verdict := Accepted;
    }
  }

  // Runs of the limiter

  function Serve(policy: Policy, requests: seq<Request>): Buckets
    decreases |requests|
  {
    if requests == [] then map[]
    else Check(policy, Serve(policy, requests[..|requests| - 1]), requests[|requests| - 1]).0
  }

  /** The verdict on a request that arrives after a run of earlier ones. */
  function Answer(policy: Policy, earlier: seq<Request>, request: Request): Verdict {
    Check(policy, Serve(policy, earlier), request).1
  }

  predicate InOrder(requests: seq<Request>) {
    forall i, j :: 0 <= i < j < |requests| ==> requests[i].at <= requests[j].at
  }

  /** A run of requests at nondecreasing times, none later than `now`. */
  predicate EndsBy(requests: seq<Request>, now: Instant) {
    InOrder(requests) && (requests != [] ==> requests[|requests| - 1].at <= now)
  }

  // The reference limiter keeps every acceptance for ever

  /** Acceptances in the window that ends at `now`: later than `now - WINDOW`, not later than `now`. */
  function Recent(times: seq<Instant>, now: Instant): seq<Instant> {
    if times == [] then []
    else (if now - WINDOW < times[0] <= now then [times[0]] else []) + Recent(times[1..], now)
  }

  function ReferenceVerdict(limit: nat, times: seq<Instant>, request: Request): Verdict {
    var recent := Recent(times, request.at);
    if |recent| < limit then Accepted
    else Exceeded(request.bucket.action, if recent == [] then WINDOW else recent[0] + WINDOW - request.at)
  }

  function Extended(limit: nat, times: seq<Instant>, request: Request): seq<Instant> {
    if ReferenceVerdict(limit, times, request) == Accepted then times + [request.at] else times
  }

  /** Full acceptance history of one bucket under the reference rule. */
  function History(policy: Policy, requests: seq<Request>, bucket: Bucket): seq<Instant>
    decreases |requests|
  {
    if requests == [] then []
    else
      var times := History(policy, requests[..|requests| - 1], bucket);
      var last := requests[|requests| - 1];
      if last.bucket == bucket then Extended(LimitFor(policy, bucket.action), times, last) else times
  }

  predicate Sorted(times: seq<Instant>) {
    forall i, j :: 0 <= i < j < |times| ==> times[i] <= times[j]
  }

  predicate AllBy(times: seq<Instant>, now: Instant) {
    forall i :: 0 <= i < |times| ==> times[i] <= now
  }

  /** The deque is the tail of the history, and what it dropped has expired. */
  predicate TailOf(entries: seq<Instant>, times: seq<Instant>, now: Instant) {
    && Sorted(times) && AllBy(times, now)
    && |entries| <= |times|
    && entries == times[|times| - |entries|..]
    && (forall i :: 0 <= i < |times| - |entries| ==> times[i] <= now - WINDOW)
  }

  lemma {:induction false} PruneKeepsTail(entries: seq<Instant>, times: seq<Instant>, since: Instant, now: Instant)
    requires TailOf(entries, times, since) && since <= now
    ensures TailOf(Pruned(entries, now - WINDOW), times, now)
    ensures var kept := Pruned(entries, now - WINDOW); kept == [] || now - WINDOW < kept[0]
    decreases |entries|
  {
    if entries != [] && entries[0] <= now - WINDOW {
      assert entries[1..] == times[|times| - |entries[1..]|..];
      assert TailOf(entries[1..], times, now);
      PruneKeepsTail(entries[1..], times, now, now);
    }
  }

  lemma {:induction false} RecentIsTail(times: seq<Instant>, now: Instant, k: nat)
    requires Sorted(times) && AllBy(times, now) && k <= |times|
    requires forall i :: 0 <= i < k ==> times[i] <= now - WINDOW
    requires k < |times| ==> now - WINDOW < times[k]
    ensures Recent(times, now) == times[k..]
    decreases |times|
  {
    if times != [] {
      assert times == [times[0]] + times[1..];
      if k > 0 {
        RecentIsTail(times[1..], now, k - 1);
      } else {
        RecentIsTail(times[1..], now, 0);
      }
    }
  }

  lemma KeptIsRecent(entries: seq<Instant>, times: seq<Instant>, since: Instant, now: Instant)
    requires TailOf(entries, times, since) && since <= now
    ensures var kept := Pruned(entries, now - WINDOW);
            && TailOf(kept, times, now)
            && Recent(times, now) == kept
            && (kept != [] ==> now - WINDOW < kept[0] <= now)
  {
    PruneKeepsTail(entries, times, since, now);
    var kept := Pruned(entries, now - WINDOW);
    RecentIsTail(times, now, |times| - |kept|);
  }

  lemma GrownTail(entries: seq<Instant>, times: seq<Instant>, now: Instant)
    requires TailOf(entries, times, now)
    ensures TailOf(entries + [now], times + [now], now)
  {
    var grown := times + [now];
    assert entries + [now] == grown[|grown| - |entries| - 1..];
  }

  lemma ExpiredTail(entries: seq<Instant>, times: seq<Instant>, since: Instant, now: Instant)
    requires TailOf(entries, times, since) && since <= now
    ensures TailOf(entries, times, now)
  {
  }

  /** The check and the reference rule agree when the pruned deque is the window's part of the history. */
  lemma CheckAgrees(policy: Policy, buckets: Buckets, request: Request, times: seq<Instant>)
    requires Recent(times, request.at) == Pruned(Entries(buckets, request.bucket), request.at - WINDOW)
    requires var kept := Recent(times, request.at); kept != [] ==> request.at - WINDOW < kept[0] <= request.at
    ensures var limit := LimitFor(policy, request.bucket.action);
            var verdict := Check(policy, buckets, request).1;
            && (limit > 0 ==> verdict == ReferenceVerdict(limit, times, request))
            && (verdict == Accepted <==> |Recent(times, request.at)| < limit)
  {
  }

  /** A check keeps the deque a tail of the history that the reference rule keeps. */
  lemma CheckKeepsTail(policy: Policy, buckets: Buckets, request: Request, times: seq<Instant>, since: Instant)
    requires TailOf(Entries(buckets, request.bucket), times, since) && since <= request.at
    ensures TailOf(Entries(Check(policy, buckets, request).0, request.bucket),
                   Extended(LimitFor(policy, request.bucket.action), times, request), request.at)
  {
    var entries := Entries(buckets, request.bucket);
    KeptIsRecent(entries, times, since, request.at);
    CheckAgrees(policy, buckets, request, times);
    if LimitFor(policy, request.bucket.action) == 0 {
      ExpiredTail(entries, times, since, request.at);
    } else {
      GrownTail(Pruned(entries, request.at - WINDOW), times, request.at);
    }
  }

  lemma {:induction false} DequeIsTail(policy: Policy, requests: seq<Request>, bucket: Bucket, now: Instant)
    requires EndsBy(requests, now)
    ensures TailOf(Entries(Serve(policy, requests), bucket), History(policy, requests, bucket), now)
    decreases |requests|
  {
    if requests != [] {
      var front, last := requests[..|requests| - 1], requests[|requests| - 1];
      DequeIsTail(policy, front, bucket, last.at);
      if last.bucket == bucket {
        CheckKeepsTail(policy, Serve(policy, front), last, History(policy, front, bucket), last.at);
      }
      ExpiredTail(Entries(Serve(policy, requests), bucket), History(policy, requests, bucket), last.at, now);
    }
  }

  /** Over any run with nondecreasing times, the pruned deque gives the verdict, retry time included,
      that the full acceptance history of that bucket calls for. */
  lemma PrunedDequeRefinesHistory(policy: Policy, earlier: seq<Request>, request: Request)
    requires EndsBy(earlier, request.at)
    ensures var limit := LimitFor(policy, request.bucket.action);
            var times := History(policy, earlier, request.bucket);
            && (Answer(policy, earlier, request) == Accepted <==> |Recent(times, request.at)| < limit)
            && (limit > 0 ==> Answer(policy, earlier, request) == ReferenceVerdict(limit, times, request))
  {
    var buckets, times := Serve(policy, earlier), History(policy, earlier, request.bucket);
    DequeIsTail(policy, earlier, request.bucket, request.at);
    KeptIsRecent(Entries(buckets, request.bucket), times, request.at, request.at);
    CheckAgrees(policy, buckets, request, times);
  }

  // No window is overfull

  /** Acceptances `limit` apart in the history are a full window apart in time. */
  predicate Spaced(times: seq<Instant>, limit: nat) {
    forall i :: 0 <= i < |times| - limit ==> times[i + limit] >= times[i] + WINDOW
  }

  lemma HistoryEndsBy(policy: Policy, requests: seq<Request>, bucket: Bucket, now: Instant)
    requires EndsBy(requests, now)
    ensures AllBy(History(policy, requests, bucket), now)
  {
    DequeIsTail(policy, requests, bucket, now);
  }

  lemma {:induction false} HistoryIsSpaced(policy: Policy, requests: seq<Request>, bucket: Bucket)
    requires InOrder(requests)
    ensures Sorted(History(policy, requests, bucket))
    ensures Spaced(History(policy, requests, bucket), LimitFor(policy, bucket.action))
    ensures LimitFor(policy, bucket.action) == 0 ==> History(policy, requests, bucket) == []
    decreases |requests|
  {
    if requests != [] {
      var front, last := requests[..|requests| - 1], requests[|requests| - 1];
      HistoryIsSpaced(policy, front, bucket);
      HistoryEndsBy(policy, front, bucket, last.at);
      var times, limit := History(policy, front, bucket), LimitFor(policy, bucket.action);
      if History(policy, requests, bucket) != times {
        SpacedGrows(times, limit, last.at);
      }
    }
  }

  lemma SpacedGrows(times: seq<Instant>, limit: nat, now: Instant)
    requires Sorted(times) && Spaced(times, limit) && AllBy(times, now) && |Recent(times, now)| < limit
    ensures Sorted(times + [now]) && Spaced(times + [now], limit)
  {
    LateElementsAreRecent(times, now, |times| - limit);
  }

  /** If an element is in the window, so is everything after it. */
  lemma {:induction false} LateElementsAreRecent(times: seq<Instant>, now: Instant, k: int)
    requires Sorted(times) && AllBy(times, now) && k <= |times|
    requires 0 <= k < |times| ==> |Recent(times, now)| < |times| - k
    ensures 0 <= k < |times| ==> times[k] <= now - WINDOW
    decreases |times|
  {
    if 0 <= k < |times| && now - WINDOW < times[k] {
      RecentHolds(times, now, k);
      assert false;
    }
  }

  lemma {:induction false} RecentHolds(times: seq<Instant>, now: Instant, k: nat)
    requires Sorted(times) && AllBy(times, now) && k < |times| && now - WINDOW < times[k]
    ensures |Recent(times, now)| >= |times| - k
    decreases |times|
  {
    if k > 0 {
      RecentHolds(times[1..], now, k - 1);
    } else if |times| > 1 {
      RecentHolds(times[1..], now, 0);
    }
  }

  lemma HistoryFitsWindows(policy: Policy, requests: seq<Request>, bucket: Bucket, end: Instant)
    requires InOrder(requests)
    ensures |Recent(History(policy, requests, bucket), end)| <= LimitFor(policy, bucket.action)
  {
    HistoryIsSpaced(policy, requests, bucket);
    SpacedWindowsAreSmall(History(policy, requests, bucket), LimitFor(policy, bucket.action), end);
  }

  // The limiter's own acceptances

  /** The times at which the limiter itself accepted a request in the bucket. */
  function AcceptedTimes(policy: Policy, requests: seq<Request>, bucket: Bucket): seq<Instant>
    decreases |requests|
  {
    if requests == [] then []
    else
      var front, last := requests[..|requests| - 1], requests[|requests| - 1];
      AcceptedTimes(policy, front, bucket)
      + (if last.bucket == bucket && Answer(policy, front, last) == Accepted then [last.at] else [])
  }

  lemma {:induction false} AcceptedTimesAreHistory(policy: Policy, requests: seq<Request>, bucket: Bucket)
    requires InOrder(requests)
    ensures AcceptedTimes(policy, requests, bucket) == History(policy, requests, bucket)
    decreases |requests|
  {
    if requests != [] {
      var front, last := requests[..|requests| - 1], requests[|requests| - 1];
      AcceptedTimesAreHistory(policy, front, bucket);
      if last.bucket == bucket {
        PrunedDequeRefinesHistory(policy, front, last);
      }
    }
  }

  /** Of the requests the limiter accepts in one bucket, any two `limit` apart are sixty seconds apart. */
  lemma AcceptancesAreSpaced(policy: Policy, requests: seq<Request>, bucket: Bucket)
    requires InOrder(requests)
    ensures Sorted(AcceptedTimes(policy, requests, bucket))
    ensures Spaced(AcceptedTimes(policy, requests, bucket), LimitFor(policy, bucket.action))
  {
    AcceptedTimesAreHistory(policy, requests, bucket);
    HistoryIsSpaced(policy, requests, bucket);
  }

  /** In no window of sixty seconds, anywhere on the clock, does the limiter accept more than the limit. */
  lemma NoWindowIsOverfull(policy: Policy, requests: seq<Request>, bucket: Bucket, end: Instant)
    requires InOrder(requests)
    ensures |Recent(AcceptedTimes(policy, requests, bucket), end)| <= LimitFor(policy, bucket.action)
  {
    AcceptedTimesAreHistory(policy, requests, bucket);
    HistoryFitsWindows(policy, requests, bucket, end);
  }

  /** The limit of each action is the policy's own: a request is accepted exactly when the limiter has accepted
      fewer than that in the sixty seconds up to it. */
  lemma AcceptedExactlyWhen(policy: Policy, earlier: seq<Request>, request: Request)
    requires EndsBy(earlier, request.at)
    ensures Answer(policy, earlier, request) == Accepted <==>
              CountWithin(AcceptedTimes(policy, earlier, request.bucket), request.at - 60_000_000_000, request.at)
              < match request.bucket.action
                case CreateRoom => policy.createRoomPerMinute
                case WebSocketJoin => policy.websocketJoinPerMinute
                case RoomStatus => policy.roomStatusPerMinute
  {
    AcceptedTimesAreHistory(policy, earlier, request.bucket);
    PrunedDequeRefinesHistory(policy, earlier, request);
    CountIsRecent(AcceptedTimes(policy, earlier, request.bucket), request.at);
  }

  function Within(times: seq<Instant>, low: Instant, high: Instant): set<nat> {
    set i: nat | i < |times| && low < times[i] <= high
  }

  /** How many of the times lie after `low` and not after `high`. */
  function CountWithin(times: seq<Instant>, low: Instant, high: Instant): nat {
    |Within(times, low, high)|
  }

  lemma {:induction false} CountIsRecent(times: seq<Instant>, now: Instant)
    ensures CountWithin(times, now - WINDOW, now) == |Recent(times, now)|
    decreases |times|
  {
    if times != [] {
      var rest := times[1..];
      CountIsRecent(rest, now);
      var all, later := Within(times, now - WINDOW, now), Within(rest, now - WINDOW, now);
      forall i: nat ensures i in all - {0} <==> i > 0 && i - 1 in later {
        assert 0 < i < |times| ==> times[i] == rest[i - 1];
      }
      ShiftKeepsSize(later, all - {0});
      assert 0 in all <==> now - WINDOW < times[0] <= now;
    }
  }

  lemma {:induction false} SpacedWindowsAreSmall(times: seq<Instant>, limit: nat, end: Instant)
    requires Sorted(times) && Spaced(times, limit) && (limit == 0 ==> times == [])
    ensures |Recent(times, end)| <= limit
    decreases |times|
  {
    if times != [] {
      if end - WINDOW < times[0] <= end {
        FewEarly(times, limit, end);
      } else {
        SpacedWindowsAreSmall(times[1..], limit, end);
      }
    }
  }

  /** A window that holds the first of a spaced history holds none from `limit` on. */
  lemma {:induction false} FewEarly(times: seq<Instant>, limit: nat, end: Instant)
    requires Sorted(times) && times != [] && 0 < limit && end < times[0] + WINDOW
    requires limit < |times| ==> times[limit] >= times[0] + WINDOW
    ensures |Recent(times, end)| <= limit
  {
    var n := if limit < |times| then limit else |times|;
    assert times == times[..n] + times[n..];
    RecentSplits(times[..n], times[n..], end);
    RecentIsShort(times[..n], end);
    NoneAfter(times[n..], end);
  }

  lemma {:induction false} RecentSplits(a: seq<Instant>, b: seq<Instant>, end: Instant)
    ensures Recent(a + b, end) == Recent(a, end) + Recent(b, end)
    decreases |a|
  {
    if a == [] {
      assert a + b == b;
    } else {
      RecentSplits(a[1..], b, end);
      var head := if end - WINDOW < a[0] <= end then [a[0]] else [];
      assert (a + b)[1..] == a[1..] + b;
      assert Recent(a + b, end) == head + (Recent(a[1..], end) + Recent(b, end));
      assert head + (Recent(a[1..], end) + Recent(b, end)) == (head + Recent(a[1..], end)) + Recent(b, end);
    }
  }

  lemma {:induction false} RecentIsShort(times: seq<Instant>, end: Instant)
    ensures |Recent(times, end)| <= |times|
    decreases |times|
  {
    if times != [] {
      RecentIsShort(times[1..], end);
    }
  }

  lemma {:induction false} NoneAfter(times: seq<Instant>, end: Instant)
    requires forall i :: 0 <= i < |times| ==> end < times[i]
    ensures Recent(times, end) == []
    decreases |times|
  {
    if times != [] {
      NoneAfter(times[1..], end);
    }
  }

  // Buckets do not affect one another

  function OnlyBucket(requests: seq<Request>, bucket: Bucket): seq<Request>
    decreases |requests|
  {
    if requests == [] then []
    else
      var last := requests[|requests| - 1];
      OnlyBucket(requests[..|requests| - 1], bucket) + (if last.bucket == bucket then [last] else [])
  }

  lemma {:induction false} OwnRequestsEndBy(requests: seq<Request>, bucket: Bucket, now: Instant)
    requires EndsBy(requests, now)
    ensures EndsBy(OnlyBucket(requests, bucket), now)
    decreases |requests|
  {
    if requests != [] {
      var front, last := requests[..|requests| - 1], requests[|requests| - 1];
      OwnRequestsEndBy(front, bucket, last.at);
      var own := OnlyBucket(front, bucket);
      assert forall i :: 0 <= i < |own| ==> own[i].at <= own[|own| - 1].at;
    }
  }

  lemma {:induction false} HistoryIgnoresOthers(policy: Policy, requests: seq<Request>, bucket: Bucket)
    ensures History(policy, OnlyBucket(requests, bucket), bucket) == History(policy, requests, bucket)
    decreases |requests|
  {
    if requests != [] {
      var front, last := requests[..|requests| - 1], requests[|requests| - 1];
      HistoryIgnoresOthers(policy, front, bucket);
      var own := OnlyBucket(front, bucket);
      if last.bucket == bucket {
        assert (own + [last])[..|own|] == own;
        assert OnlyBucket(requests, bucket) == own + [last];
      } else {
        assert OnlyBucket(requests, bucket) == own;
      }
    }
  }

  /** A verdict depends only on the requests made under the same action and key. */
  lemma BucketsAreIndependent(policy: Policy, earlier: seq<Request>, request: Request)
    requires EndsBy(earlier, request.at)
    ensures Answer(policy, earlier, request) == Answer(policy, OnlyBucket(earlier, request.bucket), request)
  {
    HistoryIgnoresOthers(policy, earlier, request.bucket);
    OwnRequestsEndBy(earlier, request.bucket, request.at);
    var own := OnlyBucket(earlier, request.bucket);
    PrunedDequeRefinesHistory(policy, earlier, request);
    PrunedDequeRefinesHistory(policy, own, request);
  }

  // The retry time is exact

  lemma {:induction false} NothingAcceptedYet(policy: Policy, earlier: seq<Request>, refused: Request,
                                              between: seq<Request>)
    requires LimitFor(policy, refused.bucket.action) > 0
    requires EndsBy(earlier, refused.at) && Answer(policy, earlier, refused).Exceeded?
    requires InOrder(earlier + [refused] + between)
    requires forall i :: 0 <= i < |between| && between[i].bucket == refused.bucket ==>
               between[i].at < refused.at + Answer(policy, earlier, refused).retryAfter
    ensures History(policy, earlier + [refused] + between, refused.bucket) == History(policy, earlier, refused.bucket)
    decreases |between|
  {
    var sofar := earlier + [refused];
    PrunedDequeRefinesHistory(policy, earlier, refused);
    assert sofar[..|earlier|] == earlier;
    if between == [] {
      assert sofar + between == sofar;
    } else {
      var front, last := between[..|between| - 1], between[|between| - 1];
      var all := sofar + between;
      assert all[..|all| - 1] == sofar + front;
      assert all[|all| - 1] == last;
      NothingAcceptedYet(policy, earlier, refused, front);
      if last.bucket == refused.bucket {
        assert all[|earlier|] == refused;
        StillFull(policy, earlier, refused, last.at);
      }
    }
  }

  lemma RecentEndsHistory(policy: Policy, earlier: seq<Request>, bucket: Bucket, now: Instant)
    requires EndsBy(earlier, now)
    ensures var times := History(policy, earlier, bucket);
            var recent := Recent(times, now);
            && Sorted(times) && AllBy(times, now)
            && |recent| <= |times| && recent == times[|times| - |recent|..]
            && (recent != [] ==> now - WINDOW < recent[0] <= now)
  {
    DequeIsTail(policy, earlier, bucket, now);
    KeptIsRecent(Entries(Serve(policy, earlier), bucket), History(policy, earlier, bucket), now, now);
  }

  /** Between a refusal and its retry time the window stays full; from then on it has room. */
  lemma StillFull(policy: Policy, earlier: seq<Request>, refused: Request, at: Instant)
    requires LimitFor(policy, refused.bucket.action) > 0
    requires EndsBy(earlier, refused.at) && Answer(policy, earlier, refused).Exceeded? && refused.at <= at
    ensures var limit := LimitFor(policy, refused.bucket.action);
            |Recent(History(policy, earlier, refused.bucket), at)| < limit
            <==> at >= refused.at + Answer(policy, earlier, refused).retryAfter
  {
    var times, limit := History(policy, earlier, refused.bucket), LimitFor(policy, refused.bucket.action);
    RefusalIsFull(policy, earlier, refused);
    RecentEndsHistory(policy, earlier, refused.bucket, refused.at);
    WindowStaysFull(times, limit, refused.at, at);
  }

  /** A refusal means a full window, and announces when its first acceptance expires. */
  lemma RefusalIsFull(policy: Policy, earlier: seq<Request>, refused: Request)
    requires LimitFor(policy, refused.bucket.action) > 0
    requires EndsBy(earlier, refused.at) && Answer(policy, earlier, refused).Exceeded?
    ensures var recent := Recent(History(policy, earlier, refused.bucket), refused.at);
            && |recent| == LimitFor(policy, refused.bucket.action)
            && refused.at + Answer(policy, earlier, refused).retryAfter == recent[0] + WINDOW
  {
    PrunedDequeRefinesHistory(policy, earlier, refused);
    HistoryFitsWindows(policy, earlier, refused.bucket, refused.at);
  }

  /** A window holding exactly the last `limit` acceptances has room again once the first of them expires. */
  lemma WindowStaysFull(times: seq<Instant>, limit: nat, now: Instant, at: Instant)
    requires 0 < limit <= |times| && Sorted(times) && AllBy(times, now) && now <= at
    requires Recent(times, now) == times[|times| - limit..]
    ensures |Recent(times, at)| < limit <==> at >= Recent(times, now)[0] + WINDOW
  {
    var oldest := |times| - limit;
    if at < times[oldest] + WINDOW {
      RecentHolds(times, at, oldest);
    } else {
      assert times == times[..oldest + 1] + times[oldest + 1..];
      RecentSplits(times[..oldest + 1], times[oldest + 1..], at);
      AllExpired(times[..oldest + 1], at);
      RecentIsShort(times[oldest + 1..], at);
    }
  }

  lemma {:induction false} AllExpired(times: seq<Instant>, now: Instant)
    requires AllBy(times, now - WINDOW)
    ensures Recent(times, now) == []
    decreases |times|
  {
    if times != [] {
      AllExpired(times[1..], now);
    }
  }

  /** After a refusal, whatever is asked of other buckets, and of this one before the retry time, a retry
      is accepted exactly when the retry time has been reached. */
  lemma RetryAfterIsExact(policy: Policy, earlier: seq<Request>, refused: Request, between: seq<Request>,
                          retry: Request)
    requires LimitFor(policy, refused.bucket.action) > 0
    requires EndsBy(earlier, refused.at) && Answer(policy, earlier, refused).Exceeded?
    requires EndsBy(earlier + [refused] + between, retry.at) && retry.bucket == refused.bucket
    requires forall i :: 0 <= i < |between| && between[i].bucket == refused.bucket ==>
               between[i].at < refused.at + Answer(policy, earlier, refused).retryAfter
    ensures Answer(policy, earlier + [refused] + between, retry) == Accepted
       <==> retry.at >= refused.at + Answer(policy, earlier, refused).retryAfter
  {
    var all := earlier + [refused] + between;
    assert all[|earlier|] == refused;
    assert refused.at <= all[|all| - 1].at;
    NothingAcceptedYet(policy, earlier, refused, between);
    PrunedDequeRefinesHistory(policy, all, retry);
    StillFull(policy, earlier, refused, retry.at);
  }
}
