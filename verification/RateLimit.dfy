/** The in-memory fixed-window rate limiter: one bucket per key, lazily reset, periodically cleaned. */
module RateLimit {
  import opened Common

  datatype Bucket = Bucket(count: int, resetAt: int)

  datatype Options = Options(windowMs: int, maxAttempts: int)

  datatype Verdict = Verdict(allowed: bool, retryAfterMs: Option<int>, remaining: int)

  const CLEANUP_INTERVAL_MS := 10 * 60 * 1000

  function NonNegative(x: int): int {
    if x < 0 then 0 else x
  }

  /** What one check does to the bucket of its key. */
  function CheckBucket(bucket: Option<Bucket>, o: Options, now: int): (Bucket, Verdict) {
    var live := if bucket.None? || bucket.value.resetAt <= now then Bucket(0, now + o.windowMs) else bucket.value;
    if live.count >= o.maxAttempts then (live, Verdict(false, Some(NonNegative(live.resetAt - now)), 0))
    else
      var counted := live.(count := live.count + 1);
      (counted, Verdict(true, None, NonNegative(o.maxAttempts - counted.count)))
  }

  function Lookup(buckets: map<string, Bucket>, key: string): Option<Bucket> {
    if key in buckets then Some(buckets[key]) else None
  }

  function Unexpired(buckets: map<string, Bucket>, now: int): map<string, Bucket> {
    map k | k in buckets && buckets[k].resetAt > now :: buckets[k]
  }

  datatype Limiter = Limiter(buckets: map<string, Bucket>, lastCleanup: int)

  function CleanUp(l: Limiter, now: int): Limiter {
    if now - l.lastCleanup < CLEANUP_INTERVAL_MS then l else Limiter(Unexpired(l.buckets, now), now)
  }

  function Check(l: Limiter, key: string, o: Options, now: int): (Limiter, Verdict) {
    var cleaned := CleanUp(l, now);
    var (bucket, verdict) := CheckBucket(Lookup(cleaned.buckets, key), o, now);
    (cleaned.(buckets := cleaned.buckets[key := bucket]), verdict)
  }

  class RateLimiter {
    var buckets: map<string, Bucket>
    var lastCleanup: int

    ghost function View(): Limiter
      reads this
    {
      Limiter(buckets, lastCleanup)
    }

    constructor (now: int)
      ensures View() == Limiter(map[], now)
    {
      buckets, lastCleanup := map[], now;
    }

    method CleanupExpired(now: int)
      modifies this
      ensures View() == CleanUp(old(View()), now)
      ensures now - old(lastCleanup) < 600_000 ==> buckets == old(buckets) && lastCleanup == old(lastCleanup)
      ensures now - old(lastCleanup) >= 600_000 ==>
                && lastCleanup == now
                && (forall k :: k in buckets <==> k in old(buckets) && now < old(buckets)[k].resetAt)
                && (forall k :: k in buckets ==> buckets[k] == old(buckets)[k])
    {
      if now - lastCleanup < CLEANUP_INTERVAL_MS {
        return;
      }
      lastCleanup := now;
      var keys := buckets.Keys;
      while keys != {}
        invariant keys <= old(buckets).Keys
        invariant forall k :: k in buckets <==> k in old(buckets) && (k in keys || old(buckets)[k].resetAt > now)
        invariant forall k :: k in buckets ==> buckets[k] == old(buckets)[k]
        invariant lastCleanup == now
        decreases keys
      {
        var k :| k in keys;
        keys := keys - {k};
        if buckets[k].resetAt <= now {
          buckets := buckets - {k};
        }
      }
    }

    method CheckRateLimit(key: string, options: Options, now: int) returns (verdict: Verdict)
      modifies this
      ensures (View(), verdict) == Check(old(View()), key, options, now)
    {
      CleanupExpired(now);
      if key !in buckets || buckets[key].resetAt <= now {
        buckets := buckets[key := Bucket(0, now + options.windowMs)];
      }
      var bucket := buckets[key];
      if bucket.count >= options.maxAttempts {
        assert buckets == Check(old(View()), key, options, now).0.buckets;
        return Verdict(false, Some(NonNegative(bucket.resetAt - now)), 0);
      }
      buckets := buckets[key := bucket.(count := bucket.count + 1)];
      assert buckets == Check(old(View()), key, options, now).0.buckets;
      return Verdict(true, None, NonNegative(options.maxAttempts - (bucket.count + 1)));
    }

    method ClearRateLimit(key: string)
      modifies this
      ensures View() == old(View()).(buckets := old(buckets) - {key})
    {
      buckets := buckets - {key};
    }
  }

  // ----- Runs.

  datatype Call =
    | CheckCall(key: string, options: Options, now: int)
    | ClearCall(key: string, now: int)

  ghost predicate IsTimeline(calls: seq<Call>, clock: int)
    decreases |calls|
  {
    calls != [] ==> clock <= calls[0].now && IsTimeline(calls[1..], calls[0].now)
  }

  /** The verdicts of the limiter as it is; a clear yields None. */
  function Run(l: Limiter, calls: seq<Call>): seq<Option<Verdict>>
    decreases |calls|
  {
    if calls == [] then []
    else
      match calls[0]
      case CheckCall(key, o, now) =>
        var (next, verdict) := Check(l, key, o, now);
        [Some(verdict)] + Run(next, calls[1..])
      case ClearCall(key, _) => [None] + Run(l.(buckets := l.buckets - {key}), calls[1..])
  }

  /** The verdicts of a limiter that never forgets a bucket. */
  function RunUncleaned(buckets: map<string, Bucket>, calls: seq<Call>): seq<Option<Verdict>>
    decreases |calls|
  {
    if calls == [] then []
    else
      match calls[0]
      case CheckCall(key, o, now) =>
        var (bucket, verdict) := CheckBucket(Lookup(buckets, key), o, now);
        [Some(verdict)] + RunUncleaned(buckets[key := bucket], calls[1..])
      case ClearCall(key, _) => [None] + RunUncleaned(buckets - {key}, calls[1..])
  }

  /** The cleaned map lacks nothing but buckets that have expired. */
  ghost predicate OnlyLacksExpired(cleaned: map<string, Bucket>, all: map<string, Bucket>, clock: int) {
    && (forall k :: k in cleaned ==> k in all && cleaned[k] == all[k])
    && (forall k :: k in all && k !in cleaned ==> all[k].resetAt <= clock)
  }

  /**
   * Periodic cleanup is invisible: on every call sequence under a clock that never steps back, with
   * any keys, options and clears, every decision, remaining count and retry time is that of a
   * limiter that never cleans.
   */
  lemma {:induction false} CleanupIsInvisible(l: Limiter, all: map<string, Bucket>, calls: seq<Call>, clock: int)
    requires OnlyLacksExpired(l.buckets, all, clock) && IsTimeline(calls, clock)
    ensures Run(l, calls) == RunUncleaned(all, calls)
    decreases |calls|
  {
    if calls != [] {
      match calls[0]
      case CheckCall(key, o, now) =>
        var cleaned := CleanUp(l, now);
        assert OnlyLacksExpired(cleaned.buckets, all, now);
        assert CheckBucket(Lookup(cleaned.buckets, key), o, now) == CheckBucket(Lookup(all, key), o, now);
        var bucket := CheckBucket(Lookup(all, key), o, now).0;
        CleanupIsInvisible(Check(l, key, o, now).0, all[key := bucket], calls[1..], now);
      case ClearCall(key, now) =>
        CleanupIsInvisible(l.(buckets := l.buckets - {key}), all - {key}, calls[1..], now);
    }
  }

  // ----- Quantitative bounds for one key.

  /** Every check of `key` uses the options `o`, and nobody clears it. */
  ghost predicate IsSteady(calls: seq<Call>, key: string, o: Options) {
    forall i :: 0 <= i < |calls| && calls[i].key == key ==> calls[i].CheckCall? && calls[i].options == o
  }

  /** How many checks of `key` at instants in [from, to) were allowed. */
  function AllowedIn(calls: seq<Call>, verdicts: seq<Option<Verdict>>, key: string, from: int, to: int): nat
    requires |calls| == |verdicts|
  {
    if calls == [] then 0
    else
      (if calls[0].key == key && from <= calls[0].now < to && verdicts[0].Some? &&
          verdicts[0].value.allowed then 1 else 0)
      + AllowedIn(calls[1..], verdicts[1..], key, from, to)
  }

  lemma {:induction false} RunLength(buckets: map<string, Bucket>, calls: seq<Call>)
    ensures |RunUncleaned(buckets, calls)| == |calls|
    decreases |calls|
  {
    if calls != [] {
      match calls[0]
      case CheckCall(key, o, now) => RunLength(buckets[key := CheckBucket(Lookup(buckets, key), o, now).0], calls[1..]);
      case ClearCall(key, _) => RunLength(buckets - {key}, calls[1..]);
    }
  }

  /** A bucket that some call has counted in, and never over the limit. */
  ghost predicate IsReachable(bucket: Option<Bucket>, o: Options) {
    bucket.Some? ==> 1 <= bucket.value.count <= o.maxAttempts
  }

  /** How many more checks at instants in [from, from + window) can be allowed, seen from `clock`. */
  function Budget(bucket: Option<Bucket>, o: Options, clock: int, from: int): int {
    var to := from + o.windowMs;
    if clock >= to then 0
    else if bucket.None? || bucket.value.resetAt < from then 2 * o.maxAttempts - 1
    else if bucket.value.resetAt < to then 2 * o.maxAttempts - bucket.value.count
    else o.maxAttempts - bucket.value.count
  }

  lemma CheckSpendsBudget(bucket: Option<Bucket>, o: Options, clock: int, now: int, from: int)
    requires IsReachable(bucket, o) && clock <= now && o.windowMs > 0 && o.maxAttempts >= 1
    ensures var (next, verdict) := CheckBucket(bucket, o, now);
            && IsReachable(Some(next), o)
            && (if verdict.allowed && from <= now < from + o.windowMs then 1 else 0) + Budget(Some(next), o, now, from)
                 <= Budget(bucket, o, clock, from)
  {
  }

  lemma {:induction false} AllowedWithinBudget(buckets: map<string, Bucket>, calls: seq<Call>, key: string,
      o: Options, clock: int, from: int)
    requires IsTimeline(calls, clock) && IsSteady(calls, key, o)
    requires IsReachable(Lookup(buckets, key), o) && o.windowMs > 0 && o.maxAttempts >= 1
    ensures |RunUncleaned(buckets, calls)| == |calls|
    ensures AllowedIn(calls, RunUncleaned(buckets, calls), key, from, from + o.windowMs) <= Budget(Lookup(buckets,
        key), o, clock, from)
    decreases |calls|
  {
    RunLength(buckets, calls);
    if calls != [] {
      var rest := calls[1..];
      match calls[0]
      case CheckCall(k, options, now) =>
        var next := buckets[k := CheckBucket(Lookup(buckets, k), options, now).0];
        if k == key {
          CheckSpendsBudget(Lookup(buckets, key), o, clock, now, from);
        }
        AllowedWithinBudget(next, rest, key, o, now, from);
        assert RunUncleaned(buckets, calls)[1..] == RunUncleaned(next, rest);
      case ClearCall(k, now) =>
        AllowedWithinBudget(buckets - {k}, rest, key, o, now, from);
        assert RunUncleaned(buckets, calls)[1..] == RunUncleaned(buckets - {k}, rest);
    }
  }

  /**
   * The sliding bound of the fixed window: over every run of the limiter, whatever other keys do
   * and however often it cleans, the checks of one key allowed in any half-open interval of one
   * window length number at most 2 * maxAttempts - 1; none when maxAttempts is zero or negative.
   */
  lemma SlidingWindowBound(calls: seq<Call>, key: string, o: Options, start: int, from: int)
    requires IsTimeline(calls, start) && IsSteady(calls, key, o)
    ensures var verdicts := Run(Limiter(map[], start), calls);
            && |verdicts| == |calls|
            && AllowedIn(calls, verdicts, key, from, from + o.windowMs) <= NonNegative(2 * o.maxAttempts - 1)
  {
    CleanupIsInvisible(Limiter(map[], start), map[], calls, start);
    RunLength(map[], calls);
    if o.windowMs <= 0 {
      NothingInEmptyInterval(calls, Run(Limiter(map[], start), calls), key, from, from + o.windowMs);
    } else if o.maxAttempts <= 0 {
      NothingAllowedAtZero(map[], calls, key, o, from, from + o.windowMs);
    } else {
      AllowedWithinBudget(map[], calls, key, o, start, from);
    }
  }

  lemma {:induction false} NothingInEmptyInterval(calls: seq<Call>, verdicts: seq<Option<Verdict>>, key: string,
      from: int, to: int)
    requires |calls| == |verdicts| && to <= from
    ensures AllowedIn(calls, verdicts, key, from, to) == 0
  {
    if calls != [] {
      NothingInEmptyInterval(calls[1..], verdicts[1..], key, from, to);
    }
  }

  lemma {:induction false} NothingAllowedAtZero(buckets: map<string, Bucket>, calls: seq<Call>, key: string,
      o: Options, from: int, to: int)
    requires IsSteady(calls, key, o) && o.maxAttempts <= 0
    requires key in buckets ==> buckets[key].count >= 0
    ensures |RunUncleaned(buckets, calls)| == |calls|
    ensures AllowedIn(calls, RunUncleaned(buckets, calls), key, from, to) == 0
    decreases |calls|
  {
    RunLength(buckets, calls);
    if calls != [] {
      match calls[0]
      case CheckCall(k, options, now) =>
        var next := buckets[k := CheckBucket(Lookup(buckets, k), options, now).0];
        NothingAllowedAtZero(next, calls[1..], key, o, from, to);
        assert RunUncleaned(buckets, calls)[1..] == RunUncleaned(next, calls[1..]);
      case ClearCall(k, now) =>
        NothingAllowedAtZero(buckets - {k}, calls[1..], key, o, from, to);
        assert RunUncleaned(buckets, calls)[1..] == RunUncleaned(buckets - {k}, calls[1..]);
    }
  }

  /** Within the window of one bucket at most maxAttempts are allowed, the ones already counted included. */
  lemma BucketWindowBound(buckets: map<string, Bucket>, calls: seq<Call>, key: string, o: Options, clock: int)
    requires IsTimeline(calls, clock) && IsSteady(calls, key, o)
    requires key in buckets && IsReachable(Some(buckets[key]), o) && clock < buckets[key].resetAt
    requires o.windowMs > 0 && o.maxAttempts >= 1
    ensures |RunUncleaned(buckets, calls)| == |calls|
    ensures buckets[key].count
            + AllowedIn(calls, RunUncleaned(buckets, calls), key, buckets[key].resetAt - o.windowMs,
                buckets[key].resetAt)
            <= o.maxAttempts
  {
    AllowedWithinBudget(buckets, calls, key, o, clock, buckets[key].resetAt - o.windowMs);
  }

  // ----- The bound is reached: the window does not slide.

  function Burst(key: string, o: Options, now: int, times: nat): seq<Call> {
    if times == 0 then [] else [CheckCall(key, o, now)] + Burst(key, o, now, times - 1)
  }

  /** A check on a live bucket with room is allowed and counted. */
  lemma CheckWithRoomIsAllowed(buckets: map<string, Bucket>, key: string, o: Options, now: int, rest: seq<Call>,
      from: int, to: int)
    requires key in buckets && now < buckets[key].resetAt && buckets[key].count < o.maxAttempts && from <= now < to
    ensures var calls := [CheckCall(key, o, now)] + rest;
            var after := buckets[key := Bucket(buckets[key].count + 1, buckets[key].resetAt)];
            && |RunUncleaned(buckets, calls)| == |calls| && |RunUncleaned(after, rest)| == |rest|
            && AllowedIn(calls, RunUncleaned(buckets, calls), key, from, to)
               == 1 + AllowedIn(rest, RunUncleaned(after, rest), key, from, to)
  {
    var calls := [CheckCall(key, o, now)] + rest;
    var after := buckets[key := Bucket(buckets[key].count + 1, buckets[key].resetAt)];
    RunLength(buckets, calls);
    RunLength(after, rest);
    assert calls[1..] == rest;
    assert RunUncleaned(buckets, calls)[1..] == RunUncleaned(after, rest);
  }

  /** A burst that fits in the live bucket is allowed in full. */
  lemma {:induction false} BurstIsAllowed(buckets: map<string, Bucket>, key: string, o: Options, now: int, times: nat,
                                          rest: seq<Call>, from: int, to: int)
    requires key in buckets && now < buckets[key].resetAt && buckets[key].count + times <= o.maxAttempts
    requires from <= now < to
    ensures var calls := Burst(key, o, now, times) + rest;
            var after := buckets[key := Bucket(buckets[key].count + times, buckets[key].resetAt)];
            && |calls| == times + |rest| && |RunUncleaned(buckets, calls)| == |calls|
            && |RunUncleaned(after, rest)| == |rest|
            && AllowedIn(calls, RunUncleaned(buckets, calls), key, from, to)
               == times + AllowedIn(rest, RunUncleaned(after, rest), key, from, to)
    decreases times
  {
    if times == 0 {
      assert Burst(key, o, now, times) + rest == rest;
      assert buckets[key := Bucket(buckets[key].count, buckets[key].resetAt)] == buckets;
      RunLength(buckets, rest);
    } else {
      var others := Burst(key, o, now, times - 1) + rest;
      var next := buckets[key := Bucket(buckets[key].count + 1, buckets[key].resetAt)];
      CheckWithRoomIsAllowed(buckets, key, o, now, others, from, to);
      BurstIsAllowed(next, key, o, now, times - 1, rest, from, to);
      assert Burst(key, o, now, times) + rest == [CheckCall(key, o, now)] + others;
      assert next[key := Bucket(next[key].count + (times - 1), next[key].resetAt)]
             == buckets[key := Bucket(buckets[key].count + times, buckets[key].resetAt)];
    }
  }

  /** The first check on an absent or expired bucket is allowed and leaves a count of one. */
  lemma OpeningCheckIsAllowed(buckets: map<string, Bucket>, key: string, o: Options, now: int, rest: seq<Call>,
      from: int, to: int)
    requires key in buckets ==> buckets[key].resetAt <= now
    requires o.maxAttempts >= 1
    ensures var calls := [CheckCall(key, o, now)] + rest;
            var after := buckets[key := Bucket(1, now + o.windowMs)];
            && |RunUncleaned(buckets, calls)| == |calls| && |RunUncleaned(after, rest)| == |rest|
            && AllowedIn(calls, RunUncleaned(buckets, calls), key, from, to)
               == (if from <= now < to then 1 else 0) + AllowedIn(rest, RunUncleaned(after, rest), key, from, to)
  {
    var calls := [CheckCall(key, o, now)] + rest;
    var after := buckets[key := Bucket(1, now + o.windowMs)];
    RunLength(buckets, calls);
    RunLength(after, rest);
    assert calls[1..] == rest;
    assert RunUncleaned(buckets, calls)[1..] == RunUncleaned(after, rest);
  }

  /** A full burst on an absent or expired bucket is allowed. */
  lemma FullBurstIsAllowed(buckets: map<string, Bucket>, key: string, o: Options, now: int, from: int, to: int)
    requires key in buckets ==> buckets[key].resetAt <= now
    requires o.maxAttempts >= 1 && o.windowMs >= 1 && from <= now < to
    ensures var calls := Burst(key, o, now, o.maxAttempts);
            && |RunUncleaned(buckets, calls)| == |calls|
            && AllowedIn(calls, RunUncleaned(buckets, calls), key, from, to) == o.maxAttempts
  {
    var rest := Burst(key, o, now, o.maxAttempts - 1);
    OpeningCheckIsAllowed(buckets, key, o, now, rest, from, to);
    assert rest + [] == rest;
    BurstIsAllowed(buckets[key := Bucket(1, now + o.windowMs)], key, o, now, o.maxAttempts - 1, [], from, to);
  }

  /**
   * For every window of at least two milliseconds and every limit of at least one, 2 * maxAttempts - 1
   * checks are allowed inside one window length: one opens a bucket, the rest come just before and at
   * its end.
   */
  lemma SlidingBoundIsReached(key: string, o: Options)
    requires o.windowMs >= 2 && o.maxAttempts >= 1
    ensures var w, m := o.windowMs, o.maxAttempts;
            var calls := [CheckCall(key, o, 0)] + (Burst(key, o, w - 1, m - 1) + Burst(key, o, w, m));
            && |RunUncleaned(map[], calls)| == |calls|
            && AllowedIn(calls, RunUncleaned(map[], calls), key, w - 1, (w - 1) + w) == 2 * m - 1
  {
    var w, m := o.windowMs, o.maxAttempts;
    LateBurstsAreAllowed(key, o);
    OpeningCheckIsAllowed(map[], key, o, 0, Burst(key, o, w - 1, m - 1) + Burst(key, o, w, m), w - 1, (w - 1) + w);
  }

  /** The rest of one bucket just before its window ends, then a full bucket at the end of it. */
  lemma LateBurstsAreAllowed(key: string, o: Options)
    requires o.windowMs >= 2 && o.maxAttempts >= 1
    ensures var w, m := o.windowMs, o.maxAttempts;
            var started: map<string, Bucket> := map[][key := Bucket(1, 0 + w)];
            var calls := Burst(key, o, w - 1, m - 1) + Burst(key, o, w, m);
            && |RunUncleaned(started, calls)| == |calls|
            && AllowedIn(calls, RunUncleaned(started, calls), key, w - 1, (w - 1) + w) == 2 * m - 1
  {
    var w, m := o.windowMs, o.maxAttempts;
    var started: map<string, Bucket> := map[][key := Bucket(1, 0 + w)];
    BurstIsAllowed(started, key, o, w - 1, m - 1, Burst(key, o, w, m), w - 1, (w - 1) + w);
    FullBurstIsAllowed(started[key := Bucket(m, w)], key, o, w, w - 1, (w - 1) + w);
  }

  // ----- What a check answers.

  /** The calls an open bucket has counted; an absent or expired bucket counts none. */
  ghost function Used(bucket: Option<Bucket>, now: int): int {
    if bucket.Some? && now < bucket.value.resetAt then bucket.value.count else 0
  }

  /**
   * A check is allowed exactly while calls are left, and then counted; it never moves the end of an
   * open window and opens a new one otherwise. A refusal has the wait until that end.
   */
  lemma CheckAnswers(bucket: Option<Bucket>, o: Options, now: int)
    ensures var (next, verdict) := CheckBucket(bucket, o, now);
            var wait := if next.resetAt < now then 0 else next.resetAt - now;
            var used := Used(bucket, now);
            && next.resetAt == (if bucket.Some? && now < bucket.value.resetAt then bucket.value.resetAt
                                else now + o.windowMs)
            && (if used < o.maxAttempts then
                  next.count == used + 1 && verdict == Verdict(true, None, o.maxAttempts - used - 1)
                else
                  next.count == used && verdict == Verdict(false, Some(wait), 0))
  {
  }

  lemma {:induction false} BurstAllowsWhatIsLeft(buckets: map<string, Bucket>, key: string, o: Options, t: int, n: nat)
    requires key in buckets && t < buckets[key].resetAt
    ensures var calls := Burst(key, o, t, n);
            var left := NonNegative(o.maxAttempts - buckets[key].count);
            && |calls| == n && |RunUncleaned(buckets, calls)| == n
            && AllowedIn(calls, RunUncleaned(buckets, calls), key, t, t + 1) == if n < left then n else left
    decreases n
  {
    if n > 0 {
      var calls, rest := Burst(key, o, t, n), Burst(key, o, t, n - 1);
      var next := buckets[key := CheckBucket(Some(buckets[key]), o, t).0];
      BurstAllowsWhatIsLeft(next, key, o, t, n - 1);
      RunLength(buckets, calls);
      assert calls[1..] == rest;
      assert RunUncleaned(buckets, calls)[1..] == RunUncleaned(next, rest);
    }
  }

  /**
   * The remaining count of an answer is what the window has left: of any number of further checks
   * before the window ends, exactly that many are allowed, or all if they are fewer.
   */
  lemma RemainingIsWhatIsLeft(buckets: map<string, Bucket>, key: string, o: Options, now: int, t: int, n: nat)
    requires now <= t
    ensures var (next, verdict) := CheckBucket(Lookup(buckets, key), o, now);
            var calls := Burst(key, o, t, n);
            var answers := RunUncleaned(buckets[key := next], calls);
            && |calls| == |answers| == n
            && (t < next.resetAt ==>
                  AllowedIn(calls, answers, key, t, t + 1) == if n < verdict.remaining then n else verdict.remaining)
  {
    var next := CheckBucket(Lookup(buckets, key), o, now).0;
    RunLength(buckets[key := next], Burst(key, o, t, n));
    BurstLength(key, o, t, n);
    if t < next.resetAt {
      BurstAllowsWhatIsLeft(buckets[key := next], key, o, t, n);
    }
  }

  lemma {:induction false} BurstLength(key: string, o: Options, now: int, times: nat)
    ensures |Burst(key, o, now, times)| == times
  {
    if times > 0 {
      BurstLength(key, o, now, times - 1);
    }
  }

  // ----- Retry times.

  /**
   * A refusal's retry time is exact. Until it has passed every further check is refused, with the
   * remaining wait, and changes nothing; at that instant a check is allowed if any ever is.
   */
  lemma RetryAfterIsExact(bucket: Option<Bucket>, o: Options, now: int, t: int)
    requires CheckBucket(bucket, o, now).1.retryAfterMs.Some? && now <= t
    ensures var (next, verdict) := CheckBucket(bucket, o, now);
            var reopen := now + verdict.retryAfterMs.value;
            && !verdict.allowed
            && (t < reopen ==> CheckBucket(Some(next), o, t) == (next, Verdict(false, Some(reopen - t), 0)))
            && (t == reopen && o.maxAttempts >= 1 ==> CheckBucket(Some(next), o, t).1.allowed)
  {
  }
}
