/** The sliding-window rate limiter (`lib/rate-limit.ts`). Each identifier owns a
    sorted set in the key-value store whose scores are the times (ms) of accepted
    requests; the set is kept as the sequence of its scores. */
module RateLimit {
  import opened Wrappers
  import Text
  import Lists

  const DefaultLimit := 5
  const DefaultWindow := 60000
  const KeyPrefix := "rate_limit:"

  datatype RateLimitResult = RateLimitResult(success: bool, limit: int, remaining: int, reset: int)

  /** The first store call that throws, if any. A thrown `zrange` can only happen on
      the rejecting path, the other three only on the accepting path. */
  datatype KvFault = NoFault | RangeFails | OldestFails | AddFails | PruneFails | ExpireFails

  function Key(identifier: string): (k: string)
    ensures |k| == |KeyPrefix| + |identifier|
    ensures k[..|KeyPrefix|] == KeyPrefix && k[|KeyPrefix|..] == identifier
  {
    KeyPrefix + identifier
  }

  /** Different identifiers never share a set. */
  lemma KeyInjective(a: string, b: string)
    requires Key(a) == Key(b)
    ensures a == b
  {
    assert a == Key(a)[|KeyPrefix|..];
  }

  /** `zrangebyscore(key, lo, hi)` counts the scores in `[lo, hi]`. */
  function CountInRange(scores: seq<int>, lo: int, hi: int): (n: nat)
    ensures n <= |scores|
  {
    |Lists.Filter(scores, (x: int) => lo <= x <= hi)|
  }

  /** `zremrangebyscore(key, 0, hi)` drops the scores in `[0, hi]`. */
  function Prune(scores: seq<int>, hi: int): (r: seq<int>)
    ensures forall x :: x in r <==> x in scores && !(0 <= x <= hi)
    ensures multiset(r) <= multiset(scores)
  {
    Lists.Filter(scores, (x: int) => !(0 <= x <= hi))
  }

  /** The lowest score: what `zrange(key, 0, 0, { withScores: true })` reports. */
  function MinScore(scores: seq<int>): (m: int)
    requires scores != []
    ensures m in scores
    ensures forall x | x in scores :: m <= x
  {
    if |scores| == 1 then scores[0]
    else
      var rest := MinScore(scores[1..]);
      assert forall x | x in scores :: x == scores[0] || x in scores[1..];
      if scores[0] <= rest then scores[0] else rest
  }

  function FailOpen(limit: int, now: int, window: int): RateLimitResult {
    RateLimitResult(true, limit, limit - 1, now + window)
  }

  /** What one `rateLimit` call does to the set of its key, and what it returns. */
  datatype Outcome = Outcome(scores: seq<int>, result: RateLimitResult)

  function Decide(scores: seq<int>, limit: int, window: int, now: int, fault: KvFault): Outcome {
    if fault == RangeFails then Outcome(scores, FailOpen(limit, now, window))
    else
      var count := CountInRange(scores, now - window, now);
      if count >= limit then Reject(scores, limit, window, now, fault)
      else Accept(scores, count, limit, window, now, fault)
  }

  /** The path taken when the window is full: nothing is written. */
  function Reject(scores: seq<int>, limit: int, window: int, now: int, fault: KvFault): Outcome {
    if fault == OldestFails then Outcome(scores, FailOpen(limit, now, window))
    else
      var reset := if scores == [] then now + window else MinScore(scores) + window;
      Outcome(scores, RateLimitResult(false, limit, 0, reset))
  }

  /** The path taken below the limit: add `now`, then prune, then set the expiry. */
  function Accept(scores: seq<int>, count: int, limit: int, window: int, now: int, fault: KvFault): Outcome {
    if fault == AddFails then Outcome(scores, FailOpen(limit, now, window))
    else if fault == PruneFails then Outcome(scores + [now], FailOpen(limit, now, window))
    else
      var pruned := Prune(scores + [now], now - window);
      if fault == ExpireFails then Outcome(pruned, FailOpen(limit, now, window))
      else Outcome(pruned, RateLimitResult(true, limit, limit - count - 1, now + window))
  }

  lemma DecideWhenFull(scores: seq<int>, limit: int, window: int, now: int, fault: KvFault)
    requires fault != RangeFails && CountInRange(scores, now - window, now) >= limit
    ensures Decide(scores, limit, window, now, fault) == Reject(scores, limit, window, now, fault)
  {
  }

  lemma DecideWithRoom(scores: seq<int>, limit: int, window: int, now: int, fault: KvFault)
    requires fault != RangeFails && CountInRange(scores, now - window, now) < limit
    ensures Decide(scores, limit, window, now, fault)
            == Accept(scores, CountInRange(scores, now - window, now), limit, window, now, fault)
  {
  }

  /** The scores stored under `key`; a missing key is an empty set. */
  function ScoresOf(sets: map<string, seq<int>>, key: string): seq<int> {
    if key in sets then sets[key] else []
  }

  class RateLimiter {
    /** The key-value store's sorted sets, by key. */
    var sets: map<string, seq<int>>

    constructor (sets0: map<string, seq<int>>)
      ensures sets == sets0
    {
      sets := sets0;
    }

    /** `rateLimit(identifier, limit, window)` at time `now`. The `expire` call only
        sets a time-to-live on the key and changes no score. */
    method RateLimit(identifier: string, limit: int, window: int, now: int, fault: KvFault)
      returns (r: RateLimitResult)
      modifies this
      ensures Outcome(ScoresOf(sets, Key(identifier)), r)
              == Decide(ScoresOf(old(sets), Key(identifier)), limit, window, now, fault)
      ensures forall k | k != Key(identifier) :: ScoresOf(sets, k) == ScoresOf(old(sets), k)
    {
      var key := Key(identifier);
      var windowStart := now - window;
      var scores := ScoresOf(sets, key);
      if fault == RangeFails {
        return FailOpen(limit, now, window);
      }
      var count := CountInRange(scores, windowStart, now);
      if count >= limit {
        DecideWhenFull(scores, limit, window, now, fault);
        if fault == OldestFails {
          return FailOpen(limit, now, window);
        }
        var reset := if scores == [] then now + window else MinScore(scores) + window;
        return RateLimitResult(false, limit, 0, reset);
      }
      DecideWithRoom(scores, limit, window, now, fault);
      r := Record(key, scores, count, limit, window, now, fault);
    }

    /** The accepting path: `zadd` the current time, `zremrangebyscore` everything up to
        the window start, `expire` the key; the first call that throws ends the path. */
    method Record(key: string, scores: seq<int>, count: int, limit: int, window: int, now: int, fault: KvFault)
      returns (r: RateLimitResult)
      requires ScoresOf(sets, key) == scores
      modifies this
      ensures Outcome(ScoresOf(sets, key), r) == Accept(scores, count, limit, window, now, fault)
      ensures forall k | k != key :: ScoresOf(sets, k) == ScoresOf(old(sets), k)
    {
      if fault == AddFails {
        return FailOpen(limit, now, window);
      }
      var added := scores + [now];
      SetScores(key, added);
      if fault == PruneFails {
        return FailOpen(limit, now, window);
      }
      SetScores(key, Prune(added, now - window));
      if fault == ExpireFails {
        return FailOpen(limit, now, window);
      }
      r := RateLimitResult(true, limit, limit - count - 1, now + window);
    }

    /** Stores `scores` under `key` (`zadd`, `zremrangebyscore`). */
    method SetScores(key: string, scores: seq<int>)
      modifies this
      ensures ScoresOf(sets, key) == scores
      ensures forall k | k != key :: ScoresOf(sets, k) == ScoresOf(old(sets), k)
    {
      sets := sets[key := scores];
    }
  }

  /** At the limit: rejected with nothing remaining, nothing stored, and the reset
      time taken from the oldest stored score. */
  lemma RejectStoresNothing(scores: seq<int>, limit: int, window: int, now: int)
    requires CountInRange(scores, now - window, now) >= limit
    ensures var o := Decide(scores, limit, window, now, NoFault);
            && o.scores == scores
            && !o.result.success && o.result.remaining == 0
            && (scores == [] ==> o.result.reset == now + window)
            && (scores != [] ==>
                  o.result.reset - window in scores && forall x | x in scores :: o.result.reset - window <= x)
  {
  }

  /** Below the limit: accepted, exactly one score `now` added and stale scores
      dropped, `remaining` never negative. */
  lemma AcceptAddsOne(scores: seq<int>, limit: int, window: int, now: int)
    requires CountInRange(scores, now - window, now) < limit
    ensures var o := Decide(scores, limit, window, now, NoFault);
            && o.result.success
            && o.result.remaining == limit - CountInRange(scores, now - window, now) - 1 >= 0
            && o.result.reset == now + window
            && o.scores == Prune(scores + [now], now - window)
            && (window > 0 ==> multiset(o.scores)[now] == multiset(scores)[now] + 1)
  {
    if window > 0 {
      var p := (x: int) => !(0 <= x <= now - window);
      var o := Decide(scores, limit, window, now, NoFault);
      assert o.scores == Lists.Filter(scores + [now], p);
      Lists.FilterConcat(scores, [now], p);
      assert Lists.Filter([now], p) == [now];
      FilterCount(scores, p, now);
      assert o.scores == Lists.Filter(scores, p) + [now];
    }
  }

  /** How often a value occurs is kept exactly by a filter that passes it. */
  lemma {:induction false} FilterCount(s: seq<int>, p: int -> bool, v: int)
    requires p(v)
    ensures multiset(Lists.Filter(s, p))[v] == multiset(s)[v]
  {
    if s != [] {
      FilterCount(s[1..], p, v);
      assert s == [s[0]] + s[1..];
    }
  }

  /** Any store failure lets the request through with `limit - 1` remaining. */
  lemma FailsOpen(scores: seq<int>, limit: int, window: int, now: int, fault: KvFault)
    requires fault != NoFault
    requires fault == OldestFails ==> CountInRange(scores, now - window, now) >= limit
    requires fault in {AddFails, PruneFails, ExpireFails} ==> CountInRange(scores, now - window, now) < limit
    ensures Decide(scores, limit, window, now, fault).result == RateLimitResult(true, limit, limit - 1, now + window)
  {
  }

  /** The stored scores are well formed for a clock reading `now`: timestamps no later
      than `now`, and never more of them than `limit`. */
  predicate Bounded(scores: seq<int>, limit: int, now: int) {
    |scores| <= limit && forall x | x in scores :: 0 <= x <= now
  }

  /** Without store failures, and with a clock that does not run backwards, a set never
      holds more than `limit` scores: a score is added only while fewer than `limit`
      lie in the window, and the same call prunes everything older than the window. */
  lemma {:induction false} NeverOverLimit(scores: seq<int>, limit: int, window: int, earlier: int, now: int)
    requires Bounded(scores, limit, earlier)
    requires 0 <= earlier <= now
    ensures Bounded(Decide(scores, limit, window, now, NoFault).scores, limit, now)
  {
    var ws := now - window;
    var count := CountInRange(scores, ws, now);
    if count < limit {
      var p := (x: int) => !(0 <= x <= ws);
      var inWindow := (x: int) => ws <= x <= now;
      Lists.FilterConcat(scores, [now], p);
      Lists.FilterLengthMono(scores, p, inWindow);
      var r := Prune(scores + [now], ws);
      assert |Lists.Filter([now], p)| <= 1;
      forall x | x in r ensures 0 <= x <= now {
        assert x in scores + [now];
      }
    }
  }

  /** Hence a rejection always names a reset time no earlier than `now`: the oldest
      stored score still lies inside the window. */
  lemma RejectResetNotPast(scores: seq<int>, limit: int, window: int, now: int)
    requires Bounded(scores, limit, now)
    requires scores != []
    requires CountInRange(scores, now - window, now) >= limit
    ensures Decide(scores, limit, window, now, NoFault).result.reset >= now
  {
    var inWindow := (x: int) => now - window <= x <= now;
    Lists.FilterFull(scores, inWindow);
  }

  /** `getRateLimitHeaders`: the three numbers as decimal strings. */
  function RateLimitHeaders(r: RateLimitResult): (h: seq<(string, string)>)
    ensures |h| == 3
    ensures h[0].0 == "X-RateLimit-Limit" && h[1].0 == "X-RateLimit-Remaining" && h[2].0 == "X-RateLimit-Reset"
  {
    [ ("X-RateLimit-Limit", Text.IntToString(r.limit)),
      ("X-RateLimit-Remaining", Text.IntToString(r.remaining)),
      ("X-RateLimit-Reset", Text.IntToString(r.reset)) ]
  }

  /** A client reading the headers back gets the exact numbers. */
  lemma HeadersRoundTrip(r: RateLimitResult)
    ensures Text.ParseInt(RateLimitHeaders(r)[0].1) == Some(r.limit)
    ensures Text.ParseInt(RateLimitHeaders(r)[1].1) == Some(r.remaining)
    ensures Text.ParseInt(RateLimitHeaders(r)[2].1) == Some(r.reset)
  {
    Text.IntToStringRoundTrip(r.limit);
    Text.IntToStringRoundTrip(r.remaining);
    Text.IntToStringRoundTrip(r.reset);
  }
}
