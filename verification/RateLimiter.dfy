/**
 The class of src/server/rate_limiter.hpp, with its fields updated in place.  Every method is tied
 to the state machines of `TokenBucket`, `PrunedLog` and `SlidingLog`; the clock reading is a parameter.
 */
module RateLimiter {
  import opened Clock
  import opened TokenBucket
  import opened PrunedLog
  import opened SlidingLog

  const MAX_REQUESTS_PER_SECOND: int := 5

  class RateLimiter {
    const maxTokens: int
    var tokens: int
    var refillInterval: Interval
    var lastRefillTime: int
    var requestTimestamps: seq<int>
    var ipRateLimiters: map<string, seq<int>>
    var userRateLimiters: map<string, seq<int>>

    ghost function Bucket(): Bucket
      reads this
    {
      TokenBucket.Bucket.Bucket(maxTokens, tokens, refillInterval, lastRefillTime)
    }

    ghost predicate Valid()
      reads this
    {
      TokenBucket.Valid(Bucket())
    }

    constructor (maxTokens: int, refillInterval: Interval, now: int)
      requires maxTokens >= 0
      ensures Valid()
      ensures Bucket() == TokenBucket.Bucket.Bucket(maxTokens, maxTokens, refillInterval, now)
      ensures requestTimestamps == [] && ipRateLimiters == map[] && userRateLimiters == map[]
    {
      this.maxTokens := maxTokens;
      tokens := maxTokens;
      this.refillInterval := refillInterval;
      lastRefillTime := now;
      requestTimestamps := [];
      ipRateLimiters := map[];
      userRateLimiters := map[];
    }

    /** The tokens that there are at `now`: one more for each whole interval since the last refill, up to
        the maximum. */
    ghost function TokensAt(now: int): int
      reads this
    {
      if RefillsAt(now) then
        var full := tokens + (now - lastRefillTime) / (refillInterval * 1_000_000);
        if full <= maxTokens then full else maxTokens
      else tokens
    }

    ghost predicate RefillsAt(now: int)
      reads this
    {
      now - lastRefillTime >= refillInterval * 1_000_000
    }

    method AllowRequest(now: int) returns (allowed: bool)
      requires Valid()
      modifies `tokens, `lastRefillTime, `requestTimestamps
      ensures Valid()
      ensures allowed <==> old(TokensAt(now)) > 0
      ensures tokens == old(TokensAt(now)) - if allowed then 1 else 0
      ensures lastRefillTime == if old(RefillsAt(now)) then now else old(lastRefillTime)
      ensures var e := Event.AllowRequest(now, refillInterval);
              Bucket() == old(Step(Bucket(), e)) && allowed == old(Admits(Bucket(), e))
      ensures requestTimestamps == old(requestTimestamps) + if allowed then [now] else []
    {
      StepKeepsValid(Bucket(), Event.AllowRequest(now, refillInterval));
      var _ := CalculateTokenRefill(now);
      if tokens > 0 {
        tokens := tokens - 1;
        requestTimestamps := requestTimestamps + [now];
        return true;
      }
      return false;
    }

    method CalculateTokenRefill(now: int) returns (added: int)
      requires Valid()
      modifies `tokens, `lastRefillTime
      ensures Valid()
      ensures Bucket() == old(Refill(Bucket(), now, refillInterval))
      ensures added == old(Credit(Bucket(), now, refillInterval))
      ensures added == if old(RefillsAt(now)) then (now - old(lastRefillTime)) / (refillInterval * 1_000_000) else 0
      ensures tokens == old(TokensAt(now))
      ensures lastRefillTime == if old(RefillsAt(now)) then now else old(lastRefillTime)
    {
      StepKeepsValid(Bucket(), Event.GetRemainingTokens(now, refillInterval));
      WholeIntervals(now - lastRefillTime, refillInterval);
      MulMonotone(1, refillInterval, 1_000_000);
      var elapsed := TruncDiv(now - lastRefillTime, NANOS_PER_MILLI);
      if elapsed >= refillInterval {
        var toAdd := elapsed / refillInterval;
        tokens := if maxTokens <= tokens + toAdd then maxTokens else tokens + toAdd;
        lastRefillTime := now;
        return toAdd;
      }
      return 0;
    }

    method SetRefillRate(interval: Interval)
      requires Valid()
      modifies `refillInterval
      ensures Valid()
      ensures Bucket() == old(Step(Bucket(), Event.SetRefillRate(interval)))
      ensures refillInterval == interval
    {
      refillInterval := interval;
    }

    method GetRemainingTokens(now: int) returns (remaining: int)
      requires Valid()
      modifies `tokens, `lastRefillTime
      ensures Valid()
      ensures Bucket() == old(Step(Bucket(), Event.GetRemainingTokens(now, refillInterval)))
      ensures remaining == tokens == old(TokensAt(now))
      ensures lastRefillTime == if old(RefillsAt(now)) then now else old(lastRefillTime)
    {
      var _ := CalculateTokenRefill(now);
      remaining := tokens;
    }

    method GetRequestCount(now: int, window: int) returns (count: int)
      modifies `requestTimestamps
      ensures requestTimestamps == old(Unexpired(requestTimestamps, now, NANOS_PER_SECOND, window))
      ensures count == |requestTimestamps|
      ensures window >= 1 ==>
                forall t :: multiset(requestTimestamps)[t] ==
                            if now - t < window * 1_000_000_000 then multiset(old(requestTimestamps))[t] else 0
    {
      if window >= 1 {
        forall t {
          UnexpiredAreYoung(requestTimestamps, now, NANOS_PER_SECOND, window, t);
        }
      }
      hide Unexpired;
      requestTimestamps := EraseExpired(requestTimestamps, now, NANOS_PER_SECOND, window);
      count := |requestTimestamps|;
    }

    method AllowRequestForIp(ip: string, now: int) returns (allowed: bool)
      modifies `ipRateLimiters
      ensures ipRateLimiters
              == old(Touch(ipRateLimiters, Call(ip, Attempt(now, MAX_REQUESTS_PER_SECOND)), NANOS_PER_SECOND))
      ensures Touched(old(ipRateLimiters), ipRateLimiters, ip, now, 1_000_000_000)
      ensures allowed <==> |ipRateLimiters[ip]| <= 5
    {
      var log := if ip in ipRateLimiters then ipRateLimiters[ip] else [];
      TouchIs(ipRateLimiters, Call(ip, Attempt(now, MAX_REQUESTS_PER_SECOND)), NANOS_PER_SECOND);
      hide Unexpired, Touched;
      log := EraseExpired(log + [now], now, NANOS_PER_SECOND, 1);
      ipRateLimiters := ipRateLimiters[ip := log];
      allowed := |log| <= MAX_REQUESTS_PER_SECOND;
    }

    method AllowRequestWithLimit(user: string, maxRequestsPerMinute: int, now: int) returns (allowed: bool)
      modifies `userRateLimiters
      ensures userRateLimiters
              == old(Touch(userRateLimiters, Call(user, Attempt(now, maxRequestsPerMinute)), NANOS_PER_MINUTE))
      ensures Touched(old(userRateLimiters), userRateLimiters, user, now, 60_000_000_000)
      ensures allowed <==> |userRateLimiters[user]| <= maxRequestsPerMinute
    {
      var log := if user in userRateLimiters then userRateLimiters[user] else [];
      TouchIs(userRateLimiters, Call(user, Attempt(now, maxRequestsPerMinute)), NANOS_PER_MINUTE);
      hide Unexpired, Touched;
      log := EraseExpired(log + [now], now, NANOS_PER_MINUTE, 1);
      userRateLimiters := userRateLimiters[user := log];
      allowed := |log| <= maxRequestsPerMinute;
    }
  }

  /** Any one-second window of any address holds at most five allowed requests. */
  lemma IpWindowBound(calls: seq<Call>, ip: string, start: int)
    requires InOrder(CallsOf(calls, ip))
    requires forall c :: c in calls ==> c.attempt.limit == MAX_REQUESTS_PER_SECOND
    ensures AllowedInWindow(CallsOf(calls, ip), NANOS_PER_SECOND, start, NANOS_PER_SECOND) <= MAX_REQUESTS_PER_SECOND
  {
    hide AllowedInWindow, CallsOf;
    LimitsOf(calls, ip, MAX_REQUESTS_PER_SECOND);
    assert Skewed(CallsOf(calls, ip), 0);
    WindowBound(CallsOf(calls, ip), NANOS_PER_SECOND, 0, start, MAX_REQUESTS_PER_SECOND);
  }

  lemma {:induction false} LimitsOf(calls: seq<Call>, key: string, limit: int)
    requires forall c :: c in calls ==> c.attempt.limit <= limit
    ensures forall i :: 0 <= i < |CallsOf(calls, key)| ==> CallsOf(calls, key)[i].limit <= limit
    decreases |calls|
  {
    if calls != [] {
      assert calls[|calls| - 1] in calls;
      LimitsOf(calls[..|calls| - 1], key, limit);
    }
  }
}
