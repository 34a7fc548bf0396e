/**
 The token bucket of src/server/rate_limiter.cpp, as a state machine.

 Instants are nanoseconds, as `steady_clock` counts them; the refill interval is in milliseconds.
 Nothing below needs the instants of successive calls to be ordered: `allow_request` reads the
 clock before it takes the lock, so two threads may enter in the other order.
 */
module TokenBucket {

  import opened Clock

  /** A refill interval in milliseconds; the code divides by it. */
  type Interval = i: int | i >= 1 witness 1

  datatype Bucket = Bucket(maxTokens: int, tokens: int, interval: Interval, last: int)

  predicate Valid(b: Bucket) {
    0 <= b.tokens <= b.maxTokens
  }

  function Elapsed(b: Bucket, now: int): int {
    TruncDiv(now - b.last, NANOS_PER_MILLI)
  }

  predicate RefillDue(b: Bucket, now: int) {
    Elapsed(b, now) >= b.interval
  }

  /** The tokens a refill computes.  `seen` is the interval at the second load of
      `refill_interval_`: `set_refill_rate` does not take the lock and may come between the two. */
  function Credit(b: Bucket, now: int, seen: Interval): int {
    if RefillDue(b, now) then Elapsed(b, now) / seen else 0
  }

  function Refill(b: Bucket, now: int, seen: Interval): Bucket {
    if RefillDue(b, now) then
      var full := b.tokens + Credit(b, now, seen);
      b.(tokens := if full < b.maxTokens then full else b.maxTokens, last := now, interval := seen)
    else
      b.(interval := seen)
  }

  function Take(b: Bucket): Bucket {
    if b.tokens > 0 then b.(tokens := b.tokens - 1) else b
  }

  datatype Event =
    | AllowRequest(now: int, seen: Interval)
    | GetRemainingTokens(now: int, seen: Interval)
    | SetRefillRate(interval: Interval)

  function Step(b: Bucket, e: Event): Bucket {
    match e
    case AllowRequest(now, seen) => Take(Refill(b, now, seen))
    case GetRemainingTokens(now, seen) => Refill(b, now, seen)
    case SetRefillRate(interval) => b.(interval := interval)
  }

  predicate Admits(b: Bucket, e: Event) {
    e.AllowRequest? && Refill(b, e.now, e.seen).tokens > 0
  }

  function StepCredit(b: Bucket, e: Event): int {
    if e.SetRefillRate? then 0 else Credit(b, e.now, e.seen)
  }

  // ---------------------------------------------------------------- runs

  function Run(b: Bucket, es: seq<Event>): Bucket
    decreases |es|
  {
    if es == [] then b else Run(Step(b, es[0]), es[1..])
  }

  function Admitted(b: Bucket, es: seq<Event>): nat
    decreases |es|
  {
    if es == [] then 0
    else (if Admits(b, es[0]) then 1 else 0) + Admitted(Step(b, es[0]), es[1..])
  }

  /** All the credit computed by the refills of a run, before the cap. */
  function Credited(b: Bucket, es: seq<Event>): int
    decreases |es|
  {
    if es == [] then 0 else StepCredit(b, es[0]) + Credited(Step(b, es[0]), es[1..])
  }

  /** The credit the cap throws away. */
  function Discarded(b: Bucket, es: seq<Event>): int
    decreases |es|
  {
    if es == [] then 0
    else
      var refilled := if es[0].SetRefillRate? then b else Refill(b, es[0].now, es[0].seen);
      (b.tokens + StepCredit(b, es[0]) - refilled.tokens) + Discarded(Step(b, es[0]), es[1..])
  }

  // ---------------------------------------------------------------- arithmetic

  /** What a refill that is due credits, against the time since the last one. */
  lemma CreditBound(b: Bucket, now: int, seen: Interval, least: int)
    requires Valid(b) && 1 <= least <= seen && RefillDue(b, now)
    ensures b.last < now
    ensures 0 <= Credit(b, now, seen) <= (now - b.last) / (NANOS_PER_MILLI * least)
  {
    var x := now - b.last;
    var e := x / NANOS_PER_MILLI;
    var c := e / seen;
    assert e >= 1;
    FloorAtLeast(e, seen, 0);
    assert c * seen <= e;
    MulMonotone(least, seen, c);
    assert c * (NANOS_PER_MILLI * least) == (c * least) * NANOS_PER_MILLI <= e * NANOS_PER_MILLI <= x;
    FloorAtLeast(x, NANOS_PER_MILLI * least, c);
  }

  /** The two truncations amount to one division of nanoseconds. */
  lemma WholeIntervals(x: int, interval: Interval)
    ensures TruncDiv(x, NANOS_PER_MILLI) >= interval <==> x >= interval * 1_000_000
    ensures x >= 0 ==> TruncDiv(x, NANOS_PER_MILLI) / interval == x / (interval * 1_000_000)
  {
    WholeUnits(x, NANOS_PER_MILLI, interval);
    if x >= 0 {
      var e, unit := x / NANOS_PER_MILLI, interval * NANOS_PER_MILLI;
      var c, d := e / interval, x / unit;
      assert c * unit == (c * interval) * NANOS_PER_MILLI <= e * NANOS_PER_MILLI <= x;
      FloorAtLeast(x, unit, c);
      assert (d * interval) * NANOS_PER_MILLI == d * unit <= x;
      FloorAtLeast(x, NANOS_PER_MILLI, d * interval);
      FloorAtLeast(e, interval, d);
    }
  }

  /** Before a whole interval has passed nothing changes; after it the bucket has what it had and one
      token for each whole interval, up to the maximum, and the clock starts again at `now`: what is left
      of an interval is lost. */
  lemma RefillAmounts(b: Bucket, now: int, seen: Interval)
    requires Valid(b)
    ensures now - b.last < b.interval * 1_000_000 ==> Refill(b, now, seen) == b.(interval := seen)
    ensures now - b.last >= b.interval * 1_000_000 ==>
              var full := b.tokens + (now - b.last) / (seen * 1_000_000);
              Refill(b, now, seen) == Bucket(b.maxTokens, if full <= b.maxTokens then full else b.maxTokens, seen, now)
  {
    WholeIntervals(now - b.last, b.interval);
    WholeIntervals(now - b.last, seen);
    if now - b.last >= b.interval * 1_000_000 {
      MulMonotone(1, b.interval, 1_000_000);
    }
    hide TruncDiv;
  }

  /** A refill with a steady interval credits the whole intervals that have passed: between half of the
      elapsed time and all of it. */
  lemma RefillBetweenHalfAndFull(b: Bucket, now: int)
    requires Valid(b) && RefillDue(b, now)
    ensures var unit := b.interval * NANOS_PER_MILLI;
            var worth := Credit(b, now, b.interval) * unit;
            worth <= now - b.last < 2 * worth && now - b.last < worth + unit
  {
    var x := now - b.last;
    var e, unit := x / NANOS_PER_MILLI, b.interval;
    var c := e / unit;
    FloorAtLeast(e, unit, 1);
    assert c * unit <= e < c * unit + unit;
    MulMonotone(1, c, unit);
    assert e + 1 <= 2 * (c * unit);
    assert c * (unit * NANOS_PER_MILLI) == (c * unit) * NANOS_PER_MILLI;
    assert e * NANOS_PER_MILLI <= x < (e + 1) * NANOS_PER_MILLI;
  }

  // ---------------------------------------------------------------- theorems over runs

  lemma StepKeepsValid(b: Bucket, e: Event)
    requires Valid(b)
    ensures Valid(Step(b, e)) && Step(b, e).maxTokens == b.maxTokens
    ensures b.last <= Step(b, e).last
  {
    if !e.SetRefillRate? && RefillDue(b, e.now) {
      CreditBound(b, e.now, e.seen, 1);
    }
  }

  lemma {:induction false} RunKeepsValid(b: Bucket, es: seq<Event>)
    requires Valid(b)
    ensures Valid(Run(b, es)) && Run(b, es).maxTokens == b.maxTokens
    ensures b.last <= Run(b, es).last
    decreases |es|
  {
    if es != [] {
      StepKeepsValid(b, es[0]);
      RunKeepsValid(Step(b, es[0]), es[1..]);
    }
  }

  /** The event reads no instant after `end` and no interval below `least`. */
  predicate Within(e: Event, least: int, end: int) {
    match e
    case AllowRequest(now, seen) => now <= end && least <= seen
    case GetRemainingTokens(now, seen) => now <= end && least <= seen
    case SetRefillRate(interval) => least <= interval
  }

  /** One step never raises the tokens plus the credit that time can still bring. */
  lemma StepPotential(b: Bucket, e: Event, least: int, end: int)
    requires Valid(b) && 1 <= least <= b.interval && Within(e, least, end)
    ensures (if Admits(b, e) then 1 else 0)
            + Step(b, e).tokens + (end - Step(b, e).last) / (NANOS_PER_MILLI * least)
            <= b.tokens + (end - b.last) / (NANOS_PER_MILLI * least)
  {
    if !e.SetRefillRate? && RefillDue(b, e.now) {
      CreditBound(b, e.now, e.seen, least);
      FloorsAdd(e.now - b.last, end - e.now, NANOS_PER_MILLI * least);
    }
  }

  /** No run admits more than the tokens at its start plus one for each shortest interval that has
      passed since the last refill, whatever the order of the instants up to `end`, and with the
      interval changing at any moment. */
  lemma {:induction false} AdmissionBound(b: Bucket, es: seq<Event>, least: int, end: int)
    requires Valid(b) && b.last <= end && 1 <= least <= b.interval
    requires forall e | e in es :: Within(e, least, end)
    ensures Admitted(b, es) <= b.tokens + (end - b.last) / (NANOS_PER_MILLI * least)
    decreases |es|
  {
    FloorAtLeast(end - b.last, NANOS_PER_MILLI * least, 0);
    if es != [] {
      StepKeepsValid(b, es[0]);
      StepPotential(b, es[0], least, end);
      AdmissionBound(Step(b, es[0]), es[1..], least, end);
    }
  }

  /** Every token is accounted for: what was there and what was credited is admitted, thrown away
      by the cap, or still there. */
  lemma {:induction false} TokensConserved(b: Bucket, es: seq<Event>)
    requires Valid(b)
    ensures b.tokens + Credited(b, es)
            == Admitted(b, es) + Discarded(b, es) + Run(b, es).tokens
    ensures Discarded(b, es) >= 0
    decreases |es|
  {
    if es != [] {
      StepKeepsValid(b, es[0]);
      TokensConserved(Step(b, es[0]), es[1..]);
      if !es[0].SetRefillRate? && RefillDue(b, es[0].now) {
        CreditBound(b, es[0].now, es[0].seen, 1);
      }
    }
  }

  // ---------------------------------------------------------------- nothing is lost below the maximum

  function Refilled(b: Bucket, e: Event): Bucket {
    if e.SetRefillRate? then b else Refill(b, e.now, e.seen)
  }

  /** Credit is thrown away only by a refill that fills the bucket. */
  lemma CapOnlyWhenFull(b: Bucket, e: Event)
    requires Valid(b)
    ensures var full := Refilled(b, e).tokens;
            && b.tokens <= full <= b.maxTokens
            && (full == b.tokens + StepCredit(b, e) || (full == b.maxTokens && full < b.tokens + StepCredit(b, e)))
  {
    if !e.SetRefillRate? && RefillDue(b, e.now) {
      CreditBound(b, e.now, e.seen, 1);
    }
    hide RefillDue, Credit;
  }

  /** Every event finds room for the credit that it brings. */
  predicate HasRoom(b: Bucket, es: seq<Event>)
    decreases |es|
  {
    es != [] ==> b.tokens + StepCredit(b, es[0]) <= b.maxTokens && HasRoom(Step(b, es[0]), es[1..])
  }

  /** Over a run nothing is thrown away if and only if there was always room for the whole credit; then what
      was there and what was credited is admitted or still there. */
  lemma {:induction false} NothingLostIff(b: Bucket, es: seq<Event>)
    requires Valid(b)
    ensures Admitted(b, es) + Run(b, es).tokens == b.tokens + Credited(b, es) <==> HasRoom(b, es)
    decreases |es|
  {
    TokensConserved(b, es);
    if es != [] {
      var b' := Step(b, es[0]);
      StepKeepsValid(b, es[0]);
      CapOnlyWhenFull(b, es[0]);
      NothingLostIff(b', es[1..]);
      TokensConserved(b', es[1..]);
      hide Refill, StepCredit, Step;
    }
  }

  predicate Steady(es: seq<Event>, interval: int) {
    forall e | e in es :: if e.SetRefillRate? then e.interval == interval else e.seen == interval
  }

  predicate HalfToFull(credit: int, unit: int, passed: int) {
    && 0 <= credit && credit * unit <= passed
    && (passed == 0 || passed < 2 * (credit * unit))
  }

  lemma StepBetweenHalfAndFull(b: Bucket, e: Event)
    requires Valid(b) && Steady([e], b.interval)
    ensures HalfToFull(StepCredit(b, e), b.interval * NANOS_PER_MILLI, Step(b, e).last - b.last)
  {
    assert e in [e];
    if !e.SetRefillRate? && RefillDue(b, e.now) {
      CreditBound(b, e.now, e.seen, 1);
      RefillBetweenHalfAndFull(b, e.now);
    }
  }

  lemma HalfToFullAdds(c: int, d: int, unit: int, p: int, q: int)
    requires HalfToFull(c, unit, p) && HalfToFull(d, unit, q) && unit >= 0
    ensures HalfToFull(c + d, unit, p + q)
  {
    assert (c + d) * unit == c * unit + d * unit;
    MulMonotone(0, c, unit);
    MulMonotone(0, d, unit);
  }

  /** Over a whole run with a steady interval, the total credit is worth at most the time between
      the first and the last refill, and more than half of it. */
  lemma {:induction false} RunBetweenHalfAndFull(b: Bucket, es: seq<Event>)
    requires Valid(b) && Steady(es, b.interval)
    ensures HalfToFull(Credited(b, es), b.interval * NANOS_PER_MILLI, Run(b, es).last - b.last)
    decreases |es|
  {
    if es != [] {
      var b' := Step(b, es[0]);
      StepKeepsValid(b, es[0]);
      RunKeepsValid(b', es[1..]);
      assert es[0] in es;
      RunBetweenHalfAndFull(b', es[1..]);
      StepBetweenHalfAndFull(b, es[0]);
      HalfToFullAdds(StepCredit(b, es[0]), Credited(b', es[1..]), b.interval * NANOS_PER_MILLI,
                     b'.last - b.last, Run(b', es[1..]).last - b'.last);
    }
  }

  /** A run with a steady interval and room for all its credit admits, or still has at its end, more than one
      token for every two intervals between its first and its last refill. */
  lemma AdmissionLowerBound(b: Bucket, es: seq<Event>)
    requires Valid(b) && Steady(es, b.interval) && HasRoom(b, es)
    ensures var passed := Run(b, es).last - b.last;
            var gained := Admitted(b, es) + Run(b, es).tokens - b.tokens;
            passed == 0 || passed < 2 * (gained * (b.interval * NANOS_PER_MILLI))
  {
    NothingLostIff(b, es);
    RunBetweenHalfAndFull(b, es);
    hide Admitted, Run, Credited, HasRoom, Steady;
  }

  /** With room for a token, a request is denied exactly when the bucket is empty and less than one
      interval has passed since the last refill. */
  lemma DeniedExactlyWhenEarly(b: Bucket, now: int)
    requires Valid(b) && b.maxTokens >= 1
    ensures !Admits(b, AllowRequest(now, b.interval)) <==>
            b.tokens == 0 && now - b.last < b.interval * NANOS_PER_MILLI
  {
    var x := now - b.last;
    if RefillDue(b, now) {
      FloorAtLeast(x / NANOS_PER_MILLI, b.interval, 1);
      assert x >= (x / NANOS_PER_MILLI) * NANOS_PER_MILLI;
    } else if x >= b.interval * NANOS_PER_MILLI {
      FloorAtLeast(x, NANOS_PER_MILLI, b.interval);
    }
  }
}
