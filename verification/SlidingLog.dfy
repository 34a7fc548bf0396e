/**
 The sliding windows of src/server/rate_limiter.cpp: one deque of instants per IP address and one per
 user, in which every call is recorded and the calls of the last second or minute are counted.
 */
module SlidingLog {
  import opened Clock
  import opened Common
  import opened PrunedLog

  // ---------------------------------------------------------------- one limited key

  /** A call of `allow_request` (IP) or `allow_request_with_limit` (user) for one key. */
  datatype Attempt = Attempt(time: int, limit: int)

  /** The deque of the key after the calls: push the instant, then erase what is a unit old. */
  function Deque(calls: seq<Attempt>, unit: Unit): seq<int> {
    if calls == [] then []
    else
      var a := calls[|calls| - 1];
      Unexpired(Deque(calls[..|calls| - 1], unit) + [a.time], a.time, unit, 1)
  }

  /** The answer to the last call. */
  predicate Allowed(calls: seq<Attempt>, unit: Unit)
    requires calls != []
  {
    |Deque(calls, unit)| <= calls[|calls| - 1].limit
  }

  /** The number of calls less than `span` old at `now`, counted in the whole history. */
  function RecentCalls(calls: seq<Attempt>, span: int, now: int): nat {
    if calls == [] then 0
    else RecentCalls(calls[..|calls| - 1], span, now) + if now - calls[|calls| - 1].time < span then 1 else 0
  }

  lemma DequePush(calls: seq<Attempt>, a: Attempt, unit: Unit)
    ensures Deque([], unit) == []
    ensures Deque(calls + [a], unit) == Unexpired(Deque(calls, unit) + [a.time], a.time, unit, 1)
  {
    assert (calls + [a])[..|calls|] == calls;
  }

  lemma RecentPush(calls: seq<Attempt>, a: Attempt, span: int, now: int)
    ensures RecentCalls([], span, now) == 0
    ensures RecentCalls(calls + [a], span, now) == RecentCalls(calls, span, now) + if now - a.time < span then 1 else 0
  {
    assert (calls + [a])[..|calls|] == calls;
  }

  // ---------------------------------------------------------------- as uses of a pruned log

  /** Every call appends its instant and prunes the log at it. */
  function Uses(calls: seq<Attempt>): seq<Use> {
    seq(2 * |calls|, i requires 0 <= i < 2 * |calls| =>
      if i % 2 == 0 then Record(calls[i / 2].time) else Query(calls[i / 2].time, 1))
  }

  lemma UsesPush(calls: seq<Attempt>, a: Attempt)
    ensures Uses([]) == []
    ensures Uses(calls + [a]) == Uses(calls) + [Record(a.time)] + [Query(a.time, 1)]
  {
    var all, n := calls + [a], |calls|;
    forall i | 0 <= i < 2 * n
      ensures Uses(all)[i] == Uses(calls)[i]
    {
      assert all[i / 2] == calls[i / 2];
    }
    assert (2 * n) / 2 == n && (2 * n + 1) / 2 == n && (2 * n) % 2 == 0 && (2 * n + 1) % 2 == 1;
  }

  lemma {:induction false} DequeIsKept(calls: seq<Attempt>, unit: Unit)
    ensures Deque(calls, unit) == Kept(Uses(calls), unit)
    decreases |calls|
  {
    hide Deque, Kept, Uses, Unexpired;
    if calls == [] {
      UsesPush([], Attempt(0, 0));
      DequePush([], Attempt(0, 0), unit);
      NothingKept(unit);
    } else {
      var front, a := calls[..|calls| - 1], calls[|calls| - 1];
      DequeIsKept(front, unit);
      assert calls == front + [a];
      UsesPush(front, a);
      DequePush(front, a, unit);
      KeptPush(Uses(front), Record(a.time), unit);
      KeptPush(Uses(front) + [Record(a.time)], Query(a.time, 1), unit);
    }
  }

  lemma {:induction false} RecentAreInWindow(calls: seq<Attempt>, unit: Unit, now: int)
    ensures RecentCalls(calls, unit, now) == |Unexpired(Recorded(Uses(calls)), now, unit, 1)|
    decreases |calls|
  {
    hide RecentCalls, Recorded, Uses, Unexpired, Expired;
    if calls == [] {
      UsesPush([], Attempt(0, 0));
      RecentPush([], Attempt(0, 0), unit, now);
      NothingKept(unit);
      NothingLogged(now, unit, 1);
    } else {
      var front, a := calls[..|calls| - 1], calls[|calls| - 1];
      RecentAreInWindow(front, unit, now);
      assert calls == front + [a];
      UsesPush(front, a);
      RecentPush(front, a, unit, now);
      KeptPush(Uses(front), Record(a.time), unit);
      KeptPush(Uses(front) + [Record(a.time)], Query(a.time, 1), unit);
      UnexpiredPush(Recorded(Uses(front)), a.time, now, unit, 1);
      ExpiredAfterOne(a.time, now, unit);
    }
  }

  lemma DequeIsPruned(calls: seq<Attempt>, unit: Unit)
    requires calls != []
    ensures Unexpired(Deque(calls, unit), calls[|calls| - 1].time, unit, 1) == Deque(calls, unit)
  {
    hide Deque, Unexpired;
    var front, a := calls[..|calls| - 1], calls[|calls| - 1];
    assert calls == front + [a];
    DequePush(front, a, unit);
    PruneTwice(Deque(front, unit) + [a.time], a.time, a.time, unit, 1, 1);
  }

  // ---------------------------------------------------------------- exactly right, in any order

  /** A call was erased by an earlier clock reading although it is less than a unit old at `now`. */
  ghost predicate Overtaken(calls: seq<Attempt>, unit: Unit, now: int) {
    exists i, j :: 0 <= i < j < |calls| && calls[j].time - calls[i].time >= unit && now - calls[i].time < unit
  }

  lemma UseAt(calls: seq<Attempt>, k: nat)
    requires k < |calls|
    ensures 2 * k + 1 < |Uses(calls)| == 2 * |calls|
    ensures Uses(calls)[2 * k] == Record(calls[k].time) && Uses(calls)[2 * k + 1] == Query(calls[k].time, 1)
  {
    assert (2 * k) / 2 == k && (2 * k + 1) / 2 == k && (2 * k) % 2 == 0 && (2 * k + 1) % 2 == 1;
  }

  lemma UseIs(calls: seq<Attempt>, n: nat)
    requires n < |Uses(calls)|
    ensures n / 2 < |calls|
    ensures Uses(calls)[n].Record? <==> n % 2 == 0
    ensures Uses(calls)[n] == if n % 2 == 0 then Record(calls[n / 2].time) else Query(calls[n / 2].time, 1)
  {
  }

  lemma OvertakenIsMissed(calls: seq<Attempt>, unit: Unit, now: int)
    ensures Overtaken(calls, unit, now) <==> Misses(Uses(calls), now, 1, unit)
  {
    var es := Uses(calls);
    hide Uses, Expired;
    if Overtaken(calls, unit, now) {
      var i, j :| 0 <= i < j < |calls| && calls[j].time - calls[i].time >= unit && now - calls[i].time < unit;
      UseAt(calls, i);
      UseAt(calls, j);
      ExpiredAfterOne(calls[i].time, calls[j].time, unit);
      ExpiredAfterOne(calls[i].time, now, unit);
      assert es[2 * i].Record? && Erases(es[2 * j + 1], es[2 * i].time, unit);
    }
    if Misses(es, now, 1, unit) {
      var m, n :| 0 <= m < n < |es| && es[m].Record? && Erases(es[n], es[m].time, unit)
                  && !Expired(es[m].time, now, unit, 1);
      UseIs(calls, m);
      UseIs(calls, n);
      var i, j := m / 2, n / 2;
      ExpiredAfterOne(calls[i].time, calls[j].time, unit);
      ExpiredAfterOne(calls[i].time, now, unit);
      assert i < j && calls[j].time - calls[i].time >= unit && now - calls[i].time < unit;
    }
  }

  /** In whatever order the clock was read, the deque never holds too many calls, and it holds exactly
      those of the window that ends with the last call if and only if none of them was overtaken. */
  lemma WindowExactIff(calls: seq<Attempt>, unit: Unit)
    requires calls != []
    ensures var now := calls[|calls| - 1].time;
            && |Deque(calls, unit)| <= RecentCalls(calls, unit, now)
            && (|Deque(calls, unit)| == RecentCalls(calls, unit, now) <==> !Overtaken(calls, unit, now))
  {
    var now := calls[|calls| - 1].time;
    CountExactIff(Uses(calls), now, 1, unit);
    DequeIsKept(calls, unit);
    DequeIsPruned(calls, unit);
    RecentAreInWindow(calls, unit, now);
    OvertakenIsMissed(calls, unit, now);
    hide Deque, RecentCalls, Overtaken, Kept, Uses, Unexpired, Misses, Recorded;
  }

  /** The same calls, the last one with another limit. */
  function WithLimit(calls: seq<Attempt>, limit: int): seq<Attempt>
    requires calls != []
  {
    calls[..|calls| - 1] + [calls[|calls| - 1].(limit := limit)]
  }

  /** The last answer is the right one for every limit, namely whether the window that ends with the call
      fits, if and only if no call of that window was overtaken.  A wrong answer is always a permission. */
  lemma AnswerRightIff(calls: seq<Attempt>, unit: Unit)
    requires calls != []
    ensures var now := calls[|calls| - 1].time;
            && (RecentCalls(calls, unit, now) <= calls[|calls| - 1].limit ==> Allowed(calls, unit))
            && (!Overtaken(calls, unit, now) <==>
                  forall limit :: Allowed(WithLimit(calls, limit), unit) <==> RecentCalls(calls, unit, now) <= limit)
  {
    var front, a := calls[..|calls| - 1], calls[|calls| - 1];
    WindowExactIff(calls, unit);
    forall limit
      ensures Deque(WithLimit(calls, limit), unit) == Deque(calls, unit)
    {
      assert calls == front + [a];
      DequePush(front, a, unit);
      DequePush(front, a.(limit := limit), unit);
    }
    hide Deque, RecentCalls, Overtaken;
    assert Allowed(WithLimit(calls, |Deque(calls, unit)|), unit);
  }

  predicate InOrder(calls: seq<Attempt>) {
    forall i, j :: 0 <= i < j < |calls| ==> calls[i].time <= calls[j].time
  }

  /** With instants in order, a call is allowed exactly when the window ending with it holds no more
      calls than its limit, itself and the denied ones included. */
  lemma AllowedIffWindowFits(calls: seq<Attempt>, unit: Unit)
    requires calls != [] && InOrder(calls)
    ensures var a := calls[|calls| - 1];
            Allowed(calls, unit) <==> RecentCalls(calls, unit, a.time) <= a.limit
  {
    hide Deque, RecentCalls;
    WindowExactIff(calls, unit);
    assert forall j :: 0 <= j < |calls| - 1 ==> calls[j].time <= calls[|calls| - 1].time;
  }

  /** With instants in order, the deque lists the calls of the history that are younger than a unit. */
  lemma {:induction false} DequeIsRecent(calls: seq<Attempt>, unit: Unit)
    requires calls != [] && InOrder(calls)
    ensures Deque(calls, unit) == Unexpired(Recorded(Uses(calls)), calls[|calls| - 1].time, unit, 1)
    decreases |calls|
  {
    hide Deque, Unexpired, Recorded, Uses, Expired;
    var front, a := calls[..|calls| - 1], calls[|calls| - 1];
    assert calls == front + [a];
    DequePush(front, a, unit);
    UsesPush(front, a);
    KeptPush(Uses(front), Record(a.time), unit);
    KeptPush(Uses(front) + [Record(a.time)], Query(a.time, 1), unit);
    var log := Recorded(Uses(front));
    UnexpiredPush(Deque(front, unit), a.time, a.time, unit, 1);
    UnexpiredPush(log, a.time, a.time, unit, 1);
    if front == [] {
      UsesPush([], a);
      NothingKept(unit);
    } else {
      DequeIsRecent(front, unit);
      assert front[|front| - 1].time <= a.time;
      PruneTwice(log, front[|front| - 1].time, a.time, unit, 1, 1);
    }
  }

  // ---------------------------------------------------------------- any window

  /** No instant is more than `slack` before an earlier one. */
  ghost predicate Skewed(calls: seq<Attempt>, slack: int) {
    forall i, j :: 0 <= i < j < |calls| ==> calls[i].time <= calls[j].time + slack
  }

  /** The entries of a log less than `span` old at `now`. */
  function CountYoung(log: seq<int>, span: int, now: int): nat {
    if log == [] then 0
    else CountYoung(log[..|log| - 1], span, now) + if now - log[|log| - 1] < span then 1 else 0
  }

  lemma CountYoungPush(log: seq<int>, t: int, span: int, now: int)
    ensures CountYoung([], span, now) == 0
    ensures CountYoung(log + [t], span, now) == CountYoung(log, span, now) + if now - t < span then 1 else 0
  {
    assert (log + [t])[..|log|] == log;
  }

  lemma {:induction false} CountYoungBound(log: seq<int>, span: int, now: int)
    ensures CountYoung(log, span, now) <= |log|
    decreases |log|
  {
    if log != [] {
      CountYoungBound(log[..|log| - 1], span, now);
    }
  }

  /** Erasing at an instant at most `slack` later than `now` leaves what is young enough at `now`. */
  lemma {:induction false} ErasingKeepsYoung(log: seq<int>, at: int, unit: Unit, slack: int, now: int)
    requires at <= now + slack
    ensures CountYoung(Unexpired(log, at, unit, 1), unit - slack, now) == CountYoung(log, unit - slack, now)
    decreases |log|
  {
    hide *;
    if log == [] {
      NothingLogged(at, unit, 1);
    } else {
      var front, t := log[..|log| - 1], log[|log| - 1];
      ErasingKeepsYoung(front, at, unit, slack, now);
      assert log == front + [t];
      UnexpiredPush(front, t, at, unit, 1);
      ExpiredAfterOne(t, at, unit);
      CountYoungPush(front, t, unit - slack, now);
      CountYoungPush(Unexpired(front, at, unit, 1), t, unit - slack, now);
    }
  }

  /** However the instants are ordered, the deque has lost no call that is young enough. */
  lemma {:induction false} DequeKeepsYoung(calls: seq<Attempt>, unit: Unit, slack: int, now: int)
    requires forall i :: 0 <= i < |calls| ==> calls[i].time <= now + slack
    ensures CountYoung(Deque(calls, unit), unit - slack, now) == RecentCalls(calls, unit - slack, now)
    decreases |calls|
  {
    hide *;
    if calls == [] {
      DequePush([], Attempt(0, 0), unit);
      RecentPush([], Attempt(0, 0), unit - slack, now);
      CountYoungPush([], 0, unit - slack, now);
    } else {
      var front, a := calls[..|calls| - 1], calls[|calls| - 1];
      DequeKeepsYoung(front, unit, slack, now);
      assert calls == front + [a];
      DequePush(front, a, unit);
      RecentPush(front, a, unit - slack, now);
      CountYoungPush(Deque(front, unit), a.time, unit - slack, now);
      ErasingKeepsYoung(Deque(front, unit) + [a.time], a.time, unit, slack, now);
    }
  }

  /** An allowed call's window fits when it is shortened by the slack. */
  lemma AllowedMeansShorterFits(calls: seq<Attempt>, unit: Unit, slack: int)
    requires slack >= 0 && calls != [] && Skewed(calls, slack) && Allowed(calls, unit)
    ensures RecentCalls(calls, unit - slack, calls[|calls| - 1].time) <= calls[|calls| - 1].limit
  {
    hide Deque, RecentCalls;
    var a := calls[|calls| - 1];
    DequeKeepsYoung(calls, unit, slack, a.time);
    CountYoungBound(Deque(calls, unit), unit - slack, a.time);
  }

  /** The allowed calls with instants in `[start, start + span)`. */
  function AllowedInWindow(calls: seq<Attempt>, unit: Unit, start: int, span: int): nat {
    if calls == [] then 0
    else
      var a := calls[|calls| - 1];
      AllowedInWindow(calls[..|calls| - 1], unit, start, span)
      + if Allowed(calls, unit) && start <= a.time < start + span then 1 else 0
  }

  lemma {:induction false} WindowWithinRecent(calls: seq<Attempt>, unit: Unit, start: int, span: int, now: int)
    requires now < start + span
    ensures AllowedInWindow(calls, unit, start, span) <= RecentCalls(calls, span, now)
    decreases |calls|
  {
    hide Allowed;
    if calls != [] {
      WindowWithinRecent(calls[..|calls| - 1], unit, start, span, now);
    }
  }

  /** No window of one unit less the slack, wherever it starts, holds more allowed calls than the limit;
      with instants in order (no slack) no window of one unit does. */
  lemma {:induction false} WindowBound(calls: seq<Attempt>, unit: Unit, slack: int, start: int, limit: int)
    requires slack >= 0 && limit >= 0 && Skewed(calls, slack)
    requires forall i :: 0 <= i < |calls| ==> calls[i].limit <= limit
    ensures AllowedInWindow(calls, unit, start, unit - slack) <= limit
    decreases |calls|
  {
    if calls != [] {
      hide Allowed, RecentCalls;
      var front, a := calls[..|calls| - 1], calls[|calls| - 1];
      if Allowed(calls, unit) && start <= a.time < start + unit - slack {
        AllowedMeansShorterFits(calls, unit, slack);
        WindowWithinRecent(calls, unit, start, unit - slack, a.time);
      } else {
        assert Skewed(front, slack);
        WindowBound(front, unit, slack, start, limit);
      }
    }
  }

  lemma WindowPush(calls: seq<Attempt>, a: Attempt, unit: Unit, start: int, span: int)
    ensures AllowedInWindow([], unit, start, span) == 0
    ensures AllowedInWindow(calls + [a], unit, start, span) ==
            AllowedInWindow(calls, unit, start, span)
            + if |Deque(calls + [a], unit)| <= a.limit && start <= a.time < start + span then 1 else 0
  {
    hide Deque;
    assert (calls + [a])[..|calls|] == calls;
  }

  /** The slack is needed: with the instants 1, 2, 12, 10 in the order of the lock, a unit of 10 and a
      limit of 2, three calls in [1, 11) are allowed. */
  lemma OutOfOrderExceeds()
    ensures var calls := [Attempt(1, 2), Attempt(2, 2), Attempt(12, 2), Attempt(10, 2)];
            AllowedInWindow(calls, 10, 1, 10) == 3
  {
    hide *;
    var a1, a2, a3, a4 := Attempt(1, 2), Attempt(2, 2), Attempt(12, 2), Attempt(10, 2);
    assert [] + [a1] == [a1] && [a1] + [a2] == [a1, a2];
    assert [a1, a2] + [a3] == [a1, a2, a3] && [a1, a2, a3] + [a4] == [a1, a2, a3, a4];
    DequePush([], a1, 10);
    Erased([], 1, 1);
    assert Deque([a1], 10) == [1];
    DequePush([a1], a2, 10);
    Erased([1], 2, 2);
    assert Deque([a1, a2], 10) == [1, 2];
    DequePush([a1, a2], a3, 10);
    Erased([1, 2], 12, 12);
    assert Deque([a1, a2, a3], 10) == [12];
    DequePush([a1, a2, a3], a4, 10);
    Erased([12], 10, 10);
    assert Deque([a1, a2, a3, a4], 10) == [12, 10];
    WindowPush([], a1, 10, 1, 10);
    WindowPush([a1], a2, 10, 1, 10);
    WindowPush([a1, a2], a3, 10, 1, 10);
    WindowPush([a1, a2, a3], a4, 10, 1, 10);
  }

  /** Logs of up to two entries and one more, erased with a unit of ten. */
  lemma Erased(log: seq<int>, t: int, now: int)
    requires |log| <= 2
    ensures Unexpired(log + [t], now, 10, 1) ==
            (if |log| > 0 && now - log[0] < 10 then [log[0]] else [])
            + (if |log| > 1 && now - log[1] < 10 then [log[1]] else [])
            + (if now - t < 10 then [t] else [])
  {
    hide *;
    UnexpiredPush(log, t, now, 10, 1);
    ExpiredAfterOne(t, now, 10);
    NothingLogged(now, 10, 1);
    if |log| > 0 {
      UnexpiredOne(log[0], now, 10, 1);
      ExpiredAfterOne(log[0], now, 10);
    }
    if |log| > 1 {
      UnexpiredPush([log[0]], log[1], now, 10, 1);
      ExpiredAfterOne(log[1], now, 10);
      assert log == [log[0]] + [log[1]];
    } else if |log| > 0 {
      assert log == [log[0]];
    }
  }

  // ---------------------------------------------------------------- many keys

  datatype Call = Call(key: string, attempt: Attempt)

  function CallsOf(calls: seq<Call>, key: string): seq<Attempt> {
    if calls == [] then []
    else
      var c := calls[|calls| - 1];
      CallsOf(calls[..|calls| - 1], key) + if c.key == key then [c.attempt] else []
  }

  /** The map of deques: a missing key is created empty, then handled alone. */
  function Touch(deques: map<string, seq<int>>, c: Call, unit: Unit): map<string, seq<int>> {
    var log := if c.key in deques then deques[c.key] else [];
    deques[c.key := Unexpired(log + [c.attempt.time], c.attempt.time, unit, 1)]
  }

  /** The key's log has gained `now` and lost exactly what is a unit old; other keys are as they were. */
  ghost predicate Touched(before: map<string, seq<int>>, after: map<string, seq<int>>, key: string, now: int, unit: Unit) {
    && key in after && after.Keys == before.Keys + {key}
    && (forall other :: other in before && other != key ==> after[other] == before[other])
    && var log := (if key in before then before[key] else []) + [now];
       forall t :: multiset(after[key])[t] == if now - t < unit then multiset(log)[t] else 0
  }

  lemma TouchIs(deques: map<string, seq<int>>, c: Call, unit: Unit)
    ensures Touched(deques, Touch(deques, c, unit), c.key, c.attempt.time, unit)
  {
    hide *;
    var log, now := (if c.key in deques then deques[c.key] else []) + [c.attempt.time], c.attempt.time;
    var kept := Unexpired(log, now, unit, 1);
    assert Touch(deques, c, unit) == deques[c.key := kept] by {
      TouchUnfolds(deques, c, unit);
    }
    forall t
      ensures multiset(kept)[t] == if now - t < unit then multiset(log)[t] else 0
    {
      UnexpiredAreYoung(log, now, unit, 1, t);
    }
    TouchedWith(deques, c.key, now, unit, kept);
  }

  lemma TouchUnfolds(deques: map<string, seq<int>>, c: Call, unit: Unit)
    ensures var log := if c.key in deques then deques[c.key] else [];
            Touch(deques, c, unit) == deques[c.key := Unexpired(log + [c.attempt.time], c.attempt.time, unit, 1)]
  {
    hide Unexpired;
  }

  lemma TouchedWith(before: map<string, seq<int>>, key: string, now: int, unit: Unit, kept: seq<int>)
    requires var log := (if key in before then before[key] else []) + [now];
             forall t :: multiset(kept)[t] == if now - t < unit then multiset(log)[t] else 0
    ensures Touched(before, before[key := kept], key, now, unit)
  {
    assert before[key := kept].Keys == before.Keys + {key};
  }

  function Deques(calls: seq<Call>, unit: Unit): map<string, seq<int>> {
    if calls == [] then map[] else Touch(Deques(calls[..|calls| - 1], unit), calls[|calls| - 1], unit)
  }

  /** Each key's deque is what that key's own calls make it; other keys do not matter. */
  lemma {:induction false} KeysAreIndependent(calls: seq<Call>, unit: Unit, key: string)
    ensures key in Deques(calls, unit) <==> CallsOf(calls, key) != []
    ensures key in Deques(calls, unit) ==> Deques(calls, unit)[key] == Deque(CallsOf(calls, key), unit)
    decreases |calls|
  {
    if calls != [] {
      hide Unexpired, Deque;
      var front, c := calls[..|calls| - 1], calls[|calls| - 1];
      KeysAreIndependent(front, unit, key);
      DequePush(CallsOf(front, key), c.attempt, unit);
      if c.key != key {
        assert CallsOf(calls, key) == CallsOf(front, key);
      }
    }
  }
}
