/**
 The deques of instants in src/server/rate_limiter.cpp: instants are appended, and those that are too
 old are erased whenever the deque is read.  What remains is compared with the log that was never
 pruned.  The clock is read before the lock is taken in most places, so instants need not be in the
 order of the calls.
 */
module PrunedLog {
  import opened Clock
  import opened Common

  /** The predicate handed to `remove_if`: the age, in whole units, has reached `count`. */
  predicate Expired(t: int, now: int, unit: Unit, count: int) {
    TruncDiv(now - t, unit) >= count
  }

  /** What `erase(remove_if(...))` leaves, in order. */
  function Unexpired(log: seq<int>, now: int, unit: Unit, count: int): seq<int> {
    if log == [] then []
    else
      var front, t := log[..|log| - 1], log[|log| - 1];
      Unexpired(front, now, unit, count) + if Expired(t, now, unit, count) then [] else [t]
  }

  method EraseExpired(log: seq<int>, now: int, unit: Unit, count: int) returns (kept: seq<int>)
    ensures kept == Unexpired(log, now, unit, count)
  {
    kept := [];
    NothingLogged(now, unit, count);
    for i := 0 to |log|
      invariant kept == Unexpired(log[..i], now, unit, count)
    {
      hide Unexpired, Expired;
      assert log[..i + 1] == log[..i] + [log[i]];
      UnexpiredPush(log[..i], log[i], now, unit, count);
      if !Expired(log[i], now, unit, count) {
        kept := kept + [log[i]];
      }
    }
    assert log[..|log|] == log;
  }

  // ---------------------------------------------------------------- pruning

  lemma NothingLogged(now: int, unit: Unit, count: int)
    ensures Unexpired([], now, unit, count) == []
  {
  }

  lemma UnexpiredPush(log: seq<int>, t: int, now: int, unit: Unit, count: int)
    ensures var left := Unexpired(log, now, unit, count);
            Unexpired(log + [t], now, unit, count) == if Expired(t, now, unit, count) then left else left + [t]
  {
    assert (log + [t])[..|log|] == log;
  }

  lemma UnexpiredOne(t: int, now: int, unit: Unit, count: int)
    ensures Unexpired([t], now, unit, count) == if Expired(t, now, unit, count) then [] else [t]
  {
    assert [] + [t] == [t];
    UnexpiredPush([], t, now, unit, count);
    NothingLogged(now, unit, count);
  }

  lemma {:induction false} UnexpiredAppend(log: seq<int>, more: seq<int>, now: int, unit: Unit, count: int)
    ensures Unexpired(log + more, now, unit, count)
            == Unexpired(log, now, unit, count) + Unexpired(more, now, unit, count)
    decreases |more|
  {
    hide *;
    if more == [] {
      NothingLogged(now, unit, count);
      assert log + more == log;
    } else {
      var front, t := more[..|more| - 1], more[|more| - 1];
      UnexpiredAppend(log, front, now, unit, count);
      assert more == front + [t];
      ConcatAssociates(log, front, [t]);
      UnexpiredPush(log + front, t, now, unit, count);
      UnexpiredPush(front, t, now, unit, count);
      ConcatAssociates(Unexpired(log, now, unit, count), Unexpired(front, now, unit, count), [t]);
    }
  }

  /** A later pass over a pruned log leaves what it would have left of the full log. */
  lemma {:induction false} PruneTwice(log: seq<int>, now: int, later: int, unit: Unit, count: int, fewer: int)
    requires now <= later && fewer <= count
    ensures Unexpired(Unexpired(log, now, unit, count), later, unit, fewer) == Unexpired(log, later, unit, fewer)
    decreases |log|
  {
    hide Unexpired;
    if log == [] {
      NothingLogged(now, unit, count);
    } else {
      var front, t := log[..|log| - 1], log[|log| - 1];
      TruncDivMonotone(now - t, later - t, unit);
      assert Expired(t, now, unit, count) ==> Expired(t, later, unit, fewer);
      hide Expired;
      PruneTwice(front, now, later, unit, count, fewer);
      assert log == front + [t];
      UnexpiredPush(front, t, now, unit, count);
      UnexpiredPush(front, t, later, unit, fewer);
      UnexpiredPush(Unexpired(front, now, unit, count), t, later, unit, fewer);
    }
  }

  lemma ExpiredAfterOne(t: int, now: int, unit: Unit)
    ensures Expired(t, now, unit, 1) <==> now - t >= unit
  {
    AtLeastOneUnit(now - t, unit);
  }

  /** Exactly the instants less than `count` units old stay, each as often as it was there. */
  lemma {:induction false} UnexpiredAreYoung(log: seq<int>, now: int, unit: Unit, count: int, t: int)
    requires count >= 1
    ensures multiset(Unexpired(log, now, unit, count))[t] == if now - t < count * unit then multiset(log)[t] else 0
    decreases |log|
  {
    hide *;
    if log == [] {
      NothingLogged(now, unit, count);
    } else {
      var front, last := log[..|log| - 1], log[|log| - 1];
      UnexpiredAreYoung(front, now, unit, count, t);
      ExpiredIs(last, now, unit, count);
      WholeUnits(now - last, unit, count);
      assert log == front + [last];
      UnexpiredPush(front, last, now, unit, count);
    }
  }

  // ---------------------------------------------------------------- appending and pruning in turn

  /** An instant is appended; the log is pruned to `window` units and read. */
  datatype Use = Record(time: int) | Query(now: int, window: int)

  function KeptStep(before: seq<int>, e: Use, unit: Unit): seq<int> {
    if e.Record? then before + [e.time] else Unexpired(before, e.now, unit, e.window)
  }

  /** The pruned log. */
  function Kept(es: seq<Use>, unit: Unit): seq<int> {
    if es == [] then [] else KeptStep(Kept(es[..|es| - 1], unit), es[|es| - 1], unit)
  }

  function RecordedStep(before: seq<int>, e: Use): seq<int> {
    if e.Record? then before + [e.time] else before
  }

  /** All the instants ever appended. */
  function Recorded(es: seq<Use>): seq<int> {
    if es == [] then [] else RecordedStep(Recorded(es[..|es| - 1]), es[|es| - 1])
  }

  lemma KeptPush(es: seq<Use>, e: Use, unit: Unit)
    ensures Kept(es + [e], unit) == KeptStep(Kept(es, unit), e, unit)
    ensures Recorded(es + [e]) == RecordedStep(Recorded(es), e)
  {
    assert (es + [e])[..|es|] == es;
  }

  predicate Erases(e: Use, t: int, unit: Unit) {
    e.Query? && Expired(t, e.now, unit, e.window)
  }

  ghost predicate ErasedLater(es: seq<Use>, t: int, unit: Unit) {
    exists e :: e in es && Erases(e, t, unit)
  }

  /** The instant, unless a later query erases it. */
  ghost function Survivor(first: Use, rest: seq<Use>, unit: Unit): seq<int> {
    if first.Record? && !ErasedLater(rest, first.time, unit) then [first.time] else []
  }

  /** The appended instants that no later query erases, in order. */
  ghost function Survivors(es: seq<Use>, unit: Unit): seq<int> {
    if es == [] then [] else Survivor(es[0], es[1..], unit) + Survivors(es[1..], unit)
  }

  lemma SurvivorAppend(first: Use, rest: seq<Use>, e: Use, unit: Unit)
    ensures Survivor(first, rest + [e], unit) ==
            if e.Record? then Survivor(first, rest, unit)
            else Unexpired(Survivor(first, rest, unit), e.now, unit, e.window)
  {
    hide Unexpired, Expired;
    if first.Record? {
      var t := first.time;
      assert forall x :: x in rest + [e] <==> x in rest || x == e;
      assert ErasedLater(rest + [e], t, unit) <==> ErasedLater(rest, t, unit) || Erases(e, t, unit);
      hide ErasedLater;
      if e.Query? {
        UnexpiredOne(t, e.now, unit, e.window);
        NothingLogged(e.now, unit, e.window);
      }
    } else if e.Query? {
      NothingLogged(e.now, unit, e.window);
    }
  }

  lemma SurvivorsFirst(first: Use, rest: seq<Use>, unit: Unit)
    ensures Survivors([first] + rest, unit) == Survivor(first, rest, unit) + Survivors(rest, unit)
  {
    assert ([first] + rest)[1..] == rest;
  }

  lemma SurvivorsOfOne(e: Use, unit: Unit)
    ensures Survivors([], unit) == [] && Survivors([e], unit) == KeptStep([], e, unit)
  {
    assert [e] + [] == [e];
    SurvivorsFirst(e, [], unit);
    assert Survivors([], unit) == [];
    if e.Query? {
      NothingLogged(e.now, unit, e.window);
    }
  }

  lemma {:induction false} SurvivorsAppend(es: seq<Use>, e: Use, unit: Unit)
    ensures Survivors(es + [e], unit) == KeptStep(Survivors(es, unit), e, unit)
    decreases |es|
  {
    hide Survivors, Survivor, Unexpired;
    if es == [] {
      assert es + [e] == [e];
      SurvivorsOfOne(e, unit);
    } else {
      var first, rest := es[0], es[1..];
      SurvivorsAppend(rest, e, unit);
      SurvivorAppend(first, rest, e, unit);
      assert es == [first] + rest;
      ConcatAssociates([first], rest, [e]);
      SurvivorsFirst(first, rest, unit);
      SurvivorsFirst(first, rest + [e], unit);
      if e.Query? {
        UnexpiredAppend(Survivor(first, rest, unit), Survivors(rest, unit), e.now, unit, e.window);
      } else {
        ConcatAssociates(Survivor(first, rest, unit), Survivors(rest, unit), [e.time]);
      }
    }
  }

  /** The pruned log is the full log without the instants that some query after them erased. */
  lemma {:induction false} KeptAreSurvivors(es: seq<Use>, unit: Unit)
    ensures Kept(es, unit) == Survivors(es, unit)
    decreases |es|
  {
    if es != [] {
      var front, e := es[..|es| - 1], es[|es| - 1];
      hide Kept, Survivors, KeptStep;
      assert es == front + [e];
      KeptAreSurvivors(front, unit);
      KeptPush(front, e, unit);
      SurvivorsAppend(front, e, unit);
    }
  }

  // ---------------------------------------------------------------- counting

  /** An instant that this query would count was erased by an earlier one. */
  ghost predicate Misses(es: seq<Use>, now: int, window: int, unit: Unit) {
    exists i, j :: 0 <= i < j < |es| && es[i].Record? && Erases(es[j], es[i].time, unit)
                   && !Expired(es[i].time, now, unit, window)
  }

  lemma MissesFirst(first: Use, rest: seq<Use>, now: int, window: int, unit: Unit)
    ensures Misses([first] + rest, now, window, unit) <==>
            || (first.Record? && ErasedLater(rest, first.time, unit) && !Expired(first.time, now, unit, window))
            || Misses(rest, now, window, unit)
  {
    hide Expired, Erases;
    var es := [first] + rest;
    assert forall k :: 0 < k < |es| ==> es[k] == rest[k - 1];
    if first.Record? && ErasedLater(rest, first.time, unit) && !Expired(first.time, now, unit, window) {
      var e :| e in rest && Erases(e, first.time, unit);
      var j :| 0 <= j < |rest| && rest[j] == e;
      assert es[0] == first && Erases(es[j + 1], es[0].time, unit);
    }
    if Misses(rest, now, window, unit) {
      var i, j :| 0 <= i < j < |rest| && rest[i].Record? && Erases(rest[j], rest[i].time, unit)
                  && !Expired(rest[i].time, now, unit, window);
      assert es[i + 1] == rest[i] && es[j + 1] == rest[j];
    }
    if Misses(es, now, window, unit) {
      var i, j :| 0 <= i < j < |es| && es[i].Record? && Erases(es[j], es[i].time, unit)
                  && !Expired(es[i].time, now, unit, window);
      assert es[j] == rest[j - 1] && rest[j - 1] in rest;
    }
  }

  lemma {:induction false} RecordedFirst(first: Use, rest: seq<Use>)
    ensures Recorded([first] + rest) == (if first.Record? then [first.time] else []) + Recorded(rest)
    decreases |rest|
  {
    var one := if first.Record? then [first.time] else [];
    var es := [first] + rest;
    if rest == [] {
      assert es[..0] == [] && Recorded([]) == [];
      assert Recorded(es) == RecordedStep(Recorded([]), first);
    } else {
      var front, last := rest[..|rest| - 1], rest[|rest| - 1];
      RecordedFirst(first, front);
      assert es[..|es| - 1] == [first] + front && es[|es| - 1] == last;
      assert Recorded(es) == RecordedStep(Recorded([first] + front), last);
      assert Recorded(rest) == RecordedStep(Recorded(front), last);
      hide Recorded;
      if last.Record? {
        ConcatAssociates(one, Recorded(front), [last.time]);
      }
    }
  }

  /** The number a query returns, and the number of appended instants in its window. */
  function Answered(es: seq<Use>, now: int, window: int, unit: Unit): nat {
    |Unexpired(Kept(es, unit), now, unit, window)|
  }

  function InWindow(es: seq<Use>, now: int, window: int, unit: Unit): nat {
    |Unexpired(Recorded(es), now, unit, window)|
  }

  lemma {:induction false} SurvivorsCount(es: seq<Use>, now: int, window: int, unit: Unit)
    ensures var answer := |Unexpired(Survivors(es, unit), now, unit, window)|;
            && answer <= InWindow(es, now, window, unit)
            && (answer == InWindow(es, now, window, unit) <==> !Misses(es, now, window, unit))
    decreases |es|
  {
    if es == [] {
      NothingLogged(now, unit, window);
    } else {
      var first, rest := es[0], es[1..];
      assert es == [first] + rest;
      SurvivorsCount(rest, now, window, unit);
      MissesFirst(first, rest, now, window, unit);
      OneMoreCounted(first, rest, now, window, unit);
      hide *;
    }
  }

  lemma OneMoreCounted(first: Use, rest: seq<Use>, now: int, window: int, unit: Unit)
    ensures var es := [first] + rest;
            var young := first.Record? && !Expired(first.time, now, unit, window);
            && InWindow(es, now, window, unit) == InWindow(rest, now, window, unit) + (if young then 1 else 0)
            && |Unexpired(Survivors(es, unit), now, unit, window)|
               == |Unexpired(Survivors(rest, unit), now, unit, window)|
                  + if young && !ErasedLater(rest, first.time, unit) then 1 else 0
  {
    hide Unexpired, Survivors, Recorded, Expired, ErasedLater;
    RecordedFirst(first, rest);
    SurvivorsFirst(first, rest, unit);
    UnexpiredAppend(if first.Record? then [first.time] else [], Recorded(rest), now, unit, window);
    UnexpiredAppend(Survivor(first, rest, unit), Survivors(rest, unit), now, unit, window);
    NothingLogged(now, unit, window);
    if first.Record? {
      UnexpiredOne(first.time, now, unit, window);
    }
  }

  /** In whatever order the clock was read, the answer is never too high, and it is exact if and only if
      no earlier query erased an instant that this one would still count. */
  lemma CountExactIff(es: seq<Use>, now: int, window: int, unit: Unit)
    ensures Answered(es, now, window, unit) <= InWindow(es, now, window, unit)
    ensures Answered(es, now, window, unit) == InWindow(es, now, window, unit) <==> !Misses(es, now, window, unit)
  {
    KeptAreSurvivors(es, unit);
    SurvivorsCount(es, now, window, unit);
    hide *;
    assert Answered(es, now, window, unit) == |Unexpired(Kept(es, unit), now, unit, window)| by {
      AnsweredIs(es, now, window, unit);
    }
  }

  lemma AnsweredIs(es: seq<Use>, now: int, window: int, unit: Unit)
    ensures Answered(es, now, window, unit) == |Unexpired(Kept(es, unit), now, unit, window)|
  {
  }

  /** So it is exact when no earlier query had a later instant or a shorter window. */
  lemma ShrinkingWindowsAreExact(es: seq<Use>, now: int, window: int, unit: Unit)
    requires forall e :: e in es && e.Query? ==> e.now <= now && e.window >= window
    ensures Answered(es, now, window, unit) == InWindow(es, now, window, unit)
  {
    hide Answered, InWindow;
    CountExactIff(es, now, window, unit);
    forall i, j | 0 <= i < j < |es| && es[i].Record? && Erases(es[j], es[i].time, unit)
      ensures Expired(es[i].time, now, unit, window)
    {
      assert es[j] in es;
      TruncDivMonotone(es[j].now - es[i].time, now - es[i].time, unit);
    }
  }

  /** More generally when the windows, of one unit or more, begin no earlier than those before. */
  lemma AdvancingWindowsAreExact(es: seq<Use>, now: int, window: int, unit: Unit)
    requires window >= 1
    requires forall e :: e in es && e.Query? ==> e.window >= 1 && e.now - e.window * unit <= now - window * unit
    ensures Answered(es, now, window, unit) == InWindow(es, now, window, unit)
  {
    hide Answered, InWindow;
    CountExactIff(es, now, window, unit);
    forall i, j | 0 <= i < j < |es| && es[i].Record? && Erases(es[j], es[i].time, unit)
      ensures Expired(es[i].time, now, unit, window)
    {
      assert es[j] in es;
      WholeUnits(es[j].now - es[i].time, unit, es[j].window);
      WholeUnits(now - es[i].time, unit, window);
    }
  }

  /** A wider window after a narrower one is answered too low. */
  lemma GrowingWindowUndercounts(unit: Unit)
    ensures var es := [Record(0), Query(2 * unit, 1)];
            Answered(es, 3 * unit, 60, unit) == 0 && InWindow(es, 3 * unit, 60, unit) == 1
  {
    var r, q := Record(0), Query(2 * unit, 1);
    hide Unexpired, Expired, Kept, Recorded;
    assert [] + [r] == [r] && [r] + [q] == [r, q] && [] + [0] == [0];
    NothingKept(unit);
    KeptPush([], r, unit);
    KeptPush([r], q, unit);
    UnexpiredOne(0, 2 * unit, unit, 1);
    WholeUnits(2 * unit, unit, 1);
    NothingLogged(3 * unit, unit, 60);
    UnexpiredOne(0, 3 * unit, unit, 60);
    WholeUnits(3 * unit, unit, 60);
    assert Expired(0, 2 * unit, unit, 1) && !Expired(0, 3 * unit, unit, 60) by {
      ExpiredIs(0, 2 * unit, unit, 1);
      ExpiredIs(0, 3 * unit, unit, 60);
    }
  }

  lemma NothingKept(unit: Unit)
    ensures Kept([], unit) == [] && Recorded([]) == []
  {
  }

  lemma ExpiredIs(t: int, now: int, unit: Unit, count: int)
    ensures Expired(t, now, unit, count) <==> TruncDiv(now - t, unit) >= count
  {
  }
}
