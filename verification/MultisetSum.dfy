/** What the threads of a pool hold between them: the sum of one multiset for each thread. */
module MultisetSum {

  function Sum<W, T>(threads: seq<W>, holds: W -> multiset<T>): multiset<T> {
    if threads == [] then multiset{} else Sum(threads[..|threads| - 1], holds) + holds(threads[|threads| - 1])
  }

  lemma {:induction false} CountAfterUpdate<W, T>(threads: seq<W>, i: nat, w: W, holds: W -> multiset<T>, t: T)
    requires i < |threads|
    ensures Sum(threads[i := w], holds)[t] + holds(threads[i])[t] == Sum(threads, holds)[t] + holds(w)[t]
    decreases |threads|
  {
    var n := |threads| - 1;
    var front, changed := threads[..n], threads[i := w];
    assert Sum(changed, holds) == Sum(changed[..n], holds) + holds(changed[n]);
    if i < n {
      CountAfterUpdate(front, i, w, holds, t);
      assert changed[..n] == front[i := w] && changed[n] == threads[n];
    } else {
      assert changed[..n] == front;
    }
  }

  /** When one thread's share changes, the sum changes by as much. */
  lemma SumAfterUpdate<W, T(!new)>(threads: seq<W>, i: nat, w: W, holds: W -> multiset<T>)
    requires i < |threads|
    ensures Sum(threads[i := w], holds) + holds(threads[i]) == Sum(threads, holds) + holds(w)
  {
    forall t
      ensures Sum(threads[i := w], holds)[t] + holds(threads[i])[t] == Sum(threads, holds)[t] + holds(w)[t]
    {
      CountAfterUpdate(threads, i, w, holds, t);
    }
  }

  lemma {:induction false} SumOfNothing<W, T>(threads: seq<W>, holds: W -> multiset<T>)
    requires forall i :: 0 <= i < |threads| ==> holds(threads[i]) == multiset{}
    ensures Sum(threads, holds) == multiset{}
    decreases |threads|
  {
    if threads != [] {
      SumOfNothing(threads[..|threads| - 1], holds);
    }
  }

  lemma PutBack<T>(all: multiset<T>, t: T)
    requires t in all
    ensures all == (all - multiset{t}) + multiset{t} && |all| == |all - multiset{t}| + 1
  {
  }

  lemma AddRegroup<T>(a: multiset<T>, b: multiset<T>, c: multiset<T>)
    ensures (a + b) + c == a + (b + c) && (a + b) + c == (a + c) + b
  {
  }
}
