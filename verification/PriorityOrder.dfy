/**
 The order of `std::priority_queue` for tasks that carry a priority and an instant, shared by
 `PrioritizedTask::operator<` (src/script/interpreter_pool.cpp) and `Task::operator<`
 (src/server/eventloop.cpp): higher priority first, then the earlier instant.  A queue is the
 multiset of its tasks; which of several equal tops comes out is not determined.
 */
module PriorityOrder {

  datatype Key = Key(priority: int, time: int)

  /** `operator<`: `a` comes out after `b`. */
  predicate Below(a: Key, b: Key) {
    if a.priority != b.priority then a.priority < b.priority else a.time > b.time
  }

  predicate IsTop<T(==)>(t: T, queue: multiset<T>, key: T -> Key) {
    t in queue && forall u | u in queue :: !Below(key(t), key(u))
  }

  /** A top, told by its fields: nothing in the queue has a higher priority, and nothing of the same
      priority an earlier instant. */
  lemma TopIsFirst<T>(t: T, queue: multiset<T>, key: T -> Key)
    ensures IsTop(t, queue, key) <==>
            && t in queue
            && forall u :: u in queue ==>
                             || key(u).priority < key(t).priority
                             || (key(u).priority == key(t).priority && key(t).time <= key(u).time)
  {
  }

  lemma {:induction false} TopExists<T>(queue: multiset<T>, key: T -> Key) returns (top: T)
    requires queue != multiset{}
    ensures IsTop(top, queue, key)
    decreases |queue|
  {
    top :| top in queue;
    var rest := queue - multiset{top};
    assert forall u | u in queue :: u == top || u in rest;
    if rest != multiset{} {
      var other := TopExists(rest, key);
      if Below(key(top), key(other)) {
        top := other;
      }
    }
  }

  /** `out`, first to last, may come out of the queue and leave `rest` in it. */
  ghost predicate DrainsTo<T>(out: seq<T>, queue: multiset<T>, rest: multiset<T>, key: T -> Key)
    decreases |out|
  {
    if out == [] then queue == rest
    else IsTop(out[0], queue, key) && DrainsTo(out[1..], queue - multiset{out[0]}, rest, key)
  }

  /** `out`, first to last, is an order in which the queue may be emptied. */
  ghost predicate Drains<T>(out: seq<T>, queue: multiset<T>, key: T -> Key) {
    DrainsTo(out, queue, multiset{}, key)
  }

  lemma {:induction false} DrainOneMore<T>(out: seq<T>, queue: multiset<T>, rest: multiset<T>, t: T, key: T -> Key)
    requires DrainsTo(out, queue, rest, key) && IsTop(t, rest, key)
    ensures DrainsTo(out + [t], queue, rest - multiset{t}, key)
    decreases |out|
  {
    hide IsTop;
    if out == [] {
      assert [] + [t] == [t] && [t][1..] == [];
    } else {
      assert (out + [t])[1..] == out[1..] + [t] && (out + [t])[0] == out[0];
      DrainOneMore(out[1..], queue - multiset{out[0]}, rest, t, key);
    }
  }

  ghost predicate Descending<T>(out: seq<T>, key: T -> Key) {
    forall i, j :: 0 <= i < j < |out| ==> !Below(key(out[i]), key(out[j]))
  }

  /** Emptying a queue yields exactly its permutations by falling priority and, among equal priorities,
      rising instant. */
  lemma DrainsIffSorted<T>(out: seq<T>, queue: multiset<T>, key: T -> Key)
    ensures Drains(out, queue, key) <==>
            && multiset(out) == queue
            && forall i, j :: 0 <= i < j < |out| ==>
                                || key(out[i]).priority > key(out[j]).priority
                                || (key(out[i]).priority == key(out[j]).priority && key(out[i]).time <= key(out[j]).time)
  {
    DrainsIffDescending(out, queue, key);
    hide Drains;
  }

  lemma {:induction false} DrainsIffDescending<T>(out: seq<T>, queue: multiset<T>, key: T -> Key)
    ensures Drains(out, queue, key) <==> multiset(out) == queue && Descending(out, key)
    decreases |out|
  {
    if out != [] {
      DrainsIffDescending(out[1..], queue - multiset{out[0]}, key);
      if Drains(out, queue, key) {
        DescendingFromTop(out, queue, key);
      }
      if multiset(out) == queue && Descending(out, key) {
        TopOfDescending(out, key);
      }
    }
  }

  lemma TopOfDescending<T>(out: seq<T>, key: T -> Key)
    requires out != [] && Descending(out, key)
    ensures IsTop(out[0], multiset(out), key)
    ensures multiset(out[1..]) == multiset(out) - multiset{out[0]} && Descending(out[1..], key)
  {
    var first, rest := out[0], out[1..];
    assert out == [first] + rest;
    forall i, j | 0 <= i < j < |rest|
      ensures !Below(key(rest[i]), key(rest[j]))
    {
      assert rest[i] == out[i + 1] && rest[j] == out[j + 1];
    }
    forall u | u in multiset(out)
      ensures !Below(key(first), key(u))
    {
      var j :| 0 <= j < |out| && out[j] == u;
    }
  }

  lemma DescendingFromTop<T>(out: seq<T>, queue: multiset<T>, key: T -> Key)
    requires out != [] && IsTop(out[0], queue, key)
    requires multiset(out[1..]) == queue - multiset{out[0]} && Descending(out[1..], key)
    ensures multiset(out) == queue && Descending(out, key)
  {
    var first, rest := out[0], out[1..];
    assert out == [first] + rest;
    forall i, j | 0 <= i < j < |out|
      ensures !Below(key(out[i]), key(out[j]))
    {
      assert out[j] == rest[j - 1];
      if i == 0 {
        assert out[j] in multiset(rest);
        assert out[j] in queue;
      } else {
        assert out[i] == rest[i - 1];
      }
    }
  }
}
