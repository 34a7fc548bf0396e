/**
 The three-band task queue of src/server/eventloop.hpp (`TaskQueue`), and its refinement of one
 priority queue.
 */
module EventQueue {
  import opened Common
  import opened MultisetSum
  import opened PriorityOrder

  datatype TaskType = Normal | Delayed | Periodic | Cancelable

  /** The fields of `EventLoop::Task` that the loop reads; the function is opaque. */
  datatype Task = Task(taskId: int, priority: int, executionTime: int, isActive: bool, kind: TaskType)

  function TaskKey(t: Task): Key {
    Key(t.priority, t.executionTime)
  }

  type Bands = b: seq<multiset<Task>> | |b| == 3 witness [multiset{}, multiset{}, multiset{}]

  function BandOf(priority: int): nat {
    if priority > 0 then 0 else if priority < 0 then 2 else 1
  }

  /** All the tasks, as if they were in one queue. */
  function All(bands: Bands): multiset<Task> {
    bands[0] + bands[1] + bands[2]
  }

  predicate Banded(bands: Bands) {
    forall k, t | 0 <= k < 3 && t in bands[k] :: BandOf(t.priority) == k
  }

  /** What `pop` takes: a top of the first band that is not empty. */
  predicate Takes(bands: Bands, t: Task) {
    var k := BandOf(t.priority);
    IsTop(t, bands[k], TaskKey) && forall j | 0 <= j < k :: bands[j] == multiset{}
  }

  function Without(bands: Bands, t: Task): Bands {
    var k := BandOf(t.priority);
    bands[k := bands[k] - multiset{t}]
  }

  lemma InAll(bands: Bands, t: Task)
    requires Banded(bands)
    ensures t in All(bands) <==> t in bands[BandOf(t.priority)]
    ensures forall j | 0 <= j < 3 :: t in bands[j] ==> j == BandOf(t.priority)
  {
  }

  lemma WithoutBanded(bands: Bands, t: Task)
    requires Banded(bands)
    ensures Banded(Without(bands, t))
  {
  }

  lemma AllWithout(bands: Bands, t: Task)
    requires Banded(bands) && t in bands[BandOf(t.priority)]
    ensures All(bands) == All(Without(bands, t)) + multiset{t}
    ensures Banded(Without(bands, t))
  {
    WithoutBanded(bands, t);
    hide Banded;
    var k := BandOf(t.priority);
    var band, rest := bands[k], Without(bands, t)[k];
    assert rest == band - multiset{t};
    PutBack(band, t);
    hide Without, BandOf;
    AllWith(Without(bands, t), bands, k, t);
  }

  lemma AllWith(bands: Bands, more: Bands, k: nat, t: Task)
    requires k < 3 && more == bands[k := bands[k] + multiset{t}]
    ensures All(more) == All(bands) + multiset{t}
  {
    AddRegroup(bands[0], multiset{t}, bands[1]);
    AddRegroup(bands[0] + bands[1], multiset{t}, bands[2]);
    AddRegroup(bands[0], bands[1], multiset{t});
    AddRegroup(bands[0] + bands[1], bands[2], multiset{t});
  }

  lemma TakenIsTop(bands: Bands, t: Task)
    requires Banded(bands) && Takes(bands, t)
    ensures IsTop(t, All(bands), TaskKey)
  {
    forall u | u in All(bands)
      ensures !Below(TaskKey(t), TaskKey(u))
    {
      InAll(bands, u);
      assert bands[BandOf(u.priority)] != multiset{};
    }
  }

  lemma TopIsTaken(bands: Bands, t: Task)
    requires Banded(bands) && IsTop(t, All(bands), TaskKey)
    ensures Takes(bands, t)
  {
    var k := BandOf(t.priority);
    InAll(bands, t);
    forall u | u in bands[k]
      ensures !Below(TaskKey(t), TaskKey(u))
    {
      InAll(bands, u);
    }
    forall j | 0 <= j < k
      ensures bands[j] == multiset{}
    {
      forall u
        ensures u !in bands[j]
      {
        InAll(bands, u);
      }
    }
  }

  /** `pop` takes exactly the tops of the whole queue. */
  lemma TakesIffTop(bands: Bands, t: Task)
    requires Banded(bands)
    ensures Takes(bands, t) <==> IsTop(t, All(bands), TaskKey)
  {
    if Takes(bands, t) {
      TakenIsTop(bands, t);
    }
    if IsTop(t, All(bands), TaskKey) {
      TopIsTaken(bands, t);
    }
  }

  /** Of the other tasks none has a higher priority, and none of the same priority an earlier time. */
  predicate ComesFirst(t: Task, others: multiset<Task>) {
    forall u :: u in others ==>
                  u.priority < t.priority || (u.priority == t.priority && t.executionTime <= u.executionTime)
  }

  lemma NothingBefore(t: Task, all: multiset<Task>, others: multiset<Task>)
    requires IsTop(t, all, TaskKey) && all == others + multiset{t}
    ensures ComesFirst(t, others)
  {
    forall u | u in others
      ensures u.priority < t.priority || (u.priority == t.priority && t.executionTime <= u.executionTime)
    {
      assert u in all;
      assert !Below(TaskKey(t), TaskKey(u));
    }
  }

  /** What `pop` does once it has come to band `k`. */
  lemma TakesFromBand(bands: Bands, k: nat, t: Task)
    requires Banded(bands) && k < 3 && IsTop(t, bands[k], TaskKey)
    requires forall j | 0 <= j < k :: bands[j] == multiset{}
    ensures IsTop(t, All(bands), TaskKey)
    ensures Banded(bands[k := bands[k] - multiset{t}])
    ensures All(bands) == All(bands[k := bands[k] - multiset{t}]) + multiset{t}
    ensures ComesFirst(t, All(bands[k := bands[k] - multiset{t}]))
  {
    TakesIffTop(bands, t);
    AllWithout(bands, t);
    hide Banded, IsTop, All, Takes, Without;
    NothingBefore(t, All(bands), All(bands[k := bands[k] - multiset{t}]));
  }

  /** `out`, first to last, may come out of repeated `pop`s until all bands are empty. */
  ghost predicate BandsDrain(out: seq<Task>, bands: Bands)
    decreases |out|
  {
    if out == [] then All(bands) == multiset{}
    else Takes(bands, out[0]) && BandsDrain(out[1..], Without(bands, out[0]))
  }

  lemma {:induction false} BandsDrainAsOneQueue(out: seq<Task>, bands: Bands)
    requires Banded(bands)
    ensures BandsDrain(out, bands) <==> Drains(out, All(bands), TaskKey)
    decreases |out|
  {
    if out != [] {
      TakesIffTop(bands, out[0]);
      if Takes(bands, out[0]) {
        AllWithout(bands, out[0]);
        assert All(bands) - multiset{out[0]} == All(Without(bands, out[0]));
        BandsDrainAsOneQueue(out[1..], Without(bands, out[0]));
      }
    }
  }

  /** Draining the three bands yields exactly the permutations of what was pushed by falling priority
      and, among equal priorities, rising execution time. */
  lemma DrainIsSort(out: seq<Task>, bands: Bands)
    requires Banded(bands)
    ensures BandsDrain(out, bands) <==>
            && multiset(out) == All(bands)
            && forall i, j :: 0 <= i < j < |out| ==>
                                || out[i].priority > out[j].priority
                                || (out[i].priority == out[j].priority && out[i].executionTime <= out[j].executionTime)
  {
    BandsDrainAsOneQueue(out, bands);
    DrainsIffSorted(out, All(bands), TaskKey);
  }

  class TaskQueue {
    const priorityQueues: array<multiset<Task>>

    constructor ()
      ensures fresh(priorityQueues) && Valid() && Tasks() == multiset{}
    {
      priorityQueues := new multiset<Task>[3](_ => multiset{});
    }

    ghost predicate Valid()
      reads this, priorityQueues
    {
      priorityQueues.Length == 3 && Banded(priorityQueues[..])
    }

    ghost function Tasks(): multiset<Task>
      requires Valid()
      reads this, priorityQueues
    {
      All(priorityQueues[..])
    }

    method Push(task: Task)
      requires Valid()
      modifies priorityQueues
      ensures Valid() && Tasks() == old(Tasks()) + multiset{task}
    {
      var queueIndex := if task.priority > 0 then 0 else if task.priority < 0 then 2 else 1;
      priorityQueues[queueIndex] := priorityQueues[queueIndex] + multiset{task};
    }

    method Pop() returns (task: Option<Task>)
      requires Valid()
      modifies priorityQueues
      ensures Valid()
      ensures task.None? <==> old(Tasks()) == multiset{}
      ensures task.None? ==> Tasks() == multiset{}
      ensures task.Some? ==> IsTop(task.value, old(Tasks()), TaskKey)
      ensures task.Some? ==> old(Tasks()) == Tasks() + multiset{task.value}
      ensures task.Some? ==> ComesFirst(task.value, Tasks())
    {
      for k := 0 to 3
        invariant Valid() && priorityQueues[..] == old(priorityQueues[..])
        invariant forall j :: 0 <= j < k ==> priorityQueues[j] == multiset{}
      {
        var queue := priorityQueues[k];
        if queue != multiset{} {
          ghost var top := TopExists(queue, TaskKey);
          var t :| IsTop(t, queue, TaskKey);
          ghost var bands: Bands := priorityQueues[..];
          TakesFromBand(bands, k, t);
          hide Banded, All, IsTop, ComesFirst;
          priorityQueues[k] := queue - multiset{t};
          assert priorityQueues[..] == bands[k := queue - multiset{t}];
          return Some(t);
        }
      }
      return None;
    }
  }
}
