/**
 The ownership side of src/script/interpreter_pool.cpp as a state machine: interpreter indices are
 available or busy, and movable guards hand them back.  `G` identifies guard objects.  Giving an
 index back happens under the pool's mutex, clearing the guard's fields after it, so these are two
 steps between which other threads may act.
 */
module PoolGuards {

  /** The fields of a guard; `owned` says that its pool pointer is not null. */
  datatype Guard = Guard(owned: bool, valid: bool, index: nat)

  /** `letGo`: the guards in the middle of `release`, with their index given back and their fields not
      yet cleared. */
  datatype Rooms<G(==)> = Rooms(poolSize: nat, available: set<nat>, busy: set<nat>, guards: map<G, Guard>, letGo: set<G>)

  datatype Event<G(==)> =
    | Acquire(g: G, index: nat)
    | DefaultConstruct(g: G)
    | GiveBack(g: G)
    | Clear(g: G)
    | TakeOver(g: G, other: G)
    | Drop(g: G)

  const EMPTY: Guard := Guard(false, false, 0)

  predicate IsHolding(g: Guard) {
    g.valid && g.owned
  }

  /** `Impl::release`: an index that is not busy is left alone. */
  function ReleaseIndex<G>(r: Rooms<G>, index: nat): Rooms<G> {
    if index in r.busy then r.(busy := r.busy - {index}, available := r.available + {index}) else r
  }

  function Cleared(guard: Guard): Guard {
    guard.(owned := false, valid := false)
  }

  /** Copy the fields, then null those of the source. */
  function TakenOver<G>(r: Rooms<G>, g: G, other: G): Rooms<G>
    requires other in r.guards
  {
    r.(guards := r.guards[g := r.guards[other]][other := Cleared(r.guards[other])])
  }

  /** A guard that no thread is releasing and that has nothing to release. */
  predicate Idle<G>(r: Rooms<G>, g: G) {
    g in r.guards && g !in r.letGo && !IsHolding(r.guards[g])
  }

  predicate Enabled<G>(r: Rooms<G>, e: Event<G>) {
    match e
    case Acquire(g, index) => g !in r.guards && index in r.available
    case DefaultConstruct(g) => g !in r.guards
    case GiveBack(g) => g in r.guards && g !in r.letGo && IsHolding(r.guards[g])
    case Clear(g) => g in r.guards && g in r.letGo
    case TakeOver(g, other) => g != other && other in r.guards && other !in r.letGo && (g !in r.guards || Idle(r, g))
    case Drop(g) => Idle(r, g)
  }

  /** `TakeOver` is a move construction, or a move assignment once the target has been released. */
  function Step<G>(r: Rooms<G>, e: Event<G>): Rooms<G>
    requires Enabled(r, e)
  {
    match e
    case Acquire(g, index) =>
      r.(available := r.available - {index}, busy := r.busy + {index}, guards := r.guards[g := Guard(true, true, index)])
    case DefaultConstruct(g) => r.(guards := r.guards[g := EMPTY])
    case GiveBack(g) => ReleaseIndex(r, r.guards[g].index).(letGo := r.letGo + {g})
    case Clear(g) => r.(guards := r.guards[g := Cleared(r.guards[g])], letGo := r.letGo - {g})
    case TakeOver(g, other) => TakenOver(r, g, other)
    case Drop(g) => r.(guards := r.guards - {g})
  }

  predicate IsRun<G>(r: Rooms<G>, es: seq<Event<G>>)
    decreases |es|
  {
    es != [] ==> Enabled(r, es[0]) && IsRun(Step(r, es[0]), es[1..])
  }

  function Run<G>(r: Rooms<G>, es: seq<Event<G>>): Rooms<G>
    requires IsRun(r, es)
    decreases |es|
  {
    if es == [] then r else Run(Step(r, es[0]), es[1..])
  }

  // ---------------------------------------------------------------- whole operations

  /** `release()` with nothing in between. */
  function Released<G>(r: Rooms<G>, g: G): Rooms<G>
    requires g in r.guards && g !in r.letGo
  {
    if IsHolding(r.guards[g]) then
      ReleaseIndex(r, r.guards[g].index).(guards := r.guards[g := Cleared(r.guards[g])])
    else r
  }

  function MoveAssigned<G>(r: Rooms<G>, g: G, other: G): Rooms<G>
    requires g in r.guards && other in r.guards && g !in r.letGo && other !in r.letGo
  {
    if g == other then r
    else Step(Released(r, g), TakeOver(g, other))
  }

  function Destroyed<G>(r: Rooms<G>, g: G): Rooms<G>
    requires g in r.guards && g !in r.letGo
  {
    Step(Released(r, g), Drop(g))
  }

  function ReleaseEvents<G>(r: Rooms<G>, g: G): seq<Event<G>>
    requires g in r.guards
  {
    if IsHolding(r.guards[g]) then [GiveBack(g), Clear(g)] else []
  }

  /** The operations are runs of the smaller steps. */
  lemma ReleaseIsRun<G>(r: Rooms<G>, g: G)
    requires g in r.guards && g !in r.letGo
    ensures IsRun(r, ReleaseEvents(r, g)) && Run(r, ReleaseEvents(r, g)) == Released(r, g)
  {
    var es := ReleaseEvents(r, g);
    if es != [] {
      assert es[1..] == [Clear(g)] && es[1..][1..] == [];
      assert r.letGo + {g} - {g} == r.letGo;
      var r1 := Step(r, es[0]);
      assert Step(r1, Clear(g)) == Released(r, g);
      assert IsRun(Step(r1, Clear(g)), []) && IsRun(r1, [Clear(g)]);
      assert Run(r1, [Clear(g)]) == Run(Step(r1, Clear(g)), []);
    }
  }

  lemma {:induction false} RunAppend<G>(r: Rooms<G>, es: seq<Event<G>>, e: Event<G>)
    requires IsRun(r, es) && Enabled(Run(r, es), e)
    ensures IsRun(r, es + [e]) && Run(r, es + [e]) == Step(Run(r, es), e)
    decreases |es|
  {
    if es == [] {
      assert [e][1..] == [];
    } else {
      assert (es + [e])[1..] == es[1..] + [e];
      hide Enabled, Step;
      RunAppend(Step(r, es[0]), es[1..], e);
    }
  }

  lemma MoveAssignIsRun<G>(r: Rooms<G>, g: G, other: G)
    requires g in r.guards && other in r.guards && g !in r.letGo && other !in r.letGo && g != other
    ensures var es := ReleaseEvents(r, g) + [TakeOver(g, other)];
            IsRun(r, es) && Run(r, es) == MoveAssigned(r, g, other)
  {
    ReleaseIsRun(r, g);
    RunAppend(r, ReleaseEvents(r, g), TakeOver(g, other));
  }

  lemma DestroyIsRun<G>(r: Rooms<G>, g: G)
    requires g in r.guards && g !in r.letGo
    ensures var es := ReleaseEvents(r, g) + [Drop(g)];
            IsRun(r, es) && Run(r, es) == Destroyed(r, g)
  {
    ReleaseIsRun(r, g);
    RunAppend(r, ReleaseEvents(r, g), Drop(g));
  }

  lemma NewcomerTakesOver<G>(r: Rooms<G>, g: G, other: G)
    requires g !in r.guards && other in r.guards && other !in r.letGo
    ensures Enabled(r, TakeOver(g, other))
  {
  }

  /** Taking over, told by the fields of the guards. */
  lemma TakeOverByFields<G>(r: Rooms<G>, r': Rooms<G>, g: G, other: G)
    requires Enabled(r, TakeOver(g, other)) && r' == r.(guards := r'.guards)
    requires r'.guards.Keys == r.guards.Keys + {g}
    requires r'.guards[g] == r.guards[other] && r'.guards[other] == Cleared(r.guards[other])
    requires forall h | h in r.guards && h != g && h != other :: r'.guards[h] == r.guards[h]
    ensures r' == TakenOver(r, g, other) == Step(r, TakeOver(g, other))
  {
    assert r'.guards == r.guards[g := r.guards[other]][other := Cleared(r.guards[other])];
  }

  // ---------------------------------------------------------------- the invariant

  function AllIndices(n: nat): (s: set<nat>)
    ensures forall i :: i in s <==> 0 <= i < n
    ensures |s| == n
  {
    if n == 0 then {}
    else
      var below := AllIndices(n - 1);
      assert n - 1 !in below;
      below + {n - 1}
  }

  predicate Partition<G>(r: Rooms<G>) {
    r.available !! r.busy && r.available + r.busy == AllIndices(r.poolSize)
  }

  /** The guard refers to the index and is not in the middle of giving it back. */
  predicate Holds<G>(r: Rooms<G>, g: G, index: nat) {
    g in r.guards && g !in r.letGo && IsHolding(r.guards[g]) && r.guards[g].index == index
  }

  /** Each busy index is held by one guard and nothing else is held. */
  ghost predicate HeldOnce<G>(r: Rooms<G>) {
    && (forall g, i | g in r.guards :: Holds(r, g, i) ==> i in r.busy)
    && (forall g, h, i | g in r.guards && h in r.guards :: Holds(r, g, i) && Holds(r, h, i) ==> g == h)
    && (forall i | i in r.busy :: exists g | g in r.guards :: Holds(r, g, i))
  }

  ghost predicate Inv<G>(r: Rooms<G>) {
    && Partition(r)
    && HeldOnce(r)
    && FieldsAgree(r)
  }

  predicate FieldsAgree<G>(r: Rooms<G>) {
    && (forall g | g in r.guards :: r.guards[g].owned <==> r.guards[g].valid)
    && (forall g | g in r.letGo :: g in r.guards && IsHolding(r.guards[g]))
  }

  /** The holders of all indices stay the same. */
  lemma SameHolders<G>(r: Rooms<G>, r': Rooms<G>)
    requires HeldOnce(r) && r'.busy == r.busy
    requires forall g, i :: Holds(r', g, i) <==> Holds(r, g, i)
    ensures HeldOnce(r')
  {
    forall i | i in r'.busy
      ensures exists g | g in r'.guards :: Holds(r', g, i)
    {
      var g :| g in r.guards && Holds(r, g, i);
      assert Holds(r', g, i);
    }
  }

  lemma GiveBackHeldOnce<G>(r: Rooms<G>, g: G)
    requires HeldOnce(r) && Enabled(r, GiveBack(g))
    ensures HeldOnce(Step(r, GiveBack(g)))
  {
    var r', index := Step(r, GiveBack(g)), r.guards[g].index;
    assert Holds(r, g, index) && r'.busy == r.busy - {index};
    assert forall h, i :: Holds(r', h, i) <==> h != g && Holds(r, h, i);
    hide Holds, Step, Enabled;
    forall i | i in r'.busy
      ensures exists h | h in r'.guards :: Holds(r', h, i)
    {
      var h :| h in r.guards && Holds(r, h, i);
      assert Holds(r', h, i);
    }
  }

  lemma HoldersAreKnown<G>(r: Rooms<G>)
    ensures forall g, i :: Holds(r, g, i) ==> g in r.guards
  {
  }

  lemma TakeOverHolds<G>(r: Rooms<G>, g: G, other: G)
    requires FieldsAgree(r) && Enabled(r, TakeOver(g, other))
    ensures var r' := Step(r, TakeOver(g, other));
            && r'.busy == r.busy && (forall i :: !Holds(r, g, i))
            && forall h, i :: Holds(r', h, i) <==> if h == g then Holds(r, other, i) else h != other && Holds(r, h, i)
  {
    assert g !in r.letGo;
  }

  lemma TakeOverHeldOnce<G>(r: Rooms<G>, g: G, other: G)
    requires HeldOnce(r) && FieldsAgree(r) && Enabled(r, TakeOver(g, other))
    ensures HeldOnce(Step(r, TakeOver(g, other)))
  {
    var r' := Step(r, TakeOver(g, other));
    TakeOverHolds(r, g, other);
    HoldersAreKnown(r');
    hide Holds, Step, Enabled, FieldsAgree;
    forall i | i in r'.busy
      ensures exists h | h in r'.guards :: Holds(r', h, i)
    {
      var h :| h in r.guards && Holds(r, h, i);
      assert Holds(r', if h == other then g else h, i);
    }
  }

  lemma AcquireHeldOnce<G>(r: Rooms<G>, g: G, index: nat)
    requires HeldOnce(r) && index !in r.busy && g !in r.letGo && Enabled(r, Acquire(g, index))
    ensures HeldOnce(Step(r, Acquire(g, index)))
  {
    var r' := Step(r, Acquire(g, index));
    assert forall h, i :: Holds(r', h, i) <==> if h == g then i == index else Holds(r, h, i);
    assert r'.busy == r.busy + {index};
    hide Step, Holds, Enabled;
    assert Holds(r', g, index);
    forall i | i in r.busy
      ensures exists h | h in r'.guards :: Holds(r', h, i)
    {
      var h :| h in r.guards && Holds(r, h, i);
      assert h == g || Holds(r', h, i);
    }
  }

  lemma StepHeldOnce<G>(r: Rooms<G>, e: Event<G>)
    requires Inv(r) && Enabled(r, e)
    ensures HeldOnce(Step(r, e))
  {
    hide HeldOnce, Step, Partition;
    match e {
      case Acquire(g, index) =>
        AcquireIsNew(r, g, index);
        AcquireHeldOnce(r, g, index);
      case GiveBack(g) => GiveBackHeldOnce(r, g);
      case TakeOver(g, other) => TakeOverHeldOnce(r, g, other);
      case _ => EmptyHeldOnce(r, e);
    }
  }

  lemma AcquireIsNew<G>(r: Rooms<G>, g: G, index: nat)
    requires Partition(r) && FieldsAgree(r) && Enabled(r, Acquire(g, index))
    ensures index !in r.busy && g !in r.letGo
  {
  }

  /** Steps on guards that hold nothing. */
  lemma EmptyHeldOnce<G>(r: Rooms<G>, e: Event<G>)
    requires HeldOnce(r) && FieldsAgree(r) && Enabled(r, e) && (e.DefaultConstruct? || e.Clear? || e.Drop?)
    ensures HeldOnce(Step(r, e))
  {
    var r' := Step(r, e);
    assert r'.busy == r.busy && forall g, i :: Holds(r', g, i) <==> Holds(r, g, i);
    hide Step, Enabled, Holds, HeldOnce;
    SameHolders(r, r');
  }

  lemma MoveIndex(from: set<nat>, to: set<nat>, index: nat)
    requires index in from && from !! to
    ensures from - {index} !! to + {index}
    ensures (from - {index}) + (to + {index}) == from + to
  {
  }

  lemma StepPartition<G>(r: Rooms<G>, e: Event<G>)
    requires Partition(r) && Enabled(r, e)
    ensures Partition(Step(r, e))
  {
    if e.Acquire? {
      MoveIndex(r.available, r.busy, e.index);
    } else if e.GiveBack? && r.guards[e.g].index in r.busy {
      MoveIndex(r.busy, r.available, r.guards[e.g].index);
    }
  }

  lemma StepInv<G>(r: Rooms<G>, e: Event<G>)
    requires Inv(r) && Enabled(r, e)
    ensures Inv(Step(r, e)) && Step(r, e).poolSize == r.poolSize
  {
    StepPartition(r, e);
    StepHeldOnce(r, e);
    StepFields(r, e);
    hide Partition, HeldOnce, FieldsAgree;
  }

  lemma StepFields<G>(r: Rooms<G>, e: Event<G>)
    requires FieldsAgree(r) && Enabled(r, e)
    ensures FieldsAgree(Step(r, e))
  {
  }

  lemma ReleaseInv<G>(r: Rooms<G>, g: G)
    requires Inv(r) && g in r.guards && g !in r.letGo
    ensures Inv(Released(r, g)) && Idle(Released(r, g), g)
    ensures Released(r, g).guards.Keys == r.guards.Keys && Released(r, g).poolSize == r.poolSize
  {
    ReleaseIsRun(r, g);
    RunInv(r, ReleaseEvents(r, g));
    hide Inv;
  }

  // ---------------------------------------------------------------- who holds what afterwards

  /** At most one index. */
  function HeldBy<G>(r: Rooms<G>, g: G): set<nat> {
    if g in r.guards && g !in r.letGo && IsHolding(r.guards[g]) then {r.guards[g].index} else {}
  }

  /** The indices have gone back, and nothing else has changed hands. */
  predicate Freed<G>(r: Rooms<G>, r': Rooms<G>, indices: set<nat>) {
    r'.busy == r.busy - indices && r'.available == r.available + indices
  }

  lemma ReleaseFrees<G>(r: Rooms<G>, g: G)
    requires Inv(r) && g in r.guards && g !in r.letGo
    ensures var r' := Released(r, g);
            && Freed(r, r', HeldBy(r, g)) && HeldBy(r', g) == {} && r'.letGo == r.letGo
            && forall h :: h != g ==> HeldBy(r', h) == HeldBy(r, h)
  {
    assert IsHolding(r.guards[g]) ==> Holds(r, g, r.guards[g].index);
    assert r.busy - {} == r.busy && r.available + {} == r.available;
  }

  /** Move assignment hands over what the source held and gives back what the target held; assigning a
      guard to itself does nothing. */
  lemma MoveAssignMoves<G>(r: Rooms<G>, g: G, other: G)
    requires Inv(r) && g in r.guards && other in r.guards && g !in r.letGo && other !in r.letGo
    ensures var r' := MoveAssigned(r, g, other);
            if g == other then r' == r
            else
              && Freed(r, r', HeldBy(r, g)) && HeldBy(r', g) == HeldBy(r, other) && HeldBy(r', other) == {}
              && forall h :: h != g && h != other ==> HeldBy(r', h) == HeldBy(r, h)
  {
    hide Inv, Released, Step, HeldBy, Freed, Idle;
    ReleaseFrees(r, g);
    if g != other {
      var r1 := Released(r, g);
      ReleaseInv(r, g);
      assert Enabled(r1, TakeOver(g, other));
      hide Enabled;
      TakeOverMoves(r1, g, other);
      FreedAlso(r, r1, MoveAssigned(r, g, other), HeldBy(r, g));
    }
  }

  lemma TakeOverMoves<G>(r: Rooms<G>, g: G, other: G)
    requires Enabled(r, TakeOver(g, other)) && g !in r.letGo
    ensures var r' := Step(r, TakeOver(g, other));
            && r'.busy == r.busy && r'.available == r.available
            && HeldBy(r', g) == HeldBy(r, other) && HeldBy(r', other) == {}
            && forall h :: h != g && h != other ==> HeldBy(r', h) == HeldBy(r, h)
  {
  }

  lemma FreedAlso<G>(r: Rooms<G>, r1: Rooms<G>, r2: Rooms<G>, indices: set<nat>)
    requires Freed(r, r1, indices) && r2.busy == r1.busy && r2.available == r1.available
    ensures Freed(r, r2, indices)
  {
  }

  /** A destroyed guard gives back what it held. */
  lemma DestroyFrees<G>(r: Rooms<G>, g: G)
    requires Inv(r) && g in r.guards && g !in r.letGo
    ensures var r' := Destroyed(r, g);
            && Freed(r, r', HeldBy(r, g)) && g !in r'.guards
            && forall h :: h != g ==> HeldBy(r', h) == HeldBy(r, h)
  {
    ReleaseFrees(r, g);
    hide Inv, Released;
  }

  // ---------------------------------------------------------------- runs

  function Start<G>(poolSize: nat): Rooms<G> {
    Rooms(poolSize, AllIndices(poolSize), {}, map[], {})
  }

  lemma StartInv<G>(poolSize: nat)
    ensures Inv(Start<G>(poolSize))
  {
    var r := Start<G>(poolSize);
    assert r.available + r.busy == AllIndices(poolSize);
  }

  lemma {:induction false} RunInv<G>(r: Rooms<G>, es: seq<Event<G>>)
    requires Inv(r) && IsRun(r, es)
    ensures Inv(Run(r, es)) && Run(r, es).poolSize == r.poolSize
    decreases |es|
  {
    if es != [] {
      StepInv(r, es[0]);
      hide Inv, Step, Enabled;
      RunInv(Step(r, es[0]), es[1..]);
    }
  }

  /** In every reachable state, also while guards are being released, the indices are split into
      available and busy ones, and each busy index is held by exactly one guard that is not in the
      middle of `release`; an available one by none. */
  lemma BusyIndicesHeldOnce<G>(poolSize: nat, es: seq<Event<G>>, i: nat)
    requires IsRun(Start(poolSize), es)
    ensures var r := Run(Start(poolSize), es);
            && (i < poolSize <==> i in r.available || i in r.busy)
            && !(i in r.available && i in r.busy)
            && (i in r.busy <==> exists g | g in r.guards :: Holds(r, g, i))
            && (forall g, h :: Holds(r, g, i) && Holds(r, h, i) ==> g == h)
            && |r.available| + |r.busy| == poolSize
  {
    StartInv<G>(poolSize);
    RunInv(Start<G>(poolSize), es);
    var r := Run(Start<G>(poolSize), es);
    assert |r.available + r.busy| == |r.available| + |r.busy|;
  }

  lemma NoneBusy<G>(r: Rooms<G>)
    requires Partition(r) && HeldOnce(r) && forall g, i :: !Holds(r, g, i)
    ensures r.available == AllIndices(r.poolSize)
  {
    hide Holds;
    assert r.busy == {};
  }

  /** When no guard holds anything, nothing has leaked. */
  lemma NothingLeaks<G>(poolSize: nat, es: seq<Event<G>>)
    requires IsRun(Start(poolSize), es)
    requires forall g, i :: !Holds(Run(Start(poolSize), es), g, i)
    ensures Run(Start(poolSize), es).available == AllIndices(poolSize)
  {
    StartInv<G>(poolSize);
    RunInv(Start<G>(poolSize), es);
    hide IsRun, Run, Holds, HeldOnce, Partition;
    NoneBusy(Run(Start<G>(poolSize), es));
  }

  /** The fields alone do not tell who holds an index: between the two halves of a release another
      guard can have it, and then both are valid and refer to it. */
  lemma TwoValidGuards()
    ensures var es := [Acquire(1, 0), GiveBack(1), Acquire(2, 0)];
            && IsRun(Start<int>(1), es)
            && var r := Run(Start<int>(1), es);
               1 in r.guards && 2 in r.guards && r.guards[1] == r.guards[2] == Guard(true, true, 0)
               && Holds(r, 2, 0) && !Holds(r, 1, 0)
  {
    var es := [Acquire(1, 0), GiveBack(1), Acquire(2, 0)];
    var r0 := Start<int>(1);
    var r1 := Step(r0, es[0]);
    var r2 := Step(r1, es[1]);
    assert es[1..] == [GiveBack(1), Acquire(2, 0)] && es[1..][1..] == [Acquire(2, 0)] && es[1..][1..][1..] == [];
    assert IsRun(Step(r2, es[2]), []);
    assert IsRun(r2, [es[2]]);
    assert IsRun(r1, es[1..]);
  }
}
