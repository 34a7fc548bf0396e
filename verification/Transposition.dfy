/**
 The distance that the transposition option of src/debug/suggestion.cpp promises, in which a swap of
 two neighbours is one edit (optimal string alignment), against the distance that the code computes
 with and without the option.
 */
module Transposition {
  import opened EditDistance

  /** The table that would take the swap candidate from two rows above. */
  function AlignmentDistance(a: string, b: string): nat
    decreases |a| + |b|
  {
    if a == [] then |b|
    else if b == [] then |a|
    else
      var plain := Min(Min(AlignmentDistance(Init(a), b) + 1, AlignmentDistance(a, Init(b)) + 1),
                       AlignmentDistance(Init(a), Init(b)) + Cost(Last(a), Last(b)));
      if SwapAtEnd(a, b) then Min(plain, AlignmentDistance(Init(Init(a)), Init(Init(b))) + 1) else plain
  }

  predicate SwapAtEnd(a: string, b: string) {
    && |a| >= 2 && |b| >= 2
    && a[|a| - 1] == b[|b| - 2] && a[|a| - 2] == b[|b| - 1]
  }

  /** Somewhere in `a` stand two different neighbours that stand swapped somewhere in `b`. */
  predicate HasSwap(a: string, b: string) {
    exists i, j :: 2 <= i <= |a| && 2 <= j <= |b| && a[i - 2] != a[i - 1] && SwapAtEnd(a[..i], b[..j])
  }

  /** Honouring transpositions never costs more; without a swapped pair it costs the same. */
  lemma {:induction false} AlignmentVersusDistance(a: string, b: string)
    ensures AlignmentDistance(a, b) <= Distance(a, b)
    ensures !HasSwap(a, b) ==> AlignmentDistance(a, b) == Distance(a, b)
    decreases |a| + |b|
  {
    if a != [] && b != [] {
      hide AlignmentDistance, Distance, HasSwap, SwapAtEnd;
      var a', b' := Init(a), Init(b);
      AlignmentVersusDistance(a', b);
      AlignmentVersusDistance(a, b');
      AlignmentVersusDistance(a', b');
      AlignmentStep(a, b);
      DistanceStep(a, b);
      if !HasSwap(a, b) {
        NoSwapInPrefixes(a, b);
        if SwapAtEnd(a, b) {
          SwapOfEquals(a, b);
        }
      }
    }
  }

  lemma SwapOfEquals(a: string, b: string)
    requires SwapAtEnd(a, b) && !HasSwap(a, b)
    ensures Last(a) == Last(b)
    ensures AlignmentDistance(Init(a), Init(b)) <= AlignmentDistance(Init(Init(a)), Init(Init(b)))
  {
    assert a[..|a|] == a && b[..|b|] == b;
    assert a[|a| - 2] == a[|a| - 1];
  }

  lemma NoSwapInPrefixes(a: string, b: string)
    requires a != [] && b != [] && !HasSwap(a, b)
    ensures !HasSwap(Init(a), b) && !HasSwap(a, Init(b)) && !HasSwap(Init(a), Init(b))
  {
    forall i, j | 2 <= i <= |a| && 2 <= j <= |b| && a[i - 2] != a[i - 1]
      ensures i < |a| ==> !SwapAtEnd(Init(a)[..i], b[..j])
      ensures j < |b| ==> !SwapAtEnd(a[..i], Init(b)[..j])
      ensures i < |a| && j < |b| ==> !SwapAtEnd(Init(a)[..i], Init(b)[..j])
    {
      assert !SwapAtEnd(a[..i], b[..j]);
      assert i < |a| ==> Init(a)[..i] == a[..i];
      assert j < |b| ==> Init(b)[..j] == b[..j];
    }
  }

  lemma {:induction false} AlignmentZero(a: string, b: string)
    ensures AlignmentDistance(a, b) == 0 ==> a == b
    decreases |a| + |b|
  {
    if a != [] && b != [] {
      AlignmentZero(Init(a), Init(b));
      assert a == Init(a) + [Last(a)] && b == Init(b) + [Last(b)];
    }
  }

  // ---------------------------------------------------------------- when honouring swaps pays

  lemma AlignmentStep(a: string, b: string)
    requires a != [] && b != []
    ensures AlignmentDistance(a, b) <= AlignmentDistance(Init(a), b) + 1
    ensures AlignmentDistance(a, b) <= AlignmentDistance(a, Init(b)) + 1
    ensures AlignmentDistance(a, b) <= AlignmentDistance(Init(a), Init(b)) + Cost(Last(a), Last(b))
    ensures || AlignmentDistance(a, b) == AlignmentDistance(Init(a), b) + 1
            || AlignmentDistance(a, b) == AlignmentDistance(a, Init(b)) + 1
            || AlignmentDistance(a, b) == AlignmentDistance(Init(a), Init(b)) + Cost(Last(a), Last(b))
            || (SwapAtEnd(a, b) && AlignmentDistance(a, b) == AlignmentDistance(Init(Init(a)), Init(Init(b))) + 1)
  {
  }

  lemma DistanceStep(a: string, b: string)
    requires a != [] && b != []
    ensures Distance(a, b) <= Distance(Init(a), b) + 1
    ensures Distance(a, b) <= Distance(a, Init(b)) + 1
    ensures Distance(a, b) <= Distance(Init(a), Init(b)) + Cost(Last(a), Last(b))
    ensures || Distance(a, b) == Distance(Init(a), b) + 1
            || Distance(a, b) == Distance(a, Init(b)) + 1
            || Distance(a, b) == Distance(Init(a), Init(b)) + Cost(Last(a), Last(b))
  {
  }

  /** A script for the front followed by plain edits of what comes after it. */
  lemma {:induction false} AlignmentConcat(p: string, q: string, s: string, t: string)
    ensures AlignmentDistance(p + s, q + t) <= AlignmentDistance(p, q) + Distance(s, t)
    decreases |s| + |t|
  {
    hide AlignmentDistance, Distance;
    if s == [] && t == [] {
      assert p + s == p && q + t == q;
    } else if s == [] {
      AlignmentConcat(p, q, s, Init(t));
      AlignmentGrows(p + s, q + Init(t), Last(t));
      assert q + Init(t) + [Last(t)] == q + t;
      DistanceOfEmpty(t);
      DistanceOfEmpty(Init(t));
    } else if t == [] {
      AlignmentConcat(p, q, Init(s), t);
      AlignmentGrows(p + Init(s), q + t, Last(s));
      assert p + Init(s) + [Last(s)] == p + s;
      DistanceOfEmpty(s);
      DistanceOfEmpty(Init(s));
    } else {
      AlignmentConcat(p, q, Init(s), t);
      AlignmentConcat(p, q, s, Init(t));
      AlignmentConcat(p, q, Init(s), Init(t));
      ConcatStep(p, q, s, t);
    }
  }

  lemma ConcatStep(p: string, q: string, s: string, t: string)
    requires s != [] && t != []
    requires AlignmentDistance(p + Init(s), q + t) <= AlignmentDistance(p, q) + Distance(Init(s), t)
    requires AlignmentDistance(p + s, q + Init(t)) <= AlignmentDistance(p, q) + Distance(s, Init(t))
    requires AlignmentDistance(p + Init(s), q + Init(t)) <= AlignmentDistance(p, q) + Distance(Init(s), Init(t))
    ensures AlignmentDistance(p + s, q + t) <= AlignmentDistance(p, q) + Distance(s, t)
  {
    hide *;
    InitOfConcat(p, s);
    InitOfConcat(q, t);
    AlignmentStep(p + s, q + t);
    DistanceStep(s, t);
  }

  lemma InitOfConcat(p: string, s: string)
    requires s != []
    ensures p + s != [] && Init(p + s) == p + Init(s) && Last(p + s) == Last(s)
  {
  }

  lemma DistanceOfEmpty(s: string)
    ensures Distance(s, []) == |s| && Distance([], s) == |s|
  {
  }

  lemma AlignmentGrows(a: string, b: string, c: char)
    ensures AlignmentDistance(a, b + [c]) <= AlignmentDistance(a, b) + 1
    ensures AlignmentDistance(a + [c], b) <= AlignmentDistance(a, b) + 1
  {
    assert Init(b + [c]) == b && Init(a + [c]) == a;
  }

  lemma DistanceGrows(a: string, b: string, c: char)
    ensures Distance(a, b + [c]) <= Distance(a, b) + 1
    ensures Distance(a + [c], b) <= Distance(a, b) + 1
  {
    assert Init(b + [c]) == b && Init(a + [c]) == a;
  }

  /** Two neighbours of `a` at `i` stand swapped in `b` at `j`. */
  predicate SwapAt(a: string, b: string, i: nat, j: nat) {
    i + 2 <= |a| && j + 2 <= |b| && a[i] == b[j + 1] && a[i + 1] == b[j]
  }

  /** What it costs to swap there, with plain edits after it. */
  function CostWithSwap(a: string, b: string, i: nat, j: nat): nat
    requires SwapAt(a, b, i, j)
  {
    AlignmentDistance(a[..i], b[..j]) + 1 + Distance(a[i + 2..], b[j + 2..])
  }

  lemma SwapStep(a: string, b: string)
    requires SwapAtEnd(a, b)
    ensures AlignmentDistance(a, b) <= AlignmentDistance(Init(Init(a)), Init(Init(b))) + 1
  {
  }

  lemma SwapIsCandidate(a: string, b: string, i: nat, j: nat)
    requires SwapAt(a, b, i, j)
    ensures AlignmentDistance(a, b) <= CostWithSwap(a, b, i, j)
  {
    hide AlignmentDistance, Distance;
    var p, q := a[..i + 2], b[..j + 2];
    SwapStep(p, q);
    assert Init(Init(p)) == a[..i] && Init(Init(q)) == b[..j];
    AlignmentConcat(p, q, a[i + 2..], b[j + 2..]);
    assert p + a[i + 2..] == a && q + b[j + 2..] == b;
  }

  /** The last swap of a cheapest alignment that is cheaper than plain edits. */
  lemma {:induction false} LastSwap(a: string, b: string) returns (i: nat, j: nat)
    requires AlignmentDistance(a, b) < Distance(a, b)
    ensures SwapAt(a, b, i, j) && CostWithSwap(a, b, i, j) <= AlignmentDistance(a, b)
    decreases |a| + |b|
  {
    assert a != [] && b != [];
    hide *;
    AlignmentStep(a, b);
    DistanceStep(a, b);
    if AlignmentDistance(a, b) == AlignmentDistance(Init(a), b) + 1 {
      i, j := LastSwap(Init(a), b);
      AfterDelete(a, b, i, j);
    } else if AlignmentDistance(a, b) == AlignmentDistance(a, Init(b)) + 1 {
      i, j := LastSwap(a, Init(b));
      AfterInsert(a, b, i, j);
    } else if AlignmentDistance(a, b) == AlignmentDistance(Init(a), Init(b)) + Cost(Last(a), Last(b)) {
      i, j := LastSwap(Init(a), Init(b));
      AfterReplace(a, b, i, j);
    } else {
      i, j := SwapLast(a, b);
    }
  }

  lemma SwapLast(a: string, b: string) returns (i: nat, j: nat)
    requires SwapAtEnd(a, b)
    ensures a != [] && b != [] && Init(a) != [] && Init(b) != []
    ensures SwapAt(a, b, i, j) && CostWithSwap(a, b, i, j) == AlignmentDistance(Init(Init(a)), Init(Init(b))) + 1
  {
    i, j := |a| - 2, |b| - 2;
    assert Init(Init(a)) == a[..i] && Init(Init(b)) == b[..j];
    assert a[i + 2..] == [] && b[j + 2..] == [];
  }

  lemma AfterDelete(a: string, b: string, i: nat, j: nat)
    requires a != [] && SwapAt(Init(a), b, i, j)
    ensures SwapAt(a, b, i, j) && CostWithSwap(a, b, i, j) <= CostWithSwap(Init(a), b, i, j) + 1
  {
    assert a[..i] == Init(a)[..i] && a[i + 2..] == Init(a)[i + 2..] + [Last(a)];
    DistanceGrows(Init(a)[i + 2..], b[j + 2..], Last(a));
  }

  lemma AfterInsert(a: string, b: string, i: nat, j: nat)
    requires b != [] && SwapAt(a, Init(b), i, j)
    ensures SwapAt(a, b, i, j) && CostWithSwap(a, b, i, j) <= CostWithSwap(a, Init(b), i, j) + 1
  {
    assert b[..j] == Init(b)[..j] && b[j + 2..] == Init(b)[j + 2..] + [Last(b)];
    DistanceGrows(a[i + 2..], Init(b)[j + 2..], Last(b));
  }

  lemma AfterReplace(a: string, b: string, i: nat, j: nat)
    requires a != [] && b != [] && SwapAt(Init(a), Init(b), i, j)
    ensures SwapAt(a, b, i, j)
    ensures CostWithSwap(a, b, i, j) <= CostWithSwap(Init(a), Init(b), i, j) + Cost(Last(a), Last(b))
  {
    hide AlignmentDistance, Distance;
    assert a[..i] == Init(a)[..i] && b[..j] == Init(b)[..j];
    DistanceStep(a[i + 2..], b[j + 2..]);
    assert Init(a[i + 2..]) == Init(a)[i + 2..] && Init(b[j + 2..]) == Init(b)[j + 2..];
  }

  /** Honouring transpositions makes a difference if and only if some swap, with whatever swaps come
      before it and plain edits after it, is cheaper than plain edits alone. */
  lemma SwapsPayIff(a: string, b: string)
    ensures AlignmentDistance(a, b) < Distance(a, b)
            <==> exists i, j :: SwapAt(a, b, i, j) && CostWithSwap(a, b, i, j) < Distance(a, b)
  {
    if AlignmentDistance(a, b) < Distance(a, b) {
      var i, j := LastSwap(a, b);
      assert CostWithSwap(a, b, i, j) < Distance(a, b);
    }
    forall i: nat, j: nat | SwapAt(a, b, i, j)
      ensures AlignmentDistance(a, b) <= CostWithSwap(a, b, i, j)
    {
      SwapIsCandidate(a, b, i, j);
    }
  }

  /** Two different neighbours swapped, anywhere in any string: one edit by the promise, two in the code. */
  lemma SwapPromisedOneCostsTwo(front: string, x: char, y: char, tail: string)
    requires x != y
    ensures var a, b := front + [x, y] + tail, front + [y, x] + tail;
            AlignmentDistance(a, b) == 1 && Distance(a, b) == 2
  {
    var a, b := front + [x, y] + tail, front + [y, x] + tail;
    AdjacentSwapCostsTwo(front, x, y, tail);
    var i := |front|;
    assert a[i] == x && a[i + 1] == y && b[i] == y && b[i + 1] == x;
    assert a[..i] == front == b[..i] && a[i + 2..] == tail == b[i + 2..];
    DistanceToSelf(front);
    DistanceToSelf(tail);
    AlignmentVersusDistance(front, front);
    SwapIsCandidate(a, b, i, i);
    AlignmentZero(a, b);
  }
}
