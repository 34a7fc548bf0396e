/**
 The edit distance of src/debug/suggestion.cpp (`calculateEditDistance`).

 What a distance ought to be is said without any recurrence: an edit script is a sequence of
 single-character insertions, deletions and replacements, and the distance of two strings is the
 length of a shortest script turning one into the other (`IsMinimumEdits`).  The two-row loop is
 proved to return exactly that, whether or not it also looks at transpositions.
 */
module EditDistance {

  // ---------------------------------------------------------------- edit scripts

  datatype Edit =
    | Insert(pos: nat, c: char)
    | Delete(pos: nat)
    | Replace(pos: nat, c: char)

  predicate Applicable(e: Edit, s: string) {
    match e
    case Insert(pos, _) => pos <= |s|
    case Delete(pos) => pos < |s|
    case Replace(pos, _) => pos < |s|
  }

  function Apply(e: Edit, s: string): string
    requires Applicable(e, s)
  {
    match e
    case Insert(pos, c) => s[..pos] + [c] + s[pos..]
    case Delete(pos) => s[..pos] + s[pos + 1..]
    case Replace(pos, c) => s[..pos] + [c] + s[pos + 1..]
  }

  /** Every edit of `script`, applied in turn to `a`, is in range, and the last result is `b`. */
  predicate Transforms(script: seq<Edit>, a: string, b: string) {
    if script == [] then a == b
    else Applicable(script[0], a) && Transforms(script[1..], Apply(script[0], a), b)
  }

  ghost predicate IsMinimumEdits(a: string, b: string, d: nat) {
    && (exists script :: |script| == d && Transforms(script, a, b))
    && (forall script :: Transforms(script, a, b) ==> d <= |script|)
  }

  lemma {:induction false} TransformsConcat(first: seq<Edit>, second: seq<Edit>, a: string, b: string, c: string)
    requires Transforms(first, a, b) && Transforms(second, b, c)
    ensures Transforms(first + second, a, c)
    decreases |first|
  {
    if first == [] {
      assert first + second == second;
    } else {
      assert (first + second)[1..] == first[1..] + second && (first + second)[0] == first[0];
      hide Apply, Applicable;
      TransformsConcat(first[1..], second, Apply(first[0], a), b, c);
    }
  }

  lemma ApplyBeforeTail(e: Edit, s: string, tail: string)
    requires Applicable(e, s)
    ensures Applicable(e, s + tail) && Apply(e, s + tail) == Apply(e, s) + tail
  {
    var long := s + tail;
    assert long[..e.pos] == s[..e.pos];
    match e {
      case Insert(pos, c) => assert long[pos..] == s[pos..] + tail;
      case Delete(pos) => assert long[pos + 1..] == s[pos + 1..] + tail;
      case Replace(pos, c) => assert long[pos + 1..] == s[pos + 1..] + tail;
    }
  }

  /** A script for the front of a string does the same when more text follows. */
  lemma {:induction false} TransformsBeforeTail(script: seq<Edit>, a: string, b: string, tail: string)
    requires Transforms(script, a, b)
    ensures Transforms(script, a + tail, b + tail)
    decreases |script|
  {
    if script != [] {
      ApplyBeforeTail(script[0], a, tail);
      TransformsBeforeTail(script[1..], Apply(script[0], a), b, tail);
    }
  }

  // ---------------------------------------------------------------- the recurrence

  function Min(x: nat, y: nat): (m: nat)
    ensures m <= x && m <= y && (m == x || m == y)
  {
    if x <= y then x else y
  }

  function Init(s: string): string
    requires s != []
  {
    s[..|s| - 1]
  }

  function Last(s: string): char
    requires s != []
  {
    s[|s| - 1]
  }

  function Cost(x: char, y: char): (cost: nat)
    ensures cost == 0 <==> x == y
    ensures cost <= 1
  {
    if x == y then 0 else 1
  }

  function Distance(a: string, b: string): nat
    decreases |a| + |b|
  {
    if a == [] then |b|
    else if b == [] then |a|
    else Min(Min(Distance(Init(a), b) + 1, Distance(a, Init(b)) + 1),
             Distance(Init(a), Init(b)) + Cost(Last(a), Last(b)))
  }

  lemma {:induction false} DistanceToSelf(a: string)
    ensures Distance(a, a) == 0
    decreases |a|
  {
    if a != [] {
      DistanceToSelf(Init(a));
    }
  }

  lemma {:induction false} DistanceSymmetric(a: string, b: string)
    ensures Distance(a, b) == Distance(b, a)
    decreases |a| + |b|
  {
    if a != [] && b != [] {
      DistanceSymmetric(Init(a), b);
      DistanceSymmetric(a, Init(b));
      DistanceSymmetric(Init(a), Init(b));
    }
  }

  lemma {:induction false} DistanceBounds(a: string, b: string)
    ensures |a| <= |b| + Distance(a, b) && |b| <= |a| + Distance(a, b)
    ensures Distance(a, b) <= |a| || Distance(a, b) <= |b|
    decreases |a| + |b|
  {
    if a != [] && b != [] {
      DistanceBounds(Init(a), b);
      DistanceBounds(a, Init(b));
      DistanceBounds(Init(a), Init(b));
    }
  }

  lemma {:induction false} DistanceTriangle(a: string, b: string, c: string)
    ensures Distance(a, c) <= Distance(a, b) + Distance(b, c)
    decreases |a| + |b| + |c|
  {
    DistanceBounds(a, b);
    DistanceBounds(b, c);
    DistanceBounds(a, c);
    if a != [] && b != [] && c != [] {
      var a', b', c' := Init(a), Init(b), Init(c);
      if Distance(a, b) == Distance(a', b) + 1 {
        DistanceTriangle(a', b, c);
      } else if Distance(b, c) == Distance(b, c') + 1 {
        DistanceTriangle(a, b, c');
      } else if Distance(a, b) == Distance(a, b') + 1 {
        if Distance(b, c) == Distance(b', c) + 1 {
          DistanceTriangle(a, b', c);
        } else {
          DistanceTriangle(a, b', c');
        }
      } else if Distance(b, c) == Distance(b', c) + 1 {
        DistanceTriangle(a', b', c);
      } else {
        DistanceTriangle(a', b', c');
      }
    }
  }

  lemma {:induction false} DistanceBeforeTail(a: string, b: string, tail: string)
    ensures Distance(a + tail, b + tail) <= Distance(a, b)
    decreases |tail|
  {
    if tail == [] {
      assert a + tail == a && b + tail == b;
    } else {
      assert Init(a + tail) == a + Init(tail) && Init(b + tail) == b + Init(tail);
      DistanceBeforeTail(a, b, Init(tail));
    }
  }

  lemma LastCharacterApart(front: string, c: char, d: char)
    ensures Distance(front + [c], front + [d]) <= 1
    ensures Distance(front + [c], front) <= 1
  {
    DistanceToSelf(front);
    var x, y := front + [c], front + [d];
    assert Init(x) == front && Init(y) == front;
    if front != [] {
      assert Distance(x, front) <= Distance(Init(x), front) + 1;
    }
  }

  /** A single edit moves a string by at most one. */
  lemma OneEditIsOneStep(e: Edit, s: string)
    requires Applicable(e, s)
    ensures Distance(s, Apply(e, s)) <= 1
  {
    hide Distance;
    var front := s[..e.pos];
    assert e.pos < |s| ==> front + [s[e.pos]] + s[e.pos + 1..] == s;
    match e {
      case Insert(pos, c) =>
        LastCharacterApart(front, c, c);
        DistanceSymmetric(front, front + [c]);
        DistanceBeforeTail(front, front + [c], s[pos..]);
        assert front + s[pos..] == s;
      case Delete(pos) =>
        LastCharacterApart(front, s[pos], s[pos]);
        DistanceBeforeTail(front + [s[pos]], front, s[pos + 1..]);
      case Replace(pos, c) =>
        LastCharacterApart(front, s[pos], c);
        DistanceBeforeTail(front + [s[pos]], front + [c], s[pos + 1..]);
    }
  }

  // ---------------------------------------------------------------- optimality

  lemma {:induction false} NoShorterScript(script: seq<Edit>, a: string, b: string)
    requires Transforms(script, a, b)
    ensures Distance(a, b) <= |script|
    decreases |script|
  {
    if script == [] {
      DistanceToSelf(a);
    } else {
      var next := Apply(script[0], a);
      NoShorterScript(script[1..], next, b);
      OneEditIsOneStep(script[0], a);
      DistanceTriangle(a, next, b);
    }
  }

  lemma ThenInsertLast(script: seq<Edit>, a: string, b: string) returns (longer: seq<Edit>)
    requires b != [] && Transforms(script, a, Init(b))
    ensures |longer| == |script| + 1 && Transforms(longer, a, b)
  {
    var e := Insert(|b| - 1, Last(b));
    assert Init(b)[..|b| - 1] == Init(b) && Init(b)[|b| - 1..] == [];
    assert Apply(e, Init(b)) == b;
    assert Transforms([e], Init(b), b);
    TransformsConcat(script, [e], a, Init(b), b);
    longer := script + [e];
  }

  lemma FirstDeleteLast(script: seq<Edit>, a: string, b: string) returns (longer: seq<Edit>)
    requires a != [] && Transforms(script, Init(a), b)
    ensures |longer| == |script| + 1 && Transforms(longer, a, b)
  {
    var e := Delete(|a| - 1);
    assert Apply(e, a) == Init(a);
    TransformsFirst(e, script, a, b);
    longer := [e] + script;
  }

  lemma ThenMatchLast(script: seq<Edit>, a: string, b: string) returns (longer: seq<Edit>)
    requires a != [] && b != [] && Transforms(script, Init(a), Init(b))
    ensures |longer| == |script| + Cost(Last(a), Last(b)) && Transforms(longer, a, b)
  {
    hide Transforms;
    TransformsBeforeTail(script, Init(a), Init(b), [Last(b)]);
    assert Init(b) + [Last(b)] == b;
    if Last(a) == Last(b) {
      assert Init(a) + [Last(b)] == a;
      longer := script;
    } else {
      var e := Replace(|a| - 1, Last(b));
      assert Apply(e, a) == Init(a) + [Last(b)];
      TransformsFirst(e, script, a, b);
      longer := [e] + script;
    }
  }

  lemma TransformsFirst(e: Edit, script: seq<Edit>, a: string, b: string)
    requires Applicable(e, a) && Transforms(script, Apply(e, a), b)
    ensures Transforms([e] + script, a, b)
  {
    assert ([e] + script)[1..] == script;
  }

  lemma {:induction false} ShortestScript(a: string, b: string) returns (script: seq<Edit>)
    ensures |script| == Distance(a, b) && Transforms(script, a, b)
    decreases |a| + |b|
  {
    if a == [] && b == [] {
      script := [];
    } else if b != [] && (a == [] || Distance(a, b) == Distance(a, Init(b)) + 1) {
      var rest := ShortestScript(a, Init(b));
      script := ThenInsertLast(rest, a, b);
    } else if b == [] || Distance(a, b) == Distance(Init(a), b) + 1 {
      var rest := ShortestScript(Init(a), b);
      script := FirstDeleteLast(rest, a, b);
    } else {
      var rest := ShortestScript(Init(a), Init(b));
      script := ThenMatchLast(rest, a, b);
    }
  }

  /** The recurrence computes the length of a shortest script, and nothing else is that length. */
  lemma DistanceIsMinimum(a: string, b: string, d: nat)
    ensures IsMinimumEdits(a, b, d) <==> d == Distance(a, b)
  {
    var script := ShortestScript(a, b);
    forall other | Transforms(other, a, b)
      ensures Distance(a, b) <= |other|
    {
      NoShorterScript(other, a, b);
    }
    if IsMinimumEdits(a, b, d) {
      var shortest :| |shortest| == d && Transforms(shortest, a, b);
      assert Distance(a, b) <= d <= |script|;
    }
  }

  /** The metric laws. */
  lemma DistanceIsMetric(a: string, b: string, c: string)
    ensures Distance(a, b) == 0 <==> a == b
    ensures Distance(a, b) == Distance(b, a)
    ensures Distance(a, c) <= Distance(a, b) + Distance(b, c)
    ensures |a| - |b| <= Distance(a, b) && |b| - |a| <= Distance(a, b)
    ensures Distance(a, b) <= |a| || Distance(a, b) <= |b|
  {
    DistanceToSelf(a);
    var script := ShortestScript(a, b);
    DistanceSymmetric(a, b);
    DistanceTriangle(a, b, c);
    DistanceBounds(a, b);
  }

  // ---------------------------------------------------------------- the two-row loop

  /** The table entry in row `i`, column `j`. */
  function Cell(s1: string, s2: string, i: nat, j: nat): nat
    requires i <= |s1| && j <= |s2|
  {
    Distance(s1[..i], s2[..j])
  }

  lemma CellEdges(s1: string, s2: string, i: nat, j: nat)
    requires i <= |s1| && j <= |s2|
    ensures Cell(s1, s2, 0, j) == j && Cell(s1, s2, i, 0) == i
    ensures Cell(s1, s2, |s1|, |s2|) == Distance(s1, s2)
  {
    assert s1[..0] == [] && s2[..0] == [] && s1[..|s1|] == s1 && s2[..|s2|] == s2;
  }

  lemma CellStep(s1: string, s2: string, i: nat, j: nat)
    requires 0 < i <= |s1| && 0 < j <= |s2|
    ensures Cell(s1, s2, i, j) == Min(Min(Cell(s1, s2, i - 1, j) + 1, Cell(s1, s2, i, j - 1) + 1),
                                      Cell(s1, s2, i - 1, j - 1) + Cost(s1[i - 1], s2[j - 1]))
  {
    assert Init(s1[..i]) == s1[..i - 1] && Init(s2[..j]) == s2[..j - 1];
  }

  /** When two neighbouring characters are swapped, the code's transposition candidate (taken from
      the previous row, column `j - 2`) is never below its insertion candidate. */
  lemma TranspositionDominated(s1: string, s2: string, i: nat, j: nat)
    requires 1 < i <= |s1| && 1 < j <= |s2|
    requires s1[i - 1] == s2[j - 2] && s1[i - 2] == s2[j - 1]
    ensures Cell(s1, s2, i, j - 1) + 1 <= Cell(s1, s2, i - 1, j - 2) + 1
    ensures Cell(s1, s2, i, j) <= Cell(s1, s2, i - 1, j - 2) + 1
  {
    CellStep(s1, s2, i, j - 1);
    CellStep(s1, s2, i, j);
  }

  method CalculateEditDistance(s1: string, s2: string, useTransposition: bool) returns (d: nat)
    ensures d == Distance(s1, s2)
    ensures IsMinimumEdits(s1, s2, d)
  {
    hide *;
    var len1, len2 := |s1|, |s2|;
    DistanceIsMinimum(s1, s2, Distance(s1, s2));
    CellEdges(s1, s2, len1, len2);
    if len1 == 0 {
      return len2;
    }
    if len2 == 0 {
      return len1;
    }
    var prevRow, currRow := new nat[len2 + 1], new nat[len2 + 1];
    for j := 0 to len2 + 1
      invariant forall k :: 0 <= k < j ==> prevRow[k] == Cell(s1, s2, 0, k)
    {
      CellEdges(s1, s2, 0, j);
      prevRow[j] := j;
    }
    for i := 1 to len1 + 1
      invariant fresh(prevRow) && fresh(currRow) && prevRow != currRow
      invariant prevRow.Length == currRow.Length == len2 + 1
      invariant forall k :: 0 <= k <= len2 ==> prevRow[k] == Cell(s1, s2, i - 1, k)
    {
      CellEdges(s1, s2, i, 0);
      currRow[0] := i;
      for j := 1 to len2 + 1
        invariant forall k :: 0 <= k <= len2 ==> prevRow[k] == Cell(s1, s2, i - 1, k)
        invariant forall k :: 0 <= k < j ==> currRow[k] == Cell(s1, s2, i, k)
      {
        var cost := if s1[i - 1] == s2[j - 1] then 0 else 1;
        CellStep(s1, s2, i, j);
        currRow[j] := Min(Min(prevRow[j] + 1, currRow[j - 1] + 1), prevRow[j - 1] + cost);
        if useTransposition && i > 1 && j > 1 && s1[i - 1] == s2[j - 2] && s1[i - 2] == s2[j - 1] {
          TranspositionDominated(s1, s2, i, j);
          currRow[j] := Min(currRow[j], prevRow[j - 2] + 1);
        }
      }
      prevRow, currRow := currRow, prevRow;
    }
    d := prevRow[len2];
  }

  // ---------------------------------------------------------------- transpositions

  /** No single edit changes two places of a string and keeps its length. */
  lemma TwoPlacesTakeTwoEdits(script: seq<Edit>, a: string, b: string, i: nat, j: nat)
    requires Transforms(script, a, b) && |a| == |b|
    requires i < j < |a| && a[i] != b[i] && a[j] != b[j]
    ensures 2 <= |script|
  {
    if |script| == 1 {
      assert false;
    }
  }

  /** Swapping two different neighbours always costs two edits, wherever it happens. */
  lemma AdjacentSwapCostsTwo(front: string, x: char, y: char, tail: string)
    requires x != y
    ensures Distance(front + [x, y] + tail, front + [y, x] + tail) == 2
  {
    var a, b := front + [x, y] + tail, front + [y, x] + tail;
    var i := |front|;
    var e0, e1 := Replace(i, y), Replace(i + 1, x);
    var middle := front + [y, y] + tail;
    assert Apply(e0, a) == middle && Apply(e1, middle) == b;
    assert Transforms([e1], middle, b);
    assert [e0, e1][1..] == [e1];
    assert Transforms([e0, e1], a, b);
    forall script | Transforms(script, a, b)
      ensures 2 <= |script|
    {
      TwoPlacesTakeTwoEdits(script, a, b, i, i + 1);
    }
    assert IsMinimumEdits(a, b, 2);
    DistanceIsMinimum(a, b, 2);
  }
}
