/**
 The nesting check of src/debug/check.cpp (`checkNestingDepth`).

 The loop keeps one counter that never goes below zero.  It is proved to find the largest surplus
 of opening over closing brackets among ALL substrings of the command, and the place where that
 surplus is first reached.
 */
module NestingDepth {

  predicate Opens(c: char) { c == '{' || c == '(' || c == '[' }

  predicate Closes(c: char) { c == '}' || c == ')' || c == ']' }

  function Delta(c: char): int {
    if Opens(c) then 1 else if Closes(c) then -1 else 0
  }

  /** Openers minus closers in `s[i..j]`. */
  function Net(s: string, i: nat, j: nat): int
    requires i <= j <= |s|
    decreases j
  {
    if i == j then 0 else Net(s, i, j - 1) + Delta(s[j - 1])
  }

  /** How often a character occurs in `s[i..j]`. */
  ghost function Occurrences(s: string, i: nat, j: nat, c: char): nat
    requires i <= j <= |s|
  {
    multiset(s[i..j])[c]
  }

  lemma OccurrencesPush(s: string, i: nat, j: nat, c: char)
    requires i < j <= |s|
    ensures Occurrences(s, i, j, c) == Occurrences(s, i, j - 1, c) + if s[j - 1] == c then 1 else 0
  {
    assert s[i..j] == s[i..j - 1] + [s[j - 1]];
  }

  /** The three kinds of brackets count alike. */
  lemma {:induction false} NetIs(s: string, i: nat, j: nat)
    requires i <= j <= |s|
    ensures Net(s, i, j) ==
            Occurrences(s, i, j, '(') + Occurrences(s, i, j, '[') + Occurrences(s, i, j, '{')
            - Occurrences(s, i, j, ')') - Occurrences(s, i, j, ']') - Occurrences(s, i, j, '}')
    decreases j
  {
    if i < j {
      NetIs(s, i, j - 1);
      OccurrencesPush(s, i, j, '(');
      OccurrencesPush(s, i, j, '[');
      OccurrencesPush(s, i, j, '{');
      OccurrencesPush(s, i, j, ')');
      OccurrencesPush(s, i, j, ']');
      OccurrencesPush(s, i, j, '}');
      hide Occurrences;
    }
  }

  ghost predicate IsMaxNet(s: string, m: int) {
    && (exists i, j :: 0 <= i <= j <= |s| && Net(s, i, j) == m)
    && (forall i, j :: 0 <= i <= j <= |s| ==> Net(s, i, j) <= m)
  }

  ghost predicate ReachesAt(s: string, m: int, j: nat)
    requires j <= |s|
  {
    exists i :: 0 <= i <= j && Net(s, i, j) == m
  }

  /** `c` is the largest surplus of a substring that ends at `j`. */
  ghost predicate IsMaxNetEndingAt(s: string, j: nat, c: int)
    requires j <= |s|
  {
    && ReachesAt(s, c, j)
    && (forall i :: 0 <= i <= j ==> Net(s, i, j) <= c)
  }

  /** The character at `p` is the first one at which some substring reaches the surplus `m`. */
  ghost predicate FirstReaches(s: string, m: int, p: nat) {
    && p < |s|
    && ReachesAt(s, m, p + 1)
    && (forall i, j :: 0 <= i <= j <= p ==> Net(s, i, j) < m)
  }

  function Newlines(s: string, j: nat): nat
    requires j <= |s|
  {
    if j == 0 then 0 else Newlines(s, j - 1) + if s[j - 1] == '\n' then 1 else 0
  }

  lemma {:induction false} NewlinesAre(s: string, j: nat)
    requires j <= |s|
    ensures Newlines(s, j) == Occurrences(s, 0, j, '\n')
  {
    if j > 0 {
      NewlinesAre(s, j - 1);
      OccurrencesPush(s, 0, j, '\n');
    }
  }

  /** `column` counts the characters from the last line break (or the start) up to and with `s[p]`. */
  ghost predicate IsColumn(s: string, p: nat, column: nat)
    requires p < |s|
  {
    && 1 <= column <= p + 1
    && (forall k :: p + 1 - column <= k < p ==> s[k] != '\n')
    && (column == p + 1 || s[p - column] == '\n')
  }

  datatype Error = Error(depth: nat, limit: nat, line: nat, column: nat)

  /** The deepest nesting of `s` and where it is reported: line 1, column 0 if there is none. */
  ghost predicate IsDeepest(s: string, depth: nat, line: nat, column: nat) {
    && IsMaxNet(s, depth)
    && (depth == 0 ==> line == 1 && column == 0)
    && (depth > 0 ==> exists p ::
          FirstReaches(s, depth, p) && line == 1 + Newlines(s, p) && IsColumn(s, p, column))
  }

  lemma DeepestIsUnique(s: string, d0: nat, l0: nat, c0: nat, d1: nat, l1: nat, c1: nat)
    requires IsDeepest(s, d0, l0, c0) && IsDeepest(s, d1, l1, c1)
    ensures d0 == d1 && l0 == l1 && c0 == c1
  {
    var i0, j0 :| 0 <= i0 <= j0 <= |s| && Net(s, i0, j0) == d0;
    var i1, j1 :| 0 <= i1 <= j1 <= |s| && Net(s, i1, j1) == d1;
    assert d0 == d1;
    if d0 > 0 {
      var p0 :| FirstReaches(s, d0, p0) && l0 == 1 + Newlines(s, p0) && IsColumn(s, p0, c0);
      var p1 :| FirstReaches(s, d1, p1) && l1 == 1 + Newlines(s, p1) && IsColumn(s, p1, c1);
      FirstReachIsUnique(s, d0, p0, p1);
    }
  }

  lemma FirstReachIsUnique(s: string, m: int, p: nat, q: nat)
    requires FirstReaches(s, m, p) && FirstReaches(s, m, q)
    ensures p == q
  {
    var i, k :| 0 <= i <= p + 1 && Net(s, i, p + 1) == m && 0 <= k <= q + 1 && Net(s, k, q + 1) == m;
  }

  /** The clamped counter after one more character. */
  lemma CounterStep(s: string, j: nat, c: nat)
    requires j < |s| && IsMaxNetEndingAt(s, j, c)
    ensures IsMaxNetEndingAt(s, j + 1, if c + Delta(s[j]) < 0 then 0 else c + Delta(s[j]))
  {
    var i :| 0 <= i <= j && Net(s, i, j) == c;
    var end, next := j + 1, if c + Delta(s[j]) < 0 then 0 else c + Delta(s[j]);
    assert Net(s, i, end) == c + Delta(s[j]) && Net(s, end, end) == 0;
    forall k | 0 <= k <= end
      ensures Net(s, k, end) <= next
    {
      if k <= j {
        assert Net(s, k, end) == Net(s, k, j) + Delta(s[j]);
      }
    }
  }

  method CheckNestingDepth(command: string, maxNestingDepth: nat, errors: seq<Error>) returns (errors': seq<Error>)
    ensures exists depth: nat, line: nat, column: nat :: IsDeepest(command, depth, line, column) &&
              errors' == if depth > maxNestingDepth then errors + [Error(depth, maxNestingDepth, line, column)] else errors
    ensures errors' != errors <==>
            exists i, j :: 0 <= i <= j <= |command| && Net(command, i, j) > maxNestingDepth
  {
    var maxDepth, currentDepth: nat := 0, 0;
    var line, column: nat := 1, 0;
    var deepestLine, deepestColumn: nat := 1, 0;
    ghost var deepest: nat := 0;
    assert Net(command, 0, 0) == 0;
    for i := 0 to |command|
      invariant IsMaxNetEndingAt(command, i, currentDepth)
      invariant line == 1 + Newlines(command, i)
      invariant column <= i && (forall k :: i - column <= k < i ==> command[k] != '\n')
      invariant column == i || command[i - column - 1] == '\n'
      invariant forall k, j :: 0 <= k <= j <= i ==> Net(command, k, j) <= maxDepth
      invariant maxDepth == 0 ==> deepestLine == 1 && deepestColumn == 0
      invariant maxDepth > 0 ==> FirstReaches(command, maxDepth, deepest)
      invariant maxDepth > 0 ==> deepestLine == 1 + Newlines(command, deepest)
      invariant maxDepth > 0 ==> IsColumn(command, deepest, deepestColumn)
    {
      CounterStep(command, i, currentDepth);
      column := column + 1;
      if command[i] == '\n' {
        line := line + 1;
        column := 0;
        continue;
      }
      if Opens(command[i]) {
        currentDepth := currentDepth + 1;
        if currentDepth > maxDepth {
          maxDepth := currentDepth;
          deepestLine := line;
          deepestColumn := column;
          deepest := i;
        }
      } else if Closes(command[i]) {
        if currentDepth > 0 {
          currentDepth := currentDepth - 1;
        }
      }
    }
    MaxIsReached(command, maxDepth, deepest);
    errors' := errors;
    if maxDepth > maxNestingDepth {
      errors' := errors + [Error(maxDepth, maxNestingDepth, deepestLine, deepestColumn)];
    }
    assert IsDeepest(command, maxDepth, deepestLine, deepestColumn);
  }

  lemma MaxIsReached(s: string, m: nat, p: nat)
    requires m > 0 ==> FirstReaches(s, m, p)
    ensures exists i, j :: 0 <= i <= j <= |s| && Net(s, i, j) == m
  {
    if m == 0 {
      assert Net(s, 0, 0) == m;
    } else {
      var i :| 0 <= i <= p + 1 && Net(s, i, p + 1) == m;
    }
  }
}
