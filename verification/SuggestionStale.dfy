/**
 Changes behind the back of the cache of src/debug/suggestion.cpp: `setDataset`, `updateDataset`,
 `setWeight`, `addFilter`, `clearFilters` and `setMaxSuggestions` keep what is cached.
 */
module SuggestionStale {
  import opened SuggestionCache
  import opened Common

  function Shown(items: nat, maxSuggestions: int): nat {
    if 0 <= maxSuggestions < items then maxSuggestions else items
  }

  /** `setMaxSuggestions` does not clear the cache.  The next hit is right exactly when the old and the
      new limit show equally many of the ranked items; otherwise it is too long or too short. */
  lemma StaleAfterNewLimit(rank: Ranking, s: Engine, n: int, input: string, m: MatchType)
    requires Shape(s) && Sound(rank, s) && input != [] && Hits(s, input, m)
    ensures var s' := Step(rank, s, SetSettings(s.settings.(maxSuggestions := n)));
            var items := rank(s.index, s.caseSensitive, s.settings.tuning, input, m);
            Answer(rank, s', input, m) == Some(Fresh(rank, s'.settings, s'.caseSensitive, input, m))
            <==> Shown(|items|, s.settings.maxSuggestions) == Shown(|items|, n)
  {
    var items := rank(s.index, s.caseSensitive, s.settings.tuning, input, m);
    assert |Limited(items, n)| == Shown(|items|, n);
    assert |Limited(items, s.settings.maxSuggestions)| == Shown(|items|, s.settings.maxSuggestions);
    hide IndexOf;
  }

  /** Two items match, the limit goes from two to one, the second of two equal calls still answers two. */
  lemma StaleHitExample()
    ensures var rank: Ranking := (index, cs, tuning, input, m) => ["park", "parse"];
            var s0 := NewEngine(Settings(["park", "parse"], Tuning(map[], []), 2), true, 10);
            var call := Suggest("par", Prefix, 0, {});
            var es := [call, SetSettings(Settings(["park", "parse"], Tuning(map[], []), 1))];
            && IsRun(rank, s0, es)
            && Answer(rank, Run(rank, s0, es), "par", Prefix) == Some(["park", "parse"])
            && Fresh(rank, Run(rank, s0, es).settings, true, "par", Prefix) == ["park"]
  {
    var rank: Ranking := (index, cs, tuning, input, m) => ["park", "parse"];
    var s0 := NewEngine(Settings(["park", "parse"], Tuning(map[], []), 2), true, 10);
    var call := Suggest("par", Prefix, 0, {});
    var es := [call, SetSettings(Settings(["park", "parse"], Tuning(map[], []), 1))];
    hide IndexOf;
    var s1 := Step(rank, s0, es[0]);
    assert es[1..] == [es[1]] && es[1..][1..] == [];
    assert IsRun(rank, Step(rank, s1, es[1]), []);
    assert IsRun(rank, s1, es[1..]);
    assert Run(rank, s0, es) == Run(rank, s1, es[1..]) == Step(rank, s1, es[1]);
  }

  // ---------------------------------------------------------------- which changes matter

  /** A ranking that tells the settings apart. */
  lemma Telling(s1: Settings, s2: Settings, cs: bool) returns (rank: Ranking)
    requires !SameAnswers(s1, s2, cs)
    ensures forall input, m :: Fresh(rank, s1, cs, input, m) != Fresh(rank, s2, cs, input, m)
  {
    hide IndexOf;
    var n1, n2 := s1.maxSuggestions, s2.maxSuggestions;
    if n1 == n2 || (n1 < 0 && n2 < 0) {
      var index, tuning := IndexOf(s2.dataset, cs), s2.tuning;
      rank := (i, c, t, input, m) => if i == index && t == tuning then ["new"] else [];
    } else {
      var size := (if n1 > 0 then n1 else 0) + (if n2 > 0 then n2 else 0) + 1;
      var items: seq<string> := seq(size, _ => "item");
      rank := (i, c, t, input, m) => items;
      assert |Limited(items, n1)| == Shown(size, n1) != Shown(size, n2) == |Limited(items, n2)|;
    }
  }

  /** A first call, a change of settings, and the state before the second call. */
  function Changed(rank: Ranking, s1: Settings, s2: Settings, cs: bool, limit: nat, input: string, m: MatchType): Engine {
    Run(rank, NewEngine(s1, cs, limit), [Suggest(input, m, 0, {}), SetSettings(s2)])
  }

  /** The second of two equal calls still answers by the settings of the first. */
  lemma SecondAnswerIsOld(rank: Ranking, s1: Settings, s2: Settings, cs: bool, limit: nat, input: string, m: MatchType)
    requires input != []
    ensures IsRun(rank, NewEngine(s1, cs, limit), [Suggest(input, m, 0, {}), SetSettings(s2)])
    ensures Answer(rank, Changed(rank, s1, s2, cs, limit, input, m), input, m) == Some(Fresh(rank, s1, cs, input, m))
    ensures Changed(rank, s1, s2, cs, limit, input, m).settings == s2
  {
    hide IndexOf, Limited, MakeCacheKey;
    var s0 := NewEngine(s1, cs, limit);
    var call, change := Suggest(input, m, 0, {}), SetSettings(s2);
    var es := [call, change];
    var s := Step(rank, s0, call);
    assert es[1..] == [change] && [change][1..] == [];
    assert MakesRoom(s0.memo, limit, {});
    assert IsRun(rank, Step(rank, s, change), []);
    assert IsRun(rank, s, [change]);
    assert Run(rank, s0, es) == Run(rank, s, [change]) == Run(rank, Step(rank, s, change), []);
  }

  /** A change of settings after a call leaves the next equal call right, whatever the matching and the
      scoring, if and only if the settings give the same answers. */
  lemma ChangeIsHarmlessIff(s1: Settings, s2: Settings, cs: bool, limit: nat, input: string, m: MatchType)
    requires input != []
    ensures SameAnswers(s1, s2, cs) <==>
            forall rank: Ranking ::
              Answer(rank, Changed(rank, s1, s2, cs, limit, input, m), input, m) == Some(Fresh(rank, s2, cs, input, m))
  {
    hide IndexOf, Changed, Answer, Fresh;
    if !SameAnswers(s1, s2, cs) {
      var rank := Telling(s1, s2, cs);
      SecondAnswerIsOld(rank, s1, s2, cs, limit, input, m);
    } else {
      forall rank: Ranking
        ensures Answer(rank, Changed(rank, s1, s2, cs, limit, input, m), input, m) == Some(Fresh(rank, s2, cs, input, m))
      {
        SecondAnswerIsOld(rank, s1, s2, cs, limit, input, m);
        SameAnswersAreEqual(rank, s1, s2, cs, input, m);
      }
    }
  }

  // ---------------------------------------------------------------- one run for each kind of change

  function WeightOf(t: Tuning, item: string): real {
    if item in t.weights then t.weights[item] else 1.0
  }

  /** Of "park" and "parse" those in the index that pass the filters, the heavier one first. */
  function Plausible(index: map<string, string>, cs: bool, t: Tuning, input: string, m: MatchType): seq<string> {
    var first, second := if WeightOf(t, "parse") > WeightOf(t, "park") then "parse" else "park",
                         if WeightOf(t, "parse") > WeightOf(t, "park") then "park" else "parse";
    (if first in index && Passes(t.filters, first) then [first] else [])
    + if second in index && Passes(t.filters, second) then [second] else []
  }

  predicate Passes(filters: seq<string -> bool>, item: string) {
    forall i :: 0 <= i < |filters| ==> filters[i](item)
  }

  /** What a new engine shows. */
  lemma FreshPlausible(s: Settings)
    requires s.maxSuggestions == 5
    ensures var first, second := if WeightOf(s.tuning, "parse") > WeightOf(s.tuning, "park") then "parse" else "park",
                                 if WeightOf(s.tuning, "parse") > WeightOf(s.tuning, "park") then "park" else "parse";
            Fresh(Plausible, s, true, "par", Prefix) ==
            (if first in s.dataset && Passes(s.tuning.filters, first) then [first] else [])
            + if second in s.dataset && Passes(s.tuning.filters, second) then [second] else []
  {
    IndexKeys(s.dataset, "park");
    IndexKeys(s.dataset, "parse");
    hide IndexOf, Passes, WeightOf;
  }

  /** With `before`, then `after`, the second of two calls still shows `old`, a new engine `new'`. */
  ghost predicate Stale(before: Settings, after: Settings, old': seq<string>, new': seq<string>) {
    var s := Changed(Plausible, before, after, true, 10, "par", Prefix);
    && Answer(Plausible, s, "par", Prefix) == Some(old')
    && Fresh(Plausible, s.settings, true, "par", Prefix) == new'
  }

  lemma StaleWhen(before: Settings, after: Settings, old': seq<string>, new': seq<string>)
    requires Fresh(Plausible, before, true, "par", Prefix) == old'
    requires Fresh(Plausible, after, true, "par", Prefix) == new'
    ensures Stale(before, after, old', new')
  {
    SecondAnswerIsOld(Plausible, before, after, true, 10, "par", Prefix);
    hide Changed, Answer, Fresh;
  }

  const UNTUNED: Tuning := Tuning(map[], [])
  const BOTH: Settings := Settings(["park", "parse"], UNTUNED, 5)

  lemma StaleAfterSetDataset()
    ensures Stale(Settings(["park"], UNTUNED, 5), Settings(["parse"], UNTUNED, 5), ["park"], ["parse"])
  {
    var before, after := Settings(["park"], UNTUNED, 5), Settings(["parse"], UNTUNED, 5);
    FreshPlausible(before);
    FreshPlausible(after);
    hide Fresh;
    StaleWhen(before, after, ["park"], ["parse"]);
  }

  lemma StaleAfterUpdateDataset()
    ensures Stale(Settings(["park"], UNTUNED, 5), Settings(["park"] + ["parse"], UNTUNED, 5), ["park"], ["park", "parse"])
  {
    var before, after := Settings(["park"], UNTUNED, 5), Settings(["park"] + ["parse"], UNTUNED, 5);
    FreshPlausible(before);
    FreshPlausible(after);
    hide Fresh;
    StaleWhen(before, after, ["park"], ["park", "parse"]);
  }

  lemma StaleAfterSetWeight()
    ensures Stale(BOTH, BOTH.(tuning := UNTUNED.(weights := map["parse" := 2.0])), ["park", "parse"], ["parse", "park"])
  {
    var after := BOTH.(tuning := UNTUNED.(weights := map["parse" := 2.0]));
    FreshPlausible(BOTH);
    FreshPlausible(after);
    hide Fresh;
    StaleWhen(BOTH, after, ["park", "parse"], ["parse", "park"]);
  }

  lemma StaleAfterAddFilter(filter: string -> bool)
    requires filter("parse") && !filter("park")
    ensures Stale(BOTH, BOTH.(tuning := UNTUNED.(filters := [filter])), ["park", "parse"], ["parse"])
  {
    var after := BOTH.(tuning := UNTUNED.(filters := [filter]));
    FreshPlausible(BOTH);
    FreshPlausible(after);
    assert !Passes([filter], "park") && Passes([filter], "parse") by {
      assert [filter][0] == filter;
    }
    hide Fresh, Passes;
    StaleWhen(BOTH, after, ["park", "parse"], ["parse"]);
  }
}
