/**
 The result cache of src/debug/suggestion.cpp as a state machine.  Matching and scoring enter as a
 fixed function `rank` from the index, the case flag, the weights and filters, the input and the
 match type to the matching items, best first.
 */
module SuggestionCache {
  import opened Common

  datatype MatchType = Prefix | Substring | Fuzzy | Regex

  // ---------------------------------------------------------------- keys

  function Digit(m: MatchType): char {
    match m case Prefix => '0' case Substring => '1' case Fuzzy => '2' case Regex => '3'
  }

  function MakeCacheKey(input: string, m: MatchType, caseSensitive: bool): string {
    input + ":" + [Digit(m)] + ":" + (if caseSensitive then "1" else "0")
  }

  /** Also for inputs that contain colons and digits. */
  lemma KeysAreInjective(i1: string, m1: MatchType, c1: bool, i2: string, m2: MatchType, c2: bool)
    requires MakeCacheKey(i1, m1, c1) == MakeCacheKey(i2, m2, c2)
    ensures i1 == i2 && m1 == m2 && c1 == c2
  {
    var k1, k2 := MakeCacheKey(i1, m1, c1), MakeCacheKey(i2, m2, c2);
    assert k1[..|k1| - 4] == i1 && k2[..|k2| - 4] == i2;
    assert k1[|k1| - 3] == Digit(m1) && k2[|k2| - 3] == Digit(m2);
    assert k1[|k1| - 1] == (if c1 then '1' else '0') && k2[|k2| - 1] == (if c2 then '1' else '0');
  }

  // ---------------------------------------------------------------- the index

  function ToLower(s: string): string {
    seq(|s|, i requires 0 <= i < |s| => if 'A' <= s[i] <= 'Z' then s[i] + 32 as char else s[i])
  }

  const UPPER_CASE := "ABCDEFGHIJKLMNOPQRSTUVWXYZ"
  const LOWER_CASE := "abcdefghijklmnopqrstuvwxyz"

  /** Letter by letter; everything else stays. */
  lemma LowerCaseIs(s: string, i: nat, k: nat)
    requires i < |s| == |ToLower(s)| && k < 26
    ensures s[i] == UPPER_CASE[k] ==> ToLower(s)[i] == LOWER_CASE[k]
    ensures s[i] !in UPPER_CASE ==> ToLower(s)[i] == s[i]
  {
    if 'A' <= s[i] <= 'Z' {
      Alphabet((s[i] - 'A') as nat);
    }
    Alphabet(k);
  }

  lemma Alphabet(k: nat)
    requires k < 26
    ensures UPPER_CASE[k] == 'A' + k as char && LOWER_CASE[k] == 'a' + k as char
  {
  }

  function Fold(item: string, caseSensitive: bool): string {
    if caseSensitive then item else ToLower(item)
  }

  /** What `buildIndex` leaves: of items that fold to the same key the first stays (`emplace`). */
  function IndexOf(dataset: seq<string>, caseSensitive: bool): map<string, string> {
    if dataset == [] then map[]
    else
      var before, item := IndexOf(dataset[..|dataset| - 1], caseSensitive), dataset[|dataset| - 1];
      var key := Fold(item, caseSensitive);
      if key in before then before else before[key := item]
  }

  /** Some item folds to `key`, and `item` is the first that does. */
  ghost predicate IsFirst(dataset: seq<string>, caseSensitive: bool, key: string, item: string) {
    exists i ::
      && 0 <= i < |dataset| && dataset[i] == item && Fold(item, caseSensitive) == key
      && forall j :: 0 <= j < i ==> Fold(dataset[j], caseSensitive) != key
  }

  ghost predicate Occurs(dataset: seq<string>, caseSensitive: bool, key: string) {
    exists i :: 0 <= i < |dataset| && Fold(dataset[i], caseSensitive) == key
  }

  lemma {:induction false} IndexAt(dataset: seq<string>, caseSensitive: bool, key: string)
    ensures key in IndexOf(dataset, caseSensitive) <==> Occurs(dataset, caseSensitive, key)
    ensures key in IndexOf(dataset, caseSensitive) ==>
              IsFirst(dataset, caseSensitive, key, IndexOf(dataset, caseSensitive)[key])
    decreases |dataset|
  {
    hide Fold;
    if dataset != [] {
      var n := |dataset| - 1;
      var front := dataset[..n];
      IndexAt(front, caseSensitive, key);
      assert forall i :: 0 <= i < n ==> dataset[i] == front[i];
      assert Occurs(front, caseSensitive, key) ==> Occurs(dataset, caseSensitive, key);
      if key in IndexOf(front, caseSensitive) {
        FirstOfMore(dataset, caseSensitive, key, IndexOf(front, caseSensitive)[key]);
      } else if Fold(dataset[n], caseSensitive) == key {
        assert forall i :: 0 <= i < n ==> Fold(front[i], caseSensitive) != key;
        assert IsFirst(dataset, caseSensitive, key, dataset[n]);
      }
    }
  }

  lemma FirstOfMore(dataset: seq<string>, caseSensitive: bool, key: string, item: string)
    requires dataset != [] && IsFirst(dataset[..|dataset| - 1], caseSensitive, key, item)
    ensures IsFirst(dataset, caseSensitive, key, item)
  {
    hide Fold;
    var front := dataset[..|dataset| - 1];
    var i :| 0 <= i < |front| && front[i] == item && Fold(item, caseSensitive) == key
             && forall j :: 0 <= j < i ==> Fold(front[j], caseSensitive) != key;
    assert dataset[i] == item;
    assert forall j :: 0 <= j < i ==> dataset[j] == front[j];
  }

  /** The index holds, for every key, the first item that folds to it, and nothing else. */
  lemma IndexHoldsFirsts(dataset: seq<string>, caseSensitive: bool, key: string, item: string)
    ensures (key in IndexOf(dataset, caseSensitive) && IndexOf(dataset, caseSensitive)[key] == item)
            <==> IsFirst(dataset, caseSensitive, key, item)
  {
    IndexAt(dataset, caseSensitive, key);
    hide Fold, IndexOf;
    if IsFirst(dataset, caseSensitive, key, item) {
      assert Occurs(dataset, caseSensitive, key);
    }
  }

  /** With case sensitivity the keys are the items themselves, without it the items in lower case. */
  lemma IndexKeys(dataset: seq<string>, key: string)
    ensures key in IndexOf(dataset, true) <==> key in dataset
    ensures key in IndexOf(dataset, true) ==> IndexOf(dataset, true)[key] == key
    ensures key in IndexOf(dataset, false) <==> exists i :: 0 <= i < |dataset| && ToLower(dataset[i]) == key
    ensures key in IndexOf(dataset, false) ==>
              IndexOf(dataset, false)[key] in dataset && ToLower(IndexOf(dataset, false)[key]) == key
  {
    hide IndexOf, ToLower;
    IndexAt(dataset, true, key);
    IndexAt(dataset, false, key);
  }

  // ---------------------------------------------------------------- the engine

  datatype Tuning = Tuning(weights: map<string, real>, filters: seq<string -> bool>)

  /** What an answer depends on besides the call and the case flag. */
  datatype Settings = Settings(dataset: seq<string>, tuning: Tuning, maxSuggestions: int)

  datatype Stats = Stats(calls: nat, hits: nat, misses: nat, cacheSize: nat, datasetSize: nat)

  /** The two maps.  `inserted` (insertions so far) and `born` (the number of each cached entry's
      insertion) are bookkeeping of this model. */
  datatype Memo = Memo(cache: map<string, seq<string>>, accessTime: map<string, int>, inserted: nat,
                       born: map<string, nat>)

  datatype Engine = Engine(settings: Settings, caseSensitive: bool, maxCacheSize: nat, index: map<string, string>,
                              memo: Memo, stats: Stats)

  type Ranking = (map<string, string>, bool, Tuning, string, MatchType) -> seq<string>

  /** `maxSuggestions` is compared after a cast to an unsigned type: a negative limit is no limit. */
  function Limited(items: seq<string>, maxSuggestions: int): seq<string> {
    if 0 <= maxSuggestions < |items| then items[..maxSuggestions] else items
  }

  /** `processSuggestions` on the engine as it is. */
  function Process(rank: Ranking, s: Engine, input: string, m: MatchType): seq<string> {
    Limited(rank(s.index, s.caseSensitive, s.settings.tuning, input, m), s.settings.maxSuggestions)
  }

  /** The answer of an engine set up from scratch with these settings. */
  function Fresh(rank: Ranking, settings: Settings, caseSensitive: bool, input: string, m: MatchType): seq<string> {
    Limited(rank(IndexOf(settings.dataset, caseSensitive), caseSensitive, settings.tuning, input, m),
            settings.maxSuggestions)
  }

  function NewEngine(settings: Settings, caseSensitive: bool, maxCacheSize: nat): Engine {
    Engine(settings, caseSensitive, maxCacheSize, IndexOf(settings.dataset, caseSensitive),
           Memo(map[], map[], 0, map[]), Stats(0, 0, 0, 0, |settings.dataset|))
  }

  function ToRemove(maxCacheSize: nat): nat {
    if maxCacheSize / 5 < 1 then 1 else maxCacheSize / 5
  }

  /** A choice of oldest entries that the sort may put first; the sort is free between equal times. */
  predicate IsOldest(memo: Memo, maxCacheSize: nat, evicted: set<string>) {
    && evicted <= memo.accessTime.Keys
    && |evicted| == (if ToRemove(maxCacheSize) <= |memo.cache| then ToRemove(maxCacheSize) else |memo.cache|)
    && forall gone, kept :: gone in evicted && kept in memo.accessTime.Keys - evicted ==>
                              memo.accessTime[gone] <= memo.accessTime[kept]
  }

  /** What is evicted when an entry is added. */
  predicate MakesRoom(memo: Memo, maxCacheSize: nat, evicted: set<string>) {
    if |memo.cache| >= maxCacheSize then IsOldest(memo, maxCacheSize, evicted) else evicted == {}
  }

  function Insert(memo: Memo, key: string, value: seq<string>, now: int, evicted: set<string>): Memo {
    Memo((memo.cache - evicted)[key := value], (memo.accessTime - evicted)[key := now], memo.inserted + 1,
         (memo.born - evicted)[key := memo.inserted])
  }

  /** `SetSettings` covers `setDataset`, `updateDataset`, `setWeight`, `addFilter`, `clearFilters` and
      `setMaxSuggestions`: they lock, change something that answers depend on and rebuild the index. */
  datatype Event =
    | Suggest(input: string, matchType: MatchType, now: int, evicted: set<string>)
    | ClearCache
    | SetCaseSensitivity(caseSensitive: bool)
    | SetSettings(settings: Settings)
    | ResetStats

  predicate Hits(s: Engine, input: string, m: MatchType) {
    MakeCacheKey(input, m, s.caseSensitive) in s.memo.cache
  }

  /** `suggest` reaches the insertion. */
  predicate Misses(s: Engine, e: Event) {
    e.Suggest? && e.input != [] && !Hits(s, e.input, e.matchType)
  }

  predicate Enabled(s: Engine, e: Event) {
    if Misses(s, e) then MakesRoom(s.memo, s.maxCacheSize, e.evicted) else e.Suggest? ==> e.evicted == {}
  }

  function AfterHit(s: Engine): Engine {
    s.(stats := s.stats.(calls := s.stats.calls + 1, hits := s.stats.hits + 1))
  }

  function AfterMiss(s: Engine, memo: Memo): Engine {
    s.(memo := memo,
       stats := s.stats.(calls := s.stats.calls + 1, misses := s.stats.misses + 1, cacheSize := |memo.cache|))
  }

  function Step(rank: Ranking, s: Engine, e: Event): Engine {
    match e
    case Suggest(input, m, now, evicted) =>
      if input == [] then s
      else if Hits(s, input, m) then AfterHit(s)
      else
        AfterMiss(s, Insert(s.memo, MakeCacheKey(input, m, s.caseSensitive), Process(rank, s, input, m), now, evicted))
    case ClearCache =>
      s.(memo := Memo(map[], map[], s.memo.inserted, map[]), stats := s.stats.(cacheSize := 0))
    case SetCaseSensitivity(cs) =>
      if s.caseSensitive == cs then s else s.(caseSensitive := cs, index := IndexOf(s.settings.dataset, cs))
    case SetSettings(settings) =>
      s.(settings := settings, index := IndexOf(settings.dataset, s.caseSensitive),
         stats := s.stats.(datasetSize := |settings.dataset|))
    case ResetStats =>
      s.(stats := Stats(0, 0, 0, |s.memo.cache|, |s.settings.dataset|))
  }

  /** What `suggest` returns: `None` for the exception on an empty input. */
  function Answer(rank: Ranking, s: Engine, input: string, m: MatchType): Option<seq<string>> {
    if input == [] then None
    else if Hits(s, input, m) then Some(s.memo.cache[MakeCacheKey(input, m, s.caseSensitive)])
    else Some(Process(rank, s, input, m))
  }

  // ---------------------------------------------------------------- shape

  ghost predicate MemoShape(memo: Memo, maxCacheSize: nat) {
    && memo.accessTime.Keys == memo.cache.Keys && memo.born.Keys == memo.cache.Keys
    && |memo.cache| <= (if maxCacheSize < 1 then 1 else maxCacheSize)
    && Numbered(memo.born, memo.inserted)
  }

  /** What no change of settings disturbs. */
  ghost predicate Shape(s: Engine) {
    && MemoShape(s.memo, s.maxCacheSize)
    && s.stats.cacheSize == |s.memo.cache| && s.stats.calls == s.stats.hits + s.stats.misses
    && s.stats.datasetSize == |s.settings.dataset|
    && s.index == IndexOf(s.settings.dataset, s.caseSensitive)
  }

  /** Distinct numbers below `n`. */
  ghost predicate Numbered(born: map<string, nat>, n: nat) {
    && (forall key :: key in born ==> born[key] < n)
    && (forall a, b :: a in born && b in born && a != b ==> born[a] != born[b])
  }

  lemma RemovedSize<V>(m: map<string, V>, gone: set<string>)
    requires gone <= m.Keys
    ensures |m - gone| == |m| - |gone|
  {
    assert (m - gone).Keys == m.Keys - gone;
    assert |m| == |m.Keys| && |m - gone| == |(m - gone).Keys|;
  }

  lemma InsertedSize<V>(m: map<string, V>, gone: set<string>, key: string, value: V)
    requires gone <= m.Keys && key !in m
    ensures |(m - gone)[key := value]| == |m| - |gone| + 1
  {
    RemovedSize(m, gone);
    var rest := m - gone;
    assert rest[key := value].Keys == rest.Keys + {key};
    assert |rest[key := value]| == |rest[key := value].Keys| && |rest| == |rest.Keys|;
  }

  /** Room is made before an entry is added, also with a limit of zero. */
  lemma RoomIsMade(memo: Memo, maxCacheSize: nat, evicted: set<string>)
    requires MemoShape(memo, maxCacheSize) && MakesRoom(memo, maxCacheSize, evicted)
    ensures evicted <= memo.cache.Keys
    ensures |memo.cache| - |evicted| + 1 <= (if maxCacheSize < 1 then 1 else maxCacheSize)
  {
    hide Numbered;
  }

  lemma InsertKeys(memo: Memo, key: string, value: seq<string>, now: int, evicted: set<string>)
    ensures Insert(memo, key, value, now, evicted).cache.Keys == memo.cache.Keys - evicted + {key}
    ensures Insert(memo, key, value, now, evicted).accessTime.Keys == memo.accessTime.Keys - evicted + {key}
    ensures Insert(memo, key, value, now, evicted).born.Keys == memo.born.Keys - evicted + {key}
  {
  }

  lemma InsertNumbered(memo: Memo, key: string, value: seq<string>, now: int, evicted: set<string>)
    requires Numbered(memo.born, memo.inserted)
    ensures Numbered(Insert(memo, key, value, now, evicted).born, Insert(memo, key, value, now, evicted).inserted)
  {
  }

  lemma InsertShape(memo: Memo, maxCacheSize: nat, key: string, value: seq<string>, now: int, evicted: set<string>)
    requires MemoShape(memo, maxCacheSize) && MakesRoom(memo, maxCacheSize, evicted) && key !in memo.cache
    ensures MemoShape(Insert(memo, key, value, now, evicted), maxCacheSize)
  {
    hide Numbered, MakesRoom, IsOldest;
    RoomIsMade(memo, maxCacheSize, evicted);
    InsertedSize(memo.cache, evicted, key, value);
    assert |Insert(memo, key, value, now, evicted).cache| == |memo.cache| - |evicted| + 1;
    hide Insert;
    InsertKeys(memo, key, value, now, evicted);
    InsertNumbered(memo, key, value, now, evicted);
  }

  lemma StepShape(rank: Ranking, s: Engine, e: Event)
    requires Shape(s) && Enabled(s, e)
    ensures Shape(Step(rank, s, e))
  {
    if Misses(s, e) {
      MissShape(rank, s, e);
    } else {
      hide IndexOf, Numbered, MakesRoom;
    }
  }

  lemma MissShape(rank: Ranking, s: Engine, e: Event)
    requires Shape(s) && Misses(s, e) && MakesRoom(s.memo, s.maxCacheSize, e.evicted)
    ensures Shape(Step(rank, s, e))
  {
    hide IndexOf, MakesRoom, Insert, MemoShape, MakeCacheKey, Process;
    var key, value := MakeCacheKey(e.input, e.matchType, s.caseSensitive), Process(rank, s, e.input, e.matchType);
    var s' := Step(rank, s, e);
    assert s'.memo == Insert(s.memo, key, value, e.now, e.evicted);
    InsertShape(s.memo, s.maxCacheSize, key, value, e.now, e.evicted);
  }

  // ---------------------------------------------------------------- hits against recomputation

  /** Every cached answer is what an engine set up from scratch would compute. */
  ghost predicate Sound(rank: Ranking, s: Engine) {
    forall input, m, cs :: MakeCacheKey(input, m, cs) in s.memo.cache ==>
                             s.memo.cache[MakeCacheKey(input, m, cs)] == Fresh(rank, s.settings, cs, input, m)
  }

  /** For this case flag the settings show equally many items of the same ranking: no item at all, or
      the index, the weights and the filters agree. */
  ghost predicate SameAnswers(s1: Settings, s2: Settings, cs: bool) {
    && (s1.maxSuggestions == s2.maxSuggestions || (s1.maxSuggestions < 0 && s2.maxSuggestions < 0))
    && (s1.maxSuggestions == 0 || (IndexOf(s1.dataset, cs) == IndexOf(s2.dataset, cs) && s1.tuning == s2.tuning))
  }

  /** A change of settings that does not matter to what is cached. */
  ghost predicate Unnoticeable(s: Engine, e: Event) {
    e.SetSettings? ==>
      s.memo.cache == map[] || (SameAnswers(s.settings, e.settings, true) && SameAnswers(s.settings, e.settings, false))
  }

  lemma SameAnswersAreEqual(rank: Ranking, s1: Settings, s2: Settings, cs: bool, input: string, m: MatchType)
    requires SameAnswers(s1, s2, cs)
    ensures Fresh(rank, s1, cs, input, m) == Fresh(rank, s2, cs, input, m)
  {
    hide IndexOf;
  }

  lemma InsertSound(rank: Ranking, s: Engine, input: string, m: MatchType, now: int, evicted: set<string>)
    requires Shape(s) && Sound(rank, s)
    ensures Sound(rank, s.(memo := Insert(s.memo, MakeCacheKey(input, m, s.caseSensitive), Process(rank, s, input, m),
                                          now, evicted)))
  {
    hide IndexOf, Limited, MakeCacheKey, MemoShape;
    var key, value := MakeCacheKey(input, m, s.caseSensitive), Process(rank, s, input, m);
    assert value == Fresh(rank, s.settings, s.caseSensitive, input, m);
    hide Process, Fresh;
    forall i, k, cs | MakeCacheKey(i, k, cs) in s.memo.cache - evicted || MakeCacheKey(i, k, cs) == key
      ensures MakeCacheKey(i, k, cs) == key ==> value == Fresh(rank, s.settings, cs, i, k)
    {
      if MakeCacheKey(i, k, cs) == key {
        KeysAreInjective(i, k, cs, input, m, s.caseSensitive);
      }
    }
  }

  lemma ChangeSound(rank: Ranking, s: Engine, e: Event)
    requires Sound(rank, s) && e.SetSettings? && Unnoticeable(s, e)
    ensures Sound(rank, Step(rank, s, e))
  {
    hide IndexOf, MakeCacheKey, Fresh;
    if s.memo.cache != map[] {
      forall input, m, cs
        ensures Fresh(rank, s.settings, cs, input, m) == Fresh(rank, e.settings, cs, input, m)
      {
        SameAnswersAreEqual(rank, s.settings, e.settings, cs, input, m);
      }
    }
  }

  lemma StepSound(rank: Ranking, s: Engine, e: Event)
    requires Shape(s) && Sound(rank, s) && Enabled(s, e) && Unnoticeable(s, e)
    ensures Sound(rank, Step(rank, s, e))
  {
    if Misses(s, e) {
      InsertSound(rank, s, e.input, e.matchType, e.now, e.evicted);
      hide MakeCacheKey, Fresh, Process, Insert, Shape;
    } else if e.SetSettings? {
      ChangeSound(rank, s, e);
      hide *;
    } else {
      hide MakeCacheKey, Fresh, Insert, Shape, IndexOf;
    }
  }

  /** Events that are possible one after another. */
  ghost predicate IsRun(rank: Ranking, s: Engine, es: seq<Event>)
    decreases |es|
  {
    es != [] ==> Enabled(s, es[0]) && IsRun(rank, Step(rank, s, es[0]), es[1..])
  }

  function Run(rank: Ranking, s: Engine, es: seq<Event>): Engine
    decreases |es|
  {
    if es == [] then s else Run(rank, Step(rank, s, es[0]), es[1..])
  }

  /** Settings are changed only while nothing is cached, or in ways that do not matter. */
  ghost predicate ClearsFirst(rank: Ranking, s: Engine, es: seq<Event>)
    decreases |es|
  {
    es != [] ==> Unnoticeable(s, es[0]) && ClearsFirst(rank, Step(rank, s, es[0]), es[1..])
  }

  lemma {:induction false} RunShape(rank: Ranking, s: Engine, es: seq<Event>)
    requires Shape(s) && IsRun(rank, s, es)
    ensures Shape(Run(rank, s, es))
    decreases |es|
  {
    hide Step, Shape, Enabled;
    if es != [] {
      StepShape(rank, s, es[0]);
      RunShape(rank, Step(rank, s, es[0]), es[1..]);
    }
  }

  lemma {:induction false} RunSound(rank: Ranking, s: Engine, es: seq<Event>)
    requires Shape(s) && Sound(rank, s) && IsRun(rank, s, es) && ClearsFirst(rank, s, es)
    ensures Shape(Run(rank, s, es)) && Sound(rank, Run(rank, s, es))
    decreases |es|
  {
    hide Step, Shape, Enabled, Sound, Unnoticeable;
    if es != [] {
      StepShape(rank, s, es[0]);
      StepSound(rank, s, es[0]);
      RunSound(rank, Step(rank, s, es[0]), es[1..]);
    }
  }

  /** The settings and the case flag that the events leave. */
  function LastSettings(es: seq<Event>, settings: Settings): Settings
    decreases |es|
  {
    if es == [] then settings else LastSettings(es[1..], if es[0].SetSettings? then es[0].settings else settings)
  }

  function LastFlag(es: seq<Event>, caseSensitive: bool): bool
    decreases |es|
  {
    if es == [] then caseSensitive
    else LastFlag(es[1..], if es[0].SetCaseSensitivity? then es[0].caseSensitive else caseSensitive)
  }

  lemma {:induction false} RunSettings(rank: Ranking, s: Engine, es: seq<Event>)
    ensures Run(rank, s, es).settings == LastSettings(es, s.settings)
    ensures Run(rank, s, es).caseSensitive == LastFlag(es, s.caseSensitive)
    decreases |es|
  {
    if es != [] {
      RunSettings(rank, Step(rank, s, es[0]), es[1..]);
    }
  }

  /** After any run from a new engine that clears the cache before changes that matter, every answer
      of `suggest`, hit or miss, is that of an engine set up from scratch with the last settings. */
  lemma AnswersAreFresh(rank: Ranking, settings: Settings, caseSensitive: bool, maxCacheSize: nat,
                           es: seq<Event>, input: string, m: MatchType)
    requires IsRun(rank, NewEngine(settings, caseSensitive, maxCacheSize), es)
    requires ClearsFirst(rank, NewEngine(settings, caseSensitive, maxCacheSize), es)
    ensures var s := Run(rank, NewEngine(settings, caseSensitive, maxCacheSize), es);
            Answer(rank, s, input, m) ==
            if input == [] then None
            else Some(Fresh(rank, LastSettings(es, settings), LastFlag(es, caseSensitive), input, m))
  {
    RunSound(rank, NewEngine(settings, caseSensitive, maxCacheSize), es);
    RunSettings(rank, NewEngine(settings, caseSensitive, maxCacheSize), es);
    AnswerWhenSound(rank, Run(rank, NewEngine(settings, caseSensitive, maxCacheSize), es), input, m);
    hide IndexOf, IsRun, ClearsFirst, Run, LastSettings, LastFlag, Fresh, Answer;
  }

  lemma {:induction false} RunAppend(rank: Ranking, s: Engine, es: seq<Event>, more: seq<Event>)
    requires IsRun(rank, s, es + more)
    ensures IsRun(rank, s, es) && IsRun(rank, Run(rank, s, es), more)
    ensures Run(rank, s, es + more) == Run(rank, Run(rank, s, es), more)
    decreases |es|
  {
    if es == [] {
      assert es + more == more;
    } else {
      assert (es + more)[1..] == es[1..] + more && (es + more)[0] == es[0];
      hide Step, Enabled;
      RunAppend(rank, Step(rank, s, es[0]), es[1..], more);
    }
  }

  lemma {:induction false} NothingChanges(rank: Ranking, s: Engine, es: seq<Event>)
    requires forall e :: e in es ==> !e.SetSettings?
    ensures ClearsFirst(rank, s, es) && LastSettings(es, s.settings) == s.settings
    decreases |es|
  {
    if es != [] {
      assert es[0] in es;
      NothingChanges(rank, Step(rank, s, es[0]), es[1..]);
    }
  }

  lemma ClearedIsSound(rank: Ranking, s: Engine, settings: Settings)
    requires Shape(s)
    ensures var s' := Step(rank, Step(rank, s, ClearCache), SetSettings(settings));
            Shape(s') && Sound(rank, s') && s'.settings == settings && s'.caseSensitive == s.caseSensitive
  {
    var s1 := Step(rank, s, ClearCache);
    StepShape(rank, s, ClearCache);
    StepShape(rank, s1, SetSettings(settings));
    hide IndexOf, MakeCacheKey;
  }

  /** Clearing clears: whatever happened before, settings that are changed right after `clearCache` are
      what every later answer goes by, as long as they are not changed again. */
  lemma ClearedThenChanged(rank: Ranking, settings: Settings, caseSensitive: bool, maxCacheSize: nat,
                           es: seq<Event>, changed: Settings, more: seq<Event>, input: string, m: MatchType)
    requires IsRun(rank, NewEngine(settings, caseSensitive, maxCacheSize),
                   es + ([ClearCache, SetSettings(changed)] + more))
    requires forall e :: e in more ==> !e.SetSettings?
    ensures var all := es + ([ClearCache, SetSettings(changed)] + more);
            Answer(rank, Run(rank, NewEngine(settings, caseSensitive, maxCacheSize), all), input, m) ==
            if input == [] then None else Some(Fresh(rank, changed, LastFlag(all, caseSensitive), input, m))
  {
    hide *;
    var s0 := NewEngine(settings, caseSensitive, maxCacheSize);
    var change := [ClearCache, SetSettings(changed)];
    NewShape(settings, caseSensitive, maxCacheSize);
    RunAppend(rank, s0, es, change + more);
    RunShape(rank, s0, es);
    var s1 := Run(rank, s0, es);
    RunAppend(rank, s1, change, more);
    var s3 := Step(rank, Step(rank, s1, ClearCache), SetSettings(changed));
    RunOfTwo(rank, s1, ClearCache, SetSettings(changed));
    ClearedIsSound(rank, s1, changed);
    NothingChanges(rank, s3, more);
    RunSound(rank, s3, more);
    RunSettings(rank, s3, more);
    RunSettings(rank, s0, es + (change + more));
    AnswerWhenSound(rank, Run(rank, s3, more), input, m);
  }

  lemma NewShape(settings: Settings, caseSensitive: bool, maxCacheSize: nat)
    ensures Shape(NewEngine(settings, caseSensitive, maxCacheSize))
    ensures NewEngine(settings, caseSensitive, maxCacheSize).caseSensitive == caseSensitive
  {
    hide IndexOf;
  }

  lemma RunOfTwo(rank: Ranking, s: Engine, e: Event, f: Event)
    ensures Run(rank, s, [e, f]) == Step(rank, Step(rank, s, e), f)
  {
    hide Step;
    assert [e, f][1..] == [f] && [f][1..] == [];
    assert Run(rank, Step(rank, s, e), [f]) == Run(rank, Step(rank, Step(rank, s, e), f), []);
  }

  lemma AnswerWhenSound(rank: Ranking, s: Engine, input: string, m: MatchType)
    requires Shape(s) && Sound(rank, s)
    ensures Answer(rank, s, input, m) ==
            if input == [] then None else Some(Fresh(rank, s.settings, s.caseSensitive, input, m))
  {
    hide IndexOf, Limited, MemoShape, MakeCacheKey;
  }

  /** The entries change only by a miss and by `clearCache`: no hit, no change of settings or of the case
      flag touches them. */
  lemma EntriesStay(rank: Ranking, s: Engine, e: Event)
    requires Enabled(s, e) && !Misses(s, e)
    ensures e.ClearCache? ==> Step(rank, s, e).memo.cache == map[] && Step(rank, s, e).memo.accessTime == map[]
    ensures !e.ClearCache? ==> Step(rank, s, e).memo == s.memo
  {
  }

  // ---------------------------------------------------------------- the counters

  /** The calls with an input since the counters were last reset, on top of `n`. */
  function CallsSince(es: seq<Event>, n: nat): nat
    decreases |es|
  {
    if es == [] then n
    else CallsSince(es[1..], if es[0].ResetStats? then 0 else n + if es[0].Suggest? && es[0].input != [] then 1 else 0)
  }

  /** Those of them whose answer was not cached. */
  function MissesSince(rank: Ranking, s: Engine, es: seq<Event>, n: nat): nat
    decreases |es|
  {
    if es == [] then n
    else MissesSince(rank, Step(rank, s, es[0]), es[1..],
                     if es[0].ResetStats? then 0 else n + if Misses(s, es[0]) then 1 else 0)
  }

  /** All of them, whether the counters are reset or not. */
  function AllMisses(rank: Ranking, s: Engine, es: seq<Event>): nat
    decreases |es|
  {
    if es == [] then 0 else (if Misses(s, es[0]) then 1 else 0) + AllMisses(rank, Step(rank, s, es[0]), es[1..])
  }

  lemma {:induction false} CountersTell(rank: Ranking, s: Engine, es: seq<Event>)
    ensures Run(rank, s, es).stats.calls == CallsSince(es, s.stats.calls)
    ensures Run(rank, s, es).stats.misses == MissesSince(rank, s, es, s.stats.misses)
    ensures Run(rank, s, es).memo.inserted == s.memo.inserted + AllMisses(rank, s, es)
    decreases |es|
  {
    if es != [] {
      StepCounts(rank, s, es[0]);
      hide Step, Misses;
      CountersTell(rank, Step(rank, s, es[0]), es[1..]);
    }
  }

  lemma StepCounts(rank: Ranking, s: Engine, e: Event)
    ensures var stats, stats' := s.stats, Step(rank, s, e).stats;
            && stats'.calls == (if e.ResetStats? then 0 else stats.calls + if e.Suggest? && e.input != [] then 1 else 0)
            && stats'.misses == (if e.ResetStats? then 0 else stats.misses + if Misses(s, e) then 1 else 0)
    ensures Step(rank, s, e).memo.inserted == s.memo.inserted + if Misses(s, e) then 1 else 0
  {
    hide MakeCacheKey, Process, IndexOf;
  }

  /** The cache never outgrows its limit, both maps have the same keys and the counters agree, over
      every run, changes of settings included. */
  lemma CacheStaysBounded(rank: Ranking, settings: Settings, caseSensitive: bool, maxCacheSize: nat,
                             es: seq<Event>)
    requires IsRun(rank, NewEngine(settings, caseSensitive, maxCacheSize), es)
    ensures var s := Run(rank, NewEngine(settings, caseSensitive, maxCacheSize), es);
            && s.memo.cache.Keys == s.memo.accessTime.Keys
            && |s.memo.cache| <= (if maxCacheSize < 1 then 1 else maxCacheSize)
            && s.stats.cacheSize == |s.memo.cache|
            && s.stats.calls == s.stats.hits + s.stats.misses
  {
    RunShape(rank, NewEngine(settings, caseSensitive, maxCacheSize), es);
    RunKeepsLimit(rank, NewEngine(settings, caseSensitive, maxCacheSize), es);
    hide IndexOf, IsRun, Run;
  }

  lemma {:induction false} RunKeepsLimit(rank: Ranking, s: Engine, es: seq<Event>)
    ensures Run(rank, s, es).maxCacheSize == s.maxCacheSize
    decreases |es|
  {
    if es != [] {
      RunKeepsLimit(rank, Step(rank, s, es[0]), es[1..]);
    }
  }

  // ---------------------------------------------------------------- first in, first out

  /** Entries that entered earlier have earlier times, and no time is after `now`. */
  ghost predicate Aged(memo: Memo, now: int) {
    && (forall key :: key in memo.accessTime ==> memo.accessTime[key] <= now)
    && forall a, b :: (a in memo.born && b in memo.born && a in memo.accessTime && b in memo.accessTime
                       && memo.born[a] < memo.born[b]) ==> memo.accessTime[a] <= memo.accessTime[b]
  }

  /** As `Aged`, for a clock that has moved between any two insertions. */
  ghost predicate StrictlyAged(memo: Memo, now: int) {
    && (forall key :: key in memo.accessTime ==> memo.accessTime[key] <= now)
    && forall a, b :: (a in memo.born && b in memo.born && a in memo.accessTime && b in memo.accessTime
                       && memo.born[a] < memo.born[b]) ==> memo.accessTime[a] < memo.accessTime[b]
  }

  lemma InsertEntries(memo: Memo, key: string, value: seq<string>, now: int, evicted: set<string>)
    ensures var memo' := Insert(memo, key, value, now, evicted);
            && (forall k :: k in memo'.accessTime ==>
                  if k == key then memo'.accessTime[k] == now
                  else k in memo.accessTime && memo'.accessTime[k] == memo.accessTime[k])
            && (forall k :: k in memo'.born ==>
                  if k == key then memo'.born[k] == memo.inserted else k in memo.born && memo'.born[k] == memo.born[k])
  {
  }

  lemma InsertAged(memo: Memo, key: string, value: seq<string>, now: int, evicted: set<string>, was: int)
    requires Numbered(memo.born, memo.inserted) && Aged(memo, was) && was <= now
    ensures Aged(Insert(memo, key, value, now, evicted), now)
  {
    InsertEntries(memo, key, value, now, evicted);
    hide Insert;
  }

  lemma InsertStrictlyAged(memo: Memo, key: string, value: seq<string>, now: int, evicted: set<string>, was: int)
    requires Numbered(memo.born, memo.inserted) && StrictlyAged(memo, was) && was < now
    ensures StrictlyAged(Insert(memo, key, value, now, evicted), now)
  {
    InsertEntries(memo, key, value, now, evicted);
    hide Insert;
  }

  lemma MissMemo(rank: Ranking, s: Engine, e: Event)
    requires Shape(s) && Misses(s, e)
    ensures e.Suggest? && Numbered(s.memo.born, s.memo.inserted)
    ensures Step(rank, s, e).memo == Insert(s.memo, MakeCacheKey(e.input, e.matchType, s.caseSensitive),
                                            Process(rank, s, e.input, e.matchType), e.now, e.evicted)
  {
    hide IndexOf, Insert, Process, MakeCacheKey, Numbered;
  }

  lemma StepAged(rank: Ranking, s: Engine, e: Event, was: int)
    requires Shape(s) && Aged(s.memo, was) && (e.Suggest? ==> was <= e.now)
    ensures Aged(Step(rank, s, e).memo, if e.Suggest? then e.now else was)
  {
    if Misses(s, e) {
      hide *;
      MissMemo(rank, s, e);
      InsertAged(s.memo, MakeCacheKey(e.input, e.matchType, s.caseSensitive),
                 Process(rank, s, e.input, e.matchType), e.now, e.evicted, was);
    } else {
      hide MakeCacheKey, Process, Insert, IndexOf, MemoShape;
    }
  }

  lemma StepStrictlyAged(rank: Ranking, s: Engine, e: Event, was: int)
    requires Shape(s) && StrictlyAged(s.memo, was) && (e.Suggest? ==> was < e.now)
    ensures StrictlyAged(Step(rank, s, e).memo, if e.Suggest? then e.now else was)
  {
    if Misses(s, e) {
      hide *;
      MissMemo(rank, s, e);
      InsertStrictlyAged(s.memo, MakeCacheKey(e.input, e.matchType, s.caseSensitive),
                         Process(rank, s, e.input, e.matchType), e.now, e.evicted, was);
    } else {
      hide MakeCacheKey, Process, Insert, IndexOf, MemoShape;
    }
  }

  /** A clock that does not go back, read once by every call. */
  predicate ClockOrdered(es: seq<Event>, now: int)
    decreases |es|
  {
    es != [] ==>
      (es[0].Suggest? ==> now <= es[0].now) && ClockOrdered(es[1..], if es[0].Suggest? then es[0].now else now)
  }

  predicate ClockMoves(es: seq<Event>, now: int)
    decreases |es|
  {
    es != [] ==>
      (es[0].Suggest? ==> now < es[0].now) && ClockMoves(es[1..], if es[0].Suggest? then es[0].now else now)
  }

  function LastTime(es: seq<Event>, now: int): int
    decreases |es|
  {
    if es == [] then now else LastTime(es[1..], if es[0].Suggest? then es[0].now else now)
  }

  lemma {:induction false} RunAged(rank: Ranking, s: Engine, es: seq<Event>, now: int)
    requires Shape(s) && IsRun(rank, s, es)
    ensures ClockOrdered(es, now) && Aged(s.memo, now) ==> Aged(Run(rank, s, es).memo, LastTime(es, now))
    ensures ClockMoves(es, now) && StrictlyAged(s.memo, now) ==> StrictlyAged(Run(rank, s, es).memo, LastTime(es, now))
    decreases |es|
  {
    if es != [] {
      var now' := if es[0].Suggest? then es[0].now else now;
      hide Step, Shape, Enabled, Aged, StrictlyAged;
      StepShape(rank, s, es[0]);
      if Aged(s.memo, now) && now <= now' {
        StepAged(rank, s, es[0], now);
      }
      if StrictlyAged(s.memo, now) && (es[0].Suggest? ==> now < now') {
        StepStrictlyAged(rank, s, es[0], now);
      }
      RunAged(rank, Step(rank, s, es[0]), es[1..], now');
    }
  }

  /** What is evicted at a miss entered before everything that is kept, whatever was hit in between:
      "access time" is the time of insertion. */
  lemma EvictsOldestInsertions(rank: Ranking, settings: Settings, caseSensitive: bool, maxCacheSize: nat,
                                  es: seq<Event>, start: int, e: Event, gone: string, kept: string)
    requires IsRun(rank, NewEngine(settings, caseSensitive, maxCacheSize), es)
    requires var s := Run(rank, NewEngine(settings, caseSensitive, maxCacheSize), es);
             Enabled(s, e) && e.Suggest? && gone in e.evicted && kept in s.memo.cache.Keys - e.evicted
    ensures var s := Run(rank, NewEngine(settings, caseSensitive, maxCacheSize), es);
            && gone in s.memo.born && kept in s.memo.born && gone in s.memo.accessTime && kept in s.memo.accessTime
            && (ClockOrdered(es, start)
                ==> s.memo.born[gone] < s.memo.born[kept] || s.memo.accessTime[gone] == s.memo.accessTime[kept])
            && (ClockMoves(es, start) ==> s.memo.born[gone] < s.memo.born[kept])
  {
    var s0 := NewEngine(settings, caseSensitive, maxCacheSize);
    RunShape(rank, s0, es);
    RunAged(rank, s0, es, start);
    hide IndexOf, IsRun, Run, ClockOrdered, ClockMoves, LastTime;
  }

  // ---------------------------------------------------------------- how long an entry stays

  /** Distinct numbers between two bounds. */
  lemma {:induction false} DistinctBetween(keys: set<string>, number: map<string, nat>, low: int, high: int)
    requires keys <= number.Keys && low <= high
    requires forall key :: key in keys ==> low <= number[key] < high
    requires forall a, b :: a in keys && b in keys && a != b ==> number[a] != number[b]
    ensures |keys| <= high - low
    decreases high - low
  {
    if low == high {
      assert keys == {};
    } else if key :| key in keys && number[key] == high - 1 {
      DistinctBetween(keys - {key}, number, low, high - 1);
    } else {
      DistinctBetween(keys, number, low, high - 1);
    }
  }

  /** A miss adds one entry, and only when the cache is full a fifth of its limit, at least one entry, goes. */
  lemma SizeAfterMiss(rank: Ranking, settings: Settings, caseSensitive: bool, maxCacheSize: nat,
                      es: seq<Event>, e: Event)
    requires IsRun(rank, NewEngine(settings, caseSensitive, maxCacheSize), es)
    requires var s := Run(rank, NewEngine(settings, caseSensitive, maxCacheSize), es); Misses(s, e) && Enabled(s, e)
    ensures var s := Run(rank, NewEngine(settings, caseSensitive, maxCacheSize), es);
            var size, limit := |s.memo.cache|, maxCacheSize;
            |Step(rank, s, e).memo.cache| ==
            if size < limit then size + 1
            else if limit == 0 then 1
            else limit - (if limit < 10 then 1 else limit / 5) + 1
  {
    var s0 := NewEngine(settings, caseSensitive, maxCacheSize);
    RunShape(rank, s0, es);
    RunKeepsLimit(rank, s0, es);
    SizeAfterInsert(rank, Run(rank, s0, es), e);
    hide *;
  }

  lemma SizeAfterInsert(rank: Ranking, s: Engine, e: Event)
    requires Shape(s) && Misses(s, e) && Enabled(s, e)
    ensures |Step(rank, s, e).memo.cache| ==
            if |s.memo.cache| < s.maxCacheSize then |s.memo.cache| + 1
            else if s.maxCacheSize == 0 then 1
            else s.maxCacheSize - (if s.maxCacheSize < 10 then 1 else s.maxCacheSize / 5) + 1
  {
    var key, value := MakeCacheKey(e.input, e.matchType, s.caseSensitive), Process(rank, s, e.input, e.matchType);
    RoomIsMade(s.memo, s.maxCacheSize, e.evicted);
    InsertedSize(s.memo.cache, e.evicted, key, value);
    hide MakeCacheKey, Process, IndexOf, Numbered;
  }

  /** An entry is evicted only after four fifths of the limit, or all but one entry, have been inserted
      after it. */
  lemma StaysForAWhile(rank: Ranking, settings: Settings, caseSensitive: bool, maxCacheSize: nat,
                          es: seq<Event>, start: int, e: Event, gone: string)
    requires IsRun(rank, NewEngine(settings, caseSensitive, maxCacheSize), es) && ClockMoves(es, start)
    requires var s := Run(rank, NewEngine(settings, caseSensitive, maxCacheSize), es);
             Enabled(s, e) && e.Suggest? && gone in e.evicted
    ensures var s := Run(rank, NewEngine(settings, caseSensitive, maxCacheSize), es);
            && gone in s.memo.born
            && s.memo.inserted - s.memo.born[gone] - 1 >= maxCacheSize - (if maxCacheSize < 10 then 1 else maxCacheSize / 5)
  {
    var s0 := NewEngine(settings, caseSensitive, maxCacheSize);
    var s := Run(rank, s0, es);
    RunShape(rank, s0, es);
    RunKeepsLimit(rank, s0, es);
    assert |s.memo.cache| >= maxCacheSize && IsOldest(s.memo, maxCacheSize, e.evicted);
    var kept := s.memo.cache.Keys - e.evicted;
    forall key | key in kept
      ensures s.memo.born[gone] + 1 <= s.memo.born[key] < s.memo.inserted
    {
      EvictsOldestInsertions(rank, settings, caseSensitive, maxCacheSize, es, start, e, gone, key);
    }
    hide IndexOf, IsRun, Run, ClockMoves;
    DistinctBetween(kept, s.memo.born, s.memo.born[gone] + 1, s.memo.inserted);
    assert |kept| == |s.memo.cache.Keys| - |e.evicted|;
  }
}
